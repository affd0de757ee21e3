/** The closed enumerations Cardinal uses to talk to nekRS (CardinalEnums.h): mesh order, the
    fields that can be read from nekRS, the fields that can be written into it, and the global
    extremum operations. Reads and writes are separate types, so a read field can never be
    handed to the write dispatch or the other way round. Each enumeration comes with the list
    of its values in declaration order and the position of each value in that list. */
module CardinalEnums {
  import opened Wrappers

  // ---------------------------------------------------------------------------------
  // order::NekOrderEnum

  /** Order of the surface or volume data-transfer mesh. */
  datatype NekOrderEnum = First | Second

  const Orders: seq<NekOrderEnum> := [First, Second]

  /** The integer by which the interface passes an order: 0 = first, 1 = second. */
  function OrderValue(o: NekOrderEnum): (v: int)
    ensures 0 <= v < |Orders| && Orders[v] == o
    ensures OrderFromValue(v) == Some(o)
  {
    match o
    case First => 0
    case Second => 1
  }

  /** The order an integer argument denotes, if any. */
  function OrderFromValue(v: int): (o: Option<NekOrderEnum>)
    ensures o.Some? <==> 0 <= v < |Orders|
    ensures o.Some? ==> Orders[v] == o.value
  {
    if 0 <= v < |Orders| then Some(Orders[v]) else None
  }

  /** Every integer that denotes an order is that order's value, so the two conversions
      are inverse in both directions. */
  lemma OrderFromValueInverse(v: int)
    ensures OrderFromValue(v).Some? ==> OrderValue(OrderFromValue(v).value) == v
  {
  }

  // ---------------------------------------------------------------------------------
  // field::NekFieldEnum

  /** Fields that can be read from nekRS. */
  datatype NekFieldEnum =
    | VelocityComponent
    | VelocityX
    | VelocityY
    | VelocityZ
    | Velocity
    | Temperature
    | Pressure
    | Unity

  const ReadFields: seq<NekFieldEnum> :=
    [VelocityComponent, VelocityX, VelocityY, VelocityZ, Velocity, Temperature, Pressure, Unity]

  /** Position of a read field in declaration order (its C++ enumerator value). */
  function FieldOrdinal(f: NekFieldEnum): (i: int)
    ensures 0 <= i < |ReadFields| && ReadFields[i] == f
  {
    match f
    case VelocityComponent => 0
    case VelocityX => 1
    case VelocityY => 2
    case VelocityZ => 3
    case Velocity => 4
    case Temperature => 5
    case Pressure => 6
    case Unity => 7
  }

  /** There are exactly eight read fields, each listed once. */
  lemma ReadFieldsClosed()
    ensures |ReadFields| == 8
    ensures forall i, j :: 0 <= i < j < |ReadFields| ==> ReadFields[i] != ReadFields[j]
    ensures forall f: NekFieldEnum :: FieldOrdinal(f) < |ReadFields| && ReadFields[FieldOrdinal(f)] == f
  {
  }

  // ---------------------------------------------------------------------------------
  // field::NekWriteEnum

  /** Fields that can be written into nekRS. */
  datatype NekWriteEnum =
    | Flux
    | HeatSource
    | XDisplacement
    | YDisplacement
    | ZDisplacement

  const WriteFields: seq<NekWriteEnum> := [Flux, HeatSource, XDisplacement, YDisplacement, ZDisplacement]

  /** Position of a write field in declaration order. */
  function WriteOrdinal(f: NekWriteEnum): (i: int)
    ensures 0 <= i < |WriteFields| && WriteFields[i] == f
  {
    match f
    case Flux => 0
    case HeatSource => 1
    case XDisplacement => 2
    case YDisplacement => 3
    case ZDisplacement => 4
  }

  /** There are exactly five write fields, each listed once. */
  lemma WriteFieldsClosed()
    ensures |WriteFields| == 5
    ensures forall i, j :: 0 <= i < j < |WriteFields| ==> WriteFields[i] != WriteFields[j]
  {
  }

  // ---------------------------------------------------------------------------------
  // operation::OperationEnum

  /** The global extremum reductions. */
  datatype OperationEnum = Max | Min

  const Operations: seq<OperationEnum> := [Max, Min]

  function OperationOrdinal(op: OperationEnum): (i: int)
    ensures 0 <= i < |Operations| && Operations[i] == op
  {
    match op
    case Max => 0
    case Min => 1
  }
}
