/** The top-level Cardinal interface over nekRS: the receive layout for variable-length
    all-gathers, the lifecycle of the flux/heat-source scratch space, and the in-place
    temperature limiter. Ranks, the communicator size and nekRS's own arrays are parameters. */
module Nekrs {
  import opened Wrappers
  import opened Sums

  // ---------------------------------------------------------------------------------
  // Receive counts and displacements for all-gather routines

  /** The layout an MPI_Allgatherv receive needs (section 5.7 of the MPI 3.1 standard):
      rank r contributes `counts[r]` entries, `multiplier` per unit counted in `base`, and they
      are received starting at `displacement[r]`, the total contributed by the ranks before r. */
  ghost predicate IsGatherLayout(base: seq<int>, multiplier: int, counts: seq<int>, displacement: seq<int>)
  {
    && |counts| == |base|
    && |displacement| == |base|
    && (forall r :: 0 <= r < |base| ==> counts[r] == multiplier * base[r])
    && (forall r :: 0 <= r < |base| ==> displacement[r] == Sum(counts[..r]))
  }

  /** Fills `counts` and `displacement`, one entry per rank (the arrays' common length stands
      for the communicator size), from the unit-wise counts `baseCounts`. */
  method DisplacementAndCounts(baseCounts: array<int>, counts: array<int>, displacement: array<int>, multiplier: int)
    requires counts.Length == baseCounts.Length && displacement.Length == baseCounts.Length
    requires counts != displacement && counts != baseCounts && displacement != baseCounts
    modifies counts, displacement
    ensures IsGatherLayout(baseCounts[..], multiplier, counts[..], displacement[..])
  {
    var i := 0;
    var received := 0;
    while i < baseCounts.Length
      invariant 0 <= i <= baseCounts.Length
      invariant forall r :: 0 <= r < i ==> counts[r] == multiplier * baseCounts[r]
      invariant forall r :: 0 <= r < i ==> displacement[r] == Sum(counts[..r])
      invariant received == Sum(counts[..i])
    {
      ghost var before := counts[..];
      counts[i] := multiplier * baseCounts[i];
      displacement[i] := received;
      forall r | 0 <= r <= i ensures counts[..r] == before[..r] {
        assert forall k :: 0 <= k < r ==> counts[..r][k] == before[..r][k];
      }
      SumNext(counts[..], i);
      assert counts[..][..i + 1] == counts[..i + 1];
      received := received + counts[i];
      i := i + 1;
    }
  }

  /** The last rank's block ends at `multiplier` times the total of the unit-wise counts:
      the receive buffer holds exactly the gathered data. */
  lemma GatherSpan(base: seq<int>, multiplier: int, counts: seq<int>, displacement: seq<int>)
    requires IsGatherLayout(base, multiplier, counts, displacement)
    requires |base| > 0
    ensures displacement[0] == 0
    ensures displacement[|base| - 1] + counts[|base| - 1] == multiplier * Sum(base)
  {
    var n := |base|;
    SumNext(counts, n - 1);
    SumWhole(counts);
    assert counts == Scaled(base, multiplier);
    SumScaled(base, multiplier);
  }

  /** Each rank's block starts where the previous rank's block ends. */
  lemma GatherBlocksAdjacent(base: seq<int>, multiplier: int, counts: seq<int>, displacement: seq<int>, r: int)
    requires IsGatherLayout(base, multiplier, counts, displacement)
    requires 0 <= r && r + 1 < |base|
    ensures displacement[r + 1] == displacement[r] + counts[r]
  {
    SumNext(counts, r);
  }

  /** With non-negative counts and multiplier, a lower rank's block ends no later than a higher
      rank's block starts, so no receive location is written twice. */
  lemma GatherBlocksDisjoint(base: seq<int>, multiplier: int, counts: seq<int>, displacement: seq<int>, r: int, s: int)
    requires IsGatherLayout(base, multiplier, counts, displacement)
    requires NonNegative(base) && multiplier >= 0
    requires 0 <= r < s < |base|
    ensures displacement[r] + counts[r] <= displacement[s]
  {
    assert NonNegative(counts) by {
      forall i | 0 <= i < |counts| ensures counts[i] >= 0 {
        assert counts[i] == multiplier * base[i];
      }
    }
    SumNext(counts, r);
    SumMonotone(counts, r + 1, s);
  }

  // ---------------------------------------------------------------------------------
  // Scratch space for the flux and heat-source transfer

  /** The user scratch space: either released, or allocated with one slot for the flux and one
      for the volumetric heat source, each `slotLength` entries long. */
  class Scratch {
    const slotLength: nat
    var available: bool
    var flux: seq<real>
    var heatSource: seq<real>

    ghost predicate Valid()
      reads this
    {
      if available then |flux| == slotLength && |heatSource| == slotLength
      else flux == [] && heatSource == []
    }

    constructor (slotLength: nat)
      ensures Valid() && !available
      ensures this.slotLength == slotLength
    {
      this.slotLength := slotLength;
      available := false;
      flux, heatSource := [], [];
    }

    /** Whether the scratch space is allocated (scratchAvailable). */
    function ScratchAvailable(): (r: bool)
      reads this
      requires Valid()
      ensures r ==> |flux| == slotLength && |heatSource| == slotLength
      ensures !r ==> flux == [] && heatSource == []
    {
      available
    }

    /** Allocates both slots (initializeScratch). What the slots hold right after allocation is
        not part of the interface. */
    method InitializeScratch()
      requires Valid()
      modifies this
      ensures Valid() && ScratchAvailable()
    {
      available := true;
      flux := seq(slotLength, _ => 0.0);
      heatSource := seq(slotLength, _ => 0.0);
    }

    /** Releases the scratch space (freeScratch). */
    method FreeScratch()
      requires Valid()
      modifies this
      ensures Valid() && !ScratchAvailable()
    {
      available := false;
      flux, heatSource := [], [];
    }

    /** Writes one flux value into the scratch space (solution::flux); only valid once allocated. */
    method WriteFlux(id: int, value: real)
      requires Valid() && ScratchAvailable()
      requires 0 <= id < slotLength
      modifies this
      ensures Valid() && ScratchAvailable()
      ensures flux == old(flux)[id := value]
      ensures heatSource == old(heatSource)
    {
      flux := flux[id := value];
    }

    /** Writes one heat-source value into the scratch space (solution::heat_source). */
    method WriteHeatSource(id: int, value: real)
      requires Valid() && ScratchAvailable()
      requires 0 <= id < slotLength
      modifies this
      ensures Valid() && ScratchAvailable()
      ensures heatSource == old(heatSource)[id := value]
      ensures flux == old(flux)
    {
      heatSource := heatSource[id := value];
    }
  }

  // ---------------------------------------------------------------------------------
  // Temperature limiting

  /** A bound that is absent (a null pointer) does not limit that side. */
  predicate WithinBounds(x: real, minT: Option<real>, maxT: Option<real>)
  {
    (minT.Some? ==> minT.value <= x) && (maxT.Some? ==> x <= maxT.value)
  }

  predicate BoundsOrdered(minT: Option<real>, maxT: Option<real>)
  {
    minT.Some? && maxT.Some? ==> minT.value <= maxT.value
  }

  /** One temperature value limited to [minT, maxT]. */
  function Limit(x: real, minT: Option<real>, maxT: Option<real>): (r: real)
    ensures BoundsOrdered(minT, maxT) ==> WithinBounds(r, minT, maxT)
    ensures WithinBounds(x, minT, maxT) ==> r == x
    ensures r == x || (minT.Some? && r == minT.value) || (maxT.Some? && r == maxT.value)
    ensures minT.Some? && x < minT.value && BoundsOrdered(minT, maxT) ==> r == minT.value
    ensures maxT.Some? && x > maxT.value ==> r == maxT.value
  {
    var raised := if minT.Some? && x < minT.value then minT.value else x;
    if maxT.Some? && raised > maxT.value then maxT.value else raised
  }

  /** Clamps every temperature in place (limitTemperature); `temperature` stands for nekRS's
      temperature array over the temperature mesh. */
  method LimitTemperature(temperature: array<real>, minT: Option<real>, maxT: Option<real>)
    modifies temperature
    ensures forall i :: 0 <= i < temperature.Length ==> temperature[i] == Limit(old(temperature[i]), minT, maxT)
    ensures BoundsOrdered(minT, maxT) ==>
              forall i :: 0 <= i < temperature.Length ==> WithinBounds(temperature[i], minT, maxT)
  {
    if minT.None? && maxT.None? {
      return;
    }
    var n := 0;
    while n < temperature.Length
      invariant 0 <= n <= temperature.Length
      invariant forall i :: 0 <= i < n ==> temperature[i] == Limit(old(temperature[i]), minT, maxT)
      invariant forall i :: n <= i < temperature.Length ==> temperature[i] == old(temperature[i])
    {
      if minT.Some? && temperature[n] < minT.value {
        temperature[n] := minT.value;
      }
      if maxT.Some? && temperature[n] > maxT.value {
        temperature[n] := maxT.value;
      }
      n := n + 1;
    }
  }
}
