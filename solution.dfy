/** The solution helpers of Cardinal's nekRS interface (namespace nekrs::solution): the
    characteristic scales of a non-dimensional nekRS case, the rule that turns a
    non-dimensional field value back into a dimensional one, and the unit integrand. */
module Solution {
  import opened CardinalEnums

  /** The process-wide characteristic scales (solution::characteristicScales). The derived
      heat-flux and heat-source scales are stored alongside the scales they derive from. */
  class CharacteristicScales {
    var uRef: real
    var tRef: real
    var dTRef: real
    var lRef: real
    var aRef: real
    var vRef: real
    var rhoRef: real
    var cpRef: real
    var fluxRef: real
    var sourceRef: real
    var nondimensionalT: bool

    /** The derived scales agree with the ones they are derived from. */
    ghost predicate Valid()
      reads this
    {
      && fluxRef == rhoRef * cpRef * uRef * dTRef
      && sourceRef * lRef == fluxRef
    }

    constructor ()
      ensures Valid()
    {
      uRef, tRef, dTRef, lRef, aRef, vRef := 0.0, 0.0, 0.0, 0.0, 0.0, 0.0;
      rhoRef, cpRef, fluxRef, sourceRef := 0.0, 0.0, 0.0, 0.0;
      nondimensionalT := false;
    }

    /** Records the scales of a non-dimensional case (initializeDimensionalScales). */
    method InitializeDimensionalScales(u: real, t: real, dT: real, l: real, rho: real, cp: real)
      requires l != 0.0
      modifies this
      ensures Valid()
      ensures uRef == u && tRef == t && dTRef == dT && lRef == l && rhoRef == rho && cpRef == cp
    {
      uRef, tRef, dTRef, lRef, rhoRef, cpRef := u, t, dT, l, rho, cp;
      fluxRef := rho * cp * u * dT;
      sourceRef := fluxRef / l;
    }

    /** The reference heat-flux scale (referenceFlux). */
    function ReferenceFlux(): (r: real)
      reads this
      requires Valid()
      ensures r == rhoRef * cpRef * uRef * dTRef
    {
      fluxRef
    }

    /** The reference heat-source scale (referenceSource): the heat-flux scale per unit length. */
    function ReferenceSource(): (r: real)
      reads this
      requires Valid()
      ensures r * lRef == ReferenceFlux()
      ensures lRef != 0.0 ==> r == rhoRef * cpRef * uRef * dTRef / lRef
    {
      sourceRef
    }

    /** The scale a field's non-dimensional value is measured in: velocities in uRef, pressure
        in rhoRef uRef^2, temperature in the temperature range dTRef (the offset tRef is not
        part of it), and the unit field in 1. */
    function ReferenceScale(f: NekFieldEnum): (s: real)
      reads this
      ensures uRef > 0.0 && dTRef > 0.0 && rhoRef > 0.0 ==> s > 0.0
    {
      match f
      case VelocityComponent => uRef
      case VelocityX => uRef
      case VelocityY => uRef
      case VelocityZ => uRef
      case Velocity => uRef
      case Temperature => dTRef
      case Pressure => PositiveProduct(rhoRef, uRef); PositiveProduct(rhoRef * uRef, uRef); rhoRef * uRef * uRef
      case Unity => 1.0
    }

    /** A non-dimensional value turned back into dimensional form (dimensionalize). */
    function Dimensionalize(f: NekFieldEnum, value: real): (r: real)
      reads this
      ensures value == 0.0 ==> r == 0.0
      ensures uRef > 0.0 && dTRef > 0.0 && rhoRef > 0.0 ==> (r > 0.0 <==> value > 0.0) && (r < 0.0 <==> value < 0.0)
    {
      var s := ReferenceScale(f);
      SignOfProduct(value, s);
      value * s
    }

    /** The non-dimensional form of a dimensional value: the value divided by its reference scale. */
    function Nondimensionalize(f: NekFieldEnum, value: real): (r: real)
      reads this
      requires ReferenceScale(f) != 0.0
      ensures Dimensionalize(f, r) == value
    {
      value / ReferenceScale(f)
    }

    /** Dimensionalizing undoes non-dimensionalizing and the other way round, whenever the
        field's reference scale is non-zero. */
    lemma DimensionalizeRoundTrip(f: NekFieldEnum, v: real)
      requires ReferenceScale(f) != 0.0
      ensures Nondimensionalize(f, Dimensionalize(f, v)) == v
      ensures Dimensionalize(f, Nondimensionalize(f, v)) == v
    {
    }

    /** Dimensionalizing is a pure rescaling: it adds no offset (temperature included, where
        the offset tRef stays out) and it distributes over sums. */
    lemma DimensionalizeIsScaling(f: NekFieldEnum, v: real, w: real)
      ensures Dimensionalize(Temperature, v) == v * dTRef
      ensures Dimensionalize(f, v + w) == Dimensionalize(f, v) + Dimensionalize(f, w)
    {
    }

    /** With positive velocity, temperature-range and density scales, dimensionalizing keeps
        the order of values. */
    lemma DimensionalizeMonotone(f: NekFieldEnum, v: real, w: real)
      requires uRef > 0.0 && dTRef > 0.0 && rhoRef > 0.0
      requires v < w
      ensures Dimensionalize(f, v) < Dimensionalize(f, w)
    {
    }
  }

  lemma PositiveProduct(a: real, b: real)
    ensures a > 0.0 && b > 0.0 ==> a * b > 0.0
  {
  }

  lemma SignOfProduct(v: real, s: real)
    ensures s > 0.0 ==> (v * s > 0.0 <==> v > 0.0) && (v * s < 0.0 <==> v < 0.0)
  {
    if s > 0.0 {
      if v > 0.0 {
        PositiveProduct(v, s);
      } else if v < 0.0 {
        PositiveProduct(-v, s);
      }
    }
  }

  /** The unit integrand, used to turn an integral of a field into an area or a volume
      (solution::unity): 1 at every GLL index. */
  function UnitIntegrand(id: int): (r: real)
    ensures r == 1.0
  {
    1.0
  }
}
