/** The conversion-factor table of the time units (units/time.h) and the exact
    conversions it induces.

    Each unit is declared as `conversion_factor<std::ratio<N>, B>`: one of the
    unit is N of B, where B is either another, earlier declared time unit or,
    for the base unit `second`, the dimension `time` itself. Flattening a unit
    multiplies the ratios along this definition chain and gives the exact
    number of seconds in one of the unit; converting a value multiplies by the
    ratio of the two flattened factors. Every value the model computes from
    rational inputs is itself rational and exact, so nothing is rounded. */
module TimeUnits {

  /** The dimension a definition chain ends at. This header reaches only
      `units::dimension::time`. */
  datatype Dimension = Time

  /** The eight units declared in the header, in declaration order. */
  datatype TimeUnit = Second | Minute | Hour | Day | Week | Year | JulianYear | GregorianYear

  /** What a conversion factor is expressed in: a dimension (the base unit) or
      another unit. */
  datatype Base = OfDimension(dim: Dimension) | OfUnit(unit: TimeUnit)

  /** `conversion_factor<std::ratio<ratio>, base>`: one of the unit is `ratio`
      of `base`. The header writes only `std::ratio<N>`, whose denominator is
      1, so the ratio is a whole number. */
  datatype ConversionFactor = ConversionFactor(ratio: nat, base: Base)

  /** Position of the unit's declaration in the header; a unit can only be
      defined in terms of one declared before it. */
  function DeclarationOrder(u: TimeUnit): nat
  {
    match u
    case Second => 0
    case Minute => 1
    case Hour => 2
    case Day => 3
    case Week => 4
    case Year => 5
    case JulianYear => 6
    case GregorianYear => 7
  }

  /** The definition table: the conversion factor each unit is declared with. */
  function Definition(u: TimeUnit): (f: ConversionFactor)
    ensures f.ratio >= 1
    ensures f.base.OfDimension? <==> u == Second
    ensures f.base.OfUnit? ==> DeclarationOrder(f.base.unit) < DeclarationOrder(u)
  {
    match u
    case Second => ConversionFactor(1, OfDimension(Time))
    case Minute => ConversionFactor(60, OfUnit(Second))
    case Hour => ConversionFactor(60, OfUnit(Minute))
    case Day => ConversionFactor(24, OfUnit(Hour))
    case Week => ConversionFactor(7, OfUnit(Day))
    case Year => ConversionFactor(365, OfUnit(Day))
    case JulianYear => ConversionFactor(31557600, OfUnit(Second))
    case GregorianYear => ConversionFactor(31556952, OfUnit(Second))
  }

  /** The unit `u` is defined in terms of (its parent in the chain). */
  function Parent(u: TimeUnit): TimeUnit
    requires u != Second
  {
    Definition(u).base.unit
  }

  /** The scale of `u`'s own definition: how many of its parent one `u` is. */
  function Scale(u: TimeUnit): nat
  {
    Definition(u).ratio
  }

  /** Flattened factor: the exact number of seconds in one `u`, the product of
      the ratios along the definition chain. It is always a positive whole
      number. */
  function Seconds(u: TimeUnit): (r: nat)
    ensures r >= 1
    decreases DeclarationOrder(u)
  {
    match Definition(u).base
    case OfDimension(_) => Scale(u)
    case OfUnit(p) => Scale(u) * Seconds(p)
  }

  /** Each entry of `c` but the last is defined in terms of the next one. */
  predicate FollowsDefinitions(c: seq<TimeUnit>)
  {
    forall i {:trigger Definition(c[i])} :: 0 <= i < |c| - 1 ==> Definition(c[i]).base == OfUnit(c[i + 1])
  }

  /** The definition chain of `u`: `u`, its parent, its parent's parent, ...,
      down to the unit defined directly in terms of a dimension. */
  function Chain(u: TimeUnit): (c: seq<TimeUnit>)
    ensures |c| >= 1 && c[0] == u
    ensures Definition(c[|c| - 1]).base.OfDimension?
    decreases DeclarationOrder(u)
  {
    match Definition(u).base
    case OfDimension(_) => [u]
    case OfUnit(p) => [u] + Chain(p)
  }

  /** Product of the definition scales of the units in `c`. */
  function ScaleProduct(c: seq<TimeUnit>): nat
  {
    if c == [] then 1 else Scale(c[0]) * ScaleProduct(c[1..])
  }

  /** The dimension `u` measures: the one named on the line of the unit its
      definition chain ends at (see `DimensionIsChainEnd`). */
  function DimensionOf(u: TimeUnit): Dimension
    decreases DeclarationOrder(u)
  {
    match Definition(u).base
    case OfDimension(d) => d
    case OfUnit(p) => DimensionOf(p)
  }

  /** `units::convert`: `v` of unit `from` expressed in unit `to`, defined only
      between units of one dimension. The result is the same number of seconds
      as `v` of `from`. */
  function Convert(v: real, from: TimeUnit, to: TimeUnit): (r: real)
    requires DimensionOf(from) == DimensionOf(to)
    ensures SameAmount(v, Seconds(from), r, Seconds(to))
  {
    Rescale(v, Seconds(from), Seconds(to))
  }

  /** `v` of a unit of size `s` and `w` of a unit of size `t` are the same
      amount (of seconds, when the sizes are flattened factors). */
  predicate SameAmount(v: real, s: nat, w: real, t: nat)
  {
    v * s as real == w * t as real
  }

  /** Exact rescaling: `v` units of size `s` counted in units of size `t`. */
  function Rescale(v: real, s: nat, t: nat): (r: real)
    requires t > 0
    ensures SameAmount(v, s, r, t)
  {
    v * s as real / t as real
  }

  /** A given amount has only one measure in a unit of positive size. */
  lemma SameAmountUnique(v: real, s: nat, w1: real, w2: real, t: nat)
    requires t > 0 && SameAmount(v, s, w1, t) && SameAmount(v, s, w2, t)
    ensures w1 == w2
  {
    var tr := t as real;
    assert w1 * tr == w2 * tr;
  }

  lemma RescaleIdentity(v: real, s: nat)
    requires s > 0
    ensures Rescale(v, s, s) == v
  {
    SameAmountUnique(v, s, Rescale(v, s, s), v, s);
  }

  lemma RescaleRoundTrip(v: real, s: nat, t: nat)
    requires s > 0 && t > 0
    ensures Rescale(Rescale(v, s, t), t, s) == v
  {
    SameAmountUnique(v, s, Rescale(Rescale(v, s, t), t, s), v, s);
  }

  lemma RescaleChain(v: real, s: nat, t: nat, u: nat)
    requires s > 0 && t > 0 && u > 0
    ensures Rescale(Rescale(v, s, t), t, u) == Rescale(v, s, u)
  {
    SameAmountUnique(v, s, Rescale(Rescale(v, s, t), t, u), Rescale(v, s, u), u);
  }

  lemma RescaleAdditive(x: real, y: real, s: nat, t: nat)
    requires t > 0
    ensures Rescale(x + y, s, t) == Rescale(x, s, t) + Rescale(y, s, t)
  {
    var a, b := Rescale(x, s, t), Rescale(y, s, t);
    assert (a + b) * t as real == a * t as real + b * t as real;
    SameAmountUnique(x + y, s, Rescale(x + y, s, t), a + b, t);
  }

  lemma RescaleHomogeneous(k: real, x: real, s: nat, t: nat)
    requires t > 0
    ensures Scaled(k, Rescale(x, s, t), Rescale(k * x, s, t))
  {
    var a := Rescale(x, s, t);
    assert (k * a) * t as real == k * (a * t as real);
    assert (k * x) * s as real == k * (x * s as real);
    SameAmountUnique(k * x, s, Rescale(k * x, s, t), k * a, t);
  }

  /** `w` is `k` times `v`. */
  predicate Scaled(k: real, v: real, w: real)
  {
    w == k * v
  }

  lemma RescaleMonotone(x: real, y: real, s: nat, t: nat)
    requires s > 0 && t > 0
    ensures x <= y <==> Rescale(x, s, t) <= Rescale(y, s, t)
    ensures x < y <==> Rescale(x, s, t) < Rescale(y, s, t)
  {
    SameAmountMonotone(x, y, s, Rescale(x, s, t), Rescale(y, s, t), t);
  }

  /** Measures of two amounts in one unit are ordered as the amounts are. */
  lemma SameAmountMonotone(x: real, y: real, s: nat, a: real, b: real, t: nat)
    requires s > 0 && t > 0 && SameAmount(x, s, a, t) && SameAmount(y, s, b, t)
    ensures x <= y <==> a <= b
    ensures x < y <==> a < b
  {
    ScalePreservesOrder(x, y, s as real);
    ScalePreservesOrder(a, b, t as real);
  }

  /** Multiplying by a positive factor keeps and reflects order. */
  lemma ScalePreservesOrder(p: real, q: real, c: real)
    requires c > 0.0
    ensures p <= q <==> p * c <= q * c
    ensures p < q <==> p * c < q * c
  {
    assert q * c - p * c == (q - p) * c;
    if p < q {
      assert (q - p) * c > 0.0;
    } else if p == q {
    } else {
      assert (p - q) * c > 0.0;
      assert p * c - q * c == (p - q) * c;
    }
  }

  lemma RescaleMultiple(v: real, k: nat, t: nat)
    requires t > 0
    ensures Rescale(v, k * t, t) == v * k as real
  {
    assert (v * k as real) * t as real == v * (k * t) as real;
    SameAmountUnique(v, k * t, Rescale(v, k * t, t), v * k as real, t);
  }

  /** One unit of size `s` is one unit of size `t` exactly when the sizes agree. */
  lemma RescaleUnit(s: nat, t: nat)
    requires s > 0 && t > 0
    ensures Rescale(1.0, s, t) == 1.0 <==> s == t
  {
    if s == t {
      RescaleIdentity(1.0, s);
    } else {
      assert 1.0 * t as real != 1.0 * s as real;
    }
  }

  /** Every chain ends at `second`, declared against the dimension `time`. */
  lemma {:induction false} ChainEndsAtSecond(u: TimeUnit)
    ensures Chain(u)[|Chain(u)| - 1] == Second
    ensures DimensionOf(u) == Time
    decreases DeclarationOrder(u)
  {
    if u != Second {
      ChainEndsAtSecond(Parent(u));
    }
  }

  /** Each entry of a unit's chain but the last is defined in terms of the
      next one. */
  lemma {:induction false} ChainFollowsDefinitions(u: TimeUnit)
    ensures FollowsDefinitions(Chain(u))
    decreases DeclarationOrder(u)
  {
    match Definition(u).base
    case OfDimension(_) =>
    case OfUnit(p) =>
      ChainFollowsDefinitions(p);
      var c, rest := Chain(u), Chain(p);
      assert c == [u] + rest;
      forall i | 0 <= i < |c| - 1
        ensures Definition(c[i]).base == OfUnit(c[i + 1])
      {
        if i > 0 {
          assert c[i] == rest[i - 1] && c[i + 1] == rest[i];
        }
      }
  }

  /** A unit measures the dimension its definition chain ends at. */
  lemma {:induction false} DimensionIsChainEnd(u: TimeUnit)
    ensures DimensionOf(u) == Definition(Chain(u)[|Chain(u)| - 1]).base.dim
    decreases DeclarationOrder(u)
  {
    match Definition(u).base
    case OfDimension(_) =>
      assert Chain(u) == [u];
    case OfUnit(p) =>
      DimensionIsChainEnd(p);
      assert Chain(u) == [u] + Chain(p);
  }

  /** Flattening is the product of the ratios along the chain. */
  lemma {:induction false} SecondsIsChainProduct(u: TimeUnit)
    ensures Seconds(u) == ScaleProduct(Chain(u))
    decreases DeclarationOrder(u)
  {
    match Definition(u).base
    case OfDimension(_) =>
      assert Chain(u)[1..] == [];
    case OfUnit(p) =>
      SecondsIsChainProduct(p);
      assert Chain(u)[1..] == Chain(p);
  }

  /** The base unit has factor exactly 1; the others compose along their
      chains. */
  lemma FlattenedFactors()
    ensures Seconds(Second) == 1
    ensures Seconds(Minute) == 60
    ensures Seconds(Hour) == 3600
    ensures Seconds(Day) == 86400
    ensures Seconds(Week) == 604800
    ensures Seconds(Year) == 31536000
    ensures Seconds(JulianYear) == 31557600
    ensures Seconds(GregorianYear) == 31556952
  {
  }

  /** One `u` is exactly `Scale(u)` of the unit it is defined in: converting
      along a single table entry multiplies by that entry's ratio. */
  lemma DefinitionIsConversion(v: real, u: TimeUnit)
    requires u != Second
    ensures DimensionOf(u) == DimensionOf(Parent(u))
    ensures Convert(v, u, Parent(u)) == v * Scale(u) as real
  {
    RescaleMultiple(v, Scale(u), Seconds(Parent(u)));
  }

  /** Converting to the same unit changes nothing. */
  lemma ConvertIdentity(v: real, u: TimeUnit)
    ensures Convert(v, u, u) == v
  {
    RescaleIdentity(v, Seconds(u));
  }

  /** Converting from `a` to `b` and back returns the original value. */
  lemma RoundTrip(v: real, a: TimeUnit, b: TimeUnit)
    ensures DimensionOf(a) == DimensionOf(b)
    ensures Convert(Convert(v, a, b), b, a) == v
  {
    RescaleRoundTrip(v, Seconds(a), Seconds(b));
  }

  /** Chained conversion `a -> b -> c` equals the direct conversion `a -> c`. */
  lemma ChainedConversion(v: real, a: TimeUnit, b: TimeUnit, c: TimeUnit)
    ensures DimensionOf(a) == DimensionOf(b) == DimensionOf(c)
    ensures Convert(Convert(v, a, b), b, c) == Convert(v, a, c)
  {
    RescaleChain(v, Seconds(a), Seconds(b), Seconds(c));
  }

  /** Conversion is additive. */
  lemma ConvertAdditive(x: real, y: real, a: TimeUnit, b: TimeUnit)
    ensures DimensionOf(a) == DimensionOf(b)
    ensures Convert(x + y, a, b) == Convert(x, a, b) + Convert(y, a, b)
  {
    RescaleAdditive(x, y, Seconds(a), Seconds(b));
  }

  /** Conversion commutes with scaling:
      `Convert(k * x, a, b) == k * Convert(x, a, b)`. */
  lemma ConvertHomogeneous(k: real, x: real, a: TimeUnit, b: TimeUnit)
    ensures DimensionOf(a) == DimensionOf(b)
    ensures Scaled(k, Convert(x, a, b), Convert(k * x, a, b))
  {
    RescaleHomogeneous(k, x, Seconds(a), Seconds(b));
  }

  /** Conversion is strictly monotone, so it preserves and reflects order. */
  lemma ConvertMonotone(x: real, y: real, a: TimeUnit, b: TimeUnit)
    ensures DimensionOf(a) == DimensionOf(b)
    ensures x <= y <==> Convert(x, a, b) <= Convert(y, a, b)
    ensures x < y <==> Convert(x, a, b) < Convert(y, a, b)
  {
    RescaleMonotone(x, y, Seconds(a), Seconds(b));
  }

  /** One week is 7 days and 168 hours, whether converted directly or via days. */
  lemma WeekInHours()
    ensures DimensionOf(Week) == DimensionOf(Day) == DimensionOf(Hour)
    ensures Convert(1.0, Week, Day) == 7.0
    ensures Convert(7.0, Day, Hour) == 168.0
    ensures Convert(1.0, Week, Hour) == 168.0
  {
    FlattenedFactors();
  }

  /** Exact year lengths in days, and the order of the three years. */
  lemma YearLengths()
    ensures DimensionOf(Year) == DimensionOf(GregorianYear) == DimensionOf(JulianYear) == DimensionOf(Day)
    ensures Convert(1.0, Year, Day) == 365.0
    ensures Convert(1.0, GregorianYear, Day) == 365.2425
    ensures Convert(1.0, JulianYear, Day) == 365.25
    ensures Seconds(Year) < Seconds(GregorianYear) < Seconds(JulianYear)
  {
    FlattenedFactors();
  }

  /** No two units of the table have the same length, so converting one of a
      unit to another gives exactly 1 only when they are the same unit. */
  lemma DistinctUnitsDistinctLengths(a: TimeUnit, b: TimeUnit)
    ensures DimensionOf(a) == DimensionOf(b)
    ensures Seconds(a) == Seconds(b) <==> a == b
    ensures Convert(1.0, a, b) == 1.0 <==> a == b
  {
    FlattenedFactors();
    var sa, sb := Seconds(a), Seconds(b);
    assert Convert(1.0, a, b) == Rescale(1.0, sa, sb);
    RescaleUnit(sa, sb);
  }
}
