/** The names the header's unit macros generate (units/time.h).

    Each unit line passes a singular name, a plural name and an abbreviation
    to a macro. The macro declares three unit tags (singular, plural and
    abbreviated), the unit container named after the singular name, the
    name/abbreviation accessors, stream I/O and a literal suffix.
    `UNIT_ADD_WITH_PLURAL_TAG` differs from `UNIT_ADD` in one place only: the
    abbreviated tag is the abbreviation followed by `s` (`mins`), while the
    accessors, I/O and literal keep the bare abbreviation (`5_min`). */
module TimeNames {
  import opened TimeUnits

  datatype Option<T> = None | Some(value: T)

  /** The macro a unit line invokes. */
  datatype Macro = UnitAdd | UnitAddWithPluralTag | UnitAddWithMetricPrefixes

  /** The arguments of one unit line (the namespace is `time` throughout;
      the conversion factor is `Definition` in `TimeUnits`). */
  datatype UnitDeclaration = UnitDeclaration(macro: Macro, singular: string, plural: string, abbreviation: string)

  /** The names one macro invocation introduces. */
  datatype Expansion = Expansion(
    tags: seq<string>,           // singular, plural and abbreviated unit tags
    container: string,           // the unit container, named after the singular
    nameAbbreviation: string,    // the abbreviation the name accessors report
    ioAbbreviation: string,      // the abbreviation stream I/O writes
    literalSuffix: string)       // the user-defined literal `_<suffix>`

  /** The unit lines of the header, one per unit. `second` alone carries the
      metric prefixes and `minute` alone the plural tag; every plural name is
      the singular name followed by `s`. */
  function Declaration(u: TimeUnit): (d: UnitDeclaration)
    ensures d.macro == UnitAddWithMetricPrefixes <==> u == Second
    ensures d.macro == UnitAddWithPluralTag <==> u == Minute
    ensures d.plural == d.singular + "s"
    ensures |d.abbreviation| >= 1
  {
    match u
    case Second => UnitDeclaration(UnitAddWithMetricPrefixes, "second", "seconds", "s")
    case Minute => UnitDeclaration(UnitAddWithPluralTag, "minute", "minutes", "min")
    case Hour => UnitDeclaration(UnitAdd, "hour", "hours", "hr")
    case Day => UnitDeclaration(UnitAdd, "day", "days", "d")
    case Week => UnitDeclaration(UnitAdd, "week", "weeks", "wk")
    case Year => UnitDeclaration(UnitAdd, "year", "years", "yr")
    case JulianYear => UnitDeclaration(UnitAdd, "julian_year", "julian_years", "a_j")
    case GregorianYear => UnitDeclaration(UnitAdd, "gregorian_year", "gregorian_years", "a_g")
  }

  /** The abbreviated tag: `abbreviation##s` under the plural-tag macro, the
      bare abbreviation otherwise. */
  function AbbreviatedTag(d: UnitDeclaration): (t: string)
    ensures d.abbreviation <= t
    ensures d.macro == UnitAddWithPluralTag ==> t[|d.abbreviation|..] == "s"
    ensures d.macro != UnitAddWithPluralTag ==> t == d.abbreviation
  {
    if d.macro == UnitAddWithPluralTag then d.abbreviation + "s" else d.abbreviation
  }

  /** Expansion of a unit line: the singular, plural and abbreviated tags,
      the container named after the singular, and the accessors, I/O and
      literal, which all use the abbreviation as given. The accessors, I/O and
      literal therefore share one spelling, which begins the abbreviated tag,
      and the two differ exactly under the plural-tag macro. */
  function Expand(d: UnitDeclaration): (e: Expansion)
    ensures |e.tags| == 3
    ensures e.nameAbbreviation == e.ioAbbreviation == e.literalSuffix
    ensures e.literalSuffix <= e.tags[2]
    ensures e.tags[2] != e.literalSuffix <==> d.macro == UnitAddWithPluralTag
  {
    Expansion([d.singular, d.plural, AbbreviatedTag(d)], d.singular, d.abbreviation, d.abbreviation, d.abbreviation)
  }

  /** The literal suffix a unit is written with. */
  function LiteralSuffix(u: TimeUnit): string
  {
    Expand(Declaration(u)).literalSuffix
  }

  const AllUnits: seq<TimeUnit> := [Second, Minute, Hour, Day, Week, Year, JulianYear, GregorianYear]

  /** `AllUnits` lists every unit of the header. */
  lemma AllUnitsListed()
    ensures forall u :: u in AllUnits
  {
    forall u ensures u in AllUnits {
      match u
      case Second => assert AllUnits[0] == u;
      case Minute => assert AllUnits[1] == u;
      case Hour => assert AllUnits[2] == u;
      case Day => assert AllUnits[3] == u;
      case Week => assert AllUnits[4] == u;
      case Year => assert AllUnits[5] == u;
      case JulianYear => assert AllUnits[6] == u;
      case GregorianYear => assert AllUnits[7] == u;
    }
  }

  /** The unit, among `units`, whose literal operator is `_<suffix>`. */
  function FindLiteral(suffix: string, units: seq<TimeUnit>): (r: Option<TimeUnit>)
    ensures r.Some? ==> r.value in units && LiteralSuffix(r.value) == suffix
    ensures r.None? ==> forall u :: u in units ==> LiteralSuffix(u) != suffix
  {
    if units == [] then None
    else if LiteralSuffix(units[0]) == suffix then Some(units[0])
    else FindLiteral(suffix, units[1..])
  }

  /** The unit a literal such as `5_min` has, or `None` when none of the
      eight units declares that suffix. */
  function LiteralUnit(suffix: string): (r: Option<TimeUnit>)
    ensures r.Some? ==> LiteralSuffix(r.value) == suffix
    ensures r.None? <==> forall u :: LiteralSuffix(u) != suffix
  {
    AllUnitsListed();
    FindLiteral(suffix, AllUnits)
  }

  /** The plural-tag macro changes the abbreviated tag to `abbreviation + "s"`
      and nothing else: the singular and plural tags, the container, the name
      accessors, I/O and the literal all keep what the plain macro gives them,
      the bare abbreviation among them. */
  lemma PluralTagRule(d: UnitDeclaration)
    requires d.macro == UnitAddWithPluralTag
    ensures Expand(d).tags[2] == d.abbreviation + "s"
    ensures Expand(d).tags[2] != Expand(d.(macro := UnitAdd)).tags[2]
    ensures Expand(d) == Expand(d.(macro := UnitAdd)).(tags := [d.singular, d.plural, d.abbreviation + "s"])
    ensures Expand(d).nameAbbreviation == Expand(d).ioAbbreviation == Expand(d).literalSuffix == d.abbreviation
  {
    assert |d.abbreviation + "s"| != |d.abbreviation|;
  }

  /** `minute` is the one unit of the header declared with a plural tag:
      `5_min` has type `unit<mins>`, and its accessors and I/O say `min`. */
  lemma MinuteNames()
    ensures Declaration(Minute).macro == UnitAddWithPluralTag
    ensures forall u :: Declaration(u).macro == UnitAddWithPluralTag ==> u == Minute
    ensures Expand(Declaration(Minute)).tags == ["minute", "minutes", "mins"]
    ensures LiteralSuffix(Minute) == "min"
    ensures Expand(Declaration(Minute)).nameAbbreviation == Expand(Declaration(Minute)).ioAbbreviation == "min"
  {
    assert ("min" + "s") == "mins";
  }

  /** The plural tag is a type name only: `5_min` is a minute literal and no
      literal `_mins` exists. */
  lemma MinuteLiteral()
    ensures LiteralUnit("min") == Some(Minute)
    ensures LiteralUnit("mins") == None
  {
    LiteralRoundTrip(Minute, "min");
    assert forall u :: u in AllUnits ==> LiteralSuffix(u) != "mins";
  }

  /** No two units share a literal suffix. */
  lemma LiteralSuffixesDistinct(a: TimeUnit, b: TimeUnit)
    requires a != b
    ensures LiteralSuffix(a) != LiteralSuffix(b)
  {
    var sa, sb := LiteralSuffix(a), LiteralSuffix(b);
    assert sa == Declaration(a).abbreviation && sb == Declaration(b).abbreviation;
    if |sa| == |sb| {
      assert sa[0] != sb[0] || sa[|sa| - 1] != sb[|sb| - 1];
    }
  }

  /** The literal of each unit resolves to that unit, and a suffix resolves
      only to the unit that declares it. */
  lemma LiteralRoundTrip(u: TimeUnit, suffix: string)
    ensures LiteralUnit(LiteralSuffix(u)) == Some(u)
    ensures LiteralUnit(suffix) == Some(u) <==> LiteralSuffix(u) == suffix
  {
    assert u in AllUnits;
    var r := LiteralUnit(LiteralSuffix(u));
    assert r.Some?;
    if r.value != u {
      LiteralSuffixesDistinct(r.value, u);
    }
  }
}
