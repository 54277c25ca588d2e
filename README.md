# Time units of the UnitConversion library, in Dafny

`units/time.h` declares the library's time units: `second`, `minute`,
`hour`, `day`, `week`, `year`, `julian_year` and `gregorian_year`. Each unit
line invokes a unit macro with a singular name, a plural name, an
abbreviation and a conversion factor `conversion_factor<std::ratio<N>, B>`.
Such a factor says that one of the unit is N of B. B is either an earlier
unit or, for `second`, the dimension `time`.

This project models the factor table and what it implies, in module
`TimeUnits` (`time_units.dfy`):

- the table itself (`Definition`). It is acyclic, since every unit is
  defined on one declared before it.
- flattening a unit to an exact whole number of seconds by multiplying the
  ratios along its definition chain (`Seconds`, `Chain`).
- the dimension a unit measures, inherited along its chain (`DimensionOf`).
- exact conversion between units of one dimension (`Convert`), over `real`.
  Every value it computes from rational inputs is rational, so nothing is
  rounded.

Module `TimeNames` (`time_names.dfy`) models the naming rule of
`UNIT_ADD_WITH_PLURAL_TAG`. The abbreviated unit tag is the abbreviation with
`s` appended (`mins`). The name accessors, stream I/O and the literal suffix
keep the bare abbreviation (`5_min`). The module also models the resolution
of a literal suffix to its unit.

## Model

| member | source | states |
|---|---|---|
| `TimeUnits.Definition` | include/units/time.h:73-80 | every ratio is a whole number at least 1; only `second` is declared against a dimension; every other unit is declared against a unit that precedes it in the header |
| `TimeUnits.Seconds` | include/units/time.h:73-80 | flattening any unit along its chain gives a positive whole number of seconds |
| `TimeUnits.Chain` | include/units/time.h:73-80 | a unit's definition chain starts at the unit and ends at a unit declared against a dimension |
| `TimeUnits.ChainFollowsDefinitions` | include/units/time.h:73-80 | each entry of a unit's chain but the last is defined, on its line, in terms of the next entry |
| `TimeUnits.DimensionIsChainEnd` | include/units/time.h:73-80 | the dimension a unit measures, inherited from the unit it is defined in, is the one named on the line its chain ends at |
| `TimeUnits.Convert` | include/units/time.h:73-80 | converting between units of the same dimension gives the value that denotes the same number of seconds |
| `TimeUnits.ChainEndsAtSecond` | include/units/time.h:73-80 | every chain ends at `second`, and every unit has the dimension `time` |
| `TimeUnits.SecondsIsChainProduct` | include/units/time.h:73-80 | a unit's flattened factor equals the product of the ratios along its chain |
| `TimeUnits.FlattenedFactors` | include/units/time.h:73-80 | `second` is exactly 1 s; minute 60, hour 3600, day 86400, week 604800, year 31536000, julian year 31557600 and gregorian year 31556952 seconds |
| `TimeUnits.DefinitionIsConversion` | include/units/time.h:74-80 | converting a unit to the unit it is defined in multiplies by that line's ratio |
| `TimeUnits.ConvertIdentity` | include/units/time.h:73-80 | converting to the same unit returns the value unchanged |
| `TimeUnits.RoundTrip` | include/units/time.h:73-80 | converting from A to B and back to A returns the original value exactly |
| `TimeUnits.ChainedConversion` | include/units/time.h:73-80 | converting A to B and then B to C equals converting A to C directly |
| `TimeUnits.ConvertAdditive` | include/units/time.h:73-80 | converting a sum is the sum of the conversions |
| `TimeUnits.ConvertHomogeneous` | include/units/time.h:73-80 | converting a scaled value scales the conversion by the same factor: `Convert(k * x, a, b) == k * Convert(x, a, b)` |
| `TimeUnits.ConvertMonotone` | include/units/time.h:73-80 | conversion preserves and reflects both `<=` and `<`, since every factor is positive |
| `TimeUnits.WeekInHours` | include/units/time.h:75-77 | one week is 7 days; 7 days are 168 hours; one week converted directly is 168 hours |
| `TimeUnits.YearLengths` | include/units/time.h:76-80 | a year is 365 days, a gregorian year 365.2425 days and a julian year 365.25 days, so year < gregorian year < julian year |
| `TimeUnits.DistinctUnitsDistinctLengths` | include/units/time.h:73-80 | two units have the same length, or convert 1 to 1, exactly when they are the same unit |
| `TimeNames.Declaration` | include/units/time.h:73-80 | the unit lines: only `second` uses the metric-prefix macro, only `minute` the plural-tag macro, every plural name is the singular name followed by `s`, and every abbreviation is non-empty |
| `TimeNames.AbbreviatedTag` | include/units/time.h:56-57 | the abbreviated tag starts with the abbreviation; under the plural-tag macro it continues with `s` alone, otherwise it is the abbreviation itself |
| `TimeNames.Expand` | include/units/time.h:53-61 | the name accessors, stream I/O and literal share one spelling; it begins the abbreviated tag, and the abbreviated tag differs from it exactly when the line uses the plural-tag macro |
| `TimeNames.LiteralUnit` | include/units/time.h:73-80 | a suffix resolves to a unit that declares it, and resolves to nothing exactly when none of the eight units declares it |
| `TimeNames.FindLiteral` | include/units/time.h:56-61 | the suffix lookup returns a unit of the list that declares that suffix, or none when no unit of the list declares it |
| `TimeNames.PluralTagRule` | include/units/time.h:56-61 | under the plural-tag macro the abbreviated tag is the abbreviation followed by `s`, which differs from the plain macro's tag; every other generated name is what the plain macro gives; the name accessors, I/O and literal all use the bare abbreviation |
| `TimeNames.MinuteNames` | include/units/time.h:74 | `minute` is the only unit declared with the plural-tag macro; its tags are `minute`, `minutes`, `mins`; its accessors, I/O and literal use `min` |
| `TimeNames.MinuteLiteral` | include/units/time.h:52-61 | the literal suffix `min` resolves to `minute`; no unit declares the suffix `mins` |
| `TimeNames.LiteralSuffixesDistinct` | include/units/time.h:73-80 | no two units of the header share a literal suffix |
| `TimeNames.LiteralRoundTrip` | include/units/time.h:73-80 | every unit's literal suffix resolves to that unit, and a suffix resolves to a unit exactly when that unit declares it |

## Left out

- The bodies of `UNIT_ADD`, `UNIT_ADD_WITH_METRIC_PREFIXES`, `UNIT_ADD_UNIT_TAGS`, `UNIT_ADD_UNIT_DEFINITION`, `UNIT_ADD_NAME`, `UNIT_ADD_IO`, `UNIT_ADD_LITERALS` and `UNIT_ADD_DIMENSION_TRAIT` live in `units/core.h`, which is not part of this model. `TimeNames.Expand` records only which names each macro receives. That `UNIT_ADD` uses the bare abbreviation for the abbreviated tag is read from the comment at include/units/time.h:53, which describes the plural-tag macro as `UNIT_ADD` with a plural abbreviated unit.
- Metric-prefixed variants of `second` (line 73): the prefix list and its powers of ten are in `units/core.h`.
- Stream insertion and extraction: only the abbreviation they use is modelled, not the text format.
- Compile-time machinery: template specialisation, the `is_time_unit` trait of line 82, and compile errors on a dimension mismatch. A mismatch is modelled as `Convert`'s precondition. Only the dimension `time` is reachable from this header, so `Dimension` has a single constructor. That precondition, and the dimension clauses of the conversion lemmas, of `TimeUnits.DimensionIsChainEnd` and of `TimeUnits.ChainEndsAtSecond` (every unit has the dimension `time`), therefore hold because of the type, not because of the chain.
- Fractional `std::ratio<N, D>`: the header writes only `std::ratio<N>`, whose denominator is 1, so a factor is a whole number. The reduction of ratios in `std::ratio_multiply` is not modelled; exact rationals make it unnecessary.
- The numeric representation: the `<int>` in the definitions and the floating point used by callers. Values are exact rationals, so overflow and rounding are not modelled; they belong to the caller's type.
- The namespace argument (`time`) of the macros, which is the same on every line.
