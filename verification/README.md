# Metric and statistic parsers of the weather metrics API

This project is a Dafny model of the two input parsers of a small weather
metrics service. The service stores sensor readings and answers min/max/sum/avg
queries over them. The model covers:

- `Metric.from(String)`: a lenient parser from a free-form metric name to the
  enum `TEMPERATURE | HUMIDITY | WIND_SPEED`.
- `Metric.dbValue()`: the lower-case spelling each metric is stored under.
- `Statistic.from(String)`: a parser from a keyword to the enum
  `MIN | MAX | SUM | AVG`. It has its own default for a missing keyword.

How Java concepts are modelled:

- A Java `null` argument is `Wrappers.Option.None`.
- A thrown `IllegalArgumentException` is `Wrappers.Result.Failure`, carrying an
  error value. `Message` gives the text the exception carries.
- Strings are Dafny `string`s (sequences of Unicode scalar values).

The string library calls are modelled in `JavaText` as follows:

- `isBlank` uses the exact code point set of `Character.isWhitespace`.
- `trim` removes every code point up to U+0020, exactly as Java does.
- `toLowerCase` folds ASCII letters only.

`isBlank` and `trim` disagree on what white space is, and the model keeps that
difference. `ParserCases.NulIsUnknownNotMissing` and
`ParserCases.IdeographicSpaceIsKept` show where it is visible.

Files:

- `wrappers.dfy`: `Option` and `Result`.
- `text.dfy` (module `JavaText`): `isBlank`, `trim` and `toLowerCase`. It also
  holds the lemmas that pin `Trim` down exactly: it removes the surrounding pad
  and nothing else.
- `metric.dfy` (module `Metrics`): `Metric.from` as `Parse` and `dbValue` as
  `DbValue`, with their properties.
- `statistic.dfy` (module `Statistics`): `Statistic.from` as `Parse`, with its
  properties.
- `cases.dfy` (module `ParserCases`): the concrete inputs the unit tests use,
  two edge cases of the model's own (a lone NUL and a leading U+3000) that
  show where `isBlank` and `trim` disagree, and the contrast between the two
  default policies.

Only `null` defaults to AVG: `""` trims to `""`, falls into the `default`
branch and is refused (`Statistics.BlankIsRefused`,
`ParserCases.DefaultPolicies`).

## Model

| member | source | states |
|---|---|---|
| `JavaText.IsWhitespace` | src/main/java/com/example/weatherapi/Metric.java:15 | `Character.isWhitespace` as `isBlank` uses it: the no-break spaces U+00A0, U+2007 and U+202F are not white space, every white space code point above U+0020 lies above Latin-1, and NUL, the controls below the tab and U+000E are not white space |
| `JavaText.IsBlank` | src/main/java/com/example/weatherapi/Metric.java:15 | the empty string is blank, and a one-character string is blank exactly when that character is white space |
| `JavaText.BlankConcat` | src/main/java/com/example/weatherapi/Metric.java:15 | a concatenation is blank exactly when both of its parts are |
| `JavaText.Trim` | src/main/java/com/example/weatherapi/Metric.java:19 | the result is the slice of the input after the longest pad prefix, is followed only by pad, and neither starts nor ends with a code point <= U+0020 |
| `JavaText.TrimPadded` | src/main/java/com/example/weatherapi/Statistic.java:8 | trimming `p + t + q` gives back `t` whenever `p` and `q` are pad and `t` has no pad at its ends: `trim` removes the surrounding pad and nothing else |
| `JavaText.TrimIgnoresPadding` | src/main/java/com/example/weatherapi/Metric.java:19 | adding pad around any string does not change what it trims to |
| `JavaText.Lower` | src/main/java/com/example/weatherapi/Metric.java:20 | lower-casing keeps the length and folds each character on its own (ASCII letters only) |
| `Metrics.ReplaceHyphens` | src/main/java/com/example/weatherapi/Metric.java:21 | every `-` becomes `_`, every other character and the length are kept |
| `Metrics.Normalize` | src/main/java/com/example/weatherapi/Metric.java:18-21 | the normalised key is in normal form (no pad at either end, no upper-case letter, no hyphen) and no longer than the input |
| `Metrics.Lookup` | src/main/java/com/example/weatherapi/Metric.java:22-27 | the switch finds a metric exactly for the four accepted keys, and the key is one of that metric's spellings |
| `Metrics.Parse` | src/main/java/com/example/weatherapi/Metric.java:14-30 | fails with "required" exactly for null or blank input; succeeds exactly when the input is not blank and its normalised key is one of `temperature`, `humidity`, `wind_speed`, `windspeed`, giving the metric that spells that key; every other failure carries the raw input unmodified |
| `Metrics.DbValue` | src/main/java/com/example/weatherapi/Metric.java:34-41 | total; the stored spelling is one of the metric's accepted keys and is already in normal form |
| `Metrics.NormalizeFixesNormalForm` | src/main/java/com/example/weatherapi/Metric.java:18-21 | a key with no pad at its ends, no upper-case letter and no hyphen is its own normalisation |
| `Metrics.NormalizeIdempotent` | src/main/java/com/example/weatherapi/Metric.java:18-21 | normalising twice is the same as normalising once |
| `Metrics.ParseDbValue` | src/main/java/com/example/weatherapi/Metric.java:14-41 | round trip: for every metric the stored spelling is its own normalisation and `from(m.dbValue()) == m` |
| `Metrics.DbValueInjective` | src/main/java/com/example/weatherapi/Metric.java:35-38 | distinct metrics are stored under distinct strings |
| `Metrics.Name` | src/main/java/com/example/weatherapi/Metric.java:5-8 | each constant's name has the length of its stored spelling and folds to it character by character |
| `Metrics.NameFoldsToDbValue` | src/main/java/com/example/weatherapi/Metric.java:5-38 | normalising a constant's name gives exactly its stored spelling, so WIND_SPEED is stored as `wind_speed`, not as the `windspeed` alias |
| `Metrics.ParseName` | src/main/java/com/example/weatherapi/Metric.java:5-26 | each enum constant's own name (`TEMPERATURE`, `HUMIDITY`, `WIND_SPEED`) parses to that constant |
| `Metrics.NormalizeIgnoresSpelling` | src/main/java/com/example/weatherapi/Metric.java:18-21 | inputs that differ only in letter case or in `-` versus `_` have the same normalised key |
| `Metrics.ParseIgnoresSpelling` | src/main/java/com/example/weatherapi/Metric.java:14-30 | such inputs parse to the same metric, or are both refused, for the same reason |
| `Metrics.ParseIgnoresPadding` | src/main/java/com/example/weatherapi/Metric.java:14-30 | for a non-blank input, surrounding pad never changes the metric; a refusal quotes the padded input as given |
| `Metrics.Message` | src/main/java/com/example/weatherapi/Metric.java:16-29 | the message is "Metric is required" exactly for a missing metric; an unknown-metric message quotes the raw input verbatim after its 16-character prefix and ends with the list of stored spellings |
| `Metrics.MessageSaysInvalid` | src/main/java/com/example/weatherapi/Metric.java:28-29 | the message of an unknown-metric refusal, lower-cased, starts with "invalid metric" |
| `Metrics.MessageInjective` | src/main/java/com/example/weatherapi/Metric.java:16-29 | different errors have different messages, so the message identifies the raw input |
| `Statistics.Key` | src/main/java/com/example/weatherapi/Statistic.java:8 | the key is trimmed and lower-case: no pad at either end, no upper-case letter, no longer than the input |
| `Statistics.Lookup` | src/main/java/com/example/weatherapi/Statistic.java:8-14 | the switch finds a statistic exactly for the five accepted keys, and the key is one of that statistic's spellings |
| `Statistics.Parse` | src/main/java/com/example/weatherapi/Statistic.java:6-17 | null gives AVG; any other input succeeds exactly when its key is one of `min`, `max`, `sum`, `avg`, `average`, giving the statistic that spells it; a failure carries the raw input |
| `Statistics.Name` | src/main/java/com/example/weatherapi/Statistic.java:4 | each constant's name is upper-case and lower-cases to one of that statistic's keys |
| `Statistics.ParseName` | src/main/java/com/example/weatherapi/Statistic.java:4-13 | round trip: each constant's name, upper-case or lower-case, parses back to that constant |
| `Statistics.KeyIgnoresCase` | src/main/java/com/example/weatherapi/Statistic.java:8 | inputs that differ only in letter case have the same key |
| `Statistics.ParseIgnoresCase` | src/main/java/com/example/weatherapi/Statistic.java:6-17 | such inputs parse to the same statistic or are both refused |
| `Statistics.ParseIgnoresPadding` | src/main/java/com/example/weatherapi/Statistic.java:6-17 | surrounding pad never changes the statistic; a refusal quotes the padded input as given |
| `Statistics.BlankIsRefused` | src/main/java/com/example/weatherapi/Statistic.java:7-15 | only null defaults: an empty, white-space-only or pad-only string is refused, not turned into AVG |
| `Statistics.UnknownKeyIsRefused` | src/main/java/com/example/weatherapi/Statistic.java:8-15 | an input whose key is empty or does not start with a lower-case letter is refused, with the input in the error |
| `Statistics.Message` | src/main/java/com/example/weatherapi/Statistic.java:14-15 | the message quotes the raw input verbatim after its 19-character prefix and ends with the keyword list |
| `Statistics.MessageSaysInvalid` | src/main/java/com/example/weatherapi/Statistic.java:14-15 | the refusal message, lower-cased, starts with "invalid statistic" |
| `Statistics.MessageInjective` | src/main/java/com/example/weatherapi/Statistic.java:14-15 | different inputs give different messages, so the message identifies the raw input |
| `ParserCases.MetricAcceptsTemperatureSpellings` | src/test/java/com/example/weatherapi/MetricTest.java:11-12 | `temperature` and `Temperature` parse to TEMPERATURE |
| `ParserCases.MetricAcceptsHumiditySpellings` | src/test/java/com/example/weatherapi/MetricTest.java:13 | `humidity` and `HUMIDITY` parse to HUMIDITY |
| `ParserCases.MetricAcceptsWindSpeedSpellings` | src/test/java/com/example/weatherapi/MetricTest.java:14-18 | `wind-speed`, `wind_speed`, `WIND_SPEED`, `windSpeed`, `WindSpeed` and `windspeed` parse to WIND_SPEED, the last three through the `windspeed` alias |
| `ParserCases.MetricRefusesTypo` | src/test/java/com/example/weatherapi/MetricTest.java:28-34 | `humidty` is refused as an unknown metric that names the typo |
| `ParserCases.NulIsUnknownNotMissing` | src/main/java/com/example/weatherapi/Metric.java:15-29 | a lone NUL is not blank but trims to nothing, so it is refused as unknown, not as missing |
| `ParserCases.IdeographicSpaceIsKept` | src/main/java/com/example/weatherapi/Metric.java:15-29 | U+3000 counts as white space for `isBlank` but survives `trim`, so it spoils a valid name |
| `ParserCases.StatisticAcceptsDocumentedKeywords` | src/test/java/com/example/weatherapi/StatisticTest.java:10-16 | `min`, `MAX`, `Sum`, `avg` and `average` parse to MIN, MAX, SUM, AVG, AVG |
| `ParserCases.StatisticRefusesUnknown` | src/test/java/com/example/weatherapi/StatisticTest.java:23-30 | `median` is refused with the input in the error |
| `ParserCases.DefaultPolicies` | src/main/java/com/example/weatherapi/Statistic.java:7-14 | the metric parser refuses both null and blank input as missing; the statistic parser turns null into AVG but refuses a blank string |

## Left out

- Unicode case mapping and locales: `toLowerCase` is modelled on ASCII letters only. The metric parser uses `Locale.ROOT` and the statistic parser the default locale. A Turkish default locale, for example, would change `Statistic.from("MIN")`. No accepted keyword contains `k`, so the Kelvin sign (which lower-cases to `k`) cannot change an outcome.
- UTF-16: Java strings are UTF-16 code units and the model works on code points. No character that `trim`, `isBlank` or the switches look at is a surrogate.
- The exception types (`IllegalArgumentException`, and the unreachable `IllegalStateException` of `dbValue`) are error values. `dbValue` is total over the three-constant datatype, so its default branch has no counterpart.
- The query path: window defaulting, the 1 to 31 day range check and per-metric aggregation. `SensorService` has no query method; window defaulting, the 1 to 31 day check and aggregation appear only in its tests.
- `SensorService.saveSensorData`: it copies fields and hands them to a MongoDB repository. It does not call `Metric.from`, so the model claims no normalisation on write.
- The HTTP controller, the exception handler, the repository interface, the demo data seeder (clock, randomness, floating point), the DTOs and test helpers: framework plumbing or I/O with no parsing logic.
