/** Concrete inputs for the two parsers, and the difference between their
    policies for missing input. */
module ParserCases {
  import opened Wrappers
  import opened JavaText
  import M = Metrics
  import S = Statistics

  /** Helper: a spelling that folds to a key `from` accepts for `m`. */
  lemma MetricSpelling(raw: string, key: string, m: M.Metric)
    requires |raw| == |key|
    requires forall i :: 0 <= i < |raw| ==> M.FoldChar(raw[i]) == M.FoldChar(key[i])
    requires M.IsNormalForm(key) && key != [] && !IsWhitespace(key[0])
    requires M.Lookup(key) == Some(m)
    ensures M.Parse(Some(raw)) == Success(m)
  {
    M.NormalizeFixesNormalForm(key);
    M.ParseByKey(key, m);
    M.ParseIgnoresSpelling(raw, key);
  }

  /** Spellings of TEMPERATURE the parser is documented to accept.
      (The inputs are parameters rather than literals, so that the verifier
      does not evaluate the parser on every literal in sight.) */
  lemma MetricAcceptsTemperatureSpellings(raw: string)
    requires raw in {"temperature", "Temperature"}
    ensures M.Parse(Some(raw)) == Success(M.Temperature)
  {
    MetricSpelling(raw, "temperature", M.Temperature);
  }

  /** Spellings of HUMIDITY the parser is documented to accept. */
  lemma MetricAcceptsHumiditySpellings(raw: string)
    requires raw in {"humidity", "HUMIDITY"}
    ensures M.Parse(Some(raw)) == Success(M.Humidity)
  {
    MetricSpelling(raw, "humidity", M.Humidity);
  }

  /** Spellings of WIND_SPEED the parser is documented to accept, with a
      separator and without one (the `windspeed` alias). */
  lemma MetricAcceptsWindSpeedSpellings(raw: string)
    requires raw in {"wind-speed", "wind_speed", "WIND_SPEED", "windSpeed", "WindSpeed", "windspeed"}
    ensures M.Parse(Some(raw)) == Success(M.WindSpeed)
  {
    if raw in {"wind-speed", "wind_speed", "WIND_SPEED"} {
      MetricSpelling(raw, "wind_speed", M.WindSpeed);
    } else {
      MetricSpelling(raw, "windspeed", M.WindSpeed);
    }
  }

  /** A misspelt metric is refused with the typo in the error. */
  lemma MetricRefusesTypo(raw: string)
    requires raw == "humidty"
    ensures M.Parse(Some(raw)) == Failure(M.InvalidMetric(raw))
  {
    assert !IsWhitespace(raw[0]);
    M.ParseRefusesKey(raw);
  }

  /** `isBlank` and `trim` disagree on what white space is. A lone NUL is
      not blank but is trimmed away, so it is refused as an unknown metric
      rather than as a missing one. */
  lemma NulIsUnknownNotMissing(nul: string)
    requires nul == "\U{0}"
    ensures M.Parse(Some(nul)) == Failure(M.InvalidMetric(nul))
  {
    assert !IsBlank(nul) by {
      assert !IsWhitespace(nul[0]);
    }
    assert nul + [] + [] == nul;
    TrimPadded(nul, [], []);
  }

  /** An ideographic space is white space to `isBlank` but is not trimmed,
      so it spoils an otherwise valid name. */
  lemma IdeographicSpaceIsKept(spaced: string)
    requires spaced == "\U{3000}humidity"
    ensures M.Parse(Some(spaced)) == Failure(M.InvalidMetric(spaced))
  {
    assert !IsBlank(spaced) by {
      assert !IsWhitespace(spaced[1]);
    }
    var key := M.Normalize(spaced);
    assert key[0] == '\U{3000}' by {
      M.NormalizeFolds(spaced);
      assert LeadingPad(spaced) == 0;
    }
    M.AcceptedKeysStartWithLetter(key);
  }

  /** Helper: a spelling that lower-cases to a key `from` accepts for `s`. */
  lemma StatisticSpelling(raw: string, key: string, s: S.Statistic)
    requires |raw| == |key|
    requires forall i :: 0 <= i < |raw| ==> LowerChar(raw[i]) == LowerChar(key[i])
    requires S.IsKeyForm(key)
    requires S.Lookup(key) == Some(s)
    ensures S.Parse(Some(raw)) == Success(s)
  {
    S.KeyIgnoresCase(raw, key);
    S.KeyFixesKeyForm(key);
    S.ParseByKey(raw, s);
  }

  /** The keywords the statistic parser is documented to accept. */
  lemma StatisticAcceptsDocumentedKeywords(raw: string, s: S.Statistic)
    requires (raw, s) in {
      ("min", S.Min), ("MAX", S.Max), ("Sum", S.Sum), ("avg", S.Avg), ("average", S.Avg)}
    ensures S.Parse(Some(raw)) == Success(s)
  {
    if raw == "MAX" {
      StatisticSpelling(raw, "max", s);
    } else if raw == "Sum" {
      StatisticSpelling(raw, "sum", s);
    } else {
      StatisticSpelling(raw, raw, s);
    }
  }

  /** An unknown keyword is refused with the input in the error. */
  lemma StatisticRefusesUnknown(raw: string)
    requires raw == "median"
    ensures S.Parse(Some(raw)) == Failure(S.InvalidStatistic(raw))
  {
    S.KeyFixesKeyForm(raw);
  }

  /** The two parsers differ on missing input: the metric parser refuses
      both null and blank, the statistic parser turns null into AVG but
      still refuses a blank string. */
  lemma DefaultPolicies(blank: string)
    requires IsBlank(blank)
    ensures M.Parse(None) == Failure(M.Required)
    ensures M.Parse(Some(blank)) == Failure(M.Required)
    ensures S.Parse(None) == Success(S.Avg)
    ensures S.Parse(Some(blank)) == Failure(S.InvalidStatistic(blank))
  {
    S.BlankIsRefused(blank);
  }
}
