/** The metric vocabulary: the enum `Metric`, its lenient parser `from`
    and its stored spelling `dbValue`. */
module Metrics {
  import opened Wrappers
  import opened JavaText

  datatype Metric = Temperature | Humidity | WindSpeed

  /** The two IllegalArgumentExceptions `from` throws. */
  datatype MetricError =
    | Required                  // the input was null or blank
    | InvalidMetric(raw: string) // the normalised input names no metric

  /** String.replace("-", "_"): every hyphen becomes an underscore. */
  function ReplaceHyphens(s: string): (r: string)
    ensures |r| == |s|
    ensures forall i :: 0 <= i < |s| ==> r[i] == if s[i] == '-' then '_' else s[i]
  {
    if s == [] then [] else [if s[0] == '-' then '_' else s[0]] + ReplaceHyphens(s[1..])
  }

  /** What normalisation does to each character that survives trimming. */
  function FoldChar(c: char): char {
    if LowerChar(c) == '-' then '_' else LowerChar(c)
  }

  /** A key that normalisation leaves alone: no pad at either end, no
      upper-case letter and no hyphen. */
  predicate IsNormalForm(s: string) {
    && (s == [] || (!IsPad(s[0]) && !IsPad(s[|s| - 1])))
    && forall i :: 0 <= i < |s| ==> !IsUpper(s[i]) && s[i] != '-'
  }

  /** The key `from` switches on: trimmed, lower-cased, hyphens replaced. */
  function Normalize(raw: string): (key: string)
    ensures IsNormalForm(key)
    ensures |key| <= |raw|
  {
    ReplaceHyphens(Lower(Trim(raw)))
  }

  /** The normalised keys accepted for each metric. */
  function Spellings(m: Metric): set<string> {
    match m
    case Temperature => {"temperature"}
    case Humidity => {"humidity"}
    case WindSpeed => {"wind_speed", "windspeed"}
  }

  /** Every key `from` accepts. */
  function AcceptedKeys(): set<string> {
    Spellings(Temperature) + Spellings(Humidity) + Spellings(WindSpeed)
  }

  /** The switch of `from`: the metric whose accepted keys hold `key`. */
  function Lookup(key: string): (r: Option<Metric>)
    ensures r.Some? <==> key in AcceptedKeys()
    ensures r.Some? ==> key in Spellings(r.value)
  {
    if key == "temperature" then Some(Temperature)
    else if key == "humidity" then Some(Humidity)
    else if key == "wind_speed" || key == "windspeed" then Some(WindSpeed)
    else None
  }

  /** Metric.from: null and blank input are refused as missing; otherwise
      the normalised key picks the metric, and a key outside the vocabulary
      is refused with the raw input, unmodified, in the error. */
  function Parse(raw: Option<string>): (r: Result<Metric, MetricError>)
    ensures r == Failure(Required) <==> raw.None? || IsBlank(raw.value)
    ensures r.Success? <==> raw.Some? && !IsBlank(raw.value) && Normalize(raw.value) in AcceptedKeys()
    ensures r.Success? ==> Normalize(raw.value) in Spellings(r.value)
    ensures r.Failure? && r.error != Required ==> raw.Some? && r.error == InvalidMetric(raw.value)
  {
    if raw.None? || IsBlank(raw.value) then Failure(Required)
    else
      match Lookup(Normalize(raw.value))
      case Some(m) => Success(m)
      case None => Failure(InvalidMetric(raw.value))
  }

  /** Metric.dbValue: the spelling stored and queried; it is one of the
      metric's accepted keys and already in normal form. */
  function DbValue(m: Metric): (s: string)
    ensures s in Spellings(m)
    ensures IsNormalForm(s)
  {
    match m
    case Temperature => "temperature"
    case Humidity => "humidity"
    case WindSpeed => "wind_speed"
  }

  /** Enum.name(): the constant's declared name, which folds character by
      character to the stored spelling. */
  function Name(m: Metric): (n: string)
    ensures |n| == |DbValue(m)|
    ensures forall i :: 0 <= i < |n| ==> FoldChar(n[i]) == DbValue(m)[i]
  {
    match m
    case Temperature => "TEMPERATURE"
    case Humidity => "HUMIDITY"
    case WindSpeed => "WIND_SPEED"
  }

  /** The list of allowed names that an InvalidMetric message ends with. */
  const Allowed: string := "temperature, humidity, wind_speed"

  /** Throwable.getMessage() of the exception `from` throws: the fixed text
      for a missing metric, and otherwise a text that quotes the input as
      given and ends with the list of stored spellings. */
  function Message(e: MetricError): (msg: string)
    ensures e.Required? <==> msg == "Metric is required"
    ensures e.InvalidMetric? ==> |msg| == 16 + |e.raw| + 11 + |Allowed|
    ensures e.InvalidMetric? ==> msg[16..16 + |e.raw|] == e.raw
    ensures e.InvalidMetric? ==> msg[|msg| - |Allowed|..] == Allowed
  {
    match e
    case Required => "Metric is required"
    case InvalidMetric(raw) => "Invalid metric: " + raw + ". Allowed: " + Allowed
  }

  /** Normalisation leaves keys in normal form unchanged. */
  lemma NormalizeFixesNormalForm(s: string)
    requires IsNormalForm(s)
    ensures Normalize(s) == s
  {
    TrimStripped(s);
    assert Lower(s) == s;
  }

  /** Normalising twice is normalising once. */
  lemma NormalizeIdempotent(raw: string)
    ensures Normalize(Normalize(raw)) == Normalize(raw)
  {
    NormalizeFixesNormalForm(Normalize(raw));
  }

  /** Parse accepts a non-blank input exactly by looking up its key. */
  lemma ParseByKey(raw: string, m: Metric)
    requires !IsBlank(raw)
    requires Lookup(Normalize(raw)) == Some(m)
    ensures Parse(Some(raw)) == Success(m)
  {
  }

  /** Parse refuses a non-blank key in normal form that names no metric. */
  lemma ParseRefusesKey(raw: string)
    requires IsNormalForm(raw) && !IsBlank(raw)
    requires Lookup(raw) == None
    ensures Parse(Some(raw)) == Failure(InvalidMetric(raw))
  {
    NormalizeFixesNormalForm(raw);
  }

  /** Every accepted key starts with a lower-case letter. */
  lemma AcceptedKeysStartWithLetter(k: string)
    requires k == [] || !('a' <= k[0] <= 'z')
    ensures k !in AcceptedKeys()
  {
  }

  /** The stored spellings start with a letter, so none is blank. */
  lemma DbValueNotBlank(m: Metric)
    ensures !IsBlank(DbValue(m))
  {
    assert !IsWhitespace(DbValue(m)[0]);
  }

  /** Round trip: the stored spelling of a metric is a fixed point of
      normalisation, and parsing it gives the metric back. */
  lemma ParseDbValue(m: Metric)
    ensures Normalize(DbValue(m)) == DbValue(m)
    ensures Parse(Some(DbValue(m))) == Success(m)
  {
    NormalizeFixesNormalForm(DbValue(m));
    DbValueNotBlank(m);
    ParseByKey(DbValue(m), m);
  }

  /** Distinct metrics are stored under distinct spellings. */
  lemma DbValueInjective(a: Metric, b: Metric)
    requires DbValue(a) == DbValue(b)
    ensures a == b
  {
    ParseDbValue(a);
    ParseDbValue(b);
  }

  /** After trimming, normalisation folds each character on its own. */
  lemma NormalizeFolds(raw: string)
    ensures |Normalize(raw)| == |Trim(raw)|
    ensures forall i :: 0 <= i < |Trim(raw)| ==> Normalize(raw)[i] == FoldChar(Trim(raw)[i])
  {
  }

  /** Folding keeps a character's class for both `trim` and `isBlank`. */
  lemma FoldKeepsClass(c: char)
    ensures IsPad(FoldChar(c)) == IsPad(c)
    ensures IsWhitespace(FoldChar(c)) == IsWhitespace(c)
  {
    LowerCharKeepsClass(c);
  }

  /** Normalisation cannot tell apart strings that differ only in letter
      case or in a hyphen standing where an underscore stands. */
  lemma NormalizeIgnoresSpelling(a: string, b: string)
    requires |a| == |b|
    requires forall i :: 0 <= i < |a| ==> FoldChar(a[i]) == FoldChar(b[i])
    ensures Normalize(a) == Normalize(b)
  {
    TrimFoldAlike(a, b);
    FoldAlike(Trim(a), Trim(b));
  }

  /** Strings that agree character by character once folded are trimmed
      to strings that agree in the same way. */
  lemma TrimFoldAlike(a: string, b: string)
    requires |a| == |b|
    requires forall i :: 0 <= i < |a| ==> FoldChar(a[i]) == FoldChar(b[i])
    ensures |Trim(a)| == |Trim(b)|
    ensures forall i :: 0 <= i < |Trim(a)| ==> FoldChar(Trim(a)[i]) == FoldChar(Trim(b)[i])
  {
    forall i | 0 <= i < |a| ensures IsPad(a[i]) == IsPad(b[i]) {
      FoldKeepsClass(a[i]);
      FoldKeepsClass(b[i]);
    }
    TrimSamePadPattern(a, b);
    var lo, ta, tb := LeadingPad(a), Trim(a), Trim(b);
    forall i | 0 <= i < |ta| ensures FoldChar(ta[i]) == FoldChar(tb[i]) {
      assert ta[i] == a[lo + i];
      assert tb[i] == b[lo + i];
    }
  }

  /** Strings that agree character by character once folded have the same
      folded form. */
  lemma FoldAlike(a: string, b: string)
    requires |a| == |b|
    requires forall i :: 0 <= i < |a| ==> FoldChar(a[i]) == FoldChar(b[i])
    ensures ReplaceHyphens(Lower(a)) == ReplaceHyphens(Lower(b))
  {
    var ra, rb := ReplaceHyphens(Lower(a)), ReplaceHyphens(Lower(b));
    forall i | 0 <= i < |a| ensures ra[i] == rb[i] {
      assert ra[i] == FoldChar(a[i]);
      assert rb[i] == FoldChar(b[i]);
    }
  }

  /** Inputs that differ only in letter case or in hyphen versus underscore
      parse to the same metric, or are refused for the same reason. */
  lemma ParseIgnoresSpelling(a: string, b: string)
    requires |a| == |b|
    requires forall i :: 0 <= i < |a| ==> FoldChar(a[i]) == FoldChar(b[i])
    ensures Parse(Some(a)).Success? == Parse(Some(b)).Success?
    ensures Parse(Some(a)).Success? ==> Parse(Some(a)).value == Parse(Some(b)).value
    ensures Parse(Some(a)) == Failure(Required) <==> Parse(Some(b)) == Failure(Required)
  {
    NormalizeIgnoresSpelling(a, b);
    forall i | 0 <= i < |a| ensures IsWhitespace(a[i]) == IsWhitespace(b[i]) {
      FoldKeepsClass(a[i]);
      FoldKeepsClass(b[i]);
    }
  }

  /** The enum constant's name folds to its stored spelling. */
  lemma NameFoldsToDbValue(m: Metric)
    ensures Normalize(Name(m)) == DbValue(m)
  {
    var n, s := Name(m), DbValue(m);
    forall i | 0 <= i < |n|
      ensures FoldChar(n[i]) == FoldChar(s[i])
    {
      FoldKeepsClass(s[i]);
    }
    NormalizeIgnoresSpelling(n, s);
    NormalizeFixesNormalForm(s);
  }

  /** The enum constant's own name is accepted too. */
  lemma ParseName(m: Metric)
    ensures Parse(Some(Name(m))) == Success(m)
  {
    NameFoldsToDbValue(m);
    assert !IsBlank(Name(m)) by {
      assert !IsWhitespace(Name(m)[0]);
    }
    ParseByKey(Name(m), m);
  }

  /** Surrounding pad never changes which metric a non-blank input names;
      a refusal still quotes the padded input as given. */
  lemma ParseIgnoresPadding(p: string, s: string, q: string)
    requires AllPad(p) && AllPad(q)
    requires !IsBlank(s)
    ensures Parse(Some(s)).Success? ==> Parse(Some(p + s + q)) == Parse(Some(s))
    ensures Parse(Some(s)).Failure? ==> Parse(Some(p + s + q)) == Failure(InvalidMetric(p + s + q))
  {
    TrimIgnoresPadding(p, s, q);
    var i :| 0 <= i < |s| && !IsWhitespace(s[i]);
    assert (p + s + q)[|p| + i] == s[i];
  }

  /** A refusal of an unknown name says so: its message, lower-cased,
      starts with "invalid metric". */
  lemma MessageSaysInvalid(raw: string)
    ensures Lower(Message(InvalidMetric(raw)))[..14] == "invalid metric"
  {
    var msg := Message(InvalidMetric(raw));
    assert msg[..16] == "Invalid metric: ";
    LowerPrefix(msg, "invalid metric");
  }

  /** A refusal identifies its cause: different errors have different
      messages, so the message names the raw input. */
  lemma MessageInjective(e: MetricError, f: MetricError)
    requires Message(e) == Message(f)
    ensures e == f
  {
    match (e, f)
    case (Required, Required) =>
    case (InvalidMetric(x), InvalidMetric(y)) =>
      var tail := ". Allowed: " + Allowed;
      assert |x| == |y|;
      assert Message(e) == "Invalid metric: " + x + tail;
      assert Message(f) == "Invalid metric: " + y + tail;
      MiddleOfConcat("Invalid metric: ", x, tail);
      MiddleOfConcat("Invalid metric: ", y, tail);
    case _ =>
  }
}
