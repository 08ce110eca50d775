/** The reducer vocabulary: the enum `Statistic` and its parser `from`,
    which, unlike the metric parser, defaults a null input to AVG. */
module Statistics {
  import opened Wrappers
  import opened JavaText

  datatype Statistic = Min | Max | Sum | Avg

  /** The IllegalArgumentException `from` throws, with the input as given. */
  datatype StatisticError = InvalidStatistic(raw: string)

  /** A key that trimming and lower-casing leave alone. */
  predicate IsKeyForm(s: string) {
    && (s == [] || (!IsPad(s[0]) && !IsPad(s[|s| - 1])))
    && forall i :: 0 <= i < |s| ==> !IsUpper(s[i])
  }

  /** The key `from` switches on: raw.trim().toLowerCase(). */
  function Key(raw: string): (key: string)
    ensures IsKeyForm(key)
    ensures |key| <= |raw|
  {
    Lower(Trim(raw))
  }

  /** The keys accepted for each statistic. */
  function Spellings(s: Statistic): set<string> {
    match s
    case Min => {"min"}
    case Max => {"max"}
    case Sum => {"sum"}
    case Avg => {"avg", "average"}
  }

  /** Every key `from` accepts. */
  function AcceptedKeys(): set<string> {
    Spellings(Min) + Spellings(Max) + Spellings(Sum) + Spellings(Avg)
  }

  /** The switch of `from`: the statistic whose accepted keys hold `key`. */
  function Lookup(key: string): (r: Option<Statistic>)
    ensures r.Some? <==> key in AcceptedKeys()
    ensures r.Some? ==> key in Spellings(r.value)
  {
    if key == "min" then Some(Min)
    else if key == "max" then Some(Max)
    else if key == "sum" then Some(Sum)
    else if key == "avg" || key == "average" then Some(Avg)
    else None
  }

  /** Statistic.from: null means AVG; any other input is accepted exactly
      when its key is in the vocabulary, and refused with the input, as
      given, in the error otherwise. */
  function Parse(raw: Option<string>): (r: Result<Statistic, StatisticError>)
    ensures raw.None? ==> r == Success(Avg)
    ensures raw.Some? ==> (r.Success? <==> Key(raw.value) in AcceptedKeys())
    ensures raw.Some? && r.Success? ==> Key(raw.value) in Spellings(r.value)
    ensures r.Failure? ==> raw == Some(r.error.raw)
  {
    if raw.None? then Success(Avg)
    else
      match Lookup(Key(raw.value))
      case Some(s) => Success(s)
      case None => Failure(InvalidStatistic(raw.value))
  }

  /** Enum.name(): the constant's declared name, upper-case, whose
      lower-case form is one of the statistic's keys. */
  function Name(s: Statistic): (n: string)
    ensures forall i :: 0 <= i < |n| ==> IsUpper(n[i])
    ensures Lower(n) in Spellings(s)
  {
    match s
    case Min => assert Lower("MIN") == "min"; "MIN"
    case Max => assert Lower("MAX") == "max"; "MAX"
    case Sum => assert Lower("SUM") == "sum"; "SUM"
    case Avg => assert Lower("AVG") == "avg"; "AVG"
  }

  /** The list of keywords that an InvalidStatistic message ends with. */
  const Allowed: string := "min, max, sum, avg"

  /** Throwable.getMessage() of the exception `from` throws: it quotes the
      input as given and ends with the keyword list. */
  function Message(e: StatisticError): (msg: string)
    ensures |msg| == 19 + |e.raw| + 18 + |Allowed|
    ensures msg[19..19 + |e.raw|] == e.raw
    ensures msg[|msg| - |Allowed|..] == Allowed
  {
    "Invalid statistic: " + e.raw + ". Must be one of: " + Allowed
  }

  /** Parse accepts an input exactly by looking up its key. */
  lemma ParseByKey(raw: string, s: Statistic)
    requires Lookup(Key(raw)) == Some(s)
    ensures Parse(Some(raw)) == Success(s)
  {
  }

  /** Keys in key form are their own key. */
  lemma KeyFixesKeyForm(s: string)
    requires IsKeyForm(s)
    ensures Key(s) == s
  {
    TrimStripped(s);
    assert Lower(s) == s;
  }

  /** Trimming and lower-casing the enum name gives its lower-case spelling. */
  lemma NameKey(s: Statistic)
    ensures Key(Name(s)) == Lower(Name(s))
  {
    TrimStripped(Name(s));
  }

  /** Round trip: the enum name, in upper or in lower case, parses back to
      the statistic. */
  lemma ParseName(s: Statistic)
    ensures Parse(Some(Name(s))) == Success(s)
    ensures Parse(Some(Lower(Name(s)))) == Success(s)
  {
    var low := Lower(Name(s));
    NameKey(s);
    assert Lookup(low) == Some(s);
    ParseByKey(Name(s), s);
    KeyFixesKeyForm(low);
    ParseByKey(low, s);
  }

  /** The key cannot tell apart strings that differ only in letter case. */
  lemma KeyIgnoresCase(a: string, b: string)
    requires |a| == |b|
    requires forall i :: 0 <= i < |a| ==> LowerChar(a[i]) == LowerChar(b[i])
    ensures Key(a) == Key(b)
  {
    TrimAlike(a, b);
    LowerAlike(Trim(a), Trim(b));
  }

  /** Inputs that differ only in letter case parse to the same statistic
      or are both refused. */
  lemma ParseIgnoresCase(a: string, b: string)
    requires |a| == |b|
    requires forall i :: 0 <= i < |a| ==> LowerChar(a[i]) == LowerChar(b[i])
    ensures Parse(Some(a)).Success? == Parse(Some(b)).Success?
    ensures Parse(Some(a)).Success? ==> Parse(Some(a)).value == Parse(Some(b)).value
  {
    KeyIgnoresCase(a, b);
  }

  /** Surrounding pad never changes which statistic an input names; a
      refusal still quotes the padded input as given. */
  lemma ParseIgnoresPadding(p: string, s: string, q: string)
    requires AllPad(p) && AllPad(q)
    ensures Parse(Some(s)).Success? ==> Parse(Some(p + s + q)) == Parse(Some(s))
    ensures Parse(Some(s)).Failure? ==> Parse(Some(p + s + q)) == Failure(InvalidStatistic(p + s + q))
  {
    TrimIgnoresPadding(p, s, q);
  }

  /** Only a null input defaults: an empty, white-space-only or pad-only
      string is refused like any other unknown keyword. */
  lemma BlankIsRefused(s: string)
    requires IsBlank(s) || AllPad(s)
    ensures Parse(Some(s)) == Failure(InvalidStatistic(s))
  {
    if AllPad(s) {
      PadOnlyKeyIsEmpty(s);
    } else {
      BlankKeyIsWhitespace(s);
    }
    UnknownKeyIsRefused(s);
  }

  /** Every accepted key starts with a lower-case letter, so the empty key
      and any key that starts otherwise are not accepted. */
  lemma AcceptedKeysStartWithLetter(k: string)
    requires k == [] || !('a' <= k[0] <= 'z')
    ensures k !in AcceptedKeys()
  {
  }

  /** An input whose key is empty or does not start with a lower-case
      letter is refused. */
  lemma UnknownKeyIsRefused(s: string)
    requires Key(s) == [] || !('a' <= Key(s)[0] <= 'z')
    ensures Parse(Some(s)) == Failure(InvalidStatistic(s))
  {
    AcceptedKeysStartWithLetter(Key(s));
  }

  /** A pad-only input trims to the empty key. */
  lemma PadOnlyKeyIsEmpty(s: string)
    requires AllPad(s)
    ensures Key(s) == []
  {
    assert s + [] + [] == s;
    TrimPadded(s, [], []);
  }

  /** A blank input has a key made of white space, if any. */
  lemma BlankKeyIsWhitespace(s: string)
    requires IsBlank(s)
    ensures Key(s) == [] || IsWhitespace(Key(s)[0])
  {
    var k := Key(s);
    if k != [] {
      var lo := LeadingPad(s);
      assert Trim(s)[0] == s[lo];
      LowerCharKeepsClass(s[lo]);
    }
  }

  /** A refusal says so: its message, lower-cased, starts with
      "invalid statistic". */
  lemma MessageSaysInvalid(raw: string)
    ensures Lower(Message(InvalidStatistic(raw)))[..17] == "invalid statistic"
  {
    var msg := Message(InvalidStatistic(raw));
    assert msg[..19] == "Invalid statistic: ";
    LowerPrefix(msg, "invalid statistic");
  }

  /** Different inputs give different messages, so the message names the
      raw input. */
  lemma MessageInjective(e: StatisticError, f: StatisticError)
    requires Message(e) == Message(f)
    ensures e == f
  {
    var tail := ". Must be one of: " + Allowed;
    assert |e.raw| == |f.raw|;
    assert Message(e) == "Invalid statistic: " + e.raw + tail;
    MiddleOfConcat("Invalid statistic: ", e.raw, tail);
    assert Message(f) == "Invalid statistic: " + f.raw + tail;
    MiddleOfConcat("Invalid statistic: ", f.raw, tail);
  }
}
