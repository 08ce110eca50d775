/** The parts of java.lang.String that the two parsers rely on:
    `isBlank`, `trim` and `toLowerCase`, over Dafny strings. */
module JavaText {

  /** Character.isWhitespace: the code points `isBlank` treats as white space.
      These are the space, line and paragraph separators other than the
      no-break spaces U+00A0, U+2007 and U+202F, plus the ASCII controls
      U+0009..U+000D and U+001C..U+001F. Every other white space code point
      lies above Latin-1, and NUL, the controls below the tab and U+000E are
      not white space although `trim` removes them. */
  predicate IsWhitespace(c: char): (w: bool)
    ensures c == '\U{A0}' || c == '\U{2007}' || c == '\U{202F}' ==> !w
    ensures w && !IsPad(c) ==> c >= '\U{1680}'
    ensures c < '\t' || c == '\U{0E}' ==> !w
  {
    || c == ' '
    || '\t' <= c <= '\r'
    || '\U{1C}' <= c <= '\U{1F}'
    || c == '\U{1680}'
    || '\U{2000}' <= c <= '\U{2006}'
    || '\U{2008}' <= c <= '\U{200A}'
    || c == '\U{2028}'
    || c == '\U{2029}'
    || c == '\U{205F}'
    || c == '\U{3000}'
  }

  /** String.isBlank: empty, or white space only. */
  predicate IsBlank(s: string): (b: bool)
    ensures s == [] ==> b
    ensures |s| == 1 ==> (b <==> IsWhitespace(s[0]))
  {
    forall i :: 0 <= i < |s| ==> IsWhitespace(s[i])
  }

  /** The characters String.trim removes from either end: every code point
      up to and including U+0020 (a set that differs from IsWhitespace). */
  predicate IsPad(c: char) {
    c <= ' '
  }

  predicate AllPad(s: string) {
    forall i :: 0 <= i < |s| ==> IsPad(s[i])
  }

  /** A concatenation is blank exactly when both parts are. */
  lemma BlankConcat(a: string, b: string)
    ensures IsBlank(a + b) <==> IsBlank(a) && IsBlank(b)
  {
    if IsBlank(a + b) {
      forall i | 0 <= i < |a|
        ensures IsWhitespace(a[i])
      {
        assert a[i] == (a + b)[i];
      }
      forall i | 0 <= i < |b|
        ensures IsWhitespace(b[i])
      {
        assert b[i] == (a + b)[|a| + i];
      }
    }
    if IsBlank(a) && IsBlank(b) {
      forall i | 0 <= i < |a + b|
        ensures IsWhitespace((a + b)[i])
      {
        if i < |a| {
          assert (a + b)[i] == a[i];
        } else {
          assert (a + b)[i] == b[i - |a|];
        }
      }
    }
  }

  /** The length of the longest prefix of `s` made of pad characters. */
  function LeadingPad(s: string): (n: nat)
    ensures n <= |s|
    ensures forall i :: 0 <= i < n ==> IsPad(s[i])
    ensures n == |s| || !IsPad(s[n])
  {
    if s == [] || !IsPad(s[0]) then 0 else 1 + LeadingPad(s[1..])
  }

  /** The length of the longest suffix of `s` made of pad characters. */
  function TrailingPad(s: string): (n: nat)
    ensures n <= |s|
    ensures forall i :: |s| - n <= i < |s| ==> IsPad(s[i])
    ensures n == |s| || !IsPad(s[|s| - n - 1])
  {
    if s == [] || !IsPad(s[|s| - 1]) then 0 else 1 + TrailingPad(s[..|s| - 1])
  }

  /** String.trim: `s` without its leading and trailing pad characters.
      The result is the slice of `s` that starts after the leading pad,
      only pad follows it, and it neither starts nor ends with pad. */
  function Trim(s: string): (t: string)
    ensures LeadingPad(s) + |t| <= |s|
    ensures t == s[LeadingPad(s)..LeadingPad(s) + |t|]
    ensures forall i :: LeadingPad(s) + |t| <= i < |s| ==> IsPad(s[i])
    ensures t == [] || (!IsPad(t[0]) && !IsPad(t[|t| - 1]))
  {
    var rest := s[LeadingPad(s)..];
    rest[..|rest| - TrailingPad(rest)]
  }

  /** The leading pad is the one prefix of pad that is followed by a
      non-pad character or by nothing. */
  lemma LeadingPadIs(s: string, n: nat)
    requires n <= |s|
    requires forall i :: 0 <= i < n ==> IsPad(s[i])
    requires n == |s| || !IsPad(s[n])
    ensures LeadingPad(s) == n
  {
  }

  /** The trailing pad is the one suffix of pad that is preceded by a
      non-pad character or by nothing. */
  lemma TrailingPadIs(s: string, n: nat)
    requires n <= |s|
    requires forall i :: |s| - n <= i < |s| ==> IsPad(s[i])
    requires n == |s| || !IsPad(s[|s| - n - 1])
    ensures TrailingPad(s) == n
  {
  }

  /** ASCII case folding of one character. */
  function LowerChar(c: char): char {
    if 'A' <= c <= 'Z' then (c as int - 'A' as int + 'a' as int) as char else c
  }

  predicate IsUpper(c: char) {
    'A' <= c <= 'Z'
  }

  /** String.toLowerCase, restricted to ASCII letters. */
  function Lower(s: string): (r: string)
    ensures |r| == |s|
    ensures forall i :: 0 <= i < |s| ==> r[i] == LowerChar(s[i])
  {
    if s == [] then [] else [LowerChar(s[0])] + Lower(s[1..])
  }

  /** Lower-casing works character by character, so it distributes over
      concatenation. */
  lemma LowerConcat(a: string, b: string)
    ensures Lower(a + b) == Lower(a) + Lower(b)
  {
    assert forall i :: 0 <= i < |a + b| ==> (a + b)[i] == if i < |a| then a[i] else b[i - |a|];
  }

  /** Lower-casing decides a prefix one character at a time. */
  lemma LowerPrefix(s: string, t: string)
    requires |t| <= |s|
    requires forall i :: 0 <= i < |t| ==> LowerChar(s[i]) == t[i]
    ensures Lower(s)[..|t|] == t
  {
  }

  /** The middle part of a concatenation can be cut back out of it. */
  lemma MiddleOfConcat(a: string, b: string, c: string)
    ensures (a + b + c)[|a|..|a| + |b|] == b
  {
  }

  /** Folding never changes whether a character is pad or white space,
      and never leaves an upper-case letter. */
  lemma LowerCharKeepsClass(c: char)
    ensures IsPad(LowerChar(c)) == IsPad(c)
    ensures IsWhitespace(LowerChar(c)) == IsWhitespace(c)
    ensures !IsUpper(LowerChar(c))
    ensures !IsUpper(c) ==> LowerChar(c) == c
  {
  }

  /** Trim gives back every string that has no pad at either end. */
  lemma TrimStripped(s: string)
    requires s == [] || (!IsPad(s[0]) && !IsPad(s[|s| - 1]))
    ensures Trim(s) == s
  {
  }

  /** Trim is exactly the removal of surrounding pad: whatever pad is put
      around a string that has none at its ends, Trim takes it off again. */
  lemma TrimPadded(p: string, t: string, q: string)
    requires AllPad(p) && AllPad(q)
    requires t == [] || (!IsPad(t[0]) && !IsPad(t[|t| - 1]))
    ensures Trim(p + t + q) == t
  {
    var s := p + t + q;
    if t == [] {
      assert forall i :: 0 <= i < |s| ==> s[i] == if i < |p| then p[i] else q[i - |p|];
      LeadingPadIs(s, |s|);
    } else {
      assert forall i :: 0 <= i < |p| ==> s[i] == p[i];
      assert s[|p|] == t[0];
      LeadingPadIs(s, |p|);
      var rest := s[|p|..];
      assert rest == t + q;
      assert forall i :: |t| <= i < |rest| ==> rest[i] == q[i - |t|];
      assert rest[|t| - 1] == t[|t| - 1];
      TrailingPadIs(rest, |q|);
      assert rest[..|t|] == t;
    }
  }

  lemma AllPadConcat(a: string, b: string)
    requires AllPad(a) && AllPad(b)
    ensures AllPad(a + b)
  {
    assert forall i :: 0 <= i < |a + b| ==> (a + b)[i] == if i < |a| then a[i] else b[i - |a|];
  }

  /** A string is its leading pad, then its trimmed form, then pad. */
  lemma TrimSplit(s: string)
    ensures AllPad(s[..LeadingPad(s)])
    ensures AllPad(s[LeadingPad(s) + |Trim(s)|..])
    ensures s == s[..LeadingPad(s)] + Trim(s) + s[LeadingPad(s) + |Trim(s)|..]
  {
    var lo, t := LeadingPad(s), Trim(s);
    var hi := lo + |t|;
    var after := s[hi..];
    assert AllPad(after) by {
      forall i | 0 <= i < |after| ensures IsPad(after[i]) {
        assert after[i] == s[hi + i];
      }
    }
    assert s == s[..lo] + s[lo..hi] + s[hi..];
  }

  lemma Regroup(p: string, x: string, t: string, y: string, q: string)
    ensures p + (x + t + y) + q == (p + x) + t + (y + q)
  {
  }

  /** Trim removes any pad added around a string. */
  lemma TrimIgnoresPadding(p: string, s: string, q: string)
    requires AllPad(p) && AllPad(q)
    ensures Trim(p + s + q) == Trim(s)
  {
    TrimSplit(s);
    var lo, t := LeadingPad(s), Trim(s);
    var before, after := s[..lo], s[lo + |t|..];
    AllPadConcat(p, before);
    AllPadConcat(after, q);
    Regroup(p, before, t, after, q);
    TrimPadded(p + before, t, after + q);
  }

  /** Trim cuts out exactly the slice that has only pad around it and
      no pad at its own ends. */
  lemma TrimIs(s: string, lo: nat, hi: nat)
    requires lo <= hi <= |s|
    requires forall i :: 0 <= i < lo ==> IsPad(s[i])
    requires forall i :: hi <= i < |s| ==> IsPad(s[i])
    requires lo == hi || (!IsPad(s[lo]) && !IsPad(s[hi - 1]))
    ensures Trim(s) == s[lo..hi]
  {
    var p, t, q := s[..lo], s[lo..hi], s[hi..];
    assert forall i :: 0 <= i < |q| ==> q[i] == s[hi + i];
    assert s == p + t + q;
    TrimPadded(p, t, q);
  }

  /** Two strings whose characters agree position by position on being pad
      are trimmed at the same positions. */
  lemma TrimSamePadPattern(a: string, b: string)
    requires |a| == |b|
    requires forall i :: 0 <= i < |a| ==> IsPad(a[i]) == IsPad(b[i])
    ensures LeadingPad(a) == LeadingPad(b)
    ensures |Trim(a)| == |Trim(b)|
  {
    var lo, t := LeadingPad(a), Trim(a);
    var hi := lo + |t|;
    LeadingPadIs(b, lo);
    assert t == [] || (t[0] == a[lo] && t[|t| - 1] == a[hi - 1]);
    TrimIs(b, lo, hi);
  }

  /** Strings that agree character by character once case is folded are
      lower-cased to the same string. */
  lemma LowerAlike(a: string, b: string)
    requires |a| == |b|
    requires forall i :: 0 <= i < |a| ==> LowerChar(a[i]) == LowerChar(b[i])
    ensures Lower(a) == Lower(b)
  {
  }

  /** Strings that agree character by character once case is folded are
      trimmed to strings that agree in the same way. */
  lemma TrimAlike(a: string, b: string)
    requires |a| == |b|
    requires forall i :: 0 <= i < |a| ==> LowerChar(a[i]) == LowerChar(b[i])
    ensures |Trim(a)| == |Trim(b)|
    ensures forall i :: 0 <= i < |Trim(a)| ==> LowerChar(Trim(a)[i]) == LowerChar(Trim(b)[i])
  {
    forall i | 0 <= i < |a| ensures IsPad(a[i]) == IsPad(b[i]) {
      LowerCharKeepsClass(a[i]);
      LowerCharKeepsClass(b[i]);
    }
    TrimSamePadPattern(a, b);
    var lo, ta, tb := LeadingPad(a), Trim(a), Trim(b);
    forall i | 0 <= i < |ta| ensures LowerChar(ta[i]) == LowerChar(tb[i]) {
      assert ta[i] == a[lo + i];
      assert tb[i] == b[lo + i];
    }
  }
}
