/** The string primitives the matcher relies on: Python's `str.lower()`,
    `str.strip()`, the `in` substring test and `re.findall(r'\w+', s)`.
    Lower-casing and the word-character class are modelled over ASCII;
    stripping uses the full set of characters Python's `str.isspace()`
    accepts. */
module Text {

  predicate IsUpper(c: char) { 'A' <= c <= 'Z' }

  function LowerChar(c: char): (d: char)
    ensures !IsUpper(d)
    ensures IsUpper(c) ==> d as int == c as int + 32
    ensures !IsUpper(c) ==> d == c
  {
    if IsUpper(c) then (c as int + 32) as char else c
  }

  /** `s.lower()`: every character is lower-cased in place. */
  function Lower(s: string): (r: string)
    ensures |r| == |s|
    ensures forall i :: 0 <= i < |s| ==> r[i] == LowerChar(s[i])
  {
    seq(|s|, i requires 0 <= i < |s| => LowerChar(s[i]))
  }

  /** Lower-casing twice is lower-casing once; the matcher relies on this
      when it lower-cases text that its caller already lower-cased. */
  lemma LowerIdempotent(s: string)
    ensures Lower(Lower(s)) == Lower(s)
  {
  }

  /** A string without upper-case letters is its own lower-case form. */
  lemma LowerOfLowercase(s: string)
    requires forall i :: 0 <= i < |s| ==> !IsUpper(s[i])
    ensures Lower(s) == s
  {
  }

  /** The characters for which Python's `str.isspace()` holds. */
  predicate IsSpace(c: char) {
    var n := c as int;
    (9 <= n <= 13) || (0x1C <= n <= 0x20) || n == 0x85 || n == 0xA0 || n == 0x1680
    || (0x2000 <= n <= 0x200A) || n == 0x2028 || n == 0x2029 || n == 0x202F
    || n == 0x205F || n == 0x3000
  }

  predicate AllSpace(s: string) { forall i :: 0 <= i < |s| ==> IsSpace(s[i]) }

  /** The length of the longest prefix of `s` whose characters satisfy `p`. */
  function Span(s: string, p: char -> bool): (n: nat)
    ensures n <= |s|
    ensures forall i :: 0 <= i < n ==> p(s[i])
    ensures n == |s| || !p(s[n])
  {
    if |s| == 0 || !p(s[0]) then 0 else 1 + Span(s[1..], p)
  }

  /** The length of the longest suffix of `s` whose characters satisfy `p`. */
  function TrailingSpan(s: string, p: char -> bool): (n: nat)
    ensures n <= |s|
    ensures forall k :: |s| - n <= k < |s| ==> p(s[k])
    ensures n == |s| || !p(s[|s| - n - 1])
  {
    if |s| == 0 || !p(s[|s| - 1]) then 0
    else 1 + TrailingSpan(s[..|s| - 1], p)
  }

  /** `r` is the infix of `s` at offset `i`, and only characters satisfying
      `p` surround it. */
  predicate TrimmedAt(s: string, r: string, i: int, p: char -> bool) {
    0 <= i <= |s| - |r| && s[i..i + |r|] == r
    && (forall k :: 0 <= k < i ==> p(s[k]))
    && (forall k :: i + |r| <= k < |s| ==> p(s[k]))
  }

  /** Removes the longest prefix and then the longest suffix satisfying `p`. */
  function Trim(s: string, p: char -> bool): (r: string)
    ensures |r| <= |s|
    ensures r == [] || (!p(r[0]) && !p(r[|r| - 1]))
    ensures exists i :: TrimmedAt(s, r, i, p)
  {
    var i := Span(s, p);
    var j := i + (|s[i..]| - TrailingSpan(s[i..], p));
    TrimBounds(s, p, i, j);
    s[i..j]
  }

  lemma TrimBounds(s: string, p: char -> bool, i: nat, j: int)
    requires i == Span(s, p)
    requires j == i + (|s[i..]| - TrailingSpan(s[i..], p))
    ensures i <= j <= |s|
    ensures TrimmedAt(s, s[i..j], i, p)
    ensures i < j ==> !p(s[i]) && !p(s[j - 1])
  {
    var rest := s[i..];
    var n := TrailingSpan(rest, p);
    assert |rest| == |s| - i && j == |s| - n;
    forall k | j <= k < |s| ensures p(s[k]) {
      assert |rest| - n <= k - i < |rest|;
      assert s[k] == rest[k - i];
    }
    if i < j {
      assert 0 <= |rest| - n - 1 < |rest|;
      assert rest[|rest| - n - 1] == s[j - 1];
    }
  }

  /** `s.strip()`: the longest infix of `s` that neither starts nor ends
      with whitespace, obtained by removing only whitespace from both ends. */
  function Strip(s: string): (r: string)
    ensures |r| <= |s|
    ensures r == [] || (!IsSpace(r[0]) && !IsSpace(r[|r| - 1]))
    ensures exists i :: TrimmedAt(s, r, i, IsSpace)
  {
    Trim(s, IsSpace)
  }

  /** Lower-case, without surrounding whitespace. */
  predicate NormalForm(s: string) {
    (forall i :: 0 <= i < |s| ==> !IsUpper(s[i]))
    && (s == [] || (!IsSpace(s[0]) && !IsSpace(s[|s| - 1])))
  }

  /** Stripping lower-cased text keeps it lower-case. */
  lemma StrippedLowerIsNormal(hint: string)
    ensures NormalForm(Strip(Lower(hint)))
  {
    var l := Lower(hint);
    var r := Strip(l);
    var i :| TrimmedAt(l, r, i, IsSpace);
    forall k | 0 <= k < |r| ensures !IsUpper(r[k]) {
      assert r[k] == l[i + k];
    }
  }

  /** The hint normalisation of the matcher, `hint.lower().strip()`: always
      lower-case and without surrounding whitespace. */
  function Normalise(hint: string): (r: string)
    ensures NormalForm(r)
    ensures exists i :: TrimmedAt(Lower(hint), r, i, IsSpace)
  {
    StrippedLowerIsNormal(hint);
    Strip(Lower(hint))
  }

  /** A hint made only of whitespace normalises to the empty string. */
  lemma WhitespaceNormalisesToEmpty(hint: string)
    requires AllSpace(hint)
    ensures Normalise(hint) == ""
  {
    var l := Lower(hint);
    assert forall i :: 0 <= i < |l| ==> l[i] == hint[i];
    assert Span(l, IsSpace) == |l|;
  }

  /** A string in normal form is left unchanged by normalisation, so
      normalising twice is normalising once. */
  lemma NormaliseFixesNormalForm(s: string)
    requires NormalForm(s)
    ensures Normalise(s) == s
  {
    LowerOfLowercase(s);
    if s != [] {
      assert Span(s, IsSpace) == 0;
      assert s[0..] == s;
      assert TrailingSpan(s, IsSpace) == 0;
    }
  }

  /** Normalising a normalised hint changes nothing. */
  lemma NormaliseIdempotent(hint: string)
    ensures Normalise(Normalise(hint)) == Normalise(hint)
  {
    NormaliseFixesNormalForm(Normalise(hint));
  }

  /** Python's `needle in hay` on strings. */
  predicate Contains(hay: string, needle: string)
    decreases |hay|
  {
    needle <= hay || (0 < |hay| && Contains(hay[1..], needle))
  }

  /** `needle` occurs in `hay` starting at offset `i`. */
  predicate OccursAt(hay: string, needle: string, i: int) {
    0 <= i && i + |needle| <= |hay| && hay[i..i + |needle|] == needle
  }

  /** The recursive test agrees with the textbook definition: `needle`
      occurs at some offset of `hay`. */
  lemma {:induction false} ContainsIff(hay: string, needle: string)
    ensures Contains(hay, needle) <==> exists i :: OccursAt(hay, needle, i)
    decreases |hay|
  {
    if needle <= hay {
      assert OccursAt(hay, needle, 0);
    } else if |hay| > 0 {
      ContainsIff(hay[1..], needle);
      if exists i :: OccursAt(hay, needle, i) {
        var i :| OccursAt(hay, needle, i);
        assert i != 0;
        assert OccursAt(hay[1..], needle, i - 1);
      }
      if Contains(hay[1..], needle) {
        var i :| OccursAt(hay[1..], needle, i);
        assert hay[i + 1..i + 1 + |needle|] == hay[1..][i..i + |needle|];
        assert OccursAt(hay, needle, i + 1);
      }
    } else {
      assert forall i :: !OccursAt(hay, needle, i);
    }
  }

  /** The empty string is in every string, and every string is in itself. */
  lemma ContainsTrivial(s: string)
    ensures Contains(s, "")
    ensures Contains(s, s)
  {
  }

  /** A string only contains strings no longer than itself. */
  lemma {:induction false} ContainsShorter(hay: string, needle: string)
    requires Contains(hay, needle)
    ensures |needle| <= |hay|
    decreases |hay|
  {
    if !(needle <= hay) {
      ContainsShorter(hay[1..], needle);
    }
  }

  /** Characters of Python's `\w` over ASCII: letters, digits and `_`. */
  predicate IsWordChar(c: char) {
    ('a' <= c <= 'z') || ('A' <= c <= 'Z') || ('0' <= c <= '9') || c == '_'
  }

  /** A token: a non-empty run of word characters. */
  predicate IsWord(t: string) {
    |t| > 0 && forall k :: 0 <= k < |t| ==> IsWordChar(t[k])
  }

  /** `re.findall(r'\w+', s)`: the maximal runs of word characters, left to
      right. */
  function Tokens(s: string): (ts: seq<string>)
    ensures forall k :: 0 <= k < |ts| ==> IsWord(ts[k])
    decreases |s|
  {
    if |s| == 0 then []
    else if !IsWordChar(s[0]) then Tokens(s[1..])
    else
      var n := Span(s, IsWordChar);
      [s[..n]] + Tokens(s[n..])
  }

  /** `set(re.findall(r'\w+', s))`. */
  function Words(s: string): (w: set<string>)
    ensures forall t :: t in w ==> IsWord(t)
  {
    set t | t in Tokens(s)
  }

  /** A single run of word characters is one token. */
  lemma TokensOfWord(s: string)
    requires IsWord(s)
    ensures Tokens(s) == [s]
  {
    assert Span(s, IsWordChar) == |s|;
    assert s[..|s|] == s;
  }

  /** Text without word characters has no tokens. */
  lemma {:induction false} TokensOfSeparators(s: string)
    requires forall i :: 0 <= i < |s| ==> !IsWordChar(s[i])
    ensures Tokens(s) == []
    decreases |s|
  {
    if |s| > 0 {
      TokensOfSeparators(s[1..]);
    }
  }

  /** A run of word characters stops at the first separator. */
  lemma {:induction false} SpanStopsAtSeparator(a: string, c: char, b: string)
    requires !IsWordChar(c)
    ensures Span(a + [c] + b, IsWordChar) == Span(a, IsWordChar)
    decreases |a|
  {
    if |a| > 0 && IsWordChar(a[0]) {
      assert (a + [c] + b)[1..] == a[1..] + [c] + b;
      SpanStopsAtSeparator(a[1..], c, b);
    }
  }

  /** A separator splits the token list: the tokens of `a c b` are the tokens
      of `a` followed by those of `b`. With TokensOfWord this pins `Tokens`
      down to the maximal runs of word characters. */
  lemma {:induction false} TokensSplitAtSeparator(a: string, c: char, b: string)
    requires !IsWordChar(c)
    ensures Tokens(a + [c] + b) == Tokens(a) + Tokens(b)
    decreases |a|
  {
    var s := a + [c] + b;
    if |a| == 0 {
      assert s[1..] == b;
    } else if !IsWordChar(a[0]) {
      assert s[1..] == a[1..] + [c] + b;
      TokensSplitAtSeparator(a[1..], c, b);
    } else {
      SpanStopsAtSeparator(a, c, b);
      var n := Span(a, IsWordChar);
      assert s[..n] == a[..n];
      assert s[n..] == a[n..] + [c] + b;
      TokensSplitAtSeparator(a[n..], c, b);
    }
  }
}
