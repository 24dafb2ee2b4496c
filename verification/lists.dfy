/** Sequence helpers shared by the client and the matcher: Python's prefix
    slice `s[:limit]`, "first element that satisfies p" and an
    order-preserving filter. */
module Lists {
  import opened Wrappers

  function Min(a: int, b: int): int { if a <= b then a else b }

  /** Python's `s[:limit]`: a non-negative limit keeps that many leading
      elements (or all of them), a negative limit drops that many trailing
      elements (or all of them). */
  function Slice<T>(s: seq<T>, limit: int): (r: seq<T>)
    ensures r <= s
    ensures 0 <= limit ==> |r| == Min(limit, |s|)
    ensures limit < 0 ==> |r| + Min(-limit, |s|) == |s|
  {
    if 0 <= limit then
      (if limit <= |s| then s[..limit] else s)
    else if -limit <= |s| then s[..|s| + limit]
    else []
  }

  /** `s[:limit]` where `limit` may be `None`, which keeps all of `s`. */
  function SliceTo<T>(s: seq<T>, limit: Option<int>): seq<T> {
    if limit.None? then s else Slice(s, limit.value)
  }

  /** `s[:limit]` keeps leading elements of `s` in place, at most `limit` of
      them, and all of them for `None`. */
  lemma SliceToKeepsPrefix<T>(s: seq<T>, limit: Option<int>)
    ensures var r := SliceTo(s, limit);
            && r <= s
            && (forall i :: 0 <= i < |r| ==> r[i] == s[i])
            && (limit.None? ==> r == s)
            && (limit.Some? && 0 <= limit.value ==> |r| == Min(limit.value, |s|))
  {
  }

  /** The index of the first element satisfying `p`, if any. */
  function FirstIndex<T>(s: seq<T>, p: T -> bool): (r: Option<nat>)
    ensures r.Some? ==> r.value < |s| && p(s[r.value])
    ensures r.Some? ==> forall j :: 0 <= j < r.value ==> !p(s[j])
    ensures r.None? ==> forall j :: 0 <= j < |s| ==> !p(s[j])
  {
    if |s| == 0 then None
    else if p(s[0]) then Some(0)
    else match FirstIndex(s[1..], p)
      case None => None
      case Some(i) => Some(i + 1)
  }

  /** The first element satisfying `p`, if any: a `for` loop that returns
      on its first hit. */
  function First<T>(s: seq<T>, p: T -> bool): (r: Option<T>)
    ensures r.Some? ==> r.value in s && p(r.value)
    ensures r.None? <==> forall x :: x in s ==> !p(x)
    ensures r.Some? ==> exists i :: 0 <= i < |s| && s[i] == r.value && forall j :: 0 <= j < i ==> !p(s[j])
  {
    match FirstIndex(s, p)
    case None => None
    case Some(i) => Some(s[i])
  }

  /** The elements of `s` that satisfy `p`, in their original order: a loop
      appending each hit to a fresh list. */
  function Filter<T(!new)>(s: seq<T>, p: T -> bool): (r: seq<T>)
    ensures |r| <= |s|
    ensures forall x :: x in r <==> x in s && p(x)
    ensures forall x :: multiset(r)[x] == if p(x) then multiset(s)[x] else 0
  {
    if |s| == 0 then []
    else
      assert s == [s[0]] + s[1..];
      (if p(s[0]) then [s[0]] else []) + Filter(s[1..], p)
  }

  /** Filtering commutes with concatenation, so the relative order of the
      kept elements is the order they had in `s`. */
  lemma {:induction false} FilterAppend<T(!new)>(a: seq<T>, b: seq<T>, p: T -> bool)
    ensures Filter(a + b, p) == Filter(a, p) + Filter(b, p)
    decreases |a|
  {
    if |a| == 0 {
      assert a + b == b;
    } else {
      assert (a + b)[1..] == a[1..] + b;
      FilterAppend(a[1..], b, p);
    }
  }

  /** The filter keeps everything exactly when every element qualifies. */
  lemma {:induction false} FilterKeepsAll<T(!new)>(s: seq<T>, p: T -> bool)
    ensures Filter(s, p) == s <==> forall x :: x in s ==> p(x)
    decreases |s|
  {
    if |s| > 0 {
      FilterKeepsAll(s[1..], p);
      if !p(s[0]) {
        assert |Filter(s, p)| < |s|;
      }
    }
  }
}
