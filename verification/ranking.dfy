/** The ranking step of the matcher's `search_templates`:
    `scored.sort(key=score, reverse=True)`, a stable sort by non-increasing
    score, modelled as an insertion sort. */
module Ranking {

  /** An item paired with its score, as in the `(score, template)` tuples. */
  datatype Ranked<T> = Ranked(score: real, item: T)

  predicate NonIncreasing<T>(s: seq<Ranked<T>>) {
    forall i, j :: 0 <= i < j < |s| ==> s[i].score >= s[j].score
  }

  /** The entries of `s` whose score is `k`, in order. Stability means this
      subsequence is the same before and after sorting, for every `k`. */
  function WithScore<T>(s: seq<Ranked<T>>, k: real): (r: seq<Ranked<T>>)
    ensures forall i :: 0 <= i < |r| ==> r[i].score == k
  {
    if |s| == 0 then []
    else (if s[0].score == k then [s[0]] else []) + WithScore(s[1..], k)
  }

  /** Places `x` before the first entry of `s` whose score is not above its
      own, so it follows everything that scored strictly higher. */
  function Insert<T>(x: Ranked<T>, s: seq<Ranked<T>>): (r: seq<Ranked<T>>)
    ensures multiset(r) == multiset(s) + multiset{x}
    ensures |r| == |s| + 1
    ensures |r| > 0 && (r[0] == x || (|s| > 0 && r[0] == s[0]))
  {
    if |s| == 0 then [x]
    else if s[0].score > x.score then
      assert s == [s[0]] + s[1..];
      [s[0]] + Insert(x, s[1..])
    else [x] + s
  }

  /** Inserting into a sorted sequence keeps it sorted. */
  lemma {:induction false} InsertKeepsOrder<T>(x: Ranked<T>, s: seq<Ranked<T>>)
    requires NonIncreasing(s)
    ensures NonIncreasing(Insert(x, s))
    decreases |s|
  {
    if |s| > 0 && s[0].score > x.score {
      InsertKeepsOrder(x, s[1..]);
      var rest := Insert(x, s[1..]);
      assert rest[0].score <= s[0].score;
      assert Insert(x, s) == [s[0]] + rest;
    }
  }

  /** The sorted order: non-increasing scores, the same entries, and for
      every score the entries that carry it in their original order. */
  function SortDescending<T>(s: seq<Ranked<T>>): (r: seq<Ranked<T>>)
    ensures NonIncreasing(r)
    ensures multiset(r) == multiset(s)
    ensures |r| == |s|
  {
    if |s| == 0 then []
    else
      assert s == [s[0]] + s[1..];
      var rest := SortDescending(s[1..]);
      InsertKeepsOrder(s[0], rest);
      Insert(s[0], rest)
  }

  /** Inserting `x` puts it at the head of its score class: everything it
      passes over scored strictly higher. */
  lemma {:induction false} InsertWithScore<T>(x: Ranked<T>, s: seq<Ranked<T>>, k: real)
    ensures WithScore(Insert(x, s), k) == (if x.score == k then [x] else []) + WithScore(s, k)
    decreases |s|
  {
    if |s| > 0 && s[0].score > x.score {
      InsertWithScore(x, s[1..], k);
      var r := Insert(x, s);
      assert r[1..] == Insert(x, s[1..]);
    } else if |s| > 0 {
      assert ([x] + s)[1..] == s;
    } else {
      assert [x][1..] == [];
    }
  }

  /** The sort is stable: entries with equal scores keep their relative
      order. */
  lemma {:induction false} SortIsStable<T>(s: seq<Ranked<T>>, k: real)
    ensures WithScore(SortDescending(s), k) == WithScore(s, k)
    decreases |s|
  {
    if |s| > 0 {
      SortIsStable(s[1..], k);
      InsertWithScore(s[0], SortDescending(s[1..]), k);
    }
  }

  /** Keeping the entries of one score keeps all of them when every entry
      has that score. */
  lemma {:induction false} WithScoreOfUniform<T>(s: seq<Ranked<T>>, k: real)
    requires forall i :: 0 <= i < |s| ==> s[i].score == k
    ensures WithScore(s, k) == s
    decreases |s|
  {
    if |s| > 0 {
      WithScoreOfUniform(s[1..], k);
    }
  }

  /** When every entry has the same score the sort changes nothing. */
  lemma UniformScoresSortIsIdentity<T>(s: seq<Ranked<T>>, k: real)
    requires forall i :: 0 <= i < |s| ==> s[i].score == k
    ensures SortDescending(s) == s
  {
    var r := SortDescending(s);
    forall i | 0 <= i < |r| ensures r[i].score == k {
      assert r[i] in multiset(r);
      assert r[i] in multiset(s);
    }
    SortIsStable(s, k);
    WithScoreOfUniform(s, k);
    WithScoreOfUniform(r, k);
  }

  /** The items of ranked entries, in order. */
  function Items<T>(s: seq<Ranked<T>>): (r: seq<T>)
    ensures |r| == |s|
    ensures forall i :: 0 <= i < |s| ==> r[i] == s[i].item
  {
    if |s| == 0 then [] else [s[0].item] + Items(s[1..])
  }

  /** When every entry holding `t` carries score `k`, `t` occurs among the
      items exactly as often as the entry `Ranked(k, t)` among the entries. */
  lemma {:induction false} ItemCount<T>(s: seq<Ranked<T>>, t: T, k: real)
    requires forall i :: 0 <= i < |s| && s[i].item == t ==> s[i].score == k
    ensures multiset(Items(s))[t] == multiset(s)[Ranked(k, t)]
    decreases |s|
  {
    if |s| > 0 {
      ItemCount(s[1..], t, k);
      assert s == [s[0]] + s[1..];
      assert Items(s) == [s[0].item] + Items(s[1..]);
      assert s[0].item == t <==> s[0] == Ranked(k, t);
    }
  }
}
