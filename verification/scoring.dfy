/** The similarity scorer `_calculate_similarity` and the best-score scan of
    the similarity pass. Scores are exact reals; difflib's
    `SequenceMatcher(None, a, b).ratio()` is a parameter known only to lie
    in [0, 1]. */
module Scoring {
  import opened Wrappers
  import opened Text

  /** A sequence-similarity ratio: any function into [0, 1]. It is not
      assumed symmetric. */
  type Ratio = f: (string, string) -> real | forall a, b :: 0.0 <= f(a, b) <= 1.0
    witness (a: string, b: string) => 0.0

  /** Score given outright when one string contains the other. */
  const ContainmentScore: real := 0.9
  /** Scores at or below this are not matches in the similarity pass. */
  const Threshold: real := 0.3
  const SequenceWeight: real := 0.6
  const WordWeight: real := 0.4

  /** Jaccard similarity of two word sets, 0 when either is empty. */
  function Jaccard(x: set<string>, y: set<string>): (r: real)
    ensures 0.0 <= r <= 1.0
    ensures x == {} || y == {} ==> r == 0.0
    ensures x != {} && x == y ==> r == 1.0
    ensures x * y == {} ==> r == 0.0
  {
    if |x| > 0 && |y| > 0 then
      SubsetCardinality(x * y, x + y);
      SubsetCardinality(x, x + y);
      assert x == y ==> x * y == x + y;
      Fraction(|x * y|, |x + y|)
    else 0.0
  }

  /** `a / b` for counts `a <= b`, a real in [0, 1]. */
  function Fraction(a: nat, b: nat): (r: real)
    requires 0 < b && a <= b
    ensures 0.0 <= r <= 1.0
    ensures r == 1.0 <==> a == b
    ensures r == 0.0 <==> a == 0
  {
    var q := (a as real) / (b as real);
    assert q * (b as real) == a as real;
    assert (1.0 - q) * (b as real) == (b - a) as real;
    q
  }

  lemma {:induction false} SubsetCardinality(a: set<string>, b: set<string>)
    requires a <= b
    ensures |a| <= |b|
    ensures a < b ==> |a| < |b|
  {
    assert b == a + (b - a);
    assert |b| == |a| + |b - a|;
  }

  /** Jaccard similarity does not depend on argument order. */
  lemma JaccardSymmetric(x: set<string>, y: set<string>)
    ensures Jaccard(x, y) == Jaccard(y, x)
  {
    assert x * y == y * x;
    assert x + y == y + x;
  }

  /** Full overlap happens exactly for equal non-empty word sets. */
  lemma JaccardOneIff(x: set<string>, y: set<string>)
    ensures Jaccard(x, y) == 1.0 <==> x != {} && x == y
  {
    if Jaccard(x, y) == 1.0 {
      assert |x| > 0 && |y| > 0;
      SubsetCardinality(x * y, x + y);
      SubsetCardinality(x, x + y);
      assert |x * y| == |x + y|;
      if x * y != x + y {
        SubsetCardinality(x * y, x + y);
      }
      assert x * y == x + y;
      assert forall w :: w in x ==> w in y by {
        forall w | w in x ensures w in y { assert w in x + y; }
      }
      assert forall w :: w in y ==> w in x by {
        forall w | w in y ensures w in x { assert w in x + y; }
      }
    }
  }

  /** The word-overlap sub-score: Jaccard similarity of the `\w+` token sets
      of the two lower-cased strings. */
  function WordOverlap(hint: string, name: string): (r: real)
    ensures 0.0 <= r <= 1.0
  {
    Jaccard(Words(Lower(hint)), Words(Lower(name)))
  }

  predicate EitherContains(a: string, b: string) {
    Contains(b, a) || Contains(a, b)
  }

  /** `_calculate_similarity(hint, name)`: 0.9 when either string contains
      the other, otherwise 0.6 times the sequence ratio plus 0.4 times the
      word overlap. Always a score in [0, 1]. */
  function Score(ratio: Ratio, hint: string, name: string): (r: real)
    ensures 0.0 <= r <= 1.0
    ensures EitherContains(hint, name) ==> r == ContainmentScore
    ensures !EitherContains(hint, name) ==> r <= SequenceWeight * ratio(hint, name) + WordWeight
  {
    if Contains(name, hint) || Contains(hint, name) then ContainmentScore
    else SequenceWeight * ratio(hint, name) + WordWeight * WordOverlap(hint, name)
  }

  /** The score is symmetric wherever the sequence ratio is: containment is
      tested both ways and Jaccard similarity is symmetric. */
  lemma ScoreSymmetricWhereRatioIs(ratio: Ratio, a: string, b: string)
    requires ratio(a, b) == ratio(b, a)
    ensures Score(ratio, a, b) == Score(ratio, b, a)
  {
    JaccardSymmetric(Words(Lower(a)), Words(Lower(b)));
  }

  /** Without containment and without a shared word, a score above the
      threshold needs a sequence ratio above one half. */
  lemma NoSharedWordNeedsHighRatio(ratio: Ratio, hint: string, name: string)
    requires !EitherContains(hint, name)
    requires Words(Lower(hint)) * Words(Lower(name)) == {}
    requires Score(ratio, hint, name) > Threshold
    ensures ratio(hint, name) > 0.5
  {
  }

  /** The loop of the similarity pass over precomputed scores: it replaces
      the current best only on a score strictly above both the best so far
      and the threshold. */
  function Scan(s: seq<real>, i: nat, best: Option<nat>, bestScore: real): (r: Option<nat>)
    requires i <= |s|
    ensures r.None? ==> best.None? && forall j :: i <= j < |s| ==> !(s[j] > bestScore && s[j] > Threshold)
    ensures r.Some? && r != best ==> i <= r.value < |s| && s[r.value] > bestScore && s[r.value] > Threshold
    decreases |s| - i
  {
    if i == |s| then best
    else if s[i] > bestScore && s[i] > Threshold then Scan(s, i + 1, Some(i), s[i])
    else Scan(s, i + 1, best, bestScore)
  }

  /** `k` is the first position of the maximum of `s`, and that maximum
      passes the threshold. */
  predicate IsFirstBest(s: seq<real>, k: nat) {
    k < |s| && s[k] > Threshold
    && (forall j :: 0 <= j < |s| ==> s[j] <= s[k])
    && (forall j :: 0 <= j < k ==> s[j] < s[k])
  }

  /** The scan's state after the prefix `s[..i]`. */
  predicate ScanState(s: seq<real>, i: nat, best: Option<nat>, bestScore: real)
    requires i <= |s|
  {
    match best
    case None => bestScore == 0.0 && forall j :: 0 <= j < i ==> s[j] <= Threshold
    case Some(k) => IsFirstBest(s[..i], k) && bestScore == s[k]
  }

  lemma {:induction false} ScanCorrect(s: seq<real>, i: nat, best: Option<nat>, bestScore: real)
    requires i <= |s|
    requires ScanState(s, i, best, bestScore)
    ensures Scan(s, i, best, bestScore).None? <==> forall j :: 0 <= j < |s| ==> s[j] <= Threshold
    ensures Scan(s, i, best, bestScore).Some? ==> IsFirstBest(s, Scan(s, i, best, bestScore).value)
    decreases |s| - i
  {
    if i == |s| {
      assert s[..i] == s;
      if best.Some? {
        assert s[best.value] > Threshold;
      }
    } else {
      var take := s[i] > bestScore && s[i] > Threshold;
      var p, q := s[..i], s[..i + 1];
      if take {
        assert ScanState(s, i + 1, Some(i), s[i]) by {
          assert q[i] == s[i];
          forall j | 0 <= j < i + 1 ensures q[j] <= s[i] {
            if j < i && best.Some? {
              assert p[j] <= p[best.value];
            }
          }
          forall j | 0 <= j < i ensures q[j] < s[i] {
            if best.Some? {
              assert p[j] <= p[best.value];
            }
          }
        }
        ScanCorrect(s, i + 1, Some(i), s[i]);
      } else {
        assert ScanState(s, i + 1, best, bestScore) by {
          match best {
            case None =>
            case Some(k) =>
              assert q[k] == s[k];
              forall j | 0 <= j < i + 1 ensures q[j] <= s[k] {
                if j < i { assert p[j] <= p[k]; }
              }
              forall j | 0 <= j < k ensures q[j] < s[k] {
                assert p[j] < p[k];
              }
          }
        }
        ScanCorrect(s, i + 1, best, bestScore);
      }
    }
  }

  /** The similarity pass's choice among scores: `None` when no score
      exceeds the threshold, otherwise the first position of the maximum. */
  function BestAbove(s: seq<real>): (r: Option<nat>)
    ensures r.None? <==> forall j :: 0 <= j < |s| ==> s[j] <= Threshold
    ensures r.Some? ==> IsFirstBest(s, r.value)
  {
    ScanCorrect(s, 0, None, 0.0);
    Scan(s, 0, None, 0.0)
  }

  /** There is only one first best position, so the scan's answer is
      determined by the scores alone. */
  lemma FirstBestUnique(s: seq<real>, k: nat, m: nat)
    requires IsFirstBest(s, k) && IsFirstBest(s, m)
    ensures k == m
  {
  }
}
