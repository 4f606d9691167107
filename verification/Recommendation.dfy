/** The analysts' choice of the best articles for an article.
  *
  * Scores are reals.  The two analysts differ in how the insertion treats equal scores.
  */
module Recommendation {

  /** The content analyst stops the insertion at an equal score, the title analyst goes past it. */
  datatype TieRule = EarlierFirst | LaterFirst

  const NUM_BEST := 3

  /** The insertion stops below this score. */
  predicate Stops(rule: TieRule, above: real, below: real) {
    match rule
    case EarlierFirst => above >= below
    case LaterFirst => above > below
  }

  /** The order of preference: by score, then by index. */
  predicate Before(rule: TieRule, score: seq<real>, i: nat, j: nat)
    requires i < |score| && j < |score|
  {
    score[i] > score[j] || (score[i] == score[j] && if rule == EarlierFirst then i < j else i > j)
  }

  predicate Candidate(n: nat, l: int, i: int) {
    0 <= i < n && i != l
  }

  function NumCandidates(n: nat, l: int): nat {
    if 0 <= l < n then n - 1 else n
  }

  function Min(a: int, b: int): int {
    if a <= b then a else b
  }

  ghost predicate Ordered(rule: TieRule, score: seq<real>, best: seq<nat>) {
    && (forall k :: 0 <= k < |best| ==> best[k] < |score|)
    && forall j, k :: 0 <= j < k < |best| ==> Before(rule, score, best[j], best[k])
  }

  /** The best few of the first n indices other than l, in order. */
  ghost predicate Best(rule: TieRule, score: seq<real>, l: int, n: nat, best: seq<nat>)
    requires n <= |score|
  {
    && Ordered(rule, score, best)
    && |best| == Min(NUM_BEST, NumCandidates(n, l))
    && (forall k :: 0 <= k < |best| ==> Candidate(n, l, best[k]))
    && (forall i, k :: Candidate(n, l, i) && i !in best && 0 <= k < |best| ==> Before(rule, score, best[k], i))
  }

  // ----- The insertion loop -----

  /** The index i has sunk from the end to position j of the list. */
  function Inserted(was: seq<nat>, j: nat, i: nat): seq<nat>
    requires j <= |was|
  {
    was[..j] + [i] + was[j..]
  }

  ghost predicate Sinking(rule: TieRule, score: seq<real>, was: seq<nat>, j: nat, i: nat)
    requires i < |score| && Ordered(rule, score, was)
  {
    j <= |was| && forall k :: j <= k < |was| ==> Before(rule, score, i, was[k])
  }

  lemma SwapSinks(was: seq<nat>, j: nat, i: nat)
    requires 1 <= j <= |was|
    ensures var b := Inserted(was, j, i); b[j - 1 := b[j]][j := b[j - 1]] == Inserted(was, j - 1, i)
  {
  }

  lemma InsertedOrdered(rule: TieRule, score: seq<real>, was: seq<nat>, j: nat, i: nat)
    requires i < |score| && Ordered(rule, score, was) && Sinking(rule, score, was, j, i)
    requires j > 0 ==> Before(rule, score, was[j - 1], i)
    ensures Ordered(rule, score, Inserted(was, j, i))
  {
    var b := Inserted(was, j, i);
    assert forall k :: 0 <= k < |b| ==> b[k] == if k < j then was[k] else if k == j then i else was[k - 1];
    forall k | 0 <= k < j ensures Before(rule, score, was[k], i) {
      assert k < j - 1 ==> Before(rule, score, was[k], was[j - 1]);
    }
  }

  /** Puts one more index where it belongs, by swaps from the end. */
  method InsertLast(rule: TieRule, score: seq<real>, bestIdx0: seq<nat>, i: nat) returns (bestIdx: seq<nat>, ghost at: nat)
    requires i < |score| && Ordered(rule, score, bestIdx0)
    requires forall k :: 0 <= k < |bestIdx0| ==> bestIdx0[k] < i
    ensures at <= |bestIdx0| && bestIdx == Inserted(bestIdx0, at, i)
    ensures Ordered(rule, score, bestIdx)
  {
    bestIdx := bestIdx0 + [i];
    var j := |bestIdx| - 1;
    assert bestIdx == Inserted(bestIdx0, j, i);
    while j - 1 >= 0
      invariant 0 <= j <= |bestIdx0| && bestIdx == Inserted(bestIdx0, j, i)
      invariant Sinking(rule, score, bestIdx0, j, i)
    {
      if Stops(rule, score[bestIdx[j - 1]], score[bestIdx[j]]) {
        break;
      }
      SwapSinks(bestIdx0, j, i);
      bestIdx := bestIdx[j - 1 := bestIdx[j]][j := bestIdx[j - 1]];
      j := j - 1;
    }
    at := j;
    InsertedOrdered(rule, score, bestIdx0, j, i);
  }

  /** Inserting the next candidate into the best so far, and dropping a fourth, gives the best again. */
  lemma BestNext(rule: TieRule, score: seq<real>, l: int, n: nat, was: seq<nat>, at: nat)
    requires n < |score| && n != l && Best(rule, score, l, n, was) && at <= |was|
    requires Ordered(rule, score, Inserted(was, at, n))
    ensures var b := Inserted(was, at, n);
            Best(rule, score, l, n + 1, if |b| > NUM_BEST then b[..|b| - 1] else b)
  {
    var b := Inserted(was, at, n);
    var best := if |b| > NUM_BEST then b[..|b| - 1] else b;
    KeptAreCandidates(l, n, was, at);
    hide Before, Inserted, Candidate;
    forall i, k | Candidate(n + 1, l, i) && i !in best && 0 <= k < |best| ensures Before(rule, score, best[k], i) {
      if i in b {
        var p :| 0 <= p < |b| && b[p] == i;
        assert p >= |best|;
        assert p == |b| - 1 && best[k] == b[k];
      } else {
        NotInserted(l, n, was, at, i);
        LastIsBehind(rule, score, l, n, was, at, k, i);
      }
    }
  }

  lemma KeptAreCandidates(l: int, n: nat, was: seq<nat>, at: nat)
    requires n != l && at <= |was| && forall k :: 0 <= k < |was| ==> Candidate(n, l, was[k])
    ensures var b := Inserted(was, at, n); forall k :: 0 <= k < |b| ==> Candidate(n + 1, l, b[k])
  {
    var b := Inserted(was, at, n);
    assert forall k :: 0 <= k < |b| ==> b[k] == if k < at then was[k] else if k == at then n else was[k - 1];
  }

  lemma NotInserted(l: int, n: nat, was: seq<nat>, at: nat, i: nat)
    requires at <= |was| && i !in Inserted(was, at, n) && Candidate(n + 1, l, i)
    ensures i !in was && Candidate(n, l, i)
  {
    var b := Inserted(was, at, n);
    assert forall k :: 0 <= k < |was| ==> was[k] == b[if k < at then k else k + 1];
    assert b[at] == n;
  }

  lemma LastIsBehind(rule: TieRule, score: seq<real>, l: int, n: nat, was: seq<nat>, at: nat, k: nat, i: nat)
    requires n < |score| && n != l && Best(rule, score, l, n, was) && at <= |was|
    requires Ordered(rule, score, Inserted(was, at, n))
    requires Candidate(n, l, i) && i !in was && k < |Inserted(was, at, n)| && k < NUM_BEST
    ensures Before(rule, score, Inserted(was, at, n)[k], i)
  {
    var b := Inserted(was, at, n);
    assert |was| == NUM_BEST by {
      if |was| == NumCandidates(n, l) {
        AllListed(l, n, was);
      }
    }
    if k < at {
      assert b[k] == was[k];
    } else if k > at {
      assert b[k] == was[k - 1];
    } else {
      assert b[k] == n && b[|was|] == was[|was| - 1];
      assert Before(rule, score, n, was[|was| - 1]);
      assert Before(rule, score, was[|was| - 1], i);
    }
  }

  /** A list of different candidates as long as there are candidates has all of them. */
  lemma AllListed(l: int, n: nat, best: seq<nat>)
    requires |best| == NumCandidates(n, l)
    requires forall k :: 0 <= k < |best| ==> Candidate(n, l, best[k])
    requires forall j, k :: 0 <= j < k < |best| ==> best[j] != best[k]
    ensures forall i: nat :: Candidate(n, l, i) ==> i in best
  {
    CandidatesCounted(l, n);
    ListedCounted(best);
    forall i: nat | Candidate(n, l, i) ensures i in best {
      if i !in best {
        assert i in Candidates(n, l) && i !in Listed(best);
        FewerInSubset(Listed(best), Candidates(n, l));
      }
    }
  }

  ghost function Candidates(n: nat, l: int): set<nat> {
    set i: nat | i < n && Candidate(n, l, i)
  }

  ghost function Listed(best: seq<nat>): set<nat> {
    set i | i in best
  }

  lemma FewerInSubset(a: set<nat>, b: set<nat>)
    requires a < b
    ensures |a| < |b|
  {
    var x :| x in b && x !in a;
    assert a <= b - {x};
    SubsetSize(a, b - {x});
  }

  lemma {:induction false} SubsetSize(a: set<nat>, b: set<nat>)
    requires a <= b
    ensures |a| <= |b|
    decreases |a|
  {
    if a != {} {
      var x :| x in a;
      SubsetSize(a - {x}, b - {x});
    }
  }

  lemma {:induction false} CandidatesCounted(l: int, n: nat)
    ensures |Candidates(n, l)| == NumCandidates(n, l)
    decreases n
  {
    if n > 0 {
      CandidatesCounted(l, n - 1);
      CandidatesNext(l, n - 1);
      hide Candidates;
      assert n - 1 !in Candidates(n - 1, l);
    }
  }

  lemma CandidatesNext(l: int, n: nat)
    ensures Candidates(n + 1, l) == (if n == l then Candidates(n, l) else Candidates(n, l) + {n})
    ensures n !in Candidates(n, l)
  {
  }

  lemma {:induction false} ListedCounted(best: seq<nat>)
    requires forall j, k :: 0 <= j < k < |best| ==> best[j] != best[k]
    ensures |Listed(best)| == |best|
    decreases |best|
  {
    if best != [] {
      var init, last := best[..|best| - 1], best[|best| - 1];
      ListedCounted(init);
      assert best == init + [last];
      assert Listed(best) == Listed(init) + {last};
      assert last !in Listed(init);
    }
  }

  lemma OlderIndices(rule: TieRule, score: seq<real>, l: int, n: nat, best: seq<nat>)
    requires n <= |score| && Best(rule, score, l, n, best)
    ensures Ordered(rule, score, best) && forall k :: 0 <= k < |best| ==> best[k] < n
  {
  }

  lemma NoneYet(rule: TieRule, score: seq<real>, l: int)
    ensures Best(rule, score, l, 0, [])
  {
  }

  lemma Skipped(rule: TieRule, score: seq<real>, l: nat, best: seq<nat>)
    requires l < |score| && Best(rule, score, l, l, best)
    ensures Best(rule, score, l, l + 1, best)
  {
    hide Before;
    assert forall i :: Candidate(l + 1, l, i) <==> Candidate(l, l, i);
  }

  /** Along the list scores do not increase, and of equal scores the earlier article comes first for the content
    * analyst, the later one for the title analyst; no other article than l and those listed has a higher score
    * than a listed one. */
  ghost predicate Highest(rule: TieRule, score: seq<real>, l: int, best: seq<nat>) {
    && (forall k :: 0 <= k < |best| ==> best[k] < |score| && best[k] != l)
    && (forall j, k :: 0 <= j < k < |best| ==>
          && score[best[j]] >= score[best[k]]
          && (score[best[j]] == score[best[k]] ==> if rule.EarlierFirst? then best[j] < best[k] else best[j] > best[k]))
    && (forall i, k :: 0 <= i < |score| && i != l && i !in best && 0 <= k < |best| ==> score[i] <= score[best[k]])
  }

  lemma BestAreHighest(rule: TieRule, score: seq<real>, l: int, best: seq<nat>)
    requires Best(rule, score, l, |score|, best)
    ensures Highest(rule, score, l, best)
  {
    forall i, k | 0 <= i < |score| && i != l && i !in best && 0 <= k < |best| ensures score[i] <= score[best[k]] {
      assert Candidate(|score|, l, i);
      assert Before(rule, score, best[k], i);
    }
  }

  /** The insertion loop over all articles. */
  method SelectBest(rule: TieRule, score: seq<real>, l: int) returns (bestIdx: seq<nat>)
    ensures Best(rule, score, l, |score|, bestIdx)
    ensures Highest(rule, score, l, bestIdx)
    ensures |bestIdx| == Min(3, if 0 <= l < |score| then |score| - 1 else |score|)
  {
    hide Best, Ordered, Before, Inserted, Candidate, Highest;
    bestIdx := [];
    NoneYet(rule, score, l);
    for i := 0 to |score|
      invariant Best(rule, score, l, i, bestIdx)
    {
      if i == l {
        Skipped(rule, score, l, bestIdx);
        continue;
      }
      ghost var was, at := bestIdx, 0;
      OlderIndices(rule, score, l, i, was);
      bestIdx, at := InsertLast(rule, score, bestIdx, i);
      BestNext(rule, score, l, i, was, at);
      if |bestIdx| > NUM_BEST {
        bestIdx := bestIdx[..|bestIdx| - 1];
      }
    }
    BestAreHighest(rule, score, l, bestIdx);
    BestCount(rule, score, l, bestIdx);
  }

  lemma BestCount(rule: TieRule, score: seq<real>, l: int, best: seq<nat>)
    requires Best(rule, score, l, |score|, best)
    ensures |best| == Min(3, if 0 <= l < |score| then |score| - 1 else |score|)
  {
  }

  // ----- What the result means -----

  /** The articles preferred to an article. */
  ghost function Preferred(rule: TieRule, score: seq<real>, l: int, i: nat): set<nat>
    requires i < |score|
  {
    set j: nat | j < |score| && Candidate(|score|, l, j) && Before(rule, score, j, i)
  }

  /** An article is the k-th of the result exactly when k others are preferred to it. */
  lemma RankIff(rule: TieRule, score: seq<real>, l: int, best: seq<nat>, i: nat, k: nat)
    requires Best(rule, score, l, |score|, best) && Candidate(|score|, l, i) && k < |best|
    ensures best[k] == i <==> |Preferred(rule, score, l, i)| == k
  {
    RankOf(rule, score, l, best, k);
    if i in best {
      var j: nat :| j < |best| && best[j] == i;
      RankOf(rule, score, l, best, j);
    } else {
      RankOfOther(rule, score, l, best, i);
    }
  }

  lemma RankOf(rule: TieRule, score: seq<real>, l: int, best: seq<nat>, k: nat)
    requires Best(rule, score, l, |score|, best) && k < |best|
    ensures |Preferred(rule, score, l, best[k])| == k
  {
    var first := best[..k];
    ListedCounted(first);
    forall j: nat | j < |score| && Candidate(|score|, l, j)
      ensures Before(rule, score, j, best[k]) <==> j in first
    {
      if j in best {
        var p: nat :| p < |best| && best[p] == j;
        assert p < k ==> first[p] == j;
      }
    }
    assert Preferred(rule, score, l, best[k]) == Listed(first);
  }

  lemma RankOfOther(rule: TieRule, score: seq<real>, l: int, best: seq<nat>, i: nat)
    requires Best(rule, score, l, |score|, best) && Candidate(|score|, l, i) && i !in best
    ensures |Preferred(rule, score, l, i)| >= |best|
  {
    ListedCounted(best);
    forall j | j in Listed(best) ensures j in Preferred(rule, score, l, i) {
      var p: nat :| p < |best| && best[p] == j;
    }
    SubsetSize(Listed(best), Preferred(rule, score, l, i));
  }

  /** With pairwise different scores both analysts choose alike. */
  lemma TiesAlone(score: seq<real>, l: int, a: seq<nat>, b: seq<nat>)
    requires Best(EarlierFirst, score, l, |score|, a) && Best(LaterFirst, score, l, |score|, b)
    requires forall i, j :: 0 <= i < j < |score| ==> score[i] != score[j]
    ensures a == b
  {
    forall k | 0 <= k < |a| ensures a[k] == b[k] {
      RankOf(EarlierFirst, score, l, a, k);
      assert Preferred(EarlierFirst, score, l, a[k]) == Preferred(LaterFirst, score, l, a[k]);
      RankIff(LaterFirst, score, l, b, a[k], k);
    }
  }
}
