/** StraightLocator.java: the best straight. */
module StraightLocator {
  import opened Outcomes
  import opened Ranks
  import opened Cards
  import opened Hands
  import opened RankScan

  /** The scan of the working copy from position `i`: `run` holds cards of
      consecutive descending rank values ending with the last rank seen. A
      card of the same rank is skipped, a card one lower extends the run,
      any other card starts a new run; the scan stops when the run has five
      cards. */
  function Scan(s: seq<Card>, i: nat, run: seq<Card>): (r: seq<Card>)
    requires run != []
    ensures r != []
    ensures |run| <= 5 ==> |r| <= 5
    ensures forall k :: 0 <= k < |r| ==> r[k] in run || r[k] in s
    decreases |s| - i
  {
    if |run| == 5 || i >= |s| then run
    else
      var last := Val(run[|run| - 1]);
      if Val(s[i]) == last then Scan(s, i + 1, run)
      else if last != Val(s[i]) + 1 then Scan(s, i + 1, [s[i]])
      else Scan(s, i + 1, run + [s[i]])
  }

  /** The run the locator ends with, starting from the top card. */
  function FinalRun(s: seq<Card>): (r: seq<Card>)
    requires s != []
    ensures r != [] && |r| <= 5
    ensures forall k :: 0 <= k < |r| ==> r[k] in s
  {
    Scan(s, 1, [s[0]])
  }

  /** The locator's result: fewer than five cards is an error; a final run
      of five cards is a Straight ranked by its top card, anything shorter
      is no hand. */
  function BestStraight(cards: seq<Card>): (r: Result<Option<Hand>>)
    ensures r.Err? <==> |cards| < 5
    ensures r.Err? ==> r.error == IllegalArgument
    ensures r.Ok? && r.value.Some? ==> |r.value.value.ranks| == 1
  {
    if |cards| < 5 then Err(IllegalArgument)
    else
      var run := FinalRun(ByRank(cards));
      if |run| == 5 then Ok(Some(NewHand(Straight, run, [run[0].rank]).value))
      else Ok(None)
  }

  /** `findBestHand`: sort a copy, scan it keeping the current run of
      consecutive ranks, stop at five, then assemble the hand. */
  method FindBestHand(cards: seq<Card>) returns (r: Result<Option<Hand>>)
    ensures r == BestStraight(cards)
  {
    if |cards| < 5 {
      return Err(IllegalArgument);
    }
    var s := ByRank(cards);
    var bestCards := [s[0]];
    var lastRank := Val(s[0]);
    for i := 1 to |s|
      invariant bestCards != [] && |bestCards| < 5
      invariant lastRank == Val(bestCards[|bestCards| - 1])
      invariant Scan(s, i, bestCards) == FinalRun(s)
    {
      var rank := Val(s[i]);
      if lastRank != rank {
        if lastRank != rank + 1 {
          bestCards := [];
        }
        assert [] + [s[i]] == [s[i]];
        bestCards := bestCards + [s[i]];
        lastRank := rank;
        if |bestCards| == 5 {
          break;
        }
      }
    }
    if |bestCards| != 5 {
      return Ok(None);
    }
    var bestRanks := [bestCards[0].rank];
    var hand := NewHand(Straight, bestCards, bestRanks);
    return Ok(Some(hand.value));
  }

  /** Some card among the first `i` of `s` has rank value `w`. */
  predicate Present(s: seq<Card>, i: nat, w: int)
    requires i <= |s|
  {
    exists j :: 0 <= j < i && Val(s[j]) == w
  }

  /** The first `i` cards of `s` hold the five consecutive rank values
      `w`, `w - 1`, ..., `w - 4`: a straight topped by value `w`. */
  predicate StraightTo(s: seq<Card>, i: nat, w: int)
    requires i <= |s|
  {
    4 <= w && Present(s, i, w) && Present(s, i, w - 1) && Present(s, i, w - 2) &&
    Present(s, i, w - 3) && Present(s, i, w - 4)
  }

  /** The cards of `run` have consecutive descending rank values. */
  predicate Consecutive(run: seq<Card>)
  {
    forall k :: 0 <= k < |run| ==> Val(run[k]) + k == Val(run[0])
  }

  /** What holds of the scan state before position `i` of a descending
      copy: the run is consecutive, made of cards of `s`, ends with the
      rank of the last card seen and cannot be extended upwards; while it
      is short no straight has been seen, and once it has five cards no
      straight in `s` tops it. */
  ghost predicate ScanState(s: seq<Card>, i: nat, run: seq<Card>)
    requires 1 <= i <= |s|
  {
    run != [] && |run| <= 5 && Consecutive(run) &&
    (forall k :: 0 <= k < |run| ==> run[k] in s) &&
    Val(run[|run| - 1]) == Val(s[i - 1]) &&
    !Present(s, i, Val(run[0]) + 1) &&
    (|run| < 5 ==> forall w :: !StraightTo(s, i, w)) &&
    (|run| == 5 ==> forall w :: StraightTo(s, |s|, w) ==> w <= Val(run[0]))
  }

  /** In a descending copy a value above that of position `i` can only
      occur before `i`. */
  lemma PresentBefore(s: seq<Card>, i: nat, w: int)
    requires Descending(s) && i < |s| && w > Val(s[i]) && Present(s, |s|, w)
    ensures Present(s, i, w)
  {
    var j :| 0 <= j < |s| && Val(s[j]) == w;
    assert j < i;
  }

  /** A straight in the whole copy topped above `Val(s[i]) + 4` lies
      entirely before `i`. */
  lemma StraightBefore(s: seq<Card>, i: nat, w: int)
    requires Descending(s) && i < |s| && w > Val(s[i]) + 4 && StraightTo(s, |s|, w)
    ensures StraightTo(s, i, w)
  {
    PresentBefore(s, i, w);
    PresentBefore(s, i, w - 1);
    PresentBefore(s, i, w - 2);
    PresentBefore(s, i, w - 3);
    PresentBefore(s, i, w - 4);
  }

  /** The values seen up to `i + 1` are those seen up to `i` and the value
      of `s[i]`. */
  lemma PresentStep(s: seq<Card>, i: nat, w: int)
    requires i < |s| && Present(s, i + 1, w) && w != Val(s[i])
    ensures Present(s, i, w)
  {
  }

  /** Every value seen in a descending copy is at least the last one seen. */
  lemma PresentAtLeast(s: seq<Card>, i: nat, w: int)
    requires Descending(s) && 1 <= i <= |s| && Present(s, i, w)
    ensures w >= Val(s[i - 1])
  {
    var j :| 0 <= j < i && Val(s[j]) == w;
    assert Val(s[j]) >= Val(s[i - 1]);
  }

  /** A straight seen up to `i + 1` either was seen up to `i` or ends at the
      value of `s[i]`. */
  lemma NewStraight(s: seq<Card>, i: nat, w: int)
    requires Descending(s) && 1 <= i < |s| && StraightTo(s, i + 1, w) && !StraightTo(s, i, w)
    ensures w - 4 == Val(s[i])
  {
    PresentAtLeast(s, i + 1, w - 4);
    if w - 4 > Val(s[i]) {
      PresentStep(s, i, w);
      PresentStep(s, i, w - 1);
      PresentStep(s, i, w - 2);
      PresentStep(s, i, w - 3);
      PresentStep(s, i, w - 4);
      assert false;
    }
  }

  /** A card of the last rank seen is skipped. */
  lemma ScanSkip(s: seq<Card>, i: nat, run: seq<Card>)
    requires Descending(s) && 1 <= i < |s| && |run| < 5 && ScanState(s, i, run)
    requires Val(s[i]) == Val(run[|run| - 1])
    ensures ScanState(s, i + 1, run)
  {
    var n := i + 1;
    assert Present(s, i, Val(s[i])) by {
      assert Val(s[i - 1]) == Val(s[i]);
    }
    forall w ensures !StraightTo(s, n, w) {
      if StraightTo(s, n, w) && !StraightTo(s, i, w) {
        NewStraight(s, i, w);
      }
    }
  }

  /** A card more than one rank below the last one seen starts a new run. */
  lemma ScanRestart(s: seq<Card>, i: nat, run: seq<Card>)
    requires Descending(s) && 1 <= i < |s| && |run| < 5 && ScanState(s, i, run)
    requires Val(s[i]) != Val(run[|run| - 1]) && Val(run[|run| - 1]) != Val(s[i]) + 1
    ensures ScanState(s, i + 1, [s[i]])
  {
    var n := i + 1;
    var x := Val(s[i]);
    assert Val(s[i - 1]) >= x;
    if Present(s, n, x + 1) {
      PresentStep(s, i, x + 1);
      PresentAtLeast(s, i, x + 1);
    }
    forall w ensures !StraightTo(s, n, w) {
      if StraightTo(s, n, w) && !StraightTo(s, i, w) {
        NewStraight(s, i, w);
      }
    }
  }

  /** A card one rank below the last one seen extends the run. */
  lemma ScanExtend(s: seq<Card>, i: nat, run: seq<Card>)
    requires Descending(s) && 1 <= i < |s| && |run| < 5 && ScanState(s, i, run)
    requires Val(run[|run| - 1]) == Val(s[i]) + 1
    ensures ScanState(s, i + 1, run + [s[i]])
  {
    var n := i + 1;
    var x := Val(s[i]);
    var next := run + [s[i]];
    assert Consecutive(next) by {
      forall k | 0 <= k < |next| ensures Val(next[k]) + k == Val(next[0]) {
        if k < |run| {
          assert next[k] == run[k];
        }
      }
    }
    if |next| < 5 {
      assert Present(s, n, x);
      forall w ensures !StraightTo(s, n, w) {
        if StraightTo(s, n, w) && !StraightTo(s, i, w) {
          NewStraight(s, i, w);
        }
      }
    } else {
      forall w | StraightTo(s, |s|, w) ensures w <= Val(next[0]) {
        if w > Val(next[0]) {
          StraightBefore(s, i, w);
        }
      }
    }
  }

  /** What the finished scan delivers: a consecutive run of at most five
      cards of `s`; five of them top every straight in `s`, fewer mean
      there is no straight in `s`. */
  ghost predicate ScanOutcome(s: seq<Card>, r: seq<Card>)
  {
    r != [] && |r| <= 5 && Consecutive(r) && (forall k :: 0 <= k < |r| ==> r[k] in s) &&
    (|r| == 5 ==> forall w :: StraightTo(s, |s|, w) ==> w <= Val(r[0])) &&
    (|r| < 5 ==> forall w :: !StraightTo(s, |s|, w))
  }

  /** From a reachable scan state the scan ends in its outcome. */
  lemma {:induction false} ScanResult(s: seq<Card>, i: nat, run: seq<Card>)
    requires Descending(s) && 1 <= i <= |s| && ScanState(s, i, run)
    ensures ScanOutcome(s, Scan(s, i, run))
    decreases |s| - i
  {
    if |run| == 5 || i == |s| {
    } else {
      var last := Val(run[|run| - 1]);
      if Val(s[i]) == last {
        ScanSkip(s, i, run);
        ScanResult(s, i + 1, run);
      } else if last != Val(s[i]) + 1 {
        ScanRestart(s, i, run);
        ScanResult(s, i + 1, [s[i]]);
      } else {
        ScanExtend(s, i, run);
        ScanResult(s, i + 1, run + [s[i]]);
      }
    }
  }

  /** The scan from the top card of a descending copy ends in its outcome. */
  lemma FinalRunOutcome(s: seq<Card>)
    requires Descending(s) && s != []
    ensures ScanOutcome(s, FinalRun(s))
  {
    var w := Val(s[0]) + 1;
    if Present(s, 1, w) {
      assert false;
    }
    ScanResult(s, 1, [s[0]]);
  }

  /** The rank value of a card of `s` is present in `s`. */
  lemma Occurs(s: seq<Card>, c: Card)
    requires c in s
    ensures Present(s, |s|, Val(c))
  {
    var j :| 0 <= j < |s| && s[j] == c;
  }

  /** A list of pairwise distinct cards, each occurring in `s`, is a
      sub-multiset of `s`. */
  lemma {:induction false} DistinctWithin(r: seq<Card>, s: seq<Card>)
    requires forall i, j :: 0 <= i < j < |r| ==> r[i] != r[j]
    requires forall k :: 0 <= k < |r| ==> r[k] in s
    ensures multiset(r) <= multiset(s)
  {
    if r != [] {
      var front, a := r[..|r| - 1], r[|r| - 1];
      DistinctWithin(front, s);
      assert r == front + [a];
      assert a !in front;
      forall c ensures multiset(r)[c] <= multiset(s)[c] {
      }
    }
  }

  /** The same rank values occur in two orderings of the same cards. */
  lemma PresentPermutation(s: seq<Card>, cards: seq<Card>, w: int)
    requires multiset(s) == multiset(cards)
    ensures Present(s, |s|, w) <==> Present(cards, |cards|, w)
  {
    if Present(s, |s|, w) {
      var j :| 0 <= j < |s| && Val(s[j]) == w;
      assert s[j] in multiset(cards);
      var k :| 0 <= k < |cards| && cards[k] == s[j];
    }
    if Present(cards, |cards|, w) {
      var j :| 0 <= j < |cards| && Val(cards[j]) == w;
      assert cards[j] in multiset(s);
      var k :| 0 <= k < |s| && s[k] == cards[j];
    }
  }

  /** The same straights occur in two orderings of the same cards. */
  lemma StraightPermutation(s: seq<Card>, cards: seq<Card>, w: int)
    requires multiset(s) == multiset(cards)
    ensures StraightTo(s, |s|, w) <==> StraightTo(cards, |cards|, w)
  {
    PresentPermutation(s, cards, w);
    PresentPermutation(s, cards, w - 1);
    PresentPermutation(s, cards, w - 2);
    PresentPermutation(s, cards, w - 3);
    PresentPermutation(s, cards, w - 4);
  }

  /** A found straight is five cards of the input, pairwise distinct, with
      rank values falling by one from the first; the hand is labelled
      Straight, keeps all five cards and is ranked by its top card alone. */
  lemma StraightShape(cards: seq<Card>)
    requires BestStraight(cards).Ok? && BestStraight(cards).value.Some?
    ensures var h := BestStraight(cards).value.value;
      var best := FinalRun(ByRank(cards));
      |best| == 5 && multiset(best) <= multiset(cards) &&
      (forall k :: 0 <= k < 5 ==> Val(best[k]) == Val(best[0]) - k) &&
      h.category == Straight && h.ranks == [best[0].rank] &&
      h.cards == CardSet(best) && |h.cards| == 5
  {
    ByRankDescends(cards);
    var s := ByRank(cards);
    var best := FinalRun(s);
    FinalRunOutcome(s);
    assert forall i, j :: 0 <= i < j < |best| ==> best[i] != best[j] by {
      forall i, j | 0 <= i < j < |best| ensures best[i] != best[j] {
        assert Val(best[i]) + i == Val(best[j]) + j;
      }
    }
    DistinctWithin(best, s);
    DistinctSetSize(best);
  }

  /** A found straight occurs in the input and no straight of the input
      has a higher top rank. */
  lemma StraightIsHighest(cards: seq<Card>)
    requires BestStraight(cards).Ok? && BestStraight(cards).value.Some?
    ensures var v := RankValue(BestStraight(cards).value.value.ranks[0]);
      StraightTo(cards, |cards|, v) &&
      forall w :: StraightTo(cards, |cards|, w) ==> w <= v
  {
    ByRankDescends(cards);
    var s := ByRank(cards);
    var best := FinalRun(s);
    FinalRunOutcome(s);
    var v := Val(best[0]);
    assert RankValue(BestStraight(cards).value.value.ranks[0]) == v;
    FoundStraight(s, best);
    StraightPermutation(s, cards, v);
    NoHigherStraight(s, cards, v);
  }

  /** Five consecutive cards of `s` make a straight to the first one's
      rank value. */
  lemma FoundStraight(s: seq<Card>, best: seq<Card>)
    requires |best| == 5 && Consecutive(best) && forall k :: 0 <= k < 5 ==> best[k] in s
    ensures StraightTo(s, |s|, Val(best[0]))
  {
    var v := Val(best[0]);
    assert Val(best[1]) == v - 1 && Val(best[2]) == v - 2;
    assert Val(best[3]) == v - 3 && Val(best[4]) == v - 4;
    Occurs(s, best[0]);
    Occurs(s, best[1]);
    Occurs(s, best[2]);
    Occurs(s, best[3]);
    Occurs(s, best[4]);
  }

  /** A bound on the straights of `s` bounds those of a permutation. */
  lemma NoHigherStraight(s: seq<Card>, cards: seq<Card>, v: int)
    requires multiset(s) == multiset(cards)
    requires forall w :: StraightTo(s, |s|, w) ==> w <= v
    ensures forall w :: StraightTo(cards, |cards|, w) ==> w <= v
  {
    forall w | StraightTo(cards, |cards|, w) ensures w <= v {
      StraightPermutation(s, cards, w);
    }
  }

  /** No hand is found exactly when the input holds no five consecutive
      rank values; the Ace ranks only above the King, so A-2-3-4-5 is not
      one. */
  lemma StraightAbsentIff(cards: seq<Card>)
    requires |cards| >= 5
    ensures BestStraight(cards) == Ok(None) <==> forall w :: !StraightTo(cards, |cards|, w)
  {
    ByRankDescends(cards);
    var s := ByRank(cards);
    FinalRunOutcome(s);
    if BestStraight(cards) == Ok(None) {
      forall w ensures !StraightTo(cards, |cards|, w) {
        StraightPermutation(s, cards, w);
      }
    } else {
      StraightIsHighest(cards);
    }
  }

  /** The scan depends on the ranks only: runs with the same ranks over
      copies with the same ranks end with the same ranks. */
  lemma {:induction false} ScanSameRanks(s: seq<Card>, t: seq<Card>, i: nat, run: seq<Card>, run': seq<Card>)
    requires SameRanks(s, t) && SameRanks(run, run') && run != []
    ensures SameRanks(Scan(s, i, run), Scan(t, i, run'))
    decreases |s| - i
  {
    if |run| != 5 && i < |s| {
      var last := Val(run[|run| - 1]);
      assert Val(run'[|run'| - 1]) == last;
      if Val(s[i]) == last {
        ScanSameRanks(s, t, i + 1, run, run');
      } else if last != Val(s[i]) + 1 {
        ScanSameRanks(s, t, i + 1, [s[i]], [t[i]]);
      } else {
        SameRanksConcat(run, [s[i]], run', [t[i]]);
        ScanSameRanks(s, t, i + 1, run + [s[i]], run' + [t[i]]);
      }
    }
  }

  /** Reordering the input gives the same outcome: the same error, no hand
      for both, or straights with the same top rank. */
  lemma StraightReordered(p: seq<Card>, q: seq<Card>)
    requires multiset(p) == multiset(q)
    ensures SameGrade(BestStraight(p), BestStraight(q))
  {
    ReorderedLength(p, q);
    if |p| >= 5 {
      var s, t := ByRank(p), ByRank(q);
      ByRankReordered(p, q);
      ScanSameRanks(s, t, 1, [s[0]], [t[0]]);
    }
  }
}
