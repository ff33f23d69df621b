/** FullHouseLocator.java: the best full-house hand. */
module FullHouseLocator {
  import opened Outcomes
  import opened Ranks
  import opened Cards
  import opened Hands
  import opened RankScan

  /** Positions `i` and `i + 1` both avoid the three triple positions
      starting at `t`. */
  predicate Clear(t: nat, i: nat)
  {
    i + 2 <= t || t + 3 <= i
  }

  /** The first adjacent pair at or after `from` that avoids the triple at
      `t`. */
  function FirstClearPair(s: seq<Card>, t: nat, from: nat): (r: Option<nat>)
    ensures r.Some? ==> from <= r.value && RunAt(s, r.value, 2) && Clear(t, r.value)
    ensures r.Some? ==> forall i :: from <= i < r.value && Clear(t, i) ==> !RunAt(s, i, 2)
    ensures r.None? ==> forall i :: from <= i && Clear(t, i) ==> !RunAt(s, i, 2)
    decreases |s| - from
  {
    if from + 2 > |s| then None
    else if Clear(t, from) && RunAt(s, from, 2) then Some(from)
    else FirstClearPair(s, t, from + 1)
  }

  /** A clear pair with no clear pair before it is the first one. */
  lemma {:induction false} FirstClearPairAt(s: seq<Card>, t: nat, from: nat, i: nat)
    requires from <= i && RunAt(s, i, 2) && Clear(t, i)
    requires forall j :: from <= j < i && Clear(t, j) ==> !RunAt(s, j, 2)
    ensures FirstClearPair(s, t, from) == Some(i)
    decreases i - from
  {
    if from < i {
      FirstClearPairAt(s, t, from + 1, i);
    }
  }

  /** Without a clear pair from `from` on there is none to find. */
  lemma NoClearPairFrom(s: seq<Card>, t: nat, from: nat)
    requires forall j :: from <= j && j + 2 <= |s| && Clear(t, j) ==> !RunAt(s, j, 2)
    ensures FirstClearPair(s, t, from) == None
  {
  }

  /** The Full House hand: the triple then the pair; ranks are theirs. */
  function FullHouseHand(s: seq<Card>, t: nat, p: nat): Hand
    requires t + 3 <= |s| && p + 2 <= |s|
  {
    var best := s[t..t + 3] + s[p..p + 2];
    NewHand(FullHouse, best, [best[0].rank, best[3].rank]).value
  }

  /** The locator's result: fewer than five cards is an error; otherwise the
      first three adjacent equal ranks of the working copy and the first
      adjacent pair that avoids them, or no hand when either is missing. */
  function BestFullHouse(cards: seq<Card>): (r: Result<Option<Hand>>)
    ensures r.Err? <==> |cards| < 5
    ensures r.Err? ==> r.error == IllegalArgument
  {
    if |cards| < 5 then Err(IllegalArgument)
    else
      var s := ByRank(cards);
      match FirstRun(s, 3, 0)
      case None => Ok(None)
      case Some(t) =>
        match FirstClearPair(s, t, 0)
        case None => Ok(None)
        case Some(p) => Ok(Some(FullHouseHand(s, t, p)))
  }

  /** `findBestHand`: sort a copy, find the first triple, then the first
      pair that skips it, and assemble the hand. */
  method FindBestHand(cards: seq<Card>) returns (r: Result<Option<Hand>>)
    ensures r == BestFullHouse(cards)
  {
    if |cards| < 5 {
      return Err(IllegalArgument);
    }
    var s := ByRank(cards);
    var startThreeOfAKind := ScanTriples(s);
    if startThreeOfAKind < 0 {
      return Ok(None);
    }
    var startPair := ScanPairs(s, startThreeOfAKind);
    if startPair < 0 {
      return Ok(None);
    }
    var bestCards := [s[startThreeOfAKind], s[startThreeOfAKind + 1], s[startThreeOfAKind + 2]];
    bestCards := bestCards + [s[startPair], s[startPair + 1]];
    var bestRanks := [bestCards[0].rank, bestCards[3].rank];
    assert BestFullHouse(cards) == Ok(Some(FullHouseHand(s, startThreeOfAKind, startPair)));
    assert bestCards == s[startThreeOfAKind..startThreeOfAKind + 3] + s[startPair..startPair + 2];
    var hand := NewHand(FullHouse, bestCards, bestRanks);
    return Ok(Some(hand.value));
  }

  /** The triple scan: every window of three adjacent cards is compared and
      the first one of equal ranks is kept. A negative index means not
      found. */
  method ScanTriples(s: seq<Card>) returns (start: int)
    ensures start < 0 ==> FirstRun(s, 3, 0).None?
    ensures start >= 0 ==> FirstRun(s, 3, 0) == Some(start)
  {
    start := -1;
    var i := 2;
    while i < |s|
      invariant i >= 2
      invariant start < 0 ==> forall j :: 0 <= j < i - 2 ==> !RunAt(s, j, 3)
      invariant start >= 0 ==> FirstRun(s, 3, 0) == Some(start)
    {
      if s[i - 2].rank == s[i - 1].rank && s[i - 1].rank == s[i].rank {
        if start < 0 {
          FirstRunAt(s, 3, 0, i - 2);
          start := i - 2;
        }
      }
      i := i + 1;
    }
    if start < 0 {
      NoRunFrom(s, 3, 0);
    }
  }

  /** The pair scan: adjacent equal ranks form a pair; the index jumps over
      the triple at `t`, from `t` or from the position just before it, so
      only pairs clear of the triple are compared. A negative index means
      not found. */
  method ScanPairs(s: seq<Card>, t: nat) returns (startPair: int)
    ensures startPair < 0 ==> FirstClearPair(s, t, 0).None?
    ensures startPair >= 0 ==> FirstClearPair(s, t, 0) == Some(startPair)
  {
    startPair := -1;
    var i := 0;
    while i < |s| - 1
      invariant i >= 0 && (i <= t || t + 3 <= i)
      invariant startPair < 0 ==> forall j :: 0 <= j < i && Clear(t, j) ==> !RunAt(s, j, 2)
      invariant startPair >= 0 ==> FirstClearPair(s, t, 0) == Some(startPair)
      decreases |s| - i
    {
      if i == t {
        i := i + 3;
      }
      if i + 1 == t {
        i := i + 4;
      }
      if i < |s| - 1 {
        if s[i].rank == s[i + 1].rank {
          if startPair < 0 {
            FirstClearPairAt(s, t, 0, i);
            startPair := i;
          }
        }
      }
      i := i + 1;
    }
    if startPair < 0 {
      NoClearPairFrom(s, t, 0);
    }
  }

  /** A rank that can supply the pair beside a triple of rank `triple`: any
      other rank occurring twice, or the triple's own rank occurring five
      times. */
  predicate PairCandidate(cs: seq<Card>, triple: Rank, r: Rank)
  {
    if r == triple then Count(cs, r) >= 5 else Count(cs, r) >= 2
  }

  /** Every candidate rank has a clear pair at the top of its block, or
      right after the triple for the triple's own rank. */
  lemma CandidatePair(s: seq<Card>, t: nat, r: Rank) returns (x: nat)
    requires Descending(s) && FirstRun(s, 3, 0) == Some(t)
    requires PairCandidate(s, s[t].rank, r)
    ensures Clear(t, x) && RunAt(s, x, 2) && s[x].rank == r
  {
    var tr := s[t].rank;
    FirstRunStartsBlock(s, 3);
    Block(s, tr);
    if r == tr {
      x := t + 3;
    } else {
      RunIffCount(s, r, 2);
      x := Above(s, RankValue(r));
      if RankValue(r) <= RankValue(tr) {
        BlockAfter(s, tr, r);
      } else {
        BlockAfter(s, r, tr);
      }
    }
  }

  /** The pair found beside the triple at `t` has a candidate rank, the
      highest one; with no pair found there is no candidate. */
  lemma ClearPairIsHighest(s: seq<Card>, t: nat)
    requires Descending(s) && FirstRun(s, 3, 0) == Some(t)
    ensures FirstClearPair(s, t, 0).None? ==> forall r :: !PairCandidate(s, s[t].rank, r)
    ensures FirstClearPair(s, t, 0).Some? ==>
      var p := FirstClearPair(s, t, 0).value;
      PairCandidate(s, s[t].rank, s[p].rank) &&
      forall r :: PairCandidate(s, s[t].rank, r) ==> RankValue(r) <= Val(s[p])
  {
    var tr := s[t].rank;
    forall r | PairCandidate(s, tr, r)
      ensures FirstClearPair(s, t, 0).Some? && RankValue(r) <= Val(s[FirstClearPair(s, t, 0).value])
    {
      var x := CandidatePair(s, t, r);
      assert FirstClearPair(s, t, 0).value <= x;
    }
    if FirstClearPair(s, t, 0).Some? {
      var p := FirstClearPair(s, t, 0).value;
      FirstRunStartsBlock(s, 3);
      Block(s, tr);
      assert s[p].rank == s[p + 1].rank;
      CountTwoPositions(s, s[p].rank);
      if s[p].rank == tr {
        assert t + 3 <= p;
      }
    }
  }

  /** The two ranks of a found full house: the triple has the highest rank
      occurring three times, and the pair the highest candidate rank
      beside it. */
  lemma FullHouseRanks(cards: seq<Card>)
    requires BestFullHouse(cards).Ok? && BestFullHouse(cards).value.Some?
    ensures var h := BestFullHouse(cards).value.value;
      h.category == FullHouse && |h.ranks| == 2 &&
      Count(cards, h.ranks[0]) >= 3 &&
      (forall r :: Count(cards, r) >= 3 ==> RankValue(r) <= RankValue(h.ranks[0])) &&
      PairCandidate(cards, h.ranks[0], h.ranks[1]) &&
      forall r :: PairCandidate(cards, h.ranks[0], r) ==> RankValue(r) <= RankValue(h.ranks[1])
  {
    ByRankDescends(cards);
    var s := ByRank(cards);
    var t := FirstRun(s, 3, 0).value;
    var p := FirstClearPair(s, t, 0).value;
    assert BestFullHouse(cards) == Ok(Some(FullHouseHand(s, t, p)));
    assert FullHouseHand(s, t, p).ranks == [s[t].rank, s[p].rank];
    ChosenRanks(cards, s, t);
  }

  /** The ranks of the triple at `t` and of the first clear pair, in a
      descending copy of the input. */
  lemma ChosenRanks(cards: seq<Card>, s: seq<Card>, t: nat)
    requires Descending(s) && multiset(s) == multiset(cards)
    requires FirstRun(s, 3, 0) == Some(t) && FirstClearPair(s, t, 0).Some?
    ensures var p := FirstClearPair(s, t, 0).value;
      Count(cards, s[t].rank) >= 3 &&
      (forall r :: Count(cards, r) >= 3 ==> RankValue(r) <= Val(s[t])) &&
      PairCandidate(cards, s[t].rank, s[p].rank) &&
      forall r :: PairCandidate(cards, s[t].rank, r) ==> RankValue(r) <= Val(s[p])
  {
    var p := FirstClearPair(s, t, 0).value;
    var tr := s[t].rank;
    FirstRunIsHighest(s, 3);
    ClearPairIsHighest(s, t);
    CountPermutation(cards, s, tr);
    CountPermutation(cards, s, s[p].rank);
    forall r | Count(cards, r) >= 3 ensures RankValue(r) <= Val(s[t]) {
      CountPermutation(cards, s, r);
    }
    forall r | PairCandidate(cards, tr, r) ensures RankValue(r) <= Val(s[p]) {
      CountPermutation(cards, s, r);
      assert PairCandidate(s, tr, r);
    }
  }

  /** No hand is found exactly when no rank occurs five times and no rank
      occurring three times has another rank occurring twice beside it. */
  lemma FullHouseAbsentIff(cards: seq<Card>)
    requires |cards| >= 5
    ensures BestFullHouse(cards) == Ok(None) <==>
      (forall r :: Count(cards, r) < 5) &&
      forall r1, r2 :: r1 != r2 && Count(cards, r1) >= 3 ==> Count(cards, r2) < 2
  {
    ByRankDescends(cards);
    var s := ByRank(cards);
    FirstRunOfInput(cards, 3);
    if FirstRun(s, 3, 0).Some? {
      var t := FirstRun(s, 3, 0).value;
      if FirstClearPair(s, t, 0).None? {
        ClearPairIsHighest(s, t);
        SameCounts(cards);
        forall r ensures Count(cards, r) < 5 && (r != s[t].rank ==> Count(cards, r) < 2) {
          assert Count(s, r) == Count(cards, r);
          assert !PairCandidate(s, s[t].rank, r);
        }
      } else {
        FullHouseRanks(cards);
        var h := BestFullHouse(cards).value.value;
        if h.ranks[1] == h.ranks[0] {
          assert Count(cards, h.ranks[0]) >= 5;
        } else {
          assert Count(cards, h.ranks[0]) >= 3 && Count(cards, h.ranks[1]) >= 2;
        }
      }
    }
  }

  /** The hand is the three triple cards and the two pair cards, five
      distinct positions of the working copy, so all are drawn from the
      input. */
  lemma FullHouseCards(cards: seq<Card>)
    requires BestFullHouse(cards).Ok? && BestFullHouse(cards).value.Some?
    ensures var h := BestFullHouse(cards).value.value;
      var s := ByRank(cards);
      var t := FirstRun(s, 3, 0).value;
      var p := FirstClearPair(s, t, 0).value;
      var best := s[t..t + 3] + s[p..p + 2];
      h.cards == CardSet(best) && multiset(best) <= multiset(cards) &&
      best[0].rank == best[1].rank == best[2].rank == h.ranks[0] &&
      best[3].rank == best[4].rank == h.ranks[1]
  {
    var s := ByRank(cards);
    var t := FirstRun(s, 3, 0).value;
    var p := FirstClearPair(s, t, 0).value;
    assert BestFullHouse(cards) == Ok(Some(FullHouseHand(s, t, p)));
    ChosenFullHouse(cards, s, t, p);
  }

  /** The triple at `t` and the clear pair at `p` of a copy of the input. */
  lemma ChosenFullHouse(cards: seq<Card>, s: seq<Card>, t: nat, p: nat)
    requires multiset(s) == multiset(cards) && RunAt(s, t, 3) && RunAt(s, p, 2) && Clear(t, p)
    ensures var best := s[t..t + 3] + s[p..p + 2];
      multiset(best) <= multiset(cards) &&
      best[0].rank == best[1].rank == best[2].rank && best[3].rank == best[4].rank
  {
    TripleAndPair(s, t, p);
  }

  /** A triple and a pair clear of it are disjoint parts of `s`. */
  lemma TripleAndPair(s: seq<Card>, t: nat, p: nat)
    requires t + 3 <= |s| && p + 2 <= |s| && Clear(t, p)
    ensures multiset(s[t..t + 3] + s[p..p + 2]) <= multiset(s)
  {
    assert multiset(s[t..t + 3] + s[p..p + 2]) == multiset(s[t..t + 3]) + multiset(s[p..p + 2]);
    if p + 2 <= t {
      TwoSlices(s, p, 2, t, 3);
    } else {
      TwoSlices(s, t, 3, p, 2);
    }
  }

  /** The scan for a clear pair depends on the ranks only. */
  lemma {:induction false} FirstClearPairSameRanks(s: seq<Card>, t: seq<Card>, tr: nat, from: nat)
    requires SameRanks(s, t)
    ensures FirstClearPair(s, tr, from) == FirstClearPair(t, tr, from)
    decreases |s| - from
  {
    RunAtSameRanks(s, t, from, 2);
    if from + 2 <= |s| && !(Clear(tr, from) && RunAt(s, from, 2)) {
      FirstClearPairSameRanks(s, t, tr, from + 1);
    }
  }

  /** The Full House hand's category and ranks depend on the ranks of the
      copy only. */
  lemma FullHouseHandSameRanks(s: seq<Card>, t: seq<Card>, tr: nat, pr: nat)
    requires SameRanks(s, t) && tr + 3 <= |s| && pr + 2 <= |s|
    ensures FullHouseHand(s, tr, pr).category == FullHouseHand(t, tr, pr).category
    ensures FullHouseHand(s, tr, pr).ranks == FullHouseHand(t, tr, pr).ranks
  {
    SameRanksSlice(s, t, tr, tr + 3);
    SameRanksSlice(s, t, pr, pr + 2);
    SameRanksConcat(s[tr..tr + 3], s[pr..pr + 2], t[tr..tr + 3], t[pr..pr + 2]);
  }

  /** Reordering the input gives the same outcome: the same error, no hand
      for both, or hands of the same category and ranks. */
  lemma FullHouseReordered(p: seq<Card>, q: seq<Card>)
    requires multiset(p) == multiset(q)
    ensures SameGrade(BestFullHouse(p), BestFullHouse(q))
  {
    ReorderedLength(p, q);
    if |p| >= 5 {
      var s, t := ByRank(p), ByRank(q);
      ByRankReordered(p, q);
      FirstRunSameRanks(s, t, 3, 0);
      if FirstRun(s, 3, 0).Some? {
        var tr := FirstRun(s, 3, 0).value;
        FirstClearPairSameRanks(s, t, tr, 0);
        if FirstClearPair(s, tr, 0).Some? {
          FullHouseHandSameRanks(s, t, tr, FirstClearPair(s, tr, 0).value);
        }
      }
    }
  }
}
