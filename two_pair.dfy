/** TwoPairLocator.java: the best two-pair hand. */
module TwoPairLocator {
  import opened Outcomes
  import opened Ranks
  import opened Cards
  import opened Hands
  import opened RankScan

  /** The hand list as the locator assembles it: the high pair at `f`, the
      low pair at `q`, then the cards above the high pair, the cards from
      `f + 1` up to the low pair and the cards from `q + 1` on, cut to five.
      The last two slices start one card early, so two cards appear twice
      before the cut. */
  function TwoPairCards(s: seq<Card>, f: nat, q: nat): (best: seq<Card>)
    requires f + 2 <= q && q + 2 <= |s|
    ensures |best| == 5
  {
    ([s[f], s[f + 1], s[q], s[q + 1]] + s[..f] + s[f + 1..q] + s[q + 1..])[..5]
  }

  /** The Two Pair hand: ranks are the high pair, the low pair and the fifth
      card. */
  function TwoPairHand(s: seq<Card>, f: nat, q: nat): Hand
    requires f + 2 <= q && q + 2 <= |s|
  {
    var best := TwoPairCards(s, f, q);
    NewHand(TwoPair, best, [best[0].rank, best[2].rank, best[4].rank]).value
  }

  /** The locator's result: fewer than five cards is an error; otherwise the
      first adjacent pair of the working copy and the first adjacent pair
      that starts after it, or no hand when either is missing. */
  function BestTwoPair(cards: seq<Card>): (r: Result<Option<Hand>>)
    ensures r.Err? <==> |cards| < 5
    ensures r.Err? ==> r.error == IllegalArgument
  {
    if |cards| < 5 then Err(IllegalArgument)
    else
      var s := ByRank(cards);
      match FirstRun(s, 2, 0)
      case None => Ok(None)
      case Some(f) =>
        match FirstRun(s, 2, f + 2)
        case None => Ok(None)
        case Some(q) => Ok(Some(TwoPairHand(s, f, q)))
  }

  /** `findBestHand`: sort a copy, scan it for two pairs, then assemble the
      hand. */
  method FindBestHand(cards: seq<Card>) returns (r: Result<Option<Hand>>)
    ensures r == BestTwoPair(cards)
  {
    if |cards| < 5 {
      return Err(IllegalArgument);
    }
    var s := ByRank(cards);
    var firstPair, secondPair := ScanPairs(s);
    if secondPair < 0 {
      return Ok(None);
    }
    var bestCards := [s[firstPair], s[firstPair + 1], s[secondPair], s[secondPair + 1]];
    bestCards := bestCards + s[..firstPair];
    bestCards := bestCards + s[firstPair + 1..secondPair];
    bestCards := bestCards + s[secondPair + 1..];
    bestCards := bestCards[..5];
    var bestRanks := [bestCards[0].rank, bestCards[2].rank, bestCards[4].rank];
    assert BestTwoPair(cards) == Ok(Some(TwoPairHand(s, firstPair, secondPair)));
    assert bestCards == TwoPairCards(s, firstPair, secondPair);
    var hand := NewHand(TwoPair, bestCards, bestRanks);
    assert hand.value == TwoPairHand(s, firstPair, secondPair);
    return Ok(Some(hand.value));
  }

  /** The pair scan of `findBestHand`: adjacent equal ranks form a pair, and
      the second card of a pair is skipped, so the second pair found is the
      first one starting at least two places after the first. A negative
      index means not found. */
  method ScanPairs(s: seq<Card>) returns (firstPair: int, secondPair: int)
    ensures firstPair < 0 ==> secondPair < 0 && FirstRun(s, 2, 0).None?
    ensures firstPair >= 0 ==> FirstRun(s, 2, 0) == Some(firstPair)
    ensures firstPair >= 0 && secondPair < 0 ==> FirstRun(s, 2, firstPair + 2).None?
    ensures secondPair >= 0 ==> firstPair >= 0 && FirstRun(s, 2, firstPair + 2) == Some(secondPair)
  {
    firstPair, secondPair := -1, -1;
    var i := 0;
    while i < |s| - 1
      invariant 0 <= i <= |s|
      invariant firstPair < 0 ==> secondPair < 0 && forall j :: 0 <= j < i ==> !RunAt(s, j, 2)
      invariant firstPair >= 0 ==> firstPair + 2 <= i && FirstRun(s, 2, 0) == Some(firstPair)
      invariant firstPair >= 0 && secondPair < 0 ==>
        forall j :: firstPair + 2 <= j < i ==> !RunAt(s, j, 2)
      invariant secondPair >= 0 ==>
        firstPair >= 0 && FirstRun(s, 2, firstPair + 2) == Some(secondPair)
    {
      if s[i].rank == s[i + 1].rank {
        if firstPair < 0 {
          FirstRunAt(s, 2, 0, i);
          firstPair := i;
        } else if secondPair < 0 {
          FirstRunAt(s, 2, firstPair + 2, i);
          secondPair := i;
        }
        i := i + 1;
      }
      i := i + 1;
    }
    if firstPair < 0 {
      NoRunFrom(s, 2, 0);
    } else if secondPair < 0 {
      NoRunFrom(s, 2, firstPair + 2);
    }
  }

  /** After the high pair at `f`, the scan finds a second pair exactly when
      the high rank occurs four times or another rank occurs twice; the
      second pair then has the highest such rank. */
  lemma SecondPair(s: seq<Card>, f: nat)
    requires Descending(s) && FirstRun(s, 2, 0) == Some(f)
    ensures FirstRun(s, 2, f + 2).None? ==>
      Count(s, s[f].rank) < 4 && forall r :: r != s[f].rank ==> Count(s, r) < 2
    ensures FirstRun(s, 2, f + 2).Some? ==>
      var q := FirstRun(s, 2, f + 2).value;
      Count(s, s[q].rank) >= 2 &&
      (s[q].rank == s[f].rank <==> Count(s, s[f].rank) >= 4) &&
      forall r :: r != s[f].rank && Count(s, r) >= 2 ==> RankValue(r) <= Val(s[q])
  {
    var r0 := s[f].rank;
    FirstRunIsHighest(s, 2);
    FirstRunStartsBlock(s, 2);
    Block(s, r0);
    if Count(s, r0) >= 4 {
      assert RunAt(s, f + 2, 2);
    }
    forall r | r != r0 && Count(s, r) >= 2
      ensures f + 2 <= Above(s, RankValue(r)) && RunAt(s, Above(s, RankValue(r)), 2)
    {
      BlockAfter(s, r0, r);
      RunIffCount(s, r, 2);
    }
    if FirstRun(s, 2, f + 2).Some? {
      var q := FirstRun(s, 2, f + 2).value;
      assert s[q].rank == s[q + 1].rank;
      CountTwoPositions(s, s[q].rank);
      if s[q].rank == r0 {
        assert Above(s, RankValue(r0)) + Count(s, r0) > q + 1;
      }
      forall r | r != r0 && Count(s, r) >= 2
        ensures RankValue(r) <= Val(s[q])
      {
        RunIffCount(s, r, 2);
        assert q <= Above(s, RankValue(r));
      }
    }
  }

  /** The two pair ranks: the high pair has the highest rank occurring at
      least twice; the low pair repeats it exactly when it occurs four times,
      and otherwise has the highest other rank occurring at least twice. */
  lemma TwoPairRanks(cards: seq<Card>)
    requires BestTwoPair(cards).Ok? && BestTwoPair(cards).value.Some?
    ensures var h := BestTwoPair(cards).value.value;
      h.category == TwoPair && |h.ranks| == 3 &&
      Count(cards, h.ranks[0]) >= 2 &&
      (forall r :: Count(cards, r) >= 2 ==> RankValue(r) <= RankValue(h.ranks[0])) &&
      Count(cards, h.ranks[1]) >= 2 &&
      (h.ranks[1] == h.ranks[0] <==> Count(cards, h.ranks[0]) >= 4) &&
      forall r :: r != h.ranks[0] && Count(cards, r) >= 2 ==> RankValue(r) <= RankValue(h.ranks[1])
  {
    ByRankDescends(cards);
    var s := ByRank(cards);
    var f := FirstRun(s, 2, 0).value;
    var q := FirstRun(s, 2, f + 2).value;
    TwoPairHandRanks(s, f, q);
    SameCounts(cards);
    FirstRunIsHighest(s, 2);
    SecondPair(s, f);
  }

  /** The category and the two pair ranks of an assembled hand. */
  lemma TwoPairHandRanks(s: seq<Card>, f: nat, q: nat)
    requires f + 2 <= q && q + 2 <= |s|
    ensures var h := TwoPairHand(s, f, q);
      h.category == TwoPair && |h.ranks| == 3 && h.ranks[0] == s[f].rank && h.ranks[1] == s[q].rank
  {
    var best := TwoPairCards(s, f, q);
    assert best[0] == s[f] && best[2] == s[q];
  }

  /** No hand is found exactly when no rank occurs four times and at most
      one rank occurs twice or more. */
  lemma TwoPairAbsentIff(cards: seq<Card>)
    requires |cards| >= 5
    ensures BestTwoPair(cards) == Ok(None) <==>
      (forall r :: Count(cards, r) < 4) &&
      forall r1, r2 :: r1 != r2 && Count(cards, r1) >= 2 ==> Count(cards, r2) < 2
  {
    ByRankDescends(cards);
    var s := ByRank(cards);
    SameCounts(cards);
    FirstRunIsHighest(s, 2);
    if FirstRun(s, 2, 0).None? {
      forall r ensures Count(cards, r) < 2 {
        assert Count(s, r) == Count(cards, r);
      }
    } else {
      var f := FirstRun(s, 2, 0).value;
      SecondPair(s, f);
      if FirstRun(s, 2, f + 2).None? {
        forall r ensures Count(cards, r) < 4 && (r != s[f].rank ==> Count(cards, r) < 2) {
          assert Count(s, r) == Count(cards, r);
        }
      } else {
        TwoPairRanks(cards);
      }
    }
  }

  /** The hand holds the two pairs as its first four cards, all drawn from
      the input, and its last rank is that of the fifth card. */
  lemma TwoPairCardsShape(cards: seq<Card>)
    requires BestTwoPair(cards).Ok? && BestTwoPair(cards).value.Some?
    ensures var h := BestTwoPair(cards).value.value;
      var s := ByRank(cards);
      var f := FirstRun(s, 2, 0).value;
      var best := TwoPairCards(s, f, FirstRun(s, 2, f + 2).value);
      h.cards == CardSet(best) &&
      multiset(best[..4]) <= multiset(cards) && (forall c :: c in best ==> c in cards) &&
      best[0].rank == best[1].rank == h.ranks[0] &&
      best[2].rank == best[3].rank == h.ranks[1] && best[4].rank == h.ranks[2]
  {
    var s := ByRank(cards);
    var f := FirstRun(s, 2, 0).value;
    ChosenPairs(cards, s, f, FirstRun(s, 2, f + 2).value);
  }

  /** The pairs at `f` and `q` of a sorted copy of the input. */
  lemma ChosenPairs(cards: seq<Card>, s: seq<Card>, f: nat, q: nat)
    requires multiset(s) == multiset(cards)
    requires f + 2 <= q && q + 2 <= |s| && RunAt(s, f, 2) && RunAt(s, q, 2)
    ensures var best := TwoPairCards(s, f, q);
      multiset(best[..4]) <= multiset(cards) && (forall c :: c in best ==> c in cards) &&
      best[0].rank == best[1].rank && best[2].rank == best[3].rank
  {
    PairsFromCopy(s, f, q);
    CardsFromCopy(s, f, q);
    forall c | c in TwoPairCards(s, f, q) ensures c in cards {
      assert c in multiset(s);
    }
  }

  /** The four pair cards are four distinct positions of the sorted copy. */
  lemma PairsFromCopy(s: seq<Card>, f: nat, q: nat)
    requires f + 2 <= q && q + 2 <= |s|
    ensures multiset(TwoPairCards(s, f, q)[..4]) <= multiset(s)
  {
    var high, low := s[f..f + 2], s[q..q + 2];
    assert s == s[..f] + high + s[f + 2..q] + low + s[q + 2..];
    assert TwoPairCards(s, f, q)[..4] == high + low;
  }

  /** Every card of the assembled list is a card of the sorted copy. */
  lemma CardsFromCopy(s: seq<Card>, f: nat, q: nat)
    requires f + 2 <= q && q + 2 <= |s|
    ensures forall c :: c in TwoPairCards(s, f, q) ==> c in s
  {
    var all := [s[f], s[f + 1], s[q], s[q + 1]] + s[..f] + s[f + 1..q] + s[q + 1..];
    forall c | c in all ensures c in s {
    }
  }

  /** The fifth card is the second card of the high pair again when the
      high pair is on top, and the top card otherwise. */
  lemma FifthCard(s: seq<Card>, f: nat, q: nat)
    requires f + 2 <= q && q + 2 <= |s|
    ensures f == 0 ==> TwoPairCards(s, f, q)[4] == s[1] == TwoPairCards(s, f, q)[1]
    ensures f > 0 ==> TwoPairCards(s, f, q)[4] == s[0]
  {
  }

  /** The high pair is on top of the sorted copy exactly when no input card
      ranks above it. */
  lemma HighPairOnTop(cards: seq<Card>, s: seq<Card>, f: nat)
    requires Descending(s) && multiset(s) == multiset(cards) && FirstRun(s, 2, 0) == Some(f)
    ensures f == 0 <==> forall c :: c in cards ==> Val(c) <= Val(s[f])
  {
    FirstRunStartsBlock(s, 2);
    Block(s, s[f].rank);
    if f > 0 {
      assert s[0] in multiset(cards);
    } else {
      forall c | c in cards ensures Val(c) <= Val(s[f]) {
        assert c in multiset(s);
      }
    }
  }

  /** When no card ranks above the high pair, the fifth card is the high
      pair's second card again, so the hand stores at most four cards. */
  lemma TwoPairTopPairRepeats(cards: seq<Card>)
    requires BestTwoPair(cards).Ok? && BestTwoPair(cards).value.Some?
    requires forall c :: c in cards ==> Val(c) <= RankValue(BestTwoPair(cards).value.value.ranks[0])
    ensures var s := ByRank(cards);
      var f := FirstRun(s, 2, 0).value;
      var best := TwoPairCards(s, f, FirstRun(s, 2, f + 2).value);
      best[4] == best[1] && |BestTwoPair(cards).value.value.cards| <= 4
  {
    ByRankDescends(cards);
    var s := ByRank(cards);
    var f := FirstRun(s, 2, 0).value;
    var q := FirstRun(s, 2, f + 2).value;
    HighPairOnTop(cards, s, f);
    FifthCard(s, f, q);
    DuplicateSetSize(TwoPairCards(s, f, q), 1, 4);
  }

  /** When some card ranks above the high pair, the fifth card is the
      highest card of the input. */
  lemma TwoPairKickerIsTop(cards: seq<Card>)
    requires BestTwoPair(cards).Ok? && BestTwoPair(cards).value.Some?
    requires exists c :: c in cards && Val(c) > RankValue(BestTwoPair(cards).value.value.ranks[0])
    ensures var s := ByRank(cards);
      var f := FirstRun(s, 2, 0).value;
      var best := TwoPairCards(s, f, FirstRun(s, 2, f + 2).value);
      best[4] == s[0] && forall c :: c in cards ==> Val(c) <= Val(best[4])
  {
    ByRankDescends(cards);
    var s := ByRank(cards);
    var f := FirstRun(s, 2, 0).value;
    var q := FirstRun(s, 2, f + 2).value;
    HighPairOnTop(cards, s, f);
    FifthCard(s, f, q);
    forall c | c in cards ensures Val(c) <= Val(s[0]) {
      assert c in multiset(s);
    }
  }

  /** The Two Pair hand's category and ranks depend on the ranks of the
      copy only. */
  lemma TwoPairHandSameRanks(s: seq<Card>, t: seq<Card>, f: nat, q: nat)
    requires SameRanks(s, t) && f + 2 <= q && q + 2 <= |s|
    ensures TwoPairHand(s, f, q).category == TwoPairHand(t, f, q).category
    ensures TwoPairHand(s, f, q).ranks == TwoPairHand(t, f, q).ranks
  {
    var a0, b0 := [s[f], s[f + 1], s[q], s[q + 1]], [t[f], t[f + 1], t[q], t[q + 1]];
    assert SameRanks(a0, b0);
    SameRanksSlice(s, t, 0, f);
    SameRanksSlice(s, t, f + 1, q);
    SameRanksSlice(s, t, q + 1, |s|);
    assert s[..f] == s[0..f] && t[..f] == t[0..f];
    assert s[q + 1..] == s[q + 1..|s|] && t[q + 1..] == t[q + 1..|t|];
    SameRanksConcat(a0, s[..f], b0, t[..f]);
    SameRanksConcat(a0 + s[..f], s[f + 1..q], b0 + t[..f], t[f + 1..q]);
    SameRanksConcat(a0 + s[..f] + s[f + 1..q], s[q + 1..], b0 + t[..f] + t[f + 1..q], t[q + 1..]);
    var a := a0 + s[..f] + s[f + 1..q] + s[q + 1..];
    var b := b0 + t[..f] + t[f + 1..q] + t[q + 1..];
    SameRanksSlice(a, b, 0, 5);
    assert a[..5] == a[0..5] && b[..5] == b[0..5];
  }

  /** Reordering the input gives the same outcome: the same error, no hand
      for both, or hands of the same category and ranks. */
  lemma TwoPairReordered(p: seq<Card>, q: seq<Card>)
    requires multiset(p) == multiset(q)
    ensures SameGrade(BestTwoPair(p), BestTwoPair(q))
  {
    ReorderedLength(p, q);
    if |p| >= 5 {
      var s, t := ByRank(p), ByRank(q);
      ByRankReordered(p, q);
      FirstRunSameRanks(s, t, 2, 0);
      if FirstRun(s, 2, 0).Some? {
        var f := FirstRun(s, 2, 0).value;
        FirstRunSameRanks(s, t, 2, f + 2);
        if FirstRun(s, 2, f + 2).Some? {
          TwoPairHandSameRanks(s, t, f, FirstRun(s, 2, f + 2).value);
        }
      }
    }
  }
}
