/** PairLocator.java: the best one-pair hand. */
module PairLocator {
  import opened Outcomes
  import opened Ranks
  import opened Suits
  import opened Cards
  import opened Hands
  import opened RankScan

  /** The hand list: the pair at `p`, then the other cards in descending
      order, cut to five. */
  function PairCards(s: seq<Card>, p: nat): (best: seq<Card>)
    requires p + 2 <= |s| && |s| >= 5
    ensures |best| == 5
  {
    [s[p], s[p + 1]] + (s[..p] + s[p + 2..])[..3]
  }

  /** The locator's result: fewer than five cards is an error, no adjacent
      equal ranks in the working copy is no hand, otherwise the first such
      pair with the three highest other cards. */
  function BestPair(cards: seq<Card>): (r: Result<Option<Hand>>)
    ensures r.Err? <==> |cards| < 5
    ensures r.Err? ==> r.error == IllegalArgument
  {
    if |cards| < 5 then Err(IllegalArgument)
    else
      var s := ByRank(cards);
      match FirstRun(s, 2, 0)
      case None => Ok(None)
      case Some(p) => Ok(Some(PairHand(s, p)))
  }

  /** The Pair hand for the pair at `p`: ranks are the pair rank and the
      three kicker ranks. */
  function PairHand(s: seq<Card>, p: nat): Hand
    requires p + 2 <= |s| && |s| >= 5
  {
    var best := PairCards(s, p);
    NewHand(Pair, best, [best[0].rank] + RanksOf(best[2..])).value
  }

  /** `findBestHand`: sort a copy, scan for the first adjacent pair, then
      assemble the hand and its ranks. */
  method FindBestHand(cards: seq<Card>) returns (r: Result<Option<Hand>>)
    ensures r == BestPair(cards)
  {
    if |cards| < 5 {
      return Err(IllegalArgument);
    }
    var s := ByRank(cards);
    var first := -1;
    for i := 1 to |s|
      invariant first < 0 ==> forall j :: 0 <= j < i - 1 ==> !RunAt(s, j, 2)
      invariant first >= 0 ==> first < i - 1 && RunAt(s, first, 2)
      invariant first >= 0 ==> forall j :: 0 <= j < first ==> !RunAt(s, j, 2)
    {
      if s[i - 1].rank == s[i].rank {
        if first < 0 {
          first := i - 1;
        }
      }
    }
    if first < 0 {
      NoRunFrom(s, 2, 0);
      return Ok(None);
    }
    FirstRunAt(s, 2, 0, first);
    var bestCards := [s[first], s[first + 1]] + s[..first] + s[first + 2..];
    bestCards := bestCards[..5];
    assert bestCards == PairCards(s, first) by {
      TakeAfterHead([s[first], s[first + 1]], s[..first] + s[first + 2..], 3);
    }
    var bestRanks := AppendRanks([bestCards[0].rank], bestCards, 2);
    var hand := NewHand(Pair, bestCards, bestRanks);
    assert hand.value == PairHand(s, first);
    return Ok(Some(hand.value));
  }

  /** No hand is found exactly when no two of the cards share a rank. */
  lemma PairAbsentIff(cards: seq<Card>)
    requires |cards| >= 5
    ensures BestPair(cards) == Ok(None) <==>
      forall i, j :: 0 <= i < j < |cards| ==> cards[i].rank != cards[j].rank
  {
    var s := ByRank(cards);
    FirstRunOfInput(cards, 2);
    NoSharedRank(cards);
    if FirstRun(s, 2, 0).Some? {
      CountTwoPositions(cards, s[FirstRun(s, 2, 0).value].rank);
    }
  }

  /** A found pair has the highest rank that occurs at least twice; the
      hand is labelled Pair and has four tie-break ranks. */
  lemma PairIsHighest(cards: seq<Card>)
    requires BestPair(cards).Ok? && BestPair(cards).value.Some?
    ensures var h := BestPair(cards).value.value;
      h.category == Pair && |h.ranks| == 4 &&
      Count(cards, h.ranks[0]) >= 2 &&
      forall r :: Count(cards, r) >= 2 ==> RankValue(r) <= RankValue(h.ranks[0])
  {
    ByRankDescends(cards);
    var s := ByRank(cards);
    FirstRunIsHighest(s, 2);
    SameCounts(cards);
  }

  /** The hand is drawn from the input: two cards of the pair rank and three
      kickers whose ranks follow the pair rank in non-increasing order, and
      every input card left out ranks no higher than the last kicker. */
  lemma PairKickers(cards: seq<Card>)
    requires BestPair(cards).Ok? && BestPair(cards).value.Some?
    ensures var h := BestPair(cards).value.value;
      var best := PairCards(ByRank(cards), FirstRun(ByRank(cards), 2, 0).value);
      multiset(best) <= multiset(cards) && h.cards == CardSet(best) &&
      best[0].rank == best[1].rank == h.ranks[0] && h.ranks[1..] == RanksOf(best[2..]) &&
      Val(best[2]) >= Val(best[3]) >= Val(best[4]) &&
      forall c :: c in multiset(cards) - multiset(best) ==> Val(c) <= Val(best[4])
  {
    ByRankDescends(cards);
    var s := ByRank(cards);
    var p := FirstRun(s, 2, 0).value;
    ChosenPair(cards, s, p);
    var best := PairCards(s, p);
    var h := BestPair(cards).value.value;
    assert h.cards == CardSet(best);
    assert h.ranks[0] == best[0].rank && h.ranks[1..] == RanksOf(best[2..]);
  }

  /** The pair cards taken from a descending copy of the input. */
  lemma ChosenPair(cards: seq<Card>, s: seq<Card>, p: nat)
    requires Descending(s) && multiset(s) == multiset(cards) && |s| >= 5 && RunAt(s, p, 2)
    ensures var best := PairCards(s, p);
      multiset(best) <= multiset(cards) && best[0].rank == best[1].rank &&
      Val(best[2]) >= Val(best[3]) >= Val(best[4]) &&
      forall c :: c in multiset(cards) - multiset(best) ==> Val(c) <= Val(best[4])
  {
    var others := s[..p] + s[p + 2..];
    CutOut(s, p, 2);
    assert s[p..p + 2] == [s[p], s[p + 1]];
    Leftovers(cards, [s[p], s[p + 1]], others, 3);
  }

  /** The Pair hand's category and ranks depend on the ranks of the copy
      only. */
  lemma PairHandSameRanks(s: seq<Card>, t: seq<Card>, p: nat)
    requires SameRanks(s, t) && p + 2 <= |s| && |s| >= 5
    ensures PairHand(s, p).category == PairHand(t, p).category
    ensures PairHand(s, p).ranks == PairHand(t, p).ranks
  {
    var a, b := PairCards(s, p), PairCards(t, p);
    assert SameRanks(s[..p] + s[p + 2..], t[..p] + t[p + 2..]);
    assert SameRanks(a, b);
    assert RanksOf(a[2..]) == RanksOf(b[2..]);
  }

  /** Reordering the input gives the same outcome: the same error, no hand
      for both, or hands of the same category and ranks. */
  lemma PairReordered(p: seq<Card>, q: seq<Card>)
    requires multiset(p) == multiset(q)
    ensures SameGrade(BestPair(p), BestPair(q))
  {
    ReorderedLength(p, q);
    if |p| >= 5 {
      var s, t := ByRank(p), ByRank(q);
      ByRankReordered(p, q);
      FirstRunSameRanks(s, t, 2, 0);
      if FirstRun(s, 2, 0).Some? {
        PairHandSameRanks(s, t, FirstRun(s, 2, 0).value);
      }
    }
  }
}
