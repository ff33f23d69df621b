/** FourOfAKindLocator.java: the best four-of-a-kind hand. */
module FourOfAKindLocator {
  import opened Outcomes
  import opened Ranks
  import opened Cards
  import opened Hands
  import opened RankScan

  /** The hand list: the four cards at `k`, then the remaining cards in
      descending order, cut to five. */
  function FourCards(s: seq<Card>, k: nat): (best: seq<Card>)
    requires k + 4 <= |s| && |s| >= 5
    ensures |best| == 5
  {
    (s[k..k + 4] + s[..k] + s[k + 4..])[..5]
  }

  /** The Four of a Kind hand: ranks are the quad rank and the kicker. */
  function FourHand(s: seq<Card>, k: nat): Hand
    requires k + 4 <= |s| && |s| >= 5
  {
    var best := FourCards(s, k);
    NewHand(FourOfAKind, best, [best[0].rank, best[4].rank]).value
  }

  /** The locator's result: fewer than five cards is an error, no four
      adjacent equal ranks in the working copy is no hand, otherwise the
      first such window with the highest other card. */
  function BestFour(cards: seq<Card>): (r: Result<Option<Hand>>)
    ensures r.Err? <==> |cards| < 5
    ensures r.Err? ==> r.error == IllegalArgument
  {
    if |cards| < 5 then Err(IllegalArgument)
    else
      var s := ByRank(cards);
      match FirstRun(s, 4, 0)
      case None => Ok(None)
      case Some(k) => Ok(Some(FourHand(s, k)))
  }

  /** `findBestHand`: sort a copy, find the first window of four equal
      ranks, then assemble the hand. */
  method FindBestHand(cards: seq<Card>) returns (r: Result<Option<Hand>>)
    ensures r == BestFour(cards)
  {
    if |cards| < 5 {
      return Err(IllegalArgument);
    }
    var s := ByRank(cards);
    var firstCard := ScanQuads(s);
    if firstCard < 0 {
      return Ok(None);
    }
    var bestCards := s[firstCard..firstCard + 4];
    bestCards := bestCards + s[..firstCard];
    bestCards := bestCards + s[firstCard + 4..];
    bestCards := bestCards[..5];
    var bestRanks := [bestCards[0].rank, bestCards[4].rank];
    assert BestFour(cards) == Ok(Some(FourHand(s, firstCard)));
    assert bestCards == FourCards(s, firstCard);
    var hand := NewHand(FourOfAKind, bestCards, bestRanks);
    return Ok(Some(hand.value));
  }

  /** The window scan of `findBestHand`: every window of four adjacent
      cards is compared and the first one of equal ranks is kept. A negative
      index means not found. */
  method ScanQuads(s: seq<Card>) returns (firstCard: int)
    ensures firstCard < 0 ==> FirstRun(s, 4, 0).None?
    ensures firstCard >= 0 ==> FirstRun(s, 4, 0) == Some(firstCard)
  {
    firstCard := -1;
    var i := 3;
    while i < |s|
      invariant i >= 3
      invariant firstCard < 0 ==> forall j :: 0 <= j < i - 3 ==> !RunAt(s, j, 4)
      invariant firstCard >= 0 ==> FirstRun(s, 4, 0) == Some(firstCard)
    {
      if s[i - 3].rank == s[i - 2].rank && s[i - 2].rank == s[i - 1].rank
        && s[i - 1].rank == s[i].rank
      {
        if firstCard < 0 {
          FirstRunAt(s, 4, 0, i - 3);
          firstCard := i - 3;
        }
      }
      i := i + 1;
    }
    if firstCard < 0 {
      NoRunFrom(s, 4, 0);
    }
  }

  /** No hand is found exactly when no rank occurs four times. */
  lemma FourAbsentIff(cards: seq<Card>)
    requires |cards| >= 5
    ensures BestFour(cards) == Ok(None) <==> forall r :: Count(cards, r) < 4
  {
    FirstRunOfInput(cards, 4);
  }

  /** A found quad has the highest rank occurring four times; the hand is
      labelled FourOfAKind and has two tie-break ranks. */
  lemma FourIsHighest(cards: seq<Card>)
    requires BestFour(cards).Ok? && BestFour(cards).value.Some?
    ensures var h := BestFour(cards).value.value;
      h.category == FourOfAKind && |h.ranks| == 2 &&
      Count(cards, h.ranks[0]) >= 4 &&
      forall r :: Count(cards, r) >= 4 ==> RankValue(r) <= RankValue(h.ranks[0])
  {
    FirstRunOfInput(cards, 4);
  }

  /** The hand is four cards of the quad rank and a kicker, all drawn from
      the input, and no card left out ranks above the kicker. */
  lemma FourKicker(cards: seq<Card>)
    requires BestFour(cards).Ok? && BestFour(cards).value.Some?
    ensures var h := BestFour(cards).value.value;
      var best := FourCards(ByRank(cards), FirstRun(ByRank(cards), 4, 0).value);
      h.cards == CardSet(best) && multiset(best) <= multiset(cards) &&
      (forall i :: 0 <= i < 4 ==> best[i].rank == h.ranks[0]) && best[4].rank == h.ranks[1] &&
      forall c :: c in multiset(cards) - multiset(best) ==> Val(c) <= Val(best[4])
  {
    ByRankDescends(cards);
    var s := ByRank(cards);
    ChosenFour(cards, s, FirstRun(s, 4, 0).value);
  }

  /** The quad cards at `k` of a descending copy of the input. */
  lemma ChosenFour(cards: seq<Card>, s: seq<Card>, k: nat)
    requires Descending(s) && multiset(s) == multiset(cards) && |s| >= 5 && RunAt(s, k, 4)
    ensures var best := FourCards(s, k);
      multiset(best) <= multiset(cards) &&
      (forall i :: 0 <= i < 4 ==> best[i].rank == best[0].rank) &&
      forall c :: c in multiset(cards) - multiset(best) ==> Val(c) <= Val(best[4])
  {
    var others := s[..k] + s[k + 4..];
    RunAtSpan(s, k, 4);
    assert s[k..k + 4] + s[..k] + s[k + 4..] == s[k..k + 4] + others;
    TakeAfterHead(s[k..k + 4], others, 1);
    ChosenRun(cards, s, k, 4, 1);
  }

  /** The Four of a Kind hand's category and ranks depend on the ranks of
      the copy only. */
  lemma FourHandSameRanks(s: seq<Card>, t: seq<Card>, k: nat)
    requires SameRanks(s, t) && k + 4 <= |s| && |s| >= 5
    ensures FourHand(s, k).category == FourHand(t, k).category
    ensures FourHand(s, k).ranks == FourHand(t, k).ranks
  {
    assert SameRanks(s[k..k + 4] + s[..k] + s[k + 4..], t[k..k + 4] + t[..k] + t[k + 4..]);
    assert SameRanks(FourCards(s, k), FourCards(t, k));
  }

  /** Reordering the input gives the same outcome: the same error, no hand
      for both, or hands of the same category and ranks. */
  lemma FourReordered(p: seq<Card>, q: seq<Card>)
    requires multiset(p) == multiset(q)
    ensures SameGrade(BestFour(p), BestFour(q))
  {
    ReorderedLength(p, q);
    if |p| >= 5 {
      var s, t := ByRank(p), ByRank(q);
      ByRankReordered(p, q);
      FirstRunSameRanks(s, t, 4, 0);
      if FirstRun(s, 4, 0).Some? {
        FourHandSameRanks(s, t, FirstRun(s, 4, 0).value);
      }
    }
  }
}
