/** HighCardLocator.java: the five highest cards. */
module HighCardLocator {
  import opened Outcomes
  import opened Ranks
  import opened Cards
  import opened Hands
  import opened RankScan

  /** The locator's result: fewer than five cards is an error, otherwise the
      first five cards of the descending working copy, which always exist. */
  function BestHighCard(cards: seq<Card>): (r: Result<Option<Hand>>)
    ensures r.Err? <==> |cards| < 5
    ensures r.Err? ==> r.error == IllegalArgument
    ensures r.Ok? ==> r.value.Some?
  {
    if |cards| < 5 then Err(IllegalArgument)
    else
      var best := ByRank(cards)[..5];
      Ok(Some(NewHand(HighCard, best, RanksOf(best)).value))
  }

  /** `findBestHand`: sort a copy, keep its first five cards and collect
      their ranks in a loop. */
  method FindBestHand(cards: seq<Card>) returns (r: Result<Option<Hand>>)
    ensures r == BestHighCard(cards)
  {
    if |cards| < 5 {
      return Err(IllegalArgument);
    }
    var s := ByRank(cards);
    var bestCards := s[..5];
    var bestRanks := AppendRanks([], bestCards, 0);
    assert bestRanks == RanksOf(bestCards) by {
      assert bestCards[0..] == bestCards;
    }
    var hand := NewHand(HighCard, bestCards, bestRanks);
    return Ok(Some(hand.value));
  }

  /** The hand is labelled HighCard and holds the first five cards of the
      descending working copy; its ranks are theirs, in non-increasing
      order. */
  lemma HighCardChoice(cards: seq<Card>)
    requires |cards| >= 5
    ensures var h := BestHighCard(cards).value.value;
      var best := ByRank(cards)[..5];
      h.category == HighCard && h.cards == CardSet(best) && h.ranks == RanksOf(best) &&
      forall i, j :: 0 <= i < j < 5 ==> RankValue(h.ranks[i]) >= RankValue(h.ranks[j])
  {
    ByRankDescends(cards);
  }

  /** The five chosen cards are drawn from the input and no card left out
      ranks above any of them. */
  lemma HighCardLeftovers(cards: seq<Card>)
    requires |cards| >= 5
    ensures var best := ByRank(cards)[..5];
      multiset(best) <= multiset(cards) &&
      forall c :: c in multiset(cards) - multiset(best) ==> Val(c) <= Val(best[4])
  {
    ByRankDescends(cards);
    var s := ByRank(cards);
    assert [] + s == s;
    Leftovers(cards, [], s, 5);
    assert [] + s[..5] == s[..5];
  }

  /** Reordering the input gives a hand of the same category and ranks;
      which of several cards of equal rank it holds follows the input
      order. */
  lemma HighCardReordered(p: seq<Card>, q: seq<Card>)
    requires multiset(p) == multiset(q)
    ensures SameGrade(BestHighCard(p), BestHighCard(q))
  {
    ReorderedLength(p, q);
    if |p| >= 5 {
      ByRankReordered(p, q);
      assert RanksOf(ByRank(p)[..5]) == RanksOf(ByRank(q)[..5]);
    }
  }
}
