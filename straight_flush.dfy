/** StraightFlushLocator.java: the best straight within a single suit. */
module StraightFlushLocator {
  import opened Outcomes
  import opened Ranks
  import opened Suits
  import opened Cards
  import opened Hands
  import opened FlushLocator
  import opened StraightLocator
  import opened RankScan

  /** The rank value a straight is ranked by. */
  function Top(h: Hand): nat
    requires h.ranks != []
  {
    RankValue(h.ranks[0])
  }

  /** What the straight locator finds among the cards of suit `u`, when
      there are at least five of them. */
  function SuitStraight(cards: seq<Card>, u: Suit): (r: Option<Hand>)
    ensures r.Some? ==> |r.value.ranks| == 1
  {
    var suited := OfSuit(cards, u);
    if |suited| >= 5 then BestStraight(suited).value else None
  }

  /** The suits from position `k` of the declaration order, keeping `best`
      unless a suit's straight has a strictly higher top rank. */
  function BestSuited(cards: seq<Card>, k: nat, best: Option<Hand>): (r: Option<Hand>)
    requires k <= 4 && (best.Some? ==> best.value.ranks != [])
    ensures r.Some? ==> r.value.ranks != []
    decreases 4 - k
  {
    if k == 4 then best
    else
      var found := SuitStraight(cards, AllSuits[k]);
      var next := if found.Some? && (best.None? || Top(best.value) < Top(found.value)) then found else best;
      BestSuited(cards, k + 1, next)
  }

  /** The locator's result: fewer than five cards is an error; otherwise the
      best suited straight, rebuilt with the StraightFlush label through
      the `Hand` constructor, which insists on five cards. */
  function BestStraightFlush(cards: seq<Card>): (r: Result<Option<Hand>>)
    ensures |cards| < 5 ==> r == Err(IllegalArgument)
    ensures r.Err? ==> r.error == IllegalArgument
    ensures r.Ok? && r.value.Some? ==>
      r.value.value.category == StraightFlush && |r.value.value.cards| == 5 && |r.value.value.ranks| == 1
  {
    if |cards| < 5 then Err(IllegalArgument)
    else
      match BestSuited(cards, 0, None)
      case None => Ok(None)
      case Some(h) =>
        if |h.cards| != 5 then Err(IllegalArgument)
        else Ok(Some(Hand(StraightFlush, h.cards, h.ranks)))
  }

  /** `findBestHand`: for each suit in declaration order, collect its cards
      in input order, run the straight locator on five or more of them, and
      keep a strictly higher straight; relabel the winner. */
  method FindBestHand(cards: seq<Card>) returns (r: Result<Option<Hand>>)
    ensures r == BestStraightFlush(cards)
  {
    if |cards| < 5 {
      return Err(IllegalArgument);
    }
    var bestHand: Option<Hand> := None;
    for k := 0 to 4
      invariant bestHand.Some? ==> bestHand.value.ranks != []
      invariant BestSuited(cards, k, bestHand) == BestSuited(cards, 0, None)
    {
      var suitedCards := SuitCards(cards, AllSuits[k]);
      if |suitedCards| >= 5 {
        var hand := StraightLocator.FindBestHand(suitedCards);
        if hand.value.Some? && (bestHand.None? || Top(bestHand.value) < Top(hand.value.value)) {
          bestHand := hand.value;
        }
      }
    }
    if bestHand.None? {
      return Ok(None);
    }
    if |bestHand.value.cards| != 5 {
      return Err(IllegalArgument);
    }
    return Ok(Some(Hand(StraightFlush, bestHand.value.cards, bestHand.value.ranks)));
  }

  /** The inner loop of `findBestHand`: the cards of one suit, in input
      order. */
  method SuitCards(cards: seq<Card>, suit: Suit) returns (suitedCards: seq<Card>)
    ensures suitedCards == OfSuit(cards, suit)
  {
    suitedCards := [];
    for i := 0 to |cards|
      invariant suitedCards == OfSuit(cards[..i], suit)
    {
      assert cards[..i + 1][..i] == cards[..i];
      if cards[i].suit == suit {
        suitedCards := suitedCards + [cards[i]];
      }
    }
    assert cards[..|cards|] == cards;
  }

  /** The straight found among the cards of the `i`-th suit. */
  function StraightOf(cards: seq<Card>, i: nat): (r: Option<Hand>)
    requires i < 4
    ensures r.Some? ==> |r.value.ranks| == 1
  {
    SuitStraight(cards, AllSuits[i])
  }

  /** `best` is the choice among the first `k` suits and came from suit
      `j`: it tops every straight found so far, strictly tops those of
      earlier suits, and is absent only when no suit so far had one. */
  ghost predicate Leading(cards: seq<Card>, k: nat, best: Option<Hand>, j: int)
    requires k <= 4
  {
    if best.None? then
      forall i :: 0 <= i < k ==> StraightOf(cards, i).None?
    else
      0 <= j < k && best == StraightOf(cards, j) &&
      (forall i :: 0 <= i < j && StraightOf(cards, i).Some? ==>
        Top(StraightOf(cards, i).value) < Top(best.value)) &&
      (forall i :: j <= i < k && StraightOf(cards, i).Some? ==>
        Top(StraightOf(cards, i).value) <= Top(best.value))
  }

  /** One more suit keeps the choice leading. */
  lemma LeadingStep(cards: seq<Card>, k: nat, best: Option<Hand>, j: int)
    returns (next: Option<Hand>, nj: int)
    requires k < 4 && (best.Some? ==> best.value.ranks != []) && Leading(cards, k, best, j)
    ensures (next.Some? ==> next.value.ranks != []) && Leading(cards, k + 1, next, nj)
    ensures BestSuited(cards, k + 1, next) == BestSuited(cards, k, best)
  {
    var found := StraightOf(cards, k);
    if found.Some? && (best.None? || Top(best.value) < Top(found.value)) {
      next, nj := found, k;
      LeadingTake(cards, k, best, j);
    } else {
      next, nj := best, j;
      LeadingKeep(cards, k, best, j);
    }
  }

  /** A straight of suit `k` above the choice so far becomes the choice. */
  lemma LeadingTake(cards: seq<Card>, k: nat, best: Option<Hand>, j: int)
    requires k < 4 && (best.Some? ==> best.value.ranks != []) && Leading(cards, k, best, j)
    requires StraightOf(cards, k).Some?
    requires best.None? || Top(best.value) < Top(StraightOf(cards, k).value)
    ensures Leading(cards, k + 1, StraightOf(cards, k), k)
  {
    var found := StraightOf(cards, k);
    forall i | 0 <= i < k && StraightOf(cards, i).Some?
      ensures Top(StraightOf(cards, i).value) < Top(found.value)
    {
      if best.Some? {
        assert Top(StraightOf(cards, i).value) <= Top(best.value);
      }
    }
  }

  /** Otherwise the choice so far stays. */
  lemma LeadingKeep(cards: seq<Card>, k: nat, best: Option<Hand>, j: int)
    requires k < 4 && (best.Some? ==> best.value.ranks != []) && Leading(cards, k, best, j)
    requires !(StraightOf(cards, k).Some? && (best.None? || Top(best.value) < Top(StraightOf(cards, k).value)))
    ensures Leading(cards, k + 1, best, j)
  {
    if best.Some? {
      forall i | j <= i < k + 1 && StraightOf(cards, i).Some?
        ensures Top(StraightOf(cards, i).value) <= Top(best.value)
      {
      }
    }
  }

  /** The remaining suits keep the choice leading. */
  lemma {:induction false} SuitedLeading(cards: seq<Card>, k: nat, best: Option<Hand>, j: int)
    returns (w: int)
    requires k <= 4 && (best.Some? ==> best.value.ranks != []) && Leading(cards, k, best, j)
    ensures Leading(cards, 4, BestSuited(cards, k, best), w)
    decreases 4 - k
  {
    if k == 4 {
      w := j;
    } else {
      var next, nj := LeadingStep(cards, k, best, j);
      w := SuitedLeading(cards, k + 1, next, nj);
    }
  }

  /** A straight needs five cards. */
  lemma StraightNeedsFive(cs: seq<Card>, v: int)
    requires StraightTo(cs, |cs|, v)
    ensures |cs| >= 5
  {
    var a :| 0 <= a < |cs| && Val(cs[a]) == v;
    var b :| 0 <= b < |cs| && Val(cs[b]) == v - 1;
    var c :| 0 <= c < |cs| && Val(cs[c]) == v - 2;
    var d :| 0 <= d < |cs| && Val(cs[d]) == v - 3;
    var e :| 0 <= e < |cs| && Val(cs[e]) == v - 4;
    assert a != b && a != c && a != d && a != e && b != c && b != d && b != e;
    assert c != d && c != e && d != e;
  }

  /** A suit yields a straight exactly when its cards hold five consecutive
      rank values: a found straight tops such a run, and without one there
      is none. */
  lemma SuitStraightAbsent(cards: seq<Card>, u: Suit)
    ensures SuitStraight(cards, u).Some? ==>
      StraightTo(OfSuit(cards, u), |OfSuit(cards, u)|, Top(SuitStraight(cards, u).value))
    ensures SuitStraight(cards, u).None? ==>
      forall v :: !StraightTo(OfSuit(cards, u), |OfSuit(cards, u)|, v)
  {
    var suited := OfSuit(cards, u);
    if SuitStraight(cards, u).Some? {
      StraightIsHighest(suited);
    } else if |suited| >= 5 {
      StraightAbsentIff(suited);
    } else {
      forall v ensures !StraightTo(suited, |suited|, v) {
        if StraightTo(suited, |suited|, v) {
          StraightNeedsFive(suited, v);
        }
      }
    }
  }

  /** The winning suit and its straight: it has the highest top rank of all
      suits' straights, strictly higher than those of earlier suits, and the
      result is that straight relabelled StraightFlush: five cards of that
      suit from the input, with rank values from its top down to four
      below. */
  lemma StraightFlushWinner(cards: seq<Card>) returns (u: Suit)
    requires BestStraightFlush(cards).Ok? && BestStraightFlush(cards).value.Some?
    ensures var h := BestStraightFlush(cards).value.value;
      var st := SuitStraight(cards, u);
      st.Some? && h == Hand(StraightFlush, st.value.cards, st.value.ranks) &&
      h.category == StraightFlush && |h.cards| == 5 && |h.ranks| == 1 &&
      (forall c :: c in h.cards ==> c.suit == u && c in cards && Top(h) - 4 <= Val(c) <= Top(h)) &&
      (forall u' :: SuitStraight(cards, u').Some? ==> Top(SuitStraight(cards, u').value) <= Top(h)) &&
      (forall u' :: SuitOrdinal(u') < SuitOrdinal(u) && SuitStraight(cards, u').Some? ==>
        Top(SuitStraight(cards, u').value) < Top(h))
  {
    var j := SuitedLeading(cards, 0, None, -1);
    u := AllSuits[j];
    var h := BestStraightFlush(cards).value.value;
    forall u' ensures StraightOf(cards, SuitOrdinal(u')) == SuitStraight(cards, u') {
      AllSuitsComplete(u');
    }
    AllSuitsComplete(u);
    assert SuitOrdinal(u) == j;
    WinnerCards(cards, u);
  }

  /** The cards of a suit's straight are five cards of that suit from the
      input, ranked from its top down to four below. */
  lemma WinnerCards(cards: seq<Card>, u: Suit)
    requires SuitStraight(cards, u).Some?
    ensures var h := SuitStraight(cards, u).value;
      |h.cards| == 5 &&
      forall c :: c in h.cards ==> c.suit == u && c in cards && Top(h) - 4 <= Val(c) <= Top(h)
  {
    var suited := OfSuit(cards, u);
    StraightShape(suited);
    var best := FinalRun(ByRank(suited));
    OfSuitMultiset(cards, u);
    forall c | c in CardSet(best) ensures c.suit == u && c in cards && Val(best[0]) - 4 <= Val(c) <= Val(best[0]) {
      var k :| 0 <= k < 5 && best[k] == c;
      assert c in multiset(suited);
    }
  }

  /** The hand always has its five cards, so the only error is a short
      input. */
  lemma StraightFlushErrors(cards: seq<Card>)
    ensures BestStraightFlush(cards).Err? <==> |cards| < 5
  {
    if |cards| >= 5 && BestSuited(cards, 0, None).Some? {
      var j := SuitedLeading(cards, 0, None, -1);
      WinnerCards(cards, AllSuits[j]);
    }
  }

  /** No hand is found exactly when no single suit holds five consecutive
      rank values; a straight of mixed suits does not count. */
  lemma StraightFlushAbsentIff(cards: seq<Card>)
    requires |cards| >= 5
    ensures BestStraightFlush(cards) == Ok(None) ==>
      forall u, v :: !StraightTo(OfSuit(cards, u), |OfSuit(cards, u)|, v)
    ensures (forall u, v :: !StraightTo(OfSuit(cards, u), |OfSuit(cards, u)|, v)) ==>
      BestStraightFlush(cards) == Ok(None)
  {
    var j := SuitedLeading(cards, 0, None, -1);
    if BestSuited(cards, 0, None).None? {
      forall u, v ensures !StraightTo(OfSuit(cards, u), |OfSuit(cards, u)|, v) {
        AllSuitsComplete(u);
        assert StraightOf(cards, SuitOrdinal(u)).None?;
        SuitStraightAbsent(cards, u);
      }
    } else {
      var u := AllSuits[j];
      WinnerCards(cards, u);
      SuitStraightAbsent(cards, u);
      assert StraightTo(OfSuit(cards, u), |OfSuit(cards, u)|, Top(SuitStraight(cards, u).value));
    }
  }

  /** The cards of suit `u` in some order, sorted by rank, do not depend on
      that order: within one suit a rank names a single card. */
  lemma SuitedByRankReordered(x: seq<Card>, y: seq<Card>, u: Suit)
    requires multiset(x) == multiset(y)
    requires forall c :: c in x ==> c.suit == u
    ensures ByRank(x) == ByRank(y)
  {
    var s, t := ByRank(x), ByRank(y);
    ByRankReordered(x, y);
    forall i | 0 <= i < |s| ensures s[i] == t[i] {
      assert s[i] in multiset(x) && t[i] in multiset(x);
    }
  }

  /** Each suit yields the same straight, cards included, for every order
      of the same cards. */
  lemma SuitStraightReordered(p: seq<Card>, q: seq<Card>, u: Suit)
    requires multiset(p) == multiset(q)
    ensures SuitStraight(p, u) == SuitStraight(q, u)
  {
    var x, y := OfSuit(p, u), OfSuit(q, u);
    OfSuitReordered(p, q, u);
    ReorderedLength(x, y);
    forall c | c in x ensures c.suit == u {
      OfSuitCount(p, u, c);
    }
    SuitedByRankReordered(x, y, u);
  }

  /** The choice among the suits from `k` on is the same for two orders of
      the same cards. */
  lemma {:induction false} BestSuitedReordered(p: seq<Card>, q: seq<Card>, k: nat, best: Option<Hand>)
    requires multiset(p) == multiset(q)
    requires k <= 4 && (best.Some? ==> best.value.ranks != [])
    ensures BestSuited(p, k, best) == BestSuited(q, k, best)
    decreases 4 - k
  {
    if k < 4 {
      SuitStraightReordered(p, q, AllSuits[k]);
      var found := SuitStraight(p, AllSuits[k]);
      var next := if found.Some? && (best.None? || Top(best.value) < Top(found.value)) then found else best;
      BestSuitedReordered(p, q, k + 1, next);
    }
  }

  /** Reordering the input gives exactly the same result, cards included. */
  lemma StraightFlushReordered(p: seq<Card>, q: seq<Card>)
    requires multiset(p) == multiset(q)
    ensures BestStraightFlush(p) == BestStraightFlush(q)
  {
    ReorderedLength(p, q);
    if |p| >= 5 {
      BestSuitedReordered(p, q, 0, None);
    }
  }
}
