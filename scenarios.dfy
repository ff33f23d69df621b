/** Concrete hands from the locators' unit tests, worked out on the model. */
module Scenarios {
  import opened Outcomes
  import opened Ranks
  import opened Suits
  import opened Cards
  import opened CardOrder
  import opened Hands
  import opened RankScan
  import HighCardLocator
  import PairLocator
  import FullHouseLocator
  import StraightLocator
  import FlushLocator
  import StraightFlushLocator

  const sA := Card(Spades, Ace)
  const dA := Card(Diamonds, Ace)
  const dK := Card(Diamonds, King)
  const h9 := Card(Hearts, Nine)
  const d9 := Card(Diamonds, Nine)
  const d7 := Card(Diamonds, Seven)
  const c7 := Card(Clubs, Seven)
  const c3 := Card(Clubs, Three)
  const h2 := Card(Hearts, Two)
  const s5 := Card(Spades, Five)
  const c4 := Card(Clubs, Four)
  const d3 := Card(Diamonds, Three)
  const h7 := Card(Hearts, Seven)
  const h4 := Card(Hearts, Four)
  const s4 := Card(Spades, Four)
  const d4 := Card(Diamonds, Four)

  /** One step of the sort: the head is inserted into the sorted tail. */
  lemma SortStep(o: Order, c: Card, s: seq<Card>)
    ensures Sort(o, [c] + s) == Insert(o, c, Sort(o, s))
  {
    assert ([c] + s)[1..] == s;
  }

  /** The inserted card stops in front of a card of no smaller key. */
  lemma InsertHere(o: Order, c: Card, s: seq<Card>)
    requires s == [] || Key(o, c) <= Key(o, s[0])
    ensures Insert(o, c, s) == [c] + s
  {
  }

  /** The inserted card moves past a card of smaller key. */
  lemma InsertPast(o: Order, c: Card, x: Card, s: seq<Card>)
    requires Key(o, x) < Key(o, c)
    ensures Insert(o, c, [x] + s) == [x] + Insert(o, c, s)
  {
    assert ([x] + s)[1..] == s;
  }

  /** The ranks of a five-card list, one by one. */
  lemma RanksOfFive(a: Card, b: Card, c: Card, d: Card, e: Card)
    ensures RanksOf([a, b, c, d, e]) == [a.rank, b.rank, c.rank, d.rank, e.rank]
  {
  }

  /** The set of a five-card list. */
  lemma CardSetOfFive(a: Card, b: Card, c: Card, d: Card, e: Card)
    ensures CardSet([a, b, c, d, e]) == {a, b, c, d, e}
  {
  }

  /** The Pair hand for a pair in the second and third of five sorted
      cards: the pair, then the other three in order. */
  lemma PairHandAtOne(a: Card, b: Card, c: Card, d: Card, e: Card)
    ensures PairLocator.PairHand([a, b, c, d, e], 1) ==
      Hand(Pair, {b, c, a, d, e}, [b.rank, a.rank, d.rank, e.rank])
  {
    var s := [a, b, c, d, e];
    assert PairLocator.PairCards(s, 1) == [b, c, a, d, e] by {
      assert s[..1] + s[3..] == [a, d, e];
    }
    assert [b, c, a, d, e][2..] == [a, d, e];
    var rs := RanksOf([a, d, e]);
    assert rs[0] == a.rank && rs[1] == d.rank && rs[2] == e.rank;
    assert [b.rank] + rs == [b.rank, a.rank, d.rank, e.rank];
    CardSetOfFive(b, c, a, d, e);
  }

  /** "As Ad 3c 2h Kd" sorted by descending rank: the aces keep their
      input order. */
  lemma HighCardSort()
    ensures ByRank([sA, dA, c3, h2, dK]) == [sA, dA, dK, c3, h2]
  {
    assert Sort(ByRankDescending, [dK]) == [dK] by {
      SortStep(ByRankDescending, dK, []);
      InsertHere(ByRankDescending, dK, []);
    }
    assert Sort(ByRankDescending, [h2, dK]) == [dK, h2] by {
      SortStep(ByRankDescending, h2, [dK]);
      InsertHere(ByRankDescending, h2, []);
      InsertPast(ByRankDescending, h2, dK, []);
    }
    assert Sort(ByRankDescending, [c3, h2, dK]) == [dK, c3, h2] by {
      SortStep(ByRankDescending, c3, [h2, dK]);
      InsertHere(ByRankDescending, c3, [h2]);
      InsertPast(ByRankDescending, c3, dK, [h2]);
    }
    assert Sort(ByRankDescending, [dA, c3, h2, dK]) == [dA, dK, c3, h2] by {
      SortStep(ByRankDescending, dA, [c3, h2, dK]);
      InsertHere(ByRankDescending, dA, [dK, c3, h2]);
    }
    assert Sort(ByRankDescending, [sA, dA, c3, h2, dK]) == [sA, dA, dK, c3, h2] by {
      SortStep(ByRankDescending, sA, [dA, c3, h2, dK]);
      InsertHere(ByRankDescending, sA, [dA, dK, c3, h2]);
    }
  }

  /** "As Ad 3c 2h Kd": the high-card locator keeps both aces. */
  lemma HighCardIgnoresPair(cards: seq<Card>)
    requires cards == [sA, dA, c3, h2, dK]
    ensures HighCardLocator.BestHighCard(cards) ==
      Ok(Some(Hand(HighCard, {sA, dA, dK, c3, h2}, [Ace, Ace, King, Three, Two])))
  {
    HighCardSort();
    var best := [sA, dA, dK, c3, h2];
    assert ByRank(cards)[..5] == best;
    RanksOfFive(sA, dA, dK, c3, h2);
    CardSetOfFive(sA, dA, dK, c3, h2);
    var h := Hand(HighCard, {sA, dA, dK, c3, h2}, [Ace, Ace, King, Three, Two]);
    assert NewHand(HighCard, best, RanksOf(best)) == Ok(h);
  }

  /** "As 7d 7c 9h 9d" sorted by descending rank. */
  lemma PairSort()
    ensures ByRank([sA, d7, c7, h9, d9]) == [sA, h9, d9, d7, c7]
  {
    assert Sort(ByRankDescending, [d9]) == [d9] by {
      SortStep(ByRankDescending, d9, []);
      InsertHere(ByRankDescending, d9, []);
    }
    assert Sort(ByRankDescending, [h9, d9]) == [h9, d9] by {
      SortStep(ByRankDescending, h9, [d9]);
      InsertHere(ByRankDescending, h9, [d9]);
    }
    assert Sort(ByRankDescending, [c7, h9, d9]) == [h9, d9, c7] by {
      SortStep(ByRankDescending, c7, [h9, d9]);
      InsertHere(ByRankDescending, c7, []);
      InsertPast(ByRankDescending, c7, d9, []);
      InsertPast(ByRankDescending, c7, h9, [d9]);
    }
    assert Sort(ByRankDescending, [d7, c7, h9, d9]) == [h9, d9, d7, c7] by {
      SortStep(ByRankDescending, d7, [c7, h9, d9]);
      InsertHere(ByRankDescending, d7, [c7]);
      InsertPast(ByRankDescending, d7, d9, [c7]);
      InsertPast(ByRankDescending, d7, h9, [d9, c7]);
    }
    assert Sort(ByRankDescending, [sA, d7, c7, h9, d9]) == [sA, h9, d9, d7, c7] by {
      SortStep(ByRankDescending, sA, [d7, c7, h9, d9]);
      InsertHere(ByRankDescending, sA, [h9, d9, d7, c7]);
    }
  }

  /** In "As 9h 9d 7d 7c" the scan stops at the nines. */
  lemma PairOfNines(s: seq<Card>)
    requires s == [sA, h9, d9, d7, c7]
    ensures FirstRun(s, 2, 0) == Some(1)
  {
    assert !RunAt(s, 0, 2) && RunAt(s, 1, 2);
    FirstRunAt(s, 2, 0, 1);
  }

  /** "As 7d 7c 9h 9d": of two pairs the higher one is the pair, and the
      lower one fills the kickers. */
  lemma PairMultipleCandidates(cards: seq<Card>)
    requires cards == [sA, d7, c7, h9, d9]
    ensures PairLocator.BestPair(cards) ==
      Ok(Some(Hand(Pair, {h9, d9, sA, d7, c7}, [Nine, Ace, Seven, Seven])))
  {
    PairSort();
    PairOfNines([sA, h9, d9, d7, c7]);
    PairHandAtOne(sA, h9, d9, d7, c7);
  }

  /** "As 2h 3d 4c 5s" is not a straight: the Ace only counts above the
      King. */
  lemma NoWheel(cards: seq<Card>)
    requires cards == [sA, h2, d3, c4, s5]
    ensures StraightLocator.BestStraight(cards) == Ok(None)
  {
    forall w ensures !StraightLocator.StraightTo(cards, 5, w) {
      if StraightLocator.Present(cards, 5, w) && StraightLocator.Present(cards, 5, w - 1) {
        var j :| 0 <= j < 5 && Val(cards[j]) == w;
        var k :| 0 <= k < 5 && Val(cards[k]) == w - 1;
      }
    }
    StraightLocator.StraightAbsentIff(cards);
  }

  /** The Pair hand for a pair in the third and fourth of five sorted
      cards: the pair, then the two cards before it and the last one. */
  lemma PairHandAtTwo(a: Card, b: Card, c: Card, d: Card, e: Card)
    ensures PairLocator.PairHand([a, b, c, d, e], 2) ==
      Hand(Pair, {c, d, a, b, e}, [c.rank, a.rank, b.rank, e.rank])
  {
    var s := [a, b, c, d, e];
    assert PairLocator.PairCards(s, 2) == [c, d, a, b, e] by {
      assert s[..2] + s[4..] == [a, b, e];
    }
    assert [c, d, a, b, e][2..] == [a, b, e];
    var rs := RanksOf([a, b, e]);
    assert rs[0] == a.rank && rs[1] == b.rank && rs[2] == e.rank;
    assert [c.rank] + rs == [c.rank, a.rank, b.rank, e.rank];
    CardSetOfFive(c, d, a, b, e);
  }

  /** "As 7d 7c 7h Kd" sorted by descending rank: the sevens keep their
      input order. */
  lemma TripleSort()
    ensures ByRank([sA, d7, c7, h7, dK]) == [sA, dK, d7, c7, h7]
  {
    assert Sort(ByRankDescending, [dK]) == [dK] by {
      SortStep(ByRankDescending, dK, []);
      InsertHere(ByRankDescending, dK, []);
    }
    assert Sort(ByRankDescending, [h7, dK]) == [dK, h7] by {
      SortStep(ByRankDescending, h7, [dK]);
      InsertHere(ByRankDescending, h7, []);
      InsertPast(ByRankDescending, h7, dK, []);
    }
    assert Sort(ByRankDescending, [c7, h7, dK]) == [dK, c7, h7] by {
      SortStep(ByRankDescending, c7, [h7, dK]);
      InsertHere(ByRankDescending, c7, [h7]);
      InsertPast(ByRankDescending, c7, dK, [h7]);
    }
    assert Sort(ByRankDescending, [d7, c7, h7, dK]) == [dK, d7, c7, h7] by {
      SortStep(ByRankDescending, d7, [c7, h7, dK]);
      InsertHere(ByRankDescending, d7, [c7, h7]);
      InsertPast(ByRankDescending, d7, dK, [c7, h7]);
    }
    assert Sort(ByRankDescending, [sA, d7, c7, h7, dK]) == [sA, dK, d7, c7, h7] by {
      SortStep(ByRankDescending, sA, [d7, c7, h7, dK]);
      InsertHere(ByRankDescending, sA, [dK, d7, c7, h7]);
    }
  }

  /** In "As Kd 7d 7c 7h" the scan stops at the first two sevens. */
  lemma PairOfSevens(s: seq<Card>)
    requires s == [sA, dK, d7, c7, h7]
    ensures FirstRun(s, 2, 0) == Some(2)
  {
    assert !RunAt(s, 0, 2) && !RunAt(s, 1, 2) && RunAt(s, 2, 2);
    FirstRunAt(s, 2, 0, 2);
  }

  /** "As 7d 7c 7h Kd": three of a kind still gives a pair, the first two
      sevens, with the third seven as the last kicker. */
  lemma PairFromTriple(cards: seq<Card>)
    requires cards == [sA, d7, c7, h7, dK]
    ensures PairLocator.BestPair(cards) ==
      Ok(Some(Hand(Pair, {d7, c7, sA, dK, h7}, [Seven, Ace, King, Seven])))
  {
    TripleSort();
    PairOfSevens([sA, dK, d7, c7, h7]);
    PairHandAtTwo(sA, dK, d7, c7, h7);
  }

  /** A two moves past the ace and the three fours at the head. */
  lemma InsertTwoPastHead(t: seq<Card>)
    ensures Insert(ByRankDescending, h2, [dA, h4, s4, d4] + t) ==
      [dA, h4, s4, d4] + Insert(ByRankDescending, h2, t)
  {
    assert [dA, h4, s4, d4] + t == [dA] + ([h4] + ([s4] + ([d4] + t)));
    InsertPast(ByRankDescending, h2, d4, t);
    InsertPast(ByRankDescending, h2, s4, [d4] + t);
    InsertPast(ByRankDescending, h2, h4, [s4] + ([d4] + t));
    InsertPast(ByRankDescending, h2, dA, [h4] + ([s4] + ([d4] + t)));
  }

  /** "4h 4s 4d Ad" sorted by descending rank. */
  lemma FoursSort()
    ensures Sort(ByRankDescending, [h4, s4, d4, dA]) == [dA, h4, s4, d4]
  {
    assert Sort(ByRankDescending, [dA]) == [dA] by {
      SortStep(ByRankDescending, dA, []);
      InsertHere(ByRankDescending, dA, []);
    }
    assert Sort(ByRankDescending, [d4, dA]) == [dA, d4] by {
      SortStep(ByRankDescending, d4, [dA]);
      InsertHere(ByRankDescending, d4, []);
      InsertPast(ByRankDescending, d4, dA, []);
    }
    assert Sort(ByRankDescending, [s4, d4, dA]) == [dA, s4, d4] by {
      SortStep(ByRankDescending, s4, [d4, dA]);
      InsertHere(ByRankDescending, s4, [d4]);
      InsertPast(ByRankDescending, s4, dA, [d4]);
    }
    SortStep(ByRankDescending, h4, [s4, d4, dA]);
    InsertHere(ByRankDescending, h4, [s4, d4]);
    InsertPast(ByRankDescending, h4, dA, [s4, d4]);
  }

  /** One more two in front of sorted cards that end in twos. */
  lemma TwoSortStep(rest: seq<Card>, twos: seq<Card>)
    requires Sort(ByRankDescending, rest) == [dA, h4, s4, d4] + twos
    requires twos == [] || twos[0] == h2
    ensures Sort(ByRankDescending, [h2] + rest) == [dA, h4, s4, d4] + ([h2] + twos)
  {
    SortStep(ByRankDescending, h2, rest);
    InsertTwoPastHead(twos);
    InsertHere(ByRankDescending, h2, twos);
  }

  /** "2h 2h 2h 4h 4s 4d Ad" sorted by descending rank. */
  lemma FullHouseSort()
    ensures ByRank([h2, h2, h2, h4, s4, d4, dA]) == [dA, h4, s4, d4, h2, h2, h2]
  {
    var fours := [h4, s4, d4, dA];
    FoursSort();
    assert Sort(ByRankDescending, fours) == [dA, h4, s4, d4] + [];
    TwoSortStep(fours, []);
    TwoSortStep([h2] + fours, [h2]);
    TwoSortStep([h2] + ([h2] + fours), [h2, h2]);
    assert [h2] + ([h2] + ([h2] + fours)) == [h2, h2, h2, h4, s4, d4, dA];
    assert [dA, h4, s4, d4] + ([h2] + [h2, h2]) == [dA, h4, s4, d4, h2, h2, h2];
  }

  /** In "Ad 4h 4s 4d 2h 2h 2h" the first triple starts at 1 and the
      first pair clear of it at 4. */
  lemma FoursOverTwosScan(s: seq<Card>)
    requires s == [dA, h4, s4, d4, h2, h2, h2]
    ensures FirstRun(s, 3, 0) == Some(1)
    ensures FullHouseLocator.FirstClearPair(s, 1, 0) == Some(4)
  {
    assert !RunAt(s, 0, 3) && RunAt(s, 1, 3);
    FirstRunAt(s, 3, 0, 1);
    assert RunAt(s, 4, 2);
    FullHouseLocator.FirstClearPairAt(s, 1, 0, 4);
  }

  /** The hand of the triple at 1 and the pair at 4 is ranked four over
      two. */
  lemma FoursOverTwosHand(s: seq<Card>)
    requires s == [dA, h4, s4, d4, h2, h2, h2]
    ensures FullHouseLocator.FullHouseHand(s, 1, 4).category == FullHouse
    ensures FullHouseLocator.FullHouseHand(s, 1, 4).ranks == [Four, Two]
  {
    assert s[1..4] + s[4..6] == [h4, s4, d4, h2, h2];
  }

  /** "2h 2h 2h 4h 4s 4d Ad": the fours are the triple and two of the
      repeated twos the pair, so the hand is ranked four over two. */
  lemma FullHouseFoursOverTwos(cards: seq<Card>)
    requires cards == [h2, h2, h2, h4, s4, d4, dA]
    ensures FullHouseLocator.BestFullHouse(cards).Ok?
    ensures FullHouseLocator.BestFullHouse(cards).value.Some?
    ensures FullHouseLocator.BestFullHouse(cards).value.value.category == FullHouse
    ensures FullHouseLocator.BestFullHouse(cards).value.value.ranks == [Four, Two]
  {
    FullHouseSort();
    var s := [dA, h4, s4, d4, h2, h2, h2];
    FoursOverTwosScan(s);
    FoursOverTwosHand(s);
  }

  /** One card more at the end of the list. */
  lemma OfSuitSnoc(cs: seq<Card>, c: Card, u: Suit)
    ensures FlushLocator.OfSuit(cs + [c], u) == FlushLocator.OfSuit(cs, u) + (if c.suit == u then [c] else [])
  {
    assert (cs + [c])[..|cs|] == cs;
  }

  /** A card no later in the order than the head of an already sorted
      list stays in front of it. */
  lemma SortedCons(o: Order, c: Card, s: seq<Card>)
    requires Sort(o, s) == s
    requires s == [] || Key(o, c) <= Key(o, s[0])
    ensures Sort(o, [c] + s) == [c] + s
  {
    SortStep(o, c, s);
    InsertHere(o, c, s);
  }

  const hT := Card(Hearts, Ten)
  const hJ := Card(Hearts, Jack)
  const hQ := Card(Hearts, Queen)
  const hK := Card(Hearts, King)
  const c2 := Card(Clubs, Two)
  const cQ := Card(Clubs, Queen)
  const s9 := Card(Spades, Nine)

  /** "Kh Qh Jh Th 9h" is already in descending rank order. */
  lemma HeartsSort()
    ensures ByRank([hK, hQ, hJ, hT, h9]) == [hK, hQ, hJ, hT, h9]
  {
    var o := ByRankDescending;
    SortedCons(o, h9, []);
    SortedCons(o, hT, [h9]);
    SortedCons(o, hJ, [hT, h9]);
    SortedCons(o, hQ, [hJ, hT, h9]);
    SortedCons(o, hK, [hQ, hJ, hT, h9]);
  }

  /** The scan of "Kh Qh Jh Th 9h" extends one run to all five cards. */
  lemma HeartsRun(hs: seq<Card>)
    requires hs == [hK, hQ, hJ, hT, h9]
    ensures StraightLocator.FinalRun(hs) == hs
  {
    assert [hK] + [hQ] == [hK, hQ];
    assert StraightLocator.Scan(hs, 1, [hK]) == StraightLocator.Scan(hs, 2, [hK, hQ]);
    assert [hK, hQ] + [hJ] == [hK, hQ, hJ];
    assert StraightLocator.Scan(hs, 2, [hK, hQ]) == StraightLocator.Scan(hs, 3, [hK, hQ, hJ]);
    assert [hK, hQ, hJ] + [hT] == [hK, hQ, hJ, hT];
    assert StraightLocator.Scan(hs, 3, [hK, hQ, hJ]) == StraightLocator.Scan(hs, 4, [hK, hQ, hJ, hT]);
    assert [hK, hQ, hJ, hT] + [h9] == hs;
    assert StraightLocator.Scan(hs, 4, [hK, hQ, hJ, hT]) == hs;
  }

  /** The straight locator on "Kh Qh Jh Th 9h": one run of all five. */
  lemma HeartsStraight(hs: seq<Card>)
    requires hs == [hK, hQ, hJ, hT, h9]
    ensures StraightLocator.BestStraight(hs) == Ok(Some(Hand(Straight, {hK, hQ, hJ, hT, h9}, [King])))
  {
    HeartsSort();
    HeartsRun(hs);
    CardSetOfFive(hK, hQ, hJ, hT, h9);
    assert NewHand(Straight, hs, [King]) == Ok(Hand(Straight, {hK, hQ, hJ, hT, h9}, [King]));
  }

  /** The cards of each suit in "Kh Qh Jh Th 9h 2c". */
  lemma SuitsOfSix(cards: seq<Card>)
    requires cards == [hK, hQ, hJ, hT, h9, c2]
    ensures FlushLocator.OfSuit(cards, Hearts) == [hK, hQ, hJ, hT, h9]
    ensures FlushLocator.OfSuit(cards, Spades) == []
    ensures FlushLocator.OfSuit(cards, Diamonds) == []
    ensures FlushLocator.OfSuit(cards, Clubs) == [c2]
  {
    var hs := [hK, hQ, hJ, hT, h9];
    assert cards == hs + [c2];
    forall u | u in AllSuits
      ensures FlushLocator.OfSuit(cards, u) == FlushLocator.OfSuit(hs, u) + FlushLocator.OfSuit([c2], u)
    {
      FlushLocator.OfSuitAppend(hs, [c2], u);
    }
    FlushLocator.OfSuitAll(hs, Hearts);
    FlushLocator.OfSuitNone(hs, Spades);
    FlushLocator.OfSuitNone(hs, Diamonds);
    FlushLocator.OfSuitNone(hs, Clubs);
    assert FlushLocator.OfSuit([c2], Clubs) == [c2] by {
      FlushLocator.OfSuitAll([c2], Clubs);
    }
  }

  /** In "Kh Qh Jh Th 9h 2c" only the hearts are five or more. */
  lemma SuitStraightsOfSix(cards: seq<Card>)
    requires cards == [hK, hQ, hJ, hT, h9, c2]
    ensures StraightFlushLocator.SuitStraight(cards, Hearts) == Some(Hand(Straight, {hK, hQ, hJ, hT, h9}, [King]))
    ensures StraightFlushLocator.SuitStraight(cards, Spades) == None
    ensures StraightFlushLocator.SuitStraight(cards, Diamonds) == None
    ensures StraightFlushLocator.SuitStraight(cards, Clubs) == None
  {
    SuitsOfSix(cards);
    HeartsStraight([hK, hQ, hJ, hT, h9]);
  }

  /** The suits in declaration order keep the straight of hearts. */
  lemma BestSuitedOfSix(cards: seq<Card>)
    requires cards == [hK, hQ, hJ, hT, h9, c2]
    ensures StraightFlushLocator.BestSuited(cards, 0, None) == Some(Hand(Straight, {hK, hQ, hJ, hT, h9}, [King]))
  {
    SuitStraightsOfSix(cards);
  }

  /** `u` with the cards at `i` and `j` exchanged. */
  function Swapped(u: seq<Card>, i: nat, j: nat): (r: seq<Card>)
    requires i < j < |u|
    ensures |r| == |u|
  {
    u[i := u[j]][j := u[i]]
  }

  /** Exchanging two positions keeps the cards. */
  lemma SwapKeepsCards(u: seq<Card>, i: nat, j: nat)
    requires i < j < |u|
    ensures multiset(Swapped(u, i, j)) == multiset(u)
  {
    var v := u[i := u[j]];
    assert multiset(v) == multiset(u) - multiset{u[i]} + multiset{u[j]};
    assert multiset(v[j := u[i]]) == multiset(v) - multiset{v[j]} + multiset{u[i]};
  }

  /** Two exchanges in a row keep the cards. */
  lemma TwoSwapsKeepCards(u: seq<Card>, i: nat, j: nat, k: nat, l: nat)
    requires i < j < |u| && k < l < |u|
    ensures multiset(Swapped(Swapped(u, i, j), k, l)) == multiset(u)
  {
    SwapKeepsCards(u, i, j);
    SwapKeepsCards(Swapped(u, i, j), k, l);
  }

  /** Exchanging the first and fifth cards, then the second and fourth,
      does not change the straight flush found. */
  lemma HeartsReordered(cards: seq<Card>)
    requires |cards| >= 5
    ensures StraightFlushLocator.BestStraightFlush(cards) ==
      StraightFlushLocator.BestStraightFlush(Swapped(Swapped(cards, 0, 4), 1, 3))
  {
    TwoSwapsKeepCards(cards, 0, 4, 1, 3);
    StraightFlushLocator.StraightFlushReordered(cards, Swapped(Swapped(cards, 0, 4), 1, 3));
  }

  /** The straight flush of "Kh Qh Jh Th 9h 2c". */
  lemma StraightFlushOfDescending(desc: seq<Card>)
    requires desc == [hK, hQ, hJ, hT, h9, c2]
    ensures StraightFlushLocator.BestStraightFlush(desc) ==
      Ok(Some(Hand(StraightFlush, {h9, hT, hJ, hQ, hK}, [King])))
  {
    BestSuitedOfSix(desc);
    FiveHearts();
  }

  /** The five hearts are five different cards, in any order. */
  lemma FiveHearts()
    ensures {hK, hQ, hJ, hT, h9} == {h9, hT, hJ, hQ, hK}
    ensures |{hK, hQ, hJ, hT, h9}| == 5
  {
  }

  /** The two exchanges put "9h Th Jh Qh Kh 2c" in descending order. */
  lemma HeartsSwapped(cards: seq<Card>)
    requires cards == [h9, hT, hJ, hQ, hK, c2]
    ensures Swapped(Swapped(cards, 0, 4), 1, 3) == [hK, hQ, hJ, hT, h9, c2]
  {
  }

  /** "9h Th Jh Qh Kh 2c": the five hearts run from King down to Nine, so
      the locator finds the straight flush of exactly those cards, ranked by
      the King. The input order does not matter for this locator, so the
      descending order of the same cards is worked out instead. */
  lemma StraightFlushOfHearts(cards: seq<Card>)
    requires cards == [h9, hT, hJ, hQ, hK, c2]
    ensures StraightFlushLocator.BestStraightFlush(cards) ==
      Ok(Some(Hand(StraightFlush, {h9, hT, hJ, hQ, hK}, [King])))
  {
    HeartsReordered(cards);
    HeartsSwapped(cards);
    StraightFlushOfDescending([hK, hQ, hJ, hT, h9, c2]);
  }

  /** "As Kd Qc Jh 9s 9d" is already in descending rank order. */
  lemma TieSort(n1: Card, n2: Card)
    requires n1.rank == Nine && n2.rank == Nine
    ensures ByRank([sA, dK, cQ, hJ, n1, n2]) == [sA, dK, cQ, hJ, n1, n2]
  {
    var o := ByRankDescending;
    SortedCons(o, n2, []);
    SortedCons(o, n1, [n2]);
    SortedCons(o, hJ, [n1, n2]);
    SortedCons(o, cQ, [hJ, n1, n2]);
    SortedCons(o, dK, [cQ, hJ, n1, n2]);
    SortedCons(o, sA, [dK, cQ, hJ, n1, n2]);
  }

  /** The High Card hand of "As Kd Qc Jh" and two nines keeps the nine
      that comes first. */
  lemma HighCardOfTie(cards: seq<Card>, n1: Card, n2: Card)
    requires n1.rank == Nine && n2.rank == Nine
    requires cards == [sA, dK, cQ, hJ, n1, n2]
    ensures HighCardLocator.BestHighCard(cards) ==
      Ok(Some(Hand(HighCard, {sA, dK, cQ, hJ, n1}, [Ace, King, Queen, Jack, Nine])))
  {
    TieSort(n1, n2);
    var best := [sA, dK, cQ, hJ, n1];
    assert ByRank(cards)[..5] == best;
    RanksOfFive(sA, dK, cQ, hJ, n1);
    CardSetOfFive(sA, dK, cQ, hJ, n1);
    var h := Hand(HighCard, {sA, dK, cQ, hJ, n1}, [Ace, King, Queen, Jack, Nine]);
    assert NewHand(HighCard, best, RanksOf(best)) == Ok(h);
  }

  /** "As Kd Qc Jh 9s 9d" and "As Kd Qc Jh 9d 9s" are the same cards, yet
      the High Card hands differ: of the two nines the working copy keeps
      the one that came first. The hands agree on category and ranks only. */
  lemma HighCardTieOrder(a: seq<Card>, b: seq<Card>)
    requires a == [sA, dK, cQ, hJ, s9, d9] && b == [sA, dK, cQ, hJ, d9, s9]
    ensures multiset(a) == multiset(b)
    ensures HighCardLocator.BestHighCard(a) ==
      Ok(Some(Hand(HighCard, {sA, dK, cQ, hJ, s9}, [Ace, King, Queen, Jack, Nine])))
    ensures HighCardLocator.BestHighCard(b) ==
      Ok(Some(Hand(HighCard, {sA, dK, cQ, hJ, d9}, [Ace, King, Queen, Jack, Nine])))
    ensures HighCardLocator.BestHighCard(a) != HighCardLocator.BestHighCard(b)
  {
    TieSwapped(a, b);
    HighCardOfTie(a, s9, d9);
    HighCardOfTie(b, d9, s9);
    assert s9 !in {sA, dK, cQ, hJ, d9};
  }

  /** The two orders differ by exchanging the nines. */
  lemma TieSwapped(a: seq<Card>, b: seq<Card>)
    requires a == [sA, dK, cQ, hJ, s9, d9] && b == [sA, dK, cQ, hJ, d9, s9]
    ensures multiset(a) == multiset(b)
  {
    SwapKeepsCards(a, 4, 5);
    assert Swapped(a, 4, 5) == b;
  }
}
