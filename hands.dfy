/** Hand categories and the `Hand` value (HandCategory.java, Hand.java). */
module Hands {
  import opened Outcomes
  import opened Ranks
  import opened Suits
  import opened Cards

  /** The nine categories from weakest to strongest; the three-of-a-kind
      value keeps the spelling of the Java constant. */
  datatype HandCategory = HighCard | Pair | TwoPair | TreeOfAKind | Straight
                        | Flush | FullHouse | FourOfAKind | StraightFlush

  /** The declaration position of a category, weakest first. */
  function Strength(k: HandCategory): (v: nat)
    ensures v <= 8
    ensures k == HighCard <==> v == 0
    ensures k == StraightFlush <==> v == 8
  {
    match k
    case HighCard => 0
    case Pair => 1
    case TwoPair => 2
    case TreeOfAKind => 3
    case Straight => 4
    case Flush => 5
    case FullHouse => 6
    case FourOfAKind => 7
    case StraightFlush => 8
  }

  /** Distinct categories have distinct positions. */
  lemma StrengthInjective(a: HandCategory, b: HandCategory)
    ensures Strength(a) == Strength(b) <==> a == b
  {
  }

  /** A category, the set of its cards and the tie-break ranks, most
      significant first. Datatype equality is `Hand.equals`: same category,
      same card set, same rank list. */
  datatype Hand = Hand(category: HandCategory, cards: set<Card>, ranks: seq<Rank>)

  /** The set of cards in a list. */
  function CardSet(cs: seq<Card>): set<Card>
  {
    set c | c in cs
  }

  /** The `Hand` constructor: it insists on a collection of exactly five
      elements and then keeps only their set, so duplicates collapse. It does
      not check that the cards form the category. */
  function NewHand(category: HandCategory, cards: seq<Card>, ranks: seq<Rank>): (r: Result<Hand>)
    ensures r.Err? <==> |cards| != 5
    ensures r.Err? ==> r.error == IllegalArgument
    ensures r.Ok? ==> r.value.category == category && r.value.ranks == ranks
    ensures r.Ok? ==> forall c :: c in r.value.cards <==> c in cards
  {
    if |cards| != 5 then Err(IllegalArgument)
    else Ok(Hand(category, CardSet(cards), ranks))
  }

  /** The stored set has at most five cards, exactly five iff the five
      input cards are pairwise distinct. */
  lemma {:induction false} HandCardCount(category: HandCategory, cards: seq<Card>, ranks: seq<Rank>)
    requires |cards| == 5
    ensures |NewHand(category, cards, ranks).value.cards| <= 5
    ensures |NewHand(category, cards, ranks).value.cards| == 5
        <==> forall i, j :: 0 <= i < j < 5 ==> cards[i] != cards[j]
  {
    SetSizeBound(cards);
    if forall i, j :: 0 <= i < j < 5 ==> cards[i] != cards[j] {
      DistinctSetSize(cards);
    } else {
      var i, j :| 0 <= i < j < 5 && cards[i] == cards[j];
      DuplicateSetSize(cards, i, j);
    }
  }

  /** A list has at least as many elements as its set. */
  lemma {:induction false} SetSizeBound(cs: seq<Card>)
    ensures |CardSet(cs)| <= |cs|
  {
    if cs != [] {
      SetSizeBound(cs[1..]);
      assert CardSet(cs) == {cs[0]} + CardSet(cs[1..]);
    }
  }

  /** A list of pairwise distinct cards has as many elements as its set. */
  lemma {:induction false} DistinctSetSize(cs: seq<Card>)
    requires forall i, j :: 0 <= i < j < |cs| ==> cs[i] != cs[j]
    ensures |CardSet(cs)| == |cs|
  {
    if cs != [] {
      DistinctSetSize(cs[1..]);
      assert CardSet(cs) == {cs[0]} + CardSet(cs[1..]);
      assert cs[0] !in CardSet(cs[1..]);
    }
  }

  /** A list with a repeated card has more elements than its set. */
  lemma {:induction false} DuplicateSetSize(cs: seq<Card>, i: nat, j: nat)
    requires i < j < |cs| && cs[i] == cs[j]
    ensures |CardSet(cs)| < |cs|
  {
    var rest := cs[..j] + cs[j + 1..];
    assert CardSet(cs) == CardSet(rest) by {
      assert cs == cs[..j] + [cs[j]] + cs[j + 1..];
      assert cs[j] == rest[i];
    }
    SetSizeBound(rest);
  }

  /** Hands built from two orderings of the same cards are equal: the
      constructor forgets the order. */
  lemma NewHandIgnoresOrder(category: HandCategory, a: seq<Card>, b: seq<Card>, ranks: seq<Rank>)
    requires |a| == 5 && multiset(a) == multiset(b)
    ensures NewHand(category, a, ranks) == NewHand(category, b, ranks)
  {
    assert |b| == |multiset(b)| == |multiset(a)| == 5;
    assert forall c :: c in a <==> c in multiset(a);
    assert forall c :: c in b <==> c in multiset(b);
    assert CardSet(a) == CardSet(b);
  }

  /** Two constructed hands are equal iff they agree on category, card set
      and rank list. */
  lemma NewHandEquality(k1: HandCategory, a: seq<Card>, r1: seq<Rank>, k2: HandCategory, b: seq<Card>, r2: seq<Rank>)
    requires |a| == 5 && |b| == 5
    ensures NewHand(k1, a, r1) == NewHand(k2, b, r2)
        <==> k1 == k2 && CardSet(a) == CardSet(b) && r1 == r2
  {
  }

  /** Repeating a card is accepted, and leaves fewer than five stored cards. */
  lemma DuplicatesCollapse()
    ensures var h := NewHand(Pair, [Card(Spades, Ace), Card(Spades, Ace), Card(Clubs, Two), Card(Clubs, Three), Card(Clubs, Four)], [Ace]);
            h.Ok? && |h.value.cards| == 4
  {
    var cs := [Card(Spades, Ace), Card(Spades, Ace), Card(Clubs, Two), Card(Clubs, Three), Card(Clubs, Four)];
    assert CardSet(cs) == {Card(Spades, Ace), Card(Clubs, Two), Card(Clubs, Three), Card(Clubs, Four)};
  }

  /** Two locator results agree on everything but the choice among cards of
      equal rank: the same error, both no hand, or hands of the same
      category and tie-break ranks. */
  predicate SameGrade(a: Result<Option<Hand>>, b: Result<Option<Hand>>)
  {
    match a
    case Err(e) => b == Err(e)
    case Ok(None) => b == Ok(None)
    case Ok(Some(h)) =>
      b.Ok? && b.value.Some? && b.value.value.category == h.category && b.value.value.ranks == h.ranks
  }
}
