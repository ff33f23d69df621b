/** CombinedLocator.java: the first hand found by a sequence of locators. */
module CombinedLocator {
  import opened Outcomes
  import opened Cards
  import opened Hands
  import HighCardLocator
  import PairLocator
  import TwoPairLocator
  import FourOfAKindLocator
  import FullHouseLocator
  import StraightLocator
  import FlushLocator
  import StraightFlushLocator

  /** The locators of this model; a Java `HandLocator` is one of them. */
  datatype Locator =
    | HighCardFinder | PairFinder | TwoPairFinder | FourOfAKindFinder
    | FullHouseFinder | StraightFinder | FlushFinder | StraightFlushFinder

  /** What one locator returns for the cards. */
  function Locate(l: Locator, cards: seq<Card>): Result<Option<Hand>>
  {
    match l
    case HighCardFinder => HighCardLocator.BestHighCard(cards)
    case PairFinder => PairLocator.BestPair(cards)
    case TwoPairFinder => TwoPairLocator.BestTwoPair(cards)
    case FourOfAKindFinder => FourOfAKindLocator.BestFour(cards)
    case FullHouseFinder => FullHouseLocator.BestFullHouse(cards)
    case StraightFinder => StraightLocator.BestStraight(cards)
    case FlushFinder => FlushLocator.BestFlush(cards)
    case StraightFlushFinder => StraightFlushLocator.BestStraightFlush(cards)
  }

  /** Calls the locator's `findBestHand`. */
  method Run(l: Locator, cards: seq<Card>) returns (r: Result<Option<Hand>>)
    ensures r == Locate(l, cards)
  {
    match l
    case HighCardFinder => r := HighCardLocator.FindBestHand(cards);
    case PairFinder => r := PairLocator.FindBestHand(cards);
    case TwoPairFinder => r := TwoPairLocator.FindBestHand(cards);
    case FourOfAKindFinder => r := FourOfAKindLocator.FindBestHand(cards);
    case FullHouseFinder => r := FullHouseLocator.FindBestHand(cards);
    case StraightFinder => r := StraightLocator.FindBestHand(cards);
    case FlushFinder => r := FlushLocator.FindBestHand(cards);
    case StraightFlushFinder => r := StraightFlushLocator.FindBestHand(cards);
  }

  /** The locators in priority order: the first hand found wins, and an
      exception from a locator ends the search. */
  function FirstFound(ls: seq<Locator>, cards: seq<Card>): (r: Result<Option<Hand>>)
    ensures (forall k :: 0 <= k < |ls| ==> Locate(ls[k], cards) == Ok(None)) ==> r == Ok(None)
    ensures r != Ok(None) ==> exists k :: 0 <= k < |ls| && Locate(ls[k], cards) == r
  {
    if ls == [] then Ok(None)
    else
      var r := Locate(ls[0], cards);
      if r == Ok(None) then FirstFound(ls[1..], cards) else r
  }

  /** The locator that decides: every locator before position `i` finds
      nothing, and the result is either that of locator `i`, which found a
      hand or threw, or no hand when `i` is past the end. */
  lemma {:induction false} Decider(ls: seq<Locator>, cards: seq<Card>) returns (i: nat)
    ensures i <= |ls|
    ensures forall k :: 0 <= k < i ==> Locate(ls[k], cards) == Ok(None)
    ensures i == |ls| ==> FirstFound(ls, cards) == Ok(None)
    ensures i < |ls| ==> Locate(ls[i], cards) != Ok(None) && FirstFound(ls, cards) == Locate(ls[i], cards)
  {
    if ls == [] {
      i := 0;
    } else if Locate(ls[0], cards) != Ok(None) {
      i := 0;
    } else {
      var j := Decider(ls[1..], cards);
      i := j + 1;
      forall k | 0 <= k < i ensures Locate(ls[k], cards) == Ok(None) {
        if k > 0 {
          assert ls[k] == ls[1..][k - 1];
        }
      }
    }
  }

  /** No hand comes back exactly when every locator finds nothing; an empty
      sequence always gives no hand. */
  lemma NoneFound(ls: seq<Locator>, cards: seq<Card>)
    ensures FirstFound(ls, cards) == Ok(None) ==> forall k :: 0 <= k < |ls| ==> Locate(ls[k], cards) == Ok(None)
    ensures (forall k :: 0 <= k < |ls| ==> Locate(ls[k], cards) == Ok(None)) ==> FirstFound(ls, cards) == Ok(None)
  {
    var i := Decider(ls, cards);
  }

  /** A result other than "no hand" is one locator's own result, so every
      hand and every exception comes from a called locator. */
  lemma FoundByOne(ls: seq<Locator>, cards: seq<Card>) returns (i: nat)
    requires FirstFound(ls, cards) != Ok(None)
    ensures i < |ls| && FirstFound(ls, cards) == Locate(ls[i], cards)
    ensures forall k :: 0 <= k < i ==> Locate(ls[k], cards) == Ok(None)
  {
    i := Decider(ls, cards);
  }

  /** Locators after the first that finds a hand are not consulted: putting
      more locators behind a sequence changes the result only when the
      sequence found nothing. */
  lemma {:induction false} EarlierWins(first: seq<Locator>, later: seq<Locator>, cards: seq<Card>)
    ensures FirstFound(first, cards) != Ok(None) ==> FirstFound(first + later, cards) == FirstFound(first, cards)
    ensures FirstFound(first, cards) == Ok(None) ==> FirstFound(first + later, cards) == FirstFound(later, cards)
  {
    if first != [] {
      assert (first + later)[0] == first[0];
      assert (first + later)[1..] == first[1..] + later;
      EarlierWins(first[1..], later, cards);
    } else {
      assert first + later == later;
    }
  }

  /** Every locator gives the same outcome for every order of the same
      cards, up to which of several cards of equal rank a hand holds. */
  lemma LocateReordered(l: Locator, p: seq<Card>, q: seq<Card>)
    requires multiset(p) == multiset(q)
    ensures SameGrade(Locate(l, p), Locate(l, q))
  {
    match l
    case HighCardFinder => HighCardLocator.HighCardReordered(p, q);
    case PairFinder => PairLocator.PairReordered(p, q);
    case TwoPairFinder => TwoPairLocator.TwoPairReordered(p, q);
    case FourOfAKindFinder => FourOfAKindLocator.FourReordered(p, q);
    case FullHouseFinder => FullHouseLocator.FullHouseReordered(p, q);
    case StraightFinder => StraightLocator.StraightReordered(p, q);
    case FlushFinder => FlushLocator.FlushReordered(p, q);
    case StraightFlushFinder => StraightFlushLocator.StraightFlushReordered(p, q);
  }

  /** The same holds for a sequence of locators: the same locator decides
      for both orders, with the same outcome. */
  lemma {:induction false} FirstFoundReordered(ls: seq<Locator>, p: seq<Card>, q: seq<Card>)
    requires multiset(p) == multiset(q)
    ensures SameGrade(FirstFound(ls, p), FirstFound(ls, q))
  {
    if ls != [] {
      LocateReordered(ls[0], p, q);
      if Locate(ls[0], p) == Ok(None) {
        FirstFoundReordered(ls[1..], p, q);
      }
    }
  }

  /** `CombinedLocator`: a fixed copy of the locator sequence. */
  class CombinedLocator {
    const locators: seq<Locator>

    /** Copies the sequence; being a value, later changes to the caller's
        list cannot reach it. */
    constructor(sequence: seq<Locator>)
      ensures locators == sequence
    {
      locators := sequence;
    }

    /** `findBestHand`: ask each locator in turn and return the first hand
        found; an exception from a locator propagates. */
    method FindBestHand(cards: seq<Card>) returns (r: Result<Option<Hand>>)
      ensures r == FirstFound(locators, cards)
    {
      for i := 0 to |locators|
        invariant FirstFound(locators[i..], cards) == FirstFound(locators, cards)
      {
        assert locators[i..][1..] == locators[i + 1..];
        var hand := Run(locators[i], cards);
        if hand != Ok(None) {
          return hand;
        }
      }
      return Ok(None);
    }
  }
}
