/** Seat.java: the sealable state of one seat at a table. */
module Seats {
  import opened Outcomes
  import opened Cards

  /** `Player` is only ever compared by reference; it carries no state here. */
  class Player {
    constructor()
    {
    }
  }

  /** Everything a seat stores except its seal flag. */
  datatype SeatState = SeatState(
    player: Player?,
    stake: int,
    bet: int,
    holeCards: seq<Card>,
    visibleCards: seq<Card>,
    cardsVisible: bool)

  /** The state of an empty seat: no player, no chips, no cards, hidden. */
  const EmptySeat := SeatState(null, 0, 0, [], [], false)

  /** A seat: the fields of the Java class. The two card lists are the
      lists handed out by `getHoleCards` and `getVisibleCards`; writing them
      is modelled by `SetHoleCards` and `SetVisibleCards`. */
  class Seat {
    var player: Player?
    var stake: int
    var bet: int
    var holeCards: seq<Card>
    var visibleCards: seq<Card>
    var cardsVisible: bool
    var sealed: bool

    /** The stored state, seal flag aside. */
    function State(): SeatState
      reads this
    {
      SeatState(player, stake, bet, holeCards, visibleCards, cardsVisible)
    }

    /** `new Seat()`: an empty, unsealed seat. */
    constructor()
      ensures State() == EmptySeat && !sealed
    {
      player := null;
      stake := 0;
      bet := 0;
      holeCards := [];
      visibleCards := [];
      cardsVisible := false;
      sealed := false;
    }

    /** `new Seat(seat)`: an unsealed copy sharing the player reference and
        holding copies of the card lists. */
    constructor Copy(seat: Seat)
      ensures State() == seat.State() && !sealed
    {
      player := seat.player;
      stake := seat.stake;
      bet := seat.bet;
      cardsVisible := seat.cardsVisible;
      holeCards := seat.holeCards;
      visibleCards := seat.visibleCards;
      sealed := false;
    }

    /** `setBet`: refused when sealed or negative; otherwise only the bet
        changes. */
    method SetBet(bet: int) returns (o: Outcome)
      modifies this
      ensures old(sealed) ==> o == Failed(UnsupportedOperation)
      ensures !old(sealed) && bet < 0 ==> o == Failed(IllegalArgument)
      ensures !old(sealed) && bet >= 0 ==> o == Done
      ensures o == Done ==> State() == old(State()).(bet := bet)
      ensures o != Done ==> State() == old(State())
      ensures sealed == old(sealed)
    {
      if sealed {
        return Failed(UnsupportedOperation);
      }
      if bet < 0 {
        return Failed(IllegalArgument);
      }
      this.bet := bet;
      return Done;
    }

    /** `setPlayer`: refused when sealed; otherwise only the player
        changes (`null` empties the seat). */
    method SetPlayer(player: Player?) returns (o: Outcome)
      modifies this
      ensures old(sealed) ==> o == Failed(UnsupportedOperation)
      ensures !old(sealed) ==> o == Done && State() == old(State()).(player := player)
      ensures old(sealed) ==> State() == old(State())
      ensures sealed == old(sealed)
    {
      if sealed {
        return Failed(UnsupportedOperation);
      }
      this.player := player;
      return Done;
    }

    /** `setStake`: refused when sealed; the negativity test looks at the
        bet, not at the new stake, so a negative stake is stored. */
    method SetStake(stake: int) returns (o: Outcome)
      modifies this
      ensures old(sealed) ==> o == Failed(UnsupportedOperation)
      ensures !old(sealed) && old(bet) < 0 ==> o == Failed(IllegalArgument)
      ensures !old(sealed) && old(bet) >= 0 ==> o == Done
      ensures o == Done ==> State() == old(State()).(stake := stake)
      ensures o != Done ==> State() == old(State())
      ensures sealed == old(sealed)
    {
      if sealed {
        return Failed(UnsupportedOperation);
      }
      if bet < 0 {
        return Failed(IllegalArgument);
      }
      this.stake := stake;
      return Done;
    }

    /** `setCardsVisible`: refused when sealed; otherwise only the flag
        changes. */
    method SetCardsVisible(cardsVisible: bool) returns (o: Outcome)
      modifies this
      ensures old(sealed) ==> o == Failed(UnsupportedOperation)
      ensures !old(sealed) ==> o == Done && State() == old(State()).(cardsVisible := cardsVisible)
      ensures old(sealed) ==> State() == old(State())
      ensures sealed == old(sealed)
    {
      if sealed {
        return Failed(UnsupportedOperation);
      }
      this.cardsVisible := cardsVisible;
      return Done;
    }

    /** Replacing the contents of the hole-card list: possible until the
        seal makes the list unmodifiable. */
    method SetHoleCards(cards: seq<Card>) returns (o: Outcome)
      modifies this
      ensures old(sealed) ==> o == Failed(UnsupportedOperation)
      ensures !old(sealed) ==> o == Done && State() == old(State()).(holeCards := cards)
      ensures old(sealed) ==> State() == old(State())
      ensures sealed == old(sealed)
    {
      if sealed {
        return Failed(UnsupportedOperation);
      }
      holeCards := cards;
      return Done;
    }

    /** Replacing the contents of the visible-card list: possible until the
        seal makes the list unmodifiable. */
    method SetVisibleCards(cards: seq<Card>) returns (o: Outcome)
      modifies this
      ensures old(sealed) ==> o == Failed(UnsupportedOperation)
      ensures !old(sealed) ==> o == Done && State() == old(State()).(visibleCards := cards)
      ensures old(sealed) ==> State() == old(State())
      ensures sealed == old(sealed)
    {
      if sealed {
        return Failed(UnsupportedOperation);
      }
      visibleCards := cards;
      return Done;
    }

    /** `seal`: sets the flag and freezes copies of both card lists; the
        stored state is unchanged and a second call keeps the seat sealed. */
    method Seal()
      modifies this
      ensures sealed && State() == old(State())
    {
      sealed := true;
      // The card lists become unmodifiable views of copies; a sequence
      // is already a value, so only the flag changes.
    }
  }

  // The list helpers below (StatesOf, AllSealed, Distinct, CopyAll,
  // SealAll, StatesAre) have twins in module Pots: the element classes
  // differ and the language has no common supertype for them here.

  /** The states of a list of seats, position by position. */
  function StatesOf(ss: seq<Seat>): (r: seq<SeatState>)
    reads ss
    ensures |r| == |ss| && forall i :: 0 <= i < |ss| ==> r[i] == ss[i].State()
  {
    if ss == [] then [] else StatesOf(ss[..|ss| - 1]) + [ss[|ss| - 1].State()]
  }

  /** Every seat of the list is sealed. */
  predicate AllSealed(ss: seq<Seat>)
    reads ss
  {
    forall i :: 0 <= i < |ss| ==> ss[i].sealed
  }

  /** No seat appears twice in the list. */
  predicate Distinct(ss: seq<Seat>)
  {
    forall a, b :: 0 <= a < b < |ss| ==> ss[a] != ss[b]
  }

  /** The copy loop of `new Table(table)`: a new unsealed copy of each
      element, in order. */
  method CopyAll(ss: seq<Seat>) returns (r: seq<Seat>)
    ensures |r| == |ss| && Distinct(r)
    ensures forall i :: 0 <= i < |r| ==> r[i].State() == ss[i].State()
    ensures forall i :: 0 <= i < |r| ==> fresh(r[i]) && !r[i].sealed
  {
    r := [];
    for i := 0 to |ss|
      invariant |r| == i && Distinct(r)
      invariant forall k :: 0 <= k < i ==> fresh(r[k]) && !r[k].sealed && r[k].State() == ss[k].State()
    {
      var copy := new Seat.Copy(ss[i]);
      r := r + [copy];
    }
  }

  /** The sealing loop of `Table.seal`: every element ends sealed with its
      state unchanged. */
  method SealAll(ss: seq<Seat>)
    modifies ss
    ensures AllSealed(ss)
    ensures forall i :: 0 <= i < |ss| ==> ss[i].State() == old(ss[i].State())
  {
    for i := 0 to |ss|
      invariant forall k :: 0 <= k < i ==> ss[k].sealed
      invariant forall k :: 0 <= k < |ss| ==> ss[k].State() == old(ss[k].State())
    {
      ss[i].Seal();
    }
  }

  /** Elements whose states are, position by position, `states` have
      exactly those states. */
  lemma {:induction false} StatesAre(ss: seq<Seat>, states: seq<SeatState>)
    requires |ss| == |states| && forall i :: 0 <= i < |ss| ==> ss[i].State() == states[i]
    ensures StatesOf(ss) == states
  {
  }
}
