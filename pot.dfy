/** Pot.java: the sealable state of one pot of chips. */
module Pots {
  import opened Outcomes

  /** Everything a pot stores except its seal flag. */
  datatype PotState = PotState(amount: int, seatNumbers: seq<int>)

  /** A pot: its chips and the list handed out by `getSeatNumbers`, whose
      writes are modelled by `SetSeatNumbers`. */
  class Pot {
    var amount: int
    var seatNumbers: seq<int>
    var sealed: bool

    /** The stored state, seal flag aside. */
    function State(): PotState
      reads this
    {
      PotState(amount, seatNumbers)
    }

    /** `new Pot()`: no chips, no seats, unsealed. */
    constructor()
      ensures State() == PotState(0, []) && !sealed
    {
      amount := 0;
      seatNumbers := [];
      sealed := false;
    }

    /** `new Pot(pot)`: an unsealed copy with a copy of the seat list. */
    constructor Copy(pot: Pot)
      ensures State() == pot.State() && !sealed
    {
      amount := pot.amount;
      seatNumbers := pot.seatNumbers;
      sealed := false;
    }

    /** `setAmount`: refused when sealed or negative; otherwise only the
        amount changes. */
    method SetAmount(amount: int) returns (o: Outcome)
      modifies this
      ensures old(sealed) ==> o == Failed(UnsupportedOperation)
      ensures !old(sealed) && amount < 0 ==> o == Failed(IllegalArgument)
      ensures !old(sealed) && amount >= 0 ==> o == Done
      ensures o == Done ==> State() == old(State()).(amount := amount)
      ensures o != Done ==> State() == old(State())
      ensures sealed == old(sealed)
    {
      if sealed {
        return Failed(UnsupportedOperation);
      }
      if amount < 0 {
        return Failed(IllegalArgument);
      }
      this.amount := amount;
      return Done;
    }

    /** Replacing the contents of the seat-number list: possible until the
        seal makes the list unmodifiable. */
    method SetSeatNumbers(seats: seq<int>) returns (o: Outcome)
      modifies this
      ensures old(sealed) ==> o == Failed(UnsupportedOperation)
      ensures !old(sealed) ==> o == Done && State() == old(State()).(seatNumbers := seats)
      ensures old(sealed) ==> State() == old(State())
      ensures sealed == old(sealed)
    {
      if sealed {
        return Failed(UnsupportedOperation);
      }
      seatNumbers := seats;
      return Done;
    }

    /** `seal`: the first call sets the flag and freezes a copy of the seat
        list; later calls do nothing. The state never changes. */
    method Seal()
      modifies this
      ensures sealed && State() == old(State())
      ensures old(sealed) ==> unchanged(this)
    {
      if !sealed {
        sealed := true;
        // The seat list becomes an unmodifiable view of a copy; a
        // sequence is already a value, so only the flag changes.
      }
    }
  }

  // The list helpers below are the twins of those in module Seats, over
  // pots instead of seats.

  /** The states of a list of pots, position by position. */
  function StatesOf(ps: seq<Pot>): (r: seq<PotState>)
    reads ps
    ensures |r| == |ps| && forall i :: 0 <= i < |ps| ==> r[i] == ps[i].State()
  {
    if ps == [] then [] else StatesOf(ps[..|ps| - 1]) + [ps[|ps| - 1].State()]
  }

  /** Every pot of the list is sealed. */
  predicate AllSealed(ps: seq<Pot>)
    reads ps
  {
    forall i :: 0 <= i < |ps| ==> ps[i].sealed
  }

  /** No pot appears twice in the list. */
  predicate Distinct(ps: seq<Pot>)
  {
    forall a, b :: 0 <= a < b < |ps| ==> ps[a] != ps[b]
  }

  /** The copy loop of `new Table(table)`: a new unsealed copy of each
      element, in order. */
  method CopyAll(ps: seq<Pot>) returns (r: seq<Pot>)
    ensures |r| == |ps| && Distinct(r)
    ensures forall i :: 0 <= i < |r| ==> r[i].State() == ps[i].State()
    ensures forall i :: 0 <= i < |r| ==> fresh(r[i]) && !r[i].sealed
  {
    r := [];
    for i := 0 to |ps|
      invariant |r| == i && Distinct(r)
      invariant forall k :: 0 <= k < i ==> fresh(r[k]) && !r[k].sealed && r[k].State() == ps[k].State()
    {
      var copy := new Pot.Copy(ps[i]);
      r := r + [copy];
    }
  }

  /** The sealing loop of `Table.seal`: every element ends sealed with its
      state unchanged. */
  method SealAll(ps: seq<Pot>)
    modifies ps
    ensures AllSealed(ps)
    ensures forall i :: 0 <= i < |ps| ==> ps[i].State() == old(ps[i].State())
  {
    for i := 0 to |ps|
      invariant forall k :: 0 <= k < i ==> ps[k].sealed
      invariant forall k :: 0 <= k < |ps| ==> ps[k].State() == old(ps[k].State())
    {
      ps[i].Seal();
    }
  }

  /** Elements whose states are, position by position, `states` have
      exactly those states. */
  lemma {:induction false} StatesAre(ps: seq<Pot>, states: seq<PotState>)
    requires |ps| == |states| && forall i :: 0 <= i < |ps| ==> ps[i].State() == states[i]
    ensures StatesOf(ps) == states
  {
  }
}
