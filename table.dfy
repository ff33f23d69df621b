/** Table.java: the sealable state of a poker table. */
module Tables {
  import opened Outcomes
  import Seats
  import Pots

  /** Everything a table stores except the seal flags: the states of its
      seats and pots and the four seat numbers. */
  datatype TableState = TableState(
    seats: seq<Seats.SeatState>,
    pots: seq<Pots.PotState>,
    dealerSeatNr: int,
    smallBlindSeatNr: int,
    bigBlindSeatNr: int,
    actingSeatNr: int)

  /** The state of `new Table(n)`: `n` empty seats, no pots, and the seat
      numbers at Java's default of 0. */
  function EmptyTable(n: nat): TableState
  {
    TableState(seq(n, _ => Seats.EmptySeat), [], 0, 0, 0, 0)
  }

  /** No seat holds a negative bet. A new seat's bet is 0 and `setBet`
      refuses a negative one, so every table built through the seats'
      setters keeps this. */
  predicate BetsValid(t: TableState)
  {
    forall i :: 0 <= i < |t.seats| ==> t.seats[i].bet >= 0
  }

  /** A new table holds no negative bet. */
  lemma EmptyTableBetsValid(n: nat)
    ensures BetsValid(EmptyTable(n))
  {
  }

  /** A table. The seat list never changes after construction; the pot
      list is the one handed out by `getPots`, whose writes are modelled by
      `SetPots`. */
  class Table {
    const seats: seq<Seats.Seat>
    var pots: seq<Pots.Pot>
    var dealerSeatNr: int
    var smallBlindSeatNr: int
    var bigBlindSeatNr: int
    var actingSeatNr: int
    var sealed: bool

    /** The stored state, seal flags aside. */
    function State(): TableState
      reads this, seats, pots
    {
      TableState(Seats.StatesOf(seats), Pots.StatesOf(pots),
        dealerSeatNr, smallBlindSeatNr, bigBlindSeatNr, actingSeatNr)
    }

    /** The table, each of its seats and each of its pots are sealed. */
    predicate FullySealed()
      reads this, seats, pots
    {
      sealed && Seats.AllSealed(seats) && Pots.AllSealed(pots)
    }

    /** `new Table(n)` for a non-negative `n`: `n` new empty seats. */
    constructor(numberOfSeats: nat)
      ensures State() == EmptyTable(numberOfSeats) && !sealed
      ensures Seats.Distinct(seats) && forall i :: 0 <= i < |seats| ==> fresh(seats[i]) && !seats[i].sealed
    {
      var seatsTmp: seq<Seats.Seat> := [];
      for i := 0 to numberOfSeats
        invariant |seatsTmp| == i && Seats.Distinct(seatsTmp)
        invariant forall k :: 0 <= k < i ==> fresh(seatsTmp[k]) && !seatsTmp[k].sealed
        invariant forall k :: 0 <= k < i ==> seatsTmp[k].State() == Seats.EmptySeat
      {
        var seat := new Seats.Seat();
        seatsTmp := seatsTmp + [seat];
      }
      seats := seatsTmp;
      pots := [];
      dealerSeatNr := 0;
      smallBlindSeatNr := 0;
      bigBlindSeatNr := 0;
      actingSeatNr := 0;
      sealed := false;
    }

    /** `new Table(table)`: an unsealed deep copy, with new unsealed copies
        of every seat and every pot and the same seat numbers. */
    constructor Copy(table: Table)
      ensures |seats| == |table.seats| && forall i :: 0 <= i < |seats| ==> seats[i].State() == table.seats[i].State()
      ensures |pots| == |table.pots| && forall i :: 0 <= i < |pots| ==> pots[i].State() == table.pots[i].State()
      ensures dealerSeatNr == table.dealerSeatNr && smallBlindSeatNr == table.smallBlindSeatNr
      ensures bigBlindSeatNr == table.bigBlindSeatNr && actingSeatNr == table.actingSeatNr && !sealed
      ensures Seats.Distinct(seats) && forall i :: 0 <= i < |seats| ==> fresh(seats[i]) && !seats[i].sealed
      ensures Pots.Distinct(pots) && forall i :: 0 <= i < |pots| ==> fresh(pots[i]) && !pots[i].sealed
    {
      var seatsCopy := Seats.CopyAll(table.seats);
      var potsCopy := Pots.CopyAll(table.pots);
      seats := seatsCopy;
      pots := potsCopy;
      actingSeatNr := table.actingSeatNr;
      bigBlindSeatNr := table.bigBlindSeatNr;
      smallBlindSeatNr := table.smallBlindSeatNr;
      dealerSeatNr := table.dealerSeatNr;
      sealed := false;
    }

    /** `getSeatCount`. */
    function SeatCount(): (n: nat)
      ensures n == |State().seats|
    {
      |seats|
    }

    /** `getSeat`: the seat at a valid index, otherwise an error. */
    function GetSeat(seatNr: int): (r: Result<Seats.Seat>)
      ensures r.Ok? <==> 0 <= seatNr < |seats|
      ensures r.Ok? ==> r.value == seats[seatNr]
      ensures r.Err? ==> r.error == IllegalArgument
    {
      if seatNr < 0 || seatNr >= |seats| then Err(IllegalArgument) else Ok(seats[seatNr])
    }

    /** `setActingSeatNr`: refused when sealed and for any value outside
        the seat range, -1 included. */
    method SetActingSeatNr(seatNr: int) returns (o: Outcome)
      modifies this
      ensures old(sealed) ==> o == Failed(UnsupportedOperation)
      ensures !old(sealed) && !(0 <= seatNr < |seats|) ==> o == Failed(IllegalArgument)
      ensures !old(sealed) && 0 <= seatNr < |seats| ==> o == Done
      ensures o == Done ==> State() == old(State()).(actingSeatNr := seatNr)
      ensures o != Done ==> State() == old(State())
      ensures sealed == old(sealed) && pots == old(pots)
      ensures old(FullySealed()) ==> FullySealed()
    {
      if sealed {
        return Failed(UnsupportedOperation);
      }
      if seatNr < 0 || seatNr >= |seats| {
        return Failed(IllegalArgument);
      }
      actingSeatNr := seatNr;
      return Done;
    }

    /** `setDealerSeatNr`: refused when sealed; accepts -1 (no button) and
        any seat index. */
    method SetDealerSeatNr(seatNr: int) returns (o: Outcome)
      modifies this
      ensures old(sealed) ==> o == Failed(UnsupportedOperation)
      ensures !old(sealed) && !(-1 <= seatNr < |seats|) ==> o == Failed(IllegalArgument)
      ensures !old(sealed) && -1 <= seatNr < |seats| ==> o == Done
      ensures o == Done ==> State() == old(State()).(dealerSeatNr := seatNr)
      ensures o != Done ==> State() == old(State())
      ensures sealed == old(sealed) && pots == old(pots)
      ensures old(FullySealed()) ==> FullySealed()
    {
      if sealed {
        return Failed(UnsupportedOperation);
      }
      if seatNr != -1 {
        if seatNr < 0 || seatNr >= |seats| {
          return Failed(IllegalArgument);
        }
      }
      dealerSeatNr := seatNr;
      return Done;
    }

    /** `setBigBlindSeatNr`: refused when sealed and for any value outside
        the seat range, -1 included. */
    method SetBigBlindSeatNr(seatNr: int) returns (o: Outcome)
      modifies this
      ensures old(sealed) ==> o == Failed(UnsupportedOperation)
      ensures !old(sealed) && !(0 <= seatNr < |seats|) ==> o == Failed(IllegalArgument)
      ensures !old(sealed) && 0 <= seatNr < |seats| ==> o == Done
      ensures o == Done ==> State() == old(State()).(bigBlindSeatNr := seatNr)
      ensures o != Done ==> State() == old(State())
      ensures sealed == old(sealed) && pots == old(pots)
      ensures old(FullySealed()) ==> FullySealed()
    {
      if sealed {
        return Failed(UnsupportedOperation);
      }
      if seatNr < 0 || seatNr >= |seats| {
        return Failed(IllegalArgument);
      }
      bigBlindSeatNr := seatNr;
      return Done;
    }

    /** `setSmallBlindSeatNr`: refused when sealed and for any value
        outside the seat range, -1 included. */
    method SetSmallBlindSeatNr(seatNr: int) returns (o: Outcome)
      modifies this
      ensures old(sealed) ==> o == Failed(UnsupportedOperation)
      ensures !old(sealed) && !(0 <= seatNr < |seats|) ==> o == Failed(IllegalArgument)
      ensures !old(sealed) && 0 <= seatNr < |seats| ==> o == Done
      ensures o == Done ==> State() == old(State()).(smallBlindSeatNr := seatNr)
      ensures o != Done ==> State() == old(State())
      ensures sealed == old(sealed) && pots == old(pots)
      ensures old(FullySealed()) ==> FullySealed()
    {
      if sealed {
        return Failed(UnsupportedOperation);
      }
      if seatNr < 0 || seatNr >= |seats| {
        return Failed(IllegalArgument);
      }
      smallBlindSeatNr := seatNr;
      return Done;
    }

    /** Replacing the contents of the pot list: possible until the seal
        makes the list unmodifiable. */
    method SetPots(ps: seq<Pots.Pot>) returns (o: Outcome)
      modifies this
      ensures old(sealed) ==> o == Failed(UnsupportedOperation) && pots == old(pots)
      ensures !old(sealed) ==> o == Done && pots == ps
      ensures sealed == old(sealed)
      ensures dealerSeatNr == old(dealerSeatNr) && smallBlindSeatNr == old(smallBlindSeatNr)
      ensures bigBlindSeatNr == old(bigBlindSeatNr) && actingSeatNr == old(actingSeatNr)
      ensures old(FullySealed()) ==> FullySealed()
    {
      if sealed {
        return Failed(UnsupportedOperation);
      }
      pots := ps;
      return Done;
    }

    /** `seal`: the first call seals the table, every seat and every pot and
        freezes the pot list; a second call changes nothing. No stored
        state changes. */
    method Seal()
      modifies this, seats, pots
      ensures sealed && pots == old(pots)
      ensures forall i :: 0 <= i < |seats| ==> seats[i].State() == old(seats[i].State())
      ensures forall i :: 0 <= i < |pots| ==> pots[i].State() == old(pots[i].State())
      ensures dealerSeatNr == old(dealerSeatNr) && smallBlindSeatNr == old(smallBlindSeatNr)
      ensures bigBlindSeatNr == old(bigBlindSeatNr) && actingSeatNr == old(actingSeatNr)
      ensures !old(sealed) ==> FullySealed()
      ensures old(sealed) ==> unchanged(this) && unchanged(seats) && unchanged(pots)
    {
      if sealed {
        return;
      }
      sealed := true;
      Seats.SealAll(seats);
      Pots.SealAll(pots);
    }
  }

  /** `new Table(numberOfSeats)`: a negative count is refused (by the
      `ArrayList` the constructor sizes with it); otherwise a new unsealed
      table of that many empty seats. */
  method NewTable(numberOfSeats: int) returns (r: Result<Table>)
    ensures numberOfSeats < 0 ==> r == Err(IllegalArgument)
    ensures numberOfSeats >= 0 ==>
      r.Ok? && fresh(r.value) && !r.value.sealed && r.value.State() == EmptyTable(numberOfSeats)
  {
    if numberOfSeats < 0 {
      return Err(IllegalArgument);
    }
    var table := new Table(numberOfSeats);
    return Ok(table);
  }

  /** The state of `t` with seat `n` given player `p` and stake `stake`. */
  function WithOccupant(t: TableState, n: nat, p: Seats.Player?, stake: int): TableState
    requires n < |t.seats|
  {
    t.(seats := t.seats[n := t.seats[n].(player := p, stake := stake)])
  }

  /** Sets the player and then the stake of seat `n` of a list of distinct
      seats, as `apply` does on its copy; `setStake` refuses when the seat's
      bet is negative. No other seat changes. */
  method Occupy(seats: seq<Seats.Seat>, n: nat, p: Seats.Player?, stake: int) returns (o: Outcome)
    requires n < |seats| && Seats.Distinct(seats) && !seats[n].sealed
    modifies seats[n]
    ensures old(seats[n].bet) < 0 ==> o == Failed(IllegalArgument)
    ensures old(seats[n].bet) >= 0 ==> o == Done
    ensures o == Done ==> seats[n].State() == old(seats[n].State()).(player := p, stake := stake)
    ensures forall i :: 0 <= i < |seats| && i != n ==> seats[i].State() == old(seats[i].State())
  {
    o := seats[n].SetPlayer(p);
    o := seats[n].SetStake(stake);
  }

  /** An unsealed copy of the table with seat `n` given player `p` and
      stake `stake`; refused when that seat's bet is negative. */
  method CopyOccupied(table: Table, n: nat, p: Seats.Player?, stake: int) returns (r: Result<Table>)
    requires n < |table.seats|
    ensures table.seats[n].bet < 0 ==> r == Err(IllegalArgument)
    ensures table.seats[n].bet >= 0 ==> r.Ok? && fresh(r.value) && !r.value.sealed
    ensures r.Ok? ==>
      var after := r.value;
      var expected := WithOccupant(table.State(), n, p, stake);
      |after.seats| == |expected.seats| && |after.pots| == |expected.pots| &&
      after.dealerSeatNr == expected.dealerSeatNr && after.smallBlindSeatNr == expected.smallBlindSeatNr &&
      after.bigBlindSeatNr == expected.bigBlindSeatNr && after.actingSeatNr == expected.actingSeatNr &&
      (forall i :: 0 <= i < |after.seats| ==> fresh(after.seats[i]) && after.seats[i].State() == expected.seats[i]) &&
      (forall i :: 0 <= i < |after.pots| ==> fresh(after.pots[i]) && after.pots[i].State() == expected.pots[i])
  {
    var after := new Table.Copy(table);
    var o := Occupy(after.seats, n, p, stake);
    if o.Failed? {
      return Err(o.error);
    }
    return Ok(after);
  }

  /** The common tail of the two `apply` methods: copy the table, set one
      seat's player and stake on the copy, and seal the copy. `setStake`
      refuses when that seat's bet is negative. */
  method Reseat(table: Table, n: nat, p: Seats.Player?, stake: int) returns (r: Result<Table>)
    requires n < |table.seats|
    ensures old(table.seats[n].bet) < 0 ==> r == Err(IllegalArgument)
    ensures old(table.seats[n].bet) >= 0 ==>
      r.Ok? && fresh(r.value) && r.value.FullySealed() &&
      r.value.State() == WithOccupant(old(table.State()), n, p, stake) &&
      (forall i :: 0 <= i < |r.value.seats| ==> fresh(r.value.seats[i])) &&
      (forall i :: 0 <= i < |r.value.pots| ==> fresh(r.value.pots[i]))
  {
    ghost var expected := WithOccupant(table.State(), n, p, stake);
    r := CopyOccupied(table, n, p, stake);
    if r.Err? {
      return;
    }
    var after := r.value;
    after.Seal();
    Seats.StatesAre(after.seats, expected.seats);
    Pots.StatesAre(after.pots, expected.pots);
  }
}
