/** SitDownChange.java: a player takes an empty seat. */
module SitDown {
  import opened Outcomes
  import Seats
  import Pots
  import Tables

  /** The change's three final fields, as the constructor admits them. */
  datatype SitDownChange = SitDownChange(player: Seats.Player, seatNr: nat, stake: nat)

  /** The constructor: a null player, then a negative seat number or
      stake, are refused. */
  function NewSitDownChange(player: Seats.Player?, seatNr: int, stake: int): (r: Result<SitDownChange>)
    ensures player == null ==> r == Err(NullArgument)
    ensures player != null && (seatNr < 0 || stake < 0) ==> r == Err(IllegalArgument)
    ensures r.Ok? <==> player != null && seatNr >= 0 && stake >= 0
    ensures r.Ok? ==> r.value.player == player && r.value.seatNr == seatNr && r.value.stake == stake
  {
    if player == null then Err(NullArgument)
    else if seatNr < 0 then Err(IllegalArgument)
    else if stake < 0 then Err(IllegalArgument)
    else Ok(SitDownChange(player, seatNr, stake))
  }

  /** What `apply` does to the state of a sealed table: the seat must
      exist, be free, hold no stake and no cards; the copy's seat then gets
      the player and the stake. `setStake` on the copy refuses when the
      seat's bet is negative. */
  function Seated(c: SitDownChange, t: Tables.TableState): (r: Result<Tables.TableState>)
    ensures c.seatNr >= |t.seats| ==> r == Err(IncompatibleTable)
    ensures r.Err? ==> r.error == IncompatibleTable || r.error == IllegalArgument
    ensures r == Err(IllegalArgument) ==> c.seatNr < |t.seats| && t.seats[c.seatNr].bet < 0
    ensures r.Ok? ==>
      c.seatNr < |t.seats| && |r.value.seats| == |t.seats| &&
      r.value.seats[c.seatNr].player == c.player && r.value.seats[c.seatNr].stake == c.stake
  {
    if c.seatNr >= |t.seats| then Err(IncompatibleTable)
    else
      var s := t.seats[c.seatNr];
      if s.player != null then Err(IncompatibleTable)
      else if s.stake != 0 then Err(IncompatibleTable)
      else if s.holeCards != [] || s.visibleCards != [] then Err(IncompatibleTable)
      else if s.bet < 0 then Err(IllegalArgument)
      else Ok(Tables.WithOccupant(t, c.seatNr, c.player, c.stake))
  }

  /** The seat is usable exactly when it exists and is empty, without
      stake or cards (and its bet is not negative); then only that seat
      changes, and it holds the change's player and stake. */
  lemma SeatedEffect(c: SitDownChange, t: Tables.TableState)
    ensures Seated(c, t).Ok? <==>
      c.seatNr < |t.seats| && t.seats[c.seatNr].player == null && t.seats[c.seatNr].stake == 0 &&
      t.seats[c.seatNr].holeCards == [] && t.seats[c.seatNr].visibleCards == [] &&
      t.seats[c.seatNr].bet >= 0
    ensures c.seatNr >= |t.seats| ==> Seated(c, t) == Err(IncompatibleTable)
    ensures Seated(c, t).Ok? ==>
      var u := Seated(c, t).value;
      |u.seats| == |t.seats| && u.pots == t.pots &&
      u.dealerSeatNr == t.dealerSeatNr && u.smallBlindSeatNr == t.smallBlindSeatNr &&
      u.bigBlindSeatNr == t.bigBlindSeatNr && u.actingSeatNr == t.actingSeatNr &&
      u.seats[c.seatNr].player == c.player && u.seats[c.seatNr].stake == c.stake &&
      u.seats[c.seatNr].bet == t.seats[c.seatNr].bet &&
      u.seats[c.seatNr].holeCards == [] && u.seats[c.seatNr].visibleCards == [] &&
      forall i :: 0 <= i < |t.seats| && i != c.seatNr ==> u.seats[i] == t.seats[i]
  {
  }

  /** On a table without negative bets, which is every table the seats'
      setters can produce, the IllegalArgument branch is unreachable:
      sitting down succeeds exactly when the seat exists, is empty and
      holds no stake and no cards, and the result again has no negative
      bet. */
  lemma SeatedOnValidTable(c: SitDownChange, t: Tables.TableState)
    requires Tables.BetsValid(t)
    ensures Seated(c, t) != Err(IllegalArgument)
    ensures Seated(c, t).Ok? <==>
      c.seatNr < |t.seats| && t.seats[c.seatNr].player == null && t.seats[c.seatNr].stake == 0 &&
      t.seats[c.seatNr].holeCards == [] && t.seats[c.seatNr].visibleCards == []
    ensures Seated(c, t).Ok? ==> Tables.BetsValid(Seated(c, t).value)
  {
  }

  /** Once taken, a seat refuses every further sit-down. */
  lemma SeatTaken(c: SitDownChange, d: SitDownChange, t: Tables.TableState)
    requires Seated(c, t).Ok? && d.seatNr == c.seatNr
    ensures Seated(d, Seated(c, t).value) == Err(IncompatibleTable)
  {
  }

  /** `apply`: a null table, then an unsealed one, is refused; the checks
      of `Seated` follow; on success the result is a new, fully sealed
      table whose state is `Seated` of the input's. Nothing that existed
      before the call is modified. */
  method Apply(c: SitDownChange, table: Tables.Table?) returns (r: Result<Tables.Table>)
    ensures table == null ==> r == Err(NullArgument)
    ensures table != null && !table.sealed ==> r == Err(IllegalArgument)
    ensures table != null && table.sealed && Seated(c, old(table.State())).Err? ==>
      r == Err(Seated(c, old(table.State())).error)
    ensures table != null && table.sealed && Seated(c, old(table.State())).Ok? ==>
      r.Ok? && fresh(r.value) && r.value.FullySealed() &&
      r.value.State() == Seated(c, old(table.State())).value &&
      (forall i :: 0 <= i < |r.value.seats| ==> fresh(r.value.seats[i])) &&
      (forall i :: 0 <= i < |r.value.pots| ==> fresh(r.value.pots[i]))
  {
    if table == null {
      return Err(NullArgument);
    }
    if !table.sealed {
      return Err(IllegalArgument);
    }
    if c.seatNr >= table.SeatCount() {
      return Err(IncompatibleTable);
    }
    var seat := table.GetSeat(c.seatNr).value;
    if seat.player != null {
      return Err(IncompatibleTable);
    }
    if seat.stake != 0 {
      return Err(IncompatibleTable);
    }
    if seat.holeCards != [] || seat.visibleCards != [] {
      return Err(IncompatibleTable);
    }
    r := Tables.Reseat(table, c.seatNr, c.player, c.stake);
  }
}
