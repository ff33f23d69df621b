/** GetUpChange.java: a player leaves a seat, taking the stake along. */
module GetUp {
  import opened Outcomes
  import Seats
  import Tables
  import SitDown

  /** The change's three final fields, as the constructor admits them. */
  datatype GetUpChange = GetUpChange(player: Seats.Player, seatNr: nat, stake: nat)

  /** The constructor: a null player, then a negative seat number or
      stake, are refused. */
  function NewGetUpChange(player: Seats.Player?, seatNr: int, stake: int): (r: Result<GetUpChange>)
    ensures player == null ==> r == Err(NullArgument)
    ensures player != null && (seatNr < 0 || stake < 0) ==> r == Err(IllegalArgument)
    ensures r.Ok? <==> player != null && seatNr >= 0 && stake >= 0
    ensures r.Ok? ==> r.value.player == player && r.value.seatNr == seatNr && r.value.stake == stake
  {
    if player == null then Err(NullArgument)
    else if seatNr < 0 then Err(IllegalArgument)
    else if stake < 0 then Err(IllegalArgument)
    else Ok(GetUpChange(player, seatNr, stake))
  }

  /** What `apply` does to the state of a sealed table: the seat must
      exist, hold this very player and exactly this stake; the copy's seat
      then has no player and no stake. The seat's cards are not looked at.
      `setStake` on the copy refuses when the seat's bet is negative. */
  function Vacated(c: GetUpChange, t: Tables.TableState): (r: Result<Tables.TableState>)
    ensures c.seatNr >= |t.seats| ==> r == Err(IncompatibleTable)
    ensures r.Err? ==> r.error == IncompatibleTable || r.error == IllegalArgument
    ensures r == Err(IllegalArgument) ==> c.seatNr < |t.seats| && t.seats[c.seatNr].bet < 0
    ensures r.Ok? ==>
      c.seatNr < |t.seats| && |r.value.seats| == |t.seats| &&
      r.value.seats[c.seatNr].player == null && r.value.seats[c.seatNr].stake == 0
  {
    if c.seatNr >= |t.seats| then Err(IncompatibleTable)
    else
      var s := t.seats[c.seatNr];
      if s.player != c.player then Err(IncompatibleTable)
      else if s.stake != c.stake then Err(IncompatibleTable)
      else if s.bet < 0 then Err(IllegalArgument)
      else Ok(Tables.WithOccupant(t, c.seatNr, null, 0))
  }

  /** The seat can be left exactly when it exists, holds this player (by
      reference) and this stake (and its bet is not negative), whatever
      cards it holds; then only that seat changes: it is empty, without
      stake, and keeps its bet and cards. */
  lemma VacatedEffect(c: GetUpChange, t: Tables.TableState)
    ensures Vacated(c, t).Ok? <==>
      c.seatNr < |t.seats| && t.seats[c.seatNr].player == c.player &&
      t.seats[c.seatNr].stake == c.stake && t.seats[c.seatNr].bet >= 0
    ensures c.seatNr >= |t.seats| ==> Vacated(c, t) == Err(IncompatibleTable)
    ensures Vacated(c, t).Ok? ==>
      var u := Vacated(c, t).value;
      |u.seats| == |t.seats| && u.pots == t.pots &&
      u.dealerSeatNr == t.dealerSeatNr && u.smallBlindSeatNr == t.smallBlindSeatNr &&
      u.bigBlindSeatNr == t.bigBlindSeatNr && u.actingSeatNr == t.actingSeatNr &&
      u.seats[c.seatNr].player == null && u.seats[c.seatNr].stake == 0 &&
      u.seats[c.seatNr].bet == t.seats[c.seatNr].bet &&
      u.seats[c.seatNr].holeCards == t.seats[c.seatNr].holeCards &&
      u.seats[c.seatNr].visibleCards == t.seats[c.seatNr].visibleCards &&
      forall i :: 0 <= i < |t.seats| && i != c.seatNr ==> u.seats[i] == t.seats[i]
  {
  }

  /** On a table without negative bets the IllegalArgument branch is
      unreachable: getting up succeeds exactly when the seat exists and
      holds this player and this stake, and the result again has no
      negative bet. */
  lemma VacatedOnValidTable(c: GetUpChange, t: Tables.TableState)
    requires Tables.BetsValid(t)
    ensures Vacated(c, t) != Err(IllegalArgument)
    ensures Vacated(c, t).Ok? <==>
      c.seatNr < |t.seats| && t.seats[c.seatNr].player == c.player && t.seats[c.seatNr].stake == c.stake
    ensures Vacated(c, t).Ok? ==> Tables.BetsValid(Vacated(c, t).value)
  {
  }

  /** Getting up with the same player, seat and stake undoes a sit-down. */
  lemma GetUpUndoesSitDown(c: SitDown.SitDownChange, t: Tables.TableState)
    requires SitDown.Seated(c, t).Ok?
    ensures Vacated(GetUpChange(c.player, c.seatNr, c.stake), SitDown.Seated(c, t).value) == Ok(t)
  {
    var s := t.seats[c.seatNr];
    var u := SitDown.Seated(c, t).value;
    assert u.seats[c.seatNr].(player := null, stake := 0) == s;
    assert u.seats[c.seatNr := s] == t.seats;
  }

  /** Sitting down again with the same player, seat and stake undoes a
      get-up, provided the seat holds no cards. */
  lemma SitDownUndoesGetUp(c: GetUpChange, t: Tables.TableState)
    requires Vacated(c, t).Ok?
    requires t.seats[c.seatNr].holeCards == [] && t.seats[c.seatNr].visibleCards == []
    ensures SitDown.Seated(SitDown.SitDownChange(c.player, c.seatNr, c.stake), Vacated(c, t).value) == Ok(t)
  {
    var s := t.seats[c.seatNr];
    var u := Vacated(c, t).value;
    assert u.seats[c.seatNr].(player := c.player, stake := c.stake) == s;
    assert u.seats[c.seatNr := s] == t.seats;
  }

  /** `apply`: an unsealed table is refused (a null one fails on the first
      dereference); the checks of `Vacated` follow; on success the result
      is a new, fully sealed table whose state is `Vacated` of the input's.
      Nothing that existed before the call is modified. */
  method Apply(c: GetUpChange, table: Tables.Table?) returns (r: Result<Tables.Table>)
    ensures table == null ==> r == Err(NullPointer)
    ensures table != null && !table.sealed ==> r == Err(IllegalArgument)
    ensures table != null && table.sealed && Vacated(c, old(table.State())).Err? ==>
      r == Err(Vacated(c, old(table.State())).error)
    ensures table != null && table.sealed && Vacated(c, old(table.State())).Ok? ==>
      r.Ok? && fresh(r.value) && r.value.FullySealed() &&
      r.value.State() == Vacated(c, old(table.State())).value &&
      (forall i :: 0 <= i < |r.value.seats| ==> fresh(r.value.seats[i])) &&
      (forall i :: 0 <= i < |r.value.pots| ==> fresh(r.value.pots[i]))
  {
    if table == null {
      return Err(NullPointer);
    }
    if !table.sealed {
      return Err(IllegalArgument);
    }
    if c.seatNr >= table.SeatCount() {
      return Err(IncompatibleTable);
    }
    var seat := table.GetSeat(c.seatNr).value;
    if seat.player != c.player {
      return Err(IncompatibleTable);
    }
    if seat.stake != c.stake {
      return Err(IncompatibleTable);
    }
    r := Tables.Reseat(table, c.seatNr, null, 0);
  }
}
