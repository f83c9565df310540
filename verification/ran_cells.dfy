/**
  The cell table of `src/ue_engine/ue_ran_transport.c`: cells learned from heartbeat
  acknowledgements, expired by timeout, and the serving cell chosen by signal strength.
 */
module RanCells {
  datatype Cell = Cell(valid: bool, sti: nat, id: int, dbm: int, seen: nat)

  datatype LinkState = Idle | Searching | Connected | Lost

  datatype Table = Table(cells: seq<Cell>, count: int, serving: int, next: int, state: LinkState)

  /** A heartbeat acknowledgement. */
  datatype Ack = Ack(sti: nat, dbm: int)

  const MAX_CELLS := 16
  const NO_SIGNAL := -999
  const NO_CELL := -1
  const UNUSED := Cell(false, 0, 0, 0, 0)

  function NoCells(): (cells: seq<Cell>)
    ensures |cells| == MAX_CELLS && forall i :: 0 <= i < MAX_CELLS ==> cells[i] == UNUSED
  {
    seq(MAX_CELLS, _ => UNUSED)
  }

  const INITIAL := Table(NoCells(), 0, NO_CELL, 1, Idle)

  // ----------------------------------------------------------- selection

  /** The strongest cell among the first `n`, the earliest of equals; below or at -999 dBm none. */
  function BestOf(cells: seq<Cell>, n: nat): (r: (int, int))
    requires n <= |cells|
    ensures r.0 >= NO_SIGNAL
  {
    if n == 0 then (NO_SIGNAL, NO_CELL)
    else
      var best := BestOf(cells, n - 1);
      var c := cells[n - 1];
      if c.valid && c.dbm > best.0 then (c.dbm, c.id) else best
  }

  function Best(cells: seq<Cell>): int { BestOf(cells, |cells|).1 }

  /** `s` names a valid cell of maximal strength, or no cell because none exceeds -999 dBm. */
  ghost predicate IsBest(cells: seq<Cell>, s: int) {
    if s == NO_CELL then forall i :: 0 <= i < |cells| && cells[i].valid ==> cells[i].dbm <= NO_SIGNAL
    else exists i :: Names(cells, i, s)
  }

  predicate Names(cells: seq<Cell>, i: int, s: int) {
    && 0 <= i < |cells| && cells[i].valid && cells[i].id == s && cells[i].dbm > NO_SIGNAL
    && forall j :: 0 <= j < |cells| && cells[j].valid ==> cells[j].dbm <= cells[i].dbm
  }

  predicate PositiveIds(cells: seq<Cell>) { forall i :: 0 <= i < |cells| && cells[i].valid ==> cells[i].id > 0 }

  lemma {:induction false} BestOfIsBest(cells: seq<Cell>, n: nat)
    requires n <= |cells| && PositiveIds(cells)
    ensures IsBest(cells[..n], BestOf(cells, n).1)
    ensures forall i :: 0 <= i < n && cells[i].valid ==> cells[i].dbm <= BestOf(cells, n).0
    ensures BestOf(cells, n).1 == NO_CELL ==> BestOf(cells, n).0 == NO_SIGNAL
    ensures BestOf(cells, n).1 != NO_CELL ==>
              BestOf(cells, n).1 > 0
              && exists i :: Names(cells[..n], i, BestOf(cells, n).1) && cells[i].dbm == BestOf(cells, n).0
  {
    if n > 0 {
      BestOfIsBest(cells, n - 1);
      var before := BestOf(cells, n - 1);
      var best := BestOf(cells, n);
      if best != before {
        assert Names(cells[..n], n - 1, best.1);
      } else if best.1 != NO_CELL {
        var i :| Names(cells[..n - 1], i, best.1) && cells[i].dbm == best.0;
        assert Names(cells[..n], i, best.1);
      }
    }
  }

  lemma BestIsBest(cells: seq<Cell>)
    requires PositiveIds(cells)
    ensures IsBest(cells, Best(cells)) && (Best(cells) == NO_CELL || Best(cells) > 0)
  {
    BestOfIsBest(cells, |cells|);
    assert cells[..|cells|] == cells;
  }

  // -------------------------------------------------------------- expiry

  function CountValid(cells: seq<Cell>, n: nat): nat
    requires n <= |cells|
  {
    if n == 0 then 0 else CountValid(cells, n - 1) + (if cells[n - 1].valid then 1 else 0)
  }

  /** Unsigned 64-bit `now - seen > timeout`. */
  predicate Stale(c: Cell, now: nat, timeout: nat) { c.valid && (now < c.seen || now - c.seen > timeout) }

  function Expired(cells: seq<Cell>, now: nat, timeout: nat): (r: seq<Cell>)
    ensures |r| == |cells|
    ensures forall i :: 0 <= i < |cells| ==>
              r[i] == if Stale(cells[i], now, timeout) then cells[i].(valid := false) else cells[i]
  {
    seq(|cells|, i requires 0 <= i < |cells| =>
      if Stale(cells[i], now, timeout) then cells[i].(valid := false) else cells[i])
  }

  function CountStale(cells: seq<Cell>, now: nat, timeout: nat, n: nat): nat
    requires n <= |cells|
  {
    if n == 0 then 0 else CountStale(cells, now, timeout, n - 1) + (if Stale(cells[n - 1], now, timeout) then 1 else 0)
  }

  predicate ServingStale(t: Table, now: nat, timeout: nat) {
    exists i :: 0 <= i < |t.cells| && Stale(t.cells[i], now, timeout) && t.cells[i].id == t.serving
  }

  function Expire(t: Table, now: nat, timeout: nat): Table {
    var cells := Expired(t.cells, now, timeout);
    var u := t.(cells := cells, count := t.count - CountStale(t.cells, now, timeout, |t.cells|));
    if !ServingStale(t, now, timeout) then u
    else
      var best := Best(cells);
      u.(serving := best, state := if best < 0 then Lost else u.state)
  }

  // ----------------------------------------------------- heartbeat acks

  /** The first slot from `i` on that satisfies the search: a valid cell of that STI. */
  function FindSti(cells: seq<Cell>, sti: nat, i: nat): (k: nat)
    requires i <= |cells|
    ensures i <= k <= |cells|
    ensures k < |cells| ==> cells[k].valid && cells[k].sti == sti
    ensures forall j :: i <= j < k ==> !(cells[j].valid && cells[j].sti == sti)
    decreases |cells| - i
  {
    if i == |cells| || (cells[i].valid && cells[i].sti == sti) then i else FindSti(cells, sti, i + 1)
  }

  function FirstFree(cells: seq<Cell>, i: nat): (k: nat)
    requires i <= |cells|
    ensures i <= k <= |cells|
    ensures k < |cells| ==> !cells[k].valid
    ensures forall j :: i <= j < k ==> cells[j].valid
    decreases |cells| - i
  {
    if i == |cells| || !cells[i].valid then i else FirstFree(cells, i + 1)
  }

  function Refresh(t: Table, k: nat, ack: Ack, now: nat): Table
    requires k < |t.cells|
  {
    var cells := t.cells[k := t.cells[k].(dbm := ack.dbm, seen := now)];
    t.(cells := cells, serving := Best(cells))
  }

  /** A known cell is refreshed, a new one takes the first free slot; a full table drops it. */
  function HeartbeatAck(t: Table, ack: Ack, now: nat): Table {
    var k := FindSti(t.cells, ack.sti, 0);
    if k < |t.cells| then Refresh(t, k, ack, now)
    else
      var f := FirstFree(t.cells, 0);
      if f == |t.cells| then t
      else
        var u := t.(cells := t.cells[f := Cell(true, ack.sti, t.next, 0, 0)], count := t.count + 1, next := t.next + 1);
        Refresh(u, f, ack, now)
  }

  function Acks(t: Table, acks: seq<Ack>, now: nat): Table
    decreases |acks|
  {
    if acks == [] then t else Acks(HeartbeatAck(t, acks[0], now), acks[1..], now)
  }

  function Transition(t: Table): Table {
    if t.state == Searching && t.serving >= 0 then t.(state := Connected)
    else if t.state == Connected && t.serving < 0 then t.(state := Lost)
    else if t.state == Lost && t.serving >= 0 then t.(state := Connected)
    else t
  }

  /** `received` is false when reading the socket failed, which ends the tick early. */
  function Tick(t: Table, now: nat, timeout: nat, acks: seq<Ack>, received: bool): Table {
    if t.state == Idle then t
    else
      var u := Acks(Expire(t, now, timeout), acks, now);
      if received then Transition(u) else u
  }

  function Cleared(t: Table, state: LinkState): Table {
    t.(cells := NoCells(), count := 0, serving := NO_CELL, state := state)
  }

  // ----------------------------------------------------------- invariant

  predicate Distinct(cells: seq<Cell>) {
    forall i, j :: 0 <= i < j < |cells| && cells[i].valid && cells[j].valid ==>
      cells[i].id != cells[j].id && cells[i].sti != cells[j].sti
  }

  predicate IdsBelow(cells: seq<Cell>, next: int) {
    forall i :: 0 <= i < |cells| && cells[i].valid ==> 0 < cells[i].id < next
  }

  ghost predicate Inv(t: Table) {
    && |t.cells| == MAX_CELLS
    && t.count == CountValid(t.cells, |t.cells|)
    && Distinct(t.cells)
    && IdsBelow(t.cells, t.next)
    && IsBest(t.cells, t.serving)
    && t.next > 0
    && (t.serving == NO_CELL || t.serving > 0)
  }

  predicate AllSeenWithin(cells: seq<Cell>, now: nat, timeout: nat) {
    forall i :: 0 <= i < |cells| && cells[i].valid ==> cells[i].seen <= now && now - cells[i].seen <= timeout
  }

  lemma {:induction false} CountExpired(cells: seq<Cell>, now: nat, timeout: nat, n: nat)
    requires n <= |cells|
    ensures CountValid(Expired(cells, now, timeout), n) == CountValid(cells, n) - CountStale(cells, now, timeout, n)
  {
    if n > 0 {
      CountExpired(cells, now, timeout, n - 1);
    }
  }

  /** A serving cell that did not expire is still the strongest of those left. */
  lemma StillBest(t: Table, now: nat, timeout: nat)
    requires IsBest(t.cells, t.serving) && !ServingStale(t, now, timeout)
    ensures IsBest(Expired(t.cells, now, timeout), t.serving)
  {
    if t.serving != NO_CELL {
      var i :| Names(t.cells, i, t.serving);
      assert !Stale(t.cells[i], now, timeout);
      assert Names(Expired(t.cells, now, timeout), i, t.serving);
    }
  }

  lemma ExpireKeeps(t: Table, now: nat, timeout: nat)
    requires Inv(t)
    ensures Inv(Expire(t, now, timeout)) && AllSeenWithin(Expire(t, now, timeout).cells, now, timeout)
    ensures t.state != Idle ==> Expire(t, now, timeout).state != Idle
  {
    hide IsBest, Best, CountValid, CountStale;
    var cells := Expired(t.cells, now, timeout);
    CountExpired(t.cells, now, timeout, |t.cells|);
    if ServingStale(t, now, timeout) {
      BestIsBest(cells);
    } else {
      StillBest(t, now, timeout);
    }
  }

  lemma {:induction false} CountUpdate(cells: seq<Cell>, k: nat, c: Cell, n: nat)
    requires k < |cells| && n <= |cells| && c.valid
    ensures CountValid(cells[k := c], n) == CountValid(cells, n) + (if k < n && !cells[k].valid then 1 else 0)
  {
    if n > 0 {
      CountUpdate(cells, k, c, n - 1);
    }
  }

  lemma RefreshKeeps(t: Table, k: nat, ack: Ack, now: nat)
    requires |t.cells| == MAX_CELLS && t.count == CountValid(t.cells, |t.cells|) && Distinct(t.cells)
    requires IdsBelow(t.cells, t.next) && t.next > 0 && k < |t.cells| && t.cells[k].valid
    ensures Inv(Refresh(t, k, ack, now))
  {
    hide IsBest, Best, CountValid;
    var c := t.cells[k].(dbm := ack.dbm, seen := now);
    CountUpdate(t.cells, k, c, |t.cells|);
    BestIsBest(t.cells[k := c]);
  }

  lemma AckKeeps(t: Table, ack: Ack, now: nat)
    requires Inv(t)
    ensures Inv(HeartbeatAck(t, ack, now)) && HeartbeatAck(t, ack, now).state == t.state
    ensures forall timeout: nat :: AllSeenWithin(t.cells, now, timeout) ==>
              AllSeenWithin(HeartbeatAck(t, ack, now).cells, now, timeout)
  {
    hide IsBest, Best, CountValid;
    var k := FindSti(t.cells, ack.sti, 0);
    if k < |t.cells| {
      RefreshKeeps(t, k, ack, now);
    } else {
      var f := FirstFree(t.cells, 0);
      if f < |t.cells| {
        var c := Cell(true, ack.sti, t.next, 0, 0);
        CountUpdate(t.cells, f, c, |t.cells|);
        var u := t.(cells := t.cells[f := c], count := t.count + 1, next := t.next + 1);
        RefreshKeeps(u, f, ack, now);
      }
    }
  }

  lemma {:induction false} AcksKeep(t: Table, acks: seq<Ack>, now: nat, timeout: nat)
    requires Inv(t) && AllSeenWithin(t.cells, now, timeout)
    ensures Inv(Acks(t, acks, now)) && Acks(t, acks, now).state == t.state
    ensures AllSeenWithin(Acks(t, acks, now).cells, now, timeout)
    decreases |acks|
  {
    hide Inv, HeartbeatAck;
    if acks != [] {
      AckKeeps(t, acks[0], now);
      AcksKeep(HeartbeatAck(t, acks[0], now), acks[1..], now, timeout);
    }
  }

  /**
    After a tick the table is sound, nothing in it is older than the timeout, and the link
    is CONNECTED exactly when a serving cell exists.
   */
  lemma TickKeeps(t: Table, now: nat, timeout: nat, acks: seq<Ack>, received: bool)
    requires Inv(t)
    ensures Inv(Tick(t, now, timeout, acks, received))
    ensures var u := Tick(t, now, timeout, acks, received);
            t.state != Idle ==>
              && AllSeenWithin(u.cells, now, timeout)
              && (received ==> u.state != Idle && (u.state == Connected <==> u.serving != NO_CELL))
  {
    hide Expire, Acks, IsBest, CountValid;
    if t.state != Idle {
      var e := Expire(t, now, timeout);
      ExpireKeeps(t, now, timeout);
      AcksKeep(e, acks, now, timeout);
    }
  }

  datatype Event = TickEv(now: nat, timeout: nat, acks: seq<Ack>, received: bool) | StartEv | StopEv

  function Step(t: Table, e: Event): Table {
    match e
    case TickEv(now, timeout, acks, received) => Tick(t, now, timeout, acks, received)
    case StartEv => Cleared(t, Searching)
    case StopEv => Cleared(t, Idle)
  }

  function Run(t: Table, es: seq<Event>): Table
    decreases |es|
  {
    if es == [] then t else Run(Step(t, es[0]), es[1..])
  }

  lemma {:induction false} CountNone(cells: seq<Cell>, n: nat)
    requires n <= |cells| && forall i :: 0 <= i < |cells| ==> !cells[i].valid
    ensures CountValid(cells, n) == 0
  {
    if n > 0 {
      CountNone(cells, n - 1);
    }
  }

  lemma ClearedKeeps(t: Table, state: LinkState)
    requires t.next > 0
    ensures Inv(Cleared(t, state))
  {
    CountNone(NoCells(), MAX_CELLS);
  }

  lemma {:induction false} RunKeeps(t: Table, es: seq<Event>)
    requires Inv(t)
    ensures Inv(Run(t, es))
    decreases |es|
  {
    hide Tick, IsBest, CountValid, Cleared;
    if es != [] {
      match es[0] {
        case TickEv(now, timeout, acks, received) => TickKeeps(t, now, timeout, acks, received);
        case StartEv => ClearedKeeps(t, Searching);
        case StopEv => ClearedKeeps(t, Idle);
      }
      RunKeeps(Step(t, es[0]), es[1..]);
    }
  }

  /** The table is sound in every run of ticks, starts and stops. */
  lemma AlwaysSound(es: seq<Event>)
    ensures Inv(Run(INITIAL, es))
  {
    ClearedKeeps(INITIAL, Idle);
    RunKeeps(INITIAL, es);
  }

  // ----------------------------------------------------- table in place

  class CellTable {
    const cells: array<Cell>
    var count: int
    var serving: int
    var next: int
    var state: LinkState

    ghost function Abs(): Table
      reads this, cells
    {
      Table(cells[..], count, serving, next, state)
    }

    ghost predicate Valid()
      reads this, cells
    {
      cells.Length == MAX_CELLS && Inv(Abs())
    }

    constructor ()
      ensures Valid() && fresh(cells) && Abs() == INITIAL
    {
      cells := new Cell[MAX_CELLS](_ => UNUSED);
      count, serving, next, state := 0, NO_CELL, 1, Idle;
      new;
      assert cells[..] == NoCells();
      ClearedKeeps(INITIAL, Idle);
    }

    /** Chooses a cell than which none is stronger, or none because none exceeds -999 dBm. */
    method SelectBest()
      requires cells.Length == MAX_CELLS && PositiveIds(cells[..])
      modifies this`serving
      ensures Abs() == old(Abs()).(serving := Best(old(Abs()).cells))
      ensures IsBest(cells[..], serving)
    {
      BestIsBest(cells[..]);
      hide IsBest, PositiveIds;
      var bestDbm, bestId := NO_SIGNAL, NO_CELL;
      for i := 0 to MAX_CELLS
        invariant (bestDbm, bestId) == BestOf(cells[..], i)
      {
        if cells[i].valid && cells[i].dbm > bestDbm {
          bestDbm, bestId := cells[i].dbm, cells[i].id;
        }
      }
      serving := bestId;
    }

    /** Afterwards every cell left was heard within the timeout, and the serving cell is one of the strongest left. */
    method ExpireCells(now: nat, timeout: nat)
      requires Valid()
      modifies this, cells
      ensures Valid() && Abs() == Expire(old(Abs()), now, timeout)
      ensures AllSeenWithin(cells[..], now, timeout)
    {
      ExpireKeeps(Abs(), now, timeout);
      ExpireInPlace(now, timeout);
    }

    method ExpireInPlace(now: nat, timeout: nat)
      requires Valid()
      modifies this, cells
      ensures Abs() == Expire(old(Abs()), now, timeout)
    {
      hide Best, BestOf, IsBest, CountValid, Distinct;
      ghost var was := cells[..];
      var lost := false;
      for i := 0 to MAX_CELLS
        invariant serving == old(serving) && next == old(next) && state == old(state)
        invariant forall j :: 0 <= j < MAX_CELLS ==>
                    cells[j] == if j < i && Stale(was[j], now, timeout) then was[j].(valid := false) else was[j]
        invariant count == old(count) - CountStale(was, now, timeout, i)
        invariant lost <==> exists j :: 0 <= j < i && Stale(was[j], now, timeout) && was[j].id == serving
      {
        if cells[i].valid && (now < cells[i].seen || now - cells[i].seen > timeout) {
          if cells[i].id == serving {
            lost := true;
          }
          cells[i] := cells[i].(valid := false);
          count := count - 1;
        }
      }
      assert cells[..] == Expired(was, now, timeout);
      if lost {
        SelectBest();
        if serving < 0 {
          state := Lost;
        }
      }
    }

    method FindBySti(sti: nat) returns (k: nat)
      requires cells.Length == MAX_CELLS
      ensures k == FindSti(cells[..], sti, 0)
    {
      k := 0;
      while k < MAX_CELLS
        invariant k <= MAX_CELLS && FindSti(cells[..], sti, k) == FindSti(cells[..], sti, 0)
      {
        if cells[k].valid && cells[k].sti == sti {
          return;
        }
        k := k + 1;
      }
    }

    method FindFree() returns (k: nat)
      requires cells.Length == MAX_CELLS
      ensures k == FirstFree(cells[..], 0)
    {
      k := 0;
      while k < MAX_CELLS
        invariant k <= MAX_CELLS && FirstFree(cells[..], k) == FirstFree(cells[..], 0)
      {
        if !cells[k].valid {
          return;
        }
        k := k + 1;
      }
    }

    /** One entry per transmitter, counted once, and no cell becomes older by it. */
    method OnHeartbeatAck(ack: Ack, now: nat)
      requires Valid()
      modifies this, cells
      ensures Valid() && Abs() == HeartbeatAck(old(Abs()), ack, now) && state == old(state)
      ensures forall timeout: nat :: old(AllSeenWithin(cells[..], now, timeout)) ==>
                AllSeenWithin(cells[..], now, timeout)
    {
      hide HeartbeatAck;
      AckKeeps(Abs(), ack, now);
      AckInPlace(ack, now);
    }

    method AckInPlace(ack: Ack, now: nat)
      requires Valid()
      modifies this, cells
      ensures Abs() == HeartbeatAck(old(Abs()), ack, now)
    {
      hide Best, FindSti, FirstFree, IsBest, CountValid, Distinct;
      var k := FindBySti(ack.sti);
      assert k <= MAX_CELLS;
      if k == MAX_CELLS {
        k := FindFree();
        if k == MAX_CELLS {
          return;
        }
        cells[k] := Cell(true, ack.sti, next, 0, 0);
        next := next + 1;
        count := count + 1;
      }
      cells[k] := cells[k].(dbm := ack.dbm, seen := now);
      SelectBest();
    }

    /** At most 64 datagrams are handled in one tick; `acks` are the acknowledgements among them. */
    method RunTick(now: nat, timeout: nat, acks: seq<Ack>, received: bool)
      requires Valid()
      modifies this, cells
      ensures Valid() && Abs() == Tick(old(Abs()), now, timeout, acks, received)
      ensures old(state) != Idle ==> AllSeenWithin(cells[..], now, timeout)
      ensures old(state) != Idle && received ==> (state == Connected <==> serving != NO_CELL)
    {
      hide Expire, HeartbeatAck, IsBest, CountValid, Distinct, IdsBelow;
      TickKeeps(Abs(), now, timeout, acks, received);
      if state == Idle {
        return;
      }
      ExpireCells(now, timeout);
      ghost var u := Abs();
      var i := 0;
      while i < |acks|
        invariant 0 <= i <= |acks| && Valid()
        invariant Acks(Abs(), acks[i..], now) == Acks(u, acks, now)
      {
        assert acks[i..][1..] == acks[i + 1..];
        OnHeartbeatAck(acks[i], now);
        i := i + 1;
      }
      assert acks[i..] == [];
      if !received {
        return;
      }
      if state == Searching && serving >= 0 {
        state := Connected;
      } else if state == Connected && serving < 0 {
        state := Lost;
      } else if state == Lost && serving >= 0 {
        state := Connected;
      }
    }
  }
}
