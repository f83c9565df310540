/**
  The indication side of `src/state_bridge/state_bridge.c`: each poll compares the engine's
  snapshot with the previous one and queues an indication for every edge.
 */
module StateBridge {
  import opened Options
  import opened Rings
  import opened MbimChannel
  import SM = SessionManagement

  /** `taken` is what the control channel has dequeued so far, oldest first. */
  datatype Bridge = Bridge(queue: seq<BridgeInd>, registered: bool, sm: SM.State, taken: seq<BridgeInd>)

  const EMPTY := Bridge([], false, SM.Inactive, [])

  function Queue(b: Bridge, ind: BridgeInd): Bridge {
    if |b.queue| >= CAPACITY then b else b.(queue := b.queue + [ind])
  }

  function DropAttaching(b: Bridge): Bridge { b.(queue := RemoveFirst(b.queue, Attaching)) }

  function RegistrationEdge(b: Bridge, registered: bool): Bridge {
    if b.registered == registered then b else Queue(b, if registered then Home else Deregistered)
  }

  function AttachingEdge(b: Bridge, sm: SM.State): Bridge {
    if b.sm != SM.Establishing && sm == SM.Establishing then Queue(b, Attaching) else b
  }

  predicate SessionChanges(b: Bridge, sm: SM.State) { (b.sm == SM.Active) != (sm == SM.Active) }

  function SessionEdge(b: Bridge, sm: SM.State): Bridge {
    if SessionChanges(b, sm) then Queue(DropAttaching(b), if sm == SM.Active then Attached else Detached) else b
  }

  function Poll(b: Bridge, registered: bool, sm: SM.State): Bridge {
    SessionEdge(AttachingEdge(RegistrationEdge(b, registered), sm), sm).(registered := registered, sm := sm)
  }

  function Dequeue(b: Bridge): Bridge {
    if b.queue == [] then b else b.(queue := b.queue[1..], taken := b.taken + [b.queue[0]])
  }

  /** Everything the host has seen or will see. */
  function History(b: Bridge): seq<BridgeInd> { b.taken + b.queue }

  // -------------------------------------------------- reading a history

  /** The level after replaying a history: `up` raises it, `down` lowers it. */
  predicate Level(h: seq<BridgeInd>, up: BridgeInd, down: BridgeInd, from: bool)
    decreases |h|
  {
    if h == [] then from
    else Level(h[1..], up, down, if h[0] == up then true else if h[0] == down then false else from)
  }

  /** Raising and lowering take turns: never `up` at a high level or `down` at a low one. */
  predicate Alternates(h: seq<BridgeInd>, up: BridgeInd, down: BridgeInd, from: bool)
    decreases |h|
  {
    h == []
    || (if h[0] == up then !from && Alternates(h[1..], up, down, true)
        else if h[0] == down then from && Alternates(h[1..], up, down, false)
        else Alternates(h[1..], up, down, from))
  }

  lemma {:induction false} ReplayConcat(a: seq<BridgeInd>, b: seq<BridgeInd>, up: BridgeInd, down: BridgeInd,
      from: bool)
    requires up != down
    ensures Level(a + b, up, down, from) == Level(b, up, down, Level(a, up, down, from))
    ensures Alternates(a + b, up, down, from)
       <==> Alternates(a, up, down, from) && Alternates(b, up, down, Level(a, up, down, from))
    decreases |a|
  {
    if a == [] {
      assert a + b == b;
    } else {
      assert (a + b)[1..] == a[1..] + b;
      ReplayConcat(a[1..], b, up, down, if a[0] == up then true else if a[0] == down then false else from);
    }
  }

  lemma ReplayOne(x: BridgeInd, up: BridgeInd, down: BridgeInd, from: bool)
    requires up != down
    ensures Level([x], up, down, from) == if x == up then true else if x == down then false else from
    ensures Alternates([x], up, down, from) <==> (x == up ==> !from) && (x == down ==> from)
  {
    assert [x][1..] == [];
  }

  lemma {:induction false} ReplayWithout(h: seq<BridgeInd>, x: BridgeInd, up: BridgeInd, down: BridgeInd, from: bool)
    requires up != down && x != up && x != down
    ensures Level(RemoveFirst(h, x), up, down, from) == Level(h, up, down, from)
    ensures Alternates(RemoveFirst(h, x), up, down, from) <==> Alternates(h, up, down, from)
    decreases |h|
  {
    if h != [] && h[0] != x {
      assert RemoveFirst(h, x)[1..] == RemoveFirst(h[1..], x);
      ReplayWithout(h[1..], x, up, down, if h[0] == up then true else if h[0] == down then false else from);
    }
  }

  /** The history takes turns and replays to `level`. */
  predicate Tells(h: seq<BridgeInd>, up: BridgeInd, down: BridgeInd, level: bool) {
    Alternates(h, up, down, false) && Level(h, up, down, false) == level
  }

  lemma TellsAppend(h: seq<BridgeInd>, x: BridgeInd, up: BridgeInd, down: BridgeInd, level: bool)
    requires up != down && Tells(h, up, down, level)
    ensures x == up && !level ==> Tells(h + [x], up, down, true)
    ensures x == down && level ==> Tells(h + [x], up, down, false)
    ensures x != up && x != down ==> Tells(h + [x], up, down, level)
  {
    hide Level, Alternates;
    ReplayConcat(h, [x], up, down, false);
    ReplayOne(x, up, down, level);
  }

  lemma QueueTells(b: Bridge, x: BridgeInd, up: BridgeInd, down: BridgeInd, level: bool)
    requires up != down && Tells(History(b), up, down, level)
    ensures |b.queue| < CAPACITY && x == up && !level ==> Tells(History(Queue(b, x)), up, down, true)
    ensures |b.queue| < CAPACITY && x == down && level ==> Tells(History(Queue(b, x)), up, down, false)
    ensures |b.queue| >= CAPACITY || (x != up && x != down) ==> Tells(History(Queue(b, x)), up, down, level)
  {
    hide Tells;
    TellsAppend(History(b), x, up, down, level);
    assert History(b) + [x] == b.taken + (b.queue + [x]);
  }

  lemma DropTells(b: Bridge, up: BridgeInd, down: BridgeInd, level: bool)
    requires up != down && up != Attaching && down != Attaching && Tells(History(b), up, down, level)
    ensures Tells(History(DropAttaching(b)), up, down, level)
  {
    hide Level, Alternates, RemoveFirst;
    ReplayConcat(b.taken, b.queue, up, down, false);
    ReplayWithout(b.queue, Attaching, up, down, Level(b.taken, up, down, false));
    ReplayConcat(b.taken, RemoveFirst(b.queue, Attaching), up, down, false);
  }

  // ------------------------------------------------------------ the claim

  /** Both histories take turns and replay to the previous snapshot. */
  predicate Consistent(b: Bridge) {
    Tells(History(b), Home, Deregistered, b.registered) && Tells(History(b), Attached, Detached, b.sm == SM.Active)
  }

  /** Every edge that must be told finds a free slot. */
  predicate HasRoom(b: Bridge, registered: bool, sm: SM.State) {
    && (b.registered != registered ==> |b.queue| < CAPACITY)
    && (SessionChanges(b, sm) ==>
          |DropAttaching(AttachingEdge(RegistrationEdge(b, registered), sm)).queue| < CAPACITY)
  }

  lemma RegistrationTells(b: Bridge, registered: bool)
    requires Consistent(b)
    ensures var t := RegistrationEdge(b, registered);
            && Tells(History(t), Attached, Detached, b.sm == SM.Active)
            && Tells(History(t), Home, Deregistered,
                     if b.registered != registered && |b.queue| < CAPACITY then registered else b.registered)
  {
    hide Tells, History;
    var ind := if registered then Home else Deregistered;
    QueueTells(b, ind, Home, Deregistered, b.registered);
    QueueTells(b, ind, Attached, Detached, b.sm == SM.Active);
  }

  lemma SessionTells(b: Bridge, sm: SM.State, home: bool)
    requires Tells(History(b), Attached, Detached, b.sm == SM.Active) && Tells(History(b), Home, Deregistered, home)
    ensures var t := SessionEdge(b, sm);
            && Tells(History(t), Home, Deregistered, home)
            && Tells(History(t), Attached, Detached,
                     if SessionChanges(b, sm) && |DropAttaching(b).queue| < CAPACITY then sm == SM.Active
                         else b.sm == SM.Active)
  {
    hide Tells, History;
    var d := DropAttaching(b);
    DropTells(b, Attached, Detached, b.sm == SM.Active);
    DropTells(b, Home, Deregistered, home);
    var ind := if sm == SM.Active then Attached else Detached;
    QueueTells(d, ind, Attached, Detached, b.sm == SM.Active);
    QueueTells(d, ind, Home, Deregistered, home);
  }

  /** A poll keeps the histories true exactly when the edges it must tell find room. */
  lemma PollConsistentIff(b: Bridge, registered: bool, sm: SM.State)
    requires Consistent(b)
    ensures Consistent(Poll(b, registered, sm)) <==> HasRoom(b, registered, sm)
  {
    hide RegistrationEdge, AttachingEdge, SessionEdge, DropAttaching, Level, Alternates;
    var c := RegistrationEdge(b, registered);
    RegistrationTells(b, registered);
    KeepsSession(b, registered, sm);
    var home := if b.registered != registered && |b.queue| < CAPACITY then registered else b.registered;
    var d := AttachingEdge(c, sm);
    AttachingTells(c, sm, home);
    SessionTells(d, sm, home);
  }

  lemma KeepsSession(b: Bridge, registered: bool, sm: SM.State)
    ensures RegistrationEdge(b, registered).sm == b.sm
    ensures AttachingEdge(RegistrationEdge(b, registered), sm).sm == b.sm
  {
  }

  lemma AttachingTells(b: Bridge, sm: SM.State, home: bool)
    requires Tells(History(b), Attached, Detached, b.sm == SM.Active) && Tells(History(b), Home, Deregistered, home)
    ensures Tells(History(AttachingEdge(b, sm)), Attached, Detached, b.sm == SM.Active)
    ensures Tells(History(AttachingEdge(b, sm)), Home, Deregistered, home)
  {
    hide Tells, History;
    QueueTells(b, Attaching, Attached, Detached, b.sm == SM.Active);
    QueueTells(b, Attaching, Home, Deregistered, home);
  }

  datatype Event = PollEv(registered: bool, sm: SM.State) | DequeueEv | RegisterEv

  function Step(b: Bridge, e: Event): Bridge {
    match e
    case PollEv(registered, sm) => Poll(b, registered, sm)
    case DequeueEv => Dequeue(b)
    case RegisterEv => Queue(b, Searching)
  }

  function Run(b: Bridge, es: seq<Event>): Bridge
    decreases |es|
  {
    if es == [] then b else Run(Step(b, es[0]), es[1..])
  }

  /** No poll of the run is short of room. */
  predicate NeverOverflows(b: Bridge, es: seq<Event>)
    decreases |es|
  {
    es == []
    || ((es[0].PollEv? ==> HasRoom(b, es[0].registered, es[0].sm)) && NeverOverflows(Step(b, es[0]), es[1..]))
  }

  /** The histories are true after every step of the run. */
  predicate AlwaysConsistent(b: Bridge, es: seq<Event>)
    decreases |es|
  {
    es == [] || (Consistent(Step(b, es[0])) && AlwaysConsistent(Step(b, es[0]), es[1..]))
  }

  lemma DequeueConsistent(b: Bridge)
    requires Consistent(b)
    ensures Consistent(Dequeue(b))
  {
    hide Tells;
    if b.queue != [] {
      assert History(Dequeue(b)) == History(b);
    }
  }

  lemma NeutralConsistent(b: Bridge, ind: BridgeInd)
    requires Consistent(b) && (ind == Searching || ind == Attaching)
    ensures Consistent(Queue(b, ind))
  {
    hide Tells;
    QueueTells(b, ind, Attached, Detached, b.sm == SM.Active);
    QueueTells(b, ind, Home, Deregistered, b.registered);
  }

  lemma StepConsistentIff(b: Bridge, e: Event)
    requires Consistent(b)
    ensures Consistent(Step(b, e)) <==> (e.PollEv? ==> HasRoom(b, e.registered, e.sm))
  {
    hide Consistent, Poll, HasRoom;
    match e
    case PollEv(registered, sm) => PollConsistentIff(b, registered, sm);
    case DequeueEv => DequeueConsistent(b);
    case RegisterEv => NeutralConsistent(b, Searching);
  }

  /**
    What the host is told alternates attached with detached and home with deregistered, and
    replays to the engine's latest snapshot, throughout a run if and only if no poll of it
    finds the ring too full for what it must tell.
   */
  lemma {:induction false} HistoriesReplay(b: Bridge, es: seq<Event>)
    requires Consistent(b)
    ensures AlwaysConsistent(b, es) <==> NeverOverflows(b, es)
    ensures NeverOverflows(b, es) ==> Consistent(Run(b, es))
    decreases |es|
  {
    hide Step, Consistent, HasRoom;
    if es != [] {
      StepConsistentIff(b, es[0]);
      if Consistent(Step(b, es[0])) {
        HistoriesReplay(Step(b, es[0]), es[1..]);
      }
    }
  }

  /** From power-up. */
  lemma FromEmpty(es: seq<Event>)
    ensures AlwaysConsistent(EMPTY, es) <==> NeverOverflows(EMPTY, es)
  {
    hide Step, HasRoom;
    HistoriesReplay(EMPTY, es);
  }

  function Requests(n: nat): seq<Event> { if n == 0 then [] else [RegisterEv] + Requests(n - 1) }

  lemma {:induction false} RequestsFill(b: Bridge, n: nat, rest: seq<Event>)
    requires Consistent(b) && |b.queue| + n <= CAPACITY
    ensures exists t :: && Run(b, Requests(n) + rest) == Run(t, rest) && Consistent(t)
                        && |t.queue| == |b.queue| + n && t.registered == b.registered
    decreases n
  {
    hide Consistent;
    if n == 0 {
      assert Requests(n) + rest == rest;
    } else {
      var es := Requests(n) + rest;
      assert es[0] == RegisterEv && es[1..] == Requests(n - 1) + rest;
      NeutralConsistent(b, Searching);
      RequestsFill(Queue(b, Searching), n - 1, rest);
    }
  }

  /** As many registration requests as the ring holds, then a registration: the host is never told of it. */
  lemma FullRingHidesRegistration()
    ensures !Consistent(Run(EMPTY, Requests(CAPACITY) + [PollEv(true, SM.Inactive)]))
  {
    hide Consistent, Poll;
    var rest := [PollEv(true, SM.Inactive)];
    assert Consistent(EMPTY) by { EmptyConsistent(); }
    RequestsFill(EMPTY, CAPACITY, rest);
    var t :| Run(EMPTY, Requests(CAPACITY) + rest) == Run(t, rest) && Consistent(t)
             && |t.queue| == |EMPTY.queue| + CAPACITY && t.registered == EMPTY.registered;
    assert rest[1..] == [];
    assert Run(t, rest) == Poll(t, true, SM.Inactive);
    PollConsistentIff(t, true, SM.Inactive);
  }

  lemma EmptyConsistent()
    ensures Consistent(EMPTY)
  {
  }

  // ----------------------------------------------------- the ring in place

  class BridgeQueue {
    const ring: Ring<BridgeInd>
    var registered: bool
    var sm: SM.State
    ghost var taken: seq<BridgeInd>

    ghost predicate Valid()
      reads this, ring, ring.slots
    {
      ring.Valid()
    }

    ghost function Abs(): Bridge
      requires Valid()
      reads this, ring, ring.slots
    {
      Bridge(ring.Contents(), registered, sm, taken)
    }

    constructor ()
      ensures Valid() && Abs() == EMPTY && fresh(ring) && fresh(ring.slots)
    {
      ring := new Ring<BridgeInd>(Searching);
      registered, sm := false, SM.Inactive;
      taken := [];
    }

    method Enqueue(ind: BridgeInd)
      requires Valid()
      modifies ring, ring.slots
      ensures Valid() && Abs() == Queue(old(Abs()), ind)
    {
      var ok := ring.Enqueue(ind);
    }

    method Take() returns (ind: Option<BridgeInd>)
      requires Valid()
      modifies this, ring
      ensures Valid() && Abs() == Dequeue(old(Abs())) && History(Abs()) == old(History(Abs()))
      ensures ind == if old(Abs()).queue == [] then None else Some(old(Abs()).queue[0])
      ensures old(Consistent(Abs())) ==> Consistent(Abs())
    {
      hide Consistent;
      if Consistent(Abs()) {
        DequeueConsistent(Abs());
      }
      ind := ring.Dequeue();
      if ind.Some? {
        taken := taken + [ind.value];
      }
    }

    /** The host's picture stays true exactly when the edges to be told find room. */
    method PollSnapshot(nowRegistered: bool, nowSm: SM.State)
      requires Valid()
      modifies this, ring, ring.slots
      ensures Valid() && Abs() == Poll(old(Abs()), nowRegistered, nowSm)
      ensures old(Consistent(Abs())) ==> (Consistent(Abs()) <==> old(HasRoom(Abs(), nowRegistered, nowSm)))
    {
      hide Consistent, HasRoom;
      if Consistent(Abs()) {
        PollConsistentIff(Abs(), nowRegistered, nowSm);
      }
      PollInPlace(nowRegistered, nowSm);
    }

    method PollInPlace(nowRegistered: bool, nowSm: SM.State)
      requires Valid()
      modifies this, ring, ring.slots
      ensures Valid() && Abs() == Poll(old(Abs()), nowRegistered, nowSm)
    {
      hide RemoveFirst;
      if !registered && nowRegistered {
        Enqueue(Home);
      }
      if registered && !nowRegistered {
        Enqueue(Deregistered);
      }
      if sm != SM.Establishing && nowSm == SM.Establishing {
        Enqueue(Attaching);
      }
      if sm != SM.Active && nowSm == SM.Active {
        DropFirst(ring, Attaching);
        Enqueue(Attached);
      }
      if sm == SM.Active && nowSm != SM.Active {
        DropFirst(ring, Attaching);
        Enqueue(Detached);
      }
      registered, sm := nowRegistered, nowSm;
    }
  }
}
