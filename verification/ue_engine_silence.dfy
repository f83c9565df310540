/**
  When a registration that nobody answers is given up by the engine.  Mobility management is
  not ticked while the engine waits for the core network, and that wait ends by timeout only
  over an RRC connection and while registering; without either the wait has no end.
 */
module UeEngineSilence {
  import MM = MobilityManagement
  import SM = SessionManagement
  import MP = MobilityManagementProofs
  import opened UeEngine
  import opened UeEngineProofs

  // ------------------------------------------------------ one silent tick

  /** A registration in progress that the wait for the core network keeps from timing out. */
  predicate Frozen(e: Engine) {
    MP.InProgress(e.mm) && e.rrc.waiting && !(e.rrc.state == RrcConnected && e.mm.phase == MM.REGISTERING)
  }

  function NextMm(e: Engine, i: Inputs): MM.Mobility {
    if e.rrc.waiting then e.mm
    else
      var mm := MM.Tick(e.mm, i.now);
      if mm.phase.state == MM.Searching && i.upForCell then MM.ToRegistering(mm) else mm
  }

  /** What a tick without downlink messages does to the RRC connection. */
  function NextRrc(rrc: Rrc, mm: MM.Mobility, i: Inputs): Rrc {
    var a := if rrc.state == RrcIdle && i.upForSetup && mm.requested
             then rrc.(state := SetupRequested, requestMs := i.now) else rrc;
    var b := if mm.phase.state == MM.Registering && mm.requested && a.state == RrcConnected
                && mm.pending != MM.Initial && !a.waiting && i.encodes
             then a.(waiting := true, completeMs := i.now, pdus := 0) else a;
    var c := if b.state == SetupRequested && Elapsed(i.now, b.requestMs, SETUP_TIMEOUT_MS)
             then b.(state := RrcIdle) else b;
    var d := if c.waiting && c.state == RrcConnected && mm.phase.state == MM.Registering
                && Elapsed(i.now, c.completeMs, CORE_TIMEOUT_MS)
             then c.(waiting := false, state := RrcIdle) else c;
    if !i.upAtEnd && d.state != RrcIdle then d.(state := RrcIdle) else d
  }

  lemma SilentTick(e: Engine, i: Inputs, net: SM.Adapter)
    requires Settled(e) && MP.InProgress(e.mm) && i.pdus == []
    ensures var t := Tick(e, i, net);
            Settled(t) && t.mm == NextMm(e, i) && t.rrc == NextRrc(e.rrc, t.mm, i)
  {
    hide MmInv, SmInv, SM.Tick, MM.Tick;
    TickCouples(e, i, net);
    TickRadio(e, i, net);
    assert RecoverFromLoss(e, i.lost) == e;
    var a := TickMachines(e, i.now, net);
    NotRegistered(e, i.now);
    assert AutoConnect(a) == a;
    assert Drain(a, i.pdus, i.now, net) == a;
    ProgressParts(a, i);
    hide Progress;
  }

  lemma ProgressParts(e: Engine, i: Inputs)
    requires AutoConnect(e) == e
    ensures var mm := SelectCell(e, i.upForCell).mm;
            Progress(e, i).mm == mm && Progress(e, i).rrc == NextRrc(e.rrc, mm, i)
  {
  }

  lemma NotRegistered(e: Engine, now: nat)
    requires MP.InProgress(e.mm)
    ensures MM.Tick(e.mm, now).phase.state != MM.RegisteredHome
  {
  }

  lemma TickRadio(e: Engine, i: Inputs, net: SM.Adapter)
    requires Inv(e) && e.radio
    ensures Tick(e, i, net).radio
  {
    hide MmInv, SmInv, RecoverFromLoss, TickMachines, Drain, Progress;
    RecoverKeeps(e, i.lost);
    var a := RecoverFromLoss(e, i.lost);
    MachinesKeep(a, i.now, net);
    var b := TickMachines(a, i.now, net);
    DrainKeeps(b, i.pdus, i.now, net);
    ProgressKeeps(Drain(b, i.pdus, i.now, net), i);
  }

  /** The link is down at the end of a tick that has, or starts, a wait which does not time out in it. */
  predicate Freezes(e: Engine, i: Inputs) {
    && MP.InProgress(e.mm) && e.rrc.state == RrcConnected && !i.upAtEnd
    && if e.rrc.waiting then e.mm.phase == MM.REGISTERING && !Elapsed(i.now, e.rrc.completeMs, CORE_TIMEOUT_MS)
       else NextMm(e, i).phase == MM.REGISTERING && e.mm.pending != MM.Initial && i.encodes
  }

  lemma FreezesIff(e: Engine, i: Inputs, net: SM.Adapter)
    requires Settled(e) && MP.InProgress(e.mm) && !Frozen(e) && i.pdus == []
    ensures Frozen(Tick(e, i, net)) <==> Freezes(e, i)
  {
    hide Tick, MmInv, SmInv;
    SilentTick(e, i, net);
    MmShape(e, i);
  }

  lemma MmShape(e: Engine, i: Inputs)
    requires Settled(e) && MP.InProgress(e.mm)
    ensures var mm := NextMm(e, i);
            && mm.pending == e.mm.pending && mm.max == e.mm.max
            && (MP.InProgress(mm) ==> mm.requested)
            && (MP.InProgress(mm) || (mm.phase == MM.Quiet(MM.Deregistered) && !mm.requested))
  {
  }

  /** However the link behaves: without downlink messages a frozen registration stays as it is. */
  lemma FrozenStays(e: Engine, i: Inputs, net: SM.Adapter)
    requires Settled(e) && Frozen(e) && i.pdus == []
    ensures Settled(Tick(e, i, net)) && Frozen(Tick(e, i, net)) && Tick(e, i, net).mm == e.mm
  {
    hide Tick, MmInv, SmInv;
    SilentTick(e, i, net);
  }

  // ------------------------------------------------------------ progress

  /** Steps of the registration still to come, were it never to wait for the core network. */
  function Steps(mm: MM.Mobility): nat
    requires mm.retry <= mm.max
  {
    3 * (mm.max - mm.retry)
    + (if mm.phase == MM.SEARCHING then if mm.deadline == 0 then 3 else 2 else if mm.deadline == 0 then 1 else 0)
  }

  /** Timeouts that fit into what is left of the wait at time `t`. */
  function WaitLeft(completeMs: nat, t: nat): nat {
    if completeMs + CORE_TIMEOUT_MS < t then 0 else (completeMs + CORE_TIMEOUT_MS - t) / MM.TIMEOUT_MS + 1
  }

  function WaitSteps(rrc: Rrc, t: nat): nat {
    if rrc.state != RrcConnected then 0 else if rrc.waiting then 1 + WaitLeft(rrc.completeMs, t) else 17
  }

  /** How many timeouts may pass, counted from `t`, before the registration is given up. */
  function Rank(e: Engine, t: nat): nat
    requires e.mm.retry <= e.mm.max
  {
    2 * (Steps(e.mm) + WaitSteps(e.rrc, t)) + (if e.mm.deadline > t + MM.TIMEOUT_MS then 1 else 0)
  }

  predicate GaveUp(e: Engine) { e.mm.phase == MM.Quiet(MM.Deregistered) && !e.mm.requested }

  /** A registration that still runs at time `p`; its timer was armed no later than that. */
  predicate Running(e: Engine, p: nat) {
    Settled(e) && MP.InProgress(e.mm) && !Frozen(e) && e.mm.deadline <= p + MM.TIMEOUT_MS
  }

  lemma RunningBound(e: Engine, p: nat)
    requires Running(e, p)
    ensures e.mm.retry <= e.mm.max
  {
  }

  /** While not waiting, every due tick, and every tick that finds a cell, takes a step. */
  lemma MmProgress(e: Engine, i: Inputs, t: nat, p: nat)
    requires Running(e, p) && !e.rrc.waiting && t <= p <= i.now
    ensures var mm := NextMm(e, i);
            MP.InProgress(mm) ==>
              && mm.retry <= mm.max && mm.deadline <= i.now + MM.TIMEOUT_MS && Steps(mm) <= Steps(e.mm)
              && (Steps(mm) == Steps(e.mm) ==> mm.deadline == e.mm.deadline > i.now)
  {
  }

  lemma WaitShrinks(completeMs: nat, t: nat, now: nat)
    requires t + MM.TIMEOUT_MS <= now && !Elapsed(now, completeMs, CORE_TIMEOUT_MS)
    ensures WaitLeft(completeMs, now) < WaitLeft(completeMs, t)
  {
    var x := completeMs + CORE_TIMEOUT_MS - now;
    assert completeMs + CORE_TIMEOUT_MS - t >= x + MM.TIMEOUT_MS;
    assert (x + MM.TIMEOUT_MS) / MM.TIMEOUT_MS == x / MM.TIMEOUT_MS + 1;
    DivMonotone(x + MM.TIMEOUT_MS, completeMs + CORE_TIMEOUT_MS - t);
  }

  lemma DivMonotone(a: nat, b: nat)
    requires a <= b
    ensures a / MM.TIMEOUT_MS <= b / MM.TIMEOUT_MS
  {
  }

  lemma NewWait(now: nat, t: nat)
    requires t <= now < t + MM.TIMEOUT_MS
    ensures WaitLeft(now, t) <= 14
  {
  }

  /** The time from which timeouts are counted: it moves when one has passed. */
  function Beat(t: nat, now: nat): nat { if t + MM.TIMEOUT_MS <= now then now else t }

  lemma WaitProgress(e: Engine, i: Inputs, t: nat, mm: MM.Mobility)
    requires t <= i.now && !Frozen(e) && MP.InProgress(e.mm) && MP.InProgress(mm) && (e.rrc.waiting ==> mm == e.mm)
    requires var rrc := NextRrc(e.rrc, mm, i); rrc.waiting ==> rrc.state == RrcConnected
    ensures var rrc := NextRrc(e.rrc, mm, i);
            && WaitSteps(rrc, Beat(t, i.now)) <= WaitSteps(e.rrc, t)
            && (e.rrc.waiting && t + MM.TIMEOUT_MS <= i.now ==>
                  WaitSteps(rrc, Beat(t, i.now)) < WaitSteps(e.rrc, t))
  {
    hide WaitLeft;
    var rrc := NextRrc(e.rrc, mm, i);
    if e.rrc.waiting {
      if rrc.waiting && t + MM.TIMEOUT_MS <= i.now {
        WaitShrinks(e.rrc.completeMs, t, i.now);
      }
    } else if rrc.waiting {
      FreshWait(i.now);
      if i.now < t + MM.TIMEOUT_MS {
        NewWait(i.now, t);
      }
    }
  }

  lemma FreshWait(now: nat)
    ensures WaitLeft(now, now) <= 14
  {
  }

  /** A silent tick that does not freeze the registration gives it up or keeps it running, closer to the end. */
  lemma TickProgress(e: Engine, i: Inputs, t: nat, p: nat, net: SM.Adapter)
    requires Running(e, p) && t <= p <= i.now && i.pdus == [] && !Freezes(e, i)
    ensures var u := Tick(e, i, net);
            && Settled(u)
            && (GaveUp(u)
                || (&& Running(u, i.now) && u.mm.retry <= u.mm.max && e.mm.retry <= e.mm.max
                    && Rank(u, Beat(t, i.now)) + (if t + MM.TIMEOUT_MS <= i.now then 1 else 0) <= Rank(e, t)))
  {
    hide Tick, MmInv, SmInv, NextMm, NextRrc, Steps, WaitSteps, Freezes, Frozen;
    var u := Tick(e, i, net);
    SilentTick(e, i, net);
    FreezesIff(e, i, net);
    MmShape(e, i);
    RunningBound(e, p);
    if !GaveUp(u) {
      NotFrozen(u);
      Paused(e, i);
      if !e.rrc.waiting {
        MmProgress(e, i, t, p);
      }
      WaitProgress(e, i, t, u.mm);
    }
  }

  lemma NotFrozen(e: Engine)
    requires MP.InProgress(e.mm) && !Frozen(e)
    ensures e.rrc.waiting ==> e.rrc.state == RrcConnected
  {
  }

  lemma Paused(e: Engine, i: Inputs)
    ensures e.rrc.waiting ==> NextMm(e, i) == e.mm
  {
  }

  // ---------------------------------------------------------- whole runs

  function Ticks(inputs: seq<Inputs>): seq<Event> {
    if inputs == [] then [] else [TickEv(inputs[0])] + Ticks(inputs[1..])
  }

  /** No downlink message, and time does not run backwards from `p`. */
  predicate Silence(p: nat, inputs: seq<Inputs>)
    decreases |inputs|
  {
    inputs == []
    || (inputs[0].pdus == [] && p <= inputs[0].now && Silence(inputs[0].now, inputs[1..]))
  }

  /** Timeouts that pass after `t`, as far as the ticks notice. */
  function Beats(t: nat, inputs: seq<Inputs>): nat
    decreases |inputs|
  {
    if inputs == [] then 0
    else (if t + MM.TIMEOUT_MS <= inputs[0].now then 1 else 0) + Beats(Beat(t, inputs[0].now), inputs[1..])
  }

  predicate NeverFreezes(e: Engine, inputs: seq<Inputs>, net: SM.Adapter)
    decreases |inputs|
  {
    inputs == [] || (!Freezes(e, inputs[0]) && NeverFreezes(Tick(e, inputs[0], net), inputs[1..], net))
  }

  lemma RunTicks(e: Engine, inputs: seq<Inputs>, net: SM.Adapter)
    ensures Run(e, Ticks(inputs), net)
         == if inputs == [] then e else Run(Tick(e, inputs[0], net), Ticks(inputs[1..]), net)
  {
    hide Tick;
    if inputs != [] {
      assert Ticks(inputs)[1..] == Ticks(inputs[1..]);
    }
  }

  lemma {:induction false} FrozenForever(e: Engine, inputs: seq<Inputs>, p: nat, net: SM.Adapter)
    requires Settled(e) && Frozen(e) && Silence(p, inputs)
    ensures Run(e, Ticks(inputs), net).mm == e.mm && MP.InProgress(e.mm)
    decreases |inputs|
  {
    hide Run, Ticks, Tick, Settled;
    RunTicks(e, inputs, net);
    if inputs != [] {
      FrozenStays(e, inputs[0], net);
      FrozenForever(Tick(e, inputs[0], net), inputs[1..], inputs[0].now, net);
    }
  }

  lemma OutTick(e: Engine, i: Inputs, net: SM.Adapter)
    requires Settled(e) && GaveUp(e) && i.pdus == []
    ensures Settled(Tick(e, i, net)) && GaveUp(Tick(e, i, net)) && !Freezes(e, i)
  {
    hide MmInv, SmInv, SM.Tick;
    TickCouples(e, i, net);
    TickRadio(e, i, net);
    assert RecoverFromLoss(e, i.lost) == e;
  }

  lemma {:induction false} StaysOut(e: Engine, inputs: seq<Inputs>, p: nat, net: SM.Adapter)
    requires Settled(e) && GaveUp(e) && Silence(p, inputs)
    ensures Run(e, Ticks(inputs), net).mm.phase.state == MM.Deregistered && NeverFreezes(e, inputs, net)
    decreases |inputs|
  {
    hide Run, Ticks, Tick, Settled, Freezes;
    RunTicks(e, inputs, net);
    if inputs != [] {
      OutTick(e, inputs[0], net);
      StaysOut(Tick(e, inputs[0], net), inputs[1..], inputs[0].now, net);
    }
  }

  /**
    A registration nobody answers, under any behaviour of the link and ticks at any times: once
    enough timeouts have passed it is given up if and only if the link was never found down
    during a wait for the core network that had not timed out.
   */
  lemma {:induction false} GivenUpIff(e: Engine, inputs: seq<Inputs>, t: nat, p: nat, net: SM.Adapter)
    requires Running(e, p) && t <= p && Silence(p, inputs) && e.mm.retry <= e.mm.max && Beats(t, inputs) > Rank(e, t)
    ensures Run(e, Ticks(inputs), net).mm.phase.state == MM.Deregistered <==> NeverFreezes(e, inputs, net)
    decreases |inputs|
  {
    hide Run, Ticks, Tick, Settled, Freezes, Frozen, Rank;
    RunTicks(e, inputs, net);
    var i := inputs[0];
    var u := Tick(e, i, net);
    RunningParts(e, p);
    if Freezes(e, i) {
      FreezesIff(e, i, net);
      SilentTick(e, i, net);
      FrozenForever(u, inputs[1..], i.now, net);
    } else {
      TickProgress(e, i, t, p, net);
      if GaveUp(u) {
        StaysOut(u, inputs[1..], i.now, net);
      } else {
        GivenUpIff(u, inputs[1..], Beat(t, i.now), i.now, net);
      }
    }
  }

  lemma RunningParts(e: Engine, p: nat)
    requires Running(e, p)
    ensures Settled(e) && MP.InProgress(e.mm) && !Frozen(e)
  {
  }

  predicate AlwaysUp(inputs: seq<Inputs>) { inputs == [] || (inputs[0].upAtEnd && AlwaysUp(inputs[1..])) }

  lemma {:induction false} UpNeverFreezes(e: Engine, inputs: seq<Inputs>, net: SM.Adapter)
    requires AlwaysUp(inputs)
    ensures NeverFreezes(e, inputs, net)
    decreases |inputs|
  {
    hide Tick;
    if inputs != [] {
      UpNeverFreezes(Tick(e, inputs[0], net), inputs[1..], net);
    }
  }

  /** Over a link that stays up, a registration nobody answers is always given up. */
  lemma GivenUpOverLink(e: Engine, inputs: seq<Inputs>, t: nat, p: nat, net: SM.Adapter)
    requires Running(e, p) && t <= p && Silence(p, inputs) && e.mm.retry <= e.mm.max && Beats(t, inputs) > Rank(e, t)
    requires AlwaysUp(inputs)
    ensures Run(e, Ticks(inputs), net).mm.phase.state == MM.Deregistered
  {
    hide Run, Ticks, Running, Rank;
    UpNeverFreezes(e, inputs, net);
    GivenUpIff(e, inputs, t, p, net);
  }

  // -------------------------------------------------- a registration without end

  const UP := Inputs(0, false, true, true, true, true, [])

  const SETUP := Inputs(1, false, true, true, true, true, [RrcSetup])

  const DOWN := Inputs(2, true, false, false, false, true, [])

  lemma AfterSetup(net: SM.Adapter)
    ensures var e := Tick(Tick(RequestRegistration(Init(true), MM.Initial), UP, net), SETUP, net);
            && e.radio && e.mm.phase == MM.REGISTERING && e.sm.phase == SM.INACTIVE
            && e.rrc.state == RrcConnected && e.rrc.waiting && e.rrc.completeMs == 1
  {
    var a := RequestRegistration(Init(true), MM.Initial);
    var b := Tick(a, UP, net);
    assert b.radio && b.mm.phase == MM.REGISTERING && b.mm.requested;
    assert b.mm.deadline == 0 && b.mm.pending == MM.Initial;
    assert b.sm.phase == SM.INACTIVE && b.rrc == Rrc(SetupRequested, 0, 0, 0, false);
    var c := TickMachines(b, 1, net);
    assert Drain(c, [RrcSetup], 1, net) == ProcessPdu(c, RrcSetup, 1, net);
  }

  function AfterLoss(net: SM.Adapter): Engine {
    Tick(Tick(Tick(RequestRegistration(Init(true), MM.Initial), UP, net), SETUP, net), DOWN, net)
  }

  lemma LossFreezes(net: SM.Adapter)
    ensures Settled(AfterLoss(net)) && Frozen(AfterLoss(net)) && AfterLoss(net).mm.phase == MM.REGISTERING
  {
    var a := RequestRegistration(Init(true), MM.Initial);
    var b := Tick(a, UP, net);
    var c := Tick(b, SETUP, net);
    AfterSetup(net);
    StepKeeps(Init(true), RegisterEv(MM.Initial), net);
    hide Tick, RequestRegistration, MmInv, SmInv;
    TickCouples(a, UP, net);
    TickCouples(b, SETUP, net);
    SilentTick(c, DOWN, net);
    FreezesIff(c, DOWN, net);
  }

  /** From power-up: the link is lost right after RRC setup; the registration never ends while nothing arrives. */
  lemma LinkLossFreezes(inputs: seq<Inputs>, p: nat, net: SM.Adapter)
    requires Silence(p, inputs)
    ensures Run(Init(true), [RegisterEv(MM.Initial), TickEv(UP), TickEv(SETUP), TickEv(DOWN)] + Ticks(inputs), net)
              .mm.phase == MM.REGISTERING
  {
    hide Tick, Run, RequestRegistration, Settled, Frozen, Ticks, Silence;
    LossFreezes(net);
    FrozenForever(AfterLoss(net), inputs, p, net);
    RunFour(Init(true), RegisterEv(MM.Initial), TickEv(UP), TickEv(SETUP), TickEv(DOWN), Ticks(inputs), net);
  }

  lemma RunFour(e: Engine, a: Event, b: Event, c: Event, d: Event, rest: seq<Event>, net: SM.Adapter)
    ensures Run(e, [a, b, c, d] + rest, net)
         == Run(Step(Step(Step(Step(e, a, net), b, net), c, net), d, net), rest, net)
  {
    hide Step, Run;
    assert [a, b, c, d] + rest == [a] + ([b] + ([c] + ([d] + rest)));
    RunHead(e, a, [b] + ([c] + ([d] + rest)), net);
    RunHead(Step(e, a, net), b, [c] + ([d] + rest), net);
    RunHead(Step(Step(e, a, net), b, net), c, [d] + rest, net);
    RunHead(Step(Step(Step(e, a, net), b, net), c, net), d, rest, net);
  }

  lemma RunHead(e: Engine, ev: Event, es: seq<Event>, net: SM.Adapter)
    ensures Run(e, [ev] + es, net) == Run(Step(e, ev, net), es, net)
  {
    hide Step;
    assert ([ev] + es)[1..] == es;
  }
}
