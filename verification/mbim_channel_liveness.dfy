/**
  The control channel against a host that reads only when the doorbell rings, and the
  exact conditions under which the two weak spots of the protocol show.
 */
module MbimChannelLiveness {
  import opened Options
  import opened Rings
  import opened MbimChannel
  import opened MbimChannelProofs

  // ---- Every indication is moved once, in order ----

  /** The bridge indications among `ms`, in order. */
  function BridgeInds(ms: seq<Message>): seq<BridgeInd>
  {
    if ms == [] then []
    else if ms[0].Indicate? && ms[0].what.FromBridge? then [ms[0].what.ind] + BridgeInds(ms[1..])
    else BridgeInds(ms[1..])
  }

  lemma {:induction false} BridgeIndsConcat(a: seq<Message>, b: seq<Message>)
    ensures BridgeInds(a + b) == BridgeInds(a) + BridgeInds(b)
  {
    if a == [] {
      assert a + b == b;
    } else {
      assert (a + b)[1..] == a[1..] + b;
      BridgeIndsConcat(a[1..], b);
    }
  }

  lemma {:induction false} DrainBridgeMoves(s: Channel)
    ensures BridgeInds(DrainBridge(s).resp) + DrainBridge(s).bridge == BridgeInds(s.resp) + s.bridge
    ensures DrainBridge(s).sms == s.sms && DrainBridge(s).nextIndex == s.nextIndex
    ensures DrainBridge(s).syncPending == s.syncPending
    ensures DrainBridge(s).bridge == [] || RespFull(DrainBridge(s))
    ensures DrainBridge(s).held == s.held
    decreases |s.bridge|
  {
    if !RespFull(s) && s.bridge != [] {
      var t := TakeBridge(s);
      DrainBridgeMoves(t);
      BridgeIndsConcat(s.resp, [Indicate(FromBridge(s.bridge[0]))]);
      assert s.bridge == [s.bridge[0]] + s.bridge[1..];
    }
  }

  /** One turn of the SMS loop, as seen from the other queues. */
  lemma TakeSmsFacts(s: Channel)
    requires !RespFull(s) && s.sms != []
    ensures var t := TakeSms(s);
      && t.sms == s.sms[1..] && t.bridge == s.bridge && t.held == s.held
      && t.syncPending == s.syncPending && t.lteAttach == s.lteAttach
      && BridgeInds(t.resp) == BridgeInds(s.resp)
      && (if Storable(s.sms[0]) then |t.resp| == |s.resp| + 1 && t.nextIndex == s.nextIndex + 1
          else t.resp == s.resp && t.nextIndex == s.nextIndex)
  {
    if Storable(s.sms[0]) {
      var m := Indicate(SmsStored(s.nextIndex));
      BridgeIndsConcat(s.resp, [m]);
      assert TakeSms(s).resp == s.resp + [m];
    } else {
      assert TakeSms(s) == s.(src := s.src.(sms := s.sms[1..]));
    }
  }

  lemma {:induction false} DrainSmsKeepsBridge(s: Channel)
    ensures DrainSms(s).bridge == s.bridge && BridgeInds(DrainSms(s).resp) == BridgeInds(s.resp)
    decreases |s.sms|
  {
    if !RespFull(s) && s.sms != [] {
      TakeSmsFacts(s);
      DrainSmsKeepsBridge(TakeSms(s));
    }
  }

  lemma PushKeepsBridgeInds(s: Channel, m: Message)
    requires !(m.Indicate? && m.what.FromBridge?)
    ensures BridgeInds(Push(s, m).resp) == BridgeInds(s.resp)
  {
    BridgeIndsConcat(s.resp, [m]);
  }

  lemma DrainHeadKeepsBridge(s: Channel)
    ensures var b := DrainLte(DrainSync(s)); b.bridge == s.bridge && BridgeInds(b.resp) == BridgeInds(s.resp)
  {
    var a := DrainSync(s);
    PushKeepsBridgeInds(s.(src := s.src.(syncPending := false, syncSent := true)), Indicate(SyncInd));
    assert a.bridge == s.bridge && BridgeInds(a.resp) == BridgeInds(s.resp);
    PushKeepsBridgeInds(a, Indicate(LteAttachStatus));
  }

  lemma DrainReadKeepsBridge(c: Channel, s: Channel, fits: bool)
    ensures var t := DrainRead(c, s, fits); t.bridge == s.bridge && BridgeInds(t.resp) == BridgeInds(s.resp)
  {
    PushKeepsBridgeInds(s, Indicate(SmsRead));
  }

  /**
    The drain moves bridge indications into the response queue once each, in order, and
    leaves the ones that do not fit where they are.
   */
  lemma DrainLosesNothing(s: Channel, fits: bool)
    ensures BridgeInds(Drain(s, fits).resp) + Drain(s, fits).bridge == BridgeInds(s.resp) + s.bridge
  {
    if s.held == [] {
      var b := DrainLte(DrainSync(s));
      DrainHeadKeepsBridge(s);
      DrainBridgeMoves(b);
      var c := DrainBridge(b);
      DrainSmsKeepsBridge(c);
      DrainReadKeepsBridge(c, DrainSms(c), fits);
    }
  }

  // ---- A host that issues a GET only when rung ----

  /** Everything that still has to reach the host, weighted by the most messages it can become. */
  ghost function Work(s: Channel): (n: nat)
  {
    |s.resp| + 4 * |s.held| + 2 * |s.bridge| + 2 * |s.sms|
    + (if s.syncPending then 1 else 0) + (if s.lteAttach then 1 else 0)
  }

  lemma {:induction false} DrainBridgeWork(s: Channel)
    ensures Work(DrainBridge(s)) <= Work(s)
    decreases |s.bridge|
  {
    if !RespFull(s) && s.bridge != [] { DrainBridgeWork(TakeBridge(s)); }
  }

  /** Each stored SMS frees one unit, which pays for the push that may follow. */
  lemma {:induction false} DrainSmsWork(s: Channel)
    ensures Work(DrainSms(s)) + (if DrainSms(s).nextIndex > s.nextIndex then 1 else 0) <= Work(s)
    ensures DrainSms(s).nextIndex >= s.nextIndex
    ensures DrainSms(s).sms == [] || RespFull(DrainSms(s))
    ensures DrainSms(s).held == s.held && DrainSms(s).bridge == s.bridge
    ensures DrainSms(s).syncPending == s.syncPending && DrainSms(s).lteAttach == s.lteAttach
    decreases |s.sms|
  {
    if !RespFull(s) && s.sms != [] {
      TakeSmsFacts(s);
      DrainSmsWork(TakeSms(s));
    }
  }

  lemma DrainHeadWork(s: Channel)
    ensures Work(DrainLte(DrainSync(s))) <= Work(s)
  {
    var a := DrainSync(s);
    assert Work(a) <= Work(s);
    assert Work(DrainLte(a)) <= Work(a);
  }

  lemma DrainReadWork(c: Channel, s: Channel, fits: bool)
    ensures Work(DrainRead(c, s, fits)) <= Work(s) + (if s.nextIndex > c.nextIndex then 1 else 0)
  {
  }

  lemma DrainWork(s: Channel, fits: bool)
    ensures Work(Drain(s, fits)) <= Work(s)
  {
    if s.held == [] {
      var b := DrainLte(DrainSync(s));
      DrainHeadWork(s);
      DrainBridgeWork(b);
      var c := DrainBridge(b);
      DrainSmsWork(c);
      DrainReadWork(c, DrainSms(c), fits);
    }
  }

  lemma {:induction false} DrainBridgeEmpty(s: Channel)
    requires |s.resp| <= CAPACITY && DrainBridge(s).resp == []
    ensures DrainBridge(s) == s && s.bridge == []
    decreases |s.bridge|
  {
    if s.bridge != [] {
      DrainBridgeExtends(s);
      DrainBridgeExtends(TakeBridge(s));
      assert false;
    }
  }

  /** A drain that leaves the queue empty had nothing left to move. */
  lemma DrainEmptyMeansIdle(s: Channel, fits: bool)
    requires s.held == [] && |s.resp| <= CAPACITY && Drain(s, fits).resp == []
    ensures Work(Drain(s, fits)) == 0
  {
    var b := DrainLte(DrainSync(s));
    var c := DrainBridge(b);
    DrainBridgeExtends(b);
    DrainSmsExtends(c);
    DrainBridgeEmpty(b);
    DrainSmsWork(c);
  }

  lemma ProcessHeldWork(s: Channel)
    requires s.resp == [] && s.held != [] && s.held[0].kind == CommandMsg && s.inGet && |s.bridge| <= CAPACITY
    ensures Work(ProcessHeld(s)) < Work(s)
  {
    hide Prepare, Respond;
    ProcessHeldQuiet(s);
    var c := s.held[0];
    var u := s.(held := s.held[1..]);
    PrepareSources(u, c);
    RespondSources(Prepare(u, c));
  }

  /** What dispatching a command can add to the sources. */
  lemma PrepareSources(s: Channel, c: Command)
    requires c.kind == CommandMsg
    ensures var t := Prepare(s, c);
      && t.sms == s.sms && t.lteAttach == s.lteAttach
      && (t.bridge == s.bridge || (|t.bridge| <= |s.bridge| + 1 && t.syncPending == s.syncPending))
  {
    hide CtlSync;
    if c.len >= COMMAND_HEADER && c.ctlSync {
      CtlSyncSources(s.(last := None), c);
    }
  }

  lemma RespondSources(s: Channel)
    ensures var t := Respond(s);
      t.sms == s.sms && t.lteAttach == s.lteAttach && t.bridge == s.bridge && t.syncPending == s.syncPending
  {
  }

  lemma CtlSyncSources(s: Channel, c: Command)
    ensures var t := CtlSync(s, c);
            t.sms == s.sms && t.lteAttach == s.lteAttach && t.bridge == s.bridge && t.last == s.last
  {
  }

  lemma TakeResponseWork(s: Channel)
    requires Alert(s) && s.resp != []
    ensures Work(TakeResponse(s)) < Work(s)
  {
    hide ProcessHeld;
    var a := s.(resp := s.resp[1..], bell := s.bell.(inGet := true, armed := false, outstanding := 0));
    assert Work(a) < Work(s);
    if a.resp == [] && a.held != [] {
      assert s.held[0] in s.held;
      ProcessHeldWork(a);
    }
  }

  lemma GetWork(s: Channel, fits: bool)
    requires Alert(s) && s.resp != []
    ensures Work(Get(s, fits)) < Work(s)
  {
    hide Drain, TakeResponse;
    TakeResponseWork(s);
    DrainWork(TakeResponse(s), fits);
    assert Work(Get(s, fits)) == Work(Drain(TakeResponse(s), fits));
  }

  /** The events of one round: a tick, and a GET if the tick leaves the doorbell rung. */
  function Round(s: Channel, tickFits: bool, getFits: bool): (es: seq<Event>)
  {
    if Tick(s, tickFits).armed then [TickEv(tickFits), GetEv(getFits)] else [TickEv(tickFits)]
  }

  /** The events of as many rounds as there are `choices`. */
  function Rounds(s: Channel, choices: seq<(bool, bool)>): (es: seq<Event>)
    ensures NoSends(es)
    decreases |choices|
  {
    if choices == [] then []
    else
      hide Round, Run;
      var r := Round(s, choices[0].0, choices[0].1);
      var rest := Rounds(Run(s, r), choices[1..]);
      RoundNoSends(s, choices[0].0, choices[0].1);
      NoSendsConcat(r, rest);
      r + rest
  }

  lemma RoundNoSends(s: Channel, f: bool, g: bool)
    ensures NoSends(Round(s, f, g))
  {
    hide Tick;
    assert NoSends([]);
    assert [GetEv(g)][1..] == [] && [TickEv(f)][1..] == [];
    assert NoSends([GetEv(g)]) && NoSends([TickEv(f)]);
    assert [TickEv(f), GetEv(g)][1..] == [GetEv(g)];
  }

  lemma {:induction false} NoSendsConcat(a: seq<Event>, b: seq<Event>)
    requires NoSends(a) && NoSends(b)
    ensures NoSends(a + b)
    decreases |a|
  {
    if a == [] {
      assert a + b == b;
    } else {
      assert (a + b)[1..] == a[1..] + b;
      NoSendsConcat(a[1..], b);
    }
  }

  lemma RunRound(s: Channel, f: bool, g: bool)
    ensures Run(s, Round(s, f, g)) == if Tick(s, f).armed then Get(Tick(s, f), g) else Tick(s, f)
  {
    hide Tick, Get;
    var t := Tick(s, f);
    if t.armed {
      assert Round(s, f, g)[1..] == [GetEv(g)];
      assert Run(t, [GetEv(g)]) == Run(Get(t, g), []);
    }
  }

  lemma {:induction false} RunConcat(s: Channel, a: seq<Event>, b: seq<Event>)
    ensures Run(s, a + b) == Run(Run(s, a), b)
    decreases |a|
  {
    hide Step;
    if a == [] {
      assert a + b == b;
    } else {
      assert (a + b)[1..] == a[1..] + b;
      RunConcat(Step(s, a[0]), a[1..], b);
    }
  }

  /** Each round gets something done, if anything is left to do and no command is held behind nothing. */
  lemma RoundProgress(s: Channel, f: bool, g: bool)
    requires Alert(s) && Served(s) && s.epUp
    ensures var t := Run(s, Round(s, f, g));
            Alert(t) && t.epUp && (Work(s) == 0 ==> Work(t) == 0) && (Work(s) > 0 ==> Work(t) < Work(s))
  {
    hide Drain, TakeResponse, Run, Round, AllCommands;
    RunRound(s, f, g);
    var t := Tick(s, f);
    TickKeepsAlert(s, f);
    DrainExtends(s, f);
    DrainWork(s, f);
    if t.armed {
      GetKeepsAlert(t, g);
      GetWork(t, g);
    } else {
      DrainEmptyMeansIdle(s, f);
    }
  }

  lemma RoundKeepsInv(s: Channel, f: bool, g: bool)
    requires Inv(s)
    ensures Inv(Run(s, Round(s, f, g)))
  {
    hide Tick, Get, Run, Round, Inv;
    RunRound(s, f, g);
    TickKeepsInv(s, f);
    if Tick(s, f).armed {
      GetKeepsInv(Tick(s, f), g);
    }
  }

  /**
    No message is stranded: with the endpoint up, a host that issues a GET only when the
    doorbell has rung empties every queue within Work(s) rounds, and what it was owed is
    the first thing it receives.
   */
  lemma {:induction false} NothingStranded(s: Channel, choices: seq<(bool, bool)>)
    requires Inv(s) && s.epUp && |choices| >= Work(s)
    ensures Work(Run(s, Rounds(s, choices))) == 0
    ensures Owed(s) <= Deliveries(s, Rounds(s, choices))
    decreases |choices|
  {
    hide Run, Round, Inv, Deliveries;
    RoundsFinish(s, choices);
    var es := Rounds(s, choices);
    DeliveredInOrder(s, es);
    assert Owed(Run(s, es)) == [];
    assert Deliveries(s, es) + [] == Deliveries(s, es);
  }

  lemma {:induction false} RoundsFinish(s: Channel, choices: seq<(bool, bool)>)
    requires Inv(s) && s.epUp && |choices| >= Work(s)
    ensures Work(Run(s, Rounds(s, choices))) == 0
    decreases |choices|
  {
    hide Step, Round, Inv, Work;
    if choices != [] {
      var r := Round(s, choices[0].0, choices[0].1);
      assert Alert(s) && Served(s) by { InvParts(s); }
      RoundProgress(s, choices[0].0, choices[0].1);
      RoundKeepsInv(s, choices[0].0, choices[0].1);
      RoundsFinish(Run(s, r), choices[1..]);
      RunConcat(s, r, Rounds(Run(s, r), choices[1..]));
    }
  }

  lemma InvParts(s: Channel)
    requires Inv(s)
    ensures Alert(s) && Served(s)
  {
  }

  // ---- At most one doorbell outstanding: exactly when no session is closed under it ----

  /** A CLOSE arriving while a doorbell is outstanding: it forgets the doorbell and rings again. */
  predicate ClosesUnderDoorbell(s: Channel, e: Event) {
    e.SendEv? && e.cmd.kind == CloseMsg && e.cmd.len >= MESSAGE_HEADER && s.armed
  }

  lemma SendOutstanding(s: Channel, c: Command)
    requires Alert(s)
    ensures ClosesUnderDoorbell(s, SendEv(c)) ==> Send(s, c).outstanding == s.outstanding + 1
    ensures !ClosesUnderDoorbell(s, SendEv(c)) && s.armed ==> Send(s, c).outstanding == s.outstanding
    ensures !s.armed ==> Send(s, c).outstanding <= 1
  {
    hide Prepare, Respond, TrySend;
    if !(KindOf(c) == CommandMsg && HasCommandResponse(s)) {
      PrepareOutstanding(s, c);
      RespondOutstanding(Prepare(s, c));
    }
  }

  lemma PrepareOutstanding(s: Channel, c: Command)
    requires Alert(s)
    ensures var t := Prepare(s, c);
      && t.epUp == s.epUp && !t.inGet && s.resp <= t.resp
      && (c.kind == CloseMsg && c.len >= MESSAGE_HEADER ==> t.outstanding == s.outstanding && !t.armed && t.last.Some?)
      && (!(c.kind == CloseMsg && c.len >= MESSAGE_HEADER) && s.armed ==> t.outstanding == s.outstanding && t.armed)
      && (!s.armed ==> t.outstanding == 0 || (t.outstanding == 1 && t.armed))
  {
    hide CtlSync;
    if c.kind == CommandMsg && c.len >= COMMAND_HEADER && c.ctlSync {
      CtlSyncOutstanding(s.(last := None), c);
    } else {
      var t := Prepare(s, c);
      assert t.outstanding == s.outstanding && t.epUp == s.epUp && t.resp == s.resp && !t.inGet;
    }
  }

  lemma CtlSyncOutstanding(s: Channel, c: Command)
    requires Alert(s)
    ensures var t := CtlSync(s, c);
      && t.epUp == s.epUp && !t.inGet && s.resp <= t.resp
      && (s.armed ==> t.outstanding == s.outstanding && t.armed)
      && (!s.armed ==> t.outstanding == 0 || (t.outstanding == 1 && t.armed))
  {
    if !RespFull(s) {
      var u := s.(resp := s.resp + [CommandDone(c.tid)], bell := s.bell.(pending := true),
          src := s.src.(syncPending := !s.syncSent || s.syncPending));
      assert CtlSync(s, c) == TrySend(u);
    }
  }

  lemma RespondOutstanding(s: Channel)
    ensures var t := TrySend(Respond(s));
      && (s.armed ==> t.outstanding == s.outstanding)
      && t.outstanding <= s.outstanding + 1
      && (!s.armed && s.epUp && !s.inGet && s.last.Some? ==> t.outstanding == s.outstanding + 1)
  {
  }

  lemma StepOutstanding(s: Channel, e: Event)
    requires Alert(s) && s.outstanding <= 1
    ensures Step(s, e).outstanding <= 1 <==> !ClosesUnderDoorbell(s, e)
  {
    hide Drain, TakeResponse, Send;
    match e
    case SendEv(c) => SendOutstanding(s, c);
    case GetEv(fits) =>
      TakeResponseQuiet(s);
      DrainExtends(TakeResponse(s), fits);
    case TickEv(fits) => DrainExtends(s, fits);
    case _ =>
  }

  ghost predicate NeverClosesUnderDoorbell(s: Channel, es: seq<Event>)
    decreases |es|
  {
    es == [] || (!ClosesUnderDoorbell(s, es[0]) && NeverClosesUnderDoorbell(Step(s, es[0]), es[1..]))
  }

  ghost predicate AlwaysAtMostOne(s: Channel, es: seq<Event>)
    decreases |es|
  {
    s.outstanding <= 1 && (es == [] || AlwaysAtMostOne(Step(s, es[0]), es[1..]))
  }

  /** A run has at most one doorbell outstanding throughout exactly when no CLOSE comes under one. */
  lemma {:induction false} AtMostOneDoorbell(s: Channel, es: seq<Event>)
    requires Alert(s) && s.outstanding <= 1
    ensures AlwaysAtMostOne(s, es) <==> NeverClosesUnderDoorbell(s, es)
    decreases |es|
  {
    hide Step;
    if es != [] {
      StepKeepsAlert(s, es[0]);
      StepOutstanding(s, es[0]);
      if Step(s, es[0]).outstanding <= 1 { AtMostOneDoorbell(Step(s, es[0]), es[1..]); }
    }
  }

  /** OPEN then CLOSE before the host reads: two doorbells are outstanding. */
  lemma TwoDoorbells()
    ensures var up := Step(INITIAL, EndpointUp);
      var s := Send(Send(up, Command(OpenMsg, 16, 1, false, false)), Command(CloseMsg, 12, 2, false, false));
      s.outstanding == 2
  {
    var s := Send(Step(INITIAL, EndpointUp), Command(OpenMsg, 16, 1, false, false));
    assert s.resp == [OpenDone(1)] && s.armed && s.outstanding == 1;
    SendOutstanding(s, Command(CloseMsg, 12, 2, false, false));
  }

  // ---- Held commands behind an empty queue: exactly when a short command is answered first ----

  /** The oldest held command yields no answer: too short for the handlers, and no stale answer to repeat. */
  predicate HeadYieldsNothing(s: Channel)
    requires s.held != []
  {
    if s.held[0].len < MESSAGE_HEADER then s.last == None else s.held[0].len < COMMAND_HEADER
  }

  /** A GET that takes the last response while the oldest of several held commands yields no answer. */
  predicate ServesNothing(s: Channel, e: Event) {
    e.GetEv? && |s.resp| == 1 && |s.held| >= 2 && HeadYieldsNothing(s)
  }

  lemma HeldHeadAnswered(a: Channel)
    requires a.resp == [] && a.held != [] && a.held[0].kind == CommandMsg && a.inGet
    ensures ProcessHeld(a).held == a.held[1..]
    ensures ProcessHeld(a).resp == [] <==> HeadYieldsNothing(a)
  {
    if a.held[0].len >= COMMAND_HEADER { ProcessHeldAnswers(a); }
  }

  lemma GetServesIff(s: Channel, fits: bool)
    requires Alert(s) && Served(s)
    ensures Served(Get(s, fits)) <==> !ServesNothing(s, GetEv(fits))
  {
    hide ProcessHeld, Drain;
    var a := s.(resp := if s.resp == [] then [] else s.resp[1..],
                bell := s.bell.(inGet := true, armed := false, outstanding := 0));
    if a.resp == [] && a.held != [] {
      assert s.held[0] in s.held;
      HeldHeadAnswered(a);
    }
    DrainExtends(TakeResponse(s), fits);
  }

  lemma StepServesIff(s: Channel, e: Event)
    requires Alert(s) && Served(s)
    ensures Served(Step(s, e)) <==> !ServesNothing(s, e)
  {
    hide Get, Tick, Send, HeadYieldsNothing;
    match e
    case SendEv(c) => SendKeepsAlert(s, c);
    case GetEv(fits) => GetServesIff(s, fits);
    case TickEv(fits) => TickKeepsAlert(s, fits);
    case _ =>
  }

  ghost predicate AlwaysServed(s: Channel, es: seq<Event>)
    decreases |es|
  {
    Served(s) && (es == [] || AlwaysServed(Step(s, es[0]), es[1..]))
  }

  ghost predicate NeverServesNothing(s: Channel, es: seq<Event>)
    decreases |es|
  {
    es == [] || (!ServesNothing(s, es[0]) && NeverServesNothing(Step(s, es[0]), es[1..]))
  }

  /**
    With commands of any length, no command is held behind an empty queue at any point of a run
    exactly when no GET takes the last response over a held command that yields no answer.
   */
  lemma {:induction false} HeldBehindNothingIff(s: Channel, es: seq<Event>)
    requires Alert(s) && Served(s)
    ensures AlwaysServed(s, es) <==> NeverServesNothing(s, es)
    decreases |es|
  {
    hide Step, Alert, ServesNothing;
    if es != [] {
      StepKeepsAlert(s, es[0]);
      StepServesIff(s, es[0]);
      if Served(Step(s, es[0])) { HeldBehindNothingIff(Step(s, es[0]), es[1..]); }
    }
  }

  /** With command messages long enough for the handlers, no command is ever held behind an empty queue. */
  lemma {:induction false} LongCommandsServed(s: Channel, es: seq<Event>)
    requires Inv(s) && forall e :: e in es ==> LongEnough(e)
    ensures AlwaysServed(s, es) && Inv(Run(s, es))
    decreases |es|
  {
    hide Step, Inv;
    InvParts(s);
    RunKeepsInv(s, es);
    if es != [] {
      assert es[0] in es;
      StepKeepsInv(s, es[0]);
      LongCommandsServed(Step(s, es[0]), es[1..]);
    }
  }

  /** A command held behind an empty queue stays there for a host that reads only when rung. */
  lemma {:induction false} StrandedForever(s: Channel, choices: seq<(bool, bool)>)
    requires s.held != [] && s.resp == [] && !s.armed
    ensures Run(s, Rounds(s, choices)) == s
    decreases |choices|
  {
    hide Run, Round;
    if choices == [] {
      assert Run(s, []) == s by { RunNothing(s); }
    } else {
      var r := Round(s, choices[0].0, choices[0].1);
      assert Tick(s, choices[0].0) == s;
      RunRound(s, choices[0].0, choices[0].1);
      StrandedForever(s, choices[1..]);
      RunConcat(s, r, Rounds(s, choices[1..]));
    }
  }

  lemma RunNothing(s: Channel)
    ensures Run(s, []) == s
  {
  }

  lemma {:induction false} AlwaysServedConcat(s: Channel, a: seq<Event>, b: seq<Event>)
    ensures AlwaysServed(s, a + b) <==> AlwaysServed(s, a) && AlwaysServed(Run(s, a), b)
    decreases |a|
  {
    hide Step, Served;
    if a == [] {
      assert a + b == b;
      if b != [] { ServedFirst(s, b); }
    } else {
      assert (a + b)[1..] == a[1..] + b;
      AlwaysServedConcat(Step(s, a[0]), a[1..], b);
    }
  }

  lemma ServedFirst(s: Channel, es: seq<Event>)
    ensures AlwaysServed(s, es) ==> Served(s)
  {
  }

  /** Within a round only its end can leave a command behind an empty queue. */
  lemma RoundServed(s: Channel, f: bool, g: bool)
    requires Alert(s) && Served(s)
    ensures AlwaysServed(s, Round(s, f, g)) <==> Served(Run(s, Round(s, f, g)))
  {
    hide Tick, Get, Served, Alert;
    var t := Tick(s, f);
    TickKeepsAlert(s, f);
    RunRound(s, f, g);
    assert [TickEv(f)][1..] == [] && [GetEv(g)][1..] == [];
    assert AlwaysServed(t, []) <==> Served(t);
    if t.armed {
      assert [TickEv(f), GetEv(g)][1..] == [GetEv(g)];
      assert AlwaysServed(Get(t, g), []) <==> Served(Get(t, g));
    }
  }

  /**
    A host that reads only when rung gets everything, commands of any length included, exactly
    when no GET on the way leaves a command behind an empty queue; otherwise it is stuck for good.
   */
  lemma {:induction false} EmptiedIffServed(s: Channel, choices: seq<(bool, bool)>)
    requires Alert(s) && Served(s) && s.epUp && |choices| >= Work(s)
    ensures Work(Run(s, Rounds(s, choices))) == 0 <==> AlwaysServed(s, Rounds(s, choices))
    decreases |choices|
  {
    hide Run, Round, Alert, AlwaysServed;
    if choices == [] {
      RunNothing(s);
      assert AlwaysServed(s, []) by { ServedAtOnce(s); }
    } else {
      var r := Round(s, choices[0].0, choices[0].1);
      var t := Run(s, r);
      var rest := Rounds(t, choices[1..]);
      RoundProgress(s, choices[0].0, choices[0].1);
      RoundServed(s, choices[0].0, choices[0].1);
      RunConcat(s, r, rest);
      AlwaysServedConcat(s, r, rest);
      if Served(t) {
        EmptiedIffServed(t, choices[1..]);
      } else {
        assert !t.armed by { AlertUnarmed(t); }
        StrandedForever(t, choices[1..]);
      }
    }
  }

  lemma ServedAtOnce(s: Channel)
    requires Served(s)
    ensures AlwaysServed(s, [])
  {
  }

  lemma AlertUnarmed(s: Channel)
    requires Alert(s) && s.resp == []
    ensures !s.armed
  {
  }

  const SHORT_COMMAND := Command(CommandMsg, 20, 2, false, false)
  const NEXT_COMMAND := Command(CommandMsg, 48, 3, false, false)

  /** OPEN, a 20-byte command, a 48-byte command and one GET: the second command is never answered. */
  lemma ShortCommandStrands(choices: seq<(bool, bool)>)
    ensures var es := [EndpointUp, SendEv(Command(OpenMsg, 16, 1, false, false)),
                       SendEv(SHORT_COMMAND), SendEv(NEXT_COMMAND), GetEv(true)];
            var s := Run(INITIAL, es);
            s.held == [NEXT_COMMAND] && s.resp == [] && Run(s, Rounds(s, choices)) == s
  {
    var open := SendEv(Command(OpenMsg, 16, 1, false, false));
    var s1 := Step(INITIAL, EndpointUp);
    var s2 := Step(s1, open);
    AfterOpen();
    hide Run, Step, Get;
    var s3 := Step(s2, SendEv(SHORT_COMMAND));
    HeldBehindAnswer(s2, SHORT_COMMAND);
    var s4 := Step(s3, SendEv(NEXT_COMMAND));
    HeldBehindAnswer(s3, NEXT_COMMAND);
    assert s4.held == [SHORT_COMMAND, NEXT_COMMAND];
    var s5 := Step(s4, GetEv(true));
    ShortHeadTaken(s4);
    RunFive(INITIAL, EndpointUp, open, SendEv(SHORT_COMMAND), SendEv(NEXT_COMMAND), GetEv(true));
    StrandedForever(s5, choices);
  }

  lemma AfterOpen()
    ensures var s := Step(Step(INITIAL, EndpointUp), SendEv(Command(OpenMsg, 16, 1, false, false)));
            s.resp == [OpenDone(1)] && s.held == []
  {
  }

  lemma HeldBehindAnswer(s: Channel, c: Command)
    requires s.resp == [OpenDone(1)] && |s.held| < CAPACITY && KindOf(c) == CommandMsg
    ensures Step(s, SendEv(c)) == s.(held := s.held + [c])
  {
    assert s.resp[0] in s.resp && !IsIndication(s.resp[0]);
  }

  lemma ShortHeadTaken(s: Channel)
    requires s.resp == [OpenDone(1)] && s.held == [SHORT_COMMAND, NEXT_COMMAND]
    ensures var t := Step(s, GetEv(true));
            t.held == [NEXT_COMMAND] && t.resp == [] && !t.armed
  {
    var a := s.(resp := [], bell := s.bell.(inGet := true, armed := false, outstanding := 0));
    assert s.resp[1..] == [];
    assert ProcessHeld(a) == a.(held := [NEXT_COMMAND], last := None);
    assert TakeResponse(s) == ProcessHeld(a);
    assert Drain(TakeResponse(s), true) == TakeResponse(s);
  }

  lemma RunHead(s: Channel, e: Event, es: seq<Event>)
    ensures Run(s, [e] + es) == Run(Step(s, e), es)
  {
    hide Step;
    assert ([e] + es)[1..] == es;
  }

  lemma RunFive(s: Channel, a: Event, b: Event, c: Event, d: Event, e: Event)
    ensures Run(s, [a, b, c, d, e]) == Step(Step(Step(Step(Step(s, a), b), c), d), e)
  {
    hide Step, Run;
    var t := Step(s, a);
    var u := Step(t, b);
    var v := Step(u, c);
    assert [a, b, c, d, e] == [a] + ([b] + ([c] + ([d] + ([e] + []))));
    RunHead(s, a, [b] + ([c] + ([d] + ([e] + []))));
    RunHead(t, b, [c] + ([d] + ([e] + [])));
    RunHead(u, c, [d] + ([e] + []));
    RunHead(v, d, [e] + []);
    RunHead(Step(v, d), e, []);
    RunNothing(Step(Step(v, d), e));
  }
}
