/** What every run of the MBIM control channel keeps, and what it delivers. */
module MbimChannelProofs {
  import opened Options
  import opened Rings
  import opened MbimChannel

  // ---- Draining only appends ----

  /** `t` is `s` with messages appended to the response queue, a doorbell wanted if there are any. */
  ghost predicate Extends(s: Channel, t: Channel) {
    && s.resp <= t.resp
    && (|s.resp| <= CAPACITY ==> |t.resp| <= CAPACITY)
    && t.held == s.held && t.armed == s.armed && t.inGet == s.inGet && t.epUp == s.epUp
    && t.outstanding == s.outstanding && t.rung == s.rung && t.last == s.last
    && |t.bridge| <= |s.bridge|
    && (t.pending || (!s.pending && t.resp == s.resp))
  }

  lemma TakeSmsExtends(s: Channel)
    requires !RespFull(s) && s.sms != []
    ensures Extends(s, TakeSms(s))
  {
    if Storable(s.sms[0]) {
      assert TakeSms(s).resp == s.resp + [Indicate(SmsStored(s.nextIndex))];
    } else {
      assert TakeSms(s).resp == s.resp;
    }
  }

  lemma ExtendsTrans(s: Channel, t: Channel, u: Channel)
    requires Extends(s, t) && Extends(t, u)
    ensures Extends(s, u)
  {
  }

  lemma {:induction false} DrainBridgeExtends(s: Channel)
    ensures Extends(s, DrainBridge(s))
    decreases |s.bridge|
  {
    if !RespFull(s) && s.bridge != [] { DrainBridgeExtends(TakeBridge(s)); }
  }

  lemma {:induction false} DrainSmsExtends(s: Channel)
    ensures Extends(s, DrainSms(s))
    decreases |s.sms|
  {
    if !RespFull(s) && s.sms != [] {
      TakeSmsExtends(s);
      DrainSmsExtends(TakeSms(s));
      ExtendsTrans(s, TakeSms(s), DrainSms(s));
    }
  }

  lemma DrainHeadExtends(s: Channel)
    ensures Extends(s, DrainLte(DrainSync(s)))
  {
    var a := DrainSync(s);
    assert Extends(s, a);
    assert Extends(a, DrainLte(a));
    ExtendsTrans(s, a, DrainLte(a));
  }

  lemma DrainReadExtends(c: Channel, s: Channel, fits: bool)
    ensures Extends(s, DrainRead(c, s, fits))
  {
  }

  lemma DrainExtends(s: Channel, fits: bool)
    ensures Extends(s, Drain(s, fits))
    ensures s.held != [] ==> Drain(s, fits) == s
  {
    if s.held == [] {
      hide DrainBridge, DrainSms, DrainLte, DrainSync, DrainRead;
      var a := DrainLte(DrainSync(s));
      DrainHeadExtends(s);
      DrainBridgeExtends(a);
      var b := DrainBridge(a);
      DrainSmsExtends(b);
      var c := DrainSms(b);
      DrainReadExtends(b, c, fits);
      hide Extends;
      ExtendsTrans(s, a, b);
      ExtendsTrans(s, b, c);
      ExtendsTrans(s, c, DrainRead(b, c, fits));
    }
  }

  // ---- The invariant ----

  predicate AllCommands(cs: seq<Command>) { forall c :: c in cs ==> c.kind == CommandMsg }

  /**
    Between events, for commands of any length: whatever waits for the host is announced or
    about to be, and a doorbell is only outstanding for a message that is there.
   */
  ghost predicate Alert(s: Channel) {
    && |s.resp| <= CAPACITY && |s.held| <= CAPACITY && |s.bridge| <= CAPACITY
    && !s.inGet
    && (s.resp != [] ==> s.armed || s.pending)
    && (s.armed ==> s.resp != [] && s.epUp)
    && (s.armed <==> s.outstanding > 0)
    && AllCommands(s.held)
  }

  /** No command is held behind an empty queue. */
  predicate Served(s: Channel) { s.held != [] ==> s.resp != [] }

  predicate Answerable(c: Command) { c.kind == CommandMsg && c.len >= COMMAND_HEADER }

  predicate AllAnswerable(cs: seq<Command>) { forall c :: c in cs ==> Answerable(c) }

  /** The invariant when every command is long enough for the handlers. */
  ghost predicate Inv(s: Channel) { Alert(s) && Served(s) && AllAnswerable(s.held) }

  /** A command message long enough for the handlers; any other message may be of any length. */
  predicate LongEnough(e: Event) {
    e.SendEv? && KindOf(e.cmd) == CommandMsg ==> e.cmd.len >= COMMAND_HEADER
  }

  /** What the dispatcher may leave undone: a message to announce that is not marked yet. */
  ghost predicate Settled(s: Channel) {
    && |s.resp| <= CAPACITY && |s.held| <= CAPACITY && |s.bridge| <= CAPACITY
    && !s.inGet
    && (s.armed ==> s.resp != [] && s.epUp)
    && (s.armed ==> s.outstanding > 0) && (s.outstanding > 0 ==> s.epUp)
    && AllCommands(s.held)
  }

  lemma CtlSyncKeeps(s: Channel, c: Command)
    requires Alert(s)
    ensures Alert(CtlSync(s, c)) && CtlSync(s, c).held == s.held && s.resp <= CtlSync(s, c).resp
  {
    hide AllCommands;
  }

  lemma PrepareKeeps(s: Channel, c: Command)
    requires Alert(s)
    ensures Settled(Prepare(s, c)) && Prepare(s, c).held == s.held && s.resp <= Prepare(s, c).resp
    ensures Alert(Prepare(s, c)) || (c.kind == CloseMsg && Prepare(s, c).last.Some?)
  {
    hide CtlSync, AllCommands;
    if c.len >= COMMAND_HEADER && c.kind == CommandMsg && c.ctlSync { CtlSyncKeeps(s.(last := None), c); }
  }

  lemma RespondKeeps(s: Channel)
    requires Settled(s) && (Alert(s) || s.last.Some?)
    ensures Alert(TrySend(Respond(s)))
    ensures TrySend(Respond(s)).held == s.held && s.resp <= TrySend(Respond(s)).resp
  {
    hide AllCommands;
  }

  /** SEND, whatever the message: it is held behind a pending answer, or answered behind what is queued. */
  lemma SendKeepsAlert(s: Channel, c: Command)
    requires Alert(s)
    ensures var t := Send(s, c);
            && Alert(t) && (Served(s) ==> Served(t)) && s.resp <= t.resp
            && (t.held == s.held || (t.held == s.held + [c] && KindOf(c) == CommandMsg))
  {
    hide Prepare, Respond, TrySend;
    if !(KindOf(c) == CommandMsg && HasCommandResponse(s)) {
      PrepareKeeps(s, c);
      RespondKeeps(Prepare(s, c));
    }
  }

  lemma SendKeepsInv(s: Channel, c: Command)
    requires Inv(s) && LongEnough(SendEv(c))
    ensures Inv(Send(s, c))
  {
    hide Send;
    SendKeepsAlert(s, c);
  }

  /** `t` is `s` after the oldest held command has been answered into an empty queue. */
  ghost predicate Answered(s: Channel, t: Channel)
    requires s.held != []
  {
    && t.resp == [CommandDone(s.held[0].tid)] && t.held == s.held[1..] && t.pending
    && t.inGet == s.inGet && t.armed == s.armed && t.epUp == s.epUp
    && t.outstanding == s.outstanding && t.rung == s.rung
    && (|s.bridge| <= CAPACITY ==> |t.bridge| <= CAPACITY)
  }

  /** A CTL_SYNC answered inside a GET: the doorbell attempt is refused. */
  lemma CtlSyncInGet(s: Channel, c: Command)
    requires s.resp == [] && s.inGet
    ensures CtlSync(s, c) == s.(resp := [CommandDone(c.tid)], bell := s.bell.(pending := true),
              src := s.src.(syncPending := !s.syncSent || s.syncPending))
  {
    assert s.resp + [CommandDone(c.tid)] == [CommandDone(c.tid)];
  }

  lemma PushIntoEmpty(s: Channel)
    requires s.resp == [] && s.last.Some?
    ensures Respond(s) == s.(resp := [s.last.value], bell := s.bell.(pending := true))
  {
    assert s.resp + [s.last.value] == [s.last.value];
  }

  lemma NoAnswerNoChange(s: Channel)
    requires s.last == None
    ensures Respond(s) == s
  {
  }

  lemma PreparePlain(s: Channel, c: Command)
    requires Answerable(c) && !c.ctlSync
    ensures var t := Prepare(s, c);
      && t.last == Some(CommandDone(c.tid)) && t.resp == s.resp && t.held == s.held
      && t.inGet == s.inGet && t.armed == s.armed && t.epUp == s.epUp
      && t.outstanding == s.outstanding && t.rung == s.rung
      && t.sms == s.sms && t.lteAttach == s.lteAttach && t.syncPending == s.syncPending
      && |t.bridge| <= |s.bridge| + 1
      && (|s.bridge| <= CAPACITY ==> |t.bridge| <= CAPACITY)
  {
  }

  /** Answering a held command always leaves an answer, and never rings. */
  lemma ProcessHeldAnswers(s: Channel)
    requires s.resp == [] && s.held != [] && Answerable(s.held[0]) && s.inGet
    ensures Answered(s, ProcessHeld(s))
  {
    hide CtlSync, Respond;
    var c := s.held[0];
    var u := s.(held := s.held[1..]);
    if c.ctlSync {
      CtlSyncInGet(u.(last := None), c);
      assert Prepare(u, c) == CtlSync(u.(last := None), c);
      NoAnswerNoChange(Prepare(u, c));
    } else {
      hide Prepare;
      PreparePlain(u, c);
      PushIntoEmpty(Prepare(u, c));
    }
  }

  /** Dispatching any command message inside a GET leaves the doorbell alone. */
  lemma PrepareInGet(s: Channel, c: Command)
    requires s.inGet && c.kind == CommandMsg && |s.bridge| <= CAPACITY
    ensures var t := Prepare(s, c);
            && t.held == s.held && t.inGet && t.armed == s.armed && t.epUp == s.epUp
            && t.outstanding == s.outstanding && t.rung == s.rung && |t.bridge| <= CAPACITY
            && (t.resp == s.resp || (|t.resp| == |s.resp| + 1 && t.last == None))
  {
  }

  lemma ProcessHeldQuiet(s: Channel)
    requires s.resp == [] && s.held != [] && s.held[0].kind == CommandMsg && s.inGet && |s.bridge| <= CAPACITY
    ensures var t := ProcessHeld(s);
            && t.held == s.held[1..] && |t.resp| <= 1 && t.inGet && t.armed == s.armed && t.epUp == s.epUp
            && t.outstanding == s.outstanding && t.rung == s.rung && |t.bridge| <= CAPACITY
  {
    hide Prepare;
    PrepareInGet(s.(held := s.held[1..]), s.held[0]);
  }

  /** The first half of a GET for held commands of any length. */
  lemma TakeResponseQuiet(s: Channel)
    requires Alert(s)
    ensures var b := TakeResponse(s);
      && |b.resp| <= CAPACITY && |b.bridge| <= CAPACITY && b.inGet && !b.armed && b.outstanding == 0
      && b.rung == s.rung && b.epUp == s.epUp
      && b.held == (if |s.resp| <= 1 && s.held != [] then s.held[1..] else s.held)
      && (|s.resp| > 1 || s.held == [] ==> b.resp == if s.resp == [] then [] else s.resp[1..])
  {
    hide ProcessHeld;
    var a := s.(resp := if s.resp == [] then [] else s.resp[1..],
                bell := s.bell.(inGet := true, armed := false, outstanding := 0));
    if a.resp == [] && a.held != [] {
      assert s.held[0] in s.held;
      ProcessHeldQuiet(a);
    }
  }

  lemma GetKeepsAlert(s: Channel, fits: bool)
    requires Alert(s)
    ensures Alert(Get(s, fits)) && Get(s, fits).rung == s.rung && Get(s, fits).epUp == s.epUp
  {
    hide Drain, TakeResponse;
    TakeResponseQuiet(s);
    DrainExtends(TakeResponse(s), fits);
  }

  lemma TickKeepsAlert(s: Channel, fits: bool)
    requires Alert(s)
    ensures Alert(Tick(s, fits)) && Tick(s, fits).held == s.held && (Served(s) ==> Served(Tick(s, fits)))
    ensures Tick(s, fits).resp != [] && s.epUp ==> Tick(s, fits).armed
  {
    hide Drain, AllCommands;
    DrainExtends(s, fits);
  }

  lemma StepKeepsAlert(s: Channel, e: Event)
    requires Alert(s)
    ensures Alert(Step(s, e))
  {
    hide Get, Tick, Send, AllCommands;
    match e
    case SendEv(c) => SendKeepsAlert(s, c);
    case GetEv(fits) => GetKeepsAlert(s, fits);
    case TickEv(fits) => TickKeepsAlert(s, fits);
    case _ =>
  }

  /** No lost wakeup, whatever the host sends: every state of every run is alert. */
  lemma {:induction false} RunKeepsAlert(s: Channel, es: seq<Event>)
    requires Alert(s)
    ensures Alert(Run(s, es))
    decreases |es|
  {
    hide Step, Alert;
    if es != [] {
      StepKeepsAlert(s, es[0]);
      RunKeepsAlert(Step(s, es[0]), es[1..]);
    }
  }

  lemma TakeResponseFacts(s: Channel)
    requires Inv(s)
    ensures var b := TakeResponse(s);
      && |b.resp| <= CAPACITY && |b.bridge| <= CAPACITY && b.inGet && !b.armed && b.outstanding == 0
      && b.rung == s.rung && b.epUp == s.epUp
      && (b.held != [] ==> b.resp != [])
      && (if |s.resp| == 1 && s.held != []
          then b.resp == [CommandDone(s.held[0].tid)] && b.held == s.held[1..]
          else b.resp == (if s.resp == [] then [] else s.resp[1..]) && b.held == s.held)
  {
    var a := s.(resp := if s.resp == [] then [] else s.resp[1..],
                bell := s.bell.(inGet := true, armed := false, outstanding := 0));
    if a.resp == [] && a.held != [] {
      assert s.held[0] in s.held;
      ProcessHeldAnswers(a);
    }
  }

  lemma GetKeepsInv(s: Channel, fits: bool)
    requires Inv(s)
    ensures Inv(Get(s, fits))
    ensures Get(s, fits).rung == s.rung
  {
    hide Drain, TakeResponse;
    GetKeepsAlert(s, fits);
    TakeResponseFacts(s);
    DrainExtends(TakeResponse(s), fits);
  }

  lemma TickKeepsInv(s: Channel, fits: bool)
    requires Inv(s)
    ensures Inv(Tick(s, fits))
    ensures Tick(s, fits).resp != [] && s.epUp ==> Tick(s, fits).armed
  {
    hide Tick;
    TickKeepsAlert(s, fits);
  }

  lemma StepKeepsInv(s: Channel, e: Event)
    requires Inv(s) && LongEnough(e)
    ensures Inv(Step(s, e))
  {
    hide Get, Tick, Send;
    match e
    case SendEv(c) => SendKeepsInv(s, c);
    case GetEv(fits) => GetKeepsInv(s, fits);
    case TickEv(fits) => TickKeepsInv(s, fits);
    case _ =>
  }

  /** With commands long enough for the handlers, moreover, none is ever held behind an empty queue. */
  lemma {:induction false} RunKeepsInv(s: Channel, es: seq<Event>)
    requires Inv(s) && forall e :: e in es ==> LongEnough(e)
    ensures Inv(Run(s, es))
    decreases |es|
  {
    hide Step, Inv;
    if es != [] {
      StepKeepsInv(s, es[0]);
      RunKeepsInv(Step(s, es[0]), es[1..]);
    }
  }

  // ---- Delivery order and progress of held commands ----

  function Answers(cs: seq<Command>): (ms: seq<Message>)
    ensures |ms| == |cs|
  {
    if cs == [] then [] else [CommandDone(cs[0].tid)] + Answers(cs[1..])
  }

  /** What the host is owed: the queued messages, then the answers to the held commands. */
  function Owed(s: Channel): seq<Message> { s.resp + Answers(s.held) }

  function Gets(es: seq<Event>): (n: nat)
  {
    if es == [] then 0 else (if es[0].GetEv? then 1 else 0) + Gets(es[1..])
  }

  function Min(a: nat, b: nat): nat { if a < b then a else b }

  /** A run in which the host issues no new command. */
  predicate NoSends(es: seq<Event>)
  {
    es == [] || (!es[0].SendEv? && NoSends(es[1..]))
  }

  /** A GET hands over the first thing owed; later indications only join behind. */
  lemma GetServesHead(s: Channel, fits: bool)
    requires Inv(s)
    ensures Owed(s) <= Delivered(s, GetEv(fits)) + Owed(Get(s, fits))
  {
    hide Drain, ProcessHeld, TakeResponse;
    TakeResponseFacts(s);
    var b := TakeResponse(s);
    DrainExtends(b, fits);
    if s.resp != [] {
      assert Owed(s) == [s.resp[0]] + Owed(b) by {
        assert s.resp == [s.resp[0]] + s.resp[1..];
      }
      assert Owed(b) <= Owed(Get(s, fits));
    }
  }

  lemma StepServesHead(s: Channel, e: Event)
    requires Inv(s) && !e.SendEv?
    ensures Owed(s) <= Delivered(s, e) + Owed(Step(s, e))
  {
    hide Get, Drain, Send;
    if e.GetEv? {
      GetServesHead(s, e.fits);
    } else {
      if e.TickEv? { DrainExtends(s, e.fits); }
      assert Owed(s) <= Owed(Step(s, e));
      assert Delivered(s, e) + Owed(Step(s, e)) == Owed(Step(s, e));
    }
  }

  /**
    With no new command, whatever the ticks and arrivals in between, the GETs return
    exactly what was owed, in order: the n-th GET returns the n-th owed message.
   */
  lemma {:induction false} DeliveredInOrder(s: Channel, es: seq<Event>)
    requires Inv(s) && NoSends(es)
    ensures Owed(s) <= Deliveries(s, es) + Owed(Run(s, es))
    ensures Min(Gets(es), |Owed(s)|) <= |Deliveries(s, es)| <= Gets(es)
    ensures Deliveries(s, es)[..Min(Gets(es), |Owed(s)|)] == Owed(s)[..Min(Gets(es), |Owed(s)|)]
    decreases |es|
  {
    hide Step, Owed, Inv, Delivered;
    if es == [] {
      assert [] + Owed(s) == Owed(s);
    } else {
      var t := Step(s, es[0]);
      StepKeepsInv(s, es[0]);
      StepServesHead(s, es[0]);
      DeliveredInOrder(t, es[1..]);
      var d := Delivered(s, es[0]);
      var ds := Deliveries(t, es[1..]);
      PrefixChain(Owed(s), d, Owed(t), ds, Owed(Run(t, es[1..])));
      GetDelivers(s, es[0]);
      var n := Min(Gets(es), |Owed(s)|);
      assert (d + ds)[..n] == (d + ds + Owed(Run(t, es[1..])))[..n];
    }
  }

  lemma GetDelivers(s: Channel, e: Event)
    requires Inv(s)
    ensures |Delivered(s, e)| <= if e.GetEv? then 1 else 0
    ensures e.GetEv? && Owed(s) != [] ==> |Delivered(s, e)| == 1
  {
  }

  lemma PrefixChain<T>(a: seq<T>, d: seq<T>, b: seq<T>, ds: seq<T>, c: seq<T>)
    requires a <= d + b && b <= ds + c
    ensures a <= d + ds + c
  {
    assert d + ds + c == d + (ds + c);
    assert d + b <= d + (ds + c);
  }

  /** The held command at position i has been answered once |resp| + i GETs have been made. */
  function StillHeldFrom(s: Channel, gets: nat): (k: nat)
    ensures k <= |s.held|
  {
    if gets < |s.resp| then 0 else Min(gets - |s.resp| + 1, |s.held|)
  }

  /** The commands still held after `gets` GETs. */
  function StillHeld(s: Channel, gets: nat): seq<Command> { s.held[StillHeldFrom(s, gets)..] }

  /** `t` is left of `s` by one event, `gets` GETs being still to come. */
  ghost predicate HeldShifted(s: Channel, t: Channel, gets: nat, gets': nat) {
    && |t.held| <= |s.held|
    && t.held == s.held[|s.held| - |t.held|..]
    && StillHeldFrom(s, gets) == |s.held| - |t.held| + StillHeldFrom(t, gets')
  }

  lemma GetHeld(s: Channel, fits: bool)
    requires Inv(s)
    ensures var t := Get(s, fits);
      && t.held == (if |s.resp| == 1 && s.held != [] then s.held[1..] else s.held)
      && (t.held != [] ==> |t.resp| == if |s.resp| == 1 then 1 else |s.resp| - 1)
  {
    hide Drain, TakeResponse;
    TakeResponseFacts(s);
    var b := TakeResponse(s);
    DrainExtends(b, fits);
    assert Get(s, fits).held == b.held;
  }

  lemma GetTakesHeld(s: Channel, fits: bool, gets: nat)
    requires Inv(s)
    ensures HeldShifted(s, Get(s, fits), gets + 1, gets)
  {
    hide Get;
    GetHeld(s, fits);
  }

  lemma StepTakesHeld(s: Channel, e: Event, gets: nat)
    requires Inv(s) && !e.SendEv?
    ensures HeldShifted(s, Step(s, e), gets + (if e.GetEv? then 1 else 0), gets)
  {
    hide Get, Drain, Send;
    if e.GetEv? {
      GetTakesHeld(s, e.fits, gets);
    } else if e.TickEv? {
      DrainExtends(s, e.fits);
    }
  }

  /** Held commands progress one per GET once the queue ahead of them is gone, however many indications wait. */
  lemma {:induction false} HeldProgress(s: Channel, es: seq<Event>)
    requires Inv(s) && NoSends(es)
    ensures Run(s, es).held == StillHeld(s, Gets(es))
    decreases |es|
  {
    hide Step, StillHeld, Inv, HeldShifted;
    if es == [] {
      NoGetsYet(s);
    } else {
      var t := Step(s, es[0]);
      var n := Gets(es[1..]);
      StepKeepsInv(s, es[0]);
      StepTakesHeld(s, es[0], n);
      HeldProgress(t, es[1..]);
      ComposeShift(s, t, n + (if es[0].GetEv? then 1 else 0), n);
    }
  }

  lemma ComposeShift(s: Channel, t: Channel, gets: nat, gets': nat)
    requires HeldShifted(s, t, gets, gets')
    ensures StillHeld(t, gets') == StillHeld(s, gets)
  {
    hide StillHeldFrom;
    DropDrop(s.held, |s.held| - |t.held|, StillHeldFrom(t, gets'));
  }

  lemma NoGetsYet(s: Channel)
    requires Inv(s)
    ensures StillHeld(s, 0) == s.held
  {
  }

  lemma DropDrop<T>(s: seq<T>, k: nat, j: nat)
    requires k + j <= |s|
    ensures s[k..][j..] == s[k + j..]
  {
  }
}
