/** What every run of the engine keeps, for every adapter, link behaviour and downlink traffic. */
module UeEngineProofs {
  import MM = MobilityManagement
  import SM = SessionManagement
  import MP = MobilityManagementProofs
  import SP = SessionManagementProofs
  import opened UeEngine

  /** Radio off means off everywhere. */
  predicate RadioCoupling(e: Engine) {
    !e.radio ==> e.mm.phase.state == MM.PoweredOff && e.sm.phase == SM.INACTIVE && e.rrc.state == RrcIdle
  }

  /** A session exists only under a registration. */
  predicate SessionCoupling(e: Engine) {
    e.sm.phase != SM.INACTIVE ==> e.mm.phase.state == MM.RegisteredHome
  }

  predicate MmInv(mm: MM.Mobility, requests: nat) {
    MP.Coherent(mm) && mm.max == MM.MAX_RETRIES && mm.attempts + MP.Budget(mm) <= 3 * requests
  }

  predicate SmInv(sm: SM.Session, settings: nat) {
    SP.Coherent(sm) && sm.max == SM.MAX_RETRIES && SP.Transmissions(sm) + SP.Budget(sm) <= 10 * settings
  }

  /**
    The IMS session is requested exactly while it is up or coming up, never both, and its
    transaction identity, once it has one, stays in 2..254.
   */
  predicate ImsInv(ims: Ims) {
    && (ims.active || ims.establishing <==> ims.requested)
    && !(ims.active && ims.establishing)
    && (if ims.pti == 0 then !ims.requested else 2 <= ims.pti <= 254)
  }

  /** Both machines are coherent and within the budget of the requests made so far. */
  predicate Inv(e: Engine) {
    MmInv(e.mm, e.log.requests) && SmInv(e.sm, e.log.settings) && RadioCoupling(e) && ImsInv(e.ims)
  }

  // ------------------------------------------- steps of the two machines

  lemma MmStep(mm: MM.Mobility, requests: nat, ev: MM.Event)
    requires MmInv(mm, requests)
    ensures MmInv(MM.Step(mm, ev), requests + MP.Requests(ev))
  {
    hide MM.Step;
    MP.StepFollows(mm, ev);
  }

  lemma SmStep(sm: SM.Session, settings: nat, ev: SM.Event, net: SM.Adapter)
    requires SmInv(sm, settings)
    ensures SmInv(SM.Step(sm, ev, net), settings + SP.Settings(ev))
  {
    hide SM.Step;
    SP.StepFollows(sm, ev, net);
  }

  // ------------------------------------------------------ steps of a tick

  lemma RecoverKeeps(e: Engine, lost: bool)
    requires Inv(e) && e.radio
    ensures Inv(RecoverFromLoss(e, lost)) && RecoverFromLoss(e, lost).radio
    ensures lost && Attached(e) ==> Detached(RecoverFromLoss(e, lost)) && !RecoverFromLoss(e, lost).rrc.waiting
  {
    if lost && Attached(e) {
      SmStep(e.sm, e.log.settings, SM.ForgetEv, SP.AlwaysSubmitted());
      var off := MM.OnRadio(e.mm, false);
      MmStep(e.mm, e.log.requests, MM.RadioEv(false));
      var on := MM.OnRadio(off, true);
      MmStep(off, e.log.requests, MM.RadioEv(true));
      MmStep(on, e.log.requests, MM.RequestEv(MM.Initial));
    }
  }

  lemma MachinesKeep(e: Engine, now: nat, net: SM.Adapter)
    requires Inv(e) && e.radio
    ensures Inv(TickMachines(e, now, net)) && SessionCoupling(TickMachines(e, now, net))
    ensures TickMachines(e, now, net).radio
  {
    hide MM.Tick;
    MmStep(e.mm, e.log.requests, MM.TickEv(now));
    var mm := if e.rrc.waiting then e.mm else MM.Tick(e.mm, now);
    var registered := mm.phase.state == MM.RegisteredHome;
    SmStep(e.sm, e.log.settings, SM.TickEv(now, registered), net);
    if registered {
      hide SM.Tick;
    }
  }

  /** What holds from the machine ticks to the end of the tick. */
  predicate Settled(e: Engine) { Inv(e) && SessionCoupling(e) && e.radio }

  lemma EstablishedKeeps(sm: SM.Session, settings: nat, psi: nat)
    requires SmInv(sm, settings)
    ensures SmInv(SM.OnEstablished(sm.(ids := sm.ids.(session := psi))), settings)
    ensures sm.phase.state == SM.Establishing ==>
              SM.OnEstablished(sm.(ids := sm.ids.(session := psi))).phase == SM.ACTIVE
  {
  }

  lemma SmRejectKeeps(sm: SM.Session, settings: nat, cause: SM.RejectCause, net: SM.Adapter)
    requires SmInv(sm, settings)
    ensures SmInv(SM.OnReject(sm, cause, net), settings)
  {
    hide SM.OnReject;
    SmStep(sm, settings, SM.RejectEv(cause), net);
  }

  lemma SmReleasedKeeps(sm: SM.Session, settings: nat)
    requires SmInv(sm, settings)
    ensures SmInv(SM.OnReleased(sm), settings)
    ensures sm.phase == SM.INACTIVE ==> SM.OnReleased(sm) == sm
  {
  }

  lemma MmAnswerKeeps(mm: MM.Mobility, requests: nat, cause: MM.RejectCause)
    requires MmInv(mm, requests)
    ensures MmInv(MM.OnAccept(mm), requests) && MmInv(MM.OnReject(mm, cause), requests)
    ensures mm.phase.state == MM.RegisteredHome ==>
              MM.OnAccept(mm).phase.state == MM.RegisteredHome
                  && MM.OnReject(mm, cause).phase.state == MM.RegisteredHome
  {
    MmStep(mm, requests, MM.AcceptEv);
    MmStep(mm, requests, MM.RejectEv(cause));
  }

  lemma NasKeeps(e: Engine, nas: Nas, net: SM.Adapter)
    requires Settled(e)
    ensures Settled(ProcessNas(e, nas, net))
  {
    hide MmInv, SmInv, MM.OnAccept, MM.OnReject, SM.OnEstablished, SM.OnReject, SM.OnReleased;
    match nas
    case RegistrationAccept => MmAnswerKeeps(e.mm, e.log.requests, MM.RejectNone);
    case RegistrationReject(code) => MmAnswerKeeps(e.mm, e.log.requests, MmCauseOf(code));
    case EstablishAccept(psi, pti) => EstablishedKeeps(e.sm, e.log.settings, psi);
    case EstablishReject(psi, pti, code) => SmRejectKeeps(e.sm, e.log.settings, SmCauseOf(code), net);
    case ReleaseCommand(psi) => SmReleasedKeeps(e.sm, e.log.settings);
    case OtherNas =>
  }

  lemma PduKeeps(e: Engine, pdu: Pdu, now: nat, net: SM.Adapter)
    requires Settled(e)
    ensures Settled(ProcessPdu(e, pdu, now, net))
  {
    hide ProcessNas, MmInv, SmInv;
    var f := if e.rrc.waiting then e.(rrc := e.rrc.(pdus := e.rrc.pdus + 1)) else e;
    if pdu.NasPdu? {
      NasKeeps(f, pdu.nas, net);
    }
  }

  lemma {:induction false} DrainKeeps(e: Engine, pdus: seq<Pdu>, now: nat, net: SM.Adapter)
    requires Settled(e)
    ensures Settled(Drain(e, pdus, now, net))
    decreases |pdus|
  {
    hide ProcessPdu, Settled;
    if pdus != [] {
      PduKeeps(e, pdus[0], now, net);
      DrainKeeps(ProcessPdu(e, pdus[0], now, net), pdus[1..], now, net);
    }
  }

  lemma AutoConnectKeeps(e: Engine)
    requires Settled(e)
    ensures Settled(AutoConnect(e))
  {
    SmStep(e.sm, e.log.settings, SM.AutoConnectEv, SP.AlwaysSubmitted());
  }

  lemma SelectCellKeeps(e: Engine, up: bool)
    requires Settled(e)
    ensures Settled(SelectCell(e, up))
  {
    MmStep(e.mm, e.log.requests, MM.CellSelectedEv);
  }

  /** The remaining steps touch the RRC connection only. */
  predicate OnlyRrc(e: Engine, f: Engine) { f == e.(rrc := f.rrc) }

  lemma ProgressKeeps(e: Engine, i: Inputs)
    requires Settled(e)
    ensures Settled(Progress(e, i))
    ensures Progress(e, i).rrc.state != RrcIdle ==> i.upAtEnd
  {
    hide MmInv, SmInv;
    var a := AutoConnect(e);
    AutoConnectKeeps(e);
    var b := SelectCell(a, i.upForCell);
    SelectCellKeeps(a, i.upForCell);
    hide AutoConnect, SelectCell;
    var c := InitiateSetup(b, i.upForSetup, i.now);
    assert OnlyRrc(b, c);
    var d := SendUpdate(c, i.encodes, i.now);
    assert OnlyRrc(b, d);
    var f := SetupTimeout(d, i.now);
    assert OnlyRrc(b, f);
    var g := CoreTimeout(f, i.now);
    assert OnlyRrc(b, g);
    assert OnlyRrc(b, DropRrc(g, i.upAtEnd));
  }

  /**
    Engine coupling: after a tick a session exists only under a registration, an RRC
    connection only over a link that was up at its end, and nothing at all with the radio off.
   */
  lemma TickCouples(e: Engine, i: Inputs, net: SM.Adapter)
    requires Inv(e)
    ensures var t := Tick(e, i, net);
            && Inv(t) && SessionCoupling(t)
            && (t.rrc.state != RrcIdle ==> i.upAtEnd)
  {
    if e.radio {
      hide RecoverFromLoss, TickMachines, Drain, Progress, MmInv, SmInv;
      var a := RecoverFromLoss(e, i.lost);
      RecoverKeeps(e, i.lost);
      var b := TickMachines(a, i.now, net);
      MachinesKeep(a, i.now, net);
      DrainKeeps(b, i.pdus, i.now, net);
      ProgressKeeps(Drain(b, i.pdus, i.now, net), i);
    }
  }

  // ---------------------------------------------------------- whole runs

  lemma SetRadioKeeps(e: Engine, on: bool)
    requires Inv(e)
    ensures Inv(SetRadio(e, on))
  {
    hide MM.Request;
    MmStep(e.mm, e.log.requests, MM.RadioEv(on));
    var mm := MM.OnRadio(e.mm, on);
    MmStep(mm, e.log.requests, MM.RequestEv(MM.Initial));
    SmStep(e.sm, e.log.settings, SM.ForgetEv, SP.AlwaysSubmitted());
  }

  lemma RegisterKeeps(e: Engine, pending: MM.Pending)
    requires Inv(e)
    ensures Inv(RequestRegistration(e, pending))
  {
    MmStep(e.mm, e.log.requests, MM.RequestEv(pending));
  }

  lemma StepKeeps(e: Engine, ev: Event, net: SM.Adapter)
    requires Inv(e)
    ensures Inv(Step(e, ev, net))
  {
    hide Tick, SetRadio, RequestRegistration;
    match ev
    case TickEv(i) => TickCouples(e, i, net);
    case RadioEv(on) => SetRadioKeeps(e, on);
    case RegisterEv(pending) => RegisterKeeps(e, pending);
    case ConnectEv => SmStep(e.sm, e.log.settings, SM.ConnectEv, net);
    case DisconnectEv => SmStep(e.sm, e.log.settings, SM.DisconnectEv, net);
    case ImsEv(secured, free, sent) =>
  }

  lemma {:induction false} RunKeeps(e: Engine, es: seq<Event>, net: SM.Adapter)
    requires Inv(e)
    ensures Inv(Run(e, es, net))
    decreases |es|
  {
    hide Step, Inv;
    if es != [] {
      StepKeeps(e, es[0], net);
      RunKeeps(Step(e, es[0], net), es[1..], net);
    }
  }

  lemma {:induction false} RunSnoc(e: Engine, es: seq<Event>, ev: Event, net: SM.Adapter)
    ensures Run(e, es + [ev], net) == Step(Run(e, es, net), ev, net)
    decreases |es|
  {
    hide Step;
    if es == [] {
      assert es + [ev] == [ev];
    } else {
      assert (es + [ev])[1..] == es[1..] + [ev];
      RunSnoc(Step(e, es[0], net), es[1..], ev, net);
    }
  }

  /** Engine coupling from power-up: every run that has just completed a tick is coupled. */
  lemma EngineCoupling(sim: bool, es: seq<Event>, i: Inputs, net: SM.Adapter)
    ensures var e := Run(Init(sim), es + [TickEv(i)], net);
            && SessionCoupling(e) && RadioCoupling(e)
            && (e.rrc.state != RrcIdle ==> i.upAtEnd)
  {
    var e := Run(Init(sim), es, net);
    RunKeeps(Init(sim), es, net);
    RunSnoc(Init(sim), es, TickEv(i), net);
    hide Tick, Run;
    TickCouples(e, i, net);
  }

  /** Whole-engine traffic: ten establishment requests per connect setting, three attempts per registration request. */
  lemma EngineBudget(sim: bool, es: seq<Event>, net: SM.Adapter)
    ensures var e := Run(Init(sim), es, net);
            && SP.Transmissions(e.sm) <= 10 * e.log.settings
            && e.mm.attempts <= 3 * e.log.requests
  {
    RunKeeps(Init(sim), es, net);
  }

  // ---------------------------------------------- recovery happens once

  /** Not registered, not about to be, and without a session. */
  predicate Detached(e: Engine) {
    e.mm.phase.state != MM.Registering && e.mm.phase.state != MM.RegisteredHome && e.sm.phase == SM.INACTIVE
  }

  /** The link is down wherever the event looks at it. */
  predicate LinkDown(ev: Event) {
    ev.TickEv? ==> !ev.inputs.upForCell && !ev.inputs.upForSetup && !ev.inputs.upAtEnd
  }

  predicate AllDown(es: seq<Event>) { es == [] || (LinkDown(es[0]) && AllDown(es[1..])) }

  lemma MachinesStayDetached(e: Engine, now: nat, net: SM.Adapter)
    requires Detached(e) && MP.Coherent(e.mm)
    ensures Detached(TickMachines(e, now, net)) && TickMachines(e, now, net).log == e.log
  {
  }

  lemma PduStaysDetached(e: Engine, pdu: Pdu, now: nat, net: SM.Adapter)
    requires Detached(e)
    ensures Detached(ProcessPdu(e, pdu, now, net)) && ProcessPdu(e, pdu, now, net).log == e.log
  {
    hide SM.HandleReject;
  }

  lemma {:induction false} DrainStaysDetached(e: Engine, pdus: seq<Pdu>, now: nat, net: SM.Adapter)
    requires Detached(e)
    ensures Detached(Drain(e, pdus, now, net)) && Drain(e, pdus, now, net).log == e.log
    decreases |pdus|
  {
    hide ProcessPdu;
    if pdus != [] {
      PduStaysDetached(e, pdus[0], now, net);
      DrainStaysDetached(ProcessPdu(e, pdus[0], now, net), pdus[1..], now, net);
    }
  }

  lemma ProgressStaysDetached(e: Engine, i: Inputs)
    requires Detached(e) && !i.upForCell
    ensures Detached(Progress(e, i)) && Progress(e, i).log == e.log
  {
    var b := SelectCell(AutoConnect(e), i.upForCell);
    assert b == e;
  }

  /** After the machines are detached the rest of the tick leaves them so. */
  lemma TickStaysDetached(e: Engine, i: Inputs, net: SM.Adapter)
    requires Inv(e) && e.radio && !i.upForCell && Detached(RecoverFromLoss(e, i.lost))
    ensures Detached(Tick(e, i, net)) && Tick(e, i, net).log == RecoverFromLoss(e, i.lost).log
  {
    hide RecoverFromLoss, TickMachines, Drain, Progress;
    var a := RecoverFromLoss(e, i.lost);
    RecoverKeeps(e, i.lost);
    MachinesStayDetached(a, i.now, net);
    var b := TickMachines(a, i.now, net);
    DrainStaysDetached(b, i.pdus, i.now, net);
    ProgressStaysDetached(Drain(b, i.pdus, i.now, net), i);
  }

  lemma StepStaysDetached(e: Engine, ev: Event, net: SM.Adapter)
    requires Inv(e) && Detached(e) && LinkDown(ev)
    ensures Detached(Step(e, ev, net)) && Step(e, ev, net).log.recoveries == e.log.recoveries
  {
    if ev.TickEv? && e.radio {
      hide Tick;
      assert RecoverFromLoss(e, ev.inputs.lost) == e;
      TickStaysDetached(e, ev.inputs, net);
    }
  }

  lemma {:induction false} RunStaysDetached(e: Engine, es: seq<Event>, net: SM.Adapter)
    requires Inv(e) && Detached(e) && AllDown(es)
    ensures Run(e, es, net).log.recoveries == e.log.recoveries
    decreases |es|
  {
    hide Step, Inv, Detached;
    if es != [] {
      StepKeeps(e, es[0], net);
      StepStaysDetached(e, es[0], net);
      RunStaysDetached(Step(e, es[0], net), es[1..], net);
    }
  }

  lemma RecoveryDetaches(e: Engine, ev: Event, net: SM.Adapter)
    requires Inv(e) && LinkDown(ev)
    ensures Step(e, ev, net).log.recoveries == e.log.recoveries
         || (Step(e, ev, net).log.recoveries == e.log.recoveries + 1 && Detached(Step(e, ev, net)))
  {
    if ev.TickEv? && e.radio {
      var i := ev.inputs;
      if i.lost && Attached(e) {
        RecoverKeeps(e, i.lost);
        assert RecoverFromLoss(e, i.lost).log.recoveries == e.log.recoveries + 1;
        hide Tick, RecoverFromLoss;
        TickStaysDetached(e, i, net);
      } else {
        LogOfTick(e, i, net);
      }
    }
  }

  lemma {:induction false} DrainLog(e: Engine, pdus: seq<Pdu>, now: nat, net: SM.Adapter)
    ensures Drain(e, pdus, now, net).log == e.log
    decreases |pdus|
  {
    hide ProcessNas;
    if pdus != [] {
      var f := if e.rrc.waiting then e.(rrc := e.rrc.(pdus := e.rrc.pdus + 1)) else e;
      if pdus[0].NasPdu? {
        NasLog(f, pdus[0].nas, net);
      }
      DrainLog(ProcessPdu(e, pdus[0], now, net), pdus[1..], now, net);
    }
  }

  lemma NasLog(e: Engine, nas: Nas, net: SM.Adapter)
    ensures ProcessNas(e, nas, net).log == e.log
  {
  }

  lemma LogOfTick(e: Engine, i: Inputs, net: SM.Adapter)
    requires !(i.lost && Attached(e))
    ensures Tick(e, i, net).log.recoveries == e.log.recoveries
  {
    hide Drain;
    DrainLog(TickMachines(e, i.now, net), i.pdus, i.now, net);
  }

  /** However long the link stays down, the engine recovers from its loss at most once. */
  lemma {:induction false} RecoversOnce(e: Engine, es: seq<Event>, net: SM.Adapter)
    requires Inv(e) && AllDown(es)
    ensures e.log.recoveries <= Run(e, es, net).log.recoveries <= e.log.recoveries + 1
    decreases |es|
  {
    hide Step, Inv, Detached;
    if es != [] {
      var t := Step(e, es[0], net);
      StepKeeps(e, es[0], net);
      RecoveryDetaches(e, es[0], net);
      if t.log.recoveries == e.log.recoveries {
        RecoversOnce(t, es[1..], net);
      } else {
        RunStaysDetached(t, es[1..], net);
      }
    }
  }
}
