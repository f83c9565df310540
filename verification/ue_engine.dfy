/**
  The UE engine of `src/ue_engine/ue_engine.c`: the tick that couples mobility management,
  session management, the RRC connection and the radio switch, the dispatch of downlink
  NAS messages, and the requests of the host.

  The RAN link belongs to another thread, so each of the four places where a tick looks at
  it is a separate input; so are the downlink PDUs and whether an uplink message could be built.
 */
module UeEngine {
  import opened Options
  import MM = MobilityManagement
  import SM = SessionManagement

  datatype RrcState = RrcIdle | SetupRequested | RrcConnected

  /** `waiting` is set from the end of RRC setup until the core network answers. */
  datatype Rrc = Rrc(state: RrcState, requestMs: nat, completeMs: nat, pdus: nat, waiting: bool)

  /** The internal PDU session for SMS over IMS. */
  datatype Ims = Ims(requested: bool, establishing: bool, active: bool, psi: nat, pti: nat)

  /** How often the connect flag was set, a registration requested, and a lost link recovered from. */
  datatype Log = Log(settings: nat, requests: nat, recoveries: nat)

  datatype Engine = Engine(radio: bool, mm: MM.Mobility, sm: SM.Session, rrc: Rrc, ims: Ims, log: Log)

  const RRC_RESET := Rrc(RrcIdle, 0, 0, 0, false)
  const SETUP_TIMEOUT_MS := 3000
  const CORE_TIMEOUT_MS := 15000

  function Init(sim: bool): Engine {
    Engine(true, MM.Init(true, sim), SM.INITIAL, RRC_RESET, Ims(false, false, false, 0, 0), Log(0, 0, 0))
  }

  /** Unsigned 64-bit `now - then > limit`: a time that ran backwards counts as long ago. */
  predicate Elapsed(now: nat, since: nat, limit: nat) { now < since || now - since > limit }

  datatype Nas =
    | RegistrationAccept
    | RegistrationReject(mmCause: nat)
    | EstablishAccept(psi: nat, pti: nat)
    | EstablishReject(psi: nat, pti: nat, smCause: nat)
    | ReleaseCommand(psi: nat)
    | OtherNas

  /** A downlink PDU once decoded; `Undecoded` is one that no decoder accepts. */
  datatype Pdu = RrcSetup | NasPdu(nas: Nas) | Undecoded

  datatype Inputs = Inputs(
    now: nat,
    lost: bool,
    upForCell: bool,
    upForSetup: bool,
    upAtEnd: bool,
    encodes: bool,
    pdus: seq<Pdu>)

  function MmCauseOf(code: nat): MM.RejectCause {
    if code == 3 then MM.IllegalUe
    else if code == 11 then MM.PlmnNotAllowed
    else if code == 12 then MM.TaNotAllowed
    else MM.Congestion
  }

  function SmCauseOf(code: nat): SM.RejectCause {
    if code == 27 then SM.MissingDnn
    else if code == 28 then SM.UnknownPduType
    else SM.InsufficientResources
  }

  function Forget(e: Engine): Engine {
    e.(rrc := RRC_RESET,
       sm := SM.ClearRuntime(e.sm),
       ims := e.ims.(requested := false, establishing := false, active := false))
  }

  function RequestRegistration(e: Engine, pending: MM.Pending): Engine {
    e.(mm := MM.Request(e.mm, pending), log := e.log.(requests := e.log.requests + 1))
  }

  predicate Attached(e: Engine) {
    e.mm.phase.state == MM.RegisteredHome || e.sm.phase.state == SM.Active
  }

  /** The serving cell timed out under a registered UE: forget everything and register again. */
  function RecoverFromLoss(e: Engine, lost: bool): Engine {
    if !(lost && Attached(e)) then e
    else
      var f := Forget(e);
      var off := f.(sm := SM.OnRadio(f.sm, false), mm := MM.OnRadio(f.mm, false));
      var on := off.(mm := MM.OnRadio(off.mm, true), log := off.log.(recoveries := off.log.recoveries + 1));
      RequestRegistration(on, MM.Initial)
  }

  function TickMachines(e: Engine, now: nat, net: SM.Adapter): Engine {
    var mm := if e.rrc.waiting then e.mm else MM.Tick(e.mm, now);
    e.(mm := mm, sm := SM.Tick(e.sm, now, mm.phase.state == MM.RegisteredHome, net))
  }

  predicate ForIms(e: Engine, psi: nat, pti: nat) {
    e.ims.establishing && psi == e.ims.psi && pti == e.ims.pti
  }

  function ProcessNas(e: Engine, nas: Nas, net: SM.Adapter): Engine {
    match nas
    case RegistrationAccept => e.(mm := MM.OnAccept(e.mm), rrc := e.rrc.(waiting := false))
    case RegistrationReject(code) => e.(mm := MM.OnReject(e.mm, MmCauseOf(code)), rrc := e.rrc.(waiting := false))
    case EstablishAccept(psi, pti) =>
      if ForIms(e, psi, pti) then e.(ims := e.ims.(establishing := false, active := true))
      else if e.sm.phase.state != SM.Establishing then e
      else e.(sm := SM.OnEstablished(e.sm.(ids := e.sm.ids.(session := psi))))
    case EstablishReject(psi, pti, code) =>
      if ForIms(e, psi, pti) then e.(ims := e.ims.(establishing := false, requested := false, active := false))
      else if e.sm.phase.state != SM.Establishing then e
      else e.(sm := SM.OnReject(e.sm, SmCauseOf(code), net))
    case ReleaseCommand(psi) =>
      if e.ims.active && psi == e.ims.psi
      then e.(ims := e.ims.(active := false, requested := false, establishing := false))
      else e.(sm := SM.OnReleased(e.sm))
    case OtherNas => e
  }

  function ProcessPdu(e: Engine, pdu: Pdu, now: nat, net: SM.Adapter): Engine {
    var f := if e.rrc.waiting then e.(rrc := e.rrc.(pdus := e.rrc.pdus + 1)) else e;
    match pdu
    case RrcSetup => f.(rrc := f.rrc.(state := RrcConnected, completeMs := now, pdus := 0, waiting := true))
    case NasPdu(nas) => ProcessNas(f, nas, net)
    case Undecoded => f
  }

  function Drain(e: Engine, pdus: seq<Pdu>, now: nat, net: SM.Adapter): Engine
    decreases |pdus|
  {
    if pdus == [] then e else Drain(ProcessPdu(e, pdus[0], now, net), pdus[1..], now, net)
  }

  /** Step 4: a registered UE without a session asks for one. */
  function AutoConnect(e: Engine): Engine {
    if e.mm.phase.state == MM.RegisteredHome && e.sm.phase.state == SM.Inactive && !e.sm.connect && !e.sm.disconnect
    then e.(sm := SM.AutoConnect(e.sm), log := e.log.(settings := e.log.settings + 1))
    else e
  }

  /** Step 5. */
  function SelectCell(e: Engine, up: bool): Engine {
    if e.mm.phase.state == MM.Searching && up && !e.rrc.waiting then e.(mm := MM.ToRegistering(e.mm)) else e
  }

  /** Step 5b. */
  function InitiateSetup(e: Engine, up: bool, now: nat): Engine {
    if e.rrc.state == RrcIdle && up && e.mm.requested
    then e.(rrc := e.rrc.(state := SetupRequested, requestMs := now))
    else e
  }

  /** Step 5b-bis: an update over an existing RRC connection. */
  function SendUpdate(e: Engine, encodes: bool, now: nat): Engine {
    if e.mm.phase.state == MM.Registering && e.mm.requested && e.rrc.state == RrcConnected
       && e.mm.pending != MM.Initial && !e.rrc.waiting && encodes
    then e.(rrc := e.rrc.(waiting := true, completeMs := now, pdus := 0))
    else e
  }

  /** Step 5c. */
  function SetupTimeout(e: Engine, now: nat): Engine {
    if e.rrc.state == SetupRequested && Elapsed(now, e.rrc.requestMs, SETUP_TIMEOUT_MS)
    then e.(rrc := e.rrc.(state := RrcIdle))
    else e
  }

  /** Step 5e. */
  function CoreTimeout(e: Engine, now: nat): Engine {
    if e.rrc.waiting && e.rrc.state == RrcConnected && e.mm.phase.state == MM.Registering
       && Elapsed(now, e.rrc.completeMs, CORE_TIMEOUT_MS)
    then e.(rrc := e.rrc.(waiting := false, state := RrcIdle))
    else e
  }

  /** Step 5d. */
  function DropRrc(e: Engine, up: bool): Engine {
    if !up && e.rrc.state != RrcIdle then e.(rrc := e.rrc.(state := RrcIdle)) else e
  }

  /** Steps 4 to 5d, after the downlink queue is empty. */
  function Progress(e: Engine, i: Inputs): Engine {
    var a := InitiateSetup(SelectCell(AutoConnect(e), i.upForCell), i.upForSetup, i.now);
    DropRrc(CoreTimeout(SetupTimeout(SendUpdate(a, i.encodes, i.now), i.now), i.now), i.upAtEnd)
  }

  function Tick(e: Engine, i: Inputs, net: SM.Adapter): Engine {
    if !e.radio then e.(rrc := RRC_RESET)
    else Progress(Drain(TickMachines(RecoverFromLoss(e, i.lost), i.now, net), i.pdus, i.now, net), i)
  }

  function SetRadio(e: Engine, on: bool): Engine {
    var f := if on && e.radio then e else Forget(e);
    var g := f.(radio := on, mm := MM.OnRadio(f.mm, on), sm := SM.OnRadio(f.sm, on));
    if on && g.mm.phase.state == MM.Deregistered then RequestRegistration(g, MM.Initial) else g
  }

  function NextImsPti(pti: nat): nat {
    var next := if pti != 0 then (pti + 1) % 256 else 2;
    if next == 0 || next == 255 then 2 else next
  }

  /**
    `secured` is whether a security context is active, `free` the session identity found free,
    `sent` whether the request was encoded and sent.  The identities are taken before that.
   */
  function RequestIms(e: Engine, secured: bool, free: Option<nat>, sent: bool): Engine {
    if !e.radio || e.mm.phase.state != MM.RegisteredHome || !secured || e.rrc.state != RrcConnected
       || e.ims.active || e.ims.establishing || free.None?
    then e
    else
      var named := e.ims.(psi := free.value, pti := NextImsPti(e.ims.pti));
      e.(ims := if sent then named.(requested := true, establishing := true) else named)
  }

  datatype Event =
    | TickEv(inputs: Inputs)
    | RadioEv(on: bool)
    | RegisterEv(pending: MM.Pending)
    | ConnectEv
    | DisconnectEv
    | ImsEv(secured: bool, free: Option<nat>, sent: bool)

  function Step(e: Engine, ev: Event, net: SM.Adapter): Engine {
    match ev
    case TickEv(i) => Tick(e, i, net)
    case RadioEv(on) => SetRadio(e, on)
    case RegisterEv(pending) => RequestRegistration(e, pending)
    case ConnectEv => e.(sm := SM.RequestConnect(e.sm), log := e.log.(settings := e.log.settings + 1))
    case DisconnectEv => e.(sm := SM.RequestDisconnect(e.sm))
    case ImsEv(secured, free, sent) => RequestIms(e, secured, free, sent)
  }

  function Run(e: Engine, es: seq<Event>, net: SM.Adapter): Engine
    decreases |es|
  {
    if es == [] then e else Run(Step(e, es[0], net), es[1..], net)
  }
}
