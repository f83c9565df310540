/**
  The session management machine of `src/ue_engine/ue_sm.c`: one PDU session that is
  established, retried, retransmitted under T3580 and released.

  The network adapter is arbitrary: an `Adapter` gives the answer to the k-th request of
  each kind, and every theorem holds for all adapters.  Times are milliseconds, unbounded.
 */
module SessionManagement {
  import opened Options

  datatype State = Inactive | Establishing | Active | Releasing
  datatype Procedure = Idle | EstablishPdu | ReleasePdu
  datatype ProcStep = NoStep | WaitEstablishResponse | WaitReleaseComplete
  datatype Phase = Phase(state: State, procedure: Procedure, step: ProcStep)

  datatype Cause =
    | CauseNone | ConnectRequested | EstablishAccepted | EstablishRejected
    | DisconnectRequested | ReleaseComplete | MmNotRegistered | RadioOff

  datatype RejectClass = Temporary | Permanent
  datatype RejectCause = RejectNone | InsufficientResources | MissingDnn | UnknownPduType | SemanticError

  /** An establishment request as handed to the adapter. */
  datatype Request = Request(attempt: nat, psi: nat, pti: nat)

  datatype Answer = Submitted(psi: nat) | Refused(cause: RejectCause)

  /** What the network side does: the answer to the k-th establishment and to the k-th release request. */
  datatype Adapter = Adapter(establish: nat -> Answer, release: nat -> Option<RejectCause>)

  /** `deadline` 0 means the timer is not armed. */
  datatype Timer = Timer(deadline: nat, retx: nat)

  /** `attempt` counts attempts; the source keeps it in 32 bits and uses it as a label only. */
  datatype Ids = Ids(session: nat, attempt: nat, pti: nat, nextPti: nat)

  /** Everything handed to the adapter so far. */
  datatype Sent = Sent(requests: seq<Request>, releases: nat)

  datatype Session = Session(
    phase: Phase,
    cause: Cause,
    rejected: RejectClass,
    connect: bool,
    disconnect: bool,
    retry: nat,
    max: nat,
    timer: Timer,
    ids: Ids,
    sent: Sent)

  const T3580_MS := 16000
  const T3580_MAX_RETX := 4
  const RELEASE_WAIT_MS := 16000
  const MAX_RETRIES := 1
  const LAST_PTI := 254

  const INACTIVE := Phase(Inactive, Idle, NoStep)
  const ESTABLISHING := Phase(Establishing, EstablishPdu, WaitEstablishResponse)
  const ACTIVE := Phase(Active, Idle, NoStep)
  const RELEASING := Phase(Releasing, ReleasePdu, WaitReleaseComplete)

  const INITIAL :=
    Session(INACTIVE, CauseNone, Temporary, false, false, 0, MAX_RETRIES, Timer(0, 0), Ids(0, 0, 0, 0), Sent([], 0))

  function RejectClassOf(cause: RejectCause): RejectClass {
    match cause
    case MissingDnn | UnknownPduType | SemanticError => Permanent
    case RejectNone | InsufficientResources => Temporary
  }

  /** Takes the cursor as the PTI and advances it around 1..254. */
  function AllocPti(ids: Ids): Ids {
    var pti := if ids.nextPti < 1 || ids.nextPti > LAST_PTI then 1 else ids.nextPti;
    ids.(pti := pti, nextPti := pti % LAST_PTI + 1)
  }

  function EnterInactive(s: Session, cause: Cause, clearConnect: bool, clearDisconnect: bool): Session {
    s.(phase := INACTIVE,
       cause := cause,
       connect := s.connect && !clearConnect,
       disconnect := s.disconnect && !clearDisconnect,
       timer := s.timer.(deadline := 0),
       ids := s.ids.(pti := 0))
  }

  function BuildRequest(ids: Ids): Request {
    Request(ids.attempt, if ids.session != 0 then ids.session else 1, if ids.pti != 0 then ids.pti else 1)
  }

  function Transmit(s: Session): Session {
    s.(sent := s.sent.(requests := s.sent.requests + [BuildRequest(s.ids)]))
  }

  /** A new establishment attempt, up to and including the transmission of its request. */
  function BeginEstablish(s: Session): Session {
    var ids := AllocPti(s.ids);
    Transmit(s.(phase := ESTABLISHING, timer := Timer(0, 0), ids := ids.(attempt := ids.attempt + 1)))
  }

  function RetriesLeft(s: Session): nat { if s.retry < s.max then s.max - s.retry else 0 }

  function StartEstablish(s: Session, net: Adapter): Session
    decreases RetriesLeft(s), 1
  {
    var t := BeginEstablish(s);
    match net.establish(|s.sent.requests|)
    case Submitted(psi) => t.(ids := t.ids.(session := psi, pti := 0))
    case Refused(cause) => HandleReject(t, cause, net)
  }

  /** An attempt was refused: give up, or count a retry and start over. */
  function HandleReject(s: Session, cause: RejectCause, net: Adapter): Session
    decreases RetriesLeft(s), 0
  {
    var r := s.(rejected := RejectClassOf(cause));
    if s.phase.procedure != EstablishPdu || s.phase.step != WaitEstablishResponse then
      EnterInactive(r, EstablishRejected, true, true).(retry := 0)
    else
      var t := EnterInactive(r, EstablishRejected, false, true);
      if cause != SemanticError && t.rejected == Temporary && t.retry < t.max
      then StartEstablish(t.(retry := t.retry + 1, connect := true, disconnect := false), net)
      else t.(connect := false, retry := 0)
  }

  function StartRelease(s: Session, net: Adapter): Session {
    var t := s.(phase := RELEASING,
                timer := s.timer.(deadline := 0),
                ids := AllocPti(s.ids),
                sent := s.sent.(releases := s.sent.releases + 1));
    match net.release(s.sent.releases)
    case None => t
    case Some(cause) =>
      EnterInactive(t.(rejected := RejectClassOf(cause)), ReleaseComplete, true, true).(retry := 0)
  }

  /** The session is gone for a reason outside the procedure. */
  function Abandon(s: Session, cause: Cause): Session {
    EnterInactive(s, cause, true, true).(rejected := Temporary, retry := 0)
  }

  function OnRadio(s: Session, on: bool): Session { if on then s else Abandon(s, RadioOff) }

  function RequestConnect(s: Session): Session {
    s.(connect := true, disconnect := false, cause := ConnectRequested, rejected := Temporary, retry := 0)
  }

  function RequestDisconnect(s: Session): Session {
    s.(disconnect := true, connect := false, cause := DisconnectRequested, rejected := Temporary)
  }

  /** The engine asks for a session of its own accord; the retry counter is not reset. */
  function AutoConnect(s: Session): Session {
    if s.phase.state == Inactive && !s.connect && !s.disconnect then s.(connect := true) else s
  }

  /** The engine forgets the network: runtime identifiers, timer and requests are cleared. */
  function ClearRuntime(s: Session): Session {
    s.(timer := Timer(0, 0), ids := Ids(0, 0, 0, 0), connect := false, disconnect := false)
  }

  function TickDisconnect(s: Session, net: Adapter): Session {
    if !s.disconnect then s
    else if s.phase.state == Active then StartRelease(s, net)
    else EnterInactive(s, DisconnectRequested, false, true)
  }

  function TickConnect(s: Session, net: Adapter): Session {
    if s.connect && s.phase.state == Inactive then StartEstablish(s.(connect := false), net) else s
  }

  /** T3580: arm, retransmit, or abandon after the last retransmission. */
  function TickT3580(s: Session, now: nat): Session {
    if s.phase.state != Establishing || s.phase.step != WaitEstablishResponse then s
    else if s.timer.deadline == 0 then s.(timer := s.timer.(deadline := now + T3580_MS))
    else if now < s.timer.deadline then s
    else if s.timer.retx < T3580_MAX_RETX then Transmit(s.(timer := Timer(now + T3580_MS, s.timer.retx + 1)))
    else EnterInactive(s, EstablishRejected, true, true).(timer := Timer(0, 0))
  }

  function TickRelease(s: Session, now: nat): Session {
    if s.phase.state != Releasing || s.phase.step != WaitReleaseComplete then s
    else if s.timer.deadline == 0 then s.(timer := s.timer.(deadline := now + RELEASE_WAIT_MS))
    else if now >= s.timer.deadline then EnterInactive(s, ReleaseComplete, true, true)
    else s
  }

  function Tick(s: Session, now: nat, registered: bool, net: Adapter): Session {
    if !registered then Abandon(s, MmNotRegistered)
    else TickRelease(TickT3580(TickConnect(TickDisconnect(s, net), net), now), now)
  }

  function OnEstablished(s: Session): Session {
    if s.phase.state != Establishing then s
    else
      s.(phase := ACTIVE, cause := EstablishAccepted, rejected := Temporary, connect := false, retry := 0,
         timer := s.timer.(deadline := 0), ids := s.ids.(session := 0))
  }

  function OnReject(s: Session, cause: RejectCause, net: Adapter): Session {
    if s.phase.state == Establishing && s.phase.step == WaitEstablishResponse then HandleReject(s, cause, net) else s
  }

  function OnReleased(s: Session): Session {
    if s.phase.state == Releasing || s.phase.state == Active then Abandon(s, ReleaseComplete) else s
  }

  datatype Event =
    | TickEv(now: nat, registered: bool)
    | ConnectEv
    | AutoConnectEv
    | DisconnectEv
    | EstablishedEv
    | RejectEv(cause: RejectCause)
    | ReleasedEv
    | RadioEv(on: bool)
    | ForgetEv

  function Step(s: Session, e: Event, net: Adapter): Session {
    match e
    case TickEv(now, registered) => Tick(s, now, registered, net)
    case ConnectEv => RequestConnect(s)
    case AutoConnectEv => AutoConnect(s)
    case DisconnectEv => RequestDisconnect(s)
    case EstablishedEv => OnEstablished(s)
    case RejectEv(cause) => OnReject(s, cause, net)
    case ReleasedEv => OnReleased(s)
    case RadioEv(on) => OnRadio(s, on)
    case ForgetEv => OnRadio(ClearRuntime(s), false)
  }

  function Run(s: Session, es: seq<Event>, net: Adapter): Session
    decreases |es|
  {
    if es == [] then s else Run(Step(s, es[0], net), es[1..], net)
  }
}
