/**
  The mobility management machine of `src/ue_engine/ue_mm.c`: registration requests,
  cell search, retries and timeouts, accept and reject.
 */
module MobilityManagement {
  datatype State = PoweredOff | SimNotReady | Deregistered | Searching | Registering | RegisteredHome
  datatype Procedure = Idle | Registration
  datatype ProcStep = NoStep | WaitCellSelection | WaitRegistrationResponse
  datatype Phase = Phase(state: State, procedure: Procedure, step: ProcStep)

  datatype Cause =
    | CauseNone | PowerOn | SimBecameReady | RegisterRequested | RegistrationAccepted | RegistrationRejected
    | RegistrationTimeout | RegistrationRetry | RadioOff | SimMissing

  datatype RejectClass = Temporary | Permanent
  datatype RejectCause = RejectNone | Congestion | IllegalUe | PlmnNotAllowed | TaNotAllowed
  datatype Pending = Initial | MobilityUpdate | PeriodicUpdate

  /** The adapter's answer to a submitted registration request. */
  datatype Answer = Submitted(non3gpp: bool) | Refused(cause: RejectCause)

  /** `attempts` counts attempt identifiers; the source keeps it in 32 bits and uses it as a label only. */
  datatype Mobility = Mobility(
    phase: Phase,
    cause: Cause,
    rejected: RejectClass,
    requested: bool,
    retry: nat,
    max: nat,
    attempts: nat,
    pending: Pending,
    deadline: nat)

  const TIMEOUT_MS := 1200
  const MAX_RETRIES := 2

  const SEARCHING := Phase(Searching, Registration, WaitCellSelection)
  const REGISTERING := Phase(Registering, Registration, WaitRegistrationResponse)

  function Quiet(state: State): Phase { Phase(state, Idle, NoStep) }

  function Init(radio: bool, sim: bool): Mobility {
    var state := if !radio then PoweredOff else if sim then Deregistered else SimNotReady;
    var cause := if !radio then RadioOff else if sim then PowerOn else SimMissing;
    Mobility(Quiet(state), cause, Temporary, false, 0, MAX_RETRIES, 0, Initial, 0)
  }

  function RejectClassOf(cause: RejectCause): RejectClass {
    match cause
    case IllegalUe | PlmnNotAllowed | TaNotAllowed => Permanent
    case RejectNone | Congestion => Temporary
  }

  /** Every caller clears the request. */
  function EnterDeregistered(m: Mobility, cause: Cause): Mobility {
    m.(phase := Quiet(Deregistered), cause := cause, requested := false, retry := 0, deadline := 0)
  }

  function StartRegistration(m: Mobility): Mobility {
    m.(phase := SEARCHING, cause := RegisterRequested, rejected := Temporary, attempts := m.attempts + 1, deadline := 0)
  }

  function InvokePending(m: Mobility): Mobility {
    if m.requested && (m.phase.state == Deregistered || m.phase.state == RegisteredHome)
    then StartRegistration(m)
    else m
  }

  function Request(m: Mobility, pending: Pending): Mobility {
    InvokePending(m.(requested := true, retry := 0, pending := pending))
  }

  function Retry(m: Mobility, deadline: nat): Mobility {
    m.(phase := SEARCHING, cause := RegistrationRetry, rejected := Temporary,
       retry := m.retry + 1, attempts := m.attempts + 1, deadline := deadline)
  }

  function HandleReject(m: Mobility, cause: RejectCause): Mobility {
    var r := m.(rejected := RejectClassOf(cause));
    if m.phase.procedure == Registration && m.phase.step == WaitRegistrationResponse
       && r.rejected == Temporary && m.retry < m.max
    then Retry(r, 0)
    else EnterDeregistered(r, RegistrationRejected)
  }

  function HandleSubmitted(m: Mobility, answer: Answer): Mobility {
    match answer
    case Submitted(non3gpp) =>
      if non3gpp then EnterDeregistered(m.(rejected := Permanent), RegistrationRejected)
      else m.(rejected := Temporary)
    case Refused(cause) => HandleReject(m, cause)
  }

  function ToRegistering(m: Mobility): Mobility {
    m.(phase := m.phase.(state := Registering, step := WaitRegistrationResponse), deadline := 0)
  }

  function OnCellFound(m: Mobility, answer: Answer): Mobility {
    if m.phase.state == Searching && m.requested && m.phase.step == WaitCellSelection then
      var t := HandleSubmitted(m, answer);
      if t.phase.state != Searching then t else ToRegistering(t)
    else m
  }

  function OnAccept(m: Mobility): Mobility {
    if m.phase.state == Registering && m.requested then
      m.(phase := Quiet(RegisteredHome), cause := RegistrationAccepted, rejected := Temporary,
         requested := false, retry := 0, deadline := 0)
    else m
  }

  function OnReject(m: Mobility, cause: RejectCause): Mobility {
    if m.phase.state == Registering && m.requested then HandleReject(m, cause) else m
  }

  /** Arms the timer, or on expiry retries or gives up; the same in both waiting steps. */
  function HandleWait(m: Mobility, now: nat): Mobility {
    var t := if m.deadline == 0 then m.(deadline := now + TIMEOUT_MS) else m;
    if now < t.deadline then t
    else if t.retry < t.max then Retry(t, now + TIMEOUT_MS)
    else EnterDeregistered(t, RegistrationTimeout).(rejected := Temporary)
  }

  function Tick(m: Mobility, now: nat): Mobility {
    if m.requested && ((m.phase.state == Searching && m.phase.step == WaitCellSelection)
                       || (m.phase.state == Registering && m.phase.step == WaitRegistrationResponse))
    then HandleWait(m, now)
    else if m.phase.state == Registering || m.phase.state == Searching then m.(deadline := 0)
    else m.(phase := Quiet(m.phase.state), deadline := 0)
  }

  function Reset(m: Mobility, state: State, cause: Cause): Mobility {
    m.(phase := Quiet(state), cause := cause, rejected := Temporary, requested := false, retry := 0, deadline := 0)
  }

  function OnRadio(m: Mobility, on: bool): Mobility {
    if !on then Reset(m, PoweredOff, RadioOff)
    else if m.phase.state == SimNotReady then m
    else EnterDeregistered(m, PowerOn).(rejected := Temporary)
  }

  function OnSim(m: Mobility, ready: bool): Mobility {
    if !ready then Reset(m, SimNotReady, SimMissing)
    else
      var state := if m.phase.state == SimNotReady then Deregistered else m.phase.state;
      m.(phase := m.phase.(state := state), cause := SimBecameReady)
  }

  datatype Event =
    | RequestEv(pending: Pending)
    | CellFoundEv(answer: Answer)
    | CellSelectedEv
    | AcceptEv
    | RejectEv(cause: RejectCause)
    | TickEv(now: nat)
    | RadioEv(on: bool)
    | SimEv(ready: bool)

  /** The engine moves the machine to REGISTERING only from SEARCHING. */
  function Step(m: Mobility, e: Event): Mobility {
    match e
    case RequestEv(pending) => Request(m, pending)
    case CellFoundEv(answer) => OnCellFound(m, answer)
    case CellSelectedEv => if m.phase.state == Searching then ToRegistering(m) else m
    case AcceptEv => OnAccept(m)
    case RejectEv(cause) => OnReject(m, cause)
    case TickEv(now) => Tick(m, now)
    case RadioEv(on) => OnRadio(m, on)
    case SimEv(ready) => OnSim(m, ready)
  }

  function Run(m: Mobility, es: seq<Event>): Mobility
    decreases |es|
  {
    if es == [] then m else Run(Step(m, es[0]), es[1..])
  }
}
