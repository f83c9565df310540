/**
  The machines and the engine as the source runs them: objects whose fields the handlers
  update in place.  Every method makes the transition of its function; every entry point
  keeps the invariant of its object and says what the call can and cannot bring about.
 */
module UeImpl {
  import opened Options
  import MM = MobilityManagement
  import SM = SessionManagement
  import MP = MobilityManagementProofs
  import SP = SessionManagementProofs
  import opened UeEngine
  import opened UeEngineProofs

  // What an event other than an accept leaves: within the budget, and not newly registered or active.

  ghost predicate MmKept(m: MM.Mobility, t: MM.Mobility, credit: nat) {
    MP.Follows(m, t, credit) && (t.phase.state == MM.RegisteredHome ==> m.phase.state == MM.RegisteredHome)
  }

  lemma MmStepKept(m: MM.Mobility, e: MM.Event)
    requires MP.Coherent(m) && !e.AcceptEv?
    ensures MmKept(m, MM.Step(m, e), MP.Budget(m) + MP.Requests(e) * (1 + m.max)) && MP.Coherent(MM.Step(m, e))
  {
    hide MM.Step, MP.Coherent;
    MP.StepFollows(m, e);
    if m.phase.state != MM.RegisteredHome && MM.Step(m, e).phase.state == MM.RegisteredHome {
      MP.EnteredByAccept(m, e);
    }
  }

  ghost predicate SmKept(s: SM.Session, t: SM.Session, credit: nat) {
    SP.Follows(s, t, credit) && (t.phase.state == SM.Active ==> s.phase.state == SM.Active)
  }

  lemma SmStepKept(s: SM.Session, e: SM.Event, net: SM.Adapter)
    requires SP.Coherent(s) && !e.EstablishedEv?
    ensures SmKept(s, SM.Step(s, e, net), SP.Budget(s) + SP.Settings(e) * SP.Allowance(s.max))
    ensures SP.Coherent(SM.Step(s, e, net))
  {
    hide SM.Step;
    SP.StepFollows(s, e, net);
    if s.phase.state != SM.Active && SM.Step(s, e, net).phase.state == SM.Active {
      SP.EnteredByAccept(s, e, net);
    }
  }

  class MmContext {
    var state: MM.State
    var procedure: MM.Procedure
    var step: MM.ProcStep
    var cause: MM.Cause
    var rejected: MM.RejectClass
    var requested: bool
    var retry: nat
    var max: nat
    var attempts: nat
    var pending: MM.Pending
    var deadline: nat

    ghost function Abs(): MM.Mobility
      reads this
    {
      MM.Mobility(MM.Phase(state, procedure, step), cause, rejected, requested, retry, max, attempts, pending, deadline)
    }

    ghost predicate Valid()
      reads this
    {
      MP.Coherent(Abs())
    }

    constructor (radio: bool, sim: bool)
      ensures Valid() && Abs() == MM.Init(radio, sim)
    {
      procedure, step := MM.Idle, MM.NoStep;
      rejected, requested, pending := MM.Temporary, false, MM.Initial;
      retry, max, attempts, deadline := 0, MM.MAX_RETRIES, 0, 0;
      if !radio {
        state, cause := MM.PoweredOff, MM.RadioOff;
      } else if sim {
        state, cause := MM.Deregistered, MM.PowerOn;
      } else {
        state, cause := MM.SimNotReady, MM.SimMissing;
      }
    }

    method EnterDeregistered(why: MM.Cause)
      modifies this
      ensures Abs() == MM.EnterDeregistered(old(Abs()), why)
    {
      state, procedure, step := MM.Deregistered, MM.Idle, MM.NoStep;
      cause := why;
      requested, retry := false, 0;
      deadline := 0;
    }

    method InvokePending()
      modifies this
      ensures Abs() == MM.InvokePending(old(Abs()))
    {
      if !requested {
        return;
      }
      if state != MM.Deregistered && state != MM.RegisteredHome {
        return;
      }
      attempts := attempts + 1;
      state, procedure, step := MM.Searching, MM.Registration, MM.WaitCellSelection;
      cause, rejected := MM.RegisterRequested, MM.Temporary;
      deadline := 0;
    }

    /** Pays for one attempt and its retries; a search starts unless one runs or the radio or SIM is missing. */
    method Request(what: MM.Pending)
      requires Valid()
      modifies this
      ensures Valid() && Abs() == MM.Request(old(Abs()), what)
      ensures MmKept(old(Abs()), Abs(), old(MP.Budget(Abs())) + 1 + max)
      ensures requested && (old(state) == MM.Deregistered || old(state) == MM.RegisteredHome ==> state == MM.Searching)
    {
      MmStepKept(Abs(), MM.RequestEv(what));
      requested := true;
      retry := 0;
      pending := what;
      InvokePending();
    }

    method RetryAttempt(nextDeadline: nat)
      modifies this
      ensures Abs() == MM.Retry(old(Abs()), nextDeadline)
    {
      retry := retry + 1;
      attempts := attempts + 1;
      state, procedure, step := MM.Searching, MM.Registration, MM.WaitCellSelection;
      cause, rejected := MM.RegistrationRetry, MM.Temporary;
      deadline := nextDeadline;
    }

    method HandleReject(why: MM.RejectCause)
      modifies this
      ensures Abs() == MM.HandleReject(old(Abs()), why)
    {
      rejected := MM.RejectClassOf(why);
      if procedure != MM.Registration || step != MM.WaitRegistrationResponse {
        EnterDeregistered(MM.RegistrationRejected);
        return;
      }
      if rejected == MM.Temporary && retry < max {
        RetryAttempt(0);
        return;
      }
      EnterDeregistered(MM.RegistrationRejected);
    }

    method HandleSubmitted(answer: MM.Answer)
      modifies this
      ensures Abs() == MM.HandleSubmitted(old(Abs()), answer)
    {
      match answer {
        case Submitted(non3gpp) =>
          if non3gpp {
            rejected := MM.Permanent;
            EnterDeregistered(MM.RegistrationRejected);
            return;
          }
          rejected := MM.Temporary;
        case Refused(why) =>
          HandleReject(why);
      }
    }

    method ToRegistering()
      modifies this
      ensures Abs() == MM.ToRegistering(old(Abs()))
      ensures old(Valid() && state == MM.Searching) ==> Valid()
    {
      state := MM.Registering;
      step := MM.WaitRegistrationResponse;
      deadline := 0;
    }

    method OnCellFound(answer: MM.Answer)
      requires Valid()
      modifies this
      ensures Valid() && Abs() == MM.OnCellFound(old(Abs()), answer)
      ensures MmKept(old(Abs()), Abs(), old(MP.Budget(Abs())))
      ensures state == MM.Registering <==>
                old(state) == MM.Registering || (old(state) == MM.Searching && answer == MM.Submitted(false))
    {
      MmStepKept(Abs(), MM.CellFoundEv(answer));
      if state == MM.Searching && requested && step == MM.WaitCellSelection {
        HandleSubmitted(answer);
        if state != MM.Searching {
          return;
        }
        ToRegistering();
      }
    }

    /** Registered afterwards exactly if registered or registering before. */
    method OnAccept()
      requires Valid()
      modifies this
      ensures Valid() && Abs() == MM.OnAccept(old(Abs())) && attempts == old(attempts)
      ensures state == MM.RegisteredHome <==> old(state) == MM.Registering || old(state) == MM.RegisteredHome
    {
      if state == MM.Registering && requested {
        state, procedure, step := MM.RegisteredHome, MM.Idle, MM.NoStep;
        cause, rejected := MM.RegistrationAccepted, MM.Temporary;
        requested, retry, deadline := false, 0, 0;
      }
    }

    /** A refused registration is tried again exactly if the cause is temporary and a retry is left. */
    method OnReject(why: MM.RejectCause)
      requires Valid()
      modifies this
      ensures Valid() && Abs() == MM.OnReject(old(Abs()), why)
      ensures MmKept(old(Abs()), Abs(), old(MP.Budget(Abs())))
      ensures old(state) == MM.Registering ==>
                if MM.RejectClassOf(why) == MM.Temporary && old(retry) < max
                then state == MM.Searching && attempts == old(attempts) + 1
                else state == MM.Deregistered && attempts == old(attempts)
      ensures old(state) != MM.Registering ==> Abs() == old(Abs())
    {
      MmStepKept(Abs(), MM.RejectEv(why));
      if state == MM.Registering && requested {
        HandleReject(why);
      }
    }

    method HandleWait(now: nat)
      modifies this
      ensures Abs() == MM.HandleWait(old(Abs()), now)
    {
      if deadline == 0 {
        deadline := now + MM.TIMEOUT_MS;
      }
      if now < deadline {
        return;
      }
      if retry < max {
        RetryAttempt(now + MM.TIMEOUT_MS);
        return;
      }
      EnterDeregistered(MM.RegistrationTimeout);
      rejected := MM.Temporary;
    }

    /** Time never registers the UE and never starts an attempt that was not paid for. */
    method Tick(now: nat)
      requires Valid()
      modifies this
      ensures Valid() && Abs() == MM.Tick(old(Abs()), now)
      ensures MmKept(old(Abs()), Abs(), old(MP.Budget(Abs())))
      ensures attempts > old(attempts) ==> 0 < old(deadline) <= now
    {
      MmStepKept(Abs(), MM.TickEv(now));
      if state == MM.Searching && requested && step == MM.WaitCellSelection {
        HandleWait(now);
        return;
      }
      if state == MM.Registering && requested && step == MM.WaitRegistrationResponse {
        HandleWait(now);
        return;
      }
      if state != MM.Registering && state != MM.Searching {
        procedure, step := MM.Idle, MM.NoStep;
      }
      deadline := 0;
    }

    method OnRadio(on: bool)
      requires Valid()
      modifies this
      ensures Valid() && Abs() == MM.OnRadio(old(Abs()), on)
      ensures !requested || old(state) == MM.SimNotReady
      ensures attempts == old(attempts) && state != MM.RegisteredHome && !MP.InProgress(Abs())
    {
      if !on {
        state, procedure, step := MM.PoweredOff, MM.Idle, MM.NoStep;
        cause, rejected := MM.RadioOff, MM.Temporary;
        requested, retry, deadline := false, 0, 0;
        return;
      }
      if state == MM.SimNotReady {
        return;
      }
      EnterDeregistered(MM.PowerOn);
      rejected := MM.Temporary;
    }

    method OnSim(ready: bool)
      requires Valid()
      modifies this
      ensures Valid() && Abs() == MM.OnSim(old(Abs()), ready)
      ensures MmKept(old(Abs()), Abs(), old(MP.Budget(Abs())))
      ensures state == MM.SimNotReady <==> !ready
    {
      MmStepKept(Abs(), MM.SimEv(ready));
      if !ready {
        state, procedure, step := MM.SimNotReady, MM.Idle, MM.NoStep;
        cause, rejected := MM.SimMissing, MM.Temporary;
        requested, retry, deadline := false, 0, 0;
        return;
      }
      if state == MM.SimNotReady {
        state := MM.Deregistered;
      }
      cause := MM.SimBecameReady;
    }
  }

  class SmContext {
    const net: SM.Adapter
    var state: SM.State
    var procedure: SM.Procedure
    var step: SM.ProcStep
    var cause: SM.Cause
    var rejected: SM.RejectClass
    var connect: bool
    var disconnect: bool
    var retry: nat
    var max: nat
    var deadline: nat
    var retx: nat
    var session: nat
    var attempt: nat
    var pti: nat
    var nextPti: nat
    /** What the adapter has been handed. */
    var requests: seq<SM.Request>
    var releases: nat

    ghost function Abs(): SM.Session
      reads this
    {
      SM.Session(SM.Phase(state, procedure, step), cause, rejected, connect, disconnect, retry, max,
                 SM.Timer(deadline, retx), SM.Ids(session, attempt, pti, nextPti), SM.Sent(requests, releases))
    }

    ghost predicate Valid()
      reads this
    {
      SP.Coherent(Abs())
    }

    constructor (net: SM.Adapter)
      ensures Valid() && Abs() == SM.INITIAL && this.net == net
    {
      this.net := net;
      state, procedure, step := SM.Inactive, SM.Idle, SM.NoStep;
      cause, rejected := SM.CauseNone, SM.Temporary;
      connect, disconnect := false, false;
      retry, max := 0, SM.MAX_RETRIES;
      deadline, retx := 0, 0;
      session, attempt, pti, nextPti := 0, 0, 0, 0;
      requests, releases := [], 0;
    }

    method AllocPti()
      modifies this`pti, this`nextPti
      ensures SM.Ids(session, attempt, pti, nextPti) == SM.AllocPti(old(SM.Ids(session, attempt, pti, nextPti)))
      ensures 1 <= pti <= SM.LAST_PTI && 1 <= nextPti <= SM.LAST_PTI && pti != nextPti
    {
      if nextPti < 1 || nextPti > SM.LAST_PTI {
        nextPti := 1;
      }
      pti := nextPti;
      nextPti := nextPti % SM.LAST_PTI + 1;
    }

    method EnterInactive(why: SM.Cause, clearConnect: bool, clearDisconnect: bool)
      modifies this
      ensures Abs() == SM.EnterInactive(old(Abs()), why, clearConnect, clearDisconnect)
    {
      state, procedure, step := SM.Inactive, SM.Idle, SM.NoStep;
      cause := why;
      if clearConnect {
        connect := false;
      }
      if clearDisconnect {
        disconnect := false;
      }
      deadline := 0;
      pti := 0;
    }

    method Transmit()
      modifies this
      ensures Abs() == SM.Transmit(old(Abs()))
    {
      var psi := if session != 0 then session else 1;
      var id := if pti != 0 then pti else 1;
      requests := requests + [SM.Request(attempt, psi, id)];
    }

    method BeginEstablish()
      modifies this
      ensures Abs() == SM.BeginEstablish(old(Abs()))
    {
      hide SM.AllocPti;
      AllocPti();
      attempt := attempt + 1;
      state, procedure, step := SM.Establishing, SM.EstablishPdu, SM.WaitEstablishResponse;
      deadline, retx := 0, 0;
      Transmit();
    }

    method StartEstablish()
      modifies this
      ensures Abs() == SM.StartEstablish(old(Abs()), net)
      decreases SM.RetriesLeft(Abs()), 1
    {
      hide SM.HandleReject, SM.AllocPti, SM.BuildRequest;
      var answer := net.establish(|requests|);
      BeginEstablish();
      match answer {
        case Submitted(psi) =>
          session := psi;
          pti := 0;
        case Refused(why) =>
          HandleReject(why);
      }
    }

    method HandleReject(why: SM.RejectCause)
      modifies this
      ensures Abs() == SM.HandleReject(old(Abs()), why, net)
      decreases SM.RetriesLeft(Abs()), 0
    {
      hide SM.StartEstablish;
      rejected := SM.RejectClassOf(why);
      pti := 0;
      if procedure != SM.EstablishPdu || step != SM.WaitEstablishResponse {
        EnterInactive(SM.EstablishRejected, true, true);
        retry := 0;
        return;
      }
      EnterInactive(SM.EstablishRejected, false, true);
      if why == SM.SemanticError {
        connect := false;
        retry := 0;
        return;
      }
      if rejected == SM.Temporary && retry < max {
        retry := retry + 1;
        connect := true;
        disconnect := false;
        StartEstablish();
      } else {
        connect := false;
        retry := 0;
      }
    }

    method StartRelease()
      modifies this
      ensures Abs() == SM.StartRelease(old(Abs()), net)
    {
      var refused := net.release(releases);
      AllocPti();
      state, procedure, step := SM.Releasing, SM.ReleasePdu, SM.WaitReleaseComplete;
      deadline := 0;
      releases := releases + 1;
      if refused.Some? {
        rejected := SM.RejectClassOf(refused.value);
        EnterInactive(SM.ReleaseComplete, true, true);
        retry := 0;
      }
    }

    method Abandon(why: SM.Cause)
      modifies this
      ensures Abs() == SM.Abandon(old(Abs()), why)
    {
      EnterInactive(why, true, true);
      rejected := SM.Temporary;
      retry := 0;
    }

    /** Without the radio there is no session, no request for one and no way to transmit one. */
    method OnRadio(on: bool)
      requires Valid()
      modifies this
      ensures Valid() && Abs() == SM.OnRadio(old(Abs()), on)
      ensures SmKept(old(Abs()), Abs(), old(SP.Budget(Abs())))
      ensures !on ==> state == SM.Inactive && !connect && !disconnect && SP.Budget(Abs()) == 0
    {
      SmStepKept(Abs(), SM.RadioEv(on), net);
      if !on {
        Abandon(SM.RadioOff);
      }
    }

    /** Pays for a full round of attempts and transmits nothing itself. */
    method RequestConnect()
      requires Valid()
      modifies this
      ensures Valid() && Abs() == SM.RequestConnect(old(Abs())) && requests == old(requests)
      ensures SmKept(old(Abs()), Abs(), old(SP.Budget(Abs())) + SP.Allowance(max))
    {
      SmStepKept(Abs(), SM.ConnectEv, net);
      connect, disconnect := true, false;
      cause, rejected := SM.ConnectRequested, SM.Temporary;
      retry := 0;
    }

    /** Takes back a connect request not yet acted on. */
    method RequestDisconnect()
      requires Valid()
      modifies this
      ensures Valid() && Abs() == SM.RequestDisconnect(old(Abs())) && requests == old(requests)
      ensures SmKept(old(Abs()), Abs(), old(SP.Budget(Abs())))
      ensures state == SM.Inactive ==> SP.Budget(Abs()) == 0
    {
      SmStepKept(Abs(), SM.DisconnectEv, net);
      connect, disconnect := false, true;
      cause, rejected := SM.DisconnectRequested, SM.Temporary;
    }

    method ClearRuntime()
      requires Valid()
      modifies this
      ensures Valid() && Abs() == SM.ClearRuntime(old(Abs()))
    {
      session, attempt, pti, nextPti := 0, 0, 0, 0;
      deadline, retx := 0, 0;
      connect, disconnect := false, false;
    }

    /** Transmits at most once, only while establishing and only when the armed deadline has come. */
    method TickT3580(now: nat)
      modifies this
      ensures Abs() == SM.TickT3580(old(Abs()), now)
      ensures |old(requests)| <= |requests| <= |old(requests)| + 1
      ensures requests != old(requests) ==>
                old(state) == SM.Establishing && 0 < old(deadline) <= now && deadline == now + SM.T3580_MS
    {
      if state == SM.Establishing && step == SM.WaitEstablishResponse {
        if deadline == 0 {
          deadline := now + SM.T3580_MS;
        } else if now >= deadline {
          if retx < SM.T3580_MAX_RETX {
            retx := retx + 1;
            deadline := now + SM.T3580_MS;
            Transmit();
          } else {
            EnterInactive(SM.EstablishRejected, true, true);
            retx := 0;
          }
        }
      }
    }

    method TickRelease(now: nat)
      modifies this
      ensures Abs() == SM.TickRelease(old(Abs()), now)
    {
      if state == SM.Releasing && step == SM.WaitReleaseComplete {
        if deadline == 0 {
          deadline := now + SM.RELEASE_WAIT_MS;
        } else if now >= deadline {
          EnterInactive(SM.ReleaseComplete, true, true);
        }
      }
    }

    method TickRequests()
      modifies this
      ensures Abs() == SM.TickConnect(SM.TickDisconnect(old(Abs()), net), net)
    {
      hide SM.StartEstablish, SM.StartRelease;
      if disconnect {
        if state == SM.Active {
          StartRelease();
        } else {
          EnterInactive(SM.DisconnectRequested, false, true);
        }
      }
      if connect && state == SM.Inactive {
        connect := false;
        StartEstablish();
      }
    }

    /** Time never makes a session active and transmits only what was paid for. */
    method Tick(now: nat, registered: bool)
      requires Valid()
      modifies this
      ensures Valid() && Abs() == SM.Tick(old(Abs()), now, registered, net)
      ensures SmKept(old(Abs()), Abs(), old(SP.Budget(Abs())))
      ensures !registered ==> state == SM.Inactive && !connect && requests == old(requests)
    {
      hide SM.TickConnect, SM.TickDisconnect, SM.TickT3580, SM.TickRelease, SP.Follows, SP.Coherent, SP.Budget;
      SmStepKept(Abs(), SM.TickEv(now, registered), net);
      if !registered {
        Abandon(SM.MmNotRegistered);
        return;
      }
      TickRequests();
      TickT3580(now);
      TickRelease(now);
    }

    /** Active afterwards exactly if active or establishing before. */
    method OnEstablished()
      requires Valid()
      modifies this
      ensures Valid() && Abs() == SM.OnEstablished(old(Abs())) && requests == old(requests)
      ensures state == SM.Active <==> old(state) == SM.Establishing || old(state) == SM.Active
      ensures SP.Budget(Abs()) <= old(SP.Budget(Abs()))
    {
      if state == SM.Establishing {
        state, procedure, step := SM.Active, SM.Idle, SM.NoStep;
        cause, rejected := SM.EstablishAccepted, SM.Temporary;
        session, connect, retry, deadline := 0, false, 0, 0;
      }
    }

    /** Whatever the retries of a refused attempt are answered, they stay within what was paid for. */
    method OnReject(why: SM.RejectCause)
      requires Valid()
      modifies this
      ensures Valid() && Abs() == SM.OnReject(old(Abs()), why, net)
      ensures SmKept(old(Abs()), Abs(), old(SP.Budget(Abs())))
      ensures SM.RejectClassOf(why) == SM.Permanent && old(state) == SM.Establishing ==>
                state == SM.Inactive && !connect && requests == old(requests)
    {
      hide SP.Follows, SP.Budget;
      SmStepKept(Abs(), SM.RejectEv(why), net);
      if state == SM.Establishing && step == SM.WaitEstablishResponse {
        HandleReject(why);
      }
    }

    /** Ends a session that exists or is being released, and nothing else. */
    method OnReleased()
      requires Valid()
      modifies this
      ensures Valid() && Abs() == SM.OnReleased(old(Abs()))
      ensures SmKept(old(Abs()), Abs(), old(SP.Budget(Abs())))
      ensures state != SM.Active && state != SM.Releasing
      ensures old(state) == SM.Establishing || old(state) == SM.Inactive ==> Abs() == old(Abs())
    {
      SmStepKept(Abs(), SM.ReleasedEv, net);
      if state == SM.Releasing || state == SM.Active {
        Abandon(SM.ReleaseComplete);
      }
    }
  }

  lemma InvMachines(e: Engine)
    requires Inv(e)
    ensures MP.Coherent(e.mm) && SP.Coherent(e.sm)
  {
  }

  class EngineContext {
    const mm: MmContext
    const sm: SmContext
    var radio: bool
    var rrc: Rrc
    var ims: Ims
    /** Counts of requests made, for the statements about runs. */
    ghost var log: Log

    ghost function Abs(): Engine
      reads this, mm, sm
    {
      Engine(radio, mm.Abs(), sm.Abs(), rrc, ims, log)
    }

    /** Both machines within their budgets, everything off with the radio, the IMS session in order. */
    ghost predicate Valid()
      reads this, mm, sm
    {
      Inv(Abs())
    }

    constructor (sim: bool, net: SM.Adapter)
      ensures Valid() && Abs() == Init(sim) && sm.net == net && fresh(mm) && fresh(sm)
    {
      radio := true;
      mm := new MmContext(true, sim);
      sm := new SmContext(net);
      rrc := RRC_RESET;
      ims := Ims(false, false, false, 0, 0);
      log := Log(0, 0, 0);
    }

    method ForgetNetworkContext()
      requires sm.Valid()
      modifies this, sm
      ensures sm.Valid() && Abs() == Forget(old(Abs()))
    {
      rrc := RRC_RESET;
      sm.ClearRuntime();
      ims := ims.(requested := false, establishing := false, active := false);
    }

    method RequestMm(pending: MM.Pending)
      requires mm.Valid()
      modifies this, mm
      ensures mm.Valid() && Abs() == RequestRegistration(old(Abs()), pending)
    {
      hide MM.Request;
      mm.Request(pending);
      log := log.(requests := log.requests + 1);
    }

    method Register(pending: MM.Pending)
      requires Valid()
      modifies this, mm
      ensures Valid() && Abs() == RequestRegistration(old(Abs()), pending)
      ensures radio && (old(mm.state) == MM.Deregistered || old(mm.state) == MM.RegisteredHome) ==>
                mm.state == MM.Searching && mm.requested
    {
      RegisterKeeps(Abs(), pending);
      InvMachines(Abs());
      hide Inv, MP.Coherent;
      RequestMm(pending);
    }

    /** A lost link under a registration or a session leaves neither, and counts as one recovery. */
    method Recover(lost: bool)
      requires Valid() && radio
      modifies this, mm, sm
      ensures Valid() && radio && Abs() == RecoverFromLoss(old(Abs()), lost)
      ensures lost && old(Attached(Abs())) ==>
                Detached(Abs()) && !rrc.waiting && log.recoveries == old(log.recoveries) + 1
      ensures !(lost && old(Attached(Abs()))) ==> Abs() == old(Abs())
    {
      hide Inv, MP.Coherent, SP.Coherent, MM.Request, MM.OnRadio, SM.OnRadio, SM.ClearRuntime, SP.Follows, Detached;
      RecoverKeeps(Abs(), lost);
      InvMachines(Abs());
      if lost && (mm.state == MM.RegisteredHome || sm.state == SM.Active) {
        ForgetNetworkContext();
        sm.OnRadio(false);
        mm.OnRadio(false);
        mm.OnRadio(true);
        log := log.(recoveries := log.recoveries + 1);
        RequestMm(MM.Initial);
      }
    }

    method OnEstablishAccept(psi: nat, pti: nat)
      requires sm.Valid()
      modifies this, sm
      ensures Abs() == ProcessNas(old(Abs()), EstablishAccept(psi, pti), sm.net)
      ensures sm.state == SM.Active <==>
                old(sm.state) == SM.Active || (old(sm.state) == SM.Establishing && !old(ForIms(Abs(), psi, pti)))
    {
      hide SP.Coherent, SP.Budget, SM.OnEstablished;
      if ims.establishing && psi == ims.psi && pti == ims.pti {
        ims := ims.(establishing := false, active := true);
        return;
      }
      if sm.state != SM.Establishing {
        return;
      }
      SessionNamed(sm.Abs(), psi);
      sm.session := psi;
      sm.OnEstablished();
    }

    method OnEstablishReject(psi: nat, pti: nat, code: nat)
      requires sm.Valid()
      modifies this, sm
      ensures Abs() == ProcessNas(old(Abs()), EstablishReject(psi, pti, code), sm.net)
      ensures sm.state == SM.Active ==> old(sm.state) == SM.Active
    {
      hide SP.Coherent, SP.Budget, SP.Follows, SM.OnReject;
      if ims.establishing && psi == ims.psi && pti == ims.pti {
        ims := ims.(establishing := false, requested := false, active := false);
        return;
      }
      if sm.state != SM.Establishing {
        return;
      }
      sm.OnReject(SmCauseOf(code));
    }

    method OnReleaseCommand(psi: nat)
      requires sm.Valid()
      modifies this, sm
      ensures Abs() == ProcessNas(old(Abs()), ReleaseCommand(psi), sm.net)
      ensures sm.state == SM.Active ==> old(sm.state) == SM.Active
    {
      hide SP.Coherent, SP.Budget, SP.Follows, SM.OnReleased;
      if ims.active && psi == ims.psi {
        ims := ims.(active := false, requested := false, establishing := false);
        return;
      }
      sm.OnReleased();
    }

    /**
      Every NAS message keeps the budgets and leaves a session only under a registration.  The
      data session becomes active by an accept that finds it establishing and is not for IMS.
     */
    method ProcessNasEvent(nas: Nas)
      requires Settled(Abs())
      modifies this, mm, sm
      ensures Settled(Abs()) && Abs() == ProcessNas(old(Abs()), nas, sm.net)
      ensures sm.state == SM.Active && old(sm.state) != SM.Active ==>
                old(sm.state) == SM.Establishing && nas.EstablishAccept? && !old(ForIms(Abs(), nas.psi, nas.pti))
    {
      NasKeeps(Abs(), nas, sm.net);
      InvMachines(Abs());
      match nas {
        case RegistrationAccept =>
          hide Inv, MP.Coherent, SP.Coherent, SessionCoupling, MM.OnAccept;
          rrc := rrc.(waiting := false);
          mm.OnAccept();
        case RegistrationReject(code) =>
          hide Inv, MP.Coherent, SP.Coherent, SessionCoupling, MP.Follows, MM.OnReject;
          rrc := rrc.(waiting := false);
          mm.OnReject(MmCauseOf(code));
        case EstablishAccept(psi, pti) =>
          hide Inv, MP.Coherent, SP.Coherent, SessionCoupling, ProcessNas;
          OnEstablishAccept(psi, pti);
        case EstablishReject(psi, pti, code) =>
          hide Inv, MP.Coherent, SP.Coherent, SessionCoupling, ProcessNas;
          OnEstablishReject(psi, pti, code);
        case ReleaseCommand(psi) =>
          hide Inv, MP.Coherent, SP.Coherent, SessionCoupling, ProcessNas;
          OnReleaseCommand(psi);
        case OtherNas =>
      }
    }

    method HandlePdu(pdu: Pdu, now: nat)
      requires Settled(Abs())
      modifies this, mm, sm
      ensures Settled(Abs()) && Abs() == ProcessPdu(old(Abs()), pdu, now, sm.net)
    {
      hide ProcessNas, MmInv, SmInv;
      PduKeeps(Abs(), pdu, now, sm.net);
      if rrc.waiting {
        rrc := rrc.(pdus := rrc.pdus + 1);
      }
      match pdu {
        case RrcSetup =>
          rrc := rrc.(state := RrcConnected, completeMs := now, pdus := 0, waiting := true);
        case NasPdu(nas) =>
          ProcessNasEvent(nas);
        case Undecoded =>
      }
    }

    /** The receive loop: whatever arrives, a session exists only under a registration after every PDU. */
    method DrainQueue(pdus: seq<Pdu>, now: nat)
      requires Settled(Abs())
      modifies this, mm, sm
      ensures Settled(Abs()) && Abs() == Drain(old(Abs()), pdus, now, sm.net)
    {
      hide ProcessPdu, Settled;
      var i := 0;
      while i < |pdus|
        invariant 0 <= i <= |pdus| && Settled(Abs())
        invariant Drain(Abs(), pdus[i..], now, sm.net) == Drain(old(Abs()), pdus, now, sm.net)
      {
        assert pdus[i..][1..] == pdus[i + 1..];
        HandlePdu(pdus[i], now);
        i := i + 1;
      }
      assert pdus[i..] == [];
    }

    /** Ends a session whose registration is gone. */
    method AdvanceMachines(now: nat)
      requires Valid() && radio
      modifies this, mm, sm
      ensures Settled(Abs()) && Abs() == TickMachines(old(Abs()), now, sm.net)
    {
      hide SM.Tick, MM.Tick, Inv, MP.Coherent, SP.Coherent, SP.Follows, MP.Follows, SessionCoupling;
      MachinesKeep(Abs(), now, sm.net);
      InvMachines(Abs());
      if !rrc.waiting {
        mm.Tick(now);
      }
      sm.Tick(now, mm.state == MM.RegisteredHome);
    }

    /** Steps 4, 5 and 5b. */
    method AdvanceRegistration(i: Inputs)
      requires Settled(Abs())
      modifies this, mm, sm
      ensures Settled(Abs())
      ensures Abs() == InitiateSetup(SelectCell(AutoConnect(old(Abs())), i.upForCell), i.upForSetup, i.now)
    {
      hide MmInv, SmInv;
      AutoConnectKeeps(Abs());
      SelectCellKeeps(AutoConnect(Abs()), i.upForCell);
      if mm.state == MM.RegisteredHome && sm.state == SM.Inactive && !sm.connect && !sm.disconnect {
        sm.connect := true;
        log := log.(settings := log.settings + 1);
      }
      if mm.state == MM.Searching && i.upForCell && !rrc.waiting {
        mm.ToRegistering();
      }
      if rrc.state == RrcIdle && i.upForSetup && mm.requested {
        rrc := rrc.(state := SetupRequested, requestMs := i.now);
      }
    }

    /** Steps 5b-bis, 5c, 5e and 5d: no RRC connection or setup survives without a link. */
    method AdvanceRrc(i: Inputs)
      requires Settled(Abs())
      modifies this
      ensures Settled(Abs()) && (rrc.state != RrcIdle ==> i.upAtEnd)
      ensures Abs() == DropRrc(CoreTimeout(SetupTimeout(SendUpdate(old(Abs()), i.encodes, i.now), i.now),
                i.now), i.upAtEnd)
    {
      hide MmInv, SmInv;
      if mm.state == MM.Registering && mm.requested && rrc.state == RrcConnected
         && mm.pending != MM.Initial && !rrc.waiting && i.encodes {
        rrc := rrc.(waiting := true, completeMs := i.now, pdus := 0);
      }
      if rrc.state == SetupRequested && Elapsed(i.now, rrc.requestMs, SETUP_TIMEOUT_MS) {
        rrc := rrc.(state := RrcIdle);
      }
      if rrc.waiting && rrc.state == RrcConnected && mm.state == MM.Registering
         && Elapsed(i.now, rrc.completeMs, CORE_TIMEOUT_MS) {
        rrc := rrc.(waiting := false, state := RrcIdle);
      }
      if !i.upAtEnd && rrc.state != RrcIdle {
        rrc := rrc.(state := RrcIdle);
      }
    }

    /**
      One engine tick.  Afterwards a session exists only under a registration, an RRC
      connection only over a link that was up at the end, and nothing with the radio off.
     */
    method RealTick(i: Inputs)
      requires Valid()
      modifies this, mm, sm
      ensures Valid() && Abs() == Tick(old(Abs()), i, sm.net)
      ensures SessionCoupling(Abs()) && RadioCoupling(Abs()) && (rrc.state != RrcIdle ==> i.upAtEnd)
    {
      TickCouples(Abs(), i, sm.net);
      hide RecoverFromLoss, TickMachines, Drain, AutoConnect, SelectCell, InitiateSetup, SendUpdate, SetupTimeout,
        CoreTimeout, DropRrc, MmInv, SmInv;
      if !radio {
        rrc := RRC_RESET;
        return;
      }
      Recover(i.lost);
      AdvanceMachines(i.now);
      DrainQueue(i.pdus, i.now);
      AdvanceRegistration(i);
      AdvanceRrc(i);
    }

    /** Radio off ends everything; radio on from off starts one fresh registration, given a SIM. */
    method SwitchRadio(on: bool)
      requires Valid()
      modifies this, mm, sm
      ensures Valid() && Abs() == SetRadio(old(Abs()), on) && radio == on
      ensures !on ==> mm.state == MM.PoweredOff && sm.state == SM.Inactive && rrc.state == RrcIdle && !ims.active
      ensures on && old(mm.state) != MM.SimNotReady ==>
                mm.state == MM.Searching && log.requests == old(log.requests) + 1
    {
      SetRadioKeeps(Abs(), on);
      InvMachines(Abs());
      hide Inv, MP.Coherent, SP.Coherent, SM.OnRadio, SM.ClearRuntime, SP.Follows;
      var wasOn := radio;
      radio := on;
      if !(on && wasOn) {
        ForgetNetworkContext();
      }
      mm.OnRadio(on);
      sm.OnRadio(on);
      if on && mm.state == MM.Deregistered {
        RequestMm(MM.Initial);
      }
    }

    method Connect()
      requires Valid()
      modifies this, sm
      ensures Valid() && Abs() == Step(old(Abs()), ConnectEv, sm.net)
      ensures sm.requests == old(sm.requests) && sm.connect && !sm.disconnect
    {
      StepKeeps(Abs(), ConnectEv, sm.net);
      InvMachines(Abs());
      hide Inv, SP.Follows, SP.Coherent;
      sm.RequestConnect();
      log := log.(settings := log.settings + 1);
    }

    method Disconnect()
      requires Valid()
      modifies this, sm
      ensures Valid() && Abs() == Step(old(Abs()), DisconnectEv, sm.net)
      ensures sm.requests == old(sm.requests) && !sm.connect && sm.disconnect
    {
      StepKeeps(Abs(), DisconnectEv, sm.net);
      InvMachines(Abs());
      hide Inv, SP.Follows, SP.Coherent;
      sm.RequestDisconnect();
    }

    /**
      The IMS session is asked for only while registered and connected, one at a time.  Every
      try takes a fresh PTI in 2..254, also one that is not sent, which leaves no session coming up.
     */
    method RequestImsPdu(secured: bool, free: Option<nat>, sent: bool)
      requires Valid()
      modifies this
      ensures Valid() && Abs() == RequestIms(old(Abs()), secured, free, sent)
      ensures ims != old(ims) ==>
                && radio && mm.state == MM.RegisteredHome && rrc.state == RrcConnected && secured
                && !old(ims.active) && !old(ims.establishing)
                && free == Some(ims.psi) && 2 <= ims.pti <= 254 && ims.pti != old(ims.pti)
                && ims.requested == ims.establishing == sent && !ims.active
    {
      StepKeeps(Abs(), ImsEv(secured, free, sent), sm.net);
      hide MmInv, SmInv;
      if !radio || mm.state != MM.RegisteredHome || !secured || rrc.state != RrcConnected {
        return;
      }
      if ims.active || ims.establishing {
        return;
      }
      if free.None? {
        return;
      }
      ims := ims.(psi := free.value);
      ims := ims.(pti := NextImsPti(ims.pti));
      if !sent {
        return;
      }
      ims := ims.(requested := true, establishing := true);
    }
  }

  lemma SessionNamed(s: SM.Session, psi: nat)
    requires SP.Coherent(s)
    ensures SP.Coherent(s.(ids := s.ids.(session := psi)))
  {
  }
}
