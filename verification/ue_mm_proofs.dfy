/** What every run of the mobility management machine keeps. */
module MobilityManagementProofs {
  import opened MobilityManagement

  predicate InProgress(m: Mobility) { m.phase == SEARCHING || m.phase == REGISTERING }

  /** State, procedure and step agree, a procedure in progress has its request, retries stay within the limit. */
  predicate Coherent(m: Mobility) {
    && (InProgress(m) || m.phase == Quiet(m.phase.state))
    && (m.phase.state == Searching || m.phase.state == Registering ==> InProgress(m))
    && (InProgress(m) ==> m.requested)
    && m.retry <= m.max
  }

  /** Attempt identifiers that can still be consumed without a new request. */
  function Budget(m: Mobility): nat
    requires Coherent(m)
  {
    if InProgress(m) then m.max - m.retry else 0
  }

  function Requests(e: Event): nat { if e.RequestEv? then 1 else 0 }

  function RequestsIn(es: seq<Event>): nat {
    if es == [] then 0 else Requests(es[0]) + RequestsIn(es[1..])
  }

  predicate Follows(m: Mobility, t: Mobility, credit: nat) {
    Coherent(t) && t.max == m.max && m.attempts <= t.attempts && t.attempts + Budget(t) <= m.attempts + credit
  }

  lemma StepFollows(m: Mobility, e: Event)
    requires Coherent(m)
    ensures Follows(m, Step(m, e), Budget(m) + Requests(e) * (1 + m.max))
  {
    match e
    case RequestEv(pending) =>
    case CellFoundEv(answer) =>
    case CellSelectedEv =>
    case AcceptEv =>
    case RejectEv(cause) =>
    case TickEv(now) =>
    case RadioEv(on) =>
    case SimEv(ready) =>
  }

  /**
    Registration attempts.  In every run each registration request pays for at most
    1 + max_retries attempt identifiers, the retry counter never passes its limit and the
    machine stays in coherent phases.
   */
  lemma {:induction false} RegistrationBudget(m: Mobility, es: seq<Event>)
    requires Coherent(m)
    ensures Follows(m, Run(m, es), Budget(m) + RequestsIn(es) * (1 + m.max))
    decreases |es|
  {
    hide Step, Requests;
    if es != [] {
      StepFollows(m, es[0]);
      RegistrationBudget(Step(m, es[0]), es[1..]);
      assert RequestsIn(es) * (1 + m.max) == Requests(es[0]) * (1 + m.max) + RequestsIn(es[1..]) * (1 + m.max);
    }
  }

  lemma BudgetFromInit(radio: bool, sim: bool, es: seq<Event>)
    ensures Run(Init(radio, sim), es).attempts <= 3 * RequestsIn(es)
  {
    RegistrationBudget(Init(radio, sim), es);
  }

  /** Whether some event of the run is an accept that finds the machine registering. */
  predicate Accepted(m: Mobility, es: seq<Event>)
    decreases |es|
  {
    es != [] && ((es[0].AcceptEv? && m.phase == REGISTERING) || Accepted(Step(m, es[0]), es[1..]))
  }

  lemma EnteredByAccept(m: Mobility, e: Event)
    requires Coherent(m) && m.phase.state != RegisteredHome && Step(m, e).phase.state == RegisteredHome
    ensures e.AcceptEv? && m.phase == REGISTERING
  {
  }

  /** REGISTERED_HOME is reached only through an accept received while registering. */
  lemma {:induction false} RegisteredOnlyByAccept(m: Mobility, es: seq<Event>)
    requires Coherent(m) && m.phase.state != RegisteredHome && Run(m, es).phase.state == RegisteredHome
    ensures Accepted(m, es)
    decreases |es|
  {
    hide Step;
    var t := Step(m, es[0]);
    StepFollows(m, es[0]);
    if t.phase.state == RegisteredHome {
      EnteredByAccept(m, es[0]);
    } else {
      RegisteredOnlyByAccept(t, es[1..]);
    }
  }

  // ------------------------------------------------------------- giving up

  function Ticks(times: seq<nat>): seq<Event> {
    if times == [] then [] else [TickEv(times[0])] + Ticks(times[1..])
  }

  /** Consecutive ticks are at least one timeout apart. */
  predicate Spaced(times: seq<nat>) {
    |times| > 1 ==> times[0] + TIMEOUT_MS <= times[1] && Spaced(times[1..])
  }

  lemma RunTicks(m: Mobility, times: seq<nat>)
    ensures Run(m, Ticks(times)) == if times == [] then m else Run(Tick(m, times[0]), Ticks(times[1..]))
  {
    if times != [] {
      assert Ticks(times)[1..] == Ticks(times[1..]);
    }
  }

  lemma {:induction false} StaysDeregistered(m: Mobility, times: seq<nat>)
    requires m.phase == Quiet(Deregistered) && !m.requested
    ensures Run(m, Ticks(times)).phase == Quiet(Deregistered)
    decreases |times|
  {
    hide Run, Ticks;
    RunTicks(m, times);
    if times != [] {
      StaysDeregistered(Tick(m, times[0]), times[1..]);
    }
  }

  lemma {:induction false} GivesUpFrom(m: Mobility, times: seq<nat>)
    requires Coherent(m) && InProgress(m) && Spaced(times)
    requires |times| >= 1 + m.max - m.retry && 0 < m.deadline <= times[0]
    ensures Run(m, Ticks(times)).phase == Quiet(Deregistered)
    decreases m.max - m.retry
  {
    hide Run, Ticks;
    RunTicks(m, times);
    var t := Tick(m, times[0]);
    if m.retry < m.max {
      assert t == Retry(m, times[0] + TIMEOUT_MS);
      GivesUpFrom(t, times[1..]);
    } else {
      StaysDeregistered(t, times[1..]);
    }
  }

  /**
    A registration nobody answers ends: 2 + max - retry ticks a timeout apart bring the
    machine back to DEREGISTERED, whether it was searching or waiting for the response.
   */
  lemma SilenceGivesUp(m: Mobility, times: seq<nat>)
    requires Coherent(m) && InProgress(m) && Spaced(times)
    requires |times| >= 2 + m.max - m.retry && m.deadline <= times[0] + TIMEOUT_MS
    ensures Run(m, Ticks(times)).phase == Quiet(Deregistered)
  {
    hide Run, Ticks;
    if 0 < m.deadline <= times[0] {
      GivesUpFrom(m, times);
    } else {
      RunTicks(m, times);
      var t := Tick(m, times[0]);
      assert t.phase == m.phase && 0 < t.deadline <= times[1];
      GivesUpFrom(t, times[1..]);
    }
  }
}
