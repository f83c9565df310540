/** The SIP REGISTER timers of `src/ims_service/ims_service.c`. */
module ImsRegister {
  import opened Options

  datatype Service = Service(
    enabled: bool,
    pduActive: bool,
    hasPcscf: bool,
    registered: bool,
    sent: bool,
    sentMs: nat,
    attempts: nat,
    refreshMs: nat,
    initials: nat,
    refreshes: nat)

  const RETRY_MS := 4000
  const MAX_ATTEMPTS := 5
  const EXPIRES_S := 600
  const MARGIN_S := 60

  /** `initials` and `refreshes` count the REGISTER requests handed to the transport. */
  function Init(enabled: bool): Service {
    Service(enabled, false, false, false, false, 0, 0, 0, 0, 0)
  }

  predicate Reachable(s: Service) { s.enabled && s.pduActive && s.hasPcscf }

  predicate RegisterNeeded(s: Service) { Reachable(s) && !s.registered && !s.sent }

  predicate RefreshNeeded(s: Service, now: nat) {
    Reachable(s) && s.registered && s.refreshMs > 0 && now >= s.refreshMs
  }

  predicate RetryNeeded(s: Service, now: nat) {
    Reachable(s) && !s.registered && s.sent && s.sentMs > 0 && s.attempts < MAX_ATTEMPTS && now >= s.sentMs + RETRY_MS
  }

  /** The earlier of a deadline, if there is one, and a time. */
  function Earlier(d: Option<nat>, t: nat): nat { if d.None? || t < d.value then t else d.value }

  /** The time the worker sleeps until, or none to sleep until it is signalled. */
  function Deadline(s: Service): Option<nat> {
    var refresh := if Reachable(s) && s.registered && s.refreshMs > 0 then Some(s.refreshMs) else None;
    if Reachable(s) && !s.registered && s.sent && s.sentMs > 0 && s.attempts < MAX_ATTEMPTS
    then Some(Earlier(refresh, s.sentMs + RETRY_MS))
    else refresh
  }

  /** The timer agrees with the predicates it wakes for, in every state and at every time. */
  lemma TimerAgrees(s: Service, now: nat)
    ensures RefreshNeeded(s, now) || RetryNeeded(s, now) <==> Deadline(s).Some? && now >= Deadline(s).value
  {
  }

  /** One pass of the worker: at most one initial REGISTER and at most one refresh. */
  function Work(s: Service, now: nat): Service {
    var rearmed := if RetryNeeded(s, now) then s.(sent := false) else s;
    var refreshed :=
      if RefreshNeeded(rearmed, now) then rearmed.(refreshMs := 0, refreshes := rearmed.refreshes + 1) else rearmed;
    if RegisterNeeded(rearmed)
    then refreshed.(sent := true, sentMs := now, attempts := refreshed.attempts + 1, initials := refreshed.initials + 1)
    else refreshed
  }

  /** 200 OK; `expires` is the header's value or the default. */
  function OnOk(s: Service, now: nat, expires: nat): Service {
    var e := if expires <= MARGIN_S then EXPIRES_S else expires;
    s.(registered := true, sent := false, sentMs := 0, attempts := 0, refreshMs := now + (e - MARGIN_S) * 1000)
  }

  /** 401; `answered` is whether the authorized REGISTER went out. */
  function OnChallenge(s: Service, now: nat, answered: bool): Service {
    if answered then s.(sent := true, sentMs := now) else s
  }

  function SetPdu(s: Service, active: bool, pcscf: bool): Service {
    var t := if s.pduActive != active || !active then s.(sent := false, sentMs := 0, attempts := 0) else s;
    var u := if !active then t.(registered := false, refreshMs := 0) else t;
    u.(pduActive := active, hasPcscf := active && pcscf)
  }

  datatype Event =
    | WorkEv(now: nat)
    | OkEv(now: nat, expires: nat)
    | ChallengeEv(now: nat, answered: bool)
    | PduEv(active: bool, pcscf: bool)

  function Step(s: Service, e: Event): Service {
    match e
    case WorkEv(now) => Work(s, now)
    case OkEv(now, expires) => OnOk(s, now, expires)
    case ChallengeEv(now, answered) => OnChallenge(s, now, answered)
    case PduEv(active, pcscf) => SetPdu(s, active, pcscf)
  }

  function Run(s: Service, es: seq<Event>): Service
    decreases |es|
  {
    if es == [] then s else Run(Step(s, es[0]), es[1..])
  }

  /** Attempts stay within the limit, and nothing outstanding means none was counted. */
  predicate Inv(s: Service) {
    s.attempts <= MAX_ATTEMPTS && (!s.sent && !s.registered ==> s.attempts == 0)
  }

  lemma StepKeeps(s: Service, e: Event)
    requires Inv(s)
    ensures Inv(Step(s, e))
  {
  }

  lemma {:induction false} RunKeeps(s: Service, es: seq<Event>)
    requires Inv(s)
    ensures Inv(Run(s, es))
    decreases |es|
  {
    hide Step, Inv;
    if es != [] {
      StepKeeps(s, es[0]);
      RunKeeps(Step(s, es[0]), es[1..]);
    }
  }

  /** No 200 OK, and the PDU session stays as it is. */
  predicate Unanswered(es: seq<Event>) {
    es == [] || (!es[0].OkEv? && (es[0].PduEv? ==> es[0].active) && Unanswered(es[1..]))
  }

  /** Until a 200 OK arrives or the PDU session changes, at most five initial REGISTERs are sent. */
  lemma {:induction false} FiveInitials(s: Service, es: seq<Event>)
    requires Inv(s) && s.pduActive && Unanswered(es)
    ensures Run(s, es).initials - s.initials == Run(s, es).attempts - s.attempts <= MAX_ATTEMPTS
    decreases |es|
  {
    hide Inv, Step;
    if es == [] {
      InvBound(s);
    } else {
      var t := Step(s, es[0]);
      StepKeeps(s, es[0]);
      StepCounts(s, es[0]);
      FiveInitials(t, es[1..]);
      RunKeeps(t, es[1..]);
      InvBound(Run(t, es[1..]));
    }
  }

  lemma InvBound(s: Service)
    requires Inv(s)
    ensures s.attempts <= MAX_ATTEMPTS
  {
  }

  lemma StepCounts(s: Service, e: Event)
    requires s.pduActive && !e.OkEv? && (e.PduEv? ==> e.active)
    ensures Step(s, e).pduActive
    ensures Step(s, e).initials - s.initials == Step(s, e).attempts - s.attempts
  {
  }

  function OksIn(es: seq<Event>): nat { if es == [] then 0 else (if es[0].OkEv? then 1 else 0) + OksIn(es[1..]) }

  /** An armed refresh timer is a refresh still to come. */
  function Armed(s: Service): nat { if s.refreshMs > 0 then 1 else 0 }

  lemma StepRefreshes(s: Service, e: Event)
    ensures Step(s, e).refreshes + Armed(Step(s, e)) <= s.refreshes + Armed(s) + (if e.OkEv? then 1 else 0)
  {
  }

  /** Every 200 OK pays for at most one refresh: a refresh that is never answered is not repeated. */
  lemma {:induction false} OneRefreshPerOk(s: Service, es: seq<Event>)
    ensures Run(s, es).refreshes + Armed(Run(s, es)) <= s.refreshes + Armed(s) + OksIn(es)
    decreases |es|
  {
    hide Step, Armed;
    if es != [] {
      StepRefreshes(s, es[0]);
      OneRefreshPerOk(Step(s, es[0]), es[1..]);
    }
  }

  /** A 200 OK arms a refresh that lies ahead, however short the expiry it names. */
  lemma RefreshLiesAhead(s: Service, now: nat, expires: nat)
    requires Reachable(s)
    ensures Deadline(OnOk(s, now, expires)).Some? && now + 1000 <= Deadline(OnOk(s, now, expires)).value
    ensures !RefreshNeeded(OnOk(s, now, expires), now)
  {
  }

  // ---------------------------------------------------------- falling asleep

  /** Nothing is left to wake for: the refresh is out, or the attempts are, or the REGISTER bears time 0. */
  predicate Dormant(s: Service) {
    if s.registered then s.refreshMs == 0 else s.sent && (s.sentMs == 0 || s.attempts >= MAX_ATTEMPTS)
  }

  /** A reachable service has a REGISTER due or a deadline exactly when it is not dormant. */
  lemma DeadlineIff(s: Service)
    requires Reachable(s)
    ensures RegisterNeeded(s) || Deadline(s).Some? <==> !Dormant(s)
  {
  }

  predicate Asleep(s: Service) { Reachable(s) && Dormant(s) }

  /** The worker alone never wakes a service that has fallen asleep. */
  lemma {:induction false} SleepsForever(s: Service, es: seq<Event>)
    requires Asleep(s) && forall e :: e in es ==> e.WorkEv?
    ensures Run(s, es) == s
    decreases |es|
  {
    if es != [] {
      assert es[0] in es && Work(s, es[0].now) == s;
      SleepsForever(s, es[1..]);
    }
  }

  /**
    What puts a waking service to sleep: sending the refresh; sending the last attempt, or one
    at time 0; answering a challenge then; or a P-CSCF for a service that was dormant without it.
   */
  predicate Drops(s: Service, e: Event) {
    match e
    case WorkEv(now) =>
      || RefreshNeeded(s, now)
      || ((RegisterNeeded(s) || RetryNeeded(s, now)) && (now == 0 || s.attempts + 1 >= MAX_ATTEMPTS))
    case OkEv(now, expires) => false
    case ChallengeEv(now, answered) =>
      answered && Reachable(s) && !s.registered && (now == 0 || s.attempts >= MAX_ATTEMPTS)
    case PduEv(active, pcscf) =>
      && s.enabled && active && pcscf
      && (if s.pduActive then !s.hasPcscf && Dormant(s) else s.registered && s.refreshMs == 0)
  }

  lemma StepAsleepIff(s: Service, e: Event)
    requires !Asleep(s)
    ensures Asleep(Step(s, e)) <==> Drops(s, e)
  {
  }

  predicate AlwaysAwake(s: Service, es: seq<Event>)
    decreases |es|
  {
    !Asleep(s) && (es == [] || AlwaysAwake(Step(s, es[0]), es[1..]))
  }

  predicate NeverDrops(s: Service, es: seq<Event>)
    decreases |es|
  {
    es == [] || (!Drops(s, es[0]) && NeverDrops(Step(s, es[0]), es[1..]))
  }

  /**
    Throughout a run a reachable service has something due or a deadline if and only if no
    event of the run puts it to sleep.
   */
  lemma {:induction false} AwakeIff(s: Service, es: seq<Event>)
    requires !Asleep(s)
    ensures AlwaysAwake(s, es) <==> NeverDrops(s, es)
    decreases |es|
  {
    hide Step, Asleep, Drops;
    if es != [] {
      StepAsleepIff(s, es[0]);
      if !Asleep(Step(s, es[0])) {
        AwakeIff(Step(s, es[0]), es[1..]);
      }
    }
  }

  /** From start-up: a registration whose one refresh is lost is never registered or refreshed again by itself. */
  lemma LostRefreshSleeps(es: seq<Event>)
    requires forall e :: e in es ==> e.WorkEv?
    ensures var s := Run(Init(true), [PduEv(true, true), WorkEv(1), OkEv(2, 600), WorkEv(540002)]);
            Asleep(s) && s.registered && s.refreshes == 1 && Run(s, es) == s
  {
    var a, b, c, d := PduEv(true, true), WorkEv(1), OkEv(2, 600), WorkEv(540002);
    RunFour(Init(true), a, b, c, d);
    var s := Step(Step(Step(Step(Init(true), a), b), c), d);
    assert s.registered && s.refreshMs == 0 && s.refreshes == 1 && Reachable(s);
    SleepsForever(s, es);
  }

  lemma RunFour(s: Service, a: Event, b: Event, c: Event, d: Event)
    ensures Run(s, [a, b, c, d]) == Step(Step(Step(Step(s, a), b), c), d)
  {
    hide Step;
    assert [a, b, c, d][1..] == [b, c, d] && [b, c, d][1..] == [c, d] && [c, d][1..] == [d] && [d][1..] == [];
    assert Run(Step(s, a), [b, c, d]) == Run(Step(Step(s, a), b), [c, d]);
    assert Run(Step(Step(s, a), b), [c, d]) == Run(Step(Step(Step(s, a), b), c), [d]);
  }

  /** A pass leaves nothing due at its own time, so the worker never wakes at once for what it has just done. */
  lemma PassSettles(s: Service, now: nat)
    ensures var t := Work(s, now);
            && !RegisterNeeded(t) && !RefreshNeeded(t, now) && !RetryNeeded(t, now)
            && (Deadline(t).Some? ==> now < Deadline(t).value)
  {
    TimerAgrees(Work(s, now), now);
  }

  class Worker {
    const enabled: bool
    var pduActive: bool
    var hasPcscf: bool
    var registered: bool
    var sent: bool
    var sentMs: nat
    var attempts: nat
    var refreshMs: nat
    var initials: nat
    var refreshes: nat

    ghost function Abs(): Service
      reads this
    {
      Service(enabled, pduActive, hasPcscf, registered, sent, sentMs, attempts, refreshMs, initials, refreshes)
    }

    ghost predicate Valid()
      reads this
    {
      Inv(Abs())
    }

    constructor (enabled: bool)
      ensures Valid() && Abs() == Init(enabled)
    {
      this.enabled := enabled;
      pduActive, hasPcscf, registered, sent := false, false, false, false;
      sentMs, attempts, refreshMs, initials, refreshes := 0, 0, 0, 0, 0;
    }

    /** A retry or a refresh is due exactly from the deadline on, and never without one. */
    method NextDeadline() returns (d: Option<nat>)
      ensures d == Deadline(Abs())
      ensures forall now: nat :: RefreshNeeded(Abs(), now) || RetryNeeded(Abs(), now) <==> d.Some? && d.value <= now
    {
      d := None;
      if enabled && pduActive && hasPcscf && registered && refreshMs > 0 {
        d := Some(refreshMs);
      }
      if enabled && pduActive && hasPcscf && !registered && sent && sentMs > 0 && attempts < MAX_ATTEMPTS {
        d := Some(Earlier(d, sentMs + RETRY_MS));
      }
    }

    /** Sends at most one initial REGISTER, within the limit, and at most one refresh; nothing is left due. */
    method Pass(now: nat)
      requires Valid()
      modifies this
      ensures Valid() && Abs() == Work(old(Abs()), now)
      ensures 0 <= initials - old(initials) == attempts - old(attempts) <= 1 && attempts <= MAX_ATTEMPTS
      ensures 0 <= refreshes - old(refreshes) <= old(Armed(Abs())) - Armed(Abs())
      ensures !RegisterNeeded(Abs()) && !RefreshNeeded(Abs(), now) && !RetryNeeded(Abs(), now)
    {
      var up := enabled && pduActive && hasPcscf;
      if up && !registered && sent && sentMs > 0 && attempts < MAX_ATTEMPTS && now >= sentMs + RETRY_MS {
        sent := false;
      }
      var doRegister := up && !registered && !sent;
      var doRefresh := up && registered && refreshMs > 0 && now >= refreshMs;
      if doRefresh {
        refreshMs := 0;
        refreshes := refreshes + 1;
      }
      if doRegister {
        sent := true;
        sentMs := now;
        attempts := attempts + 1;
        initials := initials + 1;
      }
    }

    /** The next refresh lies at least a second ahead, and the attempts are available again. */
    method Accepted(now: nat, expires: nat)
      requires Valid()
      modifies this
      ensures Valid() && Abs() == OnOk(old(Abs()), now, expires)
      ensures registered && attempts == 0 && now + 1000 <= refreshMs
      ensures Reachable(Abs()) ==> Deadline(Abs()) == Some(refreshMs)
    {
      var e := expires;
      if e <= MARGIN_S {
        e := EXPIRES_S;
      }
      registered, sent, sentMs, attempts := true, false, 0, 0;
      refreshMs := now + (e - MARGIN_S) * 1000;
    }

    /** Answering a challenge uses up no attempt and starts the wait for its own answer. */
    method Challenged(now: nat, answered: bool)
      requires Valid()
      modifies this
      ensures Valid() && Abs() == OnChallenge(old(Abs()), now, answered) && attempts == old(attempts)
      ensures answered ==> !RegisterNeeded(Abs()) && !RetryNeeded(Abs(), now)
    {
      if answered {
        sent := true;
        sentMs := now;
      }
    }

    /** Without the PDU session nothing is due, ever; with a new one and a P-CSCF a REGISTER is due at once. */
    method SetPduActive(active: bool, pcscf: bool)
      requires Valid()
      modifies this
      ensures Valid() && Abs() == SetPdu(old(Abs()), active, pcscf)
      ensures !active ==> Deadline(Abs()).None? && !RegisterNeeded(Abs()) && !registered && attempts == 0
      ensures active && !old(pduActive) && !old(registered) && enabled && pcscf ==> RegisterNeeded(Abs())
    {
      if pduActive != active || !active {
        sent, sentMs, attempts := false, 0, 0;
      }
      if !active {
        registered, refreshMs := false, 0;
      }
      pduActive := active;
      hasPcscf := active && pcscf;
    }
  }
}
