/** What every run of the session management machine keeps, whatever the adapter answers. */
module SessionManagementProofs {
  import opened Options
  import opened SessionManagement

  // ---------------------------------------------------------------- coherence

  /** The four combinations of state, procedure and step, and the bounds of the counters. */
  predicate Coherent(s: Session) {
    && (s.phase == INACTIVE || s.phase == ESTABLISHING || s.phase == ACTIVE || s.phase == RELEASING)
    && !(s.connect && s.disconnect)
    && s.retry <= s.max
    && s.timer.retx <= T3580_MAX_RETX
    && (s.phase == ESTABLISHING ==> s.ids.pti == 0)
  }

  /** Transmissions of one attempt: the request and its retransmissions. */
  const PER_ATTEMPT := 1 + T3580_MAX_RETX

  /** The most establishment requests that can still be transmitted before the connect flag is set again. */
  function Budget(s: Session): nat
    requires Coherent(s)
  {
    if s.phase == ESTABLISHING then T3580_MAX_RETX - s.timer.retx + PER_ATTEMPT * (s.max - s.retry)
    else if s.phase == INACTIVE && s.connect then PER_ATTEMPT * (1 + s.max - s.retry)
    else 0
  }

  /** How often an event sets the connect flag. */
  function Settings(e: Event): nat { if e.ConnectEv? || e.AutoConnectEv? then 1 else 0 }

  function SettingsIn(es: seq<Event>): nat {
    if es == [] then 0 else Settings(es[0]) + SettingsIn(es[1..])
  }

  /** What one setting of the flag pays for. */
  function Allowance(max: nat): nat { PER_ATTEMPT * (1 + max) }

  function Transmissions(s: Session): nat { |s.sent.requests| }

  /** `t` is coherent, runs under the same limit, has lost no log entry and stays within `credit` transmissions. */
  predicate Follows(s: Session, t: Session, credit: nat) {
    && Coherent(t)
    && t.max == s.max
    && s.sent.requests <= t.sent.requests
    && Transmissions(t) + Budget(t) <= Transmissions(s) + credit
  }

  lemma FollowsTrans(s: Session, t: Session, u: Session, credit: nat)
    requires Follows(s, t, credit) && Follows(t, u, Budget(t))
    ensures Follows(s, u, credit)
  {
  }

  /** The recursion submit, refuse, retry: an attempt with r retries left transmits at most 1 + r requests at once. */
  lemma {:induction false} StartEstablishFollows(s: Session, net: Adapter)
    requires s.retry <= s.max && !s.disconnect
    ensures Follows(s, StartEstablish(s, net), PER_ATTEMPT * (1 + s.max - s.retry))
    ensures StartEstablish(s, net).phase.state != Active
    decreases RetriesLeft(s), 1
  {
    var t := BeginEstablish(s);
    match net.establish(|s.sent.requests|)
    case Submitted(psi) =>
    case Refused(cause) => HandleRejectFollows(t, cause, net);
  }

  lemma {:induction false} HandleRejectFollows(s: Session, cause: RejectCause, net: Adapter)
    requires s.phase == ESTABLISHING && s.retry <= s.max && s.timer.retx <= T3580_MAX_RETX
    ensures Follows(s, HandleReject(s, cause, net), PER_ATTEMPT * (s.max - s.retry))
    ensures HandleReject(s, cause, net).phase.state != Active
    decreases RetriesLeft(s), 0
  {
    var t := EnterInactive(s.(rejected := RejectClassOf(cause)), EstablishRejected, false, true);
    if cause != SemanticError && t.rejected == Temporary && t.retry < t.max {
      StartEstablishFollows(t.(retry := t.retry + 1, connect := true, disconnect := false), net);
    }
  }

  lemma TickDisconnectFollows(s: Session, net: Adapter)
    requires Coherent(s)
    ensures Follows(s, TickDisconnect(s, net), Budget(s))
  {
  }

  lemma TickConnectFollows(s: Session, net: Adapter)
    requires Coherent(s)
    ensures Follows(s, TickConnect(s, net), Budget(s))
  {
    hide StartEstablish;
    if s.connect && s.phase.state == Inactive {
      StartEstablishFollows(s.(connect := false), net);
    }
  }

  lemma TickT3580Follows(s: Session, now: nat)
    requires Coherent(s)
    ensures Follows(s, TickT3580(s, now), Budget(s))
  {
  }

  lemma TickReleaseFollows(s: Session, now: nat)
    requires Coherent(s)
    ensures Follows(s, TickRelease(s, now), Budget(s))
  {
  }

  lemma TickFollows(s: Session, now: nat, registered: bool, net: Adapter)
    requires Coherent(s)
    ensures Follows(s, Tick(s, now, registered, net), Budget(s))
  {
    if registered {
      hide TickDisconnect, TickConnect, TickT3580, TickRelease;
      var a := TickDisconnect(s, net);
      TickDisconnectFollows(s, net);
      var b := TickConnect(a, net);
      TickConnectFollows(a, net);
      var c := TickT3580(b, now);
      TickT3580Follows(b, now);
      TickReleaseFollows(c, now);
      FollowsTrans(b, c, TickRelease(c, now), Budget(b));
      FollowsTrans(a, b, TickRelease(c, now), Budget(a));
      FollowsTrans(s, a, TickRelease(c, now), Budget(s));
    }
  }

  lemma StepFollows(s: Session, e: Event, net: Adapter)
    requires Coherent(s)
    ensures Follows(s, Step(s, e, net), Budget(s) + Settings(e) * Allowance(s.max))
  {
    hide Tick, HandleReject;
    match e
    case TickEv(now, registered) => TickFollows(s, now, registered, net);
    case RejectEv(cause) =>
      if s.phase.state == Establishing {
        HandleRejectFollows(s, cause, net);
      }
    case ConnectEv =>
    case AutoConnectEv =>
    case DisconnectEv =>
    case EstablishedEv =>
    case ReleasedEv =>
    case RadioEv(on) =>
    case ForgetEv =>
  }

  /**
    Establishment budget.  In every run, from every coherent state and for every adapter, each
    setting of the connect flag pays for at most (1 + max_retries) * (1 + 4) transmissions,
    and the machine stays in one of its four coherent phases.
   */
  lemma {:induction false} EstablishmentBudget(s: Session, es: seq<Event>, net: Adapter)
    requires Coherent(s)
    ensures Follows(s, Run(s, es, net), Budget(s) + SettingsIn(es) * Allowance(s.max))
    decreases |es|
  {
    hide Step, Allowance, Settings;
    if es != [] {
      var t := Step(s, es[0], net);
      StepFollows(s, es[0], net);
      EstablishmentBudget(t, es[1..], net);
      Distribute(Settings(es[0]), SettingsIn(es[1..]), Allowance(s.max));
    }
  }

  lemma Distribute(a: nat, b: nat, unit: nat)
    ensures (a + b) * unit == a * unit + b * unit
  {
  }

  /** From power-up: with the limit the source sets, ten requests for each setting of the connect flag. */
  lemma BudgetFromInit(es: seq<Event>, net: Adapter)
    ensures Transmissions(Run(INITIAL, es, net)) <= 10 * SettingsIn(es)
  {
    EstablishmentBudget(INITIAL, es, net);
  }

  // --------------------------------------------------- how a session begins

  lemma TickConnectActive(s: Session, net: Adapter)
    requires Coherent(s) && TickConnect(s, net).phase == ACTIVE
    ensures s.phase == ACTIVE
  {
    hide StartEstablish;
    if s.connect && s.phase.state == Inactive {
      StartEstablishFollows(s.(connect := false), net);
    }
  }

  lemma TickActive(s: Session, now: nat, registered: bool, net: Adapter)
    requires Coherent(s) && Tick(s, now, registered, net).phase == ACTIVE
    ensures s.phase == ACTIVE
  {
    var a := TickDisconnect(s, net);
    TickDisconnectFollows(s, net);
    hide TickConnect;
    TickConnectActive(a, net);
  }

  lemma EnteredByAccept(s: Session, e: Event, net: Adapter)
    requires Coherent(s) && s.phase != ACTIVE && Step(s, e, net).phase == ACTIVE
    ensures e.EstablishedEv? && s.phase == ESTABLISHING
  {
    hide Tick, HandleReject;
    match e
    case TickEv(now, registered) => TickActive(s, now, registered, net);
    case RejectEv(cause) =>
      if s.phase.state == Establishing {
        HandleRejectFollows(s, cause, net);
      }
    case _ =>
  }

  /** Whether some event of the run is an accept that finds the machine establishing. */
  predicate Accepted(s: Session, es: seq<Event>, net: Adapter)
    decreases |es|
  {
    es != [] && ((es[0].EstablishedEv? && s.phase == ESTABLISHING) || Accepted(Step(s, es[0], net), es[1..], net))
  }

  /** A session becomes active only through an accept received while establishing. */
  lemma {:induction false} ActiveOnlyByAccept(s: Session, es: seq<Event>, net: Adapter)
    requires Coherent(s) && s.phase != ACTIVE && Run(s, es, net).phase == ACTIVE
    ensures Accepted(s, es, net)
    decreases |es|
  {
    hide Step, Coherent;
    var t := Step(s, es[0], net);
    StepFollows(s, es[0], net);
    if t.phase == ACTIVE {
      EnteredByAccept(s, es[0], net);
    } else {
      assert Coherent(t);
      ActiveOnlyByAccept(t, es[1..], net);
    }
  }

  // ------------------------------------------------- the budget can be used up

  function AlwaysSubmitted(): Adapter { Adapter(_ => Submitted(1), _ => None) }

  /** Five ticks, each at the previous deadline: one arms T3580, four retransmit. */
  function FullAttempt(now: nat): seq<Event> {
    [TickEv(now, true), TickEv(now + T3580_MS, true), TickEv(now + 2 * T3580_MS, true),
     TickEv(now + 3 * T3580_MS, true), TickEv(now + 4 * T3580_MS, true)]
  }

  /** Every attempt is retransmitted to the limit and then refused for lack of resources. */
  function WorstRun(retries: nat, now: nat): seq<Event> {
    FullAttempt(now)
    + (if retries == 0 then [] else [RejectEv(InsufficientResources)] + WorstRun(retries - 1, now + 5 * T3580_MS))
  }

  lemma {:induction false} RunConcat(s: Session, a: seq<Event>, b: seq<Event>, net: Adapter)
    ensures Run(s, a + b, net) == Run(Run(s, a, net), b, net)
    decreases |a|
  {
    hide Step;
    if a == [] {
      assert a + b == b;
    } else {
      assert (a + b)[1..] == a[1..] + b;
      RunConcat(Step(s, a[0], net), a[1..], b, net);
    }
  }

  /** A fresh attempt at time `now`, T3580 not yet armed or armed at this very moment. */
  predicate Fresh(s: Session, now: nat) {
    && Coherent(s) && s.phase == ESTABLISHING && !s.disconnect && s.timer.retx == 0
    && (s.timer.deadline == 0 || s.timer.deadline == now + T3580_MS)
  }

  lemma Retransmits(s: Session, now: nat, net: Adapter)
    requires Coherent(s) && s.phase == ESTABLISHING && !s.disconnect
    requires 0 < s.timer.deadline <= now && s.timer.retx < T3580_MAX_RETX
    ensures Step(s, TickEv(now, true), net)
         == Transmit(s.(timer := Timer(now + T3580_MS, s.timer.retx + 1)))
  {
  }

  lemma FullAttemptTransmits(s: Session, now: nat, net: Adapter)
    requires Fresh(s, now)
    ensures var t := Run(s, FullAttempt(now), net);
            && Coherent(t) && t.phase == ESTABLISHING && !t.disconnect && t.max == s.max && t.retry == s.retry
            && Transmissions(t) == Transmissions(s) + T3580_MAX_RETX
  {
    var a := Step(s, TickEv(now, true), net);
    assert a == s.(timer := Timer(now + T3580_MS, 0));
    var b := Step(a, TickEv(now + T3580_MS, true), net);
    Retransmits(a, now + T3580_MS, net);
    var c := Step(b, TickEv(now + 2 * T3580_MS, true), net);
    Retransmits(b, now + 2 * T3580_MS, net);
    var d := Step(c, TickEv(now + 3 * T3580_MS, true), net);
    Retransmits(c, now + 3 * T3580_MS, net);
    Retransmits(d, now + 4 * T3580_MS, net);
    RunFive(s, FullAttempt(now), net);
  }

  lemma RunFive(s: Session, es: seq<Event>, net: Adapter)
    requires |es| == 5
    ensures Run(s, es, net)
         == Step(Step(Step(Step(Step(s, es[0], net), es[1], net), es[2], net), es[3], net), es[4], net)
  {
    hide Step, Run;
    var a := Step(s, es[0], net);
    var b := Step(a, es[1], net);
    var c := Step(b, es[2], net);
    var d := Step(c, es[3], net);
    assert es == [es[0]] + ([es[1]] + ([es[2]] + ([es[3]] + ([es[4]] + []))));
    RunHead(s, es[0], [es[1]] + ([es[2]] + ([es[3]] + ([es[4]] + []))), net);
    RunHead(a, es[1], [es[2]] + ([es[3]] + ([es[4]] + [])), net);
    RunHead(b, es[2], [es[3]] + ([es[4]] + []), net);
    RunHead(c, es[3], [es[4]] + [], net);
    RunHead(d, es[4], [], net);
    RunNothing(Step(d, es[4], net), net);
  }

  lemma {:induction false} WorstRunTransmits(s: Session, now: nat)
    requires Fresh(s, now)
    ensures Transmissions(Run(s, WorstRun(RetriesLeft(s), now), AlwaysSubmitted()))
         == Transmissions(s) + T3580_MAX_RETX + PER_ATTEMPT * (s.max - s.retry)
    ensures SettingsIn(WorstRun(RetriesLeft(s), now)) == 0
    decreases RetriesLeft(s)
  {
    hide Run, Step;
    var net := AlwaysSubmitted();
    var t := Run(s, FullAttempt(now), net);
    FullAttemptTransmits(s, now, net);
    NoSettings(FullAttempt(now));
    if RetriesLeft(s) > 0 {
      var rest := WorstRun(RetriesLeft(s) - 1, now + 5 * T3580_MS);
      var u := Step(t, RejectEv(InsufficientResources), net);
      RetryIsFresh(t);
      WorstRunTransmits(u, now + 5 * T3580_MS);
      RunConcat(s, FullAttempt(now), [RejectEv(InsufficientResources)] + rest, net);
      RunHead(t, RejectEv(InsufficientResources), rest, net);
      SettingsConcat(FullAttempt(now), [RejectEv(InsufficientResources)] + rest);
      SettingsConcat([RejectEv(InsufficientResources)], rest);
      assert SettingsIn([RejectEv(InsufficientResources)]) == 0;
      assert WorstRun(RetriesLeft(s), now) == FullAttempt(now) + ([RejectEv(InsufficientResources)] + rest);
    } else {
      assert WorstRun(0, now) == FullAttempt(now);
    }
  }

  lemma RetryIsFresh(t: Session)
    requires Coherent(t) && t.phase == ESTABLISHING && t.retry < t.max
    ensures var u := Step(t, RejectEv(InsufficientResources), AlwaysSubmitted());
            && Coherent(u) && u.phase == ESTABLISHING && !u.disconnect && u.timer == Timer(0, 0)
            && u.retry == t.retry + 1 && u.max == t.max && Transmissions(u) == Transmissions(t) + 1
  {
    var net := AlwaysSubmitted();
    var idle := EnterInactive(t.(rejected := Temporary), EstablishRejected, false, true);
    var v := idle.(retry := t.retry + 1, connect := true, disconnect := false);
    assert HandleReject(t, InsufficientResources, net) == StartEstablish(v, net);
  }

  lemma RunHead(s: Session, e: Event, es: seq<Event>, net: Adapter)
    ensures Run(s, [e] + es, net) == Run(Step(s, e, net), es, net)
  {
    hide Step;
    assert ([e] + es)[1..] == es;
  }

  lemma {:induction false} NoSettings(es: seq<Event>)
    requires forall i :: 0 <= i < |es| ==> es[i].TickEv?
    ensures SettingsIn(es) == 0
  {
    if es != [] {
      NoSettings(es[1..]);
    }
  }

  lemma {:induction false} SettingsConcat(a: seq<Event>, b: seq<Event>)
    ensures SettingsIn(a + b) == SettingsIn(a) + SettingsIn(b)
  {
    if a == [] {
      assert a + b == b;
    } else {
      assert (a + b)[1..] == a[1..] + b;
      SettingsConcat(a[1..], b);
    }
  }

  /** The bound is exact: for every retry limit some run with one setting of the flag transmits that often. */
  lemma BudgetIsReached(max: nat)
    ensures exists es, net ::
              && SettingsIn(es) == 1
              && Transmissions(Run(INITIAL.(max := max), es, net)) == PER_ATTEMPT * (1 + max)
  {
    var net := AlwaysSubmitted();
    var s := INITIAL.(max := max);
    var t := Step(Step(s, ConnectEv, net), TickEv(0, true), net);
    assert Fresh(t, 0) && t.retry == 0 && t.max == max && Transmissions(t) == 1;
    var rest := WorstRun(max, 0);
    WorstRunTransmits(t, 0);
    assert ([ConnectEv, TickEv(0, true)] + rest) == [ConnectEv] + ([TickEv(0, true)] + rest);
    RunHead(s, ConnectEv, [TickEv(0, true)] + rest, net);
    RunHead(Step(s, ConnectEv, net), TickEv(0, true), rest, net);
    SettingsConcat([ConnectEv, TickEv(0, true)], rest);
    assert SettingsIn([ConnectEv, TickEv(0, true)]) == 1 by {
      assert [ConnectEv, TickEv(0, true)][1..] == [TickEv(0, true)];
    }
  }

  // ---------------------------------------------------------------- timing

  function Ticks(times: seq<nat>): seq<Event> {
    if times == [] then [] else [TickEv(times[0], true)] + Ticks(times[1..])
  }

  lemma {:induction false} InactiveIsQuiet(s: Session, times: seq<nat>, net: Adapter)
    requires Coherent(s) && s.phase == INACTIVE && !s.connect && !s.disconnect
    ensures Transmissions(Run(s, Ticks(times), net)) == Transmissions(s)
    decreases |times|
  {
    hide Run, Step;
    if times == [] {
      RunNothing(s, net);
    } else {
      RunHead(s, TickEv(times[0], true), Ticks(times[1..]), net);
      TickWhileQuiet(s, times[0], net);
      InactiveIsQuiet(s, times[1..], net);
    }
  }

  lemma RunNothing(s: Session, net: Adapter)
    ensures Run(s, [], net) == s
  {
  }

  lemma TickWhileQuiet(s: Session, now: nat, net: Adapter)
    requires Coherent(s) && s.phase == INACTIVE && !s.connect && !s.disconnect
    ensures Step(s, TickEv(now, true), net) == s
  {
  }

  /**
    T3580 spacing.  While the network stays silent, the n-th retransmission does not happen
    before the armed deadline plus (n - 1) timer periods, however often the machine is ticked.
   */
  lemma {:induction false} RetransmissionsSpaced(s: Session, times: seq<nat>, limit: nat, net: Adapter)
    requires Coherent(s) && s.phase == ESTABLISHING && !s.disconnect && s.timer.deadline > 0
    requires forall i :: 0 <= i < |times| ==> times[i] <= limit
    ensures var n := Transmissions(Run(s, Ticks(times), net)) - Transmissions(s);
            0 < n ==> s.timer.deadline + (n - 1) * T3580_MS <= limit
    decreases |times|
  {
    hide Run, Step, Ticks;
    if times == [] {
      assert Ticks(times) == [] by { TicksOf(times); }
      RunNothing(s, net);
    } else {
      var t := Step(s, TickEv(times[0], true), net);
      TicksOf(times);
      RunHead(s, TickEv(times[0], true), Ticks(times[1..]), net);
      SilentTick(s, times[0], net);
      if t.phase == INACTIVE {
        InactiveIsQuiet(t, times[1..], net);
      } else {
        RetransmissionsSpaced(t, times[1..], limit, net);
      }
    }
  }

  lemma TicksOf(times: seq<nat>)
    ensures Ticks(times) == if times == [] then [] else [TickEv(times[0], true)] + Ticks(times[1..])
  {
  }

  lemma SilentTick(s: Session, now: nat, net: Adapter)
    requires Coherent(s) && s.phase == ESTABLISHING && !s.disconnect && s.timer.deadline > 0
    ensures var t := Step(s, TickEv(now, true), net);
            && Coherent(t) && !t.disconnect
            && (now < s.timer.deadline ==> t == s)
            && (s.timer.deadline <= now && s.timer.retx < T3580_MAX_RETX ==>
                  && t.phase == ESTABLISHING && t.timer.deadline == now + T3580_MS
                  && Transmissions(t) == Transmissions(s) + 1)
            && (s.timer.deadline <= now && s.timer.retx == T3580_MAX_RETX ==>
                  t.phase == INACTIVE && !t.connect && Transmissions(t) == Transmissions(s))
  {
  }

  /**
    The release wait of 16 seconds is not waited: the disconnect flag outlives the release
    request, so the next tick ends the session whatever its time.
   */
  lemma ReleaseEndsAtNextTick(s: Session, first: nat, second: nat, net: Adapter)
    requires Coherent(s) && s.phase == ACTIVE
    ensures Run(s, [DisconnectEv, TickEv(first, true), TickEv(second, true)], net).phase == INACTIVE
  {
    var es := [DisconnectEv, TickEv(first, true), TickEv(second, true)];
    var a := RequestDisconnect(s);
    var b := Tick(a, first, true, net);
    assert b.phase == INACTIVE || (b.phase == RELEASING && b.disconnect);
    assert es == [es[0]] + ([es[1]] + ([es[2]] + []));
    RunHead(s, es[0], [es[1]] + ([es[2]] + []), net);
    RunHead(a, es[1], [es[2]] + [], net);
    RunHead(b, es[2], [], net);
  }

  /** A release in progress survives a tick exactly when no disconnect is pending and the wait has not run out. */
  lemma ReleaseWaitsIff(s: Session, now: nat, net: Adapter)
    requires Coherent(s) && s.phase == RELEASING
    ensures Tick(s, now, true, net).phase == RELEASING
       <==> !s.disconnect && (s.timer.deadline == 0 || now < s.timer.deadline)
  {
    hide StartEstablish;
    if s.disconnect {
      var a := TickDisconnect(s, net);
      assert a.phase == INACTIVE && !a.connect;
    }
  }

  // ------------------------------------------------------------------- PTI

  function Allocations(ids: Ids, n: nat): Ids {
    if n == 0 then ids else AllocPti(Allocations(ids, n - 1))
  }

  function FirstPti(ids: Ids): nat { if ids.nextPti < 1 || ids.nextPti > LAST_PTI then 1 else ids.nextPti }

  lemma {:induction false} PtiCycle(ids: Ids, n: nat)
    requires 1 <= n
    ensures Allocations(ids, n).pti == (FirstPti(ids) + n - 2) % LAST_PTI + 1
    ensures Allocations(ids, n).nextPti == (FirstPti(ids) + n - 1) % LAST_PTI + 1
  {
    if n > 1 {
      PtiCycle(ids, n - 1);
    } else {
      assert Allocations(ids, 1) == AllocPti(Allocations(ids, 0));
    }
  }

  /** Identities are in 1..254 and any 254 consecutive allocations are pairwise distinct. */
  lemma PtiDistinct(ids: Ids, i: nat, j: nat)
    requires 1 <= i < j < i + LAST_PTI
    ensures 1 <= Allocations(ids, i).pti <= LAST_PTI
    ensures Allocations(ids, i).pti != Allocations(ids, j).pti
  {
    PtiCycle(ids, i);
    PtiCycle(ids, j);
  }

  /** The request that opens an attempt carries the identity just allocated. */
  lemma OpeningRequest(s: Session, net: Adapter)
    requires net.establish(|s.sent.requests|).Submitted?
    ensures StartEstablish(s, net).sent.requests == s.sent.requests
              + [BuildRequest(AllocPti(s.ids).(attempt := s.ids.attempt + 1))]
  {
  }

  /**
    A retransmission in any reachable state carries PTI 1, so it repeats the identity of the
    request that opened the attempt exactly when the allocator's cursor stood at 1.
   */
  lemma RetransmissionRepeatsPtiIff(s: Session, u: Session, now: nat, net: Adapter)
    requires net.establish(|s.sent.requests|).Submitted?
    requires Coherent(u) && u.phase == ESTABLISHING
    requires 0 < u.timer.deadline <= now && u.timer.retx < T3580_MAX_RETX
    ensures var opening := StartEstablish(s, net).sent.requests[|s.sent.requests|];
            var again := TickT3580(u, now).sent.requests[|u.sent.requests|];
            again.pti == opening.pti <==> FirstPti(s.ids) == 1
  {
    OpeningRequest(s, net);
  }

  /** Refuses the first establishment request and submits all others. */
  function RefusesFirst(): Adapter {
    Adapter(k => if k == 0 then Refused(InsufficientResources) else Submitted(1), _ => None)
  }

  /** From power-up: the first request is refused, its retry opened with PTI 2 and retransmitted with PTI 1. */
  lemma RetransmissionChangesPti()
    ensures Run(INITIAL, [ConnectEv, TickEv(0, true), TickEv(T3580_MS, true)], RefusesFirst()).sent.requests
         == [Request(1, 1, 1), Request(2, 1, 2), Request(2, 1, 1)]
  {
    var net := RefusesFirst();
    var es := [ConnectEv, TickEv(0, true), TickEv(T3580_MS, true)];
    var s := RequestConnect(INITIAL);
    var t := Step(s, TickEv(0, true), net);
    AfterFirstTick();
    Retransmits(t, T3580_MS, net);
    assert es == [es[0]] + ([es[1]] + ([es[2]] + []));
    RunHead(INITIAL, es[0], [es[1]] + ([es[2]] + []), net);
    RunHead(s, es[1], [es[2]] + [], net);
    RunHead(t, es[2], [], net);
  }

  lemma AfterFirstTick()
    ensures var t := Step(RequestConnect(INITIAL), TickEv(0, true), RefusesFirst());
            && Coherent(t) && t.phase == ESTABLISHING && !t.disconnect && t.timer == Timer(T3580_MS, 0)
            && t.ids == Ids(1, 2, 0, 3)
            && t.sent.requests == [Request(1, 1, 1), Request(2, 1, 2)]
  {
    var net := RefusesFirst();
    var s := RequestConnect(INITIAL).(connect := false);
    var a := BeginEstablish(s);
    assert a.sent.requests == [Request(1, 1, 1)];
    assert StartEstablish(s, net) == HandleReject(a, InsufficientResources, net);
    var b := EnterInactive(a.(rejected := Temporary), EstablishRejected, false, true)
      .(retry := 1, connect := true, disconnect := false);
    assert HandleReject(a, InsufficientResources, net) == StartEstablish(b, net);
    assert StartEstablish(b, net).sent.requests == [Request(1, 1, 1), Request(2, 1, 2)];
  }
}
