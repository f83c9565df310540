/**
  Order in runs of the MBIM control channel that contain new commands: nothing queued is lost,
  held commands are answered in the order they were held, and at most one newer command has its
  answer queued ahead of them.
 */
module MbimChannelOrder {
  import opened MbimChannel
  import opened MbimChannelProofs
  import opened MbimChannelLiveness

  // ---- What one event adds and takes ----

  /** The held command that an event answers. */
  function Taken(s: Channel, e: Event): seq<Command> {
    if e.GetEv? && |s.resp| <= 1 && s.held != [] then [s.held[0]] else []
  }

  /** The messages an event appends to the response queue. */
  function Queued(s: Channel, e: Event): seq<Message>
    requires |s.resp| <= |Delivered(s, e)| + |Step(s, e).resp|
  {
    Step(s, e).resp[|s.resp| - |Delivered(s, e)|..]
  }

  /** The commands an event appends to the held queue. */
  function NewlyHeld(s: Channel, e: Event): seq<Command>
    requires |s.held| <= |Taken(s, e)| + |Step(s, e).held|
  {
    Step(s, e).held[|s.held| - |Taken(s, e)|..]
  }

  /** A GET takes the head of both queues, and what it adds joins behind. */
  lemma GetQueues(s: Channel, fits: bool)
    requires Alert(s)
    ensures var t := Get(s, fits);
            && (if s.resp == [] then [] else s.resp[1..]) <= t.resp
            && t.held == if |s.resp| <= 1 && s.held != [] then s.held[1..] else s.held
  {
    hide Drain, TakeResponse, AllCommands;
    TakeResponseQuiet(s);
    DrainExtends(TakeResponse(s), fits);
  }

  lemma TickQueues(s: Channel, fits: bool)
    ensures s.resp <= Tick(s, fits).resp && Tick(s, fits).held == s.held
  {
    hide Drain;
    DrainExtends(s, fits);
  }

  /** Takes `d` off the front of `q`, leaves the rest at the front of `t`. */
  lemma Requeue<T>(q: seq<T>, d: seq<T>, t: seq<T>)
    requires d <= q && q[|d|..] <= t
    ensures |q| <= |d| + |t| && q + t[|q| - |d|..] == d + t
  {
    assert q == d + q[|d|..];
    assert t == q[|d|..] + t[|q| - |d|..];
  }

  lemma RespGrows(s: Channel, e: Event)
    requires Alert(s)
    ensures Delivered(s, e) <= s.resp && s.resp[|Delivered(s, e)|..] <= Step(s, e).resp
  {
    hide Get, Tick, Send, Alert;
    match e
    case SendEv(c) => SendKeepsAlert(s, c);
    case GetEv(fits) => GetQueues(s, fits);
    case TickEv(fits) => TickQueues(s, fits);
    case _ =>
  }

  lemma HeldGrows(s: Channel, e: Event)
    requires Alert(s)
    ensures Taken(s, e) <= s.held && s.held[|Taken(s, e)|..] <= Step(s, e).held
  {
    hide Get, Tick, Send, Alert;
    match e
    case SendEv(c) => SendKeepsAlert(s, c);
    case GetEv(fits) => GetQueues(s, fits);
    case TickEv(fits) => TickQueues(s, fits);
    case _ =>
  }

  /** The head of the response queue goes to the host; everything else only grows at the end. */
  lemma RespIsFifo(s: Channel, e: Event)
    requires Alert(s)
    ensures |s.resp| <= |Delivered(s, e)| + |Step(s, e).resp|
    ensures s.resp + Queued(s, e) == Delivered(s, e) + Step(s, e).resp
  {
    hide Step, Alert, Delivered;
    RespGrows(s, e);
    Requeue(s.resp, Delivered(s, e), Step(s, e).resp);
  }

  /** The head of the held queue is the one answered; everything else only grows at the end. */
  lemma HeldIsFifo(s: Channel, e: Event)
    requires Alert(s)
    ensures |s.held| <= |Taken(s, e)| + |Step(s, e).held|
    ensures s.held + NewlyHeld(s, e) == Taken(s, e) + Step(s, e).held
  {
    hide Step, Alert, Taken;
    HeldGrows(s, e);
    Requeue(s.held, Taken(s, e), Step(s, e).held);
  }

  // ---- Whole runs ----

  function QueuedIn(s: Channel, es: seq<Event>): seq<Message>
    requires Alert(s)
    decreases |es|
  {
    if es == [] then []
    else
      hide Step, Alert;
      RespIsFifo(s, es[0]);
      StepKeepsAlert(s, es[0]);
      Queued(s, es[0]) + QueuedIn(Step(s, es[0]), es[1..])
  }

  function NewlyHeldIn(s: Channel, es: seq<Event>): seq<Command>
    requires Alert(s)
    decreases |es|
  {
    if es == [] then []
    else
      hide Step, Alert;
      HeldIsFifo(s, es[0]);
      StepKeepsAlert(s, es[0]);
      NewlyHeld(s, es[0]) + NewlyHeldIn(Step(s, es[0]), es[1..])
  }

  function TakenIn(s: Channel, es: seq<Event>): seq<Command>
    decreases |es|
  {
    if es == [] then [] else Taken(s, es[0]) + TakenIn(Step(s, es[0]), es[1..])
  }

  lemma Chain<T>(a: seq<T>, q: seq<T>, d: seq<T>, b: seq<T>, qs: seq<T>, ds: seq<T>, c: seq<T>)
    requires a + q == d + b && b + qs == ds + c
    ensures a + (q + qs) == (d + ds) + c
  {
    assert a + (q + qs) == (a + q) + qs;
    assert (d + b) + qs == d + (b + qs);
    assert d + (ds + c) == (d + ds) + c;
  }

  /** In every run, with commands of any length, the host receives the queued messages in the order they were queued. */
  lemma {:induction false} DeliveredAsQueued(s: Channel, es: seq<Event>)
    requires Alert(s)
    ensures s.resp + QueuedIn(s, es) == Deliveries(s, es) + Run(s, es).resp
    decreases |es|
  {
    hide Step, Alert, Queued, Delivered;
    if es != [] {
      var t := Step(s, es[0]);
      RespIsFifo(s, es[0]);
      StepKeepsAlert(s, es[0]);
      DeliveredAsQueued(t, es[1..]);
      Chain(s.resp, Queued(s, es[0]), Delivered(s, es[0]), t.resp,
            QueuedIn(t, es[1..]), Deliveries(t, es[1..]), Run(t, es[1..]).resp);
    }
  }

  /** In every run the held commands are answered in the order they were held. */
  lemma {:induction false} AnsweredAsHeld(s: Channel, es: seq<Event>)
    requires Alert(s)
    ensures s.held + NewlyHeldIn(s, es) == TakenIn(s, es) + Run(s, es).held
    decreases |es|
  {
    hide Step, Alert, NewlyHeld, Taken;
    if es != [] {
      var t := Step(s, es[0]);
      HeldIsFifo(s, es[0]);
      StepKeepsAlert(s, es[0]);
      AnsweredAsHeld(t, es[1..]);
      Chain(s.held, NewlyHeld(s, es[0]), Taken(s, es[0]), t.held,
            NewlyHeldIn(t, es[1..]), TakenIn(t, es[1..]), Run(t, es[1..]).held);
    }
  }

  // ---- Answers among the queued messages ----

  /** `a` can be got from `b` by leaving elements out. */
  predicate Within<T(==)>(a: seq<T>, b: seq<T>)
    decreases |b|
  {
    a == [] || (b != [] && if a[0] == b[0] then Within(a[1..], b[1..]) else Within(a, b[1..]))
  }

  lemma {:induction false} WithinTail<T>(a: seq<T>, b: seq<T>)
    requires a != [] && Within(a, b)
    ensures Within(a[1..], b)
    decreases |b|
  {
    if a[0] == b[0] {
      if a[1..] != [] && a[1] == b[0] {
        WithinTail(a[1..], b[1..]);
      }
    } else {
      WithinTail(a, b[1..]);
      if a[1..] != [] && a[1] == b[0] {
        WithinTail(a[1..], b[1..]);
      }
    }
  }

  lemma {:induction false} WithinBehind<T>(a: seq<T>, b: seq<T>, c: seq<T>)
    requires Within(a, c)
    ensures Within(a, b + c)
    decreases |b|
  {
    if b == [] {
      assert b + c == c;
    } else if a != [] {
      assert (b + c)[1..] == b[1..] + c;
      WithinBehind(a, b[1..], c);
      if a[0] == b[0] {
        WithinTail(a, b[1..] + c);
      }
    }
  }

  lemma {:induction false} WithinConcat<T>(a: seq<T>, b: seq<T>, c: seq<T>, d: seq<T>)
    requires Within(a, b) && Within(c, d)
    ensures Within(a + c, b + d)
    decreases |b|
  {
    if a == [] {
      assert a + c == c;
      WithinBehind(c, b, d);
    } else {
      assert (b + d)[1..] == b[1..] + d;
      assert (a + c)[1..] == a[1..] + c;
      if a[0] == b[0] {
        WithinConcat(a[1..], b[1..], c, d);
      } else {
        WithinConcat(a, b[1..], c, d);
      }
    }
  }

  /** The answers to those of the commands that are long enough for the handlers. */
  function Replies(cs: seq<Command>): seq<Message> {
    if cs == [] then [] else Reply(cs[0]) + Replies(cs[1..])
  }

  function Reply(c: Command): seq<Message> { if Answerable(c) then [CommandDone(c.tid)] else [] }

  lemma GetAnswersHeld(s: Channel, fits: bool)
    requires Alert(s) && |s.resp| <= 1 && s.held != [] && Answerable(s.held[0])
    ensures Get(s, fits).resp != [] && Get(s, fits).resp[0] == CommandDone(s.held[0].tid)
  {
    hide Drain, ProcessHeld;
    var a := s.(resp := [], bell := s.bell.(inGet := true, armed := false, outstanding := 0));
    ProcessHeldAnswers(a);
    DrainExtends(ProcessHeld(a), fits);
  }

  /** A GET that takes a held command queues its answer before anything else. */
  lemma TakenIsAnswered(s: Channel, e: Event)
    requires Alert(s)
    ensures |s.resp| <= |Delivered(s, e)| + |Step(s, e).resp|
    ensures Within(Replies(Taken(s, e)), Queued(s, e))
  {
    hide Get, Tick, Send, Alert;
    RespIsFifo(s, e);
    if Taken(s, e) != [] {
      var c := s.held[0];
      assert Replies([c]) == Reply(c) + Replies([c][1..]);
      if Answerable(c) {
        GetAnswersHeld(s, e.fits);
        assert Queued(s, e)[0] == CommandDone(c.tid);
      }
    }
  }

  lemma {:induction false} RepliesConcat(a: seq<Command>, b: seq<Command>)
    ensures Replies(a + b) == Replies(a) + Replies(b)
    decreases |a|
  {
    hide Reply;
    if a == [] {
      assert a + b == b;
    } else {
      assert (a + b)[1..] == a[1..] + b && (a + b)[0] == a[0];
      RepliesConcat(a[1..], b);
      assert Replies(a + b) == Reply(a[0]) + (Replies(a[1..]) + Replies(b));
    }
  }

  /**
    However new commands are mixed in, and whatever their lengths, the answers to held
    commands reach the response queue, and so the host, in the order the commands were held.
   */
  lemma {:induction false} HeldAnswersInOrder(s: Channel, es: seq<Event>)
    requires Alert(s)
    ensures Within(Replies(TakenIn(s, es)), QueuedIn(s, es))
    decreases |es|
  {
    hide Step, Queued, Taken, Alert;
    if es != [] {
      var t := Step(s, es[0]);
      TakenIsAnswered(s, es[0]);
      StepKeepsAlert(s, es[0]);
      HeldAnswersInOrder(t, es[1..]);
      RepliesConcat(Taken(s, es[0]), TakenIn(t, es[1..]));
      WithinConcat(Replies(Taken(s, es[0])), Queued(s, es[0]), Replies(TakenIn(t, es[1..])), QueuedIn(t, es[1..]));
    }
  }

  // ---- Overtaking ----

  /** The response buffer never holds an indication. */
  predicate PlainLast(s: Channel) { s.last.Some? ==> !IsIndication(s.last.value) }

  /** `t`'s queue is `s`'s with answers, never indications, behind it. */
  ghost predicate GrowsPlainly(s: Channel, t: Channel) {
    s.resp <= t.resp && forall i :: |s.resp| <= i < |t.resp| ==> !IsIndication(t.resp[i])
  }

  lemma PreparePlainly(s: Channel, c: Command)
    requires PlainLast(s)
    ensures PlainLast(Prepare(s, c)) && GrowsPlainly(s, Prepare(s, c))
  {
  }

  lemma RespondPlainly(s: Channel)
    requires PlainLast(s)
    ensures PlainLast(TrySend(Respond(s))) && GrowsPlainly(s, TrySend(Respond(s)))
  {
  }

  lemma SendPlainly(s: Channel, c: Command)
    requires PlainLast(s)
    ensures PlainLast(Send(s, c)) && GrowsPlainly(s, Send(s, c))
  {
    hide Prepare, Respond, TrySend, HasCommandResponse;
    if !(KindOf(c) == CommandMsg && HasCommandResponse(s)) {
      PreparePlainly(s, c);
      RespondPlainly(Prepare(s, c));
    }
  }

  lemma GetPlainLast(s: Channel, fits: bool)
    requires PlainLast(s)
    ensures PlainLast(Get(s, fits))
  {
    hide Drain, Prepare;
    var a := s.(resp := if s.resp == [] then [] else s.resp[1..],
                bell := s.bell.(inGet := true, armed := false, outstanding := 0));
    if a.held != [] {
      PreparePlainly(a.(held := a.held[1..]), a.held[0]);
    }
    DrainExtends(TakeResponse(s), fits);
  }

  lemma StepPlainLast(s: Channel, e: Event)
    requires PlainLast(s)
    ensures PlainLast(Step(s, e))
  {
    hide Send, Get, Drain;
    match e
    case SendEv(c) => SendPlainly(s, c);
    case GetEv(fits) => GetPlainLast(s, fits);
    case TickEv(fits) => DrainExtends(s, fits);
    case _ =>
  }

  /** A new command whose answer is queued while older ones are still held. */
  predicate Overtakes(s: Channel, e: Event) {
    e.SendEv? && KindOf(e.cmd) == CommandMsg && s.held != [] && |Step(s, e).resp| > |s.resp|
  }

  function OvertakesIn(s: Channel, es: seq<Event>): nat
    decreases |es|
  {
    if es == [] then 0 else (if Overtakes(s, es[0]) then 1 else 0) + OvertakesIn(Step(s, es[0]), es[1..])
  }

  /** Commands are held at every point of the run. */
  predicate AlwaysHolding(s: Channel, es: seq<Event>)
    decreases |es|
  {
    s.held != [] && (es == [] || AlwaysHolding(Step(s, es[0]), es[1..]))
  }

  /** A command can overtake only while the queue ends in an indication. */
  function Openings(s: Channel): nat { if s.resp != [] && IsIndication(s.resp[|s.resp| - 1]) then 1 else 0 }

  lemma SendUsesOpening(s: Channel, c: Command)
    requires Alert(s) && Served(s) && PlainLast(s) && s.held != []
    ensures (if Overtakes(s, SendEv(c)) then 1 else 0) + Openings(Send(s, c)) <= Openings(s)
  {
    var t := Send(s, c);
    assert |t.resp| > |s.resp| ==> !(KindOf(c) == CommandMsg && HasCommandResponse(s));
    hide Send;
    SendPlainly(s, c);
    if Overtakes(s, SendEv(c)) {
      assert s.resp[|s.resp| - 1] in s.resp;
    }
  }

  lemma GetOpensNothing(s: Channel, fits: bool)
    requires PlainLast(s) && s.held != [] && Get(s, fits).held != []
    ensures Openings(Get(s, fits)) <= Openings(s)
  {
    hide Prepare, Respond, Drain;
    var a := s.(resp := if s.resp == [] then [] else s.resp[1..],
                bell := s.bell.(inGet := true, armed := false, outstanding := 0));
    if a.resp == [] {
      var u := a.(held := a.held[1..]);
      PreparePlainly(u, a.held[0]);
      AnswerPlainly(Prepare(u, a.held[0]));
    }
    HeldBlocksDrain(TakeResponse(s), fits);
  }

  lemma AnswerPlainly(s: Channel)
    requires PlainLast(s)
    ensures GrowsPlainly(s, Respond(s))
  {
  }

  lemma HeldBlocksDrain(s: Channel, fits: bool)
    ensures Drain(s, fits).held == s.held && (s.held != [] ==> Drain(s, fits) == s)
  {
    DrainExtends(s, fits);
  }

  lemma StepUsesOpening(s: Channel, e: Event)
    requires Alert(s) && Served(s) && PlainLast(s) && s.held != [] && Step(s, e).held != []
    ensures (if Overtakes(s, e) then 1 else 0) + Openings(Step(s, e)) <= Openings(s)
  {
    hide Send, Get, Drain, Alert;
    match e
    case SendEv(c) => SendUsesOpening(s, c);
    case GetEv(fits) => GetOpensNothing(s, fits);
    case TickEv(fits) => DrainExtends(s, fits);
    case _ =>
  }

  /**
    While commands are held, never behind an empty queue, at most one newer command has its
    answer queued ahead of them.
   */
  lemma {:induction false} AtMostOneOvertakes(s: Channel, es: seq<Event>)
    requires Alert(s) && PlainLast(s) && AlwaysHolding(s, es) && AlwaysServed(s, es)
    ensures OvertakesIn(s, es) <= Openings(s) <= 1
    decreases |es|
  {
    hide Step, Alert, Served, Overtakes, PlainLast, Openings;
    OpeningsBound(s);
    if es != [] {
      var t := Step(s, es[0]);
      assert t.held != [];
      StepKeepsAlert(s, es[0]);
      StepPlainLast(s, es[0]);
      StepUsesOpening(s, es[0]);
      AtMostOneOvertakes(t, es[1..]);
    }
  }

  lemma OpeningsBound(s: Channel)
    ensures Openings(s) <= 1
  {
  }
}
