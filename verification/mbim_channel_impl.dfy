/** The control channel as the source keeps it: flags and circular buffers updated in place. */
module MbimChannelImpl {
  import opened Options
  import opened Rings
  import opened MbimChannel
  import opened MbimChannelProofs

  class ControlChannel {
    const resp: Ring<Message>
    const held: Ring<Command>
    const bridge: Ring<BridgeInd>
    var sms: seq<nat>
    var pending: bool
    var armed: bool
    var inGet: bool
    var epUp: bool
    var lteAttach: bool
    var syncSent: bool
    var syncPending: bool
    var last: Option<Message>
    var nextIndex: nat
    var outstanding: nat
    var rung: nat

    /** Everything the channel is made of; its parts never change identity. */
    ghost function Repr(): set<object> { {this, resp, resp.slots, held, held.slots, bridge, bridge.slots} }

    /** The three rings are well formed and distinct. */
    ghost predicate Wired()
      reads Repr()
    {
      && resp.Valid() && held.Valid() && bridge.Valid()
      && resp as object != held && resp as object != bridge && held as object != bridge
      && resp.slots as object != held.slots && resp.slots as object != bridge.slots
          && held.slots as object != bridge.slots
    }

    /** The channel value these buffers and flags stand for. */
    ghost function Abs(): (s: Channel)
      requires Wired()
      reads Repr()
      ensures |s.resp| <= CAPACITY && |s.held| <= CAPACITY && |s.bridge| <= CAPACITY
    {
      Channel(resp.Contents(), held.Contents(),
              Bell(pending, armed, inGet, epUp, outstanding, rung),
              Sources(lteAttach, syncSent, syncPending, bridge.Contents(), sms, nextIndex),
              last)
    }

    /** What holds between events, whatever the host sends: no message waits unannounced. */
    ghost predicate Valid()
      reads Repr()
    {
      Wired() && Alert(Abs())
    }

    constructor ()
      ensures Valid() && fresh(Repr()) && Abs() == INITIAL
    {
      resp := new Ring<Message>(OpenDone(0));
      held := new Ring<Command>(Command(OtherMsg, 0, 0, false, false));
      bridge := new Ring<BridgeInd>(Searching);
      sms, pending, armed, inGet, epUp := [], false, false, false, false;
      lteAttach, syncSent, syncPending, last := false, false, false, None;
      nextIndex, outstanding, rung := 1, 0, 0;
    }

    method MarkNotificationNeeded()
      requires Wired()
      modifies this
      ensures Wired() && Abs() == MarkNeeded(old(Abs()))
    {
      pending := true;
    }

    method RespEnqueue(m: Message)
      requires Wired()
      modifies Repr()
      ensures Wired() && Abs() == Push(old(Abs()), m)
    {
      var ok := resp.Enqueue(m);
    }

    method TrySendDeferredNotification()
      requires Wired()
      modifies this
      ensures Wired() && Abs() == TrySend(old(Abs()))
    {
      if !epUp { return; }
      if !pending { return; }
      if inGet { return; }
      if armed { return; }
      if resp.Empty() {
        pending := false;
        return;
      }
      outstanding, rung := outstanding + 1, rung + 1;
      armed := true;
      pending := false;
    }

    /** Looks for anything but an unsolicited indication in the response queue. */
    method RespHasCommandResponse() returns (b: bool)
      requires Wired()
      ensures b == HasCommandResponse(Abs())
    {
      var idx := resp.head;
      ghost var k, n := 0, |resp.Contents()|;
      while idx != resp.tail
        invariant 0 <= k <= n && idx == SlotOf(resp.head, k)
        invariant forall i :: 0 <= i < k ==> IsIndication(resp.Contents()[i])
        decreases n - k
      {
        UnrolledAt(resp.slots[..], resp.head, n, k);
        if !IsIndication(resp.slots[idx]) {
          assert resp.Contents()[k] in Abs().resp;
          return true;
        }
        idx := Next(idx);
        k := k + 1;
      }
      return false;
    }

    method Hold(c: Command) returns (ok: bool)
      requires Wired()
      modifies Repr()
      ensures Wired() && Abs() == HoldCommand(old(Abs()), c)
      ensures ok <==> |old(Abs()).held| < CAPACITY
    {
      ok := held.Enqueue(c);
    }

    /** QMUX CTL_SYNC: answer at once, defer one indication until it has been sent. */
    method HandleCtlSync(c: Command)
      requires Wired()
      modifies Repr()
      ensures Wired() && Abs() == CtlSync(old(Abs()), c)
    {
      if resp.Full() {
        return;
      }
      RespEnqueue(CommandDone(c.tid));
      if !syncSent {
        syncPending := true;
      }
      MarkNotificationNeeded();
      TrySendDeferredNotification();
    }

    method HandleCommand(c: Command)
      requires Wired()
      modifies Repr()
      ensures Wired() && Abs() == PrepareCommand(old(Abs()), c)
    {
      hide CtlSync;
      last := None;
      if c.len < COMMAND_HEADER {
        return;
      }
      if c.ctlSync {
        HandleCtlSync(c);
        return;
      }
      last := Some(CommandDone(c.tid));
      if c.registerSet {
        var ok := bridge.Enqueue(Searching);
      }
    }

    method HandleOpen(tid: nat)
      requires Wired()
      modifies Repr()
      ensures Wired() && Abs() == Open(old(Abs()), tid)
    {
      syncSent, syncPending := false, false;
      last := Some(OpenDone(tid));
    }

    method HandleClose(tid: nat)
      requires Wired()
      modifies Repr()
      ensures Wired() && Abs() == Close(old(Abs()), tid)
    {
      syncSent, syncPending := false, false;
      lteAttach, pending, armed, inGet := false, false, false, false;
      last := Some(CloseDone(tid));
    }

    method PrepareResponse(c: Command)
      requires Wired()
      modifies Repr()
      ensures Wired() && Abs() == Prepare(old(Abs()), c)
    {
      hide PrepareCommand, Open, Close;
      if c.len < MESSAGE_HEADER {
        return;
      }
      match c.kind {
        case OpenMsg =>
          HandleOpen(c.tid);
        case CloseMsg =>
          HandleClose(c.tid);
        case CommandMsg =>
          HandleCommand(c);
        case OtherMsg =>
          last := None;
      }
    }

    /** Queues the prepared answer, if there is one. */
    method RespondPrepared()
      requires Wired()
      modifies Repr()
      ensures Wired() && Abs() == Respond(old(Abs()))
    {
      if last.Some? {
        RespEnqueue(last.value);
        MarkNotificationNeeded();
      }
    }

    /** SEND: the message is answered behind what is queued, or held behind a pending answer. */
    method OnSendEncapsulatedCommand(c: Command)
      requires Valid()
      modifies Repr()
      ensures Valid() && Abs() == Send(old(Abs()), c)
      ensures old(Abs()).resp <= Abs().resp && old(Abs()).held <= Abs().held
      ensures old(Inv(Abs())) && LongEnough(SendEv(c)) ==> Inv(Abs())
    {
      Sent(Abs(), c);
      hide Prepare, Respond, TrySend, HoldCommand, HasCommandResponse, Alert, Inv;
      var behind := RespHasCommandResponse();
      if KindOf(c) == CommandMsg && behind {
        var ok := Hold(c);
        return;
      }
      PrepareResponse(c);
      RespondPrepared();
      TrySendDeferredNotification();
    }

    method ProcessHeldCommand()
      requires Wired()
      modifies Repr()
      ensures Wired() && Abs() == ProcessHeld(old(Abs()))
    {
      hide Prepare, Respond;
      var c := held.Dequeue();
      if c.None? {
        return;
      }
      ghost var taken := Abs();
      assert taken == old(Abs()).(held := old(Abs()).held[1..]);
      PrepareResponse(c.value);
      RespondPrepared();
    }

    method EnqueueIndication(what: Indication)
      requires Wired()
      modifies Repr()
      ensures Wired() && Abs() == PushIndication(old(Abs()), what)
    {
      if resp.Full() {
        return;
      }
      RespEnqueue(Indicate(what));
      MarkNotificationNeeded();
    }

    method DrainSyncIndication()
      requires Wired()
      modifies Repr()
      ensures Wired() && Abs() == DrainSync(old(Abs()))
    {
      if !resp.Full() && syncPending {
        syncPending := false;
        syncSent := true;
        RespEnqueue(Indicate(SyncInd));
        MarkNotificationNeeded();
      }
    }

    method DrainLteAttach()
      requires Wired()
      modifies Repr()
      ensures Wired() && Abs() == DrainLte(old(Abs()))
    {
      if !resp.Full() && lteAttach {
        EnqueueIndication(LteAttachStatus);
        lteAttach := false;
      }
    }

    method TakeBridgeIndication()
      requires Wired() && Abs().bridge != []
      modifies Repr()
      ensures Wired() && Abs() == TakeBridge(old(Abs()))
    {
      hide PushIndication;
      var next := bridge.Dequeue();
      if next.value == Attached || next.value == Detached {
        lteAttach := true;
      }
      EnqueueIndication(FromBridge(next.value));
    }

    method DrainBridgeIndications()
      requires Wired()
      modifies Repr()
      ensures Wired() && Abs() == DrainBridge(old(Abs()))
    {
      hide TakeBridge;
      while !resp.Full() && !bridge.Empty()
        invariant Wired() && DrainBridge(Abs()) == DrainBridge(old(Abs()))
        decreases |Abs().bridge|
      {
        TakeBridgeShrinks(Abs());
        TakeBridgeIndication();
      }
    }

    /** Stores and announces the oldest incoming SMS, unless the store refuses it. */
    method TakeOneSms()
      requires Wired() && Abs().sms != []
      modifies Repr()
      ensures Wired() && Abs() == TakeSms(old(Abs()))
    {
      hide PushIndication;
      var len := sms[0];
      sms := sms[1..];
      if !Storable(len) {
        return;
      }
      var index := nextIndex;
      nextIndex := nextIndex + 1;
      EnqueueIndication(SmsStored(index));
    }

    /** Empties the SMS queue as far as there is room; reports whether any message was stored. */
    method DrainSmsQueue() returns (arrived: bool)
      requires Wired()
      modifies Repr()
      ensures Wired() && Abs() == DrainSms(old(Abs()))
      ensures arrived <==> Abs().nextIndex > old(Abs()).nextIndex
    {
      hide TakeSms;
      var first := nextIndex;
      while !resp.Full() && sms != []
        invariant Wired() && DrainSms(Abs()) == DrainSms(old(Abs()))
        decreases |Abs().sms|
      {
        TakeSmsShrinks(Abs());
        TakeOneSms();
      }
      arrived := nextIndex > first;
    }

    method DrainPendingIndications(fits: bool)
      requires Wired()
      modifies Repr()
      ensures Wired() && Abs() == Drain(old(Abs()), fits)
    {
      hide DrainSync, DrainLte, DrainBridge, DrainSms, PushIndication;
      if !held.Empty() {
        return;
      }
      DrainSyncIndication();
      DrainLteAttach();
      DrainBridgeIndications();
      var arrived := DrainSmsQueue();
      if arrived && !resp.Full() && fits {
        EnqueueIndication(SmsRead);
      }
    }

    /** First half of a GET: the head message, and the answer to a held command if none is left. */
    method TakeHead() returns (m: Option<Message>)
      requires Wired()
      modifies Repr()
      ensures Wired() && Abs() == TakeResponse(old(Abs()))
      ensures m == if old(Abs()).resp == [] then None else Some(old(Abs()).resp[0])
    {
      hide ProcessHeld;
      m := resp.Dequeue();
      inGet := true;
      outstanding := 0;
      if armed {
        armed := false;
      }
      if resp.Empty() && !held.Empty() {
        ProcessHeldCommand();
      }
    }

    /** Returns the message handed to the host, if there was one. */
    method OnGetEncapsulatedResponse(fits: bool) returns (m: Option<Message>)
      requires Valid()
      modifies Repr()
      ensures Valid() && Abs() == Get(old(Abs()), fits) && rung == old(rung)
      ensures m == if old(Abs()).resp == [] then None else Some(old(Abs()).resp[0])
      ensures old(Inv(Abs())) ==> Inv(Abs())
    {
      Gotten(Abs(), fits);
      hide Drain, TakeResponse, EndGet, Alert, Inv;
      m := TakeHead();
      DrainPendingIndications(fits);
      FinishGet();
    }

    method FinishGet()
      requires Wired()
      modifies Repr()
      ensures Wired() && Abs() == EndGet(old(Abs()))
    {
      inGet := false;
      if !resp.Empty() {
        MarkNotificationNeeded();
      }
    }

    /** TICK: afterwards, with the endpoint up, whatever is queued has its doorbell rung. */
    method Ep0Tick(fits: bool)
      requires Valid()
      modifies Repr()
      ensures Valid() && Abs() == Tick(old(Abs()), fits)
      ensures epUp && Abs().resp != [] ==> armed
      ensures old(Inv(Abs())) ==> Inv(Abs())
    {
      Ticked(Abs(), fits);
      hide Drain, TrySend, Alert, Inv;
      DrainPendingIndications(fits);
      if !resp.Empty() {
        MarkNotificationNeeded();
        TrySendDeferredNotification();
      }
    }
  }

  lemma Sent(s: Channel, c: Command)
    requires Alert(s)
    ensures Alert(Send(s, c)) && s.resp <= Send(s, c).resp && s.held <= Send(s, c).held
    ensures Inv(s) && LongEnough(SendEv(c)) ==> Inv(Send(s, c))
  {
    hide Send, Inv;
    SendKeepsAlert(s, c);
    if Inv(s) && LongEnough(SendEv(c)) { SendKeepsInv(s, c); }
  }

  lemma Gotten(s: Channel, fits: bool)
    requires Alert(s)
    ensures Alert(Get(s, fits)) && Get(s, fits).rung == s.rung && (Inv(s) ==> Inv(Get(s, fits)))
  {
    hide Get, Inv;
    GetKeepsAlert(s, fits);
    if Inv(s) { GetKeepsInv(s, fits); }
  }

  lemma Ticked(s: Channel, fits: bool)
    requires Alert(s)
    ensures var t := Tick(s, fits);
            Alert(t) && t.epUp == s.epUp && (s.epUp && t.resp != [] ==> t.armed) && (Inv(s) ==> Inv(t))
  {
    hide Drain, Inv, AllCommands;
    DrainExtends(s, fits);
    TickKeepsAlert(s, fits);
    if Inv(s) { TickKeepsInv(s, fits); }
  }

  lemma TakeBridgeShrinks(s: Channel)
    requires !RespFull(s) && s.bridge != []
    ensures DrainBridge(s) == DrainBridge(TakeBridge(s)) && |TakeBridge(s).bridge| < |s.bridge|
  {
  }

  lemma TakeSmsShrinks(s: Channel)
    requires !RespFull(s) && s.sms != []
    ensures DrainSms(s) == DrainSms(TakeSms(s)) && |TakeSms(s).sms| < |s.sms|
  {
  }
}
