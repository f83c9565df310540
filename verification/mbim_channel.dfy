/**
  The MBIM control channel of `src/core.c`: a bounded response queue, a bounded
  queue of held commands, a one-deep "response available" doorbell, and the three
  events that drive them: SEND_ENCAPSULATED_COMMAND, GET_ENCAPSULATED_RESPONSE and
  the periodic tick.

  This module is the channel on values: the state, one function per routine of the
  source, and `Step`, the transition made by one event.  `MbimChannelProofs` proves
  what every run keeps; `MbimChannelImpl` is the same channel on circular buffers.
 */
module MbimChannel {
  import opened Options
  import opened Rings

  /** MBIM message type of a host message; `OtherMsg` is any type not handled. */
  datatype Kind = OpenMsg | CloseMsg | CommandMsg | OtherMsg

  /**
    A host message.  `ctlSync` marks a QMUX CTL_SYNC command, which is answered through
    the vendor path; `registerSet` marks a REGISTER_STATE set, which makes the bridge
    raise a "searching" indication.
   */
  datatype Command = Command(kind: Kind, len: nat, tid: nat, ctlSync: bool, registerSet: bool)

  datatype BridgeInd = Searching | Deregistered | Home | Attaching | Attached | Detached

  datatype Indication = SyncInd | LteAttachStatus | FromBridge(ind: BridgeInd) | SmsStored(index: nat) | SmsRead

  /** A message for the host. */
  datatype Message =
    | OpenDone(tid: nat)
    | CloseDone(tid: nat)
    | CommandDone(tid: nat)
    | Indicate(what: Indication)

  /** Length of the shortest MBIM_COMMAND_MSG the handlers accept. */
  const COMMAND_HEADER := 48
  /** Length of the common message header. */
  const MESSAGE_HEADER := 12
  /** Longest SMS PDU the store takes. */
  const SMS_PDU_MAX := 256

  /**
    The doorbell.  `outstanding` counts the rings since the host last issued a GET, and `rung`
    all of them: both describe what the interrupt endpoint has sent.
   */
  datatype Bell = Bell(pending: bool, armed: bool, inGet: bool, epUp: bool, outstanding: nat, rung: nat)

  /** What waits to become an indication. */
  datatype Sources = Sources(
    lteAttach: bool,
    syncSent: bool,
    syncPending: bool,
    bridge: seq<BridgeInd>,
    sms: seq<nat>,
    nextIndex: nat)

  /** `last` is the content of the response buffer; a message too short to have a header leaves it alone. */
  datatype Channel = Channel(resp: seq<Message>, held: seq<Command>, bell: Bell, src: Sources, last: Option<Message>) {
    const pending := bell.pending
    const armed := bell.armed
    const inGet := bell.inGet
    const epUp := bell.epUp
    const outstanding := bell.outstanding
    const rung := bell.rung
    const lteAttach := src.lteAttach
    const syncSent := src.syncSent
    const syncPending := src.syncPending
    const bridge := src.bridge
    const sms := src.sms
    const nextIndex := src.nextIndex
  }

  const INITIAL :=
    Channel([], [], Bell(false, false, false, false, 0, 0), Sources(false, false, false, [], [], 1), None)

  predicate RespFull(s: Channel) { |s.resp| >= CAPACITY }

  predicate IsIndication(m: Message) { m.Indicate? }

  /** Whether the response queue still holds the answer to an earlier command. */
  predicate HasCommandResponse(s: Channel) { exists m :: m in s.resp && !IsIndication(m) }

  /** The type the dispatcher sees: it needs four bytes to read one. */
  function KindOf(c: Command): Kind { if c.len < 4 then OtherMsg else c.kind }

  /** Appends to the response queue; a full queue drops the message. */
  function Push(s: Channel, m: Message): Channel {
    if RespFull(s) then s else s.(resp := s.resp + [m])
  }

  function MarkNeeded(s: Channel): Channel { s.(bell := s.bell.(pending := true)) }

  /** Queues an indication, unless the response queue is full. */
  function PushIndication(s: Channel, what: Indication): Channel {
    if RespFull(s) then s else MarkNeeded(Push(s, Indicate(what)))
  }

  /** Rings the doorbell if one is wanted, none is outstanding and no GET is in progress. */
  function TrySend(s: Channel): Channel {
    if !s.epUp || !s.pending || s.inGet || s.armed then s
    else if s.resp == [] then s.(bell := s.bell.(pending := false))
    else s.(bell := s.bell.(armed := true, pending := false, outstanding := s.outstanding + 1, rung := s.rung + 1))
  }

  /** QMUX CTL_SYNC: the answer goes straight to the queue, one indication is deferred. */
  function CtlSync(s: Channel, c: Command): Channel {
    if RespFull(s) then s
    else
      var t := s.(resp := s.resp + [CommandDone(c.tid)], src := s.src.(syncPending := !s.syncSent || s.syncPending));
      TrySend(MarkNeeded(t))
  }

  /** A REGISTER_STATE set queues a "searching" indication in the bridge. */
  function RaiseSearching(s: Channel): Channel {
    if |s.bridge| >= CAPACITY then s else s.(src := s.src.(bridge := s.bridge + [Searching]))
  }

  /** A COMMAND message: every one long enough to have a command header is answered. */
  function PrepareCommand(s: Channel, c: Command): Channel {
    if c.len < COMMAND_HEADER then s.(last := None)
    else if c.ctlSync then CtlSync(s.(last := None), c)
    else if c.registerSet then RaiseSearching(s.(last := Some(CommandDone(c.tid))))
    else s.(last := Some(CommandDone(c.tid)))
  }

  function Open(s: Channel, tid: nat): Channel {
    s.(last := Some(OpenDone(tid)), src := s.src.(syncSent := false, syncPending := false))
  }

  /** CLOSE forgets the doorbell state, a doorbell that is still unanswered included. */
  function Close(s: Channel, tid: nat): Channel {
    s.(last := Some(CloseDone(tid)),
       bell := s.bell.(pending := false, armed := false, inGet := false),
       src := s.src.(syncSent := false, syncPending := false, lteAttach := false))
  }

  /** Dispatch of one host message; the answer, if any, is left in `last`. */
  function Prepare(s: Channel, c: Command): Channel {
    if c.len < MESSAGE_HEADER then s
    else match c.kind
      case OpenMsg => Open(s, c.tid)
      case CloseMsg => Close(s, c.tid)
      case CommandMsg => PrepareCommand(s, c)
      case OtherMsg => s.(last := None)
  }

  /** Queues the prepared answer and asks for a doorbell. */
  function Respond(s: Channel): Channel {
    if s.last.Some? then MarkNeeded(Push(s, s.last.value)) else s
  }

  function HoldCommand(s: Channel, c: Command): Channel {
    if |s.held| >= CAPACITY then s else s.(held := s.held + [c])
  }

  /** SEND_ENCAPSULATED_COMMAND. */
  function Send(s: Channel, c: Command): Channel {
    if KindOf(c) == CommandMsg && HasCommandResponse(s) then HoldCommand(s, c)
    else TrySend(Respond(Prepare(s, c)))
  }

  /** Answers the oldest held command; runs inside a GET. */
  function ProcessHeld(s: Channel): Channel {
    if s.held == [] then s
    else Respond(Prepare(s.(held := s.held[1..]), s.held[0]))
  }

  function DrainSync(s: Channel): Channel {
    if !RespFull(s) && s.syncPending
    then MarkNeeded(Push(s.(src := s.src.(syncPending := false, syncSent := true)), Indicate(SyncInd)))
    else s
  }

  function DrainLte(s: Channel): Channel {
    if !RespFull(s) && s.lteAttach
    then PushIndication(s.(src := s.src.(lteAttach := false)), LteAttachStatus)
    else s
  }

  /** One turn of the bridge loop. */
  function TakeBridge(s: Channel): Channel
    requires s.bridge != []
  {
    var ind := s.bridge[0];
    var attach := s.lteAttach || ind == Attached || ind == Detached;
    PushIndication(s.(src := s.src.(bridge := s.bridge[1..], lteAttach := attach)), FromBridge(ind))
  }

  function DrainBridge(s: Channel): Channel
    decreases |s.bridge|
  {
    if RespFull(s) || s.bridge == [] then s else DrainBridge(TakeBridge(s))
  }

  predicate Storable(len: nat) { 0 < len <= SMS_PDU_MAX }

  /** One turn of the SMS loop: a PDU the store refuses is dropped. */
  function TakeSms(s: Channel): Channel
    requires s.sms != []
  {
    var t := s.(src := s.src.(sms := s.sms[1..]));
    if Storable(s.sms[0])
    then PushIndication(t.(src := t.src.(nextIndex := t.nextIndex + 1)), SmsStored(t.nextIndex))
    else t
  }

  function DrainSms(s: Channel): Channel
    decreases |s.sms|
  {
    if RespFull(s) || s.sms == [] then s else DrainSms(TakeSms(s))
  }

  /** Pushes the new messages themselves if one arrived; `fits` is whether they fit the push buffer. */
  function DrainRead(before: Channel, s: Channel, fits: bool): Channel {
    if s.nextIndex > before.nextIndex && !RespFull(s) && fits then PushIndication(s, SmsRead) else s
  }

  /** Moves pending indications into the response queue; held commands go first. */
  function Drain(s: Channel, fits: bool): Channel {
    if s.held != [] then s
    else
      var t := DrainBridge(DrainLte(DrainSync(s)));
      DrainRead(t, DrainSms(t), fits)
  }

  /** First half of a GET: take the head message; if that empties the queue, answer one held command. */
  function TakeResponse(s: Channel): Channel {
    var a := s.(resp := if s.resp == [] then [] else s.resp[1..],
                bell := s.bell.(inGet := true, armed := false, outstanding := 0));
    if a.resp == [] && a.held != [] then ProcessHeld(a) else a
  }

  /** The end of a GET: what is left to read asks for a doorbell. */
  function EndGet(s: Channel): Channel {
    var c := s.(bell := s.bell.(inGet := false));
    if c.resp != [] then MarkNeeded(c) else c
  }

  /** What a GET does to the channel; the message at the head is the one delivered. */
  function Get(s: Channel, fits: bool): Channel {
    EndGet(Drain(TakeResponse(s), fits))
  }

  function Tick(s: Channel, fits: bool): Channel {
    var t := Drain(s, fits);
    if t.resp != [] then TrySend(MarkNeeded(t)) else t
  }

  /**
    Events: the host's two requests, the tick, the endpoints coming up, and the bridge
    poll or the IMS thread replacing what waits in the indication and SMS queues.
   */
  datatype Event =
    | SendEv(cmd: Command)
    | GetEv(fits: bool)
    | TickEv(fits: bool)
    | EndpointUp
    | Arrivals(inds: seq<BridgeInd>, pdus: seq<nat>)

  function Step(s: Channel, e: Event): Channel {
    match e
    case SendEv(c) => Send(s, c)
    case GetEv(fits) => Get(s, fits)
    case TickEv(fits) => Tick(s, fits)
    case EndpointUp => s.(bell := s.bell.(epUp := true))
    case Arrivals(inds, pdus) =>
      s.(src := s.src.(bridge := if |inds| <= CAPACITY then inds else inds[..CAPACITY], sms := pdus))
  }

  /** The message an event hands to the host. */
  function Delivered(s: Channel, e: Event): seq<Message> {
    if e.GetEv? && s.resp != [] then [s.resp[0]] else []
  }

  function Run(s: Channel, es: seq<Event>): Channel
    decreases |es|
  {
    if es == [] then s else Run(Step(s, es[0]), es[1..])
  }

  function Deliveries(s: Channel, es: seq<Event>): seq<Message>
    decreases |es|
  {
    if es == [] then [] else Delivered(s, es[0]) + Deliveries(Step(s, es[0]), es[1..])
  }
}
