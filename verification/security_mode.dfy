/**
  Downlink NAS handling of `src/ue_engine/ue_engine.c` as far as it touches security: the
  current and the non-current NAS context, unwrapping of every envelope type, the dispatch
  of the decoded message, the Authentication Request, the check of a Security Mode Command
  under the keys it selects, and the fingerprint by which a repeated command is recognised.

  The NAS decoder (with the challenge computation of the SIM), the key derivation and the
  encoders of the replies are arbitrary functions.
 */
module SecurityMode {
  import opened Options
  import opened Bytes
  import opened NasSecurity
  import Cmac

  /** Algorithms and key set identifier as decoded; either may be missing. */
  datatype Command = Command(algs: Option<(nat, nat)>, ngksi: Option<nat>)

  /**
    An Authentication Request: whether RAND, AUTN and the SIM's secrets are all there, whether
    the network's code is right, its sequence number, and the keys the challenge leads to.
   */
  datatype Challenge = Challenge(complete: bool, genuine: bool, sqn: nat, keys: Keys, ngksi: Option<nat>)

  /** A decoded message; `Other` does not touch the security state, its replies are uplink events. */
  datatype Nas = Smc(cmd: Command) | Auth(challenge: Challenge) | Other

  /** What the engine keeps of the last protected downlink envelope. */
  datatype Envelope = Envelope(sht: Byte, mac: seq<Byte>, sqn: Byte)

  datatype Fingerprint = Fingerprint(mac: seq<Byte>, sqn: Byte, enc: EncAlg, integrity: IntAlg, ngksi: nat)

  datatype Security = Security(
    current: Context,
    spare: Context,
    spareValid: bool,
    envelope: Option<Envelope>,
    last: Option<Fingerprint>,
    payload: seq<Byte>,
    sqn: Option<nat>)

  /** Encoded replies are empty when they could not be encoded. */
  datatype Environment = Environment(
    aes: Aes,
    derive: (seq<Byte>, IntAlg, EncAlg) -> (Block, Block),
    decode: seq<Byte> -> Option<Nas>,
    modeComplete: seq<Byte>,
    authFailure: Challenge -> seq<Byte>,
    authResync: (Challenge, nat) -> seq<Byte>,
    authResponse: Challenge -> seq<Byte>)

  const CIPHERED_TYPE := 2
  const NEW_CONTEXT := 3
  const NEW_CONTEXT_CIPHERED := 4
  const PAYLOAD_MAX := 256
  const UPLINK_ROOM := 8256

  /** (ciphering, integrity) the UE uses for the numbers the network selected. */
  function Selected(cmd: Command): (EncAlg, IntAlg) {
    match cmd.algs
    case None => (Nea0, Nia2)
    case Some((enc, integrity)) => (if enc == 2 then Nea2 else Nea0, if integrity == 0 then Nia0 else Nia2)
  }

  function NgksiOf(cmd: Command): nat { if cmd.ngksi.Some? then cmd.ngksi.value else 0 }

  function FingerprintOf(cmd: Command, e: Envelope): Fingerprint {
    Fingerprint(e.mac, e.sqn, Selected(cmd).0, Selected(cmd).1, NgksiOf(cmd))
  }

  predicate Duplicate(s: Security, cmd: Command) {
    s.envelope.Some? && s.envelope.value.sht == NEW_CONTEXT && s.last == Some(FingerprintOf(cmd, s.envelope.value))
  }

  datatype Target = NoContext | Current | Spare

  function TargetOf(s: Security, ngksi: nat): Target {
    if s.current.active && s.current.ngksi == ngksi then Current
    else if s.spareValid && s.spare.ngksi == ngksi then Spare
    else NoContext
  }

  /** The context under the newly derived keys and selected algorithms. */
  function Rekeyed(env: Environment, base: Context, cmd: Command): Context {
    var (enc, integrity) := Selected(cmd);
    var keys := env.derive(base.keys.kamf, integrity, enc);
    base.(keys := base.keys.(integrity := keys.0, ciphering := keys.1), intAlg := integrity, encAlg := enc, bearer := 1)
  }

  datatype Verdict = Refused | VerifiedAtOverflow | VerifiedAtZero

  /** The command's code under the new keys, first at the stored overflow counter, then at zero. */
  function Verify(env: Environment, s: Security, base: Context, cmd: Command): Verdict {
    if s.envelope.None? || s.envelope.value.sht != NEW_CONTEXT || s.payload == [] then Refused
    else
      var ctx := Rekeyed(env, base, cmd);
      var e := s.envelope.value;
      var covered := [e.sqn] + s.payload;
      var here := ComputeMac(env.aes, ctx.intAlg, Count(base.dl.overflow, e.sqn).Value(), 1, DOWNLINK,
          ctx.keys.integrity, covered);
      var zero := ComputeMac(env.aes, ctx.intAlg, Count(0, e.sqn).Value(), 1, DOWNLINK, ctx.keys.integrity, covered);
      if here == e.mac then VerifiedAtOverflow else if zero == e.mac then VerifiedAtZero else Refused
  }

  /** The chosen context once the command is verified. */
  function Activated(env: Environment, base: Context, cmd: Command, verdict: Verdict): Context {
    var ctx := Rekeyed(env, base, cmd);
    var named := if cmd.ngksi.Some? then ctx.(ngksi := cmd.ngksi.value) else ctx;
    var counted := if verdict == VerifiedAtZero then named.(dl := Count(0, 0)) else named;
    counted.(active := true)
  }

  /** Takes the verified context into use; the non-current one becomes current with a fresh uplink COUNT. */
  function Adopt(env: Environment, s: Security, cmd: Command, target: Target, verdict: Verdict): Security {
    if target == Spare then
      var ctx := Activated(env, s.spare, cmd, verdict);
      s.(spare := ctx, spareValid := false, current := ctx.(ul := Count(0, 0)))
    else s.(current := Activated(env, s.current, cmd, verdict))
  }

  function Remember(s: Security, cmd: Command): Security {
    if s.envelope.Some? && s.envelope.value.sht == NEW_CONTEXT
    then s.(last := Some(FingerprintOf(cmd, s.envelope.value)))
    else s
  }

  /** The reply goes out under the current context. */
  function Send(env: Environment, s: Security, sht: Byte, plain: seq<Byte>): Security {
    s.(current := Protect(env.aes, s.current, sht, plain, UPLINK_ROOM).1)
  }

  predicate Accepts(env: Environment, s: Security, cmd: Command) {
    var target := TargetOf(s, NgksiOf(cmd));
    target != NoContext
    && (Duplicate(s, cmd) || Verify(env, s, if target == Spare then s.spare else s.current, cmd) != Refused)
  }

  function HandleCommand(env: Environment, s: Security, cmd: Command): Security {
    var target := TargetOf(s, NgksiOf(cmd));
    if !Accepts(env, s, cmd) then s
    else
      var base := if target == Spare then s.spare else s.current;
      var t := if Duplicate(s, cmd) then s else Adopt(env, s, cmd, target, Verify(env, s, base, cmd));
      Send(env, Remember(t, cmd), NEW_CONTEXT_CIPHERED, env.modeComplete)
  }

  // ----------------------------------------------------- authentication

  /** A genuine challenge whose sequence number is not behind the highest one accepted. */
  predicate Admits(s: Security, c: Challenge) {
    c.complete && c.genuine && (s.sqn.Some? ==> s.sqn.value <= c.sqn)
  }

  /** The non-current context an admitted challenge leads to. */
  function Provisional(s: Security, c: Challenge): Context {
    s.current.(keys := c.keys, active := true, intAlg := Nia2, encAlg := Nea0, bearer := 1,
      ngksi := if c.ngksi.Some? then c.ngksi.value else 0, ul := Count(0, 0), dl := Count(0, 0))
  }

  /** The new keys go into the current context as well, whether or not it is in use. */
  function Provision(s: Security, c: Challenge): Security {
    s.(sqn := Some(c.sqn), current := s.current.(keys := c.keys), spare := Provisional(s, c), spareValid := true)
  }

  function HandleChallenge(env: Environment, s: Security, c: Challenge): Security {
    if !c.complete then s
    else if !c.genuine then Send(env, s, CIPHERED_TYPE, env.authFailure(c))
    else if s.sqn.Some? && c.sqn < s.sqn.value then Send(env, s, CIPHERED_TYPE, env.authResync(c, s.sqn.value))
    else Send(env, Provision(s, c), CIPHERED_TYPE, env.authResponse(c))
  }

  // ----------------------------------------------------- every downlink

  function EnvelopeOf(pdu: seq<Byte>): Envelope
    requires |pdu| >= HEADER
  {
    Envelope(pdu[1], pdu[2..6], pdu[6])
  }

  /** Bookkeeping on arrival of an envelope of type 3. */
  function Arrive(s: Security, pdu: seq<Byte>): Security
    requires |pdu| >= HEADER
  {
    s.(envelope := Some(EnvelopeOf(pdu)), payload := if |pdu| - HEADER <= PAYLOAD_MAX then pdu[7..] else [])
  }

  /**
    The message inside an envelope, and the state after unwrapping it.  Type 3 is taken apart
    without a check, any other protected type needs the current context, and everything else
    is a plain message; nothing clears the envelope kept from before.
   */
  function Unwrap(env: Environment, s: Security, pdu: seq<Byte>): (Security, Option<seq<Byte>>) {
    if |pdu| < 2 || pdu[0] != EPD_5GMM || pdu[1] == 0 then (s, Some(pdu))
    else if pdu[1] == NEW_CONTEXT then
      if |pdu| < HEADER then (s, None) else (Arrive(s, pdu), Some(pdu[7..]))
    else if !s.current.active then (s, None)
    else
      var r := Open(env.aes, s.current, DOWNLINK, pdu);
      if !r.ok then (s, None)
      else (s.(current := r.ctx, envelope := Some(EnvelopeOf(pdu))), Some(r.data[r.start..]))
  }

  function Dispatch(env: Environment, s: Security, message: Nas): Security {
    match message
    case Smc(cmd) => HandleCommand(env, s, cmd)
    case Auth(c) => HandleChallenge(env, s, c)
    case Other => s
  }

  function Deliver(env: Environment, s: Security, pdu: seq<Byte>): Security {
    var (t, plain) := Unwrap(env, s, pdu);
    if plain.None? then t
    else
      match env.decode(plain.value)
      case None => t
      case Some(message) => Dispatch(env, t, message)
  }

  // ------------------------------------------------------------- replay

  predicate NewContextPdu(pdu: seq<Byte>) { |pdu| >= HEADER && pdu[0] == EPD_5GMM && pdu[1] == NEW_CONTEXT }

  predicate IsCommand(env: Environment, pdu: seq<Byte>) {
    NewContextPdu(pdu) && env.decode(pdu[7..]).Some? && env.decode(pdu[7..]).value.Smc?
  }

  function CommandOf(env: Environment, pdu: seq<Byte>): Command
    requires IsCommand(env, pdu)
  {
    env.decode(pdu[7..]).value.cmd
  }

  /** The PDU decodes to a command whose fingerprint is stored and for whose key set there is a context. */
  predicate Remembered(env: Environment, s: Security, pdu: seq<Byte>) {
    && IsCommand(env, pdu)
    && s.last == Some(FingerprintOf(CommandOf(env, pdu), EnvelopeOf(pdu)))
    && TargetOf(s, NgksiOf(CommandOf(env, pdu))) != NoContext
  }

  /** Everything of the security state but the COUNTs, the last envelope, its payload and the challenge number. */
  predicate SameKeys(s: Security, t: Security) {
    t == s.(current := s.current.(ul := t.current.ul, dl := t.current.dl), envelope := t.envelope,
            payload := t.payload, sqn := t.sqn)
  }

  /** An accepted command is remembered, whichever context it was for. */
  lemma AcceptedIsRemembered(env: Environment, s: Security, pdu: seq<Byte>)
    requires IsCommand(env, pdu) && Accepts(env, Arrive(s, pdu), CommandOf(env, pdu))
    ensures Remembered(env, Deliver(env, s, pdu), pdu)
  {
    hide ComputeMac, Seal, Open;
  }

  /** Delivering a remembered command changes the uplink COUNT only, by the one reply. */
  lemma ReplayIsIdempotent(env: Environment, s: Security, pdu: seq<Byte>)
    requires Remembered(env, s, pdu)
    ensures var t := Deliver(env, s, pdu);
            && Remembered(env, t, pdu) && SameKeys(s, t) && t.current.dl == s.current.dl
            && t.current.ul == if s.current.active && 0 < |env.modeComplete| <= UPLINK_ROOM - HEADER
                               then Increment(s.current.ul) else s.current.ul
  {
    hide ComputeMac, Seal, Increment, Open, Verify, Adopt;
    assert Duplicate(Arrive(s, pdu), CommandOf(env, pdu));
  }

  // ----------------------------------------------- what changes the keys

  /** The challenge would install what is installed already. */
  predicate Provisioned(s: Security, c: Challenge) {
    c.keys == s.current.keys && s.spareValid && s.spare == Provisional(s, c)
  }

  predicate HarmlessMessage(env: Environment, s: Security, message: Nas) {
    match message
    case Smc(cmd) => Accepts(env, s, cmd) ==> Duplicate(s, cmd)
    case Auth(c) => Admits(s, c) ==> Provisioned(s, c)
    case Other => true
  }

  /** What is inside is no newly accepted command and no admitted challenge with something new. */
  predicate Harmless(env: Environment, s: Security, pdu: seq<Byte>) {
    var (t, plain) := Unwrap(env, s, pdu);
    plain.Some? && env.decode(plain.value).Some? ==> HarmlessMessage(env, t, env.decode(plain.value).value)
  }

  lemma SendSameKeys(env: Environment, s: Security, sht: Byte, plain: seq<Byte>)
    ensures SameKeys(s, Send(env, s, sht, plain))
    ensures Send(env, s, sht, plain) == s.(current := s.current.(ul := Send(env, s, sht, plain).current.ul))
  {
    hide Seal, Increment;
  }

  lemma CommandSameIff(env: Environment, s: Security, cmd: Command)
    ensures SameKeys(s, HandleCommand(env, s, cmd)) <==> HarmlessMessage(env, s, Smc(cmd))
  {
    hide ComputeMac, Send, Activated;
    var target := TargetOf(s, NgksiOf(cmd));
    if Accepts(env, s, cmd) {
      var base := if target == Spare then s.spare else s.current;
      var t := if Duplicate(s, cmd) then s else Adopt(env, s, cmd, target, Verify(env, s, base, cmd));
      SendSameKeys(env, Remember(t, cmd), NEW_CONTEXT_CIPHERED, env.modeComplete);
    }
  }

  lemma ChallengeSameIff(env: Environment, s: Security, c: Challenge)
    ensures SameKeys(s, HandleChallenge(env, s, c)) <==> HarmlessMessage(env, s, Auth(c))
  {
    hide Send;
    SendSameKeys(env, s, CIPHERED_TYPE, env.authFailure(c));
    SendSameKeys(env, Provision(s, c), CIPHERED_TYPE, env.authResponse(c));
    if s.sqn.Some? {
      SendSameKeys(env, s, CIPHERED_TYPE, env.authResync(c, s.sqn.value));
    }
  }

  lemma UnwrapSameKeys(env: Environment, s: Security, pdu: seq<Byte>)
    ensures SameKeys(s, Unwrap(env, s, pdu).0)
  {
    hide ComputeMac, Cipher;
  }

  lemma SameKeysTransitive(s: Security, t: Security, u: Security)
    requires SameKeys(s, t)
    ensures SameKeys(t, u) <==> SameKeys(s, u)
  {
  }

  /** A downlink PDU of any kind leaves keys, algorithms, identifiers and slots alone exactly when it is harmless. */
  lemma DeliverSameIff(env: Environment, s: Security, pdu: seq<Byte>)
    ensures SameKeys(s, Deliver(env, s, pdu)) <==> Harmless(env, s, pdu)
  {
    hide SameKeys, Unwrap, HandleCommand, HandleChallenge, HarmlessMessage;
    var (t, plain) := Unwrap(env, s, pdu);
    UnwrapSameKeys(env, s, pdu);
    if plain.Some? && env.decode(plain.value).Some? {
      var message := env.decode(plain.value).value;
      SameKeysTransitive(s, t, Dispatch(env, t, message));
      match message
      case Smc(cmd) => CommandSameIff(env, t, cmd);
      case Auth(c) => ChallengeSameIff(env, t, c);
      case Other => OtherHarmless(env, t);
    }
  }

  lemma OtherHarmless(env: Environment, s: Security)
    ensures SameKeys(s, s) && HarmlessMessage(env, s, Other)
  {
  }

  // ------------------------------------------------ which commands are genuine

  /** The AES-CMAC of the command under the integrity key derived for it, at the given overflow counter. */
  function CmacOf(env: Environment, s: Security, base: Context, cmd: Command, overflow: nat): seq<Byte>
    requires s.envelope.Some?
  {
    var key := Rekeyed(env, base, cmd).keys.integrity;
    var sqn := s.envelope.value.sqn;
    Cmac.Mac(b => env.aes(key, b),
             BigEndian(Count(overflow, sqn).Value(), 4) + [BearerOctet(1, DOWNLINK), 0, 0, 0]
             + ([sqn] + s.payload))[..4]
  }

  /** Carries the code of the derived key, at the stored overflow counter or at zero. */
  predicate Genuine(env: Environment, s: Security, base: Context, cmd: Command)
    requires s.envelope.Some?
  {
    || s.envelope.value.mac == CmacOf(env, s, base, cmd, base.dl.overflow)
    || s.envelope.value.mac == CmacOf(env, s, base, cmd, 0)
  }

  /**
    A command not seen before is accepted exactly if there is a context for its key set, it
    came in a type-3 envelope with a payload that fits, and its code is right: the AES-CMAC
    under the derived key if it selects NIA2, and all zeros if it selects NIA0.
   */
  lemma NewlyAcceptedIff(env: Environment, s: Security, cmd: Command)
    requires Counted(s) && !Duplicate(s, cmd)
    ensures var target := TargetOf(s, NgksiOf(cmd));
            var base := if target == Spare then s.spare else s.current;
            Accepts(env, s, cmd)
            <==> && target != NoContext && s.payload != []
                 && s.envelope.Some? && s.envelope.value.sht == NEW_CONTEXT
                 && (if Selected(cmd).1 == Nia2 then Genuine(env, s, base, cmd) else s.envelope.value.mac == Zeros(4))
  {
    hide Cmac.Mac, BigEndian;
  }

  /** Whatever the keys: a command that selects NIA0 under a known key set is accepted with a zero code. */
  lemma NullIntegrityAccepted(env: Environment, s: Security, pdu: seq<Byte>)
    requires Counted(s) && IsCommand(env, pdu) && HEADER < |pdu| <= HEADER + PAYLOAD_MAX
    requires pdu[2..6] == Zeros(4) && Selected(CommandOf(env, pdu)).1 == Nia0
    requires TargetOf(s, NgksiOf(CommandOf(env, pdu))) != NoContext
    ensures Accepts(env, Arrive(s, pdu), CommandOf(env, pdu)) && Remembered(env, Deliver(env, s, pdu), pdu)
  {
    hide ComputeMac, Seal, Verify, Deliver, Remembered;
    var t := Arrive(s, pdu);
    if !Duplicate(t, CommandOf(env, pdu)) {
      NewlyAcceptedIff(env, t, CommandOf(env, pdu));
    }
    AcceptedIsRemembered(env, s, pdu);
  }

  // --------------------------------------------------------- whole runs

  const NO_KEYS := Keys(Zeros(32), Zeros(16), Zeros(16))

  const NO_CONTEXT := Context(false, NO_KEYS, Nia0, Nea0, Count(0, 0), Count(0, 0), 1, 7)

  const NO_SPARE := Context(false, NO_KEYS, Nia0, Nea0, Count(0, 0), Count(0, 0), 0, 0)

  /** Radio switching and loss of the cell clear everything. */
  const FORGOTTEN := Security(NO_CONTEXT, NO_SPARE, false, None, None, [], None)

  datatype Event = Downlink(pdu: seq<Byte>) | Uplink(sht: Byte, plain: seq<Byte>) | Forget

  function Step(env: Environment, s: Security, e: Event): Security {
    match e
    case Downlink(pdu) => Deliver(env, s, pdu)
    case Uplink(sht, plain) => Send(env, s, sht, plain)
    case Forget => FORGOTTEN
  }

  function Run(env: Environment, s: Security, es: seq<Event>): Security
    decreases |es|
  {
    if es == [] then s else Run(env, Step(env, s, es[0]), es[1..])
  }

  predicate AlwaysSame(env: Environment, s: Security, es: seq<Event>)
    decreases |es|
  {
    es == [] || (SameKeys(s, Step(env, s, es[0])) && AlwaysSame(env, Step(env, s, es[0]), es[1..]))
  }

  /** Nothing is forgotten, and every downlink PDU but the given one is harmless where it arrives. */
  predicate OnlyHarmless(env: Environment, s: Security, smc: seq<Byte>, es: seq<Event>)
    decreases |es|
  {
    es == []
    || (!es[0].Forget?
        && (es[0].Downlink? && es[0].pdu != smc ==> Harmless(env, s, es[0].pdu))
        && OnlyHarmless(env, Step(env, s, es[0]), smc, es[1..]))
  }

  lemma SameKeysRemembered(env: Environment, s: Security, t: Security, smc: seq<Byte>)
    requires Remembered(env, s, smc) && SameKeys(s, t)
    ensures Remembered(env, t, smc)
  {
  }

  lemma StepSameIff(env: Environment, s: Security, smc: seq<Byte>, e: Event)
    requires Remembered(env, s, smc)
    ensures SameKeys(s, Step(env, s, e))
       <==> !e.Forget? && (e.Downlink? && e.pdu != smc ==> Harmless(env, s, e.pdu))
  {
    hide Deliver, Send, Harmless;
    match e
    case Downlink(pdu) =>
      if pdu == smc {
        ReplayIsIdempotent(env, s, smc);
      }
      DeliverSameIff(env, s, pdu);
    case Uplink(sht, plain) => SendSameKeys(env, s, sht, plain);
    case Forget =>
  }

  /**
    After a Security Mode Command is accepted, whatever its replays are interleaved with:
    keys, algorithms, key set identifier, the non-current slot and the fingerprint stay as
    they are throughout if and only if nothing else that arrives carries a new command or a
    new challenge that is accepted, and nothing is forgotten.  The replays never matter.
   */
  lemma {:induction false} ReplaysNeverRekey(env: Environment, s: Security, smc: seq<Byte>, es: seq<Event>)
    requires Remembered(env, s, smc)
    ensures AlwaysSame(env, s, es) <==> OnlyHarmless(env, s, smc, es)
    ensures AlwaysSame(env, s, es) ==> SameKeys(s, Run(env, s, es)) && Remembered(env, Run(env, s, es), smc)
    decreases |es|
  {
    hide Step, Remembered, Harmless;
    if es != [] {
      var t := Step(env, s, es[0]);
      StepSameIff(env, s, smc, es[0]);
      if SameKeys(s, t) {
        SameKeysRemembered(env, s, t, smc);
        ReplaysNeverRekey(env, t, smc, es[1..]);
        SameKeysTransitive(s, t, Run(env, t, es[1..]));
      }
    }
  }

  /**
    A challenge admitted between a command and its replay: the context in use carries the
    challenge's keys under the old algorithms, and the replay, still recognised, leaves them.
   */
  lemma ChallengeBetweenReplays(env: Environment, s: Security, smc: seq<Byte>, request: seq<Byte>, c: Challenge)
    requires Remembered(env, s, smc) && TargetOf(s, NgksiOf(CommandOf(env, smc))) == Current
    requires Unwrap(env, s, request) == (s, Some(request)) && env.decode(request) == Some(Auth(c)) && Admits(s, c)
    ensures var t := Run(env, s, [Downlink(request), Downlink(smc)]);
            && t.current.keys == c.keys && t.current.intAlg == s.current.intAlg && t.current.encAlg == s.current.encAlg
            && t.spareValid && t.spare == Provisional(s, c) && t.last == s.last
            && (SameKeys(s, t) <==> Provisioned(s, c))
  {
    hide Unwrap, Remembered, Send, HandleCommand;
    var es := [Downlink(request), Downlink(smc)];
    assert es[1..] == [Downlink(smc)] && es[1..][1..] == [];
    var u := Deliver(env, s, request);
    SendSameKeys(env, Provision(s, c), CIPHERED_TYPE, env.authResponse(c));
    RememberedAfterChallenge(env, s, u, smc);
    ReplayIsIdempotent(env, u, smc);
    var t := Deliver(env, u, smc);
    assert Run(env, s, es) == Run(env, u, es[1..]) == Run(env, t, es[1..][1..]) == t;
  }

  lemma RememberedAfterChallenge(env: Environment, s: Security, u: Security, smc: seq<Byte>)
    requires Remembered(env, s, smc) && TargetOf(s, NgksiOf(CommandOf(env, smc))) == Current
    requires u.last == s.last && u.current.active == s.current.active && u.current.ngksi == s.current.ngksi
    ensures Remembered(env, u, smc)
  {
  }

  // ------------------------------------------------------------- COUNTs

  /** Both COUNTs of both contexts are 24-bit values, and the payload kept is within its buffer. */
  predicate Counted(s: Security) {
    && s.current.ul.Valid() && s.current.dl.Valid() && s.spare.ul.Valid() && s.spare.dl.Valid()
    && |s.payload| <= PAYLOAD_MAX
  }

  lemma SendKeepsCounted(env: Environment, s: Security, sht: Byte, plain: seq<Byte>)
    requires Counted(s)
    ensures Counted(Send(env, s, sht, plain))
  {
    hide Seal;
  }

  lemma CommandKeepsCounted(env: Environment, s: Security, cmd: Command)
    requires Counted(s)
    ensures Counted(HandleCommand(env, s, cmd))
  {
    hide Verify, Accepts, Send;
    var target := TargetOf(s, NgksiOf(cmd));
    var base := if target == Spare then s.spare else s.current;
    var t := if Duplicate(s, cmd) then s else Adopt(env, s, cmd, target, Verify(env, s, base, cmd));
    SendKeepsCounted(env, Remember(t, cmd), NEW_CONTEXT_CIPHERED, env.modeComplete);
  }

  lemma ChallengeKeepsCounted(env: Environment, s: Security, c: Challenge)
    requires Counted(s)
    ensures Counted(HandleChallenge(env, s, c))
  {
    hide Send;
    SendKeepsCounted(env, s, CIPHERED_TYPE, env.authFailure(c));
    SendKeepsCounted(env, Provision(s, c), CIPHERED_TYPE, env.authResponse(c));
    if s.sqn.Some? {
      SendKeepsCounted(env, s, CIPHERED_TYPE, env.authResync(c, s.sqn.value));
    }
  }

  lemma UnwrapKeepsCounted(env: Environment, s: Security, pdu: seq<Byte>)
    requires Counted(s)
    ensures Counted(Unwrap(env, s, pdu).0)
  {
    hide ComputeMac, Cipher;
  }

  lemma StepKeepsCounted(env: Environment, s: Security, e: Event)
    requires Counted(s)
    ensures Counted(Step(env, s, e))
  {
    hide Unwrap, HandleCommand, HandleChallenge, Send;
    match e
    case Downlink(pdu) =>
      hide Counted;
      var (t, plain) := Unwrap(env, s, pdu);
      UnwrapKeepsCounted(env, s, pdu);
      if plain.Some? && env.decode(plain.value).Some? {
        match env.decode(plain.value).value
        case Smc(cmd) => CommandKeepsCounted(env, t, cmd);
        case Auth(c) => ChallengeKeepsCounted(env, t, c);
        case Other =>
      }
    case Uplink(sht, plain) => SendKeepsCounted(env, s, sht, plain);
    case Forget =>
  }

  /** In every run, whatever arrives, the COUNTs stay 24-bit values. */
  lemma {:induction false} RunKeepsCounted(env: Environment, s: Security, es: seq<Event>)
    requires Counted(s)
    ensures Counted(Run(env, s, es))
    decreases |es|
  {
    hide Step, Counted;
    if es != [] {
      StepKeepsCounted(env, s, es[0]);
      RunKeepsCounted(env, Step(env, s, es[0]), es[1..]);
    }
  }
}
