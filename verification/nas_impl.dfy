/** The NAS endpoint as the source runs it: buffers protected and opened in place, contexts updated in place. */
module NasImpl {
  import opened Options
  import opened Bytes
  import opened NasSecurity
  import opened SecurityMode
  import Cmac

  class NasEndpoint {
    const env: Environment
    var current: Context
    var spare: Context
    var spareValid: bool
    var envelope: Option<Envelope>
    var last: Option<Fingerprint>
    var payload: seq<Byte>
    var sqn: Option<nat>

    ghost function Abs(): Security
      reads this
    {
      Security(current, spare, spareValid, envelope, last, payload, sqn)
    }

    /** Every stored COUNT is a 24-bit value. */
    ghost predicate Valid()
      reads this
    {
      Counted(Abs())
    }

    constructor (env: Environment)
      ensures Valid() && Abs() == FORGOTTEN && this.env == env
    {
      this.env := env;
      current, spare, spareValid := NO_CONTEXT, NO_SPARE, false;
      envelope, last, payload, sqn := None, None, [], None;
    }

    method ClearIdentityContext()
      modifies this
      ensures Valid() && Abs() == FORGOTTEN
    {
      current, spare, spareValid := NO_CONTEXT, NO_SPARE, false;
      envelope, last, payload, sqn := None, None, [], None;
    }

    method CodeOf(alg: IntAlg, count: nat, bearer: Byte, dir: nat, key: Block, msg: seq<Byte>) returns (mac: seq<Byte>)
      requires dir < 2
      ensures mac == ComputeMac(env.aes, alg, count, bearer, dir, key, msg)
    {
      hide BigEndian;
      if alg == Nia0 {
        return Zeros(4);
      }
      if alg == Nia2 {
        if |msg| > MAC_LIMIT {
          return Zeros(4);
        }
        var full := Cmac.Compute(b => env.aes(key, b), BigEndian(count, 4) + [BearerOctet(bearer, dir), 0, 0, 0] + msg);
        return full[..4];
      }
      return Zeros(4);
    }

    /** Ciphers the octets from `from` up to `to`; the same call deciphers. */
    method CipherInPlace(alg: EncAlg, count: nat, bearer: Byte, dir: nat, key: Block, data: array<Byte>,
        from: nat, to: nat)
      requires dir < 2 && from <= to <= data.Length
      modifies data
      ensures data[..from] == old(data[..from]) && data[to..] == old(data[to..])
      ensures data[from..to] == Cipher(env.aes, alg, count, bearer, dir, key, old(data[from..to]))
    {
      hide Crypt;
      if alg == Nea2 {
        Ctr(b => env.aes(key, b), CipherIv(count, bearer, dir), data, from, to);
      }
    }

    /** What the integrity code covers: the sequence number and the payload, ciphered where the type says so. */
    ghost function Covered(ctx: Context, count: nat, sht: Byte, plain: seq<Byte>): seq<Byte> {
      [count % 256] + Body(env.aes, ctx, count, UPLINK, sht, plain)
    }

    method WriteCovered(buf: array<Byte>, plain: seq<Byte>, sht: Byte)
      requires HEADER + |plain| <= buf.Length
      modifies buf
      ensures buf[6..HEADER + |plain|] == Covered(current, current.ul.Value(), sht, plain)
    {
      hide Cipher;
      var total := HEADER + |plain|;
      var count := current.ul.Value();
      buf[6] := current.ul.sqn;
      Put(buf, HEADER, plain);
      assert buf[HEADER..total] == plain;
      if sht == 2 || sht == 4 {
        CipherInPlace(current.encAlg, count, current.bearer, UPLINK, current.keys.ciphering, buf, HEADER, total);
        assert buf[6] == buf[..7][6];
      }
      assert buf[6..total] == [buf[6]] + buf[7..total];
    }

    /** Writes the message at the front of `buf`; `len` is its length, or -1. */
    method ProtectInto(buf: array<Byte>, plain: seq<Byte>, sht: Byte) returns (len: int)
      modifies this`current, buf
      ensures var r := Protect(env.aes, old(current), sht, plain, buf.Length);
              && current == r.1
              && (r.0.None? ==> len == -1)
              && (r.0.Some? ==> 0 <= len <= buf.Length && buf[..len] == r.0.value)
    {
      hide ComputeMac, Cipher, Increment, Covered;
      if !current.active || plain == [] {
        return -1;
      }
      if sht != 1 && sht != 2 && sht != 3 && sht != 4 {
        return -1;
      }
      var total := HEADER + |plain|;
      if buf.Length < total {
        return -1;
      }
      var count := current.ul.Value();
      WriteCovered(buf, plain, sht);
      ghost var covered := buf[6..total];
      var mac := CodeOf(current.intAlg, count, current.bearer, UPLINK, current.keys.integrity, buf[6..total]);
      buf[0], buf[1] := EPD_5GMM, sht;
      buf[2], buf[3], buf[4], buf[5] := mac[0], mac[1], mac[2], mac[3];
      assert buf[6..total] == covered;
      assert buf[..total] == [EPD_5GMM, sht] + mac + covered;
      assert covered == Covered(current, count, sht, plain);
      SealIsCovered(current, count, sht, plain);
      current := current.(ul := Increment(current.ul));
      len := total;
    }

    lemma SealIsCovered(ctx: Context, count: nat, sht: Byte, plain: seq<Byte>)
      ensures var covered := Covered(ctx, count, sht, plain);
              Seal(env.aes, ctx, count, UPLINK, sht, plain)
              == [EPD_5GMM, sht]
                 + ComputeMac(env.aes, ctx.intAlg, count, ctx.bearer, UPLINK, ctx.keys.integrity, covered)
                 + covered
    {
      hide ComputeMac, Cipher;
    }

    /** Checks and deciphers `data` in place; the plain message starts at `start`. */
    method Unprotect(data: array<Byte>) returns (ok: bool, start: nat)
      modifies this`current, data
      ensures Received(ok, start, current, data[..]) == Open(env.aes, old(current), DOWNLINK, old(data[..]))
    {
      hide ComputeMac, Cipher;
      if !current.active || data.Length < HEADER {
        return false, 0;
      }
      if data[0] != EPD_5GMM {
        return false, 0;
      }
      if data[1] == 0 {
        return true, 0;
      }
      ghost var was := data[..];
      var est := Estimate(current.dl, data[6]);
      var mac := CodeOf(current.intAlg, est.Value(), current.bearer, DOWNLINK, current.keys.integrity, data[6..]);
      assert data[6..] == was[6..] && data[2..6] == was[2..6];
      if current.intAlg != Nia0 && data[2..6] != mac {
        return false, 0;
      }
      current := current.(dl := est);
      CipherInPlace(current.encAlg, est.Value(), current.bearer, DOWNLINK, current.keys.ciphering, data,
          HEADER, data.Length);
      assert was[7..] == was[7..|was|];
      assert data[..] == data[..7] + data[7..data.Length];
      return true, HEADER;
    }

    method VerifyCommand(base: Context, cmd: Command) returns (verdict: Verdict)
      ensures verdict == Verify(env, Abs(), base, cmd)
    {
      hide ComputeMac;
      if envelope.None? || envelope.value.sht != NEW_CONTEXT || payload == [] {
        return Refused;
      }
      var ctx := Rekeyed(env, base, cmd);
      var e := envelope.value;
      var covered := [e.sqn] + payload;
      var mac := CodeOf(ctx.intAlg, Count(base.dl.overflow, e.sqn).Value(), 1, DOWNLINK, ctx.keys.integrity, covered);
      if mac == e.mac {
        return VerifiedAtOverflow;
      }
      mac := CodeOf(ctx.intAlg, Count(0, e.sqn).Value(), 1, DOWNLINK, ctx.keys.integrity, covered);
      if mac == e.mac {
        return VerifiedAtZero;
      }
      return Refused;
    }

    method SendUplink(sht: Byte, plain: seq<Byte>)
      modifies this`current
      ensures Abs() == Send(env, old(Abs()), sht, plain)
    {
      hide Protect;
      var buf := new Byte[UPLINK_ROOM](_ => 0);
      var len := ProtectInto(buf, plain, sht);
    }

    /** The keys change exactly when a command other than the stored one is accepted. */
    method OnSecurityModeCommand(cmd: Command)
      requires Valid()
      modifies this
      ensures Valid() && Abs() == HandleCommand(env, old(Abs()), cmd)
      ensures SameKeys(old(Abs()), Abs()) <==> HarmlessMessage(env, old(Abs()), Smc(cmd))
    {
      hide Counted, SameKeys, HarmlessMessage;
      CommandKeepsCounted(env, Abs(), cmd);
      CommandSameIff(env, Abs(), cmd);
      HandleVerified(cmd);
    }

    method HandleVerified(cmd: Command)
      modifies this
      ensures Abs() == HandleCommand(env, old(Abs()), cmd)
    {
      hide Verify, Send, Activated;
      var ngksi := NgksiOf(cmd);
      var duplicate :=
        envelope.Some? && envelope.value.sht == NEW_CONTEXT && last == Some(FingerprintOf(cmd, envelope.value));
      var target := NoContext;
      if current.active && current.ngksi == ngksi {
        target := Current;
      } else if spareValid && spare.ngksi == ngksi {
        target := Spare;
      }
      if target == NoContext {
        return;
      }
      if !duplicate {
        var verdict := VerifyCommand(if target == Spare then spare else current, cmd);
        if verdict == Refused {
          return;
        }
        if target == Spare {
          spare := Activated(env, spare, cmd, verdict);
          current := spare.(ul := Count(0, 0));
          spareValid := false;
        } else {
          current := Activated(env, current, cmd, verdict);
        }
      }
      if envelope.Some? && envelope.value.sht == NEW_CONTEXT {
        last := Some(FingerprintOf(cmd, envelope.value));
      }
      SendUplink(NEW_CONTEXT_CIPHERED, env.modeComplete);
    }

    /** The keys change exactly when the challenge is admitted and brings something new. */
    method OnAuthenticationRequest(c: Challenge)
      requires Valid()
      modifies this
      ensures Valid() && Abs() == HandleChallenge(env, old(Abs()), c)
      ensures SameKeys(old(Abs()), Abs()) <==> (Admits(old(Abs()), c) ==> Provisioned(old(Abs()), c))
      ensures sqn == if Admits(old(Abs()), c) then Some(c.sqn) else old(sqn)
    {
      hide Send, Counted, SameKeys;
      ChallengeKeepsCounted(env, Abs(), c);
      ChallengeSameIff(env, Abs(), c);
      if !c.complete {
        return;
      }
      if !c.genuine {
        SendUplink(CIPHERED_TYPE, env.authFailure(c));
        return;
      }
      if sqn.Some? && c.sqn < sqn.value {
        SendUplink(CIPHERED_TYPE, env.authResync(c, sqn.value));
        return;
      }
      sqn := Some(c.sqn);
      current := current.(keys := c.keys);
      spare := current.(active := true, intAlg := Nia2, encAlg := Nea0, bearer := 1,
        ngksi := if c.ngksi.Some? then c.ngksi.value else 0, ul := Count(0, 0), dl := Count(0, 0));
      spareValid := true;
      SendUplink(CIPHERED_TYPE, env.authResponse(c));
    }

    /** Takes the envelope off in place; `start` is where the message inside begins, or -1. */
    method UnwrapInPlace(data: array<Byte>) returns (start: int)
      modifies this, data
      ensures -1 <= start <= data.Length
      ensures Unwrap(env, old(Abs()), old(data[..])) == (Abs(), if start < 0 then None else Some(data[start..]))
    {
      hide Open;
      ghost var was := data[..];
      if data.Length < 2 || data[0] != EPD_5GMM || data[1] == 0 {
        assert data[0..] == was;
        return 0;
      }
      if data[1] == NEW_CONTEXT {
        if data.Length < HEADER {
          return -1;
        }
        assert data[2..6] == was[2..6] && data[7..] == was[7..];
        envelope := Some(Envelope(data[1], data[2..6], data[6]));
        payload := if data.Length - HEADER <= PAYLOAD_MAX then data[7..] else [];
        return HEADER;
      }
      if !current.active {
        return -1;
      }
      OpenKeeps(env, current, was);
      var ok, at := Unprotect(data);
      if !ok {
        return -1;
      }
      assert data[1] == data[..7][1] && data[6] == data[..7][6] && data[2..6] == data[..7][2..6];
      assert was[1] == was[..7][1] && was[6] == was[..7][6] && was[2..6] == was[..7][2..6];
      envelope := Some(Envelope(data[1], data[2..6], data[6]));
      assert data[at..] == data[..][at..];
      return at;
    }

    /**
      Any downlink PDU, from the envelope to the handler.  Keys, algorithms, identifiers, slots
      and fingerprint stay exactly when the PDU is harmless, and a remembered command always is.
     */
    method OnDownlink(data: array<Byte>)
      requires Valid()
      modifies this, data
      ensures Valid() && Abs() == Deliver(env, old(Abs()), old(data[..]))
      ensures SameKeys(old(Abs()), Abs()) <==> Harmless(env, old(Abs()), old(data[..]))
      ensures Remembered(env, old(Abs()), old(data[..])) ==> SameKeys(old(Abs()), Abs())
    {
      hide Counted, Unwrap, SameKeys, Harmless, HarmlessMessage, HandleCommand, HandleChallenge, Remembered;
      ghost var s, pdu := Abs(), data[..];
      DeliverSameIff(env, s, pdu);
      if Remembered(env, s, pdu) {
        ReplayIsIdempotent(env, s, pdu);
      }
      UnwrapKeepsCounted(env, s, pdu);
      var start := UnwrapInPlace(data);
      if start < 0 {
        return;
      }
      var message := env.decode(data[start..]);
      if message.None? {
        return;
      }
      match message.value
      case Smc(cmd) => OnSecurityModeCommand(cmd);
      case Auth(c) => OnAuthenticationRequest(c);
      case Other =>
    }
  }

  /** Opening a message does not touch its header, refusing it does not touch the context. */
  lemma OpenKeeps(env: Environment, ctx: Context, pdu: seq<Byte>)
    ensures var r := Open(env.aes, ctx, DOWNLINK, pdu);
            if r.ok then |pdu| >= HEADER && r.data[..7] == pdu[..7] else r.ctx == ctx
  {
    hide ComputeMac, Cipher;
  }
}
