/**
  NAS protection of `src/ue_engine/ue_nas_security.c`: COUNT handling, the NEA2 counter
  mode, the NIA2 integrity code, and the protected envelope.  AES is an arbitrary function
  of key and block.
 */
module NasSecurity {
  import opened Options
  import opened Bytes
  import Cmac

  type Aes = (Block, Block) -> Block

  // ---------------------------------------------------------------- COUNT

  const COUNT_LIMIT := 0x100_0000

  /** Overflow counter (16 bits) and sequence number (8 bits). */
  datatype Count = Count(overflow: nat, sqn: Byte) {
    predicate Valid() { overflow < 0x1_0000 }

    function Value(): nat { 256 * overflow + sqn }
  }

  function CountOf(value: nat): Count
    requires value < COUNT_LIMIT
  {
    Count(value / 256, value % 256)
  }

  /** A 16-bit counter step. */
  function Bump(overflow: nat): nat { if overflow == 0xffff then 0 else overflow + 1 }

  function Increment(c: Count): Count {
    var sqn: int := c.sqn;
    if sqn == 255 then Count(Bump(c.overflow), 0) else c.(sqn := sqn + 1)
  }

  /** The COUNT meant by a received sequence number, given the last one accepted. */
  function Estimate(last: Count, sqn: Byte): Count {
    Count(if sqn < last.sqn then Bump(last.overflow) else last.overflow, sqn)
  }

  lemma IncrementAddsOne(c: Count)
    requires c.Valid()
    ensures Increment(c).Valid()
    ensures Increment(c).Value() == if c.Value() == COUNT_LIMIT - 1 then 0 else c.Value() + 1
  {
  }

  /**
    Reconstruction is exact: the estimate is the sender's COUNT if and only if that COUNT is
    at most 255 ahead of the last accepted one, counting around the end of the 24 bits.
   */
  lemma EstimateExactIff(last: Count, sent: Count)
    requires last.Valid() && sent.Valid()
    ensures Estimate(last, sent.sqn).Valid()
    ensures Estimate(last, sent.sqn) == sent
       <==> last.Value() <= sent.Value() <= last.Value() + 255 || sent.Value() + COUNT_LIMIT <= last.Value() + 255
  {
  }

  lemma CountOfValue(value: nat)
    requires value < COUNT_LIMIT
    ensures CountOf(value).Valid() && CountOf(value).Value() == value
  {
  }

  // ------------------------------------------------------- counter mode

  /** The next counter block: the last four octets count up, wrapping. */
  function Next(ctr: Block): Block { ctr[..12] + BigEndian(FromBigEndian(ctr[12..]) + 1, 4) }

  function Crypt(aes: Block -> Block, ctr: Block, data: seq<Byte>): (r: seq<Byte>)
    ensures |r| == |data|
    decreases |data|
  {
    if |data| <= 16 then Xor(data, aes(ctr))
    else Xor(data[..16], aes(ctr)) + Crypt(aes, Next(ctr), data[16..])
  }

  /** Applying the keystream twice gives the data back. */
  lemma {:induction false} CryptUndo(aes: Block -> Block, ctr: Block, data: seq<Byte>)
    ensures Crypt(aes, ctr, Crypt(aes, ctr, data)) == data
    decreases |data|
  {
    hide Xor, Next;
    if |data| <= 16 {
      XorUndo(data, aes(ctr));
    } else {
      var r := Crypt(aes, ctr, data);
      XorUndo(data[..16], aes(ctr));
      CryptUndo(aes, Next(ctr), data[16..]);
      assert r[..16] == Xor(data[..16], aes(ctr)) && r[16..] == Crypt(aes, Next(ctr), data[16..]);
      assert data == data[..16] + data[16..];
    }
  }

  /** The first `n` octets of the keystream are zero. */
  predicate Silent(aes: Block -> Block, ctr: Block, n: nat)
    decreases n
  {
    if n <= 16 then aes(ctr)[..n] == Zeros(n) else aes(ctr) == Zeros(16) && Silent(aes, Next(ctr), n - 16)
  }

  /** Applying the keystream leaves the data as it is exactly when that much keystream is zero. */
  lemma {:induction false} CryptIdentity(aes: Block -> Block, ctr: Block, data: seq<Byte>)
    ensures Crypt(aes, ctr, data) == data <==> Silent(aes, ctr, |data|)
    decreases |data|
  {
    hide Xor, Next;
    if |data| <= 16 {
      XorIdentity(data, aes(ctr));
    } else {
      var r := Crypt(aes, ctr, data);
      XorIdentity(data[..16], aes(ctr));
      CryptIdentity(aes, Next(ctr), data[16..]);
      assert aes(ctr)[..16] == aes(ctr);
      assert r[..16] == Xor(data[..16], aes(ctr)) && r[16..] == Crypt(aes, Next(ctr), data[16..]);
      assert data == data[..16] + data[16..];
    }
  }

  lemma {:induction false} FromBigEndianInverse(s: seq<Byte>)
    ensures BigEndian(FromBigEndian(s), |s|) == s
  {
    if s != [] {
      var front, last := s[..|s| - 1], s[|s| - 1];
      FromBigEndianInverse(front);
      assert FromBigEndian(s) / 256 == FromBigEndian(front) && FromBigEndian(s) % 256 == last;
      assert s == front + [last];
    }
  }

  /** Adding one either ends in the last octet or leaves it zero and carries on. */
  lemma CarryStep(s: seq<Byte>)
    requires s != []
    ensures var front := s[..|s| - 1];
            var last: int := s[|s| - 1];
            BigEndian(FromBigEndian(s) + 1, |s|)
            == if last < 255 then front + [last + 1] else BigEndian(FromBigEndian(front) + 1, |front|) + [0]
  {
    var front := s[..|s| - 1];
    var last: int := s[|s| - 1];
    var f := FromBigEndian(front);
    FromBigEndianInverse(front);
    assert FromBigEndian(s) + 1 == f * 256 + last + 1;
    if last < 255 {
      assert (f * 256 + last + 1) / 256 == f && (f * 256 + last + 1) % 256 == last + 1;
    } else {
      assert (f * 256 + 256) / 256 == f + 1 && (f * 256 + 256) % 256 == 0;
    }
  }

  /** The incremented counter field when octets above `k` have wrapped to zero. */
  ghost function Carried(was: Block, k: nat): (r: seq<Byte>)
    requires 11 <= k <= 15
    ensures |r| == 4
  {
    BigEndian(FromBigEndian(was[12..k + 1]) + 1, k - 11) + Zeros(15 - k)
  }

  lemma CarriedStep(was: Block, k: nat)
    requires 12 <= k <= 15
    ensures var octet: int := was[k];
            if octet < 255 then was[..12] + Carried(was, k) == was[..k] + [octet + 1] + Zeros(15 - k)
            else Carried(was, k) == Carried(was, k - 1)
  {
    hide BigEndian, FromBigEndian;
    CarryStep(was[12..k + 1]);
    assert was[12..k + 1][..k - 12] == was[12..k];
    var octet: int := was[k];
    if octet < 255 {
      assert was[..k] == was[..12] + was[12..k];
    } else {
      assert [0] + Zeros(15 - k) == Zeros(16 - k);
    }
  }

  lemma CarriedEnds(was: Block)
    ensures was[..12] + Carried(was, 15) == Next(was) && Carried(was, 11) == Zeros(4)
  {
    assert was[12..16] == was[12..];
  }

  method IncrementCounter(ctr: array<Byte>)
    requires ctr.Length == 16
    modifies ctr
    ensures ctr[..] == Next(old(ctr[..]))
  {
    hide Next, Carried;
    ghost var was: Block := ctr[..];
    CarriedEnds(was);
    var k := 15;
    while k >= 12
      invariant 11 <= k <= 15
      invariant forall j :: 0 <= j < 16 ==> ctr[j] == if j <= k then was[j] else 0
      invariant Carried(was, k) == Carried(was, 15)
    {
      CarriedStep(was, k);
      var octet: int := ctr[k];
      if octet < 255 {
        ctr[k] := octet + 1;
        assert ctr[..] == was[..k] + [octet + 1] + Zeros(15 - k);
        return;
      }
      ctr[k] := 0;
      k := k - 1;
    }
    assert ctr[..] == was[..12] + Zeros(4);
  }

  /** One 16-octet stretch, or what is left of it. */
  method XorStretch(data: array<Byte>, at: nat, len: nat, ks: Block)
    requires at + len <= data.Length && len <= 16
    modifies data
    ensures data[..at] == old(data[..at]) && data[at + len..] == old(data[at + len..])
    ensures data[at..at + len] == Xor(old(data[at..at + len]), ks)
  {
    hide XorByte;
    for j := 0 to len
      invariant forall i :: 0 <= i < at || at + j <= i < data.Length ==> data[i] == old(data[i])
      invariant forall i :: 0 <= i < j ==> data[at + i] == XorByte(old(data[at + i]), ks[i])
    {
      data[at + j] := XorByte(data[at + j], ks[j]);
    }
  }

  lemma CryptSplit(aes: Block -> Block, ctr: Block, data: seq<Byte>, len: nat)
    requires data != [] && len == if |data| < 16 then |data| else 16
    ensures Crypt(aes, ctr, data) == Xor(data[..len], aes(ctr)) + Crypt(aes, Next(ctr), data[len..])
  {
    if |data| <= 16 {
      assert data[..len] == data && data[len..] == [];
    }
  }

  /** What the range [from, to) becomes when [from, at) is done and the keystream stands at `ctr`. */
  ghost function Outcome(aes: Block -> Block, ctr: Block, data: array<Byte>, from: nat, at: nat, to: nat): seq<Byte>
    requires from <= at <= to <= data.Length
    reads data
  {
    data[from..at] + Crypt(aes, ctr, data[at..to])
  }

  method CtrBlock(aes: Block -> Block, ctr: array<Byte>, data: array<Byte>, ghost from: nat, at: nat, to: nat)
    returns (next: nat)
    requires from <= at < to <= data.Length && ctr.Length == 16 && ctr != data
    modifies ctr, data
    ensures at < next <= to
    ensures data[..from] == old(data[..from]) && data[to..] == old(data[to..])
    ensures Outcome(aes, ctr[..], data, from, next, to) == old(Outcome(aes, ctr[..], data, from, at, to))
  {
    hide Crypt, Next, Xor;
    var ks := aes(ctr[..]);
    var len := if to - at < 16 then to - at else 16;
    ghost var done, rest, c := data[from..at], data[at..to], ctr[..];
    CryptSplit(aes, c, rest, len);
    assert rest[..len] == data[at..at + len] && rest[len..] == data[at + len..to];
    Stretch(data, from, at, len, to, ks);
    Associate(done, Xor(rest[..len], ks), Crypt(aes, Next(c), rest[len..]));
    IncrementCounter(ctr);
    next := at + len;
  }

  /** Counter mode in place, over the octets from `from` up to `to`. */
  method Ctr(aes: Block -> Block, iv: Block, data: array<Byte>, from: nat, to: nat)
    requires from <= to <= data.Length
    modifies data
    ensures data[..from] == old(data[..from]) && data[to..] == old(data[to..])
    ensures data[from..to] == Crypt(aes, iv, old(data[from..to]))
  {
    hide Crypt;
    var ctr := new Byte[16](i requires 0 <= i < 16 => iv[i]);
    assert ctr[..] == iv;
    var at := from;
    assert data[from..at] == [];
    while at < to
      invariant from <= at <= to && fresh(ctr) && ctr.Length == 16
      invariant data[..from] == old(data[..from]) && data[to..] == old(data[to..])
      invariant Outcome(aes, ctr[..], data, from, at, to) == Crypt(aes, iv, old(data[from..to]))
    {
      at := CtrBlock(aes, ctr, data, from, at, to);
    }
    assert data[at..to] == [];
    assert |Crypt(aes, ctr[..], data[at..to])| == 0;
  }

  /** `XorStretch` seen from the range [from, to) around it. */
  method Stretch(data: array<Byte>, ghost from: nat, at: nat, len: nat, ghost to: nat, ks: Block)
    requires from <= at && at + len <= to <= data.Length && len <= 16
    modifies data
    ensures data[..from] == old(data[..from]) && data[to..] == old(data[to..])
    ensures data[from..at + len] == old(data[from..at]) + Xor(old(data[at..at + len]), ks)
    ensures data[at + len..to] == old(data[at + len..to])
  {
    hide Xor;
    XorStretch(data, at, len, ks);
    assert data[from..at] == data[..at][from..];
    assert data[from..at + len] == data[from..at] + data[at..at + len];
    assert data[at + len..to] == data[at + len..][..to - at - len];
    assert data[to..] == data[at + len..][to - at - len..];
    assert data[..from] == data[..at][..from];
  }

  // ------------------------------------------- integrity and ciphering

  datatype IntAlg = Nia0 | Nia1 | Nia2
  datatype EncAlg = Nea0 | Nea1 | Nea2

  const MAC_LIMIT := 8192

  /** Bearer in five bits, then the direction bit. */
  function BearerOctet(bearer: Byte, dir: nat): Byte
    requires dir < 2
  {
    var b: int := bearer;
    8 * b % 256 + 4 * dir
  }

  /** The 32-bit integrity code, most significant octet first; 0 where no code is computed. */
  function ComputeMac(aes: Aes, alg: IntAlg, count: nat, bearer: Byte, dir: nat, key: Block,
      msg: seq<Byte>): (m: seq<Byte>)
    requires dir < 2
    ensures |m| == 4
  {
    if alg != Nia2 || |msg| > MAC_LIMIT then Zeros(4)
    else Cmac.Mac(b => aes(key, b), BigEndian(count, 4) + [BearerOctet(bearer, dir), 0, 0, 0] + msg)[..4]
  }

  function CipherIv(count: nat, bearer: Byte, dir: nat): Block
    requires dir < 2
  {
    BigEndian(count, 4) + [BearerOctet(bearer, dir)] + Zeros(11)
  }

  /** NEA1 is not implemented: the data stays as it is. */
  function Cipher(aes: Aes, alg: EncAlg, count: nat, bearer: Byte, dir: nat, key: Block,
      data: seq<Byte>): (r: seq<Byte>)
    requires dir < 2
    ensures |r| == |data|
  {
    if alg == Nea2 then Crypt(b => aes(key, b), CipherIv(count, bearer, dir), data) else data
  }

  lemma CipherUndo(aes: Aes, alg: EncAlg, count: nat, bearer: Byte, dir: nat, key: Block, data: seq<Byte>)
    requires dir < 2
    ensures Cipher(aes, alg, count, bearer, dir, key, Cipher(aes, alg, count, bearer, dir, key, data)) == data
  {
    if alg == Nea2 {
      CryptUndo(b => aes(key, b), CipherIv(count, bearer, dir), data);
    }
  }

  // ------------------------------------------------------- the envelope

  datatype Keys = Keys(kamf: seq<Byte>, integrity: Block, ciphering: Block)

  datatype Context = Context(
    active: bool, keys: Keys, intAlg: IntAlg, encAlg: EncAlg, ul: Count, dl: Count, bearer: Byte, ngksi: nat)

  const EPD_5GMM := 0x7e
  const UPLINK := 0
  const DOWNLINK := 1
  const HEADER := 7

  /** Security header types: 1 integrity, 2 and ciphering, 3 and 4 the same with a new context. */
  predicate ProtectedType(sht: nat) { 1 <= sht <= 4 }

  predicate Ciphered(sht: nat) { sht == 2 || sht == 4 }

  /** What goes on the wire: only types 2 and 4 are ciphered. */
  function Body(aes: Aes, ctx: Context, count: nat, dir: nat, sht: nat, plain: seq<Byte>): (r: seq<Byte>)
    requires dir < 2
    ensures |r| == |plain|
  {
    if Ciphered(sht) then Cipher(aes, ctx.encAlg, count, ctx.bearer, dir, ctx.keys.ciphering, plain) else plain
  }

  /** A protected message: discriminator, header type, code, sequence number, payload. */
  function Seal(aes: Aes, ctx: Context, count: nat, dir: nat, sht: Byte, plain: seq<Byte>): seq<Byte>
    requires dir < 2
  {
    var covered := [count % 256] + Body(aes, ctx, count, dir, sht, plain);
    [EPD_5GMM, sht] + ComputeMac(aes, ctx.intAlg, count, ctx.bearer, dir, ctx.keys.integrity, covered) + covered
  }

  /** An uplink message, or nothing, and the context after it; `room` is the size of the output buffer. */
  function Protect(aes: Aes, ctx: Context, sht: Byte, plain: seq<Byte>, room: nat): (Option<seq<Byte>>, Context) {
    if !ctx.active || plain == [] || !ProtectedType(sht) || room < HEADER + |plain| then (None, ctx)
    else (Some(Seal(aes, ctx, ctx.ul.Value(), UPLINK, sht, plain)), ctx.(ul := Increment(ctx.ul)))
  }

  /** What receiving leaves: whether accepted, where the plain message starts, the context and the buffer. */
  datatype Received = Received(ok: bool, start: nat, ctx: Context, data: seq<Byte>)

  /** Receiving in direction `dir`, with `dl` as the last accepted COUNT. */
  function Open(aes: Aes, ctx: Context, dir: nat, data: seq<Byte>): (r: Received)
    requires dir < 2
    ensures |r.data| == |data| && r.start <= |data|
  {
    var dropped := Received(false, 0, ctx, data);
    if !ctx.active || |data| < HEADER || data[0] != EPD_5GMM then dropped
    else if data[1] == 0 then Received(true, 0, ctx, data)
    else
      var est := Estimate(ctx.dl, data[6]);
      var mac := ComputeMac(aes, ctx.intAlg, est.Value(), ctx.bearer, dir, ctx.keys.integrity, data[6..]);
      if ctx.intAlg != Nia0 && data[2..6] != mac then dropped
      else
        var body := Cipher(aes, ctx.encAlg, est.Value(), ctx.bearer, dir, ctx.keys.ciphering, data[7..]);
        Received(true, HEADER, ctx.(dl := est), data[..7] + body)
  }

  /** At most 255 COUNTs later, counting around the end of the 24 bits. */
  predicate Ahead(last: nat, count: nat) {
    count < COUNT_LIMIT && (last <= count <= last + 255 || count + COUNT_LIMIT <= last + 255)
  }

  lemma SealLayout(aes: Aes, ctx: Context, count: nat, dir: nat, sht: Byte, plain: seq<Byte>)
    requires dir < 2
    ensures var data := Seal(aes, ctx, count, dir, sht, plain);
            var body := Body(aes, ctx, count, dir, sht, plain);
            && |data| == HEADER + |plain| && data[0] == EPD_5GMM && data[1] == sht && data[6] == count % 256
            && data[7..] == body && data[6..] == [count % 256] + body
            && data[2..6] == ComputeMac(aes, ctx.intAlg, count, ctx.bearer, dir, ctx.keys.integrity, data[6..])
  {
    hide ComputeMac, Cipher;
    var data := Seal(aes, ctx, count, dir, sht, plain);
    var covered := [count % 256] + Body(aes, ctx, count, dir, sht, plain);
    assert data[6..] == covered;
    assert data[7..] == covered[1..];
  }

  /**
    The receiver always applies the keystream, the sender only for types 2 and 4: what is
    delivered is the message itself if the type is ciphered, or NEA2 is not selected, or
    that much keystream happens to be zero.
   */
  predicate Clear(aes: Aes, ctx: Context, count: nat, dir: nat, sht: nat, length: nat)
    requires dir < 2
  {
    || Ciphered(sht)
    || ctx.encAlg != Nea2
    || Silent(b => aes(ctx.keys.ciphering, b), CipherIv(count, ctx.bearer, dir), length)
  }

  lemma ClearIff(aes: Aes, ctx: Context, count: nat, dir: nat, sht: nat, plain: seq<Byte>)
    requires dir < 2
    ensures Cipher(aes, ctx.encAlg, count, ctx.bearer, dir, ctx.keys.ciphering,
                   Body(aes, ctx, count, dir, sht, plain)) == plain
       <==> Clear(aes, ctx, count, dir, sht, |plain|)
  {
    CipherUndo(aes, ctx.encAlg, count, ctx.bearer, dir, ctx.keys.ciphering, plain);
    CryptIdentity(b => aes(ctx.keys.ciphering, b), CipherIv(count, ctx.bearer, dir), plain);
  }

  /**
    A message of any protected type, length and algorithms, at most 255 COUNTs ahead, is
    accepted and moves the receiving COUNT to its own; it is delivered as it was sent if
    and only if it is clear.
   */
  lemma OpenSealed(aes: Aes, ctx: Context, count: nat, dir: nat, sht: Byte, plain: seq<Byte>)
    requires dir < 2 && ctx.active && ctx.dl.Valid() && sht != 0 && Ahead(ctx.dl.Value(), count)
    ensures var r := Open(aes, ctx, dir, Seal(aes, ctx, count, dir, sht, plain));
            && r.ok && r.start == HEADER && r.ctx == ctx.(dl := CountOf(count))
            && (r.data[r.start..] == plain <==> Clear(aes, ctx, count, dir, sht, |plain|))
  {
    hide ComputeMac, Cipher, Clear;
    var data := Seal(aes, ctx, count, dir, sht, plain);
    SealLayout(aes, ctx, count, dir, sht, plain);
    EstimateExactIff(ctx.dl, CountOf(count));
    CountOfValue(count);
    ClearIff(aes, ctx, count, dir, sht, plain);
    var r := Open(aes, ctx, dir, data);
    var body := Body(aes, ctx, count, dir, sht, plain);
    assert r.data[7..] == Cipher(aes, ctx.encAlg, count, ctx.bearer, dir, ctx.keys.ciphering, body);
  }

  /** An integrity-only message under NEA2 is accepted and delivered changed. */
  lemma IntegrityOnlyGarbles(ctx: Context)
    requires ctx.active && ctx.dl.Valid() && ctx.encAlg == Nea2
    ensures var aes := (key: Block, b: Block) => Zeros(15) + [1];
            var plain := Zeros(16);
            var r := Open(aes, ctx, DOWNLINK, Seal(aes, ctx, ctx.dl.Value(), DOWNLINK, 1, plain));
            r.ok && r.data[r.start..] != plain
  {
    hide Seal, Open, ComputeMac, Cipher;
    var aes := (key: Block, b: Block) => Zeros(15) + [1];
    OpenSealed(aes, ctx, ctx.dl.Value(), DOWNLINK, 1, Zeros(16));
    assert (Zeros(15) + [1])[..16][15] != Zeros(16)[15];
  }

  /**
    Under an integrity algorithm exactly the messages sealed with the same keys, at most 255
    COUNTs ahead, are accepted; any other changes neither the context nor the buffer.
   */
  lemma AcceptedIffSealed(aes: Aes, ctx: Context, dir: nat, data: seq<Byte>)
    requires dir < 2 && ctx.active && ctx.dl.Valid() && ctx.intAlg != Nia0
    requires |data| >= HEADER && data[0] == EPD_5GMM && data[1] != 0
    ensures Open(aes, ctx, dir, data).ok
       <==> exists count, plain :: Ahead(ctx.dl.Value(), count)
                                   && data == Seal(aes, ctx, count, dir, data[1], plain)
    ensures !Open(aes, ctx, dir, data).ok ==> Open(aes, ctx, dir, data) == Received(false, 0, ctx, data)
  {
    hide ComputeMac, Cipher, Seal;
    if Open(aes, ctx, dir, data).ok {
      AcceptedIsSealed(aes, ctx, dir, data);
    }
    if count, plain :| Ahead(ctx.dl.Value(), count) && data == Seal(aes, ctx, count, dir, data[1], plain) {
      OpenSealed(aes, ctx, count, dir, data[1], plain);
    }
  }

  lemma AcceptedIsSealed(aes: Aes, ctx: Context, dir: nat, data: seq<Byte>)
    requires dir < 2 && ctx.active && ctx.dl.Valid() && ctx.intAlg != Nia0
    requires |data| >= HEADER && data[0] == EPD_5GMM && data[1] != 0 && Open(aes, ctx, dir, data).ok
    ensures exists count, plain :: Ahead(ctx.dl.Value(), count)
                                   && data == Seal(aes, ctx, count, dir, data[1], plain)
  {
    hide ComputeMac, Cipher;
    var est := Estimate(ctx.dl, data[6]);
    var count := est.Value();
    EstimateExactIff(ctx.dl, est);
    var plain := Body(aes, ctx, count, dir, data[1], data[7..]);
    CipherUndo(aes, ctx.encAlg, count, ctx.bearer, dir, ctx.keys.ciphering, data[7..]);
    SealLayout(aes, ctx, count, dir, data[1], plain);
    var sealed := Seal(aes, ctx, count, dir, data[1], plain);
    assert data[6..] == [data[6]] + data[7..] == sealed[6..];
    assert data == data[..2] + data[2..6] + data[6..];
    assert sealed == sealed[..2] + sealed[2..6] + sealed[6..];
    assert data == sealed;
  }

  // --------------------------------------------------------- whole streams

  datatype Sent = Sent(count: nat, sht: Byte, plain: seq<Byte>)

  /** Protected messages, each COUNT 0 to 255 after the one before. */
  predicate InOrder(last: nat, sent: seq<Sent>)
    decreases |sent|
  {
    sent == []
    || (Ahead(last, sent[0].count) && ProtectedType(sent[0].sht) && InOrder(sent[0].count, sent[1..]))
  }

  predicate AllClear(aes: Aes, ctx: Context, dir: nat, sent: seq<Sent>)
    requires dir < 2
    decreases |sent|
  {
    sent == []
    || (Clear(aes, ctx, sent[0].count, dir, sent[0].sht, |sent[0].plain|) && AllClear(aes, ctx, dir, sent[1..]))
  }

  /** Opens the messages one after the other; the plaintexts of those accepted, and the final context. */
  function OpenAll(aes: Aes, ctx: Context, dir: nat, wire: seq<seq<Byte>>): (seq<seq<Byte>>, Context)
    requires dir < 2
    decreases |wire|
  {
    if wire == [] then ([], ctx)
    else
      var r := Open(aes, ctx, dir, wire[0]);
      var rest := OpenAll(aes, r.ctx, dir, wire[1..]);
      (if r.ok then [r.data[r.start..]] + rest.0 else rest.0, rest.1)
  }

  function SealAll(aes: Aes, ctx: Context, dir: nat, sent: seq<Sent>): seq<seq<Byte>>
    requires dir < 2
  {
    if sent == [] then []
    else [Seal(aes, ctx, sent[0].count, dir, sent[0].sht, sent[0].plain)] + SealAll(aes, ctx, dir, sent[1..])
  }

  function Plains(sent: seq<Sent>): seq<seq<Byte>> {
    if sent == [] then [] else [sent[0].plain] + Plains(sent[1..])
  }

  function LastCount(last: Count, sent: seq<Sent>): Count
    requires InOrder(last.Value(), sent)
    decreases |sent|
  {
    if sent == [] then last else CountOfValue(sent[0].count); LastCount(CountOf(sent[0].count), sent[1..])
  }

  /** The COUNTs of a context do not enter the envelope. */
  lemma SealIgnoresCounts(aes: Aes, ctx: Context, ul: Count, dl: Count, count: nat, dir: nat, sht: Byte,
      plain: seq<Byte>)
    requires dir < 2
    ensures Seal(aes, ctx.(ul := ul, dl := dl), count, dir, sht, plain) == Seal(aes, ctx, count, dir, sht, plain)
  {
    hide ComputeMac, Cipher;
  }

  lemma {:induction false} StreamIgnoresDl(aes: Aes, ctx: Context, dl: Count, dir: nat, sent: seq<Sent>)
    requires dir < 2
    ensures SealAll(aes, ctx.(dl := dl), dir, sent) == SealAll(aes, ctx, dir, sent)
    ensures AllClear(aes, ctx.(dl := dl), dir, sent) == AllClear(aes, ctx, dir, sent)
    decreases |sent|
  {
    hide Seal, Silent;
    if sent != [] {
      SealIgnoresCounts(aes, ctx, ctx.ul, dl, sent[0].count, dir, sent[0].sht, sent[0].plain);
      StreamIgnoresDl(aes, ctx, dl, dir, sent[1..]);
    }
  }

  /**
    A stream of any length, in either direction, of any protected types under any pair of
    algorithms: every message is accepted, every COUNT rebuilt (also around the 24-bit wrap),
    and the context ends at the last COUNT; the plaintexts come back in order if and only if
    every message is clear.
   */
  lemma {:induction false} StreamOpens(aes: Aes, ctx: Context, dir: nat, sent: seq<Sent>)
    requires dir < 2 && ctx.active && ctx.dl.Valid() && InOrder(ctx.dl.Value(), sent)
    ensures var r := OpenAll(aes, ctx, dir, SealAll(aes, ctx, dir, sent));
            && |r.0| == |sent| && r.1 == ctx.(dl := LastCount(ctx.dl, sent))
            && (r.0 == Plains(sent) <==> AllClear(aes, ctx, dir, sent))
    decreases |sent|
  {
    hide Seal, Open, Clear, Ahead;
    if sent != [] {
      var wire := SealAll(aes, ctx, dir, sent);
      var count := sent[0].count;
      assert Ahead(ctx.dl.Value(), count);
      OpenSealed(aes, ctx, count, dir, sent[0].sht, sent[0].plain);
      AheadInRange(ctx.dl.Value(), count);
      var next := ctx.(dl := CountOf(count));
      assert wire[1..] == SealAll(aes, ctx, dir, sent[1..]);
      StreamIgnoresDl(aes, ctx, CountOf(count), dir, sent[1..]);
      StreamOpens(aes, next, dir, sent[1..]);
      var first := Open(aes, ctx, dir, wire[0]).data[HEADER..];
      var rest := OpenAll(aes, next, dir, wire[1..]).0;
      assert ([first] + rest)[1..] == rest && ([sent[0].plain] + Plains(sent[1..]))[1..] == Plains(sent[1..]);
    } else {
      assert ctx == ctx.(dl := ctx.dl);
    }
  }

  lemma AheadInRange(last: nat, count: nat)
    requires Ahead(last, count)
    ensures count < COUNT_LIMIT && CountOf(count).Valid() && CountOf(count).Value() == count
  {
  }

  // ------------------------------------------------------------- uplink

  /** Protects the messages one after the other in a buffer large enough for each. */
  function ProtectAll(aes: Aes, ctx: Context, sht: Byte, plains: seq<seq<Byte>>): (seq<seq<Byte>>, Context)
    decreases |plains|
  {
    if plains == [] then ([], ctx)
    else
      var one := Protect(aes, ctx, sht, plains[0], HEADER + |plains[0]|);
      var rest := ProtectAll(aes, one.1, sht, plains[1..]);
      (if one.0.Some? then [one.0.value] + rest.0 else rest.0, rest.1)
  }

  /** An empty message is not sent and uses no COUNT. */
  function NonEmpty(plains: seq<seq<Byte>>): seq<seq<Byte>> {
    if plains == [] then []
    else if plains[0] == [] then NonEmpty(plains[1..])
    else [plains[0]] + NonEmpty(plains[1..])
  }

  /** The uplink stream with its COUNTs written out: consecutive from `first`, modulo 2^24. */
  function Consecutive(first: Count, sht: Byte, plains: seq<seq<Byte>>): seq<Sent>
    decreases |plains|
  {
    if plains == [] then []
    else [Sent(first.Value(), sht, plains[0])] + Consecutive(Increment(first), sht, plains[1..])
  }

  lemma {:induction false} ProtectAllIsConsecutive(aes: Aes, ctx: Context, peer: Context, sht: Byte,
      plains: seq<seq<Byte>>)
    requires ctx.active && ctx.ul.Valid() && ProtectedType(sht)
    requires peer == ctx.(ul := peer.ul, dl := peer.dl)
    ensures ProtectAll(aes, ctx, sht, plains).0
         == SealAll(aes, peer, UPLINK, Consecutive(ctx.ul, sht, NonEmpty(plains)))
    decreases |plains|
  {
    hide Seal;
    if plains != [] {
      if plains[0] == [] {
        ProtectAllIsConsecutive(aes, ctx, peer, sht, plains[1..]);
      } else {
        IncrementAddsOne(ctx.ul);
        SealIgnoresCounts(aes, ctx, peer.ul, peer.dl, ctx.ul.Value(), UPLINK, sht, plains[0]);
        var kept := NonEmpty(plains);
        assert kept[1..] == NonEmpty(plains[1..]);
        var sent := Consecutive(ctx.ul, sht, kept);
        assert sent[1..] == Consecutive(Increment(ctx.ul), sht, kept[1..]);
        ProtectAllIsConsecutive(aes, ctx.(ul := Increment(ctx.ul)), peer, sht, plains[1..]);
      }
    }
  }

  lemma {:induction false} ConsecutiveInOrder(last: Count, first: Count, sht: Byte, plains: seq<seq<Byte>>)
    requires last.Valid() && first.Valid() && (first == last || first == Increment(last)) && ProtectedType(sht)
    ensures InOrder(last.Value(), Consecutive(first, sht, plains))
    ensures Plains(Consecutive(first, sht, plains)) == plains
    decreases |plains|
  {
    if plains != [] {
      var sent := Consecutive(first, sht, plains);
      IncrementAddsOne(last);
      IncrementAddsOne(first);
      assert sent[1..] == Consecutive(Increment(first), sht, plains[1..]);
      ConsecutiveInOrder(first, Increment(first), sht, plains[1..]);
      assert plains == [plains[0]] + plains[1..];
    }
  }

  lemma {:induction false} CipheredAllClear(aes: Aes, ctx: Context, dir: nat, first: Count, sht: Byte,
      plains: seq<seq<Byte>>)
    requires dir < 2 && Ciphered(sht)
    ensures AllClear(aes, ctx, dir, Consecutive(first, sht, plains))
    decreases |plains|
  {
    if plains != [] {
      var sent := Consecutive(first, sht, plains);
      assert sent[1..] == Consecutive(Increment(first), sht, plains[1..]);
      CipheredAllClear(aes, ctx, dir, Increment(first), sht, plains[1..]);
    }
  }

  /**
    What the UE protects, a peer with the same keys and COUNT opens: the same messages in
    the same order, from any COUNT and however often it wraps, if and only if all are clear,
    which ciphered types always are.
   */
  lemma UplinkRoundTrip(aes: Aes, ctx: Context, peer: Context, sht: Byte, plains: seq<seq<Byte>>)
    requires ctx.active && ctx.ul.Valid() && ProtectedType(sht)
    requires peer == ctx.(ul := peer.ul, dl := peer.dl) && peer.dl == ctx.ul
    ensures var sent := Consecutive(ctx.ul, sht, NonEmpty(plains));
            var got := OpenAll(aes, peer, UPLINK, ProtectAll(aes, ctx, sht, plains).0).0;
            && (got == NonEmpty(plains) <==> AllClear(aes, peer, UPLINK, sent))
            && (Ciphered(sht) ==> got == NonEmpty(plains))
  {
    hide SealAll, OpenAll, ProtectAll, AllClear, Consecutive;
    var kept := NonEmpty(plains);
    ProtectAllIsConsecutive(aes, ctx, peer, sht, plains);
    ConsecutiveInOrder(ctx.ul, ctx.ul, sht, kept);
    StreamOpens(aes, peer, UPLINK, Consecutive(ctx.ul, sht, kept));
    if Ciphered(sht) {
      CipheredAllClear(aes, peer, UPLINK, ctx.ul, sht, kept);
    }
  }

  // ------------------------------------------------ keystream positions

  /** The counter block `i` steps after the initial one. */
  function Advance(ctr: Block, i: nat): Block { if i == 0 then ctr else Next(Advance(ctr, i - 1)) }

  function Position(count: nat, bearer: Byte, dir: nat, i: nat): Block
    requires dir < 2
  {
    BigEndian(count, 4) + [BearerOctet(bearer, dir)] + Zeros(7) + BigEndian(i, 4)
  }

  lemma {:induction false} BigEndianOfZero(k: nat)
    ensures BigEndian(0, k) == Zeros(k)
  {
    if k > 0 {
      BigEndianOfZero(k - 1);
    }
  }

  lemma {:induction false} AdvanceIsPosition(count: nat, bearer: Byte, dir: nat, i: nat)
    requires dir < 2 && i < 0x1_0000_0000
    ensures Advance(CipherIv(count, bearer, dir), i) == Position(count, bearer, dir, i)
  {
    hide BigEndian, FromBigEndian;
    if i == 0 {
      BigEndianOfZero(4);
      assert Zeros(11) == Zeros(7) + Zeros(4);
    } else {
      AdvanceIsPosition(count, bearer, dir, i - 1);
      var before := Position(count, bearer, dir, i - 1);
      assert before[12..] == BigEndian(i - 1, 4);
      assert before[..12] == Position(count, bearer, dir, i)[..12];
      Pow256Values();
      BigEndianRoundTrip(i - 1, 4);
    }
  }

  /** Under one key no two (COUNT, direction, block) triples use the same counter block. */
  lemma PositionsDistinct(count: nat, dir: nat, i: nat, count': nat, dir': nat, i': nat, bearer: Byte)
    requires dir < 2 && dir' < 2 && i < 0x1_0000_0000 && i' < 0x1_0000_0000
    requires count < COUNT_LIMIT && count' < COUNT_LIMIT
    requires Position(count, bearer, dir, i) == Position(count', bearer, dir', i')
    ensures count == count' && dir == dir' && i == i'
  {
    hide BigEndian, FromBigEndian, Zeros;
    var p, q := Position(count, bearer, dir, i), Position(count', bearer, dir', i');
    assert p[..4] == BigEndian(count, 4) && q[..4] == BigEndian(count', 4);
    assert p[4] == BearerOctet(bearer, dir) && q[4] == BearerOctet(bearer, dir');
    assert p[12..] == BigEndian(i, 4) && q[12..] == BigEndian(i', 4);
    Pow256Values();
    BigEndianRoundTrip(count, 4);
    BigEndianRoundTrip(count', 4);
    BigEndianRoundTrip(i, 4);
    BigEndianRoundTrip(i', 4);
  }
}
