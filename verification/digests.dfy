/**
  The block schedules of the two hash functions: one-shot SHA-256 in
  `src/ue_engine/ue_nas_security.c` and streaming MD5 in `src/ims_service/ims_digest.c`.
  The compression function is arbitrary.
 */
module Digests {
  import opened Bytes

  /** Feeds the whole 64-octet blocks of `s`, in order, to the compression function. */
  function Absorb<H>(compress: (H, seq<Byte>) -> H, h: H, s: seq<Byte>): H
    decreases |s|
  {
    if |s| < 64 then h else Absorb(compress, compress(h, s[..64]), s[64..])
  }

  lemma {:induction false} AbsorbConcat<H>(compress: (H, seq<Byte>) -> H, h: H, a: seq<Byte>, b: seq<Byte>)
    requires |a| % 64 == 0
    ensures Absorb(compress, h, a + b) == Absorb(compress, Absorb(compress, h, a), b)
    decreases |a|
  {
    if a == [] {
      assert a + b == b;
    } else {
      assert (a + b)[..64] == a[..64];
      assert (a + b)[64..] == a[64..] + b;
      AbsorbConcat(compress, compress(h, a[..64]), a[64..], b);
    }
  }

  lemma AbsorbBlock<H>(compress: (H, seq<Byte>) -> H, h: H, a: seq<Byte>, block: seq<Byte>)
    requires |a| % 64 == 0 && |block| == 64
    ensures Absorb(compress, h, a + block) == compress(Absorb(compress, h, a), block)
  {
    AbsorbConcat(compress, h, a, block);
    assert block[..64] == block;
  }

  // -------------------------------------------------------------- padding

  /** Zero octets between the 0x80 marker and the eight length octets. */
  function Gap(n: nat): nat { (119 - n % 64) % 64 }

  /** The gap is the smallest that completes a block. */
  lemma GapIsLeast(n: nat, k: nat)
    ensures (n + 1 + Gap(n) + 8) % 64 == 0
    ensures (n + 1 + k + 8) % 64 == 0 ==> Gap(n) <= k
  {
  }

  function Padded(msg: seq<Byte>, length: seq<Byte>): seq<Byte> {
    msg + [0x80] + Zeros(Gap(|msg|)) + length
  }

  /** Section 5.1.1 of FIPS 180-4: the bit length, big-endian, in 64 bits. */
  function Sha256Padded(msg: seq<Byte>): seq<Byte> { Padded(msg, BigEndian(8 * |msg|, 8)) }

  /** Sections 3.1 and 3.2 of RFC 1321: the bit length, little-endian, in 64 bits. */
  function Md5Padded(msg: seq<Byte>): seq<Byte> { Padded(msg, LittleEndian(8 * |msg|, 8)) }

  lemma PaddedIsWhole(msg: seq<Byte>)
    ensures |Sha256Padded(msg)| % 64 == 0 && |Md5Padded(msg)| % 64 == 0
  {
    GapIsLeast(|msg|, 0);
  }

  // -------------------------------------------------------------- SHA-256

  /** Copies the tail of the message into a zeroed block and sets the marker. */
  method TailBlock(msg: seq<Byte>, rem: nat) returns (block: array<Byte>)
    requires rem == |msg| % 64
    ensures fresh(block) && block.Length == 64
    ensures block[..] == Marked(msg)
  {
    block := new Byte[64](_ => 0);
    for i := 0 to rem
      invariant forall j :: 0 <= j < i ==> block[j] == msg[|msg| - rem + j]
      invariant forall j :: i <= j < 64 ==> block[j] == 0
    {
      block[i] := msg[|msg| - rem + i];
    }
    block[rem] := 0x80;
  }

  method WriteLength(block: array<Byte>, bits: nat)
    requires block.Length == 64
    modifies block
    ensures block[..] == old(block[..56]) + BigEndian(bits, 8)
  {
    for i := 0 to 8
      invariant forall j :: 0 <= j < 56 ==> block[j] == old(block[j])
      invariant forall j :: 0 <= j < i ==> block[56 + j] == BigEndian(bits, 8)[j]
    {
      BigEndianAt(bits, 8, i);
      block[56 + i] := OctetAt(bits, 7 - i);
    }
  }

  /** The tail of the message with its marker, filled up to a block. */
  function Marked(msg: seq<Byte>): (s: seq<Byte>)
    ensures |s| == 64
  {
    msg[|msg| - |msg| % 64..] + [0x80] + Zeros(63 - |msg| % 64)
  }

  /** The one or two blocks the source compresses after the whole blocks of the message. */
  function Sha256Tail(msg: seq<Byte>): seq<Byte> {
    var length := BigEndian(8 * |msg|, 8);
    if |msg| % 64 >= 56 then Marked(msg) + (Zeros(56) + length) else Marked(msg)[..56] + length
  }

  lemma Sha256Split(msg: seq<Byte>)
    ensures msg[..|msg| - |msg| % 64] + Sha256Tail(msg) == Sha256Padded(msg)
  {
    hide BigEndian;
    var rem := |msg| % 64;
    assert msg == msg[..|msg| - rem] + msg[|msg| - rem..];
    if rem >= 56 {
      assert Gap(|msg|) == 119 - rem;
      assert Zeros(63 - rem) + Zeros(56) == Zeros(119 - rem);
    } else {
      assert Gap(|msg|) == 55 - rem;
      assert Marked(msg)[..56] == msg[|msg| - rem..] + [0x80] + Zeros(55 - rem);
    }
  }

  method Sha256<H>(compress: (H, seq<Byte>) -> H, iv: H, msg: seq<Byte>) returns (h: H)
    ensures h == Absorb(compress, iv, Sha256Padded(msg))
  {
    hide Absorb, BigEndian, Marked;
    h := iv;
    var blocks := |msg| / 64;
    AbsorbNothing(compress, iv);
    assert msg[..64 * 0] == [];
    for i := 0 to blocks
      invariant h == Absorb(compress, iv, msg[..64 * i])
    {
      assert msg[..64 * (i + 1)] == msg[..64 * i] + msg[64 * i..64 * (i + 1)];
      AbsorbBlock(compress, iv, msg[..64 * i], msg[64 * i..64 * (i + 1)]);
      h := compress(h, msg[64 * i..64 * (i + 1)]);
    }
    var rem := |msg| % 64;
    assert 64 * blocks == |msg| - rem;
    ghost var done := msg[..|msg| - rem];
    var block := TailBlock(msg, rem);
    if rem >= 56 {
      AbsorbBlock(compress, iv, done, block[..]);
      h := compress(h, block[..]);
      done := done + Marked(msg);
      block := new Byte[64](_ => 0);
      assert block[..56] == Zeros(56);
      Associate(msg[..|msg| - rem], Marked(msg), Zeros(56) + BigEndian(8 * |msg|, 8));
    } else {
      assert block[..56] == Marked(msg)[..56];
    }
    WriteLength(block, 8 * |msg|);
    AbsorbBlock(compress, iv, done, block[..]);
    h := compress(h, block[..]);
    Sha256Split(msg);
  }

  lemma AbsorbNothing<H>(compress: (H, seq<Byte>) -> H, h: H)
    ensures Absorb(compress, h, []) == h
  {
  }

  // ------------------------------------------------------- streaming MD5

  lemma SplitGrown(s: seq<Byte>, k: nat, piece: seq<Byte>)
    requires k <= |s|
    ensures (s + piece)[..k] == s[..k] && (s + piece)[k..] == s[k..] + piece
    ensures s[..k] + (s[k..] + piece) == s + piece == (s + piece)[..|s + piece|]
  {
  }

  class Md5<H> {
    const compress: (H, seq<Byte>) -> H
    const iv: H
    var h: H
    var len: nat
    const buf: array<Byte>
    var bufLen: nat
    /** Everything given to `Update` so far. */
    ghost var fed: seq<Byte>

    ghost predicate Valid()
      reads this, buf
    {
      && buf.Length == 64
      && bufLen == |fed| % 64
      && len == |fed|
      && buf[..bufLen] == fed[|fed| - bufLen..]
      && h == Absorb(compress, iv, fed[..|fed| - bufLen])
    }

    constructor (compress: (H, seq<Byte>) -> H, iv: H)
      ensures Valid() && fresh(buf) && fed == []
      ensures this.compress == compress && this.iv == iv
    {
      this.compress := compress;
      this.iv := iv;
      h := iv;
      len := 0;
      bufLen := 0;
      buf := new Byte[64](_ => 0);
      fed := [];
    }

    method CopyIn(piece: seq<Byte>)
      requires buf.Length == 64 && bufLen + |piece| <= 64
      modifies buf
      ensures buf[..bufLen + |piece|] == old(buf[..bufLen]) + piece
    {
      for i := 0 to |piece|
        invariant forall j :: 0 <= j < bufLen ==> buf[j] == old(buf[j])
        invariant forall j :: 0 <= j < i ==> buf[bufLen + j] == piece[j]
      {
        buf[bufLen + i] := piece[i];
      }
    }

    /** Adds `piece` to the buffer and compresses it when full. */
    method Take(piece: seq<Byte>)
      requires Valid() && |piece| <= 64 - bufLen
      modifies this, buf
      ensures Valid() && fed == old(fed) + piece
    {
      hide Absorb;
      ghost var whole, pending := fed[..|fed| - bufLen], fed[|fed| - bufLen..];
      SplitGrown(fed, |fed| - bufLen, piece);
      CopyIn(piece);
      bufLen := bufLen + |piece|;
      len := len + |piece|;
      fed := fed + piece;
      if bufLen == 64 {
        AbsorbBlock(compress, iv, whole, pending + piece);
        assert buf[..] == buf[..64] == pending + piece;
        h := compress(h, buf[..]);
        bufLen := 0;
        assert h == Absorb(compress, iv, fed);
        assert buf[..0] == fed[|fed|..];
      } else {
        assert buf[..bufLen] == pending + piece;
        assert fed[|fed| - bufLen..] == pending + piece;
        assert fed[..|fed| - bufLen] == whole;
      }
    }

    method Update(data: seq<Byte>)
      requires Valid()
      modifies this, buf
      ensures Valid() && fed == old(fed) + data
    {
      hide Absorb;
      var at := 0;
      while at < |data|
        invariant 0 <= at <= |data|
        invariant Valid() && fed == old(fed) + data[..at]
      {
        var take := 64 - bufLen;
        if take > |data| - at {
          take := |data| - at;
        }
        assert data[..at + take] == data[..at] + data[at..at + take];
        Take(data[at..at + take]);
        at := at + take;
      }
      assert data[..at] == data;
    }

    /** Padding, length and the chaining value; the length is taken before padding. */
    method Final() returns (digest: H)
      requires Valid()
      modifies this, buf
      ensures digest == Absorb(compress, iv, Md5Padded(old(fed)))
    {
      hide Absorb, LittleEndian;
      var length := LengthOctets(len * 8);
      var padLen := if bufLen < 56 then 56 - bufLen else 120 - bufLen;
      ghost var msg := fed;
      assert padLen == 1 + Gap(|msg|);
      Update([0x80] + Zeros(padLen - 1));
      Update(length);
      assert fed == Md5Padded(msg);
      PaddedIsWhole(msg);
      assert fed[..|fed| - bufLen] == fed;
      digest := h;
    }
  }

  method LengthOctets(bits: nat) returns (length: seq<Byte>)
    ensures length == LittleEndian(bits, 8)
  {
    var octets := new Byte[8];
    for i := 0 to 8
      invariant forall j :: 0 <= j < i ==> octets[j] == LittleEndian(bits, 8)[j]
    {
      LittleEndianAt(bits, 8, i);
      octets[i] := OctetAt(bits, i);
    }
    length := octets[..];
  }

  function Flatten(parts: seq<seq<Byte>>): seq<Byte> {
    if parts == [] then [] else Flatten(parts[..|parts| - 1]) + parts[|parts| - 1]
  }

  /** However the input is split over updates, the digest is that of the concatenation. */
  method HashParts<H>(compress: (H, seq<Byte>) -> H, iv: H, parts: seq<seq<Byte>>) returns (digest: H)
    ensures digest == Absorb(compress, iv, Md5Padded(Flatten(parts)))
  {
    hide Absorb, Md5Padded;
    var ctx := new Md5(compress, iv);
    assert parts[..0] == [];
    for i := 0 to |parts|
      invariant ctx.Valid() && fresh(ctx) && fresh(ctx.buf)
      invariant ctx.compress == compress && ctx.iv == iv
      invariant ctx.fed == Flatten(parts[..i])
    {
      ctx.Update(parts[i]);
      assert parts[..i + 1][..i] == parts[..i];
    }
    assert parts[..|parts|] == parts;
    digest := ctx.Final();
  }
}
