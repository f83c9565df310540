/** Octets, octet strings, exclusive or, and big- and little-endian number encodings. */
module Bytes {
  type Byte = x: int | 0 <= x < 256

  /** A 128-bit cipher block. */
  type Block = b: seq<Byte> | |b| == 16 witness [0, 0, 0, 0, 0, 0, 0, 0, 0, 0, 0, 0, 0, 0, 0, 0]

  function Zeros(n: nat): (z: seq<Byte>)
    ensures |z| == n && forall i :: 0 <= i < n ==> z[i] == 0
  {
    seq(n, _ => 0)
  }

  // --------------------------------------------------------------- bits

  function Pow2(n: nat): (p: nat)
    ensures p > 0
  {
    if n == 0 then 1 else 2 * Pow2(n - 1)
  }

  /** Bit `i` of a number, bit 0 being the least significant. */
  predicate Bit(x: nat, i: nat) {
    if i == 0 then x % 2 == 1 else Bit(x / 2, i - 1)
  }

  /** Exclusive or of the low `n` bits. */
  function XorBits(a: nat, b: nat, n: nat): (x: nat)
    ensures x < Pow2(n)
  {
    if n == 0 then 0 else 2 * XorBits(a / 2, b / 2, n - 1) + (a + b) % 2
  }

  lemma HalfAndParity(h: nat, p: nat)
    requires p < 2
    ensures (2 * h + p) / 2 == h && (2 * h + p) % 2 == p
  {
  }

  lemma ParityUndo(x: nat, a: nat, b: nat)
    requires x % 2 == (a + b) % 2
    ensures (x + b) % 2 == a % 2
  {
  }

  lemma {:induction false} XorBitsUndo(a: nat, b: nat, n: nat)
    requires a < Pow2(n)
    ensures XorBits(XorBits(a, b, n), b, n) == a
  {
    if n > 0 {
      var x := XorBits(a, b, n);
      HalfAndParity(XorBits(a / 2, b / 2, n - 1), (a + b) % 2);
      ParityUndo(x, a, b);
      XorBitsUndo(a / 2, b / 2, n - 1);
      assert XorBits(x, b, n) == 2 * (a / 2) + a % 2;
    }
  }

  lemma ParityOfSum(a: nat, b: nat)
    ensures ((a + b) % 2 == 1) == ((a % 2 == 1) != (b % 2 == 1))
  {
  }

  lemma {:induction false} BitOfXor(a: nat, b: nat, n: nat, i: nat)
    requires i < n
    ensures Bit(XorBits(a, b, n), i) == (Bit(a, i) != Bit(b, i))
  {
    HalfAndParity(XorBits(a / 2, b / 2, n - 1), (a + b) % 2);
    if i == 0 {
      ParityOfSum(a, b);
    } else {
      BitOfXor(a / 2, b / 2, n - 1, i - 1);
    }
  }

  lemma Pow2Of8()
    ensures Pow2(8) == 256
  {
    assert Pow2(4) == 16;
  }

  function XorByte(a: Byte, b: Byte): Byte {
    Pow2Of8();
    XorBits(a, b, 8)
  }

  lemma XorByteUndo(a: Byte, b: Byte)
    ensures XorByte(XorByte(a, b), b) == a
  {
    Pow2Of8();
    XorBitsUndo(a, b, 8);
  }

  lemma {:induction false} XorBitsIdentity(a: nat, b: nat, n: nat)
    requires a < Pow2(n) && b < Pow2(n)
    ensures XorBits(a, b, n) == a <==> b == 0
  {
    if n > 0 {
      HalfAndParity(XorBits(a / 2, b / 2, n - 1), (a + b) % 2);
      XorBitsIdentity(a / 2, b / 2, n - 1);
    }
  }

  lemma XorByteIdentity(a: Byte, b: Byte)
    ensures XorByte(a, b) == a <==> b == 0
  {
    Pow2Of8();
    XorBitsIdentity(a, b, 8);
  }

  function Xor(a: seq<Byte>, b: seq<Byte>): (c: seq<Byte>)
    requires |a| <= |b|
    ensures |c| == |a| && forall i :: 0 <= i < |a| ==> c[i] == XorByte(a[i], b[i])
  {
    seq(|a|, i requires 0 <= i < |a| => XorByte(a[i], b[i]))
  }

  lemma XorUndo(a: seq<Byte>, b: seq<Byte>)
    requires |a| <= |b|
    ensures Xor(Xor(a, b), b) == a
  {
    forall i | 0 <= i < |a|
      ensures Xor(Xor(a, b), b)[i] == a[i]
    {
      XorByteUndo(a[i], b[i]);
    }
  }

  /** Only a zero mask leaves octets as they are. */
  lemma XorIdentity(a: seq<Byte>, b: seq<Byte>)
    requires |a| <= |b|
    ensures Xor(a, b) == a <==> b[..|a|] == Zeros(|a|)
  {
    forall i | 0 <= i < |a|
      ensures Xor(a, b)[i] == a[i] <==> b[..|a|][i] == Zeros(|a|)[i]
    {
      XorByteIdentity(a[i], b[i]);
    }
  }

  // ------------------------------------------------------------- numbers

  /** The low `k` octets of `n`, most significant first. */
  function BigEndian(n: nat, k: nat): (s: seq<Byte>)
    ensures |s| == k
  {
    if k == 0 then [] else BigEndian(n / 256, k - 1) + [n % 256]
  }

  /** The low `k` octets of `n`, least significant first. */
  function LittleEndian(n: nat, k: nat): (s: seq<Byte>)
    ensures |s| == k
  {
    if k == 0 then [] else [n % 256] + LittleEndian(n / 256, k - 1)
  }

  function FromBigEndian(s: seq<Byte>): nat {
    if s == [] then 0 else FromBigEndian(s[..|s| - 1]) * 256 + s[|s| - 1]
  }

  function FromLittleEndian(s: seq<Byte>): nat {
    if s == [] then 0 else s[0] + 256 * FromLittleEndian(s[1..])
  }

  function Pow256(k: nat): (p: nat)
    ensures p > 0
  {
    if k == 0 then 1 else 256 * Pow256(k - 1)
  }

  lemma DropOctet(n: nat, k: nat)
    requires 0 < k && n < Pow256(k)
    ensures n / 256 < Pow256(k - 1)
  {
  }

  lemma {:induction false} BigEndianRoundTrip(n: nat, k: nat)
    requires n < Pow256(k)
    ensures FromBigEndian(BigEndian(n, k)) == n
  {
    if k > 0 {
      var s := BigEndian(n, k);
      assert s[..k - 1] == BigEndian(n / 256, k - 1);
      DropOctet(n, k);
      BigEndianRoundTrip(n / 256, k - 1);
    }
  }

  lemma {:induction false} LittleEndianRoundTrip(n: nat, k: nat)
    requires n < Pow256(k)
    ensures FromLittleEndian(LittleEndian(n, k)) == n
  {
    if k > 0 {
      DropOctet(n, k);
      LittleEndianRoundTrip(n / 256, k - 1);
    }
  }

  lemma Pow256Values()
    ensures Pow256(2) == 0x1_0000 && Pow256(4) == 0x1_0000_0000
  {
    assert Pow256(2) == 0x1_0000;
  }

  /** Octet `i` of a number, octet 0 being the least significant: `n >> 8 i` truncated to 8 bits. */
  function OctetAt(n: nat, i: nat): Byte {
    if i == 0 then n % 256 else OctetAt(n / 256, i - 1)
  }

  lemma {:induction false} BigEndianAt(n: nat, k: nat, i: nat)
    requires i < k
    ensures BigEndian(n, k)[i] == OctetAt(n, k - 1 - i)
  {
    if i < k - 1 {
      BigEndianAt(n / 256, k - 1, i);
    }
  }

  lemma {:induction false} LittleEndianAt(n: nat, k: nat, i: nat)
    requires i < k
    ensures LittleEndian(n, k)[i] == OctetAt(n, i)
  {
    if i > 0 {
      LittleEndianAt(n / 256, k - 1, i - 1);
    }
  }

  // ------------------------------------------------------------ sequences

  lemma Associate(a: seq<Byte>, b: seq<Byte>, c: seq<Byte>)
    ensures (a + b) + c == a + (b + c)
  {
  }

  /** `s` with the octets from `at` on replaced. */
  function Patched(s: seq<Byte>, at: nat, d: seq<Byte>): (r: seq<Byte>)
    requires at + |d| <= |s|
    ensures |r| == |s|
  {
    s[..at] + d + s[at + |d|..]
  }

  lemma PatchMiddle(a: seq<Byte>, b: seq<Byte>, c: seq<Byte>, d: seq<Byte>)
    requires |b| == |d|
    ensures Patched(a + b + c, |a|, d) == a + d + c
  {
  }

  /** Overwrites the octets of a buffer from `at` on. */
  method Put(out: array<Byte>, at: nat, data: seq<Byte>)
    requires at + |data| <= out.Length
    modifies out
    ensures forall j :: 0 <= j < out.Length ==>
              out[j] == if at <= j < at + |data| then data[j - at] else old(out[j])
  {
    for i := 0 to |data|
      invariant forall j :: 0 <= j < at || at + i <= j < out.Length ==> out[j] == old(out[j])
      invariant forall j :: 0 <= j < i ==> out[at + j] == data[j]
    {
      out[at + i] := data[i];
    }
  }
}
