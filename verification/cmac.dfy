/**
  AES-CMAC as `src/ue_engine/ue_nas_security.c` computes it, against RFC 4493.
  The block cipher under the key is an arbitrary function.
 */
module Cmac {
  import opened Bytes

  // ------------------------------------------------------------ subkeys

  /** Octet `j` of the block shifted left by one bit. */
  function Shifted(b: Block, j: nat): Byte
    requires j < 16
  {
    var x: int := b[j];
    var next: int := if j < 15 then b[j + 1] else 0;
    2 * x % 256 + next / 128
  }

  /** What a bit that falls out adds: the polynomial's tail. */
  function Tail(b: Block): Byte { if b[0] >= 128 then 0x87 else 0 }

  function Double(b: Block): (d: Block)
    ensures forall j :: 0 <= j < 15 ==> d[j] == Shifted(b, j)
    ensures d[15] == XorByte(Shifted(b, 15), Tail(b))
  {
    seq(15, j requires 0 <= j < 15 => Shifted(b, j)) + [XorByte(Shifted(b, 15), Tail(b))]
  }

  method ShiftLeft(input: Block) returns (out: array<Byte>)
    ensures fresh(out) && out.Length == 16
    ensures out[..] == Double(input)
  {
    hide XorByte;
    out := new Byte[16];
    var carry: Byte := 0;
    var i := 15;
    while i >= 0
      invariant -1 <= i <= 15
      invariant carry == if i < 15 then input[i + 1] / 128 else 0
      invariant forall j :: i < j < 16 ==> out[j] == Shifted(input, j)
    {
      var x: int := input[i];
      out[i] := 2 * x % 256 + carry;
      carry := if input[i] >= 128 then 1 else 0;
      i := i - 1;
    }
    if input[0] >= 128 {
      out[15] := XorByte(out[15], 0x87);
    } else {
      XorWithZero(out[15]);
    }
  }

  lemma XorWithZero(a: Byte)
    ensures XorByte(a, 0) == a
  {
    Pow2Of8();
    XorBitsWithZero(a, 8);
  }

  lemma {:induction false} XorBitsWithZero(a: nat, n: nat)
    requires a < Pow2(n)
    ensures XorBits(a, 0, n) == a
  {
    if n > 0 {
      XorBitsWithZero(a / 2, n - 1);
    }
  }

  /** Coefficient of x^k of the polynomial over GF(2) that the block stands for. */
  predicate Coefficient(b: Block, k: nat)
    requires k < 128
  {
    Bit(b[15 - k / 8], k % 8)
  }

  lemma {:induction false} DropTopBit(x: nat, k: nat, i: nat)
    requires i < k && Pow2(k) <= x
    ensures Bit(x - Pow2(k), i) == Bit(x, i)
  {
    if i > 0 {
      assert (x - Pow2(k)) / 2 == x / 2 - Pow2(k - 1);
      DropTopBit(x / 2, k - 1, i - 1);
    }
  }

  lemma {:induction false} HighestBit(x: nat, k: nat)
    requires x < 2 * Pow2(k)
    ensures Bit(x, k) == (x >= Pow2(k))
  {
    if k > 0 {
      HighestBit(x / 2, k - 1);
    }
  }

  lemma TopBit(x: Byte)
    ensures Bit(x, 7) == (x >= 128)
  {
    Pow2Of8();
    HighestBit(x, 7);
  }

  lemma ShiftBits(x: nat, carry: nat, i: nat)
    requires x < 256 && i < 8 && carry < 2
    ensures Bit(2 * x % 256 + carry, i) == if i == 0 then carry == 1 else Bit(x, i - 1)
  {
    var y := 2 * x % 256 + carry;
    if i > 0 {
      assert Pow2(7) == 128 by { Pow2Of8(); }
      assert y / 2 == if x >= 128 then x - 128 else x;
      if x >= 128 {
        DropTopBit(x, 7, i - 1);
      }
    }
  }

  lemma TailBits(i: nat)
    requires i < 8
    ensures Bit(0x87, i) == (i == 0 || i == 1 || i == 2 || i == 7)
    ensures !Bit(0, i)
  {
    match i {
      case 0 => case 1 => case 2 => case 3 => case 4 => case 5 => case 6 => case 7 =>
    }
  }

  /** The subkey step multiplies by x modulo x^128 + x^7 + x^2 + x + 1. */
  lemma DoubleIsMultiplicationByX(b: Block, k: nat)
    requires k < 128
    ensures Coefficient(Double(b), k)
         == ((0 < k && Coefficient(b, k - 1)) != (Coefficient(b, 127) && (k == 0 || k == 1 || k == 2 || k == 7)))
  {
    hide Bit, XorByte;
    var j := 15 - k / 8;
    var i := k % 8;
    var carry := if j < 15 then b[j + 1] / 128 else 0;
    ShiftBits(b[j], carry, i);
    TopBit(b[0]);
    if j < 15 {
      TopBit(b[j + 1]);
    } else {
      XorByteBit(Shifted(b, 15), Tail(b), i);
      TailBits(i);
    }
  }

  lemma XorByteBit(a: Byte, b: Byte, i: nat)
    requires i < 8
    ensures Bit(XorByte(a, b), i) == (Bit(a, i) != Bit(b, i))
  {
    BitOfXor(a, b, 8, i);
  }

  // ---------------------------------------------------------- the schedule

  /** Section 2.4 of RFC 4493: the blocks that enter the chain, the last one masked with a subkey. */
  function Schedule(msg: seq<Byte>, k1: Block, k2: Block): (blocks: seq<Block>)
    ensures |blocks| >= 1
    decreases |msg|
  {
    if |msg| > 16 then [msg[..16]] + Schedule(msg[16..], k1, k2)
    else if |msg| == 16 then [Xor(msg, k1)]
    else [Xor(msg + [0x80] + Zeros(15 - |msg|), k2)]
  }

  function Chain(aes: Block -> Block, x: Block, blocks: seq<Block>): Block
    decreases |blocks|
  {
    if blocks == [] then x else Chain(aes, aes(Xor(x, blocks[0])), blocks[1..])
  }

  function Mac(aes: Block -> Block, msg: seq<Byte>): Block {
    var k1 := Double(aes(Zeros(16)));
    Chain(aes, Zeros(16), Schedule(msg, k1, Double(k1)))
  }

  function Blocks(msg: seq<Byte>): nat { if |msg| == 0 then 1 else (|msg| + 15) / 16 }

  /** The chain has one block per started 16 octets, and one for the empty message. */
  lemma {:induction false} ScheduleLength(msg: seq<Byte>, k1: Block, k2: Block)
    ensures |Schedule(msg, k1, k2)| == Blocks(msg)
    decreases |msg|
  {
    if |msg| > 16 {
      ScheduleLength(msg[16..], k1, k2);
    }
  }

  /** The last block, as the source builds it. */
  function LastBlock(msg: seq<Byte>, k1: Block, k2: Block): Block {
    if |msg| > 0 && |msg| % 16 == 0 then Xor(msg[|msg| - 16..], k1)
    else Xor(msg[|msg| - |msg| % 16..] + [0x80] + Zeros(15 - |msg| % 16), k2)
  }

  method Last(msg: seq<Byte>, k1: Block, k2: Block) returns (last: array<Byte>)
    ensures fresh(last) && last.Length == 16
    ensures last[..] == LastBlock(msg, k1, k2)
  {
    hide XorByte;
    last := new Byte[16](_ => 0);
    if |msg| > 0 && |msg| % 16 == 0 {
      for i := 0 to 16
        invariant forall j :: 0 <= j < i ==> last[j] == XorByte(msg[|msg| - 16 + j], k1[j])
      {
        last[i] := XorByte(msg[|msg| - 16 + i], k1[i]);
      }
    } else {
      var rem := |msg| % 16;
      ghost var padded := msg[|msg| - rem..] + [0x80] + Zeros(15 - rem);
      for i := 0 to rem
        invariant forall j :: 0 <= j < i ==> last[j] == padded[j]
        invariant forall j :: i <= j < 16 ==> last[j] == 0
      {
        last[i] := msg[|msg| - rem + i];
      }
      last[rem] := 0x80;
      for i := 0 to 16
        invariant forall j :: 0 <= j < i ==> last[j] == XorByte(padded[j], k2[j])
        invariant forall j :: i <= j < 16 ==> last[j] == padded[j]
      {
        last[i] := XorByte(last[i], k2[i]);
      }
    }
  }

  lemma ChainStep(aes: Block -> Block, x: Block, msg: seq<Byte>, k1: Block, k2: Block)
    requires |msg| > 16
    ensures Chain(aes, x, Schedule(msg, k1, k2)) == Chain(aes, aes(Xor(x, msg[..16])), Schedule(msg[16..], k1, k2))
  {
    hide XorByte;
    assert ([msg[..16]] + Schedule(msg[16..], k1, k2))[1..] == Schedule(msg[16..], k1, k2);
  }

  lemma ChainEnd(aes: Block -> Block, x: Block, msg: seq<Byte>, k1: Block, k2: Block)
    requires |msg| <= 16
    ensures Chain(aes, x, Schedule(msg, k1, k2)) == aes(Xor(x, LastBlock(msg, k1, k2)))
  {
    hide XorByte;
    assert Schedule(msg, k1, k2) == [LastBlock(msg, k1, k2)] by {
      if |msg| == 16 {
        assert msg[|msg| - 16..] == msg;
      } else {
        assert msg[|msg| - |msg| % 16..] == msg;
      }
    }
  }

  lemma LastBlockOfTail(msg: seq<Byte>, i: nat, k1: Block, k2: Block)
    requires 16 * i <= |msg| && (|msg| == 16 * i ==> i == 0)
    ensures LastBlock(msg[16 * i..], k1, k2) == LastBlock(msg, k1, k2)
  {
    hide XorByte, Xor;
    var rest := msg[16 * i..];
    assert |rest| % 16 == |msg| % 16;
    if |msg| > 0 && |msg| % 16 == 0 {
      assert rest[|rest| - 16..] == msg[|msg| - 16..];
    } else {
      assert rest[|rest| - |rest| % 16..] == msg[|msg| - |msg| % 16..];
    }
  }

  /** The whole computation: subkeys, block count, masked last block, chain. */
  method Compute(aes: Block -> Block, msg: seq<Byte>) returns (mac: Block)
    ensures mac == Mac(aes, msg)
  {
    hide Double, Schedule, LastBlock, Chain, XorByte;
    var first := ShiftLeft(aes(Zeros(16)));
    var k1: Block := first[..];
    var second := ShiftLeft(k1);
    var k2: Block := second[..];
    var n := (|msg| + 15) / 16;
    if n == 0 {
      n := 1;
    }
    var final := Last(msg, k1, k2);
    var last: Block := final[..];
    var x: Block := Zeros(16);
    var i := 0;
    assert msg[16 * i..] == msg;
    while i < n - 1
      invariant 0 <= i <= n - 1 && 16 * i <= |msg|
      invariant Chain(aes, x, Schedule(msg[16 * i..], k1, k2)) == Mac(aes, msg)
    {
      ChainStep(aes, x, msg[16 * i..], k1, k2);
      assert msg[16 * i..][..16] == msg[16 * i..16 * (i + 1)];
      assert msg[16 * i..][16..] == msg[16 * (i + 1)..];
      x := aes(Xor(x, msg[16 * i..16 * (i + 1)]));
      i := i + 1;
    }
    mac := aes(Xor(x, last));
    ChainEnd(aes, x, msg[16 * i..], k1, k2);
    LastBlockOfTail(msg, i, k1, k2);
    assert mac == Mac(aes, msg);
  }
}
