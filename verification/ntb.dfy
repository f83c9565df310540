/** NTB16 framing of `src/mbim_frontend/mbim_ntb.c`, after sections 3.2.1 and 3.3.1 of USB CDC NCM 1.0. */
module Ntb {
  import opened Options
  import opened Bytes

  const NTH_SIGNATURE: seq<Byte> := [0x4e, 0x43, 0x4d, 0x48]
  const NDP_SIGNATURE: seq<Byte> := [0x49, 0x50, 0x53]
  const NTH_LENGTH := 12
  const NDP_LENGTH := 16
  const MAX_BLOCK := 0xffff
  const U32 := 0x1_0000_0000

  function At16(s: seq<Byte>, i: nat): (v: nat)
    requires i + 2 <= |s|
    ensures v < 0x1_0000
  {
    var hi: int := s[i + 1];
    s[i] + 256 * hi
  }

  function Le16(v: nat): (s: seq<Byte>)
    requires v < 0x1_0000
    ensures |s| == 2 && At16(s, 0) == v
  {
    [v % 256, v / 256]
  }

  // --------------------------------------------------- the chain, recursively

  predicate Usable(block: nat, index: nat, len: nat) { len != 0 && index + len <= block }

  /** The datagrams of one datagram table, from entry `p` up to `end`; a null entry ends it. */
  function Entries(ntb: seq<Byte>, block: nat, p: nat, end: nat): seq<seq<Byte>>
    requires end <= block <= |ntb|
    decreases end - p
  {
    if p + 4 > end then []
    else
      var index, len := At16(ntb, p), At16(ntb, p + 2);
      if index == 0 && len == 0 then []
      else if Usable(block, index, len) then [ntb[index..index + len]] + Entries(ntb, block, p + 4, end)
      else Entries(ntb, block, p + 4, end)
  }

  function TableEnd(block: nat, ndp: nat, len: nat): nat {
    if len < 8 || ndp + len > block then block else ndp + len
  }

  /** The tables from `ndp` on; a link must point strictly forward. */
  function Chain(ntb: seq<Byte>, block: nat, ndp: nat): seq<seq<Byte>>
    requires block <= |ntb|
    decreases block - ndp
  {
    if ndp == 0 || ndp + 8 > block || ntb[ndp..ndp + 3] != NDP_SIGNATURE then []
    else
      var here := Entries(ntb, block, ndp + 8, TableEnd(block, ndp, At16(ntb, ndp + 4)));
      var next := At16(ntb, ndp + 6);
      if next == 0 || next <= ndp then here else here + Chain(ntb, block, next)
  }

  function BlockLength(ntb: seq<Byte>): (n: nat)
    requires |ntb| >= NTH_LENGTH
    ensures n <= |ntb|
  {
    var n := At16(ntb, 8);
    if n == 0 || n > |ntb| then |ntb| else n
  }

  function Datagrams(ntb: seq<Byte>): Option<seq<seq<Byte>>> {
    if |ntb| < NTH_LENGTH || ntb[..4] != NTH_SIGNATURE then None
    else Some(Chain(ntb, BlockLength(ntb), At16(ntb, 10)))
  }

  /** A slice of the block. */
  ghost predicate Inside(ntb: seq<Byte>, block: nat, d: seq<Byte>) {
    block <= |ntb| && exists i, j :: 0 <= i < j <= block && d == ntb[i..j]
  }

  lemma {:induction false} EntriesInside(ntb: seq<Byte>, block: nat, p: nat, end: nat)
    requires end <= block <= |ntb|
    ensures forall d :: d in Entries(ntb, block, p, end) ==> Inside(ntb, block, d)
    decreases end - p
  {
    if p + 4 <= end {
      var index, len := At16(ntb, p), At16(ntb, p + 2);
      if !(index == 0 && len == 0) {
        EntriesInside(ntb, block, p + 4, end);
        if Usable(block, index, len) {
          assert 0 <= index < index + len <= block && ntb[index..index + len] == ntb[index..index + len];
          assert Inside(ntb, block, ntb[index..index + len]);
        }
      }
    }
  }

  /** Whatever the input, only non-empty slices of the block are delivered. */
  lemma {:induction false} ChainInside(ntb: seq<Byte>, block: nat, ndp: nat)
    requires block <= |ntb|
    ensures forall d :: d in Chain(ntb, block, ndp) ==> Inside(ntb, block, d)
    decreases block - ndp
  {
    hide Inside, Entries;
    if !(ndp == 0 || ndp + 8 > block || ntb[ndp..ndp + 3] != NDP_SIGNATURE) {
      EntriesInside(ntb, block, ndp + 8, TableEnd(block, ndp, At16(ntb, ndp + 4)));
      var next := At16(ntb, ndp + 6);
      if !(next == 0 || next <= ndp) {
        ChainInside(ntb, block, next);
      }
    }
  }

  /** The walk of the source: two nested loops with cursors. */
  method Deframe(ntb: seq<Byte>) returns (r: Option<seq<seq<Byte>>>)
    ensures r == Datagrams(ntb)
  {
    hide Entries, At16, TableEnd, Chain;
    if |ntb| < NTH_LENGTH {
      return None;
    }
    if ntb[..4] != NTH_SIGNATURE {
      return None;
    }
    var block := At16(ntb, 8);
    if block == 0 || block > |ntb| {
      block := |ntb|;
    }
    var ndp := At16(ntb, 10);
    var out: seq<seq<Byte>> := [];
    ghost var all := Chain(ntb, block, ndp);
    while ndp != 0 && ndp + 8 <= block
      invariant block == BlockLength(ntb)
      invariant out + Chain(ntb, block, ndp) == all
      decreases block - ndp
    {
      if ntb[ndp..ndp + 3] != NDP_SIGNATURE {
        break;
      }
      ChainStep(ntb, block, ndp);
      var len := At16(ntb, ndp + 4);
      var next := At16(ntb, ndp + 6);
      var end := EndOf(block, ndp, len);
      var here := WalkTable(ntb, block, ndp + 8, end);
      ghost var before := out;
      out := out + here;
      if next == 0 || next <= ndp {
        return Some(out);
      }
      assert before + (here + Chain(ntb, block, next)) == out + Chain(ntb, block, next);
      ndp := next;
    }
    ChainEnds(ntb, block, ndp);
    assert out + [] == out;
    return Some(out);
  }

  predicate TableAt(ntb: seq<Byte>, block: nat, ndp: nat)
    requires block <= |ntb|
  {
    ndp != 0 && ndp + 8 <= block && ntb[ndp..ndp + 3] == NDP_SIGNATURE
  }

  lemma ChainEnds(ntb: seq<Byte>, block: nat, ndp: nat)
    requires block <= |ntb| && !TableAt(ntb, block, ndp)
    ensures Chain(ntb, block, ndp) == []
  {
  }

  lemma ChainStep(ntb: seq<Byte>, block: nat, ndp: nat)
    requires block <= |ntb| && TableAt(ntb, block, ndp)
    ensures TableEnd(block, ndp, At16(ntb, ndp + 4)) <= block
    ensures var here := Entries(ntb, block, ndp + 8, TableEnd(block, ndp, At16(ntb, ndp + 4)));
            var next := At16(ntb, ndp + 6);
            Chain(ntb, block, ndp) == if next == 0 || next <= ndp then here else here + Chain(ntb, block, next)
  {
  }

  method EndOf(block: nat, ndp: nat, len: nat) returns (end: nat)
    ensures end == TableEnd(block, ndp, len) <= block
  {
    end := ndp + len;
    if len < 8 || end > block {
      end := block;
    }
  }

  method WalkTable(ntb: seq<Byte>, block: nat, start: nat, end: nat) returns (out: seq<seq<Byte>>)
    requires end <= block <= |ntb|
    ensures out == Entries(ntb, block, start, end)
  {
    out := [];
    var p := start;
    while p + 4 <= end
      invariant out + Entries(ntb, block, p, end) == Entries(ntb, block, start, end)
      decreases end - p
    {
      var index, len := At16(ntb, p), At16(ntb, p + 2);
      if index == 0 && len == 0 {
        break;
      }
      if !(len == 0 || index + len > block) {
        ghost var rest := Entries(ntb, block, p + 4, end);
        assert out + ([ntb[index..index + len]] + rest) == (out + [ntb[index..index + len]]) + rest;
        out := out + [ntb[index..index + len]];
      }
      p := p + 4;
    }
  }

  // --------------------------------------------------------------- framing

  function NdpOffset(len: nat): nat { (NTH_LENGTH + len + 3) / 4 * 4 }

  function Total(len: nat): nat { NdpOffset(len) + NDP_LENGTH }

  predicate Framable(len: nat, cap: nat) { len > 0 && Total(len) <= cap && Total(len) <= MAX_BLOCK }

  // The sizes as computed, in 32 bits.

  function NdpOffset32(len: nat): nat { (NTH_LENGTH + len + 3) % U32 / 4 * 4 }

  function Total32(len: nat): nat { (NdpOffset32(len) + NDP_LENGTH) % U32 }

  lemma SizeExactIff(len: nat)
    requires len < U32
    ensures Total32(len) == Total(len) <==> len < U32 - 31
    ensures len < U32 - 31 ==> NdpOffset32(len) == NdpOffset(len)
    ensures len >= U32 - 31 ==> Total32(len) <= 28
  {
  }

  /** The check of the computed size admits exactly the framable datagrams unless the size wraps to one that fits. */
  lemma SizeCheckExactIff(len: nat, cap: nat)
    requires len < U32
    ensures (len > 0 && Total32(len) <= cap && Total32(len) <= MAX_BLOCK <==> Framable(len, cap))
       <==> len < U32 - 31 || cap < Total32(len)
  {
    SizeExactIff(len);
    assert len >= U32 - 31 ==> Total(len) > MAX_BLOCK;
  }

  function Nth(len: nat, sequence: nat): (s: seq<Byte>)
    requires Total(len) <= MAX_BLOCK && sequence < 0x1_0000
    ensures |s| == NTH_LENGTH
  {
    NTH_SIGNATURE + Le16(NTH_LENGTH) + Le16(sequence) + Le16(Total(len)) + Le16(NdpOffset(len))
  }

  function Ndp(len: nat): (s: seq<Byte>)
    requires len < 0x1_0000
    ensures |s| == NDP_LENGTH
  {
    NDP_SIGNATURE + [0] + Le16(NDP_LENGTH) + Le16(0) + Le16(NTH_LENGTH) + Le16(len) + Le16(0) + Le16(0)
  }

  function Frame(ip: seq<Byte>, sequence: nat): (s: seq<Byte>)
    requires Total(|ip|) <= MAX_BLOCK && sequence < 0x1_0000
    ensures |s| == Total(|ip|)
  {
    Nth(|ip|, sequence) + ip + Zeros(NdpOffset(|ip|) - NTH_LENGTH - |ip|) + Ndp(|ip|)
  }

  lemma NthFields(len: nat, sequence: nat)
    requires Total(len) <= MAX_BLOCK && sequence < 0x1_0000
    ensures var s := Nth(len, sequence);
            s[..4] == NTH_SIGNATURE && At16(s, 8) == Total(len) && At16(s, 10) == NdpOffset(len)
  {
  }

  lemma NdpFields(len: nat)
    requires len < 0x1_0000
    ensures var s := Ndp(len);
            && s[..3] == NDP_SIGNATURE && At16(s, 4) == NDP_LENGTH && At16(s, 6) == 0
            && At16(s, 8) == NTH_LENGTH && At16(s, 10) == len && At16(s, 12) == 0 && At16(s, 14) == 0
  {
  }

  lemma At16Shift(a: seq<Byte>, b: seq<Byte>, c: seq<Byte>, i: nat)
    requires i + 2 <= |b|
    ensures At16(a + b + c, |a| + i) == At16(b, i)
  {
    assert (a + b + c)[|a| + i] == b[i];
    assert (a + b + c)[|a| + i + 1] == b[i + 1];
  }

  /** What is framed is deframed to exactly that one datagram, with or without octets behind the block. */
  lemma DeframeFramed(ip: seq<Byte>, sequence: nat, trailing: seq<Byte>)
    requires |ip| > 0 && Total(|ip|) <= MAX_BLOCK && sequence < 0x1_0000
    ensures Datagrams(Frame(ip, sequence) + trailing) == Some([ip])
  {
    hide Nth, Ndp, At16, Le16, Entries, Chain;
    var len, off := |ip|, NdpOffset(|ip|);
    var pad := Zeros(off - NTH_LENGTH - len);
    var nth, ndp := Nth(len, sequence), Ndp(len);
    var s := Frame(ip, sequence) + trailing;
    NthFields(len, sequence);
    NdpFields(len);
    assert s == [] + nth + (ip + pad + ndp + trailing);
    At16Shift([], nth, ip + pad + ndp + trailing, 8);
    At16Shift([], nth, ip + pad + ndp + trailing, 10);
    assert s[..4] == nth[..4];
    var front := nth + ip + pad;
    assert |front| == off && s == front + ndp + trailing;
    assert s[off..off + 3] == ndp[..3];
    assert s[12..12 + len] == ip;
    At16Shift(front, ndp, trailing, 4);
    At16Shift(front, ndp, trailing, 6);
    At16Shift(front, ndp, trailing, 8);
    At16Shift(front, ndp, trailing, 10);
    At16Shift(front, ndp, trailing, 12);
    At16Shift(front, ndp, trailing, 14);
    OneTable(s, Total(len), off, len);
    assert BlockLength(s) == Total(len);
  }

  /** A chain of one table with one entry at 12 and a null entry. */
  lemma OneTable(s: seq<Byte>, block: nat, off: nat, len: nat)
    requires block == off + NDP_LENGTH <= |s| && 0 < off && 0 < len && 12 + len <= off
    requires s[off..off + 3] == NDP_SIGNATURE && At16(s, off + 4) == NDP_LENGTH && At16(s, off + 6) == 0
    requires At16(s, off + 8) == NTH_LENGTH && At16(s, off + 10) == len
    requires At16(s, off + 12) == 0 && At16(s, off + 14) == 0
    ensures Chain(s, block, off) == [s[12..12 + len]]
  {
    hide At16;
    assert Entries(s, block, off + 12, block) == [];
    assert Entries(s, block, off + 8, block) == [s[12..12 + len]] + [];
  }

  /** Frames one datagram, of a length the size check is exact for, at the front of `out`; 0 when it does not fit. */
  method FrameSingle(out: array<Byte>, ip: seq<Byte>, sequence: nat) returns (n: nat)
    requires sequence < 0x1_0000 && |ip| < U32 && (|ip| < U32 - 31 || out.Length < Total32(|ip|))
    modifies out
    ensures n == if Framable(|ip|, out.Length) then Total(|ip|) else 0
    ensures n == 0 ==> out[..] == old(out[..])
    ensures n > 0 ==> out[..n] == Frame(ip, sequence) && out[n..] == old(out[n..])
  {
    hide Nth, Ndp, Zeros;
    SizeExactIff(|ip|);
    SizeCheckExactIff(|ip|, out.Length);
    var off := (NTH_LENGTH + |ip| + 3) % U32 / 4 * 4;
    n := (off + NDP_LENGTH) % U32;
    if |ip| == 0 || n > out.Length || n > MAX_BLOCK {
      return 0;
    }
    LayOut(out, Nth(|ip|, sequence), ip, off, Ndp(|ip|));
  }

  /** Clears the block and writes header, datagram and its table into it. */
  method LayOut(out: array<Byte>, nth: seq<Byte>, ip: seq<Byte>, off: nat, ndp: seq<Byte>)
    requires |nth| + |ip| <= off && off + |ndp| <= out.Length
    modifies out
    ensures out[..off + |ndp|] == nth + ip + Zeros(off - |nth| - |ip|) + ndp
    ensures out[off + |ndp|..] == old(out[off + |ndp|..])
  {
    var n := off + |ndp|;
    Put(out, 0, Zeros(n));
    Put(out, 0, nth);
    Put(out, |nth|, ip);
    Put(out, off, ndp);
  }
}
