/**
  UDP over IPv4 as `src/ims_service/ims_ip.c` builds and parses it, with the Internet
  checksum of RFC 1071 computed in a 32-bit accumulator.
 */
module ImsIp {
  import opened Bytes

  // ------------------------------------------------------------ checksum

  function Word(hi: Byte, lo: Byte): nat {
    var h: int := hi;
    256 * h + lo
  }

  /** A 16-bit number in network order. */
  function Octets16(v: nat): (s: seq<Byte>)
    requires v < 0x1_0000
    ensures |s| == 2 && Word(s[0], s[1]) == v
  {
    [v / 256, v % 256]
  }

  /** The sum of the 16-bit words; an odd octet at the end is the high half of a word. */
  function Sum(data: seq<Byte>): nat
    decreases |data|
  {
    if |data| == 0 then 0
    else if |data| == 1 then Word(data[0], 0)
    else Word(data[0], data[1]) + Sum(data[2..])
  }

  lemma {:induction false} SumBound(data: seq<Byte>)
    ensures Sum(data) <= 0xffff * ((|data| + 1) / 2)
    decreases |data|
  {
    if |data| >= 2 {
      SumBound(data[2..]);
    }
  }

  lemma {:induction false} SumConcat(a: seq<Byte>, b: seq<Byte>)
    requires |a| % 2 == 0
    ensures Sum(a + b) == Sum(a) + Sum(b)
    decreases |a|
  {
    if a == [] {
      assert a + b == b;
    } else {
      assert (a + b)[2..] == a[2..] + b;
      SumConcat(a[2..], b);
    }
  }

  const U32 := 0x1_0000_0000

  /** The accumulator is 32 bits wide; within 128 KiB of input it never wraps. */
  method ChecksumAdd(start: nat, data: seq<Byte>) returns (sum: nat)
    requires start + 0xffff * ((|data| + 1) / 2) < U32
    ensures sum == start + Sum(data) < U32
  {
    hide Word;
    sum := start;
    var i := 0;
    SumBound(data);
    assert data[0..] == data;
    while i + 1 < |data|
      invariant 0 <= i <= |data| && i % 2 == 0
      invariant sum + Sum(data[i..]) == start + Sum(data)
    {
      assert data[i..][2..] == data[i + 2..];
      sum := (sum + Word(data[i], data[i + 1])) % U32;
      i := i + 2;
    }
    if i < |data| {
      sum := (sum + Word(data[i], 0)) % U32;
    }
  }

  /** One's-complement value of a sum: 0 for 0, otherwise the representative of its residue in 1..65535. */
  function Folded(sum: nat): (f: nat)
    ensures f <= 0xffff
  {
    if sum == 0 then 0 else (sum - 1) % 0xffff + 1
  }

  function Complement(sum: nat): (c: nat)
    ensures c <= 0xffff
  {
    0xffff - Folded(sum)
  }

  lemma FoldStep(sum: nat)
    requires sum >= 0x1_0000
    ensures var t := sum % 0x1_0000 + sum / 0x1_0000;
            0 < t < sum && Folded(t) == Folded(sum)
  {
    var hi, lo := sum / 0x1_0000, sum % 0x1_0000;
    assert sum - 1 == hi * 0xffff + (hi + lo - 1);
    AddMultiple(hi + lo - 1, hi);
  }

  lemma {:induction false} AddMultiple(n: nat, k: nat)
    ensures (k * 0xffff + n) % 0xffff == n % 0xffff
  {
    if k > 0 {
      AddMultiple(n, k - 1);
      assert k * 0xffff + n == ((k - 1) * 0xffff + n) + 0xffff;
    }
  }

  /** Folding terminates in 16 bits with the one's-complement value; the checksum is its complement. */
  method ChecksumFinish(start: nat) returns (csum: nat)
    ensures csum == Complement(start)
  {
    var sum := start;
    while sum / 0x1_0000 > 0
      invariant Folded(sum) == Folded(start)
      decreases sum
    {
      FoldStep(sum);
      sum := sum % 0x1_0000 + sum / 0x1_0000;
    }
    assert sum == Folded(sum) by {
      if sum > 0 {
        SmallFold(sum);
      }
    }
    csum := 0xffff - sum;
  }

  lemma SmallFold(sum: nat)
    requires 0 < sum < 0x1_0000
    ensures Folded(sum) == sum
  {
  }

  /** Adding the complement of the folded sum makes the receiver's sum fold to all ones. */
  lemma ComplementFoldsToOnes(sum: nat, csum: nat)
    requires csum == Complement(sum) || (csum == 0xffff && Complement(sum) == 0)
    requires sum + csum > 0
    ensures Folded(sum + csum) == 0xffff
  {
    if sum > 0 {
      var r := (sum - 1) % 0xffff;
      var q := (sum - 1) / 0xffff;
      assert sum - 1 == q * 0xffff + r;
      if csum == Complement(sum) {
        assert sum + csum - 1 == q * 0xffff + 0xfffe;
        AddMultiple(0xfffe, q);
      } else {
        assert sum + csum - 1 == (q + 1) * 0xffff + 0xfffe;
        AddMultiple(0xfffe, q + 1);
      }
    }
  }

  // ------------------------------------------------------------- packets

  type Address = a: seq<Byte> | |a| == 4 witness [0, 0, 0, 0]

  datatype Udp = Udp(src: Address, dst: Address, srcPort: nat, dstPort: nat, payload: seq<Byte>) {
    predicate Valid() { srcPort < 0x1_0000 && dstPort < 0x1_0000 && |payload| <= MAX_PAYLOAD }
  }

  const MAX_PAYLOAD := 0xffff - 28

  function HeaderFront(total: nat): seq<Byte>
    requires total < 0x1_0000
  {
    [0x45, 0] + Octets16(total) + [0, 0, 0x40, 0, 64, 17]
  }

  function Header(u: Udp, csum: nat): (h: seq<Byte>)
    requires u.Valid() && csum < 0x1_0000
    ensures |h| == 20
  {
    HeaderFront(28 + |u.payload|) + Octets16(csum) + (u.src + u.dst)
  }

  function Segment(u: Udp, csum: nat): (s: seq<Byte>)
    requires u.Valid() && csum < 0x1_0000
    ensures |s| == 8 + |u.payload|
  {
    Octets16(u.srcPort) + Octets16(u.dstPort) + Octets16(8 + |u.payload|) + Octets16(csum) + u.payload
  }

  function Pseudo(u: Udp): (s: seq<Byte>)
    requires u.Valid()
    ensures |s| == 12
  {
    u.src + u.dst + [0, 17] + Octets16(8 + |u.payload|)
  }

  function HeaderChecksum(u: Udp): (c: nat)
    requires u.Valid()
    ensures c < 0x1_0000
  {
    hide Sum, Header;
    Complement(Sum(Header(u, 0)))
  }

  /** RFC 768: a checksum of zero is sent as all ones. */
  function SegmentChecksum(u: Udp): (c: nat)
    requires u.Valid()
    ensures c < 0x1_0000
  {
    hide Sum, Pseudo, Segment;
    var c := Complement(Sum(Pseudo(u)) + Sum(Segment(u, 0)));
    if c == 0 then 0xffff else c
  }

  function Packet(u: Udp): (p: seq<Byte>)
    requires u.Valid()
    ensures |p| == 28 + |u.payload|
  {
    Header(u, HeaderChecksum(u)) + Segment(u, SegmentChecksum(u))
  }

  lemma SumOf16(v: nat)
    requires v < 0x1_0000
    ensures Sum(Octets16(v)) == v
  {
  }

  /** The checksum field enters the sum as its own value. */
  lemma FieldInSum(a: seq<Byte>, csum: nat, b: seq<Byte>)
    requires |a| % 2 == 0 && csum < 0x1_0000
    ensures Sum(a + Octets16(csum) + b) == Sum(a + Octets16(0) + b) + csum
  {
    hide Sum, Octets16;
    SumConcat(a + Octets16(csum), b);
    SumConcat(a + Octets16(0), b);
    SumConcat(a, Octets16(csum));
    SumConcat(a, Octets16(0));
    SumOf16(csum);
    SumOf16(0);
  }

  /** What the receiver checks: header and segment each sum to all ones. */
  lemma ReceiverAccepts(u: Udp)
    requires u.Valid()
    ensures Folded(Sum(Header(u, HeaderChecksum(u)))) == 0xffff
    ensures Folded(Sum(Pseudo(u)) + Sum(Segment(u, SegmentChecksum(u)))) == 0xffff
  {
    hide Sum, Octets16;
    var h, s := HeaderChecksum(u), SegmentChecksum(u);
    FieldInSum(HeaderFront(28 + |u.payload|), h, u.src + u.dst);
    SumPositive(u);
    ComplementFoldsToOnes(Sum(Header(u, 0)), h);
    var front := Octets16(u.srcPort) + Octets16(u.dstPort) + Octets16(8 + |u.payload|);
    FieldInSum(front, s, u.payload);
    ComplementFoldsToOnes(Sum(Pseudo(u)) + Sum(Segment(u, 0)), s);
  }

  lemma SumPositive(u: Udp)
    requires u.Valid()
    ensures Sum(Header(u, 0)) > 0
  {
    hide Sum;
    var front := HeaderFront(28 + |u.payload|);
    assert Header(u, 0) == [0x45, 0] + (front[2..] + Octets16(0) + (u.src + u.dst));
    SumConcat([0x45, 0], front[2..] + Octets16(0) + (u.src + u.dst));
    FirstWord();
  }

  lemma FirstWord()
    ensures Sum([0x45, 0]) == 0x4500
  {
  }

  // ------------------------------------------------------------- parsing

  datatype Parsed = Ok(udp: Udp) | Invalid | Unsupported

  function At16(s: seq<Byte>, i: nat): (v: nat)
    requires i + 1 < |s|
    ensures v < 0x1_0000
  {
    Word(s[i], s[i + 1])
  }

  function Parse(p: seq<Byte>): (r: Parsed)
    ensures r.Ok? ==> r.udp.Valid()
  {
    if |p| < 28 then Invalid
    else if p[0] / 16 != 4 then Unsupported
    else
      var ihl := p[0] % 16 * 4;
      if ihl < 20 || ihl > |p| then Invalid
      else if p[9] != 17 then Unsupported
      else
        var total := At16(p, 2);
        if total < ihl + 8 || total > |p| then Invalid
        else
          var len := At16(p, ihl + 4);
          if len < 8 || ihl + len > total then Invalid
          else Ok(Udp(p[12..16], p[16..20], At16(p, ihl), At16(p, ihl + 2), p[ihl + 8..ihl + len]))
  }

  /**
    The packet is an IPv4 header of 20 octets for UDP, options up to the header length, the
    datagram's segment, padding up to the total length, and whatever follows it.  No checksum
    is looked at.
   */
  predicate Framed(p: seq<Byte>, head: seq<Byte>, options: seq<Byte>, csum: nat, padding: seq<Byte>,
      trailing: seq<Byte>, u: Udp)
  {
    && u.Valid() && csum < 0x1_0000
    && p == head + options + Segment(u, csum) + padding + trailing
    && |head| == 20 && |options| % 4 == 0 && |options| <= 40
    && head[0] == 0x40 + (20 + |options|) / 4 && head[9] == 17
    && At16(head, 2) == 20 + |options| + 8 + |u.payload| + |padding|
    && head[12..16] == u.src && head[16..20] == u.dst
  }

  ghost predicate Carries(p: seq<Byte>, u: Udp) {
    exists head, options, csum, padding, trailing :: Framed(p, head, options, csum, padding, trailing, u)
  }

  lemma OctetsOfWord(hi: Byte, lo: Byte)
    ensures Octets16(Word(hi, lo)) == [hi, lo]
  {
    var h: int := hi;
    var l: int := lo;
    assert (256 * h + l) / 256 == h && (256 * h + l) % 256 == l;
  }

  /** Eight octets and what follows them, read as a segment. */
  lemma SegmentOf(s: seq<Byte>, u: Udp)
    requires |s| >= 8 && u.Valid() && At16(s, 0) == u.srcPort && At16(s, 2) == u.dstPort
    requires At16(s, 4) == |s| && s[8..] == u.payload
    ensures s == Segment(u, At16(s, 6))
  {
    hide Word, Octets16;
    OctetsOfWord(s[0], s[1]);
    OctetsOfWord(s[2], s[3]);
    OctetsOfWord(s[4], s[5]);
    OctetsOfWord(s[6], s[7]);
    assert s == [s[0], s[1]] + [s[2], s[3]] + [s[4], s[5]] + [s[6], s[7]] + s[8..];
  }

  lemma ParsedCarries(p: seq<Byte>)
    requires Parse(p).Ok?
    ensures Carries(p, Parse(p).udp)
  {
    hide Word, Segment, Carries;
    var u := Parse(p).udp;
    var ihl, total := p[0] % 16 * 4, At16(p, 2);
    var len := At16(p, ihl + 4);
    var head, options := p[..20], p[20..ihl];
    var padding, trailing := p[ihl + len..total], p[total..];
    var s := p[ihl..ihl + len];
    assert s[8..] == u.payload;
    SegmentOf(s, u);
    assert p == head + options + s + padding + trailing;
    FramedHeader(p, head, p[20..]);
    OctetOf(p[0], ihl);
    CarriesIntro(p, head, options, At16(s, 6), padding, trailing, u);
  }

  lemma CarriesIntro(p: seq<Byte>, head: seq<Byte>, options: seq<Byte>, csum: nat, padding: seq<Byte>,
      trailing: seq<Byte>, u: Udp)
    requires Framed(p, head, options, csum, padding, trailing, u)
    ensures Carries(p, u)
  {
    hide Framed;
  }

  lemma OctetOf(octet: Byte, ihl: nat)
    requires octet / 16 == 4 && octet % 16 * 4 == ihl >= 20
    ensures octet == 0x40 + ihl / 4 && ihl % 4 == 0 && ihl <= 60
  {
  }

  lemma FramedHeader(p: seq<Byte>, head: seq<Byte>, rest: seq<Byte>)
    requires |head| == 20 && p == head + rest
    ensures p[0] == head[0] && p[9] == head[9] && At16(p, 2) == At16(head, 2)
    ensures p[12..16] == head[12..16] && p[16..20] == head[16..20]
  {
  }

  lemma FramedSegment(p: seq<Byte>, front: seq<Byte>, s: seq<Byte>, rest: seq<Byte>)
    requires |s| >= 8 && p == front + s + rest
    ensures var at := |front|;
            && At16(p, at) == At16(s, 0) && At16(p, at + 2) == At16(s, 2) && At16(p, at + 4) == At16(s, 4)
            && p[at + 8..at + |s|] == s[8..]
  {
    hide Word;
    assert p[|front|..|front| + |s|] == s;
    assert forall i :: 0 <= i < |s| ==> p[|front| + i] == s[i];
  }

  lemma FramedParses(p: seq<Byte>, head: seq<Byte>, options: seq<Byte>, csum: nat, padding: seq<Byte>,
      trailing: seq<Byte>, u: Udp)
    requires Framed(p, head, options, csum, padding, trailing, u)
    ensures Parse(p) == Ok(u)
  {
    hide Segment, Word;
    var s := Segment(u, csum);
    assert p == head + (options + s + padding + trailing);
    FramedHeader(p, head, options + s + padding + trailing);
    assert p == (head + options) + s + (padding + trailing);
    FramedSegment(p, head + options, s, padding + trailing);
    SegmentFields(u, csum);
    IhlOf(head[0], |options|);
  }

  lemma IhlOf(octet: Byte, options: nat)
    requires options % 4 == 0 && options <= 40 && octet == 0x40 + (20 + options) / 4
    ensures octet / 16 == 4 && octet % 16 * 4 == 20 + options
  {
  }

  /** Parsing yields a datagram exactly when the packet carries it. */
  lemma ParsesIffCarries(p: seq<Byte>, u: Udp)
    ensures Parse(p) == Ok(u) <==> Carries(p, u)
  {
    hide Parse, Framed;
    if Parse(p) == Ok(u) {
      ParsedCarries(p);
    }
    if Carries(p, u) {
      var head, options, csum, padding, trailing :| Framed(p, head, options, csum, padding, trailing, u);
      FramedParses(p, head, options, csum, padding, trailing, u);
    }
  }

  /** Every octet read lies inside the packet; the result is the one datagram the packet carries, if any. */
  method ParseUdp(p: seq<Byte>) returns (r: Parsed)
    ensures r == Parse(p)
    ensures forall u :: r == Ok(u) <==> Carries(p, u)
  {
    hide Carries;
    forall u
      ensures Parse(p) == Ok(u) <==> Carries(p, u)
    {
      ParsesIffCarries(p, u);
    }
    if |p| < 28 {
      return Invalid;
    }
    if p[0] / 16 != 4 {
      return Unsupported;
    }
    var ihl := p[0] % 16 * 4;
    if ihl < 20 || ihl > |p| {
      return Invalid;
    }
    if p[9] != 17 {
      return Unsupported;
    }
    var total := At16(p, 2);
    if total < ihl + 8 || total > |p| {
      return Invalid;
    }
    var len := At16(p, ihl + 4);
    if len < 8 || ihl + len > total {
      return Invalid;
    }
    return Ok(Udp(p[12..16], p[16..20], At16(p, ihl), At16(p, ihl + 2), p[ihl + 8..ihl + len]));
  }

  /** Parsing a built packet returns what it was built from, with or without octets behind it. */
  lemma ParseBuilt(u: Udp, trailing: seq<Byte>)
    requires u.Valid()
    ensures Parse(Packet(u) + trailing) == Ok(u)
  {
    hide Sum, HeaderChecksum, SegmentChecksum;
    var p := Packet(u) + trailing;
    var h, s := Header(u, HeaderChecksum(u)), Segment(u, SegmentChecksum(u));
    assert p == h + (s + trailing);
    HeaderFields(u, HeaderChecksum(u));
    SegmentFields(u, SegmentChecksum(u));
    assert p[..20] == h;
    assert p[2] == h[2] && p[3] == h[3];
    assert p[12..16] == h[12..16] && p[16..20] == h[16..20];
    forall i | 0 <= i < |s|
      ensures p[20 + i] == s[i]
    {
    }
    assert p[28..20 + |s|] == s[8..];
  }

  lemma HeaderFields(u: Udp, csum: nat)
    requires u.Valid() && csum < 0x1_0000
    ensures var h := Header(u, csum);
            && h[0] == 0x45 && h[9] == 17 && At16(h, 2) == 28 + |u.payload|
            && h[12..16] == u.src && h[16..20] == u.dst
  {
    var h := Header(u, csum);
    var front := HeaderFront(28 + |u.payload|);
    assert h[..10] == front;
    assert h[12..] == u.src + u.dst;
    assert h[12..16] == h[12..][..4] && h[16..20] == h[12..][4..];
  }

  lemma SegmentFields(u: Udp, csum: nat)
    requires u.Valid() && csum < 0x1_0000
    ensures var s := Segment(u, csum);
            && At16(s, 0) == u.srcPort && At16(s, 2) == u.dstPort && At16(s, 4) == 8 + |u.payload|
            && s[8..] == u.payload
  {
  }

  // ------------------------------------------------------ building in place

  method Build(out: array<Byte>, u: Udp) returns (len: int)
    requires u.srcPort < 0x1_0000 && u.dstPort < 0x1_0000
    modifies out
    ensures len == -1 <==> |u.payload| > MAX_PAYLOAD || out.Length < 28 + |u.payload|
    ensures len == -1 ==> out[..] == old(out[..])
    ensures len != -1 ==> u.Valid() && len == 28 + |u.payload| && out[..len] == Packet(u)
    ensures len != -1 ==> out[len..] == old(out[len..])
  {
    hide Sum, Octets16, Header, Segment, Pseudo;
    if |u.payload| > MAX_PAYLOAD || out.Length < 28 + |u.payload| {
      return -1;
    }
    len := 28 + |u.payload|;
    ghost var tail := out[len..];
    Put(out, 0, Header(u, 0));
    var sum := ChecksumAdd(0, out[0..20]);
    assert out[0..20] == Header(u, 0);
    var csum := ChecksumFinish(sum);
    Put(out, 0, Header(u, csum));
    assert out[..20] == Header(u, HeaderChecksum(u));
    Put(out, 20, Segment(u, 0));
    assert out[20..len] == Segment(u, 0);
    sum := ChecksumAdd(0, Pseudo(u));
    SumBound(Pseudo(u));
    sum := ChecksumAdd(sum, out[20..len]);
    csum := ChecksumFinish(sum);
    Put(out, 20, Segment(u, if csum != 0 then csum else 0xffff));
    assert out[20..len] == Segment(u, SegmentChecksum(u));
    assert out[..20] == Header(u, HeaderChecksum(u));
    assert out[..len] == out[..20] + out[20..len];
    assert out[len..] == tail;
  }
}
