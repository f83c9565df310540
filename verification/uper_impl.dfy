/** The bit writer and reader as cursors over a buffer, and the codecs built on them. */
module UperImpl {
  import opened Options
  import opened Bytes
  import opened Uper

  // ------------------------------------------------------ bits of a buffer

  predicate BitAt(s: seq<Byte>, p: nat)
    requires p < 8 * |s|
  {
    Bit(s[p / 8], 7 - p % 8)
  }

  lemma {:induction false} OctetBitsAt(s: seq<Byte>, p: nat)
    requires p < 8 * |s|
    ensures OctetBits(s)[p] == BitAt(s, p)
  {
    hide Bit, ValueBits;
    if p < 8 {
      ValueBitAt(s[0], 8, p);
    } else {
      OctetBitsAt(s[1..], p - 8);
      assert s[1..][(p - 8) / 8] == s[p / 8];
    }
  }

  lemma HalfOfSum(x: nat, p: nat)
    ensures (x + 2 * p) / 2 == x / 2 + p && (x + 2 * p) % 2 == x % 2
  {
  }

  lemma SetLowBit(x: nat, j: nat)
    requires x % 2 == 0
    ensures Bit(x + 1, j) == (j == 0 || Bit(x, j))
  {
    assert (x + 1) / 2 == x / 2;
  }

  lemma {:induction false} SetBit(x: nat, n: nat, k: nat, j: nat)
    requires x < Pow2(n) && k < n && !Bit(x, k) && j < n
    ensures x + Pow2(k) < Pow2(n)
    ensures Bit(x + Pow2(k), j) == (j == k || Bit(x, j))
  {
    if k == 0 {
      SetLowBit(x, j);
    } else {
      HalfOfSum(x, Pow2(k - 1));
      SetBit(x / 2, n - 1, k - 1, if j == 0 then 0 else j - 1);
    }
  }

  lemma SetBitAt(s: seq<Byte>, pos: nat, p: nat)
    requires pos < 8 * |s| && p < 8 * |s| && !BitAt(s, pos)
    ensures s[pos / 8] + Pow2(7 - pos % 8) < 256
    ensures BitAt(s[pos / 8 := s[pos / 8] + Pow2(7 - pos % 8)], p) == (p == pos || BitAt(s, p))
  {
    hide Bit, Pow2;
    Pow2Of8();
    if p / 8 == pos / 8 {
      SetBit(s[pos / 8], 8, 7 - pos % 8, 7 - p % 8);
    } else {
      SetBit(s[pos / 8], 8, 7 - pos % 8, 0);
    }
  }

  // ------------------------------------------------------------- writer

  class BitWriter {
    const buf: array<Byte>
    var pos: nat

    /** Nothing is set behind the cursor. */
    ghost predicate Valid()
      reads this, buf
    {
      pos <= 8 * buf.Length && forall p :: pos <= p < 8 * buf.Length ==> !BitAt(buf[..], p)
    }

    ghost function Contents(): Bits
      requires Valid()
      reads this, buf
    {
      OctetBits(buf[..])[..pos]
    }

    constructor (buf: array<Byte>)
      modifies buf
      ensures Valid() && this.buf == buf && Contents() == []
    {
      this.buf := buf;
      pos := 0;
      new;
      for i := 0 to buf.Length
        modifies buf
        invariant forall j :: 0 <= j < i ==> buf[j] == 0
      {
        buf[i] := 0;
      }
      forall p | 0 <= p < 8 * buf.Length
        ensures !BitAt(buf[..], p)
      {
        ZeroBit(7 - p % 8);
      }
    }

    method PutBit(b: bool)
      requires Valid() && pos < 8 * buf.Length
      modifies this, buf
      ensures Valid() && Contents() == old(Contents()) + [b]
    {
      hide BitAt, Pow2;
      ghost var was := buf[..];
      if b {
        assert !BitAt(was, pos);
        SetBitAt(was, pos, pos);
        buf[pos / 8] := buf[pos / 8] + Pow2(7 - pos % 8);
        assert buf[..] == was[pos / 8 := was[pos / 8] + Pow2(7 - pos % 8)];
        forall p | 0 <= p < 8 * buf.Length
          ensures BitAt(buf[..], p) == (p == pos || BitAt(was, p))
        {
          SetBitAt(was, pos, p);
        }
      }
      ghost var k := pos;
      pos := pos + 1;
      forall p | 0 <= p < 8 * buf.Length
        ensures OctetBits(buf[..])[p] == BitAt(buf[..], p) && OctetBits(was)[p] == BitAt(was, p)
      {
        OctetBitsAt(buf[..], p);
        OctetBitsAt(was, p);
      }
      assert OctetBits(buf[..])[..pos] == OctetBits(was)[..k] + [b];
    }

    /** Writes `nbits` bits of `val`; when the buffer ends first, those that fit are written. */
    method PutBits(val: nat, nbits: int) returns (ok: bool)
      requires Valid()
      modifies this, buf
      ensures Valid()
      ensures ok <==> 1 <= nbits <= 64 && old(pos) + nbits <= 8 * buf.Length
      ensures ok ==> Contents() == old(Contents()) + ValueBits(val, nbits)
      ensures old(Contents()) <= Contents()
    {
      hide ValueBits, Bit, BitAt, OctetBits;
      if nbits <= 0 || nbits > 64 {
        return false;
      }
      ghost var before := Contents();
      var i := nbits - 1;
      while i >= 0
        invariant -1 <= i < nbits
        invariant Valid() && pos == old(pos) + (nbits - 1 - i)
        invariant Contents() == before + ValueBits(val, nbits)[..nbits - 1 - i]
      {
        if pos / 8 >= buf.Length {
          return false;
        }
        ValueBitAt(val, nbits, nbits - 1 - i);
        ghost var w := ValueBits(val, nbits);
        assert w[..nbits - i] == w[..nbits - 1 - i] + [w[nbits - 1 - i]];
        PutBit(Bit(val, i));
        i := i - 1;
      }
      assert ValueBits(val, nbits)[..nbits] == ValueBits(val, nbits);
      return true;
    }

    method PutFields(fields: seq<Field>) returns (ok: bool)
      requires Valid() && forall f :: f in fields ==> Fits(f)
      modifies this, buf
      ensures Valid()
      ensures ok <==> old(pos) + |FieldBits(fields)| <= 8 * buf.Length
      ensures ok ==> Contents() == old(Contents()) + FieldBits(fields)
      decreases |fields|
    {
      hide FieldBits, ValueBits, BitAt, OctetBits, Pow2;
      FieldBitsOf(fields);
      if fields == [] {
        return true;
      }
      assert fields[0] in fields;
      ok := PutBits(fields[0].value, fields[0].width);
      if !ok {
        return;
      }
      ok := PutFields(fields[1..]);
    }

    method PutOctets(data: seq<Byte>) returns (ok: bool)
      requires Valid()
      modifies this, buf
      ensures Valid()
      ensures ok <==> old(pos) + 8 * |data| <= 8 * buf.Length
      ensures ok ==> Contents() == old(Contents()) + OctetBits(data)
    {
      hide OctetBits, ValueBits, BitAt;
      assert data[..0] == [];
      OctetBitsEmpty();
      ghost var before := Contents();
      for i := 0 to |data|
        invariant Valid() && pos == old(pos) + 8 * i
        invariant Contents() == before + OctetBits(data[..i])
      {
        OctetBitsSnoc(data, i);
        var put := PutBits(data[i], 8);
        if !put {
          return false;
        }
      }
      assert data[..|data|] == data;
      return true;
    }

    function ByteLen(): nat
      reads this
    {
      (pos + 7) / 8
    }
  }

  lemma {:induction false} ZeroBit(i: nat)
    ensures !Bit(0, i)
  {
    if i > 0 {
      ZeroBit(i - 1);
    }
  }

  lemma FieldBitsOf(fields: seq<Field>)
    ensures FieldBits(fields)
         == if fields == [] then [] else ValueBits(fields[0].value, fields[0].width) + FieldBits(fields[1..])
  {
  }

  lemma OctetBitsEmpty()
    ensures OctetBits([]) == []
  {
  }

  lemma {:induction false} OctetBitsConcat(a: seq<Byte>, b: seq<Byte>)
    ensures OctetBits(a + b) == OctetBits(a) + OctetBits(b)
  {
    hide ValueBits;
    if a == [] {
      assert a + b == b;
    } else {
      assert (a + b)[1..] == a[1..] + b;
      OctetBitsConcat(a[1..], b);
    }
  }

  lemma OctetBitsSnoc(data: seq<Byte>, i: nat)
    requires i < |data|
    ensures OctetBits(data[..i + 1]) == OctetBits(data[..i]) + ValueBits(data[i], 8)
  {
    hide ValueBits;
    assert data[..i + 1] == data[..i] + [data[i]];
    OctetBitsConcat(data[..i], [data[i]]);
    assert OctetBits([data[i]]) == ValueBits(data[i], 8) + OctetBits([]);
  }

  // ----------------------------------------------------- uplink encoders

  function UlInfoHeader(): seq<Field> { [Field(0, 1), Field(7, 4), Field(0, 1), Field(4, 3)] }

  function SetupCompleteHeader(tx: nat, plmn: nat): seq<Field>
    requires plmn >= 1
  {
    [Field(0, 1), Field(2, 4), Field(tx % 4, 2), Field(0, 1), Field(0, 6), Field(plmn - 1, 4)]
  }

  function MessageBits(header: seq<Field>, nas: seq<Byte>): Bits
    requires |nas| <= MAX_NAS
  {
    FieldBits(header) + StringBits(nas)
  }

  /** A receiver that knows the field widths gets every field and the NAS message back. */
  lemma MessageRoundTrip(header: seq<Field>, nas: seq<Byte>, rest: Bits)
    requires |nas| <= MAX_NAS && forall f :: f in header ==> Fits(f)
    ensures var r := ReadFields(MessageBits(header, nas) + rest, Widths(header));
            && r.Some? && r.value.0 == Values(header)
            && ReadString(r.value.1) == Some((nas, rest))
  {
    hide FieldBits, StringBits, ReadFields, ReadString, Fits;
    assert MessageBits(header, nas) + rest == FieldBits(header) + (StringBits(nas) + rest);
    FieldsRoundTrip(header, StringBits(nas) + rest);
    StringRoundTrip(nas, rest);
  }

  /** What an encoder leaves: the octets used hold the bits of the message, and zeros behind them. */
  ghost predicate Encodes(buf: seq<Byte>, len: int, bits: Bits) {
    && 0 < len <= |buf| && len == (|bits| + 7) / 8
    && bits <= OctetBits(buf)
    && forall p :: |bits| <= p < 8 * |buf| ==> !OctetBits(buf)[p]
  }

  method PutString(w: BitWriter, nas: seq<Byte>) returns (ok: bool)
    requires w.Valid() && |nas| <= MAX_NAS
    modifies w, w.buf
    ensures w.Valid()
    ensures ok <==> old(w.pos) + |StringBits(nas)| <= 8 * w.buf.Length
    ensures ok ==> w.Contents() == old(w.Contents()) + StringBits(nas)
  {
    hide OctetBits, ValueBits, BitAt;
    var f := LengthField(|nas|).value;
    ok := w.PutBits(f.value, f.width);
    if !ok {
      return;
    }
    ok := w.PutOctets(nas);
  }

  method EncodeMessage(buf: array<Byte>, header: seq<Field>, nas: seq<Byte>) returns (len: int)
    requires |nas| <= MAX_NAS && header != [] && forall f :: f in header ==> Fits(f)
    modifies buf
    ensures len == -1 || Encodes(buf[..], len, MessageBits(header, nas))
    ensures len != -1 <==> |MessageBits(header, nas)| <= 8 * buf.Length
  {
    hide FieldBits, StringBits, Fits, BitAt;
    var w := new BitWriter(buf);
    var ok := w.PutFields(header);
    if !ok {
      return -1;
    }
    ok := PutString(w, nas);
    if !ok {
      return -1;
    }
    len := w.ByteLen();
    HeaderNotEmpty(header);
    forall p | w.pos <= p < 8 * buf.Length
      ensures !OctetBits(buf[..])[p]
    {
      OctetBitsAt(buf[..], p);
    }
  }

  lemma HeaderNotEmpty(header: seq<Field>)
    requires header != [] && Fits(header[0])
    ensures |FieldBits(header)| > 0
  {
  }

  method EncodeUlInfoTransfer(buf: array<Byte>, nas: seq<Byte>) returns (len: int)
    modifies buf
    ensures len == -1 || (|nas| <= MAX_NAS && Encodes(buf[..], len, MessageBits(UlInfoHeader(), nas)))
    ensures len != -1 <==> 0 < |nas| <= MAX_NAS && |MessageBits(UlInfoHeader(), nas)| <= 8 * buf.Length
  {
    hide Encodes, MessageBits, Pow2;
    if |nas| == 0 || |nas| > MAX_NAS {
      return -1;
    }
    SmallPowers();
    len := EncodeMessage(buf, UlInfoHeader(), nas);
  }

  method EncodeSetupComplete(buf: array<Byte>, tx: nat, plmn: nat, nas: seq<Byte>) returns (len: int)
    modifies buf
    ensures len == -1 || (|nas| <= MAX_NAS && 1 <= plmn
              && Encodes(buf[..], len, MessageBits(SetupCompleteHeader(tx, plmn), nas)))
    ensures len != -1 <==>
              0 < |nas| <= MAX_NAS && 1 <= plmn <= 12
                  && |MessageBits(SetupCompleteHeader(tx, plmn), nas)| <= 8 * buf.Length
  {
    hide Encodes, MessageBits, Pow2;
    if |nas| == 0 || |nas| > MAX_NAS {
      return -1;
    }
    if plmn < 1 || plmn > 12 {
      return -1;
    }
    SmallPowers();
    assert Pow2(6) > 0;
    len := EncodeMessage(buf, SetupCompleteHeader(tx, plmn), nas);
  }

  // ------------------------------------------------------------- reader

  class BitReader {
    const buf: seq<Byte>
    var pos: nat

    ghost predicate Valid()
      reads this
    {
      pos <= 8 * |buf|
    }

    ghost function Rest(): Bits
      requires Valid()
      reads this
    {
      OctetBits(buf)[pos..]
    }

    constructor (buf: seq<Byte>)
      ensures Valid() && this.buf == buf && pos == 0 && Rest() == OctetBits(buf)
    {
      this.buf := buf;
      pos := 0;
    }

    /**
      Reads `n` bits, most significant first.  A read past the end fails at the end of the
      buffer; a width outside 1..64 fails without reading.
     */
    method GetBits(n: int) returns (r: Option<nat>)
      requires Valid()
      modifies this
      ensures Valid()
      ensures n < 1 || n > 64 ==> r == None && pos == old(pos)
      ensures 1 <= n <= 64 ==>
                match Take(old(Rest()), n)
                case None => r == None && pos == 8 * |buf|
                case Some((v, rest)) => r == Some(v) && Rest() == rest && pos == old(pos) + n
    {
      if n <= 0 || n > 64 {
        return None;
      }
      hide OctetBits, Bit;
      ghost var all := Rest();
      var result := 0;
      var i := 0;
      assert all[..0] == [];
      while i < n
        invariant 0 <= i <= n && Valid() && pos == old(pos) + i && i <= |all|
        invariant result == FromBits(all[..i])
      {
        if pos / 8 >= |buf| {
          return None;
        }
        OctetBitsAt(buf, pos);
        assert all[..i + 1][..i] == all[..i] && all[i] == OctetBits(buf)[pos];
        result := 2 * result + (if Bit(buf[pos / 8], 7 - pos % 8) then 1 else 0);
        pos := pos + 1;
        i := i + 1;
      }
      assert Rest() == all[n..];
      return Some(result);
    }

    method GetLength() returns (r: Option<nat>)
      requires Valid()
      modifies this
      ensures Valid()
      ensures match ReadLength(old(Rest()))
              case None => r == None
              case Some((len, rest)) => r == Some(len) && Rest() == rest
    {
      hide OctetBits, Take;
      var first := GetBits(8);
      if first.None? {
        return None;
      }
      if first.value < 0x80 {
        return first;
      }
      if first.value < 0xc0 {
        var second := GetBits(8);
        if second.None? {
          return None;
        }
        return Some(first.value % 64 * 256 + second.value);
      }
      return None;
    }

    /** The next `n` octets: a slice when the cursor is on an octet boundary, bit by bit otherwise. */
    method ExtractOctets(n: nat) returns (r: Option<seq<Byte>>)
      requires Valid()
      modifies this
      ensures Valid()
      ensures match TakeOctets(old(Rest()), n)
              case None => r == None
              case Some((octets, rest)) => r == Some(octets) && Rest() == rest
    {
      hide OctetBits, TakeOctets;
      if pos % 8 == 0 {
        var off := pos / 8;
        if off + n > |buf| {
          return None;
        }
        AlignedOctets(buf, off, n);
        pos := pos + 8 * n;
        return Some(buf[off..off + n]);
      }
      r := CopyOctets(n);
    }

    method CopyOctets(n: nat) returns (r: Option<seq<Byte>>)
      requires Valid()
      modifies this
      ensures Valid()
      ensures match TakeOctets(old(Rest()), n)
              case None => r == None
              case Some((octets, rest)) => r == Some(octets) && Rest() == rest
    {
      hide OctetBits, TakeOctets, FromBits;
      ghost var all := Rest();
      var copy: seq<Byte> := [];
      TakeNoOctets(all);
      for i := 0 to n
        invariant Valid() && TakeOctets(all, i) == Some((copy, Rest()))
      {
        TakeOctetsSnoc(all, i);
        var b := GetBits(8);
        if b.None? {
          return None;
        }
        copy := copy + [b.value];
      }
      return Some(copy);
    }
  }

  lemma TakeNoOctets(b: Bits)
    ensures TakeOctets(b, 0) == Some(([], b))
  {
  }

  lemma {:induction false} TakeOctetsSnoc(b: Bits, i: nat)
    requires TakeOctets(b, i).Some?
    ensures var (octets, rest) := TakeOctets(b, i).value;
            if |rest| < 8 then forall n :: i < n ==> TakeOctets(b, n) == None
            else FromBits(rest[..8]) < 256 && TakeOctets(b, i + 1) == Some((octets + [FromBits(rest[..8])], rest[8..]))
    decreases i
  {
    hide FromBits;
    if i > 0 {
      TakeOctetsSnoc(b[8..], i - 1);
      var (octets, rest) := TakeOctets(b[8..], i - 1).value;
      FromBitsBound(b[..8]);
      Pow2Of8();
      var head: Byte := FromBits(b[..8]);
      assert TakeOctets(b, i).value == ([head] + octets, rest);
      if |rest| >= 8 {
        var next: Byte := FromBits(rest[..8]);
        assert ([head] + octets) + [next] == [head] + (octets + [next]);
      }
    } else {
      if |b| >= 8 {
        FromBitsBound(b[..8]);
        Pow2Of8();
        assert TakeOctets(b[8..], 0) == Some(([], b[8..]));
        assert [FromBits(b[..8]) as Byte] + [] == [] + [FromBits(b[..8]) as Byte];
      }
    }
  }

  lemma {:induction false} OctetBitsDrop(s: seq<Byte>, k: nat)
    requires k <= |s|
    ensures OctetBits(s)[8 * k..] == OctetBits(s[k..])
  {
    hide ValueBits;
    if k > 0 {
      OctetBitsDrop(s[1..], k - 1);
      assert s[1..][k - 1..] == s[k..];
      assert OctetBits(s)[8..] == OctetBits(s[1..]);
      assert OctetBits(s)[8..][8 * (k - 1)..] == OctetBits(s)[8 * k..];
    }
  }

  lemma AlignedOctets(s: seq<Byte>, off: nat, n: nat)
    requires off + n <= |s|
    ensures TakeOctets(OctetBits(s)[8 * off..], n) == Some((s[off..off + n], OctetBits(s)[8 * (off + n)..]))
  {
    hide OctetBits, TakeOctets;
    OctetBitsDrop(s, off);
    OctetBitsDrop(s, off + n);
    assert s[off..] == s[off..off + n] + s[off + n..];
    OctetBitsConcat(s[off..off + n], s[off + n..]);
    OctetsRoundTrip(s[off..off + n], OctetBits(s[off + n..]));
  }

  // ---------------------------------------------------- downlink decoders

  method DecodeInfoTransfer(r: BitReader) returns (m: Dcch)
    requires r.Valid()
    modifies r
    ensures m == DecodeInfo(old(r.Rest()))
  {
    hide OctetBits, Take, ReadFields, TakeOctets, ReadLength;
    ReadThree(r.Rest(), 2, 1, 3);
    var tx := r.GetBits(2);
    if tx.None? {
      return Malformed;
    }
    ReadTwo(r.Rest(), 1, 3);
    var critical := r.GetBits(1);
    if critical.None? {
      return Malformed;
    }
    var options := r.GetBits(3);
    if options.None? {
      return Malformed;
    }
    assert [tx.value] + [critical.value, options.value] == [tx.value, critical.value, options.value];
    assert ReadFields(old(r.Rest()), [2, 1, 3]) == Some(([tx.value, critical.value, options.value], r.Rest()));
    if critical.value != 0 {
      return Malformed;
    }
    if options.value < 4 {
      return Info(tx.value, None);
    }
    var len := r.GetLength();
    if len.None? {
      return Malformed;
    }
    if len.value > MAX_NAS {
      return Malformed;
    }
    var nas := r.ExtractOctets(len.value);
    if nas.None? {
      return Malformed;
    }
    return Info(tx.value, nas);
  }

  method DecodeDlDcch(data: seq<Byte>) returns (m: Dcch)
    ensures m == DecodeDcch(OctetBits(data))
  {
    hide OctetBits, Take, ReadFields, DecodeInfo;
    ReadTwo(OctetBits(data), 1, 4);
    if |data| < 1 {
      NoBits(data);
      return Malformed;
    }
    var r := new BitReader(data);
    var choice := r.GetBits(1);
    if choice.None? || choice.value != 0 {
      return Malformed;
    }
    var index := r.GetBits(4);
    if index.None? || index.value != 5 {
      return Malformed;
    }
    m := DecodeInfoTransfer(r);
  }

  lemma NoBits(data: seq<Byte>)
    requires |data| == 0
    ensures Take(OctetBits(data), 1) == None
  {
  }

  method DecodeDlCcch(data: seq<Byte>) returns (tx: Option<nat>)
    ensures tx == DecodeCcch(OctetBits(data))
  {
    hide OctetBits, Take, ReadFields;
    ReadTwo(OctetBits(data), 1, 2);
    if |data| < 1 {
      NoBits(data);
      return None;
    }
    var r := new BitReader(data);
    var choice := r.GetBits(1);
    if choice.None? || choice.value != 0 {
      return None;
    }
    var index := r.GetBits(2);
    if index.None? || index.value != 1 {
      return None;
    }
    tx := r.GetBits(2);
  }
}
