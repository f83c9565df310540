/**
  The unaligned PER codec of `src/ue_engine/ue_rrc.c`: bit writer and reader, length
  determinant, the uplink encoders and the two downlink decoders.
 */
module Uper {
  import opened Options
  import opened Bytes

  type Bits = seq<bool>

  const MAX_NAS := 8192

  // -------------------------------------------------- numbers as bit strings

  /** The low `n` bits of `v`, most significant first. */
  function ValueBits(v: nat, n: nat): (b: Bits)
    ensures |b| == n
  {
    if n == 0 then [] else ValueBits(v / 2, n - 1) + [v % 2 == 1]
  }

  function FromBits(b: Bits): nat {
    if b == [] then 0 else 2 * FromBits(b[..|b| - 1]) + (if b[|b| - 1] then 1 else 0)
  }

  lemma {:induction false} ValueRoundTrip(v: nat, n: nat)
    requires v < Pow2(n)
    ensures FromBits(ValueBits(v, n)) == v
  {
    if n > 0 {
      assert ValueBits(v, n)[..n - 1] == ValueBits(v / 2, n - 1);
      ValueRoundTrip(v / 2, n - 1);
    }
  }

  lemma {:induction false} FromBitsBound(b: Bits)
    ensures FromBits(b) < Pow2(|b|)
  {
    if b != [] {
      FromBitsBound(b[..|b| - 1]);
    }
  }

  lemma {:induction false} ValueBitAt(v: nat, n: nat, k: nat)
    requires k < n
    ensures ValueBits(v, n)[k] == Bit(v, n - 1 - k)
  {
    if k < n - 1 {
      ValueBitAt(v / 2, n - 1, k);
    }
  }

  // ------------------------------------------------------ fields and octets

  datatype Field = Field(value: nat, width: nat)

  predicate Fits(f: Field) { 1 <= f.width <= 64 && f.value < Pow2(f.width) }

  function FieldBits(fields: seq<Field>): Bits {
    if fields == [] then [] else ValueBits(fields[0].value, fields[0].width) + FieldBits(fields[1..])
  }

  /** Reads `n` bits: their value and what follows, or nothing when there are too few. */
  function Take(b: Bits, n: nat): Option<(nat, Bits)> {
    if |b| < n then None else Some((FromBits(b[..n]), b[n..]))
  }

  function ReadFields(b: Bits, widths: seq<nat>): Option<(seq<nat>, Bits)>
    decreases |widths|
  {
    if widths == [] then Some(([], b))
    else
      match Take(b, widths[0])
      case None => None
      case Some((v, rest)) =>
        match ReadFields(rest, widths[1..])
        case None => None
        case Some((vs, end)) => Some(([v] + vs, end))
  }

  function Widths(fields: seq<Field>): seq<nat> {
    if fields == [] then [] else [fields[0].width] + Widths(fields[1..])
  }

  function Values(fields: seq<Field>): seq<nat> {
    if fields == [] then [] else [fields[0].value] + Values(fields[1..])
  }

  lemma TakeValue(v: nat, n: nat, rest: Bits)
    requires v < Pow2(n)
    ensures Take(ValueBits(v, n) + rest, n) == Some((v, rest))
  {
    var b := ValueBits(v, n) + rest;
    assert b[..n] == ValueBits(v, n) && b[n..] == rest;
    ValueRoundTrip(v, n);
  }

  /** Any list of fields is read back as written, and nothing behind it is consumed. */
  lemma {:induction false} FieldsRoundTrip(fields: seq<Field>, rest: Bits)
    requires forall f :: f in fields ==> Fits(f)
    ensures ReadFields(FieldBits(fields) + rest, Widths(fields)) == Some((Values(fields), rest))
    decreases |fields|
  {
    hide Take, Pow2;
    if fields == [] {
      assert FieldBits(fields) + rest == rest;
    } else {
      var f := fields[0];
      assert f in fields;
      var tail := FieldBits(fields[1..]) + rest;
      assert FieldBits(fields) + rest == ValueBits(f.value, f.width) + tail;
      TakeValue(f.value, f.width, tail);
      assert Widths(fields)[1..] == Widths(fields[1..]);
      FieldsRoundTrip(fields[1..], rest);
    }
  }

  function OctetBits(octets: seq<Byte>): (b: Bits)
    ensures |b| == 8 * |octets|
  {
    if octets == [] then [] else ValueBits(octets[0], 8) + OctetBits(octets[1..])
  }

  function TakeOctets(b: Bits, n: nat): (r: Option<(seq<Byte>, Bits)>)
    ensures r.Some? <==> 8 * n <= |b|
    decreases n
  {
    if n == 0 then Some(([], b))
    else if |b| < 8 then None
    else
      FromBitsBound(b[..8]);
      Pow2Of8();
      match TakeOctets(b[8..], n - 1)
      case None => None
      case Some((octets, rest)) => Some(([FromBits(b[..8])] + octets, rest))
  }

  lemma {:induction false} OctetsRoundTrip(octets: seq<Byte>, rest: Bits)
    ensures TakeOctets(OctetBits(octets) + rest, |octets|) == Some((octets, rest))
    decreases |octets|
  {
    hide ValueBits, FromBits;
    if octets == [] {
      assert OctetBits(octets) + rest == rest;
    } else {
      var b := OctetBits(octets) + rest;
      var tail := OctetBits(octets[1..]) + rest;
      assert b[..8] == ValueBits(octets[0], 8) && b[8..] == tail;
      Pow2Of8();
      ValueRoundTrip(octets[0], 8);
      OctetsRoundTrip(octets[1..], rest);
      assert octets == [octets[0]] + octets[1..];
    }
  }

  // ---------------------------------------------------- length determinant

  /** Clause 11.9 of ITU-T X.691, without fragmentation. */
  function LengthField(len: nat): Option<Field> {
    if len < 128 then Some(Field(len, 8))
    else if len < 16384 then Some(Field(0x8000 + len, 16))
    else None
  }

  function ReadLength(b: Bits): Option<(nat, Bits)> {
    match Take(b, 8)
    case None => None
    case Some((first, rest)) =>
      if first < 0x80 then Some((first, rest))
      else if first < 0xc0 then
        match Take(rest, 8)
        case None => None
        case Some((second, end)) => Some((first % 64 * 256 + second, end))
      else None
  }

  /** `v >> n` and `v` truncated to `n` bits. */
  function HighBits(v: nat, n: nat): nat { if n == 0 then v else HighBits(v / 2, n - 1) }

  function LowBits(v: nat, n: nat): (r: nat)
    ensures r < Pow2(n)
  {
    if n == 0 then 0 else 2 * LowBits(v / 2, n - 1) + v % 2
  }

  lemma {:induction false} HighAndLow(v: nat, n: nat)
    ensures v == HighBits(v, n) * Pow2(n) + LowBits(v, n)
  {
    if n > 0 {
      HighAndLow(v / 2, n - 1);
      Twice(HighBits(v / 2, n - 1), Pow2(n - 1));
      Halves(v, HighBits(v / 2, n - 1) * Pow2(n - 1), LowBits(v / 2, n - 1));
    }
  }

  lemma Twice(h: nat, p: nat)
    ensures h * (2 * p) == 2 * (h * p)
  {
  }

  lemma Halves(v: nat, high: nat, low: nat)
    requires v / 2 == high + low
    ensures v == 2 * high + (2 * low + v % 2)
  {
  }

  lemma {:induction false} SplitValue(v: nat, n: nat, m: nat)
    ensures ValueBits(v, n + m) == ValueBits(HighBits(v, m), n) + ValueBits(v, m)
    decreases m
  {
    if m > 0 {
      SplitValue(v / 2, n, m - 1);
    }
  }

  lemma {:induction false} LowValue(v: nat, n: nat)
    ensures ValueBits(v, n) == ValueBits(LowBits(v, n), n)
  {
    if n > 0 {
      LowValue(v / 2, n - 1);
    }
  }

  /** Every length below 16384 is read back; longer ones have no determinant. */
  lemma LengthRoundTrip(len: nat, rest: Bits)
    ensures LengthField(len).Some? <==> len < 16384
    ensures len < 16384 ==>
              ReadLength(ValueBits(LengthField(len).value.value, LengthField(len).value.width) + rest)
                  == Some((len, rest))
  {
    hide Take, ValueBits;
    Pow2Of8();
    if len < 128 {
      TakeValue(len, 8, rest);
    } else if len < 16384 {
      var v := 0x8000 + len;
      var high, low := HighBits(v, 8), LowBits(v, 8);
      HighAndLow(v, 8);
      SplitValue(v, 8, 8);
      LowValue(v, 8);
      assert ValueBits(v, 16) + rest == ValueBits(high, 8) + (ValueBits(low, 8) + rest);
      TakeValue(high, 8, ValueBits(low, 8) + rest);
      TakeValue(low, 8, rest);
    }
  }

  function StringBits(nas: seq<Byte>): Bits
    requires |nas| < 16384
  {
    var f := LengthField(|nas|).value;
    ValueBits(f.value, f.width) + OctetBits(nas)
  }

  function ReadString(b: Bits): Option<(seq<Byte>, Bits)> {
    match ReadLength(b)
    case None => None
    case Some((len, rest)) => if len > MAX_NAS then None else TakeOctets(rest, len)
  }

  lemma StringRoundTrip(nas: seq<Byte>, rest: Bits)
    requires |nas| <= MAX_NAS
    ensures ReadString(StringBits(nas) + rest) == Some((nas, rest))
  {
    hide ReadLength, ValueBits, OctetBits, TakeOctets;
    var f := LengthField(|nas|).value;
    assert StringBits(nas) + rest == ValueBits(f.value, f.width) + (OctetBits(nas) + rest);
    LengthRoundTrip(|nas|, OctetBits(nas) + rest);
    OctetsRoundTrip(nas, rest);
  }

  // ------------------------------------------------------------ messages

  datatype Dcch = Malformed | Info(tx: nat, nas: Option<seq<Byte>>)

  /** The part of a DLInformationTransfer behind the message choice. */
  function DecodeInfo(b: Bits): Dcch {
    match ReadFields(b, [2, 1, 3])
    case None => Malformed
    case Some((vs, rest)) =>
      if |vs| != 3 || vs[1] != 0 then Malformed
      else if vs[2] < 4 then Info(vs[0], None)
      else
        match ReadString(rest)
        case None => Malformed
        case Some((nas, _)) => Info(vs[0], Some(nas))
  }

  function DecodeDcch(b: Bits): Dcch {
    match ReadFields(b, [1, 4])
    case None => Malformed
    case Some((vs, rest)) => if vs != [0, 5] then Malformed else DecodeInfo(rest)
  }

  /** DL-CCCH: the transaction identifier of an RRCSetup. */
  function DecodeCcch(b: Bits): Option<nat> {
    match ReadFields(b, [1, 2])
    case None => None
    case Some((vs, rest)) =>
      if vs != [0, 1] then None
      else
        match Take(rest, 2)
        case None => None
        case Some((tx, _)) => Some(tx)
  }

  /** DL-DCCH, c1, dlInformationTransfer, transaction, no extension, a NAS message and any other options. */
  function InfoHeader(tx: nat, options: nat): seq<Field> {
    [Field(0, 1), Field(5, 4), Field(tx, 2), Field(0, 1), Field(4 + options, 3)]
  }

  function InfoBits(tx: nat, options: nat, nas: seq<Byte>): Bits
    requires |nas| < 16384
  {
    FieldBits(InfoHeader(tx, options)) + StringBits(nas)
  }

  lemma ReadTwo(b: Bits, n: nat, m: nat)
    ensures ReadFields(b, [n, m])
         == match Take(b, n)
            case None => None
            case Some((v, rest)) => match Take(rest, m) case None => None case Some((w, end)) => Some(([v, w], end))
  {
    hide Take;
    assert [n, m][1..] == [m];
    assert [m][1..] == [];
    if Take(b, n).Some? {
      var (v, rest) := Take(b, n).value;
      if Take(rest, m).Some? {
        var (w, end) := Take(rest, m).value;
        assert ReadFields(end, []) == Some(([], end));
        assert [w] + [] == [w] && [v] + [w] == [v, w];
      }
    }
  }

  lemma ReadThree(b: Bits, n: nat, m: nat, k: nat)
    ensures ReadFields(b, [n, m, k])
         == match Take(b, n)
            case None => None
            case Some((v, rest)) =>
              match ReadFields(rest, [m, k]) case None => None case Some((vs, end)) => Some(([v] + vs, end))
  {
    hide Take;
    assert [n, m, k][1..] == [m, k];
  }

  lemma SmallPowers()
    ensures Pow2(1) == 2 && Pow2(2) == 4 && Pow2(3) == 8 && Pow2(4) == 16
  {
  }

  /** The header as five bit strings, one behind the other. */
  lemma HeaderBits(tx: nat, options: nat, rest: Bits)
    ensures FieldBits(InfoHeader(tx, options)) + rest
         == ValueBits(0, 1)
            + (ValueBits(5, 4) + (ValueBits(tx, 2) + (ValueBits(0, 1) + (ValueBits(4 + options, 3) + rest))))
  {
    hide ValueBits, FieldBits;
    var h := InfoHeader(tx, options);
    assert h == [h[0]] + ([h[1]] + ([h[2]] + ([h[3]] + ([h[4]] + []))));
    FieldBitsCons(h[0], [h[1]] + ([h[2]] + ([h[3]] + ([h[4]] + []))));
    FieldBitsCons(h[1], [h[2]] + ([h[3]] + ([h[4]] + [])));
    FieldBitsCons(h[2], [h[3]] + ([h[4]] + []));
    FieldBitsCons(h[3], [h[4]] + []);
    FieldBitsCons(h[4], []);
    assert FieldBits([]) == [] by { NoFieldBits(); }
  }

  lemma FieldBitsCons(f: Field, fields: seq<Field>)
    ensures FieldBits([f] + fields) == ValueBits(f.value, f.width) + FieldBits(fields)
  {
    assert ([f] + fields)[1..] == fields;
  }

  lemma NoFieldBits()
    ensures FieldBits([]) == []
  {
  }

  /** A DLInformationTransfer is decoded to its transaction and NAS message, whatever follows it. */
  lemma InfoTransferRoundTrip(tx: nat, options: nat, nas: seq<Byte>, rest: Bits)
    requires tx < 4 && options < 4 && |nas| <= MAX_NAS
    ensures DecodeDcch(InfoBits(tx, options, nas) + rest) == Info(tx, Some(nas))
  {
    hide Take, ReadFields, ReadString, ValueBits, FieldBits, StringBits, Pow2;
    SmallPowers();
    var s := StringBits(nas) + rest;
    assert InfoBits(tx, options, nas) + rest == FieldBits(InfoHeader(tx, options)) + s;
    HeaderBits(tx, options, s);
    var c := ValueBits(4 + options, 3) + s;
    var d := ValueBits(0, 1) + c;
    var e := ValueBits(tx, 2) + d;
    var b := ValueBits(0, 1) + (ValueBits(5, 4) + e);
    ReadTwo(b, 1, 4);
    TakeValue(0, 1, ValueBits(5, 4) + e);
    TakeValue(5, 4, e);
    ReadThree(e, 2, 1, 3);
    ReadTwo(d, 1, 3);
    TakeValue(tx, 2, d);
    TakeValue(0, 1, c);
    TakeValue(4 + options, 3, s);
    StringRoundTrip(nas, rest);
  }

  /** Where the NAS octets start: never on an octet boundary. */
  lemma NasNeverAligned(tx: nat, options: nat, nas: seq<Byte>)
    requires |nas| < 16384
    ensures var start := |InfoBits(tx, options, nas)| - 8 * |nas|;
            (start == 19 || start == 27) && start % 8 != 0
  {
    hide ValueBits;
    HeaderBits(tx, options, StringBits(nas));
    assert |InfoBits(tx, options, nas)| == 11 + |StringBits(nas)|;
  }

  /**
    Every DL-DCCH message the decoder accepts also decodes on DL-CCCH, as an RRCSetup with
    transaction identifier 1: the channel, not the content, must tell the two apart.
   */
  lemma InfoTransferLooksLikeSetup(b: Bits)
    requires DecodeDcch(b) != Malformed
    ensures DecodeCcch(b) == Some(1)
  {
    ReadTwo(b, 1, 4);
    ReadTwo(b, 1, 2);
    var c := b[1..][..4];
    assert b[1..][..2] == c[..2] && b[1..][2..][..2] == c[2..];
    FromFour(c);
  }

  lemma FromFour(c: Bits)
    requires |c| == 4 && FromBits(c) == 5
    ensures FromBits(c[..2]) == 1 && FromBits(c[2..]) == 1
  {
    var n := (b: bool) => if b then 1 else 0;
    assert c[..3][..2] == c[..2] && c[..2][..1] == c[..1] && c[..1][..0] == [];
    assert FromBits(c[..1]) == n(c[0]);
    assert FromBits(c[..2]) == 2 * n(c[0]) + n(c[1]);
    assert FromBits(c[..3]) == 2 * FromBits(c[..2]) + n(c[2]);
    assert c[2..][..1] == [c[2]] && [c[2]][..0] == [];
    assert FromBits(c[2..]) == 2 * n(c[2]) + n(c[3]);
  }
}
