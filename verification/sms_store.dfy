/**
  The SMS store of `src/mbim_frontend/mbim_handlers.c` and the SMS_READ reply built from it
  with the wire builder of `src/mbim_frontend/mbim_wire.c`.
 */
module SmsStore {
  import opened Options
  import opened Bytes

  const SLOT_COUNT := 8
  const PDU_MAX := 256
  const INFO_CAP := 4048
  const U32 := 0x1_0000_0000

  /** `unread` is the host's New; `notified` is whether the message was pushed; `serial` counts the messages stored. */
  datatype Slot = Slot(used: bool, unread: bool, notified: bool, serial: nat, pdu: seq<Byte>)

  /** The 32-bit index the host knows a message by. */
  function IndexOf(serial: nat): (index: nat)
    ensures index < U32
  {
    serial % U32
  }

  const FREE := Slot(false, false, false, 0, [])

  datatype Store = Store(slots: seq<Slot>, next: nat)

  datatype Mode = Query | QueryNew | Notify

  /** What the host learns of one message. */
  datatype Record = Record(index: nat, isNew: bool, pdu: seq<Byte>)

  // ---------------------------------------------------------- operations

  function FirstUnused(slots: seq<Slot>, i: nat): (k: nat)
    requires i <= |slots|
    ensures i <= k <= |slots| && (k < |slots| ==> !slots[k].used)
    ensures forall j :: i <= j < k ==> slots[j].used
    decreases |slots| - i
  {
    if i == |slots| || !slots[i].used then i else FirstUnused(slots, i + 1)
  }

  predicate Storable(pdu: seq<Byte>) { 0 < |pdu| <= PDU_MAX }

  /** A full store gives up slot 0, whatever it holds. */
  function SlotFor(slots: seq<Slot>): nat
    requires |slots| == SLOT_COUNT
  {
    var k := FirstUnused(slots, 0);
    if k == SLOT_COUNT then 0 else k
  }

  function Append(st: Store, pdu: seq<Byte>): Store
    requires |st.slots| == SLOT_COUNT
  {
    if !Storable(pdu) then st
    else Store(st.slots[SlotFor(st.slots) := Slot(true, true, false, st.next, pdu)], st.next + 1)
  }

  function Deleted(slots: seq<Slot>, index: nat): (r: seq<Slot>)
    ensures |r| == |slots|
    ensures forall i :: 0 <= i < |slots| ==>
              r[i] == if slots[i].used && (index == 0 || IndexOf(slots[i].serial) == index) then FREE else slots[i]
  {
    seq(|slots|, i requires 0 <= i < |slots| =>
      if slots[i].used && (index == 0 || IndexOf(slots[i].serial) == index) then FREE else slots[i])
  }

  predicate Included(s: Slot, mode: Mode) {
    s.used && (match mode case Query => true case QueryNew => s.unread case Notify => !s.notified)
  }

  function RecordOf(s: Slot): Record { Record(IndexOf(s.serial), s.unread, s.pdu) }

  /** The records of the first `n` slots, in slot order. */
  function Records(slots: seq<Slot>, mode: Mode, n: nat): (rs: seq<Record>)
    requires n <= |slots|
    ensures |rs| <= n
  {
    if n == 0 then []
    else Records(slots, mode, n - 1) + (if Included(slots[n - 1], mode) then [RecordOf(slots[n - 1])] else [])
  }

  function MarkOne(s: Slot, mode: Mode): Slot {
    if !Included(s, mode) then s else if mode == Notify then s.(notified := true) else s.(unread := false)
  }

  function Marked(slots: seq<Slot>, mode: Mode): (r: seq<Slot>)
    ensures |r| == |slots| && forall i :: 0 <= i < |slots| ==> r[i] == MarkOne(slots[i], mode)
  {
    seq(|slots|, i requires 0 <= i < |slots| => MarkOne(slots[i], mode))
  }

  // ----------------------------------------------------- the information buffer

  function Le32(n: nat): (s: seq<Byte>)
    ensures |s| == 4
  {
    LittleEndian(n, 4)
  }

  function Align4(n: nat): (m: nat)
    ensures n <= m < n + 4 && m % 4 == 0
  {
    (n + 3) / 4 * 4
  }

  function BodyLength(r: Record): nat { 16 + Align4(|r.pdu|) }

  function RecordHeader(r: Record): (s: seq<Byte>)
    ensures |s| == 16
  {
    Le32(r.index) + Le32(if r.isNew then 0 else 1) + Le32(16) + Le32(|r.pdu|)
  }

  function Body(r: Record): (s: seq<Byte>)
    ensures |s| == BodyLength(r)
  {
    RecordHeader(r) + r.pdu + Zeros(Align4(|r.pdu|) - |r.pdu|)
  }

  function Bodies(rs: seq<Record>): seq<Byte> {
    if rs == [] then [] else Bodies(rs[..|rs| - 1]) + Body(rs[|rs| - 1])
  }

  /** Offset and size of every record, the first body standing at `base`. */
  function Refs(rs: seq<Record>, base: nat): (s: seq<Byte>)
    ensures |s| == 8 * |rs|
  {
    if rs == [] then []
    else
      var front := rs[..|rs| - 1];
      Refs(front, base) + (Le32(base + |Bodies(front)|) + Le32(BodyLength(rs[|rs| - 1])))
  }

  function Info(rs: seq<Record>): seq<Byte> {
    Le32(0) + Le32(|rs|) + Refs(rs, 8 + 8 * |rs|) + Bodies(rs)
  }

  // ------------------------------------------------------- the host's view

  function Le32At(s: seq<Byte>, i: nat): nat
    requires i + 4 <= |s|
  {
    FromLittleEndian(s[i..i + 4])
  }

  /** Follows one offset/size pair to its record; nothing if any of it is out of bounds. */
  function HostRecord(info: seq<Byte>, k: nat): Option<Record> {
    if 16 + 8 * k > |info| then None
    else
      var off, size := Le32At(info, 8 + 8 * k), Le32At(info, 12 + 8 * k);
      if size < 16 || off + size > |info| then None
      else
        var rec := info[off..off + size];
        var at, len := Le32At(rec, 8), Le32At(rec, 12);
        if at + len > size then None
        else Some(Record(Le32At(rec, 0), Le32At(rec, 4) == 0, rec[at..at + len]))
  }

  /** The first `n` records, if all of them are readable. */
  function HostRecords(info: seq<Byte>, n: nat): Option<seq<Record>> {
    if n == 0 then Some([])
    else
      match HostRecords(info, n - 1)
      case None => None
      case Some(rs) => (match HostRecord(info, n - 1) case None => None case Some(r) => Some(rs + [r]))
  }

  function HostRead(info: seq<Byte>): Option<seq<Record>> {
    if |info| < 8 || Le32At(info, 0) != 0 then None else HostRecords(info, Le32At(info, 4))
  }

  predicate Sound(r: Record) { r.index < U32 && Storable(r.pdu) }

  predicate AllSound(rs: seq<Record>) { forall i :: 0 <= i < |rs| ==> Sound(rs[i]) }

  lemma Le32RoundTrip(n: nat)
    requires n < U32
    ensures FromLittleEndian(Le32(n)) == n
  {
    Pow256Values();
    LittleEndianRoundTrip(n, 4);
  }

  lemma {:induction false} BodiesAt(rs: seq<Record>, k: nat)
    requires k < |rs|
    ensures |Bodies(rs[..k])| + BodyLength(rs[k]) <= |Bodies(rs)|
    ensures Bodies(rs)[|Bodies(rs[..k])|..|Bodies(rs[..k])| + BodyLength(rs[k])] == Body(rs[k])
  {
    hide Body;
    var front := rs[..|rs| - 1];
    if k < |rs| - 1 {
      assert front[..k] == rs[..k] && front[k] == rs[k];
      BodiesAt(front, k);
      var off := |Bodies(rs[..k])|;
      assert Bodies(rs)[off..off + BodyLength(rs[k])] == Bodies(front)[off..off + BodyLength(rs[k])];
    } else {
      assert rs[..k] == front;
    }
  }

  lemma {:induction false} RefsAt(rs: seq<Record>, base: nat, k: nat)
    requires k < |rs|
    ensures Refs(rs, base)[8 * k..8 * k + 8] == Le32(base + |Bodies(rs[..k])|) + Le32(BodyLength(rs[k]))
  {
    hide Bodies, Le32, BodyLength;
    var front := rs[..|rs| - 1];
    if k < |rs| - 1 {
      assert front[..k] == rs[..k] && front[k] == rs[k];
      RefsAt(front, base, k);
      assert Refs(rs, base)[8 * k..8 * k + 8] == Refs(front, base)[8 * k..8 * k + 8];
    } else {
      assert rs[..k] == front;
    }
  }

  lemma {:induction false} BodiesBound(rs: seq<Record>)
    requires AllSound(rs)
    ensures |Bodies(rs)| <= 272 * |rs|
  {
    hide Body;
    if rs != [] {
      BodiesBound(rs[..|rs| - 1]);
      assert Sound(rs[|rs| - 1]);
    }
  }

  /** A reply over the whole store fits: at most 2248 of 4048 octets. */
  lemma InfoFits(rs: seq<Record>)
    requires AllSound(rs) && |rs| <= SLOT_COUNT
    ensures |Info(rs)| == 8 + 8 * |rs| + |Bodies(rs)| <= 2248 <= INFO_CAP
  {
    BodiesBound(rs);
  }

  /** Records lie behind the reference list, one behind the other, inside the buffer. */
  lemma RecordsDisjoint(rs: seq<Record>, j: nat, k: nat)
    requires j < k < |rs|
    ensures var base := 8 + 8 * |rs|;
            && base + |Bodies(rs[..j])| + BodyLength(rs[j]) <= base + |Bodies(rs[..k])|
            && base + |Bodies(rs[..k])| + BodyLength(rs[k]) <= |Info(rs)|
  {
    hide Body, BodyLength;
    BodiesAt(rs, k);
    BodiesAt(rs[..k], j);
    assert rs[..k][..j] == rs[..j];
  }

  lemma BodyFields(r: Record)
    requires Sound(r)
    ensures var b := Body(r);
            && Le32At(b, 0) == r.index && (Le32At(b, 4) == 0 <==> r.isNew)
            && Le32At(b, 8) == 16 && Le32At(b, 12) == |r.pdu| && b[16..16 + |r.pdu|] == r.pdu
  {
    hide FromLittleEndian, LittleEndian;
    var b := Body(r);
    assert b[0..4] == Le32(r.index);
    assert b[4..8] == Le32(if r.isNew then 0 else 1);
    assert b[8..12] == Le32(16);
    assert b[12..16] == Le32(|r.pdu|);
    Le32RoundTrip(r.index);
    Le32RoundTrip(if r.isNew then 0 else 1);
    Le32RoundTrip(16);
    Le32RoundTrip(|r.pdu|);
  }

  /** Where record `k` and its reference stand in the buffer. */
  lemma InfoParts(rs: seq<Record>, k: nat)
    requires k < |rs|
    ensures var off := 8 + 8 * |rs| + |Bodies(rs[..k])|;
            && off + BodyLength(rs[k]) <= |Info(rs)|
            && Info(rs)[8 + 8 * k..12 + 8 * k] == Le32(off)
            && Info(rs)[12 + 8 * k..16 + 8 * k] == Le32(BodyLength(rs[k]))
            && Info(rs)[off..off + BodyLength(rs[k])] == Body(rs[k])
  {
    hide Bodies, Refs, Body, Le32, BodyLength;
    var base := 8 + 8 * |rs|;
    var head := Le32(0) + Le32(|rs|);
    var refs, bodies := Refs(rs, base), Bodies(rs);
    var info := Info(rs);
    assert info == head + refs + bodies;
    RefsAt(rs, base, k);
    BodiesAt(rs, k);
    var pair := refs[8 * k..8 * k + 8];
    assert info[8 + 8 * k..16 + 8 * k] == pair;
    assert info[8 + 8 * k..12 + 8 * k] == pair[..4];
    assert info[12 + 8 * k..16 + 8 * k] == pair[4..];
    assert info[base..] == bodies;
    var at := |Bodies(rs[..k])|;
    assert info[base + at..base + at + BodyLength(rs[k])] == bodies[at..at + BodyLength(rs[k])];
  }

  lemma HostReadsRecord(rs: seq<Record>, k: nat)
    requires AllSound(rs) && |rs| <= SLOT_COUNT && k < |rs|
    ensures HostRecord(Info(rs), k) == Some(rs[k])
  {
    hide Info, Bodies, Body, Le32, FromLittleEndian;
    InfoParts(rs, k);
    InfoFits(rs);
    assert Sound(rs[k]);
    Le32RoundTrip(8 + 8 * |rs| + |Bodies(rs[..k])|);
    Le32RoundTrip(BodyLength(rs[k]));
    BodyFields(rs[k]);
  }

  lemma {:induction false} HostReadsFirst(rs: seq<Record>, n: nat)
    requires AllSound(rs) && |rs| <= SLOT_COUNT && n <= |rs|
    ensures HostRecords(Info(rs), n) == Some(rs[..n])
  {
    hide Info, HostRecord;
    if n > 0 {
      HostReadsFirst(rs, n - 1);
      HostReadsRecord(rs, n - 1);
      assert rs[..n] == rs[..n - 1] + [rs[n - 1]];
    }
  }

  /** Following the offset/size pairs of a reply recovers exactly the records it was built from. */
  lemma HostReadsBack(rs: seq<Record>)
    requires AllSound(rs) && |rs| <= SLOT_COUNT
    ensures HostRead(Info(rs)) == Some(rs)
  {
    hide HostRecords, Refs, Bodies, LittleEndian, FromLittleEndian;
    var info := Info(rs);
    assert info[0..4] == Le32(0);
    assert info[4..8] == Le32(|rs|);
    Le32RoundTrip(0);
    Le32RoundTrip(|rs|);
    HostReadsFirst(rs, |rs|);
    assert rs[..|rs|] == rs;
  }

  // ------------------------------------------------------ the store over time

  predicate SlotsSound(slots: seq<Slot>, next: nat) {
    forall i :: 0 <= i < |slots| && slots[i].used ==> slots[i].serial < next && Storable(slots[i].pdu)
  }

  predicate SerialsDistinct(slots: seq<Slot>) {
    forall i, j :: 0 <= i < j < |slots| && slots[i].used && slots[j].used ==> slots[i].serial != slots[j].serial
  }

  predicate Consistent(st: Store) {
    |st.slots| == SLOT_COUNT && SlotsSound(st.slots, st.next) && SerialsDistinct(st.slots)
  }

  const EMPTY := Store(seq(SLOT_COUNT, _ => FREE), 1)

  datatype Event = AppendEv(pdu: seq<Byte>) | DeleteEv(index: nat) | ReadEv(mode: Mode)

  function Step(st: Store, e: Event): Store
    requires |st.slots| == SLOT_COUNT
  {
    match e
    case AppendEv(pdu) => Append(st, pdu)
    case DeleteEv(index) => st.(slots := Deleted(st.slots, index))
    case ReadEv(mode) => st.(slots := Marked(st.slots, mode))
  }

  /** The messages behind the records of the first `n` slots. */
  function Serials(slots: seq<Slot>, mode: Mode, n: nat): (ns: seq<nat>)
    requires n <= |slots|
    ensures |ns| == |Records(slots, mode, n)|
  {
    if n == 0 then []
    else Serials(slots, mode, n - 1) + (if Included(slots[n - 1], mode) then [slots[n - 1].serial] else [])
  }

  /** The messages an event reports to a host that asks for new ones. */
  function Reports(st: Store, e: Event): seq<nat>
    requires |st.slots| == SLOT_COUNT
  {
    if e == ReadEv(QueryNew) then Serials(st.slots, QueryNew, SLOT_COUNT) else []
  }

  function AllReports(st: Store, es: seq<Event>): seq<nat>
    requires Consistent(st)
    decreases |es|
  {
    if es == [] then [] else StepValid(st, es[0]); Reports(st, es[0]) + AllReports(Step(st, es[0]), es[1..])
  }

  lemma StepValid(st: Store, e: Event)
    requires Consistent(st)
    ensures Consistent(Step(st, e)) && Step(st, e).next >= st.next
  {
    hide FirstUnused;
  }

  // ------------------------------------------------------------ 32-bit indices

  function Run(st: Store, es: seq<Event>): (t: Store)
    requires Consistent(st)
    ensures Consistent(t) && t.next >= st.next
    decreases |es|
  {
    if es == [] then st else StepValid(st, es[0]); Run(Step(st, es[0]), es[1..])
  }

  /** The indices the host knows the stored messages by are pairwise different. */
  predicate IndicesDistinct(slots: seq<Slot>) {
    forall i, j :: 0 <= i < j < |slots| && slots[i].used && slots[j].used ==>
      IndexOf(slots[i].serial) != IndexOf(slots[j].serial)
  }

  /** The index for the next message belongs to a message that stays stored. */
  predicate Taken(st: Store)
    requires |st.slots| == SLOT_COUNT
  {
    exists i :: 0 <= i < SLOT_COUNT && i != SlotFor(st.slots) && st.slots[i].used
                && IndexOf(st.slots[i].serial) == IndexOf(st.next)
  }

  predicate Collides(st: Store, e: Event)
    requires |st.slots| == SLOT_COUNT
  {
    e.AppendEv? && Storable(e.pdu) && Taken(st)
  }

  lemma StepDistinctIff(st: Store, e: Event)
    requires Consistent(st) && IndicesDistinct(st.slots)
    ensures IndicesDistinct(Step(st, e).slots) <==> !Collides(st, e)
  {
    hide FirstUnused, IndexOf;
    var t := Step(st, e);
    if Collides(st, e) {
      var k := SlotFor(st.slots);
      var i :| 0 <= i < SLOT_COUNT && i != k && st.slots[i].used && IndexOf(st.slots[i].serial) == IndexOf(st.next);
      assert t.slots[i] == st.slots[i] && t.slots[k].serial == st.next;
    }
  }

  predicate AlwaysDistinct(st: Store, es: seq<Event>)
    requires Consistent(st)
    decreases |es|
  {
    IndicesDistinct(st.slots)
    && (es == [] || (StepValid(st, es[0]); AlwaysDistinct(Step(st, es[0]), es[1..])))
  }

  predicate NeverCollides(st: Store, es: seq<Event>)
    requires Consistent(st)
    decreases |es|
  {
    es == [] || (!Collides(st, es[0]) && (StepValid(st, es[0]); NeverCollides(Step(st, es[0]), es[1..])))
  }

  /**
    The stored indices stay pairwise different throughout a run if and only if no message
    is given an index, modulo 2^32, that another message still stored has.
   */
  lemma {:induction false} IndicesDistinctIff(st: Store, es: seq<Event>)
    requires Consistent(st) && IndicesDistinct(st.slots)
    ensures AlwaysDistinct(st, es) <==> NeverCollides(st, es)
    decreases |es|
  {
    hide Step, SlotsSound, SerialsDistinct, IndicesDistinct, Collides;
    if es != [] {
      var t := Step(st, es[0]);
      StepValid(st, es[0]);
      StepDistinctIff(st, es[0]);
      DistinctFirst(t, es[1..]);
      if IndicesDistinct(t.slots) {
        IndicesDistinctIff(t, es[1..]);
      }
    }
  }

  lemma DistinctFirst(st: Store, es: seq<Event>)
    requires Consistent(st)
    ensures AlwaysDistinct(st, es) ==> IndicesDistinct(st.slots)
  {
  }

  lemma SmallIndices(st: Store)
    requires Consistent(st) && st.next <= U32
    ensures IndicesDistinct(st.slots)
  {
    assert forall n: nat :: n < U32 ==> IndexOf(n) == n;
  }

  /** As long as fewer than 2^32 messages have been stored, the indices never collide. */
  lemma {:induction false} DistinctBelowWrap(st: Store, es: seq<Event>)
    requires Consistent(st) && Run(st, es).next <= U32
    ensures AlwaysDistinct(st, es)
    decreases |es|
  {
    hide Step, IndicesDistinct;
    SmallIndices(st);
    if es != [] {
      StepValid(st, es[0]);
      DistinctBelowWrap(Step(st, es[0]), es[1..]);
    }
  }

  function Appends(pdu: seq<Byte>, n: nat): seq<Event> { if n == 0 then [] else [AppendEv(pdu)] + Appends(pdu, n - 1) }

  predicate AllUsed(slots: seq<Slot>) { forall i :: 0 <= i < |slots| ==> slots[i].used }

  /** Messages for a full store all go to slot 0; the others stay. */
  lemma {:induction false} FullOverwritesFirst(st: Store, pdu: seq<Byte>, n: nat)
    requires Consistent(st) && AllUsed(st.slots) && Storable(pdu) && n > 0
    ensures Run(st, Appends(pdu, n))
         == Store(st.slots[0 := Slot(true, true, false, st.next + n - 1, pdu)], st.next + n)
    decreases n
  {
    hide SlotsSound, SerialsDistinct;
    var es := Appends(pdu, n);
    var t := Append(st, pdu);
    assert t == Store(st.slots[0 := Slot(true, true, false, st.next, pdu)], st.next + 1);
    StepValid(st, AppendEv(pdu));
    assert es[1..] == Appends(pdu, n - 1);
    if n > 1 {
      FullOverwritesFirst(t, pdu, n - 1);
    }
  }

  /** The store after its first `k` messages. */
  function Filled(pdu: seq<Byte>, k: nat): (slots: seq<Slot>)
    requires k <= SLOT_COUNT
    ensures |slots| == SLOT_COUNT
  {
    seq(SLOT_COUNT, i requires 0 <= i < SLOT_COUNT => if i < k then Slot(true, true, false, i + 1, pdu) else FREE)
  }

  lemma {:induction false} FirstMessages(pdu: seq<Byte>, k: nat, rest: seq<Event>)
    requires Storable(pdu) && k <= SLOT_COUNT
    ensures Consistent(EMPTY) && Consistent(Store(Filled(pdu, k), k + 1))
    ensures Run(EMPTY, Appends(pdu, k) + rest) == Run(Store(Filled(pdu, k), k + 1), rest)
    decreases k
  {
    if k == 0 {
      assert Filled(pdu, 0) == EMPTY.slots;
      assert Appends(pdu, 0) + rest == rest;
    } else {
      var before := Store(Filled(pdu, k - 1), k);
      var after := Store(Filled(pdu, k), k + 1);
      AppendsSnoc(pdu, k - 1);
      assert Appends(pdu, k) + rest == Appends(pdu, k - 1) + ([AppendEv(pdu)] + rest);
      FirstMessages(pdu, k - 1, [AppendEv(pdu)] + rest);
      assert before.slots[k - 1] == FREE && forall j :: 0 <= j < k - 1 ==> before.slots[j].used;
      assert FirstUnused(before.slots, 0) == k - 1;
      assert Append(before, pdu).slots == after.slots;
      assert ([AppendEv(pdu)] + rest)[1..] == rest;
    }
  }

  lemma {:induction false} AppendsSnoc(pdu: seq<Byte>, n: nat)
    ensures Appends(pdu, n + 1) == Appends(pdu, n) + [AppendEv(pdu)]
  {
    if n > 0 {
      AppendsSnoc(pdu, n - 1);
    }
  }

  /**
    From the empty store: eight messages fill it, and after 2^32 - 6 more the message in
    slot 0 has the index 2 of the message that is still in slot 1.
   */
  lemma IndicesCollide(pdu: seq<Byte>, n: nat)
    requires Storable(pdu) && n == U32 - 6
    ensures Consistent(EMPTY)
    ensures var st := Run(EMPTY, Appends(pdu, SLOT_COUNT) + Appends(pdu, n));
            && AllUsed(st.slots) && st.slots[0].serial != st.slots[1].serial
            && IndexOf(st.slots[0].serial) == IndexOf(st.slots[1].serial) == 2
            && !Deleted(st.slots, 2)[0].used && !Deleted(st.slots, 2)[1].used
  {
    hide Run, Appends, Consistent;
    FirstMessages(pdu, SLOT_COUNT, Appends(pdu, n));
    var full := Store(Filled(pdu, SLOT_COUNT), SLOT_COUNT + 1);
    FullOverwritesFirst(full, pdu, n);
    assert IndexOf(U32 + 2) == 2 && IndexOf(2) == 2;
  }

  // ---------------------------------------------------------- deleting one message

  predicate Alone(slots: seq<Slot>, i: nat)
    requires i < |slots|
  {
    forall j :: 0 <= j < |slots| && j != i ==> !slots[j].used
  }

  predicate OwnIndex(slots: seq<Slot>, i: nat)
    requires i < |slots|
  {
    && IndexOf(slots[i].serial) != 0
    && forall j :: 0 <= j < |slots| && j != i && slots[j].used ==>
         IndexOf(slots[j].serial) != IndexOf(slots[i].serial)
  }

  /**
    Some request deletes just that message if and only if no other stored message shares its
    index and the index is not 0, which means all; or it is the only one stored.
   */
  lemma DeletableAloneIff(slots: seq<Slot>, i: nat)
    requires i < |slots| && slots[i].used
    ensures (exists index: nat :: Deleted(slots, index) == slots[i := FREE]) <==> OwnIndex(slots, i) || Alone(slots, i)
  {
    hide IndexOf;
    if Alone(slots, i) {
      assert Deleted(slots, 0) == slots[i := FREE];
    } else if OwnIndex(slots, i) {
      assert Deleted(slots, IndexOf(slots[i].serial)) == slots[i := FREE];
    }
    forall index: nat | Deleted(slots, index) == slots[i := FREE]
      ensures OwnIndex(slots, i) || Alone(slots, i)
    {
      var d := Deleted(slots, index);
      assert d[i] == FREE;
      assert forall j :: 0 <= j < |slots| && j != i ==> d[j] == slots[j];
    }
  }

  // ------------------------------------------------------------- reported once

  predicate NoRepeats(s: seq<nat>) { forall i, j :: 0 <= i < j < |s| ==> s[i] != s[j] }

  /** Messages still to come or unread now: what a later New reply may report. */
  predicate MayReport(st: Store, x: nat) {
    x >= st.next || exists i :: 0 <= i < |st.slots| && st.slots[i].used && st.slots[i].unread && st.slots[i].serial == x
  }

  lemma MayReportShrinks(st: Store, e: Event, x: nat)
    requires Consistent(st) && MayReport(Step(st, e), x)
    ensures MayReport(st, x)
  {
    hide FirstUnused;
    var t := Step(st, e);
    if x < t.next {
      var i :| 0 <= i < |t.slots| && t.slots[i].used && t.slots[i].unread && t.slots[i].serial == x;
      if x < st.next {
        assert st.slots[i].used && st.slots[i].unread && st.slots[i].serial == x;
      }
    }
  }

  lemma {:induction false} RecordsFrom(slots: seq<Slot>, mode: Mode, n: nat, k: nat) returns (i: nat)
    requires n <= |slots| && k < |Records(slots, mode, n)|
    ensures i < n && Included(slots[i], mode)
    ensures Records(slots, mode, n)[k] == RecordOf(slots[i]) && Serials(slots, mode, n)[k] == slots[i].serial
  {
    if k < |Records(slots, mode, n - 1)| {
      i := RecordsFrom(slots, mode, n - 1, k);
    } else {
      i := n - 1;
    }
  }

  lemma {:induction false} RecordsDistinct(slots: seq<Slot>, mode: Mode, n: nat)
    requires n <= |slots| && SerialsDistinct(slots)
    ensures NoRepeats(Serials(slots, mode, n))
  {
    if n > 0 {
      RecordsDistinct(slots, mode, n - 1);
      var front := Serials(slots, mode, n - 1);
      if Included(slots[n - 1], mode) {
        forall k | 0 <= k < |front|
          ensures front[k] != slots[n - 1].serial
        {
          var i := RecordsFrom(slots, mode, n - 1, k);
        }
      }
    }
  }

  lemma ReportedMay(st: Store, e: Event, x: nat)
    requires Consistent(st) && x in Reports(st, e)
    ensures MayReport(st, x) && !MayReport(Step(st, e), x)
  {
    hide Records, Serials;
    var k :| 0 <= k < |Reports(st, e)| && Reports(st, e)[k] == x;
    var i := RecordsFrom(st.slots, QueryNew, SLOT_COUNT, k);
    assert st.slots[i].used && st.slots[i].unread && st.slots[i].serial == x;
  }

  lemma {:induction false} ReportsAreMay(st: Store, es: seq<Event>, x: nat)
    requires Consistent(st) && x in AllReports(st, es)
    ensures MayReport(st, x)
    decreases |es|
  {
    hide Step, Reports, MayReport;
    StepValid(st, es[0]);
    if x in Reports(st, es[0]) {
      ReportedMay(st, es[0], x);
    } else {
      ReportsAreMay(Step(st, es[0]), es[1..], x);
      MayReportShrinks(st, es[0], x);
    }
  }

  /** In every run, over all Flag=New replies together, no message is reported twice. */
  lemma {:induction false} ReportedOnce(st: Store, es: seq<Event>)
    requires Consistent(st)
    ensures NoRepeats(AllReports(st, es))
    decreases |es|
  {
    hide Step, Reports, MayReport;
    if es != [] {
      StepValid(st, es[0]);
      var t := Step(st, es[0]);
      var now, later := Reports(st, es[0]), AllReports(t, es[1..]);
      ReportedOnce(t, es[1..]);
      ReportsDistinct(st, es[0]);
      forall x | x in now
        ensures x !in later
      {
        ReportedMay(st, es[0], x);
        if x in later {
          ReportsAreMay(t, es[1..], x);
          assert false;
        }
      }
      JoinNoRepeats(now, later);
    }
  }

  lemma ReportsDistinct(st: Store, e: Event)
    requires Consistent(st)
    ensures NoRepeats(Reports(st, e))
  {
    RecordsDistinct(st.slots, QueryNew, SLOT_COUNT);
  }

  lemma JoinNoRepeats(a: seq<nat>, b: seq<nat>)
    requires NoRepeats(a) && NoRepeats(b) && forall x :: x in a ==> x !in b
    ensures NoRepeats(a + b)
  {
    forall i, j | 0 <= i < j < |a + b|
      ensures (a + b)[i] != (a + b)[j]
    {
      if i < |a| <= j {
        assert a[i] in a && b[j - |a|] in b;
      }
    }
  }

  // ---------------------------------------------------------- in place

  /** Builds into the first `cap` octets of `buf`; offsets handed out after an overflow may lie behind them. */
  class WireBuilder {
    const buf: array<Byte>
    const cap: nat
    var len: nat
    var overflow: bool

    ghost predicate Valid()
      reads this
    {
      len <= cap <= buf.Length
    }

    ghost function Used(): seq<Byte>
      requires Valid()
      reads this, buf
    {
      buf[..len]
    }

    constructor (buf: array<Byte>, cap: nat)
      requires cap <= buf.Length
      ensures Valid() && this.buf == buf && this.cap == cap && len == 0 && !overflow
    {
      this.buf := buf;
      this.cap := cap;
      len := 0;
      overflow := false;
    }

    /** Reserves and clears `n` octets; on overflow nothing is reserved and the flag is set. */
    method Reserve(n: nat) returns (off: nat)
      requires Valid()
      modifies this, buf
      ensures Valid() && off == old(len)
      ensures overflow <==> old(overflow) || old(len) + n > cap
      ensures Used() == if old(len) + n <= cap then old(Used()) + Zeros(n) else old(Used())
    {
      off := len;
      if n > cap || off > cap - n {
        overflow := true;
        return;
      }
      for i := 0 to n
        modifies buf
        invariant forall j :: 0 <= j < off ==> buf[j] == old(buf[j])
        invariant forall j :: off <= j < off + i ==> buf[j] == 0
      {
        buf[off + i] := 0;
      }
      len := len + n;
    }

    /** Stores wherever it is told to; inside what is reserved it replaces the octets there. */
    method Patch(at: nat, d: seq<Byte>)
      requires Valid() && at + |d| <= buf.Length
      modifies buf
      ensures Valid() && (at + |d| <= len ==> Used() == Patched(old(Used()), at, d))
    {
      for i := 0 to |d|
        invariant forall j :: 0 <= j < buf.Length ==> buf[j] == if at <= j < at + i then d[j - at] else old(buf[j])
      {
        buf[at + i] := d[i];
      }
    }
  }

  /** The buffer while records are being added: `count` references, `done` of them filled in. */
  ghost function Partial(done: seq<Record>, count: nat): seq<Byte>
    requires |done| <= count
  {
    Zeros(8) + Refs(done, 8 + 8 * count) + Zeros(8 * (count - |done|)) + Bodies(done)
  }

  lemma PatchEnd(a: seq<Byte>, b: seq<Byte>, at: nat, d: seq<Byte>)
    requires at + |d| <= |b|
    ensures Patched(a + b, |a| + at, d) == a + Patched(b, at, d)
  {
  }

  /** A record's octets appear in the space reserved for it. */
  lemma BodyPatched(a: seq<Byte>, r: Record)
    ensures var pad := Align4(|r.pdu|);
            Patched(Patched(a + Zeros(16) + Zeros(pad), |a| + 16, r.pdu), |a|, RecordHeader(r)) == a + Body(r)
  {
    hide RecordHeader;
    var pad := Align4(|r.pdu|);
    var blank := Zeros(16) + Zeros(pad);
    assert a + Zeros(16) + Zeros(pad) == a + blank;
    PatchEnd(a, blank, 16, r.pdu);
    var filled := Zeros(16) + r.pdu + Zeros(pad - |r.pdu|);
    assert Patched(blank, 16, r.pdu) == filled;
    PatchEnd(a, filled, 0, RecordHeader(r));
    assert Patched(filled, 0, RecordHeader(r)) == Body(r);
  }

  /** Its reference takes the first free place of the list. */
  lemma RefPatched(done: seq<Record>, count: nat, r: Record)
    requires |done| < count
    ensures var ref := Le32(8 + 8 * count + |Bodies(done)|) + Le32(BodyLength(r));
            && |Partial(done, count)| == 8 + 8 * count + |Bodies(done)|
            && Patched(Partial(done, count) + Body(r), 8 + 8 * |done|, ref) == Partial(done + [r], count)
  {
    hide Bodies, Refs, Body, Le32, Zeros, Patched;
    var base := 8 + 8 * count;
    var ref := Le32(base + |Bodies(done)|) + Le32(BodyLength(r));
    var left := Zeros(8 * (count - |done| - 1));
    var refs, bodies, body := Refs(done, base), Bodies(done), Body(r);
    SplitZeros(count - |done|);
    Regroup(Zeros(8), refs, Zeros(8), left, bodies, body);
    PatchMiddle(Zeros(8) + refs, Zeros(8), left + bodies + body, ref);
    Gather(Zeros(8), refs, ref, left, bodies, body);
    SnocParts(done, r, base);
  }

  lemma SplitZeros(n: nat)
    requires n > 0
    ensures Zeros(8 * n) == Zeros(8) + Zeros(8 * (n - 1))
  {
  }

  lemma Regroup(z: seq<Byte>, refs: seq<Byte>, slot: seq<Byte>, left: seq<Byte>, bodies: seq<Byte>, body: seq<Byte>)
    ensures (z + refs + (slot + left) + bodies) + body == (z + refs) + slot + (left + bodies + body)
  {
  }

  lemma Gather(z: seq<Byte>, refs: seq<Byte>, ref: seq<Byte>, left: seq<Byte>, bodies: seq<Byte>, body: seq<Byte>)
    ensures (z + refs) + ref + (left + bodies + body) == z + (refs + ref) + left + (bodies + body)
  {
  }

  lemma SnocParts(done: seq<Record>, r: Record, base: nat)
    ensures Bodies(done + [r]) == Bodies(done) + Body(r)
    ensures Refs(done + [r], base) == Refs(done, base) + (Le32(base + |Bodies(done)|) + Le32(BodyLength(r)))
  {
    hide Body, Le32;
    assert (done + [r])[..|done|] == done;
  }

  lemma {:induction false} RecordsGrow(slots: seq<Slot>, mode: Mode, n: nat, m: nat)
    requires n <= m <= |slots|
    ensures Records(slots, mode, n) <= Records(slots, mode, m)
  {
    if n < m {
      RecordsGrow(slots, mode, n, m - 1);
    }
  }

  lemma RecordsStep(slots: seq<Slot>, mode: Mode, i: nat)
    requires i < |slots|
    ensures Records(slots, mode, i + 1)
         == if Included(slots[i], mode) then Records(slots, mode, i) + [RecordOf(slots[i])] else Records(slots, mode, i)
  {
  }

  lemma NoRecords(slots: seq<Slot>, mode: Mode)
    ensures Records(slots, mode, 0) == []
  {
  }

  class MessageStore {
    const slots: array<Slot>
    /** Counts without end; everything the host sees of it is its 32-bit index. */
    var next: nat

    ghost predicate Valid()
      reads this, slots
    {
      slots.Length == SLOT_COUNT && Consistent(Store(slots[..], next))
    }

    ghost function Abs(): Store
      reads this, slots
    {
      Store(slots[..], next)
    }

    constructor ()
      ensures Valid() && fresh(slots) && Abs() == EMPTY
    {
      slots := new Slot[SLOT_COUNT](_ => FREE);
      next := 1;
    }

    method AppendPdu(pdu: seq<Byte>) returns (index: Option<nat>)
      requires Valid()
      modifies this, slots
      ensures Valid() && Abs() == Append(old(Abs()), pdu)
      ensures index == if Storable(pdu) then Some(IndexOf(old(next))) else None
      ensures old(IndicesDistinct(slots[..])) ==>
                (IndicesDistinct(slots[..]) <==> !old(Collides(Abs(), AppendEv(pdu))))
    {
      StepValid(Abs(), AppendEv(pdu));
      if IndicesDistinct(slots[..]) {
        StepDistinctIff(Abs(), AppendEv(pdu));
      }
      hide IndicesDistinct, Collides;
      if |pdu| == 0 || |pdu| > PDU_MAX {
        return None;
      }
      var slot := 0;
      while slot < SLOT_COUNT && slots[slot].used
        invariant 0 <= slot <= SLOT_COUNT && FirstUnused(slots[..], slot) == FirstUnused(slots[..], 0)
      {
        slot := slot + 1;
      }
      if slot == SLOT_COUNT {
        slot := 0;
      }
      slots[slot] := Slot(true, true, false, next, pdu);
      index := Some(IndexOf(next));
      next := next + 1;
    }

    method Delete(index: nat)
      requires Valid()
      modifies slots
      ensures Valid() && Abs() == Step(old(Abs()), DeleteEv(index))
      ensures forall i :: 0 <= i < SLOT_COUNT ==>
                slots[i].used == (old(slots[i].used) && index != 0 && IndexOf(old(slots[i].serial)) != index)
    {
      StepValid(Abs(), DeleteEv(index));
      for i := 0 to SLOT_COUNT
        invariant forall j :: 0 <= j < SLOT_COUNT ==>
                    slots[j] == if j < i && old(slots[j]).used && (index == 0 || IndexOf(old(slots[j]).serial) == index)
                                then FREE else old(slots[j])
      {
        if slots[i].used && (index == 0 || IndexOf(slots[i].serial) == index) {
          slots[i] := FREE;
        }
      }
    }

    method CountIncluded(mode: Mode) returns (count: nat)
      requires slots.Length == SLOT_COUNT
      ensures count == |Records(slots[..], mode, SLOT_COUNT)|
    {
      count := 0;
      for i := 0 to SLOT_COUNT
        invariant count == |Records(slots[..], mode, i)|
      {
        if Included(slots[i], mode) {
          count := count + 1;
        }
      }
    }

    /** Adds one record behind the others and fills in its reference, or runs out of room. */
    method AddRecord(b: WireBuilder, s: Slot, ghost done: seq<Record>, refs: nat, written: nat, count: nat)
      requires b.Valid() && written == |done| < count <= SLOT_COUNT && refs <= 8
      requires !b.overflow ==> refs == 8 && b.Used() == Partial(done, count)
      requires b.overflow || 8 + 8 * count + |Bodies(done + [RecordOf(s)])| > b.cap ==> Slack(b.buf, b.cap)
      modifies b, b.buf
      ensures b.Valid()
      ensures b.overflow <==> old(b.overflow) || 8 + 8 * count + |Bodies(done + [RecordOf(s)])| > b.cap
      ensures !b.overflow ==> b.Used() == Partial(done + [RecordOf(s)], count)
    {
      hide Bodies, Body, Le32, Partial, RecordHeader, Patched, Refs, Zeros, Align4;
      ghost var r := RecordOf(s);
      RefPatched(done, count, r);
      SnocParts(done, r, 8 + 8 * count);
      BodyPatched(b.Used(), r);
      var rec := b.Reserve(16);
      var pdu := b.Reserve(Align4(|s.pdu|));
      if !b.overflow {
        b.Patch(pdu, s.pdu);
      }
      b.Patch(rec, RecordHeader(RecordOf(s)));
      b.Patch(refs + 8 * written, Le32(rec) + Le32(b.len - rec));
    }

    method ReserveList(b: WireBuilder, count: nat) returns (refs: nat)
      requires b.Valid() && !b.overflow && b.len == 0
      modifies b, b.buf
      ensures b.Valid() && refs <= 8 && (b.overflow <==> 8 + 8 * count > b.cap)
      ensures !b.overflow ==> refs == 8 && b.Used() == Partial([], count)
    {
      hide Partial, Zeros;
      var header := b.Reserve(8);
      refs := b.Reserve(8 * count);
      EmptyPartial(count);
    }

    method FinishInfo(b: WireBuilder, ghost rs: seq<Record>, written: nat)
      requires b.Valid() && b.buf.Length >= 8 && written == |rs|
      requires !b.overflow ==> b.Used() == Partial(rs, written)
      modifies b.buf
      ensures b.Valid() && (!b.overflow ==> b.Used() == Info(rs))
    {
      hide Partial, Info, Patched, Le32;
      FinishPartial(rs);
      b.Patch(0, Le32(0));
      b.Patch(4, Le32(written));
    }

    /**
      Builds the reply in the first `cap` octets of `out` and marks what it contains.  A reply
      that does not fit is answered with 0, and its messages are marked all the same.
     */
    method BuildReadInfo(out: array<Byte>, cap: nat, mode: Mode) returns (len: nat)
      requires Valid() && cap <= out.Length
      requires |Info(Records(slots[..], mode, SLOT_COUNT))| <= cap || Slack(out, cap)
      modifies slots, out
      ensures Valid() && Abs() == Step(old(Abs()), ReadEv(mode))
      ensures len == 0 <==> old(|Info(Records(slots[..], mode, SLOT_COUNT))|) > cap
      ensures 0 < len ==> len <= cap && out[..len] == Info(old(Records(slots[..], mode, SLOT_COUNT)))
    {
      hide Bodies, Refs, Partial, Info, Le32, Patched, Consistent, Records, Zeros;
      ghost var was := slots[..];
      ghost var rs := Records(was, mode, SLOT_COUNT);
      StepValid(Abs(), ReadEv(mode));
      var count := CountIncluded(mode);
      var b := new WireBuilder(out, cap);
      InfoLength(rs);
      var refs := ReserveList(b, count);
      NoRecords(was, mode);
      NoBodies();
      var written := 0;
      var i := 0;
      while i < SLOT_COUNT && written < count
        modifies slots, b, out
        invariant 0 <= i <= SLOT_COUNT && written <= count && fresh(b) && b.buf == out && b.cap == cap
        invariant written == |Records(was, mode, i)|
        invariant forall j :: 0 <= j < SLOT_COUNT ==> slots[j] == if j < i then MarkOne(was[j], mode) else was[j]
        invariant b.Valid() && (b.overflow <==> 8 + 8 * count + |Bodies(Records(was, mode, i))| > cap)
        invariant !b.overflow ==> refs == 8 && b.Used() == Partial(Records(was, mode, i), count)
      {
        RecordsStep(was, mode, i);
        if Included(slots[i], mode) {
          RecordsGrow(was, mode, i + 1, SLOT_COUNT);
          BodiesGrow(Records(was, mode, i + 1), rs);
          BodiesGrow(Records(was, mode, i), Records(was, mode, i + 1));
          AddRecord(b, slots[i], Records(was, mode, i), refs, written, count);
          slots[i] := if mode == Notify then slots[i].(notified := true) else slots[i].(unread := false);
          written := written + 1;
        }
        i := i + 1;
      }
      NoneLeft(was, mode, i);
      assert slots[..] == Marked(was, mode);
      FinishInfo(b, rs, written);
      len := if b.overflow then 0 else b.len;
    }

    /** A host SMS_READ: Flag=New asks for unread messages only, anything else for all; the reply always fits. */
    method HostSmsRead(out: array<Byte>, flagNew: bool) returns (len: nat)
      requires Valid() && out.Length == INFO_CAP
      modifies slots, out
      ensures Valid() && Abs() == Step(old(Abs()), ReadEv(if flagNew then QueryNew else Query))
      ensures 0 < len <= 2248
      ensures HostRead(out[..len]) == Some(old(Records(slots[..], if flagNew then QueryNew else Query, SLOT_COUNT)))
    {
      hide Info, HostRead, Records;
      var mode := if flagNew then QueryNew else Query;
      ghost var rs := Records(slots[..], mode, SLOT_COUNT);
      StoredRecordsSound(slots[..], next, mode);
      InfoFits(rs);
      HostReadsBack(rs);
      len := BuildReadInfo(out, INFO_CAP, mode);
    }
  }

  /** Room behind the first `cap` octets for what is stored after an overflow. */
  predicate Slack(buf: array<Byte>, cap: nat) { cap + 72 <= buf.Length }

  lemma NoBodies()
    ensures Bodies([]) == []
  {
  }

  lemma StoredRecordsSound(slots: seq<Slot>, next: nat, mode: Mode)
    requires |slots| == SLOT_COUNT && SlotsSound(slots, next)
    ensures AllSound(Records(slots, mode, SLOT_COUNT))
  {
    forall k | 0 <= k < |Records(slots, mode, SLOT_COUNT)|
      ensures Sound(Records(slots, mode, SLOT_COUNT)[k])
    {
      var i := RecordsFrom(slots, mode, SLOT_COUNT, k);
    }
  }

  lemma InfoLength(rs: seq<Record>)
    ensures |Info(rs)| == 8 + 8 * |rs| + |Bodies(rs)|
  {
  }

  lemma EmptyPartial(count: nat)
    ensures Zeros(8) + Zeros(8 * count) == Partial([], count)
  {
  }

  lemma {:induction false} BodiesGrow(a: seq<Record>, b: seq<Record>)
    requires a <= b
    ensures |Bodies(a)| <= |Bodies(b)|
  {
    hide Body;
    if |a| < |b| {
      assert a <= b[..|b| - 1];
      BodiesGrow(a, b[..|b| - 1]);
    } else {
      assert a == b;
    }
  }

  /** Once every counted record is written, the remaining slots hold none. */
  lemma {:induction false} NoneLeft(slots: seq<Slot>, mode: Mode, i: nat)
    requires i <= |slots| == SLOT_COUNT
    requires i == SLOT_COUNT || |Records(slots, mode, i)| >= |Records(slots, mode, SLOT_COUNT)|
    ensures Records(slots, mode, i) == Records(slots, mode, SLOT_COUNT)
    ensures forall j :: i <= j < SLOT_COUNT ==> MarkOne(slots[j], mode) == slots[j]
    decreases SLOT_COUNT - i
  {
    if i < SLOT_COUNT {
      RecordsGrow(slots, mode, i, SLOT_COUNT);
      RecordsGrow(slots, mode, i, i + 1);
      RecordsGrow(slots, mode, i + 1, SLOT_COUNT);
      NoneLeft(slots, mode, i + 1);
    }
  }

  lemma FinishPartial(rs: seq<Record>)
    ensures |Partial(rs, |rs|)| >= 8
    ensures Patched(Patched(Partial(rs, |rs|), 0, Le32(0)), 4, Le32(|rs|)) == Info(rs)
  {
    hide Bodies, Refs, Le32;
    var rest := Refs(rs, 8 + 8 * |rs|) + Bodies(rs);
    assert Partial(rs, |rs|) == Zeros(8) + rest;
    assert Patched(Partial(rs, |rs|), 0, Le32(0)) == Le32(0) + Zeros(4) + rest;
    assert Patched(Le32(0) + Zeros(4) + rest, 4, Le32(|rs|)) == Le32(0) + Le32(|rs|) + rest;
  }
}
