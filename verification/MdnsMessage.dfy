/**
 * Whole mDNS messages: the records of a service, the header, and a reader that walks a message from
 * one record to the next as the receiver does.
 */
module MdnsMessage {
  import opened Bytes
  import opened MdnsName

  const TYPE_PTR: nat := 0x000C
  const TYPE_TXT: nat := 0x0010
  const TYPE_SRV: nat := 0x0021
  const CLASS_IN: nat := 0x0001
  const CLASS_IN_FLUSH_CACHE: nat := 0x8001
  const PTR_TTL: nat := 4500
  const TXT_TTL: nat := 4500
  const SRV_TTL: nat := 120
  /** Type, class, time to live and data length of a record. */
  const FIXED_LEN: nat := 10
  const SERVICES: bytes := [0x5F, 0x73, 0x65, 0x72, 0x76, 0x69, 0x63, 0x65, 0x73]
  const DNS_SD: bytes := [0x5F, 0x64, 0x6E, 0x73, 0x2D, 0x73, 0x64]
  const UDP: bytes := [0x5F, 0x75, 0x64, 0x70]
  const EQUALS: byte := 0x3D

  type u16 = v: nat | v < 0x1_0000

  function U16(v: u16): bytes {
    [v / 256, v % 256]
  }

  function U16At(p: bytes, at: nat): u16
    requires at + 1 < |p|
  {
    p[at] as int * 256 + p[at + 1] as int
  }

  // ---------------------------------------------------------------- services and their records

  datatype TxtItem = TxtItem(key: bytes, value: Option<bytes>)

  datatype Service = Service(
    instance: bytes, service: bytes, proto: bytes, host: bytes,
    priority: u16, weight: u16, port: u16,
    txt: seq<TxtItem>, subtypes: seq<bytes>
  )

  /** The data of a record: a name behind some fixed bytes, or text entries. */
  datatype Body = NameBody(prefix: bytes, name: seq<bytes>) | TxtBody(items: seq<TxtItem>)

  datatype Record = Record(owner: seq<bytes>, kind: u16, flush: bool, ttl: u16, body: Body)

  datatype AnswerKind = Ptr | Sdptr | Srv | Txt

  datatype Answer = Answer(kind: AnswerKind, service: Service, flush: bool, bye: bool)

  function PtrRecord(owner: seq<bytes>, s: Service, bye: bool): Record {
    Record(owner, TYPE_PTR, false, if bye then 0 else PTR_TTL, NameBody([], [s.instance, s.service, s.proto, LOCAL]))
  }

  function SubtypeRecords(s: Service, subtypes: seq<bytes>, bye: bool): seq<Record> {
    if subtypes == [] then []
    else [PtrRecord([subtypes[0], SUB, s.service, s.proto, LOCAL], s, bye)] + SubtypeRecords(s, subtypes[1..], bye)
  }

  /** The records that one answer puts into the message. */
  function RecordsOf(a: Answer): seq<Record> {
    var s := a.service;
    match a.kind
    case Ptr => [PtrRecord([s.service, s.proto, LOCAL], s, a.bye)] + SubtypeRecords(s, s.subtypes, a.bye)
    case Sdptr =>
      [Record([SERVICES, DNS_SD, UDP, LOCAL], TYPE_PTR, a.flush, PTR_TTL, NameBody([], [s.service, s.proto, LOCAL]))]
    case Srv =>
      [Record([s.instance, s.service, s.proto, LOCAL], TYPE_SRV, a.flush, if a.bye then 0 else SRV_TTL,
              NameBody(U16(s.priority) + U16(s.weight) + U16(s.port), [s.host, LOCAL]))]
    case Txt =>
      [Record([s.instance, s.service, s.proto, LOCAL], TYPE_TXT, a.flush, if a.bye then 0 else TXT_TTL, TxtBody(s.txt))]
  }

  // ---------------------------------------------------------------- text entries

  function EntryText(t: TxtItem): bytes {
    match t.value
    case None => t.key
    case Some(v) => t.key + [EQUALS] + v
  }

  predicate EntryOk(t: TxtItem) {
    |EntryText(t)| <= 255
  }

  predicate EntriesOk(ts: seq<TxtItem>) {
    forall i :: 0 <= i < |ts| ==> EntryOk(ts[i])
  }

  function Entry(t: TxtItem): bytes
    requires EntryOk(t)
  {
    [|EntryText(t)| as byte] + EntryText(t)
  }

  function Entries(ts: seq<TxtItem>): bytes
    requires EntriesOk(ts)
  {
    if ts == [] then [] else Entry(ts[0]) + Entries(ts[1..])
  }

  /** The data of a text record: a single empty string when there are no entries. */
  function TxtData(ts: seq<TxtItem>): bytes
    requires EntriesOk(ts)
  {
    if ts == [] then [0] else Entries(ts)
  }

  /** Length-prefixed strings fill the bytes from `at` to `end` exactly. */
  predicate StringsFill(p: bytes, at: nat, end: nat)
    requires end <= |p|
    decreases if at < end then end - at else 0
  {
    at == end || (at < end && at + 1 + p[at] <= end && StringsFill(p, at + 1 + p[at], end))
  }

  // ---------------------------------------------------------------- the walker

  /** From the record at `at` to the next one, when the record is well formed and inside `limit`. */
  function WalkRecord(p: bytes, limit: nat, at: nat): (r: Option<nat>)
    requires limit <= |p|
    ensures r.Some? ==> at + FIXED_LEN < r.value <= limit
  {
    match Decode(p, limit, at, at)
    case None => None
    case Some(d) =>
      if d.next + FIXED_LEN > limit then None
      else
        var body := d.next + FIXED_LEN;
        var end := body + U16At(p, d.next + 8);
        if end <= limit && BodyOk(p, U16At(p, d.next), body, end) then Some(end) else None
  }

  /** The data of a record is what its type says, and fills its length exactly. */
  predicate BodyOk(p: bytes, kind: u16, body: nat, end: nat)
    requires end <= |p|
  {
    if kind == TYPE_PTR then NameFills(p, body, end)
    else if kind == TYPE_SRV then body + 6 <= end && NameFills(p, body + 6, end)
    else if kind == TYPE_TXT then body < end && StringsFill(p, body, end)
    else body < end
  }

  predicate NameFills(p: bytes, at: nat, end: nat)
    requires end <= |p|
  {
    Decode(p, end, at, at).Some? && Decode(p, end, at, at).value.next == end
  }

  /** `n` records one after another. */
  function WalkRecords(p: bytes, limit: nat, at: nat, n: nat): (r: Option<nat>)
    requires limit <= |p|
    decreases n
  {
    if n == 0 then Some(at)
    else match WalkRecord(p, limit, at)
      case None => None
      case Some(next) => WalkRecords(p, limit, next, n - 1)
  }

  /** `n` questions one after another: a name, a type and a class. */
  function WalkQuestions(p: bytes, limit: nat, at: nat, n: nat): (r: Option<nat>)
    requires limit <= |p|
    decreases n
  {
    if n == 0 then Some(at)
    else match Decode(p, limit, at, at)
      case None => None
      case Some(d) => if d.next + 4 > limit then None else WalkQuestions(p, limit, d.next + 4, n - 1)
  }

  // ---------------------------------------------------------------- appending a record

  function ClassOf(flush: bool): u16 {
    if flush then CLASS_IN_FLUSH_CACHE else CLASS_IN
  }

  /** The fixed fields, with a data length of zero that is patched later. */
  function FixedFields(r: Record): (f: bytes)
    ensures |f| == FIXED_LEN
  {
    U16(r.kind) + U16(ClassOf(r.flush)) + [0, 0] + U16(r.ttl) + [0, 0]
  }

  predicate RecordOk(r: Record) {
    && AreLabels(r.owner) && Room(r.owner) < 255
    && match r.body
       case NameBody(prefix, name) =>
         && AreLabels(name) && Room(name) < 255
         && ((r.kind == TYPE_PTR && prefix == []) || (r.kind == TYPE_SRV && |prefix| == 6))
       case TxtBody(items) => EntriesOk(items) && r.kind == TYPE_TXT
  }

  /** Owner name and fixed fields are written without running out of room. */
  predicate HeadFits(p: bytes, index: nat, r: Record) {
    NameFits(p, index, r.owner) && AppendFqdn(p, index, r.owner).index + FIXED_LEN < MAX_PACKET_SIZE
  }

  /** The packet after owner name and fixed fields, and where the data starts. */
  function AppendHead(p: bytes, index: nat, r: Record): (w: Written)
    requires HeadFits(p, index, r)
    ensures |w.packet| == MEMORY && w.packet[..index] == p[..index]
    ensures index + FIXED_LEN < w.index < MAX_PACKET_SIZE
  {
    AppendFits(p, index, r.owner);
    var w := AppendFqdn(p, index, r.owner);
    var q := Put(w.packet, w.index, FixedFields(r));
    PrefixOfPrefix(q, w.packet, w.packet, index, w.index);
    Written(q, w.index + FIXED_LEN, w.count % 256 + FIXED_LEN)
  }

  /** Where the name in the data of a record starts, and the packet at that moment. */
  function BeforeName(h: Written, r: Record): Written
    requires |h.packet| == MEMORY && r.body.NameBody? && h.index + |r.body.prefix| <= MEMORY
  {
    Written(Put(h.packet, h.index, r.body.prefix), h.index + |r.body.prefix|, |r.body.prefix|)
  }

  /** The data of a record is written without running out of room. */
  predicate BodyFits(h: Written, r: Record) {
    && |h.packet| == MEMORY && h.index < MAX_PACKET_SIZE && RecordOk(r)
    && match r.body
       case NameBody(prefix, name) =>
         && h.index + |prefix| <= MAX_PACKET_SIZE
         && NameFits(BeforeName(h, r).packet, h.index + |prefix|, name)
       case TxtBody(items) => items == [] || h.index + |TxtData(items)| < MAX_PACKET_SIZE
  }

  /** The packet after the data of a record; the count is what goes into the length field. */
  function AppendBody(h: Written, r: Record): (w: Written)
    requires BodyFits(h, r)
    ensures |w.packet| == MEMORY && h.index < w.index <= MAX_PACKET_SIZE && w.packet[..h.index] == h.packet[..h.index]
  {
    match r.body
    case NameBody(prefix, name) =>
      var b := BeforeName(h, r);
      AppendFits(b.packet, b.index, name);
      var w := AppendFqdn(b.packet, b.index, name);
      PrefixOfPrefix(w.packet, b.packet, h.packet, h.index, b.index);
      Written(w.packet, w.index, w.count % 256 + |prefix|)
    case TxtBody(items) =>
      Written(Put(h.packet, h.index, TxtData(items)), h.index + |TxtData(items)|, |TxtData(items)|)
  }

  /** No step of appending the record runs out of room. */
  predicate RecordFits(p: bytes, index: nat, r: Record) {
    RecordOk(r) && HeadFits(p, index, r) && BodyFits(AppendHead(p, index, r), r)
  }

  /** A whole record: head, data, and the length of the data patched into the head. */
  function AppendRecord(p: bytes, index: nat, r: Record): (w: Written)
    requires RecordFits(p, index, r)
    ensures |w.packet| == MEMORY && index + FIXED_LEN + 1 < w.index <= MAX_PACKET_SIZE
    ensures w.packet[..index] == p[..index]
  {
    var h := AppendHead(p, index, r);
    var b := AppendBody(h, r);
    var q := Put(b.packet, h.index - 2, U16(b.count % 0x1_0000));
    PrefixOfPrefix(b.packet, h.packet, p, index, h.index);
    PrefixOfPrefix(q, b.packet, p, index, h.index - 2);
    Written(q, b.index, h.count + b.count)
  }

  /**
   * What has to hold for a record to be readable: wherever a name in it is replaced by a pointer, the
   * pointer goes to a plain name that was there before the record, or before its length field.
   */
  predicate RecordSound(p: bytes, index: nat, r: Record)
    requires RecordFits(p, index, r)
  {
    && FindsPlain(p, index, index, r.owner) && FindsBelow(p, index, index, r.owner)
    && (r.body.NameBody? ==>
        var h := AppendHead(p, index, r);
        var b := BeforeName(h, r);
        && FindsPlain(b.packet, h.index - 2, b.index, r.body.name)
        && FindsBelow(b.packet, h.index - 2, b.index, r.body.name))
  }

  /** Where a record just appended stands: owner name, data and the patched length. */
  lemma RecordParts(p: bytes, index: nat, r: Record)
    requires RecordFits(p, index, r)
    ensures var (w1, h, w) := (AppendFqdn(p, index, r.owner), AppendHead(p, index, r), AppendRecord(p, index, r));
      var b := AppendBody(h, r);
      && h.index == w1.index + FIXED_LEN && w.index == b.index
      && w.packet[..w1.index] == w1.packet[..w1.index]
      && w.packet[w1.index..w1.index + 2] == U16(r.kind)
      && w.packet[..h.index - 2] == b.packet[..h.index - 2]
      && w.packet[h.index - 2..h.index] == U16(b.count % 0x1_0000)
      && w.packet[h.index..w.index] == b.packet[h.index..w.index]
  {
    hide AppendFqdn, AppendHead, AppendBody, HeadFits, BodyFits, RecordOk;
    HeadParts(p, index, r);
    var (w1, h) := (AppendFqdn(p, index, r.owner), AppendHead(p, index, r));
    var b := AppendBody(h, r);
    var q := AppendRecord(p, index, r).packet;
    assert q[..h.index - 2] == b.packet[..h.index - 2];
    PrefixOfPrefix(q, b.packet, h.packet, h.index - 2, h.index - 2) by {
      assert b.packet[..h.index - 2] == b.packet[..h.index][..h.index - 2] == h.packet[..h.index - 2];
    }
    SameSlice(q, h.packet, 0, h.index - 2, 0, w1.index);
    SameSlice(q, h.packet, 0, h.index - 2, w1.index, w1.index + 2);
    SameSlice(q, b.packet, h.index, |q|, h.index, b.index) by {
      assert q[h.index..] == b.packet[h.index..];
      assert q[h.index..|q|] == b.packet[h.index..|q|];
    }
  }

  lemma HeadParts(p: bytes, index: nat, r: Record)
    requires HeadFits(p, index, r)
    ensures |p| == MEMORY && index < MAX_PACKET_SIZE && AreLabels(r.owner)
    ensures var (w1, h) := (AppendFqdn(p, index, r.owner), AppendHead(p, index, r));
      && h.index == w1.index + FIXED_LEN
      && h.packet[..w1.index] == w1.packet[..w1.index]
      && h.packet[w1.index..h.index] == FixedFields(r)
      && h.packet[w1.index..w1.index + 2] == U16(r.kind)
  {
    hide AppendFqdn, NameFits;
    FitsFacts(p, index, r.owner);
    var (w1, h) := (AppendFqdn(p, index, r.owner), AppendHead(p, index, r));
    assert h.packet[w1.index..h.index] == FixedFields(r);
    SliceOfSlice(h.packet, w1.index, h.index, 0, 2);
    assert FixedFields(r)[..2] == U16(r.kind);
  }

  /** The count that goes into the length field is the length of the data: nothing is truncated. */
  lemma DataLength(h: Written, r: Record)
    requires BodyFits(h, r)
    ensures var b := AppendBody(h, r); b.count == b.index - h.index < 0x1_0000
  {
    hide AppendFqdn, Put, Room, BeforeName;
    if r.body.NameBody? {
      NameLength(h, r);
    } else {
      hide TxtData;
    }
  }

  lemma NameLength(h: Written, r: Record)
    requires BodyFits(h, r) && r.body.NameBody?
    ensures var b := BeforeName(h, r);
      && b.index == h.index + |r.body.prefix| && |b.packet| == MEMORY && AreLabels(r.body.name)
      && AppendFqdn(b.packet, b.index, r.body.name).count < 256
  {
    var b := BeforeName(h, r);
    AppendFits(b.packet, b.index, r.body.name);
  }

  lemma OwnerLength(p: bytes, index: nat, r: Record)
    requires RecordOk(r) && HeadFits(p, index, r)
    ensures var w := AppendFqdn(p, index, r.owner); w.count == w.index - index < 256
  {
    AppendFits(p, index, r.owner);
    hide AppendFqdn, Room, AreLabels;
  }

  lemma HeadLength(p: bytes, index: nat, r: Record)
    requires RecordOk(r) && HeadFits(p, index, r)
    ensures var h := AppendHead(p, index, r); h.count == h.index - index
  {
    hide AppendFqdn, Put, FixedFields, RecordOk, NameFits;
    OwnerLength(p, index, r);
  }

  /** The length reported for a record is the number of its bytes: no part of it is truncated. */
  lemma RecordLength(p: bytes, index: nat, r: Record)
    requires RecordFits(p, index, r)
    ensures var w := AppendRecord(p, index, r); w.count == w.index - index
  {
    HeadLength(p, index, r);
    DataLength(AppendHead(p, index, r), r);
    hide AppendHead, AppendBody, Put, U16;
  }

  lemma U16Read(p: bytes, at: nat, v: u16)
    requires at + 2 <= |p| && p[at..at + 2] == U16(v)
    ensures U16At(p, at) == v
  {
    assert p[at] == p[at..at + 2][0] && p[at + 1] == p[at..at + 2][1];
  }

  lemma {:induction false} EntriesFill(p: bytes, at: nat, end: nat, ts: seq<TxtItem>)
    requires EntriesOk(ts) && at <= end <= |p| && p[at..end] == Entries(ts)
    ensures StringsFill(p, at, end)
    decreases |ts|
  {
    hide EntryText;
    if ts != [] {
      var e := Entry(ts[0]);
      SplitSlice(p, at, end, e, Entries(ts[1..]));
      EntriesFill(p, at + |e|, end, ts[1..]);
    }
  }

  lemma SplitSlice(p: bytes, at: nat, end: nat, a: bytes, b: bytes)
    requires at <= end <= |p| && p[at..end] == a + b
    ensures at + |a| <= end && p[at..at + |a|] == a && p[at + |a|..end] == b
    ensures a != [] ==> p[at] == a[0]
  {
    var s := p[at..end];
    assert |s| == |a| + |b|;
    assert s[..|a|] == a && s[|a|..] == b;
    assert p[at..at + |a|] == s[..|a|] && p[at + |a|..end] == s[|a|..];
    assert a != [] ==> p[at] == s[0];
  }

  lemma OwnerDecodes(p: bytes, index: nat, r: Record)
    requires HEAD_LEN <= index && RecordFits(p, index, r) && RecordSound(p, index, r)
    ensures var (w1, w) := (AppendFqdn(p, index, r.owner), AppendRecord(p, index, r));
      && index < w1.index <= w.index
      && Decodes(w.packet, w.index, index, index, w1.index, r.owner)
  {
    hide AppendFqdn, AppendRecord, AppendHead, AppendBody, FindsPlain, FindsBelow, SameTexts;
    RecordParts(p, index, r);
    AppendFits(p, index, r.owner);
    var (w1, w) := (AppendFqdn(p, index, r.owner), AppendRecord(p, index, r));
    SameSlice(w.packet, w1.packet, 0, w1.index, HEAD_LEN, index);
    SameSlice(w.packet, w1.packet, 0, w1.index, index, w1.index);
    AppendDecodes(p, index, index, index, r.owner, w.packet);
    DecodePrefix(w.packet, w1.index, w.packet, w.index, index, index);
  }

  lemma NameBodyFills(p: bytes, index: nat, r: Record)
    requires HEAD_LEN <= index && RecordFits(p, index, r) && RecordSound(p, index, r) && r.body.NameBody?
    ensures var (h, w) := (AppendHead(p, index, r), AppendRecord(p, index, r));
      var at := h.index + |r.body.prefix|;
      at <= w.index && Decodes(w.packet, w.index, at, at, w.index, r.body.name)
  {
    hide AppendFqdn, AppendRecord, AppendHead, FindsPlain, FindsBelow, Put, SameTexts;
    RecordParts(p, index, r);
    var (h, w) := (AppendHead(p, index, r), AppendRecord(p, index, r));
    var b := BeforeName(h, r);
    AppendFits(b.packet, b.index, r.body.name);
    var v := AppendFqdn(b.packet, b.index, r.body.name);
    SameSlice(w.packet, v.packet, 0, h.index - 2, HEAD_LEN, h.index - 2);
    SameSlice(w.packet, v.packet, h.index, w.index, b.index, w.index);
    AppendDecodes(b.packet, h.index - 2, b.index, b.index, r.body.name, w.packet);
  }

  lemma TxtBodyFills(p: bytes, index: nat, r: Record)
    requires RecordFits(p, index, r) && r.body.TxtBody?
    ensures var (h, w) := (AppendHead(p, index, r), AppendRecord(p, index, r));
      && h.index < w.index && w.packet[h.index..w.index] == TxtData(r.body.items)
      && StringsFill(w.packet, h.index, w.index)
  {
    hide AppendHead, AppendRecord;
    RecordParts(p, index, r);
    var (h, w) := (AppendHead(p, index, r), AppendRecord(p, index, r));
    assert w.packet[h.index..w.index] == TxtData(r.body.items);
    if r.body.items != [] {
      EntriesFill(w.packet, h.index, w.index, r.body.items);
    } else {
      assert w.packet[h.index] == w.packet[h.index..w.index][0] == 0;
    }
  }

  /** A record just appended walks from where it began to where it ended, and names its owner. */
  lemma RecordWalks(p: bytes, index: nat, r: Record)
    requires HEAD_LEN <= index && RecordFits(p, index, r) && RecordSound(p, index, r)
    ensures var w := AppendRecord(p, index, r);
      && WalkRecord(w.packet, w.index, index) == Some(w.index)
      && (exists end :: Decodes(w.packet, w.index, index, index, end, r.owner))
      && w.index == index + w.count
  {
    hide AppendFqdn, AppendRecord, AppendHead, AppendBody, RecordSound, WalkRecord, BodyOk, SameTexts, Decode;
    hide HeadFits, BodyFits, RecordOk;
    RecordParts(p, index, r);
    OwnerDecodes(p, index, r);
    HeadParts(p, index, r);
    var (w1, h, w) := (AppendFqdn(p, index, r.owner), AppendHead(p, index, r), AppendRecord(p, index, r));
    RecordLength(p, index, r);
    BodyFills(p, index, r);
    BodyLength(p, index, r);
    U16Read(w.packet, w1.index, r.kind);
    U16Read(w.packet, w1.index + 8, w.index - h.index);
    WalkRecordOf(w.packet, w.index, index, w1.index, w.index);
  }

  lemma WalkRecordOf(p: bytes, limit: nat, at: nat, fields: nat, end: nat)
    requires fields + FIXED_LEN < end <= limit <= |p|
    requires Decode(p, limit, at, at).Some? && Decode(p, limit, at, at).value.next == fields
    requires U16At(p, fields + 8) == end - fields - FIXED_LEN
    requires BodyOk(p, U16At(p, fields), fields + FIXED_LEN, end)
    ensures WalkRecord(p, limit, at) == Some(end)
  {
    hide BodyOk, Decode, U16At;
  }

  lemma BodyLength(p: bytes, index: nat, r: Record)
    requires RecordFits(p, index, r)
    ensures var h := AppendHead(p, index, r);
      AppendBody(h, r).count == AppendBody(h, r).index - h.index < 0x1_0000
  {
    hide AppendFqdn, AppendBody;
    DataLength(AppendHead(p, index, r), r);
  }

  /** The data of a record just appended is what its type says, to the last byte. */
  lemma BodyFills(p: bytes, index: nat, r: Record)
    requires HEAD_LEN <= index && RecordFits(p, index, r) && RecordSound(p, index, r)
    ensures var (h, w) := (AppendHead(p, index, r), AppendRecord(p, index, r));
      h.index < w.index && BodyOk(w.packet, r.kind, h.index, w.index)
  {
    hide AppendFqdn, AppendRecord, AppendHead, AppendBody, FindsPlain, FindsBelow, Decode, StringsFill, SameTexts;
    RecordParts(p, index, r);
    if r.body.NameBody? {
      NameBodyFills(p, index, r);
    } else {
      TxtBodyFills(p, index, r);
    }
  }

  // ---------------------------------------------------------------- walking is stable

  lemma {:induction false} StringsFillSame(p: bytes, p': bytes, at: nat, end: nat, lo: nat)
    requires lo <= at && end <= |p| && end <= |p'| && lo <= end && p[lo..end] == p'[lo..end]
    ensures StringsFill(p, at, end) == StringsFill(p', at, end)
    decreases if at < end then end - at else 0
  {
    if at < end {
      SameSlice(p, p', lo, end, at, at + 1);
      if at + 1 + p[at] <= end {
        StringsFillSame(p, p', at + 1 + p[at], end, lo);
      }
    }
  }

  /** What has been walked over once is walked over in the same way when more has been appended. */
  lemma WalkRecordStable(p: bytes, limit: nat, p': bytes, limit': nat, at: nat)
    requires HEAD_LEN <= at && HEAD_LEN <= limit <= |p| && limit <= limit' <= |p'|
    requires p[HEAD_LEN..limit] == p'[HEAD_LEN..limit]
    requires WalkRecord(p, limit, at).Some?
    ensures WalkRecord(p', limit', at) == WalkRecord(p, limit, at)
  {
    hide Decode, StringsFill;
    var d := Decode(p, limit, at, at).value;
    DecodePrefix(p, limit, p', limit', at, at);
    var f := d.next;
    var end := WalkRecord(p, limit, at).value;
    SameSlice(p, p', HEAD_LEN, limit, f, f + 1);
    SameSlice(p, p', HEAD_LEN, limit, f + 1, f + 2);
    SameSlice(p, p', HEAD_LEN, limit, f + 8, f + 9);
    SameSlice(p, p', HEAD_LEN, limit, f + 9, f + 10);
    SameSlice(p, p', HEAD_LEN, limit, HEAD_LEN, end);
    BodyStable(p, p', U16At(p, f), f + FIXED_LEN, end);
  }

  lemma BodyStable(p: bytes, p': bytes, kind: u16, body: nat, end: nat)
    requires HEAD_LEN <= body <= end <= |p| && end <= |p'| && p[HEAD_LEN..end] == p'[HEAD_LEN..end]
    requires BodyOk(p, kind, body, end)
    ensures BodyOk(p', kind, body, end)
  {
    hide Decode, StringsFill;
    if kind == TYPE_PTR {
      DecodePrefix(p, end, p', end, body, body);
    } else if kind == TYPE_SRV {
      DecodePrefix(p, end, p', end, body + 6, body + 6);
    } else if kind == TYPE_TXT {
      StringsFillSame(p, p', body, end, HEAD_LEN);
    }
  }

  lemma {:induction false} WalkRecordsStable(p: bytes, limit: nat, p': bytes, limit': nat, at: nat, n: nat)
    requires HEAD_LEN <= at && HEAD_LEN <= limit <= |p| && limit <= limit' <= |p'|
    requires p[HEAD_LEN..limit] == p'[HEAD_LEN..limit]
    requires WalkRecords(p, limit, at, n).Some?
    ensures WalkRecords(p', limit', at, n) == WalkRecords(p, limit, at, n)
    decreases n
  {
    hide WalkRecord;
    if n > 0 {
      WalkRecordStable(p, limit, p', limit', at);
      WalkRecordsStable(p, limit, p', limit', WalkRecord(p, limit, at).value, n - 1);
    }
  }

  lemma {:induction false} WalkRecordsJoin(p: bytes, limit: nat, at: nat, m: nat, n: nat)
    requires limit <= |p| && WalkRecords(p, limit, at, m).Some?
    ensures WalkRecords(p, limit, at, m + n) == WalkRecords(p, limit, WalkRecords(p, limit, at, m).value, n)
    decreases m
  {
    hide WalkRecord;
    if m > 0 {
      WalkRecordsJoin(p, limit, WalkRecord(p, limit, at).value, m - 1, n);
    }
  }

  // ---------------------------------------------------------------- whole messages

  /** No record runs out of room, each at the place where the ones before it end. */
  predicate RecordsFit(p: bytes, index: nat, rs: seq<Record>)
    decreases |rs|
  {
    && |p| == MEMORY && index <= MAX_PACKET_SIZE
    && (rs != [] ==>
        && RecordFits(p, index, rs[0])
        && var w := AppendRecord(p, index, rs[0]);
           RecordsFit(w.packet, w.index, rs[1..]))
  }

  function AppendRecords(p: bytes, index: nat, rs: seq<Record>): (w: Written)
    requires RecordsFit(p, index, rs)
    ensures |w.packet| == MEMORY && index <= w.index <= MAX_PACKET_SIZE && w.packet[..index] == p[..index]
    ensures w.count == |rs|
    decreases |rs|
  {
    hide AppendRecord, RecordFits;
    if rs == [] then Written(p, index, 0)
    else
      var w := AppendRecord(p, index, rs[0]);
      var v := AppendRecords(w.packet, w.index, rs[1..]);
      PrefixOfPrefix(v.packet, w.packet, p, index, w.index);
      v.(count := 1 + v.count)
  }

  predicate RecordsSound(p: bytes, index: nat, rs: seq<Record>)
    requires RecordsFit(p, index, rs)
    decreases |rs|
  {
    rs == [] ||
    (RecordSound(p, index, rs[0]) &&
     var w := AppendRecord(p, index, rs[0]);
     RecordsSound(w.packet, w.index, rs[1..]))
  }

  /** Records appended one after another are walked one after another, to the end of the last. */
  lemma {:induction false} RecordsWalk(p: bytes, index: nat, rs: seq<Record>)
    requires HEAD_LEN <= index && RecordsFit(p, index, rs) && RecordsSound(p, index, rs)
    ensures var w := AppendRecords(p, index, rs);
      && WalkRecords(w.packet, w.index, index, |rs|) == Some(w.index)
      && w.index >= index + (FIXED_LEN + 2) * |rs|
    decreases |rs|
  {
    hide AppendRecord, RecordFits, RecordSound, WalkRecord;
    if rs != [] {
      RecordWalks(p, index, rs[0]);
      var w := AppendRecord(p, index, rs[0]);
      var v := AppendRecords(w.packet, w.index, rs[1..]);
      RecordsWalk(w.packet, w.index, rs[1..]);
      SameSlice(w.packet, v.packet, 0, w.index, HEAD_LEN, w.index);
      WalkRecordStable(w.packet, w.index, v.packet, v.index, index);
    }
  }

  // ---------------------------------------------------------------- questions and the header

  datatype Question = Question(name: seq<bytes>, kind: u16, unicast: bool)

  /**
   * Name, type and class are summed up in one byte, which would be zero for a name of 252 bytes: such a
   * question would be written but not counted.  With a domain of five letters names have at most 199 bytes.
   */
  predicate QuestionOk(q: Question) {
    q.name != [] && AreLabels(q.name) && Room(q.name) < 251
  }

  function QuestionFields(q: Question): bytes {
    U16(q.kind) + U16(if q.unicast then CLASS_IN_FLUSH_CACHE else CLASS_IN)
  }

  predicate QuestionFits(p: bytes, index: nat, q: Question) {
    QuestionOk(q) && NameFits(p, index, q.name) && AppendFqdn(p, index, q.name).index + 4 <= MAX_PACKET_SIZE
  }

  function AppendQuestion(p: bytes, index: nat, q: Question): (w: Written)
    requires QuestionFits(p, index, q)
    ensures |w.packet| == MEMORY && index + 6 <= w.index <= MAX_PACKET_SIZE && w.packet[..index] == p[..index]
  {
    AppendFits(p, index, q.name);
    var w := AppendFqdn(p, index, q.name);
    var r := Put(w.packet, w.index, QuestionFields(q));
    PrefixOfPrefix(r, w.packet, p, index, w.index);
    Written(r, w.index + 4, w.count + 4)
  }

  /** And so for a question. */
  lemma QuestionLength(p: bytes, index: nat, q: Question)
    requires QuestionFits(p, index, q)
    ensures var w := AppendQuestion(p, index, q); w.count == w.index - index < 256
  {
    AppendFits(p, index, q.name);
    hide AppendFqdn, Put, Room, QuestionFields;
  }

  predicate QuestionsFit(p: bytes, index: nat, qs: seq<Question>)
    decreases |qs|
  {
    && |p| == MEMORY && index <= MAX_PACKET_SIZE
    && (qs != [] ==>
        && QuestionFits(p, index, qs[0])
        && var w := AppendQuestion(p, index, qs[0]);
           QuestionsFit(w.packet, w.index, qs[1..]))
  }

  function AppendQuestions(p: bytes, index: nat, qs: seq<Question>): (w: Written)
    requires QuestionsFit(p, index, qs)
    ensures |w.packet| == MEMORY && index + 6 * |qs| <= w.index <= MAX_PACKET_SIZE
    ensures w.packet[..index] == p[..index] && w.count == |qs|
    decreases |qs|
  {
    hide AppendQuestion, QuestionFits;
    if qs == [] then Written(p, index, 0)
    else
      var w := AppendQuestion(p, index, qs[0]);
      var v := AppendQuestions(w.packet, w.index, qs[1..]);
      PrefixOfPrefix(v.packet, w.packet, p, index, w.index);
      v.(count := 1 + v.count)
  }

  predicate QuestionSound(p: bytes, index: nat, q: Question)
    requires QuestionFits(p, index, q)
  {
    FindsPlain(p, index, index, q.name) && FindsBelow(p, index, index, q.name)
  }

  predicate QuestionsSound(p: bytes, index: nat, qs: seq<Question>)
    requires QuestionsFit(p, index, qs)
    decreases |qs|
  {
    qs == [] ||
    (QuestionSound(p, index, qs[0]) &&
     var w := AppendQuestion(p, index, qs[0]);
     QuestionsSound(w.packet, w.index, qs[1..]))
  }

  lemma {:induction false} WalkQuestionsStable(p: bytes, limit: nat, p': bytes, limit': nat, at: nat, n: nat)
    requires HEAD_LEN <= at && HEAD_LEN <= limit <= |p| && limit <= limit' <= |p'|
    requires p[HEAD_LEN..limit] == p'[HEAD_LEN..limit]
    requires WalkQuestions(p, limit, at, n).Some?
    ensures WalkQuestions(p', limit', at, n) == WalkQuestions(p, limit, at, n)
    decreases n
  {
    hide Decode;
    if n > 0 {
      DecodePrefix(p, limit, p', limit', at, at);
      WalkQuestionsStable(p, limit, p', limit', Decode(p, limit, at, at).value.next + 4, n - 1);
    }
  }

  lemma QuestionDecodes(p: bytes, index: nat, q: Question)
    requires HEAD_LEN <= index && QuestionFits(p, index, q) && QuestionSound(p, index, q)
    ensures var w := AppendQuestion(p, index, q); Decodes(w.packet, w.index, index, index, w.index - 4, q.name)
  {
    hide AppendFqdn, FindsPlain, FindsBelow, SameTexts;
    AppendFits(p, index, q.name);
    var (w1, w) := (AppendFqdn(p, index, q.name), AppendQuestion(p, index, q));
    SameSlice(w.packet, w1.packet, 0, w1.index, HEAD_LEN, index);
    SameSlice(w.packet, w1.packet, 0, w1.index, index, w1.index);
    AppendDecodes(p, index, index, index, q.name, w.packet);
    DecodePrefix(w.packet, w1.index, w.packet, w.index, index, index);
  }

  lemma {:induction false} QuestionsWalk(p: bytes, index: nat, qs: seq<Question>)
    requires HEAD_LEN <= index && QuestionsFit(p, index, qs) && QuestionsSound(p, index, qs)
    ensures var w := AppendQuestions(p, index, qs); WalkQuestions(w.packet, w.index, index, |qs|) == Some(w.index)
    decreases |qs|
  {
    hide AppendQuestion, QuestionFits, QuestionSound, Decode, SameTexts;
    if qs != [] {
      QuestionDecodes(p, index, qs[0]);
      var w := AppendQuestion(p, index, qs[0]);
      var v := AppendQuestions(w.packet, w.index, qs[1..]);
      QuestionsWalk(w.packet, w.index, qs[1..]);
      SameSlice(w.packet, v.packet, 0, w.index, HEAD_LEN, w.index);
      DecodePrefix(w.packet, w.index, v.packet, v.index, index, index);
    }
  }

  datatype Message = Message(
    id: u16, flags: u16, questions: seq<Question>,
    answers: seq<Record>, servers: seq<Record>, additional: seq<Record>
  )

  /** The packet at the start: identifier, flags and four counts of zero over whatever was there before. */
  function Header(p: bytes, m: Message): (r: bytes)
    requires |p| == MEMORY
    ensures |r| == MEMORY
  {
    Put(p, 0, U16(m.id) + U16(m.flags) + [0, 0, 0, 0, 0, 0, 0, 0])
  }

  /** Patches one of the four counts; the counter is a single byte. */
  function SetCount(p: bytes, at: nat, count: nat): (r: bytes)
    requires |p| == MEMORY && at + 2 <= HEAD_LEN
    ensures |r| == MEMORY && r[HEAD_LEN..] == p[HEAD_LEN..]
    ensures forall i :: 0 <= i < HEAD_LEN && i != at && i != at + 1 ==> r[i] == p[i]
    ensures U16At(r, at) == count % 256
  {
    p[at := 0][at + 1 := count % 256]
  }

  function AppendSection(p: bytes, index: nat, rs: seq<Record>, at: nat): (w: Written)
    requires RecordsFit(p, index, rs) && at + 2 <= HEAD_LEN <= index
    ensures |w.packet| == MEMORY && index <= w.index <= MAX_PACKET_SIZE
  {
    var w := AppendRecords(p, index, rs);
    w.(packet := SetCount(w.packet, at, w.count))
  }

  /** A section leaves what is between the header and it, patches its own count and no other. */
  lemma SectionFrame(p: bytes, index: nat, rs: seq<Record>, at: nat)
    requires RecordsFit(p, index, rs) && at + 2 <= HEAD_LEN <= index
    ensures var w := AppendSection(p, index, rs, at);
      && w.packet[HEAD_LEN..index] == p[HEAD_LEN..index]
      && (forall i :: 0 <= i < HEAD_LEN && i != at && i != at + 1 ==> w.packet[i] == p[i])
      && U16At(w.packet, at) == |rs| % 256
  {
    assert |p| == MEMORY && index <= MAX_PACKET_SIZE;
    hide AppendRecords, SetCount, RecordsFit, U16At;
    var w := AppendRecords(p, index, rs);
    var q := SetCount(w.packet, at, w.count);
    SameSlice(w.packet, p, 0, index, HEAD_LEN, index);
    BehindHeader(q, w.packet, index);
    assert forall i :: 0 <= i < index ==> w.packet[i] == w.packet[..index][i] == p[..index][i] == p[i];
  }

  lemma BehindHeader(q: bytes, p: bytes, index: nat)
    requires |q| == |p| && HEAD_LEN <= index <= |p| && q[HEAD_LEN..] == p[HEAD_LEN..]
    ensures q[HEAD_LEN..index] == p[HEAD_LEN..index]
  {
    assert q[HEAD_LEN..|q|] == p[HEAD_LEN..|p|];
    SameSlice(q, p, HEAD_LEN, |p|, HEAD_LEN, index);
  }

  /** A section walks record by record to its end, and its count is exact. */
  lemma SectionWalks(p: bytes, index: nat, rs: seq<Record>, at: nat)
    requires RecordsFit(p, index, rs) && at + 2 <= HEAD_LEN <= index && RecordsSound(p, index, rs)
    ensures var w := AppendSection(p, index, rs, at);
      && WalkRecords(w.packet, w.index, index, |rs|) == Some(w.index)
      && U16At(w.packet, at) == |rs|
  {
    hide AppendRecords, SetCount, RecordsFit, RecordsSound, WalkRecords;
    RecordsWalk(p, index, rs);
    var w := AppendRecords(p, index, rs);
    var q := SetCount(w.packet, at, w.count);
    BehindHeader(q, w.packet, w.index);
    WalkRecordsStable(w.packet, w.index, q, w.index, index, |rs|);
  }

  /** No part of the message runs out of room, each at the place where the parts before it end. */
  predicate MessageFits(p: bytes, m: Message) {
    |p| == MEMORY && QuestionsFit(Header(p, m), HEAD_LEN, m.questions) &&
    var q := AppendQuestions(Header(p, m), HEAD_LEN, m.questions);
    var q' := SetCount(q.packet, 4, q.count);
    RecordsFit(q', q.index, m.answers) &&
    var a := AppendSection(q', q.index, m.answers, 6);
    RecordsFit(a.packet, a.index, m.servers) &&
    var s := AppendSection(a.packet, a.index, m.servers, 8);
    RecordsFit(s.packet, s.index, m.additional)
  }

  /** The packet as it goes to the network, and its length. */
  function Dispatch(p: bytes, m: Message): (w: Written)
    requires MessageFits(p, m)
    ensures |w.packet| == MEMORY && HEAD_LEN <= w.index <= MAX_PACKET_SIZE
  {
    var q := AppendQuestions(Header(p, m), HEAD_LEN, m.questions);
    var q' := SetCount(q.packet, 4, q.count);
    var a := AppendSection(q', q.index, m.answers, 6);
    var s := AppendSection(a.packet, a.index, m.servers, 8);
    AppendSection(s.packet, s.index, m.additional, 10)
  }

  /** At every name of the message, what the writer points to is a plain earlier name. */
  predicate MessageSound(p: bytes, m: Message)
    requires MessageFits(p, m)
  {
    var q := AppendQuestions(Header(p, m), HEAD_LEN, m.questions);
    var q' := SetCount(q.packet, 4, q.count);
    var a := AppendSection(q', q.index, m.answers, 6);
    var s := AppendSection(a.packet, a.index, m.servers, 8);
    && QuestionsSound(Header(p, m), HEAD_LEN, m.questions)
    && RecordsSound(q', q.index, m.answers)
    && RecordsSound(a.packet, a.index, m.servers)
    && RecordsSound(s.packet, s.index, m.additional)
  }

  /** The receiver's walk: as many questions, then as many records, as the header announces. */
  function WalkMessage(p: bytes, limit: nat): Option<nat>
    requires HEAD_LEN <= limit <= |p|
  {
    match WalkQuestions(p, limit, HEAD_LEN, U16At(p, 4))
    case None => None
    case Some(at) => WalkRecords(p, limit, at, U16At(p, 6) + U16At(p, 8) + U16At(p, 10))
  }

  lemma QuestionsCounted(p: bytes, m: Message)
    requires |p| == MEMORY && QuestionsFit(Header(p, m), HEAD_LEN, m.questions)
    requires QuestionsSound(Header(p, m), HEAD_LEN, m.questions)
    ensures var q := AppendQuestions(Header(p, m), HEAD_LEN, m.questions);
      var q' := SetCount(q.packet, 4, q.count);
      && WalkQuestions(q', q.index, HEAD_LEN, |m.questions|) == Some(q.index)
      && U16At(q', 4) == |m.questions|
  {
    hide AppendQuestions, SetCount, QuestionsFit, QuestionsSound, WalkQuestions;
    QuestionsWalk(Header(p, m), HEAD_LEN, m.questions);
    var q := AppendQuestions(Header(p, m), HEAD_LEN, m.questions);
    var q' := SetCount(q.packet, 4, q.count);
    BehindHeader(q', q.packet, q.index);
    WalkQuestionsStable(q.packet, q.index, q', q.index, HEAD_LEN, |m.questions|);
  }

  /**
   * A dispatched message is well formed: the header counts are the true numbers of questions and
   * records, and walking them by names and length fields ends exactly where the message ends.
   */
  lemma DispatchedIsWellFormed(p: bytes, m: Message)
    requires MessageFits(p, m) && MessageSound(p, m)
    ensures var w := Dispatch(p, m);
      && U16At(w.packet, 4) == |m.questions| && U16At(w.packet, 6) == |m.answers|
      && U16At(w.packet, 8) == |m.servers| && U16At(w.packet, 10) == |m.additional|
      && WalkMessage(w.packet, w.index) == Some(w.index)
  {
    hide AppendQuestions, AppendSection, SetCount, RecordsFit, QuestionsFit, RecordsSound, QuestionsSound;
    hide WalkRecords, WalkQuestions, Header;
    QuestionsCounted(p, m);
    var q := AppendQuestions(Header(p, m), HEAD_LEN, m.questions);
    var q' := SetCount(q.packet, 4, q.count);
    var a := AppendSection(q', q.index, m.answers, 6);
    var s := AppendSection(a.packet, a.index, m.servers, 8);
    var d := AppendSection(s.packet, s.index, m.additional, 10);
    SectionFrame(q', q.index, m.answers, 6);
    SectionFrame(a.packet, a.index, m.servers, 8);
    SectionFrame(s.packet, s.index, m.additional, 10);
    SectionWalks(q', q.index, m.answers, 6);
    SectionWalks(a.packet, a.index, m.servers, 8);
    SectionWalks(s.packet, s.index, m.additional, 10);
    SameSlice(a.packet, s.packet, HEAD_LEN, a.index, HEAD_LEN, q.index);
    SameSlice(s.packet, d.packet, HEAD_LEN, s.index, HEAD_LEN, a.index);
    SameSlice(d.packet, s.packet, HEAD_LEN, s.index, HEAD_LEN, q.index);
    WalkQuestionsStable(q', q.index, d.packet, d.index, HEAD_LEN, |m.questions|);
    WalkRecordsStable(a.packet, a.index, d.packet, d.index, q.index, |m.answers|);
    WalkRecordsStable(s.packet, s.index, d.packet, d.index, a.index, |m.servers|);
    WalkRecordsJoin(d.packet, d.index, q.index, |m.answers|, |m.servers| + |m.additional|);
    WalkRecordsJoin(d.packet, d.index, a.index, |m.servers|, |m.additional|);
  }

  /** Names and text of a service that a record can hold. */
  predicate ServiceOk(s: Service) {
    && IsLabel(s.instance) && IsLabel(s.service) && IsLabel(s.proto) && IsLabel(s.host)
    && AreLabels(s.subtypes) && EntriesOk(s.txt)
  }

  /** No name of a service record is long enough for its length to be cut to eight bits. */
  lemma AnswerRecordsOk(a: Answer)
    requires ServiceOk(a.service)
    ensures forall r :: r in RecordsOf(a) ==> RecordOk(r)
    ensures |RecordsOf(a)| == if a.kind.Ptr? then 1 + |a.service.subtypes| else 1
  {
    hide Room, EntriesOk, NoNul;
    var s := a.service;
    assert forall l :: l in {SERVICES, DNS_SD, UDP, LOCAL} ==> IsLabel(l) by {
      ConstantsAreLabels();
    }
    Room4(s.instance, s.service, s.proto, LOCAL);
    Room4(SERVICES, DNS_SD, UDP, LOCAL);
    Room3(s.service, s.proto, LOCAL);
    Room2(s.host, LOCAL);
    SubtypeRecordsOk(s, s.subtypes, a.bye);
  }

  lemma ConstantsAreLabels()
    ensures IsLabel(SERVICES) && IsLabel(DNS_SD) && IsLabel(UDP) && IsLabel(LOCAL)
  {
  }

  lemma {:induction false} SubtypeRecordsOk(s: Service, subtypes: seq<bytes>, bye: bool)
    requires ServiceOk(s) && AreLabels(subtypes)
    ensures forall r :: r in SubtypeRecords(s, subtypes, bye) ==> RecordOk(r)
    ensures |SubtypeRecords(s, subtypes, bye)| == |subtypes|
    decreases |subtypes|
  {
    if subtypes != [] {
      SubtypeRecordsOk(s, subtypes[1..], bye);
      Room4(s.instance, s.service, s.proto, LOCAL);
      Room4(SUB, s.service, s.proto, LOCAL);
      RoomCons(subtypes[0], [SUB, s.service, s.proto, LOCAL]);
      assert [subtypes[0]] + [SUB, s.service, s.proto, LOCAL] == [subtypes[0], SUB, s.service, s.proto, LOCAL];
    }
  }

  lemma RoomCons(s: bytes, ss: seq<bytes>)
    ensures Room([s] + ss) == |s| + 1 + Room(ss)
  {
    assert ([s] + ss)[1..] == ss;
  }

  lemma Room2(a: bytes, b: bytes)
    ensures Room([a, b]) == |a| + |b| + 2
  {
    RoomCons(b, []);
    RoomCons(a, [b]);
    assert [a] + [b] == [a, b] && [b] + [] == [b];
  }

  lemma Room3(a: bytes, b: bytes, c: bytes)
    ensures Room([a, b, c]) == |a| + |b| + |c| + 3
  {
    Room2(b, c);
    RoomCons(a, [b, c]);
    assert [a] + [b, c] == [a, b, c];
  }

  lemma Room4(a: bytes, b: bytes, c: bytes, d: bytes)
    ensures Room([a, b, c, d]) == |a| + |b| + |c| + |d| + 4
  {
    Room3(b, c, d);
    RoomCons(a, [b, c, d]);
    assert [a] + [b, c, d] == [a, b, c, d];
  }

  // ---------------------------------------------------------------- the writer, as the source runs it

  lemma PutPut(p: bytes, index: nat, a: bytes, b: bytes)
    requires index + |a| + |b| <= |p|
    ensures Put(Put(p, index, a), index + |a|, b) == Put(p, index, a + b)
  {
    var q := Put(p, index, a);
    assert q[..index + |a|] == p[..index] + a;
    assert q[index + |a| + |b|..] == p[index + |a| + |b|..];
  }

  lemma {:induction false} EntriesSnoc(ts: seq<TxtItem>, t: TxtItem)
    requires EntriesOk(ts) && EntryOk(t)
    ensures Entries(ts + [t]) == Entries(ts) + Entry(t)
  {
    if ts == [] {
      assert Entries([t]) == Entry(t) + Entries([]);
    } else {
      EntriesSnoc(ts[1..], t);
      assert (ts + [t])[1..] == ts[1..] + [t];
    }
  }

  /** Writes the text entries one after another, or a single empty string. */
  method WriteTxt(packet: array<byte>, index: nat, items: seq<TxtItem>) returns (length: nat)
    requires packet.Length == MEMORY && EntriesOk(items) && index + |TxtData(items)| <= MAX_PACKET_SIZE
    modifies packet
    ensures length == |TxtData(items)| && packet[..] == Put(old(packet[..]), index, TxtData(items))
  {
    hide Put, EntryText, Entry, Entries;
    ghost var p := packet[..];
    length := 0;
    assert items[..0] == [];
    NoEntries(items);
    NoEntries(items[..0]);
    PutNothing(p, index);
    for i := 0 to |items|
      invariant length == |Entries(items[..i])| && index + |Entries(items)| <= MAX_PACKET_SIZE
      invariant length <= |Entries(items)|
      invariant packet[..] == Put(p, index, Entries(items[..i]))
    {
      assert items[..i + 1] == items[..i] + [items[i]];
      EntriesSnoc(items[..i], items[i]);
      EntriesPrefix(items, i + 1);
      PutPut(p, index, Entries(items[..i]), Entry(items[i]));
      PutBytes(packet, index + length, Entry(items[i]));
      length := length + |Entry(items[i])|;
    }
    assert items[..|items|] == items;
    if length == 0 {
      PutBytes(packet, index, [0]);
      length := 1;
    }
  }

  lemma PutNothing(p: bytes, index: nat)
    requires index <= |p|
    ensures Put(p, index, []) == p
  {
  }

  lemma NoEntries(items: seq<TxtItem>)
    requires EntriesOk(items)
    ensures Entries(items) == [] <==> items == []
  {
  }

  lemma {:induction false} EntriesPrefix(ts: seq<TxtItem>, n: nat)
    requires EntriesOk(ts) && n <= |ts|
    ensures |Entries(ts[..n])| <= |Entries(ts)|
    decreases n
  {
    if n > 0 {
      EntriesPrefix(ts[1..], n - 1);
      assert ts[..n][1..] == ts[1..][..n - 1];
    }
  }

  method WriteHead(packet: array<byte>, index: nat, r: Record, name: NameRecord) returns (head: nat, partLength: nat)
    requires packet.Length == MEMORY && HeadFits(packet[..], index, r)
    modifies packet, name
    ensures Written(packet[..], head, partLength) == AppendHead(old(packet[..]), index, r)
  {
    hide Put, AppendFqdn, FixedFields;
    AppendFits(packet[..], index, r.owner);
    var at, written := WriteFqdn(packet, index, r.owner, name);
    PutBytes(packet, at, FixedFields(r));
    return at + FIXED_LEN, written % 256 + FIXED_LEN;
  }

  method WriteBody(packet: array<byte>, head: nat, r: Record, name: NameRecord, ghost h: Written)
    returns (end: nat, dataLength: nat)
    requires packet.Length == MEMORY && h.packet == packet[..] && h.index == head && BodyFits(h, r)
    modifies packet, name
    ensures Written(packet[..], end, dataLength) == AppendBody(h, r)
  {
    hide Put, AppendFqdn, RecordOk;
    match r.body {
      case NameBody(prefix, strings) =>
        PutBytes(packet, head, prefix);
        BodyNames(r);
        AppendFits(packet[..], head + |prefix|, strings);
        var e, written := WriteFqdn(packet, head + |prefix|, strings, name);
        return e, written % 256 + |prefix|;
      case TxtBody(items) =>
        BodyNames(r);
        dataLength := WriteTxt(packet, head, items);
        end := head + dataLength;
    }
  }

  lemma BodyNames(r: Record)
    requires RecordOk(r)
    ensures r.body.NameBody? ==> AreLabels(r.body.name)
    ensures r.body.TxtBody? ==> EntriesOk(r.body.items)
  {
  }

  /** Appends one record: owner name, fixed fields, data, then the data length into its place. */
  method WriteRecord(packet: array<byte>, index: nat, r: Record, name: NameRecord) returns (end: nat, count: nat)
    requires packet.Length == MEMORY && RecordFits(packet[..], index, r)
    modifies packet, name
    ensures Written(packet[..], end, count) == AppendRecord(old(packet[..]), index, r)
  {
    hide Put, AppendHead, AppendBody;
    var head, partLength := WriteHead(packet, index, r, name);
    var e, dataLength := WriteBody(packet, head, r, name, Written(packet[..], head, partLength));
    PutBytes(packet, head - 2, U16(dataLength % 0x1_0000));
    return e, partLength + dataLength;
  }

  /** One of the three record sections: the records, then their number into the header. */
  method WriteSection(packet: array<byte>, index: nat, rs: seq<Record>, at: nat, name: NameRecord) returns (end: nat)
    requires packet.Length == MEMORY && RecordsFit(packet[..], index, rs) && at + 2 <= HEAD_LEN <= index
    modifies packet, name
    ensures packet[..] == AppendSection(old(packet[..]), index, rs, at).packet
    ensures end == AppendSection(old(packet[..]), index, rs, at).index
  {
    hide RecordFits, AppendRecord, SetCount;
    ghost var p := packet[..];
    end := index;
    var count: nat := 0;
    var k := 0;
    while k < |rs|
      invariant k <= |rs| && count == k
      invariant RecordsFit(packet[..], end, rs[k..])
      invariant var (w, v) := (AppendRecords(p, index, rs), AppendRecords(packet[..], end, rs[k..]));
        w.packet == v.packet && w.index == v.index
    {
      assert rs[k..][0] == rs[k] && rs[k..][1..] == rs[k + 1..];
      var written;
      end, written := WriteRecord(packet, end, rs[k], name);
      count := count + 1;
      k := k + 1;
    }
    SetCountSplits(packet[..], at, count);
    packet[at] := 0;
    packet[at + 1] := count % 256;
  }

  lemma SetCountSplits(p: bytes, at: nat, count: nat)
    requires |p| == MEMORY && at + 2 <= HEAD_LEN
    ensures SetCount(p, at, count) == p[at := 0][at + 1 := count % 256]
  {
  }

  method WriteQuestion(packet: array<byte>, index: nat, q: Question, name: NameRecord) returns (end: nat)
    requires packet.Length == MEMORY && QuestionFits(packet[..], index, q)
    modifies packet, name
    ensures packet[..] == AppendQuestion(old(packet[..]), index, q).packet
    ensures end == AppendQuestion(old(packet[..]), index, q).index
  {
    hide Put, AppendFqdn, QuestionFields;
    AppendFits(packet[..], index, q.name);
    var at, partLength := WriteFqdn(packet, index, q.name, name);
    FourBytes(q);
    PutBytes(packet, at, QuestionFields(q));
    end := at + 4;
  }

  lemma FourBytes(q: Question)
    ensures |QuestionFields(q)| == 4
  {
  }

  /** Builds the packet: header, questions, then the three record sections, each with its count. */
  method DispatchTxPacket(packet: array<byte>, m: Message, name: NameRecord) returns (index: nat)
    requires packet.Length == MEMORY && MessageFits(packet[..], m)
    modifies packet, name
    ensures packet[..] == Dispatch(old(packet[..]), m).packet && index == Dispatch(old(packet[..]), m).index
  {
    hide QuestionFits, AppendQuestion, AppendSection, RecordsFit, Put;
    PutBytes(packet, 0, U16(m.id) + U16(m.flags) + [0, 0, 0, 0, 0, 0, 0, 0]);
    ghost var p0 := packet[..];
    index := HEAD_LEN;
    var count: nat := 0;
    var k := 0;
    while k < |m.questions|
      invariant k <= |m.questions| && count == k
      invariant QuestionsFit(packet[..], index, m.questions[k..])
      invariant var w := AppendQuestions(p0, HEAD_LEN, m.questions);
        var v := AppendQuestions(packet[..], index, m.questions[k..]);
        w.packet == v.packet && w.index == v.index
    {
      assert m.questions[k..][0] == m.questions[k] && m.questions[k..][1..] == m.questions[k + 1..];
      index := WriteQuestion(packet, index, m.questions[k], name);
      count := count + 1;
      k := k + 1;
    }
    packet[4] := 0;
    packet[5] := count % 256;
    index := WriteSection(packet, index, m.answers, 6, name);
    index := WriteSection(packet, index, m.servers, 8, name);
    index := WriteSection(packet, index, m.additional, 10, name);
  }
}
