/**
 * A reply dispatched behind another one from the same buffer, and read by a receiver: the bytes that the
 * first has left are taken for a name of the second, and the second is lost.
 */
module MdnsTwoReplies {
  import opened Bytes
  import opened MdnsName
  import opened MdnsMessage
  import opened MdnsLetters
  import opened MdnsQuiet
  import opened MdnsAnswers
  import opened MdnsReplies
  import opened MdnsStale

  function TextRecord(inst: bytes): Record {
    RecordsOf(Answer(Txt, Server(inst), true, false))[0]
  }

  lemma ReplyRecords(inst: bytes)
    ensures Reply(inst) ==
              Message(0, FLAGS_ANSWER, [], [TypeRecord(inst)], [], [LocationRecord(inst), TextRecord(inst)])
    ensures TextRecord(inst).body == TxtBody([])
  {
    var s := Server(inst);
    var (a, b, c) := (Answer(Ptr, s, false, false), Answer(Srv, s, true, false), Answer(Txt, s, true, false));
    assert [a][1..] == [] && [b, c][1..] == [c] && [c][1..] == [];
    assert AnswerRecords([]) == [];
    assert AnswerRecords([a]) == RecordsOf(a) == [TypeRecord(inst)];
    assert AnswerRecords([c]) == RecordsOf(c) == [TextRecord(inst)];
    assert AnswerRecords([b, c]) == [LocationRecord(inst)] + [TextRecord(inst)];
  }

  lemma ReplyRecordsOk(inst: bytes)
    requires IsInstance(inst)
    ensures RecordOk(TypeRecord(inst)) && RecordOk(LocationRecord(inst)) && RecordOk(TextRecord(inst))
  {
    var s := Server(inst);
    assert ServiceOk(s);
    AnswerRecordsOk(Answer(Ptr, s, false, false));
    AnswerRecordsOk(Answer(Srv, s, true, false));
    AnswerRecordsOk(Answer(Txt, s, true, false));
    hide RecordOk;
    assert TypeRecord(inst) == RecordsOf(Answer(Ptr, s, false, false))[0];
  }

  // ---------------------------------------------------------------- there is room

  lemma RoomForHead(p: bytes, index: nat, r: Record)
    requires |p| == MEMORY && RecordOk(r) && index <= 600
    ensures HeadFits(p, index, r) && AppendHead(p, index, r).index <= index + 265
  {
    hide Room, AppendFqdn, NameFits, FixedFields, Put;
    RoomIsEnough(p, index, r.owner);
    AppendFits(p, index, r.owner);
  }

  lemma RoomForBody(h: Written, r: Record)
    requires |h.packet| == MEMORY && h.index <= 900 && RecordOk(r) && (r.body.TxtBody? ==> r.body.items == [])
    ensures BodyFits(h, r) && AppendBody(h, r).index <= h.index + 265
  {
    hide Room, AppendFqdn, NameFits, Put;
    if r.body.NameBody? {
      RoomIsEnough(BeforeName(h, r).packet, h.index + |r.body.prefix|, r.body.name);
      AppendFits(BeforeName(h, r).packet, h.index + |r.body.prefix|, r.body.name);
    }
  }

  /** A record without text fits near the beginning of the packet. */
  lemma RoomForRecord(p: bytes, index: nat, r: Record)
    requires |p| == MEMORY && RecordOk(r) && index <= 600 && (r.body.TxtBody? ==> r.body.items == [])
    ensures RecordFits(p, index, r) && AppendRecord(p, index, r).index <= index + 530
  {
    RoomForHead(p, index, r);
    hide HeadFits, BodyFits, AppendHead, AppendBody, RecordOk, Put;
    RoomForBody(AppendHead(p, index, r), r);
  }

  // ---------------------------------------------------------------- the message, record by record

  /** The packet with its header, before the first record. */
  function Opened(p: bytes, inst: bytes): bytes
    requires |p| == MEMORY
  {
    SetCount(Header(p, Reply(inst)), 4, 0)
  }

  /** The packet with the answer. */
  function Answered(p: bytes, inst: bytes): (w: Written)
    requires |p| == MEMORY && RecordFits(Opened(p, inst), HEAD_LEN, TypeRecord(inst))
    ensures |w.packet| == MEMORY
  {
    var w := AppendRecord(Opened(p, inst), HEAD_LEN, TypeRecord(inst));
    Written(SetCount(SetCount(w.packet, 6, 1), 8, 0), w.index, 1)
  }

  lemma HeaderImage(p: bytes, m: Message)
    requires |p| == MEMORY && m.id == 0 && m.flags == FLAGS_ANSWER
    ensures var q := Header(p, m); Image(q, []) && q[HEAD_LEN..] == p[HEAD_LEN..]
  {
    HeaderBytes(p, m);
    hide Header;
  }

  lemma OpenedImage(p: bytes, inst: bytes)
    requires |p| == MEMORY
    ensures var q := Opened(p, inst); |q| == MEMORY && Image(q, []) && q[HEAD_LEN..] == p[HEAD_LEN..]
  {
    hide Header, SetCount, Image, Reply;
    ReplyRecords(inst);
    HeaderImage(p, Reply(inst));
    CountImage(Header(p, Reply(inst)), [], 4, 0);
  }

  lemma CountsTail(p: bytes, index: nat, at: nat, count: nat)
    requires |p| == MEMORY && at + 2 <= HEAD_LEN <= index <= MEMORY
    ensures SetCount(p, at, count)[index..] == p[index..]
  {
    var q := SetCount(p, at, count);
    hide SetCount;
    assert q[index..] == q[HEAD_LEN..][index - HEAD_LEN..] && p[index..] == p[HEAD_LEN..][index - HEAD_LEN..];
  }

  lemma Constants()
    ensures HEAD_LEN == 12 && MAX_PACKET_SIZE == 1460 && MEMORY == 1524
  {
  }

  lemma AnsweredIs(p: bytes, inst: bytes)
    requires |p| == MEMORY && RecordFits(Opened(p, inst), HEAD_LEN, TypeRecord(inst))
    ensures var t := AppendRecord(Opened(p, inst), HEAD_LEN, TypeRecord(inst)).packet;
      |t| == MEMORY && Answered(p, inst).packet == SetCount(SetCount(t, 6, 1), 8, 0)
    ensures Answered(p, inst).index == AppendRecord(Opened(p, inst), HEAD_LEN, TypeRecord(inst)).index
  {
  }

  lemma AnsweredImage(p: bytes, inst: bytes)
    requires |p| == MEMORY && IsInstance(inst)
    ensures IsLabel(inst) && RecordFits(Opened(p, inst), HEAD_LEN, TypeRecord(inst))
    ensures var w := Answered(p, inst);
      && w.index == 43 + |inst| <= 47 && Image(w.packet, TypeImage(inst, [0, |inst| + 3]))
      && w.packet[w.index..] == p[w.index..]
  {
    hide *;
    Constants();
    Sizes2(inst);
    OpenedImage(p, inst);
    ReplyRecordsOk(inst);
    TypeIs(inst);
    var q := Opened(p, inst);
    RoomForRecord(q, HEAD_LEN, TypeRecord(inst));
    TypeWritten(q, inst);
    RecordTail(q, HEAD_LEN, TypeRecord(inst));
    AnsweredIs(p, inst);
    var w := AppendRecord(q, HEAD_LEN, TypeRecord(inst));
    var b := TypeImage(inst, [0, |inst| + 3]);
    CountImage(w.packet, b, 6, 1);
    CountImage(SetCount(w.packet, 6, 1), b, 8, 0);
    TailChain(p, q, w.packet, HEAD_LEN, w.index);
    CountsTail(w.packet, w.index, 6, 1);
    CountsTail(SetCount(w.packet, 6, 1), w.index, 8, 0);
  }

  lemma Sizes2(inst: bytes)
    requires IsInstance(inst)
    ensures |inst| <= 4
  {
  }

  /** The packet with the location of the service behind the answer. */
  function Located(p: bytes, inst: bytes): (w: Written)
    requires |p| == MEMORY && RecordFits(Opened(p, inst), HEAD_LEN, TypeRecord(inst))
    requires var a := Answered(p, inst); RecordFits(a.packet, a.index, LocationRecord(inst))
    ensures |w.packet| == MEMORY
  {
    var a := Answered(p, inst);
    AppendRecord(a.packet, a.index, LocationRecord(inst))
  }

  lemma ReplyParts(p: bytes, inst: bytes)
    requires |p| == MEMORY && IsInstance(inst)
    ensures RecordFits(Opened(p, inst), HEAD_LEN, TypeRecord(inst))
    ensures var a := Answered(p, inst); RecordFits(a.packet, a.index, LocationRecord(inst))
    ensures var l := Located(p, inst); RecordFits(l.packet, l.index, TextRecord(inst))
  {
    hide *;
    Constants();
    AnsweredImage(p, inst);
    ReplyRecordsOk(inst);
    ReplyRecords(inst);
    LocationIs(inst);
    var a := Answered(p, inst);
    RoomForRecord(a.packet, a.index, LocationRecord(inst));
    LocatedIs(p, inst);
    var l := Located(p, inst);
    RoomForRecord(l.packet, l.index, TextRecord(inst));
  }

  lemma LocatedIs(p: bytes, inst: bytes)
    requires |p| == MEMORY && RecordFits(Opened(p, inst), HEAD_LEN, TypeRecord(inst))
    requires var a := Answered(p, inst); RecordFits(a.packet, a.index, LocationRecord(inst))
    ensures var a := Answered(p, inst);
      Located(p, inst) == AppendRecord(a.packet, a.index, LocationRecord(inst))
  {
  }

  lemma OneRecord(p: bytes, index: nat, r: Record)
    requires RecordFits(p, index, r) && |p| == MEMORY && index <= MAX_PACKET_SIZE
    ensures RecordsFit(p, index, [r])
    ensures AppendRecords(p, index, [r]) == AppendRecord(p, index, r).(count := 1)
  {
    hide RecordFits, AppendRecord;
    assert [r][1..] == [];
    var w := AppendRecord(p, index, r);
    assert RecordsFit(w.packet, w.index, []);
    assert AppendRecords(w.packet, w.index, []) == Written(w.packet, w.index, 0);
  }

  lemma TwoRecords(p: bytes, index: nat, r: Record, s: Record)
    requires RecordFits(p, index, r) && |p| == MEMORY && index <= MAX_PACKET_SIZE
    requires var w := AppendRecord(p, index, r); RecordFits(w.packet, w.index, s)
    ensures RecordsFit(p, index, [r, s])
    ensures var w := AppendRecord(p, index, r);
      AppendRecords(p, index, [r, s]) == AppendRecord(w.packet, w.index, s).(count := 2)
    ensures RecordsSound(p, index, [r, s]) ==> RecordSound(p, index, r)
  {
    hide RecordFits, AppendRecord, RecordSound;
    assert [r, s][1..] == [s];
    var w := AppendRecord(p, index, r);
    OneRecord(w.packet, w.index, s);
  }

  /** The packet with the text behind the location, and the last count. */
  function Closed(p: bytes, inst: bytes): (w: Written)
    requires |p| == MEMORY && RecordFits(Opened(p, inst), HEAD_LEN, TypeRecord(inst))
    requires var a := Answered(p, inst); RecordFits(a.packet, a.index, LocationRecord(inst))
    requires var l := Located(p, inst); RecordFits(l.packet, l.index, TextRecord(inst))
    ensures |w.packet| == MEMORY && w.index <= MAX_PACKET_SIZE
  {
    var l := Located(p, inst);
    var x := AppendRecord(l.packet, l.index, TextRecord(inst));
    Written(SetCount(x.packet, 10, 2), x.index, 2)
  }

  lemma NoQuestionsMore(p: bytes, index: nat)
    requires index <= MAX_PACKET_SIZE && |p| == MEMORY
    ensures QuestionsFit(p, index, []) && AppendQuestions(p, index, []) == Written(p, index, 0)
  {
  }

  lemma NoRecordsMore(p: bytes, index: nat)
    requires index <= MAX_PACKET_SIZE && |p| == MEMORY
    ensures RecordsFit(p, index, []) && AppendRecords(p, index, []) == Written(p, index, 0)
  {
  }

  /** A message of one answer and two additional records is dispatched record by record. */
  lemma ThreeRecords(p: bytes, m: Message, a: Record, b: Record, c: Record)
    requires |p| == MEMORY && m.questions == [] && m.answers == [a] && m.servers == [] && m.additional == [b, c]
    requires var q := SetCount(Header(p, m), 4, 0);
      && RecordFits(q, HEAD_LEN, a)
      && var t := AppendRecord(q, HEAD_LEN, a);
         var x := SetCount(SetCount(t.packet, 6, 1), 8, 0);
         && RecordFits(x, t.index, b)
         && var l := AppendRecord(x, t.index, b); RecordFits(l.packet, l.index, c)
    ensures MessageFits(p, m)
    ensures var t := AppendRecord(SetCount(Header(p, m), 4, 0), HEAD_LEN, a);
      var x := SetCount(SetCount(t.packet, 6, 1), 8, 0);
      var l := AppendRecord(x, t.index, b);
      var y := AppendRecord(l.packet, l.index, c);
      && Dispatch(p, m) == Written(SetCount(y.packet, 10, 2), y.index, 2)
      && (MessageSound(p, m) ==> RecordSound(x, t.index, b))
  {
    hide AppendRecord, RecordFits, RecordsFit, AppendRecords, Header, SetCount, RecordSound, RecordsSound;
    hide QuestionsSound, QuestionsFit, AppendQuestions;
    NoQuestionsMore(Header(p, m), HEAD_LEN);
    var q := SetCount(Header(p, m), 4, 0);
    OneRecord(q, HEAD_LEN, a);
    var t := AppendRecord(q, HEAD_LEN, a);
    NoRecordsMore(SetCount(t.packet, 6, 1), t.index);
    TwoRecords(SetCount(SetCount(t.packet, 6, 1), 8, 0), t.index, b, c);
  }

  /** A reply is dispatched record by record; it is sound only if its location is. */
  lemma ReplyDispatched(p: bytes, inst: bytes)
    requires |p| == MEMORY && IsInstance(inst)
    ensures MessageFits(p, Reply(inst))
    ensures RecordFits(Opened(p, inst), HEAD_LEN, TypeRecord(inst))
    ensures var a := Answered(p, inst); RecordFits(a.packet, a.index, LocationRecord(inst))
    ensures var l := Located(p, inst); RecordFits(l.packet, l.index, TextRecord(inst))
    ensures Dispatch(p, Reply(inst)) == Closed(p, inst)
    ensures var a := Answered(p, inst);
      MessageSound(p, Reply(inst)) ==> RecordSound(a.packet, a.index, LocationRecord(inst))
  {
    hide AppendRecord, RecordFits, TypeRecord, LocationRecord, TextRecord, Reply, Header, SetCount, RecordSound;
    hide MessageFits, MessageSound, Dispatch;
    ReplyParts(p, inst);
    ReplyRecords(inst);
    ThreeRecords(p, Reply(inst), TypeRecord(inst), LocationRecord(inst), TextRecord(inst));
  }

  // ---------------------------------------------------------------- what the first reply leaves

  const STALE: bytes := ESP32 + [0xC0, 23]

  lemma StaleSize()
    ensures |STALE| == 7
  {
  }

  lemma HostBody(h: Written, r: Record)
    requires BodyFits(h, r) && r.body == NameBody(PORT, [ESP32, LOCAL])
    ensures |h.packet| == MEMORY && h.index + 6 <= MAX_PACKET_SIZE && AreLabels([ESP32, LOCAL])
    ensures var b := BeforeName(h, r);
      && |b.packet| == MEMORY && b.index == h.index + 6
      && var v := AppendFqdn(b.packet, b.index, [ESP32, LOCAL]);
         AppendBody(h, r).packet == v.packet && AppendBody(h, r).index == v.index
         && (v.count < 200 ==> AppendBody(h, r).count == v.count + 6)
  {
    Labels();
    hide AppendFqdn, Put, NameFits, RecordOk;
    AppendFits(BeforeName(h, r).packet, h.index + 6, r.body.name);
  }

  /** The packet just before the host in the location is written. */
  lemma BeforeLocationHost(p: bytes, inst: bytes)
    requires |p| == MEMORY && IsInstance(inst)
    ensures IsLabel(inst) && RecordFits(Opened(p, inst), HEAD_LEN, TypeRecord(inst))
    ensures var a := Answered(p, inst);
      && a.index == 43 + |inst| && RecordFits(a.packet, a.index, LocationRecord(inst))
      && LocationRecord(inst).body == NameBody(PORT, [ESP32, LOCAL])
      && var h := AppendHead(a.packet, a.index, LocationRecord(inst));
         && h.index == 55 + |inst| && BodyFits(h, LocationRecord(inst)) && |h.packet| == MEMORY && h.index < 60
         && var b := BeforeName(h, LocationRecord(inst));
            b.index == 61 + |inst| && Image(b.packet, LocationImage(inst)) && b.packet[b.index..] == p[b.index..]
  {
    hide *;
    Constants();
    Sizes2(inst);
    ReplyParts(p, inst);
    AnsweredImage(p, inst);
    LocationIs(inst);
    var (a, r) := (Answered(p, inst), LocationRecord(inst));
    LocationFits(a.packet, a.index, r);
    BeforeHost(a.packet, inst);
    var h := AppendHead(a.packet, a.index, r);
    BeforeNameIs(h, r);
    RecordTail(a.packet, a.index, r);
    TailChain(p, a.packet, BeforeName(h, r).packet, a.index, BeforeName(h, r).index);
  }

  lemma LocationFits(p: bytes, index: nat, r: Record)
    requires RecordFits(p, index, r)
    ensures HeadFits(p, index, r) && BodyFits(AppendHead(p, index, r), r)
  {
  }

  lemma Behind(w: bytes, d: bytes, lo: nat, hi: nat, i: nat, b: bytes)
    requires |w| == |d| && lo <= i && i + |b| <= hi <= |w| && w[lo..hi] == d[lo..hi] && At(d, i, b)
    ensures At(w, i, b)
  {
    SameSlice(w, d, lo, hi, i, i + |b|);
  }

  /** The host of the first reply stands from position 65 on. */
  lemma FirstLocated(p: bytes)
    requires |p| == MEMORY && p[64] != ESP32[0]
    ensures RecordFits(Opened(p, WEB), HEAD_LEN, TypeRecord(WEB))
    ensures var a := Answered(p, WEB); RecordFits(a.packet, a.index, LocationRecord(WEB))
    ensures var l := Located(p, WEB); l.index == 72 && At(l.packet, 65, STALE)
  {
    ReplyParts(p, WEB);
    BeforeLocationHost(p, WEB);
    StaleSize();
    assert |WEB| == 3;
    hide Answered, Opened, Image, AppendHead, TypeRecord, LocationRecord, LocationImage, HeadFits, BodyFits, AppendBody;
    hide BeforeName, At, AppendRecord, STALE, ESP32, AppendFqdn;
    var a := Answered(p, WEB);
    var r := LocationRecord(WEB);
    var h := AppendHead(a.packet, a.index, r);
    HostBody(h, r);
    var b := BeforeName(h, r);
    assert b.packet[64] == b.packet[64..][0] == p[64..][0];
    HostWritten(b.packet);
    RecordParts(a.packet, a.index, r);
    Behind(Located(p, WEB).packet, AppendBody(h, r).packet, 58, 72, 65, STALE);
  }

  lemma CountKeeps(p: bytes, at: nat, count: nat, i: nat, b: bytes)
    requires |p| == MEMORY && at + 2 <= HEAD_LEN <= i && At(p, i, b)
    ensures At(SetCount(p, at, count), i, b)
  {
    var q := SetCount(p, at, count);
    hide SetCount;
    assert q[HEAD_LEN..|q|] == q[HEAD_LEN..] && p[HEAD_LEN..|p|] == p[HEAD_LEN..];
    SameSlice(p, q, HEAD_LEN, |p|, i, i + |b|);
  }

  /** What stands in front of the text is still there in the packet that is sent. */
  lemma ClosedKeeps(p: bytes, inst: bytes, i: nat, b: bytes)
    requires |p| == MEMORY && IsInstance(inst)
    requires RecordFits(Opened(p, inst), HEAD_LEN, TypeRecord(inst))
    requires var a := Answered(p, inst); RecordFits(a.packet, a.index, LocationRecord(inst))
    requires var l := Located(p, inst);
      RecordFits(l.packet, l.index, TextRecord(inst)) && HEAD_LEN <= i && i + |b| <= l.index && At(l.packet, i, b)
    ensures var (l, w) := (Located(p, inst), Closed(p, inst)); At(w.packet, i, b) && l.index < w.index
  {
    hide Located, Answered, Opened, AppendRecord, TypeRecord, LocationRecord, TextRecord, At, SetCount, RecordFits;
    var l := Located(p, inst);
    var x := AppendRecord(l.packet, l.index, TextRecord(inst));
    AtPrefix(l.packet, x.packet, i, b, l.index);
    CountKeeps(x.packet, 10, 2, i, b);
  }

  lemma AtPrefix(p: bytes, q: bytes, i: nat, b: bytes, k: nat)
    requires At(p, i, b) && i + |b| <= k <= |p| && k <= |q| && q[..k] == p[..k]
    ensures At(q, i, b)
  {
    AtKept(p, q, i, b, k);
  }

  // ---------------------------------------------------------------- what the second reply becomes

  /** The second message up to the text: the host is a pointer to the byte in front of the pointer. */
  function LostImage(): bytes
    requires IsLabel(WEBS)
  {
    TypeImage(WEBS, [0, 7]) + [0xC0, 40] + SRV_HEAD + [0, 8] + PORT + [0xC0, 64]
  }

  const SRV_HEAD: bytes := [0, 33, 0x80, 1, 0, 0, 0, 120]

  lemma LostSizes()
    requires IsLabel(WEBS)
    ensures |TypeImage(WEBS, [0, 7])| == 35 && |SRV_HEAD| == 8 && |PORT| == 6 && |WEBS| == 4 && |LostImage()| == 55
    ensures LocationImage(WEBS) + [0xC0, 64] ==
              (TypeImage(WEBS, [0, 7]) + [0xC0, 40] + SRV_HEAD) + [0, 0] + (PORT + [0xC0, 64])
    ensures LostImage() == (TypeImage(WEBS, [0, 7]) + [0xC0, 40] + SRV_HEAD) + [0, 8] + (PORT + [0xC0, 64])
  {
    Sizes(WEBS, [0, 7]);
    assert SRV_FIELDS == SRV_HEAD + [0, 0];
    hide TypeImage, PORT, SRV_HEAD;
  }

  /** The second reply takes the stale host for its own. */
  lemma SecondLocated(p: bytes)
    requires |p| == MEMORY && At(p, 65, STALE)
    ensures IsLabel(WEBS) && RecordFits(Opened(p, WEBS), HEAD_LEN, TypeRecord(WEBS))
    ensures var a := Answered(p, WEBS);
      RecordFits(a.packet, a.index, LocationRecord(WEBS)) && !RecordSound(a.packet, a.index, LocationRecord(WEBS))
    ensures var l := Located(p, WEBS); l.index == 67 && Image(l.packet, LostImage())
  {
    ReplyParts(p, WEBS);
    BeforeLocationHost(p, WEBS);
    StaleSize();
    assert |WEBS| == 4;
    hide Answered, Opened, Image, AppendHead, TypeRecord, LocationRecord, LocationImage, HeadFits, BodyFits, AppendBody;
    hide BeforeName, At, AppendRecord, STALE, ESP32, AppendFqdn, Put;
    var a := Answered(p, WEBS);
    var r := LocationRecord(WEBS);
    var h := AppendHead(a.packet, a.index, r);
    HostBody(h, r);
    var b := BeforeName(h, r);
    StaleStays(p, b.packet);
    HostFound(b.packet);
    HostPointed(a.packet, a.index, r, b.packet);
    LostPatched(b.packet);
  }

  /** The record when the host has been replaced by a pointer to 64, which is not in front of its data. */
  lemma HostPointed(p: bytes, index: nat, r: Record, q: bytes)
    requires RecordFits(p, index, r) && r.body == NameBody(PORT, [ESP32, LOCAL]) && AreLabels([ESP32, LOCAL])
    requires var h := AppendHead(p, index, r); h.index == 59 && BeforeName(h, r).packet == q
    requires Search(q, 65, 0, [ESP32, LOCAL]) == Some(64)
    requires AppendFqdn(q, 65, [ESP32, LOCAL]) == Written(Put(q, 65, [0xC0, 64]), 67, 2)
    ensures !RecordSound(p, index, r)
    ensures var w := AppendRecord(p, index, r);
      w.index == 67 && w.packet == Put(Put(q, 65, [0xC0, 64]), 57, U16(8))
  {
    hide AppendHead, BeforeName, AppendFqdn, Put, Search, RecordSound, HeadFits, BodyFits, U16, RecordOk;
    hide AppendBody, ESP32, PORT, IsLabel;
    HostBody(AppendHead(p, index, r), r);
    HostNotBelow(p, index, r);
  }

  /** At the host of the second reply the writer finds what `MdnsStale.MisreadIsNotRead` is about. */
  lemma HostMisread(p: bytes)
    requires IsLabel(WEBS) && Image(p, LocationImage(WEBS)) && At(p, 65, STALE)
    ensures NameFits(p, 65, [ESP32, LOCAL]) && FindsMisread(p, 65, 65, [ESP32, LOCAL])
  {
    ImageAt(p, LocationImage(WEBS));
    HostFound(p);
    hide Search, Matches, Put, Image, At;
    assert p[65..65] == [];
    assert UseOf(p, 65, 64, 64) == Content;
  }

  lemma StaleStays(p: bytes, q: bytes)
    requires |p| == |q| == MEMORY && q[65..] == p[65..] && At(p, 65, STALE)
    ensures At(q, 65, STALE)
  {
    StaleSize();
    hide STALE;
    assert q[65..72] == q[65..][..7] && p[65..72] == p[65..][..7];
  }

  lemma LostPatched(p: bytes)
    requires IsLabel(WEBS) && Image(p, LocationImage(WEBS))
    ensures |p| == MEMORY && Image(Put(Put(p, 65, [0xC0, 64]), 57, U16(8)), LostImage())
  {
    LostSizes();
    FrontAndPort(WEBS);
    assert U16(8) == [0, 8] && |p| == MEMORY;
    hide Image, Put, LocationImage, LocationFront, TypeImage, SRV_HEAD, PORT, LostImage, U16;
    PutImage(p, LocationImage(WEBS), [0xC0, 64]);
    PatchImage(Put(p, 65, [0xC0, 64]), TypeImage(WEBS, [0, 7]) + [0xC0, 40] + SRV_HEAD, [0, 0], PORT + [0xC0, 64],
               [0, 8]);
  }

  /** The host is found behind the length of the data: the record is not sound. */
  lemma HostNotBelow(p: bytes, index: nat, r: Record)
    requires RecordFits(p, index, r) && r.body == NameBody(PORT, [ESP32, LOCAL]) && AreLabels([ESP32, LOCAL])
    requires var h := AppendHead(p, index, r);
      h.index == 59 && Search(BeforeName(h, r).packet, 65, 0, [ESP32, LOCAL]) == Some(64)
    ensures !RecordSound(p, index, r)
  {
    hide AppendHead, Search, Put, NameFits, HeadFits, RecordOk, FindsPlain;
    assert |PORT| == 6;
  }

  // ---------------------------------------------------------------- the second reply cannot be read

  /** Labels in place decode to themselves. */
  lemma {:induction false} DecodeLaid(p: bytes, limit: nat, start: nat, at: nat, ws: seq<bytes>, end: nat)
    requires end < limit <= |p| && Laid(p, at, ws, end) && p[end] == 0 && AreLabels(ws)
    ensures Decode(p, limit, start, at) == Some(Decoded(ws, end + 1))
    decreases |ws|
  {
    if ws == [] {
      assert at == end;
    } else {
      LaidFirst(p, at, ws, end);
      DecodeLaid(p, limit, start, at + 1 + |ws[0]|, ws[1..], end);
      assert [ws[0]] + ws[1..] == ws;
    }
  }

  lemma TypeAndRest(a: bytes, b: bytes)
    ensures |OWNER| == 18 && |PTR_FIELDS| == 8
    ensures OWNER + PTR_FIELDS + [0, 7] + a + b == OWNER + (PTR_FIELDS + ([0, 7] + (a + b)))
  {
    Sizes(WEBS, [0, 7]) by { Labels(); }
    hide OWNER, PTR_FIELDS;
  }

  lemma Grouped(t: bytes, c: bytes, d: bytes, e: bytes, f: bytes, g: bytes)
    ensures t + c + d + e + f + g == t + (c + d + e + f + g)
  {
  }

  /** The lost message from its second record on. */
  lemma LostTail()
    requires IsLabel(WEBS)
    ensures LostImage() == TypeImage(WEBS, [0, 7]) + ([0xC0, 40] + SRV_HEAD + [0, 8] + PORT + [0xC0, 64])
  {
    hide TypeImage, SRV_HEAD, PORT;
    Grouped(TypeImage(WEBS, [0, 7]), [0xC0, 40], SRV_HEAD, [0, 8], PORT, [0xC0, 64]);
  }

  /** The lost message from its beginning. */
  lemma LostPieces()
    requires IsLabel(WEBS)
    ensures exists rest :: LostImage() == OWNER + rest && |rest| >= 10 && |OWNER| == 18 && rest[8] == 0 && rest[9] == 7
  {
    var (a, b) := (LabelBytes(WEBS) + [0xC0, 12], [0xC0, 40] + SRV_HEAD + [0, 8] + PORT + [0xC0, 64]);
    hide *;
    TypeImageIs(WEBS, [0, 7]);
    LostTail();
    TypeAndRest(a, b);
    var rest := PTR_FIELDS + ([0, 7] + (a + b));
    assert rest[8] == 0 && rest[9] == 7;
  }

  lemma LostBytes(p: bytes)
    requires IsLabel(WEBS) && |p| == MEMORY && At(p, HEAD_LEN, LostImage())
    ensures Laid(p, 12, NAMES, 29) && p[29] == 0 && U16At(p, 38) == 7
    ensures p[47] == 0xC0 && p[48] == 40 && U16At(p, 49) == TYPE_SRV && U16At(p, 57) == 8
    ensures p[64] == 5 && p[65] == 0xC0 && p[66] == 64
  {
    LostSizes();
    hide OWNER, PTR_FIELDS, LabelBytes, Laid, TypeImage, LostImage, PORT, SRV_HEAD, At, NAMES;
    LostPieces();
    LostTail();
    var rest :| LostImage() == OWNER + rest && |rest| >= 10 && |OWNER| == 18 && rest[8] == 0 && rest[9] == 7;
    OwnerLaid(p, rest);
    AtByte(p, 12, OWNER + rest, 26);
    AtByte(p, 12, OWNER + rest, 27);
    TailBytes(p, TypeImage(WEBS, [0, 7]), [0xC0, 40] + SRV_HEAD + [0, 8] + PORT + [0xC0, 64]);
  }

  lemma TailBytes(p: bytes, a: bytes, tail: bytes)
    requires |a| == 35 && At(p, 12, a + tail) && tail == [0xC0, 40] + SRV_HEAD + [0, 8] + PORT + [0xC0, 64]
    ensures |p| >= 67 && p[47] == 0xC0 && p[48] == 40 && U16At(p, 49) == TYPE_SRV && U16At(p, 57) == 8
    ensures p[64] == 5 && p[65] == 0xC0 && p[66] == 64
  {
    TailLiteral(tail);
    assert (a + tail)[35..35 + |tail|] == tail;
    AtPart(p, 12, a + tail, 35, 35 + |tail|);
    hide At;
    forall k | 0 <= k < |tail| ensures k + 47 < |p| && p[47 + k] == tail[k] {
      AtInside(p, 47, tail);
      AtByte(p, 47, tail, k);
    }
    assert p[47 + 0] == tail[0] && p[47 + 1] == tail[1] && p[47 + 2] == tail[2] && p[47 + 3] == tail[3];
    assert p[47 + 10] == tail[10] && p[47 + 11] == tail[11];
    assert p[47 + 17] == tail[17] && p[47 + 18] == tail[18] && p[47 + 19] == tail[19];
  }

  lemma AtInside(p: bytes, i: nat, b: bytes)
    requires At(p, i, b)
    ensures i + |b| <= |p|
  {
  }

  lemma TailLiteral(tail: bytes)
    requires tail == [0xC0, 40] + SRV_HEAD + [0, 8] + PORT + [0xC0, 64]
    ensures tail == [0xC0, 40, 0, 33, 0x80, 1, 0, 0, 0, 120, 0, 8, 0, 0, 0, 0, 0x0D, 5, 0xC0, 64]
  {
  }

  /** The first record ends at 47, if at all. */
  lemma FirstRecordEnds(p: bytes, limit: nat)
    requires |p| == MEMORY && 67 <= limit <= |p| && Laid(p, 12, NAMES, 29) && p[29] == 0 && U16At(p, 38) == 7
    ensures WalkRecord(p, limit, 12) in {None, Some(47)}
  {
    OwnerPieces();
    hide Laid, Decode, BodyOk, NAMES, U16At;
    DecodeLaid(p, limit, 12, 12, NAMES, 29);
  }

  /** Of the location, the host is a pointer to a label that goes on behind the end of the record. */
  lemma SecondRecordFails(p: bytes, limit: nat)
    requires |p| == MEMORY && 67 <= limit <= |p|
    requires p[47] == 0xC0 && p[48] == 40 && U16At(p, 49) == TYPE_SRV && U16At(p, 57) == 8
    requires p[64] == 5 && p[65] == 0xC0 && p[66] == 64
    ensures WalkRecord(p, limit, 47) == None
  {
    assert Decode(p, limit, 47, 47).Some? ==> Decode(p, limit, 47, 47).value.next == 49;
    assert Decode(p, 67, 64, 64) == None;
    assert Decode(p, 67, 65, 65) == None;
    hide Decode, U16At;
  }

  lemma LostIsNotWalked(p: bytes, limit: nat, n: nat)
    requires IsLabel(WEBS) && At(p, HEAD_LEN, LostImage()) && 67 <= limit <= |p| == MEMORY && n >= 2
    ensures WalkRecords(p, limit, HEAD_LEN, n) == None
  {
    hide WalkRecord, At, LostImage, U16At, Laid;
    LostBytes(p);
    FirstRecordEnds(p, limit);
    SecondRecordFails(p, limit);
    if WalkRecord(p, limit, 12) == Some(47) {
      assert WalkRecords(p, limit, 47, n - 1) == None;
    }
  }

  lemma SameCount(p: bytes, q: bytes, k: nat, at: nat)
    requires at + 2 <= HEAD_LEN <= k <= |p| && k <= |q| && q[..k] == p[..k]
    ensures U16At(q, at) == U16At(p, at)
  {
    SameSlice(p, q, 0, k, at, at + 1);
    SameSlice(p, q, 0, k, at + 1, at + 2);
  }

  lemma OtherCount(p: bytes, at: nat, count: nat, other: nat)
    requires |p| == MEMORY && at + 2 <= HEAD_LEN && other + 2 <= HEAD_LEN && (other + 2 <= at || at + 2 <= other)
    ensures U16At(SetCount(p, at, count), other) == U16At(p, other)
  {
  }

  lemma CountsAnswered(p: bytes, inst: bytes)
    requires |p| == MEMORY && RecordFits(Opened(p, inst), HEAD_LEN, TypeRecord(inst))
    ensures var q := Answered(p, inst).packet; U16At(q, 4) == 0 && U16At(q, 6) == 1
  {
    hide *;
    Constants();
    var o := Opened(p, inst);
    OpenedCount(p, inst);
    var t := AppendRecord(o, HEAD_LEN, TypeRecord(inst)).packet;
    SameCount(o, t, HEAD_LEN, 4);
    OtherCount(t, 6, 1, 4);
    OtherCount(SetCount(t, 6, 1), 8, 0, 4);
    OtherCount(SetCount(t, 6, 1), 8, 0, 6);
    AnsweredIs(p, inst);
  }

  lemma OpenedCount(p: bytes, inst: bytes)
    requires |p| == MEMORY
    ensures |Opened(p, inst)| == MEMORY && U16At(Opened(p, inst), 4) == 0
  {
  }

  /** The counts in the header of a reply: no question, one answer, two additional records. */
  lemma CountsClosed(p: bytes, inst: bytes)
    requires |p| == MEMORY && RecordFits(Opened(p, inst), HEAD_LEN, TypeRecord(inst)) && IsInstance(inst)
    requires var a := Answered(p, inst); RecordFits(a.packet, a.index, LocationRecord(inst))
    requires var l := Located(p, inst); RecordFits(l.packet, l.index, TextRecord(inst))
    ensures var q := Closed(p, inst).packet; U16At(q, 4) == 0 && U16At(q, 6) == 1 && U16At(q, 10) == 2
  {
    var a := Answered(p, inst);
    assert a.index >= HEAD_LEN by { AnsweredImage(p, inst); }
    var (l, x) := (Located(p, inst), AppendRecord(Located(p, inst).packet, Located(p, inst).index, TextRecord(inst)));
    assert l.packet[..a.index] == a.packet[..a.index] && a.index <= l.index;
    assert x.packet[..l.index] == l.packet[..l.index];
    assert Closed(p, inst).packet == SetCount(x.packet, 10, 2);
    hide *;
    CountsAnswered(p, inst);
    SameCount(a.packet, l.packet, a.index, 4);
    SameCount(a.packet, l.packet, a.index, 6);
    SameCount(l.packet, x.packet, l.index, 4);
    SameCount(l.packet, x.packet, l.index, 6);
    OtherCount(x.packet, 10, 2, 4);
    OtherCount(x.packet, 10, 2, 6);
  }

  /** The bytes that the first reply leaves in the buffer. */
  lemma FirstLeaves(p: bytes)
    requires |p| == MEMORY && p[64] != ESP32[0]
    ensures MessageFits(p, Reply(WEB)) && At(Dispatch(p, Reply(WEB)).packet, 65, STALE)
  {
    ReplyDispatched(p, WEB);
    FirstLocated(p);
    StaleSize();
    hide Located, Answered, Opened, RecordFits, TypeRecord, LocationRecord, TextRecord, At, Reply, STALE, Closed;
    ClosedKeeps(p, WEB, 65, STALE);
  }

  /** The second reply, with those bytes in the buffer. */
  lemma SecondLost(p: bytes)
    requires |p| == MEMORY && At(p, 65, STALE)
    ensures MessageFits(p, Reply(WEBS)) && !MessageSound(p, Reply(WEBS))
    ensures var w := Dispatch(p, Reply(WEBS)); WalkMessage(w.packet, w.index) == None
  {
    assert IsInstance(WEBS);
    hide *;
    ReplyDispatched(p, WEBS);
    SecondLocated(p);
    SecondClosed(p);
  }

  lemma SecondClosed(p: bytes)
    requires |p| == MEMORY && IsInstance(WEBS) && IsLabel(WEBS)
    requires RecordFits(Opened(p, WEBS), HEAD_LEN, TypeRecord(WEBS))
    requires var a := Answered(p, WEBS); RecordFits(a.packet, a.index, LocationRecord(WEBS))
    requires var l := Located(p, WEBS);
      RecordFits(l.packet, l.index, TextRecord(WEBS)) && l.index == 67 && Image(l.packet, LostImage())
    ensures var w := Closed(p, WEBS); 67 <= w.index <= |w.packet| && WalkMessage(w.packet, w.index) == None
  {
    hide *;
    Constants();
    var w := Closed(p, WEBS);
    LostSizes();
    ImageAt(Located(p, WEBS).packet, LostImage());
    ClosedKeeps(p, WEBS, HEAD_LEN, LostImage());
    CountsClosed(p, WEBS);
    LostIsNotWalked(w.packet, w.index, U16At(w.packet, 6) + U16At(w.packet, 8) + U16At(w.packet, 10));
    NoQuestions(w.packet, w.index);
  }

  lemma NoQuestions(p: bytes, limit: nat)
    requires HEAD_LEN <= limit <= |p| && U16At(p, 4) == 0
    ensures WalkMessage(p, limit) == WalkRecords(p, limit, HEAD_LEN, U16At(p, 6) + U16At(p, 8) + U16At(p, 10))
  {
  }

  /**
   * Compression loses a message.  Two web servers answer one after the other from a buffer that was clean:
   * the bytes that the first reply leaves make the writer of the second take the low byte of the port for the
   * length of the host, and no receiver can read what is sent.
   */
  lemma SecondReplyIsLost(p: bytes)
    requires |p| == MEMORY && Clean(p, HEAD_LEN)
    ensures MessageFits(p, Reply(WEB)) && MessageFits(p, Reply(WEBS))
    ensures var q := Dispatch(p, Reply(WEB)).packet;
      && MessageFits(q, Reply(WEBS)) && !MessageSound(q, Reply(WEBS))
      && var w := Dispatch(q, Reply(WEBS)); WalkMessage(w.packet, w.index) == None
  {
    assert p[64] == 0;
    ReplyDispatched(p, WEBS);
    hide Reply, Dispatch, WalkMessage, MessageSound, MessageFits;
    FirstLeaves(p);
    SecondLost(Dispatch(p, Reply(WEB)).packet);
  }
}
