/**
 * What a receiver finds in a dispatched message: question by question and record by record, what was put in.
 */
module MdnsArrive {
  import opened Bytes
  import opened MdnsName
  import opened MdnsMessage
  import opened MdnsQuiet
  import MdnsReceive

  /** The data from `body` to `end` is that of the record, its name up to case. */
  ghost predicate CarriesBody(p: bytes, body: nat, end: nat, r: Record)
    requires body <= end <= |p|
  {
    match r.body
    case NameBody(prefix, name) =>
      var at := body + |prefix|;
      at <= end && p[body..at] == prefix && Decodes(p, end, at, at, end, name)
    case TxtBody(items) => EntriesOk(items) && p[body..end] == TxtData(items)
  }

  /** Type, class, time to live and data of the record stand from `at` on. */
  ghost predicate CarriesFields(p: bytes, limit: nat, at: nat, r: Record)
    requires limit <= |p|
  {
    && at + FIXED_LEN <= limit
    && U16At(p, at) == r.kind && U16At(p, at + 2) == (if r.flush then 0x8001 else 1)
    && U16At(p, at + 4) == 0 && U16At(p, at + 6) == r.ttl
    && var end := at + FIXED_LEN + U16At(p, at + 8);
       end <= limit && CarriesBody(p, at + FIXED_LEN, end, r)
  }

  /** At `at` a receiver reads the record: its owner up to case, and its fields and data. */
  ghost predicate Carries(p: bytes, limit: nat, at: nat, r: Record)
    requires limit <= |p|
  {
    var d := Decode(p, limit, at, at);
    d.Some? && Decodes(p, limit, at, at, d.value.next, r.owner) && CarriesFields(p, limit, d.value.next, r)
  }

  /** At `at` a receiver reads the question: its name up to case, its type and class. */
  ghost predicate Asks(p: bytes, limit: nat, at: nat, q: Question)
    requires limit <= |p|
  {
    var d := Decode(p, limit, at, at);
    && d.Some? && Decodes(p, limit, at, at, d.value.next, q.name)
    && d.value.next + 4 <= limit && U16At(p, d.value.next) == q.kind
    && U16At(p, d.value.next + 2) == if q.unicast then 0x8001 else 1
  }

  // ---------------------------------------------------------------- a record just appended

  lemma FieldsRead(p: bytes, at: nat, r: Record)
    requires at + 8 <= |p| && p[at..at + 8] == FixedFields(r)[..8]
    ensures U16At(p, at) == r.kind && U16At(p, at + 2) == ClassOf(r.flush)
    ensures U16At(p, at + 4) == 0 && U16At(p, at + 6) == r.ttl
  {
    var f := FixedFields(r);
    assert forall i :: 0 <= i < 8 ==> p[at + i] == p[at..at + 8][i] == f[..8][i] == f[i];
    assert f[..8] == U16(r.kind) + U16(ClassOf(r.flush)) + [0, 0] + U16(r.ttl);
    assert p[at] == f[0] && p[at + 1] == f[1] && p[at + 2] == f[2] && p[at + 3] == f[3];
    assert p[at + 4] == f[4] && p[at + 5] == f[5] && p[at + 6] == f[6] && p[at + 7] == f[7];
  }

  /** The fixed fields of a record just appended, without the length of its data. */
  lemma FieldsPlaced(p: bytes, index: nat, r: Record)
    requires RecordFits(p, index, r)
    ensures var (w1, h, w) := (AppendFqdn(p, index, r.owner), AppendHead(p, index, r), AppendRecord(p, index, r));
      && h.index == w1.index + FIXED_LEN && h.index <= w.index
      && w.packet[w1.index..w1.index + 8] == FixedFields(r)[..8]
  {
    hide AppendFqdn, AppendHead, AppendBody, AppendRecord, FixedFields, BodyFits, HeadFits;
    RecordParts(p, index, r);
    HeadParts(p, index, r);
    var (w1, h, w) := (AppendFqdn(p, index, r.owner), AppendHead(p, index, r), AppendRecord(p, index, r));
    var d := AppendBody(h, r);
    SameSlice(w.packet, d.packet, 0, h.index - 2, w1.index, w1.index + 8);
    SameSlice(d.packet, h.packet, 0, h.index, w1.index, w1.index + 8);
    SliceOfSlice(h.packet, w1.index, h.index, 0, 8);
    assert FixedFields(r)[0..8] == FixedFields(r)[..8];
  }

  lemma PrefixPlaced(p: bytes, index: nat, r: Record)
    requires HEAD_LEN <= index && RecordFits(p, index, r) && r.body.NameBody?
    ensures var (h, w) := (AppendHead(p, index, r), AppendRecord(p, index, r));
      var at := h.index + |r.body.prefix|;
      at <= |w.packet| && w.packet[h.index..at] == r.body.prefix
  {
    hide AppendHead, AppendRecord, AppendBody, HeadFits, BodyFits, RecordOk;
    LeadParts(p, index, r);
    var (h, w) := (AppendHead(p, index, r), AppendRecord(p, index, r));
    var (c, prefix) := (AppendBody(h, r).count, r.body.prefix);
    SliceOfSlice(w.packet, h.index - 2, h.index + |prefix|, 2, 2 + |prefix|);
    assert (U16(c) + prefix)[2..2 + |prefix|] == prefix;
  }

  lemma BodyCarried(p: bytes, index: nat, r: Record)
    requires HEAD_LEN <= index && RecordFits(p, index, r) && RecordSound(p, index, r)
    ensures var (h, w) := (AppendHead(p, index, r), AppendRecord(p, index, r));
      h.index <= w.index && CarriesBody(w.packet, h.index, w.index, r)
  {
    hide AppendHead, AppendRecord, AppendBody, RecordSound, HeadFits, BodyFits, Decode, SameTexts;
    if r.body.NameBody? {
      NameBodyFills(p, index, r);
      PrefixPlaced(p, index, r);
    } else {
      TxtBodyFills(p, index, r);
    }
  }

  /** A record just appended is read as it was put in. */
  lemma RecordCarried(p: bytes, index: nat, r: Record)
    requires HEAD_LEN <= index && RecordFits(p, index, r) && RecordSound(p, index, r)
    ensures var w := AppendRecord(p, index, r); Carries(w.packet, w.index, index, r)
  {
    hide AppendFqdn, AppendHead, AppendBody, AppendRecord, RecordSound, SameTexts, FixedFields, CarriesBody, Decode;
    hide HeadFits, BodyFits, RecordOk;
    HeadParts(p, index, r);
    OwnerDecodes(p, index, r);
    FieldsPlaced(p, index, r);
    BodyCarried(p, index, r);
    LengthCarried(p, index, r);
    var (w1, w) := (AppendFqdn(p, index, r.owner), AppendRecord(p, index, r));
    FieldsRead(w.packet, w1.index, r);
  }

  lemma LengthCarried(p: bytes, index: nat, r: Record)
    requires RecordFits(p, index, r)
    ensures var (w1, h, w) := (AppendFqdn(p, index, r.owner), AppendHead(p, index, r), AppendRecord(p, index, r));
      && h.index == w1.index + FIXED_LEN <= w.index && U16At(w.packet, w1.index + 8) == w.index - h.index
  {
    hide AppendFqdn, AppendHead, AppendBody, AppendRecord, HeadFits, BodyFits, RecordOk;
    RecordParts(p, index, r);
    BodyLength(p, index, r);
    HeadParts(p, index, r);
    var (w1, h, w) := (AppendFqdn(p, index, r.owner), AppendHead(p, index, r), AppendRecord(p, index, r));
    U16Read(w.packet, w1.index + 8, w.index - h.index);
  }

  // ---------------------------------------------------------------- it stays as it is

  lemma DecodesStable(p: bytes, limit: nat, p': bytes, limit': nat, start: nat, at: nat, end: nat, ss: seq<bytes>)
    requires HEAD_LEN <= at && HEAD_LEN <= limit <= |p| && limit <= limit' <= |p'|
    requires p[HEAD_LEN..limit] == p'[HEAD_LEN..limit] && Decodes(p, limit, start, at, end, ss)
    ensures Decodes(p', limit', start, at, end, ss) && Decode(p', limit', start, at) == Decode(p, limit, start, at)
  {
    hide Decode, SameTexts;
    DecodePrefix(p, limit, p', limit', start, at);
  }

  lemma U16Same(p: bytes, p': bytes, limit: nat, at: nat)
    requires HEAD_LEN <= at && at + 2 <= limit <= |p| && limit <= |p'| && p[HEAD_LEN..limit] == p'[HEAD_LEN..limit]
    ensures U16At(p, at) == U16At(p', at)
  {
    SameSlice(p, p', HEAD_LEN, limit, at, at + 1);
    SameSlice(p, p', HEAD_LEN, limit, at + 1, at + 2);
  }

  lemma BodyStays(p: bytes, p': bytes, body: nat, end: nat, r: Record)
    requires HEAD_LEN <= body <= end <= |p| && end <= |p'| && p[HEAD_LEN..end] == p'[HEAD_LEN..end]
    requires CarriesBody(p, body, end, r)
    ensures CarriesBody(p', body, end, r)
  {
    hide Decodes;
    match r.body {
      case NameBody(prefix, name) =>
        var at := body + |prefix|;
        SameSlice(p, p', HEAD_LEN, end, body, at);
        DecodesStable(p, end, p', end, at, at, end, name);
      case TxtBody(items) =>
        SameSlice(p, p', HEAD_LEN, end, body, end);
    }
  }

  lemma FieldsStay(p: bytes, limit: nat, p': bytes, limit': nat, at: nat, r: Record)
    requires HEAD_LEN <= at && HEAD_LEN <= limit <= |p| && limit <= limit' <= |p'|
    requires p[HEAD_LEN..limit] == p'[HEAD_LEN..limit] && CarriesFields(p, limit, at, r)
    ensures CarriesFields(p', limit', at, r)
  {
    hide CarriesBody, U16At;
    U16Same(p, p', limit, at);
    U16Same(p, p', limit, at + 2);
    U16Same(p, p', limit, at + 4);
    U16Same(p, p', limit, at + 6);
    U16Same(p, p', limit, at + 8);
    var end := at + FIXED_LEN + U16At(p, at + 8);
    SameSlice(p, p', HEAD_LEN, limit, HEAD_LEN, end);
    BodyStays(p, p', at + FIXED_LEN, end, r);
  }

  lemma CarriesStays(p: bytes, limit: nat, p': bytes, limit': nat, at: nat, r: Record)
    requires HEAD_LEN <= at && HEAD_LEN <= limit <= |p| && limit <= limit' <= |p'|
    requires p[HEAD_LEN..limit] == p'[HEAD_LEN..limit] && Carries(p, limit, at, r)
    ensures Carries(p', limit', at, r)
  {
    hide CarriesFields, Decode, SameTexts;
    var f := Decode(p, limit, at, at).value.next;
    DecodesStable(p, limit, p', limit', at, at, f, r.owner);
    FieldsStay(p, limit, p', limit', f, r);
  }

  lemma AsksStays(p: bytes, limit: nat, p': bytes, limit': nat, at: nat, q: Question)
    requires HEAD_LEN <= at && HEAD_LEN <= limit <= |p| && limit <= limit' <= |p'|
    requires p[HEAD_LEN..limit] == p'[HEAD_LEN..limit] && Asks(p, limit, at, q)
    ensures Asks(p', limit', at, q)
  {
    hide Decode, SameTexts;
    var f := Decode(p, limit, at, at).value.next;
    DecodesStable(p, limit, p', limit', at, at, f, q.name);
    U16Same(p, p', limit, f);
    U16Same(p, p', limit, f + 2);
  }

  // ---------------------------------------------------------------- one after another

  /** From `at` on a receiver reads the records, one after another. */
  ghost predicate AllCarried(p: bytes, limit: nat, at: nat, rs: seq<Record>)
    requires limit <= |p|
    decreases |rs|
  {
    rs == [] ||
    (Carries(p, limit, at, rs[0]) && WalkRecord(p, limit, at).Some? &&
     AllCarried(p, limit, WalkRecord(p, limit, at).value, rs[1..]))
  }

  ghost predicate AllAsked(p: bytes, limit: nat, at: nat, qs: seq<Question>)
    requires limit <= |p|
    decreases |qs|
  {
    qs == [] ||
    (Asks(p, limit, at, qs[0]) && AllAsked(p, limit, Decode(p, limit, at, at).value.next + 4, qs[1..]))
  }

  lemma {:induction false} AllStay(p: bytes, limit: nat, p': bytes, limit': nat, at: nat, rs: seq<Record>)
    requires HEAD_LEN <= at && HEAD_LEN <= limit <= |p| && limit <= limit' <= |p'|
    requires p[HEAD_LEN..limit] == p'[HEAD_LEN..limit] && AllCarried(p, limit, at, rs)
    ensures AllCarried(p', limit', at, rs)
    decreases |rs|
  {
    hide Carries, WalkRecord;
    if rs != [] {
      CarriesStays(p, limit, p', limit', at, rs[0]);
      WalkRecordStable(p, limit, p', limit', at);
      AllStay(p, limit, p', limit', WalkRecord(p, limit, at).value, rs[1..]);
    }
  }

  lemma {:induction false} AllAskedStay(p: bytes, limit: nat, p': bytes, limit': nat, at: nat, qs: seq<Question>)
    requires HEAD_LEN <= at && HEAD_LEN <= limit <= |p| && limit <= limit' <= |p'|
    requires p[HEAD_LEN..limit] == p'[HEAD_LEN..limit] && AllAsked(p, limit, at, qs)
    ensures AllAsked(p', limit', at, qs)
    decreases |qs|
  {
    hide Decode;
    if qs != [] {
      AsksStays(p, limit, p', limit', at, qs[0]);
      DecodePrefix(p, limit, p', limit', at, at);
      AllAskedStay(p, limit, p', limit', Decode(p, limit, at, at).value.next + 4, qs[1..]);
    }
  }

  lemma {:induction false} AllJoin(p: bytes, limit: nat, at: nat, rs: seq<Record>, ss: seq<Record>)
    requires limit <= |p| && AllCarried(p, limit, at, rs) && WalkRecords(p, limit, at, |rs|).Some?
    requires AllCarried(p, limit, WalkRecords(p, limit, at, |rs|).value, ss)
    ensures AllCarried(p, limit, at, rs + ss)
    decreases |rs|
  {
    hide Carries, WalkRecord;
    if rs == [] {
      assert rs + ss == ss;
    } else {
      assert (rs + ss)[0] == rs[0] && (rs + ss)[1..] == rs[1..] + ss;
      AllJoin(p, limit, WalkRecord(p, limit, at).value, rs[1..], ss);
    }
  }

  /** The k-th record of the walk is the k-th record put in. */
  lemma {:induction false} CarriedAt(p: bytes, limit: nat, at: nat, rs: seq<Record>, k: nat)
    requires limit <= |p| && AllCarried(p, limit, at, rs) && k < |rs|
    ensures WalkRecords(p, limit, at, k).Some? && Carries(p, limit, WalkRecords(p, limit, at, k).value, rs[k])
    decreases k
  {
    hide Carries, WalkRecord;
    if k > 0 {
      CarriedAt(p, limit, WalkRecord(p, limit, at).value, rs[1..], k - 1);
    }
  }

  lemma {:induction false} AskedAt(p: bytes, limit: nat, at: nat, qs: seq<Question>, k: nat)
    requires limit <= |p| && AllAsked(p, limit, at, qs) && k < |qs|
    ensures WalkQuestions(p, limit, at, k).Some? && Asks(p, limit, WalkQuestions(p, limit, at, k).value, qs[k])
    decreases k
  {
    hide Decode, Decodes;
    if k > 0 {
      AskedAt(p, limit, Decode(p, limit, at, at).value.next + 4, qs[1..], k - 1);
    }
  }

  lemma {:induction false} RecordsCarried(p: bytes, index: nat, rs: seq<Record>)
    requires HEAD_LEN <= index && RecordsFit(p, index, rs) && RecordsSound(p, index, rs)
    ensures var w := AppendRecords(p, index, rs); AllCarried(w.packet, w.index, index, rs)
    decreases |rs|
  {
    hide AppendRecord, RecordFits, RecordSound, WalkRecord, Carries;
    if rs != [] {
      RecordCarried(p, index, rs[0]);
      RecordWalks(p, index, rs[0]);
      var w := AppendRecord(p, index, rs[0]);
      var v := AppendRecords(w.packet, w.index, rs[1..]);
      RecordsCarried(w.packet, w.index, rs[1..]);
      SameSlice(w.packet, v.packet, 0, w.index, HEAD_LEN, w.index);
      CarriesStays(w.packet, w.index, v.packet, v.index, index, rs[0]);
      WalkRecordStable(w.packet, w.index, v.packet, v.index, index);
    }
  }

  lemma SectionCarried(p: bytes, index: nat, rs: seq<Record>, at: nat)
    requires RecordsFit(p, index, rs) && at + 2 <= HEAD_LEN <= index && RecordsSound(p, index, rs)
    ensures var w := AppendSection(p, index, rs, at); AllCarried(w.packet, w.index, index, rs)
  {
    hide AppendRecords, SetCount, RecordsFit, RecordsSound, AllCarried;
    RecordsCarried(p, index, rs);
    var w := AppendRecords(p, index, rs);
    var q := SetCount(w.packet, at, w.count);
    BehindHeader(q, w.packet, w.index);
    AllStay(w.packet, w.index, q, w.index, index, rs);
  }

  lemma QuestionAsked(p: bytes, index: nat, q: Question)
    requires HEAD_LEN <= index && QuestionFits(p, index, q) && QuestionSound(p, index, q)
    ensures var w := AppendQuestion(p, index, q);
      Asks(w.packet, w.index, index, q) && Decode(w.packet, w.index, index, index).value.next + 4 == w.index
  {
    hide AppendFqdn, FindsPlain, FindsBelow, SameTexts, Decode, NameFits, QuestionFields, U16At;
    QuestionDecodes(p, index, q);
    AppendFits(p, index, q.name);
    FourBytes(q);
    var w := AppendQuestion(p, index, q);
    QuestionRead(w.packet, w.index - 4, q);
  }

  lemma QuestionRead(p: bytes, at: nat, q: Question)
    requires at + 4 <= |p| && p[at..at + 4] == QuestionFields(q)
    ensures U16At(p, at) == q.kind && U16At(p, at + 2) == if q.unicast then 0x8001 else 1
  {
    var f := QuestionFields(q);
    assert p[at] == f[0] && p[at + 1] == f[1] && p[at + 2] == f[2] && p[at + 3] == f[3];
  }

  lemma {:induction false} QuestionsAsked(p: bytes, index: nat, qs: seq<Question>)
    requires HEAD_LEN <= index && QuestionsFit(p, index, qs) && QuestionsSound(p, index, qs)
    ensures var w := AppendQuestions(p, index, qs); AllAsked(w.packet, w.index, index, qs)
    decreases |qs|
  {
    hide AppendQuestion, QuestionFits, QuestionSound, Decode, Asks;
    if qs != [] {
      QuestionAsked(p, index, qs[0]);
      var w := AppendQuestion(p, index, qs[0]);
      var v := AppendQuestions(w.packet, w.index, qs[1..]);
      QuestionsAsked(w.packet, w.index, qs[1..]);
      SameSlice(w.packet, v.packet, 0, w.index, HEAD_LEN, w.index);
      AsksStays(w.packet, w.index, v.packet, v.index, index, qs[0]);
      QuestionDecodes(p, index, qs[0]);
      DecodePrefix(w.packet, w.index, v.packet, v.index, index, index);
    }
  }

  // ---------------------------------------------------------------- the whole message

  function AllRecords(m: Message): seq<Record> {
    m.answers + m.servers + m.additional
  }

  lemma QuestionsArrive(p: bytes, m: Message)
    requires MessageFits(p, m) && MessageSound(p, m)
    ensures var q := AppendQuestions(Header(p, m), HEAD_LEN, m.questions);
      var q' := SetCount(q.packet, 4, q.count);
      q.index >= HEAD_LEN && AllAsked(q', q.index, HEAD_LEN, m.questions)
  {
    hide AppendQuestions, AppendSection, RecordsFit, QuestionsFit, RecordsSound, QuestionsSound, SetCount, Header;
    hide AllAsked;
    QuestionsAsked(Header(p, m), HEAD_LEN, m.questions);
    var q := AppendQuestions(Header(p, m), HEAD_LEN, m.questions);
    var q' := SetCount(q.packet, 4, q.count);
    BehindHeader(q', q.packet, q.index);
    AllAskedStay(q.packet, q.index, q', q.index, HEAD_LEN, m.questions);
  }

  /** Everything put into a message is there to be read, in order. */
  lemma MessageCarried(p: bytes, m: Message)
    requires MessageFits(p, m) && MessageSound(p, m)
    ensures var w := Dispatch(p, m);
      var first := WalkQuestions(w.packet, w.index, HEAD_LEN, |m.questions|);
      && AllAsked(w.packet, w.index, HEAD_LEN, m.questions)
      && first.Some? && AllCarried(w.packet, w.index, first.value, AllRecords(m))
  {
    hide AppendQuestions, AppendSection, SetCount, RecordsFit, QuestionsFit, RecordsSound, QuestionsSound;
    hide WalkRecords, WalkQuestions, Header, AllCarried, AllAsked;
    QuestionsCounted(p, m);
    QuestionsArrive(p, m);
    var q := AppendQuestions(Header(p, m), HEAD_LEN, m.questions);
    var q' := SetCount(q.packet, 4, q.count);
    var a := AppendSection(q', q.index, m.answers, 6);
    var s := AppendSection(a.packet, a.index, m.servers, 8);
    var d := AppendSection(s.packet, s.index, m.additional, 10);
    SectionsInPlace(q', q.index, m, a, s, d);
    WalkQuestionsStable(q', q.index, d.packet, d.index, HEAD_LEN, |m.questions|);
    AllAskedStay(q', q.index, d.packet, d.index, HEAD_LEN, m.questions);
  }

  lemma SectionsInPlace(p: bytes, index: nat, m: Message, a: Written, s: Written, d: Written)
    requires HEAD_LEN <= index && RecordsFit(p, index, m.answers) && RecordsSound(p, index, m.answers)
    requires a == AppendSection(p, index, m.answers, 6)
    requires RecordsFit(a.packet, a.index, m.servers) && RecordsSound(a.packet, a.index, m.servers)
    requires s == AppendSection(a.packet, a.index, m.servers, 8)
    requires RecordsFit(s.packet, s.index, m.additional) && RecordsSound(s.packet, s.index, m.additional)
    requires d == AppendSection(s.packet, s.index, m.additional, 10)
    ensures index <= d.index <= |d.packet| && index <= |p| && d.packet[HEAD_LEN..index] == p[HEAD_LEN..index]
    ensures AllCarried(d.packet, d.index, index, AllRecords(m))
  {
    assert |p| == MEMORY && index <= MAX_PACKET_SIZE;
    hide AppendSection, RecordsFit, RecordsSound, WalkRecords, AllCarried;
    SectionFrame(p, index, m.answers, 6);
    SectionFrame(a.packet, a.index, m.servers, 8);
    SectionFrame(s.packet, s.index, m.additional, 10);
    SectionWalks(p, index, m.answers, 6);
    SectionWalks(a.packet, a.index, m.servers, 8);
    SectionCarried(p, index, m.answers, 6);
    SectionCarried(a.packet, a.index, m.servers, 8);
    SectionCarried(s.packet, s.index, m.additional, 10);
    SameSlice(d.packet, s.packet, HEAD_LEN, s.index, HEAD_LEN, a.index);
    SameSlice(s.packet, a.packet, HEAD_LEN, a.index, HEAD_LEN, index);
    SameSlice(d.packet, s.packet, HEAD_LEN, s.index, HEAD_LEN, index);
    AllStay(a.packet, a.index, d.packet, d.index, index, m.answers);
    AllStay(s.packet, s.index, d.packet, d.index, a.index, m.servers);
    WalkRecordsStable(a.packet, a.index, d.packet, d.index, index, |m.answers|);
    WalkRecordsStable(s.packet, s.index, d.packet, d.index, a.index, |m.servers|);
    AllJoin(d.packet, d.index, a.index, m.servers, m.additional);
    AllJoin(d.packet, d.index, index, m.answers, m.servers + m.additional);
    Regroup(m.answers, m.servers, m.additional);
  }

  /** Identifier and flags stand at the front. */
  lemma HeadArrives(p: bytes, m: Message)
    requires MessageFits(p, m)
    ensures var w := Dispatch(p, m); U16At(w.packet, 0) == m.id && U16At(w.packet, 2) == m.flags
  {
    HeaderIs(p, m);
    hide AppendQuestions, AppendSection, SetCount, RecordsFit, QuestionsFit, Header;
    var h := Header(p, m);
    var q := AppendQuestions(h, HEAD_LEN, m.questions);
    var q' := SetCount(q.packet, 4, q.count);
    var a := AppendSection(q', q.index, m.answers, 6);
    var s := AppendSection(a.packet, a.index, m.servers, 8);
    SectionFrame(q', q.index, m.answers, 6);
    SectionFrame(a.packet, a.index, m.servers, 8);
    SectionFrame(s.packet, s.index, m.additional, 10);
    assert forall i :: 0 <= i < HEAD_LEN ==> q.packet[i] == q.packet[..HEAD_LEN][i] == h[..HEAD_LEN][i] == h[i];
  }

  lemma HeaderIs(p: bytes, m: Message)
    requires |p| == MEMORY
    ensures U16At(Header(p, m), 0) == m.id && U16At(Header(p, m), 2) == m.flags
  {
    var h := U16(m.id) + U16(m.flags) + [0, 0, 0, 0, 0, 0, 0, 0];
    assert forall i :: 0 <= i < 4 ==> Header(p, m)[i] == Header(p, m)[0..12][i] == h[i];
  }

  /**
   * Identifier and flags are those of the message.  The k-th question that a receiver visits has the name, type
   * and class of the k-th question of the message, and the k-th record has the owner, type, class, time to live
   * and data of its k-th record, all names up to case.  All records are visited, or none if there are questions,
   * no answers and no question concerns the receiver.
   */
  ghost predicate Arrives(p: bytes, limit: nat, m: Message, concerns: nat -> bool)
    requires HEAD_LEN <= limit < |p|
  {
    var v := MdnsReceive.Walk(p, limit, concerns);
    && U16At(p, 0) == m.id && U16At(p, 2) == m.flags
    && v.Some?
    && |v.value.questions| == |m.questions|
    && (forall k: nat :: k < |m.questions| ==> Asks(p, limit, v.value.questions[k], m.questions[k]))
    && |v.value.records| == (if m.questions != [] && m.answers == []
                                && MdnsReceive.NoneConcerns(v.value.questions, concerns) then 0 else |AllRecords(m)|)
    && forall k: nat :: k < |v.value.records| ==> Carries(p, limit, v.value.records[k], AllRecords(m)[k])
  }

  /** What is dispatched arrives. */
  lemma DispatchedArrives(p: bytes, m: Message, concerns: nat -> bool)
    requires MessageFits(p, m) && MessageSound(p, m)
    ensures var w := Dispatch(p, m); Arrives(w.packet, w.index, m, concerns)
  {
    hide Dispatch, MessageSound, MessageFits, MdnsReceive.Walk, WalkMessage, WalkQuestions, WalkRecords;
    hide MdnsReceive.NoneConcerns, Asks, Carries, AllAsked, AllCarried;
    DispatchedIsWellFormed(p, m);
    HeadArrives(p, m);
    MdnsReceive.FewQuestions(p, m);
    var (w, all) := (Dispatch(p, m), AllRecords(m));
    MdnsReceive.WellFormedIsVisited(w.packet, w.index, concerns);
    MessageCarried(p, m);
    var v := MdnsReceive.Walk(w.packet, w.index, concerns).value;
    var first := WalkQuestions(w.packet, w.index, HEAD_LEN, |m.questions|).value;
    forall k: nat | k < |m.questions| ensures Asks(w.packet, w.index, v.questions[k], m.questions[k]) {
      AskedAt(w.packet, w.index, HEAD_LEN, m.questions, k);
    }
    forall k: nat | k < |v.records| ensures Carries(w.packet, w.index, v.records[k], all[k]) {
      CarriedAt(w.packet, w.index, first, all, k);
    }
  }

  // ---------------------------------------------------------------- the names as the parser files them

  lemma DecodedIsParsed(p: bytes, limit: nat, limit': nat, at: nat, end: nat, name: seq<bytes>)
    requires limit <= limit' < |p| && Decodes(p, limit, at, at, end, name) && IsName(name)
    ensures ParsesTo(p, limit', at, end, name)
  {
    hide Read, Decode, SameText, IsName, Arrange, FileAll;
    var d := Decode(p, limit, at, at).value;
    ReadIsDecode(p, limit, limit', at, at, Blank());
    assert 2 <= |name| && name != [] by { ShortName(name); }
    FiledName(name, d.labels);
  }

  lemma ShortName(name: seq<bytes>)
    requires IsName(name)
    ensures 2 <= |name| <= 4
  {
  }

  /** Wherever a record is carried, the parser files its owner, and the name in its data, part by part. */
  lemma CarriedIsParsed(p: bytes, limit: nat, at: nat, r: Record)
    requires limit < |p| && Carries(p, limit, at, r)
    ensures var fields := Decode(p, limit, at, at).value.next;
      var body := fields + FIXED_LEN;
      && (IsName(r.owner) ==> ParsesTo(p, limit, at, fields, r.owner))
      && (r.body.NameBody? && IsName(r.body.name) ==>
          ParsesTo(p, limit, body + |r.body.prefix|, body + U16At(p, fields + 8), r.body.name))
  {
    hide Decode, IsName, ParsesTo, Decodes, U16At;
    var fields := Decode(p, limit, at, at).value.next;
    if IsName(r.owner) {
      DecodedIsParsed(p, limit, limit, at, fields, r.owner);
    }
    if r.body.NameBody? && IsName(r.body.name) {
      var (body, end) := (fields + FIXED_LEN, fields + FIXED_LEN + U16At(p, fields + 8));
      var start := body + |r.body.prefix|;
      DecodedIsParsed(p, end, limit, start, end, r.body.name);
    }
  }
}
