/**
 * Messages built from the answers of services with plain names: they are sound, so that every pointer
 * in them is read back.
 */
module MdnsAnswers {
  import opened Bytes
  import opened MdnsName
  import opened MdnsMessage
  import opened MdnsLetters
  import opened MdnsQuiet

  const FLAGS_QUERY: u16 := 0
  const FLAGS_ANSWER: u16 := 0x8400

  // ---------------------------------------------------------------- the header

  /** No byte of the header can be taken for a label in play. */
  predicate QuietHead(ls: Lengths, p: bytes) {
    && |p| == MEMORY && (p[0] in ls ==> !Letter(p[1])) && p[2] in {0, 0x84}
    && p[3] == p[4] == p[6] == p[8] == p[10] == 0 && (p[11] == 0 || !Letter(p[HEAD_LEN]))
  }

  /** An identifier that cannot be taken for a label, such as any below 512. */
  predicate QuietId(ls: Lengths, id: u16) {
    id / 256 in ls ==> !Letter(id % 256)
  }

  /** Up to `index` only plain names can be found. */
  predicate Quiet(ls: Lengths, p: bytes, index: nat) {
    QuietHead(ls, p) && Tidy(ls, p, index) && (index > HEAD_LEN ==> !Letter(p[HEAD_LEN]))
  }

  lemma HeadKept(ls: Lengths, p: bytes, q: bytes, index: nat)
    requires QuietHead(ls, p) && |q| == MEMORY && HEAD_LEN <= index < MEMORY
    requires q[..index] == p[..index] && !Letter(q[index]) && (index > HEAD_LEN ==> !Letter(p[HEAD_LEN]))
    ensures QuietHead(ls, q) && !Letter(q[HEAD_LEN])
  {
    assert forall i :: 0 <= i < index ==> q[i] == q[..index][i] == p[..index][i] == p[i];
  }

  /** Counting a section in the header leaves a packet quiet, and as clean as it was. */
  lemma CountQuiet(ls: Lengths, p: bytes, index: nat, at: nat, count: nat)
    requires Quiet(ls, p, index) && at in {4, 6, 8, 10} && (count == 0 || index > HEAD_LEN)
    ensures var q := SetCount(p, at, count); Quiet(ls, q, index) && (Clean(p, index) ==> Clean(q, index))
  {
    var q := SetCount(p, at, count);
    assert forall i :: HEAD_LEN <= i < MEMORY ==>
      q[i] == q[HEAD_LEN..][i - HEAD_LEN] == p[HEAD_LEN..][i - HEAD_LEN] == p[i];
    hide SetCount, Decode;
    BehindHeader(q, p, index);
    forall loc | 0 <= loc < index && Candidate(ls, q, loc) ensures GoodAt(q, index, loc) {
      if loc >= HEAD_LEN {
        assert Candidate(ls, p, loc);
        GoodAtKept(p, index, q, index, loc);
      } else {
        NotInHead(ls, q, loc);
      }
    }
  }

  lemma NotInHead(ls: Lengths, p: bytes, loc: nat)
    requires QuietHead(ls, p) && loc < HEAD_LEN
    ensures !Candidate(ls, p, loc)
  {
  }

  lemma HeaderQuiet(ls: Lengths, p: bytes, m: Message)
    requires |p| == MEMORY && QuietId(ls, m.id) && m.flags in {FLAGS_QUERY, FLAGS_ANSWER}
    ensures Quiet(ls, Header(p, m), HEAD_LEN)
    ensures Clean(p, HEAD_LEN) ==> Clean(Header(p, m), HEAD_LEN)
  {
    var q := Header(p, m);
    HeaderBytes(p, m);
    hide Header;
    if Clean(p, HEAD_LEN) {
      CleanTail(p, HEAD_LEN, q, HEAD_LEN);
    }
    forall loc | 0 <= loc < HEAD_LEN ensures !Candidate(ls, q, loc) {
      NotInHead(ls, q, loc);
    }
  }

  lemma HeaderBytes(p: bytes, m: Message)
    requires |p| == MEMORY
    ensures var q := Header(p, m);
      && q[HEAD_LEN..] == p[HEAD_LEN..]
      && q[0] as int == m.id / 256 && q[1] as int == m.id % 256 && q[2] as int == m.flags / 256
      && q[3] as int == m.flags % 256 && forall i :: 4 <= i < HEAD_LEN ==> q[i] == 0
  {
    var q := Header(p, m);
    var h := U16(m.id) + U16(m.flags) + [0, 0, 0, 0, 0, 0, 0, 0];
    assert q[..HEAD_LEN] == h;
    assert forall i :: 0 <= i < HEAD_LEN ==> q[i] == q[..HEAD_LEN][i] == h[i];
  }

  // ---------------------------------------------------------------- questions and records

  /** A question for a nice name; its type fits into one byte. */
  predicate QuietQuestion(ls: Lengths, q: Question) {
    QuestionOk(q) && NiceName(ls, q.name) && q.kind < 256
  }

  lemma QuestionBytes(ls: Lengths, q: Question)
    requires q.kind < 256
    ensures Tight(ls, QuestionFields(q)) && QuestionFields(q)[0] == 0
  {
    var b := QuestionFields(q);
    assert b == [0, q.kind, if q.unicast then 0x80 else 0, 1];
    forall i | 0 <= i < |b| && b[i] in ls ensures exists k :: i < k < |b| && k <= i + b[i] && !Letter(b[k]) {
      assert i == 1 && !Letter(b[2]);
    }
  }

  /** Where the parts of a question just appended stand, and that nothing is written behind it. */
  lemma QuestionParts(p: bytes, index: nat, q: Question)
    requires HEAD_LEN <= index && QuestionFits(p, index, q)
    ensures var (w1, w) := (AppendFqdn(p, index, q.name), AppendQuestion(p, index, q));
      && w.index == w1.index + 4 && index < w1.index
      && Agree(w.packet, w1.packet, index, index, w1.index)
      && w.packet[w1.index..w.index] == QuestionFields(q)
      && w.packet[w.index..] == p[w.index..]
  {
    FitsFacts(p, index, q.name);
    hide NameFits, AppendFqdn;
    AppendFits(p, index, q.name);
    NameTail(p, index, q.name);
    var (w1, w) := (AppendFqdn(p, index, q.name), AppendQuestion(p, index, q));
    assert w.packet == Put(w1.packet, w1.index, QuestionFields(q));
    TailChain(p, w1.packet, w.packet, w1.index, w.index);
    SameSlice(w.packet, w1.packet, 0, w1.index, HEAD_LEN, index);
    SameSlice(w.packet, w1.packet, 0, w1.index, index, w1.index);
  }

  /** A quiet question finds only plain names, and leaves the packet quiet, and as clean as it was. */
  lemma QuestionQuiet(ls: Lengths, p: bytes, index: nat, q: Question)
    requires Quiet(ls, p, index) && QuestionFits(p, index, q) && QuietQuestion(ls, q)
    ensures QuestionSound(p, index, q)
    ensures var w := AppendQuestion(p, index, q);
      Quiet(ls, w.packet, w.index) && (Clean(p, index) ==> Clean(w.packet, w.index))
  {
    hide NameFits, AppendFqdn, FindsPlain, FindsBelow, QuestionFields, AppendQuestion, Good, Tight, Agree, Ascii, Clean;
    FitsFacts(p, index, q.name);
    NameSound(ls, p, index, index, q.name);
    QuestionParts(p, index, q);
    QuestionBytes(ls, q);
    var (w1, w) := (AppendFqdn(p, index, q.name), AppendQuestion(p, index, q));
    if Clean(p, index) {
      CleanTail(p, index, w.packet, w.index);
    }
    assert w.packet[w1.index] == w.packet[w1.index..w.index][0] == 0;
    NameGood(ls, p, index, index, q.name, w.packet);
    GoodKept(ls, p, w.packet, index, w.index);
    GoodLift(ls, w.packet, index, w1.index, w1.index, w.index);
    GoodJoin(ls, w.packet, 0, index, w1.index, w.index);
    TightSegment(ls, w.packet, w1.index, w.index, QuestionFields(q));
    GoodJoin(ls, w.packet, 0, w1.index, w.index, w.index);
    HeadKept(ls, p, w.packet, index);
  }

  lemma {:induction false} QuestionsQuiet(ls: Lengths, p: bytes, index: nat, qs: seq<Question>)
    requires Quiet(ls, p, index) && QuestionsFit(p, index, qs)
    requires forall i :: 0 <= i < |qs| ==> QuietQuestion(ls, qs[i])
    ensures QuestionsSound(p, index, qs)
    ensures var w := AppendQuestions(p, index, qs);
      Quiet(ls, w.packet, w.index) && (Clean(p, index) ==> Clean(w.packet, w.index))
    decreases |qs|
  {
    hide AppendQuestion, QuestionFits, QuestionSound, Quiet, QuietQuestion, Clean;
    if qs != [] {
      QuestionQuiet(ls, p, index, qs[0]);
      var w := AppendQuestion(p, index, qs[0]);
      QuestionsQuiet(ls, w.packet, w.index, qs[1..]);
    }
  }

  predicate AllQuiet(ls: Lengths, rs: seq<Record>) {
    forall i :: 0 <= i < |rs| ==> QuietRecord(ls, rs[i])
  }

  lemma RecordStaysQuiet(ls: Lengths, p: bytes, index: nat, r: Record, end: nat)
    requires Quiet(ls, p, index) && RecordFits(p, index, r) && QuietRecord(ls, r)
    requires Fresh(ls, p, index, end) && AppendRecord(p, index, r).index <= end
    ensures RecordSound(p, index, r)
    ensures var w := AppendRecord(p, index, r); Quiet(ls, w.packet, w.index) && Fresh(ls, w.packet, w.index, end)
  {
    StaysFresh(ls, p, index, r, end);
    assert Fresh(ls, p, index, AppendRecord(p, index, r).index);
    RecordQuiet(ls, p, index, r);
    hide AppendRecord, RecordFits, QuietRecord, Good, Fresh;
    HeadKept(ls, p, AppendRecord(p, index, r).packet, index);
  }

  lemma {:induction false} RecordsQuiet(ls: Lengths, p: bytes, index: nat, rs: seq<Record>, end: nat)
    requires Quiet(ls, p, index) && RecordsFit(p, index, rs) && AllQuiet(ls, rs)
    requires Fresh(ls, p, index, end) && AppendRecords(p, index, rs).index <= end
    ensures RecordsSound(p, index, rs)
    ensures var w := AppendRecords(p, index, rs);
      Quiet(ls, w.packet, w.index) && Fresh(ls, w.packet, w.index, end) && (rs != [] ==> w.index > index)
    decreases |rs|
  {
    hide AppendRecord, RecordFits, RecordSound, Quiet, QuietRecord, Fresh;
    if rs != [] {
      var w := AppendRecord(p, index, rs[0]);
      RecordStaysQuiet(ls, p, index, rs[0], end);
      RecordsQuiet(ls, w.packet, w.index, rs[1..], end);
    }
  }

  lemma SectionQuiet(ls: Lengths, p: bytes, index: nat, rs: seq<Record>, at: nat, end: nat)
    requires Quiet(ls, p, index) && RecordsFit(p, index, rs) && AllQuiet(ls, rs)
    requires at in {6, 8, 10} && HEAD_LEN <= index
    requires Fresh(ls, p, index, end) && AppendSection(p, index, rs, at).index <= end
    ensures RecordsSound(p, index, rs)
    ensures var w := AppendSection(p, index, rs, at);
      Quiet(ls, w.packet, w.index) && Fresh(ls, w.packet, w.index, end)
  {
    hide AppendRecords, RecordsFit, RecordsSound, Quiet, AllQuiet, Clean, Short;
    RecordsQuiet(ls, p, index, rs, end);
    var w := AppendRecords(p, index, rs);
    CountQuiet(ls, w.packet, w.index, at, w.count);
  }

  /** A header without label-like bytes, and quiet questions and records. */
  predicate QuietMessage(ls: Lengths, m: Message) {
    && QuietId(ls, m.id) && m.flags in {FLAGS_QUERY, FLAGS_ANSWER}
    && (forall i :: 0 <= i < |m.questions| ==> QuietQuestion(ls, m.questions[i]))
    && AllQuiet(ls, m.answers) && AllQuiet(ls, m.servers) && AllQuiet(ls, m.additional)
  }

  /**
   * A quiet message is sound, every pointer in it goes to a plain name in front of it: in a buffer that is
   * clean behind the header, and in any buffer if the labels have 2 to 11 bytes and the message at most 256.
   */
  lemma QuietIsSound(ls: Lengths, p: bytes, m: Message)
    requires MessageFits(p, m) && QuietMessage(ls, m) && Fresh(ls, p, HEAD_LEN, Dispatch(p, m).index)
    ensures MessageSound(p, m)
  {
    HeaderQuiet(ls, p, m);
    hide AppendQuestions, AppendSection, RecordsFit, QuestionsFit, RecordsSound, QuestionsSound, SetCount, Header;
    hide Quiet, AllQuiet, QuietQuestion, Clean, Short;
    var end := Dispatch(p, m).index;
    QuestionsQuiet(ls, Header(p, m), HEAD_LEN, m.questions);
    var q := AppendQuestions(Header(p, m), HEAD_LEN, m.questions);
    CountQuiet(ls, q.packet, q.index, 4, q.count);
    var q' := SetCount(q.packet, 4, q.count);
    assert Fresh(ls, q', q.index, end);
    hide Fresh;
    SectionQuiet(ls, q', q.index, m.answers, 6, end);
    var a := AppendSection(q', q.index, m.answers, 6);
    SectionQuiet(ls, a.packet, a.index, m.servers, 8, end);
    var v := AppendSection(a.packet, a.index, m.servers, 8);
    SectionQuiet(ls, v.packet, v.index, m.additional, 10, end);
  }

  // ---------------------------------------------------------------- answers

  function AnswerRecords(list: seq<Answer>): seq<Record> {
    if list == [] then [] else RecordsOf(list[0]) + AnswerRecords(list[1..])
  }

  /** The message that the answers of a packet make. */
  function MessageOf(id: u16, flags: u16, questions: seq<Question>,
                     answers: seq<Answer>, servers: seq<Answer>, additional: seq<Answer>): Message {
    Message(id, flags, questions, AnswerRecords(answers), AnswerRecords(servers), AnswerRecords(additional))
  }

  /** Text in which nothing can be taken for a label, together with the data length in front of it. */
  predicate QuietText(ls: Lengths, ts: seq<TxtItem>) {
    EntriesOk(ts) && |TxtData(ts)| < 0x1_0000 && Tight(ls, U16(|TxtData(ts)|) + TxtData(ts))
  }

  /**
   * A service with nice names: ASCII letters, digits, underscores and dashes, the labels of each name
   * different and of lengths in play, no subtypes, priority and weight of zero, and a port and a text
   * that do not look like labels.
   */
  predicate NiceService(ls: Lengths, s: Service) {
    && ServiceOk(s) && s.subtypes == [] && s.priority == 0 && s.weight == 0
    && s.port % 256 !in ls && (s.port / 256 in ls ==> !Letter(s.port % 256))
    && NiceName(ls, [s.instance, s.service, s.proto, LOCAL]) && NiceName(ls, [s.host, LOCAL]) && QuietText(ls, s.txt)
  }

  lemma NiceTail(ls: Lengths, name: seq<bytes>)
    requires NiceName(ls, name) && |name| >= 2
    ensures NiceName(ls, name[1..])
  {
    hide SameText, Ascii;
    assert forall i :: 0 <= i < |name| - 1 ==> name[1..][i] == name[i + 1];
  }

  lemma ServicesName(ls: Lengths)
    requires {|SERVICES|, |DNS_SD|, |UDP|, |LOCAL|} <= ls
    ensures NiceName(ls, [SERVICES, DNS_SD, UDP, LOCAL])
  {
    var name := [SERVICES, DNS_SD, UDP, LOCAL];
    ConstantsAreLabels();
    assert Ascii(ls, SERVICES) && Ascii(ls, DNS_SD) && Ascii(ls, UDP) && Ascii(ls, LOCAL);
    assert |SERVICES| == 9 && |DNS_SD| == 7 && |UDP| == 4 && |LOCAL| == 5 && |SUB| == 4;
    assert SUB[1] == 0x73 && UDP[1] == 0x75;
    assert !SameText(UDP, SUB);
  }

  lemma PortQuiet(ls: Lengths, port: u16)
    requires port % 256 !in ls && (port / 256 in ls ==> !Letter(port % 256))
    ensures QuietPrefix(ls, U16(0) + U16(0) + U16(port))
  {
    var b := U16(0) + U16(0) + U16(port);
    assert b[..4] == [0, 0, 0, 0] && b[4] as int == port / 256 && b[5] as int == port % 256;
  }

  /** Every answer for a service with nice names makes quiet records. */
  lemma AnswerQuiet(ls: Lengths, a: Answer)
    requires NiceService(ls, a.service) && {|SERVICES|, |DNS_SD|, |UDP|, |LOCAL|} <= ls
    ensures AllQuiet(ls, RecordsOf(a))
  {
    var s := a.service;
    AnswerRecordsOk(a);
    ServicesName(ls);
    PortQuiet(ls, s.port);
    var name := [s.instance, s.service, s.proto, LOCAL];
    NiceTail(ls, name);
    assert name[1..] == [s.service, s.proto, LOCAL];
    hide NiceName, RecordOk, Tight, QuietPrefix;
    var rs := RecordsOf(a);
    forall i | 0 <= i < |rs| ensures QuietRecord(ls, rs[i]) {
      assert rs[i] in rs && i == 0;
    }
  }

  predicate AllNice(ls: Lengths, list: seq<Answer>) {
    forall i :: 0 <= i < |list| ==> NiceService(ls, list[i].service)
  }

  lemma {:induction false} AnswersQuiet(ls: Lengths, list: seq<Answer>)
    requires AllNice(ls, list) && {|SERVICES|, |DNS_SD|, |UDP|, |LOCAL|} <= ls
    ensures AllQuiet(ls, AnswerRecords(list))
    decreases |list|
  {
    hide NiceService, QuietRecord, RecordsOf;
    if list != [] {
      AnswerQuiet(ls, list[0]);
      AnswersQuiet(ls, list[1..]);
    }
  }

  /** Messages of nice questions and of answers for services with nice names are sound. */
  lemma AnswersAreSound(ls: Lengths, p: bytes, id: u16, flags: u16, questions: seq<Question>,
                        answers: seq<Answer>, servers: seq<Answer>, additional: seq<Answer>)
    requires var m := MessageOf(id, flags, questions, answers, servers, additional);
      && MessageFits(p, m)
      && ((ls == LONG && Clean(p, HEAD_LEN)) || (ls == SHORT && Dispatch(p, m).index <= 256))
    requires QuietId(ls, id) && flags in {FLAGS_QUERY, FLAGS_ANSWER}
    requires forall i :: 0 <= i < |questions| ==> QuietQuestion(ls, questions[i])
    requires AllNice(ls, answers) && AllNice(ls, servers) && AllNice(ls, additional)
    ensures MessageSound(p, MessageOf(id, flags, questions, answers, servers, additional))
  {
    var m := MessageOf(id, flags, questions, answers, servers, additional);
    hide MessageFits, MessageSound, Dispatch;
    hide AllNice, AllQuiet, QuietQuestion, Clean;
    StandardLengths(ls);
    AnswersQuiet(ls, answers);
    AnswersQuiet(ls, servers);
    AnswersQuiet(ls, additional);
    QuietIsSound(ls, p, m);
  }

  lemma StandardLengths(ls: Lengths)
    requires ls == LONG || ls == SHORT
    ensures {|SERVICES|, |DNS_SD|, |UDP|, |LOCAL|} <= ls
  {
  }

  // ---------------------------------------------------------------- texts that are quiet

  /** Entries with values, and no character that can be taken for a length in play. */
  predicate Plain(ls: Lengths, ts: seq<TxtItem>) {
    forall i :: 0 <= i < |ts| ==> ts[i].value.Some? && NoLengths(ls, EntryText(ts[i]))
  }

  /** The witness that the byte at `i` is not the length of a label. */
  predicate Broken(b: bytes, i: nat, k: nat)
    requires i < |b|
  {
    i < k < |b| && k <= i + b[i] && !Letter(b[k])
  }

  lemma EntryInFront(ls: Lengths, e: bytes, rest: bytes, k: nat)
    requires 0 < k < |e| && |e| == 1 + e[0] as int && !Letter(e[k]) && Tight(ls, rest)
    requires forall i :: 1 <= i < |e| ==> e[i] !in ls
    ensures Tight(ls, e + rest)
  {
    var b := e + rest;
    forall i | 0 <= i < |b| && b[i] in ls ensures exists k :: i < k < |b| && k <= i + b[i] && !Letter(b[k]) {
      if i == 0 {
        assert Broken(b, i, k);
      } else {
        assert i >= |e|;
        var j := i - |e|;
        assert rest[j] == b[i];
        var l :| j < l < |rest| && l <= j + rest[j] && !Letter(rest[l]);
        assert Broken(b, i, |e| + l);
      }
    }
  }

  lemma EntryBytes(ls: Lengths, t: TxtItem)
    requires EntryOk(t) && t.value.Some? && NoLengths(ls, EntryText(t))
    ensures var e := Entry(t);
      && 1 + |t.key| < |e| == 1 + e[0] as int && !Letter(e[1 + |t.key|])
      && forall i :: 1 <= i < |e| ==> e[i] !in ls
  {
    var e := Entry(t);
    assert e[1 + |t.key|] == EntryText(t)[|t.key|] == EQUALS;
    assert forall i :: 1 <= i < |e| ==> e[i] == EntryText(t)[i - 1];
  }

  /** Whatever can be taken for a length in the entries has something behind it that is no letter. */
  lemma {:induction false} EntriesTight(ls: Lengths, ts: seq<TxtItem>)
    requires EntriesOk(ts) && Plain(ls, ts)
    ensures Tight(ls, Entries(ts))
    ensures ts != [] ==> exists k :: 0 <= k < |Entries(ts)| && !Letter(Entries(ts)[k])
    decreases |ts|
  {
    hide Entry, EntryText, Tight, Letter, NoLengths;
    if ts == [] {
      NothingTight(ls);
    } else {
      EntriesTight(ls, ts[1..]);
      EntryBytes(ls, ts[0]);
      var (e, k) := (Entry(ts[0]), 1 + |ts[0].key|);
      EntryInFront(ls, e, Entries(ts[1..]), k);
      assert Entries(ts)[k] == e[k];
    }
  }

  lemma NothingTight(ls: Lengths)
    ensures Tight(ls, [])
  {
  }

  /** Texts shorter than 256 bytes are quiet if every entry has a value and no character looks like a length. */
  lemma TextQuiet(ls: Lengths, ts: seq<TxtItem>)
    requires EntriesOk(ts) && Plain(ls, ts) && |TxtData(ts)| < 256
    ensures QuietText(ls, ts)
  {
    var data := TxtData(ts);
    if ts == [] {
      assert Tight(ls, data) && !Letter(data[0]);
    } else {
      EntriesTight(ls, ts);
    }
    LengthInFront(ls, data);
  }

  lemma LengthInFront(ls: Lengths, data: bytes)
    requires |data| < 256 && Tight(ls, data) && exists k :: 0 <= k < |data| && !Letter(data[k])
    ensures Tight(ls, U16(|data|) + data)
  {
    assert U16(|data|) == [0, |data|];
    hide U16, Letter;
    var b: bytes := [0, |data|] + data;
    var n :| 0 <= n < |data| && !Letter(data[n]);
    forall i | 0 <= i < |b| && b[i] in ls ensures exists k :: i < k < |b| && k <= i + b[i] && !Letter(b[k]) {
      if i == 1 {
        assert Broken(b, i, n + 2);
      } else {
        var j := i - 2;
        assert data[j] == b[i];
        var k :| j < k < |data| && k <= j + data[j] && !Letter(data[k]);
        assert Broken(b, i, k + 2);
      }
    }
  }

  /** The names gateway._http._tcp.local and esp32.local, on port 80, with the text path=/. */
  const GATEWAY: Service := Service(
    [0x67, 0x61, 0x74, 0x65, 0x77, 0x61, 0x79], [0x5F, 0x68, 0x74, 0x74, 0x70], [0x5F, 0x74, 0x63, 0x70],
    [0x65, 0x73, 0x70, 0x33, 0x32], 0, 0, 80, [TxtItem([0x70, 0x61, 0x74, 0x68], Some([0x2F]))], [])

  lemma GatewayName(ls: Lengths, a: bytes, b: bytes, c: bytes)
    requires {4, 5, 7} <= ls && a == GATEWAY.instance && b == GATEWAY.service && c == GATEWAY.proto
    ensures NiceName(ls, [a, b, c, LOCAL])
  {
    assert |a| == 7 && |b| == 5 && |c| == 4 && |LOCAL| == 5 && |SUB| == 4;
    assert Ascii(ls, a) && Ascii(ls, b) && Ascii(ls, c) && Ascii(ls, LOCAL);
    assert b[0] == 0x5F && LOCAL[0] == 0x6C && c[1] == 0x74 && SUB[1] == 0x73;
    assert !SameText(c, SUB);
  }

  lemma GatewayHost(ls: Lengths, h: bytes)
    requires 5 in ls && h == GATEWAY.host
    ensures NiceName(ls, [h, LOCAL])
  {
    assert |h| == 5 && |LOCAL| == 5 && |SUB| == 4 && h[0] == 0x65 && LOCAL[0] == 0x6C;
    assert Ascii(ls, h) && Ascii(ls, LOCAL);
  }

  lemma GatewayText(ls: Lengths)
    requires ls == LONG || ls == SHORT
    ensures QuietText(ls, GATEWAY.txt)
  {
    var t := GATEWAY.txt[0];
    assert EntryText(t) == [0x70, 0x61, 0x74, 0x68, 0x3D, 0x2F];
    assert NoLengths(ls, EntryText(t));
    assert GATEWAY.txt[1..] == [] && Entries(GATEWAY.txt) == Entry(t);
    hide LONG, SHORT, NoLengths, EntryText, Tight;
    TextQuiet(ls, GATEWAY.txt);
  }

  /** An ordinary web server is among the services with nice names. */
  lemma GatewayIsNice(ls: Lengths)
    requires ls == LONG || ls == SHORT
    ensures NiceService(ls, GATEWAY)
  {
    assert {4, 5, 7} <= ls && 80 !in ls && 0 !in ls;
    GatewayName(ls, GATEWAY.instance, GATEWAY.service, GATEWAY.proto);
    GatewayHost(ls, GATEWAY.host);
    GatewayText(ls);
    hide QuietText, LONG, SHORT, NiceName;
    assert ServiceOk(GATEWAY);
  }
}
