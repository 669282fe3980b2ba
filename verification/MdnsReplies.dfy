/**
 * The reply of a web server, byte by byte: what the writer finds for each name, and where it points.
 */
module MdnsReplies {
  import opened Bytes
  import opened MdnsName
  import opened MdnsMessage
  import opened MdnsLetters
  import opened MdnsQuiet
  import opened MdnsAnswers

  const HTTP: bytes := [0x5F, 0x68, 0x74, 0x74, 0x70]
  const TCP: bytes := [0x5F, 0x74, 0x63, 0x70]
  const ESP32: bytes := [0x65, 0x73, 0x70, 0x33, 0x32]
  const WEB: bytes := [0x77, 0x65, 0x62]
  const WEBS: bytes := [0x77, 0x65, 0x62, 0x73]

  /** A web server on port 3333, which is 0x0D05. */
  function Server(instance: bytes): MdnsMessage.Service {
    MdnsMessage.Service(instance, HTTP, TCP, ESP32, 0, 0, 3333, [], [])
  }

  /** The reply to a query for services of its type, save for the addresses of the host. */
  function Reply(instance: bytes): Message {
    var s := Server(instance);
    MessageOf(0, FLAGS_ANSWER, [], [Answer(Ptr, s, false, false)], [],
              [Answer(Srv, s, true, false), Answer(Txt, s, true, false)])
  }

  // ---------------------------------------------------------------- bytes in place

  predicate At(p: bytes, i: nat, b: bytes) {
    i + |b| <= |p| && p[i..i + |b|] == b
  }

  lemma AtKept(p: bytes, q: bytes, i: nat, b: bytes, k: nat)
    requires At(p, i, b) && i + |b| <= k <= |p| && k <= |q| && q[..k] == p[..k]
    ensures At(q, i, b)
  {
    SameSlice(p, q, 0, k, i, i + |b|);
  }

  lemma AtJoin(p: bytes, i: nat, a: bytes, b: bytes)
    requires At(p, i, a) && At(p, i + |a|, b)
    ensures At(p, i, a + b)
  {
    var (j, k) := (i + |a|, i + |a| + |b|);
    assert p[i..k] == p[i..j] + p[j..k];
  }

  lemma AtPart(p: bytes, i: nat, b: bytes, lo: nat, hi: nat)
    requires At(p, i, b) && lo <= hi <= |b|
    ensures At(p, i + lo, b[lo..hi])
  {
    SliceOfSlice(p, i, i + |b|, lo, hi);
  }

  lemma AtByte(p: bytes, i: nat, b: bytes, k: nat)
    requires At(p, i, b) && k < |b|
    ensures p[i + k] == b[k]
  {
    assert p[i + k] == p[i..i + |b|][k];
  }

  /** Between `i` and `j` no byte with the length of the label is followed by its first character. */
  predicate Absent(p: bytes, i: nat, j: nat, s: bytes)
    requires j < |p| && s != []
  {
    forall l :: i <= l < j && p[l] as int == |s| ==> p[l + 1] != s[0]
  }

  lemma OtherStart(p: bytes, i: nat, s: bytes)
    requires i + 1 < |p| && s != [] && p[i + 1] != s[0]
    ensures Absent(p, i, i + 1, s)
  {
  }

  lemma {:induction false} SearchSkipsAbsent(p: bytes, index: nat, i: nat, j: nat, strings: seq<bytes>)
    requires |p| == MEMORY && i <= j <= index <= MAX_PACKET_SIZE && strings != [] && IsLabel(strings[0])
    requires Absent(p, i, j, strings[0])
    ensures Search(p, index, i, strings) == Search(p, index, j, strings)
    decreases j - i
  {
    hide Matches;
    if i < j {
      if Matches(p, i, strings) {
        MatchedLabel(p, i, strings);
        StartsWith(p, i, strings[0]);
      }
      SearchSkipsAbsent(p, index, i + 1, j, strings);
    }
  }

  lemma StartsWith(p: bytes, i: nat, s: bytes)
    requires i + 1 + |s| <= |p| && s != [] && p[i + 1..i + 1 + |s|] == s
    ensures p[i + 1] == s[0]
  {
  }

  /** A label found nowhere is written out. */
  lemma WrittenOut(p: bytes, index: nat, strings: seq<bytes>)
    requires |p| == MEMORY && AreLabels(strings) && strings != [] && index + |strings[0]| + 1 < MAX_PACKET_SIZE
    requires Absent(p, 0, index, strings[0])
    ensures var q := Put(p, index, LabelBytes(strings[0]));
      var (w, v) := (AppendFqdn(p, index, strings), AppendFqdn(q, index + |strings[0]| + 1, strings[1..]));
      Search(p, index, 0, strings) == None && w.packet == v.packet && w.index == v.index
  {
    SearchSkipsAbsent(p, index, 0, index, strings);
    hide Matches, Put;
  }

  /** A name first found at `loc` is replaced by a pointer. */
  lemma PointedTo(p: bytes, index: nat, loc: nat, strings: seq<bytes>)
    requires |p| == MEMORY && AreLabels(strings) && strings != [] && loc < index && index + 1 < MAX_PACKET_SIZE
    requires Absent(p, 0, loc, strings[0]) && Matches(p, loc, strings)
    ensures Search(p, index, 0, strings) == Some(loc)
    ensures AppendFqdn(p, index, strings) == Written(Put(p, index, PointerTo(loc)), index + 2, 2)
  {
    SearchSkipsAbsent(p, index, 0, loc, strings);
    hide Matches, Put;
  }

  // ---------------------------------------------------------------- names in place

  lemma ReadLabelPointer(p: bytes, at: nat, s: bytes, target: nat, ws: seq<bytes>, end: nat)
    requires |p| == MEMORY && IsLabel(s) && AreLabels(ws) && target < at && at + |s| + 3 <= MAX_PACKET_SIZE
    requires p[at] as int == |s| && p[at + 1..at + 1 + |s|] == s
    requires p[at + 1 + |s|] >= NAME_REF && Address(p[at + 1 + |s|], p[at + 2 + |s|]) == target
    requires end < MAX_PACKET_SIZE && Laid(p, target, ws, end) && p[end] == 0
    ensures NameOk(Mark(AddLabel(Mark(Blank()), s)))
    ensures Read(p, MAX_PACKET_SIZE, at, at, Blank()) ==
              Some(ReadResult(at + |s| + 3, FileAll(Mark(AddLabel(Mark(Blank()), s)), ws)))
  {
    hide Read, FileAll, Laid, AddLabel, Address;
    var (next, n) := (at + 1 + |s|, AddLabel(Mark(Blank()), s));
    ReadUnfold(p, MAX_PACKET_SIZE, at, at, Blank());
    ReadUnfold(p, MAX_PACKET_SIZE, at, next, n);
    ReadLaid(p, target, target, ws, end, Mark(n));
  }

  /** A label and then a pointer to labels in place stand for the name they make. */
  lemma LabelThenPointer(p: bytes, at: nat, s: bytes, target: nat, ws: seq<bytes>, end: nat)
    requires |p| == MEMORY && IsLabel(s) && IsName([s] + ws) && target < at && at + |s| + 3 <= MAX_PACKET_SIZE
    requires At(p, at, LabelBytes(s)) && At(p, at + 1 + |s|, PointerTo(target))
    requires end < MAX_PACKET_SIZE && Laid(p, target, ws, end) && p[end] == 0
    ensures Matches(p, at, [s] + ws)
  {
    var name := [s] + ws;
    assert name[0] == s && name[1..] == ws;
    assert AreLabels(ws) by { assert forall i :: 0 <= i < |ws| ==> ws[i] == name[i + 1]; }
    AtByte(p, at, LabelBytes(s), 0);
    AtPart(p, at, LabelBytes(s), 1, 1 + |s|);
    assert LabelBytes(s)[1..1 + |s|] == s;
    PointerRead(p, at + 1 + |s|, target);
    hide Read, FileAll, Laid, SameText, IsName, AddLabel, At, Address, PointerTo, LabelBytes;
    ReadLabelPointer(p, at, s, target, ws, end);
    FiledWhole(s, ws, AddLabel(Mark(Blank()), s));
  }

  lemma FiledWhole(s: bytes, ws: seq<bytes>, n: Name)
    requires IsName([s] + ws) && n == AddLabel(Mark(Blank()), s)
    ensures var r := FileAll(Mark(n), ws);
      && r.parts == 1 + |ws|
      && forall i :: 0 <= i < 1 + |ws| ==> SameText(([s] + ws)[i], r.texts[i])
  {
    var name := [s] + ws;
    assert name[0] == s && name[1..] == ws;
    FilesNext(Blank(), s);
    assert Mark(n) == n;
    assert FileAll(Blank(), name) == FileAll(n, ws);
    forall i | 0 <= i < |name| ensures SameText(name[i], name[i]) {
      SameTextSelf(name[i]);
    }
    hide FileAll, SameText;
    FiledParts(name, name);
  }

  /** Labels in place stand for the name they make. */
  lemma LabelsMatch(p: bytes, at: nat, ws: seq<bytes>, end: nat)
    requires |p| == MEMORY && at < end < MAX_PACKET_SIZE && Laid(p, at, ws, end) && p[end] == 0 && IsName(ws)
    ensures Matches(p, at, ws)
  {
    LaidFirst(p, at, ws, end);
    hide Read, FileAll, Laid, SameText;
    ReadLaid(p, at, at, ws, end, Blank());
    forall i | 0 <= i < |ws| ensures SameText(ws[i], ws[i]) {
      SameTextSelf(ws[i]);
    }
    FiledParts(ws, ws);
  }

  lemma DomainMatches(p: bytes, at: nat)
    requires |p| == MEMORY && at + 6 < MAX_PACKET_SIZE && Laid(p, at, [LOCAL], at + 6) && p[at + 6] == 0
    ensures Matches(p, at, [LOCAL])
  {
    LaidFirst(p, at, [LOCAL], at + 6);
    ReadLaid(p, at, at, [LOCAL], at + 6, Blank());
    FilesNext(Blank(), LOCAL);
    assert FileAll(Blank(), [LOCAL]) == AddLabel(Mark(Blank()), LOCAL) by { assert [LOCAL][1..] == []; }
    SameTextSelf(LOCAL);
    hide Read, FileAll, Laid, SameText, AddLabel;
  }

  // ---------------------------------------------------------------- the image of a packet

  /** A header without bytes that are lengths of labels here, and the bytes behind it. */
  predicate Image(p: bytes, b: bytes) {
    |p| == MEMORY && (forall i :: 0 <= i < HEAD_LEN ==> p[i] < 3 || p[i] == 0x84) && At(p, HEAD_LEN, b)
  }

  lemma PutImage(p: bytes, b: bytes, c: bytes)
    requires Image(p, b) && HEAD_LEN + |b| + |c| <= MEMORY
    ensures Image(Put(p, HEAD_LEN + |b|, c), b + c)
  {
    var i := HEAD_LEN + |b|;
    var q := Put(p, i, c);
    assert forall k :: 0 <= k < HEAD_LEN ==> q[k] == q[..i][k] == p[..i][k] == p[k];
    AtKept(p, q, HEAD_LEN, b, i);
    AtJoin(q, HEAD_LEN, b, c);
  }

  lemma CountImage(p: bytes, b: bytes, at: nat, count: nat)
    requires Image(p, b) && at + 2 <= HEAD_LEN && count < 3
    ensures Image(SetCount(p, at, count), b)
  {
    var q := SetCount(p, at, count);
    assert q[HEAD_LEN..] == p[HEAD_LEN..];
    assert q[HEAD_LEN..HEAD_LEN + |b|] == q[HEAD_LEN..][..|b|] == p[HEAD_LEN..][..|b|] == p[HEAD_LEN..HEAD_LEN + |b|];
  }

  /** No byte of `b` can be taken for the length of the label. */
  predicate Free(b: bytes, s: bytes)
    requires s != []
  {
    forall k :: 0 <= k < |b| && b[k] as int == |s| ==> k + 1 < |b| && b[k + 1] != s[0]
  }

  lemma FreeJoin(a: bytes, b: bytes, s: bytes)
    requires s != [] && Free(a, s) && Free(b, s)
    ensures Free(a + b, s)
  {
    var c := a + b;
    forall k | 0 <= k < |c| && c[k] as int == |s| ensures k + 1 < |c| && c[k + 1] != s[0] {
      if k >= |a| {
        assert c[k] == b[k - |a|];
      }
    }
  }

  lemma ImageAbsent(p: bytes, a: bytes, b: bytes, s: bytes)
    requires Image(p, a + b) && |s| >= 3 && |s| <= MAX_LABEL && Free(a, s) && HEAD_LEN + |a| < |p|
    ensures Absent(p, 0, HEAD_LEN + |a|, s)
  {
    forall l | 0 <= l < HEAD_LEN + |a| && p[l] as int == |s| ensures p[l + 1] != s[0] {
      if l >= HEAD_LEN {
        var k := l - HEAD_LEN;
        AtByte(p, HEAD_LEN, a + b, k);
        AtByte(p, HEAD_LEN, a + b, k + 1);
      }
    }
  }

  /** A label found nowhere is written out, and the image grows by it. */
  lemma ImageGrows(p: bytes, b: bytes, strings: seq<bytes>)
    requires Image(p, b) && AreLabels(strings) && strings != [] && |strings[0]| >= 3 && Free(b, strings[0])
    requires HEAD_LEN + |b| + |strings[0]| + 1 < MAX_PACKET_SIZE
    ensures var (s, index) := (strings[0], HEAD_LEN + |b|);
      var q := Put(p, index, LabelBytes(s));
      var (w, v) := (AppendFqdn(p, index, strings), AppendFqdn(q, index + |s| + 1, strings[1..]));
      && Image(q, b + LabelBytes(s)) && Search(p, index, 0, strings) == None
      && w.packet == v.packet && w.index == v.index && w.count == v.count + |s| + 1
  {
    hide *;
    ImageAt(p, b);
    FirstLabel(b, strings);
    ImageAbsent(p, b, [], strings[0]);
    WrittenOut(p, HEAD_LEN + |b|, strings);
    PutImage(p, b, LabelBytes(strings[0]));
  }

  lemma ImageAt(p: bytes, b: bytes)
    requires Image(p, b)
    ensures At(p, HEAD_LEN, b) && |p| == MEMORY
  {
  }

  lemma FirstLabel(b: bytes, strings: seq<bytes>)
    requires AreLabels(strings) && strings != []
    ensures b + [] == b && HEAD_LEN == 12 && MAX_PACKET_SIZE == 1460 && MEMORY == 1524 && MAX_LABEL == 63
    ensures IsLabel(strings[0]) && 1 <= |strings[0]| <= MAX_LABEL && |LabelBytes(strings[0])| == |strings[0]| + 1
  {
  }

  // ---------------------------------------------------------------- the answer

  const OWNER: bytes := [5] + HTTP + [4] + TCP + [5] + LOCAL + [0]
  const NAMES: seq<bytes> := [HTTP, TCP, LOCAL]

  predicate IsInstance(s: bytes) {
    s == WEB || s == WEBS
  }

  lemma Labels()
    ensures IsLabel(HTTP) && IsLabel(TCP) && IsLabel(LOCAL) && IsLabel(ESP32) && IsLabel(WEB) && IsLabel(WEBS)
    ensures LabelBytes(HTTP) == [5] + HTTP && LabelBytes(TCP) == [4] + TCP && LabelBytes(LOCAL) == [5] + LOCAL
  {
  }

  lemma OwnerPieces()
    ensures var (a, b, c) := (LabelBytes(HTTP), LabelBytes(TCP), LabelBytes(LOCAL));
      && [] + a == a && a + b + c + [0] == OWNER && |a| == 6 && |b| == 5 && |c| == 6
      && Free([], HTTP) && Free(a, TCP) && Free(a + b, LOCAL)
    ensures NAMES[1..] == [TCP, LOCAL] && [TCP, LOCAL][1..] == [LOCAL] && [LOCAL][1..] == []
    ensures AreLabels(NAMES) && AreLabels([TCP, LOCAL]) && AreLabels([LOCAL])
  {
    Labels();
    assert Free([5] + HTTP, LOCAL) && Free([4] + TCP, LOCAL);
    FreeJoin([5] + HTTP, [4] + TCP, LOCAL);
  }

  /** In front of the first name there is nothing. */
  lemma OwnerWritten(p: bytes)
    requires Image(p, [])
    ensures var w := AppendFqdn(p, HEAD_LEN, NAMES); w.index == 30 && w.count == 18 && Image(w.packet, OWNER)
  {
    OwnerPieces();
    var (a, b, c) := (LabelBytes(HTTP), LabelBytes(TCP), LabelBytes(LOCAL));
    assert |HTTP| == 5 && |TCP| == 4 && |LOCAL| == 5;
    hide Put, Search, Image, Free, OWNER, HTTP, TCP, LOCAL, LabelBytes, NAMES, AreLabels, Matches;
    ImageGrows(p, [], NAMES);
    var p1 := Put(p, 12, a);
    ImageGrows(p1, a, [TCP, LOCAL]);
    var p2 := Put(p1, 18, b);
    ImageGrows(p2, a + b, [LOCAL]);
    var p3 := Put(p2, 23, c);
    PutImage(p3, a + b + c, [0]);
    assert AppendFqdn(p3, 29, []) == Written(Put(p3, 29, [0]), 30, 1);
  }

  lemma OwnerInPlace(p: bytes, rest: bytes)
    requires Image(p, OWNER + rest)
    ensures Laid(p, 12, NAMES, 29) && p[29] == 0 && Laid(p, 23, [LOCAL], 29)
  {
    hide *;
    ImageAt(p, OWNER + rest);
    OwnerLaid(p, rest);
  }

  lemma OwnerLaid(p: bytes, rest: bytes)
    requires |p| == MEMORY && At(p, HEAD_LEN, OWNER + rest)
    ensures Laid(p, 12, NAMES, 29) && p[29] == 0 && Laid(p, 23, [LOCAL], 29)
  {
    OwnerPieces();
    Labels();
    AtPart(p, 12, OWNER + rest, 0, 18);
    assert (OWNER + rest)[0..18] == OWNER;
    AtPart(p, 12, OWNER, 1, 6);
    AtPart(p, 12, OWNER, 7, 11);
    AtPart(p, 12, OWNER, 12, 17);
    assert OWNER[1..6] == HTTP && OWNER[7..11] == TCP && OWNER[12..17] == LOCAL;
    AtByte(p, 12, OWNER, 0);
    AtByte(p, 12, OWNER, 6);
    AtByte(p, 12, OWNER, 11);
    AtByte(p, 12, OWNER, 17);
    assert Laid(p, 29, [], 29);
    assert Laid(p, 23, [LOCAL], 29);
    assert Laid(p, 18, [TCP, LOCAL], 29);
  }

  lemma ServiceNames(inst: bytes)
    requires IsInstance(inst)
    ensures IsName(NAMES) && IsName([inst] + NAMES) && AreLabels([inst] + NAMES) && IsName([ESP32, LOCAL])
    ensures [inst] + NAMES == [inst, HTTP, TCP, LOCAL] && ([inst] + NAMES)[1..] == NAMES && |inst| in {3, 4}
    ensures IsLabel(inst) && inst[0] == 0x77
  {
    Labels();
    SameTextSelf(LOCAL);
    assert |SUB| == 4 && SUB[0] == 0x5F && SUB[1] == 0x73 && TCP[1] == 0x74;
  }

  const PTR_FIELDS: bytes := [0, 12, 0, 1, 0, 0, 0x11, 0x94]
  const SRV_FIELDS: bytes := [0, 33, 0x80, 1, 0, 0, 0, 120, 0, 0]
  const PORT: bytes := [0, 0, 0, 0, 0x0D, 5]

  function TypeRecord(inst: bytes): Record {
    PtrRecord([HTTP, TCP, LOCAL], Server(inst), false)
  }

  /** The bytes of the type record, without the length of its data. */
  function TypeImage(inst: bytes, length: bytes): bytes
    requires IsLabel(inst)
  {
    OWNER + PTR_FIELDS + length + (LabelBytes(inst) + [0xC0, 12])
  }

  lemma TypeImageIs(inst: bytes, length: bytes)
    requires IsLabel(inst)
    ensures TypeImage(inst, length) == OWNER + PTR_FIELDS + length + (LabelBytes(inst) + [0xC0, 12])
    ensures AreLabels([inst])
  {
  }

  lemma TypeHead(p: bytes, inst: bytes)
    requires Image(p, []) && IsInstance(inst) && HeadFits(p, HEAD_LEN, TypeRecord(inst))
    ensures var h := AppendHead(p, HEAD_LEN, TypeRecord(inst));
      h.index == 40 && Image(h.packet, OWNER + PTR_FIELDS + [0, 0])
  {
    hide *;
    OwnerWritten(p);
    TypeOwner(inst);
    Bounds();
    Sizes0();
    HeadIs(p, TypeRecord(inst));
    var w := AppendFqdn(p, HEAD_LEN, NAMES);
    PutImage(w.packet, OWNER, PTR_FIELDS + [0, 0]);
    assert OWNER + (PTR_FIELDS + [0, 0]) == OWNER + PTR_FIELDS + [0, 0];
  }

  lemma TypeOwner(inst: bytes)
    ensures TypeRecord(inst).owner == NAMES && FixedFields(TypeRecord(inst)) == PTR_FIELDS + [0, 0]
  {
  }

  lemma Sizes0()
    ensures |OWNER| == 18 && |PTR_FIELDS| == 8
  {
    OwnerPieces();
  }

  lemma HeadIs(p: bytes, r: Record)
    requires HeadFits(p, HEAD_LEN, r)
    ensures |p| == MEMORY && AreLabels(r.owner)
    ensures var (h, w) := (AppendHead(p, HEAD_LEN, r), AppendFqdn(p, HEAD_LEN, r.owner));
      w.index + FIXED_LEN <= MEMORY && h.index == w.index + FIXED_LEN &&
      h.packet == Put(w.packet, w.index, FixedFields(r))
    ensures FIXED_LEN == 10
  {
    hide NameFits, AppendFqdn, FixedFields, Put;
    FitsFacts(p, HEAD_LEN, r.owner);
  }

  lemma FreeOfInstance(inst: bytes, length: bytes)
    requires IsInstance(inst) && |length| == 2 && forall k :: 0 <= k < 2 ==> length[k] !in {3, 4}
    ensures Free(OWNER + PTR_FIELDS + length, inst)
  {
    PiecesFree(inst, length);
    OwnerPieces();
    var (a, b, c) := (LabelBytes(HTTP), LabelBytes(TCP), LabelBytes(LOCAL));
    hide *;
    FreeJoin(a, b, inst);
    FreeJoin(a + b, c, inst);
    FreeJoin(a + b + c, [0], inst);
    FreeJoin(OWNER, PTR_FIELDS, inst);
    FreeJoin(OWNER + PTR_FIELDS, length, inst);
  }

  lemma PiecesFree(inst: bytes, length: bytes)
    requires IsInstance(inst) && |length| == 2 && forall k :: 0 <= k < 2 ==> length[k] !in {3, 4}
    ensures IsLabel(HTTP) && IsLabel(TCP) && IsLabel(LOCAL) && inst != []
    ensures Free(LabelBytes(HTTP), inst) && Free(LabelBytes(TCP), inst) && Free(LabelBytes(LOCAL), inst)
    ensures Free([0], inst) && Free(PTR_FIELDS, inst) && Free(length, inst)
  {
    ServiceNames(inst);
    Labels();
  }

  /** The instance is written out, and the type behind it is a pointer to the owner. */
  lemma TypeName(p: bytes, inst: bytes)
    requires IsInstance(inst) && Image(p, OWNER + PTR_FIELDS + [0, 0])
    ensures IsLabel(inst) && AreLabels([inst] + NAMES)
    ensures var v := AppendFqdn(p, 40, [inst] + NAMES);
      v.index == 43 + |inst| && v.count == |inst| + 3 && Image(v.packet, TypeImage(inst, [0, 0]))
  {
    hide *;
    ServiceNames(inst);
    FreeOfInstance(inst, [0, 0]);
    Sizes(inst, [0, 0]);
    var (a, strings) := (OWNER + PTR_FIELDS + [0, 0], [inst] + NAMES);
    FirstLabel(a, strings);
    ImageAt(p, a);
    assert strings[0] == inst;
    ImageGrows(p, a, strings);
    var q := Put(p, 40, LabelBytes(inst));
    TypeFound(q, inst);
    NamePut(q, inst);
  }

  lemma NamePut(q: bytes, inst: bytes)
    requires IsInstance(inst) && IsLabel(inst) && Image(q, OWNER + PTR_FIELDS + [0, 0] + LabelBytes(inst))
    ensures Image(Put(q, 41 + |inst|, PointerTo(12)), TypeImage(inst, [0, 0]))
  {
    OwnerPieces();
    var a := OWNER + PTR_FIELDS + [0, 0];
    assert |a| == 28 && |inst| <= 4 && PointerTo(12) == [0xC0, 12];
    hide Image, OWNER, PTR_FIELDS, Put;
    PutImage(q, a + LabelBytes(inst), [0xC0, 12]);
    Regroup(a, LabelBytes(inst), [0xC0, 12]);
  }

  lemma TypeFound(q: bytes, inst: bytes)
    requires IsInstance(inst) && IsLabel(inst) && Image(q, OWNER + PTR_FIELDS + [0, 0] + LabelBytes(inst))
    ensures AreLabels(NAMES)
    ensures AppendFqdn(q, 41 + |inst|, NAMES) == Written(Put(q, 41 + |inst|, PointerTo(12)), 43 + |inst|, 2)
  {
    ServiceNames(inst);
    OwnerPieces();
    var rest := PTR_FIELDS + [0, 0] + LabelBytes(inst);
    assert OWNER + PTR_FIELDS + [0, 0] + LabelBytes(inst) == OWNER + rest == [] + (OWNER + rest);
    OwnerInPlace(q, rest);
    ImageAbsent(q, [], OWNER + rest, HTTP);
    LabelsMatch(q, 12, NAMES, 29);
    PointedTo(q, 41 + |inst|, 12, NAMES);
  }

  /** Patching bytes in the middle of the image. */
  lemma PatchImage(p: bytes, a: bytes, c: bytes, b: bytes, d: bytes)
    requires Image(p, a + c + b) && |c| == |d|
    ensures Image(Put(p, HEAD_LEN + |a|, d), a + d + b)
  {
    var (i, j, k) := (HEAD_LEN + |a|, HEAD_LEN + |a| + |d|, HEAD_LEN + |a| + |d| + |b|);
    var q := Put(p, i, d);
    assert forall l :: 0 <= l < HEAD_LEN ==> q[l] == q[..i][l] == p[..i][l] == p[l];
    AtPart(p, HEAD_LEN, a + c + b, 0, |a|);
    assert (a + c + b)[0..|a|] == a;
    AtKept(p, q, HEAD_LEN, a, i);
    AtPart(p, HEAD_LEN, a + c + b, |a| + |c|, |a| + |c| + |b|);
    assert (a + c + b)[|a| + |c|..|a| + |c| + |b|] == b;
    assert q[j..k] == q[j..][..|b|] == p[j..][..|b|] == p[j..k];
    AtJoin(q, HEAD_LEN, a, d);
    AtJoin(q, HEAD_LEN, a + d, b);
  }

  lemma Sizes(inst: bytes, length: bytes)
    requires IsInstance(inst) && IsLabel(inst) && |length| == 2
    ensures |OWNER| == 18 && |PTR_FIELDS| == 8 && |OWNER + PTR_FIELDS| == 26 && |SRV_FIELDS| == 10 && |PORT| == 6
    ensures |inst| in {3, 4} && |TypeImage(inst, length)| == 31 + |inst|
    ensures PointerTo(12) == [0xC0, 12] && PointerTo(40) == [0xC0, 40]
  {
    OwnerPieces();
  }

  lemma BodyIsName(h: Written, r: Record, name: seq<bytes>)
    requires BodyFits(h, r) && r.body == NameBody([], name)
    ensures AreLabels(name) && |h.packet| == MEMORY && h.index <= MAX_PACKET_SIZE
    ensures var v := AppendFqdn(h.packet, h.index, name);
      AppendBody(h, r) == Written(v.packet, v.index, v.count % 256)
  {
    hide AppendFqdn, Put;
    assert BeforeName(h, r) == Written(h.packet, h.index, 0) by { PutNothing(h.packet, h.index); }
    hide BeforeName;
    NameLength(h, r);
  }

  lemma TypeIs(inst: bytes)
    requires IsInstance(inst)
    ensures TypeRecord(inst).body == NameBody([], [inst] + NAMES) && |inst| <= 4
  {
    ServiceNames(inst);
  }

  lemma TypeBody(h: Written, inst: bytes)
    requires IsInstance(inst) && h.index == 40 && Image(h.packet, OWNER + PTR_FIELDS + [0, 0])
    requires BodyFits(h, TypeRecord(inst))
    ensures IsLabel(inst)
    ensures var b := AppendBody(h, TypeRecord(inst));
      b.index == 43 + |inst| && b.count == |inst| + 3 && Image(b.packet, TypeImage(inst, [0, 0]))
  {
    hide *;
    TypeIs(inst);
    TypeName(h.packet, inst);
    BodyIsName(h, TypeRecord(inst), [inst] + NAMES);
  }

  /** The type record behind the header: its bytes, and its end. */
  lemma TypeWritten(p: bytes, inst: bytes)
    requires Image(p, []) && IsInstance(inst) && RecordFits(p, HEAD_LEN, TypeRecord(inst))
    ensures IsLabel(inst)
    ensures var w := AppendRecord(p, HEAD_LEN, TypeRecord(inst));
      w.index == 43 + |inst| && Image(w.packet, TypeImage(inst, [0, |inst| + 3]))
  {
    TypeHead(p, inst);
    hide AppendHead, AppendBody, HeadFits, BodyFits, Image, TypeImage, OWNER, PTR_FIELDS, TypeRecord;
    var h := AppendHead(p, HEAD_LEN, TypeRecord(inst));
    TypeBody(h, inst);
    TypePatched(AppendBody(h, TypeRecord(inst)).packet, inst);
  }

  lemma TypePatched(p: bytes, inst: bytes)
    requires IsInstance(inst) && IsLabel(inst) && Image(p, TypeImage(inst, [0, 0]))
    ensures Image(Put(p, 38, U16((|inst| + 3) % 0x1_0000)), TypeImage(inst, [0, |inst| + 3]))
  {
    Sizes(inst, [0, 0]);
    assert U16((|inst| + 3) % 0x1_0000) == [0, |inst| + 3];
    hide OWNER, PTR_FIELDS, Image, U16, LabelBytes, Put;
    PatchImage(p, OWNER + PTR_FIELDS, [0, 0], LabelBytes(inst) + [0xC0, 12], [0, |inst| + 3]);
  }

  // ---------------------------------------------------------------- the location of the service

  function LocationRecord(inst: bytes): Record {
    RecordsOf(Answer(Srv, Server(inst), true, false))[0]
  }

  /** Up to the name of the host in the data of the second record. */
  function LocationImage(inst: bytes): bytes
    requires IsLabel(inst)
  {
    TypeImage(inst, [0, |inst| + 3]) + [0xC0, 40] + SRV_FIELDS + PORT
  }

  /** The pieces of the type record: nothing like the instance in front of it, and the name it makes. */
  lemma InstancePieces(p: bytes, inst: bytes)
    requires IsInstance(inst) && IsLabel(inst) && Image(p, TypeImage(inst, [0, |inst| + 3]))
    ensures Absent(p, 0, 40, inst) && At(p, 40, LabelBytes(inst) + [0xC0, 12])
    ensures Laid(p, 12, NAMES, 29) && p[29] == 0
  {
    hide *;
    ServiceNames(inst);
    FreeOfInstance(inst, [0, |inst| + 3]);
    Sizes(inst, [0, |inst| + 3]);
    TypeImageIs(inst, [0, |inst| + 3]);
    var (a, c) := (OWNER + PTR_FIELDS + [0, |inst| + 3], LabelBytes(inst) + [0xC0, 12]);
    FirstLabel(a, [inst]);
    ImageAt(p, a + c);
    ImageAbsent(p, a, c, inst);
    AtPart(p, HEAD_LEN, a + c, 28, 28 + |c|);
    assert (a + c)[28..28 + |c|] == c;
    assert a + c == OWNER + (PTR_FIELDS + [0, |inst| + 3] + c);
    OwnerInPlace(p, PTR_FIELDS + [0, |inst| + 3] + c);
  }

  lemma InstanceMatches(p: bytes, inst: bytes)
    requires |p| == MEMORY && IsInstance(inst) && IsLabel(inst) && At(p, 40, LabelBytes(inst) + [0xC0, 12])
    requires Laid(p, 12, NAMES, 29) && p[29] == 0
    ensures Matches(p, 40, [inst] + NAMES)
  {
    ServiceNames(inst);
    var c := LabelBytes(inst) + [0xC0, 12];
    assert PointerTo(12) == [0xC0, 12] && |LabelBytes(inst)| == 1 + |inst|;
    assert c[0..1 + |inst|] == LabelBytes(inst) && c[1 + |inst|..3 + |inst|] == [0xC0, 12];
    hide LabelBytes, Laid, At, NAMES, Matches, IsName;
    AtPart(p, 40, c, 0, 1 + |inst|);
    AtPart(p, 40, c, 1 + |inst|, 3 + |inst|);
    LabelThenPointer(p, 40, inst, 12, NAMES, 29);
  }

  lemma InstanceFound(p: bytes, inst: bytes)
    requires IsInstance(inst) && IsLabel(inst) && Image(p, TypeImage(inst, [0, |inst| + 3]))
    ensures AreLabels([inst] + NAMES)
    ensures var (index, name) := (43 + |inst|, [inst] + NAMES);
      && Search(p, index, 0, name) == Some(40)
      && AppendFqdn(p, index, name) == Written(Put(p, index, PointerTo(40)), index + 2, 2)
  {
    ServiceNames(inst);
    assert |p| == MEMORY;
    hide Image, TypeImage, Laid, At, Absent, NAMES, Matches, Put, LabelBytes;
    InstancePieces(p, inst);
    InstanceMatches(p, inst);
    PointedTo(p, 43 + |inst|, 40, [inst] + NAMES);
  }

  lemma LocationIs(inst: bytes)
    requires IsInstance(inst)
    ensures LocationRecord(inst) == Record([inst] + NAMES, TYPE_SRV, true, 120, NameBody(PORT, [ESP32, LOCAL]))
    ensures FixedFields(LocationRecord(inst)) == SRV_FIELDS
  {
    ServiceNames(inst);
    assert U16(0) + U16(0) + U16(3333) == PORT;
  }

  lemma LocationHead(p: bytes, inst: bytes)
    requires IsInstance(inst) && IsLabel(inst) && Image(p, TypeImage(inst, [0, |inst| + 3]))
    requires HeadFits(p, 43 + |inst|, LocationRecord(inst))
    ensures var o := 43 + |inst|;
      var h := AppendHead(p, o, LocationRecord(inst));
      o + 12 <= |p| && h.packet == Put(Put(p, o, [0xC0, 40]), o + 2, SRV_FIELDS) && h.index == o + 12
  {
    LocationIs(inst);
    InstanceFound(p, inst);
    Sizes(inst, [0, 0]);
    hide LocationRecord, Image, TypeImage, AppendFqdn, Search, SRV_FIELDS;
  }

  /** The packet up to the name of the host: all its bytes are known. */
  lemma BeforeHost(p: bytes, inst: bytes)
    requires IsInstance(inst) && IsLabel(inst) && Image(p, TypeImage(inst, [0, |inst| + 3]))
    requires HeadFits(p, 43 + |inst|, LocationRecord(inst))
    ensures var h := AppendHead(p, 43 + |inst|, LocationRecord(inst));
      && h.index == 55 + |inst| && h.index + |PORT| == 61 + |inst| <= |h.packet|
      && Image(Put(h.packet, h.index, PORT), LocationImage(inst))
  {
    hide *;
    ServiceNames(inst);
    LocationIs(inst);
    LocationHead(p, inst);
    Sizes(inst, [0, |inst| + 3]);
    Bounds();
    var (a, o) := (TypeImage(inst, [0, |inst| + 3]), 43 + |inst|);
    var h := AppendHead(p, o, LocationRecord(inst));
    PutImage(p, a, [0xC0, 40]);
    PutImage(Put(p, o, [0xC0, 40]), a + [0xC0, 40], SRV_FIELDS);
    PutImage(h.packet, a + [0xC0, 40] + SRV_FIELDS, PORT);
    LocationImageIs(inst);
  }

  lemma Bounds()
    ensures HEAD_LEN == 12 && MAX_PACKET_SIZE == 1460 && MEMORY == 1524
  {
  }

  lemma BeforeNameIs(h: Written, r: Record)
    requires |h.packet| == MEMORY && r.body.NameBody? && h.index + |r.body.prefix| <= MEMORY
    ensures var b := BeforeName(h, r);
      b.packet == Put(h.packet, h.index, r.body.prefix) && b.index == h.index + |r.body.prefix|
  {
  }

  lemma LocationImageIs(inst: bytes)
    requires IsLabel(inst)
    ensures LocationImage(inst) == TypeImage(inst, [0, |inst| + 3]) + [0xC0, 40] + SRV_FIELDS + PORT
  {
  }

  // ---------------------------------------------------------------- the name of the host

  const PORT_FRONT: bytes := [0, 0, 0, 0, 0x0D]

  /** All of that image but the last byte, the low byte of the port. */
  function LocationFront(inst: bytes): bytes
    requires IsLabel(inst)
  {
    TypeImage(inst, [0, |inst| + 3]) + [0xC0, 40] + SRV_FIELDS + PORT_FRONT
  }

  lemma FrontAndPort(inst: bytes)
    requires IsInstance(inst) && IsLabel(inst)
    ensures LocationImage(inst) == LocationFront(inst) + [5] && |LocationFront(inst)| == 48 + |inst|
  {
    Sizes(inst, [0, |inst| + 3]);
    assert PORT_FRONT + [5] == PORT;
    hide TypeImage, PORT, PORT_FRONT;
    Regroup(TypeImage(inst, [0, |inst| + 3]) + [0xC0, 40] + SRV_FIELDS, PORT_FRONT, [5]);
  }

  lemma FreeOfHost(inst: bytes)
    requires IsInstance(inst) && IsLabel(inst)
    ensures Free(LocationFront(inst), ESP32)
  {
    OwnerPieces();
    Labels();
    var (a, b, c) := (LabelBytes(HTTP), LabelBytes(TCP), LabelBytes(LOCAL));
    var (d, e, g) := (PTR_FIELDS, [0, |inst| + 3], LabelBytes(inst) + [0xC0, 12]);
    assert Free(a, ESP32) && Free(b, ESP32) && Free(c, ESP32) && Free([0], ESP32) && Free(d, ESP32) && Free(e, ESP32);
    assert Free(g, ESP32) && Free([0xC0, 40], ESP32) && Free(SRV_FIELDS, ESP32) && Free(PORT_FRONT, ESP32);
    hide Free, HTTP, TCP, LOCAL, ESP32, PTR_FIELDS, SRV_FIELDS, PORT_FRONT, LabelBytes, OWNER;
    FreeJoin(a, b, ESP32);
    FreeJoin(a + b, c, ESP32);
    FreeJoin(a + b + c, [0], ESP32);
    FreeJoin(OWNER, d, ESP32);
    FreeJoin(OWNER + d, e, ESP32);
    FreeJoin(OWNER + d + e, g, ESP32);
    FreeJoin(OWNER + d + e + g, [0xC0, 40], ESP32);
    FreeJoin(OWNER + d + e + g + [0xC0, 40], SRV_FIELDS, ESP32);
    FreeJoin(OWNER + d + e + g + [0xC0, 40] + SRV_FIELDS, PORT_FRONT, ESP32);
  }

  /** The bytes up to the domain in the owner, and all the bytes behind them. */
  lemma DomainAndRest(inst: bytes, rest: bytes)
    requires IsLabel(HTTP) && IsLabel(TCP) && IsLabel(LOCAL)
    ensures OWNER + rest == (LabelBytes(HTTP) + LabelBytes(TCP)) + (LabelBytes(LOCAL) + [0] + rest)
    ensures Free(LabelBytes(HTTP) + LabelBytes(TCP), LOCAL) && |LabelBytes(HTTP) + LabelBytes(TCP)| == 11
  {
    OwnerPieces();
    var (a, b, c) := (LabelBytes(HTTP), LabelBytes(TCP), LabelBytes(LOCAL));
    hide OWNER, HTTP, TCP, LOCAL, LabelBytes, Free;
    assert a + b + c + [0] + rest == (a + b) + (c + [0] + rest);
  }

  lemma OwnerInFront(p: bytes, rest: bytes)
    requires Image(p, OWNER + rest)
    ensures Laid(p, 23, [LOCAL], 29) && p[29] == 0 && Absent(p, 0, 23, LOCAL)
  {
    Labels();
    DomainAndRest(WEB, rest);
    assert |LOCAL| == 5;
    hide Image, OWNER, LabelBytes, HTTP, TCP, Free, Laid, Absent;
    OwnerInPlace(p, rest);
    ImageAbsent(p, LabelBytes(HTTP) + LabelBytes(TCP), LabelBytes(LOCAL) + [0] + rest, LOCAL);
  }

  lemma HostAbsent(p: bytes, inst: bytes)
    requires IsInstance(inst) && IsLabel(inst) && Image(p, LocationImage(inst))
    ensures Absent(p, 0, 60 + |inst|, ESP32) && p[60 + |inst|] == 5
    ensures Laid(p, 23, [LOCAL], 29) && p[29] == 0 && Absent(p, 0, 23, LOCAL)
  {
    FrontAndPort(inst);
    FreeOfHost(inst);
    var rest := PTR_FIELDS + [0, |inst| + 3] + (LabelBytes(inst) + [0xC0, 12]) + [0xC0, 40] + SRV_FIELDS + PORT;
    LocationBehindOwner(inst);
    assert |ESP32| == 5 && |inst| <= 4;
    hide LocationImage, LocationFront, Image, Free, Laid, Absent, OWNER, LabelBytes, PTR_FIELDS, SRV_FIELDS, PORT;
    AtByte(p, HEAD_LEN, LocationImage(inst), 48 + |inst|) by { ImageAt(p, LocationImage(inst)); }
    ImageAbsent(p, LocationFront(inst), [5], ESP32);
    OwnerInFront(p, rest);
  }

  lemma LocationBehindOwner(inst: bytes)
    requires IsLabel(inst) && IsInstance(inst)
    ensures LocationImage(inst) == OWNER +
              (PTR_FIELDS + [0, |inst| + 3] + (LabelBytes(inst) + [0xC0, 12]) + [0xC0, 40] + SRV_FIELDS + PORT)
  {
    hide OWNER, PTR_FIELDS, SRV_FIELDS, PORT, LabelBytes;
  }

  /** Nothing in front of it looks like the host, which is written out, with a pointer to the domain. */
  lemma HostWritten(p: bytes)
    requires IsLabel(WEB) && Image(p, LocationImage(WEB)) && p[64] != ESP32[0]
    ensures AreLabels([ESP32, LOCAL])
    ensures var w := AppendFqdn(p, 64, [ESP32, LOCAL]); w.index == 72 && At(w.packet, 65, ESP32 + [0xC0, 23])
  {
    Labels();
    HostAbsent(p, WEB);
    assert [ESP32, LOCAL][1..] == [LOCAL];
    OtherStart(p, 63, ESP32);
    hide Matches, Search, Put, Image, LocationImage, Laid;
    WrittenOut(p, 64, [ESP32, LOCAL]);
    var q := Put(p, 64, LabelBytes(ESP32));
    DomainFound(p, q);
    var r := Put(q, 70, [0xC0, 23]);
    assert q[64..70] == LabelBytes(ESP32);
    AtPart(q, 64, LabelBytes(ESP32), 1, 6);
    AtKept(q, r, 65, ESP32, 70);
    AtJoin(r, 65, ESP32, [0xC0, 23]);
  }

  lemma DomainFound(p: bytes, q: bytes)
    requires |p| == |q| == MEMORY && p[..64] == q[..64] && IsLabel(LOCAL)
    requires Laid(p, 23, [LOCAL], 29) && p[29] == 0 && Absent(p, 0, 23, LOCAL)
    ensures AppendFqdn(q, 70, [LOCAL]) == Written(Put(q, 70, [0xC0, 23]), 72, 2)
  {
    assert PointerTo(23) == [0xC0, 23];
    AbsentKept(p, q);
    PrefixOfPrefix(p, q, q, 29, 64);
    hide Laid, Matches, Put, Absent, LOCAL;
    LaidKept(p, q, 23, [LOCAL], 29);
    DomainMatches(q, 23);
    PointedTo(q, 70, 23, [LOCAL]);
  }

  lemma AbsentKept(p: bytes, q: bytes)
    requires |p| == |q| == MEMORY && p[..64] == q[..64] && Absent(p, 0, 23, LOCAL)
    ensures Absent(q, 0, 23, LOCAL) && q[29] == p[29]
  {
    assert forall i :: 0 <= i < 64 ==> p[i] == p[..64][i] == q[..64][i] == q[i];
  }

  /** The port and what the first reply left behind it are taken for the host. */
  lemma HostFound(p: bytes)
    requires IsLabel(WEBS) && Image(p, LocationImage(WEBS)) && At(p, 65, ESP32 + [0xC0, 23])
    ensures AreLabels([ESP32, LOCAL]) && Search(p, 65, 0, [ESP32, LOCAL]) == Some(64)
    ensures AppendFqdn(p, 65, [ESP32, LOCAL]) == Written(Put(p, 65, [0xC0, 64]), 67, 2) && p[64] == 5
  {
    Labels();
    ServiceNames(WEBS);
    HostAbsent(p, WEBS);
    assert PointerTo(64) == [0xC0, 64] && PointerTo(23) == [0xC0, 23] && LabelBytes(ESP32) == [5] + ESP32;
    assert p[64..65] == [5];
    assert (ESP32 + [0xC0, 23])[0..5] == ESP32 && (ESP32 + [0xC0, 23])[5..7] == [0xC0, 23];
    AtPart(p, 65, ESP32 + [0xC0, 23], 0, 5);
    AtPart(p, 65, ESP32 + [0xC0, 23], 5, 7);
    AtJoin(p, 64, [5], ESP32);
    assert [ESP32] + [LOCAL] == [ESP32, LOCAL];
    hide Image, LocationImage, Laid, Matches, Absent;
    LabelThenPointer(p, 64, ESP32, 23, [LOCAL], 29);
    PointedTo(p, 65, 64, [ESP32, LOCAL]);
  }
}
