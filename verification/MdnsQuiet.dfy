/**
 * Packets in which the writer only ever finds plain names: their labels are ASCII letters, digits,
 * underscores and dashes, and no other byte of them can be taken for the length of such a label.
 */
module MdnsQuiet {
  import opened Bytes
  import opened MdnsName
  import opened MdnsMessage
  import opened MdnsLetters

  const DASH: byte := 0x2D

  /** A dash, a digit, or above the lengths of labels and below the marks of pointers. */
  predicate Letter(b: byte) {
    b == DASH || 0x30 <= b <= 0x39 || MAX_LABEL < b < 0x80
  }

  /** The lengths of the labels in play; no character of a label can be taken for one of them. */
  type Lengths = s: set<nat> | forall n :: n in s ==> 2 <= n <= MAX_LABEL && !Letter(n) witness {}

  const LONG: Lengths := set n: nat | 2 <= n < DASH
  const SHORT: Lengths := set n: nat | 2 <= n < HEAD_LEN

  predicate Ascii(ls: Lengths, s: bytes) {
    |s| in ls && forall i :: 0 <= i < |s| ==> Letter(s[i])
  }

  predicate AllAscii(ls: Lengths, ss: seq<bytes>) {
    forall i :: 0 <= i < |ss| ==> Ascii(ls, ss[i])
  }

  predicate NoSub(ss: seq<bytes>) {
    forall i :: 0 <= i < |ss| ==> !SameText(ss[i], SUB)
  }

  /** A byte that the writer can take for the length of a label in play. */
  predicate Candidate(ls: Lengths, p: bytes, loc: nat)
    requires loc < |p|
  {
    p[loc] in ls && loc + p[loc] < |p| && forall k :: loc < k <= loc + p[loc] ==> Letter(p[k])
  }

  predicate NoCandidates(ls: Lengths, p: bytes, lo: nat, hi: nat)
    requires hi <= |p|
  {
    forall loc :: lo <= loc < hi ==> !Candidate(ls, p, loc)
  }

  /** At `loc` begins a plain name of at most four labels, all of it between the header and `limit`. */
  predicate GoodAt(p: bytes, limit: nat, loc: nat)
    requires limit <= |p|
  {
    && loc >= HEAD_LEN && Decode(p, limit, loc, loc).Some?
    && var labels := Decode(p, limit, loc, loc).value.labels;
       |labels| <= 4 && NoSub(labels) && forall i :: 0 <= i < |labels| ==> |labels[i]| <= MAX_LABEL
  }

  predicate Good(ls: Lengths, p: bytes, lo: nat, hi: nat, limit: nat)
    requires hi <= |p| && limit <= |p|
  {
    forall loc :: lo <= loc < hi && Candidate(ls, p, loc) ==> GoodAt(p, limit, loc)
  }

  /** Everything written so far that can be taken for a label in play begins a plain name. */
  predicate Tidy(ls: Lengths, p: bytes, base: nat) {
    |p| == MEMORY && HEAD_LEN <= base <= MAX_PACKET_SIZE && Good(ls, p, 0, base, base)
  }

  /** A candidate in front of a byte that is no letter lies wholly in front of it. */
  lemma CandidateKept(ls: Lengths, p: bytes, r: bytes, index: nat, loc: nat)
    requires loc < index < |r| == |p| && p[..index] == r[..index] && !Letter(r[index]) && Candidate(ls, r, loc)
    ensures Candidate(ls, p, loc)
  {
    assert forall k :: 0 <= k < index ==> p[k] == p[..index][k] == r[..index][k] == r[k];
  }

  lemma GoodAtKept(p: bytes, limit: nat, r: bytes, limit': nat, loc: nat)
    requires HEAD_LEN <= limit <= |p| && limit <= limit' <= |r| && p[HEAD_LEN..limit] == r[HEAD_LEN..limit]
    requires GoodAt(p, limit, loc)
    ensures GoodAt(r, limit', loc)
  {
    hide Decode;
    DecodePrefix(p, limit, r, limit', loc, loc);
  }

  /** Appending behind a tidy packet, beginning with a byte that is no letter, leaves what is there good. */
  lemma GoodKept(ls: Lengths, p: bytes, r: bytes, index: nat, limit: nat)
    requires Tidy(ls, p, index) && |r| == MEMORY && p[..index] == r[..index] && !Letter(r[index])
    requires index <= limit <= MEMORY
    ensures Good(ls, r, 0, index, limit)
  {
    hide GoodAt, Candidate;
    SameSlice(p, r, 0, index, HEAD_LEN, index);
    forall loc | 0 <= loc < index && Candidate(ls, r, loc) ensures GoodAt(r, limit, loc) {
      CandidateKept(ls, p, r, index, loc);
      GoodAtKept(p, index, r, limit, loc);
    }
  }

  lemma GoodLift(ls: Lengths, r: bytes, lo: nat, hi: nat, limit: nat, limit': nat)
    requires hi <= |r| && HEAD_LEN <= limit <= limit' <= |r| && Good(ls, r, lo, hi, limit)
    ensures Good(ls, r, lo, hi, limit')
  {
    hide GoodAt, Candidate;
    forall loc | lo <= loc < hi && Candidate(ls, r, loc) ensures GoodAt(r, limit', loc) {
      GoodAtKept(r, limit, r, limit', loc);
    }
  }

  lemma GoodJoin(ls: Lengths, r: bytes, lo: nat, mid: nat, hi: nat, limit: nat)
    requires lo <= mid <= hi <= |r| && limit <= |r|
    requires Good(ls, r, lo, mid, limit) && (Good(ls, r, mid, hi, limit) || NoCandidates(ls, r, mid, hi))
    ensures Good(ls, r, lo, hi, limit)
  {
    hide GoodAt, Candidate;
  }

  // ---------------------------------------------------------------- what the writer finds

  lemma MatchIsCandidate(ls: Lengths, p: bytes, loc: nat, strings: seq<bytes>)
    requires |p| == MEMORY && loc < MAX_PACKET_SIZE && strings != [] && IsLabel(strings[0]) && Ascii(ls, strings[0])
    requires Matches(p, loc, strings)
    ensures Candidate(ls, p, loc)
  {
    hide Matches;
    MatchedLabel(p, loc, strings);
    var s := strings[0];
    forall k | loc < k <= loc + |s| ensures Letter(p[k]) {
      assert p[k] == p[loc + 1..loc + 1 + |s|][k - loc - 1] == s[k - loc - 1];
    }
  }

  lemma NoDotInside(ls: Lengths, s: bytes)
    requires Ascii(ls, s)
    ensures DOT !in s
  {
  }

  /** What is found below `base` in a tidy packet is a plain name. */
  lemma TidyPlain(ls: Lengths, p: bytes, base: nat, loc: nat, strings: seq<bytes>)
    requires Tidy(ls, p, base) && loc < base && loc < MAX_PACKET_SIZE
    requires strings != [] && IsLabel(strings[0]) && Ascii(ls, strings[0]) && Matches(p, loc, strings)
    ensures PlainAt(p, base, loc, |strings|)
  {
    MatchIsCandidate(ls, p, loc, strings);
    hide Candidate, SameText, Read;
    assert GoodAt(p, base, loc);
    var d := Decode(p, base, loc, loc).value;
    ReadIsDecode(p, base, MAX_PACKET_SIZE, loc, loc, Blank());
    SomeLabel(p, base, loc);
    FiledFromStart(d.labels);
    var r := FileAll(Blank(), d.labels);
    if DOT in r.texts[0] {
      NoDotInside(ls, strings[0]);
      NoDot(strings[0], r.texts[0]);
    }
  }

  lemma SomeLabel(p: bytes, limit: nat, loc: nat)
    requires limit <= |p| && loc < limit && 1 <= p[loc] <= MAX_LABEL && Decode(p, limit, loc, loc).Some?
    ensures Decode(p, limit, loc, loc).value.labels != []
  {
  }

  lemma TidyStep(ls: Lengths, p: bytes, base: nat, index: nat, s: bytes)
    requires Tidy(ls, p, base) && IsLabel(s) && Ascii(ls, s) && base <= index && index + |s| + 1 <= MEMORY
    requires base == index || !Letter(p[base])
    ensures var p1 := Put(p, index, LabelBytes(s)); Tidy(ls, p1, base) && !Letter(p1[base])
  {
    hide Good;
    var p1 := Put(p, index, LabelBytes(s));
    LabelInPlace(p, index, s, p1);
    assert p1[..base] == p1[..index][..base] == p[..index][..base] == p[..base];
    if base < index {
      assert p1[base] == p1[..index][base] == p[..index][base] == p[base];
    }
    GoodKept(ls, p, p1, base, base);
  }

  lemma {:induction false} TidyFindsPlain(ls: Lengths, p: bytes, base: nat, index: nat, strings: seq<bytes>)
    requires base <= index && Tidy(ls, p, base) && NameFits(p, index, strings) && AllAscii(ls, strings)
    requires base == index || !Letter(p[base])
    ensures FindsPlain(p, base, index, strings)
    decreases |strings|
  {
    hide Search, Matches, Put, Tidy, Ascii;
    if strings != [] {
      match Search(p, index, 0, strings)
      case Some(loc) =>
        if loc < base {
          TidyPlain(ls, p, base, loc, strings);
        }
      case None =>
        TidyStep(ls, p, base, index, strings[0]);
        TidyFindsPlain(ls, Put(p, index, LabelBytes(strings[0])), base, index + |strings[0]| + 1, strings[1..]);
    }
  }

  lemma NoCandidatesKept(ls: Lengths, p: bytes, r: bytes, lo: nat, hi: nat)
    requires lo <= hi < |r| == |p| && p[..hi] == r[..hi] && !Letter(r[hi]) && NoCandidates(ls, p, lo, hi)
    ensures NoCandidates(ls, r, lo, hi)
  {
    hide Candidate;
    forall loc | lo <= loc < hi ensures !Candidate(ls, r, loc) {
      if Candidate(ls, r, loc) {
        CandidateKept(ls, p, r, hi, loc);
      }
    }
  }

  lemma AsciiApart(ls: Lengths, ss: seq<bytes>)
    requires AllAscii(ls, ss)
    ensures Apart(ls, ss)
  {
    forall i | 0 <= i < |ss| ensures |ss[i]| in ls && NoLengths(ls, ss[i]) {
      assert Ascii(ls, ss[i]);
    }
  }

  /** A writer that does not point into the name does not point to quiet bytes in front of it either. */
  lemma {:induction false} QuietFindsBelow(ls: Lengths, p: bytes, base: nat, mid: nat, index: nat, strings: seq<bytes>)
    requires base <= mid <= index && NameFits(p, index, strings) && FindsBelow(p, mid, index, strings)
    requires NoCandidates(ls, p, base, mid) && AllAscii(ls, strings) && (mid == index || !Letter(p[mid]))
    ensures FindsBelow(p, base, index, strings)
    decreases |strings|
  {
    hide Search, Matches, Put, NoCandidates, Ascii, Letter;
    if strings != [] {
      match Search(p, index, 0, strings)
      case Some(loc) =>
        if loc >= base {
          QuietNotFound(ls, p, base, mid, loc, strings);
        }
      case None =>
        QuietStep(ls, p, base, mid, index, strings[0]);
        QuietFindsBelow(ls, Put(p, index, LabelBytes(strings[0])), base, mid, index + |strings[0]| + 1, strings[1..]);
    }
  }

  lemma QuietNotFound(ls: Lengths, p: bytes, base: nat, mid: nat, loc: nat, strings: seq<bytes>)
    requires |p| == MEMORY && base <= loc < mid <= MAX_PACKET_SIZE && NoCandidates(ls, p, base, mid)
    requires strings != [] && IsLabel(strings[0]) && AllAscii(ls, strings)
    ensures !Matches(p, loc, strings)
  {
    hide Matches, Candidate;
    assert Ascii(ls, strings[0]);
    if Matches(p, loc, strings) {
      MatchIsCandidate(ls, p, loc, strings);
    }
  }

  lemma QuietStep(ls: Lengths, p: bytes, base: nat, mid: nat, index: nat, s: bytes)
    requires base <= mid <= index && IsLabel(s) && Ascii(ls, s) && index + |s| + 1 <= |p|
    requires NoCandidates(ls, p, base, mid) && (mid == index || !Letter(p[mid]))
    ensures var p1 := Put(p, index, LabelBytes(s)); NoCandidates(ls, p1, base, mid) && !Letter(p1[mid])
  {
    var p1 := Put(p, index, LabelBytes(s));
    LabelInPlace(p, index, s, p1);
    assert p1[..mid] == p1[..index][..mid] == p[..index][..mid] == p[..mid];
    if mid < index {
      assert p1[mid] == p1[..index][mid] == p[..index][mid] == p[mid];
    }
    NoCandidatesKept(ls, p, p1, base, mid);
  }

  // ---------------------------------------------------------------- what the writer leaves

  /** Labels alike to labels without the subtype marker are plain. */
  lemma LabelsPlain(strings: seq<bytes>, labels: seq<bytes>)
    requires |strings| <= 4 && AreLabels(strings) && NoSub(strings) && SameTexts(strings, labels)
    ensures |labels| <= 4 && NoSub(labels) && forall i :: 0 <= i < |labels| ==> |labels[i]| <= MAX_LABEL
  {
    hide SameText;
    forall i | 0 <= i < |labels| ensures !SameText(labels[i], SUB) && |labels[i]| <= MAX_LABEL {
      SameTextFacts(strings[i], labels[i]);
      SameLength(strings[i], labels[i]);
    }
  }

  lemma SameLength(a: bytes, b: bytes)
    requires SameText(a, b)
    ensures |a| == |b|
  {
  }

  lemma WrittenGood(p: bytes, base: nat, index: nat, strings: seq<bytes>, r: bytes)
    requires |r| == MEMORY && HEAD_LEN <= base <= index && NameFits(p, index, strings)
    requires FindsPlain(p, base, index, strings) && FindsBelow(p, base, index, strings)
    requires |strings| <= 4 && NoSub(strings)
    requires var w := AppendFqdn(p, index, strings); Agree(r, w.packet, base, index, w.index)
    ensures GoodAt(r, AppendFqdn(p, index, strings).index, index)
  {
    hide AppendFqdn, FindsPlain, FindsBelow, Agree, NameFits, SameTexts, NoSub, Decode;
    FitsFacts(p, index, strings);
    var w := AppendFqdn(p, index, strings);
    AppendDecodes(p, base, index, index, strings, r);
    LabelsPlain(strings, Decode(r, w.index, index, index).value.labels);
  }

  lemma LabelInside(ls: Lengths, r: bytes, index: nat, s: bytes)
    requires IsLabel(s) && Ascii(ls, s) && index + |s| + 1 <= |r| && r[index..index + |s| + 1] == LabelBytes(s)
    ensures !Letter(r[index]) && NoCandidates(ls, r, index + 1, index + |s| + 1)
  {
    var b := r[index..index + |s| + 1];
    assert r[index] == b[0];
    assert r[index + 1..index + 1 + |s|] == b[1..] == s;
    NoLengthInside(ls, r, index + 1, s);
  }

  lemma PointerInside(ls: Lengths, r: bytes, index: nat, loc: nat)
    requires index + 2 < |r| && loc < MAX_PACKET_SIZE && r[index..index + 2] == PointerTo(loc)
    requires !Letter(r[index + 2]) || loc % 256 !in ls
    ensures !Letter(r[index]) && NoCandidates(ls, r, index, index + 2)
  {
    var b := r[index..index + 2];
    assert r[index] == b[0] && r[index + 1] == b[1];
  }

  /** The labels in play are short, and so is the packet up to `end`: no pointer in it looks like a length. */
  predicate Short(ls: Lengths, end: nat) {
    ls <= SHORT && end <= 256
  }

  /** In a name just written, whatever can be taken for a label begins a plain name. */
  lemma {:induction false} NameGood(ls: Lengths, p: bytes, base: nat, index: nat, strings: seq<bytes>, r: bytes)
    requires |r| == MEMORY && HEAD_LEN <= base <= index && NameFits(p, index, strings)
    requires FindsPlain(p, base, index, strings) && FindsBelow(p, base, index, strings)
    requires |strings| <= 4 && AllAscii(ls, strings) && NoSub(strings)
    requires var w := AppendFqdn(p, index, strings);
      Agree(r, w.packet, base, index, w.index) && (!Letter(r[w.index]) || Short(ls, w.index))
    ensures var w := AppendFqdn(p, index, strings);
      !Letter(r[index]) && Good(ls, r, index, w.index, w.index)
    decreases |strings|
  {
    hide Search, Put, FindsPlain, FindsBelow, NameFits, AppendFqdn, Agree, Ascii, SameText, GoodAt;
    FitsFacts(p, index, strings);
    if strings == [] {
      EndWritten(ls, p, base, index, r);
    } else if Search(p, index, 0, strings) == None {
      var next := index + |strings[0]| + 1;
      var w := AppendFqdn(p, index, strings);
      WrittenGood(p, base, index, strings, r);
      FindsRest(p, base, index, strings);
      LiteralStep(p, base, index, strings, r);
      NameGood(ls, Put(p, index, LabelBytes(strings[0])), base, next, strings[1..], r);
      LabelInside(ls, r, index, strings[0]);
      AppendEnds(p, index, strings);
      GoodJoin(ls, r, index, index + 1, next, w.index);
      GoodJoin(ls, r, index, next, w.index, w.index);
    } else {
      PointerWritten(ls, p, base, index, strings, r);
    }
  }

  lemma AppendEnds(p: bytes, index: nat, strings: seq<bytes>)
    requires NameFits(p, index, strings) && strings != [] && Search(p, index, 0, strings) == None
    ensures index + |strings[0]| + 1 <= AppendFqdn(p, index, strings).index
  {
    hide Search, Put;
  }

  lemma EndWritten(ls: Lengths, p: bytes, base: nat, index: nat, r: bytes)
    requires |p| == |r| == MEMORY && HEAD_LEN <= base <= index < MAX_PACKET_SIZE
    requires var w := AppendFqdn(p, index, []); Agree(r, w.packet, base, index, w.index)
    ensures var w := AppendFqdn(p, index, []);
      w.index == index + 1 && r[index] == 0 && Good(ls, r, index, w.index, w.index)
  {
    assert r[index] == r[index..index + 1][0] == Put(p, index, [0])[index..index + 1][0];
  }

  lemma PointerWritten(ls: Lengths, p: bytes, base: nat, index: nat, strings: seq<bytes>, r: bytes)
    requires |r| == MEMORY && HEAD_LEN <= base <= index && NameFits(p, index, strings)
    requires strings != [] && Search(p, index, 0, strings).Some?
    requires FindsPlain(p, base, index, strings) && FindsBelow(p, base, index, strings)
    requires var w := AppendFqdn(p, index, strings);
      Agree(r, w.packet, base, index, w.index) && (!Letter(r[w.index]) || Short(ls, w.index))
    ensures var w := AppendFqdn(p, index, strings); !Letter(r[index]) && Good(ls, r, index, w.index, w.index)
  {
    hide Search, Matches;
    var loc := Search(p, index, 0, strings).value;
    PointerInside(ls, r, index, loc);
  }

  // ---------------------------------------------------------------- nothing is written further on

  lemma TailChain(p: bytes, q: bytes, r: bytes, i: nat, j: nat)
    requires |p| == |q| == |r| && i <= j <= |p| && q[i..] == p[i..] && r[j..] == q[j..]
    ensures r[j..] == p[j..]
  {
    assert q[j..] == q[i..][j - i..] && p[j..] == p[i..][j - i..];
  }

  lemma {:induction false} NameTail(p: bytes, index: nat, strings: seq<bytes>)
    requires |p| == MEMORY && index <= MAX_PACKET_SIZE && AreLabels(strings)
    ensures var w := AppendFqdn(p, index, strings); w.packet[w.index..] == p[w.index..]
    decreases |strings|
  {
    hide Search;
    if strings != [] && Search(p, index, 0, strings) == None && index + |strings[0]| + 1 < MAX_PACKET_SIZE {
      var (p1, next) := (Put(p, index, LabelBytes(strings[0])), index + |strings[0]| + 1);
      NameTail(p1, next, strings[1..]);
      var w := AppendFqdn(p1, next, strings[1..]);
      TailChain(p, p1, w.packet, next, w.index);
    }
  }

  lemma CleanTail(p: bytes, index: nat, r: bytes, end: nat)
    requires Clean(p, index) && index <= end <= |p| == |r| && r[end..] == p[end..]
    ensures Clean(r, end)
  {
    forall i | end <= i < |r| ensures r[i] == 0 {
      assert r[i] == r[end..][i - end] == p[end..][i - end] == p[i];
    }
  }

  // ---------------------------------------------------------------- records

  /** Bytes in which nothing can be taken for a label, if a byte that is no letter follows them. */
  predicate QuietBytes(ls: Lengths, b: bytes) {
    forall i :: 0 <= i < |b| && b[i] in ls && i + b[i] < |b| ==> exists k :: i < k <= i + b[i] && !Letter(b[k])
  }

  /** Bytes in which nothing can be taken for a label, whatever follows them. */
  predicate Tight(ls: Lengths, b: bytes) {
    forall i :: 0 <= i < |b| && b[i] in ls ==> exists k :: i < k < |b| && k <= i + b[i] && !Letter(b[k])
  }

  lemma QuietSegment(ls: Lengths, p: bytes, lo: nat, hi: nat, b: bytes)
    requires lo <= hi < |p| && p[lo..hi] == b && QuietBytes(ls, b) && !Letter(p[hi])
    ensures NoCandidates(ls, p, lo, hi)
  {
    forall loc | lo <= loc < hi ensures !Candidate(ls, p, loc) {
      var i := loc - lo;
      assert p[loc] == b[i];
      if p[loc] in ls && loc + p[loc] < hi {
        var k :| i < k <= i + b[i] && !Letter(b[k]);
        assert p[lo + k] == b[k];
      }
    }
  }

  lemma TightSegment(ls: Lengths, p: bytes, lo: nat, hi: nat, b: bytes)
    requires lo <= hi <= |p| && p[lo..hi] == b && Tight(ls, b)
    ensures NoCandidates(ls, p, lo, hi)
  {
    forall loc | lo <= loc < hi ensures !Candidate(ls, p, loc) {
      var i := loc - lo;
      assert p[loc] == b[i];
      if p[loc] in ls {
        var k :| i < k < |b| && k <= i + b[i] && !Letter(b[k]);
        assert p[lo + k] == b[k];
      }
    }
  }

  predicate NiceName(ls: Lengths, ss: seq<bytes>) {
    1 <= |ss| <= 4 && AreLabels(ss) && AllAscii(ls, ss) && Different(ss) && NoSub(ss)
  }

  /** What stands between the data length and the name in the data, or all the text. */
  function Lead(r: Record): bytes
    requires RecordOk(r)
  {
    match r.body
    case NameBody(prefix, _) => prefix
    case TxtBody(items) => TxtData(items)
  }

  /** Priority and weight of zero, and a port whose bytes do not look like the length of a label. */
  predicate QuietPrefix(ls: Lengths, b: bytes) {
    b != [] ==>
      |b| == 6 && b[..4] == [0, 0, 0, 0] && b[5] !in ls && (b[4] in ls ==> !Letter(b[5]))
  }

  predicate QuietRecord(ls: Lengths, r: Record) {
    && RecordOk(r) && NiceName(ls, r.owner) && r.ttl in {0, SRV_TTL, PTR_TTL}
    && match r.body
       case NameBody(prefix, name) => NiceName(ls, name) && QuietPrefix(ls, prefix)
       case TxtBody(items) => |TxtData(items)| < 0x1_0000 && Tight(ls, U16(|TxtData(items)|) + TxtData(items))
  }

  lemma FixedQuiet(ls: Lengths, r: Record)
    requires RecordOk(r) && r.ttl in {0, SRV_TTL, PTR_TTL}
    ensures QuietBytes(ls, FixedFields(r)[..8]) && !Letter(FixedFields(r)[0])
  {
    var b := FixedFields(r)[..8];
    assert b == [0, r.kind, ClassOf(r.flush) / 256, 1, 0, 0, r.ttl / 256, r.ttl % 256];
  }

  /** The length field and what stands in front of the name, for any length the field can hold here. */
  lemma LeadQuiet(ls: Lengths, r: Record, count: nat)
    requires QuietRecord(ls, r) && r.body.NameBody? && count < 262
    ensures QuietBytes(ls, U16(count) + Lead(r)) && (count == 0 ==> Tight(ls, U16(count) + Lead(r)))
  {
    var prefix := r.body.prefix;
    var b := U16(count) + prefix;
    if prefix != [] {
      assert forall i :: 0 <= i < 4 ==> prefix[i] == prefix[..4][i] == 0;
    }
    forall i | 0 <= i < |b| && b[i] in ls && (i + b[i] < |b| || count == 0)
      ensures exists k :: i < k < |b| && k <= i + b[i] && !Letter(b[k])
    {
      assert !Letter(b[i + 1]);
    }
  }

  lemma HeadTail(p: bytes, index: nat, r: Record)
    requires HeadFits(p, index, r)
    ensures var h := AppendHead(p, index, r); h.packet[h.index..] == p[h.index..]
  {
    hide NameFits, AppendFqdn, FixedFields;
    FitsFacts(p, index, r.owner);
    var w1 := AppendFqdn(p, index, r.owner);
    NameTail(p, index, r.owner);
    TailChain(p, w1.packet, AppendHead(p, index, r).packet, w1.index, w1.index + FIXED_LEN);
  }

  /** Behind a record, and behind what stands in front of the name in it, the buffer stays clean. */
  lemma RecordTail(p: bytes, index: nat, r: Record)
    requires RecordFits(p, index, r)
    ensures var (h, w) := (AppendHead(p, index, r), AppendRecord(p, index, r));
      && w.packet[w.index..] == p[w.index..]
      && (r.body.NameBody? ==> var b := BeforeName(h, r); b.packet[b.index..] == p[b.index..])
  {
    assert |p| == MEMORY;
    hide HeadFits, AppendHead, NameFits, AppendFqdn, TxtData;
    HeadTail(p, index, r);
    var (h, w) := (AppendHead(p, index, r), AppendRecord(p, index, r));
    var d := AppendBody(h, r);
    if r.body.NameBody? {
      var b := BeforeName(h, r);
      TailChain(p, h.packet, b.packet, h.index, b.index);
      FitsFacts(b.packet, b.index, r.body.name);
      NameTail(b.packet, b.index, r.body.name);
      TailChain(p, b.packet, d.packet, b.index, d.index);
    } else {
      TailChain(p, h.packet, d.packet, h.index, d.index);
    }
    PatchTail(d, w, h.index);
  }

  lemma PatchTail(d: Written, w: Written, at: nat)
    requires |d.packet| == |w.packet| && at <= d.index == w.index <= |d.packet| && w.packet[at..] == d.packet[at..]
    ensures w.packet[w.index..] == d.packet[w.index..]
  {
    assert w.packet[w.index..] == w.packet[at..][w.index - at..];
    assert d.packet[w.index..] == d.packet[at..][w.index - at..];
  }

  /** The owner name of a quiet record finds only plain names, and what is written of it is good. */
  lemma HeadGood(ls: Lengths, p: bytes, index: nat, r: Record, q: bytes)
    requires Tidy(ls, p, index) && HeadFits(p, index, r) && QuietRecord(ls, r) && |q| == MEMORY
    requires var end := AppendHead(p, index, r).index - 2;
      q[..end] == AppendHead(p, index, r).packet[..end] && !Letter(q[end])
    ensures NameFits(p, index, r.owner)
      && FindsPlain(p, index, index, r.owner) && FindsBelow(p, index, index, r.owner)
    ensures var end := AppendHead(p, index, r).index - 2;
      index < end && !Letter(q[index]) && Good(ls, q, 0, end, end)
  {
    HeadParts(p, index, r);
    NameSound(ls, p, index, index, r.owner);
    FixedQuiet(ls, r);
    hide AppendHead, AppendFqdn, NameFits, FindsPlain, FindsBelow, FixedFields, QuietBytes, Good, HeadFits;
    var (w1, h) := (AppendFqdn(p, index, r.owner), AppendHead(p, index, r));
    var end := h.index - 2;
    SameSlice(q, h.packet, 0, end, 0, w1.index);
    SameSlice(q, h.packet, 0, end, w1.index, end);
    assert q[w1.index..end] == FixedFields(r)[..8] by {
      SliceOfSlice(h.packet, w1.index, h.index, 0, 8);
    }
    assert q[w1.index] == q[w1.index..end][0];
    SameSlice(q, w1.packet, 0, w1.index, HEAD_LEN, index);
    SameSlice(q, w1.packet, 0, w1.index, index, w1.index);
    NameGood(ls, p, index, index, r.owner, q);
    PrefixOfPrefix(q, w1.packet, p, index, w1.index);
    GoodKept(ls, p, q, index, end);
    GoodLift(ls, q, index, w1.index, w1.index, end);
    GoodJoin(ls, q, 0, index, w1.index, end);
    QuietSegment(ls, q, w1.index, end, FixedFields(r)[..8]);
    GoodJoin(ls, q, 0, w1.index, end, end);
  }

  lemma NameSound(ls: Lengths, p: bytes, base: nat, index: nat, name: seq<bytes>)
    requires NameFits(p, index, name) && NiceName(ls, name)
    requires Tidy(ls, p, base) && base <= index && NoCandidates(ls, p, base, index)
    requires base == index || !Letter(p[base])
    ensures FindsPlain(p, base, index, name) && FindsBelow(p, base, index, name)
  {
    hide Tidy, FindsPlain, FindsBelow, NoCandidates, Ascii, SameText;
    FitsFacts(p, index, name);
    TidyFindsPlain(ls, p, base, index, name);
    assert Laid(p, index, [], index) && [] + name == name;
    AsciiApart(ls, name);
    DifferentFindBelow(ls, p, index, [], index, name);
    QuietFindsBelow(ls, p, base, index, index, name);
  }

  lemma TwoSlices(p: bytes, i: nat, j: nat, k: nat, a: bytes, b: bytes)
    requires i <= j <= k <= |p| && p[i..j] == a && p[j..k] == b
    ensures p[i..k] == a + b
  {
    assert p[i..k] == p[i..j] + p[j..k];
  }

  /** The packet just before the name in the data is written. */
  lemma BeforeParts(p: bytes, index: nat, r: Record)
    requires RecordFits(p, index, r) && r.body.NameBody?
    ensures var (h, b) := (AppendHead(p, index, r), BeforeName(AppendHead(p, index, r), r));
      var end := h.index - 2;
      && b.index == h.index + |r.body.prefix| && NameFits(b.packet, b.index, r.body.name)
      && |b.packet| == MEMORY && b.packet[..end] == h.packet[..end]
      && b.packet[end..b.index] == U16(0) + Lead(r)
  {
    assert |p| == MEMORY;
    HeadParts(p, index, r);
    hide AppendHead, AppendFqdn, NameFits, HeadFits, RecordOk;
    var h := AppendHead(p, index, r);
    var b := BeforeName(h, r);
    var end := h.index - 2;
    PrefixOfPrefix(b.packet, h.packet, h.packet, end, h.index);
    assert b.packet[end..h.index] == [0, 0] by {
      var f := FixedFields(r);
      SliceOfSlice(h.packet, h.index - FIXED_LEN, h.index, 8, 10);
      assert f[8..10] == [0, 0];
      SameSlice(b.packet, h.packet, 0, h.index, end, h.index);
    }
    TwoSlices(b.packet, end, h.index, b.index, [0, 0], r.body.prefix);
  }

  /** Just before the name in the data is written, the packet is tidy up to the data length. */
  lemma BeforeTidy(ls: Lengths, p: bytes, index: nat, r: Record)
    requires Tidy(ls, p, index) && RecordFits(p, index, r) && QuietRecord(ls, r) && r.body.NameBody?
    ensures FindsPlain(p, index, index, r.owner) && FindsBelow(p, index, index, r.owner)
    ensures var h := AppendHead(p, index, r);
      var b := BeforeName(h, r);
      && h.index - 2 <= b.index && NameFits(b.packet, b.index, r.body.name) && b.packet[h.index - 2] == 0
      && Tidy(ls, b.packet, h.index - 2) && NoCandidates(ls, b.packet, h.index - 2, b.index)
  {
    BeforeParts(p, index, r);
    LeadQuiet(ls, r, 0);
    var h := AppendHead(p, index, r);
    var b := BeforeName(h, r);
    var end := h.index - 2;
    assert b.packet[end] == b.packet[end..b.index][0] == 0;
    hide AppendHead, AppendFqdn, NameFits, FindsPlain, FindsBelow, Tight, QuietBytes, Good, BodyFits, Ascii, SameText;
    hide QuietPrefix, BeforeName, U16, NoCandidates;
    HeadGood(ls, p, index, r, b.packet);
    TightSegment(ls, b.packet, end, b.index, U16(0) + Lead(r));
  }

  lemma NameRecordSound(ls: Lengths, p: bytes, index: nat, r: Record)
    requires Tidy(ls, p, index) && RecordFits(p, index, r) && QuietRecord(ls, r) && r.body.NameBody?
    ensures RecordSound(p, index, r)
  {
    hide AppendHead, NameFits, FindsPlain, FindsBelow, Tidy, NoCandidates, QuietPrefix, BeforeName, NiceName;
    BeforeTidy(ls, p, index, r);
    var h := AppendHead(p, index, r);
    var b := BeforeName(h, r);
    NameSound(ls, b.packet, h.index - 2, b.index, r.body.name);
  }

  lemma LowFirst(count: nat)
    requires count < 0x2D00
    ensures !Letter(U16(count)[0])
  {
  }

  /** Behind the part of `h` up to `end`, the bytes up to `last` are `data`. */
  predicate Follows(w: bytes, h: bytes, end: nat, last: nat, data: bytes) {
    && end <= last <= |w| == |h| && w[..end] == h[..end] && w[end..last] == data
    && (data != [] ==> w[end] == data[0])
  }

  /** From its data length on, the record just appended is good. */
  predicate BodyGood(ls: Lengths, h: Written, w: Written) {
    && 2 <= h.index && h.index - 2 <= w.index < |w.packet| == |h.packet|
    && w.packet[..h.index - 2] == h.packet[..h.index - 2]
    && !Letter(w.packet[h.index - 2]) && Good(ls, w.packet, h.index - 2, w.index, w.index)
  }

  /** The patched length and the bytes in front of the name stand behind the rest of the head. */
  predicate LeadPlaced(h: Written, w: Written, prefix: bytes, count: nat) {
    2 <= h.index && count < 262 && Follows(w.packet, h.packet, h.index - 2, h.index + |prefix|, U16(count) + prefix)
  }

  lemma LeadParts(p: bytes, index: nat, r: Record)
    requires HEAD_LEN <= index && RecordFits(p, index, r) && r.body.NameBody?
    ensures var (h, w) := (AppendHead(p, index, r), AppendRecord(p, index, r));
      LeadPlaced(h, w, r.body.prefix, AppendBody(h, r).count)
  {
    assert |p| == MEMORY;
    hide AppendHead, AppendRecord, AppendFqdn, HeadFits, Put, U16, NameFits, RecordOk, LeadPlaced;
    RecordParts(p, index, r);
    BeforeParts(p, index, r);
    var (h, w) := (AppendHead(p, index, r), AppendRecord(p, index, r));
    var (b, d) := (BeforeName(h, r), AppendBody(h, r));
    BodyParts(h, r);
    LeadFollows(h, b, d, w, r.body.prefix);
  }

  lemma LeadFollows(h: Written, b: Written, d: Written, w: Written, prefix: bytes)
    requires 2 <= h.index && h.index + |prefix| <= w.index <= |h.packet| == |b.packet| == |d.packet| == |w.packet|
    requires b.index == h.index + |prefix| && d.count < 262
    requires w.packet[..h.index - 2] == d.packet[..h.index - 2] && b.packet[..h.index - 2] == h.packet[..h.index - 2]
    requires w.packet[h.index - 2..h.index] == U16(d.count % 0x1_0000)
    requires w.packet[h.index..w.index] == d.packet[h.index..w.index] && d.packet[..b.index] == b.packet[..b.index]
    requires b.packet[h.index - 2..b.index] == U16(0) + prefix
    ensures LeadPlaced(h, w, prefix, d.count)
  {
    LeadInPlace(w.packet, d.packet, b.packet, h.packet, h.index, b.index, w.index, U16(d.count), U16(0), prefix);
  }

  /** The name in a record stands as it was written, behind what was there before the data length. */
  lemma NameParts(p: bytes, index: nat, r: Record)
    requires HEAD_LEN <= index && RecordFits(p, index, r) && r.body.NameBody?
    ensures var (h, w) := (AppendHead(p, index, r), AppendRecord(p, index, r));
      var b := BeforeName(h, r);
      && NameFits(b.packet, b.index, r.body.name)
      && var v := AppendFqdn(b.packet, b.index, r.body.name);
         w.index == v.index && Agree(w.packet, v.packet, h.index - 2, b.index, w.index)
  {
    assert |p| == MEMORY;
    hide AppendHead, AppendRecord, AppendFqdn, HeadFits, Put, U16, NameFits, RecordOk;
    RecordParts(p, index, r);
    var (h, w) := (AppendHead(p, index, r), AppendRecord(p, index, r));
    var b := BeforeName(h, r);
    BodyParts(h, r);
    var v := AppendFqdn(b.packet, b.index, r.body.name);
    NameAgrees(w.packet, v.packet, h.index, b.index, w.index);
  }

  lemma BodyParts(h: Written, r: Record)
    requires BodyFits(h, r) && r.body.NameBody?
    ensures var (b, d) := (BeforeName(h, r), AppendBody(h, r));
      && b.index == h.index + |r.body.prefix| && |b.packet| == MEMORY && AreLabels(r.body.name) && |U16(d.count)| == 2
      && d.count < 262
      && var v := AppendFqdn(b.packet, b.index, r.body.name);
         d.packet == v.packet && d.index == v.index >= b.index && d.packet[..b.index] == b.packet[..b.index]
  {
    hide NameFits, AppendFqdn;
    FitsFacts(BeforeName(h, r).packet, BeforeName(h, r).index, r.body.name);
  }

  /** The buffer is clean behind, or labels and packet are short. */
  predicate Fresh(ls: Lengths, p: bytes, index: nat, end: nat) {
    Clean(p, index) || Short(ls, end)
  }

  /** Behind a record the buffer is as clean as it was. */
  lemma StaysFresh(ls: Lengths, p: bytes, index: nat, r: Record, end: nat)
    requires RecordFits(p, index, r) && Fresh(ls, p, index, end)
    ensures var w := AppendRecord(p, index, r); Fresh(ls, w.packet, w.index, end)
  {
    assert |p| == MEMORY;
    hide AppendRecord, RecordFits, Short;
    if Clean(p, index) {
      RecordTail(p, index, r);
      CleanTail(p, index, AppendRecord(p, index, r).packet, AppendRecord(p, index, r).index);
    }
  }

  /** Between the head and the name in the data nothing can be taken for a label. */
  lemma LeadGood(ls: Lengths, h: Written, w: Written, r: Record, count: nat)
    requires QuietRecord(ls, r) && r.body.NameBody? && LeadPlaced(h, w, r.body.prefix, count)
    requires h.index + |r.body.prefix| < |w.packet| && !Letter(w.packet[h.index + |r.body.prefix|])
    ensures var end := h.index - 2;
      !Letter(w.packet[end]) && NoCandidates(ls, w.packet, end, h.index + |r.body.prefix|)
  {
    LeadQuiet(ls, r, count);
    LowFirst(count);
    hide QuietBytes, U16, QuietRecord, NoCandidates;
    QuietSegment(ls, w.packet, h.index - 2, h.index + |r.body.prefix|, U16(count) + r.body.prefix);
  }

  /** A name just written at the end of a packet is good. */
  lemma LastNameGood(ls: Lengths, b: Written, base: nat, name: seq<bytes>, w: Written)
    requires HEAD_LEN <= base <= b.index && NameFits(b.packet, b.index, name) && NiceName(ls, name)
    requires FindsPlain(b.packet, base, b.index, name) && FindsBelow(b.packet, base, b.index, name)
    requires var v := AppendFqdn(b.packet, b.index, name);
      && |w.packet| == MEMORY && w.index == v.index && Agree(w.packet, v.packet, base, b.index, w.index)
      && (!Letter(w.packet[w.index]) || Short(ls, w.index))
    ensures b.index < w.index < MEMORY && !Letter(w.packet[b.index]) && Good(ls, w.packet, b.index, w.index, w.index)
  {
    hide AppendFqdn, NameFits, FindsPlain, FindsBelow, Good, Ascii, SameText, Agree, Short, Different;
    AppendFits(b.packet, b.index, name);
    NameGood(ls, b.packet, base, b.index, name, w.packet);
  }

  /** The name in the data of a record, once written, is good. */
  lemma NamePartGood(ls: Lengths, p: bytes, index: nat, r: Record)
    requires Tidy(ls, p, index) && RecordFits(p, index, r) && QuietRecord(ls, r) && r.body.NameBody?
    requires Fresh(ls, p, index, AppendRecord(p, index, r).index)
    ensures var (h, w) := (AppendHead(p, index, r), AppendRecord(p, index, r));
      var at := h.index + |r.body.prefix|;
      at < w.index < |w.packet| && !Letter(w.packet[at]) && Good(ls, w.packet, at, w.index, w.index)
  {
    hide NameFits, FindsPlain, FindsBelow, Agree, Good, Ascii, SameText, AppendFqdn, QuietPrefix, Short;
    NameParts(p, index, r);
    NameRecordSound(ls, p, index, r);
    var (h, w) := (AppendHead(p, index, r), AppendRecord(p, index, r));
    StaysFresh(ls, p, index, r, w.index);
    hide AppendHead, AppendRecord;
    LastNameGood(ls, BeforeName(h, r), h.index - 2, r.body.name, w);
  }

  /** A record whose data is a name, from its data length on. */
  lemma NameBodyGood(ls: Lengths, p: bytes, index: nat, r: Record)
    requires Tidy(ls, p, index) && RecordFits(p, index, r) && QuietRecord(ls, r) && r.body.NameBody?
    requires Fresh(ls, p, index, AppendRecord(p, index, r).index)
    ensures BodyGood(ls, AppendHead(p, index, r), AppendRecord(p, index, r))
  {
    LeadParts(p, index, r);
    NamePartGood(ls, p, index, r);
    var (h, w) := (AppendHead(p, index, r), AppendRecord(p, index, r));
    var at := h.index + |r.body.prefix|;
    hide AppendHead, AppendRecord, AppendBody, Good, NoCandidates, QuietRecord, RecordFits, Fresh;
    LeadGood(ls, h, w, r, AppendBody(h, r).count);
    NoneIsGood(ls, w.packet, h.index - 2, at, w.index);
    GoodJoin(ls, w.packet, h.index - 2, at, w.index, w.index);
  }

  lemma NoneIsGood(ls: Lengths, p: bytes, lo: nat, hi: nat, limit: nat)
    requires hi <= |p| && limit <= |p| && NoCandidates(ls, p, lo, hi)
    ensures Good(ls, p, lo, hi, limit)
  {
  }

  /** The patched length and the bytes in front of the name stand where they were put. */
  lemma LeadInPlace(w: bytes, d: bytes, b: bytes, h: bytes, head: nat, name: nat, end: nat,
                    length: bytes, zero: bytes, prefix: bytes)
    requires |w| == |d| == |b| == |h| && 2 <= head <= name <= end <= |w| && |length| == |zero| == 2
    requires name - head == |prefix| && w[..head - 2] == d[..head - 2] && b[..head - 2] == h[..head - 2]
    requires w[head - 2..head] == length && w[head..end] == d[head..end] && d[..name] == b[..name]
    requires b[head - 2..name] == zero + prefix
    ensures Follows(w, h, head - 2, name, length + prefix)
  {
    SameSlice(w, d, head, end, head, name);
    SameSlice(d, b, 0, name, head, name);
    PrefixOfPrefix(d, b, h, head - 2, name);
    SliceOfSlice(b, head - 2, name, 2, name - head + 2);
    assert (zero + prefix)[2..] == prefix;
    TwoSlices(w, head - 2, head, name, length, prefix);
    assert w[head - 2] == w[head - 2..head][0];
  }

  lemma NameAgrees(w: bytes, v: bytes, head: nat, name: nat, end: nat)
    requires |w| == |v| == MEMORY && HEAD_LEN <= head - 2 && head <= name <= end <= MEMORY
    requires w[..head - 2] == v[..head - 2] && w[head..end] == v[head..end]
    ensures Agree(w, v, head - 2, name, end)
  {
    SameSlice(w, v, 0, head - 2, HEAD_LEN, head - 2);
    SameSlice(w, v, head, end, name, end);
  }

  lemma TextCount(h: Written, r: Record)
    requires BodyFits(h, r) && r.body.TxtBody?
    ensures AppendBody(h, r).count == |TxtData(r.body.items)| <= MAX_PACKET_SIZE
    ensures |U16(AppendBody(h, r).count)| == 2
  {
  }

  lemma TextInPlace(w: bytes, d: bytes, h: bytes, head: nat, last: nat, length: bytes, text: bytes)
    requires |w| == |d| == |h| && |length| == 2 <= head <= last <= |w|
    requires w[..head - 2] == d[..head - 2] && d[..head] == h[..head]
    requires w[head - 2..head] == length && w[head..last] == text
    ensures Follows(w, h, head - 2, last, length + text)
  {
    PrefixOfPrefix(d, h, h, head - 2, head);
    TwoSlices(w, head - 2, head, last, length, text);
  }

  /** Where the parts of a record with text in it stand. */
  lemma TextParts(p: bytes, index: nat, r: Record)
    requires RecordFits(p, index, r) && r.body.TxtBody?
    ensures var (h, w, text) := (AppendHead(p, index, r), AppendRecord(p, index, r), TxtData(r.body.items));
      |text| < 0x1_0000 && Follows(w.packet, h.packet, h.index - 2, w.index, U16(|text|) + text)
  {
    hide AppendHead, AppendRecord, AppendFqdn, StringsFill, HeadFits, Put, U16;
    RecordParts(p, index, r);
    TxtBodyFills(p, index, r);
    var (h, w) := (AppendHead(p, index, r), AppendRecord(p, index, r));
    TextCount(h, r);
    var (d, text) := (AppendBody(h, r), TxtData(r.body.items));
    hide *;
    TextInPlace(w.packet, d.packet, h.packet, h.index, w.index, U16(|text|), text);
  }

  /** A record whose data is text, from its data length on. */
  lemma TextBodyGood(ls: Lengths, p: bytes, index: nat, r: Record)
    requires Tidy(ls, p, index) && RecordFits(p, index, r) && QuietRecord(ls, r) && r.body.TxtBody?
    ensures BodyGood(ls, AppendHead(p, index, r), AppendRecord(p, index, r))
  {
    TextParts(p, index, r);
    var (h, w) := (AppendHead(p, index, r), AppendRecord(p, index, r));
    var (end, text) := (h.index - 2, TxtData(r.body.items));
    TextCount(h, r);
    LowFirst(|text|);
    hide AppendHead, AppendRecord, TxtData, Tight, NoCandidates, Good, U16, Letter, RecordFits, RecordOk, Ascii;
    TightSegment(ls, w.packet, end, w.index, U16(|text|) + text);
    NoneIsGood(ls, w.packet, end, w.index, w.index);
  }

  lemma RecordBodyGood(ls: Lengths, p: bytes, index: nat, r: Record)
    requires Tidy(ls, p, index) && RecordFits(p, index, r) && QuietRecord(ls, r)
    requires Fresh(ls, p, index, AppendRecord(p, index, r).index)
    ensures RecordSound(p, index, r) && BodyGood(ls, AppendHead(p, index, r), AppendRecord(p, index, r))
  {
    assert |p| == MEMORY;
    if r.body.NameBody? {
      hide AppendHead, AppendRecord, FindsPlain, FindsBelow, Tidy, BodyGood, Fresh, NameFits;
      NameRecordSound(ls, p, index, r);
      NameBodyGood(ls, p, index, r);
    } else {
      hide AppendHead, AppendRecord, FindsPlain, FindsBelow, BodyGood, Fresh, NameFits;
      TextBodyGood(ls, p, index, r);
      NameSound(ls, p, index, index, r.owner);
    }
  }

  /** A quiet record finds only plain names, and leaves the packet tidy. */
  lemma RecordQuiet(ls: Lengths, p: bytes, index: nat, r: Record)
    requires Tidy(ls, p, index) && RecordFits(p, index, r) && QuietRecord(ls, r)
    requires Fresh(ls, p, index, AppendRecord(p, index, r).index)
    ensures RecordSound(p, index, r)
    ensures var w := AppendRecord(p, index, r); Tidy(ls, w.packet, w.index) && !Letter(w.packet[index])
  {
    RecordBodyGood(ls, p, index, r);
    var (h, w) := (AppendHead(p, index, r), AppendRecord(p, index, r));
    var end := h.index - 2;
    hide AppendHead, AppendRecord, Good, Fresh, NameFits, FindsPlain, FindsBelow, BodyFits;
    hide RecordSound, QuietRecord, RecordOk;
    HeadGood(ls, p, index, r, w.packet);
    GoodLift(ls, w.packet, 0, end, end, w.index);
    GoodJoin(ls, w.packet, 0, end, w.index, w.index);
  }
}
