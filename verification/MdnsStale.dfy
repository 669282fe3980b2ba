/**
 * What becomes of a name when the place that the writer points to is no plain name: the search reads on
 * past the written part, where the pointer itself and later bytes will stand.
 */
module MdnsStale {
  import opened Bytes
  import opened MdnsName
  import opened MdnsLetters

  /** How reading a name uses the byte at `index`, if at all; nothing behind that byte is looked at. */
  datatype Use = Nothing | Length | Content | Elsewhere

  /**
   * A name is read from `at` on, in a run that began at `start`.  The byte at `index` can be where a label
   * or the end of the name is expected, or in the text of a label.  Elsewhere is the second byte of a
   * pointer, or anything behind a label whose text ends before `index`.
   */
  function UseOf(p: bytes, index: nat, start: nat, at: nat): Use
    requires index <= |p|
    decreases start, if at < index then index - at else 0
  {
    if at > index then Elsewhere
    else if at == index then Length
    else if p[at] == 0 || MAX_LABEL < p[at] < NAME_REF then Nothing
    else if p[at] < NAME_REF then
      var next := at + 1 + p[at];
      if next <= index then UseOf(p, index, start, next)
      else if NoNul(p[at + 1..index]) then Content
      else Elsewhere
    else if at + 1 == index then Elsewhere
    else
      var address := Address(p[at], p[at + 1]);
      if address >= start then Nothing else UseOf(p, index, address, address)
  }

  lemma {:induction false} UseKept(p: bytes, q: bytes, index: nat, start: nat, at: nat)
    requires index <= |p| && index <= |q| && p[..index] == q[..index]
    ensures UseOf(p, index, start, at) == UseOf(q, index, start, at)
    decreases start, if at < index then index - at else 0
  {
    if at < index {
      assert p[at] == p[..index][at] == q[..index][at] == q[at];
      if p[at] == 0 || MAX_LABEL < p[at] < NAME_REF {
      } else if p[at] < NAME_REF {
        var next := at + 1 + p[at];
        if next <= index {
          UseKept(p, q, index, start, next);
        } else {
          assert p[at + 1..index] == p[..index][at + 1..] == q[..index][at + 1..] == q[at + 1..index];
        }
      } else if at + 1 < index {
        assert p[at + 1] == p[..index][at + 1] == q[..index][at + 1] == q[at + 1];
        var address := Address(p[at], p[at + 1]);
        if address < start {
          UseKept(p, q, index, address, address);
        }
      }
    }
  }

  /** At `index` stands a pointer to `loc`, all of it below `limit`. */
  predicate PointerAt(q: bytes, index: nat, loc: nat, limit: nat) {
    index + 2 <= limit < |q| && q[index] >= NAME_REF && Address(q[index], q[index + 1]) == loc
  }

  // ---------------------------------------------------------------- the pointer is read as a length

  /** A name in which the pointer to its own beginning is met cannot be read. */
  lemma {:induction false} MeetsPointer(q: bytes, index: nat, loc: nat, limit: nat, start: nat, at: nat, n: Name)
    requires PointerAt(q, index, loc, limit) && start <= loc && NameOk(n) && UseOf(q, index, start, at) == Length
    ensures Read(q, limit, start, at, n) == None
    decreases start, if at < index then index - at else 0
  {
    hide AddLabel, Text, Address, Read;
    ReadUnfold(q, limit, start, at, n);
    if at < index {
      if q[at] < NAME_REF {
        var next := at + 1 + q[at];
        MeetsPointer(q, index, loc, limit, start, next, AddLabel(Mark(n), Text(q[at + 1..next])));
      } else {
        var address := Address(q[at], q[at + 1]);
        MeetsPointer(q, index, loc, limit, address, address, Mark(n));
      }
    }
  }

  // ---------------------------------------------------------------- the pointer is read as text

  predicate HasHigh(s: bytes) {
    exists j :: 0 <= j < |s| && s[j] >= NAME_REF
  }

  /** A name that is not the one meant, whose first label has `first` bytes, and will not become it. */
  predicate Spoiled(n: Name, first: nat)
    requires NameOk(n)
  {
    n.invalid || n.sub || |n.texts[0]| > first || exists i :: 0 <= i < n.parts && HasHigh(n.texts[i])
  }

  predicate FailsOrSpoils(r: Option<ReadResult>, first: nat) {
    r.Some? ==> NameOk(r.value.name) && Spoiled(r.value.name, first)
  }

  /** The first label, or more, has been read. */
  predicate Begun(n: Name) {
    NameOk(n) && n.parts >= 1 && |n.texts[0]| <= MAX_TEXT
  }

  lemma JoinedGrows(s: bytes, t: bytes)
    requires |s| <= MAX_TEXT
    ensures var r := Clip(Clip(s + [DOT]) + t);
      |s| <= |r| <= MAX_TEXT && r[..|s|] == s && (|s| < MAX_TEXT ==> |r| > |s|)
  {
    var c := Clip(s + [DOT]);
    assert c[..|s|] == s;
    var r := Clip(c + t);
    assert r[..|s|] == c[..|s|];
  }

  lemma BegunStays(n: Name, t: bytes)
    requires Begun(n)
    ensures var m := AddLabel(Mark(n), t); Begun(m) && |m.texts[0]| >= |n.texts[0]|
  {
    hide SameText;
    if JoinsHost(n, t) {
      JoinedGrows(n.texts[0], t);
    }
  }

  lemma SpoiledStays(n: Name, t: bytes, first: nat)
    requires Begun(n) && Spoiled(n, first)
    ensures Begun(AddLabel(Mark(n), t)) && Spoiled(AddLabel(Mark(n), t), first)
  {
    hide SameText;
    BegunStays(n, t);
    var m := AddLabel(Mark(n), t);
    if JoinsHost(n, t) && HasHigh(n.texts[0]) {
      JoinedGrows(n.texts[0], t);
      var j :| 0 <= j < |n.texts[0]| && n.texts[0][j] >= NAME_REF;
      assert m.texts[0][j] == m.texts[0][..|n.texts[0]|][j];
    }
    if i :| 0 <= i < n.parts && HasHigh(n.texts[i]) {
      assert HasHigh(m.texts[i]);
    }
  }

  lemma {:induction false} StaysSpoiled(q: bytes, limit: nat, start: nat, at: nat, n: Name, first: nat)
    requires limit < |q| && Begun(n) && Spoiled(n, first)
    ensures FailsOrSpoils(Read(q, limit, start, at, n), first)
    decreases start, if at < limit then limit - at else 0
  {
    hide AddLabel, Text, Address, Read, Spoiled, Begun;
    MarkStays(n, first);
    ReadUnfold(q, limit, start, at, n);
    if at < limit && 0 < q[at] < NAME_REF && q[at] <= MAX_LABEL && at + 1 + q[at] <= limit {
      var (next, t) := (at + 1 + q[at], Text(q[at + 1..at + 1 + q[at]]));
      SpoiledStays(n, t, first);
      StaysSpoiled(q, limit, start, next, AddLabel(Mark(n), t), first);
    } else if at < limit && q[at] >= NAME_REF && Address(q[at], q[at + 1]) < start {
      var address := Address(q[at], q[at + 1]);
      StaysSpoiled(q, limit, address, address, Mark(n), first);
    }
  }

  lemma MarkStays(n: Name, first: nat)
    requires Begun(n)
    ensures NameOk(n) && Begun(Mark(n)) && Mark(n).texts == n.texts
    ensures Spoiled(n, first) ==> Spoiled(Mark(n), first)
  {
  }

  /** A label with a byte above those of texts spoils the name it is added to. */
  lemma HighSpoils(n: Name, t: bytes, first: nat)
    requires HasHigh(t) && first < MAX_TEXT && |t| <= MAX_LABEL
    requires n == Blank() || (Begun(n) && first <= |n.texts[0]|)
    ensures var m := AddLabel(Mark(n), t); Begun(m) && Spoiled(m, first)
  {
    HighIsNotSub(t);
    hide SameText;
    var m := AddLabel(Mark(n), t);
    if JoinsHost(n, t) {
      JoinedGrows(n.texts[0], t);
    } else if !Mark(n).invalid {
      assert HasHigh(m.texts[n.parts]);
    }
  }

  lemma HighIsNotSub(t: bytes)
    requires HasHigh(t)
    ensures !SameText(t, SUB)
  {
    var j :| 0 <= j < |t| && t[j] >= NAME_REF;
    if |t| == |SUB| {
      assert Lower(t[j]) != Lower(SUB[j]);
    }
  }

  /** The text of a label reaches over bytes that are no zeros. */
  lemma {:induction false} TextReaches(s: bytes, k: nat)
    requires k < |s| && NoNul(s[..k + 1])
    ensures |Text(s)| > k && Text(s)[k] == s[k]
    decreases k
  {
    assert s[0] == s[..k + 1][0];
    if k > 0 {
      assert s[1..][..k] == s[..k + 1][1..];
      TextReaches(s[1..], k - 1);
    }
  }

  /** The label in whose text the pointer stands. */
  lemma PointerInText(q: bytes, index: nat, loc: nat, limit: nat, at: nat, n: Name, first: nat)
    requires PointerAt(q, index, loc, limit) && at < index < at + 1 + q[at] <= limit && q[at] <= MAX_LABEL
    requires NoNul(q[at + 1..index]) && first < MAX_TEXT && (n == Blank() || (Begun(n) && first <= |n.texts[0]|))
    ensures var m := AddLabel(Mark(n), Text(q[at + 1..at + 1 + q[at]])); Begun(m) && Spoiled(m, first)
  {
    hide AddLabel, Spoiled, Begun, Text;
    var s := q[at + 1..at + 1 + q[at]];
    var k := index - at - 1;
    assert s[k] == q[index] && s[..k] == q[at + 1..index];
    assert forall i :: 0 <= i <= k ==> s[..k + 1][i] == if i < k then s[..k][i] else s[k];
    TextReaches(s, k);
    assert HasHigh(Text(s));
    HighSpoils(n, Text(s), first);
  }

  /** Reading goes through the pointer as if it were text: what comes out is another name. */
  lemma {:induction false} ThroughPointer(q: bytes, index: nat, loc: nat, limit: nat, start: nat, at: nat, n: Name,
                                          first: nat)
    requires PointerAt(q, index, loc, limit) && UseOf(q, index, start, at) == Content
    requires first < MAX_TEXT && Begun(n) && first <= |n.texts[0]|
    ensures FailsOrSpoils(Read(q, limit, start, at, n), first)
    decreases start, if at < index then index - at else 0
  {
    hide AddLabel, Text, Address, Read, Spoiled, NoNul;
    MarkStays(n, first);
    ReadUnfold(q, limit, start, at, n);
    if q[at] < NAME_REF {
      var next := at + 1 + q[at];
      if next <= limit {
        var m := AddLabel(Mark(n), Text(q[at + 1..next]));
        if next <= index {
          BegunStays(n, Text(q[at + 1..next]));
          ThroughPointer(q, index, loc, limit, start, next, m, first);
        } else {
          PointerInText(q, index, loc, limit, at, n, first);
          StaysSpoiled(q, limit, start, next, m, first);
        }
      }
    } else {
      var address := Address(q[at], q[at + 1]);
      ThroughPointer(q, index, loc, limit, address, address, Mark(n), first);
    }
  }

  /** The same from the beginning of a name, whose first label is `s` as far as it stands below `index`. */
  lemma ThroughFirst(q: bytes, index: nat, limit: nat, at: nat, s: bytes)
    requires PointerAt(q, index, at, limit) && at < index && UseOf(q, index, at, at) == Content
    requires IsLabel(s) && !SameText(s, SUB) && q[at] as int == |s|
    requires at + 1 + |s| <= index ==> q[at + 1..at + 1 + |s|] == s
    ensures FailsOrSpoils(Read(q, limit, at, at, Blank()), |s|)
  {
    var next := at + 1 + |s|;
    ReadUnfold(q, limit, at, at, Blank());
    FilesNext(Blank(), s);
    hide AddLabel, Text, Address, Read, Spoiled, SameText;
    if next <= limit {
      var m := AddLabel(Mark(Blank()), Text(q[at + 1..next]));
      if next <= index {
        ThroughPointer(q, index, at, limit, at, next, m, |s|);
      } else {
        PointerInText(q, index, at, limit, at, Blank(), |s|);
        StaysSpoiled(q, limit, at, next, m, |s|);
      }
    }
  }

  // ---------------------------------------------------------------- the subtype marker

  /** When a name with the subtype marker has been accepted, the marker is read again. */
  lemma {:induction false} MarkerStays(p: bytes, q: bytes, index: nat, limit: nat, start: nat, at: nat, m: Name,
                                       n: Name)
    requires MAX_PACKET_SIZE < |p| && index <= MAX_PACKET_SIZE && index <= limit < |q| && p[..index] == q[..index]
    requires UseOf(p, index, start, at) == Nothing && NameOk(m) && NameOk(n) && (m.sub ==> n.sub)
    ensures var (r, s) := (Read(p, MAX_PACKET_SIZE, start, at, m), Read(q, limit, start, at, n));
      r.Some? && r.value.name.sub && s.Some? ==> s.value.name.sub
    decreases start, if at < index then index - at else 0
  {
    hide AddLabel, Text, Address, Read;
    ReadUnfold(p, MAX_PACKET_SIZE, start, at, m);
    ReadUnfold(q, limit, start, at, n);
    assert p[at] == p[..index][at] == q[..index][at] == q[at];
    if 0 < p[at] <= MAX_LABEL {
      var next := at + 1 + p[at];
      SameSlice(p, q, 0, index, at + 1, next);
      var t := Text(p[at + 1..next]);
      MarkerFiled(m, n, t);
      MarkerStays(p, q, index, limit, start, next, AddLabel(Mark(m), t), AddLabel(Mark(n), t));
    } else if p[at] >= NAME_REF {
      assert p[at + 1] == p[..index][at + 1] == q[..index][at + 1] == q[at + 1];
      var address := Address(p[at], p[at + 1]);
      if address < start {
        MarkerStays(p, q, index, limit, address, address, Mark(m), Mark(n));
      }
    }
  }

  lemma MarkerFiled(m: Name, n: Name, t: bytes)
    requires NameOk(m) && NameOk(n) && (m.sub ==> n.sub)
    ensures AddLabel(Mark(m), t).sub ==> AddLabel(Mark(n), t).sub
  {
    if t == [] || t[0] != UNDERSCORE {
      assert t != [] ==> Lower(t[0]) != Lower(SUB[0]);
    }
  }

  // ---------------------------------------------------------------- the name is not read back

  /** What stands at `loc` was accepted for a name, but the pointer to it is read otherwise. */
  predicate MisreadAt(p: bytes, index: nat, loc: nat)
    requires |p| == MEMORY && index <= MAX_PACKET_SIZE
  {
    match UseOf(p, index, loc, loc)
    case Length => true
    case Content => true
    case Nothing => var r := Read(p, MAX_PACKET_SIZE, loc, loc, Blank()); r.Some? && r.value.name.sub
    case Elsewhere => false
  }

  /** Where the writer points to, if anywhere, is in front of the name and misread. */
  predicate FindsMisread(p: bytes, start: nat, index: nat, strings: seq<bytes>)
    requires start <= index && NameFits(p, index, strings)
    decreases |strings|
  {
    strings != [] &&
    match Search(p, index, 0, strings)
    case Some(loc) => loc < start && MisreadAt(p, index, loc)
    case None => FindsMisread(Put(p, index, LabelBytes(strings[0])), start, index + |strings[0]| + 1, strings[1..])
  }

  /** A name of which nothing has been read but `s` comes next, or at least the first label has been read. */
  predicate Reading(n: Name, first: nat, s: bytes) {
    (n == Blank() && first == |s|) || (Begun(n) && first <= |n.texts[0]|)
  }

  /** Reading what was accepted at `loc`, now with the pointer to it in place, spoils a name, or fails. */
  lemma TargetSpoils(p: bytes, index: nat, loc: nat, strings: seq<bytes>, q: bytes, limit: nat, n: Name, first: nat)
    requires |p| == |q| == MEMORY && loc < index <= MAX_PACKET_SIZE && p[..index] == q[..index]
    requires strings != [] && IsLabel(strings[0]) && !SameText(strings[0], SUB) && Matches(p, loc, strings)
    requires PointerAt(q, index, loc, limit) && MisreadAt(p, index, loc) && first < MAX_TEXT
    requires Reading(n, first, strings[0])
    ensures NameOk(Mark(n))
    ensures FailsOrSpoils(Read(q, limit, loc, loc, Mark(n)), first)
  {
    hide AddLabel, Text, Address, Read, Spoiled, SameText, Matches;
    UseKept(p, q, index, loc, loc);
    match UseOf(p, index, loc, loc)
    case Length => MeetsPointer(q, index, loc, limit, loc, loc, Mark(n));
    case Content =>
      if n == Blank() {
        MatchBelow(p, q, index, loc, strings);
        ThroughFirst(q, index, limit, loc, strings[0]);
      } else {
        MarkStays(n, first);
        ThroughPointer(q, index, loc, limit, loc, loc, Mark(n), first);
      }
    case Nothing =>
      MarkerStays(p, q, index, limit, loc, loc, Blank(), Mark(n));
      if r :| Read(q, limit, loc, loc, Mark(n)) == Some(r) {
        SubSpoils(Some(r), first);
      }
  }

  /** Reading the pointer written for the rest of a name spoils it, or fails. */
  lemma PointerSpoils(p: bytes, start: nat, index: nat, strings: seq<bytes>, q: bytes, limit: nat, n: Name, first: nat)
    requires start <= index && NameFits(p, index, strings) && FindsMisread(p, start, index, strings)
    requires strings != [] && Search(p, index, 0, strings).Some? && !SameText(strings[0], SUB)
    requires |q| == MEMORY && index + 2 <= limit < MEMORY && first < MAX_TEXT
    requires q[..index + 2] == AppendFqdn(p, index, strings).packet[..index + 2]
    requires Reading(n, first, strings[0])
    ensures FailsOrSpoils(Read(q, limit, start, index, n), first)
  {
    var loc := Search(p, index, 0, strings).value;
    FitsFacts(p, index, strings);
    FoundPointer(p, index, strings, q, limit);
    assert loc < start && MisreadAt(p, index, loc);
    hide Search, Matches, AddLabel, Text, Address, Read, Spoiled, SameText, AppendFqdn, NameFits, FindsMisread;
    hide MisreadAt;
    TargetSpoils(p, index, loc, strings, q, limit, n, first);
    ReadUnfold(q, limit, start, index, n);
  }

  lemma SubSpoils(r: Option<ReadResult>, first: nat)
    requires r.Some? && NameOk(r.value.name) && r.value.name.sub
    ensures Spoiled(r.value.name, first)
  {
  }

  lemma FoundPointer(p: bytes, index: nat, strings: seq<bytes>, q: bytes, limit: nat)
    requires NameFits(p, index, strings) && strings != [] && Search(p, index, 0, strings).Some?
    requires |q| == MEMORY && index + 2 <= limit < MEMORY
    requires q[..index + 2] == AppendFqdn(p, index, strings).packet[..index + 2]
    ensures var loc := Search(p, index, 0, strings).value;
      PointerAt(q, index, loc, limit) && p[..index] == q[..index]
  {
    hide Search, Matches;
    var loc := Search(p, index, 0, strings).value;
    var w := Put(p, index, PointerTo(loc));
    PointerInPlace(p, index, loc);
    assert q[index] == q[..index + 2][index] == w[..index + 2][index] == w[index];
    assert q[index + 1] == q[..index + 2][index + 1] == w[..index + 2][index + 1] == w[index + 1];
    PrefixOfPrefix(q, w, p, index, index + 2);
  }

  lemma MatchBelow(p: bytes, q: bytes, index: nat, loc: nat, strings: seq<bytes>)
    requires |p| == |q| == MEMORY && loc < index <= MAX_PACKET_SIZE && p[..index] == q[..index]
    requires strings != [] && IsLabel(strings[0]) && Matches(p, loc, strings)
    ensures q[loc] as int == |strings[0]|
    ensures loc + 1 + |strings[0]| <= index ==> q[loc + 1..loc + 1 + |strings[0]|] == strings[0]
  {
    hide Matches;
    MatchedLabel(p, loc, strings);
    assert p[loc] == p[..index][loc] == q[..index][loc] == q[loc];
    if loc + 1 + |strings[0]| <= index {
      SameSlice(p, q, 0, index, loc + 1, loc + 1 + |strings[0]|);
    }
  }

  lemma MisreadRest(p: bytes, start: nat, index: nat, strings: seq<bytes>)
    requires start <= index && NameFits(p, index, strings) && FindsMisread(p, start, index, strings)
    requires Search(p, index, 0, strings) == None
    ensures var (next, p1) := (index + |strings[0]| + 1, Put(p, index, LabelBytes(strings[0])));
      NameFits(p1, next, strings[1..]) && FindsMisread(p1, start, next, strings[1..]) && strings[1..] != []
  {
    hide Search, Put;
  }

  /** The labels of a name, and then the pointer. */
  lemma {:induction false} MisreadSpoils(p: bytes, start: nat, index: nat, strings: seq<bytes>, q: bytes, limit: nat,
                                         n: Name, first: nat)
    requires start <= index && NameFits(p, index, strings) && FindsMisread(p, start, index, strings)
    requires strings != [] && forall i :: 0 <= i < |strings| ==> !SameText(strings[i], SUB)
    requires |q| == MEMORY && AppendFqdn(p, index, strings).index <= limit < MEMORY && first < MAX_TEXT
    requires var w := AppendFqdn(p, index, strings); q[..w.index] == w.packet[..w.index]
    requires Reading(n, first, strings[0])
    ensures FailsOrSpoils(Read(q, limit, start, index, n), first)
    decreases |strings|
  {
    hide Search, AddLabel, Text, Read, Spoiled, SameText, Put, AppendFqdn, NameFits, FindsMisread;
    hide Reading, FailsOrSpoils;
    FitsFacts(p, index, strings);
    var w := AppendFqdn(p, index, strings);
    if Search(p, index, 0, strings).Some? {
      AppendFits(p, index, strings);
      PrefixOfPrefix(q, w.packet, w.packet, index + 2, w.index);
      PointerSpoils(p, start, index, strings, q, limit, n, first);
    } else {
      var (s, next) := (strings[0], index + |strings[0]| + 1);
      LabelWritten(p, start, index, strings);
      MisreadRest(p, start, index, strings);
      FirstOrMore(n, s, first);
      LabelRead(q, w.packet, index, w.index, s, limit, start, n);
      MisreadSpoils(Put(p, index, LabelBytes(s)), start, next, strings[1..], q, limit, AddLabel(Mark(n), s), first);
    }
  }

  lemma LabelRead(q: bytes, w: bytes, index: nat, end: nat, s: bytes, limit: nat, start: nat, n: Name)
    requires IsLabel(s) && index + 1 + |s| <= end <= limit < |q| == |w| && q[..end] == w[..end] && NameOk(n)
    requires w[index] as int == |s| && w[index + 1..index + 1 + |s|] == s
    ensures Read(q, limit, start, index, n) == Read(q, limit, start, index + 1 + |s|, AddLabel(Mark(n), s))
  {
    hide Read;
    SameSlice(q, w, 0, end, index, index + 1);
    SameSlice(q, w, 0, end, index + 1, index + 1 + |s|);
    ReadLabel(q, limit, start, index, |s|, n);
  }

  lemma FirstOrMore(n: Name, s: bytes, first: nat)
    requires IsLabel(s) && !SameText(s, SUB)
    requires Reading(n, first, s)
    ensures NameOk(n) && forall t :: Reading(AddLabel(Mark(n), s), first, t)
  {
    if Begun(n) {
      BegunStays(n, s);
    }
  }

  predicate AllLow(ss: seq<bytes>) {
    forall i :: 0 <= i < |ss| ==> Low(ss[i])
  }

  predicate Low(s: bytes) {
    forall i :: 0 <= i < |s| ==> s[i] < 0x80
  }

  lemma LowTexts(a: bytes, b: bytes)
    requires SameText(a, b) && Low(a)
    ensures |a| == |b| && !HasHigh(b)
  {
    assert forall j :: 0 <= j < |b| ==> Lower(a[j]) == Lower(b[j]);
  }

  /** A spoiled name is not the one meant. */
  lemma SpoiledIsAnother(name: seq<bytes>, n: Name, labels: seq<bytes>)
    requires IsName(name) && AllLow(name) && NameOk(n) && Spoiled(n, |name[0]|) && SameTexts(name, labels)
    ensures Arrange(n) != Name(|name|, Fields(labels), false, false)
  {
    hide SameText;
    forall i | 0 <= i < |name| ensures |name[i]| == |labels[i]| && !HasHigh(labels[i]) {
      LowTexts(name[i], labels[i]);
    }
    if Arrange(n) == Name(|name|, Fields(labels), false, false) {
      ArrangedTexts(n, labels);
    }
  }

  lemma ArrangedTexts(n: Name, labels: seq<bytes>)
    requires NameOk(n) && 2 <= |labels| <= 4 && Arrange(n) == Name(|labels|, Fields(labels), false, false)
    ensures !n.invalid && !n.sub && n.parts == |labels|
    ensures forall i :: 0 <= i < |labels| ==> n.texts[i] == labels[i]
  {
    assert forall i :: 0 <= i < |labels| ==> n.texts[i] == Arrange(n).texts[
      if n.parts == 3 then i + 1 else if n.parts == 2 && i == 1 then 3 else i];
  }

  /**
   * The other half of the condition under which a written name reads back.  If what the writer accepted
   * needs the byte where the pointer now stands, as a length, as the end or in a text, or holds the
   * subtype marker, then the name does not read back, however the packet goes on.
   */
  lemma MisreadIsNotRead(p: bytes, index: nat, name: seq<bytes>, q: bytes, limit: nat)
    requires IsName(name) && AllLow(name) && NameFits(p, index, name) && FindsMisread(p, index, index, name)
    requires |q| == MEMORY && AppendFqdn(p, index, name).index <= limit < MEMORY
    requires var w := AppendFqdn(p, index, name); q[..w.index] == w.packet[..w.index]
    ensures !ParsesTo(q, limit, index, AppendFqdn(p, index, name).index, name)
  {
    hide SameText, Read, Arrange, Spoiled, FindsMisread, NameFits, AppendFqdn, AllLow;
    FitsFacts(p, index, name);
    MisreadSpoils(p, index, index, name, q, limit, Blank(), |name[0]|);
    var w := AppendFqdn(p, index, name);
    if ParsesTo(q, limit, index, w.index, name) {
      var labels :| SameTexts(name, labels) && labels[0] == name[0] &&
        Parse(q, limit, index) == Some(ReadResult(w.index, Name(|name|, Fields(labels), false, false)));
      SpoiledIsAnother(name, Read(q, limit, index, index, Blank()).value.name, labels);
    }
  }

  /**
   * Exactly when a written name reads back, as far as the place found is either a plain name below the
   * new one, or one that is misread, or inside the new name: in the first case and in no other.
   */
  lemma ReadBackExactly(p: bytes, index: nat, name: seq<bytes>, limit: nat)
    requires HEAD_LEN <= index && IsName(name) && AllLow(name) && NameFits(p, index, name)
    requires FindsPlain(p, index, index, name) || FindsMisread(p, index, index, name)
    requires AppendFqdn(p, index, name).index <= limit < MEMORY
    ensures var w := AppendFqdn(p, index, name);
      ParsesTo(w.packet, limit, index, w.index, name) <==>
      FindsBelow(p, index, index, name) && !FindsMisread(p, index, index, name)
  {
    FitsFacts(p, index, name);
    hide ParsesTo, FindsPlain, FindsMisread, NameFits, AppendFqdn, IsName, AllLow;
    var w := AppendFqdn(p, index, name);
    if FindsMisread(p, index, index, name) {
      MisreadIsNotRead(p, index, name, w.packet, limit);
    } else {
      MdnsName.RoundTrip(p, index, name, limit);
      NotParsed(w.packet, limit, index, w.index, name);
    }
  }

  lemma NotParsed(p: bytes, limit: nat, start: nat, end: nat, name: seq<bytes>)
    requires limit < |p| && IsName(name)
    ensures Parse(p, limit, start) == None ==> !ParsesTo(p, limit, start, end, name)
  {
  }

  // ---------------------------------------------------------------- an instance like a subtype

  /** Reading a plain name below `index` does not use the byte there. */
  lemma {:induction false} PlainUsesNothing(p: bytes, limit: nat, index: nat, start: nat, at: nat)
    requires limit <= index <= |p| && Decode(p, limit, start, at).Some?
    ensures UseOf(p, index, start, at) == Nothing
    decreases start, if at < limit then limit - at else 0
  {
    hide Text, Address;
    if 0 < p[at] < NAME_REF {
      PlainUsesNothing(p, limit, index, start, at + 1 + p[at]);
    } else if p[at] >= NAME_REF {
      var address := Address(p[at], p[at + 1]);
      PlainUsesNothing(p, limit, index, address, address);
    }
  }

  /** The name of a subtype of the service type, with the same first label as the name of an instance. */
  function Subtype(name: seq<bytes>): seq<bytes>
    requires |name| == 4
  {
    [name[0], SUB] + name[1..]
  }

  /** The labels of a subtype are filed like those of an instance, save for the marker. */
  lemma SubtypeFiled(name: seq<bytes>)
    requires IsName(name) && |name| == 4
    ensures FileAll(Blank(), Subtype(name)) == Name(4, name, true, false)
  {
    var (x, rest) := (name[0], name[1..]);
    FilesNext(Blank(), x);
    var n := Name(1, [x, [], [], []], true, false);
    assert AddLabel(Mark(n.(sub := false)), SUB) == n by { SameTextSelf(SUB); }
    assert forall i :: 0 <= i < |rest| ==> rest[i] == name[i + 1];
    hide SameText, FileAll;
    FilesRest(n, rest);
    assert FileAll(n, rest).texts == name;
    FileTwo(x, rest, n);
  }

  lemma FileTwo(x: bytes, rest: seq<bytes>, n: Name)
    requires n == Name(1, [x, [], [], []], true, false)
    requires AddLabel(Mark(Blank()), x) == n.(sub := false) && AddLabel(Mark(n.(sub := false)), SUB) == n
    ensures FileAll(Blank(), [x, SUB] + rest) == FileAll(n, rest)
  {
    hide AddLabel;
    assert ([x, SUB] + rest)[1..] == [SUB] + rest && ([SUB] + rest)[1..] == rest;
  }

  /** At `loc`, below `index`, stands the subtype. */
  ghost predicate SubtypeAt(p: bytes, index: nat, loc: nat, name: seq<bytes>)
    requires |name| == 4 && index <= |p|
  {
    && loc < index && OccursAt(p, index, name[0], loc)
    && Decode(p, index, loc, loc).Some? && Decode(p, index, loc, loc).value.labels == Subtype(name)
  }

  lemma SubtypeMatches(p: bytes, index: nat, loc: nat, name: seq<bytes>)
    requires |p| == MEMORY && index <= MAX_PACKET_SIZE && IsName(name) && |name| == 4 && SubtypeAt(p, index, loc, name)
    ensures IsLabel(name[0]) && Matches(p, loc, name) && MisreadAt(p, index, loc)
  {
    assert IsLabel(name[0]);
    hide Read, Decode, SameText, FileAll, IsName, UseOf;
    SubtypeFiled(name);
    ReadIsDecode(p, index, MAX_PACKET_SIZE, loc, loc, Blank());
    PlainUsesNothing(p, index, index, loc, loc);
    forall i | 0 <= i < 4 ensures SameText(name[i], name[i]) {
      SameTextSelf(name[i]);
    }
  }

  /**
   * An instance with the name of a subtype of its service type: when the subtype stands first in the packet,
   * the writer points to it, and the name of the instance does not read back.
   */
  lemma SubtypeTaken(p: bytes, index: nat, loc: nat, name: seq<bytes>, limit: nat)
    requires IsName(name) && AllLow(name) && |name| == 4 && NameFits(p, index, name)
    requires SubtypeAt(p, index, loc, name) && forall l :: 0 <= l < loc ==> !Matches(p, l, name)
    requires AppendFqdn(p, index, name).index <= limit < MEMORY
    ensures Search(p, index, 0, name) == Some(loc) && FindsMisread(p, index, index, name)
    ensures var w := AppendFqdn(p, index, name); !ParsesTo(w.packet, limit, index, w.index, name)
  {
    FitsFacts(p, index, name);
    hide Matches, AppendFqdn, ParsesTo, AllLow, IsName, SubtypeAt, MisreadAt, NameFits, Search;
    SubtypeMatches(p, index, loc, name);
    FirstMatch(p, index, 0, loc, name);
    assert FindsMisread(p, index, index, name);
    MisreadIsNotRead(p, index, name, AppendFqdn(p, index, name).packet, limit);
  }

  lemma {:induction false} FirstMatch(p: bytes, index: nat, from: nat, loc: nat, strings: seq<bytes>)
    requires |p| == MEMORY && from <= loc < index <= MAX_PACKET_SIZE && strings != [] && IsLabel(strings[0])
    requires Matches(p, loc, strings) && forall l :: from <= l < loc ==> !Matches(p, l, strings)
    ensures Search(p, index, from, strings) == Some(loc)
    decreases loc - from
  {
    hide Matches;
    if from < loc {
      FirstMatch(p, index, from + 1, loc, strings);
    }
  }
}
