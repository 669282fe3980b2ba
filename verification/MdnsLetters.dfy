/**
 * When a compressed name reads back: conditions on the labels alone.  Bytes above 63, such as letters and
 * underscores, cannot be taken for the length of a label.
 */
module MdnsLetters {
  import opened Bytes
  import opened MdnsName

  predicate Letters(s: bytes) {
    forall i :: 0 <= i < |s| ==> s[i] > MAX_LABEL
  }

  predicate AllLetters(ss: seq<bytes>) {
    forall i :: 0 <= i < |ss| ==> Letters(ss[i])
  }

  /** The lengths that labels can have. */
  const LOW: set<nat> := set n: nat | n <= MAX_LABEL

  /** No byte can be taken for one of the lengths. */
  predicate NoLengths(ls: set<nat>, s: bytes) {
    forall i :: 0 <= i < |s| ==> s[i] !in ls
  }

  /** Labels with the given lengths, none of whose characters can be taken for one of them. */
  predicate Apart(ls: set<nat>, ss: seq<bytes>) {
    forall i :: 0 <= i < |ss| ==> |ss[i]| in ls && NoLengths(ls, ss[i])
  }

  /** So are all labels of letters. */
  lemma LettersApart(ss: seq<bytes>)
    requires AllLetters(ss) && AreLabels(ss)
    ensures Apart(LOW, ss)
  {
  }

  predicate Different(ss: seq<bytes>) {
    forall i, j :: 0 <= i < j < |ss| ==> ss[i] != ss[j]
  }

  /** Nothing has ever been written from `index` on. */
  predicate Clean(p: bytes, index: nat) {
    forall i :: index <= i < |p| ==> p[i] == 0
  }

  /** The labels `ws` stand one after another from `at` to `index`. */
  predicate Laid(p: bytes, at: nat, ws: seq<bytes>, index: nat)
    requires index <= |p|
    decreases |ws|
  {
    if ws == [] then at == index
    else
      var next := at + 1 + |ws[0]|;
      next <= index && p[at] as int == |ws[0]| && p[at + 1..next] == ws[0] && Laid(p, next, ws[1..], index)
  }

  lemma {:induction false} LaidKept(p: bytes, p': bytes, at: nat, ws: seq<bytes>, index: nat)
    requires index <= |p| == |p'| && p[..index] == p'[..index] && Laid(p, at, ws, index)
    ensures Laid(p', at, ws, index)
    decreases |ws|
  {
    if ws != [] {
      var next := at + 1 + |ws[0]|;
      SameSlice(p, p', 0, index, at, at + 1);
      SameSlice(p, p', 0, index, at + 1, next);
      LaidKept(p, p', next, ws[1..], index);
    }
  }

  lemma {:induction false} LaidMore(p: bytes, at: nat, ws: seq<bytes>, index: nat, s: bytes)
    requires index + 1 + |s| <= |p| && Laid(p, at, ws, index) && p[index] as int == |s|
    requires p[index + 1..index + 1 + |s|] == s
    ensures Laid(p, at, ws + [s], index + 1 + |s|)
    decreases |ws|
  {
    if ws == [] {
      assert ws + [s] == [s] && [s][1..] == [];
      assert Laid(p, index + 1 + |s|, [], index + 1 + |s|);
    } else {
      LaidMore(p, at + 1 + |ws[0]|, ws[1..], index, s);
      assert (ws + [s])[0] == ws[0] && (ws + [s])[1..] == ws[1..] + [s];
    }
  }

  /** Writing a label behind labels that have been written. */
  lemma LabelLaid(p: bytes, at: nat, ws: seq<bytes>, index: nat, s: bytes)
    requires IsLabel(s) && index + |s| + 1 <= |p| && Laid(p, at, ws, index)
    ensures Laid(Put(p, index, LabelBytes(s)), at, ws + [s], index + |s| + 1)
  {
    var p1 := Put(p, index, LabelBytes(s));
    LabelInPlace(p, index, s, p1);
    LaidKept(p, p1, at, ws, index);
    LaidMore(p1, at, ws, index, s);
  }

  lemma NoLengthInside(ls: set<nat>, p: bytes, at: nat, s: bytes)
    requires at + |s| <= |p| && p[at..at + |s|] == s && NoLengths(ls, s)
    ensures forall i :: at <= i < at + |s| ==> p[i] !in ls
  {
    forall i | at <= i < at + |s| ensures p[i] !in ls {
      assert p[i] == p[at..at + |s|][i - at] == s[i - at];
    }
  }

  /** Among labels in place only their length bytes can be taken for lengths. */
  lemma {:induction false} LengthsInPlace(ls: set<nat>, p: bytes, at: nat, ws: seq<bytes>, index: nat, loc: nat)
    returns (j: nat)
    requires index <= |p| && Laid(p, at, ws, index) && Apart(ls, ws) && at <= loc < index && p[loc] in ls
    ensures j < |ws| && Laid(p, loc, ws[j..], index)
    decreases |ws|
  {
    if ws == [] {
      assert false;
    }
    var next := at + 1 + |ws[0]|;
    if loc == at {
      assert ws[0..] == ws;
      return 0;
    }
    NoLengthInside(ls, p, at + 1, ws[0]);
    var k := LengthsInPlace(ls, p, next, ws[1..], index, loc);
    assert ws[1..][k..] == ws[k + 1..];
    return k + 1;
  }

  lemma LaidFirst(p: bytes, at: nat, ws: seq<bytes>, index: nat)
    requires index <= |p| && Laid(p, at, ws, index) && ws != []
    ensures at + 1 + |ws[0]| <= index && p[at] as int == |ws[0]| && p[at + 1..at + 1 + |ws[0]|] == ws[0]
  {
  }

  // ---------------------------------------------------------------- whatever is behind the written part

  /** Different labels are never taken for one another: the writer does not point into the name it writes. */
  lemma {:induction false} DifferentFindBelow(ls: set<nat>, p: bytes, base: nat, ws: seq<bytes>, index: nat,
                                              strings: seq<bytes>)
    requires base <= index && NameFits(p, index, strings) && Laid(p, base, ws, index)
    requires Apart(ls, ws + strings) && Different(ws + strings)
    ensures FindsBelow(p, base, index, strings)
    decreases |strings|
  {
    hide Search, Matches, Put, Laid, Different, Apart;
    if strings != [] {
      match Search(p, index, 0, strings)
      case Some(loc) =>
        if loc >= base {
          OtherLabel(ls, p, base, ws, index, strings, loc);
        }
      case None =>
        var next := index + |strings[0]| + 1;
        LabelLaid(p, base, ws, index, strings[0]);
        assert (ws + [strings[0]]) + strings[1..] == ws + strings;
        DifferentFindBelow(ls, Put(p, index, LabelBytes(strings[0])), base, ws + [strings[0]], next, strings[1..]);
    }
  }

  lemma OtherLabel(ls: set<nat>, p: bytes, base: nat, ws: seq<bytes>, index: nat, strings: seq<bytes>, loc: nat)
    requires |p| == MEMORY && base <= loc < index <= MAX_PACKET_SIZE && Laid(p, base, ws, index)
    requires strings != [] && IsLabel(strings[0]) && Apart(ls, ws + strings) && Different(ws + strings)
    ensures !Matches(p, loc, strings)
  {
    hide Matches, Laid, NoLengths;
    var all := ws + strings;
    assert strings[0] == all[|ws|] && |all[|ws|]| in ls;
    assert forall j :: 0 <= j < |ws| ==> ws[j] == all[j] && all[j] != all[|ws|];
    if Matches(p, loc, strings) {
      MatchedLabel(p, loc, strings);
      AmongLabels(ls, p, base, ws, index, loc, strings[0]);
    }
  }

  /** What can be taken for a label among labels in place is one of them. */
  lemma AmongLabels(ls: set<nat>, p: bytes, at: nat, ws: seq<bytes>, index: nat, loc: nat, s: bytes)
    requires index <= |p| && Laid(p, at, ws, index) && Apart(ls, ws) && at <= loc < index && |s| in ls
    requires p[loc] as int == |s| && loc + 1 + |s| <= |p| && p[loc + 1..loc + 1 + |s|] == s
    ensures s in ws
  {
    hide Laid;
    var j := LengthsInPlace(ls, p, at, ws, index, loc);
    LaidFirst(p, loc, ws[j..], index);
    assert ws[j..][0] == ws[j];
  }

  lemma MatchedLabel(p: bytes, loc: nat, strings: seq<bytes>)
    requires |p| == MEMORY && loc < MAX_PACKET_SIZE && strings != [] && IsLabel(strings[0]) && Matches(p, loc, strings)
    ensures p[loc] as int == |strings[0]| <= MAX_LABEL && p[loc + 1..loc + 1 + |strings[0]|] == strings[0]
  {
  }

  /**
   * A name of different labels, none of whose characters can be taken for the length of one of them, reads
   * back as it was written, in any packet and whatever is behind it in the buffer, provided that what the
   * writer finds in the earlier packet is a plain name.
   */
  lemma RoundTrip(ls: set<nat>, p: bytes, index: nat, strings: seq<bytes>, limit: nat)
    requires HEAD_LEN <= index && NameFits(p, index, strings) && IsName(strings)
    requires Apart(ls, strings) && Different(strings) && FindsPlain(p, index, index, strings)
    requires AppendFqdn(p, index, strings).index <= limit < MEMORY
    ensures var w := AppendFqdn(p, index, strings); ParsesTo(w.packet, limit, index, w.index, strings)
  {
    hide ParsesTo, FindsPlain, FindsBelow, AppendFqdn;
    assert [] + strings == strings;
    assert Laid(p, index, [], index);
    DifferentFindBelow(ls, p, index, [], index, strings);
    MdnsName.RoundTrip(p, index, strings, limit);
  }

  // ---------------------------------------------------------------- filing labels

  /** Labels are filed as parts unless some are joined to the host with a dot. */
  lemma {:induction false} FiledOrJoined(n: Name, labels: seq<bytes>)
    requires NameOk(n) && !n.invalid && 1 <= n.parts && n.parts + |labels| <= 4
    requires forall i :: 0 <= i < |labels| ==> !SameText(labels[i], SUB)
    requires |n.texts[0]| < MAX_TEXT || (|n.texts[0]| == MAX_TEXT && DOT in n.texts[0])
    ensures var r := FileAll(n, labels);
      r.parts == n.parts + |labels| || DOT in r.texts[0]
    ensures DOT in n.texts[0] ==> DOT in FileAll(n, labels).texts[0]
    decreases |labels|
  {
    hide SameText;
    if labels != [] {
      var m := AddLabel(Mark(n), labels[0]);
      FiledFirst(n, labels[0]);
      FiledOrJoined(m, labels[1..]);
    }
  }

  lemma FiledFirst(n: Name, t: bytes)
    requires NameOk(n) && !n.invalid && 1 <= n.parts < 4 && !SameText(t, SUB)
    requires |n.texts[0]| < MAX_TEXT || (|n.texts[0]| == MAX_TEXT && DOT in n.texts[0])
    ensures var m := AddLabel(Mark(n), t);
      && !m.invalid
      && (if m.parts == n.parts then DOT in m.texts[0] else m.parts == n.parts + 1 && m.texts[0] == n.texts[0])
      && |m.texts[0]| <= MAX_TEXT
      && (DOT in n.texts[0] ==> DOT in m.texts[0])
  {
    hide SameText;
    if JoinsHost(n, t) {
      var (a, b) := (n.texts[0] + [DOT], Clip(n.texts[0] + [DOT]) + t);
      DotClipped(n.texts[0], [DOT]);
      DotKept(Clip(a), t);
    }
  }

  lemma DotClipped(s: bytes, t: bytes)
    requires t == [DOT] && (|s| < MAX_TEXT || (|s| == MAX_TEXT && DOT in s))
    ensures DOT in Clip(s + t) && |Clip(s + t)| <= MAX_TEXT
  {
    var c := s + t;
    if |s| < MAX_TEXT {
      assert c[|s|] == DOT && Clip(c) == c;
    } else {
      assert Clip(c) == s;
    }
  }

  lemma DotKept(s: bytes, t: bytes)
    requires |s| <= MAX_TEXT && DOT in s
    ensures DOT in Clip(s + t)
  {
    var i :| 0 <= i < |s| && s[i] == DOT;
    assert (s + t)[i] == DOT && Clip(s + t)[i] == DOT;
  }

  // ---------------------------------------------------------------- behind the written part all is clean

  /** Labels in place are read one after another, up to the zero byte behind them. */
  lemma {:induction false} ReadLaid(p: bytes, start: nat, at: nat, ws: seq<bytes>, index: nat, n: Name)
    requires MAX_PACKET_SIZE < |p| && index < MAX_PACKET_SIZE && Laid(p, at, ws, index) && p[index] == 0
    requires AreLabels(ws) && NameOk(n)
    ensures Read(p, MAX_PACKET_SIZE, start, at, n) == Some(ReadResult(index + 1, FileAll(n, ws)))
    decreases |ws|
  {
    hide Read, AddLabel, Text;
    if ws == [] {
      ReadUnfold(p, MAX_PACKET_SIZE, start, at, n);
    } else {
      LaidFirst(p, at, ws, index);
      ReadUnfold(p, MAX_PACKET_SIZE, start, at, n);
      ReadLaid(p, start, at + 1 + |ws[0]|, ws[1..], index, AddLabel(Mark(n), ws[0]));
    }
  }

  /** What labels are read as, up to four of them and none the subtype marker. */
  lemma FiledFromStart(labels: seq<bytes>)
    requires 1 <= |labels| <= 4
    requires forall i :: 0 <= i < |labels| ==> |labels[i]| <= MAX_LABEL && !SameText(labels[i], SUB)
    ensures var r := FileAll(Blank(), labels);
      || DOT in r.texts[0]
      || (r.parts == |labels| && forall i :: 0 <= i < |labels| ==> r.texts[i] == labels[i])
  {
    hide SameText;
    var m := AddLabel(Mark(Blank()), labels[0]);
    FilesNext(Blank(), labels[0]);
    FiledOrJoined(m, labels[1..]);
    FiledAsParts(Blank(), labels);
  }

  /** A label without a dot is not like a text with one. */
  lemma NoDot(s: bytes, t: bytes)
    requires DOT !in s && DOT in t
    ensures !SameText(s, t)
  {
    var i :| 0 <= i < |t| && t[i] == DOT;
    if |s| == |t| {
      assert s[i] in s;
    }
  }

  /** The last two labels of a name differ. */
  predicate EndsDifferently(name: seq<bytes>)
    requires |name| >= 2
  {
    name[|name| - 2] != name[|name| - 1]
  }

  /** Labels that stand for the rest of a name are as many, with the same first one and alike at the end. */
  lemma StandingFor(p: bytes, loc: nat, own: seq<bytes>, index: nat, strings: seq<bytes>)
    requires |p| == MEMORY && loc < index < MAX_PACKET_SIZE && Laid(p, loc, own, index) && p[index] == 0
    requires 1 <= |own| <= 4 && AreLabels(own) && forall i :: 0 <= i < |own| ==> !SameText(own[i], SUB)
    requires strings != [] && IsLabel(strings[0]) && Letters(strings[0]) && Matches(p, loc, strings)
    ensures |own| == |strings| && own[0] == strings[0] && SameText(strings[|strings| - 1], own[|strings| - 1])
  {
    hide Laid, Read, SameText, FileAll;
    LaidFirst(p, loc, own, index);
    ReadLaid(p, loc, loc, own, index, Blank());
    FiledFromStart(own);
    var r := FileAll(Blank(), own);
    if DOT in r.texts[0] {
      assert DOT !in strings[0];
      NoDot(strings[0], r.texts[0]);
    }
  }

  /** Labels of the name being written never stand for the rest of it, unless its last two labels are equal. */
  lemma OwnLabelsDoNot(p: bytes, base: nat, ws: seq<bytes>, index: nat, strings: seq<bytes>, loc: nat)
    requires |p| == MEMORY && base <= loc < index < MAX_PACKET_SIZE && Laid(p, base, ws, index) && p[index] == 0
    requires strings != [] && IsName(ws + strings) && AllLetters(ws + strings) && EndsDifferently(ws + strings)
    ensures IsLabel(strings[0]) && !Matches(p, loc, strings)
  {
    hide Laid, Matches, SameText;
    var all := ws + strings;
    assert forall i :: 0 <= i < |ws| ==> ws[i] == all[i];
    assert forall i :: 0 <= i < |strings| ==> strings[i] == all[|ws| + i];
    if Matches(p, loc, strings) {
      MatchedLabel(p, loc, strings);
      LettersApart(ws);
      var j := LengthsInPlace(LOW, p, base, ws, index, loc);
      var own := ws[j..];
      StandingFor(p, loc, own, index, strings);
      DomainAtEnd(all, ws, strings, own[|own| - 1]);
    }
  }

  /** Inside a name, a label like the domain can only be the last but one. */
  lemma DomainAtEnd(all: seq<bytes>, ws: seq<bytes>, strings: seq<bytes>, text: bytes)
    requires all == ws + strings && IsName(all) && strings != [] && ws != [] && text == ws[|ws| - 1]
    requires |strings| <= |ws| && SameText(strings[|strings| - 1], text)
    ensures |strings| == 1 && text == all[|all| - 2]
  {
    assert strings[|strings| - 1] == all[|all| - 1] && text == all[|ws| - 1];
    hide SameText;
    SameTextFacts(strings[|strings| - 1], text);
    if |ws| == 2 && |all| > 2 {
      UnderscoreIsNoDomain(text);
    }
  }

  lemma UnderscoreIsNoDomain(s: bytes)
    requires s != [] && s[0] == UNDERSCORE
    ensures !IsDomain(s)
  {
  }

  lemma CleanStep(p: bytes, index: nat, s: bytes)
    requires IsLabel(s) && index + |s| + 1 < |p| && Clean(p, index)
    ensures Clean(Put(p, index, LabelBytes(s)), index + |s| + 1)
  {
    var (p1, next) := (Put(p, index, LabelBytes(s)), index + |s| + 1);
    forall i | next <= i < |p1| ensures p1[i] == 0 {
      assert p1[i] == p1[next..][i - next] == p[next..][i - next] == p[i];
    }
  }

  /** In a clean buffer, a name whose last two labels differ does not have the writer point into it. */
  lemma {:induction false} CleanFindBelow(p: bytes, base: nat, ws: seq<bytes>, index: nat, strings: seq<bytes>)
    requires base <= index && NameFits(p, index, strings) && Laid(p, base, ws, index) && Clean(p, index)
    requires IsName(ws + strings) && AllLetters(ws + strings) && EndsDifferently(ws + strings)
    ensures FindsBelow(p, base, index, strings)
    decreases |strings|
  {
    hide Search, Matches, Put, Laid, IsName, AllLetters, EndsDifferently;
    if strings != [] {
      match Search(p, index, 0, strings)
      case Some(loc) =>
        if loc >= base {
          OwnLabelsDoNot(p, base, ws, index, strings, loc);
        }
      case None =>
        var next := index + |strings[0]| + 1;
        LabelLaid(p, base, ws, index, strings[0]);
        CleanStep(p, index, strings[0]);
        assert (ws + [strings[0]]) + strings[1..] == ws + strings;
        CleanFindBelow(Put(p, index, LabelBytes(strings[0])), base, ws + [strings[0]], next, strings[1..]);
    }
  }

  /** So it reads back in any packet that is clean behind, if what is found in the packet is a plain name. */
  lemma CleanRoundTrip(p: bytes, index: nat, strings: seq<bytes>, limit: nat)
    requires HEAD_LEN <= index && NameFits(p, index, strings) && IsName(strings) && Clean(p, index)
    requires AllLetters(strings) && EndsDifferently(strings) && FindsPlain(p, index, index, strings)
    requires AppendFqdn(p, index, strings).index <= limit < MEMORY
    ensures var w := AppendFqdn(p, index, strings); ParsesTo(w.packet, limit, index, w.index, strings)
  {
    hide ParsesTo, FindsPlain, FindsBelow, AppendFqdn, Clean;
    assert [] + strings == strings;
    assert Laid(p, index, [], index);
    CleanFindBelow(p, index, [], index, strings);
    MdnsName.RoundTrip(p, index, strings, limit);
  }

  /** The label stands somewhere below `limit`, with its length in front. */
  ghost predicate Occurs(p: bytes, limit: nat, s: bytes)
    requires limit <= |p|
  {
    exists loc: nat :: OccursAt(p, limit, s, loc)
  }

  ghost predicate OccursAt(p: bytes, limit: nat, s: bytes, loc: nat)
    requires limit <= |p|
  {
    loc + 1 + |s| <= limit && p[loc] as int == |s| && p[loc + 1..loc + 1 + |s|] == s
  }

  lemma OccursKept(p: bytes, p': bytes, limit: nat, s: bytes)
    requires limit <= |p| == |p'| && p[..limit] == p'[..limit] && Occurs(p', limit, s)
    ensures Occurs(p, limit, s)
  {
    var loc: nat :| OccursAt(p', limit, s, loc);
    SameSlice(p, p', 0, limit, loc, loc + 1);
    SameSlice(p, p', 0, limit, loc + 1, loc + 1 + |s|);
    assert OccursAt(p, limit, s, loc);
  }

  /** Something found below a byte that is no letter stands wholly below it. */
  lemma FoundOccurs(p: bytes, base: nat, loc: nat, strings: seq<bytes>)
    requires |p| == MEMORY && loc < base < MAX_PACKET_SIZE && p[base] <= MAX_LABEL
    requires strings != [] && IsLabel(strings[0]) && Letters(strings[0]) && Matches(p, loc, strings)
    ensures Occurs(p, base, strings[0])
  {
    hide Matches;
    MatchedLabel(p, loc, strings);
    NoLengthInside(LOW, p, loc + 1, strings[0]);
    assert OccursAt(p, base, strings[0], loc);
  }

  ghost predicate NoneOccurs(p: bytes, base: nat, strings: seq<bytes>)
    requires base <= |p|
  {
    forall i :: 0 <= i < |strings| ==> !Occurs(p, base, strings[i])
  }

  lemma NoneOccursStep(p: bytes, base: nat, index: nat, strings: seq<bytes>)
    requires strings != [] && IsLabel(strings[0]) && base <= index && index + |strings[0]| + 1 <= |p|
    requires NoneOccurs(p, base, strings)
    ensures NoneOccurs(Put(p, index, LabelBytes(strings[0])), base, strings[1..])
  {
    var p1 := Put(p, index, LabelBytes(strings[0]));
    PrefixOfPrefix(p, p1, p1, base, base) by {
      assert p[..base] == p[..index][..base] == p1[..index][..base] == p1[..base];
    }
    forall i | 0 <= i < |strings[1..]| ensures !Occurs(p1, base, strings[1..][i]) {
      if Occurs(p1, base, strings[i + 1]) {
        OccursKept(p, p1, base, strings[i + 1]);
      }
    }
  }

  lemma LowByteStays(p: bytes, base: nat, index: nat, s: bytes)
    requires IsLabel(s) && base <= index && index + |s| + 1 <= |p| && p[base] <= MAX_LABEL
    ensures Put(p, index, LabelBytes(s))[base] <= MAX_LABEL
  {
    var p1 := Put(p, index, LabelBytes(s));
    LabelInPlace(p, index, s, p1);
    if base < index {
      assert p1[base] == p1[..index][base] == p[..index][base];
    }
  }

  /** A name none of whose labels stands in the packet yet finds nothing there. */
  lemma {:induction false} NewFindPlain(p: bytes, base: nat, index: nat, strings: seq<bytes>)
    requires base <= index && NameFits(p, index, strings) && AllLetters(strings)
    requires p[base] <= MAX_LABEL && NoneOccurs(p, base, strings)
    ensures FindsPlain(p, base, index, strings)
    decreases |strings|
  {
    hide Search, Matches, Put, NoneOccurs, Occurs;
    if strings != [] {
      match Search(p, index, 0, strings)
      case Some(loc) =>
        if loc < base {
          FoundOccurs(p, base, loc, strings);
          NotThere(p, base, strings);
        }
      case None =>
        NoneOccursStep(p, base, index, strings);
        LowByteStays(p, base, index, strings[0]);
        NewFindPlain(Put(p, index, LabelBytes(strings[0])), base, index + |strings[0]| + 1, strings[1..]);
    }
  }

  lemma NotThere(p: bytes, base: nat, strings: seq<bytes>)
    requires base <= |p| && strings != [] && NoneOccurs(p, base, strings)
    ensures !Occurs(p, base, strings[0])
  {
  }

  /** The last of the labels in place, if nothing is behind it, stands for itself as the rest of a name. */
  lemma {:induction false} LastStandsForItself(p: bytes, base: nat, ws: seq<bytes>, index: nat) returns (loc: nat)
    requires |p| == MEMORY && base <= index < MAX_PACKET_SIZE && Laid(p, base, ws, index) && p[index] == 0
    requires ws != [] && AreLabels(ws) && !SameText(ws[|ws| - 1], SUB)
    ensures base <= loc < index && Matches(p, loc, [ws[|ws| - 1]])
    decreases |ws|
  {
    hide SameText, Read;
    LaidFirst(p, base, ws, index);
    if |ws| == 1 {
      var s := ws[0];
      assert ws == [s];
      ReadLaid(p, base, base, ws, index, Blank());
      FilesNext(Blank(), s);
      assert FileAll(Blank(), [s]) == AddLabel(Mark(Blank()), s);
      SameTextSelf(s);
      return base;
    }
    loc := LastStandsForItself(p, base + 1 + |ws[0]|, ws[1..], index);
  }

  lemma {:induction false} EqualEndFails(p: bytes, base: nat, ws: seq<bytes>, index: nat, strings: seq<bytes>)
    requires base <= index && NameFits(p, index, strings) && Laid(p, base, ws, index) && Clean(p, index)
    requires strings != [] && IsName(ws + strings) && AllLetters(ws + strings) && !EndsDifferently(ws + strings)
    requires p[base] <= MAX_LABEL && NoneOccurs(p, base, strings)
    ensures !FindsBelow(p, base, index, strings)
    decreases |strings|
  {
    hide Search, Matches, Put, Laid, NoneOccurs, Occurs, IsName, AllLetters;
    FirstOfRest(ws, strings);
    match Search(p, index, 0, strings)
    case Some(loc) =>
      if loc < base {
        FoundOccurs(p, base, loc, strings);
        NotThere(p, base, strings);
      }
    case None =>
      if |strings| == 1 {
        LastTwo(ws, strings);
        var loc := LastStandsForItself(p, base, ws, index);
      } else {
        var next := index + |strings[0]| + 1;
        LabelLaid(p, base, ws, index, strings[0]);
        CleanStep(p, index, strings[0]);
        NoneOccursStep(p, base, index, strings);
        LowByteStays(p, base, index, strings[0]);
        assert (ws + [strings[0]]) + strings[1..] == ws + strings;
        EqualEndFails(Put(p, index, LabelBytes(strings[0])), base, ws + [strings[0]], next, strings[1..]);
      }
  }

  lemma FirstOfRest(ws: seq<bytes>, strings: seq<bytes>)
    requires strings != [] && AllLetters(ws + strings)
    ensures Letters(strings[0])
  {
    assert strings[0] == (ws + strings)[|ws|];
  }

  lemma LastTwo(ws: seq<bytes>, strings: seq<bytes>)
    requires |strings| == 1 && IsName(ws + strings) && !EndsDifferently(ws + strings)
    ensures ws != [] && [ws[|ws| - 1]] == strings && AreLabels(ws) && !SameText(ws[|ws| - 1], SUB)
  {
    var all := ws + strings;
    assert forall i :: 0 <= i < |ws| ==> ws[i] == all[i];
    assert strings[0] == all[|ws|];
  }

  /**
   * Exactly when a name that is new to the packet reads back, in a buffer that is clean behind: when
   * its last two labels differ.  A host named like its domain cannot be read at all.
   */
  lemma NewNameExactly(p: bytes, index: nat, strings: seq<bytes>, limit: nat)
    requires HEAD_LEN <= index && NameFits(p, index, strings) && IsName(strings) && AllLetters(strings)
    requires Clean(p, index) && NoneOccurs(p, index, strings)
    requires AppendFqdn(p, index, strings).index <= limit < MEMORY
    ensures var w := AppendFqdn(p, index, strings);
      if EndsDifferently(strings) then ParsesTo(w.packet, limit, index, w.index, strings)
      else Parse(w.packet, limit, index) == None
  {
    FitsFacts(p, index, strings);
    assert p[index] == 0;
    hide ParsesTo, FindsPlain, FindsBelow, AppendFqdn, NameFits, NoneOccurs, EndsDifferently;
    assert [] + strings == strings;
    assert Laid(p, index, [], index);
    NewFindPlain(p, index, index, strings);
    if EndsDifferently(strings) {
      CleanFindBelow(p, index, [], index, strings);
    } else {
      EqualEndFails(p, index, [], index, strings);
    }
    MdnsName.RoundTrip(p, index, strings, limit);
  }

  // ---------------------------------------------------------------- what compression saves

  /** A plain name found below `index` is still there when the bytes up to `index` are. */
  lemma MatchKept(p: bytes, index: nat, loc: nat, strings: seq<bytes>, q: bytes, limit: nat)
    requires |p| == |q| == MEMORY && HEAD_LEN <= index <= limit <= MAX_PACKET_SIZE && loc < index
    requires strings != [] && IsLabel(strings[0]) && p[HEAD_LEN..index] == q[HEAD_LEN..index]
    requires Matches(p, loc, strings) && PlainAt(p, index, loc, |strings|)
    ensures Matches(q, loc, strings)
  {
    hide Read, SameText;
    DecodePrefix(p, index, q, limit, loc, loc);
    ReadIsDecode(p, index, MAX_PACKET_SIZE, loc, loc, Blank());
    ReadIsDecode(q, limit, MAX_PACKET_SIZE, loc, loc, Blank());
    var next := loc + 1 + |strings[0]|;
    LabelWithin(p, index, loc);
    SameSlice(p, q, HEAD_LEN, index, loc, loc + 1);
    SameSlice(p, q, HEAD_LEN, index, loc + 1, next);
  }

  lemma LabelWithin(p: bytes, limit: nat, loc: nat)
    requires limit <= |p| && loc < limit && 1 <= p[loc] <= MAX_LABEL && Decode(p, limit, loc, loc).Some?
    ensures loc + 1 + p[loc] <= limit
  {
  }

  /** A name just written with its first label stands for itself from then on. */
  lemma WrittenMatches(p: bytes, index: nat, strings: seq<bytes>, q: bytes)
    requires HEAD_LEN <= index && NameFits(p, index, strings) && IsName(strings)
    requires FindsPlain(p, index, index, strings) && FindsBelow(p, index, index, strings)
    requires Search(p, index, 0, strings) == None && |q| == MEMORY
    requires var w := AppendFqdn(p, index, strings); q[HEAD_LEN..w.index] == w.packet[HEAD_LEN..w.index]
    ensures Matches(q, index, strings)
  {
    hide Search, Read, SameText, FindsPlain, FindsBelow, AppendFqdn, NameFits, FileAll;
    FitsFacts(p, index, strings);
    var w := AppendFqdn(p, index, strings);
    LabelWritten(p, index, index, strings);
    var next := index + 1 + |strings[0]|;
    SameSlice(q, w.packet, HEAD_LEN, w.index, HEAD_LEN, index);
    SameSlice(q, w.packet, HEAD_LEN, w.index, index, w.index);
    SameSlice(q, w.packet, HEAD_LEN, w.index, index, index + 1);
    SameSlice(q, w.packet, HEAD_LEN, w.index, index + 1, next);
    assert q[index] == q[index..index + 1][0] == w.packet[index];
    AppendDecodes(p, index, index, index, strings, q);
    var d := Decode(q, w.index, index, index).value;
    ReadIsDecode(q, w.index, MAX_PACKET_SIZE, index, index, Blank());
    FiledParts(strings, d.labels);
  }

  /** What compression is for: written again behind itself, a name takes two bytes, however long it is. */
  lemma RepeatedIsPointer(p: bytes, index: nat, strings: seq<bytes>, q: bytes, at: nat)
    requires HEAD_LEN <= index && NameFits(p, index, strings) && IsName(strings)
    requires FindsPlain(p, index, index, strings) && FindsBelow(p, index, index, strings)
    requires var w := AppendFqdn(p, index, strings);
      && |q| == MEMORY && w.index <= at && at + 1 < MAX_PACKET_SIZE
      && q[HEAD_LEN..w.index] == w.packet[HEAD_LEN..w.index]
    ensures AppendFqdn(q, at, strings).count == 2
  {
    hide Search, Matches, PlainAt;
    FitsFacts(p, index, strings);
    var w := AppendFqdn(p, index, strings);
    match Search(p, index, 0, strings)
    case None =>
      WrittenMatches(p, index, strings, q);
    case Some(loc) =>
      SameSlice(q, w.packet, HEAD_LEN, w.index, HEAD_LEN, index);
      SameSlice(w.packet, p, 0, index, HEAD_LEN, index);
      MatchKept(p, index, loc, strings, q, index);
  }
}
