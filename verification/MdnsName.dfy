/**
 * Domain names in mDNS packets: the compressing writer and the reader.
 *
 * A packet is its whole buffer, including stale bytes behind the written part and the bytes that follow
 * the buffer in memory; `limit` is where a reader believes the packet to end.
 */
module MdnsName {
  import opened Bytes

  const MAX_PACKET_SIZE: nat := 1460
  /** The buffer and the memory behind it that comparing a label near its end may look at. */
  const MEMORY: nat := MAX_PACKET_SIZE + 64
  /** The packet header; names live behind it. */
  const HEAD_LEN: nat := 12
  const MAX_LABEL: nat := 63
  /** Longest text that a field of a parsed name holds. */
  const MAX_TEXT: nat := 64
  const NAME_REF: byte := 0xC0
  const UNDERSCORE: byte := 0x5F
  const DOT: byte := 0x2E
  const LOCAL: bytes := [0x6C, 0x6F, 0x63, 0x61, 0x6C]
  const ARPA: bytes := [0x61, 0x72, 0x70, 0x61]
  const IP6: bytes := [0x69, 0x70, 0x36]
  const IN_ADDR: bytes := [0x69, 0x6E, 0x2D, 0x61, 0x64, 0x64, 0x72]
  const SUB: bytes := [0x5F, 0x73, 0x75, 0x62]

  // ---------------------------------------------------------------- texts

  function Lower(b: byte): byte {
    if 0x41 <= b <= 0x5A then b + 0x20 else b
  }

  /** Equal up to ASCII case. */
  predicate SameText(a: bytes, b: bytes) {
    |a| == |b| && forall i :: 0 <= i < |a| ==> Lower(a[i]) == Lower(b[i])
  }

  predicate NoNul(s: bytes) {
    forall i :: 0 <= i < |s| ==> s[i] != 0
  }

  /** What a string function sees of some bytes: those before the first zero. */
  function Text(s: bytes): (t: bytes)
    ensures |t| <= |s| && NoNul(t)
    ensures NoNul(s) ==> t == s
  {
    if s == [] || s[0] == 0 then [] else [s[0]] + Text(s[1..])
  }

  function Clip(s: bytes): bytes {
    if |s| <= MAX_TEXT then s else s[..MAX_TEXT]
  }

  // ---------------------------------------------------------------- parsed names

  /** The host, service, proto and domain of a name, and how many of them have been filled. */
  datatype Name = Name(parts: nat, texts: seq<bytes>, sub: bool, invalid: bool)

  predicate NameOk(n: Name) {
    |n.texts| == 4 && n.parts <= 4
  }

  function Blank(): Name {
    Name(0, [[], [], [], []], false, false)
  }

  /** A fifth part makes a name invalid. */
  function Mark(n: Name): Name {
    if n.parts == 4 then n.(invalid := true) else n
  }

  /** A second label that cannot be a service or a domain belongs to a host name with dots. */
  predicate JoinsHost(n: Name, t: bytes) {
    && n.parts == 1
    && (t == [] || t[0] != UNDERSCORE)
    && !SameText(t, LOCAL) && !SameText(t, ARPA) && !SameText(t, IP6) && !SameText(t, IN_ADDR)
  }

  function AddLabel(n: Name, t: bytes): (r: Name)
    requires NameOk(n) && (n.parts == 4 ==> n.invalid)
    ensures NameOk(r) && n.parts <= r.parts <= n.parts + 1
  {
    if JoinsHost(n, t) then n.(texts := n.texts[0 := Clip(Clip(n.texts[0] + [DOT]) + t)])
    else if SameText(t, SUB) then n.(sub := true)
    else if !n.invalid then n.(texts := n.texts[n.parts := t], parts := n.parts + 1)
    else n
  }

  // ---------------------------------------------------------------- the reader

  datatype ReadResult = ReadResult(next: nat, name: Name)

  function Address(hi: byte, lo: byte): nat
    requires hi >= NAME_REF
  {
    (hi - NAME_REF) as int * 256 + lo as int
  }

  /** Reads the labels from `at` on, in a run that began at `start`; a pointer must go below `start`. */
  function Read(p: bytes, limit: nat, start: nat, at: nat, n: Name): (r: Option<ReadResult>)
    requires limit < |p| && NameOk(n)
    ensures r.Some? ==> NameOk(r.value.name) && r.value.next > at
    decreases start, if at < limit then limit - at else 0
  {
    if at >= limit || p[at] == 0 then Some(ReadResult(at + 1, n))
    else
      var len := p[at];
      if len < NAME_REF then
        if len > MAX_LABEL || at + 1 + len > limit then None
        else Read(p, limit, start, at + 1 + len, AddLabel(Mark(n), Text(p[at + 1..at + 1 + len])))
      else
        var address := Address(len, p[at + 1]);
        if address >= start then None
        else match Read(p, limit, address, address, Mark(n))
          case None => None
          case Some(r) => Some(ReadResult(at + 2, r.name))
  }

  /** Sorts the parts of a name into its fields, and checks the domain. */
  function Arrange(n: Name): Name
    requires NameOk(n)
  {
    if n.parts == 0 || n.invalid then n
    else
      var t := n.texts;
      var texts :=
        if n.parts == 3 then [[], t[0], t[1], t[2]]
        else if n.parts == 2 then [t[0], [], [], t[1]]
        else t;
      n.(texts := texts, invalid := !(SameText(texts[3], LOCAL) || SameText(texts[3], ARPA)))
  }

  function Parse(p: bytes, limit: nat, start: nat): Option<ReadResult>
    requires limit < |p|
  {
    match Read(p, limit, start, start, Blank())
    case None => None
    case Some(r) => Some(r.(name := Arrange(r.name)))
  }

  // ---------------------------------------------------------------- the reader, as the source runs it

  class NameRecord {
    var parts: nat
    var texts: seq<bytes>
    var sub: bool
    var invalid: bool

    ghost function View(): Name
      reads this
    {
      Name(parts, texts, sub, invalid)
    }

    constructor ()
      ensures View() == Blank()
    {
      parts, texts, sub, invalid := 0, [[], [], [], []], false, false;
    }

    method Reset()
      modifies this
      ensures View() == Blank()
    {
      parts, texts, sub, invalid := 0, [[], [], [], []], false, false;
    }

    /** Files one label: joined to the host, noted as a subtype, or as the next part. */
    method File(t: bytes)
      requires NameOk(View()) && (parts == 4 ==> invalid)
      modifies this
      ensures View() == AddLabel(old(View()), t)
    {
      if parts == 1 && (t == [] || t[0] != UNDERSCORE)
         && !SameText(t, LOCAL) && !SameText(t, ARPA) && !SameText(t, IP6) && !SameText(t, IN_ADDR)
      {
        texts := texts[0 := Clip(texts[0] + [DOT])];
        texts := texts[0 := Clip(texts[0] + t)];
      } else if SameText(t, SUB) {
        sub := true;
      } else if !invalid {
        texts := texts[parts := t];
        parts := parts + 1;
      }
    }
  }

  /** Copies a label out of the packet, unless the packet ends first. */
  method CopyLabel(packet: array<byte>, at: nat, len: nat, limit: nat) returns (r: Option<bytes>)
    requires limit < packet.Length
    ensures r == if len > 0 && at + len > limit then None else if len == 0 then Some([]) else Some(packet[at..at + len])
  {
    var bs: bytes := [];
    for i := 0 to len
      invariant |bs| == i && (i > 0 ==> at + i <= limit && bs == packet[at..at + i])
    {
      if at + i >= limit {
        return None;
      }
      bs := bs + [packet[at + i]];
    }
    return Some(bs);
  }

  /** Copies a label and files it, unless the packet ends first. */
  method FileLabel(packet: array<byte>, at: nat, len: nat, limit: nat, name: NameRecord) returns (filed: bool)
    requires limit < packet.Length && len > 0 && NameOk(name.View()) && (name.parts == 4 ==> name.invalid)
    modifies name
    ensures filed <==> at + len <= limit
    ensures name.View() ==
      if filed then AddLabel(old(name.View()), Text(packet[at..at + len])) else old(name.View())
  {
    hide AddLabel, Text;
    var copied := CopyLabel(packet, at, len, limit);
    if copied == None {
      return false;
    }
    name.File(Text(copied.value));
    return true;
  }

  lemma ReadUnfold(p: bytes, limit: nat, start: nat, at: nat, n: Name)
    requires limit < |p| && NameOk(n)
    ensures at >= limit || p[at] == 0 ==> Read(p, limit, start, at, n) == Some(ReadResult(at + 1, n))
    ensures at < limit && 0 < p[at] < NAME_REF ==>
      var next := at + 1 + p[at];
      Read(p, limit, start, at, n) ==
        if p[at] > MAX_LABEL || next > limit then None
        else Read(p, limit, start, next, AddLabel(Mark(n), Text(p[at + 1..next])))
    ensures at < limit && p[at] >= NAME_REF ==>
      var address := Address(p[at], p[at + 1]);
      && (address >= start ==> Read(p, limit, start, at, n) == None)
      && (address < start ==> match Read(p, limit, address, address, Mark(n))
                              case None => Read(p, limit, start, at, n) == None
                              case Some(r) => Read(p, limit, start, at, n) == Some(ReadResult(at + 2, r.name)))
  {
    hide AddLabel, Text, Address;
  }

  method ReadFqdn(packet: array<byte>, start: nat, name: NameRecord, limit: nat) returns (next: Option<nat>)
    requires limit < packet.Length && NameOk(name.View())
    modifies name
    ensures NameOk(name.View())
    ensures match Read(packet[..], limit, start, start, old(name.View()))
      case None => next == None
      case Some(r) => next == Some(r.next) && name.View() == r.name
    decreases start
  {
    hide Read, AddLabel, SameText, Text;
    var at := start;
    ghost var p := packet[..];
    ReadUnfold(p, limit, start, at, name.View());
    while at < limit && packet[at] != 0
      invariant at >= start && NameOk(name.View()) && packet[..] == p
      invariant Read(p, limit, start, start, old(name.View())) == Read(p, limit, start, at, name.View())
      invariant at >= limit || packet[at] == 0 ==>
        Read(p, limit, start, at, name.View()) == Some(ReadResult(at + 1, name.View()))
      decreases if at < limit then limit - at else 0
    {
      ReadUnfold(p, limit, start, at, name.View());
      if name.parts == 4 {
        name.invalid := true;
      }
      var len := packet[at];
      at := at + 1;
      if len < NAME_REF {
        if len > MAX_LABEL {
          return None;
        }
        var filed := FileLabel(packet, at, len, limit, name);
        if !filed {
          return None;
        }
        at := at + len;
        ReadUnfold(p, limit, start, at, name.View());
      } else {
        var address := Address(len, packet[at]);
        if address >= start {
          return None;
        }
        var r := ReadFqdn(packet, address, name, limit);
        return if r.Some? then Some(at + 1) else None;
      }
    }
    return Some(at + 1);
  }

  method ParseFqdn(packet: array<byte>, start: nat, name: NameRecord, limit: nat) returns (next: Option<nat>)
    requires limit < packet.Length
    modifies name
    ensures match Parse(packet[..], limit, start)
      case None => next == None
      case Some(r) => next == Some(r.next) && name.View() == r.name
  {
    name.Reset();
    next := ReadFqdn(packet, start, name, limit);
    if next == None || name.parts == 0 || name.invalid {
      return;
    }
    if name.parts == 3 {
      name.texts := [[]] + name.texts[..3];
    } else if name.parts == 2 {
      name.texts := [name.texts[0], [], [], name.texts[1]];
    }
    if SameText(name.texts[3], LOCAL) || SameText(name.texts[3], ARPA) {
      return;
    }
    name.invalid := true;
  }

  // ---------------------------------------------------------------- the writer

  /** Overwrites the packet from `index` on. */
  function Put(p: bytes, index: nat, bs: bytes): (r: bytes)
    requires index + |bs| <= |p|
    ensures |r| == |p| && r[..index] == p[..index]
    ensures r[index..index + |bs|] == bs && r[index + |bs|..] == p[index + |bs|..]
  {
    p[..index] + bs + p[index + |bs|..]
  }

  predicate IsLabel(s: bytes) {
    1 <= |s| <= MAX_LABEL && NoNul(s)
  }

  predicate AreLabels(ss: seq<bytes>) {
    forall i :: 0 <= i < |ss| ==> IsLabel(ss[i])
  }

  /** Whether the bytes at `loc` can stand for the name `strings`. */
  predicate Matches(p: bytes, loc: nat, strings: seq<bytes>)
    requires |p| == MEMORY && loc < MAX_PACKET_SIZE && strings != [] && IsLabel(strings[0])
  {
    && p[loc] as int == |strings[0]|
    && p[loc + 1..loc + 1 + |strings[0]|] == strings[0]
    && var r := Read(p, MAX_PACKET_SIZE, loc, loc, Blank());
       && r.Some?
       && r.value.name.parts == |strings|
       && forall i :: 0 <= i < |strings| ==> SameText(strings[i], r.value.name.texts[i])
  }

  /** The first position from `loc` on, below `index`, that can stand for the name. */
  function Search(p: bytes, index: nat, loc: nat, strings: seq<bytes>): (r: Option<nat>)
    requires |p| == MEMORY && loc <= index <= MAX_PACKET_SIZE && strings != [] && IsLabel(strings[0])
    ensures r.Some? ==> loc <= r.value < index && Matches(p, r.value, strings)
    ensures r == None ==> forall l :: loc <= l < index ==> !Matches(p, l, strings)
    decreases index - loc
  {
    if loc == index then None
    else if Matches(p, loc, strings) then Some(loc)
    else Search(p, index, loc + 1, strings)
  }

  /** The packet, the new end of its written part, and the number of bytes the writer reports. */
  datatype Written = Written(packet: bytes, index: nat, count: nat)

  function PointerTo(loc: nat): bytes
    requires loc < MAX_PACKET_SIZE
  {
    [(NAME_REF as int + loc / 256) as byte, loc % 256]
  }

  function LabelBytes(s: bytes): bytes
    requires IsLabel(s)
  {
    [|s| as byte] + s
  }

  function AppendFqdn(p: bytes, index: nat, strings: seq<bytes>): (w: Written)
    requires |p| == MEMORY && index <= MAX_PACKET_SIZE && AreLabels(strings)
    ensures |w.packet| == MEMORY && index <= w.index <= MAX_PACKET_SIZE && w.index == index + w.count
    ensures w.packet[..index] == p[..index]
    decreases |strings|
  {
    if strings == [] then
      if index >= MAX_PACKET_SIZE then Written(p, index, 0) else Written(Put(p, index, [0]), index + 1, 1)
    else match Search(p, index, 0, strings)
      case Some(loc) =>
        if index + 1 >= MAX_PACKET_SIZE then Written(p, index, 0)
        else Written(Put(p, index, PointerTo(loc)), index + 2, 2)
      case None =>
        var len := |strings[0]|;
        if index + len + 1 >= MAX_PACKET_SIZE then Written(p, index, 0)
        else
          var p1 := Put(p, index, LabelBytes(strings[0]));
          var rest := AppendFqdn(p1, index + len + 1, strings[1..]);
          assert rest.packet[..index] == rest.packet[..index + len + 1][..index] == p1[..index];
          rest.(count := len + 1 + rest.count)
  }

  // ---------------------------------------------------------------- the writer, as the source runs it

  /** Compares a name label by label, up to case. */
  method AllSame(strings: seq<bytes>, texts: seq<bytes>) returns (same: bool)
    requires |strings| <= |texts|
    ensures same <==> forall i :: 0 <= i < |strings| ==> SameText(strings[i], texts[i])
  {
    hide SameText;
    for i := 0 to |strings|
      invariant forall j :: 0 <= j < i ==> SameText(strings[j], texts[j])
    {
      if !SameText(strings[i], texts[i]) {
        return false;
      }
    }
    return true;
  }

  /** The test that the search loop runs at one position. */
  method Fits(packet: array<byte>, loc: nat, strings: seq<bytes>, name: NameRecord) returns (found: bool)
    requires packet.Length == MEMORY && loc < MAX_PACKET_SIZE && strings != [] && AreLabels(strings)
    requires packet[loc] as int == |strings[0]|
    modifies name
    ensures found <==> Matches(packet[..], loc, strings)
  {
    hide Read, SameText;
    var len := |strings[0]|;
    if packet[loc + 1..loc + 1 + len] != strings[0] {
      return false;
    }
    name.Reset();
    var content := ReadFqdn(packet, loc, name, MAX_PACKET_SIZE);
    if content == None || name.parts != |strings| {
      return false;
    }
    found := AllSame(strings, name.texts);
  }

  method AppendU8(packet: array<byte>, index: nat, value: byte) returns (written: nat)
    requires packet.Length == MEMORY && index <= MAX_PACKET_SIZE
    modifies packet
    ensures index < MAX_PACKET_SIZE ==> written == 1 && packet[..] == Put(old(packet[..]), index, [value])
    ensures index == MAX_PACKET_SIZE ==> written == 0 && packet[..] == old(packet[..])
  {
    if index >= MAX_PACKET_SIZE {
      return 0;
    }
    packet[index] := value;
    return 1;
  }

  /** Looks for the length byte of the first label, and tests what follows each one found. */
  method FindName(packet: array<byte>, index: nat, strings: seq<bytes>, name: NameRecord) returns (r: Option<nat>)
    requires packet.Length == MEMORY && index <= MAX_PACKET_SIZE && strings != [] && AreLabels(strings)
    modifies name
    ensures r == Search(packet[..], index, 0, strings)
  {
    hide Matches;
    var len := |strings[0]|;
    var loc := 0;
    while loc < index
      invariant loc <= index
      invariant Search(packet[..], index, 0, strings) == Search(packet[..], index, loc, strings)
    {
      if packet[loc] as int == len {
        var found := Fits(packet, loc, strings, name);
        if found {
          return Some(loc);
        }
      } else {
        OtherLength(packet[..], loc, strings);
      }
      loc := loc + 1;
    }
    return None;
  }

  lemma OtherLength(p: bytes, loc: nat, strings: seq<bytes>)
    requires |p| == MEMORY && loc < MAX_PACKET_SIZE && strings != [] && IsLabel(strings[0])
    requires p[loc] as int != |strings[0]|
    ensures !Matches(p, loc, strings)
  {
  }

  method PutBytes(packet: array<byte>, index: nat, bs: bytes)
    requires index + |bs| <= packet.Length
    modifies packet
    ensures packet[..] == Put(old(packet[..]), index, bs)
  {
    forall i | 0 <= i < |bs| {
      packet[index + i] := bs[i];
    }
  }

  /** Writes a name; whatever part of it the packet already holds is replaced by a pointer. */
  method WriteFqdn(packet: array<byte>, index: nat, strings: seq<bytes>, name: NameRecord)
    returns (end: nat, written: nat)
    requires packet.Length == MEMORY && index <= MAX_PACKET_SIZE && AreLabels(strings)
    modifies packet, name
    ensures Written(packet[..], end, written) == AppendFqdn(old(packet[..]), index, strings)
    decreases |strings|
  {
    hide Search, Matches, Put;
    if strings == [] {
      written := AppendU8(packet, index, 0);
      return index + written, written;
    }
    var location := FindName(packet, index, strings, name);
    match location {
      case None =>
        var len := |strings[0]|;
        if index + len + 1 >= MAX_PACKET_SIZE {
          return index, 0;
        }
        PutBytes(packet, index, [len as byte] + strings[0]);
        var e, w := WriteFqdn(packet, index + len + 1, strings[1..], name);
        return e, len + 1 + w;
      case Some(loc) =>
        if index + 1 >= MAX_PACKET_SIZE {
          return index, 0;
        }
        PutBytes(packet, index, [(NAME_REF as int + loc / 256) as byte, loc % 256]);
        return index + 2, 2;
    }
  }

  // ---------------------------------------------------------------- reference decoder

  /** The labels of a name and the position behind its encoding. */
  datatype Decoded = Decoded(labels: seq<bytes>, next: nat)

  /**
   * Decodes a name as section 4.1.4 of RFC 1035 defines it, strictly inside the first `limit` bytes:
   * labels of at most 63 bytes up to a zero byte, or up to a pointer to the rest of the name.  The
   * rest must be behind the header, earlier than the run it is pointed to from, and not empty.
   */
  function Decode(p: bytes, limit: nat, start: nat, at: nat): (d: Option<Decoded>)
    requires limit <= |p|
    ensures d.Some? ==> at < d.value.next <= limit
    decreases start, if at < limit then limit - at else 0
  {
    if at >= limit then None
    else if p[at] == 0 then Some(Decoded([], at + 1))
    else if p[at] < NAME_REF then
      var next := at + 1 + p[at];
      if p[at] > MAX_LABEL || next > limit then None
      else match Decode(p, limit, start, next)
        case None => None
        case Some(d) => Some(Decoded([Text(p[at + 1..next])] + d.labels, d.next))
    else if at + 1 >= limit then None
    else
      var address := Address(p[at], p[at + 1]);
      if address < HEAD_LEN || address >= start then None
      else match Decode(p, limit, address, address)
        case None => None
        case Some(d) => if d.labels == [] then None else Some(Decoded(d.labels, at + 2))
  }

  lemma SameSlice(p: bytes, p': bytes, lo: nat, hi: nat, i: nat, j: nat)
    requires lo <= i <= j <= hi <= |p| && hi <= |p'| && p[lo..hi] == p'[lo..hi]
    ensures p[i..j] == p'[i..j] && (i < j ==> p[i] == p'[i])
  {
    forall k | lo <= k < hi ensures p[k] == p'[k] {
      assert p[k] == p[lo..hi][k - lo] && p'[k] == p'[lo..hi][k - lo];
    }
  }

  /** Decoding looks only at the bytes between the header and its limit. */
  lemma {:induction false} DecodePrefix(p: bytes, limit: nat, p': bytes, limit': nat, start: nat, at: nat)
    requires HEAD_LEN <= at && HEAD_LEN <= limit <= |p| && limit <= limit' <= |p'|
    requires p[HEAD_LEN..limit] == p'[HEAD_LEN..limit]
    requires Decode(p, limit, start, at).Some?
    ensures Decode(p', limit', start, at) == Decode(p, limit, start, at)
    decreases start, if at < limit then limit - at else 0
  {
    hide Text, Address;
    SameSlice(p, p', HEAD_LEN, limit, at, at + 1);
    if p[at] == 0 {
    } else if p[at] < NAME_REF {
      var next := at + 1 + p[at];
      DecodePrefix(p, limit, p', limit', start, next);
      SameSlice(p, p', HEAD_LEN, limit, at + 1, next);
    } else {
      SameSlice(p, p', HEAD_LEN, limit, at + 1, at + 2);
      var address := Address(p[at], p[at + 1]);
      DecodePrefix(p, limit, p', limit', address, address);
    }
  }

  /** Filing the labels one after another. */
  function FileAll(n: Name, labels: seq<bytes>): (r: Name)
    requires NameOk(n)
    ensures NameOk(r)
    decreases |labels|
  {
    if labels == [] then n else FileAll(AddLabel(Mark(n), labels[0]), labels[1..])
  }

  /** Wherever the reference decoder succeeds, the reader files exactly the decoded labels. */
  lemma {:induction false} ReadIsDecode(p: bytes, limit: nat, limit': nat, start: nat, at: nat, n: Name)
    requires limit <= limit' < |p| && NameOk(n)
    requires Decode(p, limit, start, at).Some?
    ensures var d := Decode(p, limit, start, at).value;
      Read(p, limit', start, at, n) == Some(ReadResult(d.next, FileAll(n, d.labels)))
    decreases start, if at < limit then limit - at else 0
  {
    hide AddLabel, Text;
    if p[at] == 0 {
    } else if p[at] < NAME_REF {
      var next := at + 1 + p[at];
      ReadIsDecode(p, limit, limit', start, next, AddLabel(Mark(n), Text(p[at + 1..next])));
    } else {
      var address := Address(p[at], p[at + 1]);
      ReadIsDecode(p, limit, limit', address, address, Mark(n));
      assert Mark(Mark(n)) == Mark(n);
    }
  }

  // ---------------------------------------------------------------- the writer is correct

  predicate SameTexts(a: seq<bytes>, b: seq<bytes>) {
    |a| == |b| && forall i :: 0 <= i < |a| ==> SameText(a[i], b[i])
  }

  /** When each label filed became a part, the parts are the labels. */
  lemma {:induction false} FiledAsParts(n: Name, labels: seq<bytes>)
    requires NameOk(n)
    ensures n.parts <= FileAll(n, labels).parts <= n.parts + |labels|
    ensures var r := FileAll(n, labels);
      r.parts == n.parts + |labels| ==>
        && (forall i :: 0 <= i < n.parts && labels != [] ==> r.texts[i] == n.texts[i])
        && forall i :: 0 <= i < |labels| ==> r.texts[n.parts + i] == labels[i]
    decreases |labels|
  {
    if labels != [] {
      var m := AddLabel(Mark(n), labels[0]);
      FiledAsParts(m, labels[1..]);
      FiledOnce(n, labels[0]);
    }
  }

  lemma FiledOnce(n: Name, t: bytes)
    requires NameOk(n)
    ensures var m := AddLabel(Mark(n), t);
      m.parts == n.parts + 1 ==> m.texts == n.texts[n.parts := t]
  {
  }

  /** The bytes the writer needs at most. */
  function Room(strings: seq<bytes>): nat {
    if strings == [] then 0 else |strings[0]| + 1 + Room(strings[1..])
  }

  /** No step of writing the name runs out of room: neither a label, nor a pointer, nor the final zero byte. */
  predicate NameFits(p: bytes, index: nat, strings: seq<bytes>)
    decreases |strings|
  {
    && |p| == MEMORY && index < MAX_PACKET_SIZE && AreLabels(strings)
    && (strings == [] ||
        match Search(p, index, 0, strings)
        case Some(_) => index + 1 < MAX_PACKET_SIZE
        case None =>
          && index + |strings[0]| + 1 < MAX_PACKET_SIZE
          && NameFits(Put(p, index, LabelBytes(strings[0])), index + |strings[0]| + 1, strings[1..]))
  }

  /** Room for all the labels and a zero byte is enough, though a pointer may need less. */
  lemma {:induction false} RoomIsEnough(p: bytes, index: nat, strings: seq<bytes>)
    requires |p| == MEMORY && index + Room(strings) < MAX_PACKET_SIZE && AreLabels(strings)
    ensures NameFits(p, index, strings)
    decreases |strings|
  {
    hide Search, Put;
    if strings != [] && Search(p, index, 0, strings) == None {
      RoomIsEnough(Put(p, index, LabelBytes(strings[0])), index + |strings[0]| + 1, strings[1..]);
    }
  }

  lemma FitsFacts(p: bytes, index: nat, strings: seq<bytes>)
    requires NameFits(p, index, strings)
    ensures |p| == MEMORY && index < MAX_PACKET_SIZE && AreLabels(strings)
  {
  }

  /** A name that fits is written whole, in at most the room of its labels and a zero byte. */
  lemma {:induction false} AppendFits(p: bytes, index: nat, strings: seq<bytes>)
    requires NameFits(p, index, strings)
    ensures index < AppendFqdn(p, index, strings).index <= index + Room(strings) + 1
    ensures strings != [] ==> index + 2 <= AppendFqdn(p, index, strings).index
    decreases |strings|
  {
    hide Search, Matches, Put;
    if strings != [] && Search(p, index, 0, strings) == None {
      AppendFits(Put(p, index, LabelBytes(strings[0])), index + |strings[0]| + 1, strings[1..]);
    }
  }

  /** At `loc`, wholly between the header and `base`, stands a name of exactly `count` labels. */
  predicate PlainAt(p: bytes, base: nat, loc: nat, count: nat)
    requires base <= |p|
  {
    loc >= HEAD_LEN && Decode(p, base, loc, loc).Some? && |Decode(p, base, loc, loc).value.labels| == count
  }

  /**
   * Whenever the writer, after any number of labels written out, finds the rest of the name somewhere
   * below `base`, then what it found is a plain name in the bytes below `base`.
   */
  predicate FindsPlain(p: bytes, base: nat, index: nat, strings: seq<bytes>)
    requires base <= index && NameFits(p, index, strings)
    decreases |strings|
  {
    strings == [] ||
    match Search(p, index, 0, strings)
    case Some(loc) => loc < base ==> PlainAt(p, base, loc, |strings|)
    case None => FindsPlain(Put(p, index, LabelBytes(strings[0])), base, index + |strings[0]| + 1, strings[1..])
  }

  /** Whether the place that the writer points to, if it points anywhere, is below `base`. */
  predicate FindsBelow(p: bytes, base: nat, index: nat, strings: seq<bytes>)
    requires base <= index && NameFits(p, index, strings)
    decreases |strings|
  {
    strings == [] ||
    match Search(p, index, 0, strings)
    case Some(loc) => loc < base
    case None => FindsBelow(Put(p, index, LabelBytes(strings[0])), base, index + |strings[0]| + 1, strings[1..])
  }

  /** A place that the writer accepted, when it holds a plain name, holds the name looked for. */
  lemma AcceptedIsName(p: bytes, base: nat, loc: nat, strings: seq<bytes>)
    requires |p| == MEMORY && loc < base <= MAX_PACKET_SIZE && strings != [] && IsLabel(strings[0])
    requires Matches(p, loc, strings) && PlainAt(p, base, loc, |strings|)
    ensures var labels := Decode(p, base, loc, loc).value.labels;
      SameTexts(strings, labels) && labels[0] == strings[0]
  {
    hide SameText;
    var d := Decode(p, base, loc, loc).value;
    ReadIsDecode(p, base, MAX_PACKET_SIZE, loc, loc, Blank());
    FiledAsParts(Blank(), d.labels);
    assert p[loc + 1..loc + 1 + p[loc]] == strings[0];
  }

  ghost predicate Decodes(p: bytes, limit: nat, start: nat, at: nat, end: nat, strings: seq<bytes>)
    requires limit <= |p|
  {
    var d := Decode(p, limit, start, at);
    && d.Some? && d.value.next == end
    && SameTexts(strings, d.value.labels)
    && (strings != [] ==> d.value.labels[0] == strings[0])
  }

  /** The packets agree between the header and `base`, and from `index` to `end`. */
  ghost predicate Agree(r: bytes, q: bytes, base: nat, index: nat, end: nat)
    requires |r| == |q| == MEMORY && HEAD_LEN <= base <= index <= end <= MEMORY
  {
    r[HEAD_LEN..base] == q[HEAD_LEN..base] && r[index..end] == q[index..end]
  }

  /**
   * What the writer appends at `index` for a name whose encoding began at `start` decodes to that
   * name: the first label exactly, the others up to case, and it ends where the writer stopped.  It
   * still does in any packet `r` in which only bytes between `base` and `index` have changed.
   */
  lemma {:induction false} AppendDecodes(p: bytes, base: nat, start: nat, index: nat, strings: seq<bytes>, r: bytes)
    requires |r| == MEMORY && HEAD_LEN <= base <= start <= index && NameFits(p, index, strings)
    requires FindsPlain(p, base, index, strings) && FindsBelow(p, base, index, strings)
    requires var w := AppendFqdn(p, index, strings); Agree(r, w.packet, base, index, w.index)
    ensures var w := AppendFqdn(p, index, strings);
      && index < w.index <= index + Room(strings) + 1
      && Decodes(r, w.index, start, index, w.index, strings)
    decreases |strings|
  {
    hide Search, Put, Decodes, LabelBytes, FindsPlain, FindsBelow, Room, AppendFqdn, Agree, NameFits;
    FitsFacts(p, index, strings);
    if strings == [] {
      EndDecodes(p, base, start, index, r);
    } else if Search(p, index, 0, strings) == None {
      FindsRest(p, base, index, strings);
      LiteralStep(p, base, index, strings, r);
      AppendDecodes(Put(p, index, LabelBytes(strings[0])), base, start, index + |strings[0]| + 1, strings[1..], r);
      LabelDecodes(r, start, index, AppendFqdn(p, index, strings).index, strings);
    } else {
      FoundDecodes(p, base, start, index, strings, r);
    }
  }

  lemma FoundDecodes(p: bytes, base: nat, start: nat, index: nat, strings: seq<bytes>, r: bytes)
    requires |r| == MEMORY && HEAD_LEN <= base <= start <= index && strings != [] && NameFits(p, index, strings)
    requires FindsPlain(p, base, index, strings) && FindsBelow(p, base, index, strings)
    requires Search(p, index, 0, strings).Some?
    requires var w := AppendFqdn(p, index, strings); Agree(r, w.packet, base, index, w.index)
    ensures var w := AppendFqdn(p, index, strings);
      && index < w.index <= index + Room(strings) + 1
      && Decodes(r, w.index, start, index, w.index, strings)
  {
    hide Search, Matches, Put, Decodes, PlainAt;
    var w := AppendFqdn(p, index, strings);
    SameSlice(w.packet, p, 0, index, HEAD_LEN, base);
    PointerDecodes(p, base, start, index, Search(p, index, 0, strings).value, strings, r);
  }

  lemma FindsRest(p: bytes, base: nat, index: nat, strings: seq<bytes>)
    requires base <= index && NameFits(p, index, strings)
    requires strings != [] && Search(p, index, 0, strings) == None
    requires FindsPlain(p, base, index, strings) && FindsBelow(p, base, index, strings)
    ensures var (next, p1) := (index + |strings[0]| + 1, Put(p, index, LabelBytes(strings[0])));
      && NameFits(p1, next, strings[1..])
      && Room(strings) == |strings[0]| + 1 + Room(strings[1..])
      && FindsPlain(p1, base, next, strings[1..]) && FindsBelow(p1, base, next, strings[1..])
  {
    hide Search, Put;
  }

  lemma LiteralStep(p: bytes, base: nat, index: nat, strings: seq<bytes>, r: bytes)
    requires |r| == MEMORY && HEAD_LEN <= base <= index && strings != [] && NameFits(p, index, strings)
    requires Search(p, index, 0, strings) == None
    requires var w := AppendFqdn(p, index, strings); Agree(r, w.packet, base, index, w.index)
    ensures var next := index + |strings[0]| + 1;
      var w := AppendFqdn(p, index, strings);
      var w1 := AppendFqdn(Put(p, index, LabelBytes(strings[0])), next, strings[1..]);
      && w.packet == w1.packet && w.index == w1.index
      && Agree(r, w1.packet, base, next, w1.index)
      && r[index..next] == LabelBytes(strings[0])
  {
    hide Search;
    var next := index + |strings[0]| + 1;
    var p1 := Put(p, index, LabelBytes(strings[0]));
    var w1 := AppendFqdn(p1, next, strings[1..]);
    SameSlice(r, w1.packet, index, w1.index, next, w1.index);
    SameSlice(r, w1.packet, index, w1.index, index, next);
    SameSlice(w1.packet, p1, 0, next, index, next);
  }

  lemma EndDecodes(p: bytes, base: nat, start: nat, index: nat, r: bytes)
    requires |p| == |r| == MEMORY && HEAD_LEN <= base <= start <= index < MAX_PACKET_SIZE
    requires var w := AppendFqdn(p, index, []); Agree(r, w.packet, base, index, w.index)
    ensures var w := AppendFqdn(p, index, []);
      index < w.index <= index + Room([]) + 1 && Decodes(r, w.index, start, index, w.index, [])
  {
    assert r[index] == r[index..index + 1][0] == Put(p, index, [0])[index..index + 1][0];
  }

  lemma PointerDecodes(p: bytes, base: nat, start: nat, index: nat, loc: nat, strings: seq<bytes>, r: bytes)
    requires |p| == |r| == MEMORY && HEAD_LEN <= base <= start <= index && loc < base && index + 1 < MAX_PACKET_SIZE
    requires strings != [] && AreLabels(strings)
    requires Matches(p, loc, strings) && PlainAt(p, base, loc, |strings|)
    requires r[HEAD_LEN..base] == p[HEAD_LEN..base] && r[index..index + 2] == PointerTo(loc)
    ensures Decodes(r, index + 2, start, index, index + 2, strings)
  {
    hide Matches, SameText, SameTexts, Decode;
    AcceptedIsName(p, base, loc, strings);
    DecodePrefix(p, base, r, index + 2, loc, loc);
    PointerRead(r, index, loc);
    SameTextsLength(strings, Decode(p, base, loc, loc).value.labels);
    PointerUnfold(r, index + 2, start, index, loc);
  }

  lemma PointerRead(r: bytes, index: nat, loc: nat)
    requires index + 2 <= |r| && loc < MAX_PACKET_SIZE && r[index..index + 2] == PointerTo(loc)
    ensures r[index] >= NAME_REF && Address(r[index], r[index + 1]) == loc
  {
    assert r[index] == r[index..index + 2][0] && r[index + 1] == r[index..index + 2][1];
  }

  lemma SameTextsLength(a: seq<bytes>, b: seq<bytes>)
    requires SameTexts(a, b)
    ensures |a| == |b|
  {
  }

  lemma PointerUnfold(p: bytes, limit: nat, start: nat, at: nat, loc: nat)
    requires at + 2 <= limit <= |p| && p[at] >= NAME_REF && HEAD_LEN <= Address(p[at], p[at + 1]) == loc < start
    requires Decode(p, limit, loc, loc).Some? && Decode(p, limit, loc, loc).value.labels != []
    ensures Decode(p, limit, start, at) == Some(Decoded(Decode(p, limit, loc, loc).value.labels, at + 2))
  {
  }

  lemma PointerInPlace(p: bytes, index: nat, loc: nat)
    requires index + 2 <= |p| && loc < MAX_PACKET_SIZE
    ensures var r := Put(p, index, PointerTo(loc)); r[index] >= NAME_REF && Address(r[index], r[index + 1]) == loc
  {
    var r := Put(p, index, PointerTo(loc));
    assert r[index] == r[index..index + 2][0] && r[index + 1] == r[index..index + 2][1];
  }

  lemma LabelDecodes(r: bytes, start: nat, index: nat, end: nat, strings: seq<bytes>)
    requires strings != [] && IsLabel(strings[0]) && index + |strings[0]| + 1 <= end <= |r|
    requires r[index..index + |strings[0]| + 1] == LabelBytes(strings[0])
    requires Decodes(r, end, start, index + |strings[0]| + 1, end, strings[1..])
    ensures Decodes(r, end, start, index, end, strings)
  {
    var len := |strings[0]|;
    assert r[index] == r[index..index + len + 1][0] && r[index + 1..index + len + 1] == r[index..index + len + 1][1..];
    SameTextSelf(strings[0]);
    var d := Decode(r, end, start, index + len + 1).value;
    assert Decode(r, end, start, index).value.labels == [strings[0]] + d.labels;
  }

  lemma LabelInPlace(p: bytes, index: nat, s: bytes, r: bytes)
    requires IsLabel(s) && index + |s| + 1 <= |p| == |r|
    requires r[..index + |s| + 1] == Put(p, index, LabelBytes(s))[..index + |s| + 1]
    ensures r[index] as int == |s| && r[index + 1..index + 1 + |s|] == s
  {
    var q := Put(p, index, LabelBytes(s));
    assert q[index..index + |LabelBytes(s)|] == LabelBytes(s);
    assert forall i :: 0 <= i <= |s| ==>
      r[index + i] == r[..index + |s| + 1][index + i] == q[index + i] == LabelBytes(s)[i];
  }

  lemma SameTextSelf(s: bytes)
    ensures SameText(s, s)
  {
  }

  // ---------------------------------------------------------------- round trip

  predicate IsDomain(s: bytes) {
    SameText(s, LOCAL) || SameText(s, ARPA)
  }

  /**
   * Host and domain; service, proto and domain; or all four.  The second label is a service or proto
   * that starts with an underscore, or the domain, and none is the subtype marker.
   */
  predicate IsName(strings: seq<bytes>) {
    && 2 <= |strings| <= 4 && AreLabels(strings)
    && (forall i :: 0 <= i < |strings| ==> !SameText(strings[i], SUB))
    && IsDomain(strings[|strings| - 1])
    && (|strings| > 2 ==> strings[1][0] == UNDERSCORE)
  }

  /** The four fields in which the labels belong. */
  function Fields(s: seq<bytes>): (t: seq<bytes>)
    requires 2 <= |s| <= 4
    ensures |t| == 4
  {
    if |s| == 4 then s else if |s| == 3 then [[]] + s else [s[0], [], [], s[1]]
  }

  lemma SameTextFacts(a: bytes, b: bytes)
    requires SameText(a, b)
    ensures SameText(b, a)
    ensures forall c :: SameText(a, c) <==> SameText(b, c)
    ensures a != [] && a[0] == UNDERSCORE ==> b != [] && b[0] == UNDERSCORE
  {
    if a != [] {
      assert Lower(a[0]) == Lower(b[0]);
    }
  }

  /** A label that is not the subtype marker and cannot join the host becomes the next part. */
  lemma FilesNext(n: Name, t: bytes)
    requires NameOk(n) && n.parts < 4 && !n.invalid && !SameText(t, SUB) && !JoinsHost(n, t)
    ensures AddLabel(Mark(n), t) == n.(texts := n.texts[n.parts := t], parts := n.parts + 1)
  {
  }

  /** Up to four such labels become the parts, in order. */
  lemma {:induction false} FilesRest(n: Name, labels: seq<bytes>)
    requires NameOk(n) && n.parts + |labels| <= 4 && !n.invalid
    requires forall i :: 0 <= i < |labels| ==> !SameText(labels[i], SUB)
    requires forall i :: 0 <= i < |labels| && n.parts + i == 1 ==>
      labels[i] != [] && (labels[i][0] == UNDERSCORE || IsDomain(labels[i]))
    ensures var r := FileAll(n, labels);
      && r == n.(texts := r.texts, parts := n.parts + |labels|)
      && forall i :: 0 <= i < 4 ==>
           r.texts[i] == if n.parts <= i < n.parts + |labels| then labels[i - n.parts] else n.texts[i]
    decreases |labels|
  {
    hide SameText, AddLabel;
    if labels != [] {
      NotJoining(n, labels[0]);
      FilesNext(n, labels[0]);
      FilesRest(AddLabel(Mark(n), labels[0]), labels[1..]);
    }
  }

  lemma NotJoining(n: Name, t: bytes)
    requires n.parts == 1 ==> t != [] && (t[0] == UNDERSCORE || IsDomain(t))
    ensures !JoinsHost(n, t)
  {
  }

  /** The labels of a name are filed one by one, in order. */
  lemma FiledParts(strings: seq<bytes>, labels: seq<bytes>)
    requires IsName(strings) && SameTexts(strings, labels)
    ensures var n := FileAll(Blank(), labels);
      && n == Blank().(texts := n.texts, parts := |labels|)
      && forall i :: 0 <= i < 4 ==> n.texts[i] == if i < |labels| then labels[i] else []
  {
    hide SameText, FileAll, IsDomain;
    LabelsFile(strings, labels);
    FilesRest(Blank(), labels);
  }

  lemma LabelsFile(strings: seq<bytes>, labels: seq<bytes>)
    requires IsName(strings) && SameTexts(strings, labels)
    ensures forall i :: 0 <= i < |labels| ==> !SameText(labels[i], SUB)
    ensures labels[1] != [] && (labels[1][0] == UNDERSCORE || IsDomain(labels[1]))
  {
    hide SameText;
    forall i | 0 <= i < |strings| ensures !SameText(labels[i], SUB) && (IsDomain(strings[i]) ==> IsDomain(labels[i])) {
      SameTextFacts(strings[i], labels[i]);
    }
    SameTextFacts(strings[1], labels[1]);
    assert labels[1] != [] by { SecondLabel(strings, labels); }
  }

  lemma FiledName(strings: seq<bytes>, labels: seq<bytes>)
    requires IsName(strings) && SameTexts(strings, labels)
    ensures Arrange(FileAll(Blank(), labels)) == Name(|strings|, Fields(labels), false, false)
  {
    hide SameText;
    FiledParts(strings, labels);
    var n := FileAll(Blank(), labels);
    assert n.texts == labels + [[], [], [], []][|labels|..];
    SameTextFacts(strings[|strings| - 1], labels[|strings| - 1]);
  }

  lemma SecondLabel(strings: seq<bytes>, labels: seq<bytes>)
    requires IsName(strings) && SameTexts(strings, labels)
    ensures labels[1] != []
  {
  }

  /** The name read is the name written: the first label exactly, the others up to case. */
  ghost predicate ParsesTo(p: bytes, limit: nat, start: nat, end: nat, strings: seq<bytes>)
    requires limit < |p| && 2 <= |strings| <= 4
  {
    exists labels ::
      && SameTexts(strings, labels) && labels[0] == strings[0]
      && Parse(p, limit, start) == Some(ReadResult(end, Name(|strings|, Fields(labels), false, false)))
  }

  /** A pointer that does not go below the start of the name makes the name unreadable. */
  lemma {:induction false} PointsBackFails(p: bytes, start: nat, index: nat, strings: seq<bytes>, limit: nat, n: Name)
    requires start <= index && NameFits(p, index, strings)
    requires !FindsBelow(p, start, index, strings)
    requires AppendFqdn(p, index, strings).index <= limit < MEMORY && NameOk(n)
    ensures Read(AppendFqdn(p, index, strings).packet, limit, start, index, n) == None
    decreases |strings|
  {
    hide Search, Text, Put, AddLabel, Read, Room, AppendFqdn, FindsBelow, NameFits;
    FitsFacts(p, index, strings);
    NothingToFind(p, start, index);
    match Search(p, index, 0, strings)
    case Some(loc) =>
      PointsBackHere(p, start, index, strings, limit, n);
    case None =>
      var next := index + |strings[0]| + 1;
      var p1 := Put(p, index, LabelBytes(strings[0]));
      LabelWritten(p, start, index, strings);
      var m := AddLabel(Mark(n), Text(strings[0]));
      PointsBackFails(p1, start, next, strings[1..], limit, m);
      ReadLabel(AppendFqdn(p1, next, strings[1..]).packet, limit, start, index, |strings[0]|, n);
  }

  lemma NothingToFind(p: bytes, start: nat, index: nat)
    requires |p| == MEMORY && start <= index < MAX_PACKET_SIZE
    ensures NameFits(p, index, []) && FindsBelow(p, start, index, [])
  {
  }

  lemma PointsBackHere(p: bytes, start: nat, index: nat, strings: seq<bytes>, limit: nat, n: Name)
    requires start <= index && NameFits(p, index, strings)
    requires !FindsBelow(p, start, index, strings) && strings != [] && Search(p, index, 0, strings).Some?
    requires AppendFqdn(p, index, strings).index <= limit < MEMORY && NameOk(n)
    ensures Read(AppendFqdn(p, index, strings).packet, limit, start, index, n) == None
  {
    hide Search, Put, Read, Address;
    var loc := Search(p, index, 0, strings).value;
    PointerInPlace(p, index, loc);
    BadPointer(Put(p, index, PointerTo(loc)), limit, start, index, n);
  }

  /** What the writer does with a label it finds nowhere, and that the rest of the name is left to do. */
  lemma LabelWritten(p: bytes, start: nat, index: nat, strings: seq<bytes>)
    requires start <= index && NameFits(p, index, strings)
    requires strings != [] && Search(p, index, 0, strings) == None
    ensures var (len, p1) := (|strings[0]|, Put(p, index, LabelBytes(strings[0])));
      && NameFits(p1, index + len + 1, strings[1..])
      && FindsBelow(p, start, index, strings) == FindsBelow(p1, start, index + len + 1, strings[1..])
      && var (w, w1) := (AppendFqdn(p, index, strings), AppendFqdn(p1, index + len + 1, strings[1..]));
         && w.packet == w1.packet && w.index == w1.index >= index + len + 1
         && w.packet[index] as int == len && w.packet[index + 1..index + 1 + len] == strings[0]
  {
    hide Search, Matches;
    var p1 := Put(p, index, LabelBytes(strings[0]));
    var w1 := AppendFqdn(p1, index + |strings[0]| + 1, strings[1..]);
    LabelInPlace(p, index, strings[0], w1.packet);
  }

  lemma BadPointer(p: bytes, limit: nat, start: nat, at: nat, n: Name)
    requires at + 1 < limit < |p| && NameOk(n) && p[at] >= NAME_REF && Address(p[at], p[at + 1]) >= start
    ensures Read(p, limit, start, at, n) == None
  {
  }

  lemma ReadLabel(p: bytes, limit: nat, start: nat, at: nat, len: nat, n: Name)
    requires at + 1 + len <= limit < |p| && NameOk(n) && p[at] as int == len && 1 <= len <= MAX_LABEL
    ensures Read(p, limit, start, at, n) ==
              Read(p, limit, start, at + 1 + len, AddLabel(Mark(n), Text(p[at + 1..at + 1 + len])))
  {
  }

  /**
   * Compression round trip: provided that names found in the earlier packet are plain names, the name
   * written reads back as written if and only if the writer did not point into the new name itself;
   * otherwise it cannot be read at all.
   */
  lemma RoundTrip(p: bytes, index: nat, strings: seq<bytes>, limit: nat)
    requires HEAD_LEN <= index && NameFits(p, index, strings) && IsName(strings)
    requires FindsPlain(p, index, index, strings)
    requires AppendFqdn(p, index, strings).index <= limit < MEMORY
    ensures var w := AppendFqdn(p, index, strings);
      if FindsBelow(p, index, index, strings) then ParsesTo(w.packet, limit, index, w.index, strings)
      else Parse(w.packet, limit, index) == None
  {
    hide SameText, FindsPlain, FindsBelow, Put;
    var w := AppendFqdn(p, index, strings);
    if FindsBelow(p, index, index, strings) {
      AppendDecodes(p, index, index, index, strings, w.packet);
      var d := Decode(w.packet, w.index, index, index).value;
      ReadIsDecode(w.packet, w.index, limit, index, index, Blank());
      FiledName(strings, d.labels);
    } else {
      PointsBackFails(p, index, index, strings, limit, Blank());
    }
  }

  /** Every name that stood wholly in the written part still decodes and parses to what it did. */
  lemma EarlierNamesKept(p: bytes, index: nat, strings: seq<bytes>, a: nat, limit: nat)
    requires |p| == MEMORY && HEAD_LEN <= a && HEAD_LEN <= index <= MAX_PACKET_SIZE && AreLabels(strings)
    requires Decode(p, index, a, a).Some? && index <= limit < MEMORY
    ensures var w := AppendFqdn(p, index, strings);
      && Decode(w.packet, w.index, a, a) == Decode(p, index, a, a)
      && Parse(w.packet, limit, a) == Parse(p, limit, a)
  {
    hide AppendFqdn, Text;
    var w := AppendFqdn(p, index, strings);
    SameSlice(p, w.packet, 0, index, HEAD_LEN, index);
    DecodePrefix(p, index, w.packet, w.index, a, a);
    DecodePrefix(p, index, w.packet, index, a, a);
    ReadIsDecode(p, index, limit, a, a, Blank());
    ReadIsDecode(w.packet, index, limit, a, a, Blank());
  }

  /** A host named like the domain, in a fresh packet: the second label is taken for the whole name. */
  lemma HostNamedLikeDomain(p: bytes)
    requires |p| == MEMORY && forall i :: 0 <= i < MEMORY ==> p[i] == 0
    ensures NameFits(p, HEAD_LEN, [LOCAL, LOCAL])
    ensures IsName([LOCAL, LOCAL]) && FindsPlain(p, HEAD_LEN, HEAD_LEN, [LOCAL, LOCAL])
    ensures !FindsBelow(p, HEAD_LEN, HEAD_LEN, [LOCAL, LOCAL])
  {
    hide Matches, Put, SameText;
    var strings := [LOCAL, LOCAL];
    assert strings[1..] == [LOCAL] && [LOCAL][1..] == [];
    assert Room([LOCAL]) == 6;
    LocalIsName();
    RoomIsEnough(p, HEAD_LEN, strings);
    SearchSkips(p, 12, 0, 12, strings);
    var p1 := Put(p, 12, LabelBytes(LOCAL));
    AfterFirstLabel(p);
    OwnLabelMatches(p1);
    SearchSkips(p1, 18, 0, 12, [LOCAL]);
  }

  lemma LocalIsName()
    ensures IsName([LOCAL, LOCAL])
  {
    SameTextSelf(LOCAL);
  }

  lemma AfterFirstLabel(p: bytes)
    requires |p| == MEMORY && forall i :: 0 <= i < MEMORY ==> p[i] == 0
    ensures var p1 := Put(p, 12, LabelBytes(LOCAL));
      && (forall i :: 0 <= i < 12 ==> p1[i] == 0)
      && p1[12] == 5 && p1[13..18] == LOCAL && p1[18] == 0
  {
    var p1 := Put(p, 12, LabelBytes(LOCAL));
    assert forall i :: 0 <= i < 12 ==> p1[i] == p1[..12][i] == p[i];
    assert p1[18] == p1[18..][0] == p[18..][0] == 0;
    LabelInPlace(p, 12, LOCAL, p1);
  }

  lemma OwnLabelMatches(p: bytes)
    requires |p| == MEMORY && p[12] == 5 && p[13..18] == LOCAL && p[18] == 0
    ensures Matches(p, 12, [LOCAL])
  {
    var n := AddLabel(Mark(Blank()), LOCAL);
    assert Text(p[13..18]) == LOCAL;
    assert Read(p, MAX_PACKET_SIZE, 12, 18, n) == Some(ReadResult(19, n));
    assert Read(p, MAX_PACKET_SIZE, 12, 12, Blank()) == Some(ReadResult(19, n));
  }

  lemma {:induction false} SearchSkips(p: bytes, index: nat, first: nat, last: nat, strings: seq<bytes>)
    requires |p| == MEMORY && first <= last <= index <= MAX_PACKET_SIZE && strings != [] && IsLabel(strings[0])
    requires forall l :: first <= l < last ==> p[l] as int != |strings[0]|
    ensures Search(p, index, first, strings) == Search(p, index, last, strings)
    decreases last - first
  {
    if first < last {
      OtherLength(p, first, strings);
      SearchSkips(p, index, first + 1, last, strings);
    }
  }
}
