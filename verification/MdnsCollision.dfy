/**
 * Conflicts between responders on the same name: the tie-break that decides who keeps the name.
 */
module MdnsCollision {
  import opened Bytes
  import opened MdnsName
  import opened MdnsMessage

  // ---------------------------------------------------------------- the order of record data

  datatype Verdict = TheyWin | Same | WeWin

  function Opposite(v: Verdict): Verdict {
    match v
    case TheyWin => WeWin
    case Same => Same
    case WeWin => TheyWin
  }

  /** The comparison of two byte strings of one length by their first difference. */
  function Memcmp(a: bytes, b: bytes): (c: int)
    requires |a| == |b|
  {
    if a == [] then 0
    else if a[0] != b[0] then a[0] - b[0]
    else Memcmp(a[1..], b[1..])
  }

  /** The longer data wins; between data of one length, the greater byte at the first difference. */
  function Contest(ours: bytes, theirs: bytes): Verdict {
    if |theirs| > |ours| then TheyWin
    else if |theirs| < |ours| then WeWin
    else
      var c := Memcmp(ours, theirs);
      if c > 0 then WeWin else if c < 0 then TheyWin else Same
  }

  lemma {:induction false} MemcmpOrder(a: bytes, b: bytes, c: bytes)
    requires |a| == |b| == |c|
    ensures Memcmp(a, b) == 0 <==> a == b
    ensures Memcmp(a, b) == -Memcmp(b, a)
    ensures Memcmp(a, b) > 0 && Memcmp(b, c) > 0 ==> Memcmp(a, c) > 0
  {
    if a != [] {
      MemcmpOrder(a[1..], b[1..], c[1..]);
      assert a == [a[0]] + a[1..] && b == [b[0]] + b[1..];
    }
  }

  /** The contest is a strict total order on record data. */
  lemma ContestIsTotalOrder(a: bytes, b: bytes, c: bytes)
    ensures Contest(a, b) == Same <==> a == b
    ensures Contest(b, a) == Opposite(Contest(a, b))
    ensures Contest(a, b) == WeWin && Contest(b, c) == WeWin ==> Contest(a, c) == WeWin
  {
    if |a| == |b| {
      MemcmpOrder(a, b, a);
    }
    if |a| == |b| == |c| {
      MemcmpOrder(a, b, c);
    }
  }

  /** Contender `k` beats every other one. */
  predicate Wins(data: seq<bytes>, k: nat)
    requires k < |data|
  {
    forall i :: 0 <= i < |data| && i != k ==> Contest(data[k], data[i]) == WeWin
  }

  predicate Distinct(data: seq<bytes>) {
    forall i, j :: 0 <= i < j < |data| ==> data[i] != data[j]
  }

  function Winner(data: seq<bytes>): (k: nat)
    requires data != []
    ensures k < |data|
  {
    if |data| == 1 then 0
    else
      var k := Winner(data[..|data| - 1]);
      if Contest(data[k], data[|data| - 1]) == WeWin then k else |data| - 1
  }

  /** Among contenders with different data there is exactly one that beats all the others. */
  lemma {:induction false} OneWinner(data: seq<bytes>)
    requires data != [] && Distinct(data)
    ensures forall k: nat :: k < |data| ==> (Wins(data, k) <==> k == Winner(data))
  {
    hide Contest;
    var last := |data| - 1;
    var w := Winner(data);
    if last > 0 {
      var others := data[..last];
      OneWinner(others);
      var k := Winner(others);
      assert Wins(others, k);
      ContestIsTotalOrder(data[k], data[last], data[k]);
      forall i | 0 <= i < |data| && i != w ensures Contest(data[w], data[i]) == WeWin {
        if i < last && i != k {
          assert others[k] == data[k] && others[i] == data[i] && Contest(others[k], others[i]) == WeWin;
          ContestIsTotalOrder(data[last], data[k], data[i]);
        }
      }
    }
    forall k: nat | k < |data| && Wins(data, k) ensures k == w {
      if k != w {
        ContestIsTotalOrder(data[k], data[w], data[k]);
      }
    }
  }

  /** The order of section 8.2 of RFC 6762: the first difference decides, and length only when there is none. */
  function Lexicographic(ours: bytes, theirs: bytes): Verdict {
    if ours == [] then (if theirs == [] then Same else TheyWin)
    else if theirs == [] then WeWin
    else if ours[0] != theirs[0] then (if ours[0] > theirs[0] then WeWin else TheyWin)
    else Lexicographic(ours[1..], theirs[1..])
  }

  lemma {:induction false} LexicographicByPrefix(a: bytes, b: bytes)
    requires |a| <= |b|
    ensures Lexicographic(a, b) ==
      var c := Memcmp(a, b[..|a|]);
      if c > 0 then WeWin else if c < 0 || |a| < |b| then TheyWin else Same
    ensures Lexicographic(b, a) == Opposite(Lexicographic(a, b))
  {
    if a != [] {
      LexicographicByPrefix(a[1..], b[1..]);
      assert b[..|a|][1..] == b[1..][..|a| - 1];
    }
  }

  /**
   * The contest gives the verdict of RFC 6762 exactly when the data have one length, or the shorter
   * data does not exceed the beginning of the longer.
   */
  lemma AsInTheRfc(a: bytes, b: bytes)
    ensures Contest(a, b) == Lexicographic(a, b) <==>
      |a| == |b| || (if |a| < |b| then Memcmp(a, b[..|a|]) <= 0 else Memcmp(b, a[..|b|]) <= 0)
  {
    if |a| <= |b| {
      LexicographicByPrefix(a, b);
      if |a| == |b| {
        assert b[..|a|] == b;
      }
    } else {
      LexicographicByPrefix(b, a);
    }
  }

  // ---------------------------------------------------------------- service records

  datatype SrvData = SrvData(priority: u16, weight: u16, port: u16, host: bytes)

  /** The data compared: names uncompressed, each length cut to a byte. */
  function SrvBytes(s: SrvData, domain: bytes): bytes {
    U16(s.priority) + U16(s.weight) + U16(s.port)
    + [|s.host| % 256] + s.host + [|domain| % 256] + domain + [0]
  }

  /**
   * The check of a service record received while ours is contested; a responder without a host name does
   * not contest.
   */
  method CheckSrvCollision(ours: SrvData, theirs: SrvData, domain: bytes) returns (v: Verdict)
    ensures v == SrvVerdict(ours, theirs, domain)
  {
    if ours.host == [] {
      return Same;
    }
    var ourLen := 14 + |ours.host|;
    var theirLen := 9 + |theirs.host| + |domain|;
    if theirLen > ourLen {
      return TheyWin;
    } else if theirLen < ourLen {
      return WeWin;
    }
    var ourData := U16(ours.priority) + U16(ours.weight) + U16(ours.port);
    ourData := ourData + [|ours.host| % 256] + ours.host;
    ourData := ourData + [5] + LOCAL + [0];
    var theirData := U16(theirs.priority) + U16(theirs.weight) + U16(theirs.port);
    theirData := theirData + [|theirs.host| % 256] + theirs.host;
    theirData := theirData + [|domain| % 256] + domain + [0];
    assert ourData == SrvBytes(ours, LOCAL);
    assert theirData == SrvBytes(theirs, domain);
    var c := Memcmp(ourData, theirData);
    return if c > 0 then WeWin else if c < 0 then TheyWin else Same;
  }

  function SrvVerdict(ours: SrvData, theirs: SrvData, domain: bytes): Verdict {
    if ours.host == [] then Same else Contest(SrvBytes(ours, LOCAL), SrvBytes(theirs, domain))
  }

  /** Different service data on one domain have different bytes. */
  lemma SrvBytesInjective(a: SrvData, b: SrvData)
    requires SrvBytes(a, LOCAL) == SrvBytes(b, LOCAL)
    ensures a == b
  {
    var (x, y) := (SrvBytes(a, LOCAL), SrvBytes(b, LOCAL));
    assert |x| == 14 + |a.host| && |y| == 14 + |b.host|;
    assert x[0] == a.priority / 256 && x[1] == a.priority % 256 && x[2] == a.weight / 256 && x[3] == a.weight % 256
           && x[4] == a.port / 256 && x[5] == a.port % 256;
    assert y[0] == b.priority / 256 && y[1] == b.priority % 256 && y[2] == b.weight / 256 && y[3] == b.weight % 256
           && y[4] == b.port / 256 && y[5] == b.port % 256;
    HostIn(a);
    HostIn(b);
  }

  lemma HostIn(s: SrvData)
    ensures var x := SrvBytes(s, LOCAL); |x| == 14 + |s.host| && x[7..7 + |s.host|] == s.host
  {
    var head := U16(s.priority) + U16(s.weight) + U16(s.port) + [|s.host| % 256];
    var tail := [|LOCAL| % 256] + LOCAL + [0];
    assert SrvBytes(s, LOCAL) == head + s.host + tail;
    assert (head + s.host + tail)[7..7 + |s.host|] == s.host;
  }

  lemma LabelThere(p: bytes, at: nat, s: bytes, rest: Decoded)
    requires IsLabel(s) && at + 1 + |s| <= |p| && p[at] as int == |s| && p[at + 1..at + 1 + |s|] == s
    requires Decode(p, |p|, 6, at + 1 + |s|) == Some(rest)
    ensures Decode(p, |p|, 6, at) == Some(Decoded([s] + rest.labels, rest.next))
  {
  }

  lemma NumbersThere(p: bytes, s: SrvData, rest: bytes)
    requires p == U16(s.priority) + U16(s.weight) + U16(s.port) + rest
    ensures U16At(p, 0) == s.priority && U16At(p, 2) == s.weight && U16At(p, 4) == s.port && p[6..] == rest
  {
  }

  /** What is compared is the data of the record itself, with its names written out. */
  lemma ComparedIsRecord(s: SrvData)
    requires IsLabel(s.host)
    ensures var b := SrvBytes(s, LOCAL);
      && |b| >= 6 && U16At(b, 0) == s.priority && U16At(b, 2) == s.weight && U16At(b, 4) == s.port
      && Decode(b, |b|, 6, 6) == Some(Decoded([s.host, LOCAL], |b|))
  {
    var b := SrvBytes(s, LOCAL);
    var (n, at) := (|s.host|, 7 + |s.host|);
    HostIn(s);
    var rest: bytes := [n] + s.host + [5] + LOCAL + [0];
    assert b == U16(s.priority) + U16(s.weight) + U16(s.port) + rest;
    NumbersThere(b, s, rest);
    assert rest[0] == n && rest[n + 1] == 5 && rest[n + 2..n + 7] == LOCAL && rest[n + 7] == 0;
    assert b[6] == rest[0] && b[at] == b[6..][n + 1] && b[at + 6] == b[6..][n + 7];
    assert b[at + 1..at + 6] == b[6..][n + 2..n + 7];
    hide SrvBytes, Text, LOCAL;
    EndThere(b, at + 6);
    LabelThere(b, at, LOCAL, Decoded([], |b|)) by { LocalIsLabel(); }
    LabelThere(b, 6, s.host, Decoded([LOCAL] + [], |b|));
    assert [s.host] + ([LOCAL] + []) == [s.host, LOCAL];
  }

  lemma LocalIsLabel()
    ensures IsLabel(LOCAL) && |LOCAL| == 5
  {
  }

  lemma EndThere(p: bytes, at: nat)
    requires at + 1 == |p| && p[at] == 0
    ensures Decode(p, |p|, 6, at) == Some(Decoded([], |p|))
  {
  }

  /**
   * Two responders on the default domain reach opposite verdicts exactly when both or neither have a
   * host name; with host names they see no conflict exactly when their records are the same.
   */
  lemma SrvContestConsistent(a: SrvData, b: SrvData)
    ensures SrvVerdict(b, a, LOCAL) == Opposite(SrvVerdict(a, b, LOCAL)) <==> (a.host == [] <==> b.host == [])
    ensures a.host != [] ==> (SrvVerdict(a, b, LOCAL) == Same <==> a == b)
  {
    var (x, y) := (SrvBytes(a, LOCAL), SrvBytes(b, LOCAL));
    assert |x| == 14 + |a.host| && |y| == 14 + |b.host|;
    ContestIsTotalOrder(x, y, x);
    if x == y {
      SrvBytesInjective(a, b);
    }
  }

  // ---------------------------------------------------------------- text records

  /** Our text items as they are compared: like the record's entries, with each length cut to a byte. */
  function OurText(ts: seq<TxtItem>): bytes {
    if ts == [] then [] else [|EntryText(ts[0])| % 256] + EntryText(ts[0]) + OurText(ts[1..])
  }

  lemma {:induction false} OurTextIsEntries(ts: seq<TxtItem>)
    requires EntriesOk(ts)
    ensures OurText(ts) == Entries(ts)
  {
    hide EntryText;
    if ts != [] {
      OurTextIsEntries(ts[1..]);
      var t := EntryText(ts[0]);
      assert |t| % 256 == |t|;
      assert Entry(ts[0]) == [|t| % 256] + t;
    }
  }

  lemma {:induction false} OurTextSnoc(ts: seq<TxtItem>, t: TxtItem)
    ensures OurText(ts + [t]) == OurText(ts) + [|EntryText(t)| % 256] + EntryText(t)
  {
    hide EntryText;
    if ts == [] {
      assert ts + [t] == [t] && [t][1..] == [];
    } else {
      OurTextSnoc(ts[1..], t);
      assert (ts + [t])[1..] == ts[1..] + [t];
    }
  }

  function TxtVerdict(ours: seq<TxtItem>, data: bytes): Verdict {
    if |data| <= 1 && ours != [] then WeWin
    else if |data| > 1 && ours == [] then TheyWin
    else if ours == [] then Same
    else Contest(OurText(ours), data)
  }

  /** The check of text data received while ours is contested; the data came in a packet, so it fits one. */
  method CheckTxtCollision(ours: seq<TxtItem>, data: bytes) returns (v: Verdict)
    requires |data| < MAX_PACKET_SIZE
    ensures v == TxtVerdict(ours, data)
  {
    hide EntryText, OurText;
    if |data| <= 1 && ours != [] {
      return WeWin;
    } else if |data| > 1 && ours == [] {
      return TheyWin;
    } else if |data| <= 1 {
      return Same;
    }
    var dataLen := TextLength(ours);
    if |data| > dataLen {
      return TheyWin;
    } else if |data| < dataLen {
      return WeWin;
    }
    var text: bytes := [];
    var k := 0;
    assert ours[..0] == [];
    assert text == OurText(ours[..0]) by {
      NoText();
    }
    while k < |ours|
      invariant k <= |ours| && text == OurText(ours[..k])
    {
      OurTextSnoc(ours[..k], ours[k]);
      assert ours[..k] + [ours[k]] == ours[..k + 1];
      text := text + [|EntryText(ours[k])| % 256] + EntryText(ours[k]);
      k := k + 1;
    }
    assert ours[..k] == ours;
    var c := Memcmp(text, data);
    return if c > 0 then WeWin else if c < 0 then TheyWin else Same;
  }

  lemma NoText()
    ensures OurText([]) == []
  {
  }

  /** The length of our data, added up before anything is written. */
  method TextLength(ours: seq<TxtItem>) returns (length: nat)
    ensures length == |OurText(ours)|
  {
    hide OurText;
    length := 0;
    var k := 0;
    assert ours[..0] == [];
    NoText();
    while k < |ours|
      invariant k <= |ours| && length == |OurText(ours[..k])|
    {
      OurTextSnoc(ours[..k], ours[k]);
      assert ours[..k] + [ours[k]] == ours[..k + 1];
      var t := ours[k];
      length := length + 1 + |t.key| + (if t.value.Some? then 1 + |t.value.value| else 0);
      k := k + 1;
    }
    assert ours[..k] == ours;
  }

  /** A single item with an empty text: its record data is the same single zero byte as no items at all. */
  predicate BlankItem(ts: seq<TxtItem>) {
    |ts| == 1 && EntryText(ts[0]) == []
  }

  lemma TextSize(ts: seq<TxtItem>)
    requires EntriesOk(ts) && ts != []
    ensures TxtData(ts) == OurText(ts)
    ensures |OurText(ts)| == 1 <==> BlankItem(ts)
    ensures |OurText(ts)| >= 1
  {
    OurTextIsEntries(ts);
    if |ts| > 1 {
      assert OurText(ts[1..]) != [];
    }
  }

  /**
   * Two responders reach opposite verdicts on their text, and no conflict exactly on the same data,
   * unless one of them has a single empty item against data of one byte.
   */
  lemma TxtContestConsistent(a: seq<TxtItem>, b: seq<TxtItem>)
    requires EntriesOk(a) && EntriesOk(b)
    ensures TxtVerdict(b, TxtData(a)) == Opposite(TxtVerdict(a, TxtData(b)))
      <==> !(|TxtData(a)| == |TxtData(b)| == 1 && (BlankItem(a) || BlankItem(b)))
    ensures !BlankItem(a) ==> (TxtVerdict(a, TxtData(b)) == Same <==> TxtData(a) == TxtData(b))
  {
    hide EntryText, Contest, OurText, Entries;
    ContestIsTotalOrder(TxtData(a), TxtData(b), TxtData(a));
    if a != [] {
      TextSize(a);
    }
    if b != [] {
      TextSize(b);
    }
    LongerWins(TxtData(a), TxtData(b));
    LongerWins(TxtData(b), TxtData(a));
    if |TxtData(a)| == |TxtData(b)| == 1 {
      OneByte(TxtData(a), TxtData(b), a, b);
    }
  }

  /** Data of one byte is a zero byte. */
  lemma OneByte(x: bytes, y: bytes, a: seq<TxtItem>, b: seq<TxtItem>)
    requires EntriesOk(a) && EntriesOk(b) && x == TxtData(a) && y == TxtData(b) && |x| == |y| == 1
    ensures x == y
  {
  }

  lemma LongerWins(a: bytes, b: bytes)
    ensures |a| > |b| ==> Contest(a, b) == WeWin
  {
  }
}
