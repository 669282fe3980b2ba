/** Reading the data of a text record: one pass counts the items, a second creates them. */
module MdnsTxt {
  import opened Bytes
  import opened MdnsMessage

  /** The longest data for which the 16-bit position of the parser cannot wrap. */
  const MAX_DATA: nat := 0xFFFE

  // ---------------------------------------------------------------- the two passes

  /** The strings from `i` on, up to an empty one; nothing when one runs past the end. */
  function CountFrom(d: bytes, i: nat): Option<nat>
    requires i <= |d|
    decreases |d| - i
  {
    if i == |d| || d[i] == 0 then Some(0)
    else if i + 1 + d[i] > |d| then None
    else match CountFrom(d, i + 1 + d[i])
      case None => None
      case Some(n) => Some(n + 1)
  }

  function Count(d: bytes): Option<nat> {
    if |d| == 1 then Some(0) else CountFrom(d, 0)
  }

  /** The position of the first `=` at or after `i`, or the end. */
  function FirstEquals(t: bytes, i: nat): (k: nat)
    requires i <= |t|
    ensures i <= k <= |t| && (k < |t| ==> t[k] == EQUALS) && EQUALS !in t[i..k]
    decreases |t| - i
  {
    if i == |t| || t[i] == EQUALS then i
    else
      var k := FirstEquals(t, i + 1);
      assert t[i..k] == [t[i]] + t[i + 1..k];
      k
  }

  /** The length of the key of a text; nothing when there is no key. */
  function KeyLength(t: bytes): (k: Option<nat>)
    requires t != []
    ensures k.Some? ==> 1 <= k.value <= |t| && (k.value < |t| ==> t[k.value] == EQUALS) && EQUALS !in t[..k.value]
  {
    if t[0] == EQUALS then None
    else
      var k := FirstEquals(t, 0);
      assert t[..k] == t[0..k];
      Some(k)
  }

  function ItemOf(t: bytes, k: nat): TxtItem
    requires k <= |t|
  {
    TxtItem(t[..k], if k + 1 < |t| then Some(t[k + 1..]) else None)
  }

  /**
   * At most `quota` items from `i` on.  A text without `=` is followed by one byte that is skipped as
   * if it were the `=`.
   */
  function ItemsFrom(d: bytes, i: nat, quota: nat): (r: Option<seq<TxtItem>>)
    ensures r.Some? ==> |r.value| <= quota
    decreases if i < |d| then |d| - i else 0
  {
    if i >= |d| || quota == 0 || d[i] == 0 then Some([])
    else if i + 1 + d[i] > |d| then None
    else
      var t := d[i + 1..i + 1 + d[i]];
      match KeyLength(t)
      case None => ItemsFrom(d, i + 1 + |t|, quota)
      case Some(k) =>
        match ItemsFrom(d, if k < |t| then i + 1 + |t| else i + 2 + |t|, quota - 1)
        case None => None
        case Some(rest) => Some([ItemOf(t, k)] + rest)
  }

  /** The items a receiver gets: none at all when either pass finds the data malformed. */
  function ParseItems(d: bytes): seq<TxtItem> {
    match Count(d)
    case None => []
    case Some(n) =>
      match ItemsFrom(d, 0, n)
      case None => []
      case Some(ts) => ts
  }

  method CountItems(d: bytes) returns (n: Option<nat>)
    requires |d| <= MAX_DATA
    ensures n == Count(d)
  {
    if |d| == 1 {
      return Some(0);
    }
    var items: nat := 0;
    var i := 0;
    while i < |d|
      invariant i <= |d|
      invariant match CountFrom(d, 0)
        case None => CountFrom(d, i) == None
        case Some(all) => items <= all && CountFrom(d, i) == Some(all - items)
      decreases |d| - i
    {
      var partLen := d[i];
      if partLen == 0 {
        return Some(items);
      }
      if i + 1 + partLen > |d| {
        return None;
      }
      i := i + 1 + partLen;
      items := items + 1;
    }
    return Some(items);
  }

  method ItemLength(t: bytes) returns (k: Option<nat>)
    requires t != []
    ensures k == KeyLength(t)
  {
    if t[0] == EQUALS {
      return None;
    }
    var i := 0;
    while i < |t|
      invariant i <= |t| && FirstEquals(t, 0) == FirstEquals(t, i)
    {
      if t[i] == EQUALS {
        return Some(i);
      }
      i := i + 1;
    }
    return Some(|t|);
  }

  /** From `i` on the creating pass adds, to the items created so far, those that are still missing. */
  predicate Pending(d: bytes, quota: nat, items: seq<TxtItem>, i: nat)
    requires |items| <= quota
  {
    match ItemsFrom(d, 0, quota)
    case None => ItemsFrom(d, i, quota - |items|) == None
    case Some(all) =>
      ItemsFrom(d, i, quota - |items|).Some? && all == items + ItemsFrom(d, i, quota - |items|).value
  }

  lemma CreateStep(d: bytes, quota: nat, items: seq<TxtItem>, i: nat)
    requires |items| < quota && Pending(d, quota, items, i) && i < |d| && 0 < d[i] && i + 1 + d[i] <= |d|
    ensures var t := d[i + 1..i + 1 + d[i]];
      match KeyLength(t)
      case None => Pending(d, quota, items, i + 1 + d[i])
      case Some(k) => Pending(d, quota, items + [ItemOf(t, k)], if k < d[i] then i + 1 + d[i] else i + 2 + d[i])
  {
    hide KeyLength, ItemOf;
    var t := d[i + 1..i + 1 + d[i]];
    match KeyLength(t)
    case None =>
    case Some(k) =>
      var rest := ItemsFrom(d, if k < d[i] then i + 1 + d[i] else i + 2 + d[i], quota - |items| - 1);
      if rest.Some? {
        assert items + ([ItemOf(t, k)] + rest.value) == (items + [ItemOf(t, k)]) + rest.value;
      }
  }

  lemma CreateDone(d: bytes, quota: nat, items: seq<TxtItem>, i: nat)
    requires |items| <= quota && Pending(d, quota, items, i)
    ensures i >= |d| || |items| == quota || d[i] == 0 ==> ItemsFrom(d, 0, quota) == Some(items)
    ensures i < |d| && |items| < quota && d[i] > 0 && i + 1 + d[i] > |d| ==> ItemsFrom(d, 0, quota) == None
  {
    assert items + [] == items;
  }

  method CreateItems(d: bytes) returns (items: seq<TxtItem>)
    requires |d| <= MAX_DATA
    ensures items == ParseItems(d)
  {
    hide KeyLength, ItemsFrom, Pending, ItemOf, Count;
    var count := CountItems(d);
    if count == None {
      return [];
    }
    var quota := count.value;
    items := [];
    var i := 0;
    assert Pending(d, quota, items, 0) by {
      PendingAtStart(d, quota);
    }
    while i < |d| && |items| < quota
      invariant |items| <= quota && Pending(d, quota, items, i)
      decreases if i < |d| then |d| - i else 0
    {
      CreateDone(d, quota, items, i);
      var partLen := d[i];
      if partLen == 0 {
        break;
      }
      if i + 1 + partLen > |d| {
        return [];
      }
      CreateStep(d, quota, items, i);
      var t := d[i + 1..i + 1 + partLen];
      var k := ItemLength(t);
      if k == None {
        i := i + 1 + partLen;
        continue;
      }
      items := items + [ItemOf(t, k.value)];
      i := if k.value < partLen then i + 1 + partLen else i + 2 + partLen;
    }
    CreateDone(d, quota, items, i);
  }

  lemma PendingAtStart(d: bytes, quota: nat)
    ensures Pending(d, quota, [], 0)
  {
    if ItemsFrom(d, 0, quota).Some? {
      assert [] + ItemsFrom(d, 0, quota).value == ItemsFrom(d, 0, quota).value;
    }
  }

  // ---------------------------------------------------------------- round trip

  predicate PlainKey(key: bytes) {
    key != [] && EQUALS !in key
  }

  /** Every key is plain, and every item but the last has a value. */
  predicate Readable(ts: seq<TxtItem>) {
    && (forall i :: 0 <= i < |ts| ==> PlainKey(ts[i].key))
    && (forall i :: 0 <= i < |ts| - 1 ==> ts[i].value.Some?)
  }

  /** A receiver cannot tell an empty value from no value. */
  function Seen(t: TxtItem): TxtItem {
    if t.value == Some([]) then t.(value := None) else t
  }

  function SeenAll(ts: seq<TxtItem>): (us: seq<TxtItem>)
    ensures |us| == |ts| && forall i :: 0 <= i < |ts| ==> us[i] == Seen(ts[i])
  {
    if ts == [] then [] else [Seen(ts[0])] + SeenAll(ts[1..])
  }

  /** The entry at the front of the data. */
  lemma FirstEntry(d: bytes, i: nat, ts: seq<TxtItem>)
    requires EntriesOk(ts) && ts != [] && i <= |d| && d[i..] == Entries(ts)
    ensures var t := EntryText(ts[0]);
      && i + 1 + |t| <= |d| && d[i] as int == |t| && d[i + 1..i + 1 + |t|] == t
      && d[i + 1 + |t|..] == Entries(ts[1..])
  {
    hide EntryText;
    var t := EntryText(ts[0]);
    var rest := Entries(ts[1..]);
    assert d[i..] == [|t| as byte] + t + rest;
    assert d[i] == d[i..][0];
    assert d[i + 1..i + 1 + |t|] == d[i..][1..1 + |t|] == t;
    assert d[i + 1 + |t|..] == d[i..][1 + |t|..] == rest;
  }

  /** The counting pass counts the entries when no text is empty. */
  lemma {:induction false} CountEntries(d: bytes, i: nat, ts: seq<TxtItem>)
    requires EntriesOk(ts) && i <= |d| && d[i..] == Entries(ts)
    requires forall k :: 0 <= k < |ts| ==> EntryText(ts[k]) != []
    ensures CountFrom(d, i) == Some(|ts|)
    decreases |ts|
  {
    hide EntryText;
    if ts == [] {
      assert |d[i..]| == 0;
    } else {
      FirstEntry(d, i, ts);
      CountEntries(d, i + 1 + |EntryText(ts[0])|, ts[1..]);
    }
  }

  lemma {:induction false} FirstEqualsIs(t: bytes, i: nat, k: nat)
    requires i <= k <= |t| && EQUALS !in t[i..k] && (k < |t| ==> t[k] == EQUALS)
    ensures FirstEquals(t, i) == k
    decreases k - i
  {
    if i < k {
      assert t[i] == t[i..k][0] && t[i + 1..k] == t[i..k][1..];
      FirstEqualsIs(t, i + 1, k);
    }
  }

  /** The text of an item with a plain key splits into that item again. */
  lemma TextSplits(t: TxtItem)
    requires PlainKey(t.key)
    ensures var text := EntryText(t);
      text != [] && KeyLength(text) == Some(|t.key|) && ItemOf(text, |t.key|) == Seen(t)
      && (t.value.Some? <==> |t.key| < |text|)
  {
    var text := EntryText(t);
    assert text[..|t.key|] == t.key;
    assert text[0..|t.key|] == t.key && text[0] == t.key[0];
    FirstEqualsIs(text, 0, |t.key|);
    if t.value.Some? {
      assert text[|t.key| + 1..] == t.value.value;
    }
  }

  /** The creating pass gives back readable items. */
  lemma {:induction false} ItemsEntries(d: bytes, i: nat, ts: seq<TxtItem>)
    requires EntriesOk(ts) && Readable(ts) && i <= |d| && d[i..] == Entries(ts)
    ensures ItemsFrom(d, i, |ts|) == Some(SeenAll(ts))
    decreases |ts|
  {
    hide EntryText, KeyLength, ItemOf, Entries;
    if ts != [] {
      FirstEntry(d, i, ts);
      TextSplits(ts[0]);
      if |ts| > 1 {
        ItemsEntries(d, i + 1 + |EntryText(ts[0])|, ts[1..]);
      } else {
        assert ItemsFrom(d, if ts[0].value.Some? then i + 1 + d[i] else i + 2 + d[i], 0) == Some([]);
        assert SeenAll(ts) == [Seen(ts[0])];
      }
    }
  }

  /** The bytes the creating pass moves over for these items. */
  function Span(us: seq<TxtItem>): nat {
    if us == [] then 0 else |us[0].key| + 2 + ValueLength(us[0]) + Span(us[1..])
  }

  function ValueLength(t: TxtItem): nat {
    match t.value
    case None => 0
    case Some(v) => |v|
  }

  /** The first item takes its length byte and its text, and one byte more when that has no `=`. */
  lemma SpanOfFirst(t: bytes, k: nat, rest: seq<TxtItem>)
    requires 1 <= k <= |t| && EQUALS !in t[..k]
    ensures Span([ItemOf(t, k)] + rest) == (if k < |t| then 1 + |t| else 2 + |t|) + Span(rest)
    ensures rest == [] ==> Span(rest) == 0
    ensures k == |t| ==> ItemOf(t, k).value == None && t[|t| - 1] != EQUALS
  {
    assert ([ItemOf(t, k)] + rest)[1..] == rest;
    if k == |t| {
      assert t[..k] == t;
      assert t[|t| - 1] in t[..k];
    }
  }

  /** Only a last item without `=` takes the creating pass past the end of the data, by one byte. */
  lemma {:induction false} SpanBounded(d: bytes, i: nat, quota: nat)
    requires ItemsFrom(d, i, quota).Some?
    ensures var us := ItemsFrom(d, i, quota).value;
      us != [] ==> (
        && i + Span(us) <= |d| + 1
        && (i + Span(us) == |d| + 1 ==> d[|d| - 1] != EQUALS && us[|us| - 1].value == None))
    decreases if i < |d| then |d| - i else 0
  {
    hide KeyLength, ItemOf, Span;
    if i < |d| && quota > 0 && d[i] > 0 {
      var t := d[i + 1..i + 1 + d[i]];
      match KeyLength(t)
      case None => SpanBounded(d, i + 1 + |t|, quota);
      case Some(k) =>
        var next := if k < |t| then i + 1 + |t| else i + 2 + |t|;
        SpanBounded(d, next, quota - 1);
        var rest := ItemsFrom(d, next, quota - 1).value;
        SpanOfFirst(t, k, rest);
        assert k == |t| ==> d[i + |t|] == t[|t| - 1];
    } else {
      assert ItemsFrom(d, i, quota) == Some([]);
    }
  }

  lemma {:induction false} KeysArePlain(d: bytes, i: nat, quota: nat)
    requires ItemsFrom(d, i, quota).Some?
    ensures forall u :: u in ItemsFrom(d, i, quota).value ==> PlainKey(u.key)
    decreases if i < |d| then |d| - i else 0
  {
    hide KeyLength;
    if i < |d| && quota > 0 && d[i] > 0 {
      var t := d[i + 1..i + 1 + d[i]];
      match KeyLength(t)
      case None => KeysArePlain(d, i + 1 + |t|, quota);
      case Some(k) => KeysArePlain(d, if k < |t| then i + 1 + |t| else i + 2 + |t|, quota - 1);
    }
  }

  /** Reading back items takes a byte more than was written for each of them that has no `=`. */
  lemma {:induction false} SpanOfKeyOnly(ts: seq<TxtItem>, j: int, k: int)
    requires EntriesOk(ts) && j <= k < |ts|
    requires 0 <= j ==> ts[j].value.None?
    requires 0 <= k ==> ts[k].value.None?
    ensures Span(SeenAll(ts)) >= |Entries(ts)| + (if 0 <= j < k then 2 else if 0 <= k then 1 else 0)
    decreases |ts|
  {
    if ts != [] {
      assert SeenAll(ts)[1..] == SeenAll(ts[1..]);
      SpanOfKeyOnly(ts[1..], if j <= 0 then -1 else j - 1, if k <= 0 then -1 else k - 1);
    }
  }

  lemma LastByte(ts: seq<TxtItem>)
    requires EntriesOk(ts) && ts != [] && ts[|ts| - 1].value == Some([])
    ensures var d := Entries(ts); d != [] && d[|d| - 1] == EQUALS
  {
    hide Entries, Entry;
    var n := |ts| - 1;
    CutAt(ts, n);
    assert ts[..n + 1] == ts;
    EntriesSnoc(ts[..n], ts[n]);
    EntryEnds(ts[n]);
  }

  lemma EntryEnds(t: TxtItem)
    requires EntryOk(t) && t.value == Some([])
    ensures var e := Entry(t); e != [] && e[|e| - 1] == EQUALS
  {
  }

  lemma ReadBackOnlyReadable(ts: seq<TxtItem>)
    requires EntriesOk(ts) && ts != [] && ParseItems(Entries(ts)) == SeenAll(ts)
    ensures Readable(ts)
  {
    hide EntryText, Entries, ItemsFrom, Count, Span;
    var d := Entries(ts);
    var n := Count(d).value;
    KeysArePlain(d, 0, n);
    SpanBounded(d, 0, n);
    var us := SeenAll(ts);
    forall i | 0 <= i < |ts| ensures PlainKey(ts[i].key) {
      assert us[i] in us;
    }
    forall i | 0 <= i < |ts| - 1 ensures ts[i].value.Some? {
      var last := |ts| - 1;
      if ts[i].value.None? {
        SpanOfKeyOnly(ts, i, i);
        assert us[last].value == None;
        if ts[last].value.None? {
          SpanOfKeyOnly(ts, i, last);
          assert false;
        } else {
          LastByte(ts);
          assert false;
        }
      }
    }
  }

  /**
   * What a receiver reads from the data of a text record is what the sender put in (an empty value
   * reads as no value) exactly when the items are readable.
   */
  lemma RoundTrip(ts: seq<TxtItem>)
    requires EntriesOk(ts)
    ensures ParseItems(TxtData(ts)) == SeenAll(ts) <==> Readable(ts)
    ensures Readable(ts) ==> Count(TxtData(ts)) == Some(|ts|)
  {
    hide EntryText, ParseItems, Count;
    if ts == [] {
      NothingReadBack();
    } else {
      if Readable(ts) {
        ReadableReadBack(ts);
      }
      if ParseItems(Entries(ts)) == SeenAll(ts) {
        ReadBackOnlyReadable(ts);
      }
    }
  }

  lemma NothingReadBack()
    ensures ParseItems([0]) == [] && Count([0]) == Some(0)
  {
  }

  lemma ReadableReadBack(ts: seq<TxtItem>)
    requires EntriesOk(ts) && ts != [] && Readable(ts)
    ensures Count(Entries(ts)) == Some(|ts|) && ParseItems(Entries(ts)) == SeenAll(ts)
  {
    hide EntryText, ItemsFrom, CountFrom, Entries;
    var d := Entries(ts);
    forall k | 0 <= k < |ts| ensures EntryText(ts[k]) != [] {
      TextSplits(ts[k]);
    }
    assert d[0..] == d;
    CountEntries(d, 0, ts);
    FirstEntry(d, 0, ts);
    ItemsEntries(d, 0, ts);
  }

  /** A key without a value in front of another item makes the receiver lose the whole record. */
  lemma KeyOnlyLosesRecord()
    ensures var ts := [TxtItem([0x61], None), TxtItem([0x62], Some([0x63]))];
      EntriesOk(ts) && ParseItems(TxtData(ts)) == []
  {
    var (a, b) := (TxtItem([0x61], None), TxtItem([0x62], Some([0x63])));
    var ts := [a, b];
    assert ts[1..] == [b] && [b][1..] == [];
    assert EntryText(b) == [0x62, EQUALS, 0x63];
    assert Entry(a) == [1, 0x61] && Entry(b) == [3, 0x62, EQUALS, 0x63];
    assert Entries([b]) == [3, 0x62, EQUALS, 0x63];
    var d := TxtData(ts);
    assert d == [1, 0x61, 3, 0x62, EQUALS, 0x63];
    assert KeyLength(d[1..2]) == Some(1);
    assert ItemsFrom(d, 3, 1) == None;
    assert CountFrom(d, 6) == Some(0);
    assert CountFrom(d, 2) == Some(1);
  }
}
