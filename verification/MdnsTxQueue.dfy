/**
 * The list of mDNS packets waiting to be sent, sorted by time, and the queue of actions through which
 * the timer task asks the service task to send them.
 *
 * The list is a sequence here; times do not wrap, and a packet has an identity that is never reused.
 */
module MdnsTxQueue {
  import opened Bytes

  /** An interface and an IP protocol: what a packet is sent through. */
  datatype Port = Port(interface: nat, protocol: nat)

  /** A service: which one, and its type, that is its service and protocol names. */
  datatype Service = Service(item: nat, kind: nat)

  /**
   * What a packet carries: the questions that probe for services, in order, the services it has entries
   * of, and whether it has anything else in it.
   */
  datatype Load = Load(questions: seq<Service>, entries: set<Service>, other: bool)

  datatype Packet = Packet(id: nat, port: Port, sendAt: int, queued: bool, load: Load)

  /** A pending action of the service task: send a packet, or anything else. */
  datatype Action = Tx(id: nat) | Other

  /** What happened when the timer task tried to post an action. */
  datatype Post = Posted | QueueFull | NoMemory

  // ---------------------------------------------------------------- the operations, as functions

  /** In front of the first packet that is due later. */
  function Insert(list: seq<Packet>, p: Packet): seq<Packet> {
    if list == [] || list[0].sendAt > p.sendAt then [p] + list else [list[0]] + Insert(list[1..], p)
  }

  function Without(list: seq<Packet>, gone: set<nat>): seq<Packet> {
    if list == [] then []
    else if list[0].id in gone then Without(list[1..], gone)
    else [list[0]] + Without(list[1..], gone)
  }

  function OnPort(list: seq<Packet>, port: Port): set<nat> {
    set p | p in list && p.port == port :: p.id
  }

  /** The number of packets at the front that have been handed to the service task. */
  function Handed(list: seq<Packet>): (n: nat)
    ensures n <= |list|
    ensures forall i :: 0 <= i < n ==> list[i].queued
    ensures n < |list| ==> !list[n].queued
  {
    if list == [] || !list[0].queued then 0 else 1 + Handed(list[1..])
  }

  datatype TickResult = TickResult(list: seq<Packet>, posted: seq<Action>)

  /** Posts the packets that are due, from the front, until one is not due or memory runs out. */
  function PostDue(list: seq<Packet>, now: int, posts: seq<Post>): TickResult {
    if list == [] || list[0].sendAt >= now || posts == [] || posts[0] == NoMemory then TickResult(list, [])
    else
      var rest := PostDue(list[1..], now, posts[1..]);
      if posts[0] == Posted then TickResult([list[0].(queued := true)] + rest.list, [Tx(list[0].id)] + rest.posted)
      else TickResult([list[0].(queued := false)] + rest.list, rest.posted)
  }

  function Prepend(list: seq<Packet>, posted: seq<Action>, r: TickResult): TickResult {
    TickResult(list + r.list, posted + r.posted)
  }

  lemma PostDueStep(list: seq<Packet>, posted: seq<Action>, rest: seq<Packet>, now: int, posts: seq<Post>)
    requires rest != [] && rest[0].sendAt < now && posts != []
    ensures posts[0] == NoMemory ==> PostDue(rest, now, posts) == TickResult(rest, [])
    ensures posts[0] != NoMemory ==>
      Prepend(list, posted, PostDue(rest, now, posts)) ==
        Prepend(list + [rest[0].(queued := posts[0] == Posted)],
                posted + (if posts[0] == Posted then [Tx(rest[0].id)] else []),
                PostDue(rest[1..], now, posts[1..]))
  {
  }

  lemma PostDueStops(rest: seq<Packet>, now: int, posts: seq<Post>)
    requires rest == [] || rest[0].sendAt >= now || posts == [] || posts[0] == NoMemory
    ensures PostDue(rest, now, posts) == TickResult(rest, [])
  {
  }

  function Tick(list: seq<Packet>, now: int, posts: seq<Post>): TickResult {
    var n := Handed(list);
    Prepend(list[..n], [], PostDue(list[n..], now, posts))
  }

  /** Whether the service task, told to send packet `id`, finds it at the head of the list. */
  predicate AtHead(list: seq<Packet>, id: nat) {
    list != [] && list[0].id == id && list[0].queued
  }

  // ---------------------------------------------------------------- the operations, as the source runs them

  lemma InsertHere(list: seq<Packet>, p: Packet)
    requires list == [] || list[0].sendAt > p.sendAt
    ensures Insert(list, p) == [p] + list
  {
  }

  lemma InsertFurther(list: seq<Packet>, p: Packet, k: nat)
    requires k < |list| && list[k].sendAt <= p.sendAt
    ensures list[..k] + Insert(list[k..], p) == list[..k + 1] + Insert(list[k + 1..], p)
  {
    assert list[k..][1..] == list[k + 1..];
    assert list[..k + 1] == list[..k] + [list[k]];
    Regroup(list[..k], [list[k]], Insert(list[k + 1..], p));
  }

  class TxQueue {
    var list: seq<Packet>

    constructor ()
      ensures list == []
    {
      list := [];
    }

    /** Schedules a packet `ms` milliseconds from `now`. */
    method SendAfter(p: Packet, now: int, ms: nat)
      modifies this
      ensures list == Insert(old(list), p.(sendAt := now + ms))
    {
      hide Insert;
      var packet := p.(sendAt := now + ms);
      if list == [] || list[0].sendAt > packet.sendAt {
        InsertHere(list, packet);
        list := [packet] + list;
        return;
      }
      var k := 0;
      assert list[..0] + Insert(list[0..], packet) == Insert(list, packet) by {
        assert list[0..] == list;
      }
      InsertFurther(list, packet, 0);
      while k + 1 < |list| && list[k + 1].sendAt <= packet.sendAt
        invariant k < |list| && list == old(list)
        invariant Insert(list, packet) == list[..k + 1] + Insert(list[k + 1..], packet)
      {
        InsertFurther(list, packet, k + 1);
        k := k + 1;
      }
      InsertHere(list[k + 1..], packet);
      Regroup(list[..k + 1], [packet], list[k + 1..]);
      list := list[..k + 1] + [packet] + list[k + 1..];
    }

    /** Drops every packet of a port: first at the head, then behind a packet that stays. */
    method ClearIf(port: Port)
      modifies this
      ensures list == Without(old(list), OnPort(old(list), port))
      requires Distinct(list)
    {
      ghost var gone := OnPort(list, port);
      assert forall p :: p in list ==> (p.id in gone <==> p.port == port) by { SameIdSamePacket(list); }
      while list != [] && list[0].port == port
        invariant Without(old(list), gone) == Without(list, gone)
        invariant forall p :: p in list ==> p in old(list)
        decreases |list|
      {
        list := list[1..];
      }
      if list != [] {
        var k := 0;
        while k + 1 < |list|
          invariant k < |list|
          invariant forall i :: 0 <= i <= k ==> list[i].id !in gone
          invariant Without(old(list), gone) == Without(list, gone)
          invariant forall p :: p in list ==> p in old(list)
          decreases |list| - k
        {
          if list[k + 1].port == port {
            WithoutSkips(list, k + 1, gone);
            list := list[..k + 1] + list[k + 2..];
          } else {
            k := k + 1;
          }
        }
        WithoutNone(list, gone);
      }
    }

    /** The first packet scheduled for a port. */
    method GetNextPacket(port: Port) returns (index: nat)
      ensures index <= |list|
      ensures forall i :: 0 <= i < index ==> list[i].port != port
      ensures index < |list| ==> list[index].port == port
    {
      index := 0;
      while index < |list| && list[index].port != port
        invariant index <= |list|
        invariant forall i :: 0 <= i < index ==> list[i].port != port
      {
        index := index + 1;
      }
    }

    method FirstUnqueued() returns (k: nat)
      ensures k == Handed(list)
    {
      k := 0;
      while k < |list| && list[k].queued
        invariant k <= |list|
        invariant Handed(list) == k + Handed(list[k..])
      {
        k := k + 1;
      }
    }

    /** The timer task: skips what has been handed over, then posts what is due. */
    method SendPackets(now: int, posts: seq<Post>) returns (posted: seq<Action>)
      modifies this
      ensures TickResult(list, posted) == Tick(old(list), now, posts)
    {
      hide PostDue, Handed;
      var n := FirstUnqueued();
      var k := n;
      posted := [];
      while k < |list| && list[k].sendAt < now && k - n < |posts|
        invariant n <= k <= |list| == |old(list)| && k - n <= |posts|
        invariant Tick(old(list), now, posts) == Prepend(list[..k], posted, PostDue(list[k..], now, posts[k - n..]))
      {
        PostDueStep(list[..k], posted, list[k..], now, posts[k - n..]);
        assert list[k..][1..] == list[k + 1..] && posts[k - n..][1..] == posts[k + 1 - n..];
        match posts[k - n] {
          case NoMemory =>
            break;
          case QueueFull =>
            list := list[k := list[k].(queued := false)];
          case Posted =>
            posted := posted + [Tx(list[k].id)];
            list := list[k := list[k].(queued := true)];
        }
        k := k + 1;
        assert list[..k] == list[..k - 1] + [list[k - 1]];
      }
      assert PostDue(list[k..], now, posts[k - n..]) == TickResult(list[k..], []) by {
        PostDueStops(list[k..], now, posts[k - n..]);
      }
      assert list[..k] + list[k..] == list;
    }

    /** The service task: takes packet `id` off the list if it is the one that has to go next. */
    method TakeHead(id: nat) returns (taken: Option<Packet>)
      modifies this
      ensures AtHead(old(list), id) ==> taken == Some(old(list)[0].(queued := false)) && list == old(list)[1..]
      ensures !AtHead(old(list), id) ==> taken == None && list == old(list)
    {
      if list != [] && list[0].id == id && list[0].queued {
        taken := Some(list[0].(queued := false));
        list := list[1..];
      } else {
        taken := None;
      }
    }
  }

  // ---------------------------------------------------------------- facts about lists

  ghost predicate Distinct(list: seq<Packet>) {
    forall i, j :: 0 <= i < j < |list| ==> list[i].id != list[j].id
  }

  lemma SameIdSamePacket(list: seq<Packet>)
    requires Distinct(list)
    ensures forall p, q :: p in list && q in list && p.id == q.id ==> p == q
  {
  }

  lemma {:induction false} WithoutConcat(a: seq<Packet>, b: seq<Packet>, gone: set<nat>)
    ensures Without(a + b, gone) == Without(a, gone) + Without(b, gone)
  {
    if a == [] {
      assert a + b == b;
    } else {
      WithoutConcat(a[1..], b, gone);
      assert (a + b)[0] == a[0] && (a + b)[1..] == a[1..] + b;
      Regroup([a[0]], Without(a[1..], gone), Without(b, gone));
    }
  }

  lemma WithoutSkips(list: seq<Packet>, k: nat, gone: set<nat>)
    requires k < |list| && list[k].id in gone
    ensures Without(list[..k] + list[k + 1..], gone) == Without(list, gone)
  {
    WithoutConcat(list[..k], list[k + 1..], gone);
    WithoutConcat(list[..k], list[k..], gone);
    assert list[..k] + list[k..] == list;
    assert list[k..][1..] == list[k + 1..];
  }

  lemma {:induction false} WithoutNone(list: seq<Packet>, gone: set<nat>)
    requires forall i :: 0 <= i < |list| ==> list[i].id !in gone
    ensures Without(list, gone) == list
  {
    if list != [] {
      WithoutNone(list[1..], gone);
    }
  }

  // ---------------------------------------------------------------- all interleavings

  /** The clock, the packet list, the action queue, and the log of what has been sent. */
  datatype State = State(now: int, list: seq<Packet>, fifo: seq<Action>, sent: seq<Packet>, nextId: nat)

  /** What the service task does with a packet after sending it. */
  datatype Afterwards = Free | Again(ms: nat, load: Load)

  datatype Step =
    | Advance(ms: nat)
    | PostOther
    | Timer(posts: seq<Post>)
    | Serve(afterwards: Afterwards)
    | Schedule(port: Port, ms: nat, load: Load)
    | Drop(gone: set<nat>)

  function Init(): State {
    State(0, [], [], [], 0)
  }

  predicate Enabled(s: State, t: Step) {
    t.Serve? ==> s.fifo != []
  }

  function Served(s: State, afterwards: Afterwards): State
    requires s.fifo != []
  {
    var rest := s.(fifo := s.fifo[1..]);
    match s.fifo[0]
    case Other => rest
    case Tx(id) =>
      if !AtHead(s.list, id) then rest
      else
        var p := s.list[0].(queued := false);
        var after := rest.(list := s.list[1..], sent := s.sent + [p]);
        match afterwards
        case Free => after
        case Again(ms, load) => after.(list := Insert(after.list, p.(sendAt := s.now + ms, load := load)))
  }

  function Next(s: State, t: Step): State
    requires Enabled(s, t)
  {
    match t
    case Advance(ms) => s.(now := s.now + ms)
    case PostOther => s.(fifo := s.fifo + [Other])
    case Timer(posts) =>
      var r := Tick(s.list, s.now, posts);
      s.(list := r.list, fifo := s.fifo + r.posted)
    case Serve(afterwards) => Served(s, afterwards)
    case Schedule(port, ms, load) =>
      s.(list := Insert(s.list, Packet(s.nextId, port, s.now + ms, false, load)), nextId := s.nextId + 1)
    case Drop(gone) => s.(list := Without(s.list, gone))
  }

  ghost predicate Sorted(list: seq<Packet>) {
    forall i, j :: 0 <= i < j < |list| ==> list[i].sendAt <= list[j].sendAt
  }

  /** The packets handed to the service task are the first ones, and no others. */
  ghost predicate QueuedFirst(list: seq<Packet>) {
    forall i, j :: 0 <= i < j < |list| && list[j].queued ==> list[i].queued
  }

  function Ids(list: seq<Packet>): set<nat> {
    set p | p in list :: p.id
  }

  /** The identities of the packets handed over, in list order. */
  function QueuedIds(list: seq<Packet>): seq<nat> {
    if list == [] then []
    else if list[0].queued then [list[0].id] + QueuedIds(list[1..])
    else QueuedIds(list[1..])
  }

  function TxIds(fifo: seq<Action>): seq<nat> {
    if fifo == [] then []
    else if fifo[0].Tx? then [fifo[0].id] + TxIds(fifo[1..])
    else TxIds(fifo[1..])
  }

  function Restrict(ids: seq<nat>, live: set<nat>): seq<nat> {
    if ids == [] then []
    else if ids[0] in live then [ids[0]] + Restrict(ids[1..], live)
    else Restrict(ids[1..], live)
  }

  ghost predicate NoRepeat<T>(s: seq<T>) {
    forall i, j :: 0 <= i < j < |s| ==> s[i] != s[j]
  }

  /**
   * The pending send actions of packets that still exist are exactly those of the handed-over
   * packets, in list order.
   */
  ghost predicate Matched(list: seq<Packet>, fifo: seq<Action>) {
    QueuedIds(list) == Restrict(TxIds(fifo), Ids(list))
  }

  ghost predicate Inv(s: State) {
    && Ordered(s.list)
    && (forall p :: p in s.list && p.queued ==> p.sendAt < s.now)
    && Matched(s.list, s.fifo)
    && NoRepeat(TxIds(s.fifo))
    && (forall p :: p in s.list ==> p.id < s.nextId)
    && (forall id :: id in TxIds(s.fifo) ==> id < s.nextId)
    && Sorted(s.sent)
    && (forall p, q :: p in s.sent && q in s.list ==> p.sendAt <= q.sendAt)
    && (forall p :: p in s.sent ==> p.sendAt < s.now)
  }

  // Facts about the id sequences.

  lemma {:induction false} RestrictConcat(a: seq<nat>, b: seq<nat>, live: set<nat>)
    ensures Restrict(a + b, live) == Restrict(a, live) + Restrict(b, live)
  {
    if a == [] {
      assert a + b == b;
    } else {
      RestrictConcat(a[1..], b, live);
      assert (a + b)[0] == a[0] && (a + b)[1..] == a[1..] + b;
      Regroup([a[0]], Restrict(a[1..], live), Restrict(b, live));
    }
  }

  lemma {:induction false} RestrictSame(ids: seq<nat>, live: set<nat>, live': set<nat>)
    requires forall id :: id in ids ==> (id in live <==> id in live')
    ensures Restrict(ids, live) == Restrict(ids, live')
  {
    if ids != [] {
      RestrictSame(ids[1..], live, live');
    }
  }

  lemma {:induction false} RestrictTwice(ids: seq<nat>, live: set<nat>, live': set<nat>)
    requires live' <= live
    ensures Restrict(Restrict(ids, live), live') == Restrict(ids, live')
  {
    if ids != [] {
      RestrictTwice(ids[1..], live, live');
    }
  }

  lemma {:induction false} RestrictAll(ids: seq<nat>, live: set<nat>)
    requires forall id :: id in ids ==> id in live
    ensures Restrict(ids, live) == ids
  {
    if ids != [] {
      RestrictAll(ids[1..], live);
    }
  }

  lemma {:induction false} RestrictMembers(ids: seq<nat>, live: set<nat>)
    ensures forall id :: id in Restrict(ids, live) <==> id in ids && id in live
  {
    if ids != [] {
      RestrictMembers(ids[1..], live);
    }
  }

  lemma {:induction false} TxIdsConcat(a: seq<Action>, b: seq<Action>)
    ensures TxIds(a + b) == TxIds(a) + TxIds(b)
  {
    if a == [] {
      assert a + b == b;
    } else {
      TxIdsConcat(a[1..], b);
      assert (a + b)[0] == a[0] && (a + b)[1..] == a[1..] + b;
      if a[0].Tx? {
        Regroup([a[0].id], TxIds(a[1..]), TxIds(b));
      }
    }
  }

  lemma {:induction false} QueuedIdsConcat(a: seq<Packet>, b: seq<Packet>)
    ensures QueuedIds(a + b) == QueuedIds(a) + QueuedIds(b)
  {
    if a == [] {
      assert a + b == b;
    } else {
      QueuedIdsConcat(a[1..], b);
      assert (a + b)[0] == a[0] && (a + b)[1..] == a[1..] + b;
      Regroup([a[0].id], QueuedIds(a[1..]), QueuedIds(b));
    }
  }

  lemma {:induction false} QueuedIdsMembers(list: seq<Packet>)
    ensures forall id :: id in QueuedIds(list) <==> exists p :: p in list && p.queued && p.id == id
  {
    if list != [] {
      QueuedIdsMembers(list[1..]);
      assert list == [list[0]] + list[1..];
    }
  }

  // Insertion.

  ghost predicate Ordered(list: seq<Packet>) {
    Sorted(list) && QueuedFirst(list) && Distinct(list)
  }

  ghost predicate MayPrecede(p: Packet, q: Packet) {
    p.sendAt <= q.sendAt && (q.queued ==> p.queued) && p.id != q.id
  }

  lemma ConsOrdered(p: Packet, list: seq<Packet>)
    requires Ordered(list) && forall q :: q in list ==> MayPrecede(p, q)
    ensures Ordered([p] + list)
  {
    assert forall i :: 0 <= i < |list| ==> MayPrecede(p, list[i]);
  }

  lemma TailOrdered(list: seq<Packet>)
    requires list != [] && Ordered(list)
    ensures Ordered(list[1..]) && forall q :: q in list[1..] ==> MayPrecede(list[0], q)
  {
  }

  lemma {:induction false} InsertKeepsOrder(list: seq<Packet>, p: Packet, now: int)
    requires Ordered(list)
    requires forall q :: q in list && q.queued ==> q.sendAt < now
    requires now <= p.sendAt && !p.queued && p.id !in Ids(list)
    ensures var r := Insert(list, p);
      && Ordered(r)
      && (forall q :: q in r <==> q in list || q == p)
      && QueuedIds(r) == QueuedIds(list)
  {
    hide Ordered;
    if list == [] {
      ConsOrdered(p, list);
    } else {
      TailOrdered(list);
      if list[0].sendAt > p.sendAt {
        assert forall q :: q in list ==> q == list[0] || q in list[1..];
        assert forall q :: q in list ==> q.id in Ids(list);
        ConsOrdered(p, list);
      } else {
        InsertKeepsOrder(list[1..], p, now);
        ConsOrdered(list[0], Insert(list[1..], p));
      }
    }
  }

  lemma InsertKeeps(s: State, p: Packet)
    requires Inv(s) && s.now <= p.sendAt && !p.queued
    requires p.id !in Ids(s.list) && p.id < s.nextId && p.id !in TxIds(s.fifo)
    ensures Inv(s.(list := Insert(s.list, p)))
  {
    hide Insert, QueuedIds, TxIds, Restrict;
    InsertKeepsOrder(s.list, p, s.now);
    RestrictSame(TxIds(s.fifo), Ids(s.list), Ids(Insert(s.list, p)));
  }

  // Removal.

  lemma {:induction false} WithoutMembers(list: seq<Packet>, gone: set<nat>)
    ensures forall p :: p in Without(list, gone) <==> p in list && p.id !in gone
  {
    if list != [] {
      WithoutMembers(list[1..], gone);
      assert list == [list[0]] + list[1..];
    }
  }

  lemma {:induction false} WithoutKeepsOrder(list: seq<Packet>, gone: set<nat>)
    requires Ordered(list)
    ensures Ordered(Without(list, gone))
  {
    hide Ordered;
    if list == [] {
      EmptyOrdered();
    } else {
      TailOrdered(list);
      WithoutKeepsOrder(list[1..], gone);
      WithoutMembers(list[1..], gone);
      ConsOrdered(list[0], Without(list[1..], gone));
    }
  }

  lemma EmptyOrdered()
    ensures Ordered([])
  {
  }

  lemma {:induction false} WithoutQueuedIds(list: seq<Packet>, gone: set<nat>)
    ensures QueuedIds(Without(list, gone)) == Restrict(QueuedIds(list), Ids(list) - gone)
  {
    if list != [] {
      WithoutQueuedIds(list[1..], gone);
      QueuedIdsMembers(list[1..]);
      RestrictSame(QueuedIds(list[1..]), Ids(list[1..]) - gone, Ids(list) - gone);
    }
  }

  lemma DropKeeps(s: State, gone: set<nat>)
    requires Inv(s)
    ensures Inv(s.(list := Without(s.list, gone)))
  {
    hide Without, QueuedIds, TxIds, Restrict;
    var r := Without(s.list, gone);
    WithoutMembers(s.list, gone);
    WithoutKeepsOrder(s.list, gone);
    assert Ids(r) == Ids(s.list) - gone;
    WithoutQueuedIds(s.list, gone);
    RestrictTwice(TxIds(s.fifo), Ids(s.list), Ids(r));
  }

  // Timer ticks.

  /** No action gets through after one that did not, in the same tick. */
  predicate FailuresLast(posts: seq<Post>) {
    forall i, j :: 0 <= i < j < |posts| && posts[j] == Posted ==> posts[i] == Posted
  }

  lemma {:induction false} HandedPrefix(list: seq<Packet>)
    requires QueuedFirst(list)
    ensures forall i :: Handed(list) <= i < |list| ==> !list[i].queued
  {
    if list != [] && list[0].queued {
      HandedPrefix(list[1..]);
      assert forall i :: 1 <= i < |list| ==> list[i] == list[1..][i - 1];
    }
  }

  /** What a tick does to packets none of which is handed over yet. */
  lemma {:induction false} PostDueKeeps(list: seq<Packet>, now: int, posts: seq<Post>)
    requires Ordered(list) && FailuresLast(posts)
    requires forall p :: p in list ==> !p.queued
    ensures var r := PostDue(list, now, posts);
      && SameBut(list, r.list)
      && (forall i :: 0 <= i < |list| && r.list[i].queued ==> list[i].sendAt < now)
      && QueuedFirst(r.list)
      && (posts != [] && posts[0] != Posted ==> r.list == list)
      && TxIds(r.posted) == QueuedIds(r.list)
    decreases |posts|
  {
    if list == [] || list[0].sendAt >= now || posts == [] || posts[0] == NoMemory {
      NoneQueued(list);
    } else {
      TailOrdered(list);
      PostDueKeeps(list[1..], now, posts[1..]);
      var rest := PostDue(list[1..], now, posts[1..]);
      if posts[0] != Posted {
        assert rest.list == list[1..];
      }
      QueuedInFront(list[0].(queued := posts[0] == Posted), rest.list);
    }
  }

  lemma QueuedInFront(p: Packet, rest: seq<Packet>)
    requires QueuedFirst(rest) && (p.queued || forall q :: q in rest ==> !q.queued)
    ensures QueuedFirst([p] + rest)
  {
  }

  lemma {:induction false} NoneQueued(list: seq<Packet>)
    requires forall p :: p in list ==> !p.queued
    ensures QueuedIds(list) == []
  {
    if list != [] {
      NoneQueued(list[1..]);
    }
  }

  /** Two lists that differ only in which packets are handed over. */
  ghost predicate SameBut(list: seq<Packet>, list': seq<Packet>) {
    && |list| == |list'|
    && forall i :: 0 <= i < |list| ==> list'[i] == list[i].(queued := list'[i].queued)
  }

  lemma SameButOrder(list: seq<Packet>, list': seq<Packet>)
    requires SameBut(list, list')
    requires Sorted(list) && Distinct(list)
    ensures Sorted(list') && Distinct(list') && Ids(list') == Ids(list)
    ensures forall p :: p in list' ==> exists q :: q in list && q == p.(queued := q.queued)
  {
    forall id | id in Ids(list) ensures id in Ids(list') {
      var i :| 0 <= i < |list| && list[i].id == id;
      assert list'[i] in list';
    }
    forall p | p in list' ensures exists q :: q in list && q == p.(queued := q.queued) {
      var i :| 0 <= i < |list'| && list'[i] == p;
      assert list[i] in list;
    }
  }

  lemma {:induction false} QueuedIdsNoRepeat(list: seq<Packet>)
    requires Distinct(list)
    ensures NoRepeat(QueuedIds(list))
  {
    if list != [] {
      QueuedIdsNoRepeat(list[1..]);
      QueuedIdsMembers(list[1..]);
      assert forall i :: 0 <= i < |list[1..]| ==> list[1..][i] == list[i + 1];
      assert list[0].id !in QueuedIds(list[1..]);
    }
  }

  lemma TickShape(s: State, posts: seq<Post>)
    requires Inv(s) && FailuresLast(posts)
    ensures var r := Tick(s.list, s.now, posts);
      && SameBut(s.list, r.list)
      && QueuedFirst(r.list)
      && (forall i :: 0 <= i < |r.list| && r.list[i].queued ==> r.list[i].sendAt < s.now)
      && QueuedIds(r.list) == QueuedIds(s.list) + TxIds(r.posted)
      && (forall id :: id in TxIds(r.posted) ==> id in Ids(s.list) && id !in QueuedIds(s.list))
      && NoRepeat(TxIds(r.posted))
  {
    hide PostDue, QueuedIds, TxIds, Handed, Ordered, QueuedFirst, SameBut;
    var n := Handed(s.list);
    var r := PostDue(s.list[n..], s.now, posts);
    RestUnqueued(s.list);
    PostDueKeeps(s.list[n..], s.now, posts);
    assert Tick(s.list, s.now, posts).posted == r.posted;
    TickIds(s.list, n, r.list);
    TickLists(s.list, n, r.list, s.now);
  }

  lemma RestUnqueued(list: seq<Packet>)
    requires Ordered(list)
    ensures var rest := list[Handed(list)..]; Ordered(rest) && forall p :: p in rest ==> !p.queued
  {
    HandedPrefix(list);
    SuffixOrdered(list, Handed(list));
  }

  lemma TickIds(list: seq<Packet>, n: nat, rest': seq<Packet>)
    requires n <= |list| && Ordered(list) && SameBut(list[n..], rest')
    requires forall p :: p in list[n..] ==> !p.queued
    ensures QueuedIds(list[..n] + rest') == QueuedIds(list) + QueuedIds(rest')
    ensures forall id :: id in QueuedIds(rest') ==> id in Ids(list) && id !in QueuedIds(list)
    ensures NoRepeat(QueuedIds(rest'))
  {
    hide QueuedIds;
    assert list == list[..n] + list[n..];
    QueuedIdsConcat(list[..n], list[n..]);
    QueuedIdsConcat(list[..n], rest');
    NoneQueued(list[n..]);
    SuffixOrdered(list, n);
    SameButOrder(list[n..], rest');
    QueuedIdsNoRepeat(rest');
    assert forall i :: n <= i < |list| ==> list[i] == list[n..][i - n];
    FreshIds(list, n, rest');
  }

  lemma SuffixOrdered(list: seq<Packet>, n: nat)
    requires Ordered(list) && n <= |list|
    ensures Ordered(list[n..])
  {
  }

  lemma TickLists(list: seq<Packet>, n: nat, rest': seq<Packet>, now: int)
    requires n <= |list| && SameBut(list[n..], rest')
    requires forall i :: 0 <= i < n ==> list[i].queued && list[i].sendAt < now
    requires QueuedFirst(rest') && forall i :: 0 <= i < |rest'| && rest'[i].queued ==> list[n..][i].sendAt < now
    ensures var r := list[..n] + rest';
      && SameBut(list, r) && QueuedFirst(r)
      && (forall i :: 0 <= i < |r| && r[i].queued ==> r[i].sendAt < now)
  {
  }

  lemma FreshIds(list: seq<Packet>, n: nat, rest': seq<Packet>)
    requires n <= |list| && Distinct(list) && SameBut(list[n..], rest')
    requires forall i :: n <= i < |list| ==> !list[i].queued
    ensures forall id :: id in QueuedIds(rest') ==> id in Ids(list) && id !in QueuedIds(list)
  {
    QueuedIdsMembers(rest');
    QueuedIdsMembers(list);
    forall id | id in QueuedIds(rest') ensures id in Ids(list) && id !in QueuedIds(list) {
      var i :| 0 <= i < |rest'| && rest'[i].id == id;
      assert list[n..][i] == list[n + i];
      assert list[n + i].id == id && !list[n + i].queued;
      SameIdSamePacket(list);
    }
  }

  lemma TickKeeps(s: State, posts: seq<Post>)
    requires Inv(s) && FailuresLast(posts)
    ensures Inv(Next(s, Timer(posts)))
  {
    hide Tick, QueuedIds, TxIds, Restrict, Ids;
    var r := Tick(s.list, s.now, posts);
    TickShape(s, posts);
    SameButOrder(s.list, r.list);
    var (before, added) := (TxIds(s.fifo), TxIds(r.posted));
    TxIdsConcat(s.fifo, r.posted);
    RestrictConcat(before, added, Ids(s.list));
    RestrictAll(added, Ids(s.list));
    RestrictMembers(before, Ids(s.list));
    assert forall id :: id in added ==> id !in before;
    assert forall id :: id in added ==> id < s.nextId by { IdsBelow(s.list, s.nextId); }
    NoRepeatConcat(before, added);
    assert forall p :: p in r.list && p.queued ==> p.sendAt < s.now;
  }

  lemma IdsBelow(list: seq<Packet>, n: nat)
    requires forall p :: p in list ==> p.id < n
    ensures forall id :: id in Ids(list) ==> id < n
  {
  }

  // The service task.

  /** A send action of a packet that still exists finds it at the head of the list. */
  lemma LiveActionFindsHead(s: State)
    requires Inv(s) && s.fifo != [] && s.fifo[0].Tx? && s.fifo[0].id in Ids(s.list)
    ensures AtHead(s.list, s.fifo[0].id)
  {
    var id := s.fifo[0].id;
    assert TxIds(s.fifo)[0] == id;
    assert QueuedIds(s.list)[0] == id;
    FirstQueuedIsHead(s.list);
  }

  lemma {:induction false} FirstQueuedIsHead(list: seq<Packet>)
    requires QueuedFirst(list) && QueuedIds(list) != []
    ensures list[0].queued && list[0].id == QueuedIds(list)[0]
    ensures QueuedIds(list)[1..] == QueuedIds(list[1..])
  {
    if !list[0].queued {
      assert forall p :: p in list[1..] ==> !p.queued;
      NoneQueued(list[1..]);
    }
  }

  lemma ServeKeeps(s: State, afterwards: Afterwards)
    requires Inv(s) && s.fifo != []
    ensures Inv(Served(s, afterwards))
  {
    hide QueuedIds, Restrict, Insert;
    var rest := s.(fifo := s.fifo[1..]);
    TxIdsConcat([s.fifo[0]], s.fifo[1..]);
    assert [s.fifo[0]] + s.fifo[1..] == s.fifo;
    if s.fifo[0].Other? {
      assert TxIds(rest.fifo) == TxIds(s.fifo);
      assert Inv(rest);
    } else {
      var id := s.fifo[0].id;
      var ids := TxIds(s.fifo);
      assert ids == [id] + TxIds(s.fifo[1..]);
      assert forall x :: x in TxIds(s.fifo[1..]) ==> x in ids;
      if id !in Ids(s.list) {
        SkipDead(id, TxIds(s.fifo[1..]), Ids(s.list));
        NoRepeatTail(id, TxIds(s.fifo[1..]));
        assert Inv(rest);
      } else {
        LiveActionFindsHead(s);
        TakeKeeps(s, afterwards);
      }
    }
  }

  lemma NoRepeatConcat<T>(a: seq<T>, b: seq<T>)
    requires NoRepeat(a) && NoRepeat(b) && forall x :: x in b ==> x !in a
    ensures NoRepeat(a + b)
  {
    assert forall i :: 0 <= i < |b| ==> b[i] in b;
    assert forall i :: 0 <= i < |a| ==> a[i] in a;
  }

  lemma NoRepeatTail<T>(x: T, s: seq<T>)
    requires NoRepeat([x] + s)
    ensures NoRepeat(s) && x !in s
  {
    assert ([x] + s)[0] == x;
    assert forall i :: 0 <= i < |s| ==> s[i] == ([x] + s)[i + 1];
  }

  lemma SkipDead(id: nat, ids: seq<nat>, live: set<nat>)
    requires id !in live
    ensures Restrict([id] + ids, live) == Restrict(ids, live)
  {
  }

  /** The state after the head of the list has been sent and taken off. */
  function Taken(s: State): State
    requires s.fifo != [] && s.list != []
  {
    s.(fifo := s.fifo[1..], list := s.list[1..], sent := s.sent + [s.list[0].(queued := false)])
  }

  lemma TakenKeeps(s: State)
    requires Inv(s) && s.fifo != [] && s.fifo[0].Tx? && AtHead(s.list, s.fifo[0].id)
    ensures Inv(Taken(s))
    ensures s.list[0].id !in Ids(Taken(s).list) && s.list[0].id !in TxIds(Taken(s).fifo)
  {
    hide Restrict, QueuedIds, Ordered;
    var (p, tail) := (s.list[0], s.list[1..]);
    TailOrdered(s.list);
    var ids := TxIds(s.fifo[1..]);
    assert TxIds(s.fifo) == [p.id] + ids;
    NoRepeatTail(p.id, ids);
    assert Ids(tail) == Ids(s.list) - {p.id} by {
      assert s.list == [p] + tail;
    }
    TakenMatched(s.list, p.id, ids);
    assert forall q :: q in tail ==> q in s.list;
    assert Sorted(s.sent + [p.(queued := false)]);
    assert forall x :: x in ids ==> x in TxIds(s.fifo);
  }

  lemma TakenMatched(list: seq<Packet>, id: nat, ids: seq<nat>)
    requires list != [] && list[0].queued && list[0].id == id && id !in ids
    requires QueuedIds(list) == Restrict([id] + ids, Ids(list))
    ensures Ids(list[1..]) == Ids(list) - {id} ==> QueuedIds(list[1..]) == Restrict(ids, Ids(list[1..]))
  {
    var (x, y) := (QueuedIds(list[1..]), Restrict(ids, Ids(list)));
    assert ([id] + ids)[1..] == ids;
    assert list[0] in list;
    assert [id] + x == [id] + y;
    assert x == ([id] + x)[1..] == ([id] + y)[1..] == y;
    RestrictSame(ids, Ids(list), Ids(list) - {id});
  }

  lemma TakeKeeps(s: State, afterwards: Afterwards)
    requires Inv(s) && s.fifo != [] && s.fifo[0].Tx? && AtHead(s.list, s.fifo[0].id)
    ensures Inv(Served(s, afterwards))
  {
    hide Inv;
    TakenKeeps(s);
    match afterwards
    case Free =>
    case Again(ms, load) =>
      var p := s.list[0].(queued := false, sendAt := s.now + ms, load := load);
      AgainKeeps(s, p);
  }

  lemma AgainKeeps(s: State, p: Packet)
    requires Inv(s) && s.fifo != [] && s.fifo[0].Tx? && AtHead(s.list, s.fifo[0].id)
    requires p.id == s.list[0].id && !p.queued && p.sendAt >= s.now
    ensures Inv(Taken(s).(list := Insert(Taken(s).list, p)))
  {
    TakenKeeps(s);
    InsertKeeps(Taken(s), p);
  }

  // ---------------------------------------------------------------- every run

  /** The outcomes that a tick really uses, one for each packet it tries to post. */
  function Used(list: seq<Packet>, now: int, posts: seq<Post>): seq<Post> {
    if list == [] || list[0].sendAt >= now || posts == [] || posts[0] == NoMemory then []
    else [posts[0]] + Used(list[1..], now, posts[1..])
  }

  function UsedByTick(s: State, posts: seq<Post>): seq<Post> {
    Used(s.list[Handed(s.list)..], s.now, posts)
  }

  lemma {:induction false} UsedSuffices(list: seq<Packet>, now: int, posts: seq<Post>)
    ensures PostDue(list, now, Used(list, now, posts)) == PostDue(list, now, posts)
    ensures |Used(list, now, posts)| <= |PostDue(list, now, posts).list| == |list|
    ensures forall i :: 0 <= i < |Used(list, now, posts)| ==>
      (PostDue(list, now, posts).list[i].queued <==> Used(list, now, posts)[i] == Posted)
    ensures forall i :: 0 <= i < |Used(list, now, posts)| ==> Used(list, now, posts)[i] != NoMemory
  {
    if !(list == [] || list[0].sendAt >= now || posts == [] || posts[0] == NoMemory) {
      UsedSuffices(list[1..], now, posts[1..]);
    }
  }

  /**
   * A timer tick keeps the invariant if and only if, among the packets it tries to post, no action
   * gets through after one that found the action queue full.
   */
  lemma TickKeepsExactly(s: State, posts: seq<Post>)
    requires Inv(s)
    ensures Inv(Next(s, Timer(posts))) <==> FailuresLast(UsedByTick(s, posts))
  {
    hide PostDue, Used, Handed;
    var n := Handed(s.list);
    var used := UsedByTick(s, posts);
    UsedSuffices(s.list[n..], s.now, posts);
    assert Next(s, Timer(used)) == Next(s, Timer(posts));
    if FailuresLast(used) {
      TickKeeps(s, used);
    } else {
      var i, j :| 0 <= i < j < |used| && used[j] == Posted && used[i] != Posted;
      var r := Tick(s.list, s.now, posts).list;
      var rest := PostDue(s.list[n..], s.now, posts).list;
      assert r[n + i] == rest[i] && r[n + j] == rest[j];
      assert !QueuedFirst(r);
    }
  }

  /** A tick in which failures come last, as they do when nothing drains the action queue meanwhile. */
  ghost predicate Calm(s: State, t: Step) {
    t.Timer? ==> FailuresLast(UsedByTick(s, t.posts))
  }

  lemma StepKeepsInv(s: State, t: Step)
    requires Inv(s) && Enabled(s, t) && Calm(s, t)
    ensures Inv(Next(s, t))
  {
    hide Tick, Without, Insert, QueuedIds, Restrict, Served;
    match t
    case Advance(ms) =>
    case PostOther =>
      TxIdsConcat(s.fifo, [Other]);
      assert TxIds([Other]) == [];
      assert TxIds(s.fifo + [Other]) == TxIds(s.fifo);
    case Timer(posts) => TickKeepsExactly(s, posts);
    case Serve(afterwards) => ServeKeeps(s, afterwards);
    case Schedule(port, ms, load) => ScheduleKeeps(s, port, ms, load);
    case Drop(gone) => DropKeeps(s, gone);
  }

  lemma ScheduleKeeps(s: State, port: Port, ms: nat, load: Load)
    requires Inv(s)
    ensures Inv(Next(s, Schedule(port, ms, load)))
  {
    hide Insert, QueuedIds, Restrict, TxIds;
    IdsBelow(s.list, s.nextId);
    InsertKeeps(s.(nextId := s.nextId + 1), Packet(s.nextId, port, s.now + ms, false, load));
  }

  ghost predicate IsRun(run: seq<State>, steps: seq<Step>) {
    && |run| == |steps| + 1
    && run[0] == Init()
    && forall i :: 0 <= i < |steps| ==>
         Enabled(run[i], steps[i]) && Calm(run[i], steps[i]) && run[i + 1] == Next(run[i], steps[i])
  }

  lemma {:induction false} RunKeepsInv(run: seq<State>, steps: seq<Step>, k: nat)
    requires IsRun(run, steps) && k < |run|
    ensures Inv(run[k])
  {
    if k > 0 {
      RunKeepsInv(run, steps, k - 1);
      StepKeepsInv(run[k - 1], steps[k - 1]);
    }
  }

  /**
   * In every run: the list is sorted by time, what has been handed over is a prefix of it, each of
   * those packets still has its action pending, in the same order, and no other packet has one.
   */
  lemma QueueDiscipline(run: seq<State>, steps: seq<Step>, k: nat)
    requires IsRun(run, steps) && k < |run|
    ensures var s := run[k];
      && Sorted(s.list) && QueuedFirst(s.list)
      && QueuedIds(s.list) == Restrict(TxIds(s.fifo), Ids(s.list))
      && (s.fifo != [] && s.fifo[0].Tx? && s.fifo[0].id in Ids(s.list) ==> AtHead(s.list, s.fifo[0].id))
      && (forall p :: p in s.list && p.queued ==> Tx(p.id) in s.fifo)
  {
    RunKeepsInv(run, steps, k);
    var s := run[k];
    if s.fifo != [] && s.fifo[0].Tx? && s.fifo[0].id in Ids(s.list) {
      LiveActionFindsHead(s);
    }
    QueuedIdsMembers(s.list);
    RestrictMembers(TxIds(s.fifo), Ids(s.list));
    TxIdsMembers(s.fifo);
  }

  lemma {:induction false} TxIdsMembers(fifo: seq<Action>)
    ensures forall id :: id in TxIds(fifo) <==> Tx(id) in fifo
  {
    if fifo != [] {
      TxIdsMembers(fifo[1..]);
      assert fifo == [fifo[0]] + fifo[1..];
    }
  }

  /** In every run packets are sent in the order of their times, and never before their time. */
  lemma SentInOrder(run: seq<State>, steps: seq<Step>, k: nat)
    requires IsRun(run, steps) && k < |run|
    ensures Sorted(run[k].sent)
    ensures forall p :: p in run[k].sent ==> p.sendAt < run[k].now
    ensures forall p, q :: p in run[k].sent && q in run[k].list ==> p.sendAt <= q.sendAt
  {
    RunKeepsInv(run, steps, k);
  }

  // ---------------------------------------------------------------- what goes wrong otherwise

  /** The head of the list counts as handed over, but nothing will ever ask for it. */
  ghost predicate Stuck(s: State) {
    && s.list != [] && s.list[0].queued && s.list[0].sendAt < s.now
    && Tx(s.list[0].id) !in s.fifo
    && s.list[0].id < s.nextId
    && forall i :: 0 < i < |s.list| ==> s.list[i].id != s.list[0].id
  }

  lemma {:induction false} PostDueIds(list: seq<Packet>, now: int, posts: seq<Post>)
    ensures SameBut(list, PostDue(list, now, posts).list)
    ensures forall a :: a in PostDue(list, now, posts).posted ==> a.Tx? && a.id in Ids(list)
  {
    if !(list == [] || list[0].sendAt >= now || posts == [] || posts[0] == NoMemory) {
      PostDueIds(list[1..], now, posts[1..]);
    }
  }

  lemma {:induction false} InsertMembers(list: seq<Packet>, p: Packet)
    ensures forall q :: q in Insert(list, p) <==> q in list || q == p
  {
    if !(list == [] || list[0].sendAt > p.sendAt) {
      InsertMembers(list[1..], p);
      assert list == [list[0]] + list[1..];
    }
  }

  /** Once the head is stuck, no step sends anything, except a step that removes the head. */
  lemma StuckStays(s: State, t: Step)
    requires Stuck(s) && Enabled(s, t)
    requires t.Drop? ==> s.list[0].id !in t.gone
    ensures Stuck(Next(s, t)) && Next(s, t).list[0] == s.list[0] && Next(s, t).sent == s.sent
  {
    hide SameBut;
    var (head, tail) := (s.list[0], s.list[1..]);
    assert forall q :: q in tail ==> q.id != head.id;
    match t
    case Advance(ms) =>
    case PostOther =>
    case Timer(posts) =>
      StuckThroughTick(s, posts);
    case Serve(afterwards) =>
      assert s.fifo[0] in s.fifo;
    case Schedule(port, ms, load) =>
      InsertMembers(tail, Packet(s.nextId, port, s.now + ms, false, load));
    case Drop(gone) =>
      WithoutMembers(tail, gone);
  }

  lemma StuckThroughTick(s: State, posts: seq<Post>)
    requires Stuck(s)
    ensures var r := Next(s, Timer(posts)); Stuck(r) && r.list[0] == s.list[0]
  {
    hide PostDue;
    var n := Handed(s.list);
    var rest := s.list[n..];
    PostDueIds(rest, s.now, posts);
    var r := PostDue(rest, s.now, posts);
    assert n >= 1;
    assert forall q :: q in rest ==> q.id != s.list[0].id;
    assert s.list[0].id !in Ids(rest);
  }

  /** The state once two packets have been scheduled and both are due. */
  function TwoDue(a: Packet, b: Packet, ms: nat): State
    requires 0 <= a.sendAt && 0 <= b.sendAt
  {
    var s1 := Next(Init(), Schedule(a.port, a.sendAt, a.load));
    Next(Next(s1, Schedule(b.port, b.sendAt, b.load)), Advance(ms))
  }

  /**
   * How it comes to that, from the start: two packets are scheduled and become due, posting the first
   * fails and posting the second succeeds; the second action finds the wrong head and is dropped; then
   * the first packet is cleared.
   */
  lemma StuckIsReached(a: Packet, b: Packet, now: nat)
    requires a.id == 0 && b.id == 1 && !a.queued && !b.queued && 0 <= a.sendAt <= b.sendAt < now
    ensures var s0 := TwoDue(a, b, now);
      var s1 := Next(s0, Timer([QueueFull, Posted]));
      && s0 == State(now, [a, b], [], [], 2) && Inv(s0)
      && s1 == State(now, [a, b.(queued := true)], [Tx(1)], [], 2)
      && Next(Next(s1, Serve(Free)), Drop({0})) == State(now, [b.(queued := true)], [], [], 2)
      && Stuck(State(now, [b.(queued := true)], [], [], 2))
  {
    TwoWaiting(a, b, now);
    hide Inv;
    BothInOrder(a, b);
    TickOutOfOrder(a, b, now);
    DroppedOutOfOrder(a, b.(queued := true));
  }

  lemma TwoWaiting(a: Packet, b: Packet, now: nat)
    requires a.id == 0 && b.id == 1 && !a.queued && !b.queued && a.sendAt <= b.sendAt < now
    ensures Inv(State(now, [a, b], [], [], 2))
  {
    assert QueuedIds([b]) == [] && QueuedIds([a, b]) == QueuedIds([b]);
  }

  lemma BothInOrder(a: Packet, b: Packet)
    requires a.sendAt <= b.sendAt
    ensures Insert(Insert([], a), b) == [a, b]
  {
    assert Insert([], a) == [a];
    assert [a][1..] == [] && Insert([], b) == [b];
  }

  lemma TickOutOfOrder(a: Packet, b: Packet, now: int)
    requires !a.queued && !b.queued && a.sendAt <= b.sendAt < now
    ensures Tick([a, b], now, [QueueFull, Posted]) == TickResult([a, b.(queued := true)], [Tx(b.id)])
  {
    assert [a, b][1..] == [b] && [b][1..] == [] && [QueueFull, Posted][1..] == [Posted];
    assert PostDue([b], now, [Posted]) == TickResult([b.(queued := true)], [Tx(b.id)]);
    assert PostDue([a, b], now, [QueueFull, Posted]) == TickResult([a, b.(queued := true)], [Tx(b.id)]);
    assert [a, b][0..] == [a, b];
  }

  lemma DroppedOutOfOrder(a: Packet, b: Packet)
    requires a.id == 0 && b.id == 1
    ensures Without([a, b], {0}) == [b]
  {
    assert [a, b][1..] == [b] && [b][1..] == [];
    assert Without([b], {0}) == [b];
  }
}
