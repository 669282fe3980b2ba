/**
 * Announcing: how often an announcement goes out, how far apart, and what replies do to it.
 */
module MdnsAnnounce {
  import opened Bytes
  import opened MdnsTxQueue
  import opened MdnsPcb

  /** Nothing starts probing or announcing again, ends it, or takes the last answer of an announcement. */
  predicate Undisturbed(e: Event) {
    && !e.StartProbe? && !e.Disable? && !e.SetDuplicate? && !e.AnnounceAgain?
    && (e.Withdraw? ==> !e.emptied)
  }

  predicate AllUndisturbed(events: seq<Event>, i: nat, j: nat)
    requires i <= j <= |events|
  {
    forall k :: i <= k < j ==> Undisturbed(events[k])
  }

  /** How many packets of this interface are sent. */
  function Sendings(events: seq<Event>, i: nat, j: nat): nat
    requires i <= j <= |events|
  {
    if i == j then 0 else Sendings(events, i, j - 1) + if events[j - 1].SendMine? then 1 else 0
  }

  /** The phase after so many sendings since announcing began. */
  function PhaseAfter(n: nat): Phase {
    if n == 0 then Announce1 else if n == 1 then Announce2 else if n == 2 then Announce3 else Running
  }

  lemma OneMoreEvent(w: World, e: Event, n: nat)
    requires CanHappen(w, e) && Undisturbed(e) && w.pcb.phase == PhaseAfter(n)
    ensures Happen(w, e).pcb.phase == PhaseAfter(if e.SendMine? then n + 1 else n)
  {
    hide MdnsTxQueue.Next, DropService, Without, Calm, Emptied;
  }

  /**
   * In every run, as long as nothing disturbs it, announcing ends exactly with the third packet sent since it
   * began, whichever packets these are.
   */
  lemma {:induction false} RunningAfterThree(run: seq<World>, events: seq<Event>, i: nat, j: nat)
    requires IsHistory(run, events) && i <= j <= |events| && AllUndisturbed(events, i, j)
    requires run[i].pcb.phase.Announce1?
    ensures run[j].pcb.phase == PhaseAfter(Sendings(events, i, j))
    ensures run[j].pcb.phase.Running? <==> Sendings(events, i, j) >= 3
    decreases j - i
  {
    hide Happen, CanHappen;
    if i < j {
      RunningAfterThree(run, events, i, j - 1);
      assert Follows(run[j - 1], events[j - 1], run[j]);
      OneMoreEvent(run[j - 1], events[j - 1], Sendings(events, i, j - 1));
    }
  }

  /**
   * What becomes of a packet sent while announcing: in the first two phases it is scheduled again, a thousand
   * milliseconds later; otherwise it is gone.
   */
  lemma RepeatedExactly(w: World, created: bool)
    requires Inv(w.queue) && MineNext(w) && AfterProbing(w.pcb.phase)
    ensures var (p, q) := (w.queue.list[0], Happen(w, SendMine(created)).queue);
      && q.sent == w.queue.sent + [p.(queued := false)] && q.now == w.queue.now
      && (w.pcb.phase.Announce1? || w.pcb.phase.Announce2? ==>
          p.(queued := false, sendAt := w.queue.now + 1000) in q.list)
      && (w.pcb.phase.Announce3? || w.pcb.phase.Running? ==> p.id !in Ids(q.list))
  {
    hide Insert, QueuedIds, TxIds, Restrict;
    var (p, tail) := (w.queue.list[0], w.queue.list[1..]);
    InsertMembers(tail, p.(queued := false, sendAt := w.queue.now + 1000));
    assert forall i :: 0 <= i < |tail| ==> tail[i] == w.queue.list[i + 1];
  }

  // ---------------------------------------------------------------- an announcement on its own

  /** Nothing happens to this interface but its sendings. */
  predicate Left(e: Event) {
    e.Elsewhere? || e.SendMine? || e.ProbeFailed? || e.NameHost?
  }

  predicate AllLeft(events: seq<Event>, i: nat, j: nat)
    requires i <= j <= |events|
  {
    forall k :: i <= k < j ==> Left(events[k])
  }

  /** The times at which packets of this interface are sent. */
  function SentAt(run: seq<World>, events: seq<Event>, i: nat, j: nat): (ts: seq<int>)
    requires i <= j <= |events| < |run|
  {
    if i == j then []
    else SentAt(run, events, i, j - 1) + if events[j - 1].SendMine? then [run[j - 1].queue.now] else []
  }

  /** Behind the sendings at `ts`, the packet `a` is the only one scheduled, or has been sent three times. */
  predicate Announced(w: World, a: Packet, ts: seq<int>) {
    && w.pcb.phase == PhaseAfter(|ts|) && |ts| <= 3
    && (if |ts| == 3 then Own(w.queue.list, w.me) == {}
        else Own(w.queue.list, w.me) == {a.(sendAt := if ts == [] then a.sendAt else ts[|ts| - 1] + 1000)})
  }

  predicate Apart(ts: seq<int>, first: int) {
    && (ts != [] ==> ts[0] > first)
    && forall k :: 0 < k < |ts| ==> ts[k] > ts[k - 1] + 1000
  }

  lemma SendAnnouncement(w: World, created: bool, a: Packet, ts: seq<int>)
    requires Inv(w.queue) && MineNext(w) && Announced(w, a, ts) && Apart(ts, a.sendAt) && !a.queued
    requires a.port == w.me
    ensures Plain(w.queue.list[0]).id == a.id && w.queue.list[0].load == a.load
    ensures Announced(Happen(w, SendMine(created)), a, ts + [w.queue.now]) && Apart(ts + [w.queue.now], a.sendAt)
  {
    hide Insert, Own, QueuedIds, TxIds, Restrict, MdnsTxQueue.Next;
    var q := w.queue;
    OwnHead(w);
    TailOwn(q.list, w.me);
    var p := Plain(q.list[0]);
    assert p in Own(q.list, w.me);
    assert p == a.(sendAt := if ts == [] then a.sendAt else ts[|ts| - 1] + 1000);
    assert q.list[0] in q.list && q.list[0].sendAt < q.now;
    if |ts| < 2 {
      InsertOwn(q.list[1..], p.(sendAt := q.now + 1000), w.me);
    }
    SentOwn(w, created);
  }

  /** The packets of this interface after a sending while announcing. */
  lemma SentOwn(w: World, created: bool)
    requires Inv(w.queue) && MineNext(w) && Announcing(w.pcb.phase)
    ensures var (p, q) := (Plain(w.queue.list[0]), Happen(w, SendMine(created)).queue);
      q.list == if w.pcb.phase.Announce3? then w.queue.list[1..]
                else Insert(w.queue.list[1..], p.(sendAt := w.queue.now + 1000))
    ensures var w' := Happen(w, SendMine(created));
      w'.me == w.me && w'.pcb.phase == Successor(w.pcb.phase)
  {
    hide Insert, Inv;
  }

  lemma LeftAlone(w: World, e: Event, a: Packet, ts: seq<int>)
    requires Inv(w.queue) && CanHappen(w, e) && Left(e) && !e.SendMine? && Announced(w, a, ts)
    ensures Announced(Happen(w, e), a, ts)
  {
    hide Own, Inv, Calm;
    if e.Elsewhere? {
      ElsewhereOwn(w, e.step);
    }
  }

  /**
   * In every run an announcement that is left to itself goes out three times, more than a thousand
   * milliseconds apart, and then the interface is running.
   */
  lemma {:induction false} AnnouncedThreeTimes(run: seq<World>, events: seq<Event>, i: nat, j: nat, a: Packet)
    requires IsHistory(run, events) && i <= j <= |events| && AllLeft(events, i, j)
    requires run[i].pcb.phase.Announce1? && Own(run[i].queue.list, run[i].me) == {a}
    ensures var ts := SentAt(run, events, i, j);
      && |ts| <= 3 && Apart(ts, a.sendAt) && Announced(run[j], a, ts)
      && (run[j].pcb.phase.Running? <==> |ts| == 3)
    ensures forall k :: i <= k < j && events[k].SendMine? ==>
      MineNext(run[k]) && run[k].queue.list[0].id == a.id && run[k].queue.list[0].load == a.load
    decreases j - i
  {
    hide Happen, Inv, Own, ProbeInv, Announced, Apart;
    OwnIsPlain(run[i].queue.list, run[i].me, a);
    if i == j {
      NothingSent(run[i], a);
    } else {
      AnnouncedThreeTimes(run, events, i, j - 1, a);
      HistoryKeepsInv(run, events, j - 1);
      var (w, e, ts) := (run[j - 1], events[j - 1], SentAt(run, events, i, j - 1));
      assert Follows(w, e, run[j]);
      SameMe(run, events, i, j - 1);
      if e.SendMine? {
        SendAnnouncement(w, e.created, a, ts);
      } else {
        LeftAlone(w, e, a, ts);
        assert ts + [] == ts;
      }
      PhaseOfThree(run[j], a, SentAt(run, events, i, j));
    }
  }

  lemma PhaseOfThree(w: World, a: Packet, ts: seq<int>)
    requires Announced(w, a, ts)
    ensures |ts| <= 3 && (w.pcb.phase.Running? <==> |ts| == 3)
  {
  }

  lemma OwnIsPlain(list: seq<Packet>, me: Port, a: Packet)
    requires Own(list, me) == {a}
    ensures a.port == me && !a.queued
  {
    assert a in Own(list, me);
  }

  lemma NothingSent(w: World, a: Packet)
    requires w.pcb.phase.Announce1? && Own(w.queue.list, w.me) == {a}
    ensures Announced(w, a, []) && Apart([], a.sendAt)
  {
  }

  lemma {:induction false} SameMe(run: seq<World>, events: seq<Event>, i: nat, j: nat)
    requires IsHistory(run, events) && i <= j < |run|
    ensures run[j].me == run[i].me
    decreases j - i
  {
    if i < j {
      SameMe(run, events, i, j - 1);
      assert Follows(run[j - 1], events[j - 1], run[j]);
    }
  }

  // ---------------------------------------------------------------- more to announce

  lemma {:induction false} AmendedFirst(list: seq<Packet>, me: Port, more: Load) returns (i: nat)
    requires OnPort(list, me) != {}
    ensures i < |list| && list[i].port == me && forall j :: 0 <= j < i ==> list[j].port != me
    ensures Amended(list, me, more) == list[i := list[i].(load := Joined(list[i].load, more))]
  {
    if list[0].port == me {
      i := 0;
    } else {
      var id :| id in OnPort(list, me);
      var p :| p in list && p.port == me && p.id == id;
      assert list == [list[0]] + list[1..] && p in list[1..];
      assert id in OnPort(list[1..], me);
      var k := AmendedFirst(list[1..], me, more);
      i := k + 1;
    }
  }

  /**
   * What is to be announced while announcing goes into the next packet of this interface, in addition to what is
   * in it, and announcing begins afresh; nothing else changes.
   */
  lemma JoinsAnnouncing(w: World, more: Load) returns (i: nat)
    requires Announcing(w.pcb.phase) && Mine(w) != {}
    ensures var (list, w') := (w.queue.list, Happen(w, AnnounceAgain(more)));
      && i < |list| && list[i].port == w.me && (forall j :: 0 <= j < i ==> list[j].port != w.me)
      && |w'.queue.list| == |list| && w'.queue.list == list[i := w'.queue.list[i]]
      && w'.queue.list[i] == list[i].(load := w'.queue.list[i].load)
      && var (l, l') := (list[i].load, w'.queue.list[i].load);
         && l'.questions == l.questions && (forall x :: x in l'.entries <==> x in l.entries || x in more.entries)
         && (l'.other <==> l.other || more.other)
    ensures Happen(w, AnnounceAgain(more)).pcb.phase.Announce1?
  {
    i := AmendedFirst(w.queue.list, w.me, more);
    hide Amended;
  }

  /** In every run announcing that has begun afresh ends with the third packet sent from then on. */
  lemma AfreshTakesThree(run: seq<World>, events: seq<Event>, i: nat, j: nat)
    requires IsHistory(run, events) && i < j <= |events| && AllUndisturbed(events, i + 1, j)
    requires events[i].AnnounceAgain? && AfterProbing(run[i].pcb.phase)
    requires if run[i].pcb.phase.Running? then run[i].hostKnown else Mine(run[i]) != {}
    ensures run[j].pcb.phase.Running? <==> Sendings(events, i + 1, j) >= 3
  {
    hide Amended, Mine;
    assert Follows(run[i], events[i], run[i + 1]);
    RunningAfterThree(run, events, i + 1, j);
  }

  // ---------------------------------------------------------------- replies count as announcements

  /** Two replies are scheduled in front of an announcement, all three become due, and are sent. */
  function WithTwoReplies(w: World, first: Load, second: Load): World
  {
    var w2 := Happen(Happen(w, Reply(10, first)), Reply(20, second));
    Happen(Happen(w2, Elsewhere(Advance(300))), Elsewhere(Timer([Posted, Posted, Posted])))
  }

  lemma {:induction false} InsertLast(list: seq<Packet>, p: Packet)
    requires forall q :: q in list ==> q.sendAt <= p.sendAt
    ensures Insert(list, p) == list + [p]
  {
    if list != [] {
      InsertLast(list[1..], p);
      assert list == [list[0]] + list[1..];
    }
  }

  lemma TwoInFront(a: Packet, first: Packet, second: Packet)
    requires first.sendAt < second.sendAt < a.sendAt
    ensures Insert(Insert([a], first), second) == [first, second, a]
  {
    assert Insert([a], first) == [first, a] && [first, a][1..] == [a];
    assert Insert([a], second) == [second, a];
  }

  lemma AllThreePosted(p: Packet, q: Packet, r: Packet, now: int)
    requires !p.queued && !q.queued && !r.queued && p.sendAt < now && q.sendAt < now && r.sendAt < now
    ensures Tick([p, q, r], now, [Posted, Posted, Posted]) ==
              TickResult([p.(queued := true), q.(queued := true), r.(queued := true)], [Tx(p.id), Tx(q.id), Tx(r.id)])
  {
    assert [p, q, r][1..] == [q, r] && [q, r][1..] == [r] && [r][1..] == [];
    assert [Posted, Posted, Posted][1..] == [Posted, Posted] && [Posted, Posted][1..] == [Posted];
    assert PostDue([r], now, [Posted]) == TickResult([r.(queued := true)], [Tx(r.id)]);
    assert PostDue([q, r], now, [Posted, Posted]) ==
             TickResult([q.(queued := true), r.(queued := true)], [Tx(q.id), Tx(r.id)]);
    assert [p, q, r][0..] == [p, q, r];
  }

  /** A packet of this interface at the head, with its action pending, is sent and goes to the end, or is gone. */
  lemma HeadSent(w: World, p: Packet, tail: seq<Packet>, rest: seq<Action>)
    requires w.queue.list == [p] + tail && w.queue.fifo == [Tx(p.id)] + rest && p.queued && p.port == w.me
    requires Announcing(w.pcb.phase) && forall q :: q in tail ==> q.sendAt <= w.queue.now + 1000
    ensures MineNext(w)
    ensures var w' := Happen(w, SendMine(true));
      && w'.me == w.me && w'.pcb.phase == Successor(w.pcb.phase)
      && w'.queue == w.queue.(
           list := if w.pcb.phase.Announce3? then tail
                   else tail + [p.(queued := false, sendAt := w.queue.now + 1000)],
           fifo := rest, sent := w.queue.sent + [p.(queued := false)])
  {
    assert w.queue.list[1..] == tail && w.queue.fifo[1..] == rest;
    InsertLast(tail, p.(queued := false, sendAt := w.queue.now + 1000));
    hide Insert;
  }

  /** Three packets that are handed over are sent in turn; the third is not scheduled again. */
  lemma ThreeSent(w: World, p: Packet, q: Packet, a: Packet) returns (w1: World, w2: World, w3: World)
    requires w.pcb.phase.Announce1? && p.port == q.port == a.port == w.me && p.queued && q.queued && a.queued
    requires w.queue.list == [p, q, a] && w.queue.fifo == [Tx(p.id), Tx(q.id), Tx(a.id)]
    requires p.sendAt < w.queue.now && q.sendAt < w.queue.now && a.sendAt < w.queue.now
    requires a.id != p.id && a.id != q.id
    ensures Follows(w, SendMine(true), w1) && Follows(w1, SendMine(true), w2) && Follows(w2, SendMine(true), w3)
    ensures w3.pcb.phase.Running? && a.id !in Ids(w3.queue.list)
    ensures w3.queue.sent == w.queue.sent + [p.(queued := false), q.(queued := false), a.(queued := false)]
  {
    hide Happen, Insert;
    var later := w.queue.now + 1000;
    var (p', q') := (p.(queued := false, sendAt := later), q.(queued := false, sendAt := later));
    assert [p, q, a] == [p] + [q, a] && [Tx(p.id), Tx(q.id), Tx(a.id)] == [Tx(p.id)] + [Tx(q.id), Tx(a.id)];
    HeadSent(w, p, [q, a], [Tx(q.id), Tx(a.id)]);
    w1 := Happen(w, SendMine(true));
    assert [q, a] + [p'] == [q] + [a, p'] && [Tx(q.id), Tx(a.id)] == [Tx(q.id)] + [Tx(a.id)];
    HeadSent(w1, q, [a, p'], [Tx(a.id)]);
    w2 := Happen(w1, SendMine(true));
    assert [a, p'] + [q'] == [a] + [p', q'] && [Tx(a.id)] == [Tx(a.id)] + [];
    HeadSent(w2, a, [p', q'], []);
    w3 := Happen(w2, SendMine(true));
  }

  /** A reply scheduled `ms` milliseconds from now. */
  function ReplyOf(w: World, id: nat, ms: nat, load: Load): Packet {
    Packet(id, w.me, w.queue.now + ms, false, load)
  }

  lemma AllThreeDue(w: World, a: Packet, first: Load, second: Load)
    requires w.queue.list == [a] && w.queue.fifo == [] && !a.queued && a.sendAt == w.queue.now + 250
    ensures var (p, q) := (ReplyOf(w, w.queue.nextId, 10, first), ReplyOf(w, w.queue.nextId + 1, 20, second));
      var w0 := WithTwoReplies(w, first, second);
      && w0.me == w.me && w0.pcb == w.pcb && w0.queue.now == w.queue.now + 300 && w0.queue.sent == w.queue.sent
      && w0.queue.list == [p.(queued := true), q.(queued := true), a.(queued := true)]
      && w0.queue.fifo == [Tx(p.id), Tx(q.id), Tx(a.id)]
  {
    var (p, q) := (ReplyOf(w, w.queue.nextId, 10, first), ReplyOf(w, w.queue.nextId + 1, 20, second));
    TwoInFront(a, p, q);
    AllThreePosted(p, q, a, w.queue.now + 300);
    hide Insert, Tick;
  }

  lemma {:induction false} UsedArePosts(list: seq<Packet>, now: int, posts: seq<Post>)
    ensures forall u :: u in Used(list, now, posts) ==> u in posts
    decreases |posts|
  {
    if list != [] && list[0].sendAt < now && posts != [] && posts[0] != NoMemory {
      UsedArePosts(list[1..], now, posts[1..]);
    }
  }

  lemma TwoRepliesCanHappen(w: World, first: Load, second: Load)
    requires w.pcb.phase.Announce1?
    ensures var (w1, w2, w3, w4) := StepsOfTwoReplies(w, first, second);
      && Follows(w, Reply(10, first), w1) && Follows(w1, Reply(20, second), w2)
      && Follows(w2, Elsewhere(Advance(300)), w3) && Follows(w3, Elsewhere(Timer([Posted, Posted, Posted])), w4)
      && w4 == WithTwoReplies(w, first, second)
  {
    hide Insert, Tick, Used, Handed;
    var (w1, w2, w3, w4) := StepsOfTwoReplies(w, first, second);
    UsedArePosts(w3.queue.list[Handed(w3.queue.list)..], w3.queue.now, [Posted, Posted, Posted]);
    var used := UsedByTick(w3.queue, [Posted, Posted, Posted]);
    forall i | 0 <= i < |used| ensures used[i] == Posted {
      assert used[i] in used;
    }
  }

  function StepsOfTwoReplies(w: World, first: Load, second: Load): (World, World, World, World) {
    var w1 := Happen(w, Reply(10, first));
    var w2 := Happen(w1, Reply(20, second));
    var w3 := Happen(w2, Elsewhere(Advance(300)));
    (w1, w2, w3, Happen(w3, Elsewhere(Timer([Posted, Posted, Posted]))))
  }

  /**
   * Two replies sent in front of an announcement use up its repetitions: they are scheduled again in its place,
   * and the announcement goes out only once.
   */
  lemma RepliesUseUpAnnouncing(w: World, a: Packet, first: Load, second: Load)
    returns (w1: World, w2: World, w3: World)
    requires w.pcb.phase.Announce1? && w.queue.list == [a] && w.queue.fifo == []
    requires a.port == w.me && !a.queued && a.sendAt == w.queue.now + 250 && a.id < w.queue.nextId
    ensures var w0 := WithTwoReplies(w, first, second);
      Follows(w0, SendMine(true), w1) && Follows(w1, SendMine(true), w2) && Follows(w2, SendMine(true), w3)
    ensures w3.pcb.phase.Running? && a.id !in Ids(w3.queue.list)
    ensures var (p, q) := (ReplyOf(w, w.queue.nextId, 10, first), ReplyOf(w, w.queue.nextId + 1, 20, second));
      w3.queue.sent == w.queue.sent + [p, q, a]
  {
    hide WithTwoReplies, Happen;
    AllThreeDue(w, a, first, second);
    var (p, q) := (ReplyOf(w, w.queue.nextId, 10, first), ReplyOf(w, w.queue.nextId + 1, 20, second));
    w1, w2, w3 := ThreeSent(WithTwoReplies(w, first, second), p.(queued := true), q.(queued := true),
                            a.(queued := true));
  }
}
