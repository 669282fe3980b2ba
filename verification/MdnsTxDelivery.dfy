/**
 * What becomes of the packets in the list: each is sent or removed, none is lost, and none that is handed
 * over to the service task waits for ever.
 */
module MdnsTxDelivery {
  import opened Bytes
  import opened MdnsTxQueue

  /** The step that serves the send action of a packet still in the list. */
  predicate Sends(s: State, t: Step, id: nat) {
    t.Serve? && s.fifo != [] && s.fifo[0] == Tx(id) && id in Ids(s.list)
  }

  predicate Removes(t: Step, id: nat) {
    t.Drop? && id in t.gone
  }

  /** Serving the send action of a packet that still exists sends exactly that packet. */
  lemma ServedIsSent(s: State, t: Step, p: Packet)
    requires Inv(s) && Enabled(s, t) && p in s.list && Sends(s, t, p.id)
    ensures Next(s, t).sent == s.sent + [p.(queued := false)]
  {
    hide QueuedIds, TxIds, Restrict, Insert;
    LiveActionFindsHead(s);
    SameIdSamePacket(s.list);
    assert s.list[0] in s.list;
  }

  /** No other step sends anything. */
  lemma OthersSendNothing(s: State, t: Step)
    requires Inv(s) && Enabled(s, t) && forall id :: !Sends(s, t, id)
    ensures Next(s, t).sent == s.sent
  {
    hide QueuedIds, TxIds, Restrict, Insert, Tick, Without;
    if t.Serve? && s.fifo[0].Tx? {
      assert !Sends(s, t, s.fifo[0].id);
      HeadIsThere(s.list, s.fifo[0].id);
    }
  }

  lemma HeadIsThere(list: seq<Packet>, id: nat)
    requires id !in Ids(list)
    ensures !AtHead(list, id)
  {
  }

  lemma TickIdsSame(list: seq<Packet>, now: int, posts: seq<Post>)
    ensures Ids(Tick(list, now, posts).list) == Ids(list)
  {
    hide PostDue, Handed;
    var n := Handed(list);
    PostDueIds(list[n..], now, posts);
    var r := PostDue(list[n..], now, posts).list;
    assert list == list[..n] + list[n..];
    forall id | id in Ids(list[n..]) ensures id in Ids(r) {
      var i :| 0 <= i < |list[n..]| && list[n..][i].id == id;
      assert r[i] in r;
    }
    forall id | id in Ids(r) ensures id in Ids(list[n..]) {
      var i :| 0 <= i < |r| && r[i].id == id;
      assert list[n..][i] in list[n..];
    }
  }

  /** A packet leaves the list only in a step that removes it, or that sends it for the last time. */
  lemma LeavesOnlySentOrRemoved(s: State, t: Step, p: Packet)
    requires Inv(s) && Enabled(s, t) && p in s.list && p.id !in Ids(Next(s, t).list)
    ensures Removes(t, p.id) ||
            (Sends(s, t, p.id) && t == Serve(Free) && Next(s, t).sent == s.sent + [p.(queued := false)])
  {
    hide QueuedIds, TxIds, Restrict, Insert, Tick, Without, Inv;
    match t
    case Advance(ms) =>
    case PostOther =>
    case Timer(posts) => TickIdsSame(s.list, s.now, posts);
    case Schedule(port, ms, load) => InsertMembers(s.list, Packet(s.nextId, port, s.now + ms, false, load));
    case Drop(gone) => WithoutMembers(s.list, gone);
    case Serve(afterwards) => LeavesWhenServed(s, afterwards, p);
  }

  lemma LeavesWhenServed(s: State, afterwards: Afterwards, p: Packet)
    requires Inv(s) && s.fifo != [] && p in s.list && p.id !in Ids(Next(s, Serve(afterwards)).list)
    ensures Sends(s, Serve(afterwards), p.id) && afterwards == Free
    ensures Next(s, Serve(afterwards)).sent == s.sent + [p.(queued := false)]
  {
    hide QueuedIds, TxIds, Restrict, Insert, Inv;
    if s.fifo[0].Tx? && AtHead(s.list, s.fifo[0].id) {
      var (head, tail) := (s.list[0], s.list[1..]);
      assert s.list == [head] + tail && head in s.list;
      if afterwards.Again? {
        InsertMembers(tail, head.(queued := false, sendAt := s.now + afterwards.ms, load := afterwards.load));
      }
      assert p == head;
      ServedIsSent(s, Serve(afterwards), p);
    }
  }

  // ---------------------------------------------------------------- handed over packets are sent

  /** A tick that gets all its posts through hands over every packet that is due. */
  lemma {:induction false} AllPosted(list: seq<Packet>, now: int, posts: seq<Post>, i: nat)
    requires Sorted(list) && |posts| >= |list| && forall k :: 0 <= k < |posts| ==> posts[k] == Posted
    requires i < |list| && list[i].sendAt < now
    ensures var r := PostDue(list, now, posts);
      i < |r.list| && r.list[i] == list[i].(queued := true) && Tx(list[i].id) in r.posted
    decreases i
  {
    assert list[0].sendAt <= list[i].sendAt;
    if i > 0 {
      TailSorted(list);
      AllPosted(list[1..], now, posts[1..], i - 1);
    }
  }

  lemma TailSorted(list: seq<Packet>)
    requires list != [] && Sorted(list)
    ensures Sorted(list[1..])
  {
  }

  lemma DueIsHanded(s: State, posts: seq<Post>, p: Packet)
    requires Inv(s) && |posts| >= |s.list| && forall i :: 0 <= i < |posts| ==> posts[i] == Posted
    requires p in s.list && p.sendAt < s.now
    ensures var r := Next(s, Timer(posts)); p.(queued := true) in r.list && Tx(p.id) in r.fifo
  {
    var i :| 0 <= i < |s.list| && s.list[i] == p;
    if i < Handed(s.list) {
      HandedHasAction(s, p);
      HandedStays(s.list, s.now, posts, i);
    } else {
      UnhandedIsPosted(s.list, s.now, posts, i);
    }
  }

  lemma HandedStays(list: seq<Packet>, now: int, posts: seq<Post>, i: nat)
    requires i < Handed(list)
    ensures list[i].queued && list[i] in Tick(list, now, posts).list
  {
    hide PostDue;
    assert list[..Handed(list)][i] == list[i];
  }

  lemma UnhandedIsPosted(list: seq<Packet>, now: int, posts: seq<Post>, i: nat)
    requires Ordered(list) && |posts| >= |list| && forall k :: 0 <= k < |posts| ==> posts[k] == Posted
    requires Handed(list) <= i < |list| && list[i].sendAt < now
    ensures var r := Tick(list, now, posts); list[i].(queued := true) in r.list && Tx(list[i].id) in r.posted
  {
    hide PostDue, Handed;
    var n := Handed(list);
    SuffixOrdered(list, n);
    assert list[n..][i - n] == list[i];
    AllPosted(list[n..], now, posts, i - n);
    var r := PostDue(list[n..], now, posts);
    assert r.list[i - n] in r.list;
  }

  /** A packet that has been handed over has its action pending. */
  lemma HandedHasAction(s: State, p: Packet)
    requires Inv(s) && p in s.list && p.queued
    ensures Tx(p.id) in s.fifo
  {
    QueuedIdsMembers(s.list);
    RestrictMembers(TxIds(s.fifo), Ids(s.list));
    TxIdsMembers(s.fifo);
  }

  lemma HandedInTick(list: seq<Packet>, now: int, posts: seq<Post>, p: Packet)
    requires Ordered(list) && p in list && p.queued
    ensures p in Tick(list, now, posts).list
  {
    hide PostDue;
    HandedPrefix(list);
    var i :| 0 <= i < |list| && list[i] == p;
    assert list[..Handed(list)][i] == p;
  }

  /** Once handed over, a packet stays as it is until its action is served or it is removed. */
  lemma StaysHanded(s: State, t: Step, p: Packet)
    requires Inv(s) && Enabled(s, t) && p in s.list && p.queued && !Sends(s, t, p.id) && !Removes(t, p.id)
    ensures p in Next(s, t).list
    ensures (if t.Serve? then s.fifo[1..] else s.fifo) <= Next(s, t).fifo
  {
    hide QueuedIds, TxIds, Restrict, Insert, Tick, Without, Ordered;
    match t
    case Advance(ms) =>
    case PostOther =>
    case Timer(posts) => HandedInTick(s.list, s.now, posts, p);
    case Schedule(port, ms, load) => InsertMembers(s.list, Packet(s.nextId, port, s.now + ms, false, load));
    case Drop(gone) => WithoutMembers(s.list, gone);
    case Serve(afterwards) =>
      if s.fifo[0].Tx? && AtHead(s.list, s.fifo[0].id) {
        var (head, tail) := (s.list[0], s.list[1..]);
        assert s.list == [head] + tail;
        if afterwards.Again? {
          InsertMembers(tail, head.(queued := false, sendAt := s.now + afterwards.ms, load := afterwards.load));
        }
      }
  }

  function Servings(steps: seq<Step>, j: nat, k: nat): nat
    requires j <= k <= |steps|
    decreases k - j
  {
    if j == k then 0 else (if steps[j].Serve? then 1 else 0) + Servings(steps, j + 1, k)
  }

  /**
   * Every run: a packet handed over is sent as soon as the service task has served the actions in front of
   * its own and that one, unless it is removed before.
   */
  lemma {:induction false} HandedIsSent(run: seq<State>, steps: seq<Step>, j: nat, k: nat, p: Packet, i: nat)
    returns (m: nat)
    requires IsRun(run, steps) && j <= k <= |steps|
    requires p in run[j].list && p.queued && i < |run[j].fifo| && run[j].fifo[i] == Tx(p.id)
    requires Servings(steps, j, k) > i && forall l :: j <= l < k ==> !Removes(steps[l], p.id)
    ensures j <= m < k && Sends(run[m], steps[m], p.id) && run[m + 1].sent == run[m].sent + [p.(queued := false)]
    decreases k - j
  {
    hide Inv, Next;
    RunKeepsInv(run, steps, j);
    assert Enabled(run[j], steps[j]) && run[j + 1] == Next(run[j], steps[j]);
    if Sends(run[j], steps[j], p.id) {
      ServedIsSent(run[j], steps[j], p);
      return j;
    }
    StaysHanded(run[j], steps[j], p);
    if steps[j].Serve? {
      assert i > 0;
      assert run[j + 1].fifo[i - 1] == run[j].fifo[1..][i - 1];
      m := HandedIsSent(run, steps, j + 1, k, p, i - 1);
    } else {
      m := HandedIsSent(run, steps, j + 1, k, p, i);
    }
  }

  /** In every run a due packet whose posts get through is sent, unless it is removed first. */
  lemma DueIsSent(run: seq<State>, steps: seq<Step>, j: nat, k: nat, p: Packet) returns (m: nat)
    requires IsRun(run, steps) && j < k <= |steps| && p in run[j].list && p.sendAt < run[j].now
    requires steps[j].Timer? && |steps[j].posts| >= |run[j].list|
    requires forall i :: 0 <= i < |steps[j].posts| ==> steps[j].posts[i] == Posted
    requires Servings(steps, j + 1, k) >= |run[j + 1].fifo| && forall l :: j < l < k ==> !Removes(steps[l], p.id)
    ensures j < m < k && Sends(run[m], steps[m], p.id) && run[m + 1].sent == run[m].sent + [p.(queued := false)]
  {
    hide Inv, Next;
    RunKeepsInv(run, steps, j);
    assert Enabled(run[j], steps[j]) && run[j + 1] == Next(run[j], steps[j]);
    DueIsHanded(run[j], steps[j].posts, p);
    var i :| 0 <= i < |run[j + 1].fifo| && run[j + 1].fifo[i] == Tx(p.id);
    m := HandedIsSent(run, steps, j + 1, k, p.(queued := true), i);
  }

  /** In every run whatever is no longer in the list has been sent or removed. */
  lemma {:induction false} NoneIsLost(run: seq<State>, steps: seq<Step>, j: nat, k: nat, id: nat) returns (m: nat)
    requires IsRun(run, steps) && j <= k <= |steps| && id in Ids(run[j].list) && id !in Ids(run[k].list)
    ensures j <= m < k
    ensures Removes(steps[m], id) ||
            exists p :: p in run[m].list && p.id == id && run[m + 1].sent == run[m].sent + [p.(queued := false)]
    decreases k - j
  {
    hide Inv, Next;
    RunKeepsInv(run, steps, j);
    assert Enabled(run[j], steps[j]) && run[j + 1] == Next(run[j], steps[j]);
    if id in Ids(run[j + 1].list) {
      m := NoneIsLost(run, steps, j + 1, k, id);
    } else {
      var p :| p in run[j].list && p.id == id;
      LeavesOnlySentOrRemoved(run[j], steps[j], p);
      m := j;
    }
  }
}
