/**
 * Which services an interface probes for, and how long its first probe waits, told from the events alone.
 */
module MdnsProbed {
  import opened Bytes
  import opened MdnsTxQueue
  import opened MdnsQuestions
  import opened MdnsPcb

  /** Probing is started for this service, perhaps among others. */
  predicate StartsFor(w: World, e: Event, x: Service) {
    e.StartProbe? && x in e.services && w.hostKnown
  }

  /** Probing ends for it: it is withdrawn, left out of a fresh start, announced, or the interface goes down. */
  predicate EndsFor(w: World, e: Event, x: Service) {
    || (e.Withdraw? && e.service == x)
    || (e.StartProbe? && e.clearOld && x !in e.services)
    || (e == SendMine(true) && w.pcb.phase.Probe3?)
    || e.Disable? || e.SetDuplicate?
  }

  lemma {:induction false} NotYetMembers(more: seq<Service>, known: seq<Service>, x: Service)
    ensures x in NotYet(more, known) <==> x in more && x !in known
  {
    if more != [] {
      NotYetMembers(more[1..], known, x);
      assert more == [more[0]] + more[1..];
    }
  }

  lemma {:induction false} WithoutFirstMembers(s: seq<Service>, y: Service, x: Service)
    requires NoRepeat(s)
    ensures x in WithoutFirst(s, y) <==> x in s && x != y
  {
    if s != [] {
      WithoutFirstMembers(s[1..], y, x);
      assert s == [s[0]] + s[1..];
    }
  }

  lemma StartedMembers(b: Pcb, services: seq<Service>, ip: bool, x: Service)
    ensures x in Started(b, services, ip).services <==> x in services || x in b.services
  {
    NotYetMembers(services, b.services, x);
  }

  lemma RecordedAfter(w: World, e: Event, x: Service)
    requires WorldInv(w) && CanHappen(w, e)
    ensures x in Happen(w, e).pcb.services <==>
              StartsFor(w, e, x) || (x in w.pcb.services && !EndsFor(w, e, x))
  {
    hide Inv, MdnsTxQueue.Next, Own, OneProbe, Spaced, NotYet, Started, WithoutFirst, DropService, NoRepeat;
    match e
    case StartProbe(services, ip, clearOld, random) =>
      var b := if clearOld then w.pcb.(services := [], running := false) else w.pcb;
      StartedMembers(b, services, ip, x);
    case Withdraw(service, emptied, elsewhere) =>
      WithoutFirstMembers(w.pcb.services, service, x);
    case _ =>
  }

  predicate StaysOn(run: seq<World>, events: seq<Event>, i: nat, k: nat, x: Service)
    requires i <= k <= |events| < |run|
  {
    forall l :: i <= l < k ==> !EndsFor(run[l], events[l], x)
  }

  /**
   * In every run, a service is among those being probed exactly if probing has been started for it, and has
   * not been ended for it since.  None is forgotten when probing starts again for others.
   */
  lemma {:induction false} RecordedExactly(run: seq<World>, events: seq<Event>, k: nat, x: Service)
    requires IsHistory(run, events) && k < |run|
    ensures x in run[k].pcb.services <==>
              exists i :: 0 <= i < k && StartsFor(run[i], events[i], x) && StaysOn(run, events, i + 1, k, x)
  {
    hide WorldInv, Happen, CanHappen, StartsFor, EndsFor;
    if k > 0 {
      var (w, e) := (run[k - 1], events[k - 1]);
      RecordedExactly(run, events, k - 1, x);
      HistoryKeepsInv(run, events, k - 1);
      assert Follows(w, e, run[k]);
      RecordedAfter(w, e, x);
      if StartsFor(w, e, x) {
        assert StaysOn(run, events, k, k, x);
      }
    }
  }

  // ---------------------------------------------------------------- the first probe

  function Failures(events: seq<Event>, i: nat, j: nat): nat
    requires i <= j <= |events|
  {
    if i == j then 0 else Failures(events, i, j - 1) + if events[j - 1].ProbeFailed? then 1 else 0
  }

  /** Failed probes are forgotten when the interface goes down and when it begins to announce. */
  predicate Forgets(w: World, e: Event) {
    e.Disable? || e.SetDuplicate? || (e == SendMine(true) && w.pcb.phase.Probe3?)
  }

  lemma FailedAfter(w: World, e: Event)
    requires CanHappen(w, e)
    ensures Happen(w, e).pcb.failed ==
            if Forgets(w, e) then 0
            else if e.ProbeFailed? then (w.pcb.failed + 1) % 0x1_0000 else w.pcb.failed
  {
    hide MdnsTxQueue.Next, NotYet, DropService, Without, WithoutFirst;
  }

  lemma {:induction false} FailedCounts(run: seq<World>, events: seq<Event>, i: nat, j: nat)
    requires IsHistory(run, events) && i <= j <= |events|
    requires i == 0 || Forgets(run[i - 1], events[i - 1])
    requires forall l :: i <= l < j ==> !Forgets(run[l], events[l])
    ensures run[j].pcb.failed == Failures(events, i, j) % 0x1_0000
    decreases j - i
  {
    hide Happen, CanHappen, Forgets;
    if j > 0 {
      assert Follows(run[j - 1], events[j - 1], run[j]);
      FailedAfter(run[j - 1], events[j - 1]);
      if i < j {
        FailedCounts(run, events, i, j - 1);
      }
    }
  }

  /**
   * In every run, the first probe after a start is the only packet scheduled, for 120 to 247 ms later; after
   * more than five probes that failed since the last announcement, counted in sixteen bits, 1000 to 1127 ms.
   */
  lemma FirstProbeExactly(run: seq<World>, events: seq<Event>, i: nat, j: nat) returns (p: Packet)
    requires IsHistory(run, events) && i <= j < |events| && events[j].StartProbe? && run[j].hostKnown
    requires i == 0 || Forgets(run[i - 1], events[i - 1])
    requires forall l :: i <= l < j ==> !Forgets(run[l], events[l])
    ensures Own(run[j + 1].queue.list, run[j].me) == {p}
    ensures var least := run[j].queue.now + if Failures(events, i, j) % 0x1_0000 > 5 then 1000 else 120;
      && least <= p.sendAt < least + 128
      && (events[j].random < 128 ==> p.sendAt == least + events[j].random)
  {
    hide IsHistory, Own, Insert, Without, Forgets, Failures, Started;
    StepOf(run, events, j);
    FailedCounts(run, events, i, j);
    var (w, e) := (run[j], events[j]);
    var b := if e.clearOld then w.pcb.(services := [], running := false) else w.pcb;
    var b' := Started(b, e.services, e.ip);
    var load := Load(b'.services, Members(b'.services), b'.ip);
    p := Packet(w.queue.nextId, w.me, w.queue.now + FirstDelay(b, e.random), false, load);
    ClearOwn(w.queue.list, w.me);
    InsertOwn(Clear(w).list, p, w.me);
  }

  lemma StepOf(run: seq<World>, events: seq<Event>, j: nat)
    requires IsHistory(run, events) && j < |events|
    ensures |run| == |events| + 1 && Follows(run[j], events[j], run[j + 1])
  {
  }

  // ---------------------------------------------------------------- other interfaces

  /** An event of this interface that does not touch this packet of another one. */
  predicate LeavesAlone(e: Event, p: Packet) {
    && !e.Elsewhere?
    && (e.Withdraw? ==> e.service !in p.load.entries && p.id !in e.elsewhere && p.load != NOTHING)
  }

  lemma WithdrawLeaves(w: World, service: Service, elsewhere: set<nat>, p: Packet)
    requires p in w.queue.list && p.port != w.me && LeavesAlone(Withdraw(service, true, elsewhere), p)
    ensures Distinct(w.queue.list) ==>
              p in Without(DropService(w, service, elsewhere), Emptied(DropService(w, service, elsewhere)))
  {
    if Distinct(w.queue.list) {
      var list := DropService(w, service, elsewhere);
      var i :| 0 <= i < |w.queue.list| && w.queue.list[i] == p;
      assert p.load.entries - {service} == p.load.entries;
      assert list[i] == p;
      WithoutMembers(list, Emptied(list));
      forall q | q in list && q.load == NOTHING ensures q.id != p.id {
        var j :| 0 <= j < |list| && list[j] == q;
        assert list[j].id == w.queue.list[j].id;
      }
    }
  }

  /** What happens to one interface leaves the packets of the others as they are. */
  lemma OthersStay(w: World, e: Event, p: Packet)
    requires WorldInv(w) && CanHappen(w, e) && p.port != w.me && LeavesAlone(e, p)
    ensures p in w.queue.list ==> p in Happen(w, e).queue.list
    ensures !e.Withdraw? && p in Happen(w, e).queue.list ==> p in w.queue.list
  {
    hide ProbeInv, Insert, Without, DropService, Emptied, Tick, QueuedIds, TxIds, Restrict, NotYet, WithoutFirst,
         Amended;
    var list := w.queue.list;
    WithoutMembers(list, Mine(w));
    match e
    case SendMine(created) => SendingLeaves(w, created, p);
    case StartProbe(_, _, _, _) => PostMembers(w.me, Clear(w), p);
    case AnnounceAgain(load) =>
      PostMembers(w.me, w.queue, p);
      AmendedOthers(list, w.me, load, p);
    case Reply(_, _) => PostMembers(w.me, w.queue, p);
    case Withdraw(service, emptied, elsewhere) =>
      if p in list {
        WithdrawLeaves(w, service, elsewhere, p);
      }
    case _ =>
  }

  lemma {:induction false} AmendedOthers(list: seq<Packet>, me: Port, more: Load, p: Packet)
    requires p.port != me
    ensures p in Amended(list, me, more) <==> p in list
  {
    if list != [] {
      assert list == [list[0]] + list[1..];
      if list[0].port != me {
        AmendedOthers(list[1..], me, more, p);
      }
    }
  }

  lemma PostMembers(me: Port, q: State, p: Packet)
    requires p.port != me
    ensures forall ms, load :: p in MdnsPcb.Post(me, q, ms, load).list <==> p in q.list
  {
    forall ms: nat, load: Load ensures p in MdnsPcb.Post(me, q, ms, load).list <==> p in q.list {
      InsertMembers(q.list, Packet(q.nextId, me, q.now + ms, false, load));
    }
  }

  lemma SendingLeaves(w: World, created: bool, p: Packet)
    requires WorldInv(w) && MineNext(w) && p.port != w.me
    ensures p in Happen(w, SendMine(created)).queue.list <==> p in w.queue.list
  {
    hide ProbeInv, Insert, QueuedIds, TxIds, Restrict, MdnsPcb.Post;
    var (q, r) := (w.queue, AfterSending(w.pcb, created));
    var (head, tail) := (q.list[0], q.list[1..]);
    assert q.list == [head] + tail;
    var afterwards := match r.reaction
      case Repeat(ms) => Again(ms, head.load)
      case _ => Free;
    if r.reaction.Repeat? {
      InsertMembers(tail, head.(queued := false, sendAt := q.now + r.reaction.ms));
    }
    PostMembers(w.me, MdnsTxQueue.Next(q, Serve(afterwards)), p);
  }
}
