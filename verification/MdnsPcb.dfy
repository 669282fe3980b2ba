/**
 * The probe and announce state machine of one interface and protocol, `me`, on top of the shared list
 * of scheduled packets.  Packets of other interfaces come and go in any way.
 */
module MdnsPcb {
  import opened Bytes
  import opened MdnsTxQueue
  import opened MdnsQuestions

  datatype Phase =
    | Off | Dup | Init
    | Probe1 | Probe2 | Probe3
    | Announce1 | Announce2 | Announce3
    | Running

  /** State, services being probed, whether addresses are probed, probing under way, failed probes. */
  datatype Pcb = Pcb(phase: Phase, services: seq<Service>, ip: bool, running: bool, failed: nat)

  predicate Probing(f: Phase) {
    f.Probe1? || f.Probe2? || f.Probe3?
  }

  /** The source's test for probing also holds of a duplicate and of an initialised interface. */
  predicate CountsAsProbing(f: Phase) {
    f.Dup? || f.Init? || Probing(f)
  }

  predicate Announcing(f: Phase) {
    f.Announce1? || f.Announce2? || f.Announce3?
  }

  predicate AfterProbing(f: Phase) {
    Announcing(f) || f.Running?
  }

  function Successor(f: Phase): Phase
    requires !f.Running?
  {
    match f
    case Off => Dup
    case Dup => Init
    case Init => Probe1
    case Probe1 => Probe2
    case Probe2 => Probe3
    case Probe3 => Announce1
    case Announce1 => Announce2
    case Announce2 => Announce3
    case Announce3 => Running
  }

  // ---------------------------------------------------------------- transitions, as functions

  /** The services of `more` that are not in `known`, in order. */
  function NotYet(more: seq<Service>, known: seq<Service>): seq<Service> {
    if more == [] then []
    else if more[0] in known then NotYet(more[1..], known)
    else [more[0]] + NotYet(more[1..], known)
  }

  /** The machine after probing has been started, or started again with more services. */
  function Started(b: Pcb, services: seq<Service>, ip: bool): Pcb {
    var added := if CountsAsProbing(b.phase) then NotYet(services, b.services) else services;
    Pcb(Probe1, added + b.services, b.ip || ip, true, b.failed)
  }

  /** The delay of the first probe: longer after many failures, plus up to 127 ms at random. */
  function FirstDelay(b: Pcb, random: nat): nat {
    (if b.failed > 5 then 1000 else 120) + random % 128
  }

  datatype Reaction =
    | Discard
    | Repeat(ms: nat)
    | Announce(ms: nat)

  datatype Reacted = Reacted(pcb: Pcb, reaction: Reaction)

  /** What follows the sending of a packet; `created` says whether an announcement could be allocated. */
  function AfterSending(b: Pcb, created: bool): Reacted {
    match b.phase
    case Probe1 => Reacted(b.(phase := Probe2), Repeat(250))
    case Probe2 => Reacted(b.(phase := Probe3), Repeat(250))
    case Probe3 =>
      if created then Reacted(Pcb(Announce1, [], false, false, 0), Announce(250)) else Reacted(b, Repeat(250))
    case Announce1 => Reacted(b.(phase := Announce2), Repeat(1000))
    case Announce2 => Reacted(b.(phase := Announce3), Repeat(1000))
    case Announce3 => Reacted(b.(phase := Running), Discard)
    case _ => Reacted(b, Discard)
  }

  /** The machine after a service has gone; `emptied` says whether an announcement lost all its answers. */
  function Withdrawn(b: Pcb, service: Service, emptied: bool): Pcb {
    if CountsAsProbing(b.phase) then
      if service !in b.services then b
      else
        var rest := WithoutFirst(b.services, service);
        if rest == [] && !b.ip then b.(services := rest, running := false, phase := Running)
        else b.(services := rest)
    else if Announcing(b.phase) && emptied then b.(phase := Running)
    else b
  }

  function Reset(phase: Phase): Pcb {
    Pcb(phase, [], false, false, 0)
  }

  // ---------------------------------------------------------------- the record, as the source updates it

  class PcbRecord {
    var phase: Phase
    var services: seq<Service>
    var ip: bool
    var running: bool
    var failed: nat

    ghost function View(): Pcb
      reads this
    {
      Pcb(phase, services, ip, running, failed)
    }

    constructor ()
      ensures View() == Reset(Off)
    {
      phase, services, ip, running, failed := Off, [], false, false, 0;
    }

    /** Reacts to a packet that has just been sent. */
    method ScheduleTxPacket(created: bool) returns (r: Reaction)
      modifies this
      ensures Reacted(View(), r) == AfterSending(old(View()), created)
    {
      var sendAfter := 1000;
      match phase {
        case Probe1 | Probe2 =>
          phase := Successor(phase);
          return Repeat(250);
        case Probe3 =>
          if !created {
            return Repeat(250);
          }
          running, ip, services, failed := false, false, [], 0;
          sendAfter := 250;
          phase := Successor(phase);
          return Announce(sendAfter);
        case Announce1 | Announce2 =>
          phase := Successor(phase);
          return Repeat(sendAfter);
        case Announce3 =>
          phase := Running;
          return Discard;
        case _ =>
          return Discard;
      }
    }

    method IsProbed(service: Service) returns (found: bool)
      ensures found <==> service in services
    {
      found := false;
      var i := 0;
      while i < |services|
        invariant i <= |services| && found == (service in services[..i])
      {
        if services[i] == service {
          found := true;
        }
        i := i + 1;
      }
      assert services[..|services|] == services;
    }

    /** Collects the services to probe, dropping those that are being probed already. */
    method InitProbe(more: seq<Service>, probeIp: bool)
      modifies this
      ensures View() == Started(old(View()), more, probeIp)
    {
      var added := more;
      if CountsAsProbing(phase) {
        added := [];
        var j := 0;
        while j < |more|
          invariant j <= |more| && View() == old(View())
          invariant NotYet(more, services) == added + NotYet(more[j..], services)
        {
          var found := IsProbed(more[j]);
          assert more[j..][1..] == more[j + 1..];
          if !found {
            added := added + [more[j]];
          }
          j := j + 1;
        }
        assert added == NotYet(more, services);
      }
      services := added + services;
      ip := ip || probeIp;
      running := true;
      phase := Probe1;
    }

    /** Forgets a service that is being probed; the last one ends probing unless addresses are probed. */
    method CheckProbingServices(service: Service, removedAnswers: bool) returns (removeQuestions: bool)
      modifies this
      ensures View() == Withdrawn(old(View()), service, removedAnswers)
      ensures removeQuestions <==> CountsAsProbing(old(phase)) && service in old(services)
    {
      removeQuestions := false;
      if CountsAsProbing(phase) {
        var i := 0;
        while i < |services| && services[i] != service
          invariant i <= |services| && service !in services[..i]
          invariant WithoutFirst(services, service) == services[..i] + WithoutFirst(services[i..], service)
        {
          assert services[i..][1..] == services[i + 1..];
          i := i + 1;
        }
        if i < |services| {
          assert services[i..][1..] == services[i + 1..];
          services := services[..i] + services[i + 1..];
          if services == [] && !ip {
            running := false;
            phase := Running;
          }
          removeQuestions := true;
        } else {
          assert services[..i] == services;
        }
      } else if Announcing(phase) && removedAnswers {
        phase := Running;
      }
    }
  }

  // ---------------------------------------------------------------- the machine and the packet list together

  /**
   * When probing last (re)started, for which services, the packet that probes, when it was sent since,
   * and failed announcements.
   */
  datatype History = History(since: int, asked: seq<Service>, probe: nat, sentAt: seq<int>, failures: nat)

  datatype World = World(me: Port, queue: State, pcb: Pcb, hostKnown: bool, history: History)

  datatype Event =
    | Elsewhere(step: Step)
    | SendMine(created: bool)
    | StartProbe(services: seq<Service>, ip: bool, clearOld: bool, random: nat)
    | Disable
    | SetDuplicate
    | AnnounceAgain(load: Load)
    | Reply(ms: nat, load: Load)
    | Withdraw(service: Service, emptied: bool, elsewhere: set<nat>)
    | ProbeFailed
    | NameHost

  function Start(me: Port): World {
    World(me, MdnsTxQueue.Init(), Reset(Off), false, History(0, [], 0, [], 0))
  }

  function Mine(w: World): set<nat> {
    OnPort(w.queue.list, w.me)
  }

  /** The service task is about to send a packet of this interface. */
  predicate MineNext(w: World) {
    var q := w.queue;
    q.fifo != [] && q.fifo[0].Tx? && AtHead(q.list, q.fifo[0].id) && q.list[0].port == w.me
  }

  predicate Touches(w: World, t: Step) {
    match t
    case Serve(_) => MineNext(w)
    case Schedule(port, _, _) => port == w.me
    case Drop(gone) => gone * Mine(w) != {}
    case _ => false
  }

  ghost predicate CanHappen(w: World, e: Event) {
    match e
    case Elsewhere(t) => Enabled(w.queue, t) && Calm(w.queue, t) && !Touches(w, t)
    case SendMine(_) => MineNext(w)
    case StartProbe(services, ip, _, _) => NoRepeat(services) && (services != [] || ip)
    case AnnounceAgain(_) => w.pcb.phase.Running? || Announcing(w.pcb.phase)
    case Reply(_, _) => AfterProbing(w.pcb.phase)
    case _ => true
  }

  function Clear(w: World): State {
    MdnsTxQueue.Next(w.queue, Drop(Mine(w)))
  }

  function Post(me: Port, q: State, ms: nat, load: Load): State {
    MdnsTxQueue.Next(q, Schedule(me, ms, load))
  }

  /** The probe of a machine: a question and an entry for each of its services, and what is probed besides. */
  function ProbeLoad(asked: seq<Service>, b: Pcb): Load {
    Load(Latest(asked, b.services), Members(b.services), b.ip)
  }

  /** The announcement made from a probe: records of every service with an entry, and of their hosts. */
  function Announcement(probe: Load): Load {
    Load([], probe.entries, probe.other || probe.entries != {})
  }

  /** The packets that lose a question when a service is withdrawn: those of machines that are probing it. */
  predicate LosesQuestion(w: World, p: Packet, service: Service, elsewhere: set<nat>) {
    if p.port == w.me then CountsAsProbing(w.pcb.phase) && service in w.pcb.services else p.id in elsewhere
  }

  function LessService(p: Packet, service: Service, question: bool): Packet {
    var questions := if question then WithoutKind(p.load.questions, service.kind) else p.load.questions;
    p.(load := p.load.(questions := questions, entries := p.load.entries - {service}))
  }

  /** Every packet without the entries of a service, and some without a question of its type. */
  function DropService(w: World, service: Service, elsewhere: set<nat>): seq<Packet> {
    var list := w.queue.list;
    seq(|list|, i requires 0 <= i < |list| =>
      LessService(list[i], service, LosesQuestion(w, list[i], service, elsewhere)))
  }

  const NOTHING: Load := Load([], {}, false)

  function Emptied(list: seq<Packet>): set<nat> {
    set p | p in list && p.load == NOTHING :: p.id
  }

  function Joined(l: Load, more: Load): Load {
    Load(l.questions, l.entries + more.entries, l.other || more.other)
  }

  /** With more to announce in the next packet of a port. */
  function Amended(list: seq<Packet>, me: Port, more: Load): seq<Packet> {
    if list == [] then []
    else if list[0].port == me then [list[0].(load := Joined(list[0].load, more))] + list[1..]
    else [list[0]] + Amended(list[1..], me, more)
  }

  function Happen(w: World, e: Event): World
    requires e.Elsewhere? ==> Enabled(w.queue, e.step)
    requires e.SendMine? ==> MineNext(w)
  {
    match e
    case Elsewhere(t) => w.(queue := MdnsTxQueue.Next(w.queue, t))
    case SendMine(created) =>
      var r := AfterSending(w.pcb, created);
      var afterwards := match r.reaction
        case Repeat(ms) => Again(ms, w.queue.list[0].load)
        case _ => Free;
      var served := MdnsTxQueue.Next(w.queue, Serve(afterwards));
      World(
        w.me,
        if r.reaction.Announce? then Post(w.me, served, r.reaction.ms, Announcement(w.queue.list[0].load)) else served,
        r.pcb, w.hostKnown,
        if Probing(w.pcb.phase) then
          w.history.(sentAt := w.history.sentAt + [w.queue.now],
                     failures := w.history.failures + if r.pcb == w.pcb then 1 else 0)
        else w.history)
    case StartProbe(services, ip, clearOld, random) =>
      var b := if clearOld then w.pcb.(services := [], running := false) else w.pcb;
      var cleared := Clear(w);
      if !w.hostKnown then w.(queue := cleared, pcb := b.(phase := Running))
      else
        var b' := Started(b, services, ip);
        var load := Load(b'.services, Members(b'.services), b'.ip);
        World(w.me, Post(w.me, cleared, FirstDelay(b, random), load), b', true,
              History(w.queue.now, b'.services, w.queue.nextId, [], 0))
    case Disable => w.(queue := Clear(w), pcb := Reset(Off))
    case SetDuplicate => w.(queue := Clear(w), pcb := Reset(Dup))
    case AnnounceAgain(load) =>
      if Announcing(w.pcb.phase) then
        if Mine(w) == {} then w
        else w.(pcb := w.pcb.(phase := Announce1), queue := w.queue.(list := Amended(w.queue.list, w.me, load)))
      else if !w.hostKnown then w
      else w.(pcb := w.pcb.(phase := Announce1), queue := Post(w.me, w.queue, 0, load))
    case Reply(ms, load) => w.(queue := Post(w.me, w.queue, ms, load))
    case Withdraw(service, emptied, elsewhere) =>
      var list := DropService(w, service, elsewhere);
      w.(queue := w.queue.(list := Without(list, Emptied(list))), pcb := Withdrawn(w.pcb, service, emptied))
    case ProbeFailed => w.(pcb := w.pcb.(failed := (w.pcb.failed + 1) % 0x1_0000))
    case NameHost => w.(hostKnown := true)
  }

  // ---------------------------------------------------------------- the probing invariant

  /** Each probe went out more than 250 ms after the one before, the first more than 120 ms after the start. */
  ghost predicate Spaced(h: History) {
    && (forall i :: 0 < i < |h.sentAt| ==> h.sentAt[i] > h.sentAt[i - 1] + 250)
    && (h.sentAt != [] ==> h.sentAt[0] > h.since + 120)
  }

  /** The earliest time at which the next probe may be scheduled. */
  function NextProbeFrom(h: History): int {
    if h.sentAt == [] then h.since + 120 else h.sentAt[|h.sentAt| - 1] + 250
  }

  function ProbesBefore(f: Phase): nat {
    match f
    case Probe2 => 1
    case Probe3 => 2
    case _ => 0
  }

  ghost predicate IsProbe(p: Packet, w: World) {
    && p.id == w.history.probe && p.port == w.me
    && p.load == ProbeLoad(w.history.asked, w.pcb)
    && p.sendAt >= NextProbeFrom(w.history)
    && (w.history.sentAt != [] ==> p.sendAt == NextProbeFrom(w.history))
  }

  function Plain(p: Packet): Packet {
    p.(queued := false)
  }

  /** The packets of a port, whether handed over or not. */
  function Own(list: seq<Packet>, me: Port): set<Packet> {
    set p | p in list && p.port == me :: Plain(p)
  }

  /** While this interface is probing, it has exactly one packet scheduled, and that is the probe. */
  ghost predicate OneProbe(w: World) {
    exists p :: Own(w.queue.list, w.me) == {p} && IsProbe(p, w)
  }

  /** Those recorded are some of those asked for, in the same order; and there is something to probe. */
  ghost predicate Recorded(w: World) {
    && NoRepeat(w.history.asked)
    && w.pcb.services == Keep(w.history.asked, Members(w.pcb.services))
    && (w.pcb.services != [] || w.pcb.ip)
  }

  ghost predicate ProbeInv(w: World) {
    && Spaced(w.history)
    && NoRepeat(w.pcb.services)
    && (!CountsAsProbing(w.pcb.phase) ==> w.pcb.services == [])
    && (w.pcb.phase.Off? || w.pcb.phase.Dup? ==> Own(w.queue.list, w.me) == {} && w.pcb.services == [])
    && !w.pcb.phase.Init?
    && (Probing(w.pcb.phase) ==>
        && w.hostKnown
        && OneProbe(w) && Recorded(w)
        && |w.history.sentAt| == ProbesBefore(w.pcb.phase) + w.history.failures
        && (!w.pcb.phase.Probe3? ==> w.history.failures == 0))
  }

  ghost predicate WorldInv(w: World) {
    Inv(w.queue) && ProbeInv(w)
  }

  ghost predicate SameButLoads(list: seq<Packet>, list': seq<Packet>) {
    |list| == |list'| && forall i :: 0 <= i < |list| ==> list'[i] == list[i].(load := list'[i].load)
  }

  lemma SameLoadsInv(q: State, list: seq<Packet>)
    requires Inv(q) && SameButLoads(q.list, list)
    ensures Inv(q.(list := list))
  {
    hide Restrict, TxIds, QueuedIds;
    SameLoadsIds(q.list, list);
    SameQueuedIds(q.list, list);
  }

  lemma SameLoadsIds(list: seq<Packet>, list': seq<Packet>)
    requires SameButLoads(list, list')
    ensures Ids(list') == Ids(list)
  {
    forall i | 0 <= i < |list| ensures list[i] in list && list'[i] in list' && list'[i].id == list[i].id {
    }
  }

  lemma DropServiceSame(w: World, service: Service, elsewhere: set<nat>)
    ensures SameButLoads(w.queue.list, DropService(w, service, elsewhere))
  {
    hide LessService;
    DropServiceAt(w, service, elsewhere);
  }

  lemma {:induction false} AmendedSame(list: seq<Packet>, me: Port, more: Load)
    ensures SameButLoads(list, Amended(list, me, more))
  {
    if list != [] && list[0].port != me {
      AmendedSame(list[1..], me, more);
    }
  }

  lemma {:induction false} SameQueuedIds(list: seq<Packet>, list': seq<Packet>)
    requires SameButLoads(list, list')
    ensures QueuedIds(list') == QueuedIds(list)
  {
    if list != [] {
      SameQueuedIds(list[1..], list'[1..]);
    }
  }

  /** Every event keeps the discipline of the shared packet list. */
  lemma EventKeepsQueue(w: World, e: Event)
    requires WorldInv(w) && CanHappen(w, e)
    ensures Inv(Happen(w, e).queue)
  {
    hide Inv, ProbeInv, MdnsTxQueue.Next, Without;
    match e
    case Elsewhere(t) => StepKeepsInv(w.queue, t);
    case SendMine(created) =>
      var r := AfterSending(w.pcb, created);
      var afterwards := match r.reaction
        case Repeat(ms) => Again(ms, w.queue.list[0].load)
        case _ => Free;
      StepKeepsInv(w.queue, Serve(afterwards));
      var served := MdnsTxQueue.Next(w.queue, Serve(afterwards));
      if r.reaction.Announce? {
        StepKeepsInv(served, Schedule(w.me, r.reaction.ms, Announcement(w.queue.list[0].load)));
      }
    case StartProbe(services, ip, clearOld, random) =>
      var b := if clearOld then w.pcb.(services := [], running := false) else w.pcb;
      StepKeepsInv(w.queue, Drop(Mine(w)));
      var b' := Started(b, services, ip);
      var load := Load(b'.services, Members(b'.services), b'.ip);
      StepKeepsInv(Clear(w), Schedule(w.me, FirstDelay(b, random), load));
    case Disable => StepKeepsInv(w.queue, Drop(Mine(w)));
    case SetDuplicate => StepKeepsInv(w.queue, Drop(Mine(w)));
    case AnnounceAgain(load) =>
      StepKeepsInv(w.queue, Schedule(w.me, 0, load));
      AmendedSame(w.queue.list, w.me, load);
      SameLoadsInv(w.queue, Amended(w.queue.list, w.me, load));
    case Reply(ms, load) => StepKeepsInv(w.queue, Schedule(w.me, ms, load));
    case Withdraw(service, emptied, elsewhere) =>
      var list := DropService(w, service, elsewhere);
      DropServiceSame(w, service, elsewhere);
      SameLoadsInv(w.queue, list);
      DropKeeps(w.queue.(list := list), Emptied(list));
    case ProbeFailed =>
    case NameHost =>
  }

  // ---------------------------------------------------------------- each event and the probing invariant

  lemma InsertOwn(list: seq<Packet>, p: Packet, me: Port)
    ensures Own(Insert(list, p), me) == Own(list, me) + (if p.port == me then {Plain(p)} else {})
  {
    InsertMembers(list, p);
  }

  lemma WithoutOwn(list: seq<Packet>, gone: set<nat>, me: Port)
    ensures Own(Without(list, gone), me) == set p | p in Own(list, me) && p.id !in gone
  {
    WithoutMembers(list, gone);
  }

  lemma ClearOwn(list: seq<Packet>, me: Port)
    ensures Own(Without(list, OnPort(list, me)), me) == {}
  {
    WithoutOwn(list, OnPort(list, me), me);
  }

  lemma TailOwn(list: seq<Packet>, me: Port)
    requires list != [] && Distinct(list)
    ensures Own(list[1..], me) == Own(list, me) - {Plain(list[0])}
    ensures list[0].port == me ==> Plain(list[0]) in Own(list, me)
  {
    assert list == [list[0]] + list[1..];
    forall p | p in list[1..] ensures Plain(p) != Plain(list[0]) {
      var i :| 0 <= i < |list[1..]| && list[1..][i] == p;
      assert list[i + 1].id != list[0].id;
    }
  }

  lemma TickOwn(list: seq<Packet>, now: int, posts: seq<Post>, me: Port)
    ensures Own(Tick(list, now, posts).list, me) == Own(list, me)
  {
    hide PostDue, Handed;
    var n := Handed(list);
    PostDueIds(list[n..], now, posts);
    SameButOwn(list, Tick(list, now, posts).list, me);
  }

  lemma SameButOwn(list: seq<Packet>, list': seq<Packet>, me: Port)
    requires SameBut(list, list')
    ensures Own(list', me) == Own(list, me)
  {
    forall i | 0 <= i < |list| ensures Plain(list[i]) == Plain(list'[i]) && list[i] in list && list'[i] in list' {
    }
  }

  lemma ElsewhereOwn(w: World, t: Step)
    requires Inv(w.queue) && CanHappen(w, Elsewhere(t))
    ensures Own(MdnsTxQueue.Next(w.queue, t).list, w.me) == Own(w.queue.list, w.me)
  {
    hide ProbeInv, Tick, Own, Insert, Without;
    var q := w.queue;
    match t
    case Advance(ms) =>
    case PostOther =>
    case Timer(posts) => TickOwn(q.list, q.now, posts, w.me);
    case Schedule(port, ms, load) => InsertOwn(q.list, Packet(q.nextId, port, q.now + ms, false, load), w.me);
    case Drop(gone) => DropOwn(q.list, gone, w.me);
    case Serve(afterwards) =>
      if q.fifo[0].Tx? && AtHead(q.list, q.fifo[0].id) {
        TailOwn(q.list, w.me);
        PortOwn(q.list, w.me);
        if afterwards.Again? {
          InsertOwn(q.list[1..], Plain(q.list[0]).(sendAt := q.now + afterwards.ms, load := afterwards.load), w.me);
        }
      }
  }

  lemma PortOwn(list: seq<Packet>, me: Port)
    ensures forall p :: p in Own(list, me) ==> p.port == me
  {
  }

  lemma DropOwn(list: seq<Packet>, gone: set<nat>, me: Port)
    requires gone * OnPort(list, me) == {}
    ensures Own(Without(list, gone), me) == Own(list, me)
  {
    WithoutOwn(list, gone, me);
    forall p | p in Own(list, me) ensures p.id !in gone {
      var q :| q in list && q.port == me && Plain(q) == p;
      assert q.id in OnPort(list, me) && q.id !in gone * OnPort(list, me);
    }
  }

  lemma ElsewhereKeepsProbe(w: World, t: Step)
    requires WorldInv(w) && CanHappen(w, Elsewhere(t))
    ensures ProbeInv(Happen(w, Elsewhere(t)))
  {
    hide Inv, MdnsTxQueue.Next, Spaced, Own;
    ElsewhereOwn(w, t);
    var w' := Happen(w, Elsewhere(t));
    if Probing(w.pcb.phase) {
      var p :| Own(w.queue.list, w.me) == {p} && IsProbe(p, w);
      assert IsProbe(p, w');
    }
  }

  /** While probing, the packet of this interface that is about to be sent is the probe, and it is due. */
  lemma NextIsProbe(w: World)
    requires WorldInv(w) && MineNext(w) && Probing(w.pcb.phase)
    ensures var p := w.queue.list[0];
      && p.id == w.history.probe && p.load == ProbeLoad(w.history.asked, w.pcb)
      && NextProbeFrom(w.history) <= p.sendAt < w.queue.now
      && Own(w.queue.list[1..], w.me) == {}
  {
    hide Spaced, Own;
    TailOwn(w.queue.list, w.me);
    assert w.queue.list[0] in w.queue.list;
  }

  /** A probe sent, but not for the last time, is scheduled again 250 ms later. */
  lemma ProbeAgain(w: World, created: bool)
    requires WorldInv(w) && MineNext(w) && Probing(w.pcb.phase) && !(w.pcb.phase.Probe3? && created)
    ensures OneProbe(Happen(w, SendMine(created)))
  {
    hide Insert, Spaced, Own, Inv;
    var (q, w') := (w.queue, Happen(w, SendMine(created)));
    NextIsProbe(w);
    var p := Plain(q.list[0]).(sendAt := q.now + 250);
    InsertOwn(q.list[1..], p, w.me);
    assert Own(w'.queue.list, w.me) == {p} && IsProbe(p, w');
  }

  lemma SendKeepsProbe(w: World, created: bool)
    requires WorldInv(w) && MineNext(w)
    ensures ProbeInv(Happen(w, SendMine(created)))
  {
    hide Insert, Spaced, Own, Inv, OneProbe;
    var (q, w') := (w.queue, Happen(w, SendMine(created)));
    OwnHead(w);
    if Probing(w.pcb.phase) {
      NextIsProbe(w);
      SentSpaced(w.history, q.now, w'.history.failures);
      if !AfterSending(w.pcb, created).reaction.Announce? {
        ProbeAgain(w, created);
      }
    }
  }

  lemma OwnHead(w: World)
    requires MineNext(w)
    ensures Own(w.queue.list, w.me) != {}
  {
    assert Plain(w.queue.list[0]) in Own(w.queue.list, w.me) by { assert w.queue.list[0] in w.queue.list; }
  }

  lemma SentSpaced(h: History, now: int, failures: nat)
    requires Spaced(h) && NextProbeFrom(h) < now
    ensures Spaced(h.(sentAt := h.sentAt + [now], failures := failures))
  {
  }

  lemma {:induction false} NotYetDisjoint(more: seq<Service>, known: seq<Service>)
    requires NoRepeat(more)
    ensures NoRepeat(NotYet(more, known))
    ensures forall x :: x in NotYet(more, known) ==> x in more && x !in known
  {
    if more != [] {
      NoRepeatTail(more[0], more[1..]) by { assert [more[0]] + more[1..] == more; }
      NotYetDisjoint(more[1..], known);
      NoRepeatConcat([more[0]], NotYet(more[1..], known));
    }
  }

  lemma StartedFacts(b: Pcb, services: seq<Service>, ip: bool)
    ensures Started(b, services, ip).phase == Probe1
  {
  }

  lemma StartedNoRepeat(b: Pcb, services: seq<Service>, ip: bool)
    requires NoRepeat(services) && NoRepeat(b.services)
    requires !CountsAsProbing(b.phase) ==> b.services == []
    ensures NoRepeat(Started(b, services, ip).services)
  {
    NotYetDisjoint(services, b.services);
    NoRepeatConcat(NotYet(services, b.services), b.services);
  }

  lemma StartedProbesSomething(b: Pcb, services: seq<Service>, ip: bool)
    requires services != [] || ip
    ensures var b' := Started(b, services, ip); b'.services != [] || b'.ip
  {
  }

  /** A machine that has just begun to probe, with one packet for all its services. */
  lemma FreshProbe(w: World, p: Packet)
    requires w.pcb.phase.Probe1? && w.hostKnown && Own(w.queue.list, w.me) == {p} && p.port == w.me
    requires w.history == History(w.history.since, w.pcb.services, p.id, [], 0)
    requires p.load == Load(w.pcb.services, Members(w.pcb.services), w.pcb.ip) && p.sendAt >= w.history.since + 120
    requires NoRepeat(w.pcb.services) && (w.pcb.services != [] || w.pcb.ip)
    ensures ProbeInv(w)
  {
    hide Own, NoRepeat;
    LatestAll(w.pcb.services, w.pcb.services);
    KeepAll(w.pcb.services, Members(w.pcb.services));
    assert IsProbe(p, w);
  }

  lemma StartKeepsProbe(w: World, services: seq<Service>, ip: bool, clearOld: bool, random: nat)
    requires WorldInv(w) && NoRepeat(services) && (services != [] || ip)
    ensures ProbeInv(Happen(w, StartProbe(services, ip, clearOld, random)))
  {
    hide Inv, Insert, Without, Own, Started, NoRepeat, OneProbe;
    var b := if clearOld then w.pcb.(services := [], running := false) else w.pcb;
    var b' := Started(b, services, ip);
    var w' := Happen(w, StartProbe(services, ip, clearOld, random));
    ClearOwn(w.queue.list, w.me);
    NoneRepeats();
    if w.hostKnown {
      var load := Load(b'.services, Members(b'.services), b'.ip);
      var p := Packet(w.queue.nextId, w.me, w.queue.now + FirstDelay(b, random), false, load);
      InsertOwn(Clear(w).list, p, w.me);
      StartedNoRepeat(b, services, ip);
      StartedProbesSomething(b, services, ip);
      StartedFacts(b, services, ip);
      hide ProbeInv, Members;
      FreshProbe(w', p);
    }
  }

  lemma NoneRepeats()
    ensures NoRepeat<Service>([])
  {
  }

  lemma DropServiceAt(w: World, service: Service, elsewhere: set<nat>)
    ensures var (list, list') := (w.queue.list, DropService(w, service, elsewhere));
      && |list'| == |list|
      && forall i :: 0 <= i < |list| ==>
           && list'[i] in list' && list[i] in list
           && list'[i] == LessService(list[i], service, LosesQuestion(w, list[i], service, elsewhere))
           && list'[i] == list[i].(load := list'[i].load)
    ensures Distinct(w.queue.list) ==> Distinct(DropService(w, service, elsewhere))
  {
  }

  lemma EmptiedIds(list: seq<Packet>)
    requires Distinct(list)
    ensures forall p :: p in list ==> (p.id in Emptied(list) <==> p.load == NOTHING)
  {
    SameIdSamePacket(list);
  }

  lemma LessStays(w: World, service: Service, elsewhere: set<nat>, question: bool, p: Packet)
    requires Distinct(w.queue.list) && question == (CountsAsProbing(w.pcb.phase) && service in w.pcb.services)
    requires p in Own(w.queue.list, w.me) && LessService(p, service, question).load != NOTHING
    ensures var list' := DropService(w, service, elsewhere);
      LessService(p, service, question) in Own(Without(list', Emptied(list')), w.me)
  {
    hide Without, LessService, Emptied, DropService;
    var (list, list') := (w.queue.list, DropService(w, service, elsewhere));
    WithoutMembers(list', Emptied(list'));
    DropServiceAt(w, service, elsewhere);
    EmptiedIds(list');
    var i :| 0 <= i < |list| && list[i].port == w.me && Plain(list[i]) == p;
    PlainLess(list[i], service, question);
  }

  lemma LessComesFrom(w: World, service: Service, elsewhere: set<nat>, question: bool, q: Packet) returns (p: Packet)
    requires Distinct(w.queue.list) && question == (CountsAsProbing(w.pcb.phase) && service in w.pcb.services)
    requires var list' := DropService(w, service, elsewhere); q in Own(Without(list', Emptied(list')), w.me)
    ensures p in Own(w.queue.list, w.me) && LessService(p, service, question) == q && q.load != NOTHING
  {
    hide Without, LessService, Emptied, DropService;
    var (list, list') := (w.queue.list, DropService(w, service, elsewhere));
    WithoutMembers(list', Emptied(list'));
    DropServiceAt(w, service, elsewhere);
    EmptiedIds(list');
    var q' :| q' in list' && q'.port == w.me && Plain(q') == q && q'.id !in Emptied(list');
    var i :| 0 <= i < |list'| && list'[i] == q';
    PlainLess(list[i], service, question);
    p := Plain(list[i]);
  }

  /** The packets of this interface when a service is withdrawn: each without it, unless nothing is left of it. */
  lemma DropServiceOwn(w: World, service: Service, elsewhere: set<nat>, question: bool)
    requires Distinct(w.queue.list) && question == (CountsAsProbing(w.pcb.phase) && service in w.pcb.services)
    ensures var list' := DropService(w, service, elsewhere);
      Own(Without(list', Emptied(list')), w.me) ==
        set p | p in Own(w.queue.list, w.me) && LessService(p, service, question).load != NOTHING
          :: LessService(p, service, question)
  {
    hide Without, LessService, Emptied, DropService, Own;
    var list' := DropService(w, service, elsewhere);
    forall p | p in Own(w.queue.list, w.me) && LessService(p, service, question).load != NOTHING
      ensures LessService(p, service, question) in Own(Without(list', Emptied(list')), w.me)
    {
      LessStays(w, service, elsewhere, question, p);
    }
    forall q | q in Own(Without(list', Emptied(list')), w.me)
      ensures exists p :: p in Own(w.queue.list, w.me) && LessService(p, service, question).load != NOTHING
                       && LessService(p, service, question) == q
    {
      var p := LessComesFrom(w, service, elsewhere, question, q);
    }
  }

  lemma PlainLess(p: Packet, service: Service, question: bool)
    ensures LessService(Plain(p), service, question) == Plain(LessService(p, service, question))
  {
  }

  lemma WithdrawnFacts(b: Pcb, service: Service, emptied: bool)
    requires NoRepeat(b.services)
    ensures var r := Withdrawn(b, service, emptied);
      && NoRepeat(r.services) && r.ip == b.ip && r.failed == b.failed
      && (Probing(r.phase) ==> Probing(b.phase) && r.phase == b.phase)
      && (CountsAsProbing(b.phase) && service in b.services ==> r.services == WithoutFirst(b.services, service))
      && (CountsAsProbing(b.phase) && service !in b.services ==> r.services == b.services)
      && (Probing(r.phase) ==> service in b.services ==> r.services != [] || r.ip)
  {
    WithoutFirstMembers(b.services, service);
  }

  /** What withdrawing a service does to the probe: one question of its type, and its own entry, are gone. */
  lemma WithdrawnLoad(w: World, p: Packet, service: Service, emptied: bool)
    requires Recorded(w) && Probing(w.pcb.phase) && IsProbe(p, w)
    ensures var b := Withdrawn(w.pcb, service, emptied);
      && LessService(p, service, service in w.pcb.services).load == ProbeLoad(w.history.asked, b)
      && NoRepeat(b.services) && b.services == Keep(w.history.asked, Members(b.services))
  {
    var (asked, s) := (w.history.asked, w.pcb.services);
    var b := Withdrawn(w.pcb, service, emptied);
    KeepNoRepeat(asked, Members(s));
    WithoutFirstMembers(s, service);
    if service in s {
      forall k ensures Count(s, k) <= Count(asked, k) {
        KeepCount(asked, Members(s), k);
      }
      WithdrawnQuestion(asked, s, service);
      KeepLess(asked, Members(s), service);
      assert Members(b.services) == Members(s) - {service};
    } else {
      assert Members(s) - {service} == Members(s);
    }
  }

  /** Whatever service is removed, the probe stays scheduled for as long as the interface is probing. */
  lemma WithdrawKeepsProbe(w: World, service: Service, emptied: bool, elsewhere: set<nat>)
    requires WorldInv(w)
    ensures ProbeInv(Happen(w, Withdraw(service, emptied, elsewhere)))
  {
    hide Inv, Spaced, Own, Without, Members, NoRepeat, Keep, Latest, LessService, DropService, Emptied;
    var w' := Happen(w, Withdraw(service, emptied, elsewhere));
    QueueDistinct(w.queue);
    var question := CountsAsProbing(w.pcb.phase) && service in w.pcb.services;
    DropServiceOwn(w, service, elsewhere, question);
    WithdrawnFacts(w.pcb, service, emptied);
    if Probing(w.pcb.phase) {
      var p :| Own(w.queue.list, w.me) == {p} && IsProbe(p, w);
      var p' := LessService(p, service, question);
      WithdrawnLoad(w, p, service, emptied);
      if Probing(w'.pcb.phase) {
        SomethingLeft(w.history.asked, w'.pcb);
        assert IsProbe(p', w') by { PlainLessFacts(p, service, question); }
        assert Own(w'.queue.list, w.me) == {p'};
      }
    }
  }

  lemma PlainLessFacts(p: Packet, service: Service, question: bool)
    ensures var p' := LessService(p, service, question); p' == p.(load := p'.load)
  {
  }

  lemma SomethingLeft(asked: seq<Service>, b: Pcb)
    requires b.services != [] || b.ip
    ensures ProbeLoad(asked, b) != NOTHING
  {
    if b.services != [] {
      assert b.services[0] in Members(b.services);
    }
  }

  lemma QueueDistinct(q: State)
    requires Inv(q)
    ensures Distinct(q.list)
  {
  }

  // ---------------------------------------------------------------- every run

  lemma EventKeepsInv(w: World, e: Event)
    requires WorldInv(w) && CanHappen(w, e)
    ensures WorldInv(Happen(w, e))
  {
    EventKeepsQueue(w, e);
    hide Inv, ProbeInv, Happen;
    match e
    case Elsewhere(t) => ElsewhereKeepsProbe(w, t);
    case SendMine(created) => SendKeepsProbe(w, created);
    case StartProbe(services, ip, clearOld, random) => StartKeepsProbe(w, services, ip, clearOld, random);
    case Withdraw(service, emptied, elsewhere) => WithdrawKeepsProbe(w, service, emptied, elsewhere);
    case _ => OthersKeepProbe(w, e);
  }

  lemma OthersKeepProbe(w: World, e: Event)
    requires WorldInv(w) && CanHappen(w, e)
    requires !e.Elsewhere? && !e.SendMine? && !e.StartProbe? && !e.Withdraw?
    ensures ProbeInv(Happen(w, e))
  {
    hide Inv, Spaced, Own, Insert, Without;
    match e
    case Disable => ResetKeepsProbe(w, Off);
    case SetDuplicate => ResetKeepsProbe(w, Dup);
    case AnnounceAgain(load) =>
    case Reply(ms, load) =>
    case ProbeFailed => SameProbe(w, Happen(w, e));
    case NameHost => SameProbe(w, Happen(w, e));
  }

  lemma ResetKeepsProbe(w: World, phase: Phase)
    requires ProbeInv(w) && (phase.Off? || phase.Dup?)
    ensures ProbeInv(w.(queue := Clear(w), pcb := Reset(phase)))
  {
    ClearOwn(w.queue.list, w.me);
  }

  lemma SameProbe(w: World, w': World)
    requires ProbeInv(w)
    requires w' == w.(pcb := w.pcb.(failed := w'.pcb.failed), hostKnown := w'.hostKnown)
    requires w.hostKnown ==> w'.hostKnown
    ensures ProbeInv(w')
  {
    if Probing(w.pcb.phase) {
      var p :| Own(w.queue.list, w.me) == {p} && IsProbe(p, w);
      assert IsProbe(p, w');
    }
  }

  ghost predicate IsHistory(run: seq<World>, events: seq<Event>) {
    && |run| == |events| + 1
    && run[0] == Start(run[0].me)
    && forall i :: 0 <= i < |events| ==> Follows(run[i], events[i], run[i + 1])
  }

  ghost predicate Follows(w: World, e: Event, w': World) {
    CanHappen(w, e) && w' == Happen(w, e)
  }

  lemma {:induction false} HistoryKeepsInv(run: seq<World>, events: seq<Event>, k: nat)
    requires IsHistory(run, events) && k < |run|
    ensures WorldInv(run[k])
  {
    if k > 0 {
      HistoryKeepsInv(run, events, k - 1);
      assert Follows(run[k - 1], events[k - 1], run[k]);
      EventKeepsInv(run[k - 1], events[k - 1]);
    }
  }

  /**
   * In every run, an interface that is probing has exactly one packet scheduled, whatever services are
   * removed meanwhile.  It has the entries of the recorded services; it asks, of each type, for the last
   * ones it was started with, as many as are recorded.  Once sent it is due again 250 ms later.
   */
  lemma OnePacketWhileProbing(run: seq<World>, events: seq<Event>, k: nat)
    requires IsHistory(run, events) && k < |run| && Probing(run[k].pcb.phase)
    ensures var w := run[k];
      exists p :: Own(w.queue.list, w.me) == {p} && p.load == ProbeLoad(w.history.asked, w.pcb) && p.load != NOTHING
                  && (w.history.sentAt != [] ==> p.sendAt == w.history.sentAt[|w.history.sentAt| - 1] + 250)
  {
    HistoryKeepsInv(run, events, k);
    var w := run[k];
    var p :| Own(w.queue.list, w.me) == {p} && IsProbe(p, w);
    SomethingLeft(w.history.asked, w.pcb);
    assert Own(w.queue.list, w.me) == {p} && p.load == ProbeLoad(w.history.asked, w.pcb);
  }

  /**
   * Exactly when the probe asks for the services recorded: when none has been withdrawn that stood,
   * among those asked for, behind one of its type that is still recorded.
   */
  lemma AsksForRecordedExactly(run: seq<World>, events: seq<Event>, k: nat)
    requires IsHistory(run, events) && k < |run| && Probing(run[k].pcb.phase)
    ensures var w := run[k];
      ProbeLoad(w.history.asked, w.pcb).questions == w.pcb.services <==> LastAreLeft(w.history.asked, w.pcb.services)
  {
    HistoryKeepsInv(run, events, k);
    AskedExactly(run[k].history.asked, run[k].pcb.services);
  }

  /**
   * A probe that asks for the services recorded goes on doing so exactly if the one removed is the first
   * of its type.
   */
  lemma WithdrawKeepsQuestionsExactly(w: World, service: Service, emptied: bool, elsewhere: set<nat>)
    requires WorldInv(w) && Probing(w.pcb.phase) && service in w.pcb.services
    requires ProbeLoad(w.history.asked, w.pcb).questions == w.pcb.services
    ensures var w' := Happen(w, Withdraw(service, emptied, elsewhere));
      ProbeLoad(w'.history.asked, w'.pcb).questions == w'.pcb.services <==> FirstOfKind(w.pcb.services, service)
  {
    hide Inv, Without, Emptied, DropService, Spaced;
    var p :| Own(w.queue.list, w.me) == {p} && IsProbe(p, w);
    WithdrawnLoad(w, p, service, emptied);
    OwnQuestionGoes(w.pcb.services, service);
  }

  /** Two services are added one after the other, while the addresses are probed; then the first is removed. */
  function FirstAddedIsRemoved(me: Port, a: Service, b: Service): World {
    var w2 := Happen(Happen(Start(me), NameHost), StartProbe([a], true, false, 0));
    var w3 := Happen(w2, StartProbe([b], false, false, 0));
    Happen(w3, Withdraw(a, false, {}))
  }

  /**
   * If both are of the same type, the question removed is that of the service that stays: the probe still
   * asks for the one removed, and the one that stays will be announced without having been asked for.
   */
  lemma OthersQuestionGoes(me: Port, a: Service, b: Service)
    requires a != b && a.kind == b.kind
    ensures var w := FirstAddedIsRemoved(me, a, b);
      && WorldInv(w) && Probing(w.pcb.phase) && w.pcb.services == [b]
      && exists p :: Own(w.queue.list, w.me) == {p} && p.load == Load([a], {b}, true)
  {
    FirstAddedInv(me, a, b);
    FirstAddedRecords(me, a, b);
    hide WorldInv, FirstAddedIsRemoved;
    LatestOfTwo(a, b);
    OneProbeOf(FirstAddedIsRemoved(me, a, b));
  }

  lemma FirstAddedInv(me: Port, a: Service, b: Service)
    ensures WorldInv(FirstAddedIsRemoved(me, a, b))
  {
    hide WorldInv, Happen;
    StartIsFine(me);
    var (e1, e2, e3) := (NameHost, StartProbe([a], true, false, 0), StartProbe([b], false, false, 0));
    EventKeepsInv(Start(me), e1);
    var w1 := Happen(Start(me), e1);
    EventKeepsInv(w1, e2);
    EventKeepsInv(Happen(w1, e2), e3);
    EventKeepsInv(Happen(Happen(w1, e2), e3), Withdraw(a, false, {}));
  }

  lemma FirstAddedRecords(me: Port, a: Service, b: Service)
    requires a != b
    ensures var w := FirstAddedIsRemoved(me, a, b);
      w.me == me && w.pcb == Pcb(Probe1, [b], true, true, 0) && w.history.asked == [b, a]
  {
    hide MdnsTxQueue.Next, DropService, Without, Emptied;
    var w1 := Happen(Start(me), NameHost);
    var w2 := Happen(w1, StartProbe([a], true, false, 0));
    assert w2.pcb == Pcb(Probe1, [a], true, true, 0) && w2.me == me && w2.hostKnown;
    var w3 := Happen(w2, StartProbe([b], false, false, 0));
    assert NotYet([b], [a]) == [b] && [b] + [a] == [b, a];
    assert w3.pcb == Pcb(Probe1, [b, a], true, true, 0) && w3.history.asked == [b, a];
    assert [b, a][1..] == [a] && WithoutFirst([a], a) == [];
  }

  lemma StartIsFine(me: Port)
    ensures WorldInv(Start(me))
  {
  }

  lemma OneProbeOf(w: World)
    requires WorldInv(w) && Probing(w.pcb.phase)
    ensures exists p :: Own(w.queue.list, w.me) == {p} && p.load == ProbeLoad(w.history.asked, w.pcb)
  {
    hide Inv, Own;
    var p :| Own(w.queue.list, w.me) == {p} && IsProbe(p, w);
  }

  lemma LatestOfTwo(a: Service, b: Service)
    requires a.kind == b.kind
    ensures Latest([b, a], [b]) == [a] && Members([b]) == {b}
  {
    assert [b, a][1..] == [a] && [a][1..] == [] && [b][1..] == [];
    assert Latest([a], [b]) == [a];
  }

  lemma HostsToo(asked: seq<Service>, b: Pcb)
    requires b.services != [] || b.ip
    ensures Announcement(ProbeLoad(asked, b)) == Load([], Members(b.services), true)
  {
    if b.services != [] {
      assert b.services[0] in Members(b.services);
    }
  }

  /** What is announced after probing is every service recorded, whether or not it has been asked for. */
  lemma RecordedAreAnnounced(w: World)
    requires WorldInv(w) && MineNext(w) && w.pcb.phase.Probe3?
    ensures var w' := Happen(w, SendMine(true));
      exists p :: Own(w'.queue.list, w.me) == {p} && p.load == Load([], Members(w.pcb.services), true)
                  && p.sendAt == w.queue.now + 250
  {
    hide Insert, Spaced, Own, Inv, Members;
    NextIsProbe(w);
    var (q, w') := (w.queue, Happen(w, SendMine(true)));
    HostsToo(w.history.asked, w.pcb);
    var p := Packet(q.nextId, w.me, q.now + 250, false, Load([], Members(w.pcb.services), true));
    InsertOwn(q.list[1..], p, w.me);
    assert Own(w'.queue.list, w.me) == {p};
  }

  /**
   * Probing before announcing: in every run, an interface passes from probing to announcing only by
   * sending its probe for the third time since probing last started, counting beyond three only the
   * announcements that could not be allocated.  The probes are more than 250 ms apart.
   */
  lemma AnnouncedAfterThreeProbes(run: seq<World>, events: seq<Event>, k: nat)
    requires IsHistory(run, events) && k < |events|
    requires Probing(run[k].pcb.phase) && run[k + 1].pcb.phase.Announce1?
    ensures events[k] == SendMine(true) && run[k].pcb.phase.Probe3?
    ensures var h := run[k + 1].history;
      && |h.sentAt| == 3 + h.failures && Spaced(h)
      && h.sentAt[|h.sentAt| - 1] == run[k].queue.now
      && h.sentAt[|h.sentAt| - 1] > h.since + 120 + 2 * 250
  {
    hide WorldInv, Happen, Spaced;
    HistoryKeepsInv(run, events, k);
    assert Follows(run[k], events[k], run[k + 1]);
    ThirdProbe(run[k], events[k]);
    var h := run[k + 1].history;
    SpacedFrom(h, |h.sentAt| - 1);
  }

  lemma ThirdProbe(w: World, e: Event)
    requires WorldInv(w) && CanHappen(w, e) && Probing(w.pcb.phase) && Happen(w, e).pcb.phase.Announce1?
    ensures e == SendMine(true) && w.pcb.phase.Probe3?
    ensures var h := Happen(w, e).history;
      |h.sentAt| == 3 + h.failures && Spaced(h) && h.sentAt[|h.sentAt| - 1] == w.queue.now
  {
    hide Inv, Own, Insert, Without, MdnsTxQueue.Next, Spaced;
    EventKeepsInv(w, e);
  }

  lemma {:induction false} SpacedFrom(h: History, i: nat)
    requires Spaced(h) && i < |h.sentAt|
    ensures h.sentAt[i] > h.since + 120 + 250 * i
  {
    if i > 0 {
      SpacedFrom(h, i - 1);
    }
  }

  /** The only other ways past probing: no host name is known, or the last probed service is removed. */
  lemma WaysPastProbing(w: World, e: Event)
    requires WorldInv(w) && CanHappen(w, e)
    requires !AfterProbing(w.pcb.phase) && AfterProbing(Happen(w, e).pcb.phase)
    ensures (e == SendMine(true) && w.pcb.phase.Probe3? && Happen(w, e).pcb.phase.Announce1?)
         || (e.StartProbe? && !w.hostKnown && Happen(w, e).pcb.phase.Running?)
         || (e.Withdraw? && w.pcb.services == [e.service] && !w.pcb.ip && Happen(w, e).pcb.phase.Running?)
  {
    hide Inv, MdnsTxQueue.Next, Own, Without, Insert, Spaced;
    if e.SendMine? {
      OwnHead(w);
    } else if e.Withdraw? {
      OnlyService(w.pcb.services, e.service);
    }
  }

  lemma OnlyService(s: seq<Service>, x: Service)
    requires x in s && WithoutFirst(s, x) == []
    ensures s == [x]
  {
  }
}
