/**
 * The SPI transport of the EPPP link: two ends that run transactions in lockstep.  Each transaction
 * carries a header, at most one packet in each direction, and the size of the packet that each end
 * wants to send next; both ends derive the length of the next transaction from the two headers.
 *
 * `Endpoint` is one end as the source runs it.  `World` is the joint system: both ends, the steps that
 * may happen in any order, and the history of each direction.
 */
module EpppSpi {
  import opened Bytes

  const MAX_PAYLOAD: nat := 1500
  const HEADER_BYTES: nat := 8
  /** The payload plus six, rounded up to a multiple of four. */
  const TRANSFER_SIZE: nat := (MAX_PAYLOAD + 6 + 3) / 4 * 4
  const NR_OF_CHANNELS: nat := 1

  datatype Packet = Packet(channel: nat, data: bytes)

  /** An entry of the outgoing queue: a packet, or the wake-up that the interrupt handler inserts. */
  datatype Item = Signal | Data(packet: Packet)

  datatype Blocked = NotBlocked | MasterBlocked | MasterWantsRead

  /** What one end clocks out: header fields, then as many bytes as the transaction has room for. */
  datatype Wire = Wire(size: nat, channel: nat, nextSize: nat, body: bytes)

  /** One end of the link; `inFlight` is set between preparing a transaction and its completion. */
  datatype Side = Side(
    isMaster: bool,
    queue: seq<Item>,
    outbound: Packet,
    transactionSize: nat,
    blocked: Blocked,
    inFlight: Option<Wire>
  )

  predicate Empty(p: Packet) {
    p.data == []
  }

  function Max(a: nat, b: nat): nat {
    if a > b then a else b
  }

  // ---------------------------------------------------------------- fragmentation

  function Fragments(buffer: bytes): (fs: seq<bytes>)
    ensures fs != []
  {
    if |buffer| <= MAX_PAYLOAD then [buffer] else [buffer[..MAX_PAYLOAD]] + Fragments(buffer[MAX_PAYLOAD..])
  }

  /**
   * Fragments put back together give the buffer; all are full except the last, which is empty only for an
   * empty buffer.
   */
  lemma {:induction false} FragmentsRejoin(buffer: bytes)
    ensures Flatten(Fragments(buffer)) == buffer
    ensures forall i :: 0 <= i < |Fragments(buffer)| - 1 ==> |Fragments(buffer)[i]| == MAX_PAYLOAD
    ensures |Fragments(buffer)[|Fragments(buffer)| - 1]| <= MAX_PAYLOAD
    ensures buffer != [] ==> Fragments(buffer)[|Fragments(buffer)| - 1] != []
  {
    if |buffer| <= MAX_PAYLOAD {
      assert Flatten([buffer]) == buffer + Flatten([]);
    } else {
      FragmentsRejoin(buffer[MAX_PAYLOAD..]);
      assert Fragments(buffer)[1..] == Fragments(buffer[MAX_PAYLOAD..]);
    }
  }

  function Items(channel: nat, fs: seq<bytes>): (r: seq<Item>)
    ensures |r| == |fs|
    ensures forall i :: 0 <= i < |fs| ==> r[i] == Data(Packet(channel, fs[i]))
  {
    seq(|fs|, i requires 0 <= i < |fs| => Data(Packet(channel, fs[i])))
  }

  // ---------------------------------------------------------------- one end, as a function

  /** A queue and the packet taken from it to be sent next. */
  datatype Slot = Slot(queue: seq<Item>, outbound: Packet)

  /** Takes the next packet to send: signals in front of it are dropped. */
  function PopNext(queue: seq<Item>, outbound: Packet): Slot {
    if queue == [] then Slot([], outbound)
    else match queue[0]
      case Data(p) => Slot(queue[1..], p)
      case Signal => PopNext(queue[1..], Packet(0, []))
  }

  predicate Idle(s: Side) {
    s.isMaster && Empty(s.outbound) && s.transactionSize == 0 && s.blocked == NotBlocked
  }

  /** The master has nothing to do: it waits for an entry in its queue. */
  function Block(s: Side): Side {
    s.(blocked := MasterBlocked)
  }

  predicate CanPrepare(s: Side) {
    && s.inFlight.None?
    && !Idle(s)
    && (s.blocked == MasterBlocked ==> s.queue != [])
  }

  /** The part of a step that only the master runs, up to having something to send or to read. */
  function Wake(s: Side): Side
    requires CanPrepare(s)
  {
    match s.blocked
    case NotBlocked => s
    case MasterWantsRead => s.(blocked := NotBlocked)
    case MasterBlocked =>
      var rest := s.(queue := s.queue[1..]);
      match s.queue[0]
      case Data(p) => rest.(outbound := p, blocked := NotBlocked)
      case Signal => rest.(outbound := Packet(0, []), blocked := MasterWantsRead)
  }

  /** The packet padded to what the transaction carries; the padding is whatever the buffer held. */
  function Pad(data: bytes, n: nat): (body: bytes)
    requires |data| <= n
    ensures |body| == n && body[..|data|] == data
  {
    data + seq(n - |data|, _ => 0)
  }

  /** Builds the header and the payload of the next transaction. */
  function Load(s: Side, testOnly: bool): Side {
    if |s.outbound.data| <= s.transactionSize && !testOnly then
      var p := s.outbound;
      var next := PopNext(s.queue, Packet(p.channel, []));
      s.(queue := next.queue, outbound := next.outbound,
         inFlight := Some(Wire(|p.data|, p.channel, |next.outbound.data|, Pad(p.data, s.transactionSize))))
    else
      s.(inFlight := Some(Wire(0, 0, |s.outbound.data|, Pad([], s.transactionSize))))
  }

  function Prepare(s: Side, testOnly: bool): Side
    requires CanPrepare(s)
  {
    Load(Wake(s), testOnly)
  }

  /** A received header is refused when its check is wrong or its channel is out of range. */
  predicate Accepts(w: Wire, intact: bool) {
    intact && w.channel <= NR_OF_CHANNELS
  }

  function Complete(s: Side, w: Wire, intact: bool): Side
    requires s.inFlight.Some?
  {
    if !Accepts(w, intact) then s.(transactionSize := 0, inFlight := None)
    else s.(transactionSize := Max(s.inFlight.value.nextSize, w.nextSize), inFlight := None)
  }

  /** What a completed transaction hands to the network. */
  function Received(w: Wire, intact: bool): seq<Packet>
    requires w.size <= |w.body|
  {
    if Accepts(w, intact) && w.size > 0 then [Packet(w.channel, w.body[..w.size])] else []
  }

  // ---------------------------------------------------------------- one end, as the source runs it

  class Endpoint {
    const isMaster: bool
    const capacity: nat
    var queue: seq<Item>
    var outbound: Packet
    var transactionSize: nat
    var blocked: Blocked
    var inFlight: Option<Wire>

    ghost function View(): Side
      reads this
    {
      Side(isMaster, queue, outbound, transactionSize, blocked, inFlight)
    }

    constructor (isMaster: bool, capacity: nat)
      ensures View() == InitSide(isMaster) && this.capacity == capacity
    {
      this.isMaster, this.capacity := isMaster, capacity;
      queue, outbound, transactionSize := [], Packet(0, []), 0;
      blocked, inFlight := NotBlocked, None;
    }

    /** Splits the buffer and queues the pieces until one does not fit. */
    method Transmit(channel: nat, buffer: bytes) returns (ok: bool)
      requires |queue| <= capacity
      modifies this`queue
      ensures |queue| <= capacity
      ensures ok <==> old(|queue|) + |Fragments(buffer)| <= capacity
      ensures ok ==> queue == old(queue) + Items(channel, Fragments(buffer))
      ensures !ok ==>
        && |queue| == capacity
        && queue == old(queue) + Items(channel, Fragments(buffer)[..capacity - |old(queue)|])
    {
      var remaining := buffer;
      ghost var sent: seq<bytes> := [];
      while true
        invariant |queue| <= capacity
        invariant Fragments(buffer) == sent + Fragments(remaining)
        invariant queue == old(queue) + Items(channel, sent)
        decreases |remaining|
      {
        var batch := if |remaining| > MAX_PAYLOAD then MAX_PAYLOAD else |remaining|;
        if |queue| == capacity {
          assert Fragments(buffer)[..|sent|] == sent;
          return false;
        }
        queue := queue + [Data(Packet(channel, remaining[..batch]))];
        sent := sent + [remaining[..batch]];
        if batch == |remaining| {
          assert sent == Fragments(buffer) by {
            assert remaining[..batch] == remaining;
          }
          return true;
        }
        remaining := remaining[batch..];
      }
    }

    /** Takes entries off the queue until one carries a packet or the queue is empty. */
    method PopOutbound()
      modifies this`queue, this`outbound
      ensures Slot(queue, outbound) == PopNext(old(queue), old(outbound))
    {
      while queue != []
        invariant PopNext(queue, outbound) == PopNext(old(queue), old(outbound))
        decreases |queue|
      {
        var item := queue[0];
        queue := queue[1..];
        match item {
          case Data(p) =>
            outbound := p;
            return;
          case Signal =>
            outbound := Packet(0, []);
        }
      }
    }

    /** A master without anything to send, to receive or to announce waits for its queue. */
    method Sleep()
      requires Idle(View())
      modifies this`blocked
      ensures View() == Block(old(View()))
    {
      blocked := MasterBlocked;
    }

    /** From the start of a step to the moment the transaction is handed to the driver. */
    method Begin(testOnly: bool)
      requires CanPrepare(View())
      modifies this`queue, this`outbound, this`blocked, this`inFlight
      ensures View() == Prepare(old(View()), testOnly)
    {
      if blocked == MasterBlocked {
        var item := queue[0];
        queue := queue[1..];
        blocked := NotBlocked;
        match item {
          case Data(p) =>
            outbound := p;
          case Signal =>
            outbound := Packet(0, []);
            blocked := MasterWantsRead;
        }
      } else if blocked == MasterWantsRead {
        blocked := NotBlocked;
      }
      var size, channel, body := 0, 0, Pad([], transactionSize);
      if |outbound.data| <= transactionSize && !testOnly {
        size, channel := |outbound.data|, outbound.channel;
        body := Pad(outbound.data, transactionSize);
        outbound := Packet(channel, []);
        PopOutbound();
      }
      inFlight := Some(Wire(size, channel, |outbound.data|, body));
    }

    /** From the driver's return to the end of the step. */
    method Finish(w: Wire, intact: bool) returns (received: seq<Packet>)
      requires inFlight.Some? && w.size <= |w.body|
      modifies this`transactionSize, this`inFlight
      ensures View() == Complete(old(View()), w, intact)
      ensures received == Received(w, intact)
    {
      received := [];
      var mine := inFlight.value.nextSize;
      inFlight := None;
      if !intact || w.channel > NR_OF_CHANNELS {
        transactionSize := 0;
        return;
      }
      if w.size > 0 {
        received := [Packet(w.channel, w.body[..w.size])];
      }
      transactionSize := if mine > w.nextSize then mine else w.nextSize;
    }
  }

  function InitSide(isMaster: bool): Side {
    Side(isMaster, [], Packet(0, []), 0, NotBlocked, None)
  }

  // ---------------------------------------------------------------- the joint system

  /** The history of one direction: what was queued, what became of each, what came out. */
  datatype Flow = Flow(sent: seq<Packet>, fate: seq<bool>, got: seq<Packet>)

  datatype World = World(master: Side, slave: Side, down: Flow, up: Flow)

  datatype Step =
    | Enqueue(atMaster: bool, packet: Packet)
    | Sleep
    | Interrupt
    | Ready(isMaster: bool, testOnly: bool)
    | Exchange(intact: bool)

  function Init(): World {
    World(InitSide(true), InitSide(false), Flow([], [], []), Flow([], [], []))
  }

  predicate Enabled(w: World, t: Step) {
    match t
    case Enqueue(_, p) => |p.data| <= MAX_PAYLOAD && p.channel <= NR_OF_CHANNELS
    case Sleep => w.master.inFlight.None? && Idle(w.master)
    case Interrupt => w.master.blocked == MasterBlocked
    case Ready(isMaster, testOnly) =>
      CanPrepare(if isMaster then w.master else w.slave) && (testOnly ==> isMaster)
    case Exchange(_) => w.master.inFlight.Some? && w.slave.inFlight.Some?
  }

  function Log(f: Flow, p: Packet): Flow {
    if Empty(p) then f else f.(sent := f.sent + [p])
  }

  /** The end of a transaction for the packet it carried in one direction. */
  function Settle(f: Flow, w: Wire, intact: bool): Flow
    requires w.size <= |w.body|
  {
    var got := Received(w, intact);
    f.(fate := f.fate + (if w.size > 0 then [got != []] else []), got := f.got + got)
  }

  predicate WellSized(w: Wire) {
    w.size <= |w.body|
  }

  function Next(w: World, t: Step): World
    requires Enabled(w, t)
    requires t.Exchange? ==> WellSized(w.master.inFlight.value) && WellSized(w.slave.inFlight.value)
  {
    match t
    case Enqueue(true, p) =>
      w.(master := w.master.(queue := w.master.queue + [Data(p)]), down := Log(w.down, p))
    case Enqueue(false, p) =>
      w.(slave := w.slave.(queue := w.slave.queue + [Data(p)]), up := Log(w.up, p))
    case Sleep => w.(master := Block(w.master))
    case Interrupt => w.(master := w.master.(queue := w.master.queue + [Signal]))
    case Ready(true, testOnly) => w.(master := Prepare(w.master, testOnly))
    case Ready(false, testOnly) => w.(slave := Prepare(w.slave, testOnly))
    case Exchange(intact) =>
      var (m, s) := (w.master.inFlight.value, w.slave.inFlight.value);
      World(Complete(w.master, s, intact), Complete(w.slave, m, intact),
            Settle(w.down, m, intact), Settle(w.up, s, intact))
  }

  // ---------------------------------------------------------------- invariants

  /** The packets of a queue, without wake-ups and without empty packets. */
  function Packets(q: seq<Item>): seq<Packet> {
    if q == [] then [] else Carried(q[0]) + Packets(q[1..])
  }

  function Carried(i: Item): seq<Packet> {
    match i
    case Signal => []
    case Data(p) => Present(p)
  }

  function Present(p: Packet): seq<Packet> {
    if Empty(p) then [] else [p]
  }

  function Flying(s: Side): seq<Packet> {
    match s.inFlight
    case None => []
    case Some(w) => if 0 < w.size <= |w.body| then [Packet(w.channel, w.body[..w.size])] else []
  }

  /** Everything queued at an end that has not left it yet, in the order in which it will leave. */
  function Pending(s: Side): seq<Packet> {
    Flying(s) + Present(s.outbound) + Packets(s.queue)
  }

  /** The entries of `s` that `keep` marks. */
  function Select<T>(s: seq<T>, keep: seq<bool>): seq<T>
    requires |s| == |keep|
  {
    if s == [] then [] else (if keep[0] then [s[0]] else []) + Select(s[1..], keep[1..])
  }

  predicate PacketOk(p: Packet) {
    |p.data| <= MAX_PAYLOAD && p.channel <= NR_OF_CHANNELS
  }

  predicate QueueOk(q: seq<Item>) {
    forall i :: 0 <= i < |q| && q[i].Data? ==> PacketOk(q[i].packet)
  }

  predicate SideOk(s: Side) {
    && PacketOk(s.outbound) && QueueOk(s.queue)
    && s.transactionSize <= MAX_PAYLOAD
    && (s.inFlight.Some? ==>
        var w := s.inFlight.value;
        && w.size <= |w.body| == s.transactionSize
        && w.nextSize == |s.outbound.data|
        && w.channel <= NR_OF_CHANNELS
        && s.blocked != MasterBlocked)
  }

  /** One direction: each packet sent is either past, delivered or lost, or still pending, in order. */
  predicate FlowOk(f: Flow, s: Side) {
    && |f.fate| <= |f.sent|
    && f.got == Select(f.sent[..|f.fate|], f.fate)
    && f.sent[|f.fate|..] == Pending(s)
  }

  ghost predicate Inv(w: World) {
    && w.master.isMaster && !w.slave.isMaster && w.slave.blocked == NotBlocked
    && SideOk(w.master) && SideOk(w.slave)
    && (w.master.blocked == MasterBlocked ==> Empty(w.master.outbound))
    && w.master.transactionSize == w.slave.transactionSize
    && FlowOk(w.down, w.master) && FlowOk(w.up, w.slave)
  }

  lemma {:induction false} SelectSnoc<T>(s: seq<T>, keep: seq<bool>, x: T, k: bool)
    requires |s| == |keep|
    ensures Select(s + [x], keep + [k]) == Select(s, keep) + (if k then [x] else [])
  {
    if s == [] {
      assert s + [x] == [x] && keep + [k] == [k];
    } else {
      SelectSnoc(s[1..], keep[1..], x, k);
      assert (s + [x])[1..] == s[1..] + [x] && (keep + [k])[1..] == keep[1..] + [k];
      Regroup(if keep[0] then [s[0]] else [], Select(s[1..], keep[1..]), if k then [x] else []);
    }
  }

  lemma {:induction false} PacketsAppend(a: seq<Item>, b: seq<Item>)
    ensures Packets(a + b) == Packets(a) + Packets(b)
  {
    if a == [] {
      assert a + b == b;
    } else {
      hide Carried;
      PacketsAppend(a[1..], b);
      assert (a + b)[1..] == a[1..] + b;
      Regroup(Carried(a[0]), Packets(a[1..]), Packets(b));
    }
  }

  lemma {:induction false} PopNextKeeps(queue: seq<Item>, outbound: Packet)
    requires Empty(outbound) && QueueOk(queue) && PacketOk(outbound)
    ensures var r := PopNext(queue, outbound);
      && QueueOk(r.queue) && PacketOk(r.outbound)
      && Present(r.outbound) + Packets(r.queue) == Packets(queue)
  {
    if queue != [] && queue[0].Signal? {
      PopNextKeeps(queue[1..], Packet(0, []));
    }
  }

  lemma WakeKeeps(s: Side)
    requires SideOk(s) && CanPrepare(s)
    requires s.blocked == MasterBlocked ==> Empty(s.outbound)
    ensures var r := Wake(s);
      && SideOk(r) && r.inFlight.None? && r.blocked != MasterBlocked
      && r.transactionSize == s.transactionSize && r.isMaster == s.isMaster
      && (s.blocked == NotBlocked ==> r.blocked == NotBlocked)
      && Present(r.outbound) + Packets(r.queue) == Present(s.outbound) + Packets(s.queue)
  {
  }

  lemma LoadKeeps(s: Side, testOnly: bool)
    requires SideOk(s) && s.inFlight.None? && s.blocked != MasterBlocked
    ensures var r := Load(s, testOnly);
      && SideOk(r) && r.inFlight.Some?
      && r.transactionSize == s.transactionSize && r.isMaster == s.isMaster && r.blocked == s.blocked
      && Pending(r) == Present(s.outbound) + Packets(s.queue)
  {
    hide PopNext;
    if |s.outbound.data| <= s.transactionSize && !testOnly {
      PopNextKeeps(s.queue, Packet(s.outbound.channel, []));
      assert Flying(Load(s, testOnly)) == Present(s.outbound);
    }
  }

  /** Preparing a transaction loses, duplicates and reorders nothing. */
  lemma PrepareKeeps(s: Side, testOnly: bool)
    requires SideOk(s) && CanPrepare(s)
    requires s.blocked == MasterBlocked ==> Empty(s.outbound)
    ensures var r := Prepare(s, testOnly);
      && SideOk(r) && r.inFlight.Some?
      && r.transactionSize == s.transactionSize && r.isMaster == s.isMaster
      && (s.blocked == NotBlocked ==> r.blocked == NotBlocked)
      && Pending(r) == Pending(s)
  {
    hide Wake, Load;
    WakeKeeps(s);
    LoadKeeps(Wake(s), testOnly);
  }

  lemma FirstOfRest<T>(s: seq<T>, n: nat, x: T, rest: seq<T>)
    requires n <= |s| && s[n..] == [x] + rest
    ensures n < |s| && s[n] == x && s[n + 1..] == rest && s[..n + 1] == s[..n] + [x]
  {
    var t := s[n..];
    assert |t| == 1 + |rest| && t[0] == x && t[1..] == rest;
    assert s[n + 1..] == t[1..];
  }

  /** The first packet still pending becomes past. */
  lemma FlowStep<T>(sent: seq<T>, fate: seq<bool>, p: T, rest: seq<T>, k: bool)
    requires |fate| <= |sent| && sent[|fate|..] == [p] + rest
    ensures |fate| < |sent| && sent[|fate| + 1..] == rest
    ensures Select(sent[..|fate| + 1], fate + [k]) == Select(sent[..|fate|], fate) + (if k then [p] else [])
  {
    hide Select;
    FirstOfRest(sent, |fate|, p, rest);
    SelectSnoc(sent[..|fate|], fate, p, k);
  }

  /** The end of a transaction removes from an end exactly the packet that was in flight. */
  lemma SettleKeeps(f: Flow, s: Side, peer: Wire, intact: bool)
    requires SideOk(s) && s.inFlight.Some? && FlowOk(f, s)
    ensures FlowOk(Settle(f, s.inFlight.value, intact), Complete(s, peer, intact))
  {
    hide Select, Packets, Present;
    var w := s.inFlight.value;
    var r := Complete(s, peer, intact);
    var rest := Present(s.outbound) + Packets(s.queue);
    assert Pending(r) == rest;
    if w.size > 0 {
      var p := Packet(w.channel, w.body[..w.size]);
      assert Pending(s) == [p] + rest;
      FlowStep(f.sent, f.fate, p, rest, Received(w, intact) != []);
    } else {
      assert Settle(f, w, intact) == f;
    }
  }

  /** What is queued becomes the last packet pending. */
  lemma FlowGrow<T>(sent: seq<T>, n: nat, more: seq<T>)
    requires n <= |sent|
    ensures (sent + more)[..n] == sent[..n] && (sent + more)[n..] == sent[n..] + more
  {
  }

  lemma EnqueueKeeps(f: Flow, s: Side, p: Packet)
    requires FlowOk(f, s)
    ensures FlowOk(Log(f, p), s.(queue := s.queue + [Data(p)]))
  {
    hide Select;
    PacketsAppend(s.queue, [Data(p)]);
    assert Packets([Data(p)]) == Present(p) by {
      assert [Data(p)][1..] == [];
    }
    hide Packets, Present, Flying;
    var more := if Empty(p) then [] else [p];
    assert more == Present(p) by {
      PresentIs(p);
    }
    Regroup(Flying(s) + Present(s.outbound), Packets(s.queue), more);
    FlowGrow(f.sent, |f.fate|, more);
    assert Log(f, p).sent == f.sent + more;
  }

  lemma PresentIs(p: Packet)
    ensures Present(p) == if Empty(p) then [] else [p]
  {
  }

  // ---------------------------------------------------------------- every run

  ghost predicate IsRun(run: seq<World>, steps: seq<Step>) {
    && |run| == |steps| + 1
    && run[0] == Init()
    && forall i :: 0 <= i < |steps| ==> CanFollow(run[i], steps[i], run[i + 1])
  }

  ghost predicate CanFollow(w: World, t: Step, w': World) {
    && Enabled(w, t)
    && (t.Exchange? ==> WellSized(w.master.inFlight.value) && WellSized(w.slave.inFlight.value))
    && w' == Next(w, t)
  }

  lemma InitInv()
    ensures Inv(Init())
  {
  }

  lemma StepKeepsInv(w: World, t: Step)
    requires Inv(w) && Enabled(w, t)
    ensures t.Exchange? ==> WellSized(w.master.inFlight.value) && WellSized(w.slave.inFlight.value)
    ensures Inv(Next(w, t))
  {
    hide Prepare, Settle, FlowOk, Packets, Pending;
    match t
    case Enqueue(true, p) => EnqueueKeeps(w.down, w.master, p);
    case Enqueue(false, p) => EnqueueKeeps(w.up, w.slave, p);
    case Sleep =>
      SamePending(w.down, w.master, Block(w.master)) by { WakeUpsDoNotCount(w.master); }
    case Interrupt =>
      SamePending(w.down, w.master, w.master.(queue := w.master.queue + [Signal])) by { WakeUpsDoNotCount(w.master); }
    case Ready(true, testOnly) =>
      PrepareKeeps(w.master, testOnly);
      SamePending(w.down, w.master, Prepare(w.master, testOnly));
    case Ready(false, testOnly) =>
      PrepareKeeps(w.slave, testOnly);
      SamePending(w.up, w.slave, Prepare(w.slave, testOnly));
    case Exchange(intact) =>
      SettleKeeps(w.down, w.master, w.slave.inFlight.value, intact);
      SettleKeeps(w.up, w.slave, w.master.inFlight.value, intact);
  }

  lemma WakeUpsDoNotCount(s: Side)
    ensures Pending(Block(s)) == Pending(s)
    ensures Pending(s.(queue := s.queue + [Signal])) == Pending(s)
  {
    PacketsAppend(s.queue, [Signal]);
    assert [Signal][1..] == [];
    assert Packets([Signal]) == [];
  }

  lemma SamePending(f: Flow, s: Side, r: Side)
    requires FlowOk(f, s) && Pending(r) == Pending(s)
    ensures FlowOk(f, r)
  {
  }

  lemma {:induction false} RunKeepsInv(run: seq<World>, steps: seq<Step>, k: nat)
    requires IsRun(run, steps) && k < |run|
    ensures Inv(run[k])
  {
    hide Inv, Next, Enabled;
    if k == 0 {
      InitInv();
    } else {
      RunKeepsInv(run, steps, k - 1);
      assert CanFollow(run[k - 1], steps[k - 1], run[k]);
      StepKeepsInv(run[k - 1], steps[k - 1]);
    }
  }

  /**
   * Safety of every run: the two ends agree on the size of the next transaction, what they clock fits
   * the transfer buffer, and a packet that flies fits the transaction that carries it.
   */
  lemma LockstepSizes(run: seq<World>, steps: seq<Step>, k: nat)
    requires IsRun(run, steps) && k < |run|
    ensures var w := run[k];
      && w.master.transactionSize == w.slave.transactionSize
      && HEADER_BYTES + w.master.transactionSize <= TRANSFER_SIZE
      && (forall s :: s in {w.master, w.slave} && s.inFlight.Some? ==>
           s.inFlight.value.size <= |s.inFlight.value.body| == w.master.transactionSize)
  {
    RunKeepsInv(run, steps, k);
  }

  ghost predicate AllIntact(steps: seq<Step>, k: nat)
    requires k <= |steps|
  {
    forall i :: 0 <= i < k && steps[i].Exchange? ==> steps[i].intact
  }

  ghost predicate AllTrue(bs: seq<bool>) {
    forall i :: 0 <= i < |bs| ==> bs[i]
  }

  lemma {:induction false} SelectAll<T>(s: seq<T>, keep: seq<bool>)
    requires |s| == |keep| && AllTrue(keep)
    ensures Select(s, keep) == s
  {
    if s != [] {
      SelectAll(s[1..], keep[1..]);
    }
  }

  lemma {:induction false} IntactRunLosesNothing(run: seq<World>, steps: seq<Step>, k: nat)
    requires IsRun(run, steps) && k < |run| && AllIntact(steps, k)
    ensures AllTrue(run[k].down.fate) && AllTrue(run[k].up.fate)
  {
    hide Inv, Next, Enabled;
    if k > 0 {
      IntactRunLosesNothing(run, steps, k - 1);
      RunKeepsInv(run, steps, k - 1);
      assert CanFollow(run[k - 1], steps[k - 1], run[k]);
      IntactStepLosesNothing(run[k - 1], steps[k - 1]);
    }
  }

  lemma IntactStepLosesNothing(w: World, t: Step)
    requires Inv(w) && Enabled(w, t) && (t.Exchange? ==> t.intact)
    requires t.Exchange? ==> WellSized(w.master.inFlight.value) && WellSized(w.slave.inFlight.value)
    requires AllTrue(w.down.fate) && AllTrue(w.up.fate)
    ensures AllTrue(Next(w, t).down.fate) && AllTrue(Next(w, t).up.fate)
  {
    hide Prepare, Block, Complete, FlowOk;
  }

  /** Conservation: without rejected transactions, delivered then pending is what was queued. */
  lemma Conservation(run: seq<World>, steps: seq<Step>, k: nat)
    requires IsRun(run, steps) && k < |run| && AllIntact(steps, k)
    ensures run[k].down.sent == run[k].down.got + Pending(run[k].master)
    ensures run[k].up.sent == run[k].up.got + Pending(run[k].slave)
  {
    RunKeepsInv(run, steps, k);
    IntactRunLosesNothing(run, steps, k);
    var (down, up) := (run[k].down, run[k].up);
    SelectAll(down.sent[..|down.fate|], down.fate);
    SelectAll(up.sent[..|up.fate|], up.fate);
  }

  /**
   * With rejected transactions, packets may be lost but none is duplicated, altered or overtaken: what
   * came out is a selection of what went in, in order, and nothing still pending is in it.
   */
  lemma LossOnly(run: seq<World>, steps: seq<Step>, k: nat)
    requires IsRun(run, steps) && k < |run|
    ensures var f := run[k].down;
      && |f.fate| <= |f.sent| && f.got == Select(f.sent[..|f.fate|], f.fate)
      && f.sent == f.sent[..|f.fate|] + Pending(run[k].master)
    ensures var f := run[k].up;
      && |f.fate| <= |f.sent| && f.got == Select(f.sent[..|f.fate|], f.fate)
      && f.sent == f.sent[..|f.fate|] + Pending(run[k].slave)
  {
    RunKeepsInv(run, steps, k);
  }

  // ---------------------------------------------------------------- progress

  /** Neither end is inside a transaction, and the next one has room for what both want to send. */
  predicate Fits(w: World) {
    && w.master.inFlight.None? && w.slave.inFlight.None?
    && |w.master.outbound.data| <= w.master.transactionSize
    && |w.slave.outbound.data| <= w.slave.transactionSize
  }

  /** One intact transaction, whatever came before, makes room for both ends; a rejected one resets both. */
  lemma ExchangeAgrees(w: World, intact: bool)
    requires Inv(w) && Enabled(w, Exchange(intact))
    ensures WellSized(w.master.inFlight.value) && WellSized(w.slave.inFlight.value)
    ensures var r := Next(w, Exchange(intact));
      if intact then Fits(r) else r.master.transactionSize == r.slave.transactionSize == 0
  {
  }
}
