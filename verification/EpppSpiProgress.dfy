/**
 * Progress of the SPI transport: from any state that the two ends can be in, intact transactions deliver
 * everything that waits, and a buffer of any length arrives as its fragments put back together.
 */
module EpppSpiProgress {
  import opened Bytes
  import opened EpppSpi

  // ---------------------------------------------------------------- one transaction from any state

  /** The master is given a reason to start: an idle one goes to sleep, a sleeping one is interrupted. */
  function Roused(w: World): (r: World)
    requires Inv(w) && w.master.inFlight.None?
    ensures Inv(r) && r.slave == w.slave && r.down == w.down && r.up == w.up
    ensures r.master == RousedMaster(w.master)
  {
    StepsOfRousing(w);
    var asleep := if Idle(w.master) then Next(w, Sleep) else w;
    if asleep.master.blocked == MasterBlocked && asleep.master.queue == [] then Next(asleep, Interrupt) else asleep
  }

  function RousedMaster(s: Side): Side {
    var asleep := if Idle(s) then Block(s) else s;
    if asleep.blocked == MasterBlocked && asleep.queue == [] then asleep.(queue := [Signal]) else asleep
  }

  lemma StepsOfRousing(w: World)
    requires Inv(w) && w.master.inFlight.None?
    ensures var asleep := if Idle(w.master) then Next(w, Sleep) else w;
      && Inv(asleep) && asleep.master.inFlight.None?
      && (asleep.master.blocked == MasterBlocked ==> Inv(Next(asleep, Interrupt)))
  {
    hide Inv;
    if Idle(w.master) {
      StepKeepsInv(w, Sleep);
    }
    var asleep := if Idle(w.master) then Next(w, Sleep) else w;
    if asleep.master.blocked == MasterBlocked {
      StepKeepsInv(asleep, Interrupt);
    }
  }

  /** Both ends inside a transaction: each one that is not prepares. */
  function Readied(w: World): (r: World)
    requires Inv(w)
    ensures Inv(r) && r.master.inFlight.Some? && r.slave.inFlight.Some? && r.down == w.down && r.up == w.up
    ensures r.master == if w.master.inFlight.None? then Prepare(RousedMaster(w.master), false) else w.master
    ensures r.slave == if w.slave.inFlight.None? then Prepare(w.slave, false) else w.slave
  {
    ReadySteps(w);
    var w1 := if w.master.inFlight.None? then Next(Roused(w), Ready(true, false)) else w;
    if w1.slave.inFlight.None? then Next(w1, Ready(false, false)) else w1
  }

  lemma ReadySteps(w: World)
    requires Inv(w)
    ensures w.master.inFlight.None? ==> CanPrepare(RousedMaster(w.master))
    ensures var w1 := if w.master.inFlight.None? then Next(Roused(w), Ready(true, false)) else w;
      && Inv(w1) && w1.master.inFlight.Some? && w1.slave == w.slave && w1.down == w.down && w1.up == w.up
      && (w.slave.inFlight.None? ==>
          && CanPrepare(w.slave) && Prepare(w.slave, false).inFlight.Some?
          && Inv(Next(w1, Ready(false, false))))
  {
    hide Prepare, FlowOk, Packets;
    if w.master.inFlight.None? {
      var r := Roused(w);
      PrepareKeeps(r.master, false);
      StepKeepsInv(r, Ready(true, false));
    }
    var w1 := if w.master.inFlight.None? then Next(Roused(w), Ready(true, false)) else w;
    if w.slave.inFlight.None? {
      PrepareKeeps(w.slave, false);
      StepKeepsInv(w1, Ready(false, false));
    }
  }

  /** One intact transaction, begun or finished from whatever state the two ends are in. */
  function Turn(w: World): (r: World)
    requires Inv(w)
    ensures Inv(r) && Fits(r) && r.down.sent == w.down.sent && r.up.sent == w.up.sent
  {
    var ready := Readied(w);
    StepKeepsInv(ready, Exchange(true));
    ExchangeAgrees(ready, true);
    Next(ready, Exchange(true))
  }

  function Turns(w: World, n: nat): (r: World)
    requires Inv(w)
    ensures Inv(r)
    decreases n
  {
    if n == 0 then w else Turns(Turn(w), n - 1)
  }

  // ---------------------------------------------------------------- nothing is lost on the way

  lemma RousedKeeps(s: Side)
    requires SideOk(s) && s.inFlight.None? && (s.blocked == MasterBlocked ==> Empty(s.outbound))
    ensures var r := RousedMaster(s);
      && SideOk(r) && CanPrepare(r) && (r.blocked == MasterBlocked ==> Empty(r.outbound))
      && r.transactionSize == s.transactionSize && r.outbound == s.outbound
      && (r.queue == s.queue || (s.queue == [] && r.queue == [Signal]))
      && Pending(r) == Pending(s)
  {
    assert Packets([Signal]) == [] by { assert [Signal][1..] == []; }
  }

  /** Whichever packet an end has in flight is what an intact transaction hands over. */
  lemma FlightArrives(s: Side)
    requires SideOk(s) && s.inFlight.Some?
    ensures Received(s.inFlight.value, true) == Flying(s)
  {
  }

  lemma Arrives(f: Flow, s: Side, peer: Wire)
    requires SideOk(s) && s.inFlight.Some? && Accepts(peer, true)
    ensures Settle(f, s.inFlight.value, true).got + Pending(Complete(s, peer, true)) == f.got + Pending(s)
  {
    hide Packets, Present;
    FlightArrives(s);
    var rest := Present(s.outbound) + Packets(s.queue);
    assert Pending(Complete(s, peer, true)) == rest;
    Regroup(f.got, Flying(s), rest);
    assert Pending(s) == Flying(s) + rest;
  }

  /** A transaction moves packets from what waits to what has arrived, at each end. */
  lemma TurnConserves(w: World)
    requires Inv(w)
    ensures Turn(w).down.got + Pending(Turn(w).master) == w.down.got + Pending(w.master)
    ensures Turn(w).up.got + Pending(Turn(w).slave) == w.up.got + Pending(w.slave)
  {
    hide FlowOk, Prepare, Pending, Received, RousedMaster, Settle, Complete;
    var ready := Readied(w);
    if w.master.inFlight.None? {
      RousedKeeps(w.master);
      PrepareKeeps(RousedMaster(w.master), false);
    }
    if w.slave.inFlight.None? {
      PrepareKeeps(w.slave, false);
    }
    Arrives(ready.down, ready.master, ready.slave.inFlight.value);
    Arrives(ready.up, ready.slave, ready.master.inFlight.value);
  }

  lemma LoadDelivers(s: Side)
    requires SideOk(s) && CanPrepare(s) && s.blocked != MasterBlocked
    requires |s.outbound.data| <= s.transactionSize
    ensures var r := Prepare(s, false); r.inFlight.Some? && Received(r.inFlight.value, true) == Present(s.outbound)
  {
  }

  /** When there is room for both, a transaction that the master has a reason to start delivers both packets. */
  lemma TurnDelivers(w: World)
    requires Inv(w) && Fits(w) && w.master.blocked != MasterBlocked && !Idle(w.master)
    ensures Turn(w).down.got == w.down.got + Present(w.master.outbound)
    ensures Turn(w).up.got == w.up.got + Present(w.slave.outbound)
  {
    hide FlowOk, Prepare, Received, Packets, Present;
    LoadDelivers(w.master);
    LoadDelivers(w.slave);
  }

  // ---------------------------------------------------------------- the queues empty

  /**
   * Exactly when the master goes to sleep after a transaction: when it has nothing to send next and has not been
   * woken for a second transaction, nor, if the one before was intact, has the slave.  Otherwise, and only
   * then, it can begin another.
   */
  lemma SleepsExactly(w: World, intact: bool)
    requires Inv(w) && Enabled(w, Exchange(intact))
    ensures WellSized(w.master.inFlight.value) && WellSized(w.slave.inFlight.value)
    ensures var r := Next(w, Exchange(intact));
      && (Enabled(r, Sleep) <==>
            w.master.blocked.NotBlocked? && r.master.outbound.data == [] && (intact ==> r.slave.outbound.data == []))
      && (Enabled(r, Ready(true, false)) <==> !Enabled(r, Sleep))
  {
    hide FlowOk, PacketOk, QueueOk, Settle;
  }

  lemma {:induction false} PopNextShrinks(queue: seq<Item>, outbound: Packet)
    ensures var r := PopNext(queue, outbound); |r.queue| < |queue| || (queue == [] && r == Slot([], outbound))
  {
    if queue != [] && queue[0].Signal? {
      PopNextShrinks(queue[1..], Packet(0, []));
    }
  }

  /** An end with room for its next packet sends it and takes at least one entry off its queue. */
  lemma PrepareShrinks(s: Side)
    requires SideOk(s) && CanPrepare(s) && |s.outbound.data| <= s.transactionSize
    requires s.blocked == MasterBlocked ==> Empty(s.outbound)
    ensures var r := Prepare(s, false);
      && (|r.queue| < |s.queue| || r.queue == s.queue == [])
      && (s.queue == [] || s.queue == [Signal] ==> Empty(r.outbound) && r.queue == [])
  {
    var v := Wake(s);
    hide Packets, Flying;
    if |v.outbound.data| <= v.transactionSize {
      PopNextShrinks(v.queue, Packet(v.outbound.channel, []));
    }
    if s.queue == [Signal] {
      assert PopNext([Signal], Packet(s.outbound.channel, [])) == PopNext([], Packet(0, []));
    }
  }

  /** From a state with room for both, a transaction shortens the queues, and empties an end whose queue is empty. */
  lemma TurnShrinks(w: World)
    requires Inv(w) && Fits(w)
    ensures var r := Turn(w);
      && (|r.master.queue| < |w.master.queue| || r.master.queue == w.master.queue == [])
      && (|r.slave.queue| < |w.slave.queue| || r.slave.queue == w.slave.queue == [])
      && (w.master.queue == [] ==> Pending(r.master) == [])
      && (w.slave.queue == [] ==> Pending(r.slave) == [])
  {
    hide FlowOk, Prepare, PopNext;
    RousedKeeps(w.master);
    PrepareShrinks(RousedMaster(w.master));
    PrepareShrinks(w.slave);
  }

  /** What waits only becomes less. */
  lemma LessWaits(got: seq<Packet>, pending: seq<Packet>, got': seq<Packet>, pending': seq<Packet>)
    requires got' + pending' == got + pending && |got'| >= |got|
    ensures |pending'| <= |pending|
    ensures pending' == [] ==> got' == got + pending
  {
    assert |got' + pending'| == |got + pending|;
    assert pending' == [] ==> got' + pending' == got';
  }

  lemma GotGrows(w: World)
    requires Inv(w)
    ensures |Turn(w).down.got| >= |w.down.got| && |Turn(w).up.got| >= |w.up.got|
  {
    hide FlowOk, Prepare, Received, RousedMaster;
  }

  /** An end will be drained within `n` transactions. */
  predicate Within(s: Side, n: nat) {
    Pending(s) == [] || n > |s.queue|
  }

  lemma OneLess(w: World, n: nat)
    requires Inv(w) && Fits(w) && n > 0 && Within(w.master, n) && Within(w.slave, n)
    ensures Fits(Turn(w)) && Within(Turn(w).master, n - 1) && Within(Turn(w).slave, n - 1)
  {
    hide Inv, Turn, Pending;
    var v := Turn(w);
    TurnShrinks(w);
    TurnConserves(w);
    GotGrows(w);
    LessWaits(w.down.got, Pending(w.master), v.down.got, Pending(v.master));
    LessWaits(w.up.got, Pending(w.slave), v.up.got, Pending(v.slave));
  }

  /**
   * When there is room for both ends, as many transactions as the longer queue has entries, and one more,
   * drain both.
   */
  lemma {:induction false} AgreedTurnsDrain(w: World, n: nat)
    requires Inv(w) && Fits(w) && Within(w.master, n) && Within(w.slave, n)
    ensures var r := Turns(w, n);
      && Pending(r.master) == [] && r.down.got == w.down.got + Pending(w.master)
      && Pending(r.slave) == [] && r.up.got == w.up.got + Pending(w.slave)
    decreases n
  {
    hide Inv, Fits, Turn, Pending;
    if n == 0 {
      assert Turns(w, n) == w;
      assert w.down.got + [] == w.down.got && w.up.got + [] == w.up.got;
    } else {
      OneLess(w, n);
      TurnConserves(w);
      AgreedTurnsDrain(Turn(w), n - 1);
    }
  }

  /** The first transaction, from whatever state, makes no queue longer. */
  lemma FirstTurn(w: World)
    requires Inv(w)
    ensures |Turn(w).master.queue| <= |w.master.queue| && |Turn(w).slave.queue| <= |w.slave.queue|
  {
    hide FlowOk, Prepare, Received, Packets;
    if w.master.inFlight.None? {
      RousedKeeps(w.master);
      NoLonger(w.master);
    }
    if w.slave.inFlight.None? {
      NoLongerQueue(w.slave);
    }
  }

  lemma NoLongerQueue(s: Side)
    requires SideOk(s) && CanPrepare(s)
    ensures |Prepare(s, false).queue| <= |s.queue|
    ensures s.blocked == MasterBlocked ==> |Prepare(s, false).queue| < |s.queue|
  {
    var v := Wake(s);
    PopNextShrinks(v.queue, Packet(v.outbound.channel, []));
  }

  lemma NoLonger(s: Side)
    requires SideOk(s) && s.inFlight.None? && CanPrepare(RousedMaster(s)) && SideOk(RousedMaster(s))
    ensures |Prepare(RousedMaster(s), false).queue| <= |s.queue|
  {
    hide Prepare;
    NoLongerQueue(RousedMaster(s));
  }

  /**
   * Progress from every state that a run can reach: intact transactions, two more than the longer queue
   * has entries, deliver everything that waits at either end, in order and nothing else.
   */
  lemma EverythingArrives(w: World, n: nat)
    requires Inv(w) && n >= |w.master.queue| + 2 && n >= |w.slave.queue| + 2
    ensures var r := Turns(w, n);
      && Pending(r.master) == [] && r.down.got == w.down.got + Pending(w.master)
      && Pending(r.slave) == [] && r.up.got == w.up.got + Pending(w.slave)
  {
    hide Inv, Turn, Pending;
    TurnConserves(w);
    FirstTurn(w);
    var v := Turn(w);
    assert Turns(w, n) == Turns(v, n - 1);
    AgreedTurnsDrain(v, n - 1);
  }

  // ---------------------------------------------------------------- a buffer from end to end

  function Near(w: World, atMaster: bool): Side {
    if atMaster then w.master else w.slave
  }

  function Direction(w: World, atMaster: bool): Flow {
    if atMaster then w.down else w.up
  }

  /** Queues a buffer piece by piece, the last piece being what is left. */
  function SendBuffer(w: World, atMaster: bool, channel: nat, buffer: bytes): (r: World)
    requires Inv(w) && channel <= NR_OF_CHANNELS
    ensures Inv(r)
    decreases |buffer|
  {
    var n := if |buffer| > MAX_PAYLOAD then MAX_PAYLOAD else |buffer|;
    var t := Enqueue(atMaster, Packet(channel, buffer[..n]));
    StepKeepsInv(w, t);
    if n == |buffer| then Next(w, t) else SendBuffer(Next(w, t), atMaster, channel, buffer[n..])
  }

  /** What is queued are the fragments of the buffer, and nothing else changes. */
  lemma {:induction false} AllQueued(w: World, atMaster: bool, channel: nat, buffer: bytes)
    requires Inv(w) && channel <= NR_OF_CHANNELS
    ensures var r := SendBuffer(w, atMaster, channel, buffer);
      var items := Items(channel, Fragments(buffer));
      && Near(r, atMaster) == Near(w, atMaster).(queue := Near(w, atMaster).queue + items)
      && Near(r, !atMaster) == Near(w, !atMaster)
      && r.down.got == w.down.got && r.up.got == w.up.got
    decreases |buffer|
  {
    hide Inv;
    var n := if |buffer| > MAX_PAYLOAD then MAX_PAYLOAD else |buffer|;
    var t := Enqueue(atMaster, Packet(channel, buffer[..n]));
    StepKeepsInv(w, t);
    var first := Data(Packet(channel, buffer[..n]));
    if n == |buffer| {
      assert buffer[..n] == buffer;
      assert Items(channel, Fragments(buffer)) == [first];
    } else {
      var rest := Items(channel, Fragments(buffer[n..]));
      AllQueued(Next(w, t), atMaster, channel, buffer[n..]);
      assert Items(channel, Fragments(buffer)) == [first] + rest;
      Regroup(Near(w, atMaster).queue, [first], rest);
    }
  }

  function Contents(ps: seq<Packet>): seq<bytes> {
    if ps == [] then [] else [ps[0].data] + Contents(ps[1..])
  }

  /** Put back together, what the packets of a queue carry is what was put into them. */
  lemma {:induction false} ItemsCarry(channel: nat, fs: seq<bytes>)
    ensures Flatten(Contents(Packets(Items(channel, fs)))) == Flatten(fs)
    ensures forall p :: p in Packets(Items(channel, fs)) ==> p.channel == channel
    decreases |fs|
  {
    if fs != [] {
      ItemsCarry(channel, fs[1..]);
      assert Items(channel, fs)[1..] == Items(channel, fs[1..]);
      var rest := Packets(Items(channel, fs[1..]));
      if fs[0] != [] {
        assert Packets(Items(channel, fs)) == [Packet(channel, fs[0])] + rest;
      } else {
        assert Packets(Items(channel, fs)) == rest;
      }
    }
  }

  /**
   * End to end: a buffer of any length, split into fragments and queued at either end behind whatever
   * waits there, is delivered by intact transactions in fragments that put together give the buffer.
   */
  lemma BufferArrives(w: World, atMaster: bool, channel: nat, buffer: bytes, n: nat)
    requires Inv(w) && channel <= NR_OF_CHANNELS
    requires var queued := SendBuffer(w, atMaster, channel, buffer);
      n >= |queued.master.queue| + 2 && n >= |queued.slave.queue| + 2
    ensures var r := Turns(SendBuffer(w, atMaster, channel, buffer), n);
      var before := Direction(w, atMaster).got + Pending(Near(w, atMaster));
      var got := Direction(r, atMaster).got;
      && before <= got && Flatten(Contents(got[|before|..])) == buffer
      && forall p :: p in got[|before|..] ==> p.channel == channel
  {
    var fs := Fragments(buffer);
    var queued := SendBuffer(w, atMaster, channel, buffer);
    AllQueued(w, atMaster, channel, buffer);
    EverythingArrives(queued, n);
    ItemsCarry(channel, fs);
    FragmentsRejoin(buffer);
    var (s, items) := (Near(w, atMaster), Items(channel, fs));
    PacketsAppend(s.queue, items);
    hide Inv, Turns, SendBuffer, Packets, Fragments, Flying, Present;
    var before := Direction(w, atMaster).got + Pending(s);
    Regroup(Flying(s) + Present(s.outbound), Packets(s.queue), Packets(items));
    Regroup(Direction(w, atMaster).got, Pending(s), Packets(items));
    assert Direction(Turns(queued, n), atMaster).got == before + Packets(items);
  }
}
