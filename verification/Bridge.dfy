/**
 * The bootloader's serial bridge between a PC, on USB or UART, and a slave: two ring buffers that a
 * single polling loop fills and drains without ever blocking.
 */
module Bridge {
  import opened Bytes

  const PC_RING: nat := 1024
  const SLAVE_RING: nat := 512
  const SLIP_END: byte := 0xC0

  /** The position after `i` in a ring of `n` cells. */
  function After(i: nat, n: nat): (j: nat)
    requires i < n
    ensures j < n && j == if i + 1 == n then 0 else i + 1
  {
    (i + 1) % n
  }

  /** The position before `i` in a ring of `n` cells. */
  function Before(i: nat, n: nat): (j: nat)
    requires i < n
    ensures j < n && j == if i == 0 then n - 1 else i - 1
  {
    if i == 0 then assert n - 1 < n; (i - 1 + n) % n
    else
      assert i - 1 + n == (i - 1) + 1 * n;
      BeforeWraps(i, n);
      (i - 1 + n) % n
  }

  lemma BeforeWraps(i: nat, n: nat)
    requires 0 < i < n
    ensures (i - 1 + n) % n == i - 1
  {
    assert (i - 1 + n) / n == 1;
  }

  lemma RoundAndBack(i: nat, n: nat)
    requires i < n
    ensures Before(After(i, n), n) == i
  {
  }

  /** What a ring holds between two positions of its cells. */
  function Between(cells: bytes, tail: nat, head: nat): bytes
    requires tail < |cells| && head < |cells|
  {
    if tail <= head then cells[tail..head] else cells[tail..] + cells[..head]
  }

  lemma BetweenPush(cells: bytes, tail: nat, head: nat, b: byte)
    requires tail < |cells| && head < |cells| && After(head, |cells|) != tail
    ensures Between(cells[head := b], tail, After(head, |cells|)) == Between(cells, tail, head) + [b]
  {
    hide After;
    var c := cells[head := b];
    if head + 1 == |cells| {
      assert c[tail..] == cells[tail..head] + [b];
    } else if tail <= head {
      assert c[tail..head + 1] == cells[tail..head] + [b];
    } else {
      assert c[tail..] == cells[tail..] && c[..head + 1] == cells[..head] + [b];
    }
  }

  lemma BetweenPop(cells: bytes, tail: nat, head: nat)
    requires tail < |cells| && head < |cells| && tail != head
    ensures Between(cells, tail, head) == [cells[tail]] + Between(cells, After(tail, |cells|), head)
  {
    hide After;
    if tail < head {
      assert cells[tail..head] == [cells[tail]] + cells[tail + 1..head];
    } else if tail + 1 == |cells| {
      assert cells[tail..] == [cells[tail]] && cells[0..head] == cells[..head];
    } else {
      var rest := cells[tail + 1..];
      assert cells[tail..] == [cells[tail]] + rest;
      assert [cells[tail]] + rest + cells[..head] == [cells[tail]] + (rest + cells[..head]);
    }
  }

  lemma BetweenLength(cells: bytes, tail: nat, head: nat)
    requires tail < |cells| && head < |cells| && |cells| >= 2
    ensures |Between(cells, tail, head)| < |cells|
    ensures After(head, |cells|) == tail <==> |Between(cells, tail, head)| == |cells| - 1
    ensures head == tail <==> Between(cells, tail, head) == []
  {
    hide After;
  }

  /** A ring buffer with one unused cell; it holds the bytes from `tail` to `head`. */
  class Ring {
    const cells: array<byte>
    var head: nat
    var tail: nat

    ghost predicate Valid()
      reads this
    {
      cells.Length >= 2 && head < cells.Length && tail < cells.Length
    }

    ghost function Contents(): bytes
      requires Valid()
      reads this, cells
    {
      Between(cells[..], tail, head)
    }

    constructor (size: nat)
      requires size >= 2
      ensures Valid() && fresh(cells) && cells.Length == size && Contents() == []
    {
      cells := new byte[size](_ => 0);
      head, tail := 0, 0;
    }

    method Reset()
      requires Valid()
      modifies this
      ensures Valid() && Contents() == []
    {
      head, tail := 0, 0;
    }

    method IsFull() returns (full: bool)
      requires Valid()
      ensures |Contents()| < cells.Length && (full <==> |Contents()| == cells.Length - 1)
    {
      BetweenLength(cells[..], tail, head);
      full := After(head, cells.Length) == tail;
    }

    method IsEmpty() returns (empty: bool)
      requires Valid()
      ensures empty <==> Contents() == []
    {
      BetweenLength(cells[..], tail, head);
      empty := head == tail;
    }

    method Push(b: byte)
      requires Valid() && |Contents()| < cells.Length - 1
      modifies this`head, cells
      ensures Valid() && Contents() == old(Contents()) + [b]
    {
      hide After, Between;
      BetweenLength(cells[..], tail, head);
      BetweenPush(cells[..], tail, head, b);
      cells[head] := b;
      head := After(head, cells.Length);
    }

    method Pop() returns (b: byte)
      requires Valid() && Contents() != []
      modifies this`tail
      ensures Valid() && |Contents()| < cells.Length - 1
      ensures old(Contents()) == [b] + Contents()
      ensures tail == After(old(tail), cells.Length) && b == cells[old(tail)]
    {
      hide After, Between;
      BetweenLength(cells[..], tail, head);
      BetweenPop(cells[..], tail, head);
      b := cells[tail];
      tail := After(tail, cells.Length);
    }

    /** Steps the tail back; the byte in the cell before it becomes the first one again. */
    method Unpop()
      requires Valid() && |Contents()| < cells.Length - 1
      modifies this`tail
      ensures Valid() && tail == Before(old(tail), cells.Length)
      ensures Contents() == [cells[tail]] + old(Contents())
    {
      hide After, Between;
      BetweenLength(cells[..], tail, head);
      BetweenPop(cells[..], Before(tail, cells.Length), head);
      tail := Before(tail, cells.Length);
    }
  }

  // ---------------------------------------------------------------- the bridge

  /** One more byte taken from what is available. */
  lemma Longer(available: bytes, n: nat, before: bytes)
    requires n < |available|
    ensures before + available[..n + 1] == before + available[..n] + [available[n]]
    ensures forall b :: b in available[..n + 1] <==> b in available[..n] || b == available[n]
  {
    assert available[..n + 1] == available[..n] + [available[n]];
  }

  datatype Source = NoSource | Uart | Usb

  /** What the outside does during one pass: bytes that can be read, and room for bytes to be written. */
  datatype Pass = Pass(usb: bytes, uart: bytes, slave: bytes, slaveRoom: nat, usbRoom: nat)

  /** The source after `usb` bytes have been read from USB and then `uart` bytes from UART: the first byte decides. */
  function LatchedBy(source: Source, usb: nat, uart: nat): Source {
    if source != NoSource then source else if usb > 0 then Usb else if uart > 0 then Uart else NoSource
  }

  /** How many of the bytes on offer one pass has read. */
  datatype Taken = Taken(usb: nat, uart: nat, slave: nat)

  function Min(a: nat, b: nat): nat {
    if a < b then a else b
  }

  class Link {
    const pcRing: Ring
    const slaveRing: Ring
    var source: Source
    var flashing: bool
    /**
     * Everything read from the PC and written to the slave; everything read from the slave once a source
     * is known, and sent to the PC.
     */
    ghost var fromPc: bytes
    ghost var toSlave: bytes
    ghost var fromSlave: bytes
    ghost var toPc: bytes

    ghost predicate Rings()
      reads this, pcRing, slaveRing
    {
      && pcRing != slaveRing && pcRing.cells != slaveRing.cells
      && pcRing.Valid() && pcRing.cells.Length == PC_RING
      && slaveRing.Valid() && slaveRing.cells.Length == SLAVE_RING
    }

    ghost function Footprint(): set<object> {
      {this, pcRing, slaveRing, pcRing.cells, slaveRing.cells}
    }

    /** Nothing is lost, added or reordered in either direction. */
    ghost predicate Valid()
      reads this, pcRing, slaveRing, pcRing.cells, slaveRing.cells
    {
      && Rings()
      && fromPc == toSlave + pcRing.Contents()
      && fromSlave == toPc + slaveRing.Contents()
      && (source == NoSource ==> fromSlave == [])
    }

    constructor ()
      ensures Valid() && fresh(Footprint())
      ensures source == NoSource && fromPc == toSlave == fromSlave == toPc == []
    {
      pcRing := new Ring(PC_RING);
      slaveRing := new Ring(SLAVE_RING);
      source, flashing := NoSource, false;
      fromPc, toSlave, fromSlave, toPc := [], [], [], [];
    }

    /** Reads from one side of the PC until nothing is there or the ring is full; the first byte latches it. */
    method ReadPc(available: bytes, side: Source) returns (taken: nat)
      requires Valid() && side != NoSource
      modifies this`source, this`flashing, this`fromPc, pcRing`head, pcRing.cells
      ensures Valid() && taken <= |available|
      ensures taken < |available| ==> |pcRing.Contents()| == PC_RING - 1
      ensures fromPc == old(fromPc) + available[..taken]
      ensures source == if old(source) == NoSource && taken > 0 then side else old(source)
      ensures flashing <==> old(flashing) || SLIP_END in available[..taken]
    {
      hide Between, After, Before, Ring.Contents;
      taken := 0;
      while taken < |available|
        invariant Valid() && taken <= |available|
        invariant fromPc == old(fromPc) + available[..taken]
        invariant source == if old(source) == NoSource && taken > 0 then side else old(source)
        invariant flashing <==> old(flashing) || SLIP_END in available[..taken]
      {
        var full := pcRing.IsFull();
        if full {
          break;
        }
        var b := available[taken];
        if source == NoSource {
          source := side;
        }
        if b == SLIP_END {
          flashing := true;
        }
        ghost var contents := pcRing.Contents();
        pcRing.Push(b);
        assert toSlave + (contents + [b]) == fromPc + [b];
        Longer(available, taken, old(fromPc));
        fromPc := fromPc + [b];
        taken := taken + 1;
      }
    }

    /** Moves bytes to the slave's transmit FIFO while it has room. */
    method WriteSlave(room: nat) returns (sent: bytes)
      requires Valid()
      modifies this`toSlave, pcRing`tail
      ensures Valid() && toSlave == old(toSlave) + sent && |sent| <= room
      ensures |sent| < room ==> pcRing.Contents() == []
    {
      hide Between, After, Before;
      sent := [];
      var space := room;
      while space > 0
        invariant Valid() && toSlave == old(toSlave) + sent && |sent| + space == room
      {
        var empty := pcRing.IsEmpty();
        if empty {
          break;
        }
        var b := pcRing.Pop();
        assert toSlave + ([b] + pcRing.Contents()) == toSlave + [b] + pcRing.Contents();
        toSlave := toSlave + [b];
        sent := sent + [b];
        space := space - 1;
      }
    }

    /** Reads what the slave sends: thrown away until a source is known, then as much as fits. */
    method ReadSlave(available: bytes) returns (taken: nat)
      requires Valid()
      modifies this`fromSlave, slaveRing`head, slaveRing.cells
      ensures Valid() && taken <= |available|
      ensures source == NoSource ==> taken == |available| && fromSlave == old(fromSlave)
      ensures source != NoSource ==> fromSlave == old(fromSlave) + available[..taken]
      ensures taken < |available| ==> |slaveRing.Contents()| == SLAVE_RING - 1
    {
      hide Between, After, Before, Ring.Contents;
      if source == NoSource {
        return |available|;
      }
      taken := 0;
      while taken < |available|
        invariant Valid() && taken <= |available|
        invariant fromSlave == old(fromSlave) + available[..taken]
      {
        var full := slaveRing.IsFull();
        if full {
          break;
        }
        ghost var contents := slaveRing.Contents();
        var b := available[taken];
        slaveRing.Push(b);
        assert toPc + (contents + [b]) == fromSlave + [b];
        Longer(available, taken, old(fromSlave));
        fromSlave := fromSlave + [b];
        taken := taken + 1;
      }
    }

    /** Moves bytes to the PC; on USB, a byte popped when the FIFO turns out to be full is put back. */
    method WritePc(room: nat) returns (sent: bytes)
      requires Valid()
      modifies this`toPc, slaveRing`tail
      ensures Valid() && toPc == old(toPc) + sent
      ensures if source == Usb then |sent| <= room && (|sent| < room ==> slaveRing.Contents() == [])
              else slaveRing.Contents() == []
    {
      hide Between, After, Before;
      sent := [];
      while true
        invariant Valid() && toPc == old(toPc) + sent
        invariant source == Usb ==> |sent| <= room
        decreases |slaveRing.Contents()|
      {
        var empty := slaveRing.IsEmpty();
        if empty {
          break;
        }
        ghost var whole := slaveRing.Contents();
        RoundAndBack(slaveRing.tail, SLAVE_RING);
        var b := slaveRing.Pop();
        if source == Usb && |sent| == room {
          slaveRing.Unpop();
          assert slaveRing.Contents() == whole;
          break;
        }
        assert toPc + ([b] + slaveRing.Contents()) == toPc + [b] + slaveRing.Contents();
        toPc := toPc + [b];
        sent := sent + [b];
      }
    }

    /** The half of a pass that goes to the slave: read from USB, then from UART unless USB is latched, then write. */
    method PassToSlave(p: Pass) returns (usb: nat, uart: nat, sent: bytes)
      requires Valid()
      modifies this`source, this`flashing, this`fromPc, this`toSlave, pcRing`head, pcRing`tail, pcRing.cells
      ensures Valid() && usb <= |p.usb| && uart <= |p.uart|
      ensures source == LatchedBy(old(source), usb, uart)
      ensures fromPc == old(fromPc) + p.usb[..usb] + p.uart[..uart] && toSlave == old(toSlave) + sent
      ensures var held := |old(pcRing.Contents())| + usb;
        && (usb < |p.usb| ==> held == PC_RING - 1)
        && (uart < |p.uart| ==> source == Usb || held + uart == PC_RING - 1)
        && (source == Usb ==> uart == 0)
        && |sent| == Min(p.slaveRoom, held + uart)
    {
      hide Between, After, Before, Ring.Contents;
      ghost var held := |pcRing.Contents()|;
      usb := ReadPc(p.usb, Usb);
      assert |pcRing.Contents()| == held + usb;
      uart := 0;
      if source == NoSource || source == Uart {
        uart := ReadPc(p.uart, Uart);
      }
      assert |pcRing.Contents()| == held + usb + uart;
      sent := WriteSlave(p.slaveRoom);
    }

    /** The half of a pass that comes from the slave. */
    method PassToPc(p: Pass) returns (taken: nat, sent: bytes)
      requires Valid()
      modifies this`fromSlave, this`toPc, slaveRing`head, slaveRing`tail, slaveRing.cells
      ensures Valid() && taken <= |p.slave|
      ensures fromSlave == old(fromSlave) + (if source == NoSource then [] else p.slave[..taken])
      ensures toPc == old(toPc) + sent
      ensures var held := |old(slaveRing.Contents())| + if source == NoSource then 0 else taken;
        && (taken < |p.slave| ==> source != NoSource && held == SLAVE_RING - 1)
        && |sent| == if source == Usb then Min(p.usbRoom, held) else held
    {
      hide Between, After, Before, Ring.Contents;
      ghost var held := |slaveRing.Contents()|;
      taken := ReadSlave(p.slave);
      assert |slaveRing.Contents()| == held + if source == NoSource then 0 else taken;
      sent := WritePc(p.usbRoom);
    }

    /**
     * One pass of the polling loop: what it takes is the first part of what is offered, as much as the
     * rings have room for; what it passes on is as much as there is room for outside.  Every byte is
     * kept, in order, and a source once latched stays.
     */
    method RunPass(p: Pass) returns (activity: bool, ghost taken: Taken)
      requires Valid()
      modifies Footprint()
      ensures Valid() && taken.usb <= |p.usb| && taken.uart <= |p.uart| && taken.slave <= |p.slave|
      ensures source == LatchedBy(old(source), taken.usb, taken.uart)
      ensures fromPc == old(fromPc) + p.usb[..taken.usb] + p.uart[..taken.uart]
      ensures var held := |old(pcRing.Contents())| + taken.usb;
        && (taken.usb < |p.usb| ==> held == PC_RING - 1)
        && (taken.uart < |p.uart| ==> source == Usb || held + taken.uart == PC_RING - 1)
        && (source == Usb ==> taken.uart == 0)
        && |toSlave| == |old(toSlave)| + Min(p.slaveRoom, held + taken.uart)
      ensures fromSlave == old(fromSlave) + (if source == NoSource then [] else p.slave[..taken.slave])
      ensures var held := |old(slaveRing.Contents())| + if source == NoSource then 0 else taken.slave;
        && (taken.slave < |p.slave| ==> source != NoSource && held == SLAVE_RING - 1)
        && |toPc| == |old(toPc)| + if source == Usb then Min(p.usbRoom, held) else held
      ensures old(toSlave) <= toSlave && old(toPc) <= toPc
      ensures activity <==> |fromPc| + |toSlave| + |fromSlave| > |old(fromPc)| + |old(toSlave)| + |old(fromSlave)|
    {
      hide Between, After, Before, Ring.Contents;
      var usb, uart, down := PassToSlave(p);
      var discarding := source == NoSource;
      var x, up := PassToPc(p);
      activity := usb > 0 || uart > 0 || down != [] || (!discarding && x > 0);
      taken := Taken(usb, uart, x);
    }
  }
}
