/**
 * Line-ending translation between files and a USB serial port: writing turns newlines into what the
 * other side expects, reading turns them back, one line at most per call.
 */
module UsbVfs {
  import opened Bytes

  const LINE_FEED: byte := 0x0A
  const CARRIAGE_RETURN: byte := 0x0D

  datatype LineEnding = CRLF | CR | LF

  // ---------------------------------------------------------------- translation, as functions

  function EncodeByte(mode: LineEnding, c: byte): bytes {
    if c != LINE_FEED then [c]
    else match mode
      case CRLF => [CARRIAGE_RETURN, LINE_FEED]
      case CR => [CARRIAGE_RETURN]
      case LF => [LINE_FEED]
  }

  function Encode(mode: LineEnding, data: bytes): bytes {
    if data == [] then [] else EncodeByte(mode, data[0]) + Encode(mode, data[1..])
  }

  /** How many bytes at the front of a non-empty FIFO make one byte for the reader, and which. */
  datatype Step = Step(c: byte, used: nat)

  function DecodeStep(mode: LineEnding, fifo: bytes): (s: Step)
    requires fifo != []
    ensures 1 <= s.used <= 2 && s.used <= |fifo|
  {
    var c := fifo[0];
    if c != CARRIAGE_RETURN then Step(c, 1)
    else match mode
      case CR => Step(LINE_FEED, 1)
      case CRLF => if |fifo| > 1 && fifo[1] == LINE_FEED then Step(LINE_FEED, 2) else Step(c, 1)
      case LF => Step(c, 1)
  }

  /** What the reader gets out of a FIFO in the end. */
  function Decode(mode: LineEnding, fifo: bytes): bytes {
    if fifo == [] then []
    else
      var s := DecodeStep(mode, fifo);
      [s.c] + Decode(mode, fifo[s.used..])
  }

  datatype Taken = Taken(out: bytes, rest: bytes)

  /** One read call: at most `size` bytes, and nothing after a newline. */
  function ReadOnce(mode: LineEnding, fifo: bytes, size: nat): Taken
    decreases size
  {
    if size == 0 || fifo == [] then Taken([], fifo)
    else
      var s := DecodeStep(mode, fifo);
      var rest := fifo[s.used..];
      if s.c == LINE_FEED then Taken([s.c], rest)
      else
        var t := ReadOnce(mode, rest, size - 1);
        t.(out := [s.c] + t.out)
  }

  /** Read calls with the given buffer sizes, one after another. */
  function ReadMany(mode: LineEnding, fifo: bytes, sizes: seq<nat>): Taken
    decreases |sizes|
  {
    if sizes == [] then Taken([], fifo)
    else
      var t := ReadOnce(mode, fifo, sizes[0]);
      var u := ReadMany(mode, t.rest, sizes[1..]);
      u.(out := t.out + u.out)
  }

  // ---------------------------------------------------------------- round trip

  /** Splitting the reading into calls changes nothing, and a call with room makes progress. */
  lemma {:induction false} ReadOnceSplits(mode: LineEnding, fifo: bytes, size: nat)
    ensures var t := ReadOnce(mode, fifo, size);
      && Decode(mode, fifo) == t.out + Decode(mode, t.rest)
      && |t.out| <= size && |t.out| + |t.rest| <= |fifo|
      && (size > 0 && fifo != [] ==> t.out != [])
    decreases size
  {
    hide DecodeStep;
    if size > 0 && fifo != [] {
      var s := DecodeStep(mode, fifo);
      if s.c != LINE_FEED {
        ReadOnceSplits(mode, fifo[s.used..], size - 1);
        var t := ReadOnce(mode, fifo[s.used..], size - 1);
        assert [s.c] + (t.out + Decode(mode, t.rest)) == [s.c] + t.out + Decode(mode, t.rest);
      }
    }
  }

  lemma {:induction false} ReadManySplits(mode: LineEnding, fifo: bytes, sizes: seq<nat>)
    ensures var t := ReadMany(mode, fifo, sizes); Decode(mode, fifo) == t.out + Decode(mode, t.rest)
    ensures (forall i :: 0 <= i < |sizes| ==> sizes[i] > 0) && |sizes| >= |fifo| ==>
              ReadMany(mode, fifo, sizes).rest == []
    decreases |sizes|
  {
    hide Decode, DecodeStep, ReadOnce;
    if sizes != [] {
      ReadOnceSplits(mode, fifo, sizes[0]);
      ReadManySplits(mode, ReadOnce(mode, fifo, sizes[0]).rest, sizes[1..]);
    }
  }

  /**
   * Where a call stops: at the first newline, which is the last byte it delivers, or when the size is reached,
   * or when the FIFO is empty.
   */
  lemma {:induction false} ReadOnceStops(mode: LineEnding, fifo: bytes, size: nat)
    ensures var t := ReadOnce(mode, fifo, size);
      && (forall i :: 0 <= i < |t.out| - 1 ==> t.out[i] != LINE_FEED)
      && (|t.out| == size || t.rest == [] || (t.out != [] && t.out[|t.out| - 1] == LINE_FEED))
    decreases size
  {
    hide DecodeStep;
    if size > 0 && fifo != [] {
      var s := DecodeStep(mode, fifo);
      if s.c != LINE_FEED {
        ReadOnceStops(mode, fifo[s.used..], size - 1);
      }
    }
  }

  // ---------------------------------------------------------------- lines

  /** Lines, each with an ending behind it. */
  function Lines(ls: seq<bytes>, ending: bytes): bytes {
    if ls == [] then [] else ls[0] + ending + Lines(ls[1..], ending)
  }

  function Ending(mode: LineEnding): bytes {
    match mode
    case CRLF => [13, 10]
    case CR => [13]
    case LF => [10]
  }

  lemma {:induction false} EncodeAppend(mode: LineEnding, a: bytes, b: bytes)
    ensures Encode(mode, a + b) == Encode(mode, a) + Encode(mode, b)
  {
    hide EncodeByte;
    if a == [] {
      assert a + b == b;
    } else {
      EncodeAppend(mode, a[1..], b);
      assert (a + b)[0] == a[0] && (a + b)[1..] == a[1..] + b;
      Regroup(EncodeByte(mode, a[0]), Encode(mode, a[1..]), Encode(mode, b));
    }
  }

  lemma {:induction false} NoNewlineStays(mode: LineEnding, a: bytes)
    requires LINE_FEED !in a
    ensures Encode(mode, a) == a
  {
    if a != [] {
      NoNewlineStays(mode, a[1..]);
    }
  }

  /** Writing lines puts the ending of the mode behind each. */
  lemma {:induction false} LinesWritten(mode: LineEnding, ls: seq<bytes>)
    requires forall i :: 0 <= i < |ls| ==> LINE_FEED !in ls[i]
    ensures Encode(mode, Lines(ls, [LINE_FEED])) == Lines(ls, Ending(mode))
    decreases |ls|
  {
    if ls != [] {
      LinesWritten(mode, ls[1..]);
      var rest := Lines(ls[1..], [LINE_FEED]);
      EncodeAppend(mode, ls[0] + [LINE_FEED], rest);
      EncodeAppend(mode, ls[0], [LINE_FEED]);
      NoNewlineStays(mode, ls[0]);
      NewlineEncoded(mode);
    }
  }

  lemma NewlineEncoded(mode: LineEnding)
    ensures Encode(mode, [LINE_FEED]) == Ending(mode)
  {
    assert [LINE_FEED][1..] == [];
  }

  lemma {:induction false} DecodeLine(mode: LineEnding, a: bytes, rest: bytes)
    requires LINE_FEED !in a && CARRIAGE_RETURN !in a
    ensures Decode(mode, a + rest) == a + Decode(mode, rest)
  {
    if a == [] {
      assert a + rest == rest;
    } else {
      assert (a + rest)[0] == a[0] && (a + rest)[1..] == a[1..] + rest;
      DecodeLine(mode, a[1..], rest);
    }
  }

  lemma DecodeEnding(mode: LineEnding, rest: bytes)
    ensures Decode(mode, Ending(mode) + rest) == [LINE_FEED] + Decode(mode, rest)
  {
    hide Decode;
    var s := Ending(mode) + rest;
    assert s[|Ending(mode)|..] == rest;
    DecodeUnfold(mode, s);
  }

  /** Reading lines that have the ending of the mode gives them with newlines. */
  lemma {:induction false} LinesRead(mode: LineEnding, ls: seq<bytes>)
    requires forall i :: 0 <= i < |ls| ==> LINE_FEED !in ls[i] && CARRIAGE_RETURN !in ls[i]
    ensures Decode(mode, Lines(ls, Ending(mode))) == Lines(ls, [LINE_FEED])
    decreases |ls|
  {
    hide Ending, Decode;
    if ls == [] {
      NothingToDecode(mode);
    } else {
      var rest := Lines(ls[1..], Ending(mode));
      Regroup(ls[0], Ending(mode), rest);
      DecodeLine(mode, ls[0], Ending(mode) + rest);
      DecodeEnding(mode, rest);
      LinesRead(mode, ls[1..]);
      Regroup(ls[0], [LINE_FEED], Lines(ls[1..], [LINE_FEED]));
    }
  }

  predicate HasReturn(data: bytes) {
    exists i :: 0 <= i < |data| && data[i] == CARRIAGE_RETURN
  }

  /** Where the translation can be undone: always, except for a carriage return in CR mode. */
  predicate Reversible(mode: LineEnding, data: bytes) {
    mode.CR? ==> !HasReturn(data)
  }

  /** Reading back what was written gives the data if and only if the translation can be undone. */
  lemma {:induction false} RoundTrip(mode: LineEnding, data: bytes)
    ensures Decode(mode, Encode(mode, data)) == data <==> Reversible(mode, data)
  {
    if data != [] {
      RoundTrip(mode, data[1..]);
      DecodeFirst(mode, data);
      assert data == [data[0]] + data[1..];
      assert HasReturn(data) <==> data[0] == CARRIAGE_RETURN || HasReturn(data[1..]) by {
        assert forall i :: 0 <= i < |data[1..]| ==> data[1..][i] == data[i + 1];
        assert forall i :: 1 <= i < |data| ==> data[i] == data[1..][i - 1];
      }
    }
  }

  /** The first encoded byte decodes on its own, whatever follows it. */
  lemma DecodeFirst(mode: LineEnding, data: bytes)
    requires data != []
    ensures var c := if mode.CR? && data[0] == CARRIAGE_RETURN then LINE_FEED else data[0];
      Decode(mode, Encode(mode, data)) == [c] + Decode(mode, Encode(mode, data[1..]))
  {
    hide Decode;
    var rest := Encode(mode, data[1..]);
    var e := EncodeByte(mode, data[0]);
    assert (e + rest)[|e|..] == rest;
    FirstNotFeed(mode, data[1..]);
    DecodeUnfold(mode, e + rest);
  }

  lemma DecodeUnfold(mode: LineEnding, fifo: bytes)
    requires fifo != []
    ensures Decode(mode, fifo) == [DecodeStep(mode, fifo).c] + Decode(mode, fifo[DecodeStep(mode, fifo).used..])
  {
  }

  /** In CRLF mode an encoding never begins with a bare line feed. */
  lemma FirstNotFeed(mode: LineEnding, data: bytes)
    ensures mode.CRLF? && Encode(mode, data) != [] ==> Encode(mode, data)[0] != LINE_FEED
  {
  }

  /** Any data written and then read with enough calls of any sizes comes back whole. */
  lemma WrittenThenRead(mode: LineEnding, data: bytes, sizes: seq<nat>)
    requires Reversible(mode, data)
    requires (forall i :: 0 <= i < |sizes| ==> sizes[i] > 0) && |sizes| >= |Encode(mode, data)|
    ensures ReadMany(mode, Encode(mode, data), sizes) == Taken(data, [])
  {
    RoundTrip(mode, data);
    ReadManySplits(mode, Encode(mode, data), sizes);
  }

  /** A line ending is cut in two: its first half has arrived, its second half has not. */
  predicate CutInTwo(mode: LineEnding, a: bytes, b: bytes) {
    mode.CRLF? && a != [] && a[|a| - 1] == CARRIAGE_RETURN && b != [] && b[0] == LINE_FEED
  }

  /** Reading a part before the rest has arrived matters exactly when a line ending is cut in two. */
  lemma {:induction false} EarlyRead(mode: LineEnding, a: bytes, b: bytes)
    ensures Decode(mode, a) + Decode(mode, b) == Decode(mode, a + b) <==> !CutInTwo(mode, a, b)
    decreases |a|
  {
    hide DecodeStep, Decode;
    if a == [] {
      assert Decode(mode, []) == [] by { NothingToDecode(mode); }
      assert a + b == b;
    } else if a == [CARRIAGE_RETURN] && CutInTwo(mode, a, b) {
      CutEnding(a, b);
    } else {
      var s := DecodeStep(mode, a);
      StepBeforeRest(mode, a, b);
      EarlyRead(mode, a[s.used..], b);
      DecodeUnfold(mode, a);
      DecodeUnfold(mode, a + b);
      SameTail([s.c], Decode(mode, a[s.used..]) + Decode(mode, b), Decode(mode, a[s.used..] + b));
      assert [s.c] + (Decode(mode, a[s.used..]) + Decode(mode, b)) == Decode(mode, a) + Decode(mode, b);
    }
  }

  lemma NothingToDecode(mode: LineEnding)
    ensures Decode(mode, []) == []
  {
  }

  lemma StepBeforeRest(mode: LineEnding, a: bytes, b: bytes)
    requires a != [] && !(a == [CARRIAGE_RETURN] && CutInTwo(mode, a, b))
    ensures var s := DecodeStep(mode, a);
      && DecodeStep(mode, a + b) == s
      && (a + b)[s.used..] == a[s.used..] + b
      && CutInTwo(mode, a[s.used..], b) == CutInTwo(mode, a, b)
  {
    var s := DecodeStep(mode, a);
    assert (a + b)[0] == a[0] && (|a| > 1 ==> (a + b)[1] == a[1]);
    if a[s.used..] != [] {
      assert a[s.used..][|a[s.used..]| - 1] == a[|a| - 1];
    }
  }

  lemma SameTail(h: bytes, s: bytes, t: bytes)
    ensures h + s == h + t <==> s == t
  {
    if h + s == h + t {
      assert s == (h + s)[|h|..] && t == (h + t)[|h|..];
    }
  }

  lemma CutEnding(a: bytes, b: bytes)
    requires a == [CARRIAGE_RETURN] && b != [] && b[0] == LINE_FEED
    ensures Decode(CRLF, a) + Decode(CRLF, b) != Decode(CRLF, a + b)
  {
    assert Decode(CRLF, a) == [CARRIAGE_RETURN] by { assert a[1..] == []; }
    assert (a + b)[1] == b[0];
    assert Decode(CRLF, a + b)[0] == LINE_FEED;
  }

  // ---------------------------------------------------------------- the file operations, as the source runs them

  class Port {
    const txMode: LineEnding
    const rxMode: LineEnding
    const capacity: nat
    var txFifo: bytes
    var rxFifo: bytes

    constructor (txMode: LineEnding, rxMode: LineEnding, capacity: nat)
      ensures txFifo == [] && rxFifo == []
      ensures this.txMode == txMode && this.rxMode == rxMode && this.capacity == capacity
    {
      this.txMode, this.rxMode, this.capacity := txMode, rxMode, capacity;
      txFifo, rxFifo := [], [];
    }

    method QueueChar(c: byte) returns (queued: bool)
      requires |txFifo| <= capacity
      modifies this`txFifo
      ensures |txFifo| <= capacity && queued == (old(|txFifo|) < capacity)
      ensures txFifo == if queued then old(txFifo) + [c] else old(txFifo)
    {
      if |txFifo| == capacity {
        return false;
      }
      txFifo := txFifo + [c];
      return true;
    }

    /** Queues what one byte is translated to; of a line ending of two bytes, perhaps only the first. */
    method QueueByte(c: byte) returns (ok: bool)
      requires |txFifo| <= capacity
      modifies this`txFifo
      ensures |txFifo| <= capacity
      ensures ok ==> txFifo == old(txFifo) + EncodeByte(txMode, c)
      ensures !ok ==> |txFifo| == capacity
      ensures !ok && txFifo != old(txFifo) ==>
        c == LINE_FEED && txMode.CRLF? && txFifo == old(txFifo) + [CARRIAGE_RETURN]
    {
      if c != LINE_FEED {
        ok := QueueChar(c);
        return;
      }
      if txMode == CRLF || txMode == CR {
        ok := QueueChar(CARRIAGE_RETURN);
        if !ok {
          return;
        }
      }
      ok := true;
      if txMode == CRLF || txMode == LF {
        ok := QueueChar(LINE_FEED);
      }
    }

    /**
     * Queues data until the FIFO is full; the count is that of the bytes wholly queued, although the
     * first half of one more line ending may have gone out.
     */
    method Write(data: bytes) returns (written: nat)
      requires |txFifo| <= capacity
      modifies this`txFifo
      ensures |txFifo| <= capacity && written <= |data|
      ensures written < |data| ==> |txFifo| == capacity
      ensures txFifo == old(txFifo) + Encode(txMode, data[..written]) ||
        (written < |data| && data[written] == LINE_FEED && txMode.CRLF? &&
         txFifo == old(txFifo) + Encode(txMode, data[..written]) + [CARRIAGE_RETURN])
    {
      hide Encode, EncodeByte;
      written := 0;
      assert Encode(txMode, data[..0]) == [] by {
        NothingToEncode(txMode);
      }
      for i := 0 to |data|
        invariant written == i && |txFifo| <= capacity
        invariant txFifo == old(txFifo) + Encode(txMode, data[..i])
      {
        assert data[..i + 1] == data[..i] + [data[i]];
        EncodeSnoc(txMode, data[..i], data[i]);
        Regroup(old(txFifo), Encode(txMode, data[..i]), EncodeByte(txMode, data[i]));
        var ok := QueueByte(data[i]);
        if !ok {
          break;
        }
        written := written + 1;
      }
      assert data[..|data|] == data;
    }

    /** Reads up to `size` bytes, stopping after a newline; nothing available is reported as such. */
    method Read(size: nat) returns (out: Option<bytes>)
      modifies this`rxFifo
      ensures var t := ReadOnce(rxMode, old(rxFifo), size);
        rxFifo == t.rest && out == if t.out == [] then None else Some(t.out)
    {
      hide ReadOnce, DecodeStep;
      var received: bytes := [];
      ghost var fifo := rxFifo;
      while |received| < size && rxFifo != []
        invariant |received| <= size
        invariant ReadOnce(rxMode, fifo, size) == Prepend(received, ReadOnce(rxMode, rxFifo, size - |received|))
      {
        ReadOnceUnfold(rxMode, rxFifo, size - |received|);
        var c := TakeChar();
        received := received + [c];
        if c == LINE_FEED {
          return Some(received);
        }
      }
      ReadOnceDone(rxMode, rxFifo, size - |received|);
      assert received + [] == received;
      return if received == [] then None else Some(received);
    }

    /** Takes one character off the FIFO, two when they are one line ending. */
    method TakeChar() returns (c: byte)
      requires rxFifo != []
      modifies this`rxFifo
      ensures var s := DecodeStep(rxMode, old(rxFifo)); c == s.c && rxFifo == old(rxFifo)[s.used..]
    {
      c := rxFifo[0];
      rxFifo := rxFifo[1..];
      if rxMode == CR {
        if c == CARRIAGE_RETURN {
          c := LINE_FEED;
        }
      } else if rxMode == CRLF {
        if c == CARRIAGE_RETURN && rxFifo != [] && rxFifo[0] == LINE_FEED {
          c := LINE_FEED;
          rxFifo := rxFifo[1..];
        }
      }
    }
  }

  function Prepend(out: bytes, t: Taken): Taken {
    Taken(out + t.out, t.rest)
  }

  lemma ReadOnceUnfold(mode: LineEnding, fifo: bytes, size: nat)
    requires size > 0 && fifo != []
    ensures var s := DecodeStep(mode, fifo);
      var rest := fifo[s.used..];
      ReadOnce(mode, fifo, size) ==
        if s.c == LINE_FEED then Taken([s.c], rest) else Prepend([s.c], ReadOnce(mode, rest, size - 1))
  {
  }

  lemma ReadOnceDone(mode: LineEnding, fifo: bytes, size: nat)
    requires size == 0 || fifo == []
    ensures ReadOnce(mode, fifo, size) == Taken([], fifo)
  {
  }

  lemma NothingToEncode(mode: LineEnding)
    ensures Encode(mode, []) == []
  {
  }

  lemma EncodeSnoc(mode: LineEnding, data: bytes, c: byte)
    ensures Encode(mode, data + [c]) == Encode(mode, data) + EncodeByte(mode, c)
  {
    assert Encode(mode, [c]) == EncodeByte(mode, c) + Encode(mode, []);
    hide EncodeByte;
    EncodeAppend(mode, data, [c]);
  }
}
