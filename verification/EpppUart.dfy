/**
 * The UART transport of the EPPP link: a framing encoder and a streaming frame parser that works in
 * place on a fixed buffer.
 *
 * `Frames` and `Residue` are the reference: a byte-by-byte scanner of a whole stream.  `Loop` is the
 * source's parsing loop on the unread bytes, with its jumps to the next magic byte, its discards and
 * its buffer positions.  `Receiver` is the loop itself, on the static array.
 */
module EpppUart {
  import opened Bytes

  const MAX_PAYLOAD: nat := 1500
  const HEADER_MAGIC: byte := 0x7E
  /** The constant that sizes the buffers; the packed header is one byte longer. */
  const HEADER_SIZE: nat := 4
  const HEADER_BYTES: nat := 5
  const UART_BUF_SIZE: nat := MAX_PAYLOAD + HEADER_SIZE
  const IN_BUF_SIZE: nat := 2 * UART_BUF_SIZE

  datatype Frame = Frame(channel: byte, payload: bytes)

  // ---------------------------------------------------------------- wire format

  function CheckOf(size: nat): byte
    requires size < 0x1_0000
  {
    Xor(size % 256, size / 256)
  }

  function Encode(f: Frame): bytes
    requires |f.payload| < 0x1_0000
  {
    var n := |f.payload|;
    [HEADER_MAGIC, f.channel, CheckOf(n), n % 256, n / 256] + f.payload
  }

  function EncodeAll(fs: seq<Frame>): bytes
    requires forall f :: f in fs ==> |f.payload| <= MAX_PAYLOAD
  {
    if fs == [] then [] else Encode(fs[0]) + EncodeAll(fs[1..])
  }

  /** The size field of a header, little endian. */
  function SizeOf(s: bytes): nat
    requires |s| >= HEADER_BYTES
  {
    s[3] as int + 256 * (s[4] as int)
  }

  predicate HeaderOk(s: bytes)
    requires |s| >= HEADER_BYTES
  {
    && s[0] == HEADER_MAGIC
    && s[2] == CheckOf(SizeOf(s))
    && SizeOf(s) <= MAX_PAYLOAD
  }

  /** What the first bytes of a stream allow: wait for more, give up one byte, or take a frame. */
  datatype Verdict = Wait | Skip | Take(n: nat)

  function Judge(s: bytes): (v: Verdict)
    ensures |s| < HEADER_BYTES ==> v == Wait
    ensures v.Take? ==> HEADER_BYTES <= v.n <= |s|
  {
    if |s| < HEADER_BYTES then Wait
    else if !HeaderOk(s) then Skip
    else if |s| < HEADER_BYTES + SizeOf(s) then Wait
    else Take(HEADER_BYTES + SizeOf(s))
  }

  function FrameOf(s: bytes, n: nat): Frame
    requires HEADER_BYTES <= n <= |s|
  {
    Frame(s[1], s[HEADER_BYTES..n])
  }

  // ---------------------------------------------------------------- reference scanner

  /** The frames of a byte stream: wherever no acceptable header starts, try one byte further. */
  function Frames(s: bytes): seq<Frame> {
    match Judge(s)
    case Wait => []
    case Skip => Frames(s[1..])
    case Take(n) => [FrameOf(s, n)] + Frames(s[n..])
  }

  /** What the scanner has not decided yet at the end of the stream. */
  function Residue(s: bytes): bytes {
    match Judge(s)
    case Wait => s
    case Skip => Residue(s[1..])
    case Take(n) => Residue(s[n..])
  }

  /** Bytes before the first magic byte can never be part of a frame. */
  function Settle(s: bytes): (r: bytes)
    ensures |r| <= |s|
  {
    if s == [] || s[0] == HEADER_MAGIC then s else Settle(s[1..])
  }

  /** A decision once taken does not depend on what follows. */
  lemma JudgePrefix(a: bytes, b: bytes)
    requires Judge(a) != Wait
    ensures Judge(a + b) == Judge(a)
  {
    hide CheckOf;
    var s := a + b;
    assert s[0] == a[0] && s[2] == a[2] && s[3] == a[3] && s[4] == a[4];
    assert SizeOf(s) == SizeOf(a);
  }

  lemma {:induction false} FramesAppend(a: bytes, b: bytes)
    ensures Frames(a + b) == Frames(a) + Frames(Residue(a) + b)
    ensures Residue(a + b) == Residue(Residue(a) + b)
    decreases |a|
  {
    hide Judge;
    match Judge(a)
    case Wait =>
    case Skip =>
      JudgePrefix(a, b);
      assert (a + b)[1..] == a[1..] + b;
      FramesAppend(a[1..], b);
    case Take(n) =>
      JudgePrefix(a, b);
      assert (a + b)[n..] == a[n..] + b;
      assert FrameOf(a + b, n) == FrameOf(a, n) by {
        assert (a + b)[HEADER_BYTES..n] == a[HEADER_BYTES..n];
      }
      FramesAppend(a[n..], b);
  }

  lemma {:induction false} SettleAppend(a: bytes, b: bytes)
    ensures Settle(a + b) == Settle(Settle(a) + b)
  {
    if a == [] {
      assert a + b == b;
      SettleIdempotent(b);
    } else if a[0] == HEADER_MAGIC {
    } else {
      SettleAppend(a[1..], b);
      assert (a + b)[1..] == a[1..] + b;
    }
  }

  lemma {:induction false} SettleIdempotent(a: bytes)
    ensures Settle(Settle(a)) == Settle(a)
  {
    if a != [] && a[0] != HEADER_MAGIC {
      SettleIdempotent(a[1..]);
    }
  }

  lemma NoMagicNoFrame(s: bytes)
    requires |s| >= HEADER_BYTES && s[0] != HEADER_MAGIC
    ensures Judge(s) == Skip
  {
  }

  /** Dropping bytes before the first magic byte changes neither the frames nor what is left. */
  lemma {:induction false} SettleSound(s: bytes)
    ensures Frames(Settle(s)) == Frames(s)
    ensures Settle(Residue(Settle(s))) == Settle(Residue(s))
    decreases |s|
  {
    hide Judge;
    if s == [] || s[0] == HEADER_MAGIC {
    } else if |s| < HEADER_BYTES {
      SettleIdempotent(s);
    } else {
      NoMagicNoFrame(s);
      SettleSound(s[1..]);
    }
  }

  /** Two streams equal up to bytes before the first magic byte behave the same whatever follows. */
  lemma SettledAlike(a: bytes, a': bytes, b: bytes)
    requires Settle(a) == Settle(a')
    ensures Frames(a + b) == Frames(a' + b)
    ensures Settle(Residue(a + b)) == Settle(Residue(a' + b))
  {
    SettleAppend(a, b);
    SettleAppend(a', b);
    SettleSound(a + b);
    SettleSound(a' + b);
  }

  // ---------------------------------------------------------------- framing round trip

  lemma EncodedFrame(f: Frame, rest: bytes)
    requires |f.payload| <= MAX_PAYLOAD
    ensures var s := Encode(f) + rest; var n := HEADER_BYTES + |f.payload|;
      && n == |Encode(f)|
      && Judge(s) == Take(n)
      && SizeOf(s) == |f.payload|
      && FrameOf(s, n) == f
      && s[n..] == rest
  {
    var s := Encode(f) + rest;
    var n := |f.payload|;
    assert s[0] == HEADER_MAGIC && s[1] == f.channel && s[2] == CheckOf(n) && s[3] == n % 256 && s[4] == n / 256;
    assert s[HEADER_BYTES..HEADER_BYTES + n] == f.payload;
  }

  lemma ScanOne(f: Frame, rest: bytes)
    requires |f.payload| <= MAX_PAYLOAD
    ensures Frames(Encode(f) + rest) == [f] + Frames(rest)
    ensures Residue(Encode(f) + rest) == Residue(rest)
  {
    hide Judge, Encode, FrameOf;
    EncodedFrame(f, rest);
  }

  /** Scanning the concatenated encodings gives back exactly the frames, and nothing is left over. */
  lemma {:induction false} RoundTrip(fs: seq<Frame>, rest: bytes)
    requires forall f :: f in fs ==> |f.payload| <= MAX_PAYLOAD
    ensures Frames(EncodeAll(fs) + rest) == fs + Frames(rest)
    ensures Residue(EncodeAll(fs) + rest) == Residue(rest)
  {
    hide Judge, Encode, FrameOf, Frames, Residue;
    if fs == [] {
      assert EncodeAll(fs) + rest == rest;
    } else {
      Regroup(Encode(fs[0]), EncodeAll(fs[1..]), rest);
      ScanOne(fs[0], EncodeAll(fs[1..]) + rest);
      RoundTrip(fs[1..], rest);
      Regroup([fs[0]], fs[1..], Frames(rest));
      assert fs == [fs[0]] + fs[1..];
    }
  }

  // ---------------------------------------------------------------- what the header check detects

  /** The third byte of a header is the bitwise exclusive or of the fourth and the fifth. */
  predicate Checks(s: bytes)
    requires |s| >= HEADER_BYTES
  {
    Xored(s[3], s[4], s[2])
  }

  predicate Xored(a: byte, b: byte, c: byte) {
    Bits(c) == Bits(a) ^ Bits(b)
  }

  lemma BitsOf(a: byte, b: byte, c: byte)
    ensures Xor(a, b) == c <==> Xored(a, b, c)
  {
    ByteOfBits(c, Bits(a) ^ Bits(b));
  }

  lemma SizeBytes(lo: byte, hi: byte)
    ensures (lo as int + 256 * (hi as int)) % 256 == lo && (lo as int + 256 * (hi as int)) / 256 == hi as int
  {
  }

  /** Every frame is written with this check, with its size in the last two bytes, low byte first. */
  lemma WrittenHeader(f: Frame)
    requires |f.payload| < 0x1_0000
    ensures var e := Encode(f);
      && |e| == 5 + |f.payload| && e[0] == 0x7E && e[1] == f.channel && Checks(e)
      && e[3] as int + 256 * e[4] as int == |f.payload| && e[5..] == f.payload
  {
    var n := |f.payload|;
    BitsOf(n % 256, n / 256, CheckOf(n));
    hide Xor, Xored;
  }

  lemma CheckIs(lo: byte, hi: byte, c: byte)
    ensures c == CheckOf(lo as int + 256 * hi as int) <==> Xored(lo, hi, c)
  {
    SizeBytes(lo, hi);
    BitsOf(lo, hi, c);
    hide Xor, Xored;
  }

  /** Exactly which headers are accepted. */
  lemma AcceptedExactly(s: bytes)
    requires |s| >= HEADER_BYTES
    ensures Judge(s) != Skip <==> s[0] == 0x7E && Checks(s) && s[3] as int + 256 * s[4] as int <= 1500
  {
    hide CheckOf, Xored;
    CheckIs(s[3], s[4], s[2]);
  }

  /** The bytes of a frame, with another value in exactly one of the check and the two bytes of the size. */
  predicate Damaged(e: bytes, d: bytes) {
    && |e| == |d| >= HEADER_BYTES
    && exists k :: 2 <= k < HEADER_BYTES && d[k] != e[k] && forall i :: 0 <= i < |e| && i != k ==> d[i] == e[i]
  }

  function Mix(x: bv8, y: bv8): bv8 {
    x ^ y
  }

  lemma MixedTwice(x: bv8, y: bv8)
    ensures Mix(Mix(x, y), y) == x && Mix(Mix(x, y), x) == y
  {
  }

  lemma OneOfThree(x: bv8, y: bv8, x': bv8, y': bv8)
    requires Mix(x, y) == Mix(x', y')
    ensures x == x' <==> y == y'
  {
    hide Mix;
    MixedTwice(x, y);
    MixedTwice(x', y');
  }

  lemma XoredIs(a: byte, b: byte, c: byte)
    ensures Xored(a, b, c) <==> Bits(c) == Mix(Bits(a), Bits(b))
  {
    hide Bits;
  }

  lemma OneByteChecked(a: byte, b: byte, c: byte, a': byte, b': byte, c': byte)
    requires Xored(a, b, c)
    requires (a != a' && b == b' && c == c') || (a == a' && b != b' && c == c') || (a == a' && b == b' && c != c')
    ensures !Xored(a', b', c')
  {
    hide Bits, Mix, Xored;
    BitsDiffer(a, a');
    BitsDiffer(b, b');
    BitsDiffer(c, c');
    XoredIs(a, b, c);
    XoredIs(a', b', c');
    if Xored(a', b', c') && c == c' {
      OneOfThree(Bits(a), Bits(b), Bits(a'), Bits(b'));
    }
  }

  lemma BitsDiffer(a: byte, b: byte)
    ensures Bits(a) == Bits(b) ==> a == b
  {
    ByteOfBits(a, 0);
    ByteOfBits(b, 0);
  }

  /** A header damaged in one of these bytes is never accepted. */
  lemma DamageDetected(f: Frame, d: bytes, rest: bytes)
    requires |f.payload| < 0x1_0000 && Damaged(Encode(f), d)
    ensures Judge(d + rest) == Skip
  {
    WrittenHeader(f);
    var e := Encode(f);
    hide Encode, Judge, Xored;
    var s := d + rest;
    assert s[0] == d[0] && s[2] == d[2] && s[3] == d[3] && s[4] == d[4];
    OneByteChecked(e[3], e[4], e[2], d[3], d[4], d[2]);
    AcceptedExactly(s);
  }

  /**
   * A frame with such damage is not delivered.  It is searched for another header from its second byte on;
   * when no other magic byte is in it, the damage costs this frame alone.
   */
  lemma DamagedIsLost(before: seq<Frame>, f: Frame, d: bytes, rest: bytes)
    requires forall g :: g in before ==> |g.payload| <= MAX_PAYLOAD
    requires |f.payload| < 0x1_0000 && Damaged(Encode(f), d)
    ensures Frames(EncodeAll(before) + (d + rest)) == before + Frames(d[1..] + rest)
    ensures HEADER_MAGIC !in d[1..] ==> Frames(EncodeAll(before) + (d + rest)) == before + Frames(rest)
  {
    hide Encode, EncodeAll, Judge, Settle;
    RoundTrip(before, d + rest);
    DamageDetected(f, d, rest);
    assert (d + rest)[1..] == d[1..] + rest;
    if HEADER_MAGIC !in d[1..] {
      var s := d[1..] + rest;
      SettleSkips(s, |d| - 1);
      assert s[|d| - 1..] == rest;
      SettleSound(s);
      SettleSound(rest);
    }
  }

  /** Frames as they stand in a stream, with other bytes in front of each and behind the last. */
  function Interleave(gaps: seq<bytes>, fs: seq<Frame>): bytes
    requires |gaps| == |fs| + 1 && forall f :: f in fs ==> |f.payload| <= MAX_PAYLOAD
  {
    if fs == [] then gaps[0] else gaps[0] + Encode(fs[0]) + Interleave(gaps[1..], fs[1..])
  }

  /** What is taken for a frame is the encoding of that frame. */
  lemma TakenIsEncoded(s: bytes, n: nat)
    requires Judge(s) == Take(n)
    ensures |FrameOf(s, n).payload| <= MAX_PAYLOAD && s == Encode(FrameOf(s, n)) + s[n..]
  {
    SizeBytes(s[3], s[4]);
    hide CheckOf;
    var f := FrameOf(s, n);
    assert s[..HEADER_BYTES] == [s[0], s[1], s[2], s[3], s[4]];
    assert s == s[..HEADER_BYTES] + s[HEADER_BYTES..n] + s[n..];
    assert Encode(f) == s[..HEADER_BYTES] + s[HEADER_BYTES..n];
  }

  /** Nothing is invented: whatever the stream, every frame delivered stands in it as written, in that order. */
  lemma {:induction false} DeliveredStand(s: bytes) returns (gaps: seq<bytes>)
    ensures forall f :: f in Frames(s) ==> |f.payload| <= MAX_PAYLOAD
    ensures |gaps| == |Frames(s)| + 1 && s == Interleave(gaps, Frames(s))
    decreases |s|
  {
    hide Judge, Encode, FrameOf;
    match Judge(s)
    case Wait =>
      gaps := [s];
    case Skip =>
      var rest := DeliveredStand(s[1..]);
      gaps := [[s[0]] + rest[0]] + rest[1..];
      GapGrows(s[0], rest, Frames(s));
      assert s == [s[0]] + s[1..];
    case Take(n) =>
      var rest := DeliveredStand(s[n..]);
      TakenIsEncoded(s, n);
      gaps := [[]] + rest;
      assert gaps[1..] == rest && Frames(s)[1..] == Frames(s[n..]);
      assert [] + Encode(FrameOf(s, n)) == Encode(FrameOf(s, n));
  }

  lemma GapGrows(b: byte, gaps: seq<bytes>, fs: seq<Frame>)
    requires |gaps| == |fs| + 1 && forall f :: f in fs ==> |f.payload| <= MAX_PAYLOAD
    ensures Interleave([[b] + gaps[0]] + gaps[1..], fs) == [b] + Interleave(gaps, fs)
  {
    hide Encode;
    var more := [[b] + gaps[0]] + gaps[1..];
    assert more[0] == [b] + gaps[0] && more[1..] == gaps[1..];
    if fs != [] {
      Regroup([b], gaps[0], Encode(fs[0]));
      Regroup([b], gaps[0] + Encode(fs[0]), Interleave(gaps[1..], fs[1..]));
    }
  }

  /**
   * Writes one frame through the static output buffer.  The buffer is sized with a header of four
   * bytes, so a payload fits only up to one byte less than the receiver accepts.
   */
  method Transmit(outBuf: array<byte>, channel: int, payload: bytes) returns (wire: bytes)
    requires outBuf.Length == UART_BUF_SIZE && HEADER_BYTES + |payload| <= outBuf.Length
    modifies outBuf
    ensures wire == Encode(Frame(channel % 256, payload))
    ensures outBuf[..|wire|] == wire
  {
    var n := |payload|;
    outBuf[0], outBuf[1] := HEADER_MAGIC, channel % 256;
    outBuf[3], outBuf[4] := n % 256, n / 256;
    outBuf[2] := CheckOf(n);
    forall i | 0 <= i < n {
      outBuf[HEADER_BYTES + i] := payload[i];
    }
    wire := outBuf[..n + HEADER_BYTES];
    assert wire[..HEADER_BYTES] == [HEADER_MAGIC, channel % 256, CheckOf(n), n % 256, n / 256];
    assert wire == wire[..HEADER_BYTES] + payload;
  }

  // ---------------------------------------------------------------- the parsing loop

  /** The unread bytes of the buffer and the position they start at. */
  datatype Unread = Unread(start: nat, data: bytes) {
    function End(): nat { start + |data| }
  }

  /** The unread bytes after dropping the first `n`, moved to the front when room is short. */
  function Advance(u: Unread, n: nat): (v: Unread)
    requires n <= |u.data|
    ensures v.data == u.data[n..]
  {
    Compact(Unread(u.start + n, u.data[n..]))
  }

  function Compact(u: Unread): Unread {
    if u.start > IN_BUF_SIZE / 2 || IN_BUF_SIZE - u.End() < UART_BUF_SIZE then u.(start := 0) else u
  }

  /** The first position at or after `k` that holds the magic byte, or the length if there is none. */
  function NextMagic(s: bytes, k: nat): (m: nat)
    requires k <= |s|
    ensures k <= m <= |s|
    ensures forall i :: k <= i < m ==> s[i] != HEADER_MAGIC
    ensures m < |s| ==> s[m] == HEADER_MAGIC
    decreases |s| - k
  {
    if k == |s| || s[k] == HEADER_MAGIC then k else NextMagic(s, k + 1)
  }

  /** The unread bytes after a header that was not acceptable. */
  function Recover(u: Unread): (v: Unread)
    requires |u.data| > 0
    ensures |v.data| < |u.data|
  {
    var k := NextMagic(u.data, 1);
    if k < |u.data| then Advance(u, k) else Unread(0, [])
  }

  datatype Outcome = Outcome(left: Unread, frames: seq<Frame>)

  function Loop(u: Unread): Outcome
    decreases |u.data|
  {
    match Judge(u.data)
    case Wait => Outcome(u, [])
    case Skip => Loop(Recover(u))
    case Take(n) =>
      var o := Loop(Advance(u, n));
      o.(frames := [FrameOf(u.data, n)] + o.frames)
  }

  lemma {:induction false} SettleSkips(s: bytes, k: nat)
    requires k <= |s|
    requires forall i :: 0 <= i < k ==> s[i] != HEADER_MAGIC
    ensures Settle(s) == Settle(s[k..])
  {
    if k > 0 {
      SettleSkips(s[1..], k - 1);
      assert s[1..][k - 1..] == s[k..];
    } else {
      assert s[0..] == s;
    }
  }

  /** Jumping from a bad header to the next magic byte is what the byte-by-byte scanner ends up doing. */
  lemma RecoverSound(u: Unread)
    requires Judge(u.data) == Skip
    ensures Frames(u.data) == Frames(Recover(u).data)
    ensures Settle(Residue(u.data)) == Settle(Residue(Recover(u).data))
  {
    hide Judge, Compact;
    var s, k := u.data, NextMagic(u.data, 1);
    SettleSkips(s[1..], k - 1);
    assert Recover(u).data == s[1..][k - 1..];
    SettleSound(s[1..]);
    SettleSound(Recover(u).data);
  }

  /** The loop delivers exactly the frames of the reference scanner, and keeps all that can matter. */
  lemma {:induction false} LoopRefinesScanner(u: Unread)
    ensures Loop(u).frames == Frames(u.data)
    ensures Settle(Loop(u).left.data) == Settle(Residue(u.data))
    decreases |u.data|
  {
    hide Judge, Compact, Advance, Recover, Settle, FrameOf;
    match Judge(u.data)
    case Wait =>
    case Skip =>
      RecoverSound(u);
      LoopRefinesScanner(Recover(u));
    case Take(n) =>
      LoopRefinesScanner(Advance(u, n));
  }

  ghost predicate InBuffer(u: Unread) {
    u.start <= IN_BUF_SIZE / 2 && u.End() <= IN_BUF_SIZE
  }

  /** The one way to fill the buffer for good: a largest frame that starts right in the middle. */
  predicate Stalled(u: Unread) {
    && u.start == IN_BUF_SIZE / 2
    && |u.data| == IN_BUF_SIZE / 2
    && HeaderOk(u.data)
    && SizeOf(u.data) == MAX_PAYLOAD
  }

  lemma StepInBuffer(u: Unread, n: nat)
    requires InBuffer(u) && n <= |u.data|
    ensures InBuffer(Advance(u, n))
    ensures u.data != [] ==> InBuffer(Recover(u))
  {
  }

  lemma WaitingLeavesRoom(u: Unread)
    requires InBuffer(u) && Judge(u.data) == Wait
    ensures u.End() == IN_BUF_SIZE <==> Stalled(u)
  {
    hide CheckOf;
  }

  /** Every run of the loop ends with free room in the buffer, except in exactly one situation. */
  lemma {:induction false} LoopLeavesRoom(u: Unread)
    requires InBuffer(u)
    ensures InBuffer(Loop(u).left)
    ensures Loop(u).left.End() == IN_BUF_SIZE <==> Stalled(Loop(u).left)
    decreases |u.data|
  {
    hide Judge, Compact, Advance, Recover, FrameOf, InBuffer, Stalled;
    match Judge(u.data)
    case Wait =>
      WaitingLeavesRoom(u);
    case Skip =>
      StepInBuffer(u, 0);
      LoopLeavesRoom(Recover(u));
    case Take(n) =>
      StepInBuffer(u, n);
      LoopLeavesRoom(Advance(u, n));
  }

  /**
   * The stall is reachable: a first frame of 1504 bytes leaves the positions in the middle of the
   * empty buffer, and the 1504 bytes of a largest frame that then fit are never enough.
   */
  lemma StallIsReached(first: Frame, second: Frame)
    requires |first.payload| == MAX_PAYLOAD - 1 && |second.payload| == MAX_PAYLOAD
    ensures Loop(Unread(0, Encode(first))) == Outcome(Unread(IN_BUF_SIZE / 2, []), [first])
    ensures var full := Unread(IN_BUF_SIZE / 2, Encode(second)[..IN_BUF_SIZE / 2]);
      Stalled(full) && full.End() == IN_BUF_SIZE && Loop(full) == Outcome(full, [])
  {
    EncodedFrame(first, []);
    assert Encode(first) + [] == Encode(first);
    assert Loop(Unread(0, Encode(first))) == Outcome(Unread(IN_BUF_SIZE / 2, []), [first]);
    CutLargest(second);
  }

  lemma CutLargest(f: Frame)
    requires |f.payload| == MAX_PAYLOAD
    ensures var cut := Encode(f)[..IN_BUF_SIZE / 2];
      |cut| == IN_BUF_SIZE / 2 && Judge(cut) == Wait && HeaderOk(cut) && SizeOf(cut) == MAX_PAYLOAD
  {
    var e := Encode(f);
    EncodedFrame(f, []);
    assert e + [] == e;
    var cut := e[..IN_BUF_SIZE / 2];
    assert cut[0] == e[0] && cut[1] == e[1] && cut[2] == e[2] && cut[3] == e[3] && cut[4] == e[4];
  }

  // ---------------------------------------------------------------- streams without largest frames

  predicate DeclaresLargest(s: bytes) {
    |s| >= HEADER_BYTES && HeaderOk(s) && SizeOf(s) == MAX_PAYLOAD
  }

  /** No header that the scanner accepts announces the largest payload. */
  ghost predicate NoLargest(s: bytes) {
    && !DeclaresLargest(s)
    && match Judge(s)
       case Wait => true
       case Skip => NoLargest(s[1..])
       case Take(n) => NoLargest(s[n..])
  }

  lemma {:induction false} NoLargestAppend(a: bytes, b: bytes)
    requires NoLargest(a + b)
    ensures NoLargest(Residue(a) + b)
    decreases |a|
  {
    hide Judge, DeclaresLargest;
    match Judge(a)
    case Wait =>
    case Skip =>
      JudgePrefix(a, b);
      assert (a + b)[1..] == a[1..] + b;
      NoLargestAppend(a[1..], b);
    case Take(n) =>
      JudgePrefix(a, b);
      assert (a + b)[n..] == a[n..] + b;
      NoLargestAppend(a[n..], b);
  }

  lemma {:induction false} NoLargestSettle(s: bytes)
    ensures NoLargest(Settle(s)) == NoLargest(s)
    decreases |s|
  {
    if s != [] && s[0] != HEADER_MAGIC {
      NoLargestSettle(s[1..]);
      if |s| < HEADER_BYTES {
        TooShort(s);
        TooShort(s[1..]);
      } else {
        NoMagicNoFrame(s);
      }
    }
  }

  lemma TooShort(s: bytes)
    requires |s| < HEADER_BYTES
    ensures NoLargest(s)
  {
  }

  /** Payloads of at most 1499 bytes never stall the receiver. */
  lemma {:induction false} SmallPayloadsNoLargest(fs: seq<Frame>)
    requires forall f :: f in fs ==> |f.payload| < MAX_PAYLOAD
    ensures NoLargest(EncodeAll(fs))
  {
    hide Judge, Encode, FrameOf, Frames, Residue;
    if fs == [] {
      TooShort([]);
    } else {
      EncodedFrame(fs[0], EncodeAll(fs[1..]));
      SmallPayloadsNoLargest(fs[1..]);
    }
  }

  lemma NeverStalled(u: Unread, stream: bytes, rest: bytes)
    requires Settle(u.data) == Settle(Residue(stream)) && NoLargest(stream + rest)
    ensures !Stalled(u)
  {
    hide Judge, Settle, Residue, NoLargest;
    NoLargestAppend(stream, rest);
    NoLargestSettle(Residue(stream) + rest);
    SettleAppend(Residue(stream), rest);
    SettleAppend(u.data, rest);
    NoLargestSettle(u.data + rest);
    assert NoLargest(u.data + rest);
    NotDeclared(u.data, rest);
  }

  lemma NotDeclared(a: bytes, b: bytes)
    requires NoLargest(a + b)
    ensures !DeclaresLargest(a)
  {
    if |a| >= HEADER_BYTES {
      var s := a + b;
      assert s[0] == a[0] && s[2] == a[2] && s[3] == a[3] && s[4] == a[4];
    }
  }

  // ---------------------------------------------------------------- the receiver

  class Receiver {
    const inBuf: array<byte>
    var bufStart: nat
    var bufEnd: nat
    /** All bytes ever taken from the UART driver, and all frames ever handed to the network. */
    ghost var stream: bytes
    ghost var delivered: seq<Frame>

    ghost predicate Positions()
      reads this
    {
      inBuf.Length == IN_BUF_SIZE && bufStart <= bufEnd <= IN_BUF_SIZE
    }

    ghost function View(): Unread
      requires Positions()
      reads this, inBuf
    {
      Unread(bufStart, inBuf[bufStart..bufEnd])
    }

    /** What holds between any two calls, whatever bytes arrived and however they were split. */
    ghost predicate Valid()
      reads this, inBuf
    {
      && Positions()
      && InBuffer(View())
      && (bufEnd == IN_BUF_SIZE <==> Stalled(View()))
      && delivered == Frames(stream)
      && Settle(View().data) == Settle(Residue(stream))
    }

    constructor ()
      ensures Valid() && fresh(inBuf)
      ensures stream == [] && delivered == [] && View() == Unread(0, [])
    {
      inBuf := new byte[IN_BUF_SIZE](_ => 0);
      bufStart, bufEnd := 0, 0;
      stream, delivered := [], [];
    }

    /** Skips `n` bytes, then moves the rest to the front when less than one packet fits behind it. */
    method DropUnread(n: nat)
      requires Positions() && n <= bufEnd - bufStart
      modifies this`bufStart, this`bufEnd, inBuf
      ensures Positions() && View() == Advance(old(View()), n)
    {
      bufStart := bufStart + n;
      if bufStart > inBuf.Length / 2 || inBuf.Length - bufEnd < UART_BUF_SIZE {
        if bufStart < bufEnd {
          var remaining := bufEnd - bufStart;
          forall i | 0 <= i < remaining {
            inBuf[i] := inBuf[bufStart + i];
          }
          bufEnd := remaining;
        } else {
          bufEnd := 0;
        }
        bufStart := 0;
      }
    }

    /** Position of the next magic byte after the first unread byte, or `bufEnd`. */
    method FindNextMagic() returns (m: nat)
      requires Positions() && bufStart < bufEnd
      ensures bufStart < m <= bufEnd && m - bufStart == NextMagic(View().data, 1)
    {
      m := bufStart + 1;
      while m < bufEnd && inBuf[m] != HEADER_MAGIC
        invariant bufStart < m <= bufEnd
        invariant NextMagic(View().data, 1) == NextMagic(View().data, m - bufStart)
      {
        m := m + 1;
      }
    }

    /** Copies from the UART driver's FIFO as many bytes as fit behind the unread ones. */
    method Fill(fifo: bytes) returns (taken: nat)
      requires Positions()
      modifies this`bufEnd, inBuf
      ensures Positions() && bufEnd == old(bufEnd) + taken
      ensures taken == if |fifo| < IN_BUF_SIZE - old(bufEnd) then |fifo| else IN_BUF_SIZE - old(bufEnd)
      ensures View() == Unread(bufStart, old(View().data) + fifo[..taken])
    {
      var space := inBuf.Length - bufEnd;
      taken := if |fifo| < space then |fifo| else space;
      forall i | 0 <= i < taken {
        inBuf[bufEnd + i] := fifo[i];
      }
      bufEnd := bufEnd + taken;
    }

    /** Checks the header at the first unread byte: magic, checksum, size, then completeness. */
    method Examine() returns (v: Verdict)
      requires Positions() && bufEnd - bufStart >= HEADER_BYTES
      ensures v == Judge(View().data)
    {
      var size: nat := inBuf[bufStart + 3] as int + 256 * (inBuf[bufStart + 4] as int);
      assert size == SizeOf(View().data);
      if inBuf[bufStart] != HEADER_MAGIC {
        return Skip;
      }
      if inBuf[bufStart + 2] != CheckOf(size) {
        return Skip;
      }
      if size > MAX_PAYLOAD {
        return Skip;
      }
      if bufEnd - bufStart < HEADER_BYTES + size {
        return Wait;
      }
      return Take(HEADER_BYTES + size);
    }

    method SkipToMagic()
      requires Positions() && bufStart < bufEnd
      modifies this`bufStart, this`bufEnd, inBuf
      ensures Positions() && View() == Recover(old(View()))
    {
      var m := FindNextMagic();
      if m < bufEnd {
        DropUnread(m - bufStart);
      } else {
        bufStart, bufEnd := 0, 0;
      }
    }

    /** What is handed to the network for a complete packet of `n` bytes. */
    method FirstFrame(n: nat) returns (f: Frame)
      requires Positions() && HEADER_BYTES <= n <= bufEnd - bufStart
      ensures f == FrameOf(View().data, n)
    {
      f := Frame(inBuf[bufStart + 1], inBuf[bufStart + HEADER_BYTES..bufStart + n]);
      SliceOfSlice(inBuf[..], bufStart, bufEnd, HEADER_BYTES, n);
      assert inBuf[..][bufStart..bufEnd] == View().data;
    }

    /** The parsing loop: it stops at the first header that is not there or not complete. */
    method Parse() returns (frames: seq<Frame>)
      requires Positions()
      modifies this`bufStart, this`bufEnd, inBuf
      ensures Positions()
      ensures Outcome(View(), frames) == Loop(old(View()))
    {
      hide Judge, Advance, Recover, CheckOf;
      frames := [];
      ghost var u0 := View();
      while bufEnd - bufStart >= HEADER_BYTES
        invariant Positions()
        invariant Loop(u0) == Outcome(Loop(View()).left, frames + Loop(View()).frames)
        decreases |View().data|
      {
        ghost var u := View();
        var v := Examine();
        match v {
          case Wait =>
            break;
          case Skip =>
            SkipToMagic();
          case Take(n) =>
            var f := FirstFrame(n);
            Regroup(frames, [f], Loop(Advance(u, n)).frames);
            frames := frames + [f];
            DropUnread(n);
        }
      }
    }

    /**
     * One call of the packet processor while the UART driver holds `fifo`: takes what fits, then
     * parses until no complete packet is left.
     */
    method ProcessPacket(fifo: bytes) returns (taken: nat, frames: seq<Frame>)
      requires Valid()
      modifies this, inBuf
      ensures Valid()
      ensures taken == if |fifo| < IN_BUF_SIZE - old(bufEnd) then |fifo| else IN_BUF_SIZE - old(bufEnd)
      ensures stream == old(stream) + fifo[..taken]
      ensures delivered == old(delivered) + frames
      ensures Outcome(View(), frames) == Loop(Unread(old(bufStart), old(View().data) + fifo[..taken]))
    {
      hide Judge, Loop, Frames, Settle, Residue, Stalled, HeaderOk;
      ghost var pending := View().data;
      taken := Fill(fifo);
      ghost var u := View();
      frames := Parse();
      Account(u, pending, stream, fifo[..taken]);
      stream := stream + fifo[..taken];
      delivered := delivered + frames;
    }

    /** Calls the packet processor until one piece has been taken; the room left makes this end. */
    method TakeAll(piece: bytes, ghost future: bytes) returns (frames: seq<Frame>)
      requires Valid() && NoLargest(stream + piece + future)
      modifies this, inBuf
      ensures Valid()
      ensures stream == old(stream) + piece && delivered == old(delivered) + frames
    {
      hide Judge, Loop, Frames, Settle, Residue, Stalled, HeaderOk, NoLargest;
      frames := [];
      var rest := piece;
      while rest != []
        invariant Valid()
        invariant stream + rest == old(stream) + piece && delivered == old(delivered) + frames
        decreases |rest|
      {
        assert stream + (rest + future) == old(stream) + piece + future;
        NeverStalled(View(), stream, rest + future);
        var taken, fs := ProcessPacket(rest);
        rest := rest[taken..];
        frames := frames + fs;
      }
    }
  }

  /** The bookkeeping of one call: the history stays the reference scan of everything taken so far. */
  lemma Account(u: Unread, pending: bytes, stream: bytes, chunk: bytes)
    requires u.data == pending + chunk && InBuffer(u)
    requires Settle(pending) == Settle(Residue(stream))
    ensures var o := Loop(u);
      && InBuffer(o.left)
      && (o.left.End() == IN_BUF_SIZE <==> Stalled(o.left))
      && Frames(stream + chunk) == Frames(stream) + o.frames
      && Settle(o.left.data) == Settle(Residue(stream + chunk))
  {
    LoopRefinesScanner(u);
    LoopLeavesRoom(u);
    FramesAppend(stream, chunk);
    SettledAlike(pending, Residue(stream), chunk);
  }

  // ---------------------------------------------------------------- whole streams

  /**
   * The receive task, over all the pieces in which a stream arrives.  That it takes every byte is the
   * progress property; what it delivers is the scan of the whole stream at once.
   */
  method ReceiveAll(chunks: seq<bytes>) returns (frames: seq<Frame>)
    requires NoLargest(Flatten(chunks))
    ensures frames == Frames(Flatten(chunks))
  {
    hide Judge, Loop, Frames, Settle, Residue, Stalled, HeaderOk, NoLargest;
    var r := new Receiver();
    frames := [];
    for i := 0 to |chunks|
      invariant r.Valid() && fresh(r) && fresh(r.inBuf)
      invariant r.stream == Flatten(chunks[..i]) && r.delivered == frames
    {
      SplitPieces(chunks, i);
      var fs := r.TakeAll(chunks[i], Flatten(chunks[i + 1..]));
      frames := frames + fs;
    }
    assert chunks[..|chunks|] == chunks;
  }

  lemma SplitPieces<T>(ss: seq<seq<T>>, i: nat)
    requires i < |ss|
    ensures Flatten(ss[..i + 1]) == Flatten(ss[..i]) + ss[i]
    ensures Flatten(ss) == Flatten(ss[..i]) + ss[i] + Flatten(ss[i + 1..])
  {
    hide Flatten;
    CutAt(ss, i);
    FlattenSnoc(ss[..i], ss[i]);
    FlattenConcat(ss[..i + 1], ss[i + 1..]);
  }

  /** Frames with payloads below the largest survive the wire, whatever pieces they arrive in. */
  method TransferAll(sent: seq<Frame>, chunks: seq<bytes>) returns (received: seq<Frame>)
    requires forall f :: f in sent ==> |f.payload| < MAX_PAYLOAD
    requires Flatten(chunks) == EncodeAll(sent)
    ensures received == sent
  {
    SmallPayloadsNoLargest(sent);
    received := ReceiveAll(chunks);
    RoundTrip(sent, []);
    assert EncodeAll(sent) + [] == EncodeAll(sent);
  }
}
