/**
 * Credit flow control of the serial slave link over SDIO: counters that wrap at 32 bits on the host,
 * registers of 12 and 20 bits on the slave, and transfers in pieces of 512-byte blocks.
 */
module EsslSdio {
  import opened Bytes

  const WORD: nat := 0x1_0000_0000
  const TX_BUFFER_MAX: nat := 0x1000
  const RX_BYTE_MAX: nat := 0x10_0000
  const END_ADDR: nat := 0x1F800
  const BLOCK: nat := 512

  type u32 = v: nat | v < WORD

  /** The host's counters: what it has used, and the last reading of what the slave has provided. */
  datatype Host = Host(txSent: u32, txLatest: u32, rxGot: u32, rxLatest: u32)

  /** Unsigned 32-bit arithmetic, as the source computes it. */
  function Credit(latest: u32, used: u32, max: nat): nat
    requires max > 0
  {
    (latest as int + max - used as int) % WORD % max
  }

  function TxBufferNum(h: Host): nat {
    Credit(h.txLatest, h.txSent, TX_BUFFER_MAX)
  }

  function RxDataSize(h: Host): nat {
    Credit(h.rxLatest, h.rxGot, RX_BYTE_MAX)
  }

  function BuffersFor(length: nat, bufferSize: nat): nat
    requires bufferSize > 0
  {
    (length + bufferSize - 1) / bufferSize
  }

  lemma Product(n: nat, m: nat, size: nat)
    ensures n <= m ==> n * size <= m * size
    ensures n < m ==> (n + 1) * size <= m * size
    ensures (n + 1) * size == n * size + size
  {
  }

  /** A packet is charged the least number of buffers that hold it. */
  lemma LeastBuffers(length: nat, bufferSize: nat, n: nat)
    requires bufferSize > 0
    ensures length <= BuffersFor(length, bufferSize) * bufferSize
    ensures length <= n * bufferSize <==> BuffersFor(length, bufferSize) <= n
  {
    var need := BuffersFor(length, bufferSize);
    var rest := (length + bufferSize - 1) % bufferSize;
    assert length + bufferSize - 1 == need * bufferSize + rest;
    Product(need, n, bufferSize);
    Product(n, need, bufferSize);
  }

  /** Two counts that wrap differently still have the right distance, if it is below the modulus. */
  lemma DistanceModulo(given: nat, used: nat, max: nat)
    requires max == TX_BUFFER_MAX || max == RX_BYTE_MAX
    ensures Credit(given % max, used % WORD, max) == (given as int - used as int) % max
    ensures used <= given ==> (Credit(given % max, used % WORD, max) == given - used <==> given - used < max)
  {
    var (g, u) := (given % max, used % WORD);
    var x: int := g + max - u;
    var a, b, c := x / WORD, given / max, used / WORD;
    assert x % WORD == x - a * WORD && given == b * max + g && used == c * WORD + u;
    if max == TX_BUFFER_MAX {
      assert x % WORD == (given - used) + max * (1 - b + c * 0x10_0000 - a * 0x10_0000);
      SameResidue(x % WORD, given - used, 1 - b + c * 0x10_0000 - a * 0x10_0000, max);
    } else {
      assert x % WORD == (given - used) + max * (1 - b + c * 0x1000 - a * 0x1000);
      SameResidue(x % WORD, given - used, 1 - b + c * 0x1000 - a * 0x1000, max);
    }
  }

  lemma SameResidue(x: int, y: int, k: int, m: nat)
    requires m == TX_BUFFER_MAX || m == RX_BYTE_MAX
    requires x == y + m * k
    ensures x % m == y % m
  {
  }

  datatype Tried = Tried(host: Host, ok: bool)

  /** An attempt to use `need` buffers, with at most one new reading of the slave's count. */
  function TrySend(h: Host, need: nat, token: u32): Tried {
    var host := if TxBufferNum(h) < need then h.(txLatest := token / 0x1_0000 % TX_BUFFER_MAX) else h;
    if TxBufferNum(host) < need then Tried(host, false)
    else Tried(host.(txSent := (host.txSent + need) % WORD), true)
  }

  /** An attempt to read `size` bytes, likewise. */
  function TryGet(h: Host, size: nat, packetLength: u32): Tried {
    var host := if RxDataSize(h) < size then h.(rxLatest := packetLength % RX_BYTE_MAX) else h;
    if RxDataSize(host) < size then Tried(host, false)
    else Tried(host.(rxGot := (host.rxGot + size) % WORD), true)
  }

  // ---------------------------------------------------------------- transfers

  /** One bus write: the address tells the slave how many of the bytes it is to take. */
  datatype Transfer = Transfer(address: int, data: bytes)

  /** What the slave takes of a write: everything before the end address. */
  function Taken(t: Transfer): bytes {
    var n := END_ADDR - t.address;
    if n <= 0 then [] else if n < |t.data| then t.data[..n] else t.data
  }

  function AllTaken(ts: seq<Transfer>): bytes {
    if ts == [] then [] else Taken(ts[0]) + AllTaken(ts[1..])
  }

  lemma {:induction false} AllTakenSnoc(ts: seq<Transfer>, t: Transfer)
    ensures AllTaken(ts + [t]) == AllTaken(ts) + Taken(t)
  {
    if ts == [] {
      assert [t][1..] == [];
    } else {
      AllTakenSnoc(ts[1..], t);
      assert (ts + [t])[0] == ts[0] && (ts + [t])[1..] == ts[1..] + [t];
      Regroup(Taken(ts[0]), AllTaken(ts[1..]), Taken(t));
    }
  }

  /** Bytes moved in whole blocks first, then a last piece rounded up to a multiple of four. */
  function PieceLength(remaining: nat): nat {
    if remaining / BLOCK > 0 then remaining / BLOCK * BLOCK else remaining
  }

  function BusLength(remaining: nat): nat {
    if remaining / BLOCK > 0 then remaining / BLOCK * BLOCK else (remaining + 3) / 4 * 4
  }

  /** Whole blocks, or less than a block in whole words. */
  predicate Aligned(t: Transfer) {
    if |t.data| >= 512 then |t.data| % 512 == 0 else |t.data| % 4 == 0
  }

  predicate AllAligned(ts: seq<Transfer>) {
    forall i :: 0 <= i < |ts| ==> Aligned(ts[i])
  }

  lemma NothingOnBus()
    ensures AllTaken([]) == [] && AllAligned([])
  {
  }

  /** One more piece on the bus, in whole blocks or whole words; behind whole blocks less than a block is left. */
  lemma PieceOnBus(ts: seq<Transfer>, t: Transfer, remaining: nat)
    requires AllAligned(ts) && |t.data| == BusLength(remaining)
    ensures AllAligned(ts + [t]) && AllTaken(ts + [t]) == AllTaken(ts) + Taken(t)
    ensures remaining - PieceLength(remaining) < 512
    ensures remaining < 512 ==> PieceLength(remaining) == remaining
  {
    BusAligned(remaining);
    AllTakenSnoc(ts, t);
  }

  lemma BusAligned(remaining: nat)
    ensures var n := BusLength(remaining); if n >= 512 then n % 512 == 0 else n % 4 == 0
  {
    if remaining / BLOCK > 0 {
      assert remaining / BLOCK * BLOCK % 512 == 0;
    } else {
      assert remaining < 512;
    }
  }

  // ---------------------------------------------------------------- the host side, as the source runs it

  datatype Status = Ok | NotFound

  class Context {
    const bufferSize: nat
    var txSent: u32
    var txLatest: u32
    var rxGot: u32
    var rxLatest: u32
    /** Writes put on the bus so far. */
    var bus: seq<Transfer>

    ghost function View(): Host
      reads this
    {
      Host(txSent, txLatest, rxGot, rxLatest)
    }

    constructor (bufferSize: nat)
      requires bufferSize > 0
      ensures View() == Host(0, 0, 0, 0) && this.bufferSize == bufferSize && bus == []
    {
      this.bufferSize := bufferSize;
      txSent, txLatest, rxGot, rxLatest, bus := 0, 0, 0, 0, [];
    }

    method UpdateTxBufferNum(token: u32)
      modifies this`txLatest
      ensures View() == old(View()).(txLatest := token / 0x1_0000 % TX_BUFFER_MAX)
    {
      txLatest := token / 0x1_0000 % TX_BUFFER_MAX;
    }

    method UpdateRxDataSize(packetLength: u32)
      modifies this`rxLatest
      ensures View() == old(View()).(rxLatest := packetLength % RX_BYTE_MAX)
    {
      rxLatest := packetLength % RX_BYTE_MAX;
    }

    /**
     * Sends the first `length` bytes at `memory` if the slave has buffers for them, asking it once
     * for its count if need be.  Rounding up may touch up to three bytes behind the packet.
     */
    method SendPacket(memory: bytes, length: nat, token: u32) returns (status: Status)
      requires bufferSize > 0 && length + 3 <= |memory| && length < END_ADDR
      modifies this
      ensures Tried(View(), status == Ok) == TrySend(old(View()), BuffersFor(length, bufferSize), token)
      ensures old(bus) <= bus && AllTaken(bus[|old(bus)|..]) == if status == Ok then memory[..length] else []
      ensures AllAligned(bus[|old(bus)|..]) && |bus| <= |old(bus)| + if status == Ok then 2 else 0
    {
      var need := BuffersFor(length, bufferSize);
      if TxBufferNum(Host(txSent, txLatest, rxGot, rxLatest)) < need {
        UpdateTxBufferNum(token);
        if TxBufferNum(Host(txSent, txLatest, rxGot, rxLatest)) < need {
          return NotFound;
        }
      }
      ghost var host := View();
      var transfers := SendPieces(memory, length);
      assert bus[|old(bus)|..] == transfers;
      txSent := (txSent + need) % WORD;
      return Ok;
    }

    method SendPieces(memory: bytes, length: nat) returns (ghost transfers: seq<Transfer>)
      requires length + 3 <= |memory| && length < END_ADDR
      modifies this`bus
      ensures bus == old(bus) + transfers && AllTaken(transfers) == memory[..length]
      ensures AllAligned(transfers) && |transfers| <= 2
    {
      hide PieceLength, BusLength, Taken, AllTaken, AllAligned;
      NothingOnBus();
      transfers := [];
      var start: nat, remaining: nat := 0, length;
      while true
        invariant start + remaining == length
        invariant bus == old(bus) + transfers && AllTaken(transfers) == memory[..start]
        invariant AllAligned(transfers) && (transfers == [] || (|transfers| == 1 && remaining < 512))
        decreases remaining
      {
        PieceTaken(memory, start, remaining);
        var piece := PieceLength(remaining);
        var t := Transfer(END_ADDR - remaining, memory[start..start + BusLength(remaining)]);
        PieceOnBus(transfers, t, remaining);
        bus := bus + [t];
        transfers := transfers + [t];
        start, remaining := start + piece, remaining - piece;
        if remaining == 0 {
          break;
        }
      }
    }

    /**
     * Reads `size` bytes into `out` if that many are announced, asking the slave once if need be;
     * `source` is what the slave has to send next.
     */
    method GetPacket(out: array<byte>, size: nat, packetLength: u32, source: bytes) returns (status: Status)
      requires size + 3 <= out.Length && size + 3 <= |source| && size < END_ADDR
      modifies this`rxGot, this`rxLatest, out
      ensures Tried(View(), status == Ok) == TryGet(old(View()), size, packetLength)
      ensures status == Ok ==> out[..size] == source[..size]
      ensures status == NotFound ==> out[..] == old(out[..])
      ensures forall i :: size + 3 <= i < out.Length ==> out[i] == old(out[i])
    {
      if RxDataSize(Host(txSent, txLatest, rxGot, rxLatest)) < size {
        UpdateRxDataSize(packetLength);
        if RxDataSize(Host(txSent, txLatest, rxGot, rxLatest)) < size {
          return NotFound;
        }
      }
      GetPieces(out, size, source);
      return Ok;
    }

    method GetPieces(out: array<byte>, size: nat, source: bytes)
      requires size + 3 <= out.Length && size + 3 <= |source| && size < END_ADDR
      modifies this`rxGot, out
      ensures rxGot == (old(rxGot) + size) % WORD && out[..size] == source[..size]
      ensures forall i :: size + 3 <= i < out.Length ==> out[i] == old(out[i])
    {
      var start: nat, remaining: nat := 0, size;
      while true
        invariant start + remaining == size
        invariant rxGot == (old(rxGot) + start) % WORD
        invariant forall i :: 0 <= i < start ==> out[i] == source[i]
        invariant forall i :: size + 3 <= i < out.Length ==> out[i] == old(out[i])
        decreases remaining
      {
        PieceBounds(remaining);
        var (piece, n) := (PieceLength(remaining), BusLength(remaining));
        forall i | 0 <= i < n {
          out[start + i] := source[start + i];
        }
        CountWraps(old(rxGot) + start, piece);
        start, remaining := start + piece, remaining - piece;
        rxGot := (rxGot + piece) % WORD;
        if remaining == 0 {
          break;
        }
      }
    }
  }

  lemma PieceBounds(remaining: nat)
    ensures PieceLength(remaining) <= remaining && (remaining > 0 ==> PieceLength(remaining) > 0)
    ensures PieceLength(remaining) <= BusLength(remaining) <= remaining + 3
    ensures PieceLength(remaining) == if BusLength(remaining) <= remaining then BusLength(remaining) else remaining
  {
  }

  lemma PieceTaken(memory: bytes, start: nat, remaining: nat)
    requires start + remaining + 3 <= |memory| && remaining < END_ADDR
    ensures var n := PieceLength(remaining);
      && n <= remaining && (remaining > 0 ==> n > 0) && BusLength(remaining) <= remaining + 3
      && Taken(Transfer(END_ADDR - remaining, memory[start..start + BusLength(remaining)])) == memory[start..start + n]
      && memory[..start] + memory[start..start + n] == memory[..start + n]
  {
    hide PieceLength, BusLength;
    PieceBounds(remaining);
    var (n, b) := (PieceLength(remaining), BusLength(remaining));
    assert memory[start..start + b][..n] == memory[start..start + n];
  }

  // ---------------------------------------------------------------- every run

  /** The host's counters beside the true counts: given by the slave, last read by the host, and used. */
  datatype World = World(
    bufferSize: nat, host: Host,
    loaded: nat, seenLoaded: nat, sent: nat, produced: nat, seenProduced: nat, got: nat
  )

  datatype Step =
    | Load(buffers: nat)
    | Produce(count: nat)
    | RefreshTx(token: u32)
    | RefreshRx(packetLength: u32)
    | Send(length: nat, token: u32)
    | Get(size: nat, packetLength: u32)

  function Init(bufferSize: nat): World {
    World(bufferSize, Host(0, 0, 0, 0), 0, 0, 0, 0, 0, 0)
  }

  /**
   * The slave keeps less than a full turn of its registers outstanding, and a register that is read
   * shows the true count.
   */
  predicate Enabled(w: World, t: Step) {
    match t
    case Load(n) => w.loaded + n < w.sent + TX_BUFFER_MAX
    case Produce(n) => w.produced + n < w.got + RX_BYTE_MAX
    case RefreshTx(token) => token / 0x1_0000 % TX_BUFFER_MAX == w.loaded % TX_BUFFER_MAX
    case Send(_, token) => token / 0x1_0000 % TX_BUFFER_MAX == w.loaded % TX_BUFFER_MAX
    case RefreshRx(length) => length % RX_BYTE_MAX == w.produced % RX_BYTE_MAX
    case Get(_, length) => length % RX_BYTE_MAX == w.produced % RX_BYTE_MAX
  }

  function Next(w: World, t: Step): World
    requires w.bufferSize > 0
  {
    match t
    case Load(n) => w.(loaded := w.loaded + n)
    case Produce(n) => w.(produced := w.produced + n)
    case RefreshTx(token) =>
      w.(host := w.host.(txLatest := token / 0x1_0000 % TX_BUFFER_MAX), seenLoaded := w.loaded)
    case RefreshRx(length) => w.(host := w.host.(rxLatest := length % RX_BYTE_MAX), seenProduced := w.produced)
    case Send(length, token) =>
      var need := BuffersFor(length, w.bufferSize);
      var r := TrySend(w.host, need, token);
      w.(host := r.host, seenLoaded := if TxBufferNum(w.host) < need then w.loaded else w.seenLoaded,
         sent := if r.ok then w.sent + need else w.sent)
    case Get(size, length) =>
      var r := TryGet(w.host, size, length);
      w.(host := r.host, seenProduced := if RxDataSize(w.host) < size then w.produced else w.seenProduced,
         got := if r.ok then w.got + size else w.got)
  }

  predicate Inv(w: World) {
    && w.bufferSize > 0
    && w.sent <= w.seenLoaded <= w.loaded < w.sent + TX_BUFFER_MAX
    && w.got <= w.seenProduced <= w.produced < w.got + RX_BYTE_MAX
    && w.host.txSent == w.sent % WORD && w.host.txLatest == w.seenLoaded % TX_BUFFER_MAX
    && w.host.rxGot == w.got % WORD && w.host.rxLatest == w.seenProduced % RX_BYTE_MAX
  }

  /** The credit the host computes is the true number of buffers and bytes it knows of and has not used. */
  lemma CreditIsTrue(w: World)
    requires Inv(w)
    ensures TxBufferNum(w.host) == w.seenLoaded - w.sent
    ensures RxDataSize(w.host) == w.seenProduced - w.got
  {
    DistanceModulo(w.seenLoaded, w.sent, TX_BUFFER_MAX);
    DistanceModulo(w.seenProduced, w.got, RX_BYTE_MAX);
  }

  lemma CountWraps(n: nat, k: nat)
    ensures (n % WORD + k) % WORD == (n + k) % WORD
  {
  }

  /** With enough credit known nothing is asked of the slave. */
  lemma KnownCreditSuffices(h: Host, n: nat, register: u32, other: u32)
    ensures TxBufferNum(h) >= n ==> TrySend(h, n, register) == TrySend(h, n, other) && TrySend(h, n, register).ok
    ensures RxDataSize(h) >= n ==> TryGet(h, n, register) == TryGet(h, n, other) && TryGet(h, n, register).ok
  {
    hide Credit;
  }

  /** A packet goes out exactly when the buffers that the slave really has free are enough to hold it. */
  lemma SendSucceedsExactly(w: World, length: nat, token: u32)
    requires Inv(w) && Enabled(w, Send(length, token))
    ensures TrySend(w.host, BuffersFor(length, w.bufferSize), token).ok <==>
              length <= (w.loaded - w.sent) * w.bufferSize
    ensures Inv(Next(w, Send(length, token)))
  {
    hide Credit, BuffersFor;
    CreditIsTrue(w);
    CreditIsTrue(Next(w, RefreshTx(token)));
    CountWraps(w.sent, BuffersFor(length, w.bufferSize));
    LeastBuffers(length, w.bufferSize, w.loaded - w.sent);
  }

  lemma GetSucceedsExactly(w: World, size: nat, length: u32)
    requires Inv(w) && Enabled(w, Get(size, length))
    ensures TryGet(w.host, size, length).ok <==> size <= w.produced - w.got
    ensures Inv(Next(w, Get(size, length)))
  {
    hide Credit;
    CreditIsTrue(w);
    CreditIsTrue(Next(w, RefreshRx(length)));
    CountWraps(w.got, size);
  }

  predicate Follows(w: World, t: Step, w': World) {
    w.bufferSize > 0 && Enabled(w, t) && w' == Next(w, t)
  }

  ghost predicate IsRun(run: seq<World>, steps: seq<Step>) {
    && |run| == |steps| + 1
    && run[0].bufferSize > 0 && run[0] == Init(run[0].bufferSize)
    && forall i :: 0 <= i < |steps| ==> Follows(run[i], steps[i], run[i + 1])
  }

  lemma {:induction false} RunKeepsInv(run: seq<World>, steps: seq<Step>, k: nat)
    requires IsRun(run, steps) && k < |run|
    ensures Inv(run[k])
  {
    if k > 0 {
      RunKeepsInv(run, steps, k - 1);
      var (w, t) := (run[k - 1], steps[k - 1]);
      assert Follows(w, t, run[k]);
      if t.Send? {
        SendSucceedsExactly(w, t.length, t.token);
      } else if t.Get? {
        GetSucceedsExactly(w, t.size, t.packetLength);
      }
    }
  }

  /** Credit safety: in every run the host has used no more buffers and bytes than the slave provided. */
  lemma NeverOverdrawn(run: seq<World>, steps: seq<Step>, k: nat)
    requires IsRun(run, steps) && k < |run|
    ensures run[k].sent <= run[k].loaded && run[k].got <= run[k].produced
    ensures TxBufferNum(run[k].host) == run[k].seenLoaded - run[k].sent
    ensures RxDataSize(run[k].host) == run[k].seenProduced - run[k].got
  {
    RunKeepsInv(run, steps, k);
    CreditIsTrue(run[k]);
  }

  // ---------------------------------------------------------------- remaining time

  function MinusUntilZero(a: int, b: int): int {
    if a > b then a - b else 0
  }

  /** The time left of a timeout, as the source computes it from two wrapping tick counts. */
  function TimeRemain(start: u32, now: u32, timeout: u32): int {
    if now >= start then MinusUntilZero(timeout, now - start)
    else MinusUntilZero(start - now, WORD - 1 - timeout)
  }

  /** The ticks from `start` to `now`, across at most one wrap. */
  function Elapsed(start: u32, now: u32): nat {
    (now - start) % WORD
  }

  /** The result is the true time left if and only if the count has not wrapped or time is really up. */
  lemma TimeRemainExactly(start: u32, now: u32, timeout: u32)
    ensures TimeRemain(start, now, timeout) == MinusUntilZero(timeout, Elapsed(start, now))
      <==> now >= start || Elapsed(start, now) > timeout
    ensures now < start && Elapsed(start, now) <= timeout ==>
      TimeRemain(start, now, timeout) == MinusUntilZero(timeout, Elapsed(start, now)) + 1
  {
    if now >= start {
      assert Elapsed(start, now) == now - start;
    } else {
      assert Elapsed(start, now) == now as int - start as int + WORD;
    }
  }
}
