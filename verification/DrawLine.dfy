/** Straight lines on a 128 by 64 monochrome display whose framebuffer packs eight pixels in a byte. */
module DrawLine {
  import opened Bytes

  const WIDTH: nat := 128
  const HEIGHT: nat := 64
  const PAGES: nat := 8

  datatype Point = Point(x: int, y: int)

  predicate OnDisplay(p: Point) {
    0 <= p.x < WIDTH && 0 <= p.y < HEIGHT
  }

  function Abs(a: int): nat {
    if a < 0 then -a else a
  }

  /** A 16-bit coordinate as the 8-bit argument of the pixel routine. */
  function Low(a: int): nat {
    a % 256
  }

  // ---------------------------------------------------------------- the line, as a set of points

  function Sign(a: int): int {
    if a < 0 then -1 else 1
  }

  /** Whether the line is longer along x than along y. */
  predicate Flat(a: Point, b: Point) {
    Abs(a.y - b.y) < Abs(a.x - b.x)
  }

  predicate Diagonal(a: Point, b: Point) {
    Abs(a.x - b.x) == Abs(a.y - b.y)
  }

  /** Steps across the longer axis after `i + 1` steps along it, rounded down. */
  function Offset(i: nat, minor: nat, major: nat): nat
    requires major > 0
  {
    (i + 1) * minor / major
  }

  /**
   * The coordinate across the longer axis of drawn point number `i`, on the way from `start` to `end`.
   * On a diagonal the step across comes before the first point, and one step too many before the last.
   */
  function Across(start: int, end: int, i: nat, minor: nat, major: nat): int {
    if minor < major then start + Sign(end - start) * Offset(i, minor, major)
    else if i < major then start + Sign(end - start) * (i + 1)
    else end - 1
  }

  /** The pixels a line consists of. */
  predicate OnLine(a: Point, b: Point, p: Point) {
    var (xLen, yLen) := (Abs(a.x - b.x), Abs(a.y - b.y));
    if Flat(a, b) then
      var (f, l) := if a.x > b.x then (b, a) else (a, b);
      f.x <= p.x <= l.x && p.y == Across(f.y, l.y, p.x - f.x, yLen, xLen)
    else
      var (f, l) := if a.y > b.y then (b, a) else (a, b);
      f.y <= p.y <= l.y && p.x == Across(f.x, l.x, p.y - f.y, xLen, yLen)
  }

  lemma Monotone(a: nat, b: nat, c: nat)
    requires a <= b
    ensures a * c <= b * c
  {
    assert (b - a) * c >= 0;
    assert b * c == a * c + (b - a) * c;
  }

  /** The rounded-down quotient is the one number that fits. */
  lemma QuotientIs(p: nat, m: nat, q: nat)
    requires m > 0 && q * m <= p < (q + 1) * m
    ensures p / m == q
  {
    var d := p / m;
    assert d * m <= p < d * m + m;
    assert (q + 1) * m == q * m + m && (d + 1) * m == d * m + m;
    if d < q {
      Monotone(d + 1, q, m);
    } else if q < d {
      Monotone(q + 1, d, m);
    }
  }

  lemma QuotientFits(p: nat, m: nat)
    requires m > 0
    ensures p / m * m <= p < (p / m + 1) * m
  {
    assert (p / m + 1) * m == p / m * m + m;
  }

  lemma QuotientBelow(p: nat, m: nat, n: nat)
    requires m > 0 && p < n * m
    ensures p / m < n
  {
    QuotientFits(p, m);
    if p / m >= n {
      Monotone(n, p / m, m);
    }
  }

  lemma QuotientBounds(i: nat, minor: nat, major: nat)
    requires minor < major && i <= major
    ensures Offset(i, minor, major) <= minor
    ensures i == 0 ==> Offset(i, minor, major) == 0
    ensures i == major ==> Offset(i, minor, major) == minor
  {
    var p := (i + 1) * minor;
    Monotone(i + 1, major + 1, minor);
    assert (major + 1) * minor == minor * major + minor && (minor + 1) * major == minor * major + major;
    QuotientBelow(p, major, minor + 1);
    if i == major {
      QuotientIs(p, major, minor);
    } else if i == 0 {
      QuotientIs(p, major, 0);
    }
  }

  /** Both endpoints are on the line exactly when it is not diagonal (a single point counts as diagonal). */
  lemma EndpointsExact(a: Point, b: Point)
    ensures OnLine(a, b, a) <==> !Diagonal(a, b)
    ensures OnLine(a, b, b) <==> !Diagonal(a, b)
  {
    hide Offset;
    var (xLen, yLen) := (Abs(a.x - b.x), Abs(a.y - b.y));
    if Flat(a, b) {
      QuotientBounds(0, yLen, xLen);
      QuotientBounds(xLen, yLen, xLen);
    } else if xLen < yLen {
      QuotientBounds(0, xLen, yLen);
      QuotientBounds(yLen, xLen, yLen);
    }
  }

  /** The drawn points have no gap: neighbours along the longer axis are at most one apart across it. */
  lemma Connected(start: int, end: int, i: nat, minor: nat, major: nat)
    requires minor <= major && Abs(end - start) == minor && i < major
    ensures -1 <= Across(start, end, i + 1, minor, major) - Across(start, end, i, minor, major) <= 1
  {
    if minor < major {
      var q := Offset(i, minor, major);
      assert (i + 2) * minor == (i + 1) * minor + minor;
      var p := (i + 1) * minor;
      QuotientFits(p, major);
      assert (q + 1) * major == q * major + major && (q + 2) * major == q * major + major + major;
      QuotientIs(p + minor, major, if p + minor < (q + 1) * major then q else q + 1);
    }
  }

  /**
   * Which points are drawn between the ends, without a division: on a line that is not diagonal, at step `i` the
   * point `d` steps across for which `d` times the longer axis does not exceed `i + 1` times the shorter, as far
   * across as that goes.
   */
  lemma AcrossExactly(start: int, end: int, i: nat, minor: nat, major: nat, d: nat)
    requires minor < major && end != start
    ensures Across(start, end, i, minor, major) == (if start < end then start + d else start - d) <==>
              d * major <= (i + 1) * minor < (d + 1) * major
  {
    QuotientFits((i + 1) * minor, major);
    if d * major <= (i + 1) * minor < (d + 1) * major {
      QuotientIs((i + 1) * minor, major, d);
    }
  }

  /** One step of the accumulated error is one step of the rounded-down quotient. */
  lemma ErrorStep(i: nat, minor: nat, major: nat, offset: nat, diff: int)
    requires minor < major && diff == (i + 1) * minor - offset * major && 0 <= diff < major + minor
    ensures Offset(i, minor, major) == if diff >= major then offset + 1 else offset
    ensures (i + 2) * minor == (i + 1) * minor + minor && (offset + 1) * major == offset * major + major
  {
    var q := if diff >= major then offset + 1 else offset;
    assert (offset + 1) * major == offset * major + major;
    assert (offset + 2) * major == offset * major + major + major;
    QuotientIs((i + 1) * minor, major, q);
  }

  // ---------------------------------------------------------------- the framebuffer

  function Mask(k: nat): bv8
    requires k < 8
  {
    (1 as bv8) << k
  }

  predicate BitOf(b: bv8, k: nat)
    requires k < 8
  {
    b & Mask(k) != 0
  }

  lemma SetBit(b: bv8, k: nat, j: nat)
    requires k < 8 && j < 8
    ensures BitOf(b | Mask(k), j) <==> BitOf(b, j) || j == k
  {
  }

  lemma SamePixel(v: nat, y: nat)
    ensures 7 - v / 8 == 7 - y / 8 && 7 - v % 8 == 7 - y % 8 <==> v == y
  {
  }

  class Display {
    const cells: array2<bv8>

    ghost predicate Valid()
      reads this
    {
      cells.Length0 == WIDTH && cells.Length1 == PAGES
    }

    predicate Lit(x: nat, y: nat)
      requires Valid() && x < WIDTH && y < HEIGHT
      reads this, cells
    {
      BitOf(cells[x, 7 - y / 8], 7 - y % 8)
    }

    constructor ()
      ensures Valid() && fresh(cells)
    {
      cells := new bv8[WIDTH, PAGES]((_, _) => 0);
    }

    /** Lights one pixel and no other; a position off the display does nothing. */
    method FillPoint(x: nat, y: nat)
      requires Valid()
      modifies cells
      ensures forall u, v :: 0 <= u < WIDTH && 0 <= v < HEIGHT ==>
        (Lit(u, v) <==> old(Lit(u, v)) || (u == x && v == y))
    {
      if x > 127 || y > 63 {
        return;
      }
      hide Mask, BitOf;
      SetCell(x, 7 - y / 8, 7 - y % 8);
      forall u, v | 0 <= u < WIDTH && 0 <= v < HEIGHT
        ensures Lit(u, v) <==> old(Lit(u, v)) || (u == x && v == y)
      {
        SamePixel(v, y);
        SetBit(old(cells[x, 7 - y / 8]), 7 - y % 8, 7 - v % 8);
      }
    }

    method SetCell(x: nat, page: nat, bit: nat)
      requires Valid() && x < WIDTH && page < PAGES && bit < 8
      modifies cells
      ensures forall u, p :: 0 <= u < WIDTH && 0 <= p < PAGES ==>
        cells[u, p] == if u == x && p == page then old(cells[u, p]) | Mask(bit) else old(cells[u, p])
    {
      hide Mask;
      cells[x, page] := cells[x, page] | Mask(bit);
    }

    /** Lights the pixel `u` along and `v` across the longer axis, from 16-bit coordinates. */
    method Plot(alongX: bool, u: int, v: int)
      requires Valid() && 0 <= u < 128 && -1 <= v < 128
      modifies cells
      ensures forall x, y :: 0 <= x < WIDTH && 0 <= y < HEIGHT ==>
        (Lit(x, y) <==> old(Lit(x, y)) || (if alongX then x == u && y == v else y == u && x == v))
    {
      hide BitOf;
      if alongX {
        FillPoint(Low(u), Low(v));
      } else {
        FillPoint(Low(v), Low(u));
      }
    }

    /**
     * The loop of either branch: along the longer axis from `start.0` one by one, across it from
     * `start.1` towards `end` whenever the accumulated error reaches the length.
     */
    method Steps(alongX: bool, from: int, start: int, end: int, major: nat, minor: nat)
      requires Valid() && 0 <= from && from + major < 128 && 0 <= start < 128 && 0 <= end < 128
      requires Abs(end - start) == minor <= major
      modifies cells
      ensures forall x, y :: 0 <= x < WIDTH && 0 <= y < HEIGHT ==>
        (Lit(x, y) <==> old(Lit(x, y)) || Reached(alongX, from, start, end, major, minor, major + 1, Point(x, y)))
    {
      hide BitOf, Across;
      var (u, v, left, diff) := (from, start, major, minor);
      while true
        invariant 0 <= left <= major && u == from + major - left
        invariant Following(start, end, minor, major, major - left, v, diff)
        invariant forall x, y :: 0 <= x < WIDTH && 0 <= y < HEIGHT ==>
          (Lit(x, y) <==> old(Lit(x, y)) || Reached(alongX, from, start, end, major, minor, major - left, Point(x, y)))
        decreases left
      {
        Follow(start, end, minor, major, major - left, v, diff);
        if diff >= major {
          diff := diff - major;
          if v < end {
            v := v + 1;
          } else {
            v := v - 1;
          }
        }
        diff := diff + minor;
        Plot(alongX, u, v);
        u := u + 1;
        if left == 0 {
          break;
        }
        left := left - 1;
      }
    }

    /** Draws a line: the pixels on it are lit, and no other pixel changes. */
    method Line(a: Point, b: Point)
      requires Valid() && OnDisplay(a) && OnDisplay(b)
      modifies cells
      ensures forall x, y :: 0 <= x < WIDTH && 0 <= y < HEIGHT ==>
        (Lit(x, y) <==> old(Lit(x, y)) || OnLine(a, b, Point(x, y)))
    {
      hide BitOf, Across;
      var (xLen, yLen) := (Abs(a.x - b.x), Abs(a.y - b.y));
      var (f, l) := (a, b);
      if yLen < xLen {
        if a.x > b.x {
          f, l := b, a;
        }
        Steps(true, f.x, f.y, l.y, xLen, yLen);
      } else {
        if a.y > b.y {
          f, l := b, a;
        }
        Steps(false, f.y, f.x, l.x, yLen, xLen);
      }
    }
  }

  /** Whether `p` is one of the first `count` points drawn. */
  predicate Reached(alongX: bool, from: int, start: int, end: int, major: nat, minor: nat, count: nat, p: Point) {
    var (u, v) := if alongX then (p.x, p.y) else (p.y, p.x);
    from <= u < from + count && v == Across(start, end, u - from, minor, major)
  }

  /** The state of the loop before point number `i`: the error is what the rounding of the steps so far left over. */
  ghost predicate Following(start: int, end: int, minor: nat, major: nat, i: nat, v: int, diff: int) {
    if minor < major then
      var offset := Sign(end - start) * (v - start);
      0 <= offset <= minor && diff == (i + 1) * minor - offset * major && 0 <= diff < major + minor
    else
      diff == major && v == start + Sign(end - start) * i
  }

  /** One pass of the loop goes to the point that the rounding asks for. */
  lemma Follow(start: int, end: int, minor: nat, major: nat, i: nat, v: int, diff: int)
    requires Abs(end - start) == minor <= major && i <= major && Following(start, end, minor, major, i, v, diff)
    ensures
      var w := if diff < major then v else if v < end then v + 1 else v - 1;
      var rest := (if diff < major then diff else diff - major) + minor;
      w == Across(start, end, i, minor, major)
      && (i < major ==> Following(start, end, minor, major, i + 1, w, rest))
      && (0 <= start < 128 && 0 <= end < 128 ==> -1 <= w < 128)
  {
    hide Offset;
    if minor < major {
      var offset := Sign(end - start) * (v - start);
      ErrorStep(i, minor, major, offset, diff);
      QuotientBounds(i, minor, major);
    }
  }
}
