/** The name a responder takes after it has lost a conflict. */
module MdnsRename {
  import opened Bytes

  const DASH: byte := 0x2D
  const PLUS: byte := 0x2B
  const ZERO: byte := 0x30
  const INT_MAX: nat := 0x7FFF_FFFF

  predicate IsSpace(b: byte) {
    b == 0x20 || 9 <= b <= 13
  }

  predicate IsDigit(b: byte) {
    ZERO <= b <= ZERO + 9
  }

  predicate AllDigits(s: bytes) {
    forall i :: 0 <= i < |s| ==> IsDigit(s[i])
  }

  // ---------------------------------------------------------------- decimal numbers

  /** The decimal digits of a number, without leading zeros. */
  function Digits(n: nat): (s: bytes)
    ensures s != [] && AllDigits(s)
  {
    if n < 10 then [(ZERO + n) as byte] else Digits(n / 10) + [(ZERO + n % 10) as byte]
  }

  /** The number that a string of digits stands for. */
  function Value(s: bytes): nat
    requires AllDigits(s)
  {
    if s == [] then 0 else Value(s[..|s| - 1]) * 10 + (s[|s| - 1] - ZERO)
  }

  lemma {:induction false} ValueOfDigits(n: nat)
    ensures Value(Digits(n)) == n
  {
    var s := Digits(n);
    if n < 10 {
      assert s[..0] == [];
    } else {
      ValueOfDigits(n / 10);
      assert s[..|s| - 1] == Digits(n / 10);
    }
  }

  /** No string of digits for `n` is shorter than its decimal digits. */
  lemma {:induction false} DigitsShortest(s: bytes)
    requires s != [] && AllDigits(s)
    ensures |Digits(Value(s))| <= |s|
  {
    var init := s[..|s| - 1];
    if init == [] {
      assert Value(s) == s[0] - ZERO;
    } else {
      DigitsShortest(init);
      assert Value(s) / 10 == Value(init);
    }
  }

  /** Counting up by one adds at most one digit. */
  lemma {:induction false} OneMoreDigit(n: nat)
    ensures |Digits(n)| <= |Digits(n + 1)| <= |Digits(n)| + 1
  {
    if n >= 10 {
      OneMoreDigit(n / 10);
      assert (n + 1) / 10 == n / 10 || (n + 1) / 10 == n / 10 + 1;
    }
  }

  // ---------------------------------------------------------------- reading a number as the C library does

  function Spaces(s: bytes): (k: nat)
    ensures k <= |s|
  {
    if s == [] || !IsSpace(s[0]) then 0 else 1 + Spaces(s[1..])
  }

  function DigitRun(s: bytes): (k: nat)
    ensures k <= |s| && AllDigits(s[..k]) && (k < |s| ==> !IsDigit(s[k]))
  {
    if s == [] || !IsDigit(s[0]) then 0
    else
      var k := 1 + DigitRun(s[1..]);
      assert s[..k] == [s[0]] + s[1..][..k - 1];
      k
  }

  /** Where the digits of a number start: behind white space and a plus sign. */
  function Front(s: bytes): (k: nat)
    ensures k <= |s|
  {
    var k := Spaces(s);
    if k < |s| && s[k] == PLUS then k + 1 else k
  }

  /**
   * The number at the front of `s`, at most the largest one, and the position behind it.  A minus sign
   * cannot come up: `s` is what follows the last one.
   */
  function ReadNumber(s: bytes): (r: (nat, nat))
    ensures r.0 <= INT_MAX && r.1 <= |s|
  {
    var k := Front(s);
    var n := DigitRun(s[k..]);
    if n == 0 then (0, 0)
    else
      var v := Value(s[k..][..n]);
      (if v > INT_MAX then INT_MAX else v, k + n)
  }

  // ---------------------------------------------------------------- the new name

  /** The position of the last dash. */
  function LastDash(s: bytes): (r: Option<nat>)
    ensures r.Some? ==> r.value < |s| && s[r.value] == DASH && DASH !in s[r.value + 1..]
    ensures r.None? ==> DASH !in s
  {
    if s == [] then None
    else if s[|s| - 1] == DASH then Some(|s| - 1)
    else
      var r := LastDash(s[..|s| - 1]);
      assert s == s[..|s| - 1] + [s[|s| - 1]];
      assert r.Some? ==> s[r.value + 1..] == s[..|s| - 1][r.value + 1..] + [s[|s| - 1]];
      r
  }

  /** A name taken apart: what stands in front of its number, and the number, when it ends in one. */
  function Suffix(s: bytes): (r: Option<(bytes, nat)>)
    ensures r.Some? ==> r.value.0 < s && r.value.1 <= INT_MAX
  {
    match LastDash(s)
    case None => None
    case Some(p) =>
      var (v, end) := ReadNumber(s[p + 1..]);
      if end == |s| - p - 1 then Some((s[..p], v)) else None
  }

  function Numbered(base: bytes, n: nat): bytes {
    base + [DASH] + Digits(n)
  }

  /** The new name; nothing when the next number is too large for the source to compute. */
  function Mangle(s: bytes): Option<bytes> {
    match Suffix(s)
    case None => Some(Numbered(s, 2))
    case Some((base, v)) => if v == INT_MAX then None else Some(Numbered(base, v + 1))
  }

  /** The bytes allocated for the new name, including the zero behind it. */
  function Allocated(s: bytes): nat {
    if Suffix(s).None? then |s| + 3 else |s| + 2
  }

  /** The new name and the zero behind it fit into what was allocated. */
  lemma MangledFits(s: bytes)
    requires Mangle(s).Some?
    ensures |Mangle(s).value| + 1 <= Allocated(s)
  {
    match Suffix(s)
    case None =>
      assert Digits(2) == [ZERO + 2];
    case Some((base, v)) =>
      var tail := s[|base| + 1..];
      OneMoreDigit(v);
      var (k, n) := (Front(tail), DigitRun(tail[Front(tail)..]));
      if n > 0 {
        DigitsShortest(tail[k..][..n]);
      } else {
        assert Digits(v + 1) == [ZERO + 1];
      }
  }

  // ---------------------------------------------------------------- renaming again and again

  lemma {:induction false} LastDashOf(base: bytes, t: bytes)
    requires DASH !in t
    ensures LastDash(base + [DASH] + t) == Some(|base|)
  {
    var s := base + [DASH] + t;
    if t != [] {
      var init := t[..|t| - 1];
      LastDashOf(base, init);
      assert s[..|s| - 1] == base + [DASH] + init;
      assert s[|s| - 1] == t[|t| - 1];
    }
  }

  lemma {:induction false} DigitRunOf(s: bytes)
    requires AllDigits(s)
    ensures DigitRun(s) == |s|
  {
    if s != [] {
      DigitRunOf(s[1..]);
    }
  }

  lemma ReadDigits(n: nat)
    requires n <= INT_MAX
    ensures DASH !in Digits(n) && ReadNumber(Digits(n)) == (n, |Digits(n)|)
  {
    var s := Digits(n);
    DigitRunOf(s);
    ValueOfDigits(n);
    assert IsDigit(s[0]);
    assert s[0..] == s && s[..|s|] == s;
  }

  /** A numbered name comes apart into its base and its number. */
  lemma SuffixOfNumbered(base: bytes, n: nat)
    requires n <= INT_MAX
    ensures Suffix(Numbered(base, n)) == Some((base, n))
  {
    hide Digits, ReadNumber, LastDash;
    ReadDigits(n);
    var s := Numbered(base, n);
    LastDashOf(base, Digits(n));
    assert s[|base| + 1..] == Digits(n);
    assert s[..|base|] == base;
  }

  // ---------------------------------------------------------------- which names end in a number

  predicate AllSpaces(s: bytes) {
    forall i :: 0 <= i < |s| ==> s[i] == 32 || s[i] in {9, 10, 11, 12, 13}
  }

  /** White space, perhaps a plus sign, and digits. */
  ghost predicate Spelled(t: bytes, spaces: bytes, sign: bytes, digits: bytes) {
    && t == spaces + sign + digits && AllSpaces(spaces) && (sign == [] || sign == [0x2B])
    && digits != [] && forall i :: 0 <= i < |digits| ==> 48 <= digits[i] <= 57
  }

  /** What stands behind the last dash is a number: nothing at all, which is zero, or its digits. */
  ghost predicate IsNumber(t: bytes, n: nat) {
    (t == [] && n == 0) ||
    exists spaces, sign, digits ::
      Spelled(t, spaces, sign, digits) && AllDigits(digits) &&
      n == if Value(digits) > INT_MAX then INT_MAX else Value(digits)
  }

  lemma {:induction false} SpacesOf(spaces: bytes, rest: bytes)
    requires AllSpaces(spaces) && (rest == [] || !IsSpace(rest[0]))
    ensures Spaces(spaces + rest) == |spaces|
  {
    if spaces == [] {
      assert spaces + rest == rest;
    } else {
      assert (spaces + rest)[0] == spaces[0] && (spaces + rest)[1..] == spaces[1..] + rest;
      SpacesOf(spaces[1..], rest);
    }
  }

  lemma {:induction false} SpacesAre(s: bytes)
    ensures AllSpaces(s[..Spaces(s)])
  {
    if s != [] && IsSpace(s[0]) {
      SpacesAre(s[1..]);
      assert s[..Spaces(s)] == [s[0]] + s[1..][..Spaces(s) - 1];
    }
  }

  lemma FrontOf(t: bytes, spaces: bytes, sign: bytes, digits: bytes)
    requires Spelled(t, spaces, sign, digits)
    ensures Front(t) == |spaces| + |sign| && t[|spaces| + |sign|..] == digits
  {
    hide AllSpaces;
    var rest := sign + digits;
    assert rest[0] == if sign == [] then digits[0] else 0x2B;
    assert t == spaces + rest;
    SpacesOf(spaces, rest);
    assert t[|spaces|] == rest[0];
  }

  lemma ReadSpelled(t: bytes, spaces: bytes, sign: bytes, digits: bytes)
    requires Spelled(t, spaces, sign, digits) && AllDigits(digits)
    ensures ReadNumber(t) == (if Value(digits) > INT_MAX then INT_MAX else Value(digits), |t|)
  {
    FrontOf(t, spaces, sign, digits);
    DigitRunOf(digits);
    assert digits[..|digits|] == digits;
    hide Front, Value, DigitRun, AllSpaces, AllDigits;
  }

  lemma SpelledIsRead(t: bytes, n: nat)
    requires IsNumber(t, n)
    ensures ReadNumber(t) == (n, |t|)
  {
    if t != [] {
      hide ReadNumber, Value, AllSpaces;
      var spaces, sign, digits :| Spelled(t, spaces, sign, digits) && AllDigits(digits) &&
        n == if Value(digits) > INT_MAX then INT_MAX else Value(digits);
      ReadSpelled(t, spaces, sign, digits);
    }
  }

  /** What is read to its end is a number as spelled. */
  lemma ReadIsNumber(t: bytes)
    requires ReadNumber(t).1 == |t|
    ensures IsNumber(t, ReadNumber(t).0)
  {
    if t != [] {
      var (k, d) := (Front(t), DigitRun(t[Front(t)..]));
      var (spaces, sign, digits) := (t[..Spaces(t)], t[Spaces(t)..k], t[k..]);
      SpacesAre(t);
      assert t[k..][..d] == digits;
      assert t == spaces + sign + digits;
      assert Spelled(t, spaces, sign, digits);
    }
  }

  lemma SuffixBehindDash(base: bytes, t: bytes)
    requires DASH !in t
    ensures Suffix(base + [DASH] + t) ==
              if ReadNumber(t).1 == |t| then Some((base, ReadNumber(t).0)) else None
  {
    var s := base + [DASH] + t;
    LastDashOf(base, t);
    assert s[|base| + 1..] == t && s[..|base|] == base;
    hide LastDash, ReadNumber;
  }

  /**
   * Exactly which names end in a number, and in which: those with white space, perhaps a plus sign, and digits
   * behind the last dash, or nothing.  Any other name is kept whole.
   */
  lemma SuffixExactly(base: bytes, t: bytes, n: nat)
    requires DASH !in t
    ensures Suffix(base + [DASH] + t) == Some((base, n)) <==> IsNumber(t, n)
    ensures Suffix(base + [DASH] + t).Some? ==> Suffix(base + [DASH] + t).value.0 == base
    ensures DASH !in base ==> Suffix(base) == None
  {
    SuffixBehindDash(base, t);
    NoDash(base);
    hide Suffix, ReadNumber, IsNumber;
    if IsNumber(t, n) {
      SpelledIsRead(t, n);
    } else if ReadNumber(t).1 == |t| {
      ReadIsNumber(t);
    }
  }

  lemma NoDash(s: bytes)
    ensures DASH !in s ==> Suffix(s) == None
  {
    hide ReadNumber;
  }

  /** The name after `k` conflicts. */
  function Renamed(s: bytes, k: nat): Option<bytes> {
    if k == 0 then Some(s)
    else match Renamed(s, k - 1)
      case None => None
      case Some(t) => Mangle(t)
  }

  function Base(s: bytes): bytes {
    if Suffix(s).None? then s else Suffix(s).value.0
  }

  /** The number from which renaming counts up; a name without a number counts as number 1. */
  function Start(s: bytes): nat {
    if Suffix(s).None? then 1 else Suffix(s).value.1
  }

  /** After `k` conflicts the number has gone up by `k`, for exactly as long as it fits an int. */
  lemma {:induction false} RenamedIs(s: bytes, k: nat)
    requires k > 0
    ensures Renamed(s, k) ==
      if Start(s) + k <= INT_MAX then Some(Numbered(Base(s), Start(s) + k)) else None
  {
    hide Suffix, Numbered;
    assert Renamed(s, 0) == Some(s);
    if k > 1 {
      RenamedIs(s, k - 1);
      if Start(s) + k - 1 <= INT_MAX {
        SuffixOfNumbered(Base(s), Start(s) + k - 1);
      }
    }
  }

  /** A name without a dash becomes name-2, name-3 and so on. */
  lemma DashFree(s: bytes, k: nat)
    requires DASH !in s && 0 < k < INT_MAX
    ensures Renamed(s, k) == Some(Numbered(s, k + 1))
  {
    RenamedIs(s, k);
    assert LastDash(s).None?;
  }

  /** Renaming never comes back to a name it has left, whatever the first name looks like. */
  lemma NeverRepeats(s: bytes, j: nat, k: nat)
    requires j < k && Renamed(s, k).Some?
    ensures Renamed(s, j).Some? && Renamed(s, j) != Renamed(s, k)
  {
    hide Suffix, Numbered;
    RenamedIs(s, k);
    SuffixOfNumbered(Base(s), Start(s) + k);
    if j > 0 {
      RenamedIs(s, j);
      SuffixOfNumbered(Base(s), Start(s) + j);
    } else {
      assert Renamed(s, 0) == Some(s);
    }
  }
}
