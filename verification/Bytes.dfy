/** Bytes and a few facts about byte strings shared by every module. */
module Bytes {

  type byte = b: int | 0 <= b < 256

  type bytes = seq<byte>

  datatype Option<+T> = None | Some(value: T)

  function Bits(b: byte): bv8 {
    b as bv8
  }

  /** Bitwise exclusive or of two bytes. */
  function Xor(a: byte, b: byte): byte {
    ((a as bv8) ^ (b as bv8)) as int
  }

  lemma NextBits(x: bv8)
    requires x < 255
    ensures (x + 1) as int == x as int + 1
  {
  }

  lemma {:induction false} BitsFor(a: byte) returns (x: bv8)
    ensures x as int == a
    decreases a
  {
    if a == 0 {
      return 0;
    }
    var y := BitsFor(a - 1);
    NextBits(y);
    return y + 1;
  }

  lemma SameBits(x: bv8)
    ensures (x as int) as bv8 == x
  {
  }

  /** A byte and its bits stand for each other. */
  lemma ByteOfBits(a: byte, x: bv8)
    ensures (a as bv8) as int == a
    ensures x as int == a <==> a as bv8 == x
  {
    var y := BitsFor(a);
    SameBits(y);
    SameBits(x);
  }

  /** All the strings of `ss`, one after another. */
  function Flatten<T>(ss: seq<seq<T>>): seq<T> {
    if ss == [] then [] else ss[0] + Flatten(ss[1..])
  }

  lemma Regroup<T>(a: seq<T>, b: seq<T>, c: seq<T>)
    ensures a + (b + c) == (a + b) + c
  {
  }

  lemma CutAt<T>(s: seq<T>, i: nat)
    requires i < |s|
    ensures s[..i + 1] == s[..i] + [s[i]] && s[..i + 1] + s[i + 1..] == s
  {
  }

  lemma SliceOfSlice<T>(s: seq<T>, a: nat, b: nat, c: nat, d: nat)
    requires a <= b <= |s| && c <= d <= b - a
    ensures s[a..b][c..d] == s[a + c..a + d]
  {
    var (x, y) := (s[a..b][c..d], s[a + c..a + d]);
    assert |x| == |y|;
    forall k | 0 <= k < |x| ensures x[k] == y[k] {
      assert x[k] == s[a..b][c + k] == s[a + (c + k)];
      assert y[k] == s[a + c + k];
    }
  }

  lemma PrefixOfPrefix<T>(a: seq<T>, b: seq<T>, c: seq<T>, i: nat, j: nat)
    requires i <= j && j <= |a| && j <= |b| && i <= |c| && a[..j] == b[..j] && b[..i] == c[..i]
    ensures a[..i] == c[..i]
  {
    assert a[..i] == a[..j][..i] && b[..i] == b[..j][..i];
  }

  lemma {:induction false} FlattenConcat<T>(a: seq<seq<T>>, b: seq<seq<T>>)
    ensures Flatten(a + b) == Flatten(a) + Flatten(b)
  {
    if a == [] {
      assert a + b == b;
    } else {
      FlattenConcat(a[1..], b);
      assert (a + b)[0] == a[0] && (a + b)[1..] == a[1..] + b;
      Regroup(a[0], Flatten(a[1..]), Flatten(b));
    }
  }

  lemma FlattenSnoc<T>(a: seq<seq<T>>, s: seq<T>)
    ensures Flatten(a + [s]) == Flatten(a) + s
  {
    FlattenConcat(a, [s]);
    assert [s][1..] == [];
  }
}
