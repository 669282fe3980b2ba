/**
 * The questions of a probe.  A service that is withdrawn takes away the first question of its type,
 * which need not be its own: what remains, and when that is what is still being probed.
 */
module MdnsQuestions {
  import opened MdnsTxQueue

  function Members(s: seq<Service>): set<Service> {
    set x | x in s
  }

  /** The list without the first question of a type. */
  function WithoutKind(s: seq<Service>, kind: nat): seq<Service> {
    if s == [] then [] else if s[0].kind == kind then s[1..] else [s[0]] + WithoutKind(s[1..], kind)
  }

  /** The list without a service itself. */
  function WithoutFirst(s: seq<Service>, x: Service): seq<Service> {
    if s == [] then [] else if s[0] == x then s[1..] else [s[0]] + WithoutFirst(s[1..], x)
  }

  function Count(s: seq<Service>, kind: nat): nat {
    if s == [] then 0 else (if s[0].kind == kind then 1 else 0) + Count(s[1..], kind)
  }

  /** Those of `s` that are in `kept`, in order. */
  function Keep(s: seq<Service>, kept: set<Service>): seq<Service> {
    if s == [] then [] else if s[0] in kept then [s[0]] + Keep(s[1..], kept) else Keep(s[1..], kept)
  }

  /** Of each type, the last of those asked for: as many as there are left among the recorded services. */
  function Latest(asked: seq<Service>, left: seq<Service>): seq<Service> {
    if asked == [] then []
    else
      var rest := Latest(asked[1..], left);
      if Count(rest, asked[0].kind) < Count(left, asked[0].kind) then [asked[0]] + rest else rest
  }

  /** A service asked for behind another of the same type that is left, is left as well. */
  ghost predicate LastAreLeft(asked: seq<Service>, left: seq<Service>) {
    forall i, j :: 0 <= i < j < |asked| && asked[i].kind == asked[j].kind && asked[i] in left ==> asked[j] in left
  }

  /** A service with none of the same type in front of it. */
  predicate FirstOfKind(s: seq<Service>, x: Service) {
    x in s && (s[0] == x || (s[0].kind != x.kind && FirstOfKind(s[1..], x)))
  }

  /** The first of a type at `i` is the one that goes; with none of the type nothing does. */
  lemma {:induction false} WithoutKindAt(s: seq<Service>, kind: nat, i: nat)
    requires i <= |s| && (forall j :: 0 <= j < i ==> s[j].kind != kind) && (i < |s| ==> s[i].kind == kind)
    ensures WithoutKind(s, kind) == if i < |s| then s[..i] + s[i + 1..] else s
  {
    if i > 0 {
      WithoutKindAt(s[1..], kind, i - 1);
      assert i < |s| ==> [s[0]] + (s[1..][..i - 1] + s[1..][i..]) == s[..i] + s[i + 1..];
    }
  }

  class ProbePacket {
    var questions: seq<Service>

    /** Removes the first question whose service and protocol names are those of the service withdrawn. */
    method RemoveQuestion(kind: nat)
      modifies this
      ensures questions == WithoutKind(old(questions), kind)
    {
      var i := 0;
      while i < |questions| && questions[i].kind != kind
        invariant i <= |questions| && questions == old(questions)
        invariant forall j :: 0 <= j < i ==> questions[j].kind != kind
      {
        i := i + 1;
      }
      WithoutKindAt(questions, kind, i);
      if i < |questions| {
        questions := questions[..i] + questions[i + 1..];
      }
    }
  }

  // ---------------------------------------------------------------- counting

  lemma {:induction false} WithoutKindCount(s: seq<Service>, kind: nat, k: nat)
    ensures Count(WithoutKind(s, kind), k) == if k == kind && Count(s, k) > 0 then Count(s, k) - 1 else Count(s, k)
  {
    if s != [] {
      WithoutKindCount(s[1..], kind, k);
    }
  }

  lemma {:induction false} WithoutFirstCount(s: seq<Service>, x: Service, k: nat)
    ensures Count(WithoutFirst(s, x), k) == if k == x.kind && x in s then Count(s, k) - 1 else Count(s, k)
    ensures x in s ==> Count(s, x.kind) > 0
  {
    if s != [] {
      WithoutFirstCount(s[1..], x, k);
    }
  }

  lemma {:induction false} KeepCount(s: seq<Service>, kept: set<Service>, k: nat)
    ensures Count(Keep(s, kept), k) <= Count(s, k)
  {
    if s != [] {
      KeepCount(s[1..], kept, k);
    }
  }

  lemma {:induction false} LatestCount(asked: seq<Service>, left: seq<Service>, k: nat)
    ensures var (n, m) := (Count(asked, k), Count(left, k)); Count(Latest(asked, left), k) == if n < m then n else m
  {
    if asked != [] {
      LatestCount(asked[1..], left, k);
    }
  }

  // ---------------------------------------------------------------- one service withdrawn

  /** When as many are left as were asked for, nothing is missing. */
  lemma {:induction false} LatestAll(asked: seq<Service>, left: seq<Service>)
    requires forall k :: Count(asked, k) <= Count(left, k)
    ensures Latest(asked, left) == asked
  {
    if asked != [] {
      forall k ensures Count(asked[1..], k) <= Count(left, k) {
        assert Count(asked, k) <= Count(left, k);
      }
      LatestAll(asked[1..], left);
      assert Count(asked, asked[0].kind) <= Count(left, asked[0].kind);
    }
  }

  lemma {:induction false} LatestLess(asked: seq<Service>, left: seq<Service>, less: seq<Service>, kind: nat)
    requires Count(left, kind) == Count(less, kind) + 1
    requires forall k :: k != kind ==> Count(less, k) == Count(left, k)
    ensures var (l, l') := (Latest(asked, left), Latest(asked, less));
      l' == if Count(l, kind) == Count(left, kind) then WithoutKind(l, kind) else l
  {
    if asked != [] {
      LatestLess(asked[1..], left, less, kind);
      LatestCount(asked[1..], left, kind);
      WithoutKindCount(Latest(asked[1..], left), kind, asked[0].kind);
    }
  }

  /** The first question of the type goes when the number left of that type drops by one. */
  lemma WithdrawnQuestion(asked: seq<Service>, left: seq<Service>, x: Service)
    requires x in left && forall k :: Count(left, k) <= Count(asked, k)
    ensures Latest(asked, WithoutFirst(left, x)) == WithoutKind(Latest(asked, left), x.kind)
  {
    forall k ensures Count(WithoutFirst(left, x), k) == if k == x.kind then Count(left, k) - 1 else Count(left, k) {
      WithoutFirstCount(left, x, k);
    }
    LatestLess(asked, left, WithoutFirst(left, x), x.kind);
    LatestCount(asked, left, x.kind);
  }

  lemma {:induction false} WithoutFirstMembers(s: seq<Service>, x: Service)
    requires NoRepeat(s)
    ensures NoRepeat(WithoutFirst(s, x))
    ensures forall y :: y in WithoutFirst(s, x) <==> y in s && y != x
  {
    if s != [] {
      assert s == [s[0]] + s[1..];
      NoRepeatTail(s[0], s[1..]);
      if s[0] != x {
        WithoutFirstMembers(s[1..], x);
        NoRepeatConcat([s[0]], WithoutFirst(s[1..], x));
      }
    }
  }

  /** Withdrawing a service takes away its own question exactly if none of the same type is in front of it. */
  lemma {:induction false} OwnQuestionGoes(s: seq<Service>, x: Service)
    requires NoRepeat(s) && x in s
    ensures WithoutKind(s, x.kind) == WithoutFirst(s, x) <==> FirstOfKind(s, x)
  {
    assert s == [s[0]] + s[1..];
    NoRepeatTail(s[0], s[1..]);
    if s[0] != x {
      if s[0].kind == x.kind {
        assert WithoutFirst(s, x)[0] == s[0];
        assert s[0] !in WithoutKind(s, x.kind);
      } else {
        OwnQuestionGoes(s[1..], x);
        assert WithoutKind(s, x.kind)[1..] == WithoutKind(s[1..], x.kind);
        assert WithoutFirst(s, x)[1..] == WithoutFirst(s[1..], x);
      }
    }
  }

  // ---------------------------------------------------------------- any number of services withdrawn

  lemma {:induction false} KeepAll(s: seq<Service>, kept: set<Service>)
    requires forall x :: x in s ==> x in kept
    ensures Keep(s, kept) == s
  {
    if s != [] {
      KeepAll(s[1..], kept);
    }
  }

  lemma {:induction false} KeepNoRepeat(s: seq<Service>, kept: set<Service>)
    requires NoRepeat(s)
    ensures NoRepeat(Keep(s, kept))
    ensures forall x :: x in Keep(s, kept) <==> x in s && x in kept
  {
    if s != [] {
      assert s == [s[0]] + s[1..];
      NoRepeatTail(s[0], s[1..]);
      KeepNoRepeat(s[1..], kept);
      NoRepeatConcat([s[0]], Keep(s[1..], kept));
    }
  }

  lemma {:induction false} KeepLess(s: seq<Service>, kept: set<Service>, x: Service)
    requires NoRepeat(s)
    ensures Keep(s, kept - {x}) == WithoutFirst(Keep(s, kept), x)
  {
    if s != [] {
      assert s == [s[0]] + s[1..];
      NoRepeatTail(s[0], s[1..]);
      if s[0] == x {
        KeepSame(s[1..], kept, kept - {x});
        if x !in kept {
          NotKept(s[1..], kept, x);
        }
      } else {
        KeepLess(s[1..], kept, x);
      }
    }
  }

  lemma {:induction false} KeepSame(s: seq<Service>, kept: set<Service>, kept': set<Service>)
    requires forall x :: x in s ==> (x in kept <==> x in kept')
    ensures Keep(s, kept) == Keep(s, kept')
  {
    if s != [] {
      KeepSame(s[1..], kept, kept');
    }
  }

  lemma {:induction false} NotKept(s: seq<Service>, kept: set<Service>, x: Service)
    requires x !in s
    ensures WithoutFirst(Keep(s, kept), x) == Keep(s, kept)
  {
    if s != [] {
      NotKept(s[1..], kept, x);
    }
  }

  lemma {:induction false} KeepConcat(a: seq<Service>, b: seq<Service>, kept: set<Service>, k: nat)
    ensures Count(Keep(a + b, kept), k) == Count(Keep(a, kept), k) + Count(Keep(b, kept), k)
  {
    if a == [] {
      assert a + b == b;
    } else {
      KeepConcat(a[1..], b, kept, k);
      assert (a + b)[0] == a[0] && (a + b)[1..] == a[1..] + b;
    }
  }

  lemma {:induction false} NoneKept(a: seq<Service>, kept: set<Service>, k: nat)
    requires forall i :: 0 <= i < |a| && a[i].kind == k ==> a[i] !in kept
    ensures Count(Keep(a, kept), k) == 0
  {
    if a != [] {
      NoneKept(a[1..], kept, k);
    }
  }

  /** If those left are the last of each type, the last of each type are those left. */
  lemma {:induction false} LastAreKept(asked: seq<Service>, left: seq<Service>, n: nat)
    requires n <= |asked| && LastAreLeft(asked, left) && left == Keep(asked, Members(left))
    ensures Latest(asked[n..], left) == Keep(asked[n..], Members(left))
    decreases |asked| - n
  {
    if n < |asked| {
      LastAreKept(asked, left, n + 1);
      var (a, kept) := (asked[n], Members(left));
      assert asked[n..][1..] == asked[n + 1..];
      assert asked == asked[..n] + asked[n..];
      KeepConcat(asked[..n], asked[n..], kept, a.kind);
      if a !in kept {
        NoneKept(asked[..n], kept, a.kind);
      }
    }
  }

  lemma {:induction false} LatestMembers(asked: seq<Service>, left: seq<Service>)
    ensures forall x :: x in Latest(asked, left) ==> x in asked
  {
    if asked != [] {
      LatestMembers(asked[1..], left);
    }
  }

  /** Once a question remains, the questions of its type behind it remain as well. */
  lemma {:induction false} BehindRemains(asked: seq<Service>, left: seq<Service>, i: nat, j: nat)
    requires i < j < |asked| && asked[i].kind == asked[j].kind && NoRepeat(asked) && asked[i] in Latest(asked, left)
    ensures asked[j] in Latest(asked, left)
    decreases i
  {
    assert asked == [asked[0]] + asked[1..];
    NoRepeatTail(asked[0], asked[1..]);
    if i == 0 {
      LatestMembers(asked[1..], left);
      StillRoom(asked[1..], left, j - 1);
    } else {
      assert asked[i] == asked[1..][i - 1] && asked[j] == asked[1..][j - 1];
      BehindRemains(asked[1..], left, i - 1, j - 1);
    }
  }

  /** While fewer remain than are left, none of that type has been dropped. */
  lemma {:induction false} StillRoom(asked: seq<Service>, left: seq<Service>, j: nat)
    requires j < |asked| && Count(Latest(asked, left), asked[j].kind) < Count(left, asked[j].kind)
    ensures asked[j] in Latest(asked, left)
  {
    if j > 0 {
      StillRoom(asked[1..], left, j - 1);
    }
  }

  /** What remains to be asked is what is left, exactly if of each type the last ones asked for are left. */
  lemma AskedExactly(asked: seq<Service>, left: seq<Service>)
    requires NoRepeat(asked) && left == Keep(asked, Members(left))
    ensures Latest(asked, left) == left <==> LastAreLeft(asked, left)
  {
    if LastAreLeft(asked, left) {
      LastAreKept(asked, left, 0);
      assert asked[0..] == asked;
    }
    if Latest(asked, left) == left {
      forall i, j | 0 <= i < j < |asked| && asked[i].kind == asked[j].kind && asked[i] in left
        ensures asked[j] in left
      {
        BehindRemains(asked, left, i, j);
      }
    }
  }
}
