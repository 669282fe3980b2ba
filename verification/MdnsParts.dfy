/**
 * What the parser makes of the labels of any name: which of them are joined to the host, which become its
 * other parts, and when the name is refused.
 */
module MdnsParts {
  import opened Bytes
  import opened MdnsName

  /** The marker of a subtype, which is no part of the name. */
  predicate IsMarker(t: bytes) {
    SameText(t, SUB)
  }

  function Unmarked(labels: seq<bytes>): (r: seq<bytes>)
    ensures |r| <= |labels| && forall i :: 0 <= i < |r| ==> !IsMarker(r[i])
  {
    if labels == [] then []
    else if IsMarker(labels[0]) then Unmarked(labels[1..])
    else [labels[0]] + Unmarked(labels[1..])
  }

  /** A further label of a host name with dots: not that of a service, nor one that begins a domain. */
  predicate OfHost(t: bytes) {
    !(t != [] && t[0] == UNDERSCORE) && !IsDomain(t) && !SameText(t, IP6) && !SameText(t, IN_ADDR)
  }

  /** How many labels at the front belong to the host behind its first. */
  function MoreOfHost(labels: seq<bytes>): (n: nat)
    ensures n <= |labels|
    ensures forall i :: 0 <= i < n ==> OfHost(labels[i])
    ensures n < |labels| ==> !OfHost(labels[n])
  {
    if labels == [] || !OfHost(labels[0]) then 0 else 1 + MoreOfHost(labels[1..])
  }

  /** The host with its labels separated by dots, as much of it as its field holds. */
  function Dotted(host: bytes, more: seq<bytes>): bytes
    decreases |more|
  {
    if more == [] then host else Dotted(Clip(Clip(host + [DOT]) + more[0]), more[1..])
  }

  /** The parts that labels without markers make: the host, and each label behind it. */
  function Grouped(named: seq<bytes>): (ps: seq<bytes>)
    ensures ps == [] <==> named == []
  {
    if named == [] then []
    else
      var n := MoreOfHost(named[1..]);
      [Dotted(named[0], named[1..1 + n])] + named[1 + n..]
  }

  function PartsOf(labels: seq<bytes>): seq<bytes> {
    Grouped(Unmarked(labels))
  }

  /** Something stands behind four parts. */
  predicate TooLong(labels: seq<bytes>) {
    labels != [] && |PartsOf(labels[..|labels| - 1])| >= 4
  }

  /** The name ends in a domain that this responder serves. */
  predicate HasDomain(labels: seq<bytes>) {
    var named := Unmarked(labels);
    |named| >= 2 && IsDomain(named[|named| - 1])
  }

  /** Where the parts go: host, service, proto and domain. */
  function Placed(parts: seq<bytes>): seq<bytes>
    requires |parts| <= 4
  {
    match |parts|
    case 0 => [[], [], [], []]
    case 1 => [parts[0], [], [], []]
    case 2 => [parts[0], [], [], parts[1]]
    case 3 => [[], parts[0], parts[1], parts[2]]
    case _ => parts
  }

  // ---------------------------------------------------------------- letters and dots

  /** The same letter, once as a capital. */
  predicate IsCapitalOf(a: byte, b: byte) {
    'A' as int <= a <= 'Z' as int && b - a == 'a' as int - 'A' as int
  }

  lemma LowerExactly(a: byte, b: byte)
    ensures Lower(a) == Lower(b) <==> a == b || IsCapitalOf(a, b) || IsCapitalOf(b, a)
  {
  }

  /** Which labels are taken for the same: those that differ in the case of ASCII letters at most. */
  lemma SameTextExactly(a: bytes, b: bytes)
    ensures SameText(a, b) <==>
      |a| == |b| && forall i :: 0 <= i < |a| ==> a[i] == b[i] || IsCapitalOf(a[i], b[i]) || IsCapitalOf(b[i], a[i])
  {
    hide Lower, IsCapitalOf;
    if |a| == |b| {
      forall i | 0 <= i < |a|
        ensures Lower(a[i]) == Lower(b[i]) <==> a[i] == b[i] || IsCapitalOf(a[i], b[i]) || IsCapitalOf(b[i], a[i])
      {
        LowerExactly(a[i], b[i]);
      }
    }
  }

  /** A label is filed up to its first zero byte, and whole if it has none. */
  lemma {:induction false} TextExactly(s: bytes)
    ensures Text(s) <= s && 0 !in Text(s) && (|Text(s)| < |s| ==> s[|Text(s)|] == 0)
  {
    if s != [] && s[0] != 0 {
      TextExactly(s[1..]);
      assert s == [s[0]] + s[1..];
    }
  }

  /** A host name written out, with a dot in front of every label but the first. */
  function WithDots(host: bytes, more: seq<bytes>): bytes
    decreases |more|
  {
    if more == [] then host else WithDots(host + [DOT] + more[0], more[1..])
  }

  lemma {:induction false} WithDotsStarts(host: bytes, more: seq<bytes>)
    ensures host <= WithDots(host, more)
    decreases |more|
  {
    if more != [] {
      WithDotsStarts(host + [DOT] + more[0], more[1..]);
    }
  }

  /** The host filed is the name with its dots, or the first 64 bytes of it. */
  lemma {:induction false} DottedIs(host: bytes, more: seq<bytes>)
    requires |host| <= 64
    ensures var full := WithDots(host, more);
      Dotted(host, more) == if |full| <= 64 then full else full[..64]
    decreases |more|
  {
    if more != [] {
      var longer := host + [DOT] + more[0];
      WithDotsStarts(longer, more[1..]);
      if |longer| <= 64 {
        assert Clip(Clip(host + [DOT]) + more[0]) == longer;
        DottedIs(longer, more[1..]);
      } else {
        assert Clip(Clip(host + [DOT]) + more[0]) == longer[..64];
        FullStays(longer[..64], more[1..]);
        assert WithDots(host, more)[..|longer|] == longer;
      }
    }
  }

  lemma {:induction false} FullStays(host: bytes, more: seq<bytes>)
    requires |host| == 64
    ensures Dotted(host, more) == host
    decreases |more|
  {
    if more != [] {
      assert Clip(Clip(host + [DOT]) + more[0]) == host;
      FullStays(host, more[1..]);
    }
  }

  // ---------------------------------------------------------------- one label more

  lemma {:induction false} UnmarkedSnoc(labels: seq<bytes>, t: bytes)
    ensures Unmarked(labels + [t]) == if IsMarker(t) then Unmarked(labels) else Unmarked(labels) + [t]
  {
    hide SameText;
    if labels == [] {
      assert [t][1..] == [];
    } else {
      UnmarkedSnoc(labels[1..], t);
      assert (labels + [t])[0] == labels[0] && (labels + [t])[1..] == labels[1..] + [t];
    }
  }

  lemma {:induction false} MoreOfHostSnoc(labels: seq<bytes>, t: bytes)
    ensures MoreOfHost(labels + [t]) ==
              if MoreOfHost(labels) == |labels| && OfHost(t) then |labels| + 1 else MoreOfHost(labels)
  {
    hide OfHost;
    if labels == [] {
      assert [t][1..] == [];
    } else {
      assert (labels + [t])[0] == labels[0] && (labels + [t])[1..] == labels[1..] + [t];
      MoreOfHostSnoc(labels[1..], t);
    }
  }

  lemma {:induction false} DottedSnoc(host: bytes, more: seq<bytes>, t: bytes)
    ensures Dotted(host, more + [t]) == Clip(Clip(Dotted(host, more) + [DOT]) + t)
    decreases |more|
  {
    hide Clip;
    if more == [] {
      assert [t][1..] == [];
    } else {
      assert (more + [t])[0] == more[0] && (more + [t])[1..] == more[1..] + [t];
      DottedSnoc(Clip(Clip(host + [DOT]) + more[0]), more[1..], t);
    }
  }

  lemma GroupedSnoc(named: seq<bytes>, t: bytes)
    requires named != []
    ensures var (ps, qs) := (Grouped(named), Grouped(named + [t]));
      if |ps| == 1 && OfHost(t) then qs == [Clip(Clip(ps[0] + [DOT]) + t)] else qs == ps + [t]
  {
    hide OfHost, Clip, Dotted, MoreOfHost;
    var (h, more, n) := (named[0], named[1..], MoreOfHost(named[1..]));
    assert (named + [t])[0] == h && (named + [t])[1..] == more + [t];
    MoreOfHostSnoc(more, t);
    assert named[1..1 + n] == more[..n] && named[1 + n..] == more[n..];
    var n' := MoreOfHost(more + [t]);
    assert (named + [t])[1..1 + n'] == (more + [t])[..n'] && (named + [t])[1 + n'..] == (more + [t])[n'..];
    if n == |more| && OfHost(t) {
      DottedSnoc(h, more, t);
      assert more[..n] == more && (more + [t])[..n'] == more + [t];
    } else {
      assert (more + [t])[..n] == more[..n] && (more + [t])[n..] == more[n..] + [t];
    }
  }

  /** What one label more does to the parts. */
  lemma PartsSnoc(labels: seq<bytes>, t: bytes)
    ensures var (ps, qs) := (PartsOf(labels), PartsOf(labels + [t]));
      if IsMarker(t) then qs == ps
      else if |ps| == 1 && OfHost(t) then qs == [Clip(Clip(ps[0] + [DOT]) + t)]
      else qs == ps + [t]
  {
    hide IsMarker, OfHost, Clip;
    UnmarkedSnoc(labels, t);
    if !IsMarker(t) {
      if Unmarked(labels) == [] {
        FirstPart(t);
      } else {
        hide Grouped;
        GroupedSnoc(Unmarked(labels), t);
      }
    }
  }

  lemma FirstPart(t: bytes)
    ensures Grouped([t]) == [t] && [] + [t] == [t]
  {
    assert [t][1..] == [];
  }

  // ---------------------------------------------------------------- filing is grouping

  lemma {:induction false} FileSnoc(n: Name, labels: seq<bytes>, t: bytes)
    requires NameOk(n)
    ensures FileAll(n, labels + [t]) == AddLabel(Mark(FileAll(n, labels)), t)
    decreases |labels|
  {
    hide AddLabel;
    if labels == [] {
      assert [t][1..] == [] && labels + [t] == [t];
    } else {
      assert (labels + [t])[0] == labels[0] && (labels + [t])[1..] == labels[1..] + [t];
      FileSnoc(AddLabel(Mark(n), labels[0]), labels[1..], t);
    }
  }

  /** The state of the parser behind some labels: no more than four parts are filed, each at its place. */
  predicate Filed(r: Name, labels: seq<bytes>)
    requires NameOk(r)
  {
    var ps := PartsOf(labels);
    && (r.invalid <==> TooLong(labels))
    && (if |ps| <= 4 then r.parts == |ps| else r.parts == 4 && r.invalid)
    && (!r.invalid ==> forall i :: 0 <= i < 4 ==> r.texts[i] == if i < |ps| then ps[i] else [])
  }

  lemma MarkerIsNotOfHost(t: bytes)
    requires IsMarker(t)
    ensures !OfHost(t)
  {
    assert |t| == 4 && Lower(t[0]) == Lower(SUB[0]);
  }

  lemma JoinsExactly(n: Name, t: bytes)
    ensures JoinsHost(n, t) <==> n.parts == 1 && OfHost(t)
  {
  }

  lemma StaysLong(labels: seq<bytes>)
    requires TooLong(labels)
    ensures |PartsOf(labels)| >= 4
  {
    hide PartsOf, IsMarker, OfHost;
    var (front, t) := (labels[..|labels| - 1], labels[|labels| - 1]);
    assert labels == front + [t];
    PartsSnoc(front, t);
  }

  lemma LongBehind(labels: seq<bytes>, t: bytes)
    ensures TooLong(labels + [t]) <==> |PartsOf(labels)| >= 4
  {
    hide PartsOf;
    assert (labels + [t])[..|labels|] == labels;
  }

  lemma OneMoreFiled(n: Name, labels: seq<bytes>, t: bytes)
    requires NameOk(n) && Filed(n, labels)
    ensures Filed(AddLabel(Mark(n), t), labels + [t])
  {
    hide SameText, OfHost, JoinsHost, PartsOf, TooLong, Clip;
    PartsSnoc(labels, t);
    LongBehind(labels, t);
    if TooLong(labels) {
      StaysLong(labels);
    }
    JoinsExactly(Mark(n), t);
    if IsMarker(t) {
      MarkerIsNotOfHost(t);
    }
  }

  lemma {:induction false} FiledIs(labels: seq<bytes>)
    ensures Filed(FileAll(Blank(), labels), labels)
    ensures FileAll(Blank(), labels).sub <==> exists i :: 0 <= i < |labels| && IsMarker(labels[i])
    decreases |labels|
  {
    hide AddLabel, Filed, IsMarker;
    if labels == [] {
      NothingFiled();
    } else {
      var (front, t) := (labels[..|labels| - 1], labels[|labels| - 1]);
      assert labels == front + [t];
      FiledIs(front);
      FileSnoc(Blank(), front, t);
      OneMoreFiled(FileAll(Blank(), front), front, t);
      SubFiled(FileAll(Blank(), front), t);
      assert forall i :: 0 <= i < |front| ==> labels[i] == front[i];
    }
  }

  lemma NothingFiled()
    ensures Filed(Blank(), [])
  {
  }

  lemma SubFiled(n: Name, t: bytes)
    requires NameOk(n)
    ensures AddLabel(Mark(n), t).sub <==> n.sub || IsMarker(t)
  {
    if IsMarker(t) {
      MarkerIsNotOfHost(t);
    }
  }

  // ---------------------------------------------------------------- the parsed name

  /** Behind its first label a name that ends in a domain has a second part, and the last part is the domain. */
  lemma DomainIsLastPart(labels: seq<bytes>)
    ensures var ps := PartsOf(labels);
      HasDomain(labels) <==> |ps| >= 2 && IsDomain(ps[|ps| - 1])
    ensures PartsOf(labels) == [] <==> Unmarked(labels) == []
  {
    hide Dotted, SameText;
    var named := Unmarked(labels);
    if |named| >= 2 {
      var n := MoreOfHost(named[1..]);
      if n == |named| - 1 {
        assert OfHost(named[1..][n - 1]);
      }
    }
  }

  /**
   * What the parser makes of any name that decodes.  It is refused exactly if something stands behind four
   * parts, or it has parts and no domain that is served behind them; otherwise its parts are at their places.
   */
  lemma ParsedExactly(p: bytes, limit: nat, limit': nat, at: nat)
    requires limit <= limit' < |p| && Decode(p, limit, at, at).Some?
    ensures Parse(p, limit', at).Some? && Parse(p, limit', at).value.next == Decode(p, limit, at, at).value.next
    ensures var (labels, n) := (Decode(p, limit, at, at).value.labels, Parse(p, limit', at).value.name);
      && (n.invalid <==> TooLong(labels) || (Unmarked(labels) != [] && !HasDomain(labels)))
      && (n.sub <==> exists i :: 0 <= i < |labels| && IsMarker(labels[i]))
      && (!TooLong(labels) ==>
          |PartsOf(labels)| <= 4 && n.parts == |PartsOf(labels)| && n.texts == Placed(PartsOf(labels)))
  {
    hide Decode, Read, PartsOf, IsMarker, HasDomain, TooLong, Unmarked;
    var labels := Decode(p, limit, at, at).value.labels;
    ReadIsDecode(p, limit, limit', at, at, Blank());
    FiledIs(labels);
    DomainIsLastPart(labels);
    ArrangedIs(FileAll(Blank(), labels), labels);
  }

  lemma ArrangedIs(r: Name, labels: seq<bytes>)
    requires NameOk(r) && Filed(r, labels)
    ensures var (n, ps) := (Arrange(r), PartsOf(labels));
      && n.sub == r.sub && n.parts == r.parts
      && (n.invalid <==> TooLong(labels) || (ps != [] && !(|ps| >= 2 && IsDomain(ps[|ps| - 1]))))
      && (!TooLong(labels) ==> |ps| <= 4 && r.parts == |ps| && n.texts == Placed(ps))
  {
    hide PartsOf, TooLong;
  }
}
