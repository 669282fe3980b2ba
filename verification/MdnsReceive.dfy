/**
 * The receiving side of mDNS: the cursor that walks a packet, and what it visits of packets that have
 * been dispatched.
 */
module MdnsReceive {
  import opened Bytes
  import opened MdnsName
  import opened MdnsMessage

  // ---------------------------------------------------------------- the cursor of the packet parser

  /** Where the questions and the records of a packet start, in the order they are visited. */
  datatype Visited = Visited(questions: seq<nat>, records: seq<nat>)

  /** `n` questions from `at` on; nothing when the packet is dropped. */
  function Questions(p: bytes, limit: nat, at: nat, n: nat): (r: Option<(seq<nat>, nat)>)
    requires limit < |p|
    ensures r.Some? ==> |r.value.0| == n
    decreases n
  {
    if n == 0 then Some(([], at))
    else match Parse(p, limit, at)
      case None => None
      case Some(name) =>
        if name.next + 4 > limit then None
        else match Questions(p, limit, name.next + 4, n - 1)
          case None => None
          case Some(rest) => Some(([at] + rest.0, rest.1))
  }

  /** All the records from `at` to the end of the packet; nothing when the packet is dropped. */
  function Records(p: bytes, limit: nat, at: nat): Option<seq<nat>>
    requires limit < |p|
    decreases if at < limit then limit - at else 0
  {
    if at >= limit then Some([])
    else match RecordEnd(p, limit, at)
      case None => None
      case Some(end) =>
        match Records(p, limit, end)
        case None => None
        case Some(rest) => Some([at] + rest)
  }

  /** The cursor after the record at `at`: always further on, so the loop over the records ends. */
  function RecordEnd(p: bytes, limit: nat, at: nat): (r: Option<nat>)
    requires limit < |p|
    ensures r.Some? ==> at + FIXED_LEN < r.value <= limit
  {
    match Parse(p, limit, at)
    case None => None
    case Some(name) =>
      if name.next + FIXED_LEN > limit then None
      else
        var length := U16At(p, name.next + 8);
        var end := name.next + FIXED_LEN + length;
        if end > limit || length == 0 then None else Some(end)
  }

  /** None of the questions, each given by its position, is about a name of this host or a discovery. */
  predicate NoneConcerns(questions: seq<nat>, concerns: nat -> bool) {
    forall i :: 0 <= i < |questions| ==> !concerns(questions[i])
  }

  /** Questions without answers of which none concerns this host: whatever else is in the packet is not read. */
  predicate NotForUs(p: bytes, questions: seq<nat>, concerns: nat -> bool)
    requires |p| >= HEAD_LEN
  {
    U16At(p, 4) != 0 && U16At(p, 6) == 0 && NoneConcerns(questions, concerns)
  }

  /** The walk over a whole packet; the number of questions is kept in a single byte. */
  function Walk(p: bytes, limit: nat, concerns: nat -> bool): Option<Visited>
    requires 11 <= limit < |p|
  {
    match Questions(p, limit, HEAD_LEN, U16At(p, 4) % 256)
    case None => None
    case Some(qs) =>
      if NotForUs(p, qs.0, concerns) then Some(Visited(qs.0, []))
      else if U16At(p, 6) == 0 && U16At(p, 8) == 0 && U16At(p, 10) == 0 then Some(Visited(qs.0, []))
      else match Records(p, limit, qs.1)
        case None => None
        case Some(rs) => Some(Visited(qs.0, rs))
  }

  method ParsePacket(packet: array<byte>, limit: nat, name: NameRecord, concerns: nat -> bool)
    returns (v: Option<Visited>)
    requires limit < packet.Length
    modifies name
    ensures v == if limit <= 10 then None else Walk(packet[..], limit, concerns)
  {
    hide Parse, Questions, Records;
    if limit <= 10 {
      return None;
    }
    var qs, concerned := ParseQuestions(packet, U16At(packet[..], 4) % 256, limit, name, concerns);
    if qs == None {
      return None;
    }
    if U16At(packet[..], 4) != 0 && !concerned && U16At(packet[..], 6) == 0 {
      return Some(Visited(qs.value.0, []));
    }
    if U16At(packet[..], 6) == 0 && U16At(packet[..], 8) == 0 && U16At(packet[..], 10) == 0 {
      return Some(Visited(qs.value.0, []));
    }
    var rs := ParseRecords(packet, qs.value.1, limit, name);
    return if rs == None then None else Some(Visited(qs.value.0, rs.value));
  }

  method ParseQuestions(packet: array<byte>, count: nat, limit: nat, name: NameRecord, concerns: nat -> bool)
    returns (r: Option<(seq<nat>, nat)>, concerned: bool)
    requires limit < packet.Length
    modifies name
    ensures r == Questions(packet[..], limit, HEAD_LEN, count)
    ensures r.Some? ==> (concerned <==> !NoneConcerns(r.value.0, concerns))
  {
    hide Parse, NoneConcerns;
    NoneYet(concerns);
    ghost var p := packet[..];
    var (left, content) := (count, HEAD_LEN);
    var questions: seq<nat> := [];
    concerned := false;
    while left > 0
      invariant left >= 0
      invariant concerned <==> !NoneConcerns(questions, concerns)
      invariant match Questions(p, limit, HEAD_LEN, count)
        case None => Questions(p, limit, content, left) == None
        case Some(all) =>
          var rest := Questions(p, limit, content, left);
          rest.Some? && all.0 == questions + rest.value.0 && all.1 == rest.value.1
    {
      var next := ParseFqdn(packet, content, name, limit);
      if next == None || next.value + 4 > limit {
        return None, concerned;
      }
      if concerns(content) {
        concerned := true;
      }
      OneMoreConcerns(questions, content, concerns);
      questions := questions + [content];
      content := next.value + 4;
      left := left - 1;
    }
    assert questions + [] == questions;
    return Some((questions, content)), concerned;
  }

  lemma NoneYet(concerns: nat -> bool)
    ensures NoneConcerns([], concerns)
  {
  }

  lemma OneMoreConcerns(questions: seq<nat>, at: nat, concerns: nat -> bool)
    ensures NoneConcerns(questions + [at], concerns) <==> NoneConcerns(questions, concerns) && !concerns(at)
  {
    var all := questions + [at];
    assert all[|questions|] == at;
    assert forall i :: 0 <= i < |questions| ==> all[i] == questions[i];
  }

  method ParseRecords(packet: array<byte>, start: nat, limit: nat, name: NameRecord) returns (r: Option<seq<nat>>)
    requires limit < packet.Length
    modifies name
    ensures r == Records(packet[..], limit, start)
  {
    hide RecordEnd;
    ghost var p := packet[..];
    var content := start;
    var records: seq<nat> := [];
    while content < limit
      invariant match Records(p, limit, start)
        case None => Records(p, limit, content) == None
        case Some(all) => Records(p, limit, content).Some? && all == records + Records(p, limit, content).value
      decreases if content < limit then limit - content else 0
    {
      var end := ParseRecord(packet, content, limit, name);
      if end == None {
        return None;
      }
      records := records + [content];
      content := end.value;
    }
    assert records + [] == records;
    return Some(records);
  }

  /** The name and the fixed fields of a record; the record is skipped by its length field. */
  method ParseRecord(packet: array<byte>, content: nat, limit: nat, name: NameRecord) returns (end: Option<nat>)
    requires limit < packet.Length
    modifies name
    ensures end == RecordEnd(packet[..], limit, content)
  {
    hide Parse;
    var next := ParseFqdn(packet, content, name, limit);
    if next == None || next.value + FIXED_LEN > limit {
      return None;
    }
    var length := U16At(packet[..], next.value + 8);
    end := Some(next.value + FIXED_LEN + length);
    if end.value > limit || length == 0 {
      return None;
    }
  }

  // ---------------------------------------------------------------- what is sent is what is visited

  /** The cursor agrees with the reference walker on every question that walker accepts, and where it starts. */
  lemma {:induction false} QuestionsAgree(p: bytes, limit: nat, at: nat, n: nat)
    requires limit < |p| && WalkQuestions(p, limit, at, n).Some?
    ensures Questions(p, limit, at, n).Some?
    ensures Questions(p, limit, at, n).value.1 == WalkQuestions(p, limit, at, n).value
    ensures forall k: nat :: k < n ==> WalkQuestions(p, limit, at, k) == Some(Questions(p, limit, at, n).value.0[k])
    decreases n
  {
    hide Decode, Read;
    if n > 0 {
      ReadIsDecode(p, limit, limit, at, at, Blank());
      var next := Decode(p, limit, at, at).value.next + 4;
      QuestionsAgree(p, limit, next, n - 1);
      forall k: nat | k < n
        ensures WalkQuestions(p, limit, at, k) == Some(Questions(p, limit, at, n).value.0[k])
      {
        if k > 0 {
          assert Questions(p, limit, at, n).value.0[k] == Questions(p, limit, next, n - 1).value.0[k - 1];
        }
      }
    }
  }

  lemma RecordAgrees(p: bytes, limit: nat, at: nat)
    requires limit < |p| && WalkRecord(p, limit, at).Some?
    ensures RecordEnd(p, limit, at) == WalkRecord(p, limit, at)
  {
    hide Decode, Read, StringsFill;
    ReadIsDecode(p, limit, limit, at, at, Blank());
  }

  /**
   * Of a record whose owner decodes: exactly when it is dropped, and the packet with it.  Its fixed fields and its
   * data have to end in the packet, and there has to be data.
   */
  lemma DroppedExactly(p: bytes, limit: nat, at: nat)
    requires limit < |p| && Decode(p, limit, at, at).Some?
    ensures var f := Decode(p, limit, at, at).value.next;
      var r := RecordEnd(p, limit, at);
      && (r == None <==> f + 10 > limit || U16At(p, f + 8) == 0 || f + 10 + U16At(p, f + 8) > limit)
      && (r.Some? ==> r.value == f + 10 + U16At(p, f + 8))
  {
    hide Decode, Read;
    ReadIsDecode(p, limit, limit, at, at, Blank());
  }

  /** When `n` records fill the packet, the cursor visits those records, each at its start, and no others. */
  lemma {:induction false} RecordsAgree(p: bytes, limit: nat, at: nat, n: nat)
    requires limit < |p| && at <= limit && WalkRecords(p, limit, at, n) == Some(limit)
    ensures Records(p, limit, at).Some? && |Records(p, limit, at).value| == n
    ensures forall k: nat :: k < n ==> WalkRecords(p, limit, at, k) == Some(Records(p, limit, at).value[k])
    decreases n
  {
    hide WalkRecord, RecordEnd;
    if n > 0 {
      RecordAgrees(p, limit, at);
      var end := WalkRecord(p, limit, at).value;
      RecordsAgree(p, limit, end, n - 1);
      forall k: nat | k < n
        ensures WalkRecords(p, limit, at, k) == Some(Records(p, limit, at).value[k])
      {
        if k > 0 {
          assert Records(p, limit, at).value[k] == Records(p, limit, end).value[k - 1];
        }
      }
    }
  }

  /**
   * The receiver visits as many questions as the header announces, and as many records, each at its own
   * start; no records if there are questions, no answers, and none of the questions concerns this host.
   */
  predicate VisitsAll(p: bytes, limit: nat, concerns: nat -> bool)
    requires HEAD_LEN <= limit < |p|
  {
    var v := Walk(p, limit, concerns);
    var first := WalkQuestions(p, limit, HEAD_LEN, U16At(p, 4));
    && v.Some? && first.Some?
    && |v.value.questions| == U16At(p, 4)
    && (forall k: nat :: k < U16At(p, 4) ==> WalkQuestions(p, limit, HEAD_LEN, k) == Some(v.value.questions[k]))
    && |v.value.records| == (if NotForUs(p, v.value.questions, concerns) then 0
                             else U16At(p, 6) + U16At(p, 8) + U16At(p, 10))
    && forall k: nat :: k < |v.value.records| ==>
         WalkRecords(p, limit, first.value, k) == Some(v.value.records[k])
  }

  /**
   * When the questions and records that the header announces fill a packet, the receiver visits all of it if
   * and only if fewer than 256 questions are announced: it keeps their number in a single byte.
   */
  lemma WellFormedIsVisited(p: bytes, limit: nat, concerns: nat -> bool)
    requires HEAD_LEN <= limit < |p| && WalkMessage(p, limit) == Some(limit)
    ensures VisitsAll(p, limit, concerns) <==> U16At(p, 4) < 256
  {
    hide WalkQuestions, WalkRecords, Questions, Records, NoneConcerns;
    if U16At(p, 4) < 256 {
      QuestionsAgree(p, limit, HEAD_LEN, U16At(p, 4));
      var first := WalkQuestions(p, limit, HEAD_LEN, U16At(p, 4)).value;
      var n := U16At(p, 6) + U16At(p, 8) + U16At(p, 10);
      WalkRecordsAdvance(p, limit, first, n);
      RecordsAgree(p, limit, first, n);
    }
  }

  lemma {:induction false} RootQuestions(p: bytes, limit: nat, at: nat, n: nat)
    requires at + 5 * n <= limit <= |p| && forall i :: at <= i < limit ==> p[i] == 0
    ensures WalkQuestions(p, limit, at, n) == Some(at + 5 * n)
    decreases n
  {
    if n > 0 {
      assert Decode(p, limit, at, at) == Some(Decoded([], at + 1));
      RootQuestions(p, limit, at + 5, n - 1);
    }
  }

  /** A packet of 256 questions for the root, none of which is visited. */
  lemma QuestionsMissed(p: bytes, concerns: nat -> bool)
    requires |p| > 1292 && p[4] == 1 && forall i :: 0 <= i < 1292 && i != 4 ==> p[i] == 0
    ensures U16At(p, 4) == 256 && WalkMessage(p, 1292) == Some(1292)
    ensures Walk(p, 1292, concerns) == Some(Visited([], []))
  {
    RootQuestions(p, 1292, HEAD_LEN, 256);
    assert Questions(p, 1292, HEAD_LEN, 0) == Some(([], HEAD_LEN));
    hide WalkQuestions;
  }

  lemma FewQuestions(p: bytes, m: Message)
    requires MessageFits(p, m) && MessageSound(p, m)
    ensures |m.questions| < 256
  {
    hide AppendQuestions, AppendSection, RecordsSound, QuestionsSound, QuestionsFit, RecordsFit, SetCount, Header;
    QuestionsCounted(p, m);
  }

  lemma {:induction false} WalkRecordsAdvance(p: bytes, limit: nat, at: nat, n: nat)
    requires limit <= |p| && WalkRecords(p, limit, at, n).Some?
    ensures at <= WalkRecords(p, limit, at, n).value
    decreases n
  {
    hide WalkRecord;
    if n > 0 {
      WalkRecordsAdvance(p, limit, WalkRecord(p, limit, at).value, n - 1);
    }
  }
}
