/**
 * What a receiver learns of services from the answers it is sent, in terms of the services alone: their
 * names, where they are and what they say of themselves, and for how long it may believe that.
 */
module MdnsDiscovery {
  import opened Bytes
  import opened MdnsName
  import opened MdnsMessage
  import opened MdnsLetters
  import opened MdnsQuiet
  import opened MdnsAnswers
  import opened MdnsArrive
  import MdnsReceive
  import MdnsTxt

  /** Where the data of the record at `at` begins, behind its owner and fixed fields. */
  function DataFrom(p: bytes, limit: nat, at: nat): nat
    requires limit <= |p| && Decode(p, limit, at, at).Some?
  {
    Decode(p, limit, at, at).value.next + 10
  }

  /** Where it ends, by its length field. */
  function DataTo(p: bytes, limit: nat, at: nat): nat
    requires limit <= |p| && Decode(p, limit, at, at).Some? && DataFrom(p, limit, at) <= limit
  {
    DataFrom(p, limit, at) + U16At(p, DataFrom(p, limit, at) - 2)
  }

  /** A record of this owner, type and class, to be believed for `ttl` seconds, with its data inside the packet. */
  ghost predicate Reads(p: bytes, limit: nat, at: nat, owner: seq<bytes>, kind: nat, flush: bool, ttl: nat)
    requires limit <= |p|
  {
    && Decode(p, limit, at, at).Some? && DataFrom(p, limit, at) <= limit && DataTo(p, limit, at) <= limit
    && var f := DataFrom(p, limit, at) - 10;
       && Decodes(p, limit, at, at, f, owner)
       && U16At(p, f) == kind && U16At(p, f + 2) == (if flush then 0x8001 else 1)
       && U16At(p, f + 4) * 0x1_0000 + U16At(p, f + 6) == ttl
  }

  /** A record that points to a name. */
  ghost predicate ReadsPointer(p: bytes, limit: nat, at: nat, owner: seq<bytes>, target: seq<bytes>, flush: bool,
                               ttl: nat)
    requires limit <= |p|
  {
    && Reads(p, limit, at, owner, 12, flush, ttl)
    && var (body, end) := (DataFrom(p, limit, at), DataTo(p, limit, at)); Decodes(p, end, body, body, end, target)
  }

  /** Where a service is: its host and port. */
  ghost predicate ReadsLocation(p: bytes, limit: nat, at: nat, owner: seq<bytes>, s: Service, flush: bool, ttl: nat)
    requires limit <= |p|
  {
    && Reads(p, limit, at, owner, 33, flush, ttl)
    && var (body, end) := (DataFrom(p, limit, at), DataTo(p, limit, at));
       && body + 6 <= end
       && U16At(p, body) == s.priority && U16At(p, body + 2) == s.weight && U16At(p, body + 4) == s.port
       && Decodes(p, end, body + 6, body + 6, end, [s.host, LOCAL])
  }

  /** What a service says of itself: the receiver gets its items exactly if they are readable. */
  ghost predicate ReadsText(p: bytes, limit: nat, at: nat, owner: seq<bytes>, s: Service, flush: bool, ttl: nat)
    requires limit <= |p|
  {
    && Reads(p, limit, at, owner, 16, flush, ttl)
    && var text := p[DataFrom(p, limit, at)..DataTo(p, limit, at)];
       MdnsTxt.ParseItems(text) == MdnsTxt.SeenAll(s.txt) <==> MdnsTxt.Readable(s.txt)
  }

  /** How many records an answer makes. */
  function RecordNumber(a: Answer): (n: nat)
    ensures n >= 1
  {
    if a.kind.Ptr? then 1 + |a.service.subtypes| else 1
  }

  /**
   * The records of an answer are read at the positions `ats`.  A goodbye has a time to live of zero, as section
   * 10.1 of RFC 6762 has it; the list of service types knows none.
   */
  ghost predicate AnswerRead(p: bytes, limit: nat, ats: seq<nat>, a: Answer)
    requires limit <= |p|
  {
    var s := a.service;
    var (kind, name) := ([s.service, s.proto, LOCAL], [s.instance, s.service, s.proto, LOCAL]);
    && |ats| == RecordNumber(a)
    && match a.kind
       case Ptr =>
         var ttl := if a.bye then 0 else 4500;
         && ReadsPointer(p, limit, ats[0], kind, name, false, ttl)
         && forall k :: 0 <= k < |s.subtypes| ==>
              ReadsPointer(p, limit, ats[1 + k], [s.subtypes[k], SUB] + kind, name, false, ttl)
       case Sdptr => ReadsPointer(p, limit, ats[0], [SERVICES, DNS_SD, UDP, LOCAL], kind, a.flush, 4500)
       case Srv => ReadsLocation(p, limit, ats[0], name, s, a.flush, if a.bye then 0 else 120)
       case Txt => ReadsText(p, limit, ats[0], name, s, a.flush, if a.bye then 0 else 4500)
  }

  ghost predicate AllRead(p: bytes, limit: nat, ats: seq<nat>, list: seq<Answer>)
    requires limit <= |p|
    decreases |list|
  {
    if list == [] then ats == []
    else
      var n := RecordNumber(list[0]);
      n <= |ats| && AnswerRead(p, limit, ats[..n], list[0]) && AllRead(p, limit, ats[n..], list[1..])
  }

  // ---------------------------------------------------------------- one record

  lemma CarriedReads(p: bytes, limit: nat, at: nat, r: Record)
    requires limit <= |p| && Carries(p, limit, at, r)
    ensures Reads(p, limit, at, r.owner, r.kind, r.flush, r.ttl)
    ensures Decode(p, limit, at, at).Some? && DataFrom(p, limit, at) <= limit && DataTo(p, limit, at) <= limit
    ensures CarriesBody(p, DataFrom(p, limit, at), DataTo(p, limit, at), r)
  {
    hide Decode, CarriesBody, Decodes;
  }

  lemma CarriedPointer(p: bytes, limit: nat, at: nat, owner: seq<bytes>, flush: bool, ttl: u16, target: seq<bytes>)
    requires limit <= |p| && Carries(p, limit, at, Record(owner, TYPE_PTR, flush, ttl, NameBody([], target)))
    ensures ReadsPointer(p, limit, at, owner, target, flush, ttl)
  {
    hide Carries, Reads, Decodes;
    CarriedReads(p, limit, at, Record(owner, TYPE_PTR, flush, ttl, NameBody([], target)));
  }

  lemma CarriedLocation(p: bytes, limit: nat, at: nat, owner: seq<bytes>, s: Service, flush: bool, ttl: u16)
    requires limit <= |p|
    requires Carries(p, limit, at, Record(owner, TYPE_SRV, flush, ttl,
                                          NameBody(U16(s.priority) + U16(s.weight) + U16(s.port), [s.host, LOCAL])))
    ensures ReadsLocation(p, limit, at, owner, s, flush, ttl)
  {
    hide Carries, Reads, Decodes, U16;
    var prefix := U16(s.priority) + U16(s.weight) + U16(s.port);
    CarriedReads(p, limit, at, Record(owner, TYPE_SRV, flush, ttl, NameBody(prefix, [s.host, LOCAL])));
    ThreeNumbers(p, DataFrom(p, limit, at), s.priority, s.weight, s.port);
  }

  lemma ThreeNumbers(p: bytes, at: nat, a: u16, b: u16, c: u16)
    ensures |U16(a) + U16(b) + U16(c)| == 6
    ensures at + 6 <= |p| && p[at..at + 6] == U16(a) + U16(b) + U16(c) ==>
              U16At(p, at) == a && U16At(p, at + 2) == b && U16At(p, at + 4) == c
  {
    if at + 6 <= |p| && p[at..at + 6] == U16(a) + U16(b) + U16(c) {
      var s := p[at..at + 6];
      assert p[at] == s[0] && p[at + 1] == s[1] && p[at + 2] == s[2] && p[at + 3] == s[3];
      assert p[at + 4] == s[4] && p[at + 5] == s[5];
    }
  }

  lemma CarriedText(p: bytes, limit: nat, at: nat, owner: seq<bytes>, s: Service, flush: bool, ttl: u16)
    requires limit <= |p| && Carries(p, limit, at, Record(owner, TYPE_TXT, flush, ttl, TxtBody(s.txt)))
    ensures ReadsText(p, limit, at, owner, s, flush, ttl)
  {
    hide Carries, Reads, MdnsTxt.ParseItems, MdnsTxt.Readable, TxtData;
    CarriedReads(p, limit, at, Record(owner, TYPE_TXT, flush, ttl, TxtBody(s.txt)));
    MdnsTxt.RoundTrip(s.txt);
  }

  // ---------------------------------------------------------------- one answer

  lemma {:induction false} SubtypeAt(s: Service, subtypes: seq<bytes>, bye: bool, k: nat)
    requires k < |subtypes|
    ensures |SubtypeRecords(s, subtypes, bye)| == |subtypes|
    ensures SubtypeRecords(s, subtypes, bye)[k] ==
              PtrRecord([subtypes[k], SUB] + [s.service, s.proto, LOCAL], s, bye)
    decreases k
  {
    assert [subtypes[k], SUB] + [s.service, s.proto, LOCAL] == [subtypes[k], SUB, s.service, s.proto, LOCAL];
    if k > 0 {
      SubtypeAt(s, subtypes[1..], bye, k - 1);
    } else {
      SubtypeNumber(s, subtypes, bye);
    }
  }

  lemma {:induction false} SubtypeNumber(s: Service, subtypes: seq<bytes>, bye: bool)
    ensures |SubtypeRecords(s, subtypes, bye)| == |subtypes|
    decreases |subtypes|
  {
    if subtypes != [] {
      SubtypeNumber(s, subtypes[1..], bye);
    }
  }

  lemma RecordNumberIs(a: Answer)
    ensures |RecordsOf(a)| == RecordNumber(a)
  {
    SubtypeNumber(a.service, a.service.subtypes, a.bye);
  }

  lemma PointersRead(p: bytes, limit: nat, ats: seq<nat>, a: Answer)
    requires limit <= |p| && a.kind.Ptr? && |ats| == |RecordsOf(a)|
    requires forall k :: 0 <= k < |ats| ==> Carries(p, limit, ats[k], RecordsOf(a)[k])
    ensures AnswerRead(p, limit, ats, a)
  {
    hide Carries, ReadsPointer;
    var s := a.service;
    var (kind, name) := ([s.service, s.proto, LOCAL], [s.instance, s.service, s.proto, LOCAL]);
    var ttl: u16 := if a.bye then 0 else 4500;
    RecordNumberIs(a);
    assert RecordsOf(a)[0] == Record(kind, TYPE_PTR, false, ttl, NameBody([], name));
    CarriedPointer(p, limit, ats[0], kind, false, ttl, name);
    forall k | 0 <= k < |s.subtypes|
      ensures ReadsPointer(p, limit, ats[1 + k], [s.subtypes[k], SUB] + kind, name, false, ttl)
    {
      SubtypeAt(s, s.subtypes, a.bye, k);
      assert RecordsOf(a)[1 + k] == Record([s.subtypes[k], SUB] + kind, TYPE_PTR, false, ttl, NameBody([], name));
      CarriedPointer(p, limit, ats[1 + k], [s.subtypes[k], SUB] + kind, false, ttl, name);
    }
  }

  lemma CarriedAnswer(p: bytes, limit: nat, ats: seq<nat>, a: Answer)
    requires limit <= |p| && |ats| == |RecordsOf(a)|
    requires forall k :: 0 <= k < |ats| ==> Carries(p, limit, ats[k], RecordsOf(a)[k])
    ensures AnswerRead(p, limit, ats, a)
  {
    hide Carries, ReadsPointer, ReadsLocation, ReadsText;
    var s := a.service;
    var (kind, name) := ([s.service, s.proto, LOCAL], [s.instance, s.service, s.proto, LOCAL]);
    if a.kind.Ptr? {
      PointersRead(p, limit, ats, a);
    } else {
      var r := RecordsOf(a)[0];
      assert Carries(p, limit, ats[0], r);
      match a.kind
      case Sdptr => CarriedPointer(p, limit, ats[0], [SERVICES, DNS_SD, UDP, LOCAL], a.flush, 4500, kind);
      case Srv => CarriedLocation(p, limit, ats[0], name, s, a.flush, if a.bye then 0 else 120);
      case Txt => CarriedText(p, limit, ats[0], name, s, a.flush, if a.bye then 0 else 4500);
    }
  }

  // ---------------------------------------------------------------- all answers

  lemma {:induction false} AnswerRecordsJoin(a: seq<Answer>, b: seq<Answer>)
    ensures AnswerRecords(a + b) == AnswerRecords(a) + AnswerRecords(b)
    decreases |a|
  {
    hide RecordsOf;
    if a == [] {
      assert a + b == b;
    } else {
      AnswerRecordsJoin(a[1..], b);
      assert (a + b)[0] == a[0] && (a + b)[1..] == a[1..] + b;
      Regroup(RecordsOf(a[0]), AnswerRecords(a[1..]), AnswerRecords(b));
    }
  }

  lemma {:induction false} CarriedAnswers(p: bytes, limit: nat, ats: seq<nat>, list: seq<Answer>)
    requires limit <= |p| && |ats| == |AnswerRecords(list)|
    requires forall k :: 0 <= k < |ats| ==> Carries(p, limit, ats[k], AnswerRecords(list)[k])
    ensures AllRead(p, limit, ats, list)
    decreases |list|
  {
    hide Carries, AnswerRead, RecordsOf;
    if list != [] {
      var n := RecordNumber(list[0]);
      RecordNumberIs(list[0]);
      var (first, rest) := (RecordsOf(list[0]), AnswerRecords(list[1..]));
      forall k | 0 <= k < n ensures Carries(p, limit, ats[..n][k], first[k]) {
        assert AnswerRecords(list)[k] == first[k];
      }
      CarriedAnswer(p, limit, ats[..n], list[0]);
      forall k | 0 <= k < |ats| - n ensures Carries(p, limit, ats[n..][k], rest[k]) {
        assert AnswerRecords(list)[n + k] == rest[k];
      }
      CarriedAnswers(p, limit, ats[n..], list[1..]);
    }
  }

  /**
   * What a receiver reads of a sound message is what the answers say of their services: of all of them, or of
   * none if there are questions, no answers and no question concerns the receiver.
   */
  lemma AnswersArrive(p: bytes, id: u16, flags: u16, questions: seq<Question>,
                      answers: seq<Answer>, servers: seq<Answer>, additional: seq<Answer>, concerns: nat -> bool)
    requires var m := MessageOf(id, flags, questions, answers, servers, additional);
      MessageFits(p, m) && MessageSound(p, m)
    ensures var w := Dispatch(p, MessageOf(id, flags, questions, answers, servers, additional));
      var v := MdnsReceive.Walk(w.packet, w.index, concerns);
      && v.Some?
      && if questions != [] && answers == [] && MdnsReceive.NoneConcerns(v.value.questions, concerns)
         then v.value.records == []
         else AllRead(w.packet, w.index, v.value.records, answers + servers + additional)
  {
    var m := MessageOf(id, flags, questions, answers, servers, additional);
    NoRecords(answers);
    AllAnswers(answers, servers, additional, m);
    hide MessageFits, MessageSound, Dispatch, Carries, Asks, AllRead, MdnsReceive.Walk, MdnsReceive.NoneConcerns;
    hide AllRecords;
    DispatchedArrives(p, m, concerns);
    var w := Dispatch(p, m);
    var v := MdnsReceive.Walk(w.packet, w.index, concerns).value;
    if !(questions != [] && answers == [] && MdnsReceive.NoneConcerns(v.questions, concerns)) {
      CarriedAnswers(w.packet, w.index, v.records, answers + servers + additional);
    }
  }

  lemma NoRecords(list: seq<Answer>)
    ensures AnswerRecords(list) == [] <==> list == []
  {
    if list != [] {
      RecordNumberIs(list[0]);
    }
  }

  lemma AllAnswers(answers: seq<Answer>, servers: seq<Answer>, additional: seq<Answer>, m: Message)
    requires m.answers == AnswerRecords(answers) && m.servers == AnswerRecords(servers)
    requires m.additional == AnswerRecords(additional)
    ensures AllRecords(m) == AnswerRecords(answers + servers + additional)
  {
    AnswerRecordsJoin(answers, servers);
    AnswerRecordsJoin(answers + servers, additional);
  }

  /**
   * Whatever is asked about nice names, and whichever PTR, SDPTR, SRV and TXT answers are given for services
   * with nice names, as long as there is room: the message sent is well formed, and a receiver reads in it
   * what the answers say of their services, though names have been replaced by pointers.  In a buffer that is
   * clean behind the header labels may have 2 to 44 bytes; in any other, 2 to 11, in messages of at most 256.
   */
  lemma AnswersAreRead(ls: Lengths, p: bytes, id: u16, flags: u16, questions: seq<Question>,
                       answers: seq<Answer>, servers: seq<Answer>, additional: seq<Answer>, concerns: nat -> bool)
    requires var m := MessageOf(id, flags, questions, answers, servers, additional);
      && MessageFits(p, m)
      && ((ls == LONG && Clean(p, HEAD_LEN)) || (ls == SHORT && Dispatch(p, m).index <= 256))
    requires QuietId(ls, id) && flags in {FLAGS_QUERY, FLAGS_ANSWER}
    requires forall i :: 0 <= i < |questions| ==> QuietQuestion(ls, questions[i])
    requires AllNice(ls, answers) && AllNice(ls, servers) && AllNice(ls, additional)
    ensures var m := MessageOf(id, flags, questions, answers, servers, additional);
      var w := Dispatch(p, m);
      && WalkMessage(w.packet, w.index) == Some(w.index) && Arrives(w.packet, w.index, m, concerns)
      && var v := MdnsReceive.Walk(w.packet, w.index, concerns).value;
         if questions != [] && answers == [] && MdnsReceive.NoneConcerns(v.questions, concerns) then v.records == []
         else AllRead(w.packet, w.index, v.records, answers + servers + additional)
  {
    var m := MessageOf(id, flags, questions, answers, servers, additional);
    hide *;
    AnswersAreSound(ls, p, id, flags, questions, answers, servers, additional);
    DispatchedIsWellFormed(p, m);
    DispatchedArrives(p, m, concerns);
    AnswersArrive(p, id, flags, questions, answers, servers, additional, concerns);
  }
}
