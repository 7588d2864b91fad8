/** Questions, intents and responses: parseQuestions, parseIntent and buildResponse of minimdnsd/cmd/minimdnsd/main.go. */
module DnsMessages {

  import opened Wrappers
  import opened Octets
  import opened DnsNames

  const MAX_PACKET_SIZE: nat := 9036

  datatype Header = Header(id: nat, flags: nat, qdCount: nat, anCount: nat, nsCount: nat, arCount: nat)
  datatype Question = Question(name: Text, qtype: nat, qclass: nat)
  datatype Intent = Intent(wantA: bool, wantAAAA: bool)
  datatype Parsed = Parsed(header: Header, intent: Intent)

  function HeaderOf(packet: seq<Byte>): Header
    requires |packet| >= 12
  {
    Header(Uint16(packet, 0), Uint16(packet, 2), Uint16(packet, 4), Uint16(packet, 6), Uint16(packet, 8), Uint16(packet, 10))
  }

  /** The fields of section 4.1.1 of RFC 1035, two bytes each. */
  lemma HeaderFields(packet: seq<Byte>)
    requires |packet| >= 12
    ensures var h := HeaderOf(packet);
            && h.id == Number(packet[0..2]) && h.flags == Number(packet[2..4]) && h.qdCount == Number(packet[4..6])
            && h.anCount == Number(packet[6..8]) && h.nsCount == Number(packet[8..10]) && h.arCount == Number(packet[10..12])
  {
    hide Uint16;
    hide Number;
    Uint16IsNumber(packet, 0);
    Uint16IsNumber(packet, 2);
    Uint16IsNumber(packet, 4);
    Uint16IsNumber(packet, 6);
    Uint16IsNumber(packet, 8);
    Uint16IsNumber(packet, 10);
  }

  // ----- questions -----

  function QuestionsFrom(fold: Text -> Text, packet: seq<Byte>, off: nat, count: nat, sofar: seq<Question>): (r: Fallible<seq<Question>>)
    decreases count
  {
    if count == 0 then Ok(sofar)
    else
      var name := NameAt(fold, packet, off);
      if name.Err? then Err(name.error)
      else if name.value.next + 4 > |packet| then Err(TruncatedQuestion)
      else
        var at := name.value.next;
        QuestionsFrom(fold, packet, at + 4, count - 1,
                      sofar + [Question(name.value.name, Uint16(packet, at), Uint16(packet, at + 2))])
  }

  /** parseQuestions */
  method ParseQuestions(fold: Text -> Text, packet: seq<Byte>, qdCount: nat) returns (r: Fallible<seq<Question>>)
    ensures r == QuestionsFrom(fold, packet, 12, qdCount, [])
  {
    var off: nat, questions: seq<Question> := 12, [];
    for i := 0 to qdCount
      invariant QuestionsFrom(fold, packet, 12, qdCount, []) == QuestionsFrom(fold, packet, off, qdCount - i, questions)
    {
      var name := ParseName(fold, packet, off);
      if name.Err? {
        return Err(name.error);
      }
      off := name.value.next;
      if off + 4 > |packet| {
        return Err(TruncatedQuestion);
      }
      questions := questions + [Question(name.value.name, Uint16(packet, off), Uint16(packet, off + 2))];
      off := off + 4;
    }
    r := Ok(questions);
  }

  /** A question asks this host for a record type, or for any. */
  predicate AsksFor(q: Question, host: Text, rrType: nat) {
    q.name == host && (q.qtype == rrType || q.qtype == 255)
  }

  predicate Asked(questions: seq<Question>, host: Text, rrType: nat) {
    exists i | 0 <= i < |questions| :: AsksFor(questions[i], host, rrType)
  }

  predicate IsResponse(h: Header) {
    h.flags / 0x8000 % 2 == 1
  }

  /** The top bit of the flags. */
  lemma ResponseBit(h: Header)
    requires h.flags < 0x1_0000
    ensures IsResponse(h) <==> h.flags >= 0x8000
  {
  }

  function IntentOf(fold: Text -> Text, packet: seq<Byte>, host: Text): (r: Fallible<Parsed>) {
    if |packet| < 12 then Err(PacketTooShort)
    else if IsResponse(HeaderOf(packet)) then Ok(Parsed(HeaderOf(packet), Intent(false, false)))
    else
      var questions := QuestionsFrom(fold, packet, 12, HeaderOf(packet).qdCount, []);
      if questions.Err? then Err(questions.error)
      else Ok(Parsed(HeaderOf(packet), Intent(Asked(questions.value, host, 1), Asked(questions.value, host, 28))))
  }

  /** parseIntent */
  method ParseIntent(fold: Text -> Text, packet: seq<Byte>, host: Text) returns (r: Fallible<Parsed>)
    ensures r == IntentOf(fold, packet, host)
  {
    if |packet| < 12 {
      return Err(PacketTooShort);
    }
    var h := HeaderOf(packet);
    if h.flags / 0x8000 % 2 != 0 {
      return Ok(Parsed(h, Intent(false, false)));
    }
    var questions := ParseQuestions(fold, packet, h.qdCount);
    if questions.Err? {
      return Err(questions.error);
    }
    var qs, wantA, wantAAAA := questions.value, false, false;
    for i := 0 to |qs|
      invariant wantA == Asked(qs[..i], host, 1) && wantAAAA == Asked(qs[..i], host, 28)
    {
      var q := qs[i];
      assert qs[..i + 1] == qs[..i] + [q];
      AskedAppend(qs[..i], q, host, 1);
      AskedAppend(qs[..i], q, host, 28);
      if q.name != host {
        continue;
      }
      if q.qtype == 1 {
        wantA := true;
      } else if q.qtype == 28 {
        wantAAAA := true;
      } else if q.qtype == 255 {
        wantA, wantAAAA := true, true;
      }
    }
    assert qs[..|qs|] == qs;
    r := Ok(Parsed(h, Intent(wantA, wantAAAA)));
  }

  lemma AskedAppend(qs: seq<Question>, q: Question, host: Text, rrType: nat)
    ensures Asked(qs + [q], host, rrType) <==> Asked(qs, host, rrType) || AsksFor(q, host, rrType)
  {
    var all := qs + [q];
    assert all[|qs|] == q;
    assert forall i | 0 <= i < |qs| :: all[i] == qs[i];
  }

  // ----- queries as a client writes them -----

  ghost predicate Askable(q: Question) {
    Encoded(q.name).Ok? && q.qtype < 0x1_0000 && q.qclass < 0x1_0000
  }

  ghost predicate AllAskable(qs: seq<Question>) {
    forall i | 0 <= i < |qs| :: Askable(qs[i])
  }

  function QuestionBytes(qs: seq<Question>): seq<Byte>
    requires AllAskable(qs)
  {
    if qs == [] then []
    else Encoded(qs[0].name).value + (Bytes16(qs[0].qtype) + Bytes16(qs[0].qclass) + QuestionBytes(qs[1..]))
  }

  function HeaderBytes(h: Header): (b: seq<Byte>)
    ensures |b| == 12
  {
    Bytes16(h.id) + Bytes16(h.flags) + Bytes16(h.qdCount) + Bytes16(h.anCount) + Bytes16(h.nsCount) + Bytes16(h.arCount)
  }

  function LowerNames(fold: Text -> Text, qs: seq<Question>): seq<Question> {
    if qs == [] then [] else [qs[0].(name := Lower(fold, qs[0].name))] + LowerNames(fold, qs[1..])
  }

  /** Questions written one after the other are read back, their names lower-cased. */
  lemma {:induction false} QuestionsRoundTrip(fold: Text -> Text, packet: seq<Byte>, off: nat, qs: seq<Question>, sofar: seq<Question>)
    requires AllAskable(qs) && At(packet, off, QuestionBytes(qs))
    ensures QuestionsFrom(fold, packet, off, |qs|, sofar) == Ok(sofar + LowerNames(fold, qs))
    decreases |qs|
  {
    hide At;
    hide NameAt;
    hide Encoded;
    hide Uint16;
    hide Lower;
    if qs != [] {
      var q, enc, rest := qs[0], Encoded(qs[0].name).value, QuestionBytes(qs[1..]);
      assert Askable(q);
      AtSplit(packet, off, enc, Bytes16(q.qtype) + Bytes16(q.qclass) + rest);
      NameRoundTrip(fold, q.name, packet, off);
      var at := off + |enc|;
      AtSplit(packet, at, Bytes16(q.qtype) + Bytes16(q.qclass), rest);
      AtSplit(packet, at, Bytes16(q.qtype), Bytes16(q.qclass));
      Uint16At(packet, at, q.qtype);
      Uint16At(packet, at + 2, q.qclass);
      var read := Question(Lower(fold, q.name), q.qtype, q.qclass);
      QuestionsRoundTrip(fold, packet, at + 4, qs[1..], sofar + [read]);
      assert sofar + [read] + LowerNames(fold, qs[1..]) == sofar + LowerNames(fold, qs);
    } else {
      assert sofar + [] == sofar;
    }
  }

  ghost predicate Sendable(h: Header) {
    && h.id < 0x1_0000 && h.flags < 0x1_0000 && h.qdCount < 0x1_0000
    && h.anCount < 0x1_0000 && h.nsCount < 0x1_0000 && h.arCount < 0x1_0000
  }

  lemma HeaderRoundTrip(packet: seq<Byte>, h: Header)
    requires Sendable(h) && At(packet, 0, HeaderBytes(h))
    ensures |packet| >= 12 && HeaderOf(packet) == h
  {
    var b := HeaderBytes(h);
    assert packet[0..12] == b;
    assert forall i | 0 <= i < 12 :: packet[i] == packet[0..12][i];
  }

  /** Some question names this host, in any mixture of cases, and asks for the type or for ANY, type 255. */
  ghost predicate Wanted(fold: Text -> Text, qs: seq<Question>, host: Text, rrType: nat) {
    exists i :: 0 <= i < |qs| && Lower(fold, qs[i].name) == host && (qs[i].qtype == rrType || qs[i].qtype == 255)
  }

  lemma {:induction false} LowerNamesAt(fold: Text -> Text, qs: seq<Question>)
    ensures |LowerNames(fold, qs)| == |qs|
    ensures forall i | 0 <= i < |qs| :: LowerNames(fold, qs)[i] == qs[i].(name := Lower(fold, qs[i].name))
  {
    hide Lower;
    if qs != [] { LowerNamesAt(fold, qs[1..]); }
  }

  lemma AskedIsWanted(fold: Text -> Text, qs: seq<Question>, host: Text, rrType: nat)
    ensures Asked(LowerNames(fold, qs), host, rrType) <==> Wanted(fold, qs, host, rrType)
  {
    hide Lower;
    hide LowerNames;
    LowerNamesAt(fold, qs);
    if Asked(LowerNames(fold, qs), host, rrType) {
      var i :| 0 <= i < |qs| && AsksFor(LowerNames(fold, qs)[i], host, rrType);
      assert Lower(fold, qs[i].name) == host;
    }
    if Wanted(fold, qs, host, rrType) {
      var i :| 0 <= i < |qs| && Lower(fold, qs[i].name) == host && (qs[i].qtype == rrType || qs[i].qtype == 255);
      assert AsksFor(LowerNames(fold, qs)[i], host, rrType);
    }
  }

  /** A query, flags below 0x8000, is understood: the intent says which of the two types was asked of this host. */
  lemma QueryIsUnderstood(fold: Text -> Text, h: Header, qs: seq<Question>, trailing: seq<Byte>, host: Text)
    requires Sendable(h) && h.flags < 0x8000 && AllAskable(qs) && h.qdCount == |qs|
    ensures IntentOf(fold, HeaderBytes(h) + QuestionBytes(qs) + trailing, host) ==
            Ok(Parsed(h, Intent(Wanted(fold, qs, host, 1), Wanted(fold, qs, host, 28))))
  {
    hide Wanted;
    hide Asked;
    hide IntentOf;
    hide HeaderBytes;
    hide QuestionBytes;
    hide LowerNames;
    hide Askable;
    ResponseBit(h);
    hide IsResponse;
    AskedIsWanted(fold, qs, host, 1);
    AskedIsWanted(fold, qs, host, 28);
    QueryIsRead(fold, h, qs, trailing, host);
  }

  lemma QueryIsRead(fold: Text -> Text, h: Header, qs: seq<Question>, trailing: seq<Byte>, host: Text)
    requires Sendable(h) && !IsResponse(h) && AllAskable(qs) && h.qdCount == |qs|
    ensures IntentOf(fold, HeaderBytes(h) + QuestionBytes(qs) + trailing, host) ==
            Ok(Parsed(h, Intent(Asked(LowerNames(fold, qs), host, 1), Asked(LowerNames(fold, qs), host, 28))))
  {
    hide HeaderBytes;
    hide QuestionBytes;
    hide HeaderOf;
    hide LowerNames;
    var packet := HeaderBytes(h) + QuestionBytes(qs) + trailing;
    assert packet[0..12] == HeaderBytes(h) && packet[12..12 + |QuestionBytes(qs)|] == QuestionBytes(qs);
    HeaderRoundTrip(packet, h);
    QuestionsRoundTrip(fold, packet, 12, qs, []);
    assert [] + LowerNames(fold, qs) == LowerNames(fold, qs);
  }
}
