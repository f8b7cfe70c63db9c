/**
 The response walkers of scanner.go: finding an OPT record, the first NS name and the first TXT data
 in a DNS message (sections 4.1 and 3.3.14 of RFC 1035, section 6.1.2 of RFC 6891).
 */
module DnsMessage {
  import opened Bytes
  import opened DnsName

  const TYPE_NS: nat := 2
  const TYPE_TXT: nat := 16
  const TYPE_OPT: nat := 41

  // ----- Messages as the standard has them -----

  predicate Is16(n: nat) {
    n < 65536
  }

  datatype Question = Question(name: WireName, qtype: nat, qclass: nat) {
    predicate Proper() {
      name.Proper() && Is16(qtype) && Is16(qclass)
    }

    function Wire(): seq<byte>
      requires Proper()
    {
      name.Bytes() + (U16Bytes(qtype) + U16Bytes(qclass))
    }
  }

  datatype Record = Record(name: WireName, rtype: nat, rclass: nat, ttl: seq<byte>, rdata: seq<byte>) {
    predicate Proper() {
      name.Proper() && Is16(rtype) && Is16(rclass) && |ttl| == 4 && Is16(|rdata|)
    }

    /** Type, class, TTL and RDATA length: ten bytes. */
    function Fixed(): (s: seq<byte>)
      requires Proper()
      ensures |s| == 10 && U16(s[0], s[1]) == rtype && U16(s[8], s[9]) == |rdata|
    {
      U16Bytes(rtype) + U16Bytes(rclass) + ttl + U16Bytes(|rdata|)
    }

    function Wire(): seq<byte>
      requires Proper()
    {
      name.Bytes() + (Fixed() + rdata)
    }
  }

  predicate ProperQuestions(qs: seq<Question>) {
    forall i :: 0 <= i < |qs| ==> qs[i].Proper()
  }

  predicate ProperRecords(rs: seq<Record>) {
    forall i :: 0 <= i < |rs| ==> rs[i].Proper()
  }

  function QuestionsWire(qs: seq<Question>): seq<byte>
    requires ProperQuestions(qs)
  {
    if qs == [] then [] else qs[0].Wire() + QuestionsWire(qs[1..])
  }

  function RecordsWire(rs: seq<Record>): seq<byte>
    requires ProperRecords(rs)
  {
    if rs == [] then [] else rs[0].Wire() + RecordsWire(rs[1..])
  }

  datatype Message = Message(idAndFlags: seq<byte>, questions: seq<Question>, answers: seq<Record>,
                             authority: seq<Record>, additional: seq<Record>)
  {
    predicate Proper() {
      && |idAndFlags| == 4
      && Is16(|questions|) && Is16(|answers|) && Is16(|authority|) && Is16(|additional|)
      && ProperQuestions(questions) && ProperRecords(answers)
      && ProperRecords(authority) && ProperRecords(additional)
    }

    function Header(): (s: seq<byte>)
      requires Proper()
      ensures |s| == 12
      ensures U16(s[4], s[5]) == |questions| && U16(s[6], s[7]) == |answers|
      ensures U16(s[8], s[9]) == |authority| && U16(s[10], s[11]) == |additional|
    {
      idAndFlags + U16Bytes(|questions|) + U16Bytes(|answers|) + U16Bytes(|authority|) + U16Bytes(|additional|)
    }

    function Wire(): seq<byte>
      requires Proper()
    {
      Header() + (QuestionsWire(questions) + (RecordsWire(answers + authority) + RecordsWire(additional)))
    }
  }

  // ----- The walks, on any bytes -----

  function At16(s: seq<byte>, i: nat): nat
    requires i + 2 <= |s|
  {
    U16(s[i], s[i + 1])
  }

  function SkipQuestions(resp: seq<byte>, offset: nat, n: nat): (r: nat)
    decreases n
  {
    if n == 0 || offset >= |resp| then offset else SkipQuestions(resp, SkipName(resp, offset) + 4, n - 1)
  }

  /** Behind `n` records, or None when one of them is cut off before its RDATA. */
  function SkipRecords(resp: seq<byte>, offset: nat, n: nat): Option<nat>
    decreases n
  {
    if n == 0 || offset >= |resp| then Some(offset)
    else
      var at := SkipName(resp, offset);
      if at + 10 > |resp| then None else SkipRecords(resp, at + 10 + At16(resp, at + 8), n - 1)
  }

  function FindOpt(resp: seq<byte>, offset: nat, n: nat): bool
    decreases n
  {
    if n == 0 || offset >= |resp| then false
    else
      var at := SkipName(resp, offset);
      if at + 10 > |resp| then false
      else At16(resp, at) == TYPE_OPT || FindOpt(resp, at + 10 + At16(resp, at + 8), n - 1)
  }

  /** Where the RDATA of the first record of a type with RDATA in the packet starts, and its length. */
  function FindData(resp: seq<byte>, offset: nat, n: nat, rtype: nat): (r: Option<(nat, nat)>)
    ensures r.Some? ==> r.value.1 > 0 && r.value.0 + r.value.1 <= |resp|
    decreases n
  {
    if n == 0 || offset >= |resp| then None
    else
      var at := SkipName(resp, offset);
      if at + 10 > |resp| then None
      else
        var rdlen := At16(resp, at + 8);
        if At16(resp, at) == rtype && rdlen > 0 && at + 10 + rdlen <= |resp| then Some((at + 10, rdlen))
        else FindData(resp, at + 10 + rdlen, n - 1, rtype)
  }

  /** The character-strings between two offsets, joined; a string that overruns the end stops it. */
  function StringsIn(resp: seq<byte>, offset: nat, end: nat): seq<byte>
    requires end <= |resp|
    decreases end - offset
  {
    if offset >= end then []
    else
      var next := offset + 1 + resp[offset];
      if next > end then [] else resp[offset + 1..next] + StringsIn(resp, next, end)
  }

  function AnswersAt(resp: seq<byte>): nat
    requires |resp| >= 12
  {
    SkipQuestions(resp, 12, At16(resp, 4))
  }

  function HasOpt(resp: seq<byte>): bool {
    && |resp| >= 12
    && var behind := SkipRecords(resp, AnswersAt(resp), At16(resp, 6) + At16(resp, 8));
       behind.Some? && FindOpt(resp, behind.value, At16(resp, 10))
  }

  function FirstData(resp: seq<byte>, rtype: nat): (r: Option<(nat, nat)>)
    ensures r.Some? ==> r.value.1 > 0 && r.value.0 + r.value.1 <= |resp|
  {
    if |resp| < 12 then None else FindData(resp, AnswersAt(resp), At16(resp, 6), rtype)
  }

  /** The host of the first NS answer, or nothing. */
  function NsHost(resp: seq<byte>): seq<byte> {
    var found := FirstData(resp, TYPE_NS);
    if found == None then [] else JoinDots(DecodeFrom(resp, found.value.0, {}).labels)
  }

  /** The strings of the first TXT answer, or nothing. */
  function TxtData(resp: seq<byte>): seq<byte> {
    var found := FirstData(resp, TYPE_TXT);
    if found == None then [] else StringsIn(resp, found.value.0, found.value.0 + found.value.1)
  }

  // ----- The walkers -----

  /** The loop every walker starts with. */
  method SkipQuestionSection(resp: seq<byte>, qdcount: nat) returns (offset: nat)
    ensures offset == SkipQuestions(resp, 12, qdcount)
  {
    hide SkipName;
    offset := 12;
    var i := 0;
    while i < qdcount && offset < |resp|
      invariant i <= qdcount && SkipQuestions(resp, offset, qdcount - i) == SkipQuestions(resp, 12, qdcount)
    {
      offset := SkipDNSName(resp, offset);
      offset := offset + 4;
      i := i + 1;
    }
  }

  method HasOPTRecord(resp: seq<byte>) returns (found: bool)
    ensures found == HasOpt(resp)
  {
    hide SkipName, SkipQuestions, U16;
    if |resp| < 12 {
      return false;
    }
    var arcount := At16(resp, 10);
    if arcount == 0 {
      return false;
    }
    var qdcount, ancount, nscount := At16(resp, 4), At16(resp, 6), At16(resp, 8);
    var offset: nat := SkipQuestionSection(resp, qdcount);
    var i := 0;
    while i < ancount + nscount && offset < |resp|
      invariant i <= ancount + nscount
      invariant SkipRecords(resp, offset, ancount + nscount - i)
        == SkipRecords(resp, AnswersAt(resp), ancount + nscount)
    {
      offset := SkipDNSName(resp, offset);
      if offset + 10 > |resp| {
        return false;
      }
      var rdlen := At16(resp, offset + 8);
      offset := offset + 10 + rdlen;
      i := i + 1;
    }
    i := 0;
    ghost var start := offset;
    while i < arcount && offset < |resp|
      invariant i <= arcount && FindOpt(resp, offset, arcount - i) == FindOpt(resp, start, arcount)
    {
      var nameEnd := SkipDNSName(resp, offset);
      if nameEnd + 10 > |resp| {
        return false;
      }
      if At16(resp, nameEnd) == TYPE_OPT {
        return true;
      }
      var rdlen := At16(resp, nameEnd + 8);
      offset := nameEnd + 10 + rdlen;
      i := i + 1;
    }
    return false;
  }

  method ExtractNSHost(resp: seq<byte>) returns (host: seq<byte>)
    ensures host == NsHost(resp)
  {
    hide SkipName, SkipQuestions, U16, DecodeFrom, JoinDots;
    if |resp| < 12 {
      return [];
    }
    var ancount, qdcount := At16(resp, 6), At16(resp, 4);
    var offset: nat := SkipQuestionSection(resp, qdcount);
    var i := 0;
    while i < ancount && offset < |resp|
      invariant i <= ancount && FindData(resp, offset, ancount - i, TYPE_NS) == FirstData(resp, TYPE_NS)
    {
      offset := SkipDNSName(resp, offset);
      if offset + 10 > |resp| {
        return [];
      }
      var rtype, rdlen := At16(resp, offset), At16(resp, offset + 8);
      offset := offset + 10;
      if rtype == TYPE_NS && rdlen > 0 && offset + rdlen <= |resp| {
        host := DecodeDNSName(resp, offset);
        return;
      }
      offset := offset + rdlen;
      i := i + 1;
    }
    return [];
  }

  lemma StringsStep(resp: seq<byte>, offset: nat, end: nat)
    requires offset < end <= |resp|
    ensures var next := offset + 1 + resp[offset];
      StringsIn(resp, offset, end) == if next > end then [] else resp[offset + 1..next] + StringsIn(resp, next, end)
  {
  }

  lemma NothingBehind(resp: seq<byte>, offset: nat, end: nat)
    requires end <= |resp| && end <= offset
    ensures StringsIn(resp, offset, end) == []
  {
  }

  method ReadStrings(resp: seq<byte>, start: nat, end: nat) returns (data: seq<byte>)
    requires end <= |resp|
    ensures data == StringsIn(resp, start, end)
  {
    hide StringsIn;
    data := [];
    var offset := start;
    ghost var whole := StringsIn(resp, start, end);
    ghost var rest := whole;
    while offset < end
      invariant rest == StringsIn(resp, offset, end) && whole == data + rest
    {
      StringsStep(resp, offset, end);
      var strLen := resp[offset];
      offset := offset + 1;
      if offset + strLen > end {
        assert rest == [] && whole == data;
        return;
      }
      var piece := resp[offset..offset + strLen];
      offset := offset + strLen;
      ghost var rest' := StringsIn(resp, offset, end);
      assert rest == piece + rest';
      assert data + (piece + rest') == (data + piece) + rest';
      data, rest := data + piece, rest';
    }
    NothingBehind(resp, offset, end);
  }

  method ExtractTXTRawData(resp: seq<byte>) returns (data: seq<byte>)
    ensures data == TxtData(resp)
  {
    hide SkipName, SkipQuestions, U16, StringsIn;
    if |resp| < 12 {
      return [];
    }
    var ancount := At16(resp, 6);
    if ancount == 0 {
      return [];
    }
    var qdcount := At16(resp, 4);
    var offset: nat := SkipQuestionSection(resp, qdcount);
    var i := 0;
    while i < ancount && offset < |resp|
      invariant i <= ancount && FindData(resp, offset, ancount - i, TYPE_TXT) == FirstData(resp, TYPE_TXT)
    {
      offset := SkipDNSName(resp, offset);
      if offset + 10 > |resp| {
        return [];
      }
      var rtype, rdlen := At16(resp, offset), At16(resp, offset + 8);
      offset := offset + 10;
      if rtype == TYPE_TXT && rdlen > 0 && offset + rdlen <= |resp| {
        data := ReadStrings(resp, offset, offset + rdlen);
        return;
      }
      offset := offset + rdlen;
      i := i + 1;
    }
    return [];
  }

  // ----- The walks on well-formed messages -----

  lemma {:induction false} SkipsQuestions(resp: seq<byte>, offset: nat, qs: seq<Question>)
    requires ProperQuestions(qs) && HoldsAt(resp, offset, QuestionsWire(qs))
    ensures SkipQuestions(resp, offset, |qs|) == offset + |QuestionsWire(qs)|
    decreases qs
  {
    if qs != [] {
      var q := qs[0];
      HoldsBoth(resp, offset, q.Wire(), QuestionsWire(qs[1..]));
      HoldsBoth(resp, offset, q.name.Bytes(), U16Bytes(q.qtype) + U16Bytes(q.qclass));
      SkipLandsBehind(resp, offset, q.name);
      SkipsQuestions(resp, offset + |q.Wire()|, qs[1..]);
    }
  }

  /** What every walk reads of one record. */
  lemma ReadsRecord(resp: seq<byte>, offset: nat, r: Record)
    requires r.Proper() && HoldsAt(resp, offset, r.Wire())
    ensures var at := offset + |r.name.Bytes()|;
      && SkipName(resp, offset) == at && at + 10 + |r.rdata| == offset + |r.Wire()| <= |resp|
      && At16(resp, at) == r.rtype && At16(resp, at + 8) == |r.rdata|
      && HoldsAt(resp, at + 10, r.rdata)
  {
    var at := offset + |r.name.Bytes()|;
    HoldsBoth(resp, offset, r.name.Bytes(), r.Fixed() + r.rdata);
    HoldsBoth(resp, at, r.Fixed(), r.rdata);
    SkipLandsBehind(resp, offset, r.name);
    forall i | 0 <= i < 10
      ensures resp[at + i] == r.Fixed()[i]
    {
      HoldsByte(resp, at, r.Fixed(), i);
    }
    assert resp[at + 0] == r.Fixed()[0] && resp[at + 1] == r.Fixed()[1];
    assert resp[at + 8] == r.Fixed()[8] && resp[at + 9] == r.Fixed()[9];
  }

  lemma {:induction false} SkipsRecords(resp: seq<byte>, offset: nat, rs: seq<Record>)
    requires ProperRecords(rs) && HoldsAt(resp, offset, RecordsWire(rs))
    ensures SkipRecords(resp, offset, |rs|) == Some(offset + |RecordsWire(rs)|)
    decreases rs
  {
    hide HoldsAt, SkipName, U16Bytes, LabelBytes, Record.Wire, Record.Fixed, WireName.Bytes, Question.Wire;
    if rs != [] {
      HoldsBoth(resp, offset, rs[0].Wire(), RecordsWire(rs[1..]));
      ReadsRecord(resp, offset, rs[0]);
      SkipsRecords(resp, offset + |rs[0].Wire()|, rs[1..]);
    }
  }

  lemma {:induction false} FindsOpt(resp: seq<byte>, offset: nat, rs: seq<Record>)
    requires ProperRecords(rs) && HoldsAt(resp, offset, RecordsWire(rs))
    ensures FindOpt(resp, offset, |rs|) <==> exists i :: 0 <= i < |rs| && rs[i].rtype == TYPE_OPT
    decreases rs
  {
    hide HoldsAt, SkipName, U16Bytes, LabelBytes, Record.Wire, Record.Fixed, WireName.Bytes, Question.Wire;
    if rs != [] {
      HoldsBoth(resp, offset, rs[0].Wire(), RecordsWire(rs[1..]));
      ReadsRecord(resp, offset, rs[0]);
      FindsOpt(resp, offset + |rs[0].Wire()|, rs[1..]);
      assert forall i :: 0 < i < |rs| ==> rs[i] == rs[1..][i - 1];
    }
  }

  /** The first record of a type that is not empty. */
  function FirstOf(rs: seq<Record>, rtype: nat): (r: Option<nat>)
    ensures r.Some? ==> r.value < |rs| && rs[r.value].rtype == rtype && rs[r.value].rdata != []
    ensures forall i :: 0 <= i < (if r.Some? then r.value else |rs|) ==> rs[i].rtype != rtype || rs[i].rdata == []
  {
    if rs == [] then None
    else if rs[0].rtype == rtype && rs[0].rdata != [] then Some(0)
    else
      match FirstOf(rs[1..], rtype)
      case None => None
      case Some(i) => Some(i + 1)
  }

  /** Where a record's RDATA lies, counted from the start of its section. */
  function DataOffset(rs: seq<Record>, i: nat): nat
    requires ProperRecords(rs) && i < |rs|
  {
    if i == 0 then |rs[0].name.Bytes()| + 10 else |rs[0].Wire()| + DataOffset(rs[1..], i - 1)
  }

  lemma {:induction false} FindsData(resp: seq<byte>, offset: nat, rs: seq<Record>, rtype: nat)
    requires ProperRecords(rs) && HoldsAt(resp, offset, RecordsWire(rs))
    ensures match FirstOf(rs, rtype)
      case None => FindData(resp, offset, |rs|, rtype) == None
      case Some(i) =>
        && FindData(resp, offset, |rs|, rtype) == Some((offset + DataOffset(rs, i), |rs[i].rdata|))
        && HoldsAt(resp, offset + DataOffset(rs, i), rs[i].rdata)
    decreases rs
  {
    hide HoldsAt, FindData, U16Bytes, LabelBytes, Record.Wire, Record.Fixed, WireName.Bytes;
    if rs == [] {
      FindDataNone(resp, offset, rtype);
    } else {
      HoldsBoth(resp, offset, rs[0].Wire(), RecordsWire(rs[1..]));
      ReadsRecord(resp, offset, rs[0]);
      FindDataTurn(resp, offset, |rs|, rtype, rs[0]);
      if rs[0].rtype != rtype || rs[0].rdata == [] {
        FindsData(resp, offset + |rs[0].Wire()|, rs[1..], rtype);
      }
    }
  }

  lemma FindDataNone(resp: seq<byte>, offset: nat, rtype: nat)
    ensures FindData(resp, offset, 0, rtype) == None
  {
  }

  lemma FindDataTurn(resp: seq<byte>, offset: nat, n: nat, rtype: nat, r: Record)
    requires n > 0 && r.Proper() && HoldsAt(resp, offset, r.Wire())
    ensures FindData(resp, offset, n, rtype) ==
      if r.rtype == rtype && r.rdata != [] then Some((offset + |r.name.Bytes()| + 10, |r.rdata|))
      else FindData(resp, offset + |r.Wire()|, n - 1, rtype)
  {
    hide HoldsAt, SkipName, U16Bytes, LabelBytes, Record.Wire, Record.Fixed, WireName.Bytes;
    ReadsRecord(resp, offset, r);
  }

  /** Where the parts of a message lie in a packet that starts with it. */
  lemma ReadsMessage(m: Message, resp: seq<byte>)
    requires m.Proper() && HoldsAt(resp, 0, m.Wire())
    ensures |resp| >= 12
    ensures At16(resp, 4) == |m.questions| && At16(resp, 6) == |m.answers|
    ensures At16(resp, 8) == |m.authority| && At16(resp, 10) == |m.additional|
    ensures AnswersAt(resp) == 12 + |QuestionsWire(m.questions)|
    ensures HoldsAt(resp, AnswersAt(resp), RecordsWire(m.answers + m.authority) + RecordsWire(m.additional))
  {
    hide HoldsAt, SkipName, U16Bytes, LabelBytes, Record.Wire, Record.Fixed, WireName.Bytes, Question.Wire;
    hide RecordsWire, QuestionsWire, SkipQuestions, Message.Header;
    var body := RecordsWire(m.answers + m.authority) + RecordsWire(m.additional);
    HoldsBoth(resp, 0, m.Header(), QuestionsWire(m.questions) + body);
    HoldsBoth(resp, 12, QuestionsWire(m.questions), body);
    forall i | 0 <= i < 12
      ensures i < |resp| && resp[i] == m.Header()[i]
    {
      HoldsByte(resp, 0, m.Header(), i);
    }
    HoldsByte(resp, 0, m.Header(), 11);
    SkipsQuestions(resp, 12, m.questions);
  }

  lemma {:induction false} RecordsWireAppend(xs: seq<Record>, ys: seq<Record>)
    requires ProperRecords(xs) && ProperRecords(ys)
    ensures RecordsWire(xs + ys) == RecordsWire(xs) + RecordsWire(ys)
  {
    if xs == [] {
      assert xs + ys == ys;
    } else {
      assert (xs + ys)[1..] == xs[1..] + ys;
      RecordsWireAppend(xs[1..], ys);
    }
  }

  /** In a packet that starts with a well-formed message, OPT is found iff the additional section has one. */
  lemma OptIsFound(m: Message, resp: seq<byte>)
    requires m.Proper() && HoldsAt(resp, 0, m.Wire())
    ensures HasOpt(resp) <==> exists i :: 0 <= i < |m.additional| && m.additional[i].rtype == 41
  {
    hide HoldsAt, SkipName, U16Bytes, LabelBytes, Record.Wire, Record.Fixed, WireName.Bytes, Question.Wire;
    hide Message.Wire, Message.Header, RecordsWire, QuestionsWire, AnswersAt, SkipRecords, FindOpt, FindData;
    hide SkipQuestions, DataOffset;
    ReadsMessage(m, resp);
    var at, front := AnswersAt(resp), m.answers + m.authority;
    HoldsBoth(resp, at, RecordsWire(front), RecordsWire(m.additional));
    SkipsRecords(resp, at, front);
    FindsOpt(resp, at + |RecordsWire(front)|, m.additional);
  }

  /** The RDATA found is that of the first answer of the type that has any. */
  lemma DataIsFound(m: Message, resp: seq<byte>, rtype: nat)
    requires m.Proper() && HoldsAt(resp, 0, m.Wire())
    ensures match FirstOf(m.answers, rtype)
      case None => FirstData(resp, rtype) == None
      case Some(i) =>
        var at := 12 + |QuestionsWire(m.questions)| + DataOffset(m.answers, i);
        FirstData(resp, rtype) == Some((at, |m.answers[i].rdata|)) && HoldsAt(resp, at, m.answers[i].rdata)
  {
    hide HoldsAt, SkipName, U16Bytes, LabelBytes, Record.Wire, Record.Fixed, WireName.Bytes, Question.Wire;
    hide Message.Wire, Message.Header, RecordsWire, QuestionsWire, AnswersAt, SkipRecords, FindOpt, FindData;
    hide SkipQuestions, DataOffset;
    ReadsMessage(m, resp);
    var at := AnswersAt(resp);
    HoldsBoth(resp, at, RecordsWire(m.answers + m.authority), RecordsWire(m.additional));
    RecordsWireAppend(m.answers, m.authority);
    HoldsBoth(resp, at, RecordsWire(m.answers), RecordsWire(m.authority));
    FindsData(resp, at, m.answers, rtype);
  }

  /** A TXT answer's RDATA: character-strings, each with its length byte. */
  function StringsWire(strings: seq<seq<byte>>): seq<byte>
    requires forall i :: 0 <= i < |strings| ==> |strings[i]| < 256
  {
    if strings == [] then [] else [|strings[0]|] + strings[0] + StringsWire(strings[1..])
  }

  /** The front of a character-string whose length byte announces more than there is, or nothing. */
  predicate Overruns(broken: seq<byte>) {
    broken != [] ==> |broken| - 1 < broken[0]
  }

  lemma {:induction false} StringsRead(resp: seq<byte>, offset: nat, strings: seq<seq<byte>>, broken: seq<byte>)
    requires forall i :: 0 <= i < |strings| ==> |strings[i]| < 256
    requires offset <= |resp| && HoldsAt(resp, offset, StringsWire(strings) + broken) && Overruns(broken)
    ensures offset + |StringsWire(strings) + broken| <= |resp|
    ensures StringsIn(resp, offset, offset + |StringsWire(strings) + broken|) == Concat(strings)
    decreases strings
  {
    hide HoldsAt, StringsIn;
    HoldsSlice(resp, offset, StringsWire(strings) + broken);
    if strings == [] {
      assert StringsWire(strings) + broken == broken;
      NoString(resp, offset, broken);
    } else {
      var head, tail := [|strings[0]|] + strings[0], StringsWire(strings[1..]) + broken;
      assert StringsWire(strings) + broken == head + tail;
      HoldsBoth(resp, offset, head, tail);
      OneString(resp, offset, strings[0], offset + |head| + |tail|);
      StringsRead(resp, offset + |head|, strings[1..], broken);
    }
  }

  lemma NoString(resp: seq<byte>, offset: nat, broken: seq<byte>)
    requires HoldsAt(resp, offset, broken) && Overruns(broken)
    ensures offset + |broken| <= |resp| && StringsIn(resp, offset, offset + |broken|) == []
  {
    if broken != [] {
      HoldsByte(resp, offset, broken, 0);
    }
  }

  lemma OneString(resp: seq<byte>, offset: nat, text: seq<byte>, end: nat)
    requires |text| < 256 && HoldsAt(resp, offset, [|text|] + text) && offset + 1 + |text| <= end <= |resp|
    ensures StringsIn(resp, offset, end) == text + StringsIn(resp, offset + 1 + |text|, end)
  {
    hide HoldsAt;
    HoldsBoth(resp, offset, [|text|], text);
    HoldsByte(resp, offset, [|text|], 0);
    HoldsSlice(resp, offset + 1, text);
  }

  /**
   The TXT data returned is the joined strings of the first TXT answer (type 16) that is not empty; a
   last string that overruns the RDATA is left out.
   */
  lemma TxtIsExtracted(m: Message, resp: seq<byte>, i: nat, strings: seq<seq<byte>>, broken: seq<byte>)
    requires m.Proper() && HoldsAt(resp, 0, m.Wire())
    requires FirstOf(m.answers, 16) == Some(i)
    requires (forall k :: 0 <= k < |strings| ==> |strings[k]| < 256) && Overruns(broken)
    requires m.answers[i].rdata == StringsWire(strings) + broken
    ensures TxtData(resp) == Concat(strings)
  {
    hide HoldsAt, Message.Wire, QuestionsWire, FirstOf, FirstData, StringsWire, StringsIn, Overruns;
    DataIsFound(m, resp, 16);
    StringsRead(resp, 12 + |QuestionsWire(m.questions)| + DataOffset(m.answers, i), strings, broken);
  }

  /** The NS host returned is the name that the first non-empty NS answer (type 2) spells, pointers followed. */
  lemma NsIsExtracted(m: Message, resp: seq<byte>, i: nat, labels: seq<seq<byte>>, n: nat)
    requires m.Proper() && HoldsAt(resp, 0, m.Wire())
    requires FirstOf(m.answers, 2) == Some(i)
    requires Spells(resp, 12 + |QuestionsWire(m.questions)| + DataOffset(m.answers, i), labels, n)
    ensures NsHost(resp) == JoinDots(labels)
  {
    hide HoldsAt, Message.Wire, QuestionsWire, FirstOf, FirstData, DataOffset, Spells, DecodeFrom, JoinDots;
    DataIsFound(m, resp, 2);
    DecodeSpelled(resp, 12 + |QuestionsWire(m.questions)| + DataOffset(m.answers, i), labels, n);
  }

  /** So RDATA that ends in a pointer gives its own labels and then those of the name pointed to. */
  lemma CompressedNsIsExtracted(m: Message, resp: seq<byte>, i: nat, name: WireName, tail: seq<seq<byte>>, n: nat)
    requires m.Proper() && HoldsAt(resp, 0, m.Wire())
    requires FirstOf(m.answers, 2) == Some(i)
    requires name.Proper() && name.pointer.Some? && m.answers[i].rdata == name.Bytes()
    requires Spells(resp, name.pointer.value, tail, n)
    ensures NsHost(resp) == JoinDots(name.labels + tail)
  {
    hide HoldsAt, Message.Wire, QuestionsWire, FirstOf, FirstData, DataOffset, Spells, DecodeFrom, JoinDots;
    hide WireName.Bytes;
    DataIsFound(m, resp, 2);
    var at := 12 + |QuestionsWire(m.questions)| + DataOffset(m.answers, i);
    PointerSpells(resp, at, name.labels, name.pointer.value, tail, n);
    NsIsExtracted(m, resp, i, name.labels + tail, |name.labels| + 1 + n);
  }

  /** Without such an answer there is no host and no data. */
  lemma NothingIsExtracted(m: Message, resp: seq<byte>)
    requires m.Proper() && HoldsAt(resp, 0, m.Wire())
    ensures FirstOf(m.answers, 2) == None ==> NsHost(resp) == []
    ensures FirstOf(m.answers, 16) == None ==> TxtData(resp) == []
  {
    hide HoldsAt, Message.Wire, QuestionsWire, FirstOf, FirstData, DataOffset, DecodeFrom, JoinDots, StringsIn;
    DataIsFound(m, resp, 2);
    DataIsFound(m, resp, 16);
  }

  // ----- Packets cut off -----

  lemma {:induction false} QuestionsInPart(resp: seq<byte>, k: nat, offset: nat, n: nat)
    requires k <= |resp|
    ensures var part, whole := SkipQuestions(resp[..k], offset, n), SkipQuestions(resp, offset, n);
      part == whole || k <= part < whole
    decreases n
  {
    hide SkipName;
    QuestionsForward(resp, offset, n);
    if n > 0 && offset < k {
      SkipInPart(resp, k, offset);
      var part, whole := SkipName(resp[..k], offset) + 4, SkipName(resp, offset) + 4;
      QuestionsInPart(resp, k, whole, n - 1);
      QuestionsForward(resp, whole, n - 1);
      if part != whole {
        assert SkipQuestions(resp[..k], part, n - 1) == part;
      }
    }
  }

  lemma {:induction false} QuestionsForward(resp: seq<byte>, offset: nat, n: nat)
    ensures SkipQuestions(resp, offset, n) >= offset
    decreases n
  {
    if n > 0 && offset < |resp| {
      QuestionsForward(resp, SkipName(resp, offset) + 4, n - 1);
    }
  }

  /** The RDATA that lies in the first `k` bytes, if it is there. */
  function Within(found: Option<(nat, nat)>, k: nat): Option<(nat, nat)> {
    if found.Some? && found.value.0 + found.value.1 <= k then found else None
  }

  lemma {:induction false} DataBehind(resp: seq<byte>, offset: nat, n: nat, rtype: nat)
    ensures FindData(resp, offset, n, rtype).Some? ==> FindData(resp, offset, n, rtype).value.0 >= offset + 10
    decreases n
  {
    hide U16;
    if n > 0 && offset < |resp| {
      var at := SkipName(resp, offset);
      if at + 10 <= |resp| {
        DataBehind(resp, at + 10 + At16(resp, at + 8), n - 1, rtype);
      }
    }
  }

  lemma {:induction false} DataInPart(resp: seq<byte>, k: nat, offset: nat, n: nat, rtype: nat)
    requires k <= |resp|
    ensures FindData(resp[..k], offset, n, rtype) == Within(FindData(resp, offset, n, rtype), k)
    decreases n
  {
    hide U16, SkipName;
    DataBehind(resp, offset, n, rtype);
    if n > 0 && offset < k {
      SkipInPart(resp, k, offset);
      var at := SkipName(resp, offset);
      if at + 10 <= k {
        var next := at + 10 + At16(resp, at + 8);
        assert At16(resp[..k], at) == At16(resp, at) && At16(resp[..k], at + 8) == At16(resp, at + 8);
        DataInPart(resp, k, next, n - 1, rtype);
        DataBehind(resp, next, n - 1, rtype);
      } else {
        DataFarBehind(resp, k, offset, n, rtype);
      }
    }
  }

  lemma DataFarBehind(resp: seq<byte>, k: nat, offset: nat, n: nat, rtype: nat)
    requires n > 0 && offset < |resp| && SkipName(resp, offset) + 10 > k
    ensures FindData(resp, offset, n, rtype).Some? ==> FindData(resp, offset, n, rtype).value.0 >= k
  {
    hide U16, SkipName;
    var at := SkipName(resp, offset);
    if at + 10 <= |resp| {
      DataBehind(resp, at + 10 + At16(resp, at + 8), n - 1, rtype);
    }
  }

  lemma {:induction false} StringsInPart(resp: seq<byte>, k: nat, offset: nat, end: nat)
    requires end <= k <= |resp|
    ensures StringsIn(resp[..k], offset, end) == StringsIn(resp, offset, end)
    decreases end - offset
  {
    hide StringsIn;
    if offset >= end {
      NothingBehind(resp, offset, end);
      NothingBehind(resp[..k], offset, end);
    } else {
      var next := offset + 1 + resp[offset];
      StringsStep(resp, offset, end);
      StringsStep(resp[..k], offset, end);
      if next <= end {
        assert resp[..k][offset + 1..next] == resp[offset + 1..next];
        StringsInPart(resp, k, next, end);
      }
    }
  }

  /** A response cut off anywhere behind its header, well-formed or not, gives the same data or none. */
  lemma TruncatedData(resp: seq<byte>, k: nat, rtype: nat)
    requires 12 <= k <= |resp|
    ensures FirstData(resp[..k], rtype) == Within(FirstData(resp, rtype), k)
    ensures TxtData(resp[..k]) == if Within(FirstData(resp, 16), k).Some? then TxtData(resp) else []
  {
    hide FindData, SkipQuestions, StringsIn, U16;
    FirstDataInPart(resp, k, rtype);
    FirstDataInPart(resp, k, 16);
    var found := FirstData(resp, 16);
    if Within(found, k).Some? {
      StringsInPart(resp, k, found.value.0, found.value.0 + found.value.1);
    }
  }

  lemma FirstDataInPart(resp: seq<byte>, k: nat, rtype: nat)
    requires 12 <= k <= |resp|
    ensures FirstData(resp[..k], rtype) == Within(FirstData(resp, rtype), k)
  {
    hide FindData, SkipQuestions, U16;
    var qdcount, ancount := At16(resp, 4), At16(resp, 6);
    assert At16(resp[..k], 4) == qdcount && At16(resp[..k], 6) == ancount;
    QuestionsInPart(resp, k, 12, qdcount);
    var part, whole := AnswersAt(resp[..k]), AnswersAt(resp);
    DataInPart(resp, k, whole, ancount, rtype);
    DataBehind(resp, whole, ancount, rtype);
    if part != whole {
      NoDataBehindEnd(resp[..k], part, ancount, rtype);
    }
  }

  lemma NoDataBehindEnd(resp: seq<byte>, offset: nat, n: nat, rtype: nat)
    requires offset >= |resp|
    ensures FindData(resp, offset, n, rtype) == None
  {
  }
}
