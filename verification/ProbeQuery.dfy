/**
 The queries scanner.go sends: packet construction, and the tunnel-realism probe that is scaled to a
 query-size budget.
 */
module ProbeQuery {
  import opened Bytes
  import opened Split
  import opened DnsName
  import opened DnsMessage
  import opened Base32

  // ----- Packets -----

  /** buildEDNS0OPT: root name, type OPT, the payload size as class, zero TTL, no RDATA. */
  method BuildEDNS0OPT(payloadSize: nat) returns (opt: seq<byte>)
    ensures OptRecord(payloadSize).Proper() && opt == OptRecord(payloadSize).Wire()
  {
    hide Record.Wire, OptRecord;
    opt := [0, 0, 41, Low8(payloadSize / 256), Low8(payloadSize), 0, 0, 0, 0, 0, 0];
    OptWire(payloadSize);
  }

  lemma OptWire(payloadSize: nat)
    ensures OptRecord(payloadSize).Proper()
    ensures OptRecord(payloadSize).Wire()
      == [0, 0, 41, Low8(payloadSize / 256), Low8(payloadSize), 0, 0, 0, 0, 0, 0]
  {
    hide Record.Fixed, WireName.Bytes, WireName.Proper;
    var r := OptRecord(payloadSize);
    RootBytes();
    FixedOfOpt(payloadSize);
    assert r.Wire() == [0] + (r.Fixed() + []);
  }

  lemma FixedOfOpt(payloadSize: nat)
    requires OptRecord(payloadSize).Proper()
    ensures OptRecord(payloadSize).Fixed()
      == [0, 41, Low8(payloadSize / 256), Low8(payloadSize), 0, 0, 0, 0, 0, 0]
  {
    hide U16, WireName.Proper;
    var hi, lo := Low8(payloadSize / 256), Low8(payloadSize);
    U16OfByte(41);
    U16OfByte(0);
    LowWord(payloadSize);
    assert U16Bytes(payloadSize % 65536) == [hi, lo] by {
      assert Low8(payloadSize % 65536 / 256) == hi && Low8(payloadSize % 65536) == lo;
    }
    assert [0, 41] + [hi, lo] + [0, 0, 0, 0] + [0, 0] == [0, 41, hi, lo, 0, 0, 0, 0, 0, 0];
  }

  lemma RootBytes()
    ensures WireName([], None).Proper() && WireName([], None).Bytes() == [0]
  {
  }

  function OptRecord(payloadSize: nat): Record {
    Record(WireName([], None), TYPE_OPT, payloadSize % 65536, [0, 0, 0, 0], [])
  }

  /** The query as a message of the standard. */
  function QueryMessage(txid: seq<byte>, name: seq<byte>, qtype: nat, additional: seq<Record>): (m: Message)
    requires |txid| == 2 && Is16(qtype) && ProperRecords(additional) && |additional| <= 1
    ensures m.Proper()
  {
    Message(txid + [1, 0], [Question(WireName(WireLabels(name), None), qtype, 1)], [], [], additional)
  }

  /** The packet that dnsQuery builds; `additional` is what buildEDNS0OPT made, if anything. */
  method BuildQuery(txid: seq<byte>, name: seq<byte>, qtype: nat, additional: Option<seq<byte>>,
                    ghost opt: seq<Record>)
    returns (pkt: seq<byte>)
    requires |txid| == 2 && Is16(qtype) && ProperRecords(opt) && |opt| <= 1
    requires additional == if opt == [] then None else Some(opt[0].Wire())
    ensures pkt == QueryMessage(txid, name, qtype, opt).Wire()
  {
    hide Message.Wire, Record.Wire, QueryMessage, EncodeName;
    pkt := [];
    pkt := pkt + txid;
    pkt := pkt + [1, 0];
    pkt := pkt + [0, 1];
    pkt := pkt + [0, 0];
    pkt := pkt + [0, 0];
    if additional.Some? {
      pkt := pkt + [0, 1];
    } else {
      pkt := pkt + [0, 0];
    }
    assert pkt == txid + [1, 0, 0, 1, 0, 0, 0, 0, 0, |opt|];
    var encoded := EncodeDNSName(name);
    pkt := pkt + encoded;
    pkt := pkt + [Low8(qtype / 256), Low8(qtype)];
    pkt := pkt + [0, 1];
    if additional.Some? {
      pkt := pkt + additional.value;
    }
    OneRecordWire(opt);
    QueryWire(txid, name, qtype, opt);
  }

  /** A query packet, byte by byte. */
  function PacketBytes(txid: seq<byte>, name: seq<byte>, qtype: nat, opt: seq<Record>): seq<byte>
    requires |txid| == 2 && Is16(qtype) && ProperRecords(opt) && |opt| <= 1
  {
    txid + [1, 0, 0, 1, 0, 0, 0, 0, 0, |opt|] + EncodeName(name) + [Low8(qtype / 256), Low8(qtype)] + [0, 1]
    + RecordsWire(opt)
  }

  /** It is the wire form of the message. */
  lemma QueryWire(txid: seq<byte>, name: seq<byte>, qtype: nat, opt: seq<Record>)
    requires |txid| == 2 && Is16(qtype) && ProperRecords(opt) && |opt| <= 1
    ensures QueryMessage(txid, name, qtype, opt).Wire() == PacketBytes(txid, name, qtype, opt)
  {
    hide Record.Wire, EncodeName, Question.Wire, QuestionsWire, RecordsWire, WireLabels, U16, U16Bytes;
    var m := QueryMessage(txid, name, qtype, opt);
    var asked := EncodeName(name) + [Low8(qtype / 256), Low8(qtype)] + [0, 1];
    U16OfByte(0);
    U16OfByte(1);
    assert |opt| == 0 || |opt| == 1;
    assert m.Header() == txid + [1, 0, 0, 1, 0, 0, 0, 0, 0, |opt|];
    QueryQuestion(name, qtype);
    OneRecordWire([]);
    assert m.answers + m.authority == [];
    assert QuestionsWire(m.questions) == asked;
    var records := RecordsWire(opt);
    assert m.Wire() == m.Header() + (asked + ([] + records));
    assert [] + records == records;
    assert m.Header() + (asked + records) == m.Header() + asked + records;
  }

  lemma OneRecordWire(opt: seq<Record>)
    requires ProperRecords(opt) && |opt| <= 1
    ensures RecordsWire(opt) == if opt == [] then [] else opt[0].Wire()
  {
    if opt != [] {
      assert RecordsWire(opt) == opt[0].Wire() + RecordsWire(opt[1..]) == opt[0].Wire();
    }
  }

  lemma QueryQuestion(name: seq<byte>, qtype: nat)
    requires Is16(qtype)
    ensures var q := Question(WireName(WireLabels(name), None), qtype, 1);
      ProperQuestions([q]) && QuestionsWire([q]) == EncodeName(name) + [Low8(qtype / 256), Low8(qtype)] + [0, 1]
  {
    hide LabelBytes, WireLabels, Question.Wire, WireName.Bytes, EncodeName, U16Bytes;
    var q := Question(WireName(WireLabels(name), None), qtype, 1);
    QuestionBytes(name, qtype);
    assert [q][1..] == [] && QuestionsWire([q][1..]) == [];
    assert QuestionsWire([q]) == q.Wire() + [];
  }

  lemma QuestionBytes(name: seq<byte>, qtype: nat)
    requires Is16(qtype)
    ensures var q := Question(WireName(WireLabels(name), None), qtype, 1);
      q.Proper() && q.Wire() == EncodeName(name) + [Low8(qtype / 256), Low8(qtype)] + [0, 1]
  {
    hide LabelBytes, WireLabels;
  }

  /** A query read back: the name asked for, and an OPT record exactly when one was put in. */
  lemma QueryReadsBack(txid: seq<byte>, name: seq<byte>, qtype: nat, opt: seq<Record>)
    requires |txid| == 2 && Is16(qtype) && ProperRecords(opt) && |opt| <= 1
    requires forall i :: 0 <= i < |opt| ==> opt[i].rtype == TYPE_OPT
    ensures var pkt := QueryMessage(txid, name, qtype, opt).Wire();
      && DecodeFrom(pkt, 12, {}) == Decoded(WireLabels(name), AtRoot)
      && (HasOpt(pkt) <==> opt != [])
  {
    hide Message.Wire, Record.Wire, EncodeName, QueryMessage, HasOpt, DecodeFrom;
    var m := QueryMessage(txid, name, qtype, opt);
    var pkt := m.Wire();
    assert HoldsAt(pkt, 0, pkt);
    OptIsFound(m, pkt);
    AdditionalOf(txid, name, qtype, opt);
    QueryWire(txid, name, qtype, opt);
    assert HoldsAt(pkt, 12, EncodeName(name));
    NameRoundTrip(name, pkt, 12);
    if opt != [] {
      assert opt[0].rtype == TYPE_OPT;
    }
  }

  lemma AdditionalOf(txid: seq<byte>, name: seq<byte>, qtype: nat, opt: seq<Record>)
    requires |txid| == 2 && Is16(qtype) && ProperRecords(opt) && |opt| <= 1
    ensures QueryMessage(txid, name, qtype, opt).additional == opt
  {
  }

  // ----- Splitting into labels -----

  method SplitLabels(s: seq<byte>, maxLen: nat) returns (labels: seq<seq<byte>>)
    requires maxLen > 0
    ensures labels == Pieces(s, maxLen)
  {
    labels := [];
    var rest := s;
    while |rest| > maxLen
      invariant Pieces(s, maxLen) == labels + Pieces(rest, maxLen)
      decreases |rest|
    {
      labels := labels + [rest[..maxLen]];
      rest := rest[maxLen..];
    }
    if |rest| > 0 {
      labels := labels + [rest];
    }
  }

  lemma {:induction false} PiecesCount(s: seq<byte>)
    ensures |Pieces(s, 57)| == (|s| + 56) / 57
    decreases |s|
  {
    if |s| > 57 {
      PiecesCount(s[57..]);
    }
  }

  lemma {:induction false} PiecesDotFree(s: seq<byte>, maxLen: nat)
    requires maxLen > 0 && DOT !in s
    ensures Free(DOT, Pieces(s, maxLen))
    decreases |s|
  {
    if |s| > maxLen {
      PiecesDotFree(s[maxLen..], maxLen);
    }
  }

  // ----- The budget -----

  /** How many random bytes the probe carries. */
  function RandomLength(domainLength: nat, querySize: int): (n: nat)
    ensures 5 <= n <= 100
  {
    if querySize < 50 then 100
    else
      var available := querySize - (12 + 4 + (domainLength + 2));
      var raw := (if available < 10 then 10 else available) * 5 / 9;  // 5 or more
      if raw > 100 then 100 else raw
  }

  function ProbeName(testDomain: seq<byte>, random: seq<byte>): seq<byte> {
    JoinDots(Pieces(Encoding(random), 57)) + [DOT] + testDomain
  }

  /** The query name of the tunnel-realism probe; `random` supplies the random bytes. */
  method TunnelRealismQuery(testDomain: seq<byte>, querySize: int, random: seq<byte>) returns (query: seq<byte>)
    requires |random| >= 100
    ensures query == ProbeName(testDomain, random[..RandomLength(|testDomain|, querySize)])
  {
    var randLen := 100;
    if querySize >= 50 {
      var suffixLen := |testDomain| + 2;
      var overhead := 12 + 4 + suffixLen;
      var available := querySize - overhead;
      if available < 10 {
        available := 10;
      }
      randLen := available * 5 / 9;
      if randLen < 5 {
        randLen := 5;
      }
      if randLen > 100 {
        randLen := 100;
      }
    }
    var randBytes := random[..randLen];
    var encoded := Base32Encode(randBytes);
    var labels := SplitLabels(encoded, 57);
    query := JoinDots(labels) + [DOT] + testDomain;
  }

  /** The packet of the probe: a TXT question without an OPT record. */
  function ProbePacket(txid: seq<byte>, testDomain: seq<byte>, random: seq<byte>): seq<byte>
    requires |txid| == 2
  {
    PacketBytes(txid, ProbeName(testDomain, random), 16, [])
  }

  lemma {:induction false} EncodingDotFree(data: seq<byte>)
    ensures DOT !in Encoding(data)
  {
  }

  /** The letters and label bytes of a probe, counted. */
  function ProbeCost(randLen: nat): nat {
    (8 * randLen + 4) / 5 + ((8 * randLen + 4) / 5 + 56) / 57
  }

  lemma ProbeNameSize(testDomain: seq<byte>, random: seq<byte>)
    requires random != []
    ensures |ProbeName(testDomain, random)| == ProbeCost(|random|) + |testDomain|
  {
    var encoded := Encoding(random);
    EncodingLength(random);
    PiecesShape(encoded, 57);
    PiecesCount(encoded);
    JoinLength(DOT, Pieces(encoded, 57));
  }

  /** A name whose labels are all proper takes exactly two bytes more on the wire. */
  lemma ProperNameSize(name: seq<byte>)
    requires ProperLabels(SplitDots(name))
    ensures |EncodeName(name)| == |name| + 2
  {
    SplitLength(DOT, name);
    CleanLength(SplitDots(name));
    LabelBytesLength(WireLabels(name));
  }

  lemma ProbeNameIsProper(testDomain: seq<byte>, random: seq<byte>)
    requires random != [] && ProperLabels(SplitDots(testDomain))
    ensures ProperLabels(SplitDots(ProbeName(testDomain, random)))
  {
    hide Encoding, Pieces, SplitOn, JoinWith, Concat, TotalLength;
    var encoded := Encoding(random);
    EncodingLength(random);
    EncodingDotFree(random);
    PiecesShape(encoded, 57);
    PiecesDotFree(encoded, 57);
    SplitJoined(DOT, Pieces(encoded, 57), testDomain);
  }

  /** The probe of a budget never exceeds it, down to 27 bytes more than the domain, whatever the domain. */
  lemma ProbeFits(txid: seq<byte>, testDomain: seq<byte>, querySize: int, random: seq<byte>)
    requires |txid| == 2 && querySize >= 50 && querySize >= |testDomain| + 27
    requires |random| == RandomLength(|testDomain|, querySize)
    ensures |ProbePacket(txid, testDomain, random)| <= querySize
  {
    hide EncodeName, ProbeName, ProbeCost, RandomLength;
    ProbeNameSize(testDomain, random);
    EncodedSize(ProbeName(testDomain, random));
    BudgetArithmetic(|testDomain|, querySize);
  }

  /** testTunnelRealism up to the send: the query, then the packet dnsQuery makes of it. */
  method TunnelRealismPacket(txid: seq<byte>, testDomain: seq<byte>, querySize: int, random: seq<byte>)
    returns (pkt: seq<byte>)
    requires |txid| == 2 && |random| >= 100
    ensures pkt == ProbePacket(txid, testDomain, random[..RandomLength(|testDomain|, querySize)])
    ensures querySize >= 50 && querySize >= |testDomain| + 27 ==> |pkt| <= querySize
  {
    hide RandomLength, ProbeName, EncodeName, Message.Wire, QueryMessage;
    var query := TunnelRealismQuery(testDomain, querySize, random);
    pkt := BuildQuery(txid, query, TYPE_TXT, None, []);
    QueryWire(txid, query, TYPE_TXT, []);
    if querySize >= 50 && querySize >= |testDomain| + 27 {
      ProbeFits(txid, testDomain, querySize, random[..RandomLength(|testDomain|, querySize)]);
    }
  }

  /** For a domain of proper labels that bound is exact. */
  lemma ProbeFitsExactly(txid: seq<byte>, testDomain: seq<byte>, querySize: int, random: seq<byte>)
    requires |txid| == 2 && querySize >= 50 && ProperLabels(SplitDots(testDomain))
    requires |random| == RandomLength(|testDomain|, querySize)
    ensures |ProbePacket(txid, testDomain, random)| <= querySize <==> querySize >= |testDomain| + 27
  {
    hide EncodeName, ProbeName, ProbeCost, RandomLength, ProperLabels, SplitDots;
    ProbeNameSize(testDomain, random);
    ProbeNameIsProper(testDomain, random);
    ProperNameSize(ProbeName(testDomain, random));
    BudgetArithmetic(|testDomain|, querySize);
  }

  lemma BudgetArithmetic(domainLength: nat, querySize: int)
    requires querySize >= 50
    ensures 18 + domainLength + ProbeCost(RandomLength(domainLength, querySize)) <= querySize
      <==> querySize >= domainLength + 27
  {
    var available := querySize - 18 - domainLength;
    if available < 10 {
      assert RandomLength(domainLength, querySize) == 5;
    }
  }

  /** And the budget is spent: short of the full 100 bytes, eight ninths of what is left, but for two bytes. */
  lemma BudgetIsSpent(txid: seq<byte>, testDomain: seq<byte>, querySize: int, random: seq<byte>)
    requires |txid| == 2 && querySize >= 50 && querySize >= |testDomain| + 28 && ProperLabels(SplitDots(testDomain))
    requires |random| == RandomLength(|testDomain|, querySize) < 100
    ensures 9 * (|ProbePacket(txid, testDomain, random)| - 18 - |testDomain|)
      >= 8 * (querySize - 18 - |testDomain|) - 18
  {
    hide EncodeName, ProbeName, ProbeCost, RandomLength, ProperLabels, SplitDots;
    ProbeNameSize(testDomain, random);
    ProbeNameIsProper(testDomain, random);
    ProperNameSize(ProbeName(testDomain, random));
    SpentArithmetic(|testDomain|, querySize);
  }

  lemma SpentArithmetic(domainLength: nat, querySize: int)
    requires querySize >= 50 && querySize >= domainLength + 28 && RandomLength(domainLength, querySize) < 100
    ensures 9 * ProbeCost(RandomLength(domainLength, querySize)) >= 8 * (querySize - 18 - domainLength) - 18
  {
  }

  /** Without a budget to keep to, the probe carries 100 bytes: 181 bytes and the domain. */
  lemma UnscaledProbeSize(txid: seq<byte>, testDomain: seq<byte>, querySize: int, random: seq<byte>)
    requires |txid| == 2 && (querySize < 50 || querySize >= |testDomain| + 198)
    requires ProperLabels(SplitDots(testDomain)) && |random| == RandomLength(|testDomain|, querySize)
    ensures |random| == 100 && |ProbePacket(txid, testDomain, random)| == |testDomain| + 181
  {
    hide EncodeName, ProbeName, ProperLabels, SplitDots;
    ProbeNameSize(testDomain, random);
    ProbeNameIsProper(testDomain, random);
    ProperNameSize(ProbeName(testDomain, random));
  }

  /** The probe asks for the random bytes, readable from its first labels, under the domain in the rest. */
  lemma ProbeNameReads(testDomain: seq<byte>, random: seq<byte>) returns (k: nat)
    requires random != []
    ensures k <= |SplitDots(ProbeName(testDomain, random))|
    ensures Decoding(Concat(SplitDots(ProbeName(testDomain, random))[..k])) == Some(random)
    ensures SplitDots(ProbeName(testDomain, random))[k..] == SplitDots(testDomain)
  {
    hide Encoding, Decoding, Pieces, SplitOn, JoinWith, Concat, TotalLength;
    var encoded := Encoding(random);
    var pieces := Pieces(encoded, 57);
    EncodingLength(random);
    EncodingDotFree(random);
    PiecesShape(encoded, 57);
    PiecesDotFree(encoded, 57);
    SplitJoined(DOT, pieces, testDomain);
    DecodingInverts(random);
    k := |pieces|;
    assert (pieces + SplitDots(testDomain))[..k] == pieces;
    assert (pieces + SplitDots(testDomain))[k..] == SplitDots(testDomain);
  }
}
