/**
 The bootstrap endpoint list: one wire format, parsed by SmsBootstrapReceiver.kt on Android and by
 AcousticReceiver.swift on iOS.
 */
module EndpointList {
  import opened Bytes

  const VERSION: byte := 1
  const MAX_COUNT: nat := 64
  const MAX_ADDRESS: nat := 128

  datatype Endpoint = Endpoint(kind: byte, address: seq<byte>, port: nat) {
    predicate Proper() {
      1 <= |address| <= MAX_ADDRESS && port < 65536
    }

    function Wire(): (s: seq<byte>)
      requires Proper()
      ensures |s| == |address| + 4
    {
      [kind, |address|] + address + U16Bytes(port)
    }
  }

  /**
   The two platforms' UTF-8 decoders: Kotlin's replaces what is malformed, Swift's refuses it. They
   agree on well-formed text.
   */
  datatype Utf8 = Utf8(lossy: seq<byte> -> string, strict: seq<byte> -> Option<string>)

  ghost predicate Agreeing(u: Utf8) {
    forall b :: u.strict(b).Some? ==> u.lossy(b) == u.strict(b).value
  }

  // ----- Wire form -----

  predicate ProperList(es: seq<Endpoint>) {
    forall i :: 0 <= i < |es| ==> es[i].Proper()
  }

  function EntriesWire(es: seq<Endpoint>): seq<byte>
    requires ProperList(es)
  {
    if es == [] then [] else es[0].Wire() + EntriesWire(es[1..])
  }

  function ListWire(es: seq<Endpoint>): seq<byte>
    requires ProperList(es)
  {
    [VERSION] + U16Bytes(|es|) + EntriesWire(es)
  }

  // ----- What both parsers read -----

  /** The entry at an offset lies wholly in the data and is of an allowed size. */
  predicate EntryFits(data: seq<byte>, offset: nat) {
    && offset + 4 <= |data|
    && 1 <= data[offset + 1] <= MAX_ADDRESS
    && offset + 2 + data[offset + 1] + 2 <= |data|
  }

  function EntryAt(data: seq<byte>, offset: nat): (e: Endpoint)
    requires EntryFits(data, offset)
    ensures e.Proper() && |e.address| == data[offset + 1]
  {
    var end := offset + 2 + data[offset + 1];
    Endpoint(data[offset], data[offset + 2..end], U16(data[end], data[end + 1]))
  }

  /** At most `n` entries from an offset; reading stops at the first that is cut off or out of bounds. */
  function Entries(data: seq<byte>, offset: nat, n: nat): (es: seq<Endpoint>)
    ensures ProperList(es) && |es| <= n
    decreases n
  {
    if n == 0 || !EntryFits(data, offset) then []
    else [EntryAt(data, offset)] + Entries(data, offset + 4 + data[offset + 1], n - 1)
  }

  /** The announced number of entries, if the header is acceptable. */
  function Header(data: seq<byte>): Option<nat> {
    if |data| < 3 || data[0] != VERSION || U16(data[1], data[2]) > MAX_COUNT then None
    else Some(U16(data[1], data[2]))
  }

  function Read(data: seq<byte>): seq<Endpoint> {
    if Header(data).None? then [] else Entries(data, 3, Header(data).value)
  }

  // ----- Text -----

  function TypeName(kind: byte): string {
    match kind
    case 1 => "wg"
    case 2 => "ygg"
    case 3 => "obfs4"
    case 4 => "snow"
    case 5 => "ss"
    case 6 => "bridge"
    case _ => "unknown"
  }

  function Decimal(n: nat): string {
    (if n < 10 then "" else Decimal(n / 10)) + [(n % 10 + 48) as char]
  }

  function Render(kind: byte, address: string, port: nat): string {
    TypeName(kind) + "://" + address + ":" + Decimal(port)
  }

  function RenderAll(u: Utf8, es: seq<Endpoint>): seq<string> {
    seq(|es|, i requires 0 <= i < |es| => Render(es[i].kind, u.lossy(es[i].address), es[i].port))
  }

  /** The entries before the first whose address is not well-formed text. */
  function WellFormed(u: Utf8, es: seq<Endpoint>): seq<Endpoint> {
    if es == [] || u.strict(es[0].address).None? then [] else [es[0]] + WellFormed(u, es[1..])
  }

  /** null or nil rather than an empty list. */
  function NonEmpty(list: seq<string>): Option<seq<string>> {
    if list == [] then None else Some(list)
  }

  // ----- The parsers -----

  lemma ReadByHeader(data: seq<byte>)
    ensures Header(data) == None || Header(data) == Some(0) ==> Read(data) == []
    ensures Header(data).Some? ==> Read(data) == Entries(data, 3, Header(data).value)
  {
  }

  lemma RenderNothing(u: Utf8)
    ensures RenderAll(u, []) == [] && WellFormed(u, []) == []
  {
  }

  lemma WellFormedStep(u: Utf8, rest: seq<Endpoint>)
    requires rest != []
    ensures WellFormed(u, rest) ==
      if u.strict(rest[0].address).None? then [] else [rest[0]] + WellFormed(u, rest[1..])
  {
  }

  lemma ShiftEntry(es: seq<Endpoint>, e: Endpoint, later: seq<Endpoint>)
    ensures es + ([e] + later) == (es + [e]) + later
  {
  }

  lemma EntriesStep(data: seq<byte>, offset: nat, n: nat)
    requires n > 0
    ensures !EntryFits(data, offset) ==> Entries(data, offset, n) == []
    ensures EntryFits(data, offset) ==>
      && Entries(data, offset, n) != []
      && Entries(data, offset, n)[1..] == Entries(data, offset + 4 + data[offset + 1], n - 1)
      && var end := offset + 2 + data[offset + 1];
         Entries(data, offset, n)[0] == Endpoint(data[offset], data[offset + 2..end], U16(data[end], data[end + 1]))
  {
  }

  method ParseKotlin(u: Utf8, data: seq<byte>) returns (result: Option<seq<string>>)
    ensures result == NonEmpty(RenderAll(u, Read(data)))
  {
    hide Render, U16, Entries, RenderAll, Read, EntryAt, WellFormed;
    ReadByHeader(data);
    RenderNothing(u);
    if |data| < 3 {
      return None;
    }
    var offset: nat := 0;
    var version := data[offset];
    offset := offset + 1;
    if version != VERSION {
      return None;
    }
    var endpointCount := U16(data[offset], data[offset + 1]);
    offset := offset + 2;
    if endpointCount > 64 {
      return None;
    }
    var endpoints: seq<string> := [];
    ghost var es: seq<Endpoint>, whole := [], Read(data);
    ghost var rest := whole;
    var i := 0;
    while i < endpointCount
      invariant i <= endpointCount && endpoints == RenderAll(u, es)
      invariant rest == Entries(data, offset, endpointCount - i)
      invariant whole == es + rest
    {
      EntriesStep(data, offset, endpointCount - i);
      if offset + 4 > |data| {
        break;
      }
      var kind := data[offset];
      offset := offset + 1;
      var addrLen := data[offset];
      offset := offset + 1;
      if addrLen == 0 || addrLen > 128 || offset + addrLen + 2 > |data| {
        break;
      }
      var bytes := data[offset..offset + addrLen];
      var address := u.lossy(bytes);
      offset := offset + addrLen;
      var port := U16(data[offset], data[offset + 1]);
      offset := offset + 2;
      ghost var e := Endpoint(kind, bytes, port);
      RenderAppend(u, es, e);
      ShiftEntry(es, e, rest[1..]);
      endpoints := endpoints + [Render(kind, address, port)];
      es, rest := es + [e], rest[1..];
      i := i + 1;
    }
    assert es + [] == es;
    return if endpoints != [] then Some(endpoints) else None;
  }

  method ParseSwift(u: Utf8, data: seq<byte>) returns (result: Option<seq<string>>)
    requires Agreeing(u)
    ensures result == NonEmpty(RenderAll(u, WellFormed(u, Read(data))))
  {
    hide Render, U16, Entries, RenderAll, Read, EntryAt, WellFormed;
    ReadByHeader(data);
    RenderNothing(u);
    if |data| < 3 {
      return None;
    }
    var offset: nat := 0;
    var version := data[offset];
    offset := offset + 1;
    if version != 0x01 {
      return None;
    }
    var endpointCount := U16(data[offset], data[offset + 1]);
    offset := offset + 2;
    if !(endpointCount > 0 && endpointCount <= 64) {
      return None;
    }
    var endpoints: seq<string> := [];
    ghost var es: seq<Endpoint>, whole := [], Read(data);
    ghost var rest := whole;
    var i := 0;
    while i < endpointCount
      invariant i <= endpointCount && endpoints == RenderAll(u, es)
      invariant rest == Entries(data, offset, endpointCount - i)
      invariant WellFormed(u, whole) == es + WellFormed(u, rest)
    {
      EntriesStep(data, offset, endpointCount - i);
      if !(offset + 4 <= |data|) {
        break;
      }
      var kind := data[offset];
      offset := offset + 1;
      var addrLen := data[offset];
      offset := offset + 1;
      if !(addrLen > 0 && addrLen <= 128 && offset + addrLen + 2 <= |data|) {
        break;
      }
      var bytes := data[offset..offset + addrLen];
      WellFormedStep(u, rest);
      var address := u.strict(bytes);
      if address == None {
        break;
      }
      offset := offset + addrLen;
      var port := U16(data[offset], data[offset + 1]);
      offset := offset + 2;
      ghost var e := Endpoint(kind, bytes, port);
      RenderAppend(u, es, e);
      ShiftEntry(es, e, WellFormed(u, rest[1..]));
      endpoints := endpoints + [Render(kind, address.value, port)];
      es, rest := es + [e], rest[1..];
      i := i + 1;
    }
    assert es + [] == es;
    return if endpoints == [] then None else Some(endpoints);
  }

  lemma RenderAppend(u: Utf8, es: seq<Endpoint>, e: Endpoint)
    ensures RenderAll(u, es + [e]) == RenderAll(u, es) + [Render(e.kind, u.lossy(e.address), e.port)]
  {
    hide Render;
  }

  // ----- Laws -----

  lemma ReadsEntry(data: seq<byte>, offset: nat, e: Endpoint)
    requires e.Proper() && HoldsAt(data, offset, e.Wire())
    ensures EntryFits(data, offset) && EntryAt(data, offset) == e
  {
    hide HoldsAt;
    var front, port := [e.kind, |e.address|], U16Bytes(e.port);
    HoldsBoth(data, offset, front + e.address, port);
    HoldsBoth(data, offset, front, e.address);
    HoldsByte(data, offset, front, 0);
    HoldsByte(data, offset, front, 1);
    HoldsSlice(data, offset + 2, e.address);
    HoldsByte(data, offset + 2 + |e.address|, port, 0);
    HoldsByte(data, offset + 2 + |e.address|, port, 1);
  }

  /** The entries that lie wholly in the first `room` bytes of a list. */
  function Whole(es: seq<Endpoint>, room: nat): (k: nat)
    requires ProperList(es)
    ensures k <= |es|
  {
    if es == [] || |es[0].Wire()| > room then 0 else 1 + Whole(es[1..], room - |es[0].Wire()|)
  }

  lemma {:induction false} ReadsWhole(data: seq<byte>, offset: nat, es: seq<Endpoint>)
    requires ProperList(es) && offset <= |data|
    requires data[offset..] <= EntriesWire(es)
    ensures Entries(data, offset, |es|) == es[..Whole(es, |data| - offset)]
    decreases es
  {
    hide HoldsAt, Endpoint.Wire, EntryFits, EntryAt;
    if es != [] {
      var e, room, later := es[0], |data| - offset, EntriesWire(es[1..]);
      var wire := e.Wire();
      assert EntriesWire(es) == wire + later;
      if room >= |wire| {
        HeldEntry(data, offset, wire, later);
        ReadsEntry(data, offset, e);
        ReadsWhole(data, offset + |wire|, es[1..]);
        assert es[..1 + Whole(es[1..], room - |wire|)] == [e] + es[1..][..Whole(es[1..], room - |wire|)];
      } else {
        CutEntry(data, offset, e, later);
      }
    }
  }

  lemma HeldEntry(data: seq<byte>, offset: nat, wire: seq<byte>, later: seq<byte>)
    requires offset + |wire| <= |data| && data[offset..] <= wire + later
    ensures HoldsAt(data, offset, wire) && data[offset + |wire|..] <= later
  {
    SliceOfSlice(data, offset, |wire|);
    assert data[offset..][..|wire|] == (wire + later)[..|wire|];
    assert data[offset..][|wire|..] <= (wire + later)[|wire|..];
  }

  lemma CutEntry(data: seq<byte>, offset: nat, e: Endpoint, behind: seq<byte>)
    requires e.Proper() && offset <= |data| && |data| - offset < |e.Wire()|
    requires data[offset..] <= e.Wire() + behind
    ensures !EntryFits(data, offset)
  {
    if offset + 4 <= |data| {
      assert data[offset + 1] == data[offset..][1] == |e.address|;
    }
  }

  /** Cut off after any `k` bytes, a list reads as the entries that are still whole. */
  lemma TruncatedListReads(es: seq<Endpoint>, k: nat)
    requires ProperList(es) && |es| <= MAX_COUNT && k <= |ListWire(es)|
    ensures Read(ListWire(es)[..k]) == if k < 3 then [] else es[..Whole(es, k - 3)]
  {
    hide Entries, Endpoint.Wire, Whole, EntriesWire;
    var header, data := [VERSION] + U16Bytes(|es|), ListWire(es)[..k];
    if k >= 3 {
      assert forall i :: 0 <= i < 3 ==> data[i] == header[i];
      BehindHeader(data, header, EntriesWire(es));
      ReadsWhole(data, 3, es);
    }
  }

  lemma BehindHeader(data: seq<byte>, header: seq<byte>, behind: seq<byte>)
    requires |data| >= |header| && data <= header + behind
    ensures data[|header|..] <= behind
  {
  }

  lemma {:induction false} AllWhole(es: seq<Endpoint>)
    requires ProperList(es)
    ensures Whole(es, |EntriesWire(es)|) == |es|
  {
    hide Endpoint.Wire;
    if es != [] {
      AllWhole(es[1..]);
    }
  }

  lemma {:induction false} AllWellFormed(u: Utf8, es: seq<Endpoint>)
    requires forall i :: 0 <= i < |es| ==> u.strict(es[i].address).Some?
    ensures WellFormed(u, es) == es
  {
    if es != [] {
      AllWellFormed(u, es[1..]);
    }
  }

  /** A whole list of up to 64 endpoints is recovered, on Android always, on iOS if its addresses are text. */
  lemma ListRoundTrip(u: Utf8, es: seq<Endpoint>)
    requires ProperList(es) && |es| <= MAX_COUNT
    ensures Read(ListWire(es)) == es
    ensures (forall i :: 0 <= i < |es| ==> u.strict(es[i].address).Some?) ==> WellFormed(u, Read(ListWire(es))) == es
  {
    TruncatedListReads(es, |ListWire(es)|);
    assert ListWire(es)[..|ListWire(es)|] == ListWire(es);
    AllWhole(es);
    assert es[..|es|] == es;
    if forall i :: 0 <= i < |es| ==> u.strict(es[i].address).Some? {
      AllWellFormed(u, es);
    }
  }

  lemma {:induction false} WellFormedLength(u: Utf8, es: seq<Endpoint>)
    ensures |WellFormed(u, es)| <= |es|
    ensures |WellFormed(u, es)| == |es| <==> forall i :: 0 <= i < |es| ==> u.strict(es[i].address).Some?
  {
    if es != [] {
      WellFormedLength(u, es[1..]);
      assert forall i :: 0 < i < |es| ==> es[i] == es[1..][i - 1];
    }
  }

  /** On any payload at all, the two apps come up with the same list iff every address read is text. */
  lemma ParsersAgreeIff(u: Utf8, data: seq<byte>)
    ensures NonEmpty(RenderAll(u, WellFormed(u, Read(data)))) == NonEmpty(RenderAll(u, Read(data)))
      <==> forall i :: 0 <= i < |Read(data)| ==> u.strict(Read(data)[i].address).Some?
  {
    hide Read, Render;
    var es := Read(data);
    WellFormedLength(u, es);
    if forall i :: 0 <= i < |es| ==> u.strict(es[i].address).Some? {
      AllWellFormed(u, es);
    } else {
      assert |RenderAll(u, WellFormed(u, es))| < |RenderAll(u, es)|;
    }
  }

  // ----- Payloads that are not the wire form of a list -----

  /** Entries that are there are read, and reading goes on behind them. */
  lemma {:induction false} ReadsOn(data: seq<byte>, offset: nat, es: seq<Endpoint>, n: nat)
    requires ProperList(es) && HoldsAt(data, offset, EntriesWire(es)) && |es| <= n
    ensures Entries(data, offset, n) == es + Entries(data, offset + |EntriesWire(es)|, n - |es|)
    decreases es
  {
    hide HoldsAt, Endpoint.Wire, EntryFits, EntryAt, Entries;
    if es == [] {
      assert es + Entries(data, offset, n) == Entries(data, offset, n);
    } else {
      HoldsBoth(data, offset, es[0].Wire(), EntriesWire(es[1..]));
      ReadsEntry(data, offset, es[0]);
      EntryLength(data, offset, es[0]);
      EntriesTurn(data, offset, n);
      ReadsOn(data, offset + |es[0].Wire()|, es[1..], n - 1);
      assert [es[0]] + (es[1..] + Entries(data, offset + |EntriesWire(es)|, n - |es|))
        == es + Entries(data, offset + |EntriesWire(es)|, n - |es|);
    }
  }

  lemma EntryLength(data: seq<byte>, offset: nat, e: Endpoint)
    requires EntryFits(data, offset) && EntryAt(data, offset) == e
    ensures e.Proper() && offset + 4 + data[offset + 1] == offset + |e.Wire()|
  {
  }

  lemma EntriesTurn(data: seq<byte>, offset: nat, n: nat)
    requires n > 0 && EntryFits(data, offset)
    ensures Entries(data, offset, n)
      == [EntryAt(data, offset)] + Entries(data, offset + 4 + data[offset + 1], n - 1)
  {
  }

  /**
   A payload with its header reads as the entries announced, whatever stands behind them; if fewer
   are there, as those before the first that announces no address or one above 128 bytes.
   */
  lemma PayloadReads(es: seq<Endpoint>, announced: nat, behind: seq<byte>)
    requires ProperList(es) && |es| <= announced <= 64
    requires announced > |es| ==> |behind| >= 2 && !(1 <= behind[1] <= 128)
    ensures Read([1] + U16Bytes(announced) + EntriesWire(es) + behind) == es
  {
    hide HoldsAt, Entries, EntriesWire, U16Bytes, Read, Header;
    var wire := EntriesWire(es);
    var data := [1] + U16Bytes(announced) + wire + behind;
    assert data == [1] + U16Bytes(announced) + (wire + behind);
    Announced(data, announced, wire + behind);
    Held(data, wire, behind);
    ReadsOn(data, 3, es, announced);
    var end := 3 + |wire|;
    assert Entries(data, end, announced - |es|) == [] by {
      if announced > |es| {
        assert data[end + 1] == data[end..][1];
        EntriesStep(data, end, announced - |es|);
      } else {
        NoneAnnounced(data, end);
      }
    }
    assert es + [] == es;
  }

  lemma Announced(data: seq<byte>, announced: nat, rest: seq<byte>)
    requires announced <= 64 && data == [1] + U16Bytes(announced) + rest
    ensures data[3..] == rest && Read(data) == Entries(data, 3, announced)
  {
    hide Entries;
    assert data[1] == U16Bytes(announced)[0] && data[2] == U16Bytes(announced)[1];
  }

  lemma Held(data: seq<byte>, wire: seq<byte>, behind: seq<byte>)
    requires |data| >= 3 && data[3..] == wire + behind
    ensures 3 + |wire| <= |data| && HoldsAt(data, 3, wire) && data[3 + |wire|..] == behind
  {
    SliceOfSlice(data, 3, |wire|);
    assert data[3..][..|wire|] == wire && data[3..][|wire|..] == behind;
  }

  lemma NoneAnnounced(data: seq<byte>, offset: nat)
    ensures Entries(data, offset, 0) == []
  {
  }

  /** Any other version, a count above 64, or too short a header, and nothing is read. */
  lemma BadHeaderReadsNothing(data: seq<byte>)
    requires |data| < 3 || data[0] != 1 || U16(data[1], data[2]) > 64
    ensures Read(data) == []
  {
  }

  // ----- The text of an endpoint -----

  /** The number that decimal digits stand for. */
  function Number(s: string): int {
    if s == "" then 0 else 10 * Number(s[..|s| - 1]) + (s[|s| - 1] as int - 48)
  }

  lemma {:induction false} DecimalReads(n: nat)
    ensures Decimal(n) != "" && Number(Decimal(n)) == n
    ensures forall i :: 0 <= i < |Decimal(n)| ==> '0' <= Decimal(n)[i] <= '9'
    ensures n > 0 ==> Decimal(n)[0] != '0'
    ensures n == 0 ==> |Decimal(n)| == 1
  {
    hide Number;
    if n >= 10 {
      DecimalReads(n / 10);
      OneMoreDigit(Decimal(n / 10), n % 10);
    } else {
      assert Decimal(n) == "" + [(n + 48) as char];
      OneMoreDigit("", n);
    }
  }

  lemma OneMoreDigit(s: string, d: nat)
    requires d < 10
    ensures Number(s + [(d + 48) as char]) == 10 * Number(s) + d && Number("") == 0
  {
    assert (s + [(d + 48) as char])[..|s|] == s;
  }

  lemma TypeNames()
    ensures TypeName(1) == "wg" && TypeName(2) == "ygg" && TypeName(3) == "obfs4" && TypeName(4) == "snow"
    ensures TypeName(5) == "ss" && TypeName(6) == "bridge"
    ensures forall kind :: !(1 <= kind <= 6) ==> TypeName(kind) == "unknown"
  {
  }

  /** Type, address and port stand in the text in that order, the port in decimal digits. */
  lemma RenderShape(kind: byte, address: string, port: nat)
    ensures var text, digits := Render(kind, address, port), Decimal(port);
      && |digits| <= |text| && text[|text| - |digits|..] == digits && Number(digits) == port
      && text[..|text| - |digits|] == TypeName(kind) + "://" + address + ":"
  {
    DecimalReads(port);
  }

  lemma LastColon(x: string, d: string, y: string, e: string)
    requires ':' !in d && ':' !in e && x + ":" + d == y + ":" + e
    ensures x == y && d == e
  {
    var s, t := x + ":" + d, y + ":" + e;
    assert s[|x|] == ':' && t[|y|] == ':';
    assert |x| == |y|;
    assert s[..|x|] == x && t[..|y|] == y && s[|x| + 1..] == d && t[|y| + 1..] == e;
  }

  lemma FirstColon(x: string, a: string, y: string, b: string)
    requires ':' !in x && ':' !in y && x + "://" + a == y + "://" + b
    ensures x == y && a == b
  {
    var s, t := x + "://" + a, y + "://" + b;
    assert s[|x|] == ':' && t[|y|] == ':';
    assert |x| == |y|;
    assert s[..|x|] == x && t[..|y|] == y && s[|x| + 3..] == a && t[|y| + 3..] == b;
  }

  /** No two endpoints of known types have the same text, whatever their addresses contain. */
  lemma RenderIsInjective(k1: byte, a1: string, p1: nat, k2: byte, a2: string, p2: nat)
    requires 1 <= k1 <= 6 && 1 <= k2 <= 6 && Render(k1, a1, p1) == Render(k2, a2, p2)
    ensures k1 == k2 && a1 == a2 && p1 == p2
  {
    hide Decimal, Number;
    DecimalReads(p1);
    DecimalReads(p2);
    LastColon(TypeName(k1) + "://" + a1, Decimal(p1), TypeName(k2) + "://" + a2, Decimal(p2));
    FirstColon(TypeName(k1), a1, TypeName(k2), a2);
    NamesDiffer(k1, k2);
  }

  lemma NamesDiffer(k1: byte, k2: byte)
    requires 1 <= k1 <= 6 && 1 <= k2 <= 6 && TypeName(k1) == TypeName(k2)
    ensures k1 == k2
  {
    assert TypeName(1)[0] == 'w' && TypeName(2)[0] == 'y' && TypeName(3)[0] == 'o';
    assert TypeName(4)[1] == 'n' && TypeName(5)[1] == 's' && TypeName(6)[0] == 'b';
  }
}
