/**
 SOCKS5 CONNECT requests (section 4 of RFC 1928): the one-read parser of vless.go, the streaming parser
 of ssh_native.go, and the VLESS header that carries a destination on.
 */
module SocksVless {
  import opened Bytes
  import opened ByteStream
  import opened Split

  /** What a request asks for. */
  datatype Dest = V4(address: seq<byte>) | V6(address: seq<byte>) | Name(text: seq<byte>) {
    predicate Proper() {
      match this
      case V4(a) => |a| == 4
      case V6(a) => |a| == 16
      case Name(t) => |t| < 256
    }

    function Wire(): seq<byte>
      requires Proper()
    {
      match this
      case V4(a) => [1] + a
      case V6(a) => [4] + a
      case Name(t) => [3, |t|] + t
    }
  }

  function Request(d: Dest, port: nat): seq<byte>
    requires d.Proper()
  {
    [5, 1, 0] + (d.Wire() + U16Bytes(port))
  }

  // ----- Addresses as text -----

  const MAPPED_PREFIX: seq<byte> := [0, 0, 0, 0, 0, 0, 0, 0, 0, 0, 255, 255]

  predicate IsMapped(a: seq<byte>) {
    |a| == 16 && a[..12] == MAPPED_PREFIX
  }

  function Digits(n: nat): seq<byte> {
    (if n < 10 then [] else Digits(n / 10)) + [n % 10 + 48]
  }

  /** Four numbers and three dots. */
  function Dotted(a: seq<byte>): seq<byte>
    requires |a| == 4
  {
    Digits(a[0]) + [46] + Digits(a[1]) + [46] + Digits(a[2]) + [46] + Digits(a[3])
  }

  /** Go's net package: text of an IPv6 address that is not a mapped IPv4 one, and ParseIP, 16 bytes or nil. */
  datatype Net = Net(print6: seq<byte> -> seq<byte>, parse: seq<byte> -> Option<seq<byte>>)

  /** ParseIP undoes printing, and gives 16 bytes. */
  ghost predicate Sane(net: Net) {
    && (forall a {:trigger Dotted(a)} :: |a| == 4 ==> net.parse(Dotted(a)) == Some(MAPPED_PREFIX + a))
    && (forall a {:trigger net.print6(a)} :: |a| == 16 && !IsMapped(a) ==> net.parse(net.print6(a)) == Some(a))
    && (forall t {:trigger net.parse(t)} :: net.parse(t).Some? ==> |net.parse(t).value| == 16)
  }

  /** net.IP(a).String(): a mapped address prints as IPv4. */
  function AddressText(net: Net, a: seq<byte>): seq<byte>
    requires |a| == 4 || |a| == 16
  {
    if |a| == 4 then Dotted(a) else if IsMapped(a) then Dotted(a[12..]) else net.print6(a)
  }

  function HostText(net: Net, d: Dest): seq<byte>
    requires d.Proper()
  {
    match d
    case V4(a) => AddressText(net, a)
    case V6(a) => AddressText(net, a)
    case Name(t) => t
  }

  // ----- The two request parsers -----

  datatype Outcome = Host(text: seq<byte>, port: nat) | Refused(code: byte) | Dropped

  /** handleVlessSocks5: all there is comes from one Read into a 258-byte buffer. */
  method ParseOneRead(net: Net, arrived: seq<byte>) returns (r: Outcome)
    ensures r == OneRead(net, arrived)
  {
    hide U16, AddressText, Dotted;
    var n := if |arrived| < 258 then |arrived| else 258;
    var buf := arrived[..n];
    if n < 7 || buf[0] != 5 || buf[1] != 1 {
      return Refused(7);
    }
    var atyp := buf[3];
    ghost var s := buf[3..];
    var destHost: seq<byte>;
    var addrEnd: nat;
    if atyp == 1 {
      if n < 10 {
        return Dropped;
      }
      destHost := Dotted(buf[4..8]);
      addrEnd := 8;
      DottedText(net, buf[4..8]);
      assert s[1..5] == buf[4..8];
    } else if atyp == 3 {
      var domainLen: nat := buf[4];
      if n < 5 + domainLen + 2 {
        return Dropped;
      }
      destHost := buf[5..5 + domainLen];
      addrEnd := 5 + domainLen;
      assert s[2..2 + domainLen] == destHost;
    } else if atyp == 4 {
      if n < 22 {
        return Dropped;
      }
      destHost := AddressText(net, buf[4..20]);
      addrEnd := 20;
      assert s[1..17] == buf[4..20];
    } else {
      return Dropped;
    }
    assert s[addrEnd - 3] == buf[addrEnd] && s[addrEnd - 2] == buf[addrEnd + 1];
    return Host(destHost, U16(buf[addrEnd], buf[addrEnd + 1]));
  }

  lemma DottedText(net: Net, a: seq<byte>)
    requires |a| == 4
    ensures AddressText(net, a) == Dotted(a)
  {
  }

  /** The length of the destination at the front of `s`, type byte included, if its type is known. */
  function DestLength(s: seq<byte>): Option<nat>
    requires |s| >= 2
  {
    match s[0]
    case 1 => Some(5)
    case 3 => var n: nat := s[1]; Some(2 + n)
    case 4 => Some(17)
    case _ => None
  }

  function TextAt(net: Net, s: seq<byte>): seq<byte>
    requires |s| >= 2 && DestLength(s).Some? && |s| >= DestLength(s).value
  {
    if s[0] == 3 then s[2..DestLength(s).value] else AddressText(net, s[1..DestLength(s).value])
  }

  function OneRead(net: Net, arrived: seq<byte>): Outcome {
    var buf := arrived[..if |arrived| < 258 then |arrived| else 258];
    if |buf| < 7 || buf[0] != 5 || buf[1] != 1 then Refused(7)
    else
      var s := buf[3..];
      var length := DestLength(s);
      if length == None || |s| < length.value + 2 then Dropped
      else Host(TextAt(net, s), U16(s[length.value], s[length.value + 1]))
  }

  /** The address part of handleSOCKS5's request phase; None when the stream ends in it. */
  method ReadTarget(net: Net, conn: ByteReader, atyp: byte) returns (target: Option<seq<byte>>)
    requires atyp in {1, 3, 4}
    modifies conn
    ensures var s := [atyp] + old(conn.data);
      if |s| >= 2 && |s| >= DestLength(s).value
      then target == Some(TextAt(net, s)) && conn.data == s[DestLength(s).value..]
      else target == None
  {
    hide AddressText;
    ghost var s := [atyp] + conn.data;
    assert s[1..] == conn.data;
    if atyp == 1 {
      var addr, e := conn.ReadFull(4);
      if e.Some? { return None; }
      SliceOfSlice(s, 1, 4);
      assert addr == s[1..5] && conn.data == s[5..];
      return Some(AddressText(net, addr));
    } else if atyp == 3 {
      var lenBuf, e := conn.ReadFull(1);
      if e.Some? { return None; }
      var length: nat := lenBuf[0];
      var domain;
      assert s[2..] == conn.data;
      domain, e := conn.ReadFull(length);
      if e.Some? { return None; }
      SliceOfSlice(s, 2, length);
      assert domain == s[2..2 + length] && conn.data == s[2 + length..];
      return Some(domain);
    } else {
      var addr, e := conn.ReadFull(16);
      if e.Some? { return None; }
      SliceOfSlice(s, 1, 16);
      assert addr == s[1..17] && conn.data == s[17..];
      return Some(AddressText(net, addr));
    }
  }

  /** handleSOCKS5's request phase, on a stream however segmented. The version byte is not looked at. */
  method ParseStream(net: Net, conn: ByteReader) returns (r: Outcome)
    modifies conn
    ensures r == Streamed(net, old(conn.data)).0
    ensures r.Host? ==> conn.data == Streamed(net, old(conn.data)).1
  {
    hide U16, TextAt, DestLength;
    ghost var data := conn.data;
    var reqHdr, err := conn.ReadFull(4);
    if err.Some? { return Dropped; }
    if reqHdr[1] != 1 { return Refused(7); }
    if reqHdr[3] !in {1, 3, 4} { return Refused(8); }
    assert data[3..] == [reqHdr[3]] + conn.data;
    KnownLength(data[3..]);
    var target := ReadTarget(net, conn, reqHdr[3]);
    if target == None { return Dropped; }
    var portBuf, e := conn.ReadFull(2);
    if e.Some? { return Dropped; }
    return Host(target.value, U16(portBuf[0], portBuf[1]));
  }

  lemma KnownLength(s: seq<byte>)
    requires s != [] && s[0] in {1, 3, 4}
    ensures |s| >= 2 ==> DestLength(s).Some? && DestLength(s).value >= 2
  {
  }

  function Streamed(net: Net, data: seq<byte>): (Outcome, seq<byte>) {
    if |data| < 4 then (Dropped, [])
    else if data[1] != 1 then (Refused(7), [])
    else if data[3] !in {1, 3, 4} then (Refused(8), [])
    else
      var s := data[3..];
      if |s| < 2 || |s| < DestLength(s).value + 2 then (Dropped, [])
      else
        var length := DestLength(s).value;
        (Host(TextAt(net, s), U16(s[length], s[length + 1])), s[length + 2..])
  }

  // ----- VLESS header -----

  method BuildVlessHeader(net: Net, uuid: seq<byte>, host: seq<byte>, port: nat) returns (buf: seq<byte>)
    ensures buf == VlessHeader(net, uuid, host, port)
  {
    hide IsMapped, Low4;
    buf := [];
    buf := buf + [0];
    buf := buf + uuid;
    buf := buf + [0];
    buf := buf + [1];
    buf := buf + [Low8(port / 256), Low8(port)];
    ghost var front := buf;
    assert front == [0] + uuid + [0, 1] + U16Bytes(port);
    var ip := net.parse(host);
    if ip.Some? && IsMapped(ip.value) {
      buf := buf + [1];
      buf := buf + Low4(ip.value);
    } else if ip.Some? {
      buf := buf + [3];
      buf := buf + ip.value;
    } else {
      buf := buf + [2];
      buf := buf + [Low8(|host|)];
      buf := buf + host;
    }
    assert buf == front + VlessAddress(net, host);
  }

  /** The IPv4 address inside a mapped one. */
  function Low4(a: seq<byte>): seq<byte>
    requires IsMapped(a)
  {
    a[12..]
  }

  function VlessAddress(net: Net, host: seq<byte>): seq<byte> {
    match net.parse(host)
    case Some(a) => if IsMapped(a) then [1] + Low4(a) else [3] + a
    case None => [2, Low8(|host|)] + host
  }

  function VlessHeader(net: Net, uuid: seq<byte>, host: seq<byte>, port: nat): seq<byte> {
    [0] + uuid + [0, 1] + U16Bytes(port) + VlessAddress(net, host)
  }

  datatype Vless = Vless(uuid: seq<byte>, port: nat, dest: Dest)

  /** A VLESS server's reading of a request header without addons. */
  function ReadVless(h: seq<byte>): Option<Vless> {
    if |h| < 23 || h[0] != 0 || h[17] != 0 || h[18] != 1 then None
    else
      var uuid, port, a := h[1..17], U16(h[19], h[20]), h[22..];
      if h[21] == 1 && |a| == 4 then Some(Vless(uuid, port, V4(a)))
      else if h[21] == 3 && |a| == 16 then Some(Vless(uuid, port, V6(a)))
      else if h[21] == 2 && |a[1..]| == a[0] then Some(Vless(uuid, port, Name(a[1..])))
      else None
  }

  // ----- Laws -----

  lemma DestReads(net: Net, d: Dest, behind: seq<byte>)
    requires d.Proper() && |behind| >= 2
    ensures var s := d.Wire() + behind;
      && s[0] in {1, 3, 4} && DestLength(s) == Some(|d.Wire()|) && s[|d.Wire()|..] == behind
      && TextAt(net, s) == HostText(net, d)
  {
    hide AddressText;
    var s := d.Wire() + behind;
    match d
    case V4(a) => assert s[1..5] == a;
    case V6(a) => assert s[1..17] == a;
    case Name(t) => assert s[2..2 + |t|] == t;
  }

  /** The streaming parser, on a well-formed request and whatever follows it. */
  lemma StreamReadsRequest(net: Net, d: Dest, port: nat, behind: seq<byte>)
    requires d.Proper() && port < 65536
    ensures Streamed(net, Request(d, port) + behind) == (Host(HostText(net, d), port), behind)
  {
    hide TextAt, HostText, DestLength, Dest.Wire;
    var tail := U16Bytes(port) + behind;
    DestReads(net, d, tail);
    var data := Request(d, port) + behind;
    assert data == [5, 1, 0] + (d.Wire() + tail);
    assert data[3..] == d.Wire() + tail;
    var s := data[3..];
    var n := |d.Wire()|;
    assert s[n] == s[n..][0] && s[n + 1] == s[n..][1] && s[n + 2..] == s[n..][2..];
  }

  /** What one Read has to bring: the whole request, and no more than its buffer. */
  lemma OneReadIffWhole(net: Net, d: Dest, port: nat, k: nat)
    requires d.Proper() && port < 65536 && k <= |Request(d, port)|
    ensures OneRead(net, Request(d, port)[..k]) == Host(HostText(net, d), port)
      <==> k == |Request(d, port)| && k <= 258
    ensures OneRead(net, Request(d, port)[..k]).Host? ==> k == |Request(d, port)| && k <= 258
  {
    hide TextAt, HostText, DestLength, Dest.Wire, U16, U16Bytes;
    var arrived := Request(d, port)[..k];
    var buf := arrived[..if |arrived| < 258 then |arrived| else 258];
    var n := |d.Wire()|;
    RequestSize(d, port);
    assert buf == Request(d, port)[..|buf|];
    if |buf| >= 7 {
      assert buf[0] == 5 && buf[1] == 1;
      var s, tail := buf[3..], U16Bytes(port);
      assert s == (d.Wire() + tail)[..|s|];
      LengthOfPart(d, tail, |s|);
      if |s| == n + 2 {
        DestReads(net, d, tail);
        assert s == d.Wire() + tail;
        assert s[n] == tail[0] && s[n + 1] == tail[1];
      }
    }
  }

  lemma RequestSize(d: Dest, port: nat)
    requires d.Proper()
    ensures |Request(d, port)| == |d.Wire()| + 5 >= 7
  {
  }

  lemma LengthOfPart(d: Dest, behind: seq<byte>, k: nat)
    requires d.Proper() && 2 <= k <= |d.Wire() + behind|
    ensures DestLength((d.Wire() + behind)[..k]) == Some(|d.Wire()|)
  {
  }

  /** The two parsers agree on a request exactly when its domain, if it has one, is at most 251 bytes. */
  lemma ParsersAgreeIff(net: Net, d: Dest, port: nat)
    requires d.Proper() && port < 65536
    ensures OneRead(net, Request(d, port)) == Streamed(net, Request(d, port)).0
      <==> (d.Name? ==> |d.text| <= 251)
  {
    var r := Request(d, port);
    assert r[..|r|] == r && r + [] == r;
    StreamReadsRequest(net, d, port, []);
    OneReadIffWhole(net, d, port, |r|);
  }

  /** The destinations that keep their form: not a mapped IPv4 address, not a domain that reads as an address. */
  predicate Keeps(net: Net, d: Dest) {
    match d
    case V4(_) => true
    case V6(a) => !IsMapped(a)
    case Name(t) => net.parse(t) == None
  }

  /**
   A destination travels from the SOCKS5 request through its text into the VLESS header, where the
   same UUID and port come out, and the same destination exactly when it keeps its form.
   */
  lemma DestinationArrives(net: Net, d: Dest, port: nat, uuid: seq<byte>)
    requires Sane(net) && d.Proper() && port < 65536 && |uuid| == 16
    ensures var v := ReadVless(VlessHeader(net, uuid, HostText(net, d), port));
      v.Some? && v.value.uuid == uuid && v.value.port == port && (v.value.dest == d <==> Keeps(net, d))
  {
    hide Dotted, HostText, VlessHeader;
    var text := HostText(net, d);
    TextParses(net, d);
    assert d.Name? ==> text == d.text by {
      NameText(net, d);
    }
    var address := VlessAddress(net, text);
    HeaderReads(net, uuid, text, port);
    match net.parse(text)
    case Some(a) =>
      if IsMapped(a) {
        assert address[1..] == Low4(a);
      } else {
        assert address[1..] == a;
      }
    case None =>
      assert address[1..] == [|text|] + text && address[1..][1..] == text;
  }

  lemma NameText(net: Net, d: Dest)
    requires d.Proper()
    ensures d.Name? ==> HostText(net, d) == d.text
  {
  }

  lemma TextParses(net: Net, d: Dest)
    requires Sane(net) && d.Proper()
    ensures d.V4? ==> net.parse(HostText(net, d)) == Some(MAPPED_PREFIX + d.address)
    ensures d.V6? ==> net.parse(HostText(net, d)) == Some(d.address)
    ensures d.V4? ==> IsMapped(MAPPED_PREFIX + d.address) && (MAPPED_PREFIX + d.address)[12..] == d.address
  {
    hide Dotted;
    if d.V6? && IsMapped(d.address) {
      assert d.address == MAPPED_PREFIX + d.address[12..];
    }
  }

  lemma HeaderReads(net: Net, uuid: seq<byte>, host: seq<byte>, port: nat)
    requires Sane(net) && |uuid| == 16 && port < 65536
    ensures var h := VlessHeader(net, uuid, host, port);
      && |h| >= 23 && h[0] == 0 && h[1..17] == uuid && h[17] == 0 && h[18] == 1 && U16(h[19], h[20]) == port
      && h[21] == VlessAddress(net, host)[0] && h[22..] == VlessAddress(net, host)[1..]
  {
    hide VlessAddress, IsMapped;
    AddressSize(net, host);
    var front, address := [0] + uuid + [0, 1] + U16Bytes(port), VlessAddress(net, host);
    var h := VlessHeader(net, uuid, host, port);
    assert h == front + address && |front| == 21;
    assert h[22..] == address[1..];
    assert h[1..17] == uuid;
  }

  lemma AddressSize(net: Net, host: seq<byte>)
    requires Sane(net)
    ensures |VlessAddress(net, host)| >= 2
  {
  }

  // ----- Dotted text -----

  predicate AllDigits(s: seq<byte>) {
    s != [] && forall i :: 0 <= i < |s| ==> 48 <= s[i] <= 57
  }

  /** The number that decimal digits stand for. */
  function Number(s: seq<byte>): int {
    if s == [] then 0 else 10 * Number(s[..|s| - 1]) + s[|s| - 1] as int - 48
  }

  lemma {:induction false} DigitsRead(n: nat)
    ensures AllDigits(Digits(n)) && Number(Digits(n)) == n
    ensures n > 0 ==> Digits(n)[0] != 48
    ensures n == 0 ==> |Digits(n)| == 1
  {
    hide Number, AllDigits;
    if n >= 10 {
      DigitsRead(n / 10);
      OneMoreDigit(Digits(n / 10), n % 10);
    } else {
      assert Digits(n) == [] + [n + 48];
      OneMoreDigit([], n);
    }
  }

  lemma OneMoreDigit(s: seq<byte>, d: nat)
    requires d < 10
    ensures Number(s + [d + 48]) == 10 * Number(s) + d && Number([]) == 0
    ensures s == [] || AllDigits(s) ==> AllDigits(s + [d + 48])
    ensures AllDigits(s) ==> s != []
  {
    assert (s + [d + 48])[..|s|] == s;
  }

  /** The four numbers of a dotted address, if it has four and each is a byte in its shortest form. */
  function ReadDotted(s: seq<byte>): Option<seq<byte>> {
    var parts := SplitOn(46, s);
    if |parts| == 4 && forall i :: 0 <= i < 4 ==> IsByte(parts[i])
    then Some([Number(parts[0]), Number(parts[1]), Number(parts[2]), Number(parts[3])])
    else None
  }

  predicate IsByte(s: seq<byte>) {
    AllDigits(s) && (|s| > 1 ==> s[0] != 48) && 0 <= Number(s) < 256
  }

  lemma DigitsAreByte(b: byte)
    ensures IsByte(Digits(b)) && Number(Digits(b)) == b
  {
    DigitsRead(b);
  }

  lemma NoDot(s: seq<byte>)
    requires AllDigits(s)
    ensures 46 !in s
  {
  }

  /** An IPv4 address is printed as the text that reads back as it. */
  lemma DottedReads(a: seq<byte>)
    requires |a| == 4
    ensures ReadDotted(Dotted(a)) == Some(a)
  {
    hide Digits, IsByte, Number, SplitOn;
    forall i | 0 <= i < 4
      ensures IsByte(Digits(a[i])) && Number(Digits(a[i])) == a[i] && 46 !in Digits(a[i])
    {
      DigitsAreByte(a[i]);
      DigitsRead(a[i]);
      NoDot(Digits(a[i]));
    }
    var d0, d1, d2, d3 := Digits(a[0]), Digits(a[1]), Digits(a[2]), Digits(a[3]);
    assert Dotted(a) == d0 + [46] + (d1 + [46] + (d2 + [46] + d3));
    SplitHead(46, d0, d1 + [46] + (d2 + [46] + d3));
    SplitHead(46, d1, d2 + [46] + d3);
    SplitHead(46, d2, d3);
    SplitWhole(46, d3);
    assert SplitOn(46, Dotted(a)) == [d0, d1, d2, d3];
    assert a == [a[0], a[1], a[2], a[3]];
  }

  // ----- Refusals -----

  /** The one-read parser answers with code 7 to what is too short, of another version, or no CONNECT. */
  lemma OneReadRefuses(net: Net, arrived: seq<byte>)
    ensures |arrived| < 7 || arrived[0] != 5 || arrived[1] != 1 <==> OneRead(net, arrived) == Refused(7)
    ensures |arrived| >= 7 && arrived[0] == 5 && arrived[1] == 1 && !(arrived[3] in {1, 3, 4}) ==>
      OneRead(net, arrived) == Dropped
  {
    hide AddressText;
    var buf := arrived[..if |arrived| < 258 then |arrived| else 258];
    if |arrived| >= 7 {
      assert buf[0] == arrived[0] && buf[1] == arrived[1] && buf[3..][0] == arrived[3];
    }
  }

  /** The streaming parser answers with 7 to no CONNECT, with 8 to an unknown address type, whatever the version. */
  lemma StreamRefuses(net: Net, data: seq<byte>, version: byte)
    requires |data| >= 4
    ensures data[1] != 1 <==> Streamed(net, data).0 == Refused(7)
    ensures data[1] == 1 && !(data[3] in {1, 3, 4}) <==> Streamed(net, data).0 == Refused(8)
    ensures Streamed(net, data[0 := version]).0 == Streamed(net, data).0
  {
    hide AddressText;
    assert data[0 := version][3..] == data[3..];
  }
}
