/**
 The ClientHello parser and splitters of sni_fragment.go (section 4.1.2 of RFC 8446, section 3 of
 RFC 6066).
 */
module ClientHello {
  import opened Bytes
  import opened Split

  // ----- ClientHello records as the standard has them -----

  datatype Extension = Extension(etype: nat, body: seq<byte>) {
    predicate Proper() {
      etype < 65536 && |body| < 65536 && (IsServerName() ==> HasHost())
    }

    predicate IsServerName() {
      etype == 0
    }

    /** List length, name type, host length, and a host of at least one byte. */
    predicate HasHost() {
      |body| >= 6 && 1 <= HostLength() <= |body| - 5
    }

    function HostLength(): nat
      requires |body| >= 6
    {
      U16(body[3], body[4])
    }

    function Wire(): seq<byte> {
      U16Bytes(etype) + U16Bytes(|body|) + body
    }
  }

  function ExtensionsWire(es: seq<Extension>): seq<byte> {
    if es == [] then [] else es[0].Wire() + ExtensionsWire(es[1..])
  }

  datatype Hello = Hello(headers: seq<byte>, versionAndRandom: seq<byte>, sessionId: seq<byte>,
                         cipherSuites: seq<byte>, compression: seq<byte>, extensions: seq<Extension>)
  {
    predicate Proper() {
      && |headers| == 9 && headers[0] == 0x16 && headers[5] == 1
      && |versionAndRandom| == 34
      && |sessionId| < 256 && |cipherSuites| < 65536 && |compression| < 256
      && |ExtensionsWire(extensions)| < 65536
      && forall i :: 0 <= i < |extensions| ==> extensions[i].Proper()
    }

    /** Up to and including the length of the extension block. */
    function Front(): seq<byte>
      requires Proper()
    {
      (headers + versionAndRandom)
      + (([|sessionId|] + sessionId)
         + ((U16Bytes(|cipherSuites|) + cipherSuites)
            + (([|compression|] + compression) + U16Bytes(|ExtensionsWire(extensions)|))))
    }

    function Wire(): seq<byte>
      requires Proper()
    {
      Front() + ExtensionsWire(extensions)
    }
  }

  // ----- The parser -----

  /** Where the extension block of a record starts and ends, by its length fields. */
  function ExtensionBlock(data: seq<byte>): (r: Option<(nat, nat)>)
    ensures r.Some? ==> r.value.0 <= r.value.1
  {
    if |data| < 44 then None
    else
      var afterSession: nat := 44 + (data[43] as int);
      if afterSession + 2 > |data| then None
      else
        var afterCiphers := afterSession + 2 + U16(data[afterSession], data[afterSession + 1]);
        if afterCiphers + 1 > |data| then None
        else
          var afterCompression := afterCiphers + 1 + data[afterCiphers];
          if afterCompression + 2 > |data| then None
          else
            var start := afterCompression + 2;
            Some((start, start + U16(data[afterCompression], data[afterCompression + 1])))
  }

  /** Walks extensions for a server name whose host starts inside the data. */
  function SearchExtensions(data: seq<byte>, pos: nat, end: nat): (r: int)
    ensures r == -1 || pos < r < |data|
    decreases |data| - pos
  {
    if pos + 4 > end || pos + 4 > |data| then -1
    else
      var extType, extLen := U16(data[pos], data[pos + 1]), U16(data[pos + 2], data[pos + 3]);
      if extType == 0 && extLen > 0 && pos + 9 < |data| then pos + 9
      else SearchExtensions(data, pos + 4 + extLen, end)
  }

  function HostnameOffset(data: seq<byte>): (r: int)
    ensures r == -1 || 50 < r < |data|
  {
    var block := ExtensionBlock(data);
    if block == None then -1
    else
      SearchExtensionsBound(data, block.value.0, block.value.1);
      SearchExtensions(data, block.value.0, block.value.1)
  }

  lemma {:induction false} SearchExtensionsBound(data: seq<byte>, pos: nat, end: nat)
    ensures SearchExtensions(data, pos, end) == -1 || SearchExtensions(data, pos, end) >= pos + 9
    decreases |data| - pos
  {
    if pos + 4 <= end && pos + 4 <= |data| {
      SearchExtensionsBound(data, pos + 4 + U16(data[pos + 2], data[pos + 3]), end);
    }
  }

  method FindSNIHostnameOffset(data: seq<byte>) returns (offset: int)
    ensures offset == HostnameOffset(data)
  {
    if |data| < 44 {
      return -1;
    }
    var pos: nat := 5 + 4;
    pos := pos + 2;
    pos := pos + 32;
    if pos >= |data| {
      return -1;
    }
    var sessionIDLen: nat := data[pos];
    pos := pos + 1 + sessionIDLen;
    if pos + 2 > |data| {
      return -1;
    }
    var cipherSuitesLen := U16(data[pos], data[pos + 1]);
    pos := pos + 2 + cipherSuitesLen;
    if pos + 1 > |data| {
      return -1;
    }
    var compMethodsLen: nat := data[pos];
    pos := pos + 1 + compMethodsLen;
    if pos + 2 > |data| {
      return -1;
    }
    var extensionsLen := U16(data[pos], data[pos + 1]);
    pos := pos + 2;
    var extensionsEnd := pos + extensionsLen;
    while pos + 4 <= extensionsEnd && pos + 4 <= |data|
      invariant HostnameOffset(data) == SearchExtensions(data, pos, extensionsEnd)
      decreases |data| - pos
    {
      var extType := U16(data[pos], data[pos + 1]);
      var extLen := U16(data[pos + 2], data[pos + 3]);
      pos := pos + 4;
      if extType == 0 && extLen > 0 {
        if pos + 5 <= |data| {
          var hostnameStart := pos + 5;
          if hostnameStart < |data| {
            return hostnameStart;
          }
        }
      }
      pos := pos + extLen;
    }
    return -1;
  }

  // ----- The parser on well-formed records -----

  /** The first server_name extension. */
  function FirstServerName(es: seq<Extension>): (r: Option<nat>)
    ensures r.Some? ==> r.value < |es| && es[r.value].IsServerName()
    ensures forall i :: 0 <= i < (if r.Some? then r.value else |es|) ==> !es[i].IsServerName()
  {
    if es == [] then None
    else if es[0].IsServerName() then Some(0)
    else
      match FirstServerName(es[1..])
      case None => None
      case Some(i) => Some(i + 1)
  }

  lemma U16Held(data: seq<byte>, at: nat, n: nat)
    requires HoldsAt(data, at, U16Bytes(n)) && n < 65536
    ensures at + 2 <= |data| && U16(data[at], data[at + 1]) == n
  {
    HoldsByte(data, at, U16Bytes(n), 0);
    HoldsByte(data, at, U16Bytes(n), 1);
  }

  lemma ReadsExtension(data: seq<byte>, pos: nat, e: Extension)
    requires e.Proper() && HoldsAt(data, pos, e.Wire())
    ensures pos + 4 + |e.body| == pos + |e.Wire()| <= |data|
    ensures U16(data[pos], data[pos + 1]) == e.etype && U16(data[pos + 2], data[pos + 3]) == |e.body|
    ensures HoldsAt(data, pos + 4, e.body)
  {
    hide HoldsAt;
    HoldsBoth(data, pos, U16Bytes(e.etype) + U16Bytes(|e.body|), e.body);
    HoldsBoth(data, pos, U16Bytes(e.etype), U16Bytes(|e.body|));
    U16Held(data, pos, e.etype);
    U16Held(data, pos + 2, |e.body|);
    HoldsSlice(data, pos + 4, e.body);
  }

  lemma {:induction false} SearchFinds(data: seq<byte>, pos: nat, es: seq<Extension>)
    requires forall i :: 0 <= i < |es| ==> es[i].Proper()
    requires HoldsAt(data, pos, ExtensionsWire(es))
    ensures match FirstServerName(es)
      case None => SearchExtensions(data, pos, pos + |ExtensionsWire(es)|) == -1
      case Some(i) =>
        && SearchExtensions(data, pos, pos + |ExtensionsWire(es)|) == pos + |ExtensionsWire(es[..i])| + 9
        && HoldsAt(data, pos + |ExtensionsWire(es[..i])| + 4, es[i].body)
    decreases es
  {
    hide HoldsAt, Extension.Wire;
    if es != [] {
      var e, later := es[0], ExtensionsWire(es[1..]);
      HoldsBoth(data, pos, e.Wire(), later);
      ReadsExtension(data, pos, e);
      if !e.IsServerName() {
        SearchFinds(data, pos + |e.Wire()|, es[1..]);
        var found := FirstServerName(es[1..]);
        if found.Some? {
          assert es[..found.value + 1] == [e] + es[1..][..found.value];
          assert ExtensionsWire(es[..found.value + 1]) == e.Wire() + ExtensionsWire(es[1..][..found.value]);
        }
      } else {
        assert es[..0] == [];
      }
    }
  }

  /** Where the hostname of a record lies: behind the front, the extensions before, and nine bytes. */
  function HostPosition(h: Hello, i: nat): nat
    requires h.Proper() && i < |h.extensions|
  {
    |h.Front()| + |ExtensionsWire(h.extensions[..i])| + 9
  }

  /** A length byte and what it counts, with something behind. */
  lemma ReadsCounted8(data: seq<byte>, at: nat, part: seq<byte>, behind: seq<byte>)
    requires |part| < 256 && HoldsAt(data, at, ([|part|] + part) + behind)
    ensures at < |data| && data[at] == |part| && HoldsAt(data, at + 1 + |part|, behind)
  {
    HoldsBoth(data, at, [|part|] + part, behind);
    HoldsByte(data, at, [|part|] + part, 0);
  }

  lemma ReadsCounted16(data: seq<byte>, at: nat, part: seq<byte>, behind: seq<byte>)
    requires |part| < 65536 && HoldsAt(data, at, (U16Bytes(|part|) + part) + behind)
    ensures at + 2 <= |data| && U16(data[at], data[at + 1]) == |part| && HoldsAt(data, at + 2 + |part|, behind)
  {
    HoldsBoth(data, at, U16Bytes(|part|) + part, behind);
    HoldsBoth(data, at, U16Bytes(|part|), part);
    U16Held(data, at, |part|);
  }

  lemma BlockIsFound(h: Hello, data: seq<byte>)
    requires h.Proper() && HoldsAt(data, 0, h.Wire())
    ensures ExtensionBlock(data) == Some((|h.Front()|, |h.Front()| + |ExtensionsWire(h.extensions)|))
    ensures HoldsAt(data, |h.Front()|, ExtensionsWire(h.extensions))
  {
    hide HoldsAt, ExtensionsWire, U16, U16Bytes, ExtensionBlock, Hello.Front, Extension.Proper;
    var block := ExtensionsWire(h.extensions);
    var size := U16Bytes(|block|);
    var compression := ([|h.compression|] + h.compression) + size;
    var ciphers := (U16Bytes(|h.cipherSuites|) + h.cipherSuites) + compression;
    var session := ([|h.sessionId|] + h.sessionId) + ciphers;
    FrontParts(h, session);
    HoldsBoth(data, 0, h.Front(), block);
    HoldsBoth(data, 0, h.headers + h.versionAndRandom, session);
    ReadsCounted8(data, 43, h.sessionId, ciphers);
    var p1 := 44 + |h.sessionId|;
    ReadsCounted16(data, p1, h.cipherSuites, compression);
    var p2 := p1 + 2 + |h.cipherSuites|;
    ReadsCounted8(data, p2, h.compression, size);
    U16Held(data, p2 + 1 + |h.compression|, |block|);
    BlockFromFields(data, |h.sessionId|, |h.cipherSuites|, |h.compression|, |block|);
  }

  lemma FrontParts(h: Hello, session: seq<byte>)
    requires h.Proper()
    requires session == ([|h.sessionId|] + h.sessionId)
      + ((U16Bytes(|h.cipherSuites|) + h.cipherSuites)
         + (([|h.compression|] + h.compression) + U16Bytes(|ExtensionsWire(h.extensions)|)))
    ensures h.Front() == (h.headers + h.versionAndRandom) + session
    ensures |h.Front()| == 49 + |h.sessionId| + |h.cipherSuites| + |h.compression|
  {
    hide ExtensionsWire;
  }

  lemma BlockFromFields(data: seq<byte>, session: nat, ciphers: nat, compression: nat, block: nat)
    requires |data| >= 48 + session + ciphers + 1 + compression
    requires data[43] == session && U16(data[44 + session], data[45 + session]) == ciphers
    requires data[46 + session + ciphers] == compression
    requires var p := 47 + session + ciphers + compression; U16(data[p], data[p + 1]) == block
    ensures var start := 49 + session + ciphers + compression; ExtensionBlock(data) == Some((start, start + block))
  {
    hide U16;
  }

  /** The parser finds a host at this index, and the data has a host of this length there. */
  predicate HostIs(data: seq<byte>, at: nat, length: nat) {
    && HostnameOffset(data) == at
    && 2 <= at && 1 <= length && at + length <= |data|
    && U16(data[at - 2], data[at - 1]) == length
  }

  /**
   For every well-formed ClientHello: the first byte of the first server_name's host, or -1 when
   there is no server_name.
   */
  lemma HostIsFound(h: Hello, data: seq<byte>)
    requires h.Proper() && HoldsAt(data, 0, h.Wire())
    ensures match FirstServerName(h.extensions)
      case None => HostnameOffset(data) == -1
      case Some(i) =>
        var at := HostPosition(h, i);
        && HoldsAt(data, at - 5, h.extensions[i].body)
        && HostIs(data, at, h.extensions[i].HostLength())
  {
    hide HoldsAt, ExtensionsWire, ExtensionBlock, SearchExtensions, Hello.Wire, Hello.Front;
    BlockIsFound(h, data);
    SearchFinds(data, |h.Front()|, h.extensions);
    var found := FirstServerName(h.extensions);
    if found.Some? {
      var e, at := h.extensions[found.value], HostPosition(h, found.value);
      assert e.Proper();
      HoldsByte(data, at - 5, e.body, 3);
      HoldsByte(data, at - 5, e.body, 4);
      HoldsSlice(data, at - 5, e.body);
    }
  }

  // ----- The splitters -----

  /** The cut that "sni_split" makes, if it finds a host to cut. */
  function SniCut(data: seq<byte>): (r: Option<nat>)
    ensures r.Some? ==> 0 < r.value < |data|
  {
    var offset := HostnameOffset(data);
    if 0 < offset < |data| - 1 then
      var hostnameLen := U16(data[offset - 2], data[offset - 1]);
      var mid := offset + (if hostnameLen > 0 then hostnameLen / 2 else (|data| - offset) / 2);
      Some(if mid >= |data| then |data| - 1 else mid)
    else None
  }

  function CutAt(data: seq<byte>, mid: nat): seq<seq<byte>>
    requires mid <= |data|
  {
    [data[..mid], data[mid..]]
  }

  function Chunks(data: seq<byte>, strategy: string): seq<seq<byte>> {
    if strategy == "sni_split" && SniCut(data).Some? then CutAt(data, SniCut(data).value)
    else if strategy == "multi" then Pieces(data, 24)
    else CutAt(data, |data| / 2)
  }

  method SplitHalf(data: seq<byte>) returns (chunks: seq<seq<byte>>)
    ensures chunks == CutAt(data, |data| / 2)
  {
    var mid := |data| / 2;
    return [data[..mid], data[mid..]];
  }

  method SplitMulti(data: seq<byte>, chunkSize: nat) returns (chunks: seq<seq<byte>>)
    requires chunkSize > 0
    ensures chunks == Pieces(data, chunkSize)
    ensures Concat(chunks) == data && forall i :: 0 <= i < |chunks| ==> 1 <= |chunks[i]| <= chunkSize
  {
    hide Concat;
    chunks := [];
    var i := 0;
    while i < |data|
      invariant i <= |data| && Pieces(data, chunkSize) == chunks + Pieces(data[i..], chunkSize)
    {
      var end := i + chunkSize;
      if end > |data| {
        end := |data|;
      }
      NextChunk(data, i, chunkSize);
      chunks := chunks + [data[i..end]];
      i := end;
    }
    PiecesShape(data, chunkSize);
  }

  lemma NextChunk(data: seq<byte>, i: nat, chunkSize: nat)
    requires chunkSize > 0 && i < |data|
    ensures var end := if i + chunkSize > |data| then |data| else i + chunkSize;
      Pieces(data[i..], chunkSize) == [data[i..end]] + Pieces(data[end..], chunkSize)
  {
    if i + chunkSize < |data| {
      SliceOfSlice(data, i, chunkSize);
    } else {
      assert data[i..|data|] == data[i..] && data[|data|..] == [];
    }
  }

  method SplitClientHello(data: seq<byte>, strategy: string) returns (chunks: seq<seq<byte>>)
    ensures chunks == Chunks(data, strategy)
  {
    hide HostnameOffset, Pieces, U16;
    if strategy == "sni_split" {
      var offset := FindSNIHostnameOffset(data);
      if offset > 0 && offset < |data| - 1 {
        var hostnameLen := 0;
        if offset >= 2 {
          hostnameLen := U16(data[offset - 2], data[offset - 1]);
        }
        var mid := offset;
        if hostnameLen > 0 {
          mid := offset + hostnameLen / 2;
        } else {
          mid := offset + (|data| - offset) / 2;
        }
        if mid <= 0 {
          mid := 1;
        }
        if mid >= |data| {
          mid := |data| - 1;
        }
        return [data[..mid], data[mid..]];
      }
      chunks := SplitHalf(data);
    } else if strategy == "half" {
      chunks := SplitHalf(data);
    } else if strategy == "multi" {
      chunks := SplitMulti(data, 24);
    } else {
      chunks := SplitHalf(data);
    }
  }

  /** Whatever the strategy and the data, the chunks are the data, cut. */
  lemma ChunksJoin(data: seq<byte>, strategy: string)
    ensures Concat(Chunks(data, strategy)) == data
  {
    hide SniCut;
    PiecesShape(data, 24);
    CutJoins(data, |data| / 2);
    if SniCut(data).Some? {
      CutJoins(data, SniCut(data).value);
    }
  }

  lemma CutJoins(data: seq<byte>, mid: nat)
    requires mid <= |data|
    ensures Concat(CutAt(data, mid)) == data
  {
    assert CutAt(data, mid)[1..] == [data[mid..]];
    assert Concat([data[mid..]]) == data[mid..] + Concat([]) == data[mid..];
  }

  predicate CutsInside(cut: Option<nat>, at: nat, length: nat) {
    cut.Some? && at < cut.value < at + length
  }

  /**
   When the parser has found a host, "sni_split" cuts strictly inside it exactly when it has two bytes
   or more.
   */
  lemma CutIsInsideHost(data: seq<byte>, at: nat, length: nat)
    requires HostIs(data, at, length)
    ensures CutsInside(SniCut(data), at, length) <==> length >= 2
  {
    hide HostnameOffset;
  }

  /**
   Where the parser has found a host of two bytes or more, "sni_split" gives two chunks, the first of
   which ends in the middle of the host.
   */
  lemma SniSplitCutsHost(data: seq<byte>, at: nat, length: nat)
    requires HostIs(data, at, length) && length >= 2
    ensures var chunks := Chunks(data, "sni_split");
      |chunks| == 2 && at < |chunks[0]| < at + length && |chunks[0]| == at + length / 2
  {
    hide HostnameOffset;
  }

  /** Without a host to cut, and for every strategy but "multi" otherwise, the two chunks are halves. */
  lemma HalvesOtherwise(data: seq<byte>, strategy: string)
    requires strategy != "multi"
    requires strategy == "sni_split" ==> HostnameOffset(data) == -1 || HostnameOffset(data) == |data| - 1
    ensures var chunks := Chunks(data, strategy);
      |chunks| == 2 && |chunks[0]| <= |chunks[1]| <= |chunks[0]| + 1
  {
    hide HostnameOffset;
  }

  /** A host whose announced length is no guide: of length zero the rest is halved, and no cut is at or past the end. */
  lemma SniSplitOnBadLength(data: seq<byte>)
    requires 0 <= HostnameOffset(data) < |data| - 1
    ensures var at, chunks := HostnameOffset(data), Chunks(data, "sni_split");
      && |chunks| == 2 && at <= |chunks[0]| < |data|
      && var length := U16(data[at - 2], data[at - 1]);
      && (length == 0 ==> |chunks[0]| - at <= |chunks[1]| <= |chunks[0]| - at + 1)
      && (at + length / 2 >= |data| ==> |chunks[1]| == 1)
  {
    hide HostnameOffset;
  }

  /** From the message itself: a well-formed ClientHello with a host of two bytes or more is cut inside it. */
  lemma HelloIsCutInHost(h: Hello, i: nat)
    requires h.Proper() && FirstServerName(h.extensions) == Some(i) && h.extensions[i].HostLength() >= 2
    ensures var at, chunks := HostPosition(h, i), Chunks(h.Wire(), "sni_split");
      |chunks| == 2 && at < |chunks[0]| < at + h.extensions[i].HostLength()
  {
    hide Hello.Wire, HostIs, Chunks, ExtensionsWire;
    var data := h.Wire();
    assert data[0..|data|] == data;
    HostIsFound(h, data);
    SniSplitCutsHost(data, HostPosition(h, i), h.extensions[i].HostLength());
  }

  /** One without a server name is cut in half. */
  lemma HelloWithoutHostIsHalved(h: Hello)
    requires h.Proper() && FirstServerName(h.extensions) == None
    ensures var chunks := Chunks(h.Wire(), "sni_split");
      |chunks| == 2 && |chunks[0]| <= |chunks[1]| <= |chunks[0]| + 1
  {
    hide Hello.Wire, HostIs, Chunks, ExtensionsWire;
    var data := h.Wire();
    assert data[0..|data|] == data;
    HostIsFound(h, data);
    HalvesOtherwise(data, "sni_split");
  }

  // ----- Records cut off by the write -----

  lemma {:induction false} SearchInPart(data: seq<byte>, k: nat, pos: nat, end: nat)
    requires k <= |data|
    ensures var found := SearchExtensions(data, pos, end);
      SearchExtensions(data[..k], pos, end) == if found < k then found else -1
    decreases |data| - pos
  {
    SearchExtensionsBound(data, pos, end);
    if pos + 4 <= end && pos + 4 <= k {
      var next := pos + 4 + U16(data[pos + 2], data[pos + 3]);
      SearchInPart(data, k, next, end);
      SearchExtensionsBound(data, next, end);
    }
  }

  lemma BlockInPart(data: seq<byte>, k: nat)
    requires k <= |data|
    ensures ExtensionBlock(data) == None ==> ExtensionBlock(data[..k]) == None
    ensures ExtensionBlock(data).Some? ==>
      ExtensionBlock(data[..k]) == if ExtensionBlock(data).value.0 <= k then ExtensionBlock(data) else None
  {
    hide U16;
  }

  /** In any front of any data the parser finds what it finds in the whole, if that lies in the front. */
  lemma FoundInPartIff(data: seq<byte>, k: nat)
    requires k <= |data|
    ensures HostnameOffset(data[..k]) == if HostnameOffset(data) < k then HostnameOffset(data) else -1
  {
    hide ExtensionBlock, SearchExtensions;
    BlockInPart(data, k);
    var block := ExtensionBlock(data);
    if block.Some? {
      SearchExtensionsBound(data, block.value.0, block.value.1);
      SearchInPart(data, k, block.value.0, block.value.1);
    }
  }
}
