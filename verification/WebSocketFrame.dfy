/**
 WebSocket frames (sections 5.2 and 5.3 of RFC 6455): the masking writers and the readers of
 ssh_transport.go and vless.go, against one description of the wire form.
 */
module WebSocketFrame {
  import opened Bytes
  import opened ByteStream

  const OP_CONTINUATION: byte := 0
  const OP_TEXT: byte := 1
  const OP_BINARY: byte := 2
  const OP_CLOSE: byte := 8
  const OP_PING: byte := 9
  const OP_PONG: byte := 10

  /** The largest length a Go slice can have, plus one. */
  const GO_INT_LIMIT: nat := 0x8000_0000_0000_0000

  /** The size above which readWSFrame refuses a frame. */
  const VLESS_FRAME_LIMIT: nat := 16 * 1024 * 1024

  type Mask = m: seq<byte> | |m| == 4 witness [0, 0, 0, 0]

  /** Every byte combined with its byte of the repeated mask; no mask leaves the bytes alone. */
  function Masked(payload: seq<byte>, mask: seq<byte>): (r: seq<byte>)
    requires |mask| == 0 || |mask| == 4
    ensures |r| == |payload|
  {
    if mask == [] then payload else seq(|payload|, i requires 0 <= i < |payload| => Xor(payload[i], mask[i % 4]))
  }

  lemma MaskedTwice(payload: seq<byte>, mask: Mask)
    ensures Masked(Masked(payload, mask), mask) == payload
  {
    var once := Masked(payload, mask);
    forall i | 0 <= i < |payload|
      ensures Masked(once, mask)[i] == payload[i]
    {
      XorTwice(payload[i], mask[i % 4]);
    }
  }

  function LengthField(n: nat): seq<byte> {
    if n <= 125 then [128 + n]
    else if n <= 65535 then [254] + U16Bytes(n)
    else [255] + BeBytes(n, 8)
  }

  /** The bytes of one masked, final frame. */
  function FrameBytes(opcode: byte, mask: Mask, payload: seq<byte>): seq<byte> {
    [128 + opcode % 128] + LengthField(|payload|) + mask + Masked(payload, mask)
  }

  // ----- Writers -----

  /** The masking loop both writers share. */
  method MaskPayload(payload: seq<byte>, mask: Mask) returns (masked: array<byte>)
    ensures fresh(masked)
    ensures masked[..] == Masked(payload, mask)
  {
    hide Xor;
    masked := new byte[|payload|];
    for i := 0 to |payload|
      invariant forall k :: 0 <= k < i ==> masked[k] == Xor(payload[k], mask[k % 4])
    {
      masked[i] := Xor(payload[i], mask[i % 4]);
    }
  }

  method WriteFrame(opcode: byte, payload: seq<byte>, mask: Mask) returns (frame: seq<byte>)
    ensures frame == FrameBytes(opcode, mask, payload)
  {
    hide Xor;
    var header: seq<byte> := [128 + opcode % 128];
    var pLen := |payload|;
    if pLen <= 125 {
      header := header + [128 + pLen];
    } else if pLen <= 65535 {
      header := header + [254, Low8(pLen / 256), Low8(pLen)];
    } else {
      header := header + [255];
      header := header + BeBytes(pLen, 8);
    }
    assert header == [128 + opcode % 128] + LengthField(|payload|);
    header := header + mask;
    var masked := MaskPayload(payload, mask);
    frame := header + masked[..];
  }

  /** vless.go's writer: the opcode is fixed to binary. */
  method WriteWSBinaryFrame(payload: seq<byte>, mask: Mask) returns (frame: seq<byte>)
    ensures frame == FrameBytes(OP_BINARY, mask, payload)
  {
    hide Xor;
    var header: seq<byte> := [0x82];
    var pLen := |payload|;
    if pLen <= 125 {
      header := header + [128 + pLen];
    } else if pLen <= 65535 {
      header := header + [254, Low8(pLen / 256), Low8(pLen)];
    } else {
      header := header + [255];
      header := header + BeBytes(pLen, 8);
    }
    assert header == [0x82] + LengthField(|payload|);
    header := header + mask;
    var masked := MaskPayload(payload, mask);
    frame := header + masked[..];
  }

  // ----- Reading -----

  datatype FrameResult =
    | Frame(opcode: byte, payload: seq<byte>, rest: seq<byte>)
    | Broken(error: ReadError)

  function ExtendedLength(code: byte): nat {
    if code == 126 then 2 else if code == 127 then 8 else 0
  }

  function MaskStart(s: seq<byte>): nat
    requires |s| >= 2
  {
    2 + ExtendedLength(s[1] % 128)
  }

  function MaskLength(s: seq<byte>): nat
    requires |s| >= 2
  {
    if s[1] >= 128 then 4 else 0
  }

  function PayloadLength(s: seq<byte>): nat
    requires |s| >= 2 && |s| >= MaskStart(s)
  {
    if MaskStart(s) == 2 then s[1] % 128 else BeValue(s[2..MaskStart(s)])
  }

  datatype HeaderResult =
    | Header(opcode: byte, length: nat, mask: seq<byte>, start: nat)
    | NoHeader(error: ReadError)

  /** The header at the front of `s`, by position; `start` is the index of the first payload byte. */
  function ParseHeader(s: seq<byte>): (r: HeaderResult)
    ensures r.Header? ==> 2 <= r.start <= |s| && (r.mask == [] || |r.mask| == 4)
  {
    if |s| < 2 then NoHeader(Short(|s|))
    else
      var maskStart := MaskStart(s);
      if |s| < maskStart then NoHeader(Short(|s| - 2))
      else
        var start := maskStart + MaskLength(s);
        if |s| < start then NoHeader(Short(|s| - maskStart))
        else Header(s[0] % 16, PayloadLength(s), s[maskStart..start], start)
  }

  /** The frame at the front of `s`. */
  function ParseFrame(s: seq<byte>): (r: FrameResult)
    ensures r.Frame? ==> |r.rest| < |s| && r.rest == s[|s| - |r.rest|..]
  {
    match ParseHeader(s)
    case NoHeader(e) => Broken(e)
    case Header(opcode, n, mask, start) =>
      if |s| < start + n then Broken(Short(|s| - start))
      else Frame(opcode, Masked(s[start..start + n], mask), s[start + n..])
  }

  /** The unmasking loop both readers share. */
  method Unmask(payload: seq<byte>, mask: Mask) returns (r: seq<byte>)
    ensures r == Masked(payload, mask)
  {
    hide Xor;
    var a := new byte[|payload|](i requires 0 <= i < |payload| => payload[i]);
    for i := 0 to |payload|
      invariant forall k :: 0 <= k < i ==> a[k] == Xor(payload[k], mask[k % 4])
      invariant forall k :: i <= k < |payload| ==> a[k] == payload[k]
    {
      a[i] := Xor(a[i], mask[i % 4]);
    }
    r := a[..];
  }

  /** The first half of both readers: two bytes, the longer length if announced, the mask if any. */
  method ReadHeader(reader: ByteReader) returns (r: HeaderResult)
    modifies reader
    ensures r == ParseHeader(old(reader.data))
    ensures reader.data == if r.Header? then old(reader.data)[r.start..] else []
  {
    ghost var s := reader.data;
    var hdr, err := reader.ReadFull(2);
    if err.Some? { return NoHeader(err.value); }
    var opcode := hdr[0] % 16;
    var masked := hdr[1] >= 128;
    var payloadLen: nat := hdr[1] % 128;
    ghost var maskStart := MaskStart(s);
    var ext: seq<byte> := [];
    if payloadLen == 126 {
      ext, err := reader.ReadFull(2);
      if err.Some? { return NoHeader(err.value); }
      assert ext == s[2..maskStart];
      payloadLen := BeValue(ext);
    } else if payloadLen == 127 {
      ext, err := reader.ReadFull(8);
      if err.Some? { return NoHeader(err.value); }
      assert ext == s[2..maskStart];
      payloadLen := BeValue(ext);
    }
    assert 2 + |ext| == maskStart && reader.data == s[maskStart..];
    var maskKey: seq<byte> := [];
    if masked {
      maskKey, err := reader.ReadFull(4);
      if err.Some? { return NoHeader(err.value); }
    }
    var start := 2 + |ext| + |maskKey|;
    assert maskKey == s[maskStart..start] && reader.data == s[start..];
    r := Header(opcode, payloadLen, maskKey, start);
  }

  /** The second half of both readers: the payload, unmasked if a mask came with it. */
  method ReadPayload(reader: ByteReader, payloadLen: nat, maskKey: seq<byte>)
    returns (payload: seq<byte>, error: Option<ReadError>)
    requires maskKey == [] || |maskKey| == 4
    modifies reader
    ensures payloadLen <= |old(reader.data)| ==>
      && error == None && payload == Masked(old(reader.data)[..payloadLen], maskKey)
      && reader.data == old(reader.data)[payloadLen..]
    ensures payloadLen > |old(reader.data)| ==> error == Some(Short(|old(reader.data)|)) && reader.data == []
  {
    hide Xor;
    payload, error := [], None;
    if payloadLen > 0 {
      payload, error := reader.ReadFull(payloadLen);
      if error == None && maskKey != [] {
        payload := Unmask(payload, maskKey);
      }
    }
  }

  /**
   The source allocates the announced length before it reads the payload, and panics where Go cannot
   allocate that much; here such a frame is the short read that an unlimited allocation would end in.
   */
  method ReadFrame(reader: ByteReader) returns (r: FrameResult)
    modifies reader
    ensures r == ParseFrame(old(reader.data))
    ensures reader.data == if r.Frame? then r.rest else []
  {
    hide Xor, Masked;
    ghost var s := reader.data;
    var header := ReadHeader(reader);
    if header.NoHeader? { return Broken(header.error); }
    var payload, err := ReadPayload(reader, header.length, header.mask);
    if err.Some? { return Broken(err.value); }
    SliceOfSlice(s, header.start, header.length);
    return Frame(header.opcode, payload, reader.data);
  }

  // ----- Laws -----

  lemma {:induction false} BeValueBound(s: seq<byte>)
    ensures BeValue(s) < Pow256(|s|)
  {
    if s != [] {
      BeValueBound(s[..|s| - 1]);
      assert Pow256(|s|) == 256 * Pow256(|s| - 1);
    }
  }

  lemma BeValuePair(s: seq<byte>)
    requires |s| == 2
    ensures BeValue(s) == U16(s[0], s[1])
  {
    assert s[..1][..0] == [];
    assert BeValue(s[..1]) == s[0];
  }

  lemma EightBytes()
    ensures Pow256(8) == 0x1_0000_0000_0000_0000
  {
    assert Pow256(2) == 65536;
    assert Pow256(4) == 0x1_0000_0000;
    assert Pow256(6) == 0x1_0000_0000_0000;
  }

  /** The length field reads back as the length it was written for. */
  lemma LengthFieldReads(n: nat, s: seq<byte>)
    requires n < GO_INT_LIMIT
    requires HoldsAt(s, 1, LengthField(n))
    ensures |s| >= 2 && |s| >= MaskStart(s) == 1 + |LengthField(n)|
    ensures MaskLength(s) == 4 && PayloadLength(s) == n
  {
    var f := LengthField(n);
    assert s[1] == s[1..1 + |f|][0] == f[0];
    if n > 125 {
      assert s[2..1 + |f|] == s[1..1 + |f|][1..] == f[1..];
      if n <= 65535 {
        assert f[1..] == U16Bytes(n);
        BeValuePair(U16Bytes(n));
      } else {
        assert f[1..] == BeBytes(n, 8);
        EightBytes();
        BeValueOfBytes(n, 8);
      }
    }
  }

  lemma WrittenHeader(opcode: byte, mask: Mask, payload: seq<byte>, rest: seq<byte>)
    requires |payload| < GO_INT_LIMIT
    ensures ParseHeader(FrameBytes(opcode, mask, payload) + rest)
      == Header(opcode % 16, |payload|, mask, 5 + |LengthField(|payload|)|)
  {
    hide Xor, Masked;
    var field, body := LengthField(|payload|), Masked(payload, mask);
    var s := FrameBytes(opcode, mask, payload) + rest;
    assert s == [128 + opcode % 128] + field + mask + body + rest;
    assert s[1..1 + |field|] == field;
    LengthFieldReads(|payload|, s);
    assert s[1 + |field|..5 + |field|] == mask;
  }

  /** Reading a written frame gives back its opcode and payload and leaves exactly what followed it. */
  lemma ReadInvertsWrite(opcode: byte, mask: Mask, payload: seq<byte>, rest: seq<byte>)
    requires |payload| < GO_INT_LIMIT
    ensures ParseFrame(FrameBytes(opcode, mask, payload) + rest) == Frame(opcode % 16, payload, rest)
  {
    hide Xor, Masked;
    WrittenHeader(opcode, mask, payload, rest);
    var start, body := 5 + |LengthField(|payload|)|, Masked(payload, mask);
    var s := FrameBytes(opcode, mask, payload) + rest;
    assert s[start..start + |payload|] == body;
    assert s[start + |payload|..] == rest;
    MaskedTwice(payload, mask);
  }

  // Frames of a server: unmasked, and not always final (section 5.1 of RFC 6455).

  /** The length field without the mask bit. */
  function PlainLength(n: nat): seq<byte> {
    if n <= 125 then [n]
    else if n <= 65535 then [126] + U16Bytes(n)
    else [127] + BeBytes(n, 8)
  }

  function PlainBytes(final: bool, opcode: byte, payload: seq<byte>): seq<byte> {
    [if final then 128 + opcode % 16 else opcode % 16] + PlainLength(|payload|) + payload
  }

  lemma PlainLengthReads(n: nat, s: seq<byte>)
    requires n < GO_INT_LIMIT
    requires HoldsAt(s, 1, PlainLength(n))
    ensures |s| >= 2 && |s| >= MaskStart(s) == 1 + |PlainLength(n)|
    ensures MaskLength(s) == 0 && PayloadLength(s) == n
  {
    var f := PlainLength(n);
    assert s[1] == s[1..1 + |f|][0] == f[0];
    if n > 125 {
      assert s[2..1 + |f|] == s[1..1 + |f|][1..] == f[1..];
      if n <= 65535 {
        assert f[1..] == U16Bytes(n);
        BeValuePair(U16Bytes(n));
      } else {
        assert f[1..] == BeBytes(n, 8);
        EightBytes();
        BeValueOfBytes(n, 8);
      }
    }
  }

  lemma PlainHeader(final: bool, opcode: byte, payload: seq<byte>, rest: seq<byte>)
    requires opcode < 16 && |payload| < GO_INT_LIMIT
    ensures ParseHeader(PlainBytes(final, opcode, payload) + rest)
      == Header(opcode, |payload|, [], 1 + |PlainLength(|payload|)|)
  {
    var field := PlainLength(|payload|);
    var s := PlainBytes(final, opcode, payload) + rest;
    assert s[1..1 + |field|] == field;
    PlainLengthReads(|payload|, s);
    assert s[1 + |field|..1 + |field|] == [];
  }

  /** A server's frame reads as its opcode and payload, in each of the three length forms, final or not. */
  lemma PlainFrameReads(final: bool, opcode: byte, payload: seq<byte>, rest: seq<byte>)
    requires opcode < 16 && |payload| < GO_INT_LIMIT
    ensures ParseFrame(PlainBytes(final, opcode, payload) + rest) == Frame(opcode, payload, rest)
  {
    hide ParseHeader, PlainLength;
    PlainHeader(final, opcode, payload, rest);
    var start := 1 + |PlainLength(|payload|)|;
    var s := PlainBytes(final, opcode, payload) + rest;
    assert s[start..start + |payload|] == payload;
    assert s[start + |payload|..] == rest;
  }

  /**
   Any part of a frame but the whole is a failed read: a clean end of file where it ends between two
   fields, before the first or before the payload, an unexpected one inside a field.
   */
  lemma PartIsBroken(s: seq<byte>, k: nat)
    requires ParseFrame(s).Frame? && ParseFrame(s).rest == [] && k < |s|
    ensures var atField := k in {0, 2, MaskStart(s), ParseHeader(s).start};
      ParseFrame(s[..k]) == Broken(if atField then Eof else UnexpectedEof)
  {
    hide Xor, Masked;
    var part := s[..k];
    if k >= 2 {
      assert part[0] == s[0] && part[1] == s[1];
      if k >= MaskStart(s) {
        assert part[2..MaskStart(s)] == s[2..MaskStart(s)];
      }
    }
  }

  /**
   What goes out is a frame as a client must send it: final, no reserved bit, masked, and each bit of
   the payload combined with its bit of the mask before it (sections 5.1 to 5.3 of RFC 6455).
   */
  lemma WrittenIsStandard(opcode: byte, mask: Mask, payload: seq<byte>)
    requires opcode < 16
    ensures var f := FrameBytes(opcode, mask, payload);
      && |f| >= 6 + |payload| && f[0] == 0x80 + opcode && f[1] >= 0x80
      && var body := |f| - |payload|;
      && f[body - 4..body] == mask
      && forall i, b :: 0 <= i < |payload| && 0 <= b < 8 ==>
           Bit(f[body + i], b) == if Bit(payload[i], b) == Bit(mask[i % 4], b) then 0 else 1
  {
    hide Xor, Bit;
    var f, masked := FrameBytes(opcode, mask, payload), Masked(payload, mask);
    var body := |f| - |payload|;
    assert f[1] == LengthField(|payload|)[0];
    assert f[body - 4..body] == mask;
    forall i, b | 0 <= i < |payload| && 0 <= b < 8
      ensures Bit(f[body + i], b) == if Bit(payload[i], b) == Bit(mask[i % 4], b) then 0 else 1
    {
      assert f[body + i] == masked[i];
      XorIsBitwise(payload[i], mask[i % 4], b);
    }
  }

  lemma ParseHeaderExtends(s: seq<byte>, more: seq<byte>)
    requires ParseHeader(s).Header?
    ensures ParseHeader(s + more) == ParseHeader(s)
  {
    var t := s + more;
    var maskStart := MaskStart(s);
    assert t[0] == s[0] && t[1] == s[1];
    assert t[2..maskStart] == s[2..maskStart];
    assert t[maskStart..maskStart + MaskLength(s)] == s[maskStart..maskStart + MaskLength(s)];
  }

  /** Bytes that arrive later do not change a frame that could already be read. */
  lemma ParseFrameExtends(s: seq<byte>, more: seq<byte>)
    requires ParseFrame(s).Frame?
    ensures ParseFrame(s + more) == ParseFrame(s).(rest := ParseFrame(s).rest + more)
  {
    hide Xor, Masked, ParseHeader;
    ParseHeaderExtends(s, more);
    var start, end := ParseHeader(s).start, ParseHeader(s).start + ParseHeader(s).length;
    assert (s + more)[start..end] == s[start..end];
    assert (s + more)[end..] == s[end..] + more;
  }

  /** No masked frame that reads back as this payload is shorter: the shortest length form is used. */
  lemma WriterIsShortest(opcode: byte, mask: Mask, payload: seq<byte>, other: seq<byte>)
    requires |payload| < GO_INT_LIMIT
    requires |other| >= 2 && other[1] >= 128
    requires ParseFrame(other).Frame? && ParseFrame(other).payload == payload && ParseFrame(other).rest == []
    ensures |FrameBytes(opcode, mask, payload)| <= |other|
  {
    hide Xor;
    var maskStart := MaskStart(other);
    var ext := other[2..maskStart];
    assert |other| == maskStart + 4 + PayloadLength(other);
    assert PayloadLength(other) == |payload|;
    if ext != [] {
      BeValueBound(ext);
      assert Pow256(2) == 65536;
    }
  }

  // ----- The second reader -----

  /** What readWSFrame hands its caller: bytes of data, or an error. */
  datatype DataResult = Data(payload: seq<byte>) | Failed(error: ReadError)

  method ReadWSFrame(reader: ByteReader) returns (r: DataResult)
    modifies reader
    ensures r == VlessView(old(reader.data))
    ensures reader.data == VlessRest(old(reader.data))
  {
    hide Xor, Masked;
    ghost var s := reader.data;
    var header := ReadHeader(reader);
    if header.NoHeader? { return Failed(header.error); }
    if header.length > VLESS_FRAME_LIMIT {
      return Failed(FrameTooLarge);
    }
    var payload, err := ReadPayload(reader, header.length, header.mask);
    if err.Some? { return Failed(err.value); }
    SliceOfSlice(s, header.start, header.length);
    if header.opcode == OP_CLOSE { return Failed(Eof); }
    if header.opcode == OP_PING { return Data([]); }
    if header.opcode == OP_PONG { return Data([]); }
    return Data(payload);
  }

  /** What readWSFrame leaves: a refused frame's payload is still there, a broken one has used up everything. */
  function VlessRest(s: seq<byte>): seq<byte> {
    var header := ParseHeader(s);
    if header.Header? && header.length > VLESS_FRAME_LIMIT then s[header.start..]
    else if ParseFrame(s).Frame? then ParseFrame(s).rest
    else []
  }

  /** readWSFrame in terms of the header and frame at the front of the stream. */
  function VlessView(s: seq<byte>): DataResult {
    var header := ParseHeader(s);
    if header.Header? && header.length > VLESS_FRAME_LIMIT then Failed(FrameTooLarge)
    else
      match ParseFrame(s)
      case Broken(e) => Failed(e)
      case Frame(opcode, payload, _) =>
        if opcode == OP_CLOSE then Failed(Eof)
        else if opcode == OP_PING || opcode == OP_PONG then Data([])
        else Data(payload)
  }

  /**
   The two readers hand over the same bytes for a written frame exactly when it is within the size
   limit and is neither a close frame nor a ping or pong that carries something.
   */
  lemma ReadersAgree(opcode: byte, mask: Mask, payload: seq<byte>, rest: seq<byte>)
    requires |payload| < GO_INT_LIMIT
    ensures ParseFrame(FrameBytes(opcode, mask, payload) + rest) == Frame(opcode % 16, payload, rest)
    ensures VlessView(FrameBytes(opcode, mask, payload) + rest) == Data(payload) <==>
      && |payload| <= VLESS_FRAME_LIMIT
      && opcode % 16 != OP_CLOSE
      && (opcode % 16 == OP_PING || opcode % 16 == OP_PONG ==> payload == [])
  {
    hide Xor, Masked, ParseFrame, ParseHeader, FrameBytes, LengthField;
    ReadInvertsWrite(opcode, mask, payload, rest);
    WrittenHeader(opcode, mask, payload, rest);
  }

  /** On a server's frame the two readers agree under the same condition, here by its numbers. */
  lemma ReadersAgreeOnPlain(final: bool, opcode: byte, payload: seq<byte>, rest: seq<byte>)
    requires opcode < 16 && |payload| < GO_INT_LIMIT
    ensures VlessView(PlainBytes(final, opcode, payload) + rest) ==
      if |payload| > 16_777_216 then Failed(FrameTooLarge)
      else if opcode == 8 then Failed(Eof)
      else if opcode == 9 || opcode == 10 then Data([])
      else Data(payload)
    ensures VlessRest(PlainBytes(final, opcode, payload) + rest) ==
      if |payload| > 16_777_216 then payload + rest else rest
  {
    hide Masked, ParseFrame, ParseHeader, PlainLength;
    PlainFrameReads(final, opcode, payload, rest);
    PlainHeader(final, opcode, payload, rest);
    var s, start := PlainBytes(final, opcode, payload) + rest, 1 + |PlainLength(|payload|)|;
    assert s[start..] == payload + rest;
  }
}
