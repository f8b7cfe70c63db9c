/**
 The WebSocket connection wrapper of ssh_transport.go: a byte stream in each direction over frames
 (sections 5.4 and 5.5 of RFC 6455).
 */
module WsConn {
  import opened Bytes
  import opened ByteStream
  import opened RawConn
  import opened WebSocketFrame

  /** A frame without its wire dressing. */
  datatype Message = Message(opcode: byte, payload: seq<byte>)

  /** How a frame is dressed: under a mask by a client, without one by a server; `final` ends a message. */
  datatype Dress = Client(mask: Mask) | Server(final: bool)

  /** A frame as it was sent. */
  datatype Sent = Sent(dress: Dress, message: Message)

  /** Continuation, text and binary frames. */
  predicate IsData(m: Message): (data: bool)
    ensures data <==> m.opcode <= 2
  {
    m.opcode == OP_BINARY || m.opcode == OP_TEXT || m.opcode == OP_CONTINUATION
  }

  /** The stream that a run of frames carries. */
  function DataOf(ms: seq<Message>): seq<byte> {
    if ms == [] then []
    else DataOf(ms[..|ms| - 1]) + if IsData(ms[|ms| - 1]) then ms[|ms| - 1].payload else []
  }

  /** The payloads of the frames with one opcode, in order. */
  function PayloadsOf(opcode: byte, ms: seq<Message>): seq<seq<byte>> {
    if ms == [] then []
    else PayloadsOf(opcode, ms[..|ms| - 1]) +
         if ms[|ms| - 1].opcode == opcode then [ms[|ms| - 1].payload] else []
  }

  function Messages(log: seq<Sent>): (ms: seq<Message>)
    ensures |ms| == |log|
  {
    seq(|log|, i requires 0 <= i < |log| => log[i].message)
  }

  /** The bytes of the frames sent, back to back. */
  function Wire(log: seq<Sent>): seq<byte> {
    if log == [] then [] else WireOf(log[0]) + Wire(log[1..])
  }

  function WireOf(s: Sent): seq<byte> {
    match s.dress
    case Client(mask) => FrameBytes(s.message.opcode, mask, s.message.payload)
    case Server(final) => PlainBytes(final, s.message.opcode, s.message.payload)
  }

  /** Reading frames off `s` one after the other gives `ms` and leaves `rest`. */
  predicate Parsed(s: seq<byte>, ms: seq<Message>, rest: seq<byte>)
    decreases |ms|
  {
    if ms == [] then s == rest
    else
      var f := ParseFrame(s);
      f.Frame? && ms[0] == Message(f.opcode, f.payload) && Parsed(f.rest, ms[1..], rest)
  }

  lemma {:induction false} ParsedNext(s: seq<byte>, ms: seq<Message>, mid: seq<byte>)
    requires Parsed(s, ms, mid) && ParseFrame(mid).Frame?
    ensures var f := ParseFrame(mid); Parsed(s, ms + [Message(f.opcode, f.payload)], f.rest)
    decreases |ms|
  {
    hide ParseFrame;
    var last := Message(ParseFrame(mid).opcode, ParseFrame(mid).payload);
    if ms == [] {
      assert [last][1..] == [];
      assert ms + [last] == [last];
    } else {
      ParsedNext(ParseFrame(s).rest, ms[1..], mid);
      assert (ms + [last])[1..] == ms[1..] + [last];
    }
  }

  lemma AppendMessage(ms: seq<Message>, m: Message)
    ensures DataOf(ms + [m]) == DataOf(ms) + if IsData(m) then m.payload else []
    ensures forall op :: (PayloadsOf(op, ms + [m]) == PayloadsOf(op, ms) + if m.opcode == op then [m.payload] else [])
  {
    assert (ms + [m])[..|ms|] == ms;
  }

  lemma {:induction false} AppendSent(log: seq<Sent>, s: Sent)
    ensures Wire(log + [s]) == Wire(log) + WireOf(s)
    ensures Messages(log + [s]) == Messages(log) + [s.message]
  {
    hide WireOf;
    if log == [] {
      assert [s][1..] == [] && Wire([s]) == WireOf(s) + Wire([]);
    } else {
      assert (log + [s])[1..] == log[1..] + [s];
      AppendSent(log[1..], s);
    }
  }

  /** A message that has bytes for the caller. */
  predicate Carries(m: Message) {
    IsData(m) && m.payload != []
  }

  lemma EmptyIsBroken()
    ensures ParseFrame([]) == Broken(Eof)
  {
  }

  lemma FrameIsSomething(opcode: byte, mask: Mask, payload: seq<byte>)
    ensures |FrameBytes(opcode, mask, payload)| > 0
  {
  }

  lemma PrefixGrows(received: seq<byte>, full: seq<byte>, frame: seq<byte>, part: seq<byte>)
    requires received <= full && part <= frame
    requires received == full || part == []
    ensures received + part <= full + frame
  {
  }

  method CopyInto(b: array<byte>, s: seq<byte>)
    requires |s| <= b.Length
    modifies b
    ensures b[..|s|] == s && b[|s|..] == old(b[|s|..])
  {
    for i := 0 to |s|
      invariant b[..i] == s[..i] && b[|s|..] == old(b[|s|..])
    {
      b[i] := s[i];
    }
  }

  class Conn {
    const raw: RawConn.Conn
    const reader: ByteReader
    var buf: seq<byte>
    var bufOff: nat
    var bufLen: nat

    /** Everything the peer sends, the frames read from it, and bytes used up by a failed read. */
    ghost const stream: seq<byte>
    ghost var consumed: seq<Message>
    ghost var lost: seq<byte>
    /** Bytes returned by Read and bytes passed to Write, over the life of the connection. */
    ghost var delivered: seq<byte>
    ghost var offered: seq<byte>
    /** What the raw connection carried before the upgrade, and every frame written to it since. */
    ghost const base: seq<byte>
    ghost var written: seq<Sent>

    ghost predicate ReadSide()
      reads this, reader
    {
      && bufOff <= bufLen == |buf|
      && Parsed(stream, consumed, lost + reader.data)
      && (lost != [] ==> reader.data == [])
      && DataOf(consumed) == delivered + buf[bufOff..bufLen]
    }

    ghost predicate WriteSide()
      reads this, raw
    {
      && raw.received <= base + Wire(written)
      && base <= raw.received
      && (raw.received == base + Wire(written) || raw.room == 0)
      && DataOf(Messages(written)) == offered
      && forall i :: 0 <= i < |written| ==> written[i].message.opcode < 16
    }

    /** What holds between any two calls. */
    ghost predicate Valid()
      reads this, reader, raw
    {
      && ReadSide()
      && WriteSide()
      && PayloadsOf(OP_PONG, Messages(written)) == PayloadsOf(OP_PING, consumed)
    }

    constructor (raw: RawConn.Conn, reader: ByteReader)
      ensures Valid()
      ensures this.raw == raw && this.reader == reader && stream == reader.data && base == raw.received
      ensures consumed == [] && written == [] && delivered == [] && offered == []
    {
      this.raw, this.reader := raw, reader;
      buf, bufOff, bufLen := [], 0, 0;
      stream, base := reader.data, raw.received;
      consumed, lost, delivered, offered, written := [], [], [], [], [];
    }

    method WriteFrame(opcode: byte, payload: seq<byte>) returns (ok: bool)
      requires WriteSide() && opcode < 16
      modifies this`written, this`offered, raw
      ensures WriteSide()
      ensures old(written) <= written && Messages(written) == Messages(old(written)) + [Message(opcode, payload)]
      ensures offered == old(offered) + if IsData(Message(opcode, payload)) then payload else []
      ensures ok ==> raw.received == base + Wire(written)
    {
      hide FrameBytes, Wire, DataOf, Messages, PayloadsOf;
      var mask: Mask := *;  // crypto/rand
      var frame := WebSocketFrame.WriteFrame(opcode, payload, mask);
      ghost var sent := Sent(Client(mask), Message(opcode, payload));
      AppendSent(written, sent);
      AppendMessage(Messages(written), sent.message);
      FrameIsSomething(opcode, mask, payload);
      ghost var before, room := raw.received, raw.room;
      ghost var full := Wire(written);
      var _, accepted := raw.Write(frame);
      ok := accepted;
      PrefixGrows(before, base + full, frame, if ok then frame else frame[..room]);
      assert base + full + frame == base + (full + frame);
      written := written + [sent];
      offered := offered + if IsData(sent.message) then payload else [];
    }

    method Write(b: seq<byte>) returns (n: nat, ok: bool)
      requires Valid()
      modifies this`written, this`offered, raw
      ensures Valid() && offered == old(offered) + b
      ensures b == [] ==> written == old(written) && ok
      ensures b != [] ==>
        old(written) <= written && Messages(written) == Messages(old(written)) + [Message(2, b)]
      ensures n == if ok then |b| else 0
      ensures ok && b != [] ==> raw.received == base + Wire(written)
    {
      hide FrameBytes, Wire, ParseFrame, Parsed, DataOf, PayloadsOf;
      if b == [] {
        return 0, true;
      }
      AppendMessage(Messages(written), Message(OP_BINARY, b));
      ok := WriteFrame(OP_BINARY, b);
      n := if ok then |b| else 0;
    }

    /** Reads one frame and records it; a failed read uses up what was left. */
    method NextFrame() returns (opcode: byte, payload: seq<byte>, error: Option<ReadError>)
      requires Parsed(stream, consumed, lost + reader.data) && (lost != [] ==> reader.data == [])
      modifies reader, this`consumed, this`lost
      ensures Parsed(stream, consumed, lost + reader.data) && (lost != [] ==> reader.data == [])
      ensures error == None ==>
        && consumed == old(consumed) + [Message(opcode, payload)] && lost == old(lost)
        && |reader.data| < |old(reader.data)|
      ensures error.Some? ==>
        && consumed == old(consumed) && reader.data == []
        && ParseFrame(if old(lost) == [] then lost else []) == Broken(error.value)
    {
      hide ParseFrame;
      ghost var mid := reader.data;
      if mid != [] {
        assert lost + mid == mid;
      }
      var r := ReadFrame(reader);
      match r
      case Broken(e) =>
        if lost == [] {
          assert lost + mid == mid && mid + [] == mid;
          lost := mid;
        } else {
          assert mid == [] && lost + [] == lost;
        }
        return 0, [], Some(e);
      case Frame(op, p, rest) =>
        EmptyIsBroken();
        ParsedNext(stream, consumed, mid);
        assert lost + rest == rest;
        consumed := consumed + [Message(op, p)];
        return op, p, None;
    }

    /** One turn of the read loop: the next frame is buffered, answered or dropped. */
    method HandleFrame() returns (opcode: byte, payload: seq<byte>, error: Option<ReadError>)
      requires Valid() && bufOff == bufLen
      modifies this, raw, reader
      ensures Valid() && delivered == old(delivered) && offered == old(offered)
      ensures error.Some? ==>
        && consumed == old(consumed) && reader.data == []
        && ParseFrame(if old(lost) == [] then lost else []) == Broken(error.value)
      ensures error == None ==>
        && consumed == old(consumed) + [Message(opcode, payload)] && lost == old(lost)
        && |reader.data| < |old(reader.data)|
        && if Carries(Message(opcode, payload)) then bufOff == 0 && buf == payload else bufOff == bufLen
    {
      hide ParseFrame, FrameBytes, Wire, Parsed, DataOf, PayloadsOf;
      ghost var before := consumed;
      opcode, payload, error := NextFrame();
      if error.Some? {
        return;
      }
      AppendMessage(before, Message(opcode, payload));
      if opcode == OP_BINARY || opcode == OP_TEXT || opcode == OP_CONTINUATION {
        if payload == [] {
          return;
        }
        buf, bufOff, bufLen := payload, 0, |payload|;
      } else if opcode == OP_PING {
        AppendMessage(Messages(written), Message(OP_PONG, payload));
        var _ := WriteFrame(OP_PONG, payload);
      }
    }

    /** Hands over buffered bytes, as many as fit. */
    method TakeBuffered(b: array<byte>) returns (n: nat)
      requires Valid() && bufOff < bufLen
      modifies this`bufOff, this`delivered, b
      ensures Valid()
      ensures n == if b.Length < bufLen - old(bufOff) then b.Length else bufLen - old(bufOff)
      ensures delivered == old(delivered) + b[..n] && b[n..] == old(b[n..])
    {
      hide ParseFrame, FrameBytes, Wire, Parsed, DataOf, PayloadsOf;
      n := if b.Length < bufLen - bufOff then b.Length else bufLen - bufOff;
      CopyInto(b, buf[bufOff..bufOff + n]);
      assert buf[bufOff..bufLen] == buf[bufOff..bufOff + n] + buf[bufOff + n..bufLen];
      delivered := delivered + b[..n];
      bufOff := bufOff + n;
    }

    method Read(b: array<byte>) returns (n: nat, error: Option<ReadError>)
      requires Valid()
      modifies this, raw, reader, b
      ensures Valid()
      // What the caller gets.
      ensures n <= b.Length && delivered == old(delivered) + b[..n] && b[n..] == old(b[n..])
      ensures error.Some? ==> n == 0
      ensures error == None && b.Length > 0 ==> n > 0
      // What was read to get it: nothing while bytes are buffered, else up to one frame that carries some.
      ensures old(consumed) <= consumed && offered == old(offered)
      ensures old(bufOff < bufLen) ==>
        && error == None && consumed == old(consumed)
        && n == if b.Length < old(bufLen - bufOff) then b.Length else old(bufLen - bufOff)
      ensures forall i :: |old(consumed)| <= i < |consumed| - 1 ==>
        !Carries(consumed[i]) && consumed[i].opcode != 8
      ensures old(bufOff == bufLen) && error == None ==>
        && |consumed| > |old(consumed)| && Carries(consumed[|consumed| - 1])
        && n == if b.Length < bufLen then b.Length else bufLen
      // Why it failed, when it did.
      ensures error.Some? ==>
        || (error.value == Eof && |consumed| > |old(consumed)| && consumed[|consumed| - 1].opcode == 8)
        || (reader.data == [] && ParseFrame(if old(lost) == [] then lost else []) == Broken(error.value))
    {
      hide ParseFrame, FrameBytes, Wire, Parsed, DataOf, PayloadsOf;
      while true
        invariant Valid()
        invariant delivered == old(delivered) && offered == old(offered) && b[..] == old(b[..])
        invariant old(consumed) <= consumed && lost == old(lost)
        invariant forall i :: |old(consumed)| <= i < |consumed| - 1 ==>
          !Carries(consumed[i]) && consumed[i].opcode != OP_CLOSE
        invariant |consumed| > |old(consumed)| ==> consumed[|consumed| - 1].opcode != OP_CLOSE
        invariant old(bufOff < bufLen) ==>
          consumed == old(consumed) && bufOff < bufLen && bufLen - bufOff == old(bufLen - bufOff)
        invariant old(bufOff == bufLen) && bufOff < bufLen ==>
          |consumed| > |old(consumed)| && Carries(consumed[|consumed| - 1]) && bufOff == 0
        invariant old(bufOff == bufLen) && bufOff == bufLen && |consumed| > |old(consumed)| ==>
          !Carries(consumed[|consumed| - 1])
        decreases |reader.data|, bufLen - bufOff == 0
      {
        if bufOff < bufLen {
          n := TakeBuffered(b);
          return n, None;
        }
        var opcode, payload, err := HandleFrame();
        if err.Some? {
          return 0, err;
        }
        if opcode == OP_CLOSE {
          return 0, Some(Eof);
        }
      }
    }
  }

  // ----- Two ends of one connection -----

  lemma {:induction false} ParsedExtends(s: seq<byte>, ms: seq<Message>, rest: seq<byte>, more: seq<byte>)
    requires Parsed(s, ms, rest)
    ensures Parsed(s + more, ms, rest + more)
    decreases |ms|
  {
    hide ParseFrame;
    if ms != [] {
      ParseFrameExtends(s, more);
      ParsedExtends(ParseFrame(s).rest, ms[1..], rest, more);
    }
  }

  lemma {:induction false} DataPrefix(ms: seq<Message>, k: nat)
    requires k <= |ms|
    ensures DataOf(ms[..k]) <= DataOf(ms)
  {
    if k < |ms| {
      DataPrefix(ms[..|ms| - 1], k);
      assert ms[..|ms| - 1][..k] == ms[..k];
    } else {
      assert ms[..k] == ms;
    }
  }

  /** Frame sizes and opcodes the writers produce. */
  predicate Sendable(log: seq<Sent>) {
    forall i :: 0 <= i < |log| ==> |log[i].message.payload| < GO_INT_LIMIT && log[i].message.opcode < 16
  }

  lemma ReadSent(s: Sent, after: seq<byte>)
    requires Sendable([s])
    ensures ParseFrame(WireOf(s) + after) == Frame(s.message.opcode, s.message.payload, after)
  {
    hide FrameBytes, PlainBytes, ParseFrame;
    var m := s.message;
    assert s == [s][0];
    match s.dress
    case Client(mask) =>
      ReadInvertsWrite(m.opcode, mask, m.payload, after);
      assert m.opcode % 16 == m.opcode;
    case Server(final) => PlainFrameReads(final, m.opcode, m.payload, after);
  }

  /** Frames parsed off the wire form of a log are the log's messages, in order, from the first. */
  lemma {:induction false} ParsedIsLog(log: seq<Sent>, ms: seq<Message>, rest: seq<byte>)
    requires Sendable(log) && Parsed(Wire(log), ms, rest)
    ensures |ms| <= |log| && ms == Messages(log)[..|ms|] && rest == Wire(log[|ms|..])
    decreases |ms|
  {
    hide ParseFrame, WireOf;
    EmptyIsBroken();
    if ms != [] && log != [] {
      ReadSent(log[0], Wire(log[1..]));
      ParsedIsLog(log[1..], ms[1..], rest);
      assert ms == [ms[0]] + ms[1..];
      assert Messages(log)[..|ms|] == [log[0].message] + Messages(log[1..])[..|ms| - 1];
      assert log[1..][|ms| - 1..] == log[|ms|..];
    }
  }

  /**
   Whatever peer the connection has, client or server, and whatever part of the frames it sends has
   arrived: they have been seen in order; the bytes handed out or held are a prefix of what the data
   frames carry, whether or not they are final, and all of it once all frames are read; and each ping
   seen has had its pong.
   */
  lemma Received(b: Conn, log: seq<Sent>)
    requires b.Valid() && Sendable(log) && b.stream <= Wire(log)
    ensures |b.consumed| <= |log| && b.consumed == Messages(log)[..|b.consumed|]
    ensures b.delivered + b.buf[b.bufOff..b.bufLen] == DataOf(Messages(log)[..|b.consumed|]) <= DataOf(Messages(log))
    ensures |b.consumed| == |log| ==> b.delivered + b.buf[b.bufOff..b.bufLen] == DataOf(Messages(log))
    ensures PayloadsOf(10, Messages(b.written)) == PayloadsOf(9, Messages(log)[..|b.consumed|])
  {
    hide FrameBytes, ParseFrame, Wire, DataOf, PayloadsOf, Parsed;
    var more := Wire(log)[|b.stream|..];
    assert Wire(log) == b.stream + more;
    ParsedExtends(b.stream, b.consumed, b.lost + b.reader.data, more);
    ParsedIsLog(log, b.consumed, b.lost + b.reader.data + more);
    DataPrefix(Messages(log), |b.consumed|);
    assert |b.consumed| == |log| ==> Messages(log)[..|b.consumed|] == Messages(log);
  }

  /**
   Whatever part of one end's frames has reached the other end, and however both ends were used:
   the reader has seen the writer's messages in order, and the bytes it handed out or holds are a
   prefix of the bytes passed to the writer's Write.
   */
  lemma Delivery(a: Conn, b: Conn, inFlight: seq<byte>)
    requires a.Valid() && b.Valid() && Sendable(a.written)
    requires a.raw.received + inFlight == a.base + Wire(a.written)
    requires b.stream <= a.raw.received[|a.base|..]
    ensures |b.consumed| <= |a.written| && b.consumed == Messages(a.written)[..|b.consumed|]
    ensures b.delivered + b.buf[b.bufOff..b.bufLen] <= a.offered
    ensures |b.consumed| == |a.written| ==> b.delivered + b.buf[b.bufOff..b.bufLen] == a.offered
  {
    hide FrameBytes, ParseFrame, Wire, DataOf, PayloadsOf, Parsed;
    var wire := Wire(a.written);
    assert wire == (a.raw.received + inFlight)[|a.base|..] == a.raw.received[|a.base|..] + inFlight;
    Received(b, a.written);
  }
}
