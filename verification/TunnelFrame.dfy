/**
 The length-prefixed, authenticated frames of webtransport_tunnel.ts, read from a stream that arrives
 in chunks. readExact throws away the part of a chunk it has no room for.
 */
module TunnelFrame {
  import opened Bytes

  const HEADER: nat := 36
  const MAX_PAYLOAD: nat := 1_048_576

  /** HMAC-SHA256 under the shared key, whatever it computes. */
  type Mac = seq<byte> -> seq<byte>

  ghost predicate Proper(mac: Mac) {
    forall p :: |mac(p)| == 32
  }

  // ----- readExact -----

  /** What is gathered for `n` bytes, and the chunks not asked for. */
  function Fill(chunks: seq<seq<byte>>, n: nat): (r: (seq<byte>, seq<seq<byte>>))
    ensures |r.0| <= n && (|r.0| < n ==> r.1 == [])
  {
    if n == 0 || chunks == [] then ([], chunks)
    else
      var taken := if |chunks[0]| < n then chunks[0] else chunks[0][..n];
      var (more, rest) := Fill(chunks[1..], n - |taken|);
      (taken + more, rest)
  }

  /** null for nothing at all, otherwise all of it or what there was. */
  function Exact(filled: seq<byte>, n: nat): Option<seq<byte>> {
    if filled == [] && n > 0 then None else Some(filled)
  }

  lemma FillStep(chunks: seq<seq<byte>>, n: nat)
    ensures n == 0 || chunks == [] ==> Fill(chunks, n) == ([], chunks)
    ensures n > 0 && chunks != [] ==>
      var part := if |chunks[0]| < n then chunks[0][..|chunks[0]|] else chunks[0][..n];
      Fill(chunks, n) == (part + Fill(chunks[1..], n - |part|).0, Fill(chunks[1..], n - |part|).1)
  {
    if chunks != [] {
      assert chunks[0][..|chunks[0]|] == chunks[0];
    }
  }

  lemma Regroup(a: seq<byte>, b: seq<byte>, c: seq<byte>)
    ensures a + (b + c) == (a + b) + c
  {
  }

  class Reader {
    var chunks: seq<seq<byte>>

    constructor (chunks: seq<seq<byte>>)
      ensures this.chunks == chunks
    {
      this.chunks := chunks;
    }

    method Read() returns (value: seq<byte>, done: bool)
      modifies this
      ensures done == (old(chunks) == [])
      ensures !done ==> value == old(chunks)[0] && chunks == old(chunks)[1..]
      ensures done ==> chunks == []
    {
      if chunks == [] {
        return [], true;
      }
      value, done, chunks := chunks[0], false, chunks[1..];
    }

    method ReadExact(n: nat) returns (r: Option<seq<byte>>)
      modifies this
      ensures r == Exact(Fill(old(chunks), n).0, n) && chunks == Fill(old(chunks), n).1
    {
      hide Fill;
      var buf := new byte[n](_ => 0);
      var filled := 0;
      ghost var all := Fill(chunks, n);
      ghost var later := all.0;
      while filled < n
        invariant filled <= n && all.0 == buf[..filled] + later
        invariant (later, all.1) == Fill(chunks, n - filled)
        decreases |chunks|, n - filled
      {
        FillStep(chunks, n - filled);
        ghost var have := buf[..filled];
        var value, done := Read();
        if done {
          assert have + [] == have;
          return if filled == 0 then None else Some(buf[..filled]);
        }
        var toCopy := if |value| < n - filled then |value| else n - filled;
        Set(buf, filled, value[..toCopy]);
        ghost var part, behind := value[..toCopy], Fill(chunks, n - filled - toCopy).0;
        assert later == part + behind;
        Regroup(have, part, behind);
        filled, later := filled + toCopy, behind;
      }
      FillStep(chunks, n - filled);
      assert n - filled == 0 && later == [] && chunks == all.1;
      assert buf[..n] == buf[..] && buf[..] + [] == buf[..];
      return Some(buf[..]);
    }
  }

  /** Some chunk ends where the first `n` bytes of the stream end. */
  ghost predicate Aligned(chunks: seq<seq<byte>>, n: nat) {
    exists k :: 0 <= k <= |chunks| && |Concat(chunks[..k])| == n
  }

  lemma AlignedTail(chunks: seq<seq<byte>>, n: nat)
    requires chunks != [] && |chunks[0]| <= n
    ensures Aligned(chunks, n) && n > 0 ==> Aligned(chunks[1..], n - |chunks[0]|)
    ensures Aligned(chunks[1..], n - |chunks[0]|) ==> Aligned(chunks, n)
  {
    if Aligned(chunks, n) && n > 0 {
      var k :| 0 <= k <= |chunks| && |Concat(chunks[..k])| == n;
      assert k > 0 && chunks[..k][1..] == chunks[1..][..k - 1];
      assert |Concat(chunks[1..][..k - 1])| == n - |chunks[0]|;
    }
    if Aligned(chunks[1..], n - |chunks[0]|) {
      var k :| 0 <= k <= |chunks[1..]| && |Concat(chunks[1..][..k])| == n - |chunks[0]|;
      assert chunks[..k + 1][1..] == chunks[1..][..k];
      assert |Concat(chunks[..k + 1])| == n;
    }
  }

  lemma AlignedHead(chunks: seq<seq<byte>>, n: nat)
    requires chunks != [] && 0 < n < |chunks[0]|
    ensures !Aligned(chunks, n)
  {
    forall k | 0 <= k <= |chunks|
      ensures |Concat(chunks[..k])| != n
    {
      if k > 0 {
        assert chunks[..k][0] == chunks[0];
      }
    }
  }

  /**
   Reading `n` bytes that are there loses nothing exactly when they end with a chunk; otherwise the
   rest of the last chunk touched is gone.
   */
  lemma {:induction false} ReadLosesNothingIff(chunks: seq<seq<byte>>, n: nat)
    requires n <= |Concat(chunks)|
    ensures Fill(chunks, n).0 == Concat(chunks)[..n]
    ensures Fill(chunks, n).0 + Concat(Fill(chunks, n).1) == Concat(chunks) <==> Aligned(chunks, n)
    ensures n + |Concat(Fill(chunks, n).1)| == |Concat(chunks)| <==> Aligned(chunks, n)
    decreases |chunks|
  {
    var all := Concat(chunks);
    if n == 0 {
      assert chunks[..0] == [];
    } else if |chunks[0]| <= n {
      var m := n - |chunks[0]|;
      ReadLosesNothingIff(chunks[1..], m);
      AlignedTail(chunks, n);
      var (more, rest) := Fill(chunks[1..], m);
      assert Fill(chunks, n) == (chunks[0] + more, rest) by {
        assert chunks[0][..|chunks[0]|] == chunks[0];
      }
      assert all[..n] == chunks[0] + Concat(chunks[1..])[..m];
      SamePrefix(chunks[0], more + Concat(rest), Concat(chunks[1..]));
      assert chunks[0] + (more + Concat(rest)) == (chunks[0] + more) + Concat(rest);
    } else {
      AlignedHead(chunks, n);
      assert Fill(chunks, n) == (chunks[0][..n] + [], chunks[1..]);
      assert all[..n] == chunks[0][..n];
      assert |Concat(Fill(chunks, n).1)| == |all| - |chunks[0]|;
    }
  }

  /** What is left: the chunks behind the first that together hold `n` bytes, or none. */
  lemma {:induction false} RestIsBehind(chunks: seq<seq<byte>>, n: nat) returns (k: nat)
    ensures k <= |chunks| && Fill(chunks, n).1 == chunks[k..]
    ensures k < |chunks| ==> |Concat(chunks[..k])| >= n
    ensures k > 0 ==> |Concat(chunks[..k - 1])| < n
    decreases |chunks|
  {
    if n == 0 || chunks == [] {
      k := 0;
    } else {
      var m := n - if |chunks[0]| < n then |chunks[0]| else n;
      var later := RestIsBehind(chunks[1..], m);
      k := later + 1;
      assert chunks[..k][1..] == chunks[1..][..later] && chunks[..k][0] == chunks[0];
      if later > 0 {
        assert chunks[..later][1..] == chunks[1..][..later - 1] && chunks[..later][0] == chunks[0];
      }
    }
  }

  lemma SamePrefix(p: seq<byte>, x: seq<byte>, y: seq<byte>)
    ensures p + x == p + y <==> x == y
  {
    assert x == (p + x)[|p|..];
    assert y == (p + y)[|p|..];
  }

  /** After an aligned read the later chunk ends are where they were. */
  lemma {:induction false} AlignedAfter(chunks: seq<seq<byte>>, n: nat, later: nat)
    requires n <= |Concat(chunks)| && Aligned(chunks, n) && Aligned(chunks, n + later)
    ensures Aligned(Fill(chunks, n).1, later)
    decreases |chunks|
  {
    if n > 0 {
      if |chunks[0]| > n {
        AlignedHead(chunks, n);
      } else {
        AlignedTail(chunks, n);
        AlignedTail(chunks, n + later);
        assert chunks[0][..|chunks[0]|] == chunks[0];
        AlignedAfter(chunks[1..], n - |chunks[0]|, later);
      }
    }
  }

  /** And an end aligned afterwards was aligned before. */
  lemma {:induction false} AlignedBefore(chunks: seq<seq<byte>>, n: nat, later: nat)
    requires n <= |Concat(chunks)| && Aligned(chunks, n) && Aligned(Fill(chunks, n).1, later)
    ensures Aligned(chunks, n + later)
    decreases |chunks|
  {
    if n > 0 {
      if |chunks[0]| > n {
        AlignedHead(chunks, n);
      } else {
        AlignedTail(chunks, n);
        AlignedTail(chunks, n + later);
        assert chunks[0][..|chunks[0]|] == chunks[0];
        AlignedBefore(chunks[1..], n - |chunks[0]|, later);
      }
    }
  }

  /** No read leaves more than there was. */
  lemma {:induction false} FillCosts(chunks: seq<seq<byte>>, n: nat)
    ensures |Fill(chunks, n).0| + |Concat(Fill(chunks, n).1)| <= |Concat(chunks)|
    decreases |chunks|
  {
    if n > 0 && chunks != [] {
      FillCosts(chunks[1..], n - if |chunks[0]| < n then |chunks[0]| else n);
    }
  }

  // ----- Frames -----

  function HeaderBytes(mac: Mac, payload: seq<byte>): seq<byte> {
    BeBytes(|payload|, 4) + mac(payload)
  }

  /** encodeFrame: length, HMAC, payload. */
  method EncodeFrame(payload: seq<byte>, mac: Mac) returns (frame: seq<byte>)
    requires |mac(payload)| == 32
    ensures frame == HeaderBytes(mac, payload) + payload
  {
    var a := new byte[HEADER + |payload|](_ => 0);
    var len, tag := BeBytes(|payload|, 4), mac(payload);
    Set(a, 0, len);
    Set(a, 4, tag);
    assert a[..4] == len;
    Set(a, 36, payload);
    assert a[..] == a[..4] + a[4..36] + a[36..];
    frame := a[..];
  }

  /** Uint8Array.set. */
  method Set(a: array<byte>, at: nat, part: seq<byte>)
    requires at + |part| <= a.Length
    modifies a
    ensures a[..at] == old(a[..at]) && a[at..at + |part|] == part
    ensures a[..at + |part|] == old(a[..at]) + part
    ensures a[at + |part|..] == old(a[at + |part|..])
  {
    for i := 0 to |part|
      invariant a[..at] == old(a[..at]) && a[at..at + i] == part[..i]
      invariant a[at + |part|..] == old(a[at + |part|..])
    {
      a[at + i] := part[i];
    }
    assert a[..at + |part|] == a[..at] + a[at..at + |part|];
  }

  datatype Decoded = Payload(bytes: seq<byte>) | Null | Thrown

  /** decodeFrame on a chunked stream: its outcome and the chunks left. */
  function Decode(mac: Mac, chunks: seq<seq<byte>>): (Decoded, seq<seq<byte>>) {
    var (header, rest) := Fill(chunks, HEADER);
    if header == [] then (Null, rest)
    else if |header| < 4 then (Thrown, rest)
    else
      var length := BeValue(header[..4]);
      if length > MAX_PAYLOAD then (Thrown, rest)
      else
        var (payload, behind) := Fill(rest, length);
        if payload == [] && length > 0 then (Null, behind)
        else if header[4..] == mac(payload) then (Payload(payload), behind)
        else (Thrown, behind)
  }

  method DecodeFrame(reader: Reader, mac: Mac) returns (r: Decoded)
    modifies reader
    ensures (r, reader.chunks) == Decode(mac, old(reader.chunks))
  {
    var header := reader.ReadExact(HEADER);
    if header == None { return Null; }
    if |header.value| < 4 { return Thrown; }
    var payloadLen := BeValue(header.value[..4]);
    if payloadLen > MAX_PAYLOAD { return Thrown; }
    var receivedMac := header.value[4..];
    var payload := reader.ReadExact(payloadLen);
    if payload == None { return Null; }
    var same := TimingSafeEqual(receivedMac, mac(payload.value));
    if !same { return Thrown; }
    return Payload(payload.value);
  }

  /** The differences of all byte pairs are gathered before the verdict. */
  method TimingSafeEqual(a: seq<byte>, b: seq<byte>) returns (same: bool)
    ensures same == (a == b)
  {
    if |a| != |b| {
      return false;
    }
    var result := false;
    for i := 0 to |a|
      invariant result <==> a[..i] != b[..i]
    {
      assert a[..i + 1] == a[..i] + [a[i]] && b[..i + 1] == b[..i] + [b[i]];
      result := result || a[i] != b[i];
    }
    assert a[..|a|] == a && b[..|a|] == b;
    return !result;
  }

  // ----- Whole streams -----

  function Frames(mac: Mac, ps: seq<seq<byte>>): seq<byte> {
    if ps == [] then [] else HeaderBytes(mac, ps[0]) + (ps[0] + Frames(mac, ps[1..]))
  }

  /** A chunk ends at the end of every header and of every payload. */
  ghost predicate AlignedFrames(chunks: seq<seq<byte>>, ps: seq<seq<byte>>, from: nat) {
    ps == [] || (
      && Aligned(chunks, from + HEADER) && Aligned(chunks, from + HEADER + |ps[0]|)
      && AlignedFrames(chunks, ps[1..], from + HEADER + |ps[0]|))
  }

  /** The payloads that repeated decoding yields before it stops, and how it stops. */
  function DecodeMany(mac: Mac, chunks: seq<seq<byte>>, n: nat): (seq<seq<byte>>, Decoded)
    decreases n
  {
    var (r, rest) := Decode(mac, chunks);
    if !r.Payload? then ([], r)
    else if n == 0 then ([], r)
    else
      var (more, last) := DecodeMany(mac, rest, n - 1);
      ([r.bytes] + more, last)
  }

  lemma {:induction false} AlignedFramesAfter(chunks: seq<seq<byte>>, ps: seq<seq<byte>>, n: nat, from: nat)
    requires n <= |Concat(chunks)| && Aligned(chunks, n) && AlignedFrames(chunks, ps, n + from)
    ensures AlignedFrames(Fill(chunks, n).1, ps, from)
    decreases ps
  {
    hide Fill, Aligned;
    if ps != [] {
      AlignedAfter(chunks, n, from + HEADER);
      AlignedAfter(chunks, n, from + HEADER + |ps[0]|);
      AlignedFramesAfter(chunks, ps[1..], n, from + HEADER + |ps[0]|);
    }
  }

  lemma HeaderReads(mac: Mac, payload: seq<byte>)
    requires Proper(mac) && |payload| <= MAX_PAYLOAD
    ensures var h := HeaderBytes(mac, payload);
      |h| == HEADER && BeValue(h[..4]) == |payload| && h[4..] == mac(payload)
  {
    assert Pow256(2) == 65536;
    BeValueOfBytes(|payload|, 4);
    assert HeaderBytes(mac, payload)[..4] == BeBytes(|payload|, 4);
  }

  /** An aligned read of the first part of the stream leaves the second. */
  lemma ReadsPart(chunks: seq<seq<byte>>, part: seq<byte>, behind: seq<byte>)
    requires Concat(chunks) == part + behind && Aligned(chunks, |part|)
    ensures Fill(chunks, |part|).0 == part && Concat(Fill(chunks, |part|).1) == behind
  {
    hide Fill, Aligned;
    ReadLosesNothingIff(chunks, |part|);
    assert (part + behind)[..|part|] == part;
    SamePrefix(part, Concat(Fill(chunks, |part|).1), behind);
  }

  /** One frame off the front of an aligned stream. */
  lemma DecodesOne(mac: Mac, chunks: seq<seq<byte>>, ps: seq<seq<byte>>)
    requires Proper(mac) && ps != [] && |ps[0]| <= MAX_PAYLOAD
    requires Concat(chunks) == Frames(mac, ps) && AlignedFrames(chunks, ps, 0)
    ensures var (r, rest) := Decode(mac, chunks);
      r == Payload(ps[0]) && Concat(rest) == Frames(mac, ps[1..]) && AlignedFrames(rest, ps[1..], 0)
  {
    hide Fill, Aligned, Concat;
    var p := ps[0];
    HeaderReads(mac, p);
    ReadsPart(chunks, HeaderBytes(mac, p), p + Frames(mac, ps[1..]));
    AlignedAfter(chunks, HEADER, |p|);
    AlignedFramesAfter(chunks, ps[1..], HEADER, |p|);
    var rest := Fill(chunks, HEADER).1;
    ReadsPart(rest, p, Frames(mac, ps[1..]));
    AlignedFramesAfter(rest, ps[1..], |p|, 0);
  }

  lemma {:induction false} AlignedFramesBefore(chunks: seq<seq<byte>>, ps: seq<seq<byte>>, n: nat, from: nat)
    requires n <= |Concat(chunks)| && Aligned(chunks, n) && AlignedFrames(Fill(chunks, n).1, ps, from)
    ensures AlignedFrames(chunks, ps, n + from)
    decreases ps
  {
    hide Fill, Aligned;
    if ps != [] {
      AlignedBefore(chunks, n, from + HEADER);
      AlignedBefore(chunks, n, from + HEADER + |ps[0]|);
      AlignedFramesBefore(chunks, ps[1..], n, from + HEADER + |ps[0]|);
    }
  }

  /** Every payload decoded has used up a whole header besides itself. */
  lemma PayloadCosts(mac: Mac, chunks: seq<seq<byte>>)
    requires Proper(mac)
    ensures var (r, rest) := Decode(mac, chunks);
      r.Payload? ==>
        var (header, middle) := Fill(chunks, HEADER);
        && |header| == HEADER && HEADER + |Concat(middle)| <= |Concat(chunks)|
        && |r.bytes| + |Concat(rest)| <= |Concat(middle)|
  {
    hide Fill, Concat, BeValue;
    FillCosts(chunks, HEADER);
    var (header, middle) := Fill(chunks, HEADER);
    if |header| >= 4 {
      FillCosts(middle, BeValue(header[..4]));
    }
  }

  lemma {:induction false} PayloadsCost(mac: Mac, chunks: seq<seq<byte>>, n: nat)
    requires Proper(mac)
    ensures |Frames(mac, DecodeMany(mac, chunks, n).0)| <= |Concat(chunks)|
    decreases n
  {
    hide Decode, Concat, Fill;
    PayloadCosts(mac, chunks);
    var (r, rest) := Decode(mac, chunks);
    if r.Payload? && n > 0 {
      PayloadsCost(mac, rest, n - 1);
      var (more, last) := DecodeMany(mac, rest, n - 1);
      assert ([r.bytes] + more)[1..] == more;
    }
  }

  /** A first frame decoded with nothing lost on the way ended its header and its payload with a chunk. */
  lemma AlignedOne(mac: Mac, chunks: seq<seq<byte>>, ps: seq<seq<byte>>)
    requires Proper(mac) && ps != [] && |ps[0]| <= MAX_PAYLOAD
    requires Concat(chunks) == Frames(mac, ps)
    requires Decode(mac, chunks).0 == Payload(ps[0])
    requires |Frames(mac, ps[1..])| <= |Concat(Decode(mac, chunks).1)|
    ensures Aligned(chunks, HEADER)
    ensures var middle := Fill(chunks, HEADER).1;
      && |ps[0]| <= |Concat(middle)| && Aligned(middle, |ps[0]|)
      && Decode(mac, chunks).1 == Fill(middle, |ps[0]|).1
    ensures Concat(Decode(mac, chunks).1) == Frames(mac, ps[1..])
  {
    hide Fill, Concat, Aligned;
    var p, more := ps[0], Frames(mac, ps[1..]);
    HeaderReads(mac, p);
    PayloadCosts(mac, chunks);
    ReadLosesNothingIff(chunks, HEADER);
    ReadsPart(chunks, HeaderBytes(mac, p), p + more);
    var middle := Fill(chunks, HEADER).1;
    ReadLosesNothingIff(middle, |p|);
    ReadsPart(middle, p, more);
  }

  lemma AlignedWithRest(chunks: seq<seq<byte>>, ps: seq<seq<byte>>)
    requires ps != [] && HEADER <= |Concat(chunks)| && Aligned(chunks, HEADER)
    requires var middle := Fill(chunks, HEADER).1;
      && |ps[0]| <= |Concat(middle)| && Aligned(middle, |ps[0]|)
      && AlignedFrames(Fill(middle, |ps[0]|).1, ps[1..], 0)
    ensures AlignedFrames(chunks, ps, 0)
  {
    hide Fill, Concat, Aligned;
    AlignedFramesBefore(Fill(chunks, HEADER).1, ps[1..], |ps[0]|, 0);
    AlignedFramesBefore(chunks, ps[1..], HEADER, |ps[0]|);
    AlignedBefore(chunks, HEADER, |ps[0]|);
  }

  lemma FirstOfMany(mac: Mac, chunks: seq<seq<byte>>, ps: seq<seq<byte>>)
    requires ps != [] && DecodeMany(mac, chunks, |ps|).0 == ps
    ensures var (r, rest) := Decode(mac, chunks);
      r == Payload(ps[0]) && DecodeMany(mac, rest, |ps| - 1).0 == ps[1..]
  {
    hide Decode;
  }

  /** Nothing less will do. */
  lemma {:induction false} InOrderIsAligned(mac: Mac, chunks: seq<seq<byte>>, ps: seq<seq<byte>>)
    requires Proper(mac) && forall i :: 0 <= i < |ps| ==> |ps[i]| <= MAX_PAYLOAD
    requires Concat(chunks) == Frames(mac, ps) && DecodeMany(mac, chunks, |ps|).0 == ps
    ensures AlignedFrames(chunks, ps, 0)
    decreases ps
  {
    if ps != [] {
      hide Decode, DecodeMany, Fill, Concat, Aligned, AlignedFrames, Frames, Proper;
      FirstOfMany(mac, chunks, ps);
      var rest := Decode(mac, chunks).1;
      PayloadsCost(mac, rest, |ps| - 1);
      PayloadCosts(mac, chunks);
      AlignedOne(mac, chunks, ps);
      InOrderIsAligned(mac, rest, ps[1..]);
      AlignedWithRest(chunks, ps);
    }
  }

  /** Aligned chunks, cut as they may be in between: every payload in order, keepalives included, then null. */
  lemma {:induction false} DecodesInOrder(mac: Mac, chunks: seq<seq<byte>>, ps: seq<seq<byte>>)
    requires Proper(mac) && forall i :: 0 <= i < |ps| ==> |ps[i]| <= MAX_PAYLOAD
    requires Concat(chunks) == Frames(mac, ps) && AlignedFrames(chunks, ps, 0)
    ensures DecodeMany(mac, chunks, |ps|) == (ps, Null)
    decreases ps
  {
    if ps == [] {
      NothingToFill(chunks, HEADER);
    } else {
      hide Decode, AlignedFrames, Frames;
      DecodesOne(mac, chunks, ps);
      DecodesInOrder(mac, Decode(mac, chunks).1, ps[1..]);
      assert ps == [ps[0]] + ps[1..];
    }
  }

  lemma {:induction false} NothingToFill(chunks: seq<seq<byte>>, n: nat)
    requires Concat(chunks) == []
    ensures Fill(chunks, n).0 == []
    decreases |chunks|
  {
    if n > 0 && chunks != [] {
      NothingToFill(chunks[1..], n);
    }
  }

  /**
   Whatever the chunks of the stream: repeated decoding gives every payload in order, keepalives
   included, and then null, exactly when a chunk ends at the end of every header and of every payload.
   */
  lemma DecodesInOrderIff(mac: Mac, chunks: seq<seq<byte>>, ps: seq<seq<byte>>)
    requires Proper(mac) && forall i :: 0 <= i < |ps| ==> |ps[i]| <= MAX_PAYLOAD
    requires Concat(chunks) == Frames(mac, ps)
    ensures DecodeMany(mac, chunks, |ps|) == (ps, Null) <==> AlignedFrames(chunks, ps, 0)
  {
    hide DecodeMany, AlignedFrames;
    if AlignedFrames(chunks, ps, 0) {
      DecodesInOrder(mac, chunks, ps);
    } else if DecodeMany(mac, chunks, |ps|) == (ps, Null) {
      InOrderIsAligned(mac, chunks, ps);
    }
  }

  /** A message that arrives as a single chunk, as the WebSocket path passes it, is decoded iff it is empty. */
  lemma SingleChunkDecodesIff(mac: Mac, payload: seq<byte>)
    requires Proper(mac) && |payload| <= MAX_PAYLOAD
    ensures Decode(mac, [HeaderBytes(mac, payload) + payload]).0
      == (if payload == [] then Payload([]) else Null)
  {
    HeaderReads(mac, payload);
    var h := HeaderBytes(mac, payload);
    var chunk := h + payload;
    assert chunk[..HEADER] == h && h + [] == h;
    var chunks: seq<seq<byte>> := [chunk];
    assert chunks[1..] == [];
    assert Fill(chunks, HEADER).0 == h && Fill(chunks, HEADER).1 == [];
  }

  // ----- Authenticity -----

  /** Nothing is delivered that did not come with its own tag, right behind the first four bytes of the stream. */
  lemma PayloadIsAuthentic(mac: Mac, chunks: seq<seq<byte>>)
    requires Proper(mac) && Decode(mac, chunks).0.Payload?
    ensures |Concat(chunks)| >= 36
    ensures Concat(chunks)[4..36] == mac(Decode(mac, chunks).0.bytes)
  {
    hide Fill, Concat, BeValue, Aligned;
    PayloadCosts(mac, chunks);
    ReadLosesNothingIff(chunks, HEADER);
  }

  /** A whole, aligned frame under any tag is delivered if the tag is the payload's, and thrown out otherwise. */
  lemma TagDecides(mac: Mac, chunks: seq<seq<byte>>, tag: seq<byte>, payload: seq<byte>, behind: seq<byte>)
    requires Proper(mac) && |tag| == 32 && |payload| <= 1_048_576
    requires Concat(chunks) == BeBytes(|payload|, 4) + tag + (payload + behind)
    requires Aligned(chunks, 36) && Aligned(chunks, 36 + |payload|)
    ensures Decode(mac, chunks).0 == if tag == mac(payload) then Payload(payload) else Thrown
    ensures Concat(Decode(mac, chunks).1) == behind
  {
    hide Fill, Concat, Aligned, BeValue, BeBytes;
    var header := BeBytes(|payload|, 4) + tag;
    assert header[..4] == BeBytes(|payload|, 4) && header[4..] == tag;
    LengthReads(|payload|);
    ReadsPart(chunks, header, payload + behind);
    AlignedAfter(chunks, 36, |payload|);
    ReadsPart(Fill(chunks, 36).1, payload, behind);
  }

  lemma LengthReads(n: nat)
    requires n < 0x1_0000_0000
    ensures BeValue(BeBytes(n, 4)) == n
  {
    assert Pow256(2) == 65536 && Pow256(4) == 0x1_0000_0000;
    BeValueOfBytes(n, 4);
  }

  /** A frame that announces more than a mebibyte is thrown out, whatever follows. */
  lemma TooLongIsThrown(mac: Mac, chunks: seq<seq<byte>>, length: nat, behind: seq<byte>)
    requires 1_048_576 < length < 0x1_0000_0000 && Concat(chunks) == BeBytes(length, 4) + behind
    ensures Decode(mac, chunks).0 == Thrown
  {
    hide Fill, Concat, Aligned, BeValue, BeBytes;
    LengthReads(length);
    FillIsFront(chunks, HEADER);
    var header := Fill(chunks, HEADER).0;
    assert header[..4] == Concat(chunks)[..4] == BeBytes(length, 4);
  }

  /** A stream that ends inside the length is thrown out; one that ends inside or just behind the tag gives null. */
  lemma CutShort(mac: Mac, chunks: seq<seq<byte>>)
    requires 0 < |Concat(chunks)| <= 36
    ensures |Concat(chunks)| < 4 ==> Decode(mac, chunks).0 == Thrown
    ensures |Concat(chunks)| >= 4 && 1 <= BeValue(Concat(chunks)[..4]) <= 1_048_576 ==>
      Decode(mac, chunks).0 == Null
  {
    hide Concat, BeValue;
    FillIsFront(chunks, HEADER);
    var (header, rest) := Fill(chunks, HEADER);
    if |header| == HEADER {
      FillCosts(chunks, HEADER);
      NothingToFill(rest, BeValue(header[..4]));
    }
  }

  /** What is gathered is the front of the stream: all of it when the stream is shorter. */
  lemma {:induction false} FillIsFront(chunks: seq<seq<byte>>, n: nat)
    ensures Fill(chunks, n).0 == if |Concat(chunks)| <= n then Concat(chunks) else Concat(chunks)[..n]
    decreases |chunks|
  {
    if n > 0 && chunks != [] {
      var taken := if |chunks[0]| < n then chunks[0] else chunks[0][..n];
      FillIsFront(chunks[1..], n - |taken|);
    }
  }
}
