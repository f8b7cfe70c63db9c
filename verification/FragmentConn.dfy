/**
 The connection wrapper of sni_fragment.go: the first ClientHello written through it goes out in
 several segments, everything else as it is.
 */
module FragmentConn {
  import opened Bytes
  import opened RawConn
  import opened Split
  import opened ClientHello

  /** A TLS handshake record that carries a ClientHello. */
  predicate IsHello(b: seq<byte>) {
    |b| > 5 && b[0] == 0x16 && b[5] == 1
  }

  /** Every byte passed to Write, in order. */
  function Offered(writes: seq<seq<byte>>): seq<byte> {
    Concat(writes)
  }

  function IndexOfHello(writes: seq<seq<byte>>): Option<nat> {
    if writes == [] then None
    else if IsHello(writes[0]) then Some(0)
    else
      match IndexOfHello(writes[1..])
      case None => None
      case Some(i) => Some(i + 1)
  }

  /** The segments a run of writes should go out in: the first ClientHello cut, all else whole. */
  function Plan(writes: seq<seq<byte>>, strategy: string): seq<seq<byte>> {
    match IndexOfHello(writes)
    case None => writes
    case Some(i) =>
      IndexOfHelloIsHello(writes);
      writes[..i] + Chunks(writes[i], strategy) + writes[i + 1..]
  }

  lemma {:induction false} IndexOfHelloIsHello(writes: seq<seq<byte>>)
    ensures match IndexOfHello(writes)
      case None => forall i :: 0 <= i < |writes| ==> !IsHello(writes[i])
      case Some(i) => i < |writes| && IsHello(writes[i]) && forall k :: 0 <= k < i ==> !IsHello(writes[k])
  {
    if writes != [] {
      IndexOfHelloIsHello(writes[1..]);
      assert forall i :: 0 < i < |writes| ==> writes[i] == writes[1..][i - 1];
    }
  }

  lemma {:induction false} IndexOfHelloAppend(writes: seq<seq<byte>>, b: seq<byte>)
    ensures IndexOfHello(writes + [b]) ==
      if IndexOfHello(writes).Some? then IndexOfHello(writes) else if IsHello(b) then Some(|writes|) else None
  {
    if writes == [] {
      assert writes + [b] == [b] && [b][1..] == [];
    } else {
      assert (writes + [b])[1..] == writes[1..] + [b];
      IndexOfHelloAppend(writes[1..], b);
    }
  }

  lemma PlanAppend(writes: seq<seq<byte>>, b: seq<byte>, strategy: string)
    ensures Plan(writes + [b], strategy) == Plan(writes, strategy) +
      if IndexOfHello(writes).None? && IsHello(b) then Chunks(b, strategy) else [b]
  {
    hide Chunks, IndexOfHello, IsHello;
    IndexOfHelloAppend(writes, b);
    IndexOfHelloIsHello(writes);
    if IndexOfHello(writes).Some? {
      var i := IndexOfHello(writes).value;
      ReplacedBeforeEnd(writes, i, Chunks(writes[i], strategy), b);
    } else if IsHello(b) {
      ReplacedAtEnd(writes, Chunks(b, strategy), b);
    }
  }

  lemma ReplacedBeforeEnd<T>(xs: seq<T>, i: nat, part: seq<T>, x: T)
    requires i < |xs|
    ensures (xs + [x])[i] == xs[i]
    ensures (xs + [x])[..i] + part + (xs + [x])[i + 1..] == xs[..i] + part + xs[i + 1..] + [x]
  {
    assert (xs + [x])[..i] == xs[..i];
    assert (xs + [x])[i + 1..] == xs[i + 1..] + [x];
  }

  lemma ReplacedAtEnd<T>(xs: seq<T>, part: seq<T>, x: T)
    ensures (xs + [x])[|xs|] == x
    ensures (xs + [x])[..|xs|] + part + (xs + [x])[|xs| + 1..] == xs + part
  {
    assert (xs + [x])[..|xs|] == xs;
  }

  /** Cutting changes the segments, not the bytes. */
  lemma PlanKeepsBytes(writes: seq<seq<byte>>, strategy: string)
    ensures Concat(Plan(writes, strategy)) == Offered(writes)
  {
    hide Chunks, IndexOfHello, IsHello;
    IndexOfHelloIsHello(writes);
    if IndexOfHello(writes).Some? {
      var i := IndexOfHello(writes).value;
      ChunksJoin(writes[i], strategy);
      ConcatAppend(writes[..i] + Chunks(writes[i], strategy), writes[i + 1..]);
      ConcatAppend(writes[..i], Chunks(writes[i], strategy));
      assert writes == writes[..i] + writes[i..];
      ConcatAppend(writes[..i], writes[i..]);
      assert writes[i..] == [writes[i]] + writes[i + 1..];
    }
  }

  class Wrapper {
    const conn: Conn
    const strategy: string
    var fragmented: bool
    ghost const base: seq<byte>
    ghost const baseSegments: seq<seq<byte>>
    /** The writes so far, and whether one of them failed. */
    ghost var writes: seq<seq<byte>>
    ghost var failed: bool

    ghost predicate Valid()
      reads this, conn
    {
      && fragmented == IndexOfHello(writes).Some?
      && base <= conn.received <= base + Offered(writes)
      && (failed ==> conn.room == 0)
      && (!failed ==>
           && conn.received == base + Offered(writes)
           && conn.segments == baseSegments + Plan(writes, strategy))
    }

    constructor (conn: Conn, strategy: string)
      ensures Valid() && this.conn == conn && this.strategy == strategy
      ensures base == conn.received && baseSegments == conn.segments && writes == [] && !failed
    {
      this.conn, this.strategy := conn, strategy;
      fragmented := false;
      base, baseSegments := conn.received, conn.segments;
      writes, failed := [], false;
    }

    method Write(b: seq<byte>) returns (n: nat, ok: bool)
      requires Valid()
      modifies this, conn
      ensures Valid() && writes == old(writes) + [b] && failed == (old(failed) || !ok)
      ensures ok == (|b| <= old(conn.room))
      ensures ok ==> n == |b| && conn.received == old(conn.received) + b
      ensures !ok ==> conn.room == 0 && conn.received == old(conn.received) + b[..old(conn.room)]
      ensures !ok ==> n == if !old(fragmented) && IsHello(b) then 0 else old(conn.room)
    {
      hide Chunks, Plan, IndexOfHello;
      ghost var before := writes;
      IndexOfHelloAppend(before, b);
      PlanAppend(before, b, strategy);
      OfferedAppend(before, b);
      if !fragmented && IsHello(b) {
        fragmented := true;
        n, ok := FragmentWrite(conn, b, strategy);
      } else {
        n, ok := conn.Write(b);
        assert !ok ==> conn.received <= base + Offered(before) + b;
      }
      writes := writes + [b];
      failed := failed || !ok;
    }
  }

  lemma OfferedAppend(writes: seq<seq<byte>>, b: seq<byte>)
    ensures Offered(writes + [b]) == Offered(writes) + b
  {
    ConcatAppend(writes, [b]);
    assert Concat([b]) == b + Concat([]) == b;
  }

  /** fragmentWrite, without the pause between segments. */
  method FragmentWrite(conn: Conn, data: seq<byte>, strategy: string) returns (n: nat, ok: bool)
    modifies conn
    ensures ok == (|data| <= old(conn.room))
    ensures ok ==> n == |data| && conn.received == old(conn.received) + data
    ensures ok ==> conn.segments == old(conn.segments) + Chunks(data, strategy)
    ensures !ok ==> n == 0 && conn.room == 0 && conn.received == old(conn.received) + data[..old(conn.room)]
    ensures ok ==> conn.room == old(conn.room) - |data|
  {
    hide Chunks, Concat;
    var chunks := SplitClientHello(data, strategy);
    assert chunks[..0] == [];
    NoBytes();
    ChunksJoin(data, strategy);
    var i := 0;
    while i < |chunks|
      invariant i <= |chunks|
      invariant |Concat(chunks[..i])| <= old(conn.room)
      invariant conn.received == old(conn.received) + Concat(chunks[..i])
      invariant conn.room == old(conn.room) - |Concat(chunks[..i])|
      invariant conn.segments == old(conn.segments) + chunks[..i]
    {
      assert chunks[..i + 1] == chunks[..i] + [chunks[i]];
      OfferedAppend(chunks[..i], chunks[i]);
      PartOfWhole(chunks, i);
      ghost var done, room := Concat(chunks[..i]), conn.room;
      var _, accepted := conn.Write(chunks[i]);
      if !accepted {
        assert done + chunks[i][..room] == data[..old(conn.room)];
        return 0, false;
      }
      i := i + 1;
    }
    assert chunks[..|chunks|] == chunks;
    return |data|, true;
  }

  lemma NoBytes()
    ensures Concat([]) == []
  {
  }

  lemma PartOfWhole(chunks: seq<seq<byte>>, i: nat)
    requires i < |chunks|
    ensures Concat(chunks[..i]) + chunks[i] <= Concat(chunks)
  {
    assert chunks == chunks[..i] + chunks[i..];
    ConcatAppend(chunks[..i], chunks[i..]);
    assert chunks[i..][0] == chunks[i];
  }

  /** At most one write of a run is cut, and it is the first ClientHello. */
  lemma OneWriteIsCut(writes: seq<seq<byte>>, strategy: string)
    ensures match IndexOfHello(writes)
      case None => Plan(writes, strategy) == writes
      case Some(i) =>
        && i < |writes| && IsHello(writes[i])
        && exists chunks ::
             && Plan(writes, strategy) == writes[..i] + chunks + writes[i + 1..]
             && Concat(chunks) == writes[i]
             && (strategy == "multi" ==> forall k :: 0 <= k < |chunks| ==> 1 <= |chunks[k]| <= 24)
             && (strategy != "multi" ==> |chunks| == 2)
  {
    hide Pieces, Concat, SniCut, IsHello, IndexOfHello;
    IndexOfHelloIsHello(writes);
    if IndexOfHello(writes).Some? {
      var b := writes[IndexOfHello(writes).value];
      ChunksJoin(b, strategy);
      PiecesShape(b, 24);
    }
  }

  /** Every well-formed ClientHello is taken for one. */
  lemma HelloIsRecognised(h: Hello)
    requires h.Proper()
    ensures IsHello(h.Wire())
  {
    hide ExtensionsWire;
    var data := h.Wire();
    assert |data| >= 49;
    assert data[0] == h.headers[0] && data[5] == h.headers[5];
  }

  /** Writes that are no handshake record (type 22) with a ClientHello (type 1) go out as they are. */
  lemma OtherWritesAreWhole(writes: seq<seq<byte>>, strategy: string)
    requires forall i :: 0 <= i < |writes| ==> |writes[i]| <= 5 || writes[i][0] != 22 || writes[i][5] != 1
    ensures Plan(writes, strategy) == writes
  {
    IndexOfHelloIsHello(writes);
  }

  lemma {:induction false} FirstHelloIs(before: seq<seq<byte>>, b: seq<byte>, more: seq<seq<byte>>)
    requires IsHello(b) && forall i :: 0 <= i < |before| ==> !IsHello(before[i])
    ensures IndexOfHello(before + [b] + more) == Some(|before|)
  {
    hide IsHello;
    var all := before + [b] + more;
    if before == [] {
      assert all[0] == b;
    } else {
      assert all[0] == before[0] && all[1..] == before[1..] + [b] + more;
      FirstHelloIs(before[1..], b, more);
    }
  }

  /**
   Under "sni_split" the first ClientHello of a run of writes goes out in two segments, the first of
   which ends strictly inside the host of its first server name; all other writes are whole.
   */
  lemma HostIsCutInPlan(before: seq<seq<byte>>, h: Hello, more: seq<seq<byte>>, i: nat)
    requires h.Proper() && FirstServerName(h.extensions) == Some(i) && h.extensions[i].HostLength() >= 2
    requires IndexOfHello(before) == None
    ensures var plan, k, at := Plan(before + [h.Wire()] + more, "sni_split"), |before|, HostPosition(h, i);
      && |plan| == k + 2 + |more| && plan[..k] == before && plan[k + 2..] == more
      && plan[k] + plan[k + 1] == h.Wire()
      && at < |plan[k]| < at + h.extensions[i].HostLength()
  {
    hide Chunks, Hello.Wire, HostPosition, IsHello, IndexOfHello, Concat;
    var all, k := before + [h.Wire()] + more, |before|;
    HelloIsRecognised(h);
    IndexOfHelloIsHello(before);
    FirstHelloIs(before, h.Wire(), more);
    HelloIsCutInHost(h, i);
    var chunks := Chunks(h.Wire(), "sni_split");
    ChunksJoin(h.Wire(), "sni_split");
    TwoJoin(chunks);
    assert all[k] == h.Wire() && all[..k] == before && all[k + 1..] == more;
    assert Plan(all, "sni_split") == before + chunks + more;
  }

  lemma TwoJoin(chunks: seq<seq<byte>>)
    requires |chunks| == 2
    ensures Concat(chunks) == chunks[0] + chunks[1]
  {
    var later := chunks[1..];
    assert later[1..] == [] && Concat(later) == later[0] + Concat(later[1..]);
  }
}
