/**
 The service info that NanBridge.kt publishes: a key and as many endpoints as 255 bytes hold. Text is
 ASCII here, so that a byte is a character.
 */
module ServiceInfo {
  import opened Bytes
  import opened Split

  const MAX_LENGTH: nat := 255
  const VERSION: byte := 1
  const MAX_KEY: nat := 64 + 32
  const NUL: byte := 0

  /** Kotlin's Char.isWhitespace on ASCII. */
  predicate IsSpace(c: byte) {
    9 <= c <= 13 || 28 <= c <= 32
  }

  predicate IsBlank(s: seq<byte>) {
    forall i :: 0 <= i < |s| ==> IsSpace(s[i])
  }

  function DropBlank(pieces: seq<seq<byte>>): seq<seq<byte>> {
    if pieces == [] then []
    else (if IsBlank(pieces[0]) then [] else [pieces[0]]) + DropBlank(pieces[1..])
  }

  function Front(s: seq<byte>, n: nat): (r: seq<byte>)
    ensures r <= s && |r| == if |s| <= n then |s| else n
  {
    if |s| <= n then s else s[..n]
  }

  // ----- Building and parsing -----

  /** What fits; None where ByteBuffer.put overflows on the key. */
  function Built(key: seq<byte>, endpoints: seq<seq<byte>>): Option<seq<byte>> {
    if 2 + |key| > MAX_LENGTH then None
    else Some([VERSION, |key|] + key + Front(JoinWith(NUL, endpoints), MAX_LENGTH - 2 - |key|))
  }

  method BuildServiceInfo(key: seq<byte>, endpoints: seq<seq<byte>>) returns (info: Option<seq<byte>>)
    ensures info == Built(key, endpoints)
  {
    var buffer := new byte[MAX_LENGTH](_ => 0);
    var position := 0;
    buffer[position] := VERSION;
    position := position + 1;
    buffer[position] := Low8(|key|);
    position := position + 1;
    if position + |key| > MAX_LENGTH {
      return None;
    }
    assert buffer[..position] == [VERSION, |key|];
    position := Put(buffer, position, key);
    var bytes := JoinWith(NUL, endpoints);
    var remaining := MAX_LENGTH - position;
    if |bytes| <= remaining {
      position := Put(buffer, position, bytes);
    } else {
      position := Put(buffer, position, bytes[..remaining]);
    }
    return Some(buffer[..position]);
  }

  /** ByteBuffer.put: writes at the position and moves it. */
  method Put(buffer: array<byte>, position: nat, part: seq<byte>) returns (moved: nat)
    requires position + |part| <= buffer.Length
    modifies buffer
    ensures moved == position + |part| && buffer[..moved] == old(buffer[..position]) + part
  {
    for i := 0 to |part|
      invariant buffer[..position + i] == old(buffer[..position]) + part[..i]
    {
      buffer[position + i] := part[i];
    }
    assert part[..|part|] == part;
    moved := position + |part|;
  }

  datatype Parsed = Parsed(key: seq<byte>, endpoints: seq<seq<byte>>)

  method ParseServiceInfo(data: seq<byte>) returns (r: Option<Parsed>)
    ensures r == ParsedFrom(data)
  {
    if |data| < 3 {
      return None;
    }
    var position := 0;
    var version := data[position];
    position := position + 1;
    if version != VERSION {
      return None;
    }
    var keyLen: nat := data[position];
    position := position + 1;
    if keyLen > MAX_KEY {
      return None;
    }
    if |data| - position < keyLen {
      return None;
    }
    var key := data[position..position + keyLen];
    position := position + keyLen;
    var endpoints: seq<seq<byte>> := [];
    if position < |data| {
      endpoints := DropBlank(SplitOn(NUL, data[position..]));
    }
    return Some(Parsed(key, endpoints));
  }

  function ParsedFrom(data: seq<byte>): Option<Parsed> {
    if |data| < 3 || data[0] != VERSION || data[1] > MAX_KEY || |data| < 2 + data[1] as int then None
    else
      var end := 2 + data[1] as int;
      Some(Parsed(data[2..end], if end == |data| then [] else DropBlank(SplitOn(NUL, data[end..]))))
  }

  // ----- Laws -----

  predicate Publishable(endpoints: seq<seq<byte>>) {
    Free(NUL, endpoints) && forall i :: 0 <= i < |endpoints| ==> !IsBlank(endpoints[i])
  }

  lemma {:induction false} DropBlankAppend(pieces: seq<seq<byte>>, last: seq<byte>)
    requires forall i :: 0 <= i < |pieces| ==> !IsBlank(pieces[i])
    ensures DropBlank(pieces + [last]) == if IsBlank(last) then pieces else pieces + [last]
  {
    if pieces == [] {
      assert pieces + [last] == [last] && DropBlank([]) == [];
    } else {
      assert (pieces + [last])[1..] == pieces[1..] + [last];
      DropBlankAppend(pieces[1..], last);
    }
  }

  lemma ParsesParts(key: seq<byte>, text: seq<byte>)
    requires |key| <= MAX_KEY && |key| + |text| > 0
    ensures ParsedFrom([VERSION, |key|] + key + text)
      == Some(Parsed(key, if text == [] then [] else DropBlank(SplitOn(NUL, text))))
  {
    hide DropBlank, SplitOn;
    var data := [VERSION, |key|] + key + text;
    assert data[0] == VERSION && data[1] == |key|;
    assert data[2..2 + |key|] == key && data[2 + |key|..] == text;
  }

  lemma PeerParses(key: seq<byte>, endpoints: seq<seq<byte>>)
    requires 1 <= |key| <= MAX_KEY
    ensures Built(key, endpoints).Some? && |Built(key, endpoints).value| <= MAX_LENGTH
    ensures var text := Front(JoinWith(NUL, endpoints), MAX_LENGTH - 2 - |key|);
      ParsedFrom(Built(key, endpoints).value)
      == Some(Parsed(key, if text == [] then [] else DropBlank(SplitOn(NUL, text))))
  {
    hide ParsedFrom, JoinWith, SplitOn, DropBlank;
    ParsesParts(key, Front(JoinWith(NUL, endpoints), MAX_LENGTH - 2 - |key|));
  }

  /**
   What a peer gets of a published list: a front of it, and after that at most a cut-off piece of the
   next endpoint. Everything arrives exactly when everything fits.
   */
  lemma PeerGetsFront(key: seq<byte>, endpoints: seq<seq<byte>>) returns (i: nat, k: nat)
    requires 1 <= |key| <= MAX_KEY && Publishable(endpoints)
    ensures Built(key, endpoints).Some? && |Built(key, endpoints).value| <= MAX_LENGTH
    ensures ParsedFrom(Built(key, endpoints).value).Some?
    ensures var p := ParsedFrom(Built(key, endpoints).value).value;
      && p.key == key
      && i <= |endpoints| && (k > 0 ==> i < |endpoints| && k < |endpoints[i]|)
      && p.endpoints == endpoints[..i] + if k > 0 then [endpoints[i][..k]] else []
    ensures i == |endpoints| <==> 2 + |key| + |JoinWith(NUL, endpoints)| <= MAX_LENGTH
  {
    hide Built, ParsedFrom, Front, JoinWith, SplitOn, DropBlank, IsBlank;
    PeerParses(key, endpoints);
    var all := JoinWith(NUL, endpoints);
    var text := Front(all, MAX_LENGTH - 2 - |key|);
    if endpoints == [] {
      NothingJoined(endpoints);
      return 0, 0;
    }
    JoinedIsSomething(endpoints);
    assert text == all[..|text|];
    i, k := SplitCutOff(NUL, endpoints, |text|);
    i, k := WhatIsKept(endpoints, i, k);
  }

  /** Dropping the blank piece leaves the endpoints before the cut and the piece at it, if that is not blank. */
  lemma WhatIsKept(endpoints: seq<seq<byte>>, i: nat, k: nat) returns (i': nat, k': nat)
    requires Publishable(endpoints) && i < |endpoints| && k <= |endpoints[i]|
    ensures i' <= |endpoints| && (k' > 0 ==> i' < |endpoints| && k' < |endpoints[i']|)
    ensures DropBlank(endpoints[..i] + [endpoints[i][..k]])
      == endpoints[..i'] + if k' > 0 then [endpoints[i'][..k']] else []
    ensures i' == |endpoints| <==> i == |endpoints| - 1 && k == |endpoints[i]|
  {
    hide DropBlank, IsBlank;
    var last := endpoints[i][..k];
    DropBlankAppend(endpoints[..i], last);
    BlankNothing(last);
    if k == |endpoints[i]| {
      assert last == endpoints[i] && endpoints[..i] + [last] == endpoints[..i + 1];
      i', k' := i + 1, 0;
    } else {
      assert endpoints[..i] + [] == endpoints[..i];
      i', k' := i, if IsBlank(last) then 0 else k;
    }
  }

  lemma NothingJoined(endpoints: seq<seq<byte>>)
    requires endpoints == []
    ensures JoinWith(NUL, endpoints) == []
  {
  }

  lemma JoinedIsSomething(endpoints: seq<seq<byte>>)
    requires endpoints != [] && Publishable(endpoints)
    ensures JoinWith(NUL, endpoints) != []
  {
    assert !IsBlank(endpoints[0]);
  }

  lemma BlankNothing(s: seq<byte>)
    ensures s == [] ==> IsBlank(s)
  {
  }

  /** A published key is accepted by a peer exactly when it has at most 96 bytes, and something was published. */
  lemma KeyIsAcceptedIff(key: seq<byte>, endpoints: seq<seq<byte>>)
    ensures Built(key, endpoints).Some? <==> |key| <= 253
    ensures Built(key, endpoints).Some? ==>
      (ParsedFrom(Built(key, endpoints).value).Some? <==>
        |key| <= 96 && (key != [] || JoinWith(NUL, endpoints) != []))
  {
    hide JoinWith;
    if |key| <= 253 {
      var text := Front(JoinWith(NUL, endpoints), MAX_LENGTH - 2 - |key|);
      if |key| <= MAX_KEY && |key| + |text| > 0 {
        ParsesParts(key, text);
      }
    }
  }

  /** Endpoints of visible ASCII characters are publishable, and so are those with blanks among them. */
  lemma VisibleIsPublishable(endpoints: seq<seq<byte>>)
    requires forall i, k :: 0 <= i < |endpoints| && 0 <= k < |endpoints[i]| ==> endpoints[i][k] != 0
    requires forall i :: 0 <= i < |endpoints| ==> exists k :: 0 <= k < |endpoints[i]| && 33 <= endpoints[i][k] <= 126
    ensures Publishable(endpoints)
  {
  }

  /** One of nothing but tabs, line ends, separators and spaces is dropped. */
  lemma BlankIsDropped(piece: seq<byte>, more: seq<seq<byte>>)
    ensures (forall k :: 0 <= k < |piece| ==> piece[k] in {9, 10, 11, 12, 13, 28, 29, 30, 31, 32})
      <==> DropBlank([piece] + more) == DropBlank(more)
  {
    assert ([piece] + more)[1..] == more;
  }

  /** The published bytes: version 1, the key behind its length, and a front of the joined endpoints. */
  lemma PublishedBytes(key: seq<byte>, endpoints: seq<seq<byte>>)
    requires |key| <= 253
    ensures Built(key, endpoints).Some?
    ensures var info := Built(key, endpoints).value;
      && 2 + |key| <= |info| <= 255 && info[0] == 1 && info[1] == |key| && info[2..2 + |key|] == key
      && info[2 + |key|..] <= JoinWith(0, endpoints)
      && (|info| < 255 ==> info[2 + |key|..] == JoinWith(0, endpoints))
  {
    hide JoinWith;
  }
}
