/** Cutting text at a separator byte or into pieces of one size, and joining it again. */
module Split {
  import opened Bytes

  /** Always at least one piece. */
  function SplitOn(sep: byte, s: seq<byte>): (pieces: seq<seq<byte>>)
    ensures |pieces| > 0
  {
    if s == [] then [[]]
    else
      var rest := SplitOn(sep, s[1..]);
      if s[0] == sep then [[]] + rest else [[s[0]] + rest[0]] + rest[1..]
  }

  function JoinWith(sep: byte, pieces: seq<seq<byte>>): seq<byte> {
    if |pieces| == 0 then []
    else if |pieces| == 1 then pieces[0]
    else pieces[0] + [sep] + JoinWith(sep, pieces[1..])
  }

  function TotalLength(pieces: seq<seq<byte>>): nat {
    if pieces == [] then 0 else |pieces[0]| + TotalLength(pieces[1..])
  }

  lemma {:induction false} SplitLength(sep: byte, s: seq<byte>)
    ensures TotalLength(SplitOn(sep, s)) + |SplitOn(sep, s)| == |s| + 1
  {
    if s != [] {
      SplitLength(sep, s[1..]);
      var rest := SplitOn(sep, s[1..]);
      assert rest == [rest[0]] + rest[1..];
      assert SplitOn(sep, s)[1..] == if s[0] == sep then rest else rest[1..];
    }
  }

  lemma {:induction false} JoinLength(sep: byte, pieces: seq<seq<byte>>)
    ensures |JoinWith(sep, pieces)| == TotalLength(pieces) + if pieces == [] then 0 else |pieces| - 1
  {
    if |pieces| > 1 {
      JoinLength(sep, pieces[1..]);
    }
  }

  lemma {:induction false} JoinOfSplit(sep: byte, s: seq<byte>)
    ensures JoinWith(sep, SplitOn(sep, s)) == s
  {
    if s != [] {
      JoinOfSplit(sep, s[1..]);
      var rest := SplitOn(sep, s[1..]);
      if s[0] == sep {
        assert SplitOn(sep, s)[1..] == rest;
      } else {
        assert SplitOn(sep, s)[1..] == rest[1..];
      }
    }
  }

  lemma {:induction false} SplitWhole(sep: byte, piece: seq<byte>)
    requires sep !in piece
    ensures SplitOn(sep, piece) == [piece]
  {
    if piece != [] {
      SplitWhole(sep, piece[1..]);
      assert [piece[0]] + piece[1..] == piece;
    }
  }

  lemma {:induction false} SplitHead(sep: byte, piece: seq<byte>, rest: seq<byte>)
    requires sep !in piece
    ensures SplitOn(sep, piece + [sep] + rest) == [piece] + SplitOn(sep, rest)
  {
    var all := piece + [sep] + rest;
    if piece == [] {
      assert all[1..] == rest;
    } else {
      assert all[1..] == piece[1..] + [sep] + rest;
      SplitHead(sep, piece[1..], rest);
      assert [all[0]] + piece[1..] == piece;
    }
  }

  predicate Free(sep: byte, pieces: seq<seq<byte>>) {
    forall i :: 0 <= i < |pieces| ==> sep !in pieces[i]
  }

  lemma {:induction false} SplitJoined(sep: byte, pieces: seq<seq<byte>>, rest: seq<byte>)
    requires pieces != [] && Free(sep, pieces)
    ensures SplitOn(sep, JoinWith(sep, pieces) + [sep] + rest) == pieces + SplitOn(sep, rest)
  {
    hide SplitOn;
    if |pieces| == 1 {
      SplitHead(sep, pieces[0], rest);
    } else {
      var tail := JoinWith(sep, pieces[1..]) + [sep] + rest;
      assert JoinWith(sep, pieces) + [sep] + rest == pieces[0] + [sep] + tail;
      SplitHead(sep, pieces[0], tail);
      SplitJoined(sep, pieces[1..], rest);
      assert [pieces[0]] + (pieces[1..] + SplitOn(sep, rest)) == pieces + SplitOn(sep, rest);
    }
  }

  /** Joined text cut off after `r` bytes splits into whole pieces and the front of the next. */
  lemma {:induction false} SplitCutOff(sep: byte, pieces: seq<seq<byte>>, r: nat) returns (i: nat, k: nat)
    requires pieces != [] && Free(sep, pieces) && r <= |JoinWith(sep, pieces)|
    ensures i < |pieces| && k <= |pieces[i]|
    ensures SplitOn(sep, JoinWith(sep, pieces)[..r]) == pieces[..i] + [pieces[i][..k]]
    ensures r == |JoinWith(sep, pieces)| <==> i == |pieces| - 1 && k == |pieces[i]|
  {
    hide SplitOn;
    var head := pieces[0];
    var text := JoinWith(sep, pieces)[..r];
    if r <= |head| {
      i, k := 0, r;
      assert text == head[..r];
      SplitWhole(sep, head[..r]);
      assert pieces[..0] + [head[..r]] == [head[..r]];
    } else {
      var later := JoinWith(sep, pieces[1..]);
      var r' := r - |head| - 1;
      i, k := SplitCutOff(sep, pieces[1..], r');
      assert text == head + [sep] + later[..r'];
      SplitHead(sep, head, later[..r']);
      assert [head] + pieces[1..][..i] == pieces[..i + 1];
      assert [head] + (pieces[1..][..i] + [pieces[1..][i][..k]]) == pieces[..i + 1] + [pieces[i + 1][..k]];
      i := i + 1;
    }
  }

  // ----- Pieces of one size -----

  function Pieces(s: seq<byte>, size: nat): seq<seq<byte>>
    requires size > 0
  {
    if |s| > size then [s[..size]] + Pieces(s[size..], size)
    else if |s| > 0 then [s]
    else []
  }

  /** The pieces make up the text, none is empty, and each is full except perhaps the last. */
  lemma {:induction false} PiecesShape(s: seq<byte>, size: nat)
    requires size > 0
    ensures Concat(Pieces(s, size)) == s && TotalLength(Pieces(s, size)) == |s|
    ensures s != [] ==> Pieces(s, size) != []
    ensures forall i :: 0 <= i < |Pieces(s, size)| ==> 1 <= |Pieces(s, size)[i]| <= size
    ensures forall i :: 0 <= i < |Pieces(s, size)| - 1 ==> |Pieces(s, size)[i]| == size
    decreases |s|
  {
    if |s| > size {
      PiecesShape(s[size..], size);
    }
  }
}
