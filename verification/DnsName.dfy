/**
 Domain names on the wire (sections 3.1 and 4.1.4 of RFC 1035): the encoder, the skipper and the
 pointer-following decoder of scanner.go.
 */
module DnsName {
  import opened Bytes
  import opened Split

  const DOT: byte := 46

  // ----- Dotted text -----

  /** strings.Split(name, "."). */
  function SplitDots(name: seq<byte>): (pieces: seq<seq<byte>>)
    ensures |pieces| > 0
  {
    SplitOn(DOT, name)
  }

  /** strings.Join(labels, "."). */
  function JoinDots(labels: seq<seq<byte>>): seq<byte> {
    JoinWith(DOT, labels)
  }

  // ----- Encoding -----

  /** A label as it goes on the wire: at most 63 bytes of it. */
  function Cut(lab: seq<byte>): (r: seq<byte>)
    ensures r <= lab && |r| == if |lab| < 63 then |lab| else 63
  {
    if |lab| > 63 then lab[..63] else lab
  }

  /** Empty labels dropped, long ones cut. */
  function Clean(labels: seq<seq<byte>>): seq<seq<byte>> {
    if labels == [] then []
    else (if labels[0] == [] then [] else [Cut(labels[0])]) + Clean(labels[1..])
  }

  predicate ProperLabel(lab: seq<byte>) {
    1 <= |lab| <= 63
  }

  predicate ProperLabels(labels: seq<seq<byte>>) {
    forall i :: 0 <= i < |labels| ==> ProperLabel(labels[i])
  }

  /** Labels with their length bytes, without the root. */
  function LabelBytes(labels: seq<seq<byte>>): seq<byte>
    requires ProperLabels(labels)
  {
    if labels == [] then [] else [|labels[0]|] + labels[0] + LabelBytes(labels[1..])
  }

  lemma {:induction false} CleanIsProper(labels: seq<seq<byte>>)
    ensures ProperLabels(Clean(labels))
  {
    if labels != [] {
      CleanIsProper(labels[1..]);
    }
  }

  /** The labels that a name puts on the wire. */
  function WireLabels(name: seq<byte>): (labels: seq<seq<byte>>)
    ensures ProperLabels(labels)
  {
    CleanIsProper(SplitDots(name));
    Clean(SplitDots(name))
  }

  function EncodeName(name: seq<byte>): seq<byte> {
    LabelBytes(WireLabels(name)) + [0]
  }

  lemma {:induction false} LabelBytesAppend(labels: seq<seq<byte>>, lab: seq<byte>)
    requires ProperLabels(labels) && ProperLabel(lab)
    ensures LabelBytes(labels + [lab]) == LabelBytes(labels) + [|lab|] + lab
  {
    if labels == [] {
      assert labels + [lab] == [lab];
    } else {
      assert (labels + [lab])[1..] == labels[1..] + [lab];
      LabelBytesAppend(labels[1..], lab);
    }
  }

  lemma {:induction false} CleanAppend(labels: seq<seq<byte>>, lab: seq<byte>)
    ensures Clean(labels + [lab]) == Clean(labels) + if lab == [] then [] else [Cut(lab)]
  {
    if labels == [] {
      assert labels + [lab] == [lab];
    } else {
      assert (labels + [lab])[1..] == labels[1..] + [lab];
      CleanAppend(labels[1..], lab);
    }
  }

  lemma EncodeNothing(none: seq<seq<byte>>)
    requires none == []
    ensures ProperLabels(Clean(none)) && LabelBytes(Clean(none)) == []
  {
  }

  lemma EncodePiece(before: seq<seq<byte>>, lab: seq<byte>)
    requires ProperLabels(Clean(before))
    ensures ProperLabels(Clean(before + [lab]))
    ensures lab == [] ==> Clean(before + [lab]) == Clean(before)
    ensures lab != [] ==>
      LabelBytes(Clean(before + [lab])) == LabelBytes(Clean(before)) + [|Cut(lab)|] + Cut(lab)
  {
    CleanAppend(before, lab);
    if lab != [] {
      LabelBytesAppend(Clean(before), Cut(lab));
    }
  }

  method EncodeDNSName(name: seq<byte>) returns (out: seq<byte>)
    ensures out == EncodeName(name)
  {
    hide Clean, LabelBytes;
    out := [];
    var pieces := SplitDots(name);
    EncodeNothing(pieces[..0]);
    for i := 0 to |pieces|
      invariant ProperLabels(Clean(pieces[..i])) && out == LabelBytes(Clean(pieces[..i]))
    {
      var lab := pieces[i];
      assert pieces[..i + 1] == pieces[..i] + [lab];
      EncodePiece(pieces[..i], lab);
      if |lab| == 0 {
        continue;
      }
      if |lab| > 63 {
        lab := lab[..63];
      }
      out := out + [|lab|];
      out := out + lab;
    }
    assert pieces[..|pieces|] == pieces;
    out := out + [0];
  }

  lemma {:induction false} LabelBytesLength(labels: seq<seq<byte>>)
    requires ProperLabels(labels)
    ensures |LabelBytes(labels)| == TotalLength(labels) + |labels|
  {
    if labels != [] {
      LabelBytesLength(labels[1..]);
    }
  }

  /** Cleaning never lengthens, and keeps the length only if there was nothing to clean. */
  lemma {:induction false} CleanLength(labels: seq<seq<byte>>)
    ensures TotalLength(Clean(labels)) <= TotalLength(labels) && |Clean(labels)| <= |labels|
    ensures TotalLength(Clean(labels)) + |Clean(labels)| == TotalLength(labels) + |labels|
      <==> ProperLabels(labels)
    ensures ProperLabels(labels) ==> Clean(labels) == labels
  {
    if labels != [] {
      CleanLength(labels[1..]);
      var head := if labels[0] == [] then [] else [Cut(labels[0])];
      assert Clean(labels)[|head|..] == Clean(labels[1..]);
      assert ProperLabels(labels) <==> ProperLabel(labels[0]) && ProperLabels(labels[1..]);
    }
  }

  function NonEmpty(pieces: seq<seq<byte>>): seq<seq<byte>> {
    if pieces == [] then [] else (if pieces[0] == [] then [] else [pieces[0]]) + NonEmpty(pieces[1..])
  }

  lemma {:induction false} CleanCuts(pieces: seq<seq<byte>>)
    ensures |Clean(pieces)| == |NonEmpty(pieces)|
    ensures forall i :: 0 <= i < |NonEmpty(pieces)| ==>
      var piece := NonEmpty(pieces)[i];
      Clean(pieces)[i] == if |piece| <= 63 then piece else piece[..63]
  {
    if pieces != [] {
      CleanCuts(pieces[1..]);
      if |pieces[0]| <= 63 {
        assert Cut(pieces[0]) == pieces[0];
      }
    }
  }

  /** What goes on the wire: every piece between the dots that is not empty, up to its 63rd byte. */
  lemma LabelsOnWire(name: seq<byte>)
    ensures var pieces, labels := NonEmpty(SplitOn(46, name)), WireLabels(name);
      && |labels| == |pieces|
      && forall i :: 0 <= i < |labels| ==> labels[i] == if |pieces[i]| <= 63 then pieces[i] else pieces[i][..63]
  {
    CleanCuts(SplitDots(name));
  }

  /** The encoding takes at most two bytes more than the text. */
  lemma EncodedSize(name: seq<byte>)
    ensures |EncodeName(name)| <= |name| + 2
  {
    SplitLength(DOT, name);
    CleanLength(SplitDots(name));
    LabelBytesLength(WireLabels(name));
  }

  // ----- Skipping -----

  function SkipName(pkt: seq<byte>, offset: nat): (r: nat)
    ensures r >= offset
    decreases |pkt| - offset
  {
    if offset >= |pkt| then offset
    else if pkt[offset] == 0 then offset + 1
    else if pkt[offset] >= 0xC0 then offset + 2
    else SkipName(pkt, offset + 1 + pkt[offset])
  }

  method SkipDNSName(pkt: seq<byte>, start: nat) returns (offset: nat)
    ensures offset == SkipName(pkt, start)
  {
    offset := start;
    while offset < |pkt|
      invariant SkipName(pkt, offset) == SkipName(pkt, start)
    {
      var length := pkt[offset];
      if length == 0 {
        return offset + 1;
      }
      if length >= 0xC0 {
        return offset + 2;
      }
      offset := offset + 1 + length;
    }
  }

  // ----- Decoding -----

  /** What the byte at an offset asks for. Lengths 64 to 191 are reserved; the code takes them as labels. */
  datatype Step =
    | Root
    | Malformed
    | Label(lab: seq<byte>, next: nat)
    | Jump(next: nat)

  function Pointer(pkt: seq<byte>, offset: nat): nat
    requires offset + 1 < |pkt|
  {
    U16(pkt[offset] % 64, pkt[offset + 1])
  }

  function StepAt(pkt: seq<byte>, offset: nat): Step {
    if offset >= |pkt| then Malformed
    else if pkt[offset] == 0 then Root
    else if pkt[offset] >= 0xC0 then
      if offset + 1 >= |pkt| then Malformed else Jump(Pointer(pkt, offset))
    else if offset + 1 + pkt[offset] > |pkt| then Malformed
    else Label(pkt[offset + 1..offset + 1 + pkt[offset]], offset + 1 + pkt[offset])
  }

  predicate Continues(pkt: seq<byte>, offset: nat) {
    StepAt(pkt, offset).Label? || StepAt(pkt, offset).Jump?
  }

  datatype Ending = AtRoot | Broken | Looped

  datatype Decoded = Decoded(labels: seq<seq<byte>>, ending: Ending)

  function Prepend(s: Step, d: Decoded): Decoded {
    if s.Label? then d.(labels := [s.lab] + d.labels) else d
  }

  predicate Inside(pkt: seq<byte>, offset: nat) {
    offset < |pkt|
  }

  /** The offsets of a packet that a walk has not been to. */
  function Unvisited(pkt: seq<byte>, visited: set<nat>): set<nat> {
    (set o | 0 <= o < |pkt| && Inside(pkt, o)) - visited
  }

  lemma VisitShrinks(pkt: seq<byte>, offset: nat, visited: set<nat>)
    requires offset < |pkt| && offset !in visited
    ensures |Unvisited(pkt, visited + {offset})| < |Unvisited(pkt, visited)|
  {
    assert Inside(pkt, offset) && offset in Unvisited(pkt, visited);
    assert Unvisited(pkt, visited + {offset}) == Unvisited(pkt, visited) - {offset};
  }

  /** The walk of the decoder from an offset, given where it has been. */
  function DecodeFrom(pkt: seq<byte>, offset: nat, visited: set<nat>): Decoded
    decreases |Unvisited(pkt, visited)|
  {
    if offset < |pkt| && offset in visited then Decoded([], Looped)
    else
      var s := StepAt(pkt, offset);
      if s.Malformed? then Decoded([], Broken)
      else if s.Root? then Decoded([], AtRoot)
      else
        VisitShrinks(pkt, offset, visited);
        Prepend(s, DecodeFrom(pkt, s.next, visited + {offset}))
  }

  lemma DecodeTurn(pkt: seq<byte>, offset: nat, visited: set<nat>)
    ensures offset >= |pkt| || offset in visited || !Continues(pkt, offset) ==>
      DecodeFrom(pkt, offset, visited).labels == []
    ensures DecodeFrom(pkt, offset, visited).ending == Looped ==> offset in visited || Continues(pkt, offset)
    ensures offset < |pkt| && offset !in visited && Continues(pkt, offset) ==>
      var s := StepAt(pkt, offset);
      && DecodeFrom(pkt, offset, visited) == Prepend(s, DecodeFrom(pkt, s.next, visited + {offset}))
      && |Unvisited(pkt, visited + {offset})| < |Unvisited(pkt, visited)|
  {
    if offset < |pkt| && offset !in visited {
      VisitShrinks(pkt, offset, visited);
    }
  }

  lemma AppendAssoc(parts: seq<seq<byte>>, lab: seq<byte>, rest: seq<seq<byte>>)
    requires rest != [] && rest[0] == lab
    ensures parts + rest == (parts + [lab]) + rest[1..]
  {
  }

  method DecodeDNSName(pkt: seq<byte>, start: nat) returns (name: seq<byte>)
    ensures name == JoinDots(DecodeFrom(pkt, start, {}).labels)
  {
    hide JoinDots, DecodeFrom, Unvisited, U16;
    var parts: seq<seq<byte>> := [];
    var visited: set<nat> := {};
    var offset: nat := start;
    ghost var whole := DecodeFrom(pkt, start, {}).labels;
    ghost var rest := whole;
    while offset < |pkt|
      invariant rest == DecodeFrom(pkt, offset, visited).labels && whole == parts + rest
      decreases |Unvisited(pkt, visited)|
    {
      DecodeTurn(pkt, offset, visited);
      if offset in visited {
        break;
      }
      visited := visited + {offset};
      var length := pkt[offset];
      if length == 0 {
        break;
      }
      if length >= 0xC0 {
        if offset + 1 >= |pkt| {
          break;
        }
        offset := Pointer(pkt, offset);
        continue;
      }
      offset := offset + 1;
      if offset + length > |pkt| {
        break;
      }
      var lab := pkt[offset..offset + length];
      AppendAssoc(parts, lab, rest);
      parts, rest := parts + [lab], rest[1..];
      offset := offset + length;
    }
    DecodeTurn(pkt, offset, visited);
    assert parts + [] == parts;
    name := JoinDots(parts);
  }

  // ----- Compressed names -----

  /**
   The grammar of section 4.1.4 of RFC 1035: from this offset, `n` labels, pointers and the final
   zero octet together spell `labels`. A pointer is 14 bits wide, behind two bits that are set. The
   reserved lengths 64 to 191, which the standard does not use, count as labels, as in the code.
   */
  ghost predicate Spells(pkt: seq<byte>, offset: nat, labels: seq<seq<byte>>, n: nat)
    decreases n
  {
    && n > 0 && offset < |pkt|
    && if pkt[offset] == 0 then n == 1 && labels == []
       else if pkt[offset] >= 0xC0 then
         offset + 1 < |pkt| && Spells(pkt, (pkt[offset] as int - 0xC0) * 256 + pkt[offset + 1] as int, labels, n - 1)
       else
         var end := offset + 1 + pkt[offset];
         && end <= |pkt|
         && labels != [] && labels[0] == pkt[offset + 1..end] && Spells(pkt, end, labels[1..], n - 1)
  }

  /** An offset has at most one such reading, of one length. */
  lemma {:induction false} SpellsOnce(pkt: seq<byte>, offset: nat, l1: seq<seq<byte>>, n1: nat,
                                      l2: seq<seq<byte>>, n2: nat)
    requires Spells(pkt, offset, l1, n1) && Spells(pkt, offset, l2, n2)
    ensures n1 == n2 && l1 == l2
    decreases n1
  {
    if pkt[offset] >= 0xC0 {
      SpellsOnce(pkt, Pointer(pkt, offset), l1, n1 - 1, l2, n2 - 1);
    } else if pkt[offset] > 0 {
      SpellsOnce(pkt, offset + 1 + pkt[offset], l1[1..], n1 - 1, l2[1..], n2 - 1);
      assert l1 == [l1[0]] + l1[1..] && l2 == [l2[0]] + l2[1..];
    }
  }

  /** A name starts here whose reading takes more than `n` steps. */
  ghost predicate SpellsMore(pkt: seq<byte>, offset: nat, n: nat) {
    exists m, l :: m > n && Spells(pkt, offset, l, m)
  }

  lemma {:induction false} DecodeSpelledFrom(pkt: seq<byte>, offset: nat, labels: seq<seq<byte>>, n: nat,
                                             visited: set<nat>)
    requires Spells(pkt, offset, labels, n)
    requires forall v :: v in visited ==> SpellsMore(pkt, v, n)
    ensures DecodeFrom(pkt, offset, visited) == Decoded(labels, AtRoot)
    decreases n
  {
    if offset in visited {
      var m, l :| m > n && Spells(pkt, offset, l, m);
      SpellsOnce(pkt, offset, labels, n, l, m);
    }
    assert SpellsMore(pkt, offset, n - 1);
    if pkt[offset] >= 0xC0 {
      DecodeSpelledFrom(pkt, Pointer(pkt, offset), labels, n - 1, visited + {offset});
    } else if pkt[offset] > 0 {
      DecodeSpelledFrom(pkt, offset + 1 + pkt[offset], labels[1..], n - 1, visited + {offset});
      assert labels == [labels[0]] + labels[1..];
    }
  }

  /** Every name the grammar allows is decoded to exactly its labels: the visited guard stays out of it. */
  lemma DecodeSpelled(pkt: seq<byte>, offset: nat, labels: seq<seq<byte>>, n: nat)
    requires Spells(pkt, offset, labels, n)
    ensures DecodeFrom(pkt, offset, {}) == Decoded(labels, AtRoot)
  {
    DecodeSpelledFrom(pkt, offset, labels, n, {});
  }

  // ----- The visited guard -----

  /** The offset reached after `n` labels and pointers, if the walk gets that far. */
  function Trail(pkt: seq<byte>, offset: nat, n: nat): Option<nat>
    decreases n
  {
    if n == 0 then Some(offset)
    else
      var s := StepAt(pkt, offset);
      if s.Label? || s.Jump? then Trail(pkt, s.next, n - 1) else None
  }

  /** A set of offsets that the walk cannot leave. */
  predicate Closed(pkt: seq<byte>, offsets: set<nat>) {
    forall o :: o in offsets ==> Continues(pkt, o) && StepAt(pkt, o).next in offsets
  }

  lemma {:induction false} ClosedIsEndless(pkt: seq<byte>, offsets: set<nat>, offset: nat, n: nat)
    requires Closed(pkt, offsets) && offset in offsets
    ensures Trail(pkt, offset, n).Some?
    decreases n
  {
    if n > 0 {
      ClosedIsEndless(pkt, offsets, StepAt(pkt, offset).next, n - 1);
    }
  }

  /** Where the walk has been when it stops. */
  function Footprint(pkt: seq<byte>, offset: nat, visited: set<nat>): set<nat>
    decreases |Unvisited(pkt, visited)|
  {
    if offset >= |pkt| || offset in visited || !Continues(pkt, offset) then visited
    else
      VisitShrinks(pkt, offset, visited);
      Footprint(pkt, StepAt(pkt, offset).next, visited + {offset})
  }

  /** From every offset visited the walk goes on to another, or to the current one. */
  predicate Chained(pkt: seq<byte>, visited: set<nat>, offset: nat) {
    forall v :: v in visited ==> Continues(pkt, v) && StepAt(pkt, v).next in visited + {offset}
  }

  /** A walk that is stopped by the guard has stayed in a closed set. */
  lemma {:induction false} LoopedIsClosed(pkt: seq<byte>, offset: nat, visited: set<nat>)
    requires Chained(pkt, visited, offset) && DecodeFrom(pkt, offset, visited).ending == Looped
    ensures Closed(pkt, Footprint(pkt, offset, visited)) && visited + {offset} <= Footprint(pkt, offset, visited)
    decreases |Unvisited(pkt, visited)|
  {
    hide DecodeFrom, Unvisited, StepAt, Continues;
    DecodeTurn(pkt, offset, visited);
    FootprintTurn(pkt, offset, visited);
    if offset !in visited {
      ContinuesInside(pkt, offset);
      LoopedIsClosed(pkt, StepAt(pkt, offset).next, visited + {offset});
    }
  }

  lemma ContinuesInside(pkt: seq<byte>, offset: nat)
    ensures Continues(pkt, offset) ==>
      offset < |pkt| && (StepAt(pkt, offset).Label? || StepAt(pkt, offset).Jump?)
  {
  }

  lemma FootprintTurn(pkt: seq<byte>, offset: nat, visited: set<nat>)
    ensures offset in visited ==> Footprint(pkt, offset, visited) == visited
    ensures offset !in visited && Continues(pkt, offset) ==>
      Footprint(pkt, offset, visited) == Footprint(pkt, StepAt(pkt, offset).next, visited + {offset})
  {
  }

  lemma {:induction false} UnloopedEnds(pkt: seq<byte>, offset: nat, visited: set<nat>) returns (n: nat)
    requires DecodeFrom(pkt, offset, visited).ending != Looped
    ensures Trail(pkt, offset, n) == None
    decreases |Unvisited(pkt, visited)|
  {
    DecodeTurn(pkt, offset, visited);
    if Continues(pkt, offset) {
      n := UnloopedEnds(pkt, StepAt(pkt, offset).next, visited + {offset});
      n := n + 1;
    } else {
      n := 1;
    }
  }

  /** On any packet at all, the visited guard fires exactly when the walk would otherwise never end. */
  lemma GuardFiresIffEndless(pkt: seq<byte>, offset: nat)
    ensures DecodeFrom(pkt, offset, {}).ending == Looped <==> forall n :: Trail(pkt, offset, n).Some?
  {
    if DecodeFrom(pkt, offset, {}).ending == Looped {
      LoopedIsClosed(pkt, offset, {});
      forall n
        ensures Trail(pkt, offset, n).Some?
      {
        ClosedIsEndless(pkt, Footprint(pkt, offset, {}), offset, n);
      }
    } else {
      var n := UnloopedEnds(pkt, offset, {});
    }
  }

  // ----- Round trip -----

  /** A name as it stands in a record: labels, then the root or a pointer. */
  datatype WireName = WireName(labels: seq<seq<byte>>, pointer: Option<nat>) {
    predicate Proper() {
      ProperLabels(labels) && (pointer.Some? ==> pointer.value < 0x4000)
    }

    function Bytes(): (s: seq<byte>)
      requires Proper()
      ensures |s| > 0
    {
      LabelBytes(labels) +
      match pointer
      case None => [0]
      case Some(p) => [0xC0 + p / 256, p % 256]
    }
  }

  lemma {:induction false} SkipLabels(pkt: seq<byte>, offset: nat, labels: seq<seq<byte>>)
    requires ProperLabels(labels) && HoldsAt(pkt, offset, LabelBytes(labels))
    ensures SkipName(pkt, offset) == SkipName(pkt, offset + |LabelBytes(labels)|)
    decreases labels
  {
    if labels != [] {
      var head := [|labels[0]|] + labels[0];
      HoldsBoth(pkt, offset, head, LabelBytes(labels[1..]));
      HoldsByte(pkt, offset, head, 0);
      SkipLabels(pkt, offset + |head|, labels[1..]);
    }
  }

  /** The skipper lands just behind a name, compressed or not. */
  lemma SkipLandsBehind(pkt: seq<byte>, offset: nat, name: WireName)
    requires name.Proper() && HoldsAt(pkt, offset, name.Bytes())
    ensures SkipName(pkt, offset) == offset + |name.Bytes()|
  {
    hide HoldsAt, LabelBytes;
    var labels := LabelBytes(name.labels);
    var tail := match name.pointer case None => [0] case Some(p) => [0xC0 + p / 256, p % 256];
    HoldsBoth(pkt, offset, labels, tail);
    HoldsSlice(pkt, offset + |labels|, tail);
    SkipLabels(pkt, offset, name.labels);
    HoldsByte(pkt, offset + |labels|, tail, 0);
  }

  /** On a name of the grammar skipping passes the labels up to the first pointer, and the root or that pointer. */
  lemma {:induction false} SkipSpelled(pkt: seq<byte>, offset: nat, labels: seq<seq<byte>>, n: nat) returns (j: nat)
    requires Spells(pkt, offset, labels, n)
    ensures j <= |labels| < n && (n == |labels| + 1 ==> j == |labels|)
    ensures SkipName(pkt, offset)
      == offset + TotalLength(labels[..j]) + j + if n == |labels| + 1 then 1 else 2
    decreases n
  {
    j := 0;
    if pkt[offset] >= 0xC0 {
      EnoughSteps(pkt, (pkt[offset] as int - 0xC0) * 256 + pkt[offset + 1] as int, labels, n - 1);
    } else if pkt[offset] > 0 {
      j := SkipSpelled(pkt, offset + 1 + pkt[offset], labels[1..], n - 1);
      j := j + 1;
      assert labels[..j][1..] == labels[1..][..j - 1] && labels[..j][0] == labels[0];
    }
  }

  lemma {:induction false} EnoughSteps(pkt: seq<byte>, offset: nat, labels: seq<seq<byte>>, n: nat)
    requires Spells(pkt, offset, labels, n)
    ensures n > |labels|
    decreases n
  {
    if pkt[offset] >= 0xC0 {
      EnoughSteps(pkt, (pkt[offset] as int - 0xC0) * 256 + pkt[offset + 1] as int, labels, n - 1);
    } else if pkt[offset] > 0 {
      EnoughSteps(pkt, offset + 1 + pkt[offset], labels[1..], n - 1);
    }
  }

  /** In the front of a packet a name is skipped as in the whole, or up to the cut and perhaps over it. */
  lemma {:induction false} SkipInPart(pkt: seq<byte>, k: nat, offset: nat)
    requires k <= |pkt|
    ensures var part, whole := SkipName(pkt[..k], offset), SkipName(pkt, offset);
      part == whole || k <= part < whole
    decreases |pkt| - offset
  {
    if offset < k && 0 < pkt[offset] < 0xC0 {
      SkipInPart(pkt, k, offset + 1 + pkt[offset]);
    }
  }

  lemma {:induction false} EncodedSpells(pkt: seq<byte>, offset: nat, labels: seq<seq<byte>>)
    requires ProperLabels(labels) && HoldsAt(pkt, offset, LabelBytes(labels) + [0])
    ensures Spells(pkt, offset, labels, |labels| + 1)
    decreases labels
  {
    hide HoldsAt;
    HoldsByte(pkt, offset, LabelBytes(labels) + [0], 0);
    if labels != [] {
      var head, tail := [|labels[0]|] + labels[0], LabelBytes(labels[1..]) + [0];
      assert LabelBytes(labels) + [0] == head + tail;
      HoldsBoth(pkt, offset, head, tail);
      HoldsBoth(pkt, offset, [|labels[0]|], labels[0]);
      HoldsSlice(pkt, offset + 1, labels[0]);
      EncodedSpells(pkt, offset + |head|, labels[1..]);
    }
  }

  lemma PointerHeld(pkt: seq<byte>, offset: nat, p: nat)
    requires p < 0x4000 && HoldsAt(pkt, offset, [0xC0 + p / 256, p % 256])
    ensures offset + 1 < |pkt| && pkt[offset] >= 0xC0 && (pkt[offset] as int - 0xC0) * 256 + pkt[offset + 1] as int == p
  {
    HoldsByte(pkt, offset, [0xC0 + p / 256, p % 256], 0);
    HoldsByte(pkt, offset, [0xC0 + p / 256, p % 256], 1);
  }

  /** Labels that end in a pointer spell themselves and then what is spelled where it points. */
  lemma {:induction false} PointerSpells(pkt: seq<byte>, offset: nat, labels: seq<seq<byte>>, p: nat,
                                         tail: seq<seq<byte>>, n: nat)
    requires WireName(labels, Some(p)).Proper() && HoldsAt(pkt, offset, WireName(labels, Some(p)).Bytes())
    requires Spells(pkt, p, tail, n)
    ensures Spells(pkt, offset, labels + tail, |labels| + 1 + n)
    decreases labels
  {
    hide HoldsAt, Spells;
    var jump: seq<byte> := [0xC0 + p / 256, p % 256];
    if labels == [] {
      assert LabelBytes(labels) + jump == jump && labels + tail == tail;
      JumpSpells(pkt, offset, p, tail, n);
    } else {
      var head, behind := [|labels[0]|] + labels[0], LabelBytes(labels[1..]) + jump;
      assert LabelBytes(labels) + jump == head + behind;
      HoldsBoth(pkt, offset, head, behind);
      PointerSpells(pkt, offset + |head|, labels[1..], p, tail, n);
      LabelSpells(pkt, offset, labels[0], labels[1..] + tail, |labels| + n);
      assert labels + tail == [labels[0]] + (labels[1..] + tail);
    }
  }

  lemma JumpSpells(pkt: seq<byte>, offset: nat, p: nat, labels: seq<seq<byte>>, n: nat)
    requires p < 0x4000 && HoldsAt(pkt, offset, [0xC0 + p / 256, p % 256]) && Spells(pkt, p, labels, n)
    ensures Spells(pkt, offset, labels, n + 1)
  {
    PointerHeld(pkt, offset, p);
  }

  lemma LabelSpells(pkt: seq<byte>, offset: nat, lab: seq<byte>, labels: seq<seq<byte>>, n: nat)
    requires ProperLabel(lab) && HoldsAt(pkt, offset, [|lab|] + lab) && Spells(pkt, offset + 1 + |lab|, labels, n)
    ensures Spells(pkt, offset, [lab] + labels, n + 1)
  {
    hide HoldsAt;
    HoldsBoth(pkt, offset, [|lab|], lab);
    HoldsByte(pkt, offset, [|lab|], 0);
    HoldsSlice(pkt, offset + 1, lab);
    assert ([lab] + labels)[1..] == labels;
  }

  /** A compressed name decodes to its own labels and those of the name it points to. */
  lemma CompressedDecodes(pkt: seq<byte>, offset: nat, labels: seq<seq<byte>>, p: nat,
                          tail: seq<seq<byte>>, n: nat)
    requires WireName(labels, Some(p)).Proper() && HoldsAt(pkt, offset, WireName(labels, Some(p)).Bytes())
    requires Spells(pkt, p, tail, n)
    ensures DecodeFrom(pkt, offset, {}) == Decoded(labels + tail, AtRoot)
    ensures SkipName(pkt, offset) == offset + |LabelBytes(labels)| + 2
  {
    hide Spells, DecodeFrom, LabelBytes, HoldsAt;
    PointerSpells(pkt, offset, labels, p, tail, n);
    DecodeSpelled(pkt, offset, labels + tail, |labels| + 1 + n);
    SkipLandsBehind(pkt, offset, WireName(labels, Some(p)));
  }

  /** What stands at an offset is neither a root nor a label or pointer that the packet holds in full. */
  predicate CutOff(pkt: seq<byte>, offset: nat) {
    offset < |pkt| ==>
      if pkt[offset] >= 0xC0 then offset + 1 == |pkt| else pkt[offset] > 0 && offset + 1 + pkt[offset] > |pkt|
  }

  lemma {:induction false} CutOffDecodes(pkt: seq<byte>, offset: nat, labels: seq<seq<byte>>, visited: set<nat>)
    requires ProperLabels(labels) && HoldsAt(pkt, offset, LabelBytes(labels))
    requires CutOff(pkt, offset + |LabelBytes(labels)|)
    requires forall v :: v in visited ==> v < offset
    ensures DecodeFrom(pkt, offset, visited) == Decoded(labels, Broken)
    decreases labels
  {
    hide HoldsAt;
    if labels != [] {
      var head := [|labels[0]|] + labels[0];
      HoldsBoth(pkt, offset, head, LabelBytes(labels[1..]));
      HoldsBoth(pkt, offset, [|labels[0]|], labels[0]);
      HoldsByte(pkt, offset, [|labels[0]|], 0);
      HoldsSlice(pkt, offset + 1, labels[0]);
      CutOffDecodes(pkt, offset + |head|, labels[1..], visited + {offset});
      assert labels == [labels[0]] + labels[1..];
    }
  }

  /**
   An encoded name, wherever it is placed and whatever surrounds it: decoding gives the labels that
   were sent, skipping lands behind it, and the text comes back unchanged exactly when every lab
   was 1 to 63 bytes long (or there was no text).
   */
  lemma NameRoundTrip(name: seq<byte>, pkt: seq<byte>, offset: nat)
    requires HoldsAt(pkt, offset, EncodeName(name))
    ensures DecodeFrom(pkt, offset, {}) == Decoded(WireLabels(name), AtRoot)
    ensures SkipName(pkt, offset) == offset + |EncodeName(name)|
    ensures JoinDots(WireLabels(name)) == name <==> name == [] || ProperLabels(SplitDots(name))
  {
    var labels := WireLabels(name);
    EncodedSpells(pkt, offset, labels);
    DecodeSpelled(pkt, offset, labels, |labels| + 1);
    SkipLandsBehind(pkt, offset, WireName(labels, None));
    SplitLength(DOT, name);
    JoinOfSplit(DOT, name);
    CleanLength(SplitDots(name));
    JoinLength(DOT, labels);
  }
}
