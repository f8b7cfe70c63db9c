/**
 The hand-written base32 encoder of scanner.go, whose 64-bit accumulator is never masked, against
 unpadded base32 as section 6 of RFC 4648 defines it on the bit string.
 */
module Base32 {
  import opened Bytes

  type bit = x: int | 0 <= x < 2

  const WORD: nat := 0x1_0000_0000_0000_0000

  // ----- Bit strings, most significant bit first -----

  function BitsOf(n: nat, k: nat): (bits: seq<bit>)
    ensures |bits| == k
  {
    if k == 0 then [] else BitsOf(n / 2, k - 1) + [n % 2]
  }

  function ValueOf(bits: seq<bit>): nat {
    if bits == [] then 0 else ValueOf(bits[..|bits| - 1]) * 2 + bits[|bits| - 1]
  }

  function Zeros(k: nat): (bits: seq<bit>)
    ensures |bits| == k
  {
    seq(k, _ => 0)
  }

  lemma {:induction false} ValueOfBits(n: nat, k: nat)
    requires n < Pow2(k)
    ensures ValueOf(BitsOf(n, k)) == n
  {
    if k > 0 {
      ValueOfBits(n / 2, k - 1);
      assert BitsOf(n, k)[..k - 1] == BitsOf(n / 2, k - 1);
    }
  }

  lemma {:induction false} BitsOfValue(bits: seq<bit>)
    ensures ValueOf(bits) < Pow2(|bits|)
    ensures BitsOf(ValueOf(bits), |bits|) == bits
  {
    if bits != [] {
      BitsOfValue(bits[..|bits| - 1]);
      assert bits == bits[..|bits| - 1] + [bits[|bits| - 1]];
    }
  }

  lemma {:induction false} ValueOfConcat(a: seq<bit>, b: seq<bit>)
    ensures ValueOf(a + b) == ValueOf(a) * Pow2(|b|) + ValueOf(b)
  {
    if b == [] {
      assert a + b == a;
    } else {
      var last := |b| - 1;
      ValueOfConcat(a, b[..last]);
      assert (a + b)[..|a + b| - 1] == a + b[..last];
      assert ValueOf(a) * Pow2(|b|) == ValueOf(a) * Pow2(last) * 2 by {
        assert Pow2(|b|) == 2 * Pow2(last);
      }
    }
  }

  lemma {:induction false} ValueOfZeros(k: nat)
    ensures ValueOf(Zeros(k)) == 0
  {
    if k > 0 {
      ValueOfZeros(k - 1);
      assert Zeros(k)[..k - 1] == Zeros(k - 1);
    }
  }

  function DataBits(data: seq<byte>): seq<bit> {
    if data == [] then [] else BitsOf(data[0], 8) + DataBits(data[1..])
  }

  lemma {:induction false} DataBitsLength(data: seq<byte>)
    ensures |DataBits(data)| == 8 * |data|
  {
    if data != [] {
      DataBitsLength(data[1..]);
    }
  }

  // ----- The standard's encoding -----

  type quintet = x: int | 0 <= x < 32

  lemma FiveBits(bits: seq<bit>)
    requires |bits| == 5
    ensures ValueOf(bits) < 32
  {
    BitsOfValue(bits);
    assert Pow2(2) == 4 && Pow2(4) == 16;
  }

  function Quintet(bits: seq<bit>): quintet
    requires |bits| == 5
  {
    FiveBits(bits);
    ValueOf(bits)
  }

  /** Groups of five bits, the last one filled up with zeros. */
  function Quintets(bits: seq<bit>): seq<quintet> {
    if bits == [] then []
    else if |bits| < 5 then [Quintet(bits + Zeros(5 - |bits|))]
    else [Quintet(bits[..5])] + Quintets(bits[5..])
  }

  const ALPHABET: string := "ABCDEFGHIJKLMNOPQRSTUVWXYZ234567"

  function Letter(q: quintet): byte {
    if q < 26 then 65 + q else 24 + q
  }

  lemma LetterIsInAlphabet(q: quintet)
    ensures ALPHABET[q] as int == Letter(q)
  {
  }

  function Letters(qs: seq<quintet>): (s: seq<byte>)
    ensures |s| == |qs|
  {
    seq(|qs|, i requires 0 <= i < |qs| => Letter(qs[i]))
  }

  function Encoding(data: seq<byte>): seq<byte> {
    Letters(Quintets(DataBits(data)))
  }

  // ----- The encoder -----

  /** `(buf << 8) | b` on a 64-bit word. */
  function ShiftIn(buf: nat, b: byte): nat {
    buf * 256 % WORD + b
  }

  lemma Distribute(a: int, b: int, m: int)
    ensures (a - b) * m == a * m - b * m
  {
  }

  lemma AtLeast(d: int, m: int)
    requires d >= 1 && m > 0
    ensures d * m >= m
  {
  }

  lemma DivModUnique(x: int, m: int, q: int, r: int)
    requires x == q * m + r && 0 <= r < m
    ensures x / m == q && x % m == r
  {
    var d := x / m - q;
    Distribute(x / m, q, m);
    assert d * m == r - x % m;
    if d >= 1 {
      AtLeast(d, m);
    } else if d <= -1 {
      AtLeast(-d, m);
    }
  }

  lemma LowBits(buf: nat, b: byte, p: nat, m: nat)
    requires p > 0 && 256 * p * m == WORD
    ensures ShiftIn(buf, b) % (256 * p) == buf % p * 256 + b
  {
    var q, low, k := buf / p, buf % p, buf * 256 / WORD;
    assert buf == q * p + low;
    assert buf * 256 % WORD == buf * 256 - k * WORD;
    assert k * WORD == k * m * (256 * p);
    assert ShiftIn(buf, b) == (q - k * m) * (256 * p) + (low * 256 + b);
    DivModUnique(ShiftIn(buf, b), 256 * p, q - k * m, low * 256 + b);
  }

  /** The low bits of the accumulator survive the wrap. */
  lemma LowBitsSurvive(buf: nat, b: byte, bits: nat)
    requires buf < WORD && bits < 5
    ensures ShiftIn(buf, b) < WORD
    ensures ShiftIn(buf, b) % Pow2(bits + 8) == buf % Pow2(bits) * 256 + b
  {
    SmallPowers();
    LowBits(buf, b, Pow2(bits), WORD / 256 / Pow2(bits));
    RoomForByte(buf, b);
  }

  lemma RoomForByte(buf: nat, b: byte)
    ensures ShiftIn(buf, b) < WORD
  {
    var k := buf * 256 / WORD;
    assert buf * 256 % WORD == 256 * (buf - k * (WORD / 256));
  }

  lemma SmallPowers()
    ensures Pow2(0) == 1 && Pow2(1) == 2 && Pow2(2) == 4 && Pow2(3) == 8 && Pow2(4) == 16 && Pow2(5) == 32
    ensures Pow2(6) == 64 && Pow2(7) == 128 && Pow2(8) == 256 && Pow2(9) == 512 && Pow2(10) == 1024
    ensures Pow2(11) == 2048 && Pow2(12) == 4096
  {
    assert Pow2(2) == 4;
    assert Pow2(4) == 16;
    assert Pow2(6) == 64;
    assert Pow2(8) == 256;
    assert Pow2(10) == 1024;
  }

  /** The top five of at most twelve waiting bits, as shifting and masking the accumulator gives them. */
  lemma TakeQuintet(buf: nat, bits: nat, waiting: seq<bit>)
    requires |waiting| == bits && 5 <= bits <= 12 && buf % Pow2(bits) == ValueOf(waiting)
    ensures buf / Pow2(bits - 5) % 32 == Quintet(waiting[..5])
    ensures buf % Pow2(bits - 5) == ValueOf(waiting[5..])
  {
    var hi, lo := waiting[..5], waiting[5..];
    assert waiting == hi + lo;
    ValueOfConcat(hi, lo);
    FiveBits(hi);
    BitsOfValue(lo);
    SplitLow(buf, bits - 5, ValueOf(hi), ValueOf(lo));
  }

  lemma SplitLow(buf: nat, r: nat, hi: nat, lo: nat)
    requires hi < 32 && lo < Pow2(r)
    requires buf % Pow2(r + 5) == hi * Pow2(r) + lo
    ensures buf / Pow2(r) % 32 == hi && buf % Pow2(r) == lo
  {
    var p := Pow2(r);
    assert Pow2(r + 5) == 32 * p by {
      assert Pow2(r + 5) == 4 * Pow2(r + 3);
      assert Pow2(r + 3) == 4 * Pow2(r + 1);
    }
    var q := buf / (32 * p);
    assert buf == q * (32 * p) + (hi * p + lo);
    assert buf == (32 * q + hi) * p + lo;
    DivModUnique(buf, p, 32 * q + hi, lo);
    DivModUnique(32 * q + hi, 32, q, hi);
  }

  lemma LastQuintet(buf: nat, bits: nat, waiting: seq<bit>)
    requires |waiting| == bits && 0 < bits < 5 && buf % Pow2(bits) == ValueOf(waiting)
    ensures buf * Pow2(5 - bits) % WORD % 32 == Quintet(waiting + Zeros(5 - bits))
  {
    SmallPowers();
    var p, t := Pow2(bits), Pow2(5 - bits);
    ValueOfConcat(waiting, Zeros(5 - bits));
    ValueOfZeros(5 - bits);
    FiveBits(waiting + Zeros(5 - bits));
    assert p * t == 32;
    ShiftUp(buf, p, t);
  }

  lemma ShiftUp(buf: nat, p: nat, t: nat)
    requires p > 0 && p * t == 32
    ensures buf * t % WORD % 32 == buf % p * t
  {
    var q, low := buf / p, buf % p;
    assert buf == q * p + low;
    assert (q * p + low) * t == q * (p * t) + low * t;
    var k := buf * t / WORD;
    Distribute(p, low, t);
    AtLeast(p - low, t);
    DivModUnique(buf * t % WORD, 32, q - k * (WORD / 32), low * t);
  }

  lemma LettersAppend(qs: seq<quintet>, q: quintet)
    ensures Letters(qs + [q]) == Letters(qs) + [Letter(q)]
  {
  }

  method Base32Encode(data: seq<byte>) returns (sb: seq<byte>)
    ensures sb == Encoding(data)
  {
    hide ValueOf, BitsOf, Pow2, Letters, Quintets, DataBits, Quintet;
    sb := [];
    var buf: nat := 0;
    var bits: nat := 0;
    ghost var out: seq<quintet>, waiting: seq<bit> := [], [];
    ghost var whole := Quintets(DataBits(data));
    NothingYet(data);
    for i := 0 to |data|
      invariant buf < WORD && bits == |waiting| < 5 && buf % Pow2(bits) == ValueOf(waiting)
      invariant sb == Letters(out) && whole == out + Quintets(waiting + DataBits(data[i..]))
    {
      LowBitsSurvive(buf, data[i], bits);
      IncomingValue(waiting, data[i]);
      IncomingBits(waiting, data, i);
      buf := ShiftIn(buf, data[i]);
      bits := bits + 8;
      waiting := waiting + BitsOf(data[i], 8);
      ghost var later := DataBits(data[i + 1..]);
      while bits >= 5
        invariant buf < WORD && bits == |waiting| <= 12 && buf % Pow2(bits) == ValueOf(waiting)
        invariant sb == Letters(out) && whole == out + Quintets(waiting + later)
      {
        TakeQuintet(buf, bits, waiting);
        NextGroup(waiting, later);
        bits := bits - 5;
        var idx := buf / Pow2(bits) % 32;
        LettersAppend(out, idx);
        sb := sb + [Letter(idx)];
        out, waiting := out + [idx], waiting[5..];
      }
    }
    LastGroup(waiting, data[|data|..]);
    if bits > 0 {
      LastQuintet(buf, bits, waiting);
      var idx := buf * Pow2(5 - bits) % WORD % 32;
      LettersAppend(out, idx);
      sb := sb + [Letter(idx)];
    } else {
      assert out + [] == out;
    }
  }

  lemma NothingYet(data: seq<byte>)
    ensures 0 % Pow2(0) == ValueOf([]) && Letters([]) == []
    ensures [] + Quintets([] + DataBits(data[0..])) == Quintets(DataBits(data))
  {
    assert [] + DataBits(data[0..]) == DataBits(data);
  }

  lemma LastGroup(waiting: seq<bit>, none: seq<byte>)
    requires |waiting| < 5 && none == []
    ensures Quintets(waiting + DataBits(none))
      == if waiting == [] then [] else [Quintet(waiting + Zeros(5 - |waiting|))]
  {
    hide Quintets, Quintet, Zeros;
    assert waiting + DataBits(none) == waiting;
    ShortQuintets(waiting);
  }

  lemma ShortQuintets(bits: seq<bit>)
    requires |bits| < 5
    ensures Quintets(bits) == if bits == [] then [] else [Quintet(bits + Zeros(5 - |bits|))]
  {
    hide Quintet, Zeros;
  }

  lemma IncomingValue(waiting: seq<bit>, b: byte)
    ensures ValueOf(waiting + BitsOf(b, 8)) == ValueOf(waiting) * 256 + b
  {
    hide ValueOf, BitsOf, Pow2;
    Pow2Eight();
    ValueOfConcat(waiting, BitsOf(b, 8));
    ValueOfBits(b, 8);
  }

  lemma IncomingBits(waiting: seq<bit>, data: seq<byte>, i: nat)
    requires i < |data|
    ensures waiting + DataBits(data[i..]) == waiting + BitsOf(data[i], 8) + DataBits(data[i + 1..])
  {
    hide BitsOf;
    assert data[i..][1..] == data[i + 1..];
  }

  lemma NextGroup(waiting: seq<bit>, later: seq<bit>)
    requires |waiting| >= 5
    ensures Quintets(waiting + later) == [Quintet(waiting[..5])] + Quintets(waiting[5..] + later)
  {
    assert (waiting + later)[..5] == waiting[..5];
    assert (waiting + later)[5..] == waiting[5..] + later;
  }

  // ----- Decoding -----

  function IndexOf(c: byte): Option<quintet> {
    if 65 <= c <= 90 then Some(c - 65) else if 50 <= c <= 55 then Some(c - 24) else None
  }

  function QuintetBits(qs: seq<quintet>): seq<bit> {
    if qs == [] then [] else BitsOf(qs[0], 5) + QuintetBits(qs[1..])
  }

  lemma {:induction false} OctetBound(bits: seq<bit>)
    requires |bits| == 8
    ensures ValueOf(bits) < 256
  {
    BitsOfValue(bits);
    SmallPowers();
  }

  /** Whole bytes of a bit string; what is left over is dropped. */
  function BytesOf(bits: seq<bit>): seq<byte> {
    if |bits| < 8 then []
    else
      OctetBound(bits[..8]);
      [ValueOf(bits[..8])] + BytesOf(bits[8..])
  }

  function Indices(s: seq<byte>): Option<seq<quintet>> {
    if s == [] then Some([])
    else
      match (IndexOf(s[0]), Indices(s[1..]))
      case (Some(q), Some(qs)) => Some([q] + qs)
      case _ => None
  }

  /** A decoder for unpadded base32; None on a letter outside the alphabet. */
  function Decoding(s: seq<byte>): Option<seq<byte>> {
    match Indices(s)
    case None => None
    case Some(qs) => Some(BytesOf(QuintetBits(qs)))
  }

  lemma {:induction false} IndicesOfLetters(qs: seq<quintet>)
    ensures Indices(Letters(qs)) == Some(qs)
  {
    if qs != [] {
      assert Letters(qs)[1..] == Letters(qs[1..]);
      IndicesOfLetters(qs[1..]);
      assert qs == [qs[0]] + qs[1..];
    }
  }

  lemma BitsOfOne(group: seq<bit>, more: seq<quintet>)
    requires |group| == 5
    ensures QuintetBits([Quintet(group)] + more) == group + QuintetBits(more)
  {
    BitsOfValue(group);
    assert ([Quintet(group)] + more)[1..] == more;
  }

  lemma {:induction false} BitsOfQuintets(bits: seq<bit>) returns (fill: nat)
    ensures fill < 5 && QuintetBits(Quintets(bits)) == bits + Zeros(fill)
  {
    hide ValueOf, BitsOf, Quintet, QuintetBits;
    if bits == [] {
      fill := 0;
      NoQuintets();
    } else if |bits| < 5 {
      fill := 5 - |bits|;
      NoQuintets();
      var group := bits + Zeros(fill);
      BitsOfOne(group, []);
      assert [Quintet(group)] + [] == [Quintet(group)] && group + [] == group;
    } else {
      fill := BitsOfQuintets(bits[5..]);
      BitsOfOne(bits[..5], Quintets(bits[5..]));
      assert bits[..5] + (bits[5..] + Zeros(fill)) == bits + Zeros(fill);
    }
  }

  lemma NoQuintets()
    ensures QuintetBits([]) == []
  {
  }

  lemma {:induction false} BytesOfDataBits(data: seq<byte>, extra: seq<bit>)
    requires |extra| < 8
    ensures BytesOf(DataBits(data) + extra) == data
  {
    if data == [] {
      assert DataBits(data) + extra == extra;
    } else {
      var all := DataBits(data) + extra;
      assert all == BitsOf(data[0], 8) + (DataBits(data[1..]) + extra);
      assert all[..8] == BitsOf(data[0], 8) && all[8..] == DataBits(data[1..]) + extra;
      SmallPowers();
      ValueOfBits(data[0], 8);
      BytesOfDataBits(data[1..], extra);
    }
  }

  /** Decoding recovers the bytes, for input of any length. */
  lemma DecodingInverts(data: seq<byte>)
    ensures Decoding(Encoding(data)) == Some(data)
  {
    var bits := DataBits(data);
    IndicesOfLetters(Quintets(bits));
    var fill := BitsOfQuintets(bits);
    BytesOfDataBits(data, Zeros(fill));
  }

  /** No two byte strings share an encoding. */
  lemma EncodingIsInjective(a: seq<byte>, b: seq<byte>)
    requires Encoding(a) == Encoding(b)
    ensures a == b
  {
    DecodingInverts(a);
    DecodingInverts(b);
  }

  lemma {:induction false} QuintetsLength(bits: seq<bit>)
    ensures |Quintets(bits)| == (|bits| + 4) / 5
  {
    if |bits| >= 5 {
      QuintetsLength(bits[5..]);
    }
  }

  /** Eight letters for every five bytes, rounded up. */
  lemma EncodingLength(data: seq<byte>)
    ensures |Encoding(data)| == (8 * |data| + 4) / 5
  {
    DataBitsLength(data);
    QuintetsLength(DataBits(data));
  }
}
