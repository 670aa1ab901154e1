/** The console's UTF-8 decoder against section 3 of RFC 3629. */
module Utf8 {
  import opened Bytes

  const QUESTION := 0x3F

  // ---- RFC 3629 ----

  predicate Scalar(c: nat) {
    c < 0xD800 || 0xE000 <= c < 0x11_0000
  }

  function Tail(c: nat): byte { 0x80 + c % 64 }

  function Encode(c: nat): (s: seq<byte>)
    requires Scalar(c)
    ensures 1 <= |s| <= 4
  {
    if c < 0x80 then [c]
    else if c < 0x800 then [0xC0 + c / 64, Tail(c)]
    else if c < 0x1_0000 then [0xE0 + c / 64 / 64, Tail(c / 64), Tail(c)]
    else [0xF0 + c / 64 / 64 / 64, Tail(c / 64 / 64), Tail(c / 64), Tail(c)]
  }

  function EncodeAll(cs: seq<nat>): seq<byte>
    requires forall i | 0 <= i < |cs| :: Scalar(cs[i])
  {
    if cs == [] then [] else Encode(cs[0]) + EncodeAll(cs[1..])
  }

  // ---- utf8_next_codepoint ----

  /** The text from `p` ends with a zero byte at `z`; the decoder may look two bytes further. */
  ghost predicate Text(m: seq<byte>, p: nat, z: nat) {
    p <= z && z + 2 < |m| && m[z] == 0 && forall i | p <= i < z :: m[i] != 0
  }

  predicate Continues(b: byte) { b / 64 == 2 }

  /** The low bits of a byte. */
  function Low(b: byte, m: nat): nat
    requires m > 0
  {
    (b as int) % m
  }

  /** Six more bits. */
  function Shift(c: nat, b: byte): nat { c * 64 + Low(b, 64) }

  lemma ShiftBack(c: nat, b: byte)
    ensures Shift(c, b) / 64 == c && (Continues(b) ==> Tail(Shift(c, b)) == b)
  {
  }

  lemma TailShift(c: nat)
    ensures Shift(c / 64, Tail(c)) == c && Continues(Tail(c))
  {
  }

  /** The code point at `p` and where the next one starts; a question mark for a byte that starts nothing valid. */
  function Next(m: seq<byte>, p: nat): (r: (nat, nat))
    requires p < |m| && (m[p] == 0 || p + 3 < |m|)
  {
    var b0 := m[p];
    if b0 == 0 then (0, p)
    else if b0 < 0x80 then (b0, p + 1)
    else if Continues(b0) then (QUESTION, p + 1)
    else if b0 / 32 == 6 then
      var b1 := m[p + 1];
      if !Continues(b1) then (QUESTION, p + 1)
      else
        var cp := Shift(Low(b0, 32), b1);
        if cp < 0x80 then (QUESTION, p + 1) else (cp, p + 2)
    else if b0 / 16 == 14 then
      var b1, b2 := m[p + 1], m[p + 2];
      if !Continues(b1) || !Continues(b2) then (QUESTION, p + 1)
      else
        var cp := Shift(Shift(Low(b0, 16), b1), b2);
        if cp < 0x800 || 0xD800 <= cp <= 0xDFFF then (QUESTION, p + 1) else (cp, p + 3)
    else if b0 / 8 == 30 then
      var b1, b2, b3 := m[p + 1], m[p + 2], m[p + 3];
      if !Continues(b1) || !Continues(b2) || !Continues(b3) then (QUESTION, p + 1)
      else
        var cp := Shift(Shift(Shift(Low(b0, 8), b1), b2), b3);
        if cp < 0x1_0000 || cp > 0x10_FFFF then (QUESTION, p + 1) else (cp, p + 4)
    else (QUESTION, p + 1)
  }

  /** Some character other than NUL is encoded at `p`. */
  ghost predicate StartsWith(m: seq<byte>, p: nat, c: nat) {
    Scalar(c) && c != 0 && p + |Encode(c)| <= |m| && m[p..p + |Encode(c)|] == Encode(c)
  }

  /** What follows an encoded character is where the decoder goes on, with that character. */
  lemma NextOfEncoded(m: seq<byte>, p: nat, c: nat)
    requires p + 3 < |m| && StartsWith(m, p, c)
    ensures Next(m, p) == (c, p + |Encode(c)|)
  {
    var e := Encode(c);
    SliceAt(m, p, e);
    if c < 0x80 {
    } else if c < 0x800 {
      TailShift(c);
      LeadByte(c / 64, 32, 0xC0);
    } else if c < 0x1_0000 {
      TailShift(c);
      TailShift(c / 64);
      LeadByte(c / 64 / 64, 16, 0xE0);
    } else {
      TailShift(c);
      TailShift(c / 64);
      TailShift(c / 64 / 64);
      LeadByte(c / 64 / 64 / 64, 8, 0xF0);
    }
  }

  lemma LeadByte(x: nat, m: nat, lead: byte)
    requires x < m && m in {32, 16, 8} && lead == (if m == 32 then 0xC0 else if m == 16 then 0xE0 else 0xF0)
    ensures lead + x < 0x100 && Low(lead + x, m) == x
    ensures (lead + x) / 32 == 6 <==> m == 32
    ensures (lead + x) / 16 == 14 <==> m == 16
    ensures (lead + x) / 8 == 30 <==> m == 8
    ensures !Continues(lead + x) && lead + x >= 0x80
  {
  }

  lemma SliceAt(m: seq<byte>, p: nat, e: seq<byte>)
    requires 1 <= |e| <= 4 && p + |e| <= |m| && m[p..p + |e|] == e
    ensures m[p] == e[0] && (|e| > 1 ==> m[p + 1] == e[1]) && (|e| > 2 ==> m[p + 2] == e[2])
            && (|e| > 3 ==> m[p + 3] == e[3])
  {
    assert forall i | 0 <= i < |e| :: m[p..p + |e|][i] == e[i];
  }

  /** Whatever the decoder takes as more than one byte is the one shortest encoding of a scalar value. */
  lemma AcceptedIsEncoded(m: seq<byte>, p: nat)
    requires p + 3 < |m| && m[p] != 0 && (m[p] < 0x80 || Next(m, p).1 != p + 1)
    ensures StartsWith(m, p, Next(m, p).0) && Next(m, p).1 == p + |Encode(Next(m, p).0)|
  {
    var (c, q) := Next(m, p);
    var b0 := m[p];
    if q == p + 2 {
      ShiftBack(Low(b0, 32), m[p + 1]);
    } else if q == p + 3 {
      var x := Shift(Low(b0, 16), m[p + 1]);
      ShiftBack(Low(b0, 16), m[p + 1]);
      ShiftBack(x, m[p + 2]);
    } else if q == p + 4 {
      var x := Shift(Low(b0, 8), m[p + 1]);
      var y := Shift(x, m[p + 2]);
      ShiftBack(Low(b0, 8), m[p + 1]);
      ShiftBack(x, m[p + 2]);
      ShiftBack(y, m[p + 3]);
    }
    assert m[p..q] == Encode(c);
  }

  /** The decoder recognises exactly the well-formed characters. */
  lemma RecognisesExactly(m: seq<byte>, p: nat, c: nat)
    requires p + 3 < |m| && m[p] != 0
    ensures StartsWith(m, p, c) <==> Next(m, p).0 == c && (m[p] < 0x80 || Next(m, p).1 != p + 1)
  {
    if StartsWith(m, p, c) {
      NextOfEncoded(m, p, c);
      assert m[p] == Encode(c)[0];
    } else if m[p] < 0x80 || Next(m, p).1 != p + 1 {
      AcceptedIsEncoded(m, p);
    }
  }

  /** Where no character is encoded, one byte is shown as a question mark. */
  lemma MalformedIsQuestion(m: seq<byte>, p: nat)
    requires p + 3 < |m| && m[p] != 0 && forall c :: !StartsWith(m, p, c)
    ensures Next(m, p) == (63, p + 1)
  {
    if m[p] < 0x80 || Next(m, p).1 != p + 1 {
      AcceptedIsEncoded(m, p);
    }
  }

  /** On any text the decoder moves on, and not past the terminator. */
  lemma NextInside(m: seq<byte>, p: nat, z: nat)
    requires Text(m, p, z) && p < z
    ensures p < Next(m, p).1 <= z && Next(m, p).0 != 0
  {
    var q := Next(m, p).1;
    if q != p + 1 {
      AcceptedIsEncoded(m, p);
      assert forall i | p < i < q :: Continues(m[i]);
    }
  }

  /** What lies beyond the terminator never changes the result. */
  lemma BeyondDoesNotMatter(m: seq<byte>, n: seq<byte>, p: nat, z: nat)
    requires Text(m, p, z) && Text(n, p, z) && p < z && m[p..z + 1] == n[p..z + 1]
    ensures Next(m, p) == Next(n, p)
  {
    assert forall i | p <= i <= z :: m[i] == m[p..z + 1][i - p] == n[p..z + 1][i - p] == n[i];
  }

  /** The encodings of RFC 3629: the length follows the ranges, and the payload bits make the number. */
  lemma EncodeIs(c: nat)
    requires Scalar(c)
    ensures c < 0x80 ==> Encode(c) == [c]
    ensures 0x80 <= c < 0x800 ==>
      var e := Encode(c);
      && |e| == 2 && 0xC2 <= e[0] <= 0xDF && 0x80 <= e[1] <= 0xBF
      && c == (e[0] as int - 0xC0) * 0x40 + (e[1] as int - 0x80)
    ensures 0x800 <= c < 0x1_0000 ==>
      var e := Encode(c);
      && |e| == 3 && 0xE0 <= e[0] <= 0xEF && 0x80 <= e[1] <= 0xBF && 0x80 <= e[2] <= 0xBF
      && c == (e[0] as int - 0xE0) * 0x1000 + (e[1] as int - 0x80) * 0x40 + (e[2] as int - 0x80)
    ensures 0x1_0000 <= c ==>
      var e := Encode(c);
      && |e| == 4 && 0xF0 <= e[0] <= 0xF4 && 0x80 <= e[1] <= 0xBF && 0x80 <= e[2] <= 0xBF && 0x80 <= e[3] <= 0xBF
      && c == (e[0] as int - 0xF0) * 0x4_0000 + (e[1] as int - 0x80) * 0x1000 + (e[2] as int - 0x80) * 0x40
              + (e[3] as int - 0x80)
  {
  }

  // ---- the loop of string ----

  /** The code points of the text from `p`. */
  function Decode(m: seq<byte>, p: nat, z: nat): seq<nat>
    requires Text(m, p, z)
    decreases z - p
  {
    if p == z then [] else
      NextInside(m, p, z);
      [Next(m, p).0] + Decode(m, Next(m, p).1, z)
  }

  /** The loop in `string`: it ends, and hands exactly these code points to the console. */
  method Print(m: seq<byte>, start: nat, ghost z: nat) returns (shown: seq<nat>)
    requires Text(m, start, z)
    ensures shown == Decode(m, start, z)
  {
    shown := [];
    var p := start;
    while m[p] != 0
      invariant start <= p <= z && Text(m, p, z)
      invariant shown + Decode(m, p, z) == Decode(m, start, z)
      decreases z - p
    {
      NextInside(m, p, z);
      var (cp, q) := Next(m, p);
      if cp == 0 {
        break;
      }
      assert shown + Decode(m, p, z) == (shown + [cp]) + Decode(m, q, z);
      shown := shown + [cp];
      p := q;
    }
  }

  lemma DecodeStep(m: seq<byte>, p: nat, q: nat, z: nat, c: nat)
    requires Text(m, q, z) && StartsWith(m, p, c) && q == p + |Encode(c)|
    ensures Text(m, p, z) && Decode(m, p, z) == [c] + Decode(m, q, z)
  {
    NoZeros(m, p, c);
    NextOfEncoded(m, p, c);
  }

  /** Decoding the encoding of any list of scalar values gives the list back. */
  lemma {:induction false} RoundTrip(m: seq<byte>, p: nat, z: nat, cs: seq<nat>)
    requires forall i | 0 <= i < |cs| :: Scalar(cs[i]) && cs[i] != 0
    requires z + 2 < |m| && p + |EncodeAll(cs)| == z && m[p..z] == EncodeAll(cs) && m[z] == 0
    ensures Text(m, p, z) && Decode(m, p, z) == cs
    decreases |cs|
  {
    if cs == [] {
      assert m[p..z] == [];
    } else {
      var q := p + |Encode(cs[0])|;
      SplitSlice(m, p, z, Encode(cs[0]), EncodeAll(cs[1..]));
      RoundTrip(m, q, z, cs[1..]);
      DecodeStep(m, p, q, z, cs[0]);
    }
  }

  lemma SplitSlice(m: seq<byte>, p: nat, z: nat, a: seq<byte>, b: seq<byte>)
    requires p <= z <= |m| && m[p..z] == a + b
    ensures p + |a| <= z && m[p..p + |a|] == a && m[p + |a|..z] == b
  {
    assert |m[p..z]| == |a| + |b|;
    assert m[p..p + |a|] == m[p..z][..|a|];
    assert m[p + |a|..z] == m[p..z][|a|..];
  }

  lemma NoZeros(m: seq<byte>, p: nat, c: nat)
    requires Scalar(c) && c != 0 && p + |Encode(c)| <= |m| && m[p..p + |Encode(c)|] == Encode(c)
    ensures forall i | p <= i < p + |Encode(c)| :: m[i] != 0
  {
    SliceAt(m, p, Encode(c));
  }
}
