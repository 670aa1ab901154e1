/** SHA-256 against FIPS 180-4: padding, message schedule, compression, and the hexadecimal digest. */
module Sha256 {

  type word = bv32

  // ---- the functions of section 4.1.2, with a rotation as one operation ----

  function Ch(x: word, y: word, z: word): word { (x & y) ^ (!x & z) }
  function Maj(x: word, y: word, z: word): word { (x & y) ^ (x & z) ^ (y & z) }
  function BigSigma0(x: word): word { x.RotateRight(2) ^ x.RotateRight(13) ^ x.RotateRight(22) }
  function BigSigma1(x: word): word { x.RotateRight(6) ^ x.RotateRight(11) ^ x.RotateRight(25) }
  function SmallSigma0(x: word): word { x.RotateRight(7) ^ x.RotateRight(18) ^ (x >> 3) }
  function SmallSigma1(x: word): word { x.RotateRight(17) ^ x.RotateRight(19) ^ (x >> 10) }

  /** Each bit of x chooses between y and z. */
  lemma ChChooses(x: word, y: word, z: word)
    ensures Ch(x, y, z) & x == y & x && Ch(x, y, z) & !x == z & !x
  {
  }

  /** Where two of the three agree, that is the bit. */
  lemma MajIsMajority(x: word, y: word, z: word)
    ensures Maj(x, y, z) & !(x ^ y) == x & !(x ^ y)
    ensures Maj(x, y, z) & !(x ^ z) == x & !(x ^ z)
    ensures Maj(x, y, z) & !(y ^ z) == y & !(y ^ z)
  {
    MajFirstTwo(x, y, z);
    MajOuterTwo(x, y, z);
    MajLastTwo(x, y, z);
  }

  lemma MajFirstTwo(x: word, y: word, z: word)
    ensures Maj(x, y, z) & !(x ^ y) == x & !(x ^ y)
  {
  }

  lemma MajOuterTwo(x: word, y: word, z: word)
    ensures Maj(x, y, z) & !(x ^ z) == x & !(x ^ z)
  {
  }

  lemma MajLastTwo(x: word, y: word, z: word)
    ensures Maj(x, y, z) & !(y ^ z) == y & !(y ^ z)
  {
  }

  // ---- the macros of the source ----

  function F1(x: word): word { ((x >> 2) | (x << 30)) ^ ((x >> 13) | (x << 19)) ^ ((x >> 22) | (x << 10)) }
  function F2(x: word): word { ((x >> 6) | (x << 26)) ^ ((x >> 11) | (x << 21)) ^ ((x >> 25) | (x << 7)) }
  function F3(x: word): word { ((x >> 7) | (x << 25)) ^ ((x >> 18) | (x << 14)) ^ (x >> 3) }
  function F4(x: word): word { ((x >> 17) | (x << 15)) ^ ((x >> 19) | (x << 13)) ^ (x >> 10) }

  lemma MacrosAreSigmas(x: word)
    ensures F1(x) == BigSigma0(x) && F2(x) == BigSigma1(x) && F3(x) == SmallSigma0(x) && F4(x) == SmallSigma1(x)
  {
  }

  // ---- constants ----

  /** The table of the source. */
  function K(i: nat): word
    requires i < 64
  {
    match i
      case 0 => 0x428a2f98 case 1 => 0x71374491 case 2 => 0xb5c0fbcf case 3 => 0xe9b5dba5 case 4 => 0x3956c25b
      case 5 => 0x59f111f1 case 6 => 0x923f82a4 case 7 => 0xab1c5ed5 case 8 => 0xd807aa98 case 9 => 0x12835b01
      case 10 => 0x243185be case 11 => 0x550c7dc3 case 12 => 0x72be5d74 case 13 => 0x80deb1fe case 14 => 0x9bdc06a7
      case 15 => 0xc19bf174 case 16 => 0xe49b69c1 case 17 => 0xefbe4786 case 18 => 0x0fc19dc6 case 19 => 0x240ca1cc
      case 20 => 0x2de92c6f case 21 => 0x4a7484aa case 22 => 0x5cb0a9dc case 23 => 0x76f988da case 24 => 0x983e5152
      case 25 => 0xa831c66d case 26 => 0xb00327c8 case 27 => 0xbf597fc7 case 28 => 0xc6e00bf3 case 29 => 0xd5a79147
      case 30 => 0x06ca6351 case 31 => 0x14292967 case 32 => 0x27b70a85 case 33 => 0x2e1b2138 case 34 => 0x4d2c6dfc
      case 35 => 0x53380d13 case 36 => 0x650a7354 case 37 => 0x766a0abb case 38 => 0x81c2c92e case 39 => 0x92722c85
      case 40 => 0xa2bfe8a1 case 41 => 0xa81a664b case 42 => 0xc24b8b70 case 43 => 0xc76c51a3 case 44 => 0xd192e819
      case 45 => 0xd6990624 case 46 => 0xf40e3585 case 47 => 0x106aa070 case 48 => 0x19a4c116 case 49 => 0x1e376c08
      case 50 => 0x2748774c case 51 => 0x34b0bcb5 case 52 => 0x391c0cb3 case 53 => 0x4ed8aa4a case 54 => 0x5b9cca4f
      case 55 => 0x682e6ff3 case 56 => 0x748f82ee case 57 => 0x78a5636f case 58 => 0x84c87814 case 59 => 0x8cc70208
      case 60 => 0x90beffea case 61 => 0xa4506ceb case 62 => 0xbef9a3f7 case _ => 0xc67178f2
  }

  /** The table of section 4.2.2. */
  function FipsK(i: nat): word
    requires i < 64
  {
    if i == 60 then 0x90befffa else K(i)
  }

  const H0: seq<word> := [0x6a09e667, 0xbb67ae85, 0x3c6ef372, 0xa54ff53a,
                          0x510e527f, 0x9b05688c, 0x1f83d9ab, 0x5be0cd19]

  /** The first sixty-four primes. */
  function Prime(i: nat): nat
    requires i < 64
  {
    match i
      case 0 => 2 case 1 => 3 case 2 => 5 case 3 => 7 case 4 => 11 case 5 => 13 case 6 => 17 case 7 => 19 case 8 => 23
      case 9 => 29 case 10 => 31 case 11 => 37 case 12 => 41 case 13 => 43 case 14 => 47 case 15 => 53 case 16 => 59
      case 17 => 61 case 18 => 67 case 19 => 71 case 20 => 73 case 21 => 79 case 22 => 83 case 23 => 89 case 24 => 97
      case 25 => 101 case 26 => 103 case 27 => 107 case 28 => 109 case 29 => 113 case 30 => 127 case 31 => 131
      case 32 => 137 case 33 => 139 case 34 => 149 case 35 => 151 case 36 => 157 case 37 => 163 case 38 => 167
      case 39 => 173 case 40 => 179 case 41 => 181 case 42 => 191 case 43 => 193 case 44 => 197 case 45 => 199
      case 46 => 211 case 47 => 223 case 48 => 227 case 49 => 229 case 50 => 233 case 51 => 239 case 52 => 241
      case 53 => 251 case 54 => 257 case 55 => 263 case 56 => 269 case 57 => 271 case 58 => 277 case 59 => 281
      case 60 => 283 case 61 => 293 case 62 => 307 case _ => 311
  }

  /** `k` holds the first 32 bits of the fractional part of the cube root of `p`, whose integer part is `c`. */
  predicate CubeRootFraction(p: nat, c: nat, k: nat) {
    var x := c * 0x1_0000_0000 + k;
    x * x * x <= p * 0x1_0000_0000_0000_0000_0000_0000 < (x + 1) * (x + 1) * (x + 1)
  }

  predicate SquareRootFraction(p: nat, c: nat, k: nat) {
    var x := c * 0x1_0000_0000 + k;
    x * x <= p * 0x1_0000_0000_0000_0000 < (x + 1) * (x + 1)
  }

  /** The integer part of the cube root of a prime below 343. */
  function CubeRootPart(p: nat): nat {
    if p < 8 then 1 else if p < 27 then 2 else if p < 64 then 3 else if p < 125 then 4 else if p < 216 then 5 else 6
  }

  function SquareRootPart(p: nat): nat {
    if p < 4 then 1 else if p < 9 then 2 else if p < 16 then 3 else 4
  }

  lemma FipsConstants(i: nat)
    requires i < 64
    ensures CubeRootFraction(Prime(i), CubeRootPart(Prime(i)), FipsK(i) as int)
  {
    if i < 8 { FipsConstants0(i); } else if i < 16 { FipsConstants8(i); } else if i < 24 { FipsConstants16(i); }
    else if i < 32 { FipsConstants24(i); } else if i < 40 { FipsConstants32(i); } else if i < 48 { FipsConstants40(i); }
    else if i < 56 { FipsConstants48(i); } else { FipsConstants56(i); }
  }

  lemma FipsConstants0(i: nat)
    requires 0 <= i < 8
    ensures CubeRootFraction(Prime(i), CubeRootPart(Prime(i)), FipsK(i) as int)
  {
    match i {
      case 0 => case 1 => case 2 => case 3 => case 4 => case 5 => case 6 => case _ =>
    }
  }

  lemma FipsConstants8(i: nat)
    requires 8 <= i < 16
    ensures CubeRootFraction(Prime(i), CubeRootPart(Prime(i)), FipsK(i) as int)
  {
    match i {
      case 8 => case 9 => case 10 => case 11 => case 12 => case 13 => case 14 => case _ =>
    }
  }

  lemma FipsConstants16(i: nat)
    requires 16 <= i < 24
    ensures CubeRootFraction(Prime(i), CubeRootPart(Prime(i)), FipsK(i) as int)
  {
    match i {
      case 16 => case 17 => case 18 => case 19 => case 20 => case 21 => case 22 => case _ =>
    }
  }

  lemma FipsConstants24(i: nat)
    requires 24 <= i < 32
    ensures CubeRootFraction(Prime(i), CubeRootPart(Prime(i)), FipsK(i) as int)
  {
    match i {
      case 24 => case 25 => case 26 => case 27 => case 28 => case 29 => case 30 => case _ =>
    }
  }

  lemma FipsConstants32(i: nat)
    requires 32 <= i < 40
    ensures CubeRootFraction(Prime(i), CubeRootPart(Prime(i)), FipsK(i) as int)
  {
    match i {
      case 32 => case 33 => case 34 => case 35 => case 36 => case 37 => case 38 => case _ =>
    }
  }

  lemma FipsConstants40(i: nat)
    requires 40 <= i < 48
    ensures CubeRootFraction(Prime(i), CubeRootPart(Prime(i)), FipsK(i) as int)
  {
    match i {
      case 40 => case 41 => case 42 => case 43 => case 44 => case 45 => case 46 => case _ =>
    }
  }

  lemma FipsConstants48(i: nat)
    requires 48 <= i < 56
    ensures CubeRootFraction(Prime(i), CubeRootPart(Prime(i)), FipsK(i) as int)
  {
    match i {
      case 48 => case 49 => case 50 => case 51 => case 52 => case 53 => case 54 => case _ =>
    }
  }

  lemma FipsConstants56(i: nat)
    requires 56 <= i < 64
    ensures CubeRootFraction(Prime(i), CubeRootPart(Prime(i)), FipsK(i) as int)
  {
    match i {
      case 56 => case 57 => case 58 => case 59 => case 60 => case 61 => case 62 => case _ =>
    }
  }

  /** The source's table is wrong in one place. */
  lemma KFromPrimes(i: nat)
    requires i < 64
    ensures K(i) == FipsK(i) <==> i != 60
    ensures CubeRootFraction(Prime(i), CubeRootPart(Prime(i)), K(i) as int) <==> i != 60
  {
    if i != 60 {
      FipsConstants(i);
    }
  }

  lemma H0FromPrimes(i: nat)
    requires i < 8
    ensures SquareRootFraction(Prime(i), SquareRootPart(Prime(i)), H0[i] as int)
  {
    if i == 0 {} else if i == 1 {} else if i == 2 {} else if i == 3 {}
    else if i == 4 {} else if i == 5 {} else if i == 6 {} else {}
  }

  // ---- section 6.2.2 ----

  type Block = b: seq<bv8> | |b| == 64 witness seq(64, i => 0)

  datatype Vars = Vars(a: word, b: word, c: word, d: word, e: word, f: word, g: word, h: word)

  /** The word operations and the constants. Nothing in the algorithm depends on what they compute. */
  datatype Ops = Ops(
    add: (word, word) -> word,
    ch: (word, word, word) -> word,
    maj: (word, word, word) -> word,
    big0: word -> word, big1: word -> word, small0: word -> word, small1: word -> word,
    load: (bv8, bv8, bv8, bv8) -> word,
    k: nat -> word)

  function Plus(x: word, y: word): word { x + y }

  function Load(b0: bv8, b1: bv8, b2: bv8, b3: bv8): word {
    (b0 as word << 24) | (b1 as word << 16) | (b2 as word << 8) | (b3 as word)
  }

  /** The first word of the padded message "abc". */
  lemma LoadsBigEndian()
    ensures Load(0x61, 0x62, 0x63, 0x80) == 0x61626380
  {
  }

  /** FIPS 180-4. */
  function Standard(): Ops {
    Ops(Plus, Ch, Maj, BigSigma0, BigSigma1, SmallSigma0, SmallSigma1, Load, (i: nat) => if i < 64 then FipsK(i) else 0)
  }

  /** The source. */
  function Source(): Ops {
    Ops(Plus, Ch, Maj, F1, F2, F3, F4, Load, (i: nat) => if i < 64 then K(i) else 0)
  }

  const ROUNDS: nat := 64

  function NextWord(o: Ops, b: Block, w: seq<word>): word {
    var t := |w|;
    if t < 16 then o.load(b[4 * t], b[4 * t + 1], b[4 * t + 2], b[4 * t + 3])
    else o.add(o.add(o.add(o.small1(w[t - 2]), w[t - 7]), o.small0(w[t - 15])), w[t - 16])
  }

  /** The first `n` words of the message schedule. */
  function Schedule(o: Ops, b: Block, n: nat): (w: seq<word>)
    ensures |w| == n
  {
    if n == 0 then [] else Schedule(o, b, n - 1) + [NextWord(o, b, Schedule(o, b, n - 1))]
  }

  function T1(o: Ops, v: Vars, k: word, w: word): word {
    o.add(o.add(o.add(o.add(v.h, o.big1(v.e)), o.ch(v.e, v.f, v.g)), k), w)
  }

  function Round(o: Ops, v: Vars, k: word, w: word): Vars {
    var t1 := T1(o, v, k, w);
    var t2 := o.add(o.big0(v.a), o.maj(v.a, v.b, v.c));
    Vars(o.add(t1, t2), v.a, v.b, v.c, o.add(v.d, t1), v.e, v.f, v.g)
  }

  function Rounds(o: Ops, v: Vars, w: seq<word>, n: nat): Vars
    requires n <= |w|
  {
    if n == 0 then v else Round(o, Rounds(o, v, w, n - 1), o.k(n - 1), w[n - 1])
  }

  function AddVars(o: Ops, x: Vars, y: Vars): Vars {
    Vars(o.add(x.a, y.a), o.add(x.b, y.b), o.add(x.c, y.c), o.add(x.d, y.d),
         o.add(x.e, y.e), o.add(x.f, y.f), o.add(x.g, y.g), o.add(x.h, y.h))
  }

  function Compress(o: Ops, x: Vars, b: Block): Vars {
    AddVars(o, x, Rounds(o, x, Schedule(o, b, ROUNDS), ROUNDS))
  }

  function Initial(): Vars {
    Vars(H0[0], H0[1], H0[2], H0[3], H0[4], H0[5], H0[6], H0[7])
  }

  /** The hash value after `n` blocks of a padded message. */
  function Chain(o: Ops, p: seq<bv8>, n: nat): Vars
    requires 64 * n <= |p|
  {
    if n == 0 then Initial() else Compress(o, Chain(o, p, n - 1), p[64 * (n - 1)..64 * n])
  }

  // ---- section 5.1.1 ----

  function LengthByte(bits: bv64, j: nat): bv8
    requires j < 8
  {
    match j
      case 0 => (bits >> 56) as bv8
      case 1 => ((bits >> 48) & 0xFF) as bv8
      case 2 => ((bits >> 40) & 0xFF) as bv8
      case 3 => ((bits >> 32) & 0xFF) as bv8
      case 4 => ((bits >> 24) & 0xFF) as bv8
      case 5 => ((bits >> 16) & 0xFF) as bv8
      case 6 => ((bits >> 8) & 0xFF) as bv8
      case _ => (bits & 0xFF) as bv8
  }

  function LengthBytes(bits: bv64): (t: seq<bv8>)
    ensures |t| == 8
  {
    seq(8, j requires 0 <= j < 8 => LengthByte(bits, j))
  }

  function BitLength(len: nat): bv64
    requires len < 0x2000_0000_0000_0000
  {
    (8 * len) as bv64
  }

  /** A message, a one bit, the fewest zeros that leave room for the length, and the length in bits, big-endian. */
  function Pad(m: seq<bv8>): seq<bv8>
    requires |m| < 0x2000_0000_0000_0000
  {
    PadWith(m, LengthBytes(BitLength(|m|)))
  }

  function PadWith(m: seq<bv8>, tail: seq<bv8>): (p: seq<bv8>)
    requires |tail| == 8
    ensures |p| == PadLength(|m|)
  {
    m + [0x80] + seq((55 - |m|) % 64, i => 0) + tail
  }

  function PadLength(len: nat): (n: nat)
    ensures n % 64 == 0 && len + 9 <= n < len + 73
  {
    len + 9 + (55 - len) % 64
  }

  /** The same, byte by byte. */
  function PadByte(m: seq<bv8>, tail: seq<bv8>, i: nat): bv8
    requires |tail| == 8 && i < PadLength(|m|)
  {
    if i < |m| then m[i]
    else if i == |m| then 0x80
    else if i < PadLength(|m|) - 8 then 0
    else tail[i - (PadLength(|m|) - 8)]
  }

  lemma PadBytes(m: seq<bv8>, tail: seq<bv8>)
    requires |tail| == 8
    ensures forall i | 0 <= i < PadLength(|m|) :: PadWith(m, tail)[i] == PadByte(m, tail, i)
  {
  }

  /** Eight bytes as one number, big-endian. */
  function Join(b0: bv64, b1: bv64, b2: bv64, b3: bv64, b4: bv64, b5: bv64, b6: bv64, b7: bv64): bv64 {
    (b0 << 56) | (b1 << 48) | (b2 << 40) | (b3 << 32) | (b4 << 24) | (b5 << 16) | (b6 << 8) | b7
  }

  lemma JoinParts(bits: bv64)
    ensures Join(bits >> 56, (bits >> 48) & 0xFF, (bits >> 40) & 0xFF, (bits >> 32) & 0xFF,
                 (bits >> 24) & 0xFF, (bits >> 16) & 0xFF, (bits >> 8) & 0xFF, bits & 0xFF) == bits
  {
  }

  /** The last eight bytes give the length back. */
  lemma LengthReadBack(bits: bv64)
    ensures Join(LengthByte(bits, 0) as bv64, LengthByte(bits, 1) as bv64,
                 LengthByte(bits, 2) as bv64, LengthByte(bits, 3) as bv64,
                 LengthByte(bits, 4) as bv64, LengthByte(bits, 5) as bv64,
                 LengthByte(bits, 6) as bv64, LengthByte(bits, 7) as bv64) == bits
  {
    JoinParts(bits);
  }

  /** Eight bytes, most significant first, as a number. */
  function Joined(t: seq<bv8>): bv64
    requires |t| == 8
  {
    ((t[0] as bv64) << 56) | ((t[1] as bv64) << 48) | ((t[2] as bv64) << 40) | ((t[3] as bv64) << 32)
    | ((t[4] as bv64) << 24) | ((t[5] as bv64) << 16) | ((t[6] as bv64) << 8) | (t[7] as bv64)
  }

  /** The message, a one bit, zeros, and in the last eight bytes the number of bits. */
  lemma PadIs(m: seq<bv8>)
    requires |m| < 0x2000_0000_0000_0000
    ensures var p, e := Pad(m), |Pad(m)| - 8;
            && |p| % 64 == 0 && |m| + 9 <= |p| < |m| + 73
            && p[..|m|] == m && p[|m|] == 0x80 && (forall i | |m| < i < e :: p[i] == 0)
            && Joined(p[e..]) == (8 * |m|) as bv64
  {
    var p, e := Pad(m), |Pad(m)| - 8;
    assert p[e..] == LengthBytes(BitLength(|m|));
    TailJoined(BitLength(|m|));
  }

  lemma TailJoined(bits: bv64)
    ensures Joined(LengthBytes(bits)) == bits
  {
    LengthReadBack(bits);
  }

  /** SHA-256 for `Standard()`; what the source computes for `Source()`. */
  function Sha(o: Ops, m: seq<bv8>): Vars
    requires |m| < 0x2000_0000_0000_0000
  {
    Chain(o, Pad(m), |Pad(m)| / 64)
  }

  // ---- where the source's table matters ----

  /** The two agree on everything but one constant. */
  ghost predicate AlikeBut60(o: Ops, p: Ops) {
    && (forall x, y :: o.add(x, y) == p.add(x, y))
    && (forall x, y, z :: o.ch(x, y, z) == p.ch(x, y, z) && o.maj(x, y, z) == p.maj(x, y, z))
    && (forall x :: o.big0(x) == p.big0(x) && o.big1(x) == p.big1(x))
    && (forall x :: o.small0(x) == p.small0(x) && o.small1(x) == p.small1(x))
    && (forall x, y, z, w :: o.load(x, y, z, w) == p.load(x, y, z, w))
    && (forall i: nat | i < 64 :: o.k(i) == p.k(i) <==> i != 60)
  }

  /** The two words agree in their four lowest bits and differ in the next: sums keep that. */
  predicate Bit4Differs(x: word, y: word) {
    (x ^ y) & 0x1F == 0x10
  }

  ghost predicate SumsKeep(o: Ops) {
    forall x, y, z | Bit4Differs(x, y) :: Bit4Differs(o.add(x, z), o.add(y, z)) && Bit4Differs(o.add(z, x), o.add(z, y))
  }

  lemma PlusKeeps(x: word, y: word, z: word)
    requires Bit4Differs(x, y)
    ensures Bit4Differs(Plus(x, z), Plus(y, z)) && Bit4Differs(Plus(z, x), Plus(z, y))
  {
  }

  lemma SourceIsAlike()
    ensures AlikeBut60(Source(), Standard()) && SumsKeep(Source()) && Bit4Differs(Source().k(60), Standard().k(60))
  {
    SameSigmas();
    SameConstants();
    SourceSums();
  }

  lemma SameSigmas()
    ensures forall x :: Source().big0(x) == Standard().big0(x) && Source().big1(x) == Standard().big1(x)
    ensures forall x :: Source().small0(x) == Standard().small0(x) && Source().small1(x) == Standard().small1(x)
  {
    forall x
      ensures Source().big0(x) == Standard().big0(x) && Source().big1(x) == Standard().big1(x)
      ensures Source().small0(x) == Standard().small0(x) && Source().small1(x) == Standard().small1(x)
    {
      MacrosAreSigmas(x);
    }
  }

  lemma SameConstants()
    ensures forall i: nat | i < 64 :: Source().k(i) == Standard().k(i) <==> i != 60
  {
    forall i: nat | i < 64 ensures Source().k(i) == Standard().k(i) <==> i != 60 {
      KFromPrimes(i);
    }
  }

  lemma SourceSums()
    ensures SumsKeep(Source()) && Bit4Differs(Source().k(60), Standard().k(60))
  {
    forall x, y, z | Bit4Differs(x, y)
      ensures Bit4Differs(Source().add(x, z), Source().add(y, z)) && Bit4Differs(Source().add(z, x), Source().add(z, y))
    {
      PlusKeeps(x, y, z);
    }
  }

  lemma {:induction false} SameSchedule(o: Ops, p: Ops, b: Block, n: nat)
    requires AlikeBut60(o, p)
    ensures Schedule(o, b, n) == Schedule(p, b, n)
  {
    if n > 0 {
      SameSchedule(o, p, b, n - 1);
      SameWord(o, p, b, Schedule(o, b, n - 1));
    }
  }

  lemma SameWord(o: Ops, p: Ops, b: Block, w: seq<word>)
    requires AlikeBut60(o, p)
    ensures NextWord(o, b, w) == NextWord(p, b, w)
  {
    var t := |w|;
    if t < 16 {
      var w0, w1, w2, w3 := b[4 * t], b[4 * t + 1], b[4 * t + 2], b[4 * t + 3];
      assert o.load(w0, w1, w2, w3) == p.load(w0, w1, w2, w3);
    } else {
      var w2: word, w7: word, w15: word, w16: word := w[t - 2], w[t - 7], w[t - 15], w[t - 16];
      assert o.small1(w2) == p.small1(w2) && o.small0(w15) == p.small0(w15);
      var x: word, y: word := o.small1(w2), o.small0(w15);
      assert o.add(o.add(o.add(x, w7), y), w16) == p.add(p.add(p.add(x, w7), y), w16);
    }
  }

  lemma {:induction false} RoundsAgree(o: Ops, p: Ops, v: Vars, w: seq<word>, n: nat)
    requires AlikeBut60(o, p) && n <= 60 && n <= |w|
    ensures Rounds(o, v, w, n) == Rounds(p, v, w, n)
  {
    if n > 0 {
      RoundsAgree(o, p, v, w, n - 1);
    }
  }

  lemma RoundDiffers(o: Ops, p: Ops, v: Vars, w: word)
    requires AlikeBut60(o, p) && SumsKeep(o) && Bit4Differs(o.k(60), p.k(60))
    ensures Bit4Differs(Round(o, v, o.k(60), w).a, Round(p, v, p.k(60), w).a)
  {
    var head := o.add(o.add(v.h, o.big1(v.e)), o.ch(v.e, v.f, v.g));
    assert Bit4Differs(o.add(head, o.k(60)), o.add(head, p.k(60)));
    assert Bit4Differs(T1(o, v, o.k(60), w), T1(p, v, p.k(60), w));
  }

  lemma LastRounds(o: Ops, x: Vars, w: seq<word>)
    requires |w| == ROUNDS
    ensures Rounds(o, x, w, ROUNDS).d == Rounds(o, x, w, ROUNDS - 3).a
    ensures Rounds(o, x, w, ROUNDS - 3) == Round(o, Rounds(o, x, w, ROUNDS - 4), o.k(60), w[60])
  {
    assert Rounds(o, x, w, ROUNDS).d == Rounds(o, x, w, ROUNDS - 1).c == Rounds(o, x, w, ROUNDS - 2).b
        == Rounds(o, x, w, ROUNDS - 3).a;
  }

  lemma RoundsDiffer(o: Ops, p: Ops, x: Vars, w: seq<word>)
    requires AlikeBut60(o, p) && SumsKeep(o) && Bit4Differs(o.k(60), p.k(60)) && |w| == ROUNDS
    ensures Bit4Differs(Rounds(o, x, w, ROUNDS).d, Rounds(p, x, w, ROUNDS).d)
  {
    LastRounds(o, x, w);
    LastRounds(p, x, w);
    RoundsAgree(o, p, x, w, ROUNDS - 4);
    RoundDiffers(o, p, Rounds(o, x, w, ROUNDS - 4), w[60]);
  }

  /** From equal hash values, every block leads to different ones. */
  lemma CompressDiffers(o: Ops, p: Ops, x: Vars, b: Block)
    requires AlikeBut60(o, p) && SumsKeep(o) && Bit4Differs(o.k(60), p.k(60))
    ensures Bit4Differs(Compress(o, x, b).d, Compress(p, x, b).d)
  {
    SameSchedule(o, p, b, ROUNDS);
    RoundsDiffer(o, p, x, Schedule(o, b, ROUNDS));
  }

  /** One block is enough to tell the two apart. */
  ghost predicate AlwaysDiffer(o: Ops, p: Ops) {
    forall x, b {:trigger Compress(o, x, b)} :: Bit4Differs(Compress(o, x, b).d, Compress(p, x, b).d)
  }

  lemma SourceAlwaysDiffers()
    ensures AlwaysDiffer(Source(), Standard())
  {
    SourceIsAlike();
    AlikeDiffer(Source(), Standard());
  }

  lemma AlikeDiffer(o: Ops, p: Ops)
    requires AlikeBut60(o, p) && SumsKeep(o) && Bit4Differs(o.k(60), p.k(60))
    ensures AlwaysDiffer(o, p)
  {
    forall x, b ensures Bit4Differs(Compress(o, x, b).d, Compress(p, x, b).d) {
      CompressDiffers(o, p, x, b);
    }
  }

  lemma DiffersNext(o: Ops, p: Ops, m: seq<bv8>, n: nat)
    requires AlwaysDiffer(o, p)
    requires 64 * (n + 1) <= |m| && Chain(o, m, n) == Chain(p, m, n)
    ensures Bit4Differs(Chain(o, m, n + 1).d, Chain(p, m, n + 1).d)
  {
    ChainNext(o, m, n);
    ChainNext(p, m, n);
    ApplyDiffers(o, p, Chain(o, m, n), BlockAt(m, n), Chain(o, m, n + 1), Chain(p, m, n + 1));
  }

  function BlockAt(m: seq<bv8>, n: nat): Block
    requires 64 * (n + 1) <= |m|
  {
    m[64 * n..64 * (n + 1)]
  }

  lemma ChainNext(o: Ops, m: seq<bv8>, n: nat)
    requires 64 * (n + 1) <= |m|
    ensures Chain(o, m, n + 1) == Compress(o, Chain(o, m, n), BlockAt(m, n))
  {
  }

  lemma ApplyDiffers(o: Ops, p: Ops, x: Vars, b: Block, y: Vars, z: Vars)
    requires AlwaysDiffer(o, p) && y == Compress(o, x, b) && z == Compress(p, x, b)
    ensures Bit4Differs(y.d, z.d)
  {
  }

  /** The two computations never agree after two blocks in a row. */
  lemma NeverAgreesTwice(m: seq<bv8>, n: nat)
    requires 64 * (n + 1) <= |m| && Chain(Source(), m, n) == Chain(Standard(), m, n)
    ensures Bit4Differs(Chain(Source(), m, n + 1).d, Chain(Standard(), m, n + 1).d)
  {
    SourceAlwaysDiffers();
    DiffersNext(Source(), Standard(), m, n);
  }

  lemma ShortDiffers(o: Ops, p: Ops, m: seq<bv8>)
    requires AlwaysDiffer(o, p) && |m| < 56
    ensures Bit4Differs(Sha(o, m).d, Sha(p, m).d)
  {
    var n := |Pad(m)| / 64 - 1;
    assert n == 0;
    DiffersNext(o, p, Pad(m), n);
  }

  /** No message of less than 56 bytes gets its SHA-256 digest. */
  lemma ShortNeverMatches(m: seq<bv8>)
    requires |m| < 56
    ensures Bit4Differs(Sha(Source(), m).d, Sha(Standard(), m).d) && Sha(Source(), m) != Sha(Standard(), m)
  {
    SourceAlwaysDiffers();
    ShortDiffers(Source(), Standard(), m);
  }

  // ---- the code ----

  ghost predicate Is(a: seq<word>, v: Vars) {
    |a| == 8 && Vars(a[0], a[1], a[2], a[3], a[4], a[5], a[6], a[7]) == v
  }

  /** The first sixteen words of the schedule are the block. */
  method LoadWords(o: Ops, chunk: array<bv8>, w: array<word>, ghost b: Block)
    requires chunk.Length == 64 && w.Length == 64 && b == chunk[..]
    modifies w
    ensures w[..16] == Schedule(o, b, 16)
  {
    for i := 0 to 16
      invariant w[..i] == Schedule(o, b, i)
    {
      ghost var s := w[..i];
      w[i] := o.load(chunk[i * 4], chunk[i * 4 + 1], chunk[i * 4 + 2], chunk[i * 4 + 3]);
      assert w[i] == NextWord(o, b, s);
      assert w[..i + 1] == s + [w[i]];
    }
  }

  /** Sixteen words of the block, then forty-eight more. */
  method Expand(o: Ops, chunk: array<bv8>, w: array<word>)
    requires chunk.Length == 64 && w.Length == 64
    modifies w
    ensures w[..] == Schedule(o, chunk[..], ROUNDS)
  {
    ghost var b: Block := chunk[..];
    LoadWords(o, chunk, w, b);
    for i := 16 to 64
      invariant w[..i] == Schedule(o, b, i)
    {
      ghost var s := w[..i];
      w[i] := o.add(o.add(o.add(o.small1(w[i - 2]), w[i - 7]), o.small0(w[i - 15])), w[i - 16]);
      assert w[i] == NextWord(o, b, s);
      assert w[..i + 1] == s + [w[i]];
    }
    assert w[..64] == w[..];
  }

  /** One round on the array. */
  method RoundInPlace(o: Ops, v: array<word>, k: word, w: word, ghost x: Vars)
    requires v.Length == 8 && Is(v[..], x)
    modifies v
    ensures Is(v[..], Round(o, x, k, w))
  {
    var t1 := o.add(o.add(o.add(o.add(v[7], o.big1(v[4])), o.ch(v[4], v[5], v[6])), k), w);
    var t2 := o.add(o.big0(v[0]), o.maj(v[0], v[1], v[2]));
    v[7] := v[6];
    v[6] := v[5];
    v[5] := v[4];
    v[4] := o.add(v[3], t1);
    v[3] := v[2];
    v[2] := v[1];
    v[1] := v[0];
    v[0] := o.add(t1, t2);
  }

  method AddBack(o: Ops, h: array<word>, v: array<word>, ghost x: Vars, ghost y: Vars)
    requires h.Length == v.Length == 8 && h != v && Is(h[..], x) && Is(v[..], y)
    modifies h
    ensures Is(h[..], AddVars(o, x, y))
  {
    for i := 0 to 8
      invariant v[..] == old(v[..])
                && forall j | 0 <= j < 8 :: h[j] == if j < i then o.add(old(h[j]), v[j]) else old(h[j])
    {
      h[i] := o.add(h[i], v[i]);
    }
  }

  method CopyIn(h: array<word>, v: array<word>)
    requires h.Length == v.Length == 8 && h != v
    modifies v
    ensures v[..] == h[..]
  {
    for i := 0 to 8
      invariant forall j | 0 <= j < i :: v[j] == h[j]
    {
      v[i] := h[i];
    }
  }

  /** Sixty-four rounds on a copy of the hash value, added to it at the end. */
  method CompressInPlace(o: Ops, h: array<word>, v: array<word>, w: array<word>, ghost x: Vars, ghost b: Block)
    requires h.Length == v.Length == 8 && w.Length == 64 && h != v && v != w && h != w
    requires Is(h[..], x) && w[..] == Schedule(o, b, ROUNDS)
    modifies h, v
    ensures Is(h[..], Compress(o, x, b))
  {
    CopyIn(h, v);
    ghost var ws := w[..];
    for i := 0 to ROUNDS
      modifies v
      invariant Is(v[..], Rounds(o, x, ws, i))
    {
      RoundInPlace(o, v, o.k(i), w[i], Rounds(o, x, ws, i));
    }
    AddBack(o, h, v, x, Rounds(o, x, ws, ROUNDS));
  }

  /** Where the block loop stands before block `n`. */
  ghost predicate At(len: nat, n: nat, offset: nat, extra: bool) {
    && 64 * (n + 1) <= PadLength(len)
    && if extra then offset == len && len < 64 * n && 64 * (n + 1) == PadLength(len) else offset == 64 * n <= len
  }

  ghost predicate IsBlock(c: seq<bv8>, m: seq<bv8>, tail: seq<bv8>, n: nat) {
    && |tail| == 8 && 64 * (n + 1) <= PadLength(|m|) && |c| == 64
    && forall i | 0 <= i < 64 :: c[i] == PadByte(m, tail, 64 * n + i)
  }

  lemma BlockIsSlice(c: seq<bv8>, m: seq<bv8>, tail: seq<bv8>, n: nat)
    requires IsBlock(c, m, tail, n)
    ensures 64 * (n + 1) <= |PadWith(m, tail)| && c == PadWith(m, tail)[64 * n..64 * (n + 1)]
  {
    PadBytes(m, tail);
    var p := PadWith(m, tail);
    forall i | 0 <= i < 64 ensures c[i] == p[64 * n..64 * (n + 1)][i] {
      assert p[64 * n + i] == PadByte(m, tail, 64 * n + i);
    }
  }

  /** Zero the chunk, then copy some bytes to its front. */
  method Fill(chunk: array<bv8>, src: seq<bv8>)
    requires chunk.Length == 64 && |src| <= 64
    modifies chunk
    ensures forall i | 0 <= i < 64 :: chunk[i] == if i < |src| then src[i] else 0
  {
    for i := 0 to 64
      invariant forall j | 0 <= j < i :: chunk[j] == 0
    {
      chunk[i] := 0;
    }
    for i := 0 to |src|
      invariant forall j | 0 <= j < 64 :: chunk[j] == if j < i then src[j] else 0
    {
      chunk[i] := src[i];
    }
  }

  /** The length goes into the last eight bytes, last byte first. */
  method PutLength(chunk: array<bv8>, bits: bv64)
    requires chunk.Length == 64
    modifies chunk
    ensures forall i | 0 <= i < 64 :: chunk[i] == if i < 56 then old(chunk[i]) else LengthBytes(bits)[i - 56]
  {
    for i := 0 to 8
      invariant forall j | 0 <= j < 64 :: chunk[j] == if j < 64 - i then old(chunk[j]) else LengthBytes(bits)[j - 56]
    {
      chunk[63 - i] := LengthByte(bits, 7 - i);
    }
  }

  /** Block `n` of the padded message. */
  method NextBlock(m: seq<bv8>, bits: bv64, offset: nat, extra: bool, chunk: array<bv8>, ghost n: nat,
                   ghost tail: seq<bv8>)
    returns (offset': nat, extra': bool, end: bool)
    requires chunk.Length == 64 && At(|m|, n, offset, extra) && tail == LengthBytes(bits)
    modifies chunk
    ensures IsBlock(chunk[..], m, tail, n)
    ensures if end then 64 * (n + 1) == PadLength(|m|) else At(|m|, n + 1, offset', extra')
  {
    var rem := |m| - offset;
    if rem >= 64 {
      Fill(chunk, m[offset..offset + 64]);
      offset', extra', end := offset + 64, extra, false;
    } else if !extra {
      extra' := LastBytes(m, bits, offset, chunk, n, tail);
      offset', end := |m|, !extra';
    } else {
      Fill(chunk, m[offset..]);
      PutLength(chunk, bits);
      offset', extra', end := offset, extra, true;
    }
  }

  /** The block with the last bytes of the message; the length too, if it still fits. */
  method LastBytes(m: seq<bv8>, bits: bv64, offset: nat, chunk: array<bv8>, ghost n: nat, ghost tail: seq<bv8>)
    returns (extra: bool)
    requires chunk.Length == 64 && At(|m|, n, offset, false) && |m| - offset < 64 && tail == LengthBytes(bits)
    modifies chunk
    ensures IsBlock(chunk[..], m, tail, n)
    ensures if extra then 64 * (n + 2) == PadLength(|m|) && |m| < 64 * (n + 1) else 64 * (n + 1) == PadLength(|m|)
  {
    var rem := |m| - offset;
    Fill(chunk, m[offset..]);
    chunk[rem] := 0x80;
    extra := rem >= 56;
    if !extra {
      PutLength(chunk, bits);
    }
  }

  // ---- the hexadecimal digest ----

  const HEX_MAP: seq<char> := ['0', '1', '2', '3', '4', '5', '6', '7', '8', '9', 'a', 'b', 'c', 'd', 'e', 'f']

  function HexValue(c: char): int {
    if '0' <= c <= '9' then c as int - 48 else c as int - 87
  }

  lemma HexDigitValue(n: nat)
    requires n < 16
    ensures HexValue(HEX_MAP[n]) == n
  {
  }

  /** Byte `n` of the digest: the hash words in order, each big-endian. */
  function DigestByte(h: seq<word>, n: nat): bv8
    requires |h| == 8 && n < 32
  {
    WordByte(h[n / 4], n % 4)
  }

  function WordByte(x: word, j: nat): bv8
    requires j < 4
  {
    match j
    case 0 => (x >> 24) as bv8
    case 1 => ((x >> 16) & 0xFF) as bv8
    case 2 => ((x >> 8) & 0xFF) as bv8
    case _ => (x & 0xFF) as bv8
  }

  lemma WordReadBack(x: word)
    ensures Load(WordByte(x, 0), WordByte(x, 1), WordByte(x, 2), WordByte(x, 3)) == x
  {
  }

  /** Two hexadecimal characters per byte, most significant first. */
  ghost predicate Spells(s: seq<char>, h: seq<word>, n: nat)
    requires |h| == 8 && n <= 32 && 2 * n <= |s|
  {
    forall i | 0 <= i < n :: 16 * HexValue(s[2 * i]) + HexValue(s[2 * i + 1]) == DigestByte(h, i) as int
  }

  lemma ByteFromInt(x: bv8, y: bv8)
    requires x as int == y as int
    ensures x == y
  {
    assert (x as int) as bv8 == x && (y as int) as bv8 == y;
  }

  /** The characters determine the digest. */
  lemma DigestReadBack(s: seq<char>, g: seq<word>, h: seq<word>)
    requires |s| == 64 && |g| == |h| == 8 && Spells(s, g, 32) && Spells(s, h, 32)
    ensures g == h
  {
    forall i | 0 <= i < 8 ensures g[i] == h[i] {
      forall j | 0 <= j < 4 ensures WordByte(g[i], j) == WordByte(h[i], j) {
        SameDigestByte(s, g, h, 4 * i + j, i, j);
      }
      WordReadBack(g[i]);
      WordReadBack(h[i]);
    }
  }

  lemma SameDigestByte(s: seq<char>, g: seq<word>, h: seq<word>, n: nat, i: nat, j: nat)
    requires |s| == 64 && |g| == |h| == 8 && Spells(s, g, 32) && Spells(s, h, 32) && i < 8 && j < 4 && n == 4 * i + j
    ensures WordByte(g[i], j) == WordByte(h[i], j)
  {
    assert n / 4 == i && n % 4 == j;
    ByteFromInt(DigestByte(g, n), DigestByte(h, n));
  }

  /** So what `sha256_hash` prints for a message of less than 56 bytes is never the text of its SHA-256 digest. */
  lemma ShortTextNeverMatches(m: seq<bv8>, s: seq<char>, h: seq<word>, t: seq<char>, g: seq<word>)
    requires |m| < 56 && |s| == |t| == 64
    requires Is(h, Sha(Source(), m)) && Spells(s, h, 32) && Is(g, Sha(Standard(), m)) && Spells(t, g, 32)
    ensures s != t
  {
    ShortNeverMatches(m);
    if s == t {
      DigestReadBack(s, g, h);
    }
  }

  method ToHex(h: array<word>) returns (s: seq<char>)
    requires h.Length == 8
    ensures |s| == 64 && Spells(s, h[..], 32)
  {
    s := [];
    for i := 0 to 8
      invariant |s| == 8 * i && Spells(s, h[..], 4 * i)
    {
      for j := 0 to 4
        invariant |s| == 8 * i + 2 * j && Spells(s, h[..], 4 * i + j)
      {
        var byte := WordByte(h[i], j) as int;
        HexDigitValue(byte / 16);
        HexDigitValue(byte % 16);
        s := s + [HEX_MAP[byte / 16], HEX_MAP[byte % 16]];
        assert (4 * i + j) / 4 == i && (4 * i + j) % 4 == j;
      }
    }
  }

  /** `sha256_hash`: the characters spell the digest the source's constants give. */
  method Hash(m: seq<bv8>) returns (s: seq<char>, ghost h: seq<word>)
    requires |m| < 0x2000_0000_0000_0000
    ensures |s| == 64 && Is(h, Sha(Source(), m)) && Spells(s, h, 32)
  {
    var o := Source();
    var hash, v, w, chunk := new word[8], new word[8], new word[64], new bv8[64];
    for i := 0 to 8
      invariant forall j | 0 <= j < i :: hash[j] == H0[j]
    {
      hash[i] := H0[i];
    }
    s, h := HashBlocks(o, m, hash, v, w, chunk);
  }

  /** One turn of the block loop: make block `n` and compress it. */
  method DoBlock(o: Ops, m: seq<bv8>, bits: bv64, offset: nat, extra: bool, hash: array<word>, v: array<word>,
                 w: array<word>,
                 chunk: array<bv8>, ghost n: nat, ghost tail: seq<bv8>, ghost x: Vars)
    returns (offset': nat, extra': bool, end: bool)
    requires hash.Length == v.Length == 8 && w.Length == chunk.Length == 64 && hash != v && v != w && hash != w
    requires At(|m|, n, offset, extra) && tail == LengthBytes(bits) && Is(hash[..], x)
    modifies hash, v, w, chunk
    ensures 64 * (n + 1) <= |PadWith(m, tail)| && Is(hash[..], Compress(o, x, PadWith(m, tail)[64 * n..64 * (n + 1)]))
    ensures if end then 64 * (n + 1) == PadLength(|m|) else At(|m|, n + 1, offset', extra')
  {
    offset', extra', end := NextBlock(m, bits, offset, extra, chunk, n, tail);
    BlockIsSlice(chunk[..], m, tail, n);
    Expand(o, chunk, w);
    CompressInPlace(o, hash, v, w, x, chunk[..]);
  }

  /** The block loop. */
  method Blocks(o: Ops, m: seq<bv8>, bits: bv64, hash: array<word>, v: array<word>, w: array<word>, chunk: array<bv8>,
                ghost tail: seq<bv8>, ghost p: seq<bv8>) returns (ghost n: nat)
    requires hash.Length == v.Length == 8 && w.Length == chunk.Length == 64 && hash != v && v != w && hash != w
    requires Is(hash[..], Chain(o, p, 0)) && tail == LengthBytes(bits) && p == PadWith(m, tail)
    modifies hash, v, w, chunk
    ensures 64 * n == |p| && ChainIn(o, p, n, hash[..])
  {
    var offset, extra, end := 0, false, false;
    n := 0;
    while !end
      invariant ChainIn(o, p, n, hash[..])
      invariant if end then 64 * n == |p| else At(|m|, n, offset, extra)
      decreases |p| - 64 * n
    {
      offset, extra, end := ChainBlock(o, m, bits, offset, extra, hash, v, w, chunk, n, tail, p);
      n := n + 1;
    }
  }

  /** The hash value after `n` blocks is in `h`. */
  ghost predicate ChainIn(o: Ops, p: seq<bv8>, n: nat, h: seq<word>) {
    64 * n <= |p| && Is(h, Chain(o, p, n))
  }

  method ChainBlock(o: Ops, m: seq<bv8>, bits: bv64, offset: nat, extra: bool, hash: array<word>, v: array<word>,
                    w: array<word>, chunk: array<bv8>, ghost n: nat, ghost tail: seq<bv8>, ghost p: seq<bv8>)
    returns (offset': nat, extra': bool, end: bool)
    requires hash.Length == v.Length == 8 && w.Length == chunk.Length == 64 && hash != v && v != w && hash != w
    requires At(|m|, n, offset, extra) && tail == LengthBytes(bits) && p == PadWith(m, tail)
    requires ChainIn(o, p, n, hash[..])
    modifies hash, v, w, chunk
    ensures ChainIn(o, p, n + 1, hash[..])
    ensures if end then 64 * (n + 1) == |p| else At(|m|, n + 1, offset', extra')
  {
    offset', extra', end := DoBlock(o, m, bits, offset, extra, hash, v, w, chunk, n, tail, Chain(o, p, n));
  }

  lemma DigestIs(o: Ops, m: seq<bv8>, n: nat, h: seq<word>)
    requires |m| < 0x2000_0000_0000_0000 && 64 * n == |Pad(m)| && ChainIn(o, Pad(m), n, h)
    ensures Is(h, Sha(o, m))
  {
    assert n == |Pad(m)| / 64;
  }

  /** The block loop, and the digest of what it leaves. */
  method HashBlocks(o: Ops, m: seq<bv8>, hash: array<word>, v: array<word>, w: array<word>, chunk: array<bv8>)
    returns (s: seq<char>, ghost h: seq<word>)
    requires |m| < 0x2000_0000_0000_0000
    requires hash.Length == v.Length == 8 && w.Length == chunk.Length == 64 && hash != v && v != w && hash != w
    requires Is(hash[..], Initial())
    modifies hash, v, w, chunk
    ensures |s| == 64 && Is(h, Sha(o, m)) && Spells(s, h, 32)
  {
    var bits := BitLength(|m|);
    ghost var n := Blocks(o, m, bits, hash, v, w, chunk, LengthBytes(bits), Pad(m));
    DigestIs(o, m, n, hash[..]);
    h := hash[..];
    s := ToHex(hash);
  }
}
