/** A known answer: the digest of "abc" (FIPS 180-4 examples), from the padding to the last round. */
module Sha256Abc {
  import opened Sha256

  /** The message schedule of its one block. */
  function Word(i: nat): word
    requires i < 64
  {
    match i
      case 0 => 0x61626380 case 1 => 0x00000000 case 2 => 0x00000000 case 3 => 0x00000000 case 4 => 0x00000000
      case 5 => 0x00000000 case 6 => 0x00000000 case 7 => 0x00000000 case 8 => 0x00000000 case 9 => 0x00000000
      case 10 => 0x00000000 case 11 => 0x00000000 case 12 => 0x00000000 case 13 => 0x00000000 case 14 => 0x00000000
      case 15 => 0x00000018 case 16 => 0x61626380 case 17 => 0x000f0000 case 18 => 0x7da86405 case 19 => 0x600003c6
      case 20 => 0x3e9d7b78 case 21 => 0x0183fc00 case 22 => 0x12dcbfdb case 23 => 0xe2e2c38e case 24 => 0xc8215c1a
      case 25 => 0xb73679a2 case 26 => 0xe5bc3909 case 27 => 0x32663c5b case 28 => 0x9d209d67 case 29 => 0xec8726cb
      case 30 => 0x702138a4 case 31 => 0xd3b7973b case 32 => 0x93f5997f case 33 => 0x3b68ba73 case 34 => 0xaff4ffc1
      case 35 => 0xf10a5c62 case 36 => 0x0a8b3996 case 37 => 0x72af830a case 38 => 0x9409e33e case 39 => 0x24641522
      case 40 => 0x9f47bf94 case 41 => 0xf0a64f5a case 42 => 0x3e246a79 case 43 => 0x27333ba3 case 44 => 0x0c4763f2
      case 45 => 0x840abf27 case 46 => 0x7a290d5d case 47 => 0x065c43da case 48 => 0xfb3e89cb case 49 => 0xcc7617db
      case 50 => 0xb9e66c34 case 51 => 0xa9993667 case 52 => 0x84badedd case 53 => 0xc21462bc case 54 => 0x1487472c
      case 55 => 0xb20f7a99 case 56 => 0xef57b9cd case 57 => 0xebe6b238 case 58 => 0x9fe3095e case 59 => 0x78bc8d4b
      case 60 => 0xa43fcf15 case 61 => 0x668b2ff8 case 62 => 0xeeaba2cc case _ => 0x12b1edeb
  }

  function Words(n: nat): (r: seq<word>)
    requires n <= 64
    ensures |r| == n && forall i | 0 <= i < n :: r[i] == Word(i)
  {
    seq(n, i requires 0 <= i < n => Word(i))
  }

  /** The one block: three bytes, a one bit, and 24 in the last byte. */
  function AbcByte(i: int): bv8 {
    if i == 0 then 0x61 else if i == 1 then 0x62 else if i == 2 then 0x63 else if i == 3 then 0x80
    else if i == 63 then 24 else 0
  }

  function AbcBlock(): (b: Block)
    ensures forall i | 0 <= i < 64 :: b[i] == AbcByte(i)
  {
    seq(64, i => AbcByte(i))
  }

  lemma AbcPadded()
    ensures Pad([0x61, 0x62, 0x63]) == AbcBlock()
  {
    assert LengthBytes(BitLength(3)) == [0, 0, 0, 0, 0, 0, 0, 24];
    PadBytes([0x61, 0x62, 0x63], LengthBytes(BitLength(3)));
  }

  lemma FirstWord(t: nat)
    requires t < 16
    ensures Load(AbcByte(4 * t), AbcByte(4 * t + 1), AbcByte(4 * t + 2), AbcByte(4 * t + 3)) == Word(t)
  {
  }

  lemma LaterWord(t: nat)
    requires 16 <= t < 64
    ensures Plus(Plus(Plus(SmallSigma1(Word(t - 2)), Word(t - 7)), SmallSigma0(Word(t - 15))), Word(t - 16)) == Word(t)
  {
    if t < 32 { WordFrom16(t); } else if t < 48 { WordFrom32(t); } else { WordFrom48(t); }
  }

  lemma WordFrom16(t: nat)
    requires 16 <= t < 32
    ensures Plus(Plus(Plus(SmallSigma1(Word(t - 2)), Word(t - 7)), SmallSigma0(Word(t - 15))), Word(t - 16)) == Word(t)
  {
    match t {
      case 16 => case 17 => case 18 => case 19 => case 20 => case 21 => case 22 => case 23 =>
      case 24 => case 25 => case 26 => case 27 => case 28 => case 29 => case 30 => case _ =>
    }
  }

  lemma WordFrom32(t: nat)
    requires 32 <= t < 48
    ensures Plus(Plus(Plus(SmallSigma1(Word(t - 2)), Word(t - 7)), SmallSigma0(Word(t - 15))), Word(t - 16)) == Word(t)
  {
    match t {
      case 32 => case 33 => case 34 => case 35 => case 36 => case 37 => case 38 => case 39 =>
      case 40 => case 41 => case 42 => case 43 => case 44 => case 45 => case 46 => case _ =>
    }
  }

  lemma WordFrom48(t: nat)
    requires 48 <= t < 64
    ensures Plus(Plus(Plus(SmallSigma1(Word(t - 2)), Word(t - 7)), SmallSigma0(Word(t - 15))), Word(t - 16)) == Word(t)
  {
    match t {
      case 48 => case 49 => case 50 => case 51 => case 52 => case 53 => case 54 => case 55 =>
      case 56 => case 57 => case 58 => case 59 => case 60 => case 61 => case 62 => case _ =>
    }
  }

  lemma NextIsWord(t: nat)
    requires t < 64
    ensures NextWord(Standard(), AbcBlock(), Words(t)) == Word(t)
  {
    if t < 16 {
      FirstWord(t);
      LoadsWord(AbcBlock(), Words(t));
    } else {
      LaterWord(t);
      MixesWords(AbcBlock(), Words(t));
    }
  }

  lemma LoadsWord(b: Block, w: seq<word>)
    requires |w| < 16
    ensures NextWord(Standard(), b, w) == Load(b[4 * |w|], b[4 * |w| + 1], b[4 * |w| + 2], b[4 * |w| + 3])
  {
  }

  lemma MixesWords(b: Block, w: seq<word>)
    requires 16 <= |w|
    ensures var t := |w|;
            NextWord(Standard(), b, w)
            == Plus(Plus(Plus(SmallSigma1(w[t - 2]), w[t - 7]), SmallSigma0(w[t - 15])), w[t - 16])
  {
  }

  lemma {:induction false} AbcSchedule(n: nat)
    requires n <= 64
    ensures Schedule(Standard(), AbcBlock(), n) == Words(n)
  {
    if n > 0 {
      AbcSchedule(n - 1);
      NextIsWord(n - 1);
      assert Words(n) == Words(n - 1) + [Word(n - 1)];
    }
  }

  /** The working variables after `n` rounds. */
  function State(n: nat): Vars
    requires n <= 64
  {
    match n
      case 0 => Vars(0x6a09e667, 0xbb67ae85, 0x3c6ef372, 0xa54ff53a, 0x510e527f, 0x9b05688c, 0x1f83d9ab, 0x5be0cd19)
      case 1 => Vars(0x5d6aebcd, 0x6a09e667, 0xbb67ae85, 0x3c6ef372, 0xfa2a4622, 0x510e527f, 0x9b05688c, 0x1f83d9ab)
      case 2 => Vars(0x5a6ad9ad, 0x5d6aebcd, 0x6a09e667, 0xbb67ae85, 0x78ce7989, 0xfa2a4622, 0x510e527f, 0x9b05688c)
      case 3 => Vars(0xc8c347a7, 0x5a6ad9ad, 0x5d6aebcd, 0x6a09e667, 0xf92939eb, 0x78ce7989, 0xfa2a4622, 0x510e527f)
      case 4 => Vars(0xd550f666, 0xc8c347a7, 0x5a6ad9ad, 0x5d6aebcd, 0x24e00850, 0xf92939eb, 0x78ce7989, 0xfa2a4622)
      case 5 => Vars(0x04409a6a, 0xd550f666, 0xc8c347a7, 0x5a6ad9ad, 0x43ada245, 0x24e00850, 0xf92939eb, 0x78ce7989)
      case 6 => Vars(0x2b4209f5, 0x04409a6a, 0xd550f666, 0xc8c347a7, 0x714260ad, 0x43ada245, 0x24e00850, 0xf92939eb)
      case 7 => Vars(0xe5030380, 0x2b4209f5, 0x04409a6a, 0xd550f666, 0x9b27a401, 0x714260ad, 0x43ada245, 0x24e00850)
      case 8 => Vars(0x85a07b5f, 0xe5030380, 0x2b4209f5, 0x04409a6a, 0x0c657a79, 0x9b27a401, 0x714260ad, 0x43ada245)
      case 9 => Vars(0x8e04ecb9, 0x85a07b5f, 0xe5030380, 0x2b4209f5, 0x32ca2d8c, 0x0c657a79, 0x9b27a401, 0x714260ad)
      case 10 => Vars(0x8c87346b, 0x8e04ecb9, 0x85a07b5f, 0xe5030380, 0x1cc92596, 0x32ca2d8c, 0x0c657a79, 0x9b27a401)
      case 11 => Vars(0x4798a3f4, 0x8c87346b, 0x8e04ecb9, 0x85a07b5f, 0x436b23e8, 0x1cc92596, 0x32ca2d8c, 0x0c657a79)
      case 12 => Vars(0xf71fc5a9, 0x4798a3f4, 0x8c87346b, 0x8e04ecb9, 0x816fd6e9, 0x436b23e8, 0x1cc92596, 0x32ca2d8c)
      case 13 => Vars(0x87912990, 0xf71fc5a9, 0x4798a3f4, 0x8c87346b, 0x1e578218, 0x816fd6e9, 0x436b23e8, 0x1cc92596)
      case 14 => Vars(0xd932eb16, 0x87912990, 0xf71fc5a9, 0x4798a3f4, 0x745a48de, 0x1e578218, 0x816fd6e9, 0x436b23e8)
      case 15 => Vars(0xc0645fde, 0xd932eb16, 0x87912990, 0xf71fc5a9, 0x0b92f20c, 0x745a48de, 0x1e578218, 0x816fd6e9)
      case 16 => Vars(0xb0fa238e, 0xc0645fde, 0xd932eb16, 0x87912990, 0x07590dcd, 0x0b92f20c, 0x745a48de, 0x1e578218)
      case 17 => Vars(0x21da9a9b, 0xb0fa238e, 0xc0645fde, 0xd932eb16, 0x8034229c, 0x07590dcd, 0x0b92f20c, 0x745a48de)
      case 18 => Vars(0xc2fbd9d1, 0x21da9a9b, 0xb0fa238e, 0xc0645fde, 0x846ee454, 0x8034229c, 0x07590dcd, 0x0b92f20c)
      case 19 => Vars(0xfe777bbf, 0xc2fbd9d1, 0x21da9a9b, 0xb0fa238e, 0xcc899961, 0x846ee454, 0x8034229c, 0x07590dcd)
      case 20 => Vars(0xe1f20c33, 0xfe777bbf, 0xc2fbd9d1, 0x21da9a9b, 0xb0638179, 0xcc899961, 0x846ee454, 0x8034229c)
      case 21 => Vars(0x9dc68b63, 0xe1f20c33, 0xfe777bbf, 0xc2fbd9d1, 0x8ada8930, 0xb0638179, 0xcc899961, 0x846ee454)
      case 22 => Vars(0xc2606d6d, 0x9dc68b63, 0xe1f20c33, 0xfe777bbf, 0xe1257970, 0x8ada8930, 0xb0638179, 0xcc899961)
      case 23 => Vars(0xa7a3623f, 0xc2606d6d, 0x9dc68b63, 0xe1f20c33, 0x49f5114a, 0xe1257970, 0x8ada8930, 0xb0638179)
      case 24 => Vars(0xc5d53d8d, 0xa7a3623f, 0xc2606d6d, 0x9dc68b63, 0xaa47c347, 0x49f5114a, 0xe1257970, 0x8ada8930)
      case 25 => Vars(0x1c2c2838, 0xc5d53d8d, 0xa7a3623f, 0xc2606d6d, 0x2823ef91, 0xaa47c347, 0x49f5114a, 0xe1257970)
      case 26 => Vars(0xcde8037d, 0x1c2c2838, 0xc5d53d8d, 0xa7a3623f, 0x14383d8e, 0x2823ef91, 0xaa47c347, 0x49f5114a)
      case 27 => Vars(0xb62ec4bc, 0xcde8037d, 0x1c2c2838, 0xc5d53d8d, 0xc74c6516, 0x14383d8e, 0x2823ef91, 0xaa47c347)
      case 28 => Vars(0x77d37528, 0xb62ec4bc, 0xcde8037d, 0x1c2c2838, 0xedffbff8, 0xc74c6516, 0x14383d8e, 0x2823ef91)
      case 29 => Vars(0x363482c9, 0x77d37528, 0xb62ec4bc, 0xcde8037d, 0x6112a3b7, 0xedffbff8, 0xc74c6516, 0x14383d8e)
      case 30 => Vars(0xa0060b30, 0x363482c9, 0x77d37528, 0xb62ec4bc, 0xade79437, 0x6112a3b7, 0xedffbff8, 0xc74c6516)
      case 31 => Vars(0xea992a22, 0xa0060b30, 0x363482c9, 0x77d37528, 0x0109ab3a, 0xade79437, 0x6112a3b7, 0xedffbff8)
      case 32 => Vars(0x73b33bf5, 0xea992a22, 0xa0060b30, 0x363482c9, 0xba591112, 0x0109ab3a, 0xade79437, 0x6112a3b7)
      case 33 => Vars(0x98e12507, 0x73b33bf5, 0xea992a22, 0xa0060b30, 0x9cd9f5f6, 0xba591112, 0x0109ab3a, 0xade79437)
      case 34 => Vars(0xfe604df5, 0x98e12507, 0x73b33bf5, 0xea992a22, 0x59249dd3, 0x9cd9f5f6, 0xba591112, 0x0109ab3a)
      case 35 => Vars(0xa9a7738c, 0xfe604df5, 0x98e12507, 0x73b33bf5, 0x085f3833, 0x59249dd3, 0x9cd9f5f6, 0xba591112)
      case 36 => Vars(0x65a0cfe4, 0xa9a7738c, 0xfe604df5, 0x98e12507, 0xf4b002d6, 0x085f3833, 0x59249dd3, 0x9cd9f5f6)
      case 37 => Vars(0x41a65cb1, 0x65a0cfe4, 0xa9a7738c, 0xfe604df5, 0x0772a26b, 0xf4b002d6, 0x085f3833, 0x59249dd3)
      case 38 => Vars(0x34df1604, 0x41a65cb1, 0x65a0cfe4, 0xa9a7738c, 0xa507a53d, 0x0772a26b, 0xf4b002d6, 0x085f3833)
      case 39 => Vars(0x6dc57a8a, 0x34df1604, 0x41a65cb1, 0x65a0cfe4, 0xf0781bc8, 0xa507a53d, 0x0772a26b, 0xf4b002d6)
      case 40 => Vars(0x79ea687a, 0x6dc57a8a, 0x34df1604, 0x41a65cb1, 0x1efbc0a0, 0xf0781bc8, 0xa507a53d, 0x0772a26b)
      case 41 => Vars(0xd6670766, 0x79ea687a, 0x6dc57a8a, 0x34df1604, 0x26352d63, 0x1efbc0a0, 0xf0781bc8, 0xa507a53d)
      case 42 => Vars(0xdf46652f, 0xd6670766, 0x79ea687a, 0x6dc57a8a, 0x838b2711, 0x26352d63, 0x1efbc0a0, 0xf0781bc8)
      case 43 => Vars(0x17aa0dfe, 0xdf46652f, 0xd6670766, 0x79ea687a, 0xdecd4715, 0x838b2711, 0x26352d63, 0x1efbc0a0)
      case 44 => Vars(0x9d4baf93, 0x17aa0dfe, 0xdf46652f, 0xd6670766, 0xfda24c2e, 0xdecd4715, 0x838b2711, 0x26352d63)
      case 45 => Vars(0x26628815, 0x9d4baf93, 0x17aa0dfe, 0xdf46652f, 0xa80f11f0, 0xfda24c2e, 0xdecd4715, 0x838b2711)
      case 46 => Vars(0x72ab4b91, 0x26628815, 0x9d4baf93, 0x17aa0dfe, 0xb7755da1, 0xa80f11f0, 0xfda24c2e, 0xdecd4715)
      case 47 => Vars(0xa14c14b0, 0x72ab4b91, 0x26628815, 0x9d4baf93, 0xd57b94a9, 0xb7755da1, 0xa80f11f0, 0xfda24c2e)
      case 48 => Vars(0x4172328d, 0xa14c14b0, 0x72ab4b91, 0x26628815, 0xfecf0bc6, 0xd57b94a9, 0xb7755da1, 0xa80f11f0)
      case 49 => Vars(0x05757ceb, 0x4172328d, 0xa14c14b0, 0x72ab4b91, 0xbd714038, 0xfecf0bc6, 0xd57b94a9, 0xb7755da1)
      case 50 => Vars(0xf11bfaa8, 0x05757ceb, 0x4172328d, 0xa14c14b0, 0x6e5c390c, 0xbd714038, 0xfecf0bc6, 0xd57b94a9)
      case 51 => Vars(0x7a0508a1, 0xf11bfaa8, 0x05757ceb, 0x4172328d, 0x52f1ccf7, 0x6e5c390c, 0xbd714038, 0xfecf0bc6)
      case 52 => Vars(0x886e7a22, 0x7a0508a1, 0xf11bfaa8, 0x05757ceb, 0x49231c1e, 0x52f1ccf7, 0x6e5c390c, 0xbd714038)
      case 53 => Vars(0x101fd28f, 0x886e7a22, 0x7a0508a1, 0xf11bfaa8, 0x529e7d00, 0x49231c1e, 0x52f1ccf7, 0x6e5c390c)
      case 54 => Vars(0xf5702fdb, 0x101fd28f, 0x886e7a22, 0x7a0508a1, 0x9f4787c3, 0x529e7d00, 0x49231c1e, 0x52f1ccf7)
      case 55 => Vars(0x3ec45cdb, 0xf5702fdb, 0x101fd28f, 0x886e7a22, 0xe50e1b4f, 0x9f4787c3, 0x529e7d00, 0x49231c1e)
      case 56 => Vars(0x38cc9913, 0x3ec45cdb, 0xf5702fdb, 0x101fd28f, 0x54cb266b, 0xe50e1b4f, 0x9f4787c3, 0x529e7d00)
      case 57 => Vars(0xfcd1887b, 0x38cc9913, 0x3ec45cdb, 0xf5702fdb, 0x9b5e906c, 0x54cb266b, 0xe50e1b4f, 0x9f4787c3)
      case 58 => Vars(0xc062d46f, 0xfcd1887b, 0x38cc9913, 0x3ec45cdb, 0x7e44008e, 0x9b5e906c, 0x54cb266b, 0xe50e1b4f)
      case 59 => Vars(0xffb70472, 0xc062d46f, 0xfcd1887b, 0x38cc9913, 0x6d83bfc6, 0x7e44008e, 0x9b5e906c, 0x54cb266b)
      case 60 => Vars(0xb6ae8fff, 0xffb70472, 0xc062d46f, 0xfcd1887b, 0xb21bad3d, 0x6d83bfc6, 0x7e44008e, 0x9b5e906c)
      case 61 => Vars(0xb85e2ce9, 0xb6ae8fff, 0xffb70472, 0xc062d46f, 0x961f4894, 0xb21bad3d, 0x6d83bfc6, 0x7e44008e)
      case 62 => Vars(0x04d24d6c, 0xb85e2ce9, 0xb6ae8fff, 0xffb70472, 0x948d25b6, 0x961f4894, 0xb21bad3d, 0x6d83bfc6)
      case 63 => Vars(0xd39a2165, 0x04d24d6c, 0xb85e2ce9, 0xb6ae8fff, 0xfb121210, 0x948d25b6, 0x961f4894, 0xb21bad3d)
      case _ => Vars(0x506e3058, 0xd39a2165, 0x04d24d6c, 0xb85e2ce9, 0x5ef50f24, 0xfb121210, 0x948d25b6, 0x961f4894)
  }

  lemma StateNext(n: nat)
    requires n < 64
    ensures Round(Standard(), State(n), FipsK(n), Word(n)) == State(n + 1)
  {
    if n < 8 { From0(n); } else if n < 16 { From8(n); } else if n < 24 { From16(n); } else if n < 32 { From24(n); }
    else if n < 40 { From32(n); } else if n < 48 { From40(n); } else if n < 56 { From48(n); }
    else if n < 60 { From56(n); } else { From60(n); }
  }

  lemma From0(n: nat)
    requires 0 <= n < 8
    ensures Round(Standard(), State(n), FipsK(n), Word(n)) == State(n + 1)
  {
    match n {
      case 0 => case 1 => case 2 => case 3 => case 4 => case 5 => case 6 => case _ =>
    }
  }

  lemma From8(n: nat)
    requires 8 <= n < 16
    ensures Round(Standard(), State(n), FipsK(n), Word(n)) == State(n + 1)
  {
    match n {
      case 8 => case 9 => case 10 => case 11 => case 12 => case 13 => case 14 => case _ =>
    }
  }

  lemma From16(n: nat)
    requires 16 <= n < 24
    ensures Round(Standard(), State(n), FipsK(n), Word(n)) == State(n + 1)
  {
    match n {
      case 16 => case 17 => case 18 => case 19 => case 20 => case 21 => case 22 => case _ =>
    }
  }

  lemma From24(n: nat)
    requires 24 <= n < 32
    ensures Round(Standard(), State(n), FipsK(n), Word(n)) == State(n + 1)
  {
    match n {
      case 24 => case 25 => case 26 => case 27 => case 28 => case 29 => case 30 => case _ =>
    }
  }

  lemma From32(n: nat)
    requires 32 <= n < 40
    ensures Round(Standard(), State(n), FipsK(n), Word(n)) == State(n + 1)
  {
    match n {
      case 32 => case 33 => case 34 => case 35 => case 36 => case 37 => case 38 => case _ =>
    }
  }

  lemma From40(n: nat)
    requires 40 <= n < 48
    ensures Round(Standard(), State(n), FipsK(n), Word(n)) == State(n + 1)
  {
    match n {
      case 40 => case 41 => case 42 => case 43 => case 44 => case 45 => case 46 => case _ =>
    }
  }

  lemma From48(n: nat)
    requires 48 <= n < 56
    ensures Round(Standard(), State(n), FipsK(n), Word(n)) == State(n + 1)
  {
    match n {
      case 48 => case 49 => case 50 => case 51 => case 52 => case 53 => case 54 => case _ =>
    }
  }

  lemma From56(n: nat)
    requires 56 <= n < 60
    ensures Round(Standard(), State(n), FipsK(n), Word(n)) == State(n + 1)
  {
    match n {
      case 56 => case 57 => case 58 => case _ =>
    }
  }

  lemma From60(n: nat)
    requires 60 <= n < 64
    ensures Round(Standard(), State(n), FipsK(n), Word(n)) == State(n + 1)
  {
    match n {
      case 60 => case 61 => case 62 => case _ =>
    }
  }

  lemma {:induction false} AbcRounds(n: nat)
    requires n <= 64
    ensures Rounds(Standard(), Initial(), Words(64), n) == State(n)
  {
    if n > 0 {
      AbcRounds(n - 1);
      StateNext(n - 1);
    }
  }

  lemma CompressIs(o: Ops, x: Vars, b: Block, n: nat)
    requires n == ROUNDS
    ensures Compress(o, x, b) == AddVars(o, x, Rounds(o, x, Schedule(o, b, n), n))
  {
  }

  lemma AbcCompress(n: nat)
    requires n == ROUNDS
    ensures Compress(Standard(), Initial(), AbcBlock()) == AddVars(Standard(), Initial(), State(n))
  {
    CompressIs(Standard(), Initial(), AbcBlock(), n);
    AbcSchedule(n);
    AbcRounds(n);
  }

  lemma AbcSum(n: nat)
    requires n == ROUNDS
    ensures AddVars(Standard(), Initial(), State(n))
         == Vars(0xba7816bf, 0x8f01cfea, 0x414140de, 0x5dae2223, 0xb00361a3, 0x96177a9c, 0xb410ff61, 0xf20015ad)
  {
  }

  lemma OneBlock(o: Ops, p: seq<bv8>, n: nat)
    requires |p| == 64 && n == 1
    ensures Chain(o, p, n) == Compress(o, Initial(), p)
  {
    assert p[0..64] == p && Chain(o, p, n - 1) == Initial();
  }

  lemma ShaIs(o: Ops, m: seq<bv8>, p: seq<bv8>, n: nat)
    requires |m| < 0x2000_0000_0000_0000 && p == Pad(m) && n == |p| / 64
    ensures Sha(o, m) == Chain(o, p, n)
  {
  }

  /** The published digest. */
  lemma AbcDigest()
    ensures Sha(Standard(), [0x61, 0x62, 0x63])
         == Vars(0xba7816bf, 0x8f01cfea, 0x414140de, 0x5dae2223, 0xb00361a3, 0x96177a9c, 0xb410ff61, 0xf20015ad)
  {
    AbcPadded();
    ShaIs(Standard(), [0x61, 0x62, 0x63], AbcBlock(), 1);
    OneBlock(Standard(), AbcBlock(), 1);
    AbcCompress(ROUNDS);
    AbcSum(ROUNDS);
  }
}
