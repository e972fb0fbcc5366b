/**
 The CRC-32 by the constants that are known of it: what is left in the register after any
 bytes and their own CRC, and the CRC of one byte.
 */
module CrcLaws {
  import opened Words
  import opened Crc

  /** The low n bytes of a number, least significant first. */
  function Little(x: nat, n: nat): (r: seq<byte>)
    ensures |r| == n
    decreases n, x
  {
    if n == 0 then [] else [x % 256] + Little(x / 256, n - 1)
  }

  // ----- one step, by digits to base four

  /** Exclusive or of two digits to base four: of three different nonzero ones each is that of the others. */
  function Pair(a: nat, b: nat): int {
    if a == b then 0 else if a == 0 then b else if b == 0 then a else 6 - a - b
  }

  lemma XorPair(a: nat, b: nat, d: nat, h: nat, e: nat, l: nat)
    requires d < 4 && e < 4 && a == d + 4 * h && b == e + 4 * l
    ensures Xor(a, b) == Pair(d, e) + 4 * Xor(h, l)
  {
    hide Xor;
    XorHalves(a, b);
    XorHalves(a / 2, b / 2);
    Halves(a, d, h);
    Halves(b, e, l);
  }

  lemma Halves(a: nat, d: nat, h: nat)
    requires d < 4 && a == d + 4 * h
    ensures a % 2 == d % 2 && a / 2 % 2 == d / 2 && a / 2 / 2 == h
  {
    Halve(a, 2 * h, d);
  }

  /** Four digits of each. */
  lemma XorFour(a: nat, b: nat, a3: nat, a2: nat, a1: nat, a0: nat, h: nat, b3: nat, b2: nat, b1: nat, b0: nat, l: nat)
    requires a3 < 4 && a2 < 4 && a1 < 4 && a0 < 4 && b3 < 4 && b2 < 4 && b1 < 4 && b0 < 4
    requires a == a0 + 4 * (a1 + 4 * (a2 + 4 * (a3 + 4 * h))) && b == b0 + 4 * (b1 + 4 * (b2 + 4 * (b3 + 4 * l)))
    ensures Xor(a, b) == Pair(a0, b0) + 4 * (Pair(a1, b1) + 4 * (Pair(a2, b2) + 4 * (Pair(a3, b3) + 4 * Xor(h, l))))
  {
    hide Xor, Pair;
    var c3, d3: nat := a3 + 4 * h, b3 + 4 * l;
    var c2, d2: nat := a2 + 4 * c3, b2 + 4 * d3;
    var c1, d1: nat := a1 + 4 * c2, b1 + 4 * d2;
    XorPair(a, b, a0, c1, b0, d1);
    XorPair(c1, d1, a1, c2, b1, d2);
    XorPair(c2, d2, a2, c3, b2, d3);
    XorPair(c3, d3, a3, h, b3, l);
  }

  /** Four digits as a number. */
  function Four(a3: int, a2: int, a1: int, a0: int): int {
    a0 + 4 * (a1 + 4 * (a2 + 4 * a3))
  }

  /** A step that shifts a one out, given the digits of the word it shifts out of. */
  lemma OddStep(c: nat, r: nat, n: nat, a15: nat, a14: nat, a13: nat, a12: nat,
                a11: nat, a10: nat, a9: nat, a8: nat, a7: nat, a6: nat, a5: nat, a4: nat,
                a3: nat, a2: nat, a1: nat, a0: nat)
    requires a15 < 4 && a14 < 4 && a13 < 4 && a12 < 4 && a11 < 4 && a10 < 4 && a9 < 4 && a8 < 4
    requires a7 < 4 && a6 < 4 && a5 < 4 && a4 < 4 && a3 < 4 && a2 < 4 && a1 < 4 && a0 < 4
    requires c == 1 + 2 * (Four(a3, a2, a1, a0) + 256 * (Four(a7, a6, a5, a4)
      + 256 * (Four(a11, a10, a9, a8) + 256 * Four(a15, a14, a13, a12))))
    requires n > 0
    requires r == Four(Pair(a3, 0), Pair(a2, 2), Pair(a1, 0), Pair(a0, 0))
      + 256 * (Four(Pair(a7, 2), Pair(a6, 0), Pair(a5, 0), Pair(a4, 3))
      + 256 * (Four(Pair(a11, 2), Pair(a10, 3), Pair(a9, 2), Pair(a8, 0))
      + 256 * Four(Pair(a15, 3), Pair(a14, 2), Pair(a13, 3), Pair(a12, 1))))
    ensures Steps(c, n) == Steps(r, n - 1)
  {
    hide Xor, Pair, Steps;
    var h3: nat := Four(a15, a14, a13, a12);
    var h2: nat := Four(a11, a10, a9, a8) + 256 * h3;
    var h1: nat := Four(a7, a6, a5, a4) + 256 * h2;
    var h: nat := Four(a3, a2, a1, a0) + 256 * h1;
    XorFour(h, 0xEDB8_8320, a3, a2, a1, a0, h1, 0, 2, 0, 0, 0xED_B883);
    XorFour(h1, 0xED_B883, a7, a6, a5, a4, h2, 2, 0, 0, 3, 0xEDB8);
    XorFour(h2, 0xEDB8, a11, a10, a9, a8, h3, 2, 3, 2, 0, 0xED);
    XorFour(h3, 0xED, a15, a14, a13, a12, 0, 3, 2, 3, 1, 0);
    XorZero(0);
    assert c / 2 == h;
    StepsNext(c, n);
  }

  lemma EvenStep(c: nat, r: nat, n: nat)
    requires c == 2 * r && n > 0
    ensures Steps(c, n) == Steps(r, n - 1)
  {
    hide Steps, Xor;
    StepsNext(c, n);
  }

  /** The register after a byte of zeros: the first steps, and all eight. */
  lemma FirstByteStarts()
    ensures Steps(0xFFFF_FFFF, 8) == Steps(0xB242_0DE3, 4)
  {
    hide Step, Steps;
    OddStep(0xFFFF_FFFF, 0x9247_7CDF, 8, 1, 3, 3, 3, 3, 3, 3, 3, 3, 3, 3, 3, 3, 3, 3, 3);
    OddStep(0x9247_7CDF, 0xA49B_3D4F, 7, 1, 0, 2, 1, 0, 2, 0, 3, 2, 3, 3, 2, 1, 2, 3, 3);
    OddStep(0xA49B_3D4F, 0xBFF5_1D87, 6, 1, 1, 0, 2, 1, 0, 3, 1, 2, 1, 3, 2, 2, 2, 1, 3);
    OddStep(0xBFF5_1D87, 0xB242_0DE3, 5, 1, 1, 3, 3, 3, 3, 2, 2, 2, 0, 3, 2, 3, 0, 0, 3);
  }

  lemma FirstByte()
    ensures Steps(0xFFFF_FFFF, 8) == 0x2DFD_1072
  {
    hide Step, Steps;
    FirstByteStarts();
    OddStep(0xB242_0DE3, 0xB499_85D1, 4, 1, 1, 2, 1, 0, 2, 0, 1, 0, 0, 1, 2, 3, 3, 0, 1);
    OddStep(0xB499_85D1, 0xB7F4_41C8, 3, 1, 1, 2, 2, 1, 0, 3, 0, 3, 0, 0, 2, 3, 2, 2, 0);
    EvenStep(0xB7F4_41C8, 0x5BFA_20E4, 2);
    EvenStep(0x5BFA_20E4, 0x2DFD_1072, 1);
    StepsNone(0x2DFD_1072);
  }

  lemma SecondByteStarts()
    ensures Steps(0x2DFD_1072, 8) == Steps(0xF160_7BC7, 3)
  {
    hide Step, Steps;
    EvenStep(0x2DFD_1072, 0x16FE_8839, 8);
    OddStep(0x16FE_8839, 0xE6C7_C73C, 7, 0, 0, 2, 3, 1, 3, 3, 3, 1, 0, 1, 0, 0, 1, 3, 0);
    EvenStep(0xE6C7_C73C, 0x7363_E39E, 6);
    EvenStep(0x7363_E39E, 0x39B1_F1CF, 5);
    OddStep(0x39B1_F1CF, 0xF160_7BC7, 4, 0, 1, 3, 0, 3, 1, 2, 0, 3, 3, 2, 0, 3, 2, 1, 3);
  }

  /** ... after two. */
  lemma SecondByte()
    ensures Steps(0x2DFD_1072, 8) == 0xBE26_ED00
  {
    hide Step, Steps;
    SecondByteStarts();
    OddStep(0xF160_7BC7, 0x9508_BEC3, 3, 1, 3, 2, 0, 2, 3, 0, 0, 0, 3, 3, 1, 3, 2, 0, 3);
    OddStep(0x9508_BEC3, 0xA73C_DC41, 2, 1, 0, 2, 2, 2, 0, 1, 0, 1, 1, 3, 3, 1, 2, 0, 1);
    OddStep(0xA73C_DC41, 0xBE26_ED00, 1, 1, 1, 0, 3, 2, 1, 3, 2, 1, 2, 3, 2, 0, 2, 0, 0);
    StepsNone(0xBE26_ED00);
  }

  lemma FourthByteStarts()
    ensures Steps(0x00BE_26ED, 8) == Steps(0x86D8_30BA, 4)
  {
    hide Step, Steps;
    OddStep(0x00BE_26ED, 0xEDE7_9056, 8, 0, 0, 0, 0, 1, 1, 3, 3, 0, 1, 0, 3, 1, 3, 1, 2);
    EvenStep(0xEDE7_9056, 0x76F3_C82B, 7);
    OddStep(0x76F3_C82B, 0xD6C1_6735, 6, 0, 3, 2, 3, 1, 3, 2, 1, 3, 2, 1, 0, 0, 1, 1, 1);
    OddStep(0xD6C1_6735, 0x86D8_30BA, 5, 1, 2, 2, 3, 1, 2, 0, 0, 2, 3, 0, 3, 2, 1, 2, 2);
  }

  /** ... after four; the third one only shifts. */
  lemma FourthByte()
    ensures Steps(0x00BE_26ED, 8) == 0xDEBB_20E3
  {
    hide Step, Steps;
    FourthByteStarts();
    EvenStep(0x86D8_30BA, 0x436C_185D, 4);
    OddStep(0x436C_185D, 0xCC0E_8F0E, 3, 0, 2, 0, 1, 2, 3, 1, 2, 0, 0, 3, 0, 0, 2, 3, 2);
    EvenStep(0xCC0E_8F0E, 0x6607_4787, 2);
    OddStep(0x6607_4787, 0xDEBB_20E3, 1, 0, 3, 0, 3, 0, 0, 0, 3, 2, 2, 0, 3, 3, 0, 0, 3);
    StepsNone(0xDEBB_20E3);
  }

  lemma {:induction false} StepsAdd(c: nat, a: nat, b: nat)
    ensures Steps(c, a + b) == Steps(Steps(c, a), b)
    decreases a
  {
    hide Step;
    if a > 0 {
      StepsAdd(Step(c), a - 1, b);
    }
  }

  lemma FourBytes()
    ensures Steps(0xFFFF_FFFF, 32) == 0xDEBB_20E3
  {
    hide Steps, Pow2;
    FirstByte();
    SecondByte();
    Pow2Values();
    StepsShift(0x00BE_26ED, 8);
    FourthByte();
    StepsAdd(0xFFFF_FFFF, 8, 24);
    StepsAdd(0x2DFD_1072, 8, 16);
    StepsAdd(0xBE26_ED00, 8, 8);
  }

  // ----- the residue

  /** Feeding the bytes of a number is stepping over its exclusive or. */
  lemma {:induction false} FeedLittle(c: nat, x: nat, n: nat)
    requires x < Pow2(8 * n)
    ensures Feed(c, Little(x, n)) == Steps(Xor(c, x), 8 * n)
    decreases n
  {
    hide Steps, Xor, Pow2;
    if n == 0 {
      Pow2Values();
      XorZero(c);
      StepsNone(c);
    } else {
      var b: nat, y := x % 256, x / 256;
      FeedOne(c, x);
      Pow2Add(8, 8 * (n - 1));
      Pow2Values();
      FeedLittle(Steps(Xor(c, b), 8), y, n - 1);
      StepsAdd(Xor(c, x), 8, 8 * (n - 1));
      FeedFirst(c, b, Little(y, n - 1));
    }
  }

  lemma FeedFirst(c: nat, b: byte, t: seq<byte>)
    ensures Feed(c, [b] + t) == Feed(Steps(Xor(c, b), 8), t)
  {
    assert ([b] + t)[1..] == t;
  }

  /** Eight steps use up the lowest byte; the others move down. */
  lemma FeedOne(c: nat, x: nat)
    ensures Steps(Xor(c, x), 8) == Xor(Steps(Xor(c, x % 256), 8), x / 256)
  {
    hide Steps, Xor, Pow2, Shr, Low;
    var b, y := x % 256, x / 256;
    Pow2Values();
    SplitAt(x, y, b, 8);
    XorSplit(x, 8);
    XorComm(y * 256, b);
    XorAssoc(c, b, y * 256);
    StepsXor(Xor(c, b), y * 256, 8);
    StepsShift(y, 8);
  }

  /**
   Whatever the bytes, feeding them and then the four bytes of their CRC-32 leaves the same
   word in the register.
   */
  lemma Residue(s: seq<byte>)
    ensures Crc32(s) < WORD && Feed(0xFFFF_FFFF, s + Little(Crc32(s), 4)) == 0xDEBB_20E3
  {
    hide Steps, Xor, Feed, Pow2;
    var c := Feed(0xFFFF_FFFF, s);
    var x := Crc32(s);
    Pow2Values();
    FeedBound(0xFFFF_FFFF, s);
    XorBound(c, 0xFFFF_FFFF, 32);
    FeedConcat(0xFFFF_FFFF, s, Little(x, 4));
    FeedLittle(c, x, 4);
    XorAssoc(c, c, 0xFFFF_FFFF);
    XorSelf(c);
    XorZero(0xFFFF_FFFF);
    FourBytes();
  }

  /** The CRC-32 of one byte of zeros. */
  lemma OneZero()
    ensures Crc32([0]) == 0xD202_EF8D
  {
    hide Steps, Xor, Pow2;
    XorZero(0xFFFF_FFFF);
    FirstByte();
    Pow2Values();
    XorOnes(0x2DFD_1072, 32);
    assert Feed(0xFFFF_FFFF, [0]) == Feed(0x2DFD_1072, []);
  }
}
