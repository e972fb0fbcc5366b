/**
 Two inputs on which the decoder and the format differ: data that the format allows and
 the decoder rejects, and data that the decoder accepts and the format forbids.
 */
module DeflateCases {
  import opened Words
  import opened Stream
  import opened Wrappers
  import opened Canonical
  import opened Geometry
  import opened HuftPrepare
  import opened DeflateSpec
  import opened DeflateWalk
  import opened InflateDynamic
  import InflateFixed

  // ----- codes of small code sets

  lemma {:induction false} CountRun(lens: seq<nat>, a: nat, b: nat, x: nat, k: nat)
    requires a <= b <= |lens| && forall i :: a <= i < b ==> lens[i] == x
    ensures Count(lens, b, k) == Count(lens, a, k) + (if x == k then b - a else 0)
    decreases b
  {
    if a < b {
      CountRun(lens, a, b - 1, x, k);
    }
  }

  /** Without shorter codes, the first code is zero. */
  lemma {:induction false} FirstCode(lens: seq<nat>, k: nat)
    requires forall i :: 0 <= i < |lens| ==> lens[i] == 0 || lens[i] >= k
    ensures NextCode(lens, k) == 0
  {
    if k > 1 {
      FirstCode(lens, k - 1);
      CountPositive(lens, |lens|, k - 1);
    }
  }

  /** Exactly two symbols have codes, of one bit. */
  ghost predicate TwoCodes(lens: seq<nat>, a: nat, b: nat) {
    a < b < |lens| && forall i :: 0 <= i < |lens| ==> lens[i] == if i == a || i == b then 1 else 0
  }

  lemma TwoCodesAre(lens: seq<nat>, a: nat, b: nat)
    requires TwoCodes(lens, a, b)
    ensures Code(lens, a) == 0 && Code(lens, b) == 1
  {
    FirstCode(lens, 1);
    CountRun(lens, 0, a, 0, 1);
    CountRun(lens, a, a + 1, 1, 1);
    CountRun(lens, a + 1, b, 0, 1);
  }

  lemma DecodeTwo(s: seq<bit>, p: nat, lens: seq<nat>, a: nat, b: nat)
    requires TwoCodes(lens, a, b) && p < |s|
    ensures Decode(s, p, lens) == Some(if s[p] == 0 then a else b)
  {
    hide Code;
    TwoCodesAre(lens, a, b);
    assert Msb(s, p, 1) == s[p] by {
      assert Msb(s, p, 0) == 0;
    }
    DecodeUnique(s, p, lens, if s[p] == 0 then a else b);
  }

  lemma {:induction false} KraftOnes(lens: seq<nat>, n: nat)
    requires n <= |lens| && Lengths(lens) && forall i :: 0 <= i < |lens| ==> lens[i] <= 1
    ensures Kraft(lens, n) == Count(lens, n, 1) * Width(1)
  {
    if n > 0 {
      KraftOnes(lens, n - 1);
      if lens[n - 1] == 1 {
        Distribute(1, Count(lens, n - 1, 1), 1, Width(1));
      }
    }
  }

  /** Up to two codes of one bit may be used. */
  lemma OnesUsable(lens: seq<nat>)
    requires (forall i :: 0 <= i < |lens| ==> lens[i] <= 1) && Count(lens, |lens|, 1) <= 2
    ensures Usable(lens)
  {
    hide Kraft;
    KraftOnes(lens, |lens|);
    Pow2Values();
    assert Width(1) == 32768;
  }

  // ----- thirty-one distance code lengths

  /** Where the stream has ones. */
  predicate One(i: nat) {
    || i == 0 || i == 2 || 9 <= i <= 12 || 14 <= i <= 16 || i == 23 || i == 68 || 72 <= i <= 80
    || i == 82 || i == 84 || i == 86 || i == 87 || 90 <= i <= 92 || i == 95 || i == 99
  }

  /**
   One block with codes of its own: symbols 0 and 256 have the codes 0 and 1, and 31 code
   lengths for distances follow, of which the first is 1 and the others are 0. The data is
   a single zero byte.
   */
  function ManyDistances(): (s: seq<bit>)
    ensures |s| == 120
  {
    seq(120, i requires 0 <= i => if One(i) then 1 else 0)
  }

  function V(i: nat): nat {
    if One(i) then 1 else 0
  }

  lemma FieldNext(p: nat, n: nat)
    requires n > 0 && p < 120
    ensures Bits(ManyDistances(), p, n) == V(p) + 2 * Bits(ManyDistances(), p + 1, n - 1)
    ensures Bits(ManyDistances(), p, 0) == 0
  {
  }

  lemma Field3(p: nat)
    requires p + 3 < 120
    ensures Bits(ManyDistances(), p, 3) == V(p) + 2 * V(p + 1) + 4 * V(p + 2)
  {
    hide Bits, V, One;
    FieldNext(p, 3);
    FieldNext(p + 1, 2);
    FieldNext(p + 2, 1);
    FieldNext(p + 3, 1);
  }

  lemma Field5(p: nat)
    requires p + 5 < 120
    ensures Bits(ManyDistances(), p, 5) == V(p) + 2 * V(p + 1) + 4 * V(p + 2) + 8 * V(p + 3) + 16 * V(p + 4)
  {
    hide Bits, V, One;
    FieldNext(p, 5);
    FieldNext(p + 1, 4);
    Field3(p + 2);
  }

  lemma Field7(p: nat)
    requires p + 7 < 120
    ensures Bits(ManyDistances(), p, 7) == V(p) + 2 * V(p + 1) + 4 * Bits(ManyDistances(), p + 2, 5)
  {
    hide Bits, V, One;
    FieldNext(p, 7);
    FieldNext(p + 1, 6);
  }

  /** The block's header. */
  lemma ManyHeader()
    ensures var s := ManyDistances();
      && Bits(s, 0, 1) == 1 && Bits(s, 1, 2) == 2 && Bits(s, 3, 5) == 0 && Bits(s, 8, 5) == 30 && Bits(s, 13, 4) == 14
  {
    hide Bits;
    FieldNext(0, 1);
    FieldNext(1, 2);
    FieldNext(2, 1);
    FieldNext(3, 1);
    Field5(3);
    Field5(8);
    FieldNext(13, 4);
    Field3(14);
  }

  /** The code lengths' own code: symbols 1 and 18 have one bit. */
  lemma ManyLengthCode()
    ensures TwoCodes(LengthCodes(ManyDistances(), 17, 18), 1, 18)
  {
    hide Bits, LengthCodes;
    var s, cl := ManyDistances(), LengthCodes(ManyDistances(), 17, 18);
    OrderOnto();
    forall v | 0 <= v < 19
      ensures cl[v] == if v == 1 || v == 18 then 1 else 0
    {
      var i := PLACE[v];
      LengthCodesAt(s, 17, 18, i);
      if i < 18 {
        Field3(17 + 3 * i);
        ManyLength(i);
      }
    }
  }

  lemma ManyLength(i: nat)
    requires i < 18
    ensures V(17 + 3 * i) == (if i == 2 || i == 17 then 1 else 0) && V(18 + 3 * i) == 0 && V(19 + 3 * i) == 0
  {
  }

  // ----- the run-length coded lengths

  /** The lengths, part by part. */
  function Part(n: nat): (r: seq<nat>)
    requires n <= 6
    ensures |r| == if n == 0 then 0 else if n == 1 then 1 else if n == 2 then 139 else if n == 3 then 256
                   else if n == 4 then 257 else if n == 5 then 258 else 288
    ensures forall i :: 0 <= i < |r| ==> r[i] == if i == 0 || i == 256 || i == 257 then 1 else 0
  {
    if n == 0 then [] else if n == 1 then [1]
    else if n == 2 then [1] + Repeat(0, 138)
    else if n == 3 then [1] + Repeat(0, 255)
    else if n == 4 then [1] + Repeat(0, 255) + [1]
    else if n == 5 then [1] + Repeat(0, 255) + [1, 1]
    else [1] + Repeat(0, 255) + [1, 1] + Repeat(0, 30)
  }

  /** A length of one, by its one-bit code. */
  lemma OneLength(s: seq<bit>, p: nat, cl: seq<nat>, lens: seq<nat>)
    requires TwoCodes(cl, 1, 18) && p < |s| && s[p] == 0
    ensures ExpandOne(s, p, cl, lens) == Some(Lens(lens + [1], p + 1))
  {
    DecodeTwo(s, p, cl, 1, 18);
    ExpandOneIs(s, p, cl, lens, 1);
  }

  /** A run of zeros. */
  lemma ZeroLengths(s: seq<bit>, p: nat, cl: seq<nat>, lens: seq<nat>, n: nat)
    requires TwoCodes(cl, 1, 18) && p + 8 <= |s| && s[p] == 1 && Bits(s, p + 1, 7) + 11 == n
    ensures ExpandOne(s, p, cl, lens) == Some(Lens(lens + Repeat(0, n), p + 8))
  {
    hide Bits, ExpandOne;
    DecodeTwo(s, p, cl, 1, 18);
    ExpandOneIs(s, p, cl, lens, 18);
  }

  /** The three runs. */
  lemma ManyRuns()
    ensures var s := ManyDistances(); Bits(s, 73, 7) == 127 && Bits(s, 81, 7) == 106 && Bits(s, 91, 7) == 19
  {
    hide Bits;
    Field7(73);
    Field5(75);
    Field7(81);
    Field5(83);
    Field7(91);
    Field5(93);
  }

  lemma ManySymbols()
    ensures var s := ManyDistances(); s[71] == 0 && s[72] == 1 && s[80] == 1 && s[88] == 0 && s[89] == 0 && s[90] == 1
    ensures var s := ManyDistances(); s[98] == 0 && s[99] == 1
  {
  }

  /** One more part of the lengths. */
  lemma NextPart(p: nat, cl: seq<nat>, n: nat, q: nat)
    requires n < 6 && p <= q <= 120 && ExpandOne(ManyDistances(), p, cl, Part(n)) == Some(Lens(Part(n + 1), q))
    ensures Expand(ManyDistances(), p, cl, Part(n), 288) == Expand(ManyDistances(), q, cl, Part(n + 1), 288)
  {
    hide ExpandOne, Expand;
    ExpandStep(ManyDistances(), p, cl, Part(n), 288);
  }

  lemma Parts()
    ensures Part(0) + [1] == Part(1) && Part(1) + Repeat(0, 138) == Part(2) && Part(2) + Repeat(0, 117) == Part(3)
    ensures Part(3) + [1] == Part(4) && Part(4) + [1] == Part(5) && Part(5) + Repeat(0, 30) == Part(6)
  {
  }

  lemma ManyExpanded(cl: seq<nat>)
    requires TwoCodes(cl, 1, 18)
    ensures Expand(ManyDistances(), 71, cl, [], 288) == Some(Lens(Part(6), 98))
  {
    hide Bits, ExpandOne, Expand, Part, Repeat, TwoCodes;
    var s := ManyDistances();
    ManyRuns();
    ManySymbols();
    Parts();
    PartNone();
    OneLength(s, 71, cl, Part(0));
    NextPart(71, cl, 0, 72);
    ZeroLengths(s, 72, cl, Part(1), 138);
    NextPart(72, cl, 1, 80);
    ZeroLengths(s, 80, cl, Part(2), 117);
    NextPart(80, cl, 2, 88);
    OneLength(s, 88, cl, Part(3));
    NextPart(88, cl, 3, 89);
    OneLength(s, 89, cl, Part(4));
    NextPart(89, cl, 4, 90);
    ZeroLengths(s, 90, cl, Part(5), 30);
    NextPart(90, cl, 5, 98);
    ExpandEnd(s, 98, cl, Part(6));
  }

  lemma PartNone()
    ensures Part(0) == [] && |Part(6)| == 288
  {
  }

  // ----- the whole data set

  lemma TwoUsable(lens: seq<nat>, a: nat, b: nat)
    requires TwoCodes(lens, a, b)
    ensures Usable(lens)
  {
    hide Usable;
    CountRun(lens, 0, a, 0, 1);
    CountRun(lens, a, a + 1, 1, 1);
    CountRun(lens, a + 1, b, 0, 1);
    CountRun(lens, b, b + 1, 1, 1);
    CountRun(lens, b + 1, |lens|, 0, 1);
    OnesUsable(lens);
  }

  lemma ManyCodes()
    ensures ReadCodes(ManyDistances(), 3, FORMAT_DISTS) == Some(Codes(Part(6)[..257], Part(6)[257..], 98))
  {
    hide Bits, LengthCodes, Usable, Expand, Part;
    var s := ManyDistances();
    ManyHeader();
    ManyLengthCode();
    TwoUsable(LengthCodes(s, 17, 18), 1, 18);
    ManyExpanded(LengthCodes(s, 17, 18));
  }

  lemma ManyUsable()
    ensures TwoCodes(Part(6)[..257], 0, 256) && Usable(Part(6)[..257]) && Usable(Part(6)[257..])
  {
    hide Usable;
    TwoUsable(Part(6)[..257], 0, 256);
    var dists := Part(6)[257..];
    CountRun(dists, 0, 1, 1, 1);
    CountRun(dists, 1, 31, 0, 1);
    OnesUsable(dists);
  }

  lemma ManyDecoded(out: seq<byte>, lits: seq<nat>, dists: seq<nat>)
    requires TwoCodes(lits, 0, 256)
    ensures Compressed(ManyDistances(), 98, out, lits, dists) == Some(Progress(out + [0], 100))
  {
    hide TwoCodes;
    ManySymbols();
    DecodeTwo(ManyDistances(), 98, lits, 0, 256);
    DecodeTwo(ManyDistances(), 99, lits, 0, 256);
    TwoLengths(lits, 0, 256);
  }

  lemma TwoLengths(lens: seq<nat>, a: nat, b: nat)
    requires TwoCodes(lens, a, b)
    ensures a < b < |lens| && lens[a] == lens[b] == 1
  {
  }

  /**
   The format allows 31 distance code lengths; the decoder does not. Twenty more bits follow
   the data, so that it cannot have run out of input.
   */
  lemma ManyDistancesRejected(out: seq<byte>)
    ensures Inflated(ManyDistances(), 0, out, FORMAT_DISTS) == Some(Progress(out + [0], 100))
    ensures !Few(ManyDistances(), 0) && Specified(ManyDistances(), 0, out) == None
  {
    hide Bits, ReadCodes, Usable, Compressed, Part, Stored;
    ManyHeader();
    ManyCodes();
    ManyUsable();
    ManyDecoded(out, Part(6)[..257], Part(6)[257..]);
  }

  // ----- a reference before the first byte

  /** A block with the fixed codes: length 3 at distance 1, and the end of the block. */
  function FarBack(): (s: seq<bit>)
    ensures |s| == 24
  {
    seq(24, i requires 0 <= i => if i == 0 || i == 1 || i == 9 then 1 else 0)
  }

  lemma FixedCode(sym: nat)
    requires 256 <= sym < 280
    ensures FixedLits()[sym] == 7 && Code(FixedLits(), sym) == sym - 256 && Lengths(FixedLits())
  {
    hide Count;
    FirstCode(FixedLits(), 7);
    CountRun(FixedLits(), 0, 144, 8, 7);
    CountRun(FixedLits(), 144, 256, 9, 7);
    CountRun(FixedLits(), 256, sym, 7, 7);
    CountNone(FixedLits(), 7);
  }

  lemma CountNone(lens: seq<nat>, k: nat)
    ensures Count(lens, 0, k) == 0
  {
  }

  lemma MsbNext(p: nat, n: nat)
    requires n > 0 && p + n <= 24
    ensures Msb(FarBack(), p, n) == 2 * Msb(FarBack(), p, n - 1) + FarBack()[p + n - 1] && Msb(FarBack(), p, 0) == 0
  {
  }

  /** The two codes and the distance code, most significant bit first. */
  lemma FarBackCodes()
    ensures var s := FarBack(); Msb(s, 3, 7) == 1 && Msb(s, 10, 5) == 0 && Msb(s, 15, 7) == 0
    ensures Bits(FarBack(), 0, 1) == 1 && Bits(FarBack(), 1, 2) == 1
  {
    hide Msb;
    FarBackZeros(3, 6);
    MsbNext(3, 7);
    FarBackZeros(10, 5);
    FarBackZeros(15, 7);
    assert Bits(FarBack(), 1, 1) == 1 + 2 * Bits(FarBack(), 2, 0);
    assert Bits(FarBack(), 2, 1) == 0 + 2 * Bits(FarBack(), 3, 0);
  }

  lemma {:induction false} FarBackZeros(p: nat, n: nat)
    requires 1 < p && p + n <= 24 && (p + n <= 9 || 9 < p)
    ensures Msb(FarBack(), p, n) == 0
    decreases n
  {
    if n > 0 {
      FarBackZeros(p, n - 1);
      MsbNext(p, n);
    }
  }

  /** Seven bits that spell a code of a symbol from 256 on. */
  lemma FixedDecoded(p: nat, sym: nat)
    requires 256 <= sym < 280 && p + 7 <= 24 && Msb(FarBack(), p, 7) == sym - 256
    ensures Decode(FarBack(), p, FixedLits()) == Some(sym)
  {
    hide Msb, Code;
    FixedCode(sym);
    DecodeUnique(FarBack(), p, FixedLits(), sym);
  }

  lemma FirstDistance()
    requires Msb(FarBack(), 10, 5) == 0
    ensures ReadDistance(FarBack(), 10, FixedDists()) == Some(Distance(1, 15))
  {
    hide Msb, Bits;
    InflateFixed.DecodeUniform(FarBack(), 10, 5, 32);
    NoBits(FarBack(), 15);
  }

  lemma FirstReference()
    requires ReadDistance(FarBack(), 10, FixedDists()) == Some(Distance(1, 15))
    ensures ReadReference(FarBack(), 10, 257, FixedDists()) == Some(Reference(3, 1, 15))
  {
    hide ReadDistance, FixedDists, Bits;
    NoBits(FarBack(), 10);
  }

  lemma FarBackDecoded()
    ensures Decode(FarBack(), 3, FixedLits()) == Some(257) && Decode(FarBack(), 15, FixedLits()) == Some(256)
    ensures ReadReference(FarBack(), 10, 257, FixedDists()) == Some(Reference(3, 1, 15))
  {
    hide Msb, Decode, ReadDistance, ReadReference, FixedLits, FixedDists, Bits;
    FarBackCodes();
    FixedDecoded(3, 257);
    FixedDecoded(15, 256);
    FirstDistance();
    FirstReference();
  }

  lemma NoBits(s: seq<bit>, p: nat)
    ensures Bits(s, p, 0) == 0
  {
  }

  /** With any byte before it the decoder makes three more of that byte; by itself the data is not valid. */
  lemma FarBackAccepted(win: seq<byte>)
    requires win != []
    ensures Inflated(FarBack(), 0, win, FORMAT_DISTS) == Some(Progress(Copy(win, 1, 3), 22)) && Few(FarBack(), 0)
    ensures Inflated(FarBack(), 0, [], FORMAT_DISTS) == None && !Within(FarBack(), 0, 0, FORMAT_DISTS)
  {
    hide Msb, Code, Bits, ReadReference, Decode, FixedLits, FixedDists, Stored, ReadCodes, Copy;
    FarBackDecoded();
    FarBackCodes();
    FarBackLengths();
    FarBackBlock(win);
    FarBackNothing();
  }

  lemma FarBackLengths()
    ensures FixedLits()[257] == 7 && FixedLits()[256] == 7 && |FarBack()| == 24
  {
  }

  lemma FarBackBlock(win: seq<byte>)
    requires win != []
    ensures Compressed(FarBack(), 3, win, FixedLits(), FixedDists()) == Some(Progress(Copy(win, 1, 3), 22))
    ensures !CodesWithin(FarBack(), 3, 0, FixedLits(), FixedDists())
  {
    hide ReadReference, Copy, FixedLits, FixedDists;
    FarBackDecoded();
    FarBackLengths();
  }

  lemma FarBackNothing()
    ensures Compressed(FarBack(), 3, [], FixedLits(), FixedDists()) == None
  {
    hide ReadReference, Copy, FixedLits, FixedDists;
    FarBackDecoded();
    FarBackLengths();
  }
}
