/**
 Bit patterns and the intervals of points they stand for. A pattern is a number whose
 lowest bit comes first in the stream, as in the decoder's tables and its bit-reversed
 code counter; a point is a left-aligned code, first bit highest, as in Canonical.
 */
module Geometry {
  import opened Words
  import opened Stream
  import opened Canonical

  /** Number of points. */
  const ALL: nat := Pow2(BMAX)

  /** First of the Width(n) points whose first n bits are the pattern. */
  function Origin(pat: nat, n: nat): nat
    requires n <= BMAX
  {
    Rev(pat, n) * Width(n)
  }

  lemma OriginBound(pat: nat, n: nat)
    requires n <= BMAX
    ensures Origin(pat, n) + Width(n) <= ALL
  {
    RevBound(pat, n);
    MulSucc(Rev(pat, n), Pow2(n), Width(n));
    Pow2Add(n, BMAX - n);
  }

  lemma RevParts(pat: nat, n: nat, m: nat) returns (b: nat)
    requires n <= m <= BMAX
    ensures Rev(pat, m) == Rev(Low(pat, n), n) * Pow2(m - n) + b && b < Pow2(m - n)
    ensures Width(n) == Pow2(m - n) * Width(m)
  {
    b := Rev(Shr(pat, n), m - n);
    RevSplit(pat, n, m - n);
    RevLow(pat, n);
    RevBound(Shr(pat, n), m - n);
    Pow2Add(m - n, BMAX - m);
  }

  /** A pattern's low part is the wider interval around it. */
  lemma OriginLow(pat: nat, n: nat, m: nat)
    requires n <= m <= BMAX
    ensures Origin(Low(pat, n), n) <= Origin(pat, m)
    ensures Origin(pat, m) + Width(m) <= Origin(Low(pat, n), n) + Width(n)
  {
    var b := RevParts(pat, n, m);
    Nested(Rev(pat, m), Rev(Low(pat, n), n), Pow2(m - n), b, Width(m), Width(n));
  }

  lemma Nested(r: nat, a: nat, g: nat, b: nat, w: nat, wide: nat)
    requires b < g && r == a * g + b && wide == g * w
    ensures a * wide <= r * w && r * w + w <= a * wide + wide
  {
    Distribute(a, g, b, w);
    MulSucc(b, g, w);
  }

  /** Two patterns of one length have disjoint intervals. */
  lemma OriginDisjoint(a: nat, b: nat, n: nat)
    requires n <= BMAX && a < Pow2(n) && b < Pow2(n) && a != b
    ensures Origin(a, n) + Width(n) <= Origin(b, n) || Origin(b, n) + Width(n) <= Origin(a, n)
  {
    if Rev(a, n) == Rev(b, n) {
      RevInjective(a, b, n);
    } else if Rev(a, n) < Rev(b, n) {
      MulSucc(Rev(a, n), Rev(b, n), Width(n));
    } else {
      MulSucc(Rev(b, n), Rev(a, n), Width(n));
    }
  }

  /** A pattern starts with a shorter one exactly when its interval lies in the other's. */
  lemma StartsWith(a: nat, n: nat, b: nat, m: nat)
    requires n <= m <= BMAX && a < Pow2(n)
    ensures Low(b, n) == a <==> Origin(a, n) <= Origin(b, m) < Origin(a, n) + Width(n)
  {
    OriginLow(b, n, m);
    if Low(b, n) != a {
      Split(b, n);
      OriginDisjoint(a, Low(b, n), n);
    }
  }

  /** The same for the bits of a stream. */
  lemma StreamStartsWith(s: seq<bit>, p: nat, a: nat, n: nat)
    requires n <= BMAX && a < Pow2(n)
    ensures Bits(s, p, n) == a <==> Origin(a, n) <= Msb(s, p, BMAX) < Origin(a, n) + Width(n)
  {
    var b := Bits(s, p, BMAX);
    BitsParts(s, p, n, BMAX - n);
    RevBits(s, p, BMAX);
    assert Pow2(0) == 1;
    StartsWith(a, n, b, BMAX);
    assert Origin(b, BMAX) == Msb(s, p, BMAX);
  }

  // ----- the backward counter

  /** The successor of a k-bit code held bit-reversed; the last code wraps to zero. */
  function Next(i: nat, k: nat): nat
    decreases k, i
  {
    if k == 0 then 0
    else if Bit(i, k - 1) == 1 then Next(Low(i, k - 1), k - 1)
    else i + Pow2(k - 1)
  }

  lemma TopBit(i: nat, k: nat)
    requires k > 0 && i < Pow2(k)
    ensures i == Low(i, k - 1) + Bit(i, k - 1) * Pow2(k - 1) && Low(i, k - 1) < Pow2(k - 1)
  {
    Split(i, k - 1);
    if Shr(i, k - 1) >= 2 {
      MulLe(2, Shr(i, k - 1), Pow2(k - 1));
    }
  }

  lemma {:induction false} NextBound(i: nat, k: nat)
    requires i < Pow2(k)
    ensures Next(i, k) < Pow2(k)
    decreases k
  {
    if k > 0 {
      TopBit(i, k);
      if Bit(i, k - 1) == 1 {
        NextBound(Low(i, k - 1), k - 1);
      }
    }
  }

  /** Counting backwards on patterns is counting forwards on codes. */
  lemma {:induction false} NextCounts(i: nat, k: nat)
    requires i < Pow2(k)
    ensures Counted(i, k, Next(i, k))
    decreases k
  {
    hide Counted, Low, Bit, Pow2;
    if k == 0 {
      CountedNone(i);
    } else {
      var lo := Low(i, k - 1);
      TopBit(i, k);
      BitRange(i, k - 1);
      if Bit(i, k - 1) == 1 {
        NextCounts(lo, k - 1);
        Carry(i, lo, k, Next(lo, k - 1));
      } else {
        SetTop(i, k, i + Pow2(k - 1));
      }
    }
  }

  /** j is what follows pattern i: its reversal is one more, or the last code wraps to zero. */
  ghost predicate Counted(i: nat, k: nat, j: nat) {
    if Rev(i, k) + 1 == Pow2(k) then j == 0 else Rev(j, k) == Rev(i, k) + 1 && j < Pow2(k)
  }

  lemma CountedNone(i: nat)
    requires i < Pow2(0)
    ensures Counted(i, 0, Next(i, 0))
  {
  }

  lemma BitRange(i: nat, k: nat)
    ensures Bit(i, k) < 2
  {
  }

  /** A clear top bit is set. */
  lemma SetTop(i: nat, k: nat, j: nat)
    requires k > 0 && i < Pow2(k - 1) && j == i + Pow2(k - 1)
    ensures Counted(i, k, j)
  {
    hide Rev, Pow2;
    RevTop(i, i, 0, k - 1);
    RevTop(j, i, 1, k - 1);
    Pow2Half(k);
  }

  /** A set top bit is cleared, and the bits below count on. */
  lemma Carry(i: nat, lo: nat, k: nat, j: nat)
    requires k > 0 && lo < Pow2(k - 1) && i == lo + Pow2(k - 1) && Counted(lo, k - 1, j)
    ensures Counted(i, k, j)
  {
    hide Rev, Pow2;
    RevTop(i, lo, 1, k - 1);
    Pow2Half(k);
    if j < Pow2(k - 1) {
      RevTop(j, j, 0, k - 1);
    }
  }

  /** The counter changes its low n bits only by clearing everything above them. */
  lemma {:induction false} NextKeepsLow(i: nat, k: nat, n: nat)
    requires i < Pow2(k)
    ensures Low(Next(i, k), n) == Low(i, n) || Next(i, k) < Pow2(n)
    decreases k
  {
    if k <= n {
      NextBound(i, k);
      Pow2Mono(k, n);
    } else {
      var lo := Low(i, k - 1);
      TopBit(i, k);
      LowLow(i, n, k - 1);
      if Bit(i, k - 1) == 1 {
        NextKeepsLow(lo, k - 1, n);
      } else {
        LowAddTop(lo, k - 1, n);
      }
    }
  }

  /** Setting a bit above the low n does not change them. */
  lemma LowAddTop(lo: nat, m: nat, n: nat)
    requires lo < Pow2(m) && n <= m
    ensures Low(lo + Pow2(m), n) == Low(lo, n)
  {
    hide Low, Pow2;
    SplitAt(lo + Pow2(m), 1, lo, m);
    LowLow(lo + Pow2(m), n, m);
  }

  /** One turn of the loop below: a set top bit is cleared, or a clear one is set. */
  lemma Turn(i: nat, m: nat)
    requires m > 0 && i < Pow2(m)
    ensures And(i, Pow2(m - 1)) != 0 <==> Bit(i, m - 1) == 1
    ensures Bit(i, m - 1) == 1 ==> Xor(i, Pow2(m - 1)) == Low(i, m - 1) < Pow2(m - 1)
    ensures Bit(i, m - 1) == 0 ==> Xor(i, Pow2(m - 1)) == Next(i, m)
    ensures Bit(i, m - 1) == 1 ==> Next(i, m) == Next(Low(i, m - 1), m - 1)
  {
    hide And, Xor, Pow2, Low, Shr;
    AndBit(i, m - 1);
    XorBit(i, m - 1);
    TopBit(i, m);
  }

  /** The tested bit moves down, and out at the end. */
  lemma HalfBit(m: nat)
    requires m > 0
    ensures Pow2(m - 1) / 2 == if m == 1 then 0 else Pow2(m - 2)
  {
  }

  lemma NothingLeft(i: nat)
    requires i < Pow2(0)
    ensures i == 0 && And(i, 0) == 0 && Xor(i, 0) == 0 && Next(i, 0) == 0
  {
  }

  /** The loop that steps the counter: from the top bit down, clear ones, set the first zero. */
  method BackwardIncrement(i0: nat, k: nat) returns (i: nat)
    requires 1 <= k <= BMAX && i0 < Pow2(k)
    ensures i == Next(i0, k)
  {
    hide And, Xor, Pow2, Low, Shr, Next;
    i := i0;
    var j := Pow2(k - 1);
    ghost var m := k;
    while And(i, j) != 0
      invariant 0 <= m <= k && i < Pow2(m) && Next(i, m) == Next(i0, k)
      invariant j == if m == 0 then 0 else Pow2(m - 1)
      decreases m
    {
      if m == 0 {
        NothingLeft(i);
      }
      Turn(i, m);
      HalfBit(m);
      i := Xor(i, j);
      j := j / 2;
      m := m - 1;
    }
    if m > 0 {
      Turn(i, m);
    } else {
      NothingLeft(i);
    }
    i := Xor(i, j);
  }
}
