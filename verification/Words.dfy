/**
 Machine words and bytes as natural numbers, with C's bitwise operators defined
 bit by bit. A left shift, which can lose bits, wraps at 32 bits.
 */
module Words {

  /** Number of values of a 32-bit `unsigned`. */
  const WORD: nat := 0x1_0000_0000

  type byte = x: nat | x < 256

  type bit = x: nat | x < 2

  type word = x: nat | x < WORD

  type int32 = x: int | -0x8000_0000 <= x < 0x8000_0000

  /** C's conversions between int and unsigned. */
  function Unsigned(x: int32): (r: word)
    ensures Signed(r) == x
  {
    if x >= 0 then x else x + WORD
  }

  function Signed(x: word): int32 {
    if x < 0x8000_0000 then x else x - WORD
  }

  function Pow2(n: nat): (r: nat)
    ensures r >= 1
  {
    if n == 0 then 1 else 2 * Pow2(n - 1)
  }

  /** C's `a & b`. */
  function And(a: nat, b: nat): nat {
    if a == 0 || b == 0 then 0
    else (if a % 2 == 1 && b % 2 == 1 then 1 else 0) + 2 * And(a / 2, b / 2)
  }

  /** C's `a | b`. */
  function Or(a: nat, b: nat): nat {
    if a == 0 && b == 0 then 0
    else (if a % 2 == 1 || b % 2 == 1 then 1 else 0) + 2 * Or(a / 2, b / 2)
  }

  /** C's `a ^ b`. */
  function Xor(a: nat, b: nat): nat {
    if a == 0 && b == 0 then 0
    else (if a % 2 != b % 2 then 1 else 0) + 2 * Xor(a / 2, b / 2)
  }

  /** C's `~a` on a 32-bit word. */
  function Not(a: nat): nat
    requires a < WORD
  {
    WORD - 1 - a
  }

  /** C's `a << n` on a 32-bit unsigned word. */
  function Shl(a: nat, n: nat): nat {
    a * Pow2(n) % WORD
  }

  /** C's `a >> n` on an unsigned word. */
  function Shr(a: nat, n: nat): nat
    decreases n, a
  {
    if n == 0 then a else Shr(a / 2, n - 1)
  }

  /** The low n bits of `a`. */
  function Low(a: nat, n: nat): nat
    decreases n, a
  {
    if n == 0 then 0 else a % 2 + 2 * Low(a / 2, n - 1)
  }

  /** Bit i of `a`. */
  function Bit(a: nat, i: nat): nat {
    Shr(a, i) % 2
  }

  // ----- powers of two

  lemma {:induction false} Pow2Add(a: nat, b: nat)
    ensures Pow2(a + b) == Pow2(a) * Pow2(b)
  {
    if a > 0 {
      Pow2Add(a - 1, b);
      assert Pow2(a + b) == 2 * Pow2(a - 1 + b);
    }
  }

  lemma {:induction false} Pow2Mono(a: nat, b: nat)
    requires a <= b
    ensures Pow2(a) <= Pow2(b)
  {
    if a < b {
      Pow2Mono(a, b - 1);
    }
  }

  lemma Pow2Strict(a: nat, b: nat)
    requires a < b
    ensures Pow2(a) < Pow2(b) && 2 * Pow2(a) <= Pow2(b)
  {
    Pow2Mono(a + 1, b);
  }

  lemma Pow2Values()
    ensures Pow2(0) == 1 && Pow2(1) == 2 && Pow2(2) == 4 && Pow2(3) == 8 && Pow2(4) == 16
    ensures Pow2(5) == 32 && Pow2(6) == 64 && Pow2(7) == 128 && Pow2(8) == 256
    ensures Pow2(15) == 32768 && Pow2(16) == 65536 && Pow2(32) == WORD
  {
    Pow2Add(16, 16);
  }

  lemma Pow2Word(m: nat)
    requires m < 32
    ensures Pow2(m) < WORD
  {
    var h := m / 2;
    Pow2Add(h, m - h);
    Pow2Mono(h, 15);
    Pow2Mono(m - h, 16);
    Pow2Values();
    MulLe(Pow2(h), 32768, Pow2(m - h));
  }

  lemma MulLe(a: int, b: int, d: int)
    requires a <= b && d >= 0
    ensures a * d <= b * d
  {
  }

  lemma MulLt(a: int, b: int, d: int)
    requires a * d < b * d && d > 0
    ensures a < b
  {
    if a >= b {
      MulLe(b, a, d);
    }
  }

  lemma MulSucc(r: int, n: int, w: int)
    requires r < n && w >= 0
    ensures r * w + w <= n * w
  {
    MulLe(r + 1, n, w);
  }

  /** A number with remainder lies in exactly one block of width w. */
  lemma Block(m: int, n: int, w: int, t: int)
    requires 0 <= t < w
    ensures m == n <==> n * w <= m * w + t < n * w + w
  {
    if m < n {
      MulSucc(m, n, w);
    } else if m > n {
      MulSucc(n, m, w);
    }
  }

  lemma MulDouble(t: int, u: int, v: int)
    requires u == 2 * v
    ensures t * u == 2 * (t * v)
  {
  }

  /** The logarithm to base two, rounded down. */
  function Log2(n: nat): nat {
    if n <= 1 then 0 else 1 + Log2(n / 2)
  }

  lemma {:induction false} Log2Mono(m: nat, n: nat)
    requires m <= n
    ensures Log2(m) <= Log2(n)
  {
    if m > 1 {
      Log2Mono(m / 2, n / 2);
    }
  }

  /** Log2 is the logarithm. */
  lemma {:induction false} Log2Is(n: nat)
    requires n >= 1
    ensures Pow2(Log2(n)) <= n < 2 * Pow2(Log2(n))
  {
    if n > 1 {
      Log2Is(n / 2);
    }
  }

  // ----- high and low parts

  /** A word is its high part followed by its low n bits. */
  lemma {:induction false} Split(x: nat, n: nat)
    ensures x == Shr(x, n) * Pow2(n) + Low(x, n) && Low(x, n) < Pow2(n)
    decreases n
  {
    if n > 0 {
      Split(x / 2, n - 1);
      MulDouble(Shr(x, n), Pow2(n), Pow2(n - 1));
    }
  }

  /** ... and nothing else is. */
  lemma SplitUnique(q: nat, r: nat, n: nat)
    requires r < Pow2(n)
    ensures Shr(q * Pow2(n) + r, n) == q && Low(q * Pow2(n) + r, n) == r
  {
    hide Pow2, Shr, Low;
    SplitAt(q * Pow2(n) + r, q, r, n);
  }

  lemma {:induction false} SplitAt(x: nat, q: nat, r: nat, n: nat)
    requires r < Pow2(n) && x == q * Pow2(n) + r
    ensures Shr(x, n) == q && Low(x, n) == r
    decreases n
  {
    if n > 0 {
      MulDouble(q, Pow2(n), Pow2(n - 1));
      Halve(x, q * Pow2(n - 1), r);
      SplitAt(x / 2, q, r / 2, n - 1);
    }
  }

  lemma Halve(x: nat, h: nat, r: nat)
    requires x == 2 * h + r
    ensures x % 2 == r % 2 && x / 2 == h + r / 2
  {
  }

  lemma LowSmall(x: nat, n: nat)
    requires x < Pow2(n)
    ensures Low(x, n) == x && Shr(x, n) == 0
  {
    SplitUnique(0, x, n);
  }

  lemma {:induction false} ShrShr(x: nat, a: nat, b: nat)
    ensures Shr(Shr(x, a), b) == Shr(x, a + b)
    decreases a
  {
    if a > 0 {
      ShrShr(x / 2, a - 1, b);
    }
  }

  lemma {:induction false} LowSplit(x: nat, a: nat, b: nat)
    ensures Low(x, a + b) == Low(x, a) + Low(Shr(x, a), b) * Pow2(a)
    decreases a
  {
    if a > 0 {
      LowSplit(x / 2, a - 1, b);
      MulDouble(Low(Shr(x, a), b), Pow2(a), Pow2(a - 1));
    }
  }

  lemma LowLow(x: nat, a: nat, b: nat)
    requires a <= b
    ensures Low(Low(x, b), a) == Low(x, a)
  {
    LowSplit(x, a, b - a);
    Split(x, a);
    SplitUnique(Low(Shr(x, a), b - a), Low(x, a), a);
  }

  // ----- the bitwise operators in terms of arithmetic

  /** Masking with n ones keeps the low n bits. */
  lemma {:induction false} AndMask(x: nat, n: nat)
    ensures And(x, Pow2(n) - 1) == Low(x, n)
    decreases n
  {
    if n > 0 {
      var m := Pow2(n) - 1;
      assert m % 2 == 1 && m / 2 == Pow2(n - 1) - 1;
      AndMask(x / 2, n - 1);
      if x == 0 {
        LowSmall(0, n);
      }
    }
  }

  lemma OneBit(x: nat)
    ensures And(x, 1) == x % 2 && Shr(x, 1) == x / 2
  {
    AndMask(x, 1);
    assert Pow2(1) == 2 && Low(x / 2, 0) == 0 && Shr(x / 2, 0) == x / 2;
  }

  lemma AndStep(a: nat, b: nat)
    ensures And(a, b) == (if a % 2 == 1 && b % 2 == 1 then 1 else 0) + 2 * And(a / 2, b / 2)
    ensures And(a, 0) == 0
  {
  }

  lemma Pow2Half(n: nat)
    requires n > 0
    ensures Pow2(n) == 2 * Pow2(n - 1) && Pow2(n) % 2 == 0 && Pow2(n) / 2 == Pow2(n - 1)
  {
  }

  /** Testing one bit. */
  lemma {:induction false} AndBit(x: nat, n: nat)
    ensures And(x, Pow2(n)) == Bit(x, n) * Pow2(n)
    decreases n
  {
    if n == 0 {
      OneBit(x);
    } else {
      BitHigher(x, n);
    }
  }

  lemma BitHigher(x: nat, n: nat)
    requires n > 0
    ensures And(x, Pow2(n)) == Bit(x, n) * Pow2(n)
    decreases n, 0
  {
    hide And, Pow2;
    AndBit(x / 2, n - 1);
    Pow2Half(n);
    AndStep(x, Pow2(n));
    MulDouble(Bit(x, n), Pow2(n), Pow2(n - 1));
  }

  lemma {:induction false} XorZero(x: nat)
    ensures Xor(x, 0) == x && Xor(0, x) == x
  {
    if x > 0 {
      XorZero(x / 2);
    }
  }

  lemma {:induction false} OrZero(x: nat)
    ensures Or(x, 0) == x && Or(0, x) == x
  {
    if x > 0 {
      OrZero(x / 2);
    }
  }

  lemma {:induction false} OrComm(a: nat, b: nat)
    ensures Or(a, b) == Or(b, a)
  {
    if a > 0 || b > 0 {
      OrComm(a / 2, b / 2);
    }
  }

  /** `|` of a word that fits below bit n with bits from n upwards is addition. */
  lemma {:induction false} OrDisjoint(lo: nat, hi: nat, n: nat)
    requires lo < Pow2(n)
    ensures Or(lo, hi * Pow2(n)) == lo + hi * Pow2(n)
    decreases n
  {
    if n == 0 {
      OrZero(hi);
    } else {
      OrDisjointNext(lo, hi, n);
    }
  }

  lemma OrDisjointNext(lo: nat, hi: nat, n: nat)
    requires n > 0 && lo < Pow2(n)
    ensures Or(lo, hi * Pow2(n)) == lo + hi * Pow2(n)
    decreases n, 0
  {
    hide Or, Pow2;
    Pow2Half(n);
    OrDisjoint(lo / 2, hi, n - 1);
    MulDouble(hi, Pow2(n), Pow2(n - 1));
    OrDouble(lo, hi * Pow2(n - 1));
  }

  lemma OrDouble(lo: nat, hi: nat)
    ensures Or(lo, 2 * hi) == lo % 2 + 2 * Or(lo / 2, hi)
  {
    assert 2 * hi / 2 == hi;
  }

  /** Flipping one bit adds or subtracts its weight. */
  lemma {:induction false} XorBit(x: nat, n: nat)
    ensures Xor(x, Pow2(n)) == if Bit(x, n) == 1 then x - Pow2(n) else x + Pow2(n)
    ensures Bit(x, n) == 1 ==> x >= Pow2(n)
    decreases n
  {
    if n > 0 {
      XorBit(x / 2, n - 1);
      assert Pow2(n) % 2 == 0 && Pow2(n) / 2 == Pow2(n - 1);
    } else {
      XorZero(x / 2);
    }
  }

  lemma {:induction false} XorBound(a: nat, b: nat, n: nat)
    requires a < Pow2(n) && b < Pow2(n)
    ensures Xor(a, b) < Pow2(n)
  {
    if n > 0 {
      XorBound(a / 2, b / 2, n - 1);
    }
  }

  lemma {:induction false} XorAssoc(a: nat, b: nat, c: nat)
    ensures Xor(Xor(a, b), c) == Xor(a, Xor(b, c))
  {
    if a > 0 || b > 0 || c > 0 {
      XorAssoc(a / 2, b / 2, c / 2);
      XorHalves(Xor(a, b), c);
      XorHalves(a, Xor(b, c));
      XorHalves(a, b);
      XorHalves(b, c);
    }
  }

  /** The lowest bit and the others. */
  lemma XorHalves(a: nat, b: nat)
    ensures Xor(a, b) % 2 == (if a % 2 != b % 2 then 1 else 0) && Xor(a, b) / 2 == Xor(a / 2, b / 2)
  {
  }

  lemma {:induction false} XorComm(a: nat, b: nat)
    ensures Xor(a, b) == Xor(b, a)
  {
    if a > 0 || b > 0 {
      XorComm(a / 2, b / 2);
    }
  }

  lemma {:induction false} XorSelf(a: nat)
    ensures Xor(a, a) == 0
  {
    if a > 0 {
      XorSelf(a / 2);
    }
  }

  /** Exclusive or with all ones is the complement. */
  lemma {:induction false} XorOnes(a: nat, n: nat)
    requires a < Pow2(n)
    ensures Xor(a, Pow2(n) - 1) == Pow2(n) - 1 - a
  {
    if n > 0 {
      XorOnes(a / 2, n - 1);
      var m: nat := Pow2(n) - 1;
      assert m % 2 == 1 && m / 2 == Pow2(n - 1) - 1;
    }
  }

  lemma {:induction false} ShrXor(a: nat, b: nat, n: nat)
    ensures Shr(Xor(a, b), n) == Xor(Shr(a, n), Shr(b, n))
    decreases n
  {
    if n > 0 {
      ShrXor(a / 2, b / 2, n - 1);
    }
  }

  /** The high and low parts of a word are disjoint. */
  lemma {:induction false} XorSplit(x: nat, n: nat)
    ensures x == Xor(Shr(x, n) * Pow2(n), Low(x, n))
    decreases n
  {
    if n == 0 {
      XorZero(x);
    } else {
      XorSplit(x / 2, n - 1);
      MulDouble(Shr(x, n), Pow2(n), Pow2(n - 1));
      XorDouble(Shr(x, n) * Pow2(n - 1), Low(x / 2, n - 1), x % 2);
    }
  }

  lemma XorDouble(hi: nat, lo: nat, d: nat)
    requires d < 2
    ensures Xor(2 * hi, d + 2 * lo) == d + 2 * Xor(hi, lo)
  {
    assert 2 * hi / 2 == hi && (d + 2 * lo) / 2 == lo;
  }
}
