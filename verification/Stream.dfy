/**
 A byte string read as a stream of bits, least significant bit of each byte first
 (section 3.1.1 of RFC 1951), and the numbers packed in it. Beyond the end the stream
 reads as zeros.
 */
module Stream {
  import opened Words

  function BitsOf(data: seq<byte>): (s: seq<bit>)
    ensures |s| == 8 * |data|
  {
    seq(8 * |data|, i requires 0 <= i < 8 * |data| => Bit(data[i / 8], i % 8))
  }

  function BitAt(s: seq<bit>, p: nat): bit {
    if p < |s| then s[p] else 0
  }

  /** The n bits from p as a number, first bit least significant: how fields are packed. */
  function Bits(s: seq<bit>, p: nat, n: nat): nat
    decreases n, p
  {
    if n == 0 then 0 else BitAt(s, p) + 2 * Bits(s, p + 1, n - 1)
  }

  /** The n bits from p as a number, first bit most significant: how codes are packed. */
  function Msb(s: seq<bit>, p: nat, n: nat): nat
    decreases n, p
  {
    if n == 0 then 0 else 2 * Msb(s, p, n - 1) + BitAt(s, p + n - 1)
  }

  /** Reverses the order of the low n bits of x. */
  function Rev(x: nat, n: nat): nat
    decreases n, x
  {
    if n == 0 then 0 else (x % 2) * Pow2(n - 1) + Rev(x / 2, n - 1)
  }

  // ----- fields

  lemma {:induction false} BitsBound(s: seq<bit>, p: nat, n: nat)
    ensures Bits(s, p, n) < Pow2(n)
    decreases n
  {
    if n > 0 {
      BitsBound(s, p + 1, n - 1);
    }
  }

  lemma {:induction false} BitsSplit(s: seq<bit>, p: nat, a: nat, b: nat)
    ensures Bits(s, p, a + b) == Bits(s, p, a) + Bits(s, p + a, b) * Pow2(a)
    decreases a
  {
    if a > 0 {
      BitsSplit(s, p + 1, a - 1, b);
      MulDouble(Bits(s, p + a, b), Pow2(a), Pow2(a - 1));
    }
  }

  /** The low and high parts of a field are the fields of its bits. */
  lemma BitsParts(s: seq<bit>, p: nat, a: nat, b: nat)
    ensures Low(Bits(s, p, a + b), a) == Bits(s, p, a)
    ensures Shr(Bits(s, p, a + b), a) == Bits(s, p + a, b)
  {
    BitsSplit(s, p, a, b);
    BitsBound(s, p, a);
    SplitUnique(Bits(s, p + a, b), Bits(s, p, a), a);
  }

  /** A whole byte is the field of its eight bits. */
  lemma BitsOfByte(data: seq<byte>, i: nat)
    requires i < |data|
    ensures Bits(BitsOf(data), 8 * i, 8) == data[i]
  {
    ByteTail(data, i, 8);
    assert Pow2(8) == 256;
    LowSmall(data[i], 8);
  }

  lemma {:induction false} ByteTail(data: seq<byte>, i: nat, n: nat)
    requires i < |data| && n <= 8
    ensures Bits(BitsOf(data), 8 * i + 8 - n, n) == Low(Shr(data[i], 8 - n), n)
    decreases n
  {
    if n > 0 {
      ByteTail(data, i, n - 1);
      var p := 8 * i + 8 - n;
      assert p / 8 == i && p % 8 == 8 - n;
      ShrShr(data[i], 8 - n, 1);
      OneBit(Shr(data[i], 8 - n));
    }
  }

  // ----- codes

  lemma {:induction false} MsbBound(s: seq<bit>, p: nat, n: nat)
    ensures Msb(s, p, n) < Pow2(n)
    decreases n
  {
    if n > 0 {
      MsbBound(s, p, n - 1);
    }
  }

  lemma {:induction false} MsbSplit(s: seq<bit>, p: nat, a: nat, b: nat)
    ensures Msb(s, p, a + b) == Msb(s, p, a) * Pow2(b) + Msb(s, p + a, b)
    decreases b
  {
    if b > 0 {
      MsbSplit(s, p, a, b - 1);
      MulDouble(Msb(s, p, a), Pow2(b), Pow2(b - 1));
      assert p + (a + b) - 1 == (p + a) + b - 1;
    }
  }

  // ----- reversal

  lemma {:induction false} RevBound(x: nat, n: nat)
    ensures Rev(x, n) < Pow2(n)
    decreases n
  {
    if n > 0 {
      RevBound(x / 2, n - 1);
    }
  }

  lemma {:induction false} RevLow(x: nat, n: nat)
    ensures Rev(Low(x, n), n) == Rev(x, n)
    decreases n
  {
    if n > 0 {
      RevLow(x / 2, n - 1);
      assert Low(x, n) % 2 == x % 2 && Low(x, n) / 2 == Low(x / 2, n - 1);
    }
  }

  lemma {:induction false} RevSplit(x: nat, a: nat, b: nat)
    ensures Rev(x, a + b) == Rev(x, a) * Pow2(b) + Rev(Shr(x, a), b)
    decreases a
  {
    if a > 0 {
      RevSplit(x / 2, a - 1, b);
      Pow2Add(a - 1, b);
      Distribute(x % 2, Pow2(a - 1), Rev(x / 2, a - 1), Pow2(b));
      assert Rev(x, a + b) == (x % 2) * Pow2(a - 1 + b) + Rev(x / 2, a - 1 + b);
    }
  }

  lemma Distribute(d: nat, u: nat, v: nat, w: nat)
    ensures (d * u + v) * w == d * (u * w) + v * w
  {
  }

  /** Reading a field backwards gives the code in it. */
  lemma {:induction false} RevBits(s: seq<bit>, p: nat, n: nat)
    ensures Rev(Bits(s, p, n), n) == Msb(s, p, n)
    decreases n
  {
    hide Rev, Pow2, BitAt;
    if n == 0 {
      RevNone(0);
    } else {
      RevBits(s, p + 1, n - 1);
      MsbSplit(s, p, 1, n - 1);
      MsbOne(s, p);
      RevNext(Bits(s, p, n), BitAt(s, p), Bits(s, p + 1, n - 1), n);
    }
  }

  lemma RevNone(i: nat)
    ensures Rev(i, 0) == 0
  {
  }

  lemma MsbOne(s: seq<bit>, p: nat)
    ensures Msb(s, p, 1) == BitAt(s, p)
  {
    assert Msb(s, p, 0) == 0;
  }

  lemma RevNext(x: nat, t: bit, rest: nat, n: nat)
    requires n > 0 && x == t + 2 * rest
    ensures Rev(x, n) == t * Pow2(n - 1) + Rev(rest, n - 1)
  {
    hide Pow2;
    assert x % 2 == t && x / 2 == rest;
  }

  /** The top bit of a word is the lowest bit of its reversal. */
  lemma RevTop(y: nat, x: nat, t: nat, n: nat)
    requires x < Pow2(n) && t < 2 && y == t * Pow2(n) + x
    ensures Rev(y, n + 1) == 2 * Rev(x, n) + t
  {
    hide Rev, Pow2, Low, Shr;
    SplitAt(y, t, x, n);
    RevSplit(y, n, 1);
    RevLow(y, n);
    RevOne(t);
    Pow2Values();
  }

  lemma RevOne(t: nat)
    requires t < 2
    ensures Rev(t, 1) == t
  {
    assert Rev(t, 1) == t % 2 * Pow2(0) + Rev(t / 2, 0);
  }

  lemma {:induction false} RevInjective(x: nat, y: nat, n: nat)
    requires x < Pow2(n) && y < Pow2(n) && Rev(x, n) == Rev(y, n)
    ensures x == y
    decreases n
  {
    if n > 0 {
      RevBound(x / 2, n - 1);
      RevBound(y / 2, n - 1);
      assert x % 2 == y % 2;
      RevInjective(x / 2, y / 2, n - 1);
    }
  }
}
