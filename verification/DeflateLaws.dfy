/**
 The tables of the compressed format by arithmetic: which symbol and which extra bits
 stand for a length, for a distance (section 3.2.5 of RFC 1951), the fixed codes (3.2.6),
 the order of the code length codes (3.2.7), and what a copy repeats. Nothing here is
 stated in terms of the tables themselves.
 */
module DeflateLaws {
  import opened Words
  import opened Stream
  import opened Wrappers
  import opened Canonical
  import opened DeflateSpec

  // ----- lengths and distances

  /** A symbol, and the number in the `width` bits that follow its code. */
  datatype Coded = Coded(sym: nat, width: nat, extra: nat)

  /** Lengths from 3 on, four symbols to each number of extra bits; 258 has a symbol of its own. */
  function LengthCoded(len: nat): Coded
    requires 3 <= len <= 258
  {
    var l := len - 3;
    if len == 258 then Coded(285, 0, 0)
    else if l < 8 then Coded(257 + l, 0, 0)
    else var e := if Log2(l) >= 2 then Log2(l) - 2 else 0; Coded(257 + 4 * e + Shr(l, e), e, Low(l, e))
  }

  /** Distances from 1 on, two symbols to each number of extra bits. */
  function DistanceCoded(dist: nat): Coded
    requires 1 <= dist <= 32768
  {
    var d := dist - 1;
    if d < 4 then Coded(d, 0, 0)
    else var e := if Log2(d) >= 1 then Log2(d) - 1 else 0; Coded(2 * e + Shr(d, e), e, Low(d, e))
  }

  /** Four length symbols with e extra bits, of 2^e lengths each. */
  lemma LengthBlock(e: nat, w: nat, r: nat)
    requires e <= 5 && r < 4
    requires w == if e == 0 then 1 else if e == 1 then 2 else if e == 2 then 4 else if e == 3 then 8
                  else if e == 4 then 16 else 32
    ensures LENGTH_EXTRA[4 + 4 * e + r] == e && LENGTH_BASE[4 + 4 * e + r] == 3 + (4 + r) * w
  {
    if r == 0 {
    } else if r == 1 {
    } else if r == 2 {
    }
  }

  /** Two distance symbols with e extra bits. */
  lemma DistanceBlock(e: nat, w: nat, r: nat)
    requires e <= 13 && r < 2
    requires w == if e == 0 then 1 else if e == 1 then 2 else if e == 2 then 4 else if e == 3 then 8
                  else if e == 4 then 16 else if e == 5 then 32 else if e == 6 then 64 else if e == 7 then 128
                  else if e == 8 then 256 else if e == 9 then 512 else if e == 10 then 1024
                  else if e == 11 then 2048 else if e == 12 then 4096 else 8192
    ensures DIST_EXTRA[2 + 2 * e + r] == e && DIST_BASE[2 + 2 * e + r] == 1 + (2 + r) * w
  {
    if r == 0 {
    }
  }

  lemma SmallPowers(e: nat)
    requires e <= 13
    ensures Pow2(e) == if e == 0 then 1 else if e == 1 then 2 else if e == 2 then 4 else if e == 3 then 8
                       else if e == 4 then 16 else if e == 5 then 32 else if e == 6 then 64 else if e == 7 then 128
                       else if e == 8 then 256 else if e == 9 then 512 else if e == 10 then 1024
                       else if e == 11 then 2048 else if e == 12 then 4096 else 8192
  {
    Pow2Values();
    assert Pow2(9) == 512 && Pow2(10) == 1024 && Pow2(11) == 2048 && Pow2(12) == 4096 && Pow2(13) == 8192;
  }

  /**
   The length symbols: the first four stand for 3 to 6, then every four symbols have one
   extra bit more, and each symbol takes up where the one before it ends. The last one is 258.
   */
  lemma LengthTable(i: nat)
    requires i < 28
    ensures LENGTH_EXTRA[i] == (if i < 4 then 0 else (i - 4) / 4)
    ensures LENGTH_BASE[i] == if i < 4 then 3 + i else 3 + (4 + i % 4) * Pow2((i - 4) / 4)
    ensures LENGTH_BASE[28] == 258 && LENGTH_EXTRA[28] == 0
  {
    hide Pow2;
    if i >= 4 {
      SmallPowers((i - 4) / 4);
      LengthBlock((i - 4) / 4, Pow2((i - 4) / 4), i % 4);
    }
  }

  /** The distance symbols: 1 and 2, and then every two symbols have one extra bit more. */
  lemma DistanceTable(i: nat)
    requires i < 30
    ensures DIST_EXTRA[i] == (if i < 2 then 0 else (i - 2) / 2)
    ensures DIST_BASE[i] == if i < 2 then 1 + i else 1 + (2 + i % 2) * Pow2((i - 2) / 2)
  {
    hide Pow2;
    if i >= 2 {
      SmallPowers((i - 2) / 2);
      DistanceBlock((i - 2) / 2, Pow2((i - 2) / 2), i % 2);
    }
  }

  lemma Scale(a: nat, b: nat, w: nat)
    ensures (a + b) * w == a * w + b * w
  {
  }

  /** A number from a 2^e on and below b 2^e, without its low e bits, is from a on and below b. */
  lemma Quotient(l: nat, e: nat, a: nat, b: nat)
    requires a * Pow2(e) <= l < b * Pow2(e)
    ensures a <= Shr(l, e) < b && l == Shr(l, e) * Pow2(e) + Low(l, e) && Low(l, e) < Pow2(e)
  {
    hide Pow2, Shr, Low;
    Split(l, e);
    MulLt(Shr(l, e), b, Pow2(e));
    if Shr(l, e) < a {
      MulSucc(Shr(l, e), a, Pow2(e));
    }
  }

  /** The number of extra bits: 2^k leading numbers at each level. */
  lemma Level(l: nat, k: nat, most: nat) returns (e: nat)
    requires Pow2(k) <= l < Pow2(k + most)
    ensures Log2(l) == k + e && e < most && Pow2(k) * Pow2(e) <= l < 2 * Pow2(k) * Pow2(e)
  {
    hide Pow2, Log2;
    var n := Log2(l);
    Log2Is(l);
    if n < k {
      Pow2Strict(n, k);
    } else if n >= k + most {
      Pow2Mono(k + most, n);
    }
    e := n - k;
    Pow2Add(k, e);
  }

  /** For every length, the symbol and the extra bits that arithmetic gives stand for it. */
  lemma LengthRight(len: nat)
    requires 3 <= len <= 258
    ensures var c := LengthCoded(len);
      && 257 <= c.sym <= 285 && LENGTH_EXTRA[c.sym - 257] == c.width && c.extra < Pow2(c.width)
      && LENGTH_BASE[c.sym - 257] + c.extra == len
  {
    hide Pow2, Log2, LENGTH_BASE, LENGTH_EXTRA, Shr, Low;
    Pow2Values();
    var l := len - 3;
    if len == 258 {
      LengthTable(0);
    } else if l < 8 {
      LengthTable(l);
    } else {
      var e := Level(l, 2, 6);
      Quotient(l, e, 4, 8);
      LengthTable(4 * e + Shr(l, e));
    }
  }

  /** So for every distance. */
  lemma DistanceRight(dist: nat)
    requires 1 <= dist <= 32768
    ensures var c := DistanceCoded(dist);
      && c.sym <= 29 && DIST_EXTRA[c.sym] == c.width && c.extra < Pow2(c.width)
      && DIST_BASE[c.sym] + c.extra == dist
  {
    hide Pow2, Log2, DIST_BASE, DIST_EXTRA, Shr, Low;
    Pow2Values();
    var d := dist - 1;
    if d < 4 {
      DistanceTable(d);
    } else {
      var e := Level(d, 1, 14);
      Quotient(d, e, 2, 4);
      DistanceTable(2 * e + Shr(d, e));
    }
  }

  /** What stands for a length, and what stands for a distance, is read as these. */
  lemma ReferenceRead(s: seq<bit>, p: nat, c: Coded, d: Coded, len: nat, dist: nat, dists: seq<nat>)
    requires 257 <= c.sym <= 285 && LENGTH_EXTRA[c.sym - 257] == c.width && LENGTH_BASE[c.sym - 257] + c.extra == len
    requires d.sym <= 29 && DIST_EXTRA[d.sym] == d.width && DIST_BASE[d.sym] + d.extra == dist
    requires Bits(s, p, c.width) == c.extra && Decode(s, p + c.width, dists) == Some(d.sym)
    requires var q := p + c.width + dists[d.sym]; q + d.width <= |s| && Bits(s, q, d.width) == d.extra
    ensures ReadReference(s, p, c.sym, dists) == Some(Reference(len, dist, p + c.width + dists[d.sym] + d.width))
  {
    hide LENGTH_BASE, LENGTH_EXTRA, DIST_BASE, DIST_EXTRA, Bits, Decode;
  }

  /**
   For every length and every distance: their codes and extra bits, found by arithmetic, are
   read as exactly that length and that distance.
   */
  lemma ReferenceIs(s: seq<bit>, p: nat, len: nat, dist: nat, dists: seq<nat>)
    requires 3 <= len <= 258 && 1 <= dist <= 32768
    requires var c, d := LengthCoded(len), DistanceCoded(dist);
      && Bits(s, p, c.width) == c.extra && Decode(s, p + c.width, dists) == Some(d.sym)
      && var q := p + c.width + dists[d.sym]; q + d.width <= |s| && Bits(s, q, d.width) == d.extra
    ensures var c, d := LengthCoded(len), DistanceCoded(dist);
      257 <= c.sym <= 285 && ReadReference(s, p, c.sym, dists)
      == Some(Reference(len, dist, p + c.width + dists[d.sym] + d.width))
  {
    hide LengthCoded, DistanceCoded, LENGTH_BASE, LENGTH_EXTRA, DIST_BASE, DIST_EXTRA, Bits, Decode, ReadReference;
    LengthRight(len);
    DistanceRight(dist);
    ReferenceRead(s, p, LengthCoded(len), DistanceCoded(dist), len, dist, dists);
  }

  /** The parts of a reference, where it is read. */
  lemma ReferenceParts(s: seq<bit>, p: nat, sym: nat, dists: seq<nat>) returns (d: nat)
    requires 257 <= sym <= 285 && ReadReference(s, p, sym, dists).Some?
    ensures var x := LENGTH_EXTRA[sym - 257]; var ref := ReadReference(s, p, sym, dists).value;
      && p + x <= |s| && Decode(s, p + x, dists) == Some(d) && d <= 29
      && var q, y := p + x + dists[d], DIST_EXTRA[d];
         && q + y <= |s|
         && ref == Reference(LENGTH_BASE[sym - 257] + Bits(s, p, x), DIST_BASE[d] + Bits(s, q, y), q + y)
  {
    hide Bits, Decode;
    d := Decode(s, p + LENGTH_EXTRA[sym - 257], dists).value;
  }

  /** Nothing is read but lengths from 3 to 258 and distances from 1 to 32768. */
  lemma ReferenceRange(s: seq<bit>, p: nat, sym: nat, dists: seq<nat>)
    requires 257 <= sym <= 285 && ReadReference(s, p, sym, dists).Some?
    ensures var ref := ReadReference(s, p, sym, dists).value; 3 <= ref.len <= 258 && 1 <= ref.dist <= 32768
  {
    hide Bits, Decode, Pow2, LENGTH_BASE, DIST_BASE;
    var x := LENGTH_EXTRA[sym - 257];
    var d := ReferenceParts(s, p, sym, dists);
    var q, y := p + x + dists[d], DIST_EXTRA[d];
    BitsBound(s, p, x);
    BitsBound(s, q, y);
    LengthReach(sym - 257, Bits(s, p, x));
    DistanceReach(d, Bits(s, q, y));
  }

  lemma LengthReach(i: nat, x: nat)
    requires i <= 28 && x < Pow2(LENGTH_EXTRA[i])
    ensures 3 <= LENGTH_BASE[i] + x <= 258
  {
    hide LENGTH_BASE, LENGTH_EXTRA, Pow2;
    LengthTable(if i < 28 then i else 0);
    Pow2Values();
    if 4 <= i < 28 {
      var e := (i - 4) / 4;
      Scale(4 + i % 4, 1, Pow2(e));
      MulLe(4 + i % 4 + 1, 8, Pow2(e));
      SmallPowers(e);
    }
  }

  lemma DistanceReach(i: nat, x: nat)
    requires i <= 29 && x < Pow2(DIST_EXTRA[i])
    ensures 1 <= DIST_BASE[i] + x <= 32768
  {
    hide DIST_BASE, DIST_EXTRA, Pow2;
    DistanceTable(i);
    Pow2Values();
    if 2 <= i {
      var e := (i - 2) / 2;
      Scale(2 + i % 2, 1, Pow2(e));
      MulLe(2 + i % 2 + 1, 4, Pow2(e));
      SmallPowers(e);
    }
  }

  // ----- what a copy repeats

  /** A copy goes round and round the last `dist` bytes. */
  lemma {:induction false} CopyRound(out: seq<byte>, dist: nat, n: nat, i: nat)
    requires 1 <= dist <= |out| && i < n
    ensures Copy(out, dist, n)[|out| + i] == out[|out| - dist + i % dist]
    decreases n
  {
    var more := out + [out[|out| - dist]];
    CopyNext(out, dist, n);
    Round(i, dist);
    if i > 0 {
      CopyRound(more, dist, n - 1, i - 1);
    }
  }

  lemma CopyNext(out: seq<byte>, dist: nat, n: nat)
    requires 1 <= dist <= |out| && n > 0
    ensures var more := out + [out[|out| - dist]];
      Copy(out, dist, n) == Copy(more, dist, n - 1) && more <= Copy(out, dist, n)
  {
  }

  lemma Round(i: nat, d: nat)
    requires d >= 1
    ensures i == 0 ==> i % d == 0
    ensures i > 0 ==> i % d == if (i - 1) % d == d - 1 then 0 else (i - 1) % d + 1
  {
    if i > 0 {
      var q, r := (i - 1) / d, (i - 1) % d;
      assert i - 1 == q * d + r;
      if r == d - 1 {
        Scale(q, 1, d);
        Remainder(i, q + 1, 0, d);
      } else {
        Remainder(i, q, r + 1, d);
      }
    }
  }

  lemma Remainder(i: nat, q: nat, r: nat, d: nat)
    requires i == q * d + r && r < d
    ensures i % d == r
  {
    assert i == (i / d) * d + i % d;
    Words.Block(i / d, q, d, i % d);
  }

  /** A copy as one sequence. */
  lemma CopyIs(out: seq<byte>, dist: nat, n: nat)
    requires 1 <= dist <= |out|
    ensures Copy(out, dist, n) == out + seq(n, i requires 0 <= i < n => out[|out| - dist + i % dist])
  {
    hide Copy;
    forall i | 0 <= i < n
      ensures Copy(out, dist, n)[|out| + i] == out[|out| - dist + i % dist]
    {
      CopyRound(out, dist, n, i);
    }
  }

  // ----- the order of the code length codes

  /** Which symbol's length is sent i-th: the three runs, zero, and then from eight outwards, up and down in turn. */
  function Sent(i: nat): nat
    requires i < 19
  {
    if i < 3 then 16 + i else if i == 3 then 0 else if i % 2 == 0 then 6 + i / 2 else 9 - i / 2
  }

  lemma OrderIs(i: nat)
    requires i < 19
    ensures ORDER[i] == Sent(i) < 19
  {
  }
}
