/**
 The CRC-32 of boot/zBoot/misc.c: a bit-at-a-time specification (section 8 of
 RFC 1952, reflected polynomial) and the table-driven register that speeds it up.
 */
module Crc {
  import opened Words

  /** The reflected polynomial, without its x^32 term. */
  const POLYNOMIAL: nat := 0xEDB8_8320

  const ALL_ONES: nat := 0xFFFF_FFFF

  // ----- specification: one bit at a time

  /** Shifts one bit out of the register. */
  function Step(c: nat): nat {
    if c % 2 == 1 then Xor(c / 2, POLYNOMIAL) else c / 2
  }

  function Steps(c: nat, n: nat): nat
    decreases n, c
  {
    if n == 0 then c else Steps(Step(c), n - 1)
  }

  function Feed(c: nat, s: seq<byte>): nat
    decreases s
  {
    if s == [] then c else Feed(Steps(Xor(c, s[0]), 8), s[1..])
  }

  /** The CRC-32 of a byte string. */
  function Crc32(s: seq<byte>): nat {
    Xor(Feed(ALL_ONES, s), ALL_ONES)
  }

  // ----- the register is linear over exclusive or

  lemma XorSwap(a: nat, b: nat, c: nat, d: nat)
    ensures Xor(Xor(a, b), Xor(c, d)) == Xor(Xor(a, c), Xor(b, d))
  {
    XorAssoc(a, b, Xor(c, d));
    XorAssoc(b, c, d);
    XorComm(b, c);
    XorAssoc(c, b, d);
    XorAssoc(a, c, Xor(b, d));
  }

  lemma StepXor(a: nat, b: nat)
    ensures Step(Xor(a, b)) == Xor(Step(a), Step(b))
  {
    var x, y := a / 2, b / 2;
    assert Xor(a, b) / 2 == Xor(x, y);
    var pa := if a % 2 == 1 then POLYNOMIAL else 0;
    var pb := if b % 2 == 1 then POLYNOMIAL else 0;
    XorZero(x);
    XorZero(y);
    XorZero(Xor(x, y));
    XorZero(POLYNOMIAL);
    XorSelf(POLYNOMIAL);
    assert Step(a) == Xor(x, pa) && Step(b) == Xor(y, pb);
    XorSwap(x, pa, y, pb);
    assert Step(Xor(a, b)) == Xor(Xor(x, y), Xor(pa, pb));
  }

  lemma {:induction false} StepsXor(a: nat, b: nat, n: nat)
    ensures Steps(Xor(a, b), n) == Xor(Steps(a, n), Steps(b, n))
    decreases n
  {
    if n > 0 {
      StepXor(a, b);
      StepsXor(Step(a), Step(b), n - 1);
    }
  }

  /** Clear low bits shift out without touching the rest. */
  lemma {:induction false} StepsShift(c: nat, n: nat)
    ensures Steps(c * Pow2(n), n) == c
  {
    if n > 0 {
      MulDouble(c, Pow2(n), Pow2(n - 1));
      StepsShift(c, n - 1);
    }
  }

  /** Feeding a byte through the table: eight steps act on the low byte alone. */
  lemma TableStep(c: nat, b: byte)
    ensures And(Xor(c, b), 0xff) < 256
    ensures Steps(Xor(c, b), 8) == Xor(Steps(And(Xor(c, b), 0xff), 8), Shr(c, 8))
  {
    var x := Xor(c, b);
    var hi, lo := Shr(x, 8), Low(x, 8);
    assert Pow2(8) == 256;
    Split(x, 8);
    AndMask(x, 8);
    calc {
      Steps(x, 8);
      { XorSplit(x, 8); }
      Steps(Xor(hi * Pow2(8), lo), 8);
      { StepsXor(hi * Pow2(8), lo, 8); StepsShift(hi, 8); }
      Xor(hi, Steps(lo, 8));
      { XorComm(hi, Steps(lo, 8)); AndMask(x, 8); }
      Xor(Steps(And(x, 0xff), 8), hi);
      { ShrXor(c, b, 8); LowSmall(b, 8); XorZero(Shr(c, 8)); }
      Xor(Steps(And(x, 0xff), 8), Shr(c, 8));
    }
  }

  lemma StepBound(c: nat)
    requires c < WORD
    ensures Step(c) < WORD
  {
    Pow2Values();
    XorBound(c / 2, POLYNOMIAL, 32);
  }

  lemma {:induction false} StepsBound(c: nat, n: nat)
    requires c < WORD
    ensures Steps(c, n) < WORD
    decreases n
  {
    if n > 0 {
      StepBound(c);
      StepsBound(Step(c), n - 1);
    }
  }

  lemma {:induction false} FeedBound(c: nat, s: seq<byte>)
    requires c < WORD
    ensures Feed(c, s) < WORD
    decreases s
  {
    if s != [] {
      Pow2Values();
      XorBound(c, s[0], 32);
      StepsBound(Xor(c, s[0]), 8);
      FeedBound(Steps(Xor(c, s[0]), 8), s[1..]);
    }
  }

  /** Consecutive pieces feed like their concatenation. */
  lemma {:induction false} FeedConcat(c: nat, s: seq<byte>, t: seq<byte>)
    ensures Feed(c, s + t) == Feed(Feed(c, s), t)
    decreases s
  {
    if s == [] {
      assert s + t == t;
    } else {
      assert (s + t)[0] == s[0] && (s + t)[1..] == s[1..] + t;
      FeedConcat(Steps(Xor(c, s[0]), 8), s[1..], t);
    }
  }

  /**
   One turn of the table-building loop: the register without the bits of `k` still
   to come, exclusive-ored with those bits, makes one step.
   */
  lemma BuildStep(c: nat, k: nat, c': nat)
    requires c' == if k % 2 == 1 then Xor(Step(c), POLYNOMIAL) else Step(c)
    ensures Step(Xor(c, k)) == Xor(c', k / 2)
  {
    StepXor(c, k);
    if k % 2 == 1 {
      XorComm(k / 2, POLYNOMIAL);
      XorAssoc(Step(c), POLYNOMIAL, k / 2);
    }
  }

  lemma FeedNothing(c: nat)
    ensures Feed(c, []) == c
  {
  }

  lemma FeedNext(c: nat, s: seq<byte>, i: nat)
    requires c < WORD && i < |s|
    ensures Feed(c, s[..i + 1]) == Steps(Xor(Feed(c, s[..i]), s[i]), 8) < WORD
  {
    assert s[..i + 1] == s[..i] + [s[i]];
    FeedConcat(c, s[..i], [s[i]]);
    assert [s[i]][1..] == [];
    FeedBound(c, s[..i + 1]);
  }

  /** One byte through the table, of those after the register value c0. */
  lemma PumpByte(c0: nat, s: seq<byte>, i: nat, c: nat)
    requires c0 < WORD && i < |s| && c == Feed(c0, s[..i])
    ensures And(Xor(c, s[i]), 0xff) < 256
    ensures Xor(Steps(And(Xor(c, s[i]), 0xff), 8), Shr(c, 8)) == Feed(c0, s[..i + 1]) < WORD
  {
    hide Feed, Steps, And, Xor, Shr;
    FeedNext(c0, s, i);
    TableStep(c, s[i]);
  }

  /** The table and shift register of misc.c. */
  class Register {
    const tab: array<nat>
    var crc: nat

    /** The table holds, for every byte, what eight steps leave of it. */
    ghost predicate TableReady()
      reads this, tab
    {
      tab.Length == 256 && forall i :: 0 <= i < 256 ==> tab[i] == Steps(i, 8)
    }

    constructor ()
      ensures fresh(tab) && tab.Length == 256 && crc == ALL_ONES
    {
      tab := new nat[256];
      crc := ALL_ONES;
    }

    method MakeCrc()
      requires tab.Length == 256
      modifies tab
      ensures TableReady()
    {
      var e := MakePattern();
      tab[0] := 0;
      assert Steps(0, 8) == 0;
      var i := 1;
      while i < 256
        invariant 1 <= i <= 256
        invariant forall n :: 0 <= n < i ==> tab[n] == Steps(n, 8)
      {
        tab[i] := TableEntry(i, e);
        i := i + 1;
      }
    }

    /** With a null pointer, resets the register; otherwise pumps s[..n] through it. */
    method UpdCrc(s: array?<byte>, n: nat) returns (r: nat)
      requires s != null ==> n <= s.Length && TableReady()
      requires crc < WORD
      modifies this`crc
      ensures crc == (if s == null then ALL_ONES else Feed(old(crc), s[..n])) && crc < WORD
      ensures r == Xor(crc, ALL_ONES) == 0xFFFF_FFFF - crc
      ensures s == null ==> crc == 0xFFFF_FFFF && r == 0
    {
      hide Feed, Steps, And, Xor, Shr, Pow2;
      var c := ALL_ONES;
      ghost var start := crc;
      if s != null {
        c := crc;
        var i := 0;
        FeedNothing(c);
        assert s[..0] == [];
        while i < n
          invariant 0 <= i <= n && c == Feed(start, s[..i]) && c < WORD
        {
          assert s[..n][..i] == s[..i] && s[..n][..i + 1] == s[..i + 1];
          PumpByte(start, s[..n], i, c);
          c := Xor(tab[And(Xor(c, s[i]), 0xff)], Shr(c, 8));
          i := i + 1;
        }
      }
      crc := c;
      Pow2Values();
      XorOnes(c, 32);
      r := Xor(c, ALL_ONES);
    }
  }

  ghost predicate Exponents(terms: seq<nat>) {
    && (forall i :: 0 <= i < |terms| ==> terms[i] <= 31)
    && (forall i, j :: 0 <= i < j < |terms| ==> terms[i] < terms[j])
  }

  /** The pattern after `n` terms of the polynomial have been or-ed in. */
  ghost function Pattern(terms: seq<nat>, n: nat): nat
    requires n <= |terms| && Exponents(terms)
  {
    if n == 0 then 0 else Pattern(terms, n - 1) + Pow2(31 - terms[n - 1])
  }

  /** Terms come with falling exponents, so the pattern so far lies above the next one. */
  lemma {:induction false} PatternAbove(terms: seq<nat>, n: nat) returns (q: nat)
    requires n < |terms| && Exponents(terms)
    ensures terms[n] <= 31 && Pattern(terms, n) == q * Pow2(32 - terms[n])
  {
    if n == 0 {
      q := 0;
    } else {
      var p := PatternAbove(terms, n - 1);
      var s, t := terms[n - 1], terms[n];
      assert s < t <= 31;
      Pow2Add(t - s - 1, 32 - t);
      assert Pow2(32 - s) == 2 * Pow2(31 - s);
      q := Regroup(p, Pow2(31 - s), Pow2(t - s - 1), Pow2(32 - t));
    }
  }

  lemma Regroup(p: nat, a: nat, g: nat, b: nat) returns (q: nat)
    requires a == g * b
    ensures p * (2 * a) + a == q * b
  {
    q := (2 * p + 1) * g;
  }

  lemma NextTerm(terms: seq<nat>, n: nat)
    requires n < |terms| && Exponents(terms)
    ensures terms[n] <= 31
    ensures Or(Pattern(terms, n), Shl(1, 31 - terms[n])) == Pattern(terms, n + 1)
  {
    var q := PatternAbove(terms, n);
    OrLow(q, 31 - terms[n]);
  }

  lemma OrLow(q: nat, m: nat)
    requires m < 32
    ensures Or(q * Pow2(m + 1), Shl(1, m)) == q * Pow2(m + 1) + Pow2(m)
  {
    hide Or, Pow2;
    var hi := q * Pow2(m + 1);
    Pow2Strict(m, m + 1);
    OrDisjoint(Pow2(m), q, m + 1);
    OrComm(hi, Pow2(m));
    Pow2Word(m);
  }

  lemma PatternNext(terms: seq<nat>, n: nat, t: nat, w: nat)
    requires n < |terms| && Exponents(terms) && terms[n] == t && Pow2(31 - t) == w
    ensures Pattern(terms, n + 1) == Pattern(terms, n) + w
  {
  }

  /** The exponents that makecrc lists. */
  ghost predicate Listed(terms: seq<nat>) {
    && |terms| == 14 && Exponents(terms)
    && terms[0] == 0 && terms[1] == 1 && terms[2] == 2 && terms[3] == 4 && terms[4] == 5
    && terms[5] == 7 && terms[6] == 8 && terms[7] == 10 && terms[8] == 11 && terms[9] == 12
    && terms[10] == 16 && terms[11] == 22 && terms[12] == 23 && terms[13] == 26
  }

  lemma Weights()
    ensures Pow2(5) == 0x20 && Pow2(8) == 0x100 && Pow2(9) == 0x200 && Pow2(15) == 0x8000
    ensures Pow2(19) == 0x0008_0000 && Pow2(20) == 0x0010_0000 && Pow2(21) == 0x0020_0000
    ensures Pow2(23) == 0x0080_0000 && Pow2(24) == 0x0100_0000 && Pow2(26) == 0x0400_0000
    ensures Pow2(27) == 0x0800_0000 && Pow2(29) == 0x2000_0000 && Pow2(30) == 0x4000_0000
    ensures Pow2(31) == 0x8000_0000
  {
    Pow2Add(8, 15);
    Pow2Add(15, 15);
  }

  lemma PatternIsPolynomial(terms: seq<nat>)
    requires Listed(terms)
    ensures Pattern(terms, |terms|) == POLYNOMIAL
  {
    Weights();
    PatternNext(terms, 0, 0, 0x8000_0000);
    PatternNext(terms, 1, 1, 0x4000_0000);
    PatternNext(terms, 2, 2, 0x2000_0000);
    PatternNext(terms, 3, 4, 0x0800_0000);
    PatternNext(terms, 4, 5, 0x0400_0000);
    PatternNext(terms, 5, 7, 0x0100_0000);
    PatternNext(terms, 6, 8, 0x0080_0000);
    PatternNext(terms, 7, 10, 0x0020_0000);
    PatternNext(terms, 8, 11, 0x0010_0000);
    PatternNext(terms, 9, 12, 0x0008_0000);
    PatternNext(terms, 10, 16, 0x0000_8000);
    PatternNext(terms, 11, 22, 0x0000_0200);
    PatternNext(terms, 12, 23, 0x0000_0100);
    PatternNext(terms, 13, 26, 0x0000_0020);
  }

  const TERMS: seq<nat> := [0, 1, 2, 4, 5, 7, 8, 10, 11, 12, 16, 22, 23, 26]

  lemma TermsListed()
    ensures Listed(TERMS) && Exponents(TERMS)
  {
  }

  lemma PatternNone(terms: seq<nat>)
    requires Exponents(terms)
    ensures Pattern(terms, 0) == 0
  {
  }

  /** The first loop of makecrc. */
  method MakePattern() returns (e: nat)
    ensures e == POLYNOMIAL
  {
    hide Pattern, Listed, Exponents, Or, Shl;
    var p := TERMS;
    TermsListed();
    PatternIsPolynomial(p);
    PatternNone(p);
    e := 0;
    var i := 0;
    while i < |p|
      invariant 0 <= i <= |p| && e == Pattern(p, i)
    {
      NextTerm(p, i);
      e := Or(e, Shl(1, 31 - p[i]));
      i := i + 1;
    }
  }

  /** The inner loop of makecrc for one byte value. */
  method TableEntry(i: nat, e: nat) returns (c: nat)
    requires 1 <= i < 256 && e == POLYNOMIAL
    ensures c == Steps(i, 8)
  {
    hide Step, Steps, Xor, Or, Shr, Pow2;
    c := 0;
    Pow2Values();
    OrDisjoint(i, 1, 8);
    var k := Or(i, 256);
    XorZero(i);
    ghost var left, rest := 8, i;
    while k != 1
      invariant 0 <= left <= 8 && 0 <= rest < Pow2(left) && k == rest + Pow2(left)
      invariant Steps(Xor(c, rest), left) == Steps(i, 8)
      decreases k
    {
      SentinelLeft(k, rest, left);
      StepsNext(Xor(c, rest), left);
      c := BuildTurn(c, k, rest, left, e);
      OneBit(k);
      k := Shr(k, 1);
      left, rest := left - 1, rest / 2;
    }
    SentinelLast(k, rest, left);
    StepsNone(Xor(c, rest));
    XorZero(c);
  }

  /** The sentinel bit moves down with each turn. */
  lemma SentinelLeft(k: nat, rest: nat, left: nat)
    requires k == rest + Pow2(left) && rest < Pow2(left) && k != 1
    ensures left > 0 && k / 2 == rest / 2 + Pow2(left - 1) && rest / 2 < Pow2(left - 1) && k / 2 < k
  {
    if left > 0 {
      Pow2Half(left);
    }
  }

  lemma SentinelLast(k: nat, rest: nat, left: nat)
    requires k == rest + Pow2(left) && rest < Pow2(left) && k == 1
    ensures left == 0 && rest == 0
  {
  }

  lemma StepsNext(c: nat, n: nat)
    requires n > 0
    ensures Steps(c, n) == Steps(Step(c), n - 1)
  {
  }

  lemma StepsNone(c: nat)
    ensures Steps(c, 0) == c
  {
  }

  method BuildTurn(c: nat, k: nat, ghost rest: nat, ghost left: nat, e: nat) returns (c': nat)
    requires e == POLYNOMIAL && left > 0 && k == rest + Pow2(left)
    ensures Step(Xor(c, rest)) == Xor(c', rest / 2)
  {
    OneBit(c);
    OneBit(k);
    c' := if And(c, 1) == 1 then Xor(Shr(c, 1), e) else Shr(c, 1);
    if And(k, 1) == 1 {
      c' := Xor(c', e);
    }
    BuildStep(c, rest, c');
  }
}
