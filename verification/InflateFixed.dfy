/**
 inflate_fixed (boot/zBoot/inflate.c:490-540): a block with the codes that the format fixes.
 */
module InflateFixed {
  import opened Words
  import opened Stream
  import opened Wrappers
  import opened Canonical
  import opened Geometry
  import opened Tables
  import opened HuftPrepare
  import opened DeflateSpec
  import opened Lookup
  import opened InflateCodes
  import HuftBuild
  import Input
  import Output

  // ----- the two code sets

  /** A run of one length adds its share to the Kraft sum. */
  lemma {:induction false} KraftRun(lens: seq<nat>, a: nat, b: nat, x: nat)
    requires Lengths(lens) && a <= b <= |lens| && 1 <= x <= BMAX && forall i :: a <= i < b ==> lens[i] == x
    ensures Kraft(lens, b) == Kraft(lens, a) + (b - a) * Width(x)
    decreases b
  {
    hide Width;
    if a < b {
      KraftRun(lens, a, b - 1, x);
      OneMore(b - 1 - a, Width(x));
    }
  }

  lemma OneMore(n: nat, w: nat)
    ensures (n + 1) * w == n * w + w
  {
  }

  /** The fixed literal/length code is complete. */
  lemma FixedComplete()
    ensures Lengths(FixedLits()) && !AllZero(FixedLits()) && HuftBuild.ReturnCode(FixedLits()) == 0
    ensures MaxLen(FixedLits(), 288) == 9
  {
    hide Kraft, MaxLen;
    var lens := FixedLits();
    KraftRun(lens, 0, 144, 8);
    KraftRun(lens, 144, 256, 9);
    KraftRun(lens, 256, 280, 7);
    KraftRun(lens, 280, 288, 8);
    WidthValues();
    KraftZero(lens);
    assert lens[144] == 9;
  }

  lemma KraftZero(lens: seq<nat>)
    requires Lengths(lens)
    ensures Kraft(lens, 0) == 0
  {
  }

  lemma WidthValues()
    ensures Width(5) == 2048 && Width(7) == 512 && Width(8) == 256 && Width(9) == 128
  {
    Pow2Values();
    assert Pow2(9) == 512 && Pow2(11) == 2048;
  }

  /** Thirty distance codes of five bits are an incomplete code. */
  lemma ThirtyDistances()
    ensures var lens := Repeat(5, 30);
      Lengths(lens) && !AllZero(lens) && HuftBuild.ReturnCode(lens) == 1 && MaxLen(lens, 30) == 5
  {
    hide Kraft, MaxLen;
    var lens := Repeat(5, 30);
    KraftRun(lens, 0, 30, 5);
    WidthValues();
    KraftZero(lens);
    assert lens[0] == 5;
  }

  // ----- thirty or thirty-two distance codes

  lemma {:induction false} CountUniform(x: nat, n: nat, i: nat, k: nat)
    requires i <= n
    ensures Count(Repeat(x, n), i, k) == if k == x then i else 0
  {
    if i > 0 {
      CountUniform(x, n, i - 1, k);
    }
  }

  lemma {:induction false} NextCodeUniform(x: nat, n: nat, k: nat)
    requires k <= x
    ensures NextCode(Repeat(x, n), k) == 0
  {
    if k > 1 {
      NextCodeUniform(x, n, k - 1);
      CountUniform(x, n, n, k - 1);
    }
  }

  /** When all codes have the same length, a code is its symbol. */
  lemma MatchesUniform(s: seq<bit>, p: nat, x: nat, n: nat, sym: nat)
    requires sym < n && x >= 1
    ensures Matches(s, p, Repeat(x, n), sym) <==> p + x <= |s| && Msb(s, p, x) == sym
  {
    NextCodeUniform(x, n, x);
    CountUniform(x, n, sym, x);
  }

  lemma DecodeUniform(s: seq<bit>, p: nat, x: nat, n: nat)
    requires x >= 1
    ensures Decode(s, p, Repeat(x, n)) == if p + x <= |s| && Msb(s, p, x) < n then Some(Msb(s, p, x)) else None
  {
    hide Msb, Matches;
    var r := Decode(s, p, Repeat(x, n));
    if r.Some? {
      MatchesUniform(s, p, x, n, r.value);
    } else if p + x <= |s| && Msb(s, p, x) < n {
      MatchesUniform(s, p, x, n, Msb(s, p, x));
    }
  }

  /** The two missing codes stand for no distance. */
  lemma SameDistance(s: seq<bit>, p: nat)
    ensures ReadDistance(s, p, Repeat(5, 30)) == ReadDistance(s, p, FixedDists())
  {
    hide Decode, Msb, Bits, Repeat;
    FiveBits(s, p, 30);
    FiveBits(s, p, 32);
  }

  /** A five-bit code, at most 29, is followed by its extra bits. */
  lemma FiveBits(s: seq<bit>, p: nat, n: nat)
    requires n >= 30
    ensures var d, q := Msb(s, p, 5), p + 5;
      ReadDistance(s, p, Repeat(5, n)) ==
      if q > |s| || d > 29 || q + DIST_EXTRA[d] > |s| then None
      else Some(Distance(DIST_BASE[d] + Bits(s, q, DIST_EXTRA[d]), q + DIST_EXTRA[d]))
  {
    hide Decode, Msb, Bits;
    DecodeUniform(s, p, 5, n);
  }

  lemma {:induction false} SameCodes(s: seq<bit>, p: nat, out: seq<byte>, lits: seq<nat>)
    ensures Compressed(s, p, out, lits, Repeat(5, 30)) == Compressed(s, p, out, lits, FixedDists())
    decreases |s| - p
  {
    hide ReadDistance, FixedDists, Repeat, LENGTH_BASE, LENGTH_EXTRA;
    var r := Decode(s, p, lits);
    if r.Some? {
      var q := p + lits[r.value];
      if r.value < 256 {
        SameCodes(s, q, out + [r.value], lits);
      } else if 256 < r.value <= 285 {
        SameReference(s, q, r.value);
        var ref := ReadReference(s, q, r.value, FixedDists());
        if ref.Some? && ref.value.dist <= |out| {
          SameCodes(s, ref.value.p, Copy(out, ref.value.dist, ref.value.len), lits);
        }
      }
    }
  }

  lemma SameReference(s: seq<bit>, p: nat, sym: nat)
    requires 257 <= sym <= 285
    ensures ReadReference(s, p, sym, Repeat(5, 30)) == ReadReference(s, p, sym, FixedDists())
  {
    hide ReadDistance;
    SameDistance(s, p + LENGTH_EXTRA[sym - 257]);
  }

  // ----- the tables

  method FixedLengths() returns (l: array<nat>)
    ensures fresh(l) && l.Length == 288 && l[..] == FixedLits()
  {
    l := new nat[288];
    var i := 0;
    while i < 144
      invariant 0 <= i <= 144 && forall j :: 0 <= j < i ==> l[j] == 8
    {
      l[i] := 8;
      i := i + 1;
    }
    while i < 256
      invariant 144 <= i <= 256 && forall j :: 0 <= j < i ==> l[j] == if j < 144 then 8 else 9
    {
      l[i] := 9;
      i := i + 1;
    }
    while i < 280
      invariant 256 <= i <= 280 && forall j :: 0 <= j < i ==> l[j] == if j < 144 then 8 else if j < 256 then 9 else 7
    {
      l[i] := 7;
      i := i + 1;
    }
    while i < 288
      invariant 280 <= i <= 288
      invariant forall j :: 0 <= j < i ==>
        l[j] == if j < 144 then 8 else if j < 256 then 9 else if j < 280 then 7 else 8
    {
      l[i] := 8;
      i := i + 1;
    }
  }

  /** The table for the literal/length codes; huft_build returns 0. */
  method FixedLiterals(l: array<nat>) returns (t: array<Huft>, m: nat, ghost g: Guide)
    requires l[..] == FixedLits()
    ensures Serves(t, m, g.info, g.cs, g.c) && m <= BMAX && g.cs == LitSet(FixedLits()) && fresh(g.info.Keys)
  {
    hide Decodes, AllZero, HuftBuild.ReturnCode, HuftBuild.Suits, CodeSet.Valid;
    LitSetSuits();
    var t', r;
    ghost var info, c;
    r, t', m, info, c := HuftBuild.Build(LitSet(l[..]), 7);
    t, g := t', Guide(info, LitSet(FixedLits()), c);
  }

  method FixedDistanceLengths(l: array<nat>)
    requires l.Length == 288
    modifies l
    ensures l[..30] == Repeat(5, 30)
  {
    var i := 0;
    while i < 30
      invariant 0 <= i <= 30 && forall j :: 0 <= j < i ==> l[j] == 5
    {
      l[i] := 5;
      i := i + 1;
    }
  }

  /** The table for the distance codes; huft_build returns 1, which is accepted. */
  method FixedDistances(l: array<nat>) returns (t: array<Huft>, m: nat, ghost g: Guide)
    requires l.Length == 288
    modifies l
    ensures Distances(t, m, g, Repeat(5, 30)) && fresh(g.info.Keys)
  {
    hide Decodes, AllZero, HuftBuild.ReturnCode, HuftBuild.Suits, CodeSet.Valid, MaxLen, Lengths;
    FixedDistanceLengths(l);
    DistSetSuits();
    var t', r;
    ghost var info, c;
    r, t', m, info, c := HuftBuild.Build(DistSet(l[..30]), 5);
    t, g := t', Guide(info, DistSet(Repeat(5, 30)), c);
  }

  lemma LitSetSuits()
    ensures LitSet(FixedLits()).Valid() && !AllZero(FixedLits()) && MaxLen(FixedLits(), 288) <= 9
    ensures HuftBuild.ReturnCode(FixedLits()) == 0 && forall m :: 7 <= m ==> HuftBuild.Suits(LitSet(FixedLits()), m)
  {
    hide Kraft, MaxLen, AllZero, FixedLits;
    FixedComplete();
    LitSetValid(FixedLits());
  }

  lemma LitSetValid(lens: seq<nat>)
    requires 1 <= |lens| <= 288 && Lengths(lens)
    ensures LitSet(lens).Valid()
  {
  }

  lemma DistSetSuits()
    ensures DistSet(Repeat(5, 30)).Valid() && !AllZero(Repeat(5, 30)) && MaxLen(Repeat(5, 30), 30) <= 5
    ensures HuftBuild.ReturnCode(Repeat(5, 30)) == 1
    ensures forall m :: 5 <= m ==> HuftBuild.Suits(DistSet(Repeat(5, 30)), m)
  {
    hide Kraft, MaxLen, AllZero;
    ThirtyDistances();
    DistSetValid(Repeat(5, 30));
  }

  lemma DistSetValid(lens: seq<nat>)
    requires 1 <= |lens| <= 30 && Lengths(lens)
    ensures DistSet(lens).Valid()
  {
  }

  // ----- the block

  method InflateFixed(inp: Input.Input, out: Output.Output, b0: nat, k0: nat, w0: nat, ghost p0: nat)
      returns (o: Outcome, b: nat, k: nat, w: nat, ghost p: nat)
    requires Standing(inp, out, p0, b0, k0, w0)
    modifies inp, out.window, out`outcnt, out`output, out`bytesOut, out`hist, out.crc`crc
    ensures Decoded(o, inp, out, p, b, k, w, Compressed(inp.Stream(), p0, old(out.hist), FixedLits(), FixedDists()))
  {
    hide Compressed, Serves, Distances, Standing;
    SameCodes(inp.Stream(), p0, out.hist, FixedLits());
    var l := FixedLengths();
    var tl, bl, td, bd;
    ghost var gl, gd;
    tl, bl, gl := FixedLiterals(l);
    td, bd, gd := FixedDistances(l);
    ghost var lits, dists := FixedLits(), Repeat(5, 30);
    o, b, k, w, p := InflateCodes.InflateCodes(inp, out, tl, td, bl, bd, b0, k0, w0, p0, gl, gd, lits, dists);
    o := if o.Returned? && o.code != 0 then Returned(1) else o;
  }
}
