/**
 inflate_dynamic (boot/zBoot/inflate.c:544-718): a block that carries its own codes, as a
 run-length coded list of code lengths.
 */
module InflateDynamic {
  import opened Words
  import opened Stream
  import opened Wrappers
  import opened Canonical
  import opened Geometry
  import opened Tables
  import opened HuftPrepare
  import opened DeflateSpec
  import opened Lookup
  import opened InflateCodes
  import InflateFixed
  import HuftBuild
  import Input
  import Output

  // ----- the lengths of the code length codes

  /** Where each code length's own length stands in the stream. */
  const PLACE: seq<nat> := [3, 17, 15, 13, 11, 9, 7, 5, 4, 6, 8, 10, 12, 14, 16, 18, 0, 1, 2]

  /** The order is a permutation. */
  lemma OrderOnto()
    ensures forall v :: 0 <= v < 19 ==> PLACE[v] < 19 && ORDER[PLACE[v]] == v
    ensures forall i :: 0 <= i < 19 ==> ORDER[i] < 19 && PLACE[ORDER[i]] == i
  {
  }

  lemma OrderDistinct(i: nat, j: nat)
    requires i < 19 && j < 19
    ensures ORDER[i] < 19 && ORDER[j] < 19 && (ORDER[i] == ORDER[j] <==> i == j)
  {
    hide ORDER, PLACE;
    OrderOnto();
  }

  lemma {:induction false} LengthCodesAt(s: seq<bit>, p: nat, n: nat, i: nat)
    requires n <= 19 && i < 19
    ensures ORDER[i] < 19 && LengthCodes(s, p, n)[ORDER[i]] == if i < n then Bits(s, p + 3 * i, 3) else 0
    decreases n
  {
    hide Bits;
    OrderDistinct(i, if n > 0 then n - 1 else 0);
    if n > 0 {
      LengthCodesAt(s, p, n - 1, i);
    }
  }

  lemma {:induction false} LengthCodesLimited(s: seq<bit>, p: nat, n: nat)
    ensures forall v :: 0 <= v < 19 ==> LengthCodes(s, p, n)[v] <= 7
    decreases n
  {
    if 0 < n <= 19 {
      LengthCodesLimited(s, p, n - 1);
      BitsBound(s, p + 3 * (n - 1), 3);
      Pow2Values();
    }
  }

  /** What was stored in stream order is the list in symbol order. */
  lemma LengthCodesDone(s: seq<bit>, p: nat, n: nat, ll: seq<nat>)
    requires n <= 19 && |ll| >= 19
    requires forall i :: 0 <= i < 19 ==> ll[ORDER[i]] == if i < n then Bits(s, p + 3 * i, 3) else 0
    ensures ll[..19] == LengthCodes(s, p, n)
  {
    hide Bits, LengthCodes;
    OrderOnto();
    forall v | 0 <= v < 19
      ensures ll[v] == LengthCodes(s, p, n)[v]
    {
      LengthCodesAt(s, p, n, PLACE[v]);
      assert ll[ORDER[PLACE[v]]] == if PLACE[v] < n then Bits(s, p + 3 * PLACE[v], 3) else 0;
    }
  }

  /** The second loop: the lengths that are not present are zero. */
  method ClearRest(ll: array<nat>, nb: nat)
    requires ll.Length == 316 && nb <= 19
    modifies ll
    ensures forall i :: 0 <= i < 19 ==> ORDER[i] < 19 && ll[ORDER[i]] == if i < nb then old(ll[ORDER[i]]) else 0
  {
    OrderOnto();
    var j := nb;
    while j < 19
      invariant nb <= j <= 19
      invariant forall i :: 0 <= i < 19 ==> ll[ORDER[i]] == if nb <= i < j then 0 else old(ll[ORDER[i]])
    {
      ll[ORDER[j]] := 0;
      j := j + 1;
    }
  }

  method ReadLengthCodes(inp: Input.Input, ll: array<nat>, nb: nat, b0: nat, k0: nat, ghost p: nat)
      returns (ok: bool, b: nat, k: nat)
    requires inp.At(p, b0, k0) && p <= |inp.Stream()| && ll.Length == 316 && nb <= 19
    modifies inp, ll
    ensures ok <==> p + 3 * nb <= |inp.Stream()|
    ensures ok ==> inp.At(p + 3 * nb, b, k) && ll[..19] == LengthCodes(inp.Stream(), p, nb)
  {
    hide Bits, LengthCodes;
    OrderOnto();
    b, k := b0, k0;
    var j := 0;
    while j < nb
      invariant 0 <= j <= nb && inp.At(p + 3 * j, b, k) && p + 3 * j <= |inp.Stream()|
      invariant forall i :: 0 <= i < j ==> ll[ORDER[i]] == Bits(inp.Stream(), p + 3 * i, 3)
    {
      var v;
      v, b, k, ok := inp.TakeField(b, k, 3, p + 3 * j);
      if !ok {
        return;
      }
      ll[ORDER[j]] := v;
      j := j + 1;
    }
    ClearRest(ll, nb);
    LengthCodesDone(inp.Stream(), p, nb, ll[..]);
    assert ll[..][..19] == ll[..19];
    ok := true;
  }

  // ----- one code length symbol

  function LenSet(cl: seq<nat>): CodeSet {
    CodeSet(cl, 19, [], [])
  }

  /** The single-level table of the code length code. */
  ghost predicate Direct(tl: array?<Huft>, bl: nat, g: Guide, cl: seq<nat>)
    reads g.info.Keys
  {
    && Serves(tl, bl, g.info, g.cs, g.c) && bl <= BMAX && g.cs == LenSet(cl) && |cl| == 19
    && MaxLen(cl, 19) <= bl
  }

  lemma DirectNull(tl: array?<Huft>, bl: nat, g: Guide, cl: seq<nat>, s: seq<bit>, p: nat)
    requires Direct(tl, bl, g, cl)
    ensures tl == null ==> Decode(s, p, cl) == None
    ensures tl != null ==> Decodes(tl, bl, g.info, g.cs, g.c)
  {
    if tl == null {
      NoCodes(g.cs, s, p, Huft(0, 0, Unset));
    }
  }

  lemma DirectFound(tl: array<Huft>, bl: nat, g: Guide, cl: seq<nat>, inp: Input.Input, p: nat, b: nat, k: nat)
    requires Direct(tl, bl, g, cl) && inp.At(p, b, k) && k >= bl
    ensures var sl := And(b, Pow2(bl) - 1); sl < tl.Length && var ent := tl[sl]; var r := Decode(inp.Stream(), p, cl);
      && ent.b <= bl && !ent.v.Table?
      && (if ent.v.Unset? || ent.e == 99 then r == None else r == Some(ent.v.n) && cl[ent.v.n] == ent.b)
  {
    hide Decodes;
    DirectNull(tl, bl, g, cl, inp.Stream(), p);
    DirectEntry(tl, bl, g.info, g.cs, g.c, inp, p, b, k);
  }

  /**
   A code length symbol. An entry without a value of its own, which the source does not
   recognise, gives Undefined.
   */
  method LengthSymbol(inp: Input.Input, tl: array?<Huft>, bl: nat, b0: nat, k0: nat, ghost p: nat, ghost g: Guide,
                      ghost cl: seq<nat>)
      returns (o: Outcome, j: nat, b: nat, k: nat)
    requires Direct(tl, bl, g, cl) && inp.At(p, b0, k0)
    modifies inp
    ensures o.Returned? ==> o.code == 0 && Decode(inp.Stream(), p, cl) == Some(j) && inp.At(p + cl[j], b, k)
    ensures o.Undefined? ==> Decode(inp.Stream(), p, cl) == None
    ensures o.Halted? ==> p + BMAX > |inp.Stream()|
  {
    hide Direct, Decode;
    DirectBounds(tl, bl, g, cl);
    var ok;
    j := 0;
    b, k, ok := inp.NeedBits(b0, k0, bl, p);
    if !ok {
      return Halted, j, b, k;
    }
    DirectNull(tl, bl, g, cl, inp.Stream(), p);
    if tl == null {
      return Outcome.Undefined, j, b, k;
    }
    DirectFound(tl, bl, g, cl, inp, p, b, k);
    var ent := tl[And(b, Pow2(bl) - 1)];
    if ent.v.Unset? || ent.e == 99 {
      return Outcome.Undefined, j, b, k;
    }
    j := ent.v.n;
    b, k := inp.DumpBits(b, k, ent.b, p);
    o := Returned(0);
  }

  lemma DirectBounds(tl: array?<Huft>, bl: nat, g: Guide, cl: seq<nat>)
    requires Direct(tl, bl, g, cl)
    ensures bl <= BMAX
  {
  }

  // ----- the expansion

  /** `while (j--) ll[i++] = x`. */
  method Replicate(ll: array<nat>, i: nat, j: nat, x: nat)
    requires i + j <= ll.Length
    modifies ll
    ensures ll[..i + j] == old(ll[..i]) + Repeat(x, j) && ll[i + j..] == old(ll[i + j..])
  {
    var a := 0;
    while a < j
      invariant 0 <= a <= j && ll[..i + a] == old(ll[..i]) + Repeat(x, a)
      invariant forall h :: i + j <= h < ll.Length ==> ll[h] == old(ll[h])
    {
      ll[i + a] := x;
      a := a + 1;
      assert ll[..i + a] == ll[..i + a - 1] + [x];
    }
  }

  /** The lengths so far, and the last one, are those the specification has. */
  ghost predicate Expanded(inp: Input.Input, ll: array<nat>, i: nat, l: nat, p: nat, b: nat, k: nat)
    reads inp, ll
  {
    inp.At(p, b, k) && p <= |inp.Stream()| && i <= ll.Length && l == Last(ll[..i])
  }

  /** A failure to expand is excused. */
  ghost predicate NoLengths(o: Outcome, r: Option<Lens>, s: seq<bit>) {
    o != Returned(0) && (r.None? || (o.Halted? && r.value.p + BMAX > |s|))
  }

  /** One symbol: a length, or a run of them. */
  ghost predicate OneExpanded(o: Outcome, inp: Input.Input, ll: array<nat>, i: nat, l: nat, p: nat, b: nat, k: nat,
                              one: Option<Lens>, n: nat)
    reads inp, ll
  {
    if o != Returned(0) then
      one.None? || (o.Returned? && |one.value.lens| > n) || (o.Halted? && one.value.p + BMAX > |inp.Stream()|)
    else
      i <= n && Expanded(inp, ll, i, l, p, b, k) && one == Some(Lens(ll[..i], p))
  }

  lemma ExpandOneIs(s: seq<bit>, p: nat, cl: seq<nat>, lens: seq<nat>, sym: nat)
    requires Decode(s, p, cl) == Some(sym)
    ensures var q := p + cl[sym];
      var x := if sym == 16 then 2 else if sym == 17 then 3 else 7;
      && (sym < 16 ==> ExpandOne(s, p, cl, lens) == Some(Lens(lens + [sym], q)))
      && (sym >= 16 && q + x > |s| ==> ExpandOne(s, p, cl, lens) == None)
      && (sym >= 16 && q + x <= |s| ==> ExpandOne(s, p, cl, lens) == Some(Lens(
           lens + Repeat(if sym == 16 then Last(lens) else 0, (if sym == 18 then 11 else 3) + Bits(s, q, x)), q + x)))
  {
    hide Bits, Decode, Repeat, Last;
  }

  lemma LastRepeat(lens: seq<nat>, x: nat, n: nat)
    requires n > 0
    ensures Last(lens + Repeat(x, n)) == x
  {
  }

  /** A run: its count field, the check against n, and the copies. */
  method ExpandRun(inp: Input.Input, ll: array<nat>, x: nat, base: nat, v: nat, i0: nat, n: nat, b0: nat, k0: nat,
                   ghost q: nat)
      returns (o: Outcome, i: nat, b: nat, k: nat)
    requires inp.At(q, b0, k0) && i0 <= n <= ll.Length && x <= 7 && base >= 1
    modifies inp, ll
    ensures o.Halted? <==> q + x > |inp.Stream()|
    ensures !o.Halted? ==> o == Returned(if i0 + base + Bits(inp.Stream(), q, x) > n then 1 else 0)
    ensures o == Returned(0) ==> inp.At(q + x, b, k) && i == i0 + base + Bits(inp.Stream(), q, x) <= n
    ensures o == Returned(0) ==> ll[..i] == old(ll[..i0]) + Repeat(v, base + Bits(inp.Stream(), q, x))
  {
    hide Bits;
    var ok, j;
    i := i0;
    j, b, k, ok := inp.TakeField(b0, k0, x, q);
    if !ok {
      return Halted, i, b, k;
    }
    j := base + j;
    if i + j > n {
      return Returned(1), i, b, k;
    }
    Replicate(ll, i, j, v);
    i := i + j;
    o := Returned(0);
  }

  method ExpandSymbol(inp: Input.Input, tl: array?<Huft>, bl: nat, ll: array<nat>, i0: nat, l0: nat, n: nat, b0: nat,
                      k0: nat,
                      ghost p0: nat, ghost g: Guide, ghost cl: seq<nat>)
      returns (o: Outcome, i: nat, l: nat, b: nat, k: nat, ghost p: nat)
    requires Direct(tl, bl, g, cl) && Expanded(inp, ll, i0, l0, p0, b0, k0) && i0 < n <= ll.Length
    modifies inp, ll
    ensures OneExpanded(o, inp, ll, i, l, p, b, k, ExpandOne(inp.Stream(), p0, cl, old(ll[..i0])), n)
  {
    hide Direct, Decode, ExpandOne, Last, Bits, Repeat, LenSet;
    ghost var s, lens := inp.Stream(), ll[..i0];
    i, l, p := i0, l0, p0;
    var j;
    o, j, b, k := LengthSymbol(inp, tl, bl, b0, k0, p, g, cl);
    if o != Returned(0) {
      ExpandLost(s, p0, cl, lens);
      return;
    }
    ExpandOneIs(s, p0, cl, lens, j);
    p := p + cl[j];
    if j < 16 {
      ll[i] := j;
      i, l := i + 1, j;
      assert ll[..i] == lens + [j];
      LastOne(lens, j);
    } else {
      var x, base := if j == 16 then 2 else if j == 17 then 3 else 7, if j == 18 then 11 else 3;
      l := if j == 16 then l else 0;
      o, i, b, k := ExpandRun(inp, ll, x, base, l, i, n, b, k, p);
      LastRepeat(lens, l, base + Bits(s, p, x));
      RepeatLength(l, base + Bits(s, p, x));
      p := p + x;
    }
  }

  lemma RepeatLength(x: nat, n: nat)
    ensures |Repeat(x, n)| == n
  {
  }

  lemma LastOne(lens: seq<nat>, x: nat)
    ensures Last(lens + [x]) == x
  {
  }

  lemma ExpandLost(s: seq<bit>, p: nat, cl: seq<nat>, lens: seq<nat>)
    ensures Decode(s, p, cl) == None ==> ExpandOne(s, p, cl, lens) == None
    ensures ExpandOne(s, p, cl, lens).Some? ==> ExpandOne(s, p, cl, lens).value.p > p
  {
  }

  /** What one symbol does to the expansion of the rest. */
  lemma ExpandStep(s: seq<bit>, p: nat, cl: seq<nat>, lens: seq<nat>, n: nat)
    requires p <= |s| && |lens| < n
    ensures var one, r := ExpandOne(s, p, cl, lens), Expand(s, p, cl, lens, n);
      && (one.None? ==> r.None?)
      && (one.Some? ==> r == Expand(s, one.value.p, cl, one.value.lens, n) && (r.Some? ==> one.value.p <= r.value.p))
      && (one.Some? && |one.value.lens| > n ==> r.None?)
  {
    hide ExpandOne;
  }

  method ExpandLengths(inp: Input.Input, tl: array?<Huft>, bl: nat, ll: array<nat>, n: nat, b0: nat, k0: nat,
                       ghost p0: nat, ghost g: Guide, ghost cl: seq<nat>)
      returns (o: Outcome, b: nat, k: nat, ghost p: nat)
    requires Direct(tl, bl, g, cl) && inp.At(p0, b0, k0) && p0 <= |inp.Stream()| && n <= ll.Length
    modifies inp, ll
    ensures o != Returned(0) ==> NoLengths(o, Expand(inp.Stream(), p0, cl, [], n), inp.Stream())
    ensures o == Returned(0) ==> inp.At(p, b, k) && Expand(inp.Stream(), p0, cl, [], n) == Some(Lens(ll[..n], p))
  {
    hide Direct, Last, ExpandOne, Expand;
    ghost var s := inp.Stream();
    ghost var spec := Expand(s, p0, cl, [], n);
    b, k, p := b0, k0, p0;
    var i, l := 0, 0;
    LastNone();
    assert ll[..0] == [];
    while i < n
      invariant 0 <= i <= n && Expanded(inp, ll, i, l, p, b, k) && spec == Expand(s, p, cl, ll[..i], n)
      decreases n - i
    {
      ExpandStep(s, p, cl, ll[..i], n);
      o, i, l, b, k, p := ExpandSymbol(inp, tl, bl, ll, i, l, n, b, k, p, g, cl);
      if o != Returned(0) {
        return;
      }
    }
    ExpandEnd(s, p, cl, ll[..n]);
    o := Returned(0);
  }

  lemma LastNone()
    ensures Last([]) == 0
  {
  }

  lemma ExpandEnd(s: seq<bit>, p: nat, cl: seq<nat>, lens: seq<nat>)
    requires p <= |s|
    ensures Expand(s, p, cl, lens, |lens|) == Some(Lens(lens, p))
  {
  }

  // ----- the three code sets

  /** huft_build's answer says whether the code may be used. */
  lemma UsableReturn(lens: seq<nat>)
    requires Lengths(lens)
    ensures AllZero(lens) ==> Usable(lens)
    ensures HuftBuild.ReturnCode(lens) == 0 <==> Usable(lens)
  {
    hide MaxLen;
    if AllZero(lens) {
      KraftNone(lens, |lens|);
    }
  }

  lemma {:induction false} KraftNone(lens: seq<nat>, n: nat)
    requires Lengths(lens) && AllZero(lens) && n <= |lens|
    ensures Kraft(lens, n) == 0 && MaxLen(lens, n) == 0
  {
    if n > 0 {
      KraftNone(lens, n - 1);
    }
  }

  /** Tables of m bits or of the longest code's suit. */
  lemma SuitsWide(cs: CodeSet, m: nat, m0: nat)
    requires cs.Valid() && MaxLen(cs.lens, |cs.lens|) <= 2 * m0 && (m0 <= m || m == MaxLen(cs.lens, |cs.lens|))
    ensures HuftBuild.Suits(cs, m)
  {
  }

  lemma SuitsComplete(cs: CodeSet, m: nat)
    requires cs.Valid() && |cs.lens| <= 30 && Usable(cs.lens) && (6 <= m || m == MaxLen(cs.lens, |cs.lens|)) && m >= 1
    ensures HuftBuild.Suits(cs, m)
  {
    if m >= 6 {
      Pow2Mono(6, m);
      Pow2Values();
    }
  }

  lemma MaxLenAtMost(lens: seq<nat>, n: nat)
    requires forall i :: 0 <= i < |lens| ==> lens[i] <= n
    ensures MaxLen(lens, |lens|) <= n
  {
  }

  method BuildLengths(ll: array<nat>, ghost cl: seq<nat>) returns (r: nat, t: array?<Huft>, m: nat, ghost g: Guide)
    requires ll.Length >= 19 && ll[..19] == cl && forall v :: 0 <= v < 19 ==> cl[v] <= 7
    ensures Lengths(cl) && (r == 0 <==> Usable(cl))
    ensures r == 0 ==> Direct(t, m, g, cl) && fresh(g.info.Keys)
  {
    hide Kraft, MaxLen, AllZero, Usable, HuftBuild.ReturnCode, HuftBuild.Suits, Decodes;
    UsableReturn(cl);
    MaxLenAtMost(cl, 7);
    ghost var info, c;
    r, t, m, info, c := HuftBuild.Build(LenSet(ll[..19]), 7);
    g := Guide(info, LenSet(cl), c);
    SuitsLengths(cl, m);
  }

  lemma SuitsLengths(cl: seq<nat>, m: nat)
    requires |cl| == 19 && Lengths(cl) && MaxLen(cl, 19) <= 7
    ensures LenSet(cl).Valid() && (7 <= m || m == MaxLen(cl, 19) ==> HuftBuild.Suits(LenSet(cl), m))
    ensures AllZero(cl) ==> MaxLen(cl, 19) == 0
  {
  }

  method BuildLiterals(ll: array<nat>, nl: nat, ghost lits: seq<nat>)
      returns (r: nat, t: array?<Huft>, m: nat, ghost g: Guide)
    requires 1 <= nl <= 286 && nl <= ll.Length && ll[..nl] == lits && Limited(lits)
    ensures Lengths(lits) && (r == 0 <==> Usable(lits))
    ensures r == 0 ==> Serves(t, m, g.info, g.cs, g.c) && m <= BMAX && g.cs == LitSet(lits) && fresh(g.info.Keys)
  {
    hide Kraft, MaxLen, AllZero, Usable, HuftBuild.ReturnCode, HuftBuild.Suits, Decodes, CodeSet.Valid;
    UsableReturn(lits);
    MaxLenAtMost(lits, 15);
    InflateFixed.LitSetValid(lits);
    ghost var info, c;
    r, t, m, info, c := HuftBuild.Build(LitSet(ll[..nl]), 9);
    g := Guide(info, LitSet(lits), c);
    if !AllZero(lits) {
      SuitsWide(LitSet(lits), m, 9);
    }
  }

  method BuildDistances(ll: array<nat>, nl: nat, nd: nat, ghost dists: seq<nat>)
      returns (r: nat, t: array?<Huft>, m: nat, ghost g: Guide)
    requires 1 <= nd <= 30 && nl + nd <= ll.Length && ll[nl..nl + nd] == dists && Limited(dists)
    ensures Lengths(dists) && (r == 0 <==> Usable(dists))
    ensures r == 0 ==> Distances(t, m, g, dists) && fresh(g.info.Keys)
  {
    hide Kraft, MaxLen, AllZero, Usable, HuftBuild.ReturnCode, HuftBuild.Suits, Decodes, CodeSet.Valid;
    UsableReturn(dists);
    MaxLenAtMost(dists, 15);
    InflateFixed.DistSetValid(dists);
    ghost var info, c;
    r, t, m, info, c := HuftBuild.Build(DistSet(ll[nl..nl + nd]), 6);
    g := Guide(info, DistSet(dists), c);
    if !AllZero(dists) && r == 0 {
      SuitsComplete(DistSet(dists), m);
    }
  }

  // ----- the block

  lemma ReadCodesIs(s: seq<bit>, p: nat, nl: nat, nd: nat, nb: nat)
    requires nl == 257 + Bits(s, p, 5) && nd == 1 + Bits(s, p + 5, 5) && nb == 4 + Bits(s, p + 10, 4)
    ensures nb <= 19 && nl <= 288 && nd <= 32
    ensures p + 14 + 3 * nb > |s| || nl > 286 || nd > 30 || !Usable(LengthCodes(s, p + 14, nb)) ==>
      ReadCodes(s, p, DECODER_DISTS) == None
    ensures p + 14 + 3 * nb <= |s| && nl <= 286 && nd <= 30 && Usable(LengthCodes(s, p + 14, nb)) ==>
      ReadCodes(s, p, DECODER_DISTS) == match Expand(s, p + 14 + 3 * nb, LengthCodes(s, p + 14, nb), [], nl + nd)
        case None => None
        case Some(all) => Some(Codes(all.lens[..nl], all.lens[nl..], all.p))
  {
    hide Usable, LengthCodes, Expand, Bits, Pow2;
    BitsBound(s, p, 5);
    BitsBound(s, p + 5, 5);
    BitsBound(s, p + 10, 4);
    Pow2Values();
  }

  /** The three counts. */
  method ReadHeader(inp: Input.Input, b0: nat, k0: nat, ghost p: nat)
      returns (ok: bool, nl: nat, nd: nat, nb: nat, b: nat, k: nat)
    requires inp.At(p, b0, k0)
    modifies inp
    ensures ok <==> p + 14 <= |inp.Stream()|
    ensures ok ==> inp.At(p + 14, b, k)
    ensures ok ==> nl == 257 + Bits(inp.Stream(), p, 5) && nd == 1 + Bits(inp.Stream(), p + 5, 5)
    ensures ok ==> nb == 4 + Bits(inp.Stream(), p + 10, 4)
  {
    hide Bits;
    nl, nd, nb := 0, 0, 0;
    nl, b, k, ok := inp.TakeField(b0, k0, 5, p);
    if ok {
      nl := 257 + nl;
      nd, b, k, ok := inp.TakeField(b, k, 5, p + 5);
      if ok {
        nd := 1 + nd;
        nb, b, k, ok := inp.TakeField(b, k, 4, p + 10);
        nb := 4 + nb;
      }
    }
  }

  /** The code lengths were read, or there is a reason why not. */
  ghost predicate CodesRead(o: Outcome, inp: Input.Input, ll: array<nat>, nl: nat, nd: nat, p: nat, b: nat, k: nat,
                            spec: Option<Codes>)
    reads inp, ll
  {
    if o == Returned(0) then
      inp.At(p, b, k) && ll.Length >= nl + nd && spec == Some(Codes(ll[..nl], ll[nl..nl + nd], p))
    else
      spec.None? || (o.Halted? && spec.value.p + BMAX > |inp.Stream()|)
  }

  method ReadCodeLengths(inp: Input.Input, b0: nat, k0: nat, ghost p0: nat)
      returns (o: Outcome, ll: array<nat>, nl: nat, nd: nat, b: nat, k: nat, ghost p: nat)
    requires inp.At(p0, b0, k0)
    modifies inp
    ensures fresh(ll) && CodesRead(o, inp, ll, nl, nd, p, b, k, ReadCodes(inp.Stream(), p0, DECODER_DISTS))
  {
    hide Bits, LengthCodes, Usable, Expand, ReadCodes, Direct;
    ghost var s := inp.Stream();
    ll := new nat[286 + 30];
    p := p0;
    var ok, nb;
    ok, nl, nd, nb, b, k := ReadHeader(inp, b0, k0, p);
    ReadCodesIs(s, p, 257 + Bits(s, p, 5), 1 + Bits(s, p + 5, 5), 4 + Bits(s, p + 10, 4));
    if !ok {
      return Halted, ll, nl, nd, b, k, p;
    }
    if nl > 286 || nd > 30 {
      return Returned(1), ll, nl, nd, b, k, p;
    }
    p := p + 14;
    ok, b, k := ReadLengthCodes(inp, ll, nb, b, k, p);
    if !ok {
      return Halted, ll, nl, nd, b, k, p;
    }
    ghost var cl := LengthCodes(s, p, nb);
    LengthCodesLimited(s, p, nb);
    var r, tl, bl;
    ghost var g;
    r, tl, bl, g := BuildLengths(ll, cl);
    if r != 0 {
      return Returned(r), ll, nl, nd, b, k, p;
    }
    o, b, k, p := ExpandLengths(inp, tl, bl, ll, nl + nd, b, k, p + 3 * nb, g, cl);
    assert ll[..nl + nd][..nl] == ll[..nl] && ll[..nl + nd][nl..] == ll[nl..nl + nd];
  }

  /** The tables of the block; an incomplete code ends in error(). */
  method BuildTables(ll: array<nat>, nl: nat, nd: nat, ghost codes: Codes)
      returns (o: Outcome, tl: array?<Huft>, bl: nat, td: array?<Huft>, bd: nat, ghost gl: Guide, ghost gd: Guide)
    requires 1 <= nl <= 286 && 1 <= nd <= 30 && nl + nd <= ll.Length
    requires ll[..nl] == codes.lits && ll[nl..nl + nd] == codes.dists && Limited(codes.lits) && Limited(codes.dists)
    ensures o == Returned(0) <==> Usable(codes.lits) && Usable(codes.dists)
    ensures o == Returned(0) ==> Tabled(tl, td, bl, bd, gl, gd, codes.lits, codes.dists) && fresh(gl.info.Keys)
    ensures o == Returned(0) ==> fresh(gd.info.Keys)
  {
    hide Usable, Serves, Distances;
    var r;
    td, bd, gd := null, 0, Guide(map[], DistSet([]), seq(BMAX + 1, _ => 0));
    r, tl, bl, gl := BuildLiterals(ll, nl, codes.lits);
    if r == 0 {
      r, td, bd, gd := BuildDistances(ll, nl, nd, codes.dists);
    }
    o := if r == 1 then Halted else Returned(r);
  }

  method InflateDynamic(inp: Input.Input, out: Output.Output, b0: nat, k0: nat, w0: nat, ghost p0: nat)
      returns (o: Outcome, b: nat, k: nat, w: nat, ghost p: nat)
    requires Standing(inp, out, p0, b0, k0, w0)
    modifies inp, out.window, out`outcnt, out`output, out`bytesOut, out`hist, out.crc`crc
    ensures Decoded(o, inp, out, p, b, k, w, Dynamic(inp.Stream(), p0, old(out.hist), DECODER_DISTS))
  {
    hide Usable, Limited, Compressed, ReadCodes, Tabled, Output.Mirrors, Output.Output.Sent;
    w := w0;
    var ll, nl, nd;
    o, ll, nl, nd, b, k, p := ReadCodeLengths(inp, b0, k0, p0);
    if o != Returned(0) {
      return;
    }
    ghost var codes := ReadCodes(inp.Stream(), p0, DECODER_DISTS).value;
    var tl, bl, td, bd;
    ghost var gl, gd;
    o, tl, bl, td, bd, gl, gd := BuildTables(ll, nl, nd, codes);
    if o != Returned(0) {
      return;
    }
    o, b, k, w, p := InflateCodes.InflateCodes(inp, out, tl, td, bl, bd, b, k, w, p, gl, gd, codes.lits, codes.dists);
    o := if o.Returned? && o.code != 0 then Returned(1) else o;
  }
}
