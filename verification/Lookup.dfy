/**
 Decoding one code with the lookup tables (boot/zBoot/inflate.c:353-362 and 384-393).
 */
module Lookup {
  import opened Words
  import opened Stream
  import opened Wrappers
  import opened Canonical
  import opened Geometry
  import opened Tables
  import opened HuftPrepare
  import Input

  /**
   Found: an entry; Bad: the invalid marker; OutOfInput: the input ran out; Undefined: a
   null table, or an entry the source never writes.
   */
  datatype Status = Found | Bad | OutOfInput | Undefined

  /** tab with m bits decodes cs; it is null when cs has no codes. */
  ghost predicate Serves(tab: array?<Huft>, m: nat, info: nodes, cs: CodeSet, c: counts)
    reads info.Keys
  {
    && cs.Valid()
    && (if tab == null then AllZero(cs.lens) && m == 0 else Decodes(tab, m, info, cs, c))
  }

  /** What a lookup at p says about the code there. */
  ghost predicate Verdict(status: Status, ent: Huft, cs: CodeSet, s: seq<bit>, p: nat) {
    && cs.Valid()
    && match status
       case Found => Decode(s, p, cs.lens).Some? && var sym := Decode(s, p, cs.lens).value;
         SymbolEntry(cs, ent, sym) && cs.Operation(sym) != 99
       case Bad => Decode(s, p, cs.lens).Some? ==> cs.Operation(Decode(s, p, cs.lens).value) == 99
       case OutOfInput => p + BMAX > |s|
       case Undefined => Decode(s, p, cs.lens) == None
  }

  /** No code starts anywhere when there are no codes. */
  lemma NoCodes(cs: CodeSet, s: seq<bit>, p: nat, ent: Huft)
    requires cs.Valid() && AllZero(cs.lens)
    ensures Decode(s, p, cs.lens) == None && Verdict(Undefined, ent, cs, s, p)
  {
  }

  lemma TooShort(cs: CodeSet, s: seq<bit>, p: nat, ent: Huft)
    requires cs.Valid() && p + BMAX > |s|
    ensures Verdict(OutOfInput, ent, cs, s, p)
  {
  }

  /** What holds of the tables during a walk. */
  ghost predicate Sound(m: nat, info: nodes, cs: CodeSet, c: counts)
    reads info.Keys
  {
    && cs.Valid() && Completed(cs, c) && m <= BMAX
    && (forall t :: t in info ==> info[t].q <= m) && AllFilledTo(info, Snapshot(info), m, cs, c, ALL)
  }

  lemma SoundValid(m: nat, info: nodes, cs: CodeSet, c: counts)
    requires Sound(m, info, cs, c)
    ensures cs.Valid() && Completed(cs, c) && forall t :: t in info ==> info[t].Valid()
  {
    hide Completed, EntryOK;
    forall t | t in info
      ensures info[t].Valid()
    {
      assert FilledTo(info, m, cs, c, ALL, info[t], Snapshot(info)[t]);
    }
  }

  /** On the way down: table t is reached with the bits before it dropped. */
  ghost predicate Walking(t: array<Huft>, info: nodes, inp: Input.Input, p: nat, b: nat, k: nat)
    reads inp
  {
    && t in info && info[t].Valid() && OnPath(inp.Stream(), p, info[t])
    && inp.At(p + info[t].w, b, k) && k >= info[t].q
  }

  /** The entry that the walk looks up. */
  lemma EntryAt(t: array<Huft>, m: nat, info: nodes, cs: CodeSet, c: counts, inp: Input.Input, p: nat, b: nat, k: nat)
    requires Sound(m, info, cs, c) && Walking(t, info, inp, p, b, k)
    ensures var nd, sl := info[t], And(b, Pow2(info[t].q) - 1);
      && sl == SlotOf(inp.Stream(), p, nd) && sl < t.Length && EntryOK(info, m, cs, c, nd, sl, t[sl])
      && p + nd.w + nd.q <= |inp.Stream()|
  {
    hide EntryOK, Completed, And, Bits, Pow2, Origin, Width;
    var nd := info[t];
    Input.TakeBits(inp.Stream(), p + nd.w, b, k, nd.q);
    SlotCell(inp.Stream(), p, nd);
    SlotPoint(inp.Stream(), p, nd);
    assert FilledTo(info, m, cs, c, ALL, nd, Snapshot(info)[t]);
  }

  /** A leaf ends the walk. */
  lemma LeafVerdict(cs: CodeSet, c: counts, s: seq<bit>, p: nat, nd: Node, ent: Huft)
    requires cs.Valid() && Completed(cs, c) && nd.Valid() && OnPath(s, p, nd) && p + nd.w + nd.q <= |s|
    requires LeafOK(cs, c, nd, nd.At(SlotOf(s, p, nd)), ent)
    ensures 1 <= ent.b <= nd.q && !ent.v.Table?
    ensures ent.v.Unset? ==> Verdict(Undefined, ent, cs, s, p)
    ensures ent.v.Num? && ent.e == 99 ==> Verdict(Bad, ent, cs, s, p)
    ensures ent.v.Num? && ent.e != 99 ==> ent.e <= 16 && Verdict(Found, ent, cs, s, p)
    ensures ent.v.Num? && ent.e != 99 ==> cs.lens[Decode(s, p, cs.lens).value] == nd.w + ent.b
  {
    ReadLeaf(cs, c, s, p, nd, ent);
  }

  /** What kind of entry the walk has met: a code's end, or a link to the next table. */
  lemma Classify(m: nat, info: nodes, cs: CodeSet, c: counts, s: seq<bit>, p: nat, nd: Node, ent: Huft)
    requires cs.Valid() && Completed(cs, c) && nd.Valid() && OnPath(s, p, nd) && p + nd.w + nd.q <= |s|
    requires EntryOK(info, m, cs, c, nd, SlotOf(s, p, nd), ent) && forall t :: t in info ==> info[t].Valid()
    ensures ent.v.Unset? ==> Verdict(Undefined, ent, cs, s, p)
    ensures !ent.v.Unset? && ent.e == 99 ==> Verdict(Bad, ent, cs, s, p)
    ensures !ent.v.Unset? && ent.e <= 16 ==> Verdict(Found, ent, cs, s, p) && ent.b <= nd.q
    ensures !ent.v.Unset? && ent.e <= 16 ==> cs.lens[Decode(s, p, cs.lens).value] == nd.w + ent.b
    ensures !ent.v.Unset? && ent.e > 16 && ent.e != 99 ==>
      && ent.v.Table? && ent.v.t in info && ent.b == nd.q == m && ent.e == 16 + info[ent.v.t].q
      && OnPath(s, p, info[ent.v.t]) && info[ent.v.t].w == nd.w + m
  {
    hide Completed, Verdict;
    if LeafOK(cs, c, nd, nd.At(SlotOf(s, p, nd)), ent) {
      LeafVerdict(cs, c, s, p, nd, ent);
    } else {
      FollowLink(info, m, s, p, nd, ent);
    }
  }

  /** The first table is where every walk starts. */
  lemma WalkStart(tab: array<Huft>, m: nat, info: nodes, cs: CodeSet, c: counts, inp: Input.Input, p: nat, b: nat,
                  k: nat)
    requires Decodes(tab, m, info, cs, c) && inp.At(p, b, k) && k >= m
    ensures Sound(m, info, cs, c) && Walking(tab, info, inp, p, b, k) && info[tab].q == m && info[tab].w == 0
  {
    hide Completed, EntryOK;
    SoundValid(m, info, cs, c);
    assert Bits(inp.Stream(), p, 0) == 0;
  }

  method DecodeSymbol(inp: Input.Input, tab: array?<Huft>, m: nat, b0: nat, k0: nat,
                      ghost p: nat, ghost info: nodes, ghost cs: CodeSet, ghost c: counts)
      returns (status: Status, ent: Huft, b: nat, k: nat)
    requires Serves(tab, m, info, cs, c) && m <= BMAX && inp.At(p, b0, k0)
    modifies inp
    ensures Verdict(status, ent, cs, inp.Stream(), p)
    ensures status.Found? ==> inp.At(p + cs.lens[Decode(inp.Stream(), p, cs.lens).value], b, k)
  {
    hide Sound, Completed, EntryOK, Decodes, OnPath, Verdict, And, Pow2, Bits, SymbolEntry;
    ent := Huft(0, 0, Unset);
    var ok;
    b, k, ok := inp.NeedBits(b0, k0, m, p);
    if !ok {
      TooShort(cs, inp.Stream(), p, ent);
      return OutOfInput, ent, b, k;
    }
    if tab == null {
      NoCodes(cs, inp.Stream(), p, ent);
      return Undefined, ent, b, k;
    }
    var t: array<Huft>, look := tab, m;
    WalkStart(t, m, info, cs, c, inp, p, b, k);
    while true
      invariant Sound(m, info, cs, c) && Walking(t, info, inp, p, b, k) && look == info[t].q
      decreases BMAX - info[t].w
    {
      SoundValid(m, info, cs, c);
      EntryAt(t, m, info, cs, c, inp, p, b, k);
      ghost var nd := info[t];
      ent := t[And(b, Pow2(look) - 1)];
      Classify(m, info, cs, c, inp.Stream(), p, nd, ent);
      if ent.v.Unset? {
        return Undefined, ent, b, k;
      }
      if ent.e == 99 {
        return Bad, ent, b, k;
      }
      b, k := inp.DumpBits(b, k, ent.b, p + nd.w);
      if ent.e <= 16 {
        return Found, ent, b, k;
      }
      look := ent.e - 16;
      t := ent.v.t;
      b, k, ok := inp.NeedBits(b, k, look, p + nd.w + m);
      if !ok {
        TooShort(cs, inp.Stream(), p, ent);
        return OutOfInput, ent, b, k;
      }
    }
  }

  // ----- tables that are not linked

  /** No table lies beyond the longest code. */
  lemma {:induction false} NothingBeyond(t: array<Huft>, m: nat, info: nodes, cs: CodeSet, c: counts)
    requires Sound(m, info, cs, c) && t in info && info[t].w >= MaxLen(cs.lens, |cs.lens|)
    ensures false
    decreases BMAX - info[t].w
  {
    hide LinkOK, Completed, MaxLen, Origin;
    SoundValid(m, info, cs, c);
    var nd := info[t];
    OriginBound(nd.pre, nd.w + nd.q);
    Pow2Mono(nd.w, nd.w + nd.q);
    FirstSlot(t, m, info, cs, c);
    if LinkOK(info, m, nd, 0, t[0]) {
      LinkDeeper(info, m, nd, 0, t[0]);
      NothingBeyond(t[0].v.t, m, info, cs, c);
    } else {
      LeafShort(cs, c, nd, nd.At(0), t[0]);
    }
  }

  lemma LinkDeeper(info: nodes, m: nat, nd: Node, sl: nat, ent: Huft)
    requires LinkOK(info, m, nd, sl, ent) && nd.Valid() && nd.w + nd.q <= BMAX
    ensures ent.v.Table? && ent.v.t in info && info[ent.v.t].w == nd.w + nd.q > nd.w
  {
  }

  lemma FirstSlot(t: array<Huft>, m: nat, info: nodes, cs: CodeSet, c: counts)
    requires Sound(m, info, cs, c) && t in info && info[t].Valid() && info[t].At(0) < ALL
    ensures t.Length > 0 && EntryOK(info, m, cs, c, info[t], 0, t[0])
  {
    hide EntryOK, Completed;
    assert FilledTo(info, m, cs, c, ALL, info[t], Snapshot(info)[t]);
  }

  /** A code that ends in a table is longer than the bits before the table. */
  lemma LeafShort(cs: CodeSet, c: counts, nd: Node, at: nat, ent: Huft)
    requires Completed(cs, c) && LeafOK(cs, c, nd, at, ent)
    ensures nd.w < MaxLen(cs.lens, |cs.lens|)
  {
    var k: nat, r: nat :| Owns(c, nd, at, k, r) && ent.b == k - nd.w && CodeEntry(cs, ent, k, r);
    CountPositive(cs.lens, |cs.lens|, k);
  }

  /** When the first table is indexed with the longest code's bits, one lookup is enough. */
  lemma DirectEntry(tab: array<Huft>, m: nat, info: nodes, cs: CodeSet, c: counts, inp: Input.Input, p: nat, b: nat,
                    k: nat)
    requires Decodes(tab, m, info, cs, c) && MaxLen(cs.lens, |cs.lens|) <= m && inp.At(p, b, k) && k >= m
    ensures And(b, Pow2(m) - 1) < tab.Length
    ensures var ent, r := tab[And(b, Pow2(m) - 1)], Decode(inp.Stream(), p, cs.lens);
      && 1 <= ent.b <= m && !ent.v.Table?
      && (ent.v.Num? && ent.e != 99 ==> r.Some? && SymbolEntry(cs, ent, r.value) && cs.lens[r.value] == ent.b)
      && (!ent.v.Num? || ent.e == 99 ==> r.Some? ==> cs.Operation(r.value) == 99)
  {
    hide Sound, Completed, Decodes, LeafOK, LinkOK, OnPath, MaxLen;
    WalkStart(tab, m, info, cs, c, inp, p, b, k);
    SoundValid(m, info, cs, c);
    EntryAt(tab, m, info, cs, c, inp, p, b, k);
    var sl := And(b, Pow2(m) - 1);
    if LinkOK(info, m, info[tab], sl, tab[sl]) {
      LinkDeeper(info, m, info[tab], sl, tab[sl]);
      NothingBeyond(tab[sl].v.t, m, info, cs, c);
    } else {
      LeafVerdict(cs, c, inp.Stream(), p, info[tab], tab[sl]);
    }
  }
}
