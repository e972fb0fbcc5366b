/**
 What huft_build's main loop keeps true: the tables on the stack lie along the current
 code, every table is filled up to the current point of the code space, and the tables
 off the stack are finished.
 */
module HuftInvariant {
  import opened Words
  import opened Stream
  import opened Canonical
  import opened Geometry
  import opened Tables

  /** The fixed data of a build: code set, completed counts, table bits, longest code. */
  datatype Plan = Plan(cs: CodeSet, c: counts, l: nat, g: nat) {
    ghost predicate Valid() {
      && cs.Valid() && Completed(cs, c)
      && 1 <= l <= g <= BMAX && c[g] > 0
      && forall k :: g < k <= BMAX ==> c[k] == 0
    }
  }

  /** The part of a plan that the sizes of tables depend on. */
  ghost predicate Sizing(pl: Plan) {
    1 <= pl.l <= pl.g <= BMAX && pl.c[pl.g] > 0 && Filled(pl.c, pl.g) == ALL
  }

  /** The current code: its pattern i of k bits starts at point P, or all points are used. */
  ghost predicate Current(i: nat, k: nat, P: nat) {
    && k <= BMAX && i < Pow2(k)
    && ((P == ALL && i == 0) || (P < ALL && Origin(i, k) == P))
  }

  /** The stack u[0..h] with its patterns x[0..h], every table made so far, and what is in them. */
  datatype State = State(us: seq<array?<Huft>>, xs: seq<nat>, h: int, info: nodes, mem: contents) {
    /** Bits before the next table to be pushed. */
    ghost function Depth(l: nat): nat {
      if 0 <= h < |us| && us[h] in info then info[us[h]].w + l else 0
    }
  }

  /** The stack leads from the first table down, l bits at a time. */
  ghost predicate Tower(pl: Plan, st: State) {
    && -1 <= st.h < BMAX && |st.us| == BMAX && |st.xs| == BMAX + 1 && st.xs[0] == 0
    && (forall n :: 0 <= n <= st.h ==>
      st.us[n] != null && st.us[n] in st.info && st.info[st.us[n]].pre == st.xs[n] && n <= st.info[st.us[n]].w)
    && (forall n :: 0 < n <= st.h ==> st.info[st.us[n]].w == st.info[st.us[n - 1]].w + pl.l)
    && (forall m, n :: 0 <= m < n <= st.h ==> st.us[m] != st.us[n])
    && (st.h >= 0 ==> st.info[st.us[0]].w == 0 && st.info[st.us[0]].q == pl.l)
  }

  /** The stack's patterns are those of the current code. */
  ghost predicate Along(st: State, i: nat) {
    && st.h < |st.us| && st.h < |st.xs|
    && forall n :: 0 <= n <= st.h ==> st.us[n] in st.info && st.xs[n] == Low(i, st.info[st.us[n]].w)
  }

  /** One past the last point a table is responsible for. */
  ghost function End(nd: Node): nat
    requires nd.Valid()
  {
    Origin(nd.pre, nd.w) + Width(nd.w)
  }

  /** A table narrower than l bits has room for all the codes that lead to it. */
  ghost predicate RoomyNode(pl: Plan, nd: Node) {
    nd.Valid() && (nd.q >= pl.l || Filled(pl.c, nd.w + nd.q) >= End(nd))
  }

  ghost predicate Roomy(pl: Plan, info: nodes, mem: contents) {
    && info.Keys == mem.Keys
    && forall t :: t in info ==> RoomyNode(pl, info[t]) && |mem[t]| >= Pow2(info[t].q)
  }

  ghost predicate OnStack(us: seq<array?<Huft>>, h: int, t: array<Huft>)
    requires h < |us|
  {
    exists n :: 0 <= n <= h && us[n] == t
  }

  ghost predicate OthersDone(us: seq<array?<Huft>>, h: int, info: nodes, P: nat)
    requires h < |us|
  {
    forall t :: t in info ==> info[t].Valid() && (OnStack(us, h, t) || End(info[t]) <= P)
  }

  /** The entry for pattern pre in a table's entries is a link to t. */
  ghost predicate LinkedAt(pl: Plan, info: nodes, nd: Node, ents: seq<Huft>, pre: nat, t: array?<Huft>) {
    var sl := Shr(pre, nd.w);
    sl < Pow2(nd.q) && sl < |ents| && LinkOK(info, pl.l, nd, sl, ents[sl]) && ents[sl].v.t == t
  }

  /** Every stacked table is linked from the one below it. */
  ghost predicate Linked(pl: Plan, st: State)
    requires Tower(pl, st) && st.info.Keys == st.mem.Keys
  {
    forall n :: 0 <= n < st.h && st.info[st.us[n]].q <= pl.l ==>
      LinkedAt(pl, st.info, st.info[st.us[n]], st.mem[st.us[n]], st.xs[n + 1], st.us[n + 1])
  }

  ghost predicate Inv(pl: Plan, st: State, P: nat) {
    && Tower(pl, st) && Roomy(pl, st.info, st.mem)
    && OthersDone(st.us, st.h, st.info, P) && Linked(pl, st)
    && AllFilledTo(st.info, st.mem, pl.l, pl.cs, pl.c, P)
  }

  /** The loop stands before the r-th code of length k, whose pattern is i, at point P. */
  ghost predicate AtCode(pl: Plan, st: State, P: nat, i: nat, k: nat, r: nat) {
    && 1 <= k <= pl.g <= BMAX && r < pl.c[k] && P == Start(pl.c, k, r)
    && i < Pow2(k) && Origin(i, k) == P
    && Inv(pl, st, P) && Along(st, i)
  }

  // ----- facts about one table's entries

  /** The link condition only looks at tables that exist. */
  lemma FilledMoreNodes(pl: Plan, info: nodes, info': nodes, P: nat, nd: Node, ents: seq<Huft>)
    requires FilledTo(info, pl.l, pl.cs, pl.c, P, nd, ents)
    requires forall t :: t in info ==> t in info' && info'[t] == info[t]
    ensures FilledTo(info', pl.l, pl.cs, pl.c, P, nd, ents)
  {
    forall sl | 0 <= sl < Pow2(nd.q) && nd.At(sl) < P
      ensures EntryOK(info', pl.l, pl.cs, pl.c, nd, sl, ents[sl])
    {
      assert EntryOK(info, pl.l, pl.cs, pl.c, nd, sl, ents[sl]);
    }
  }

  /** Slots from P on may change. */
  lemma FilledUpdate(pl: Plan, info: nodes, P: nat, nd: Node, ents: seq<Huft>, sl0: nat, ent: Huft)
    requires FilledTo(info, pl.l, pl.cs, pl.c, P, nd, ents)
    requires sl0 < |ents| && nd.At(sl0) >= P
    ensures FilledTo(info, pl.l, pl.cs, pl.c, P, nd, ents[sl0 := ent])
  {
  }

  lemma CellBound(nd: Node, sl: nat)
    requires nd.Valid() && sl < Pow2(nd.q)
    ensures nd.Cell(sl) < Pow2(nd.w + nd.q) && Low(nd.Cell(sl), nd.w) == nd.pre && Shr(nd.Cell(sl), nd.w) == sl
  {
    SplitUnique(sl, nd.pre, nd.w);
    MulSucc(sl, Pow2(nd.q), Pow2(nd.w));
    Pow2Add(nd.q, nd.w);
  }

  /** A table's slots lie between its origin and its end. */
  lemma SlotInside(nd: Node, sl: nat)
    requires nd.Valid() && sl < Pow2(nd.q)
    ensures Origin(nd.pre, nd.w) <= nd.At(sl) && nd.At(sl) + Width(nd.w + nd.q) <= End(nd)
  {
    CellBound(nd, sl);
    OriginLow(nd.Cell(sl), nd.w, nd.w + nd.q);
  }

  /** A finished table stays filled. */
  lemma FilledWhole(pl: Plan, info: nodes, P: nat, P': nat, nd: Node, ents: seq<Huft>)
    requires FilledTo(info, pl.l, pl.cs, pl.c, P, nd, ents) && End(nd) <= P
    ensures FilledTo(info, pl.l, pl.cs, pl.c, P', nd, ents)
  {
    forall sl | 0 <= sl < Pow2(nd.q) && nd.At(sl) < P'
      ensures EntryOK(info, pl.l, pl.cs, pl.c, nd, sl, ents[sl])
    {
      SlotInside(nd, sl);
    }
  }

  /** The slots that start with code i of k bits are those in its interval. */
  lemma SlotOfCode(nd: Node, i: nat, k: nat, sl: nat)
    requires nd.Valid() && nd.w <= k <= nd.w + nd.q && i < Pow2(k) && Low(i, nd.w) == nd.pre && sl < Pow2(nd.q)
    ensures Low(sl, k - nd.w) == Shr(i, nd.w) <==> Origin(i, k) <= nd.At(sl) < Origin(i, k) + Width(k)
  {
    hide Low, Shr, Origin, Pow2;
    var cell := nd.Cell(sl);
    CellBound(nd, sl);
    StartsWith(i, k, cell, nd.w + nd.q);
    LowSplit(cell, nd.w, k - nd.w);
    Split(i, nd.w);
    assert Low(cell, k) == nd.pre + Low(sl, k - nd.w) * Pow2(nd.w);
    Cancel(Pow2(nd.w), Low(sl, k - nd.w), Shr(i, nd.w));
  }

  /**
   When the codes use up all points, each slot of a table belongs to one code. If that code
   ends in the table, its fill and no other writes the slot; if it is longer, no fill
   writes the slot, which is left to the link towards that code.
   */
  lemma SlotOwner(c: counts, nd: Node, sl: nat) returns (k: nat, r: nat)
    requires Filled(c, BMAX) == ALL && nd.Valid() && sl < Pow2(nd.q)
    ensures 1 <= k <= BMAX && r < c[k] && Start(c, k, r) <= nd.At(sl) < Start(c, k, r) + Width(k)
  {
    CellBound(nd, sl);
    OriginBound(nd.Cell(sl), nd.w + nd.q);
    k, r := OwnerExists(c, BMAX, nd.At(sl));
  }

  /** The fill of code (k', r'), whose pattern is i', writes the slot exactly if it is the slot's owner. */
  lemma OwnerWrites(c: counts, nd: Node, sl: nat, k: nat, r: nat, i': nat, k': nat, r': nat)
    requires nd.Valid() && sl < Pow2(nd.q)
    requires 1 <= k <= BMAX && r < c[k] && Start(c, k, r) <= nd.At(sl) < Start(c, k, r) + Width(k)
    requires nd.w < k' <= nd.w + nd.q && r' < c[k'] && i' < Pow2(k') && Low(i', nd.w) == nd.pre
    requires Origin(i', k') == Start(c, k', r')
    ensures Low(sl, k' - nd.w) == Shr(i', nd.w) <==> k' == k && r' == r
  {
    hide Low, Shr, Origin, Pow2, Start, Width;
    SlotOfCode(nd, i', k', sl);
    if Low(sl, k' - nd.w) == Shr(i', nd.w) {
      OwnerUnique(c, k, r, k', r', nd.At(sl));
    }
  }

  lemma Cancel(w: nat, a: nat, b: nat)
    requires w > 0
    ensures a == b <==> a * w == b * w
  {
    if a < b {
      MulSucc(a, b, w);
    } else if b < a {
      MulSucc(b, a, w);
    }
  }

  /** Filling in the entry of the current code completes its table up to the next code. */
  lemma FilledLeaf(pl: Plan, info: nodes, P: nat, nd: Node, ents: seq<Huft>, ents': seq<Huft>,
                   i: nat, k: nat, r: nat, ent: Huft)
    requires FilledTo(info, pl.l, pl.cs, pl.c, P, nd, ents)
    requires nd.w < k <= nd.w + nd.q && i < Pow2(k) && Low(i, nd.w) == nd.pre
    requires Origin(i, k) == P == Start(pl.c, k, r) && r < pl.c[k]
    requires ent.b == k - nd.w && CodeEntry(pl.cs, ent, k, r)
    requires |ents'| == |ents|
    requires forall sl :: 0 <= sl < Pow2(nd.q) ==>
      ents'[sl] == if Low(sl, k - nd.w) == Shr(i, nd.w) then ent else ents[sl]
    ensures FilledTo(info, pl.l, pl.cs, pl.c, P + Width(k), nd, ents')
  {
    forall sl | 0 <= sl < Pow2(nd.q) && nd.At(sl) < P + Width(k)
      ensures EntryOK(info, pl.l, pl.cs, pl.c, nd, sl, ents'[sl])
    {
      SlotOfCode(nd, i, k, sl);
      if Low(sl, k - nd.w) == Shr(i, nd.w) {
        assert Owns(pl.c, nd, nd.At(sl), k, r);
      } else {
        assert EntryOK(info, pl.l, pl.cs, pl.c, nd, sl, ents[sl]);
      }
    }
  }

  /** A table below the top of the stack already links to where the current code goes. */
  lemma FilledPath(pl: Plan, info: nodes, P: nat, nd: Node, ents: seq<Huft>, pre: nat, t: array?<Huft>, i: nat, k: nat)
    requires FilledTo(info, pl.l, pl.cs, pl.c, P, nd, ents)
    requires nd.w + nd.q <= k <= BMAX && i < Pow2(k) && Low(i, nd.w) == nd.pre && Origin(i, k) == P
    requires pre == Low(i, nd.w + nd.q) && LinkedAt(pl, info, nd, ents, pre, t)
    ensures FilledTo(info, pl.l, pl.cs, pl.c, P + Width(k), nd, ents)
  {
    forall sl | 0 <= sl < Pow2(nd.q) && nd.At(sl) < P + Width(k)
      ensures EntryOK(info, pl.l, pl.cs, pl.c, nd, sl, ents[sl])
    {
      if nd.At(sl) >= P {
        PathSlot(nd, sl, i, k);
      } else {
        assert EntryOK(info, pl.l, pl.cs, pl.c, nd, sl, ents[sl]);
      }
    }
  }

  /** Only the slot on the way to a long code can start within the code's interval. */
  lemma PathSlot(nd: Node, sl: nat, i: nat, k: nat)
    requires nd.Valid() && nd.w + nd.q <= k <= BMAX && i < Pow2(k) && Low(i, nd.w) == nd.pre && sl < Pow2(nd.q)
    requires Origin(i, k) <= nd.At(sl) < Origin(i, k) + Width(k)
    ensures sl == Shr(Low(i, nd.w + nd.q), nd.w)
  {
    hide Low, Shr, Origin, Pow2, Width;
    var n := nd.w + nd.q;
    var path := Low(i, n);
    CellBound(nd, sl);
    Split(i, n);
    OriginLow(i, n, k);
    if path != nd.Cell(sl) {
      OriginDisjoint(path, nd.Cell(sl), n);
    }
  }

  // ----- facts about the current code

  lemma {:induction false} RevZero(n: nat)
    ensures Rev(0, n) == 0
    decreases n
  {
    if n > 0 {
      RevZero(n - 1);
    }
  }

  lemma RevPad(i: nat, n: nat, k: nat)
    requires n <= k <= BMAX && i < Pow2(n)
    ensures Rev(i, k) == Rev(i, n) * Pow2(k - n) && Width(n) == Pow2(k - n) * Width(k)
  {
    LowSmall(i, n);
    RevSplit(i, n, k - n);
    RevZero(k - n);
    Pow2Add(k - n, BMAX - k);
  }

  /** A code whose bits after the first n are zero starts where its first n bits do. */
  lemma OriginPad(i: nat, n: nat, k: nat)
    requires n <= k <= BMAX && i < Pow2(n)
    ensures Origin(i, k) == Origin(i, n) && i < Pow2(k)
  {
    RevPad(i, n, k);
    Pow2Mono(n, k);
    Regroup(Rev(i, k), Rev(i, n), Pow2(k - n), Width(k), Width(n));
  }

  lemma Regroup(r': nat, r: nat, g: nat, w: nat, wide: nat)
    requires wide == g * w && r' == r * g
    ensures r' * w == r * wide
  {
  }

  /** A table on the way of the current code covers the current point. */
  lemma Covers(nd: Node, i: nat, k: nat)
    requires nd.Valid() && nd.w <= k <= BMAX && i < Pow2(k) && Low(i, nd.w) == nd.pre
    ensures Origin(nd.pre, nd.w) <= Origin(i, k) && Origin(i, k) + Width(k) <= End(nd)
  {
    OriginLow(i, nd.w, k);
  }

  /** A table on the way of the current code has slots for codes of that length. */
  lemma RoomFor(pl: Plan, nd: Node, i: nat, k: nat, P: nat)
    requires RoomyNode(pl, nd)
    requires nd.w < k <= BMAX && i < Pow2(k) && Low(i, nd.w) == nd.pre && Origin(i, k) == P >= Filled(pl.c, k - 1)
    ensures nd.q >= pl.l || k <= nd.w + nd.q
  {
    Covers(nd, i, k);
    if nd.w + nd.q < k {
      FilledMono(pl.c, nd.w + nd.q, k - 1);
    }
  }
}
