/**
 huft_build's treatment of one code (boot/zBoot/inflate.c:261-293): its table entry, the
 replicating fill, the step of the counter and the way back up the stack.
 */
module HuftFill {
  import opened Words
  import opened Stream
  import opened Canonical
  import opened Geometry
  import opened Tables
  import opened HuftPrepare
  import opened HuftInvariant

  // ----- the replicating fill

  /** Slots that agree in their low bits are a whole step apart. */
  lemma StepApart(j: nat, s: nat, b: nat)
    requires j < s < j + Pow2(b)
    ensures Low(s, b) != Low(j, b)
  {
    Split(j, b);
    Split(s, b);
    if Low(s, b) == Low(j, b) {
      if Shr(s, b) > Shr(j, b) {
        MulSucc(Shr(j, b), Shr(s, b), Pow2(b));
      } else {
        MulLe(Shr(s, b), Shr(j, b), Pow2(b));
      }
    }
  }

  lemma StepSame(j: nat, b: nat)
    ensures Low(j + Pow2(b), b) == Low(j, b)
  {
    Split(j, b);
    Distribute(1, Shr(j, b), 1, Pow2(b));
    SplitUnique(Shr(j, b) + 1, Low(j, b), b);
  }

  /** Writes r to every slot whose low b bits are `start`. */
  method FillEntries(q: array<Huft>, start: nat, b: nat, r: Huft)
    requires start < Pow2(b)
    modifies q
    ensures forall s :: 0 <= s < q.Length ==> q[s] == if Low(s, b) == start then r else old(q[s])
  {
    var f := Pow2(b);
    var j := start;
    LowSmall(start, b);
    forall s | 0 <= s < start
      ensures Low(s, b) != start
    {
      LowSmall(s, b);
    }
    while j < q.Length
      invariant Low(j, b) == start
      invariant forall s :: j <= s < q.Length ==> q[s] == old(q[s])
      invariant forall s :: 0 <= s < j && s < q.Length ==> q[s] == if Low(s, b) == start then r else old(q[s])
    {
      q[j] := r;
      forall s | j < s < j + f
        ensures Low(s, b) != start
      {
        StepApart(j, s, b);
      }
      StepSame(j, b);
      j := j + f;
    }
  }

  // ----- the entry

  /** Codes up to the longest length are where the symbols of the code set put them. */
  lemma {:induction false} TotalAgree(c: counts, c': counts, k: nat)
    requires k <= BMAX && forall j :: 1 <= j <= k ==> c[j] == c'[j]
    ensures Total(c, k) == Total(c', k)
  {
    if k > 0 {
      TotalAgree(c, c', k - 1);
    }
  }

  /** Where the value pointer stands: at the symbol of the current code, or past all symbols. */
  lemma ValueAt(cs: CodeSet, c: counts, v: seq<int>, k: nat, r: nat)
    requires cs.Valid() && Completed(cs, c) && Sorted(cs.lens, |cs.lens|, v)
    requires 1 <= k <= BMAX && r < c[k]
    ensures var p := Total(c, k - 1) + r;
      if r < Count(cs.lens, |cs.lens|, k) then p < |cs.lens| && v[p] == Nth(cs.lens, |cs.lens|, k, r)
      else p >= |cs.lens| || (v[p] == -1 && !cs.AllUsed())
  {
    TotalAgree(c, Counts(cs.lens), k - 1);
    TotalUsed(cs.lens, |cs.lens|);
    if r < Count(cs.lens, |cs.lens|, k) {
      SlotBound(cs.lens, k, r);
    } else {
      TotalFlat(cs, c, k);
    }
  }

  /** Only codes of the greatest length are added, so no symbol comes after them. */
  lemma TotalFlat(cs: CodeSet, c: counts, k: nat)
    requires cs.Valid() && Completed(cs, c) && 1 <= k <= BMAX && Count(cs.lens, |cs.lens|, k) < c[k]
    ensures Total(Counts(cs.lens), BMAX) == Total(Counts(cs.lens), k - 1) + Count(cs.lens, |cs.lens|, k)
  {
    var c' := Counts(cs.lens);
    forall j | k < j <= BMAX
      ensures c'[j] == 0
    {
      assert Count(cs.lens, |cs.lens|, j) <= c[j];
    }
    FlatTail(c', k, BMAX);
  }

  lemma {:induction false} FlatTail(c: counts, a: nat, b: nat)
    requires a <= b <= BMAX && forall j :: a < j <= b ==> c[j] == 0
    ensures Total(c, b) == Total(c, a)
  {
    if a < b {
      FlatTail(c, a, b - 1);
    }
  }

  /** The value pointer, which stops behind the last symbol. */
  function Pointer(cs: CodeSet, c: counts, k: nat, r: nat): nat
    requires 1 <= k <= BMAX
  {
    var p := Total(c, k - 1) + r;
    if p < |cs.lens| then p else |cs.lens|
  }

  /** The entry for the code whose value pointer is p. */
  method MakeEntry(cs: CodeSet, v: array<int>, p: nat, b: nat, ghost c: counts, ghost k: nat, ghost r: nat)
      returns (ent: Huft, p': nat)
    requires cs.Valid() && Completed(cs, c) && v.Length == 288 && Sorted(cs.lens, |cs.lens|, v[..])
    requires 1 <= k <= BMAX && r < c[k] && p == Pointer(cs, c, k, r)
    ensures ent.b == b && CodeEntry(cs, ent, k, r)
    ensures p' == Pointer(cs, c, k, r + 1)
  {
    ValueAt(cs, c, v[..], k, r);
    p' := p;
    if p >= |cs.lens| {
      ent := Huft(99, b, Num(0));
    } else if v[p] == -1 {
      ent := Huft(0, b, Unset);
      p' := p + 1;
    } else if v[p] < cs.s {
      ent := Huft(if v[p] < 256 then 16 else 15, b, Num(v[p]));
      p' := p + 1;
    } else {
      ent := Huft(cs.extra[v[p] - cs.s], b, Num(cs.base[v[p] - cs.s]));
      p' := p + 1;
    }
  }

  // ----- one code, on the invariant

  /** The state after the current code's entry was replicated into the top table. */
  ghost function Refilled(st: State, ents: seq<Huft>): State
    requires 0 <= st.h < |st.us| && st.us[st.h] != null
  {
    st.(mem := st.mem[st.us[st.h] := ents])
  }

  /** The entries of a table after `ent` was written to the slots of code i. */
  ghost predicate Replicated(nd: Node, ents: seq<Huft>, ents': seq<Huft>, i: nat, k: nat, ent: Huft)
    requires nd.w <= k
  {
    && |ents'| == |ents|
    && forall sl :: 0 <= sl < |ents| ==> ents'[sl] == if Low(sl, k - nd.w) == Shr(i, nd.w) then ent else ents[sl]
  }

  /** The current code ends in the top table. */
  ghost predicate EndsInTop(pl: Plan, st: State, k: nat) {
    && 0 <= st.h < |st.us| && st.us[st.h] != null && st.us[st.h] in st.info
    && st.info[st.us[st.h]].w < k <= st.info[st.us[st.h]].w + pl.l
  }

  lemma StackBelow(pl: Plan, st: State, n: nat)
    requires Tower(pl, st) && n < st.h
    ensures st.info[st.us[n]].w + pl.l == st.info[st.us[n + 1]].w <= st.info[st.us[st.h]].w
    decreases st.h - n
  {
    if n + 1 < st.h {
      StackBelow(pl, st, n + 1);
    }
  }

  /** The top table of the stack is completed by the new entries. */
  lemma FillTop(pl: Plan, info: nodes, P: nat, nd: Node, ents: seq<Huft>, ents': seq<Huft>, i: nat, k: nat, r: nat,
                ent: Huft)
    requires FilledTo(info, pl.l, pl.cs, pl.c, P, nd, ents) && nd.q <= pl.l && (nd.q >= pl.l || k <= nd.w + nd.q)
    requires nd.w < k <= nd.w + pl.l && k <= BMAX && i < Pow2(k) && Low(i, nd.w) == nd.pre
    requires Origin(i, k) == P == Start(pl.c, k, r) && r < pl.c[k]
    requires Replicated(nd, ents, ents', i, k, ent) && ent.b == k - nd.w && CodeEntry(pl.cs, ent, k, r)
    ensures FilledTo(info, pl.l, pl.cs, pl.c, P + Width(k), nd, ents')
  {
    hide CodeEntry, Origin, Start, EntryOK;
    FilledLeaf(pl, info, P, nd, ents, ents', i, k, r, ent);
  }

  /** What the invariant says about a table below the top. */
  lemma Stacked(pl: Plan, st: State, i: nat, n: nat)
    requires Tower(pl, st) && st.info.Keys == st.mem.Keys && Linked(pl, st) && Along(st, i) && n < st.h
    requires st.info[st.us[n]].q <= pl.l
    ensures var nd := st.info[st.us[n]];
      && nd.q == pl.l && nd.w + pl.l <= st.info[st.us[st.h]].w
      && Low(i, nd.w) == nd.pre && st.xs[n + 1] == Low(i, nd.w + pl.l)
      && LinkedAt(pl, st.info, nd, st.mem[st.us[n]], st.xs[n + 1], st.us[n + 1])
  {
    StackBelow(pl, st, n);
  }

  /** Each table is filled up to the end of the current code. */
  lemma FillStacked(pl: Plan, st: State, P: nat, i: nat, k: nat, n: nat)
    requires Tower(pl, st) && st.info.Keys == st.mem.Keys && Linked(pl, st) && Along(st, i) && n < st.h
    requires st.info[st.us[n]].q <= pl.l && st.info[st.us[st.h]].w < k <= BMAX && i < Pow2(k) && Origin(i, k) == P
    requires FilledTo(st.info, pl.l, pl.cs, pl.c, P, st.info[st.us[n]], st.mem[st.us[n]])
    ensures FilledTo(st.info, pl.l, pl.cs, pl.c, P + Width(k), st.info[st.us[n]], st.mem[st.us[n]])
  {
    hide Width, Pow2, Linked, LinkedAt, Along, FilledTo, Origin, Low;
    Stacked(pl, st, i, n);
    FilledPath(pl, st.info, P, st.info[st.us[n]], st.mem[st.us[n]], st.xs[n + 1], st.us[n + 1], i, k);
  }

  lemma InvParts(pl: Plan, st: State, P: nat)
    requires Inv(pl, st, P)
    ensures Tower(pl, st) && st.info.Keys == st.mem.Keys && Linked(pl, st) && st.h < |st.us|
    ensures OthersDone(st.us, st.h, st.info, P)
    ensures forall t :: t in st.info && st.info[t].q <= pl.l ==>
      FilledTo(st.info, pl.l, pl.cs, pl.c, P, st.info[t], st.mem[t])
  {
    hide FilledTo, Linked, OthersDone;
  }

  lemma OtherEnded(us: seq<array?<Huft>>, h: int, info: nodes, P: nat, t: array<Huft>)
    requires h < |us| && OthersDone(us, h, info, P) && t in info && !OnStack(us, h, t)
    ensures info[t].Valid() && End(info[t]) <= P
  {
    hide OnStack, End;
  }

  lemma FillTable(pl: Plan, st: State, P: nat, i: nat, k: nat, t: array<Huft>)
    requires Inv(pl, st, P) && t in st.info && st.info[t].q <= pl.l && 0 <= st.h && t != st.us[st.h]
    requires Along(st, i) && st.info[st.us[st.h]].w < k <= BMAX && i < Pow2(k) && Origin(i, k) == P
    ensures FilledTo(st.info, pl.l, pl.cs, pl.c, P + Width(k), st.info[t], st.mem[t])
  {
    hide Inv, Tower, Linked, FilledTo, Roomy, Origin, Along, OthersDone, Width, Pow2, End;
    InvParts(pl, st, P);
    if OnStack(st.us, st.h, t) {
      var n :| 0 <= n <= st.h && st.us[n] == t;
      FillStacked(pl, st, P, i, k, n);
    } else {
      OtherEnded(st.us, st.h, st.info, P, t);
      FilledWhole(pl, st.info, P, P + Width(k), st.info[t], st.mem[t]);
    }
  }

  lemma TopOfCode(pl: Plan, st: State, P: nat, i: nat, k: nat, r: nat)
    requires AtCode(pl, st, P, i, k, r) && EndsInTop(pl, st, k)
    ensures var nd := st.info[st.us[st.h]];
      && RoomyNode(pl, nd) && nd.Valid() && Low(i, nd.w) == nd.pre && st.us[st.h] in st.mem
      && (nd.q <= pl.l ==> FilledTo(st.info, pl.l, pl.cs, pl.c, P, nd, st.mem[st.us[st.h]]))
  {
    hide FilledTo, Linked, OthersDone, Origin, Start;
  }

  lemma FillTopOfStack(pl: Plan, st: State, P: nat, i: nat, k: nat, r: nat, ents: seq<Huft>, ent: Huft)
    requires AtCode(pl, st, P, i, k, r) && EndsInTop(pl, st, k) && st.info[st.us[st.h]].q <= pl.l
    requires Replicated(st.info[st.us[st.h]], st.mem[st.us[st.h]], ents, i, k, ent)
    requires ent.b == k - st.info[st.us[st.h]].w && CodeEntry(pl.cs, ent, k, r)
    ensures FilledTo(st.info, pl.l, pl.cs, pl.c, P + Width(k), st.info[st.us[st.h]], ents)
  {
    hide Inv, FilledTo, Along, Origin, CodeEntry, Replicated, RoomyNode, Filled, Start, Width, Low, Pow2;
    TopOfCode(pl, st, P, i, k, r);
    StartAbove(pl.c, k, r);
    var nd, ents0 := st.info[st.us[st.h]], st.mem[st.us[st.h]];
    RoomFor(pl, nd, i, k, P);
    FillTop(pl, st.info, P, nd, ents0, ents, i, k, r, ent);
  }

  lemma FillAll(pl: Plan, st: State, P: nat, i: nat, k: nat, r: nat, ents: seq<Huft>, ent: Huft)
    requires AtCode(pl, st, P, i, k, r) && EndsInTop(pl, st, k)
    requires Replicated(st.info[st.us[st.h]], st.mem[st.us[st.h]], ents, i, k, ent)
    requires ent.b == k - st.info[st.us[st.h]].w && CodeEntry(pl.cs, ent, k, r)
    ensures Refilled(st, ents).mem.Keys == st.info.Keys
    ensures AllFilledTo(st.info, Refilled(st, ents).mem, pl.l, pl.cs, pl.c, P + Width(k))
  {
    hide Inv, Along, FilledTo, Origin, CodeEntry, Replicated, Start, Width, Low, Pow2;
    InvParts(pl, st, P);
    forall t | t in st.info && st.info[t].q <= pl.l
      ensures FilledTo(st.info, pl.l, pl.cs, pl.c, P + Width(k), st.info[t], Refilled(st, ents).mem[t])
    {
      if t == st.us[st.h] {
        FillTopOfStack(pl, st, P, i, k, r, ents, ent);
      } else {
        FillTable(pl, st, P, i, k, t);
      }
    }
  }

  /** Filling in the current code's entry moves the invariant to the next code. */
  lemma FillKeeps(pl: Plan, st: State, P: nat, i: nat, k: nat, r: nat, ents: seq<Huft>, ent: Huft)
    requires AtCode(pl, st, P, i, k, r) && EndsInTop(pl, st, k)
    requires Replicated(st.info[st.us[st.h]], st.mem[st.us[st.h]], ents, i, k, ent)
    requires ent.b == k - st.info[st.us[st.h]].w && CodeEntry(pl.cs, ent, k, r)
    ensures Inv(pl, Refilled(st, ents), P + Width(k))
  {
    FillAll(pl, st, P, i, k, r, ents, ent);
    FillShape(pl, st, P, P + Width(k), ents);
  }

  /** New contents of the top table. */
  lemma RefilledTower(pl: Plan, st: State, ents: seq<Huft>)
    requires Tower(pl, st) && 0 <= st.h
    ensures st.us[st.h] != null && Tower(pl, Refilled(st, ents))
  {
  }

  lemma RefilledRoomy(pl: Plan, st: State, ents: seq<Huft>)
    requires Roomy(pl, st.info, st.mem) && 0 <= st.h < |st.us| && st.us[st.h] != null && st.us[st.h] in st.info
    requires |ents| == |st.mem[st.us[st.h]]|
    ensures Roomy(pl, st.info, Refilled(st, ents).mem)
  {
    hide RoomyNode;
  }

  lemma RefilledLinked(pl: Plan, st: State, ents: seq<Huft>)
    requires Tower(pl, st) && 0 <= st.h && st.info.Keys == st.mem.Keys && Linked(pl, st)
    requires st.us[st.h] != null && Tower(pl, Refilled(st, ents)) && st.info.Keys == Refilled(st, ents).mem.Keys
    ensures Linked(pl, Refilled(st, ents))
  {
    hide LinkedAt;
  }

  lemma OthersLater(us: seq<array?<Huft>>, h: int, info: nodes, P: nat, P': nat)
    requires h < |us| && OthersDone(us, h, info, P) && P <= P'
    ensures OthersDone(us, h, info, P')
  {
    hide OnStack;
  }

  lemma FillShape(pl: Plan, st: State, P: nat, P': nat, ents: seq<Huft>)
    requires Inv(pl, st, P) && 0 <= st.h && |ents| == |st.mem[st.us[st.h]]| && P <= P'
    requires Refilled(st, ents).mem.Keys == st.info.Keys
    requires AllFilledTo(st.info, Refilled(st, ents).mem, pl.l, pl.cs, pl.c, P')
    ensures Inv(pl, Refilled(st, ents), P')
  {
    hide Linked, AllFilledTo, Roomy, Tower, OthersDone;
    InvParts(pl, st, P);
    InvRoomy(pl, st, P);
    RefilledTower(pl, st, ents);
    RefilledRoomy(pl, st, ents);
    RefilledLinked(pl, st, ents);
    OthersLater(st.us, st.h, st.info, P, P');
  }

  lemma InvRoomy(pl: Plan, st: State, P: nat)
    requires Inv(pl, st, P) && 0 <= st.h
    ensures Roomy(pl, st.info, st.mem) && st.us[st.h] != null && st.us[st.h] in st.info
  {
    hide Roomy, Linked, OthersDone, AllFilledTo;
  }

  /** The next code starts where this one ends. */
  lemma NextPoint(i: nat, k: nat, P: nat)
    requires 1 <= k <= BMAX && i < Pow2(k) && Origin(i, k) == P
    ensures Current(Next(i, k), k, P + Width(k))
  {
    hide Rev, Next, Pow2;
    NextBound(i, k);
    NextCounts(i, k);
    Pow2Add(k, BMAX - k);
    Distribute(1, Rev(i, k), 1, Width(k));
    OriginBound(Next(i, k), k);
  }

  /** A table that the next code does not go through is finished. */
  lemma Finished(nd: Node, i: nat, i': nat, k: nat, P: nat, P': nat)
    requires nd.Valid() && nd.w <= k <= BMAX && i < Pow2(k) && Low(i, nd.w) == nd.pre && Origin(i, k) == P < P'
    requires Current(i', k, P') && Low(i', nd.w) != nd.pre
    ensures End(nd) <= P'
  {
    OriginBound(nd.pre, nd.w);
    Covers(nd, i, k);
    if P' < ALL {
      StartsWith(nd.pre, nd.w, i', k);
    }
  }

  /** Popping a finished table. */
  lemma PopDone(us: seq<array?<Huft>>, h: nat, info: nodes, P: nat)
    requires h < |us| && OthersDone(us, h, info, P) && us[h] != null
    requires us[h] in info ==> info[us[h]].Valid() && End(info[us[h]]) <= P
    ensures OthersDone(us, h - 1, info, P)
  {
    forall t | t in info
      ensures OnStack(us, h - 1, t) || End(info[t]) <= P
    {
      if OnStack(us, h, t) {
        var n :| 0 <= n <= h && us[n] == t;
        assert n < h ==> 0 <= n <= h - 1 && us[n] == t;
      }
    }
  }

  lemma PopTower(pl: Plan, st: State)
    requires Tower(pl, st) && st.info.Keys == st.mem.Keys && Linked(pl, st) && st.h >= 0
    ensures Tower(pl, st.(h := st.h - 1)) && Linked(pl, st.(h := st.h - 1))
    ensures st.h < |st.us| && st.us[st.h] != null
  {
    hide LinkedAt;
  }

  lemma PopKeeps(pl: Plan, st: State, P: nat)
    requires Inv(pl, st, P) && st.h >= 0 && st.us[st.h] in st.info && st.info[st.us[st.h]].Valid()
    requires End(st.info[st.us[st.h]]) <= P
    ensures Inv(pl, st.(h := st.h - 1), P)
  {
    hide AllFilledTo, LinkedAt, RoomyNode, End;
    PopTower(pl, st);
    hide Tower;
    PopDone(st.us, st.h, st.info, P);
  }

  /** When the top table lies along a code, so does the whole stack. */
  lemma AlongAgain(pl: Plan, st: State, i: nat, i': nat)
    requires Tower(pl, st) && Along(st, i) && st.h >= 0
    requires Low(i', st.info[st.us[st.h]].w) == st.xs[st.h]
    ensures Along(st, i')
  {
    var w := st.info[st.us[st.h]].w;
    forall n | 0 <= n <= st.h
      ensures st.xs[n] == Low(i', st.info[st.us[n]].w)
    {
      if n < st.h {
        StackBelow(pl, st, n);
        var v := st.info[st.us[n]].w;
        LowLow(i', v, w);
        LowLow(i, v, w);
      }
    }
  }
}
