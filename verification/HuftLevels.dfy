/**
 The stack of tables in huft_build (boot/zBoot/inflate.c:215-259, 287-292): down to the
 level where a code ends, and back up when the next code goes elsewhere.
 */
module HuftLevels {
  import opened Words
  import opened Stream
  import opened Canonical
  import opened Geometry
  import opened Tables
  import opened HuftPrepare
  import opened HuftInvariant
  import opened HuftGrow
  import opened HuftFill

  // ----- no table below the first is wider than the lookup

  /** No table below the first can come out wider than l bits. */
  ghost predicate Narrow(pl: Plan) {
    pl.g <= 2 * pl.l || Total(pl.c, BMAX) < Pow2(pl.l)
  }

  ghost predicate AllNarrow(pl: Plan, info: nodes) {
    forall t :: t in info ==> info[t].q <= pl.l
  }

  /** n codes no shorter than k cover no more than n codes of length k would. */
  lemma {:induction false} FilledByTotal(c: counts, k: nat, g: nat)
    requires 1 <= k <= BMAX && k - 1 <= g <= BMAX
    ensures Filled(c, g) - Filled(c, k - 1) <= (Total(c, g) - Total(c, k - 1)) * Width(k)
  {
    if g >= k {
      FilledByTotal(c, k, g - 1);
      Pow2Mono(BMAX - g, BMAX - k);
      Grow(Total(c, g - 1) - Total(c, k - 1), c[g], Width(g), Width(k), Filled(c, g - 1) - Filled(c, k - 1));
    }
  }

  lemma Grow(t: int, a: nat, w: nat, wide: nat, f: int)
    requires w <= wide && f <= t * wide
    ensures f + a * w <= (t + a) * wide
  {
    MulLe(w, wide, a);
    assert (t + a) * wide == t * wide + a * wide;
    assert a * w <= a * wide;
  }

  /** A table that comes out wider than l needs at least 2^l codes. */
  lemma WideNeedsCodes(pl: Plan, P: nat, w: nat, k: nat)
    requires Sizing(pl) && w + pl.l <= k <= pl.g && P + Width(w) <= ALL && P >= Filled(pl.c, k - 1)
    ensures Total(pl.c, BMAX) >= Pow2(pl.l)
  {
    hide Total, Filled, Pow2;
    FilledByTotal(pl.c, k, pl.g);
    TotalMono(pl.c, pl.g, BMAX);
    Pow2Add(k - w, BMAX - k);
    Pow2Mono(pl.l, k - w);
    Compare(Pow2(k - w), Total(pl.c, pl.g) - Total(pl.c, k - 1), Width(k), Width(w));
  }

  lemma Compare(a: nat, b: int, w: nat, wide: nat)
    requires w > 0 && wide == a * w && wide <= b * w
    ensures a <= b
  {
    if b < a {
      MulSucc(b, a, w);
    }
  }

  lemma NodeNarrow(pl: Plan, nd: Node, P: nat, k: nat, h: int)
    requires Sizing(pl) && Narrow(pl) && NewNode(pl, nd, P, k, h)
    ensures nd.q <= pl.l
  {
    hide Filled, Total, Width;
    if nd.q > pl.l {
      WideNeedsCodes(pl, P, nd.w, k);
    }
  }

  lemma StaysNarrow(pl: Plan, info: nodes, q: array<Huft>, nd: Node, P: nat, k: nat, h: int)
    requires Sizing(pl) && Narrow(pl) && AllNarrow(pl, info) && NewNode(pl, nd, P, k, h)
    ensures AllNarrow(pl, info[q := nd])
  {
    NodeNarrow(pl, nd, P, k, h);
    hide Narrow, NewNode, Sizing;
  }

  // ----- down to the level of a code

  lemma TopFacts(pl: Plan, st: State, P: nat)
    requires Inv(pl, st, P)
    ensures -1 <= st.h < BMAX && |st.us| == BMAX && |st.xs| == BMAX + 1
    ensures st.h >= 0 ==> st.us[st.h] != null && st.us[st.h] in st.info && st.us[st.h] in st.mem
    ensures st.h >= 0 ==> st.info[st.us[st.h]].Valid() && st.info[st.us[st.h]].pre == st.xs[st.h]
    ensures st.h >= 0 ==> |st.mem[st.us[st.h]]| >= Pow2(st.info[st.us[st.h]].q)
  {
    hide OthersDone, Linked, AllFilledTo;
  }

  /** No table was lost, and none too wide was added. */
  ghost predicate Grown(pl: Plan, info: nodes, info': nodes) {
    && (forall t :: t in info ==> t in info' && info'[t] == info[t])
    && (Narrow(pl) && AllNarrow(pl, info) ==> AllNarrow(pl, info'))
  }

  lemma GrownRefl(pl: Plan, info: nodes)
    ensures Grown(pl, info, info)
  {
  }

  lemma GrownMore(pl: Plan, info0: nodes, info: nodes, q: array<Huft>, nd: Node, P: nat, k: nat, h: int)
    requires Sizing(pl) && Grown(pl, info0, info) && q !in info && NewNode(pl, nd, P, k, h)
    ensures Grown(pl, info0, info[q := nd])
  {
    if Narrow(pl) && AllNarrow(pl, info) {
      StaysNarrow(pl, info, q, nd, P, k, h);
    }
  }

  /** The loop that makes tables up to the level where the code ends. */
  method Descend(ghost pl: Plan, ghost P: nat, ghost r: nat, c: array<nat>, k: nat, a: nat, i: nat, l: nat, g: nat,
                 h0: int, w0: int, q0: array?<Huft>, u: array<array?<Huft>>, x: array<nat>, ghost info0: nodes)
      returns (h: int, w: int, q: array?<Huft>, ghost info: nodes)
    requires Sizing(pl) && l == pl.l && g == pl.g && c.Length == BMAX + 1 && c[..] == pl.c && c != x
    requires u.Length == BMAX && x.Length == BMAX + 1 && k <= g <= BMAX && a + r + 1 == pl.c[k]
    requires Standing(pl, InMemory(u, x, h0, info0), P, i, k, r, w0, q0)
    modifies u, x, info0.Keys
    ensures k <= w + l && Standing(pl, InMemory(u, x, h, info), P, i, k, r, w, q)
    ensures Grown(pl, info0, info) && fresh(info.Keys - info0.Keys)
  {
    assert 1 <= l;
    hide Grown, Sizing, Standing, NewNode;
    h, w, q, info := h0, w0, q0, info0;
    GrownRefl(pl, info0);
    while k > w + l
      invariant Standing(pl, InMemory(u, x, h, info), P, i, k, r, w, q)
      invariant Grown(pl, info0, info) && fresh(info.Keys - info0.Keys)
      decreases k - w
    {
      ghost var was, nd := info, Node(0, 0, 0);
      h, w, q, info, nd := AddTable(pl, P, r, c, k, a, i, l, g, h, w, u, x, info, q);
      GrownMore(pl, info0, was, q, nd, P, k, h);
    }
  }

  // ----- back up the stack

  /** Between two codes: i is the pattern of the next one, of k bits, at point P. */
  ghost predicate Between(pl: Plan, st: State, P: nat, i: nat, k: nat, w: int, q: array?<Huft>) {
    && 1 <= k && Current(i, k, P) && Inv(pl, st, P) && Along(st, i)
    && w < k && w + pl.l == st.Depth(pl.l) && -1 <= st.h < BMAX == |st.us|
    && if k > w + pl.l then i < Pow2(w + pl.l)
       else 0 <= st.h && q != null && q == st.us[st.h] && q in st.info && st.info[q].w == w
  }

  /** On the way up from code i0 at P to the next code i at P'. */
  ghost predicate Backing(pl: Plan, st: State, P: nat, P': nat, i0: nat, i: nat, k: nat, w: int, q: array?<Huft>) {
    && 1 <= k <= BMAX && i0 < Pow2(k) && Origin(i0, k) == P < P' && i == Next(i0, k) && Current(i, k, P')
    && Inv(pl, st, P') && Along(st, i0)
    && 0 <= st.h < BMAX == |st.us| && st.us[st.h] in st.info && 0 <= w == st.info[st.us[st.h]].w < k
    && if k > w + pl.l then i < Pow2(w + pl.l) else q == st.us[st.h]
  }

  lemma BackFinished(pl: Plan, st: State, P: nat, P': nat, i0: nat, i: nat, k: nat, w: int, q: array?<Huft>)
    requires Backing(pl, st, P, P', i0, i, k, w, q) && st.h < |st.xs| && Low(i, w) != st.xs[st.h]
    ensures st.h > 0 && st.info[st.us[st.h]].Valid() && End(st.info[st.us[st.h]]) <= P' && i < Pow2(w)
    ensures st.us[st.h - 1] in st.info && st.info[st.us[st.h - 1]].w == w - pl.l
  {
    TopFacts(pl, st, P');
    hide OthersDone, Linked, AllFilledTo, Roomy;
    assert st.h > 0;
    Finished(st.info[st.us[st.h]], i0, i, k, P, P');
    NextKeepsLow(i0, k, w);
  }

  /** A table that the next code does not go through is left behind. */
  lemma BackStep(pl: Plan, st: State, P: nat, P': nat, i0: nat, i: nat, k: nat, w: int, q: array?<Huft>)
    requires Backing(pl, st, P, P', i0, i, k, w, q) && pl.l >= 1 && st.h < |st.xs| && Low(i, w) != st.xs[st.h]
    ensures st.h > 0 && w >= pl.l && Backing(pl, st.(h := st.h - 1), P, P', i0, i, k, w - pl.l, q)
  {
    hide Inv, Origin, Current, End;
    BackFinished(pl, st, P, P', i0, i, k, w, q);
    PopKeeps(pl, st, P');
  }

  lemma BackDone(pl: Plan, st: State, P: nat, P': nat, i0: nat, i: nat, k: nat, w: int, q: array?<Huft>)
    requires Backing(pl, st, P, P', i0, i, k, w, q) && st.h < |st.xs| && Low(i, w) == st.xs[st.h]
    ensures Between(pl, st, P', i, k, w, q)
  {
    hide Origin, Current, Along, OthersDone, Linked, AllFilledTo, Roomy;
    AlongAgain(pl, st, i0, i);
  }

  lemma BackFacts(pl: Plan, st: State, P: nat, P': nat, i0: nat, i: nat, k: nat, w: int, q: array?<Huft>)
    requires Backing(pl, st, P, P', i0, i, k, w, q)
    ensures 0 <= st.h < BMAX && 0 <= w
  {
    hide Inv, Origin, Current, Along;
  }

  method BackUp(ghost pl: Plan, ghost P: nat, ghost P': nat, ghost i0: nat, i: nat, k: nat, l: nat, h0: int, w0: int,
                u: array<array?<Huft>>, x: array<nat>, ghost info: nodes, ghost q: array?<Huft>)
      returns (h: int, w: int)
    requires u.Length == BMAX && x.Length == BMAX + 1 && 1 <= l == pl.l
    requires Backing(pl, InMemory(u, x, h0, info), P, P', i0, i, k, w0, q)
    ensures h >= 0 && Between(pl, InMemory(u, x, h, info), P', i, k, w, q)
  {
    hide Backing, Between;
    h, w := h0, w0;
    BackFacts(pl, InMemory(u, x, h, info), P, P', i0, i, k, w, q);
    while And(i, Pow2(w) - 1) != x[h]
      invariant 0 <= h < BMAX && 0 <= w && Backing(pl, InMemory(u, x, h, info), P, P', i0, i, k, w, q)
      decreases h
    {
      AndMask(i, w);
      BackStep(pl, InMemory(u, x, h, info), P, P', i0, i, k, w, q);
      h := h - 1;
      w := w - l;
    }
    AndMask(i, w);
    BackDone(pl, InMemory(u, x, h, info), P, P', i0, i, k, w, q);
  }
}
