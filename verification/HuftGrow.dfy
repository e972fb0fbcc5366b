/**
 huft_build's table creation (boot/zBoot/inflate.c:217-259): choosing the size of a new
 table, allocating it and linking it below its parent.
 */
module HuftGrow {
  import opened Words
  import opened Stream
  import opened Canonical
  import opened Geometry
  import opened Tables
  import opened HuftPrepare
  import opened HuftInvariant

  // ----- the size of a table

  /**
   Patterns left under a prefix of w bits after the codes up to length n, when a + 1
   codes of length k are still to come.
   */
  ghost function LeftOver(c: counts, k: nat, w: nat, a: nat, n: nat): int
    requires w < k <= n <= BMAX
  {
    if n == k then Pow2(k - w) - (a + 1) else 2 * LeftOver(c, k, w, a, n - 1) - c[n]
  }

  lemma {:induction false} LeftOverIs(c: counts, P: nat, k: nat, w: nat, a: nat, n: nat)
    requires w < k <= n <= BMAX && a < c[k] && P == Start(c, k, c[k] - a - 1)
    ensures LeftOver(c, k, w, a, n) * Width(n) == P + Width(w) - Filled(c, n)
  {
    if n == k {
      Pow2Add(k - w, BMAX - k);
      SubMul(Pow2(k - w), a + 1, Width(k));
      SubMul(c[k], a + 1, Width(k));
    } else {
      LeftOverIs(c, P, k, w, a, n - 1);
      var f := LeftOver(c, k, w, a, n - 1);
      WidthHalves(n);
      Double(f, Width(n - 1), Width(n));
      SubMul(2 * f, c[n], Width(n));
    }
  }

  /** Nothing is left over exactly when the codes fill the prefix's interval. */
  lemma LeftOverSign(c: counts, P: nat, k: nat, w: nat, a: nat, n: nat)
    requires w < k <= n <= BMAX && a < c[k] && P == Start(c, k, c[k] - a - 1)
    ensures LeftOver(c, k, w, a, n) <= 0 <==> Filled(c, n) >= P + Width(w)
  {
    LeftOverIs(c, P, k, w, a, n);
    SignOf(LeftOver(c, k, w, a, n), Width(n), P + Width(w) - Filled(c, n));
  }

  /**
   The least number of index bits, between k - w and the limit, that the codes still to
   come under this table's prefix can fill.
   */
  method TableBits(c: array<nat>, k: nat, a: nat, w: nat, l: nat, g: nat, ghost c0: counts, ghost P: nat)
      returns (j: nat)
    requires c.Length == BMAX + 1 && c[..] == c0 && g <= BMAX && Filled(c0, g) == ALL
    requires w < k <= g <= BMAX && a < c[k] && P == Start(c0, k, c0[k] - a - 1) && P + Width(w) <= ALL
    ensures k - w <= j <= g - w
    ensures j >= l || Filled(c0, w + j) >= P + Width(w)
    ensures j > l ==> k >= w + l
  {
    hide Filled, Pow2;
    var z := if g - w > l then l else g - w;
    j := k - w;
    var f := Pow2(j);
    LeftOverSign(c0, P, k, w, a, k);
    if f > a + 1 {
      f := f - (a + 1);
      var xp := k;
      j := j + 1;
      while j < z
        invariant k - w < j <= g - w && xp == w + j - 1
        invariant j <= l || j == k - w + 1
        invariant f == LeftOver(c0, k, w, a, xp) && f > 0
      {
        xp := xp + 1;
        f := 2 * f;
        LeftOverSign(c0, P, k, w, a, xp);
        if f <= c[xp] {
          break;
        }
        f := f - c[xp];
        j := j + 1;
      }
      LeftOverSign(c0, P, k, w, a, xp);
    }
  }

  /** The first table is indexed by all l bits: shorter codes alone do not fill the space. */
  lemma RootWide(pl: Plan, j: nat)
    requires Sizing(pl) && j < pl.g
    ensures Filled(pl.c, j) < ALL
  {
    FilledMono(pl.c, j, pl.g - 1);
    MulLe(1, pl.c[pl.g], Width(pl.g));
  }

  /** The state after table q, for the codes that start with nd.pre, was made and linked. */
  ghost function Pushed(st: State, l: nat, q: array<Huft>, nd: Node, ents: seq<Huft>): State
    requires st.h + 1 < |st.us| && st.h + 1 < |st.xs| && st.h >= -1
    requires st.h >= 0 ==> Linkable(st, nd)
  {
    State(st.us[st.h + 1 := q], st.xs[st.h + 1 := nd.pre], st.h + 1, st.info[q := nd], Relink(st, l, q, nd)[q := ents])
  }

  ghost function Relink(st: State, l: nat, q: array<Huft>, nd: Node): contents
    requires st.h >= 0 ==> st.h < |st.us| && Linkable(st, nd)
  {
    if st.h < 0 then st.mem else Link(st, l, q, nd)
  }

  /** The parent has a slot for the codes that start with nd.pre. */
  ghost predicate Linkable(st: State, nd: Node)
    requires 0 <= st.h < |st.us|
  {
    var up := st.us[st.h];
    up != null && up in st.info && up in st.mem && Shr(nd.pre, st.info[up].w) < |st.mem[up]|
  }

  ghost function Link(st: State, l: nat, q: array<Huft>, nd: Node): contents
    requires 0 <= st.h < |st.us| && Linkable(st, nd)
  {
    var up := st.us[st.h];
    st.mem[up := st.mem[up][Shr(nd.pre, st.info[up].w) := Huft(16 + nd.q, l, Table(q))]]
  }

  /** st' has one table more on its stack. */
  ghost predicate Extends(st: State, st': State, q: array<Huft>, nd: Node) {
    && -1 <= st.h && st.h + 1 < BMAX && |st.us| == BMAX && |st.xs| == BMAX + 1 && q !in st.info
    && st'.us == st.us[st.h + 1 := q] && st'.xs == st.xs[st.h + 1 := nd.pre] && st'.h == st.h + 1
    && st'.info == st.info[q := nd]
  }

  lemma TowerPush(pl: Plan, st: State, st': State, q: array<Huft>, nd: Node)
    requires Tower(pl, st) && Extends(st, st', q, nd) && pl.l >= 1
    requires nd.w == st.Depth(pl.l) && (st.h < 0 ==> nd.pre == 0 && nd.q == pl.l)
    ensures Tower(pl, st')
  {
    TowerDepth(pl, st);
    forall n | 0 <= n <= st'.h
      ensures st'.us[n] != null && st'.us[n] in st'.info && st'.info[st'.us[n]].pre == st'.xs[n]
      ensures n <= st'.info[st'.us[n]].w
    {
      assert n <= st.h ==> st'.us[n] == st.us[n] && st'.xs[n] == st.xs[n] && st.us[n] != q;
    }
    forall n | 0 < n <= st'.h
      ensures st'.info[st'.us[n]].w == st'.info[st'.us[n - 1]].w + pl.l
    {
      assert n <= st.h ==> st'.us[n] == st.us[n] && st.us[n] != q;
      assert st'.us[n - 1] == st.us[n - 1] && st.us[n - 1] != q;
    }
    forall m, n | 0 <= m < n <= st'.h
      ensures st'.us[m] != st'.us[n]
    {
      assert st'.us[m] == st.us[m] && st.us[m] != q;
    }
  }

  lemma DonePush(st: State, st': State, q: array<Huft>, nd: Node, P: nat)
    requires Extends(st, st', q, nd) && OthersDone(st.us, st.h, st.info, P) && nd.Valid()
    ensures OthersDone(st'.us, st'.h, st'.info, P)
  {
    var us, us', h, info, info' := st.us, st'.us, st'.h, st.info, st'.info;
    forall t | t in info'
      ensures info'[t].Valid() && (OnStack(us', h, t) || End(info'[t]) <= P)
    {
      if t == q {
        assert us'[h] == t;
      } else if OnStack(us, h - 1, t) {
        var n :| 0 <= n <= h - 1 && us[n] == t;
        assert us'[n] == t;
      }
    }
  }

  /** A new table has no slot before its first code. */
  lemma FilledNew(pl: Plan, info: nodes, P: nat, nd: Node, ents: seq<Huft>)
    requires nd.Valid() && |ents| >= Pow2(nd.q) && Origin(nd.pre, nd.w) == P
    ensures FilledTo(info, pl.l, pl.cs, pl.c, P, nd, ents)
  {
    forall sl | 0 <= sl < Pow2(nd.q)
      ensures nd.At(sl) >= P
    {
      SlotInside(nd, sl);
    }
  }

  /** The link to a new table sits in the slot its codes start with. */
  lemma NewLink(pl: Plan, info: nodes, nd: Node, ents: seq<Huft>, i: nat, q: array<Huft>, P: nat)
    requires nd.Valid() && nd.q == pl.l && |ents| >= Pow2(nd.q) && nd.w + pl.l <= BMAX
    requires i < Pow2(nd.w + pl.l) && Low(i, nd.w) == nd.pre && Origin(i, nd.w + pl.l) == P
    requires q in info && info[q].w == nd.w + pl.l && info[q].pre == i
    ensures Shr(i, nd.w) < Pow2(nd.q) && nd.At(Shr(i, nd.w)) == P
    ensures LinkedAt(pl, info, nd, ents[Shr(i, nd.w) := Huft(16 + info[q].q, pl.l, Table(q))], i, q)
  {
    ShrBound(i, nd.w, pl.l);
    Split(i, nd.w);
  }

  lemma ShrBound(i: nat, a: nat, b: nat)
    requires i < Pow2(a + b)
    ensures Shr(i, a) < Pow2(b)
  {
    LowSmall(i, a + b);
    LowSplit(i, a, b);
    Split(i, a);
    Split(Shr(i, a), b);
    assert i == Low(i, a) + Low(Shr(i, a), b) * Pow2(a);
    Cancel(Pow2(a), Low(Shr(i, a), b), Shr(i, a));
  }

  lemma LinkedMore(pl: Plan, info: nodes, info': nodes, nd: Node, ents: seq<Huft>, pre: nat, t: array?<Huft>)
    requires LinkedAt(pl, info, nd, ents, pre, t) && forall a :: a in info ==> a in info' && info'[a] == info[a]
    ensures LinkedAt(pl, info', nd, ents, pre, t)
  {
  }

  /** The parent of a new table is indexed by at least l bits, so the link's slot exists. */
  lemma ParentWide(pl: Plan, nd: Node, P: nat, i: nat, k: nat)
    requires RoomyNode(pl, nd) && nd.w + pl.l < k <= BMAX && i < Pow2(nd.w + pl.l) && Low(i, nd.w) == nd.pre
    requires Origin(i, k) == P >= Filled(pl.c, k - 1)
    ensures nd.q >= pl.l && Shr(i, nd.w) < Pow2(pl.l) <= Pow2(nd.q)
  {
    hide Origin, Low, Shr, Filled, Pow2;
    OriginPad(i, nd.w + pl.l, k);
    RoomFor(pl, nd, i, k, P);
    ShrBound(i, nd.w, pl.l);
    Pow2Mono(pl.l, nd.q);
  }

  /** What is needed of the table on top of the stack. */
  lemma TopOfStack(pl: Plan, st: State, i: nat)
    requires Tower(pl, st) && Roomy(pl, st.info, st.mem) && Along(st, i) && st.h >= 0
    ensures var up := st.us[st.h];
      && up != null && up in st.info && up in st.mem && RoomyNode(pl, st.info[up])
      && |st.mem[up]| >= Pow2(st.info[up].q) && st.info[up].pre == Low(i, st.info[up].w)
  {
  }

  lemma LinkSlot(pl: Plan, st: State, P: nat, nd: Node, k: nat)
    requires Tower(pl, st) && Roomy(pl, st.info, st.mem) && Along(st, nd.pre) && st.h >= 0
    requires nd.w == st.Depth(pl.l) < k <= BMAX && nd.pre < Pow2(nd.w)
    requires Origin(nd.pre, k) == P >= Filled(pl.c, k - 1)
    ensures Linkable(st, nd) && st.info[st.us[st.h]].q >= pl.l
  {
    TopOfStack(pl, st, nd.pre);
    ParentWide(pl, st.info[st.us[st.h]], P, nd.pre, k);
  }

  /** Writing the link changes a slot that is not yet accounted for. */
  lemma FilledLink(pl: Plan, info: nodes, mem: contents, P: nat, up: array<Huft>, ix: nat, ent: Huft)
    requires info.Keys == mem.Keys && up in info && ix < |mem[up]|
    requires AllFilledTo(info, mem, pl.l, pl.cs, pl.c, P)
    requires info[up].q <= pl.l ==> info[up].Valid() && info[up].At(ix) >= P
    ensures AllFilledTo(info, mem[up := mem[up][ix := ent]], pl.l, pl.cs, pl.c, P)
  {
    if info[up].q <= pl.l {
      FilledUpdate(pl, info, P, info[up], mem[up], ix, ent);
    }
  }

  lemma FilledPush(pl: Plan, info: nodes, mem: contents, P: nat, q: array<Huft>, nd: Node, ents: seq<Huft>)
    requires info.Keys == mem.Keys && q !in info
    requires AllFilledTo(info, mem, pl.l, pl.cs, pl.c, P)
    requires nd.Valid() && |ents| >= Pow2(nd.q) && Origin(nd.pre, nd.w) == P
    ensures AllFilledTo(info[q := nd], mem[q := ents], pl.l, pl.cs, pl.c, P)
  {
    var info', mem' := info[q := nd], mem[q := ents];
    forall t | t in info' && info'[t].q <= pl.l
      ensures FilledTo(info', pl.l, pl.cs, pl.c, P, info'[t], mem'[t])
    {
      if t == q {
        FilledNew(pl, info', P, nd, ents);
      } else {
        FilledMoreNodes(pl, info, info', P, info[t], mem[t]);
      }
    }
  }

  /** Writing the link leaves what is filled so far as it was. */
  lemma LinkFilled(pl: Plan, st: State, P: nat, q: array<Huft>, nd: Node, k: nat)
    requires 0 <= st.h < |st.us| && Linkable(st, nd) && st.info.Keys == st.mem.Keys
    requires AllFilledTo(st.info, st.mem, pl.l, pl.cs, pl.c, P)
    requires nd.w <= k <= BMAX && nd.pre < Pow2(nd.w) && Origin(nd.pre, k) == P
    requires var up := st.info[st.us[st.h]]; up.Valid() && (up.q <= pl.l ==> up.At(Shr(nd.pre, up.w)) >= P)
    ensures AllFilledTo(st.info, Link(st, pl.l, q, nd), pl.l, pl.cs, pl.c, P)
  {
    hide AllFilledTo, Origin, Shr, Pow2;
    var up := st.us[st.h];
    FilledLink(pl, st.info, st.mem, P, up, Shr(nd.pre, st.info[up].w), Huft(16 + nd.q, pl.l, Table(q)));
  }

  /** The link that Pushed writes. */
  lemma LinkFacts(pl: Plan, st: State, P: nat, q: array<Huft>, nd: Node, k: nat)
    requires Tower(pl, st) && Roomy(pl, st.info, st.mem) && Along(st, nd.pre) && st.h >= 0
    requires AllFilledTo(st.info, st.mem, pl.l, pl.cs, pl.c, P) && q !in st.info
    requires nd.w == st.Depth(pl.l) < k <= BMAX && nd.pre < Pow2(nd.w)
    requires Origin(nd.pre, k) == P >= Filled(pl.c, k - 1)
    ensures Linkable(st, nd)
    ensures var up := st.us[st.h];
      st.info[up].q <= pl.l ==> LinkedAt(pl, st.info[q := nd], st.info[up], Link(st, pl.l, q, nd)[up], nd.pre, q)
    ensures st.info.Keys == Link(st, pl.l, q, nd).Keys
    ensures AllFilledTo(st.info, Link(st, pl.l, q, nd), pl.l, pl.cs, pl.c, P)
  {
    hide Along, AllFilledTo, Filled, Origin, LinkedAt;
    LinkSlot(pl, st, P, nd, k);
    TopOfStack(pl, st, nd.pre);
    var up := st.us[st.h];
    OriginPad(nd.pre, nd.w, k);
    if st.info[up].q <= pl.l {
      NewLink(pl, st.info[q := nd], st.info[up], st.mem[up], nd.pre, q, P);
    }
    LinkFilled(pl, st, P, q, nd, k);
  }

  /** Of the tables on the stack, only the top one changed: it got the link. */
  ghost predicate LinkWritten(pl: Plan, st: State, st': State, q: array<Huft>, nd: Node)
    requires Tower(pl, st) && st.info.Keys == st.mem.Keys && Extends(st, st', q, nd) && st'.info.Keys == st'.mem.Keys
  {
    && (forall n :: 0 <= n < st.h ==> st'.mem[st.us[n]] == st.mem[st.us[n]])
    && (st.h >= 0 && st.info[st.us[st.h]].q <= pl.l ==>
          LinkedAt(pl, st'.info, st.info[st.us[st.h]], st'.mem[st.us[st.h]], nd.pre, q))
  }

  /** Links below the new table's parent stay as they are. */
  lemma LinkedPush(pl: Plan, st: State, st': State, q: array<Huft>, nd: Node)
    requires st.info.Keys == st.mem.Keys && st'.info.Keys == st'.mem.Keys
    requires Tower(pl, st) && Tower(pl, st') && Linked(pl, st) && Extends(st, st', q, nd)
    requires LinkWritten(pl, st, st', q, nd)
    ensures Linked(pl, st')
  {
    forall n | 0 <= n < st'.h && st'.info[st'.us[n]].q <= pl.l
      ensures LinkedAt(pl, st'.info, st'.info[st'.us[n]], st'.mem[st'.us[n]], st'.xs[n + 1], st'.us[n + 1])
    {
      if n < st.h {
        LinkedMore(pl, st.info, st'.info, st.info[st.us[n]], st.mem[st.us[n]], st.xs[n + 1], st.us[n + 1]);
      }
    }
  }

  lemma RoomyPush(pl: Plan, info: nodes, mem: contents, mem0: contents, q: array<Huft>, nd: Node, ents: seq<Huft>)
    requires Roomy(pl, info, mem) && info.Keys == mem0.Keys && q !in info
    requires forall t :: t in mem ==> |mem0[t]| == |mem[t]|
    requires RoomyNode(pl, nd) && |ents| >= Pow2(nd.q)
    ensures Roomy(pl, info[q := nd], mem0[q := ents])
  {
  }

  lemma AlongPush(pl: Plan, st: State, st': State, q: array<Huft>, nd: Node)
    requires Tower(pl, st) && Along(st, nd.pre) && nd.pre < Pow2(nd.w) && Extends(st, st', q, nd)
    ensures Along(st', nd.pre)
  {
    LowSmall(nd.pre, nd.w);
  }

  /** What a new table must be for the invariant to survive. */
  ghost predicate Fresh(pl: Plan, st: State, P: nat, q: array<Huft>, nd: Node, ents: seq<Huft>, k: nat) {
    && q !in st.info && st.h + 1 < BMAX && pl.l >= 1
    && nd.Valid() && RoomyNode(pl, nd) && |ents| >= Pow2(nd.q) && Origin(nd.pre, nd.w) == P
    && nd.w == st.Depth(pl.l) < k <= BMAX && nd.pre < Pow2(nd.w) && (st.h < 0 ==> nd.pre == 0 && nd.q == pl.l)
    && Origin(nd.pre, k) == P >= Filled(pl.c, k - 1)
  }

  /** The entries before the new table's are added: the old ones, with the link. */
  ghost predicate Relinked(pl: Plan, st: State, mem0: contents, P: nat) {
    && st.info.Keys == st.mem.Keys == mem0.Keys
    && (forall t :: t in st.mem ==> |mem0[t]| == |st.mem[t]|)
    && AllFilledTo(st.info, mem0, pl.l, pl.cs, pl.c, P)
  }

  /** The new table keeps everything the loop needs. */
  lemma PushKeeps(pl: Plan, st: State, P: nat, q: array<Huft>, nd: Node, ents: seq<Huft>, k: nat)
    requires Inv(pl, st, P) && Along(st, nd.pre) && Fresh(pl, st, P, q, nd, ents, k)
    ensures st.h >= 0 ==> Linkable(st, nd)
    ensures Inv(pl, Pushed(st, pl.l, q, nd, ents), P)
    ensures Along(Pushed(st, pl.l, q, nd, ents), nd.pre)
  {
    PushLink(pl, st, P, q, nd, ents, k);
    hide Inv, Roomy, OthersDone, Linked, Along, LinkWritten, Relinked;
    var st' := Pushed(st, pl.l, q, nd, ents);
    TowerPush(pl, st, st', q, nd);
    AlongPush(pl, st, st', q, nd);
    PushParts(pl, st, st', Relink(st, pl.l, q, nd), P, q, nd, ents);
  }

  lemma PushLink(pl: Plan, st: State, P: nat, q: array<Huft>, nd: Node, ents: seq<Huft>, k: nat)
    requires Inv(pl, st, P) && Along(st, nd.pre) && Fresh(pl, st, P, q, nd, ents, k)
    ensures st.h >= 0 ==> Linkable(st, nd)
    ensures Relinked(pl, st, Relink(st, pl.l, q, nd), P)
    ensures var st' := Pushed(st, pl.l, q, nd, ents);
      Extends(st, st', q, nd) && st'.info.Keys == st'.mem.Keys && LinkWritten(pl, st, st', q, nd)
  {
    hide OthersDone, Linked, LinkedAt, AllFilledTo, LinkWritten, RoomyNode, Along;
    if st.h >= 0 {
      LinkFacts(pl, st, P, q, nd, k);
    }
    PushShape(pl, st, q, nd, ents);
  }

  lemma PushShape(pl: Plan, st: State, q: array<Huft>, nd: Node, ents: seq<Huft>)
    requires Tower(pl, st) && q !in st.info && st.h + 1 < BMAX && st.info.Keys == st.mem.Keys
    requires st.h >= 0 ==> Linkable(st, nd) && (st.info[st.us[st.h]].q <= pl.l ==>
      LinkedAt(pl, st.info[q := nd], st.info[st.us[st.h]], Link(st, pl.l, q, nd)[st.us[st.h]], nd.pre, q))
    ensures var st' := Pushed(st, pl.l, q, nd, ents);
      Extends(st, st', q, nd) && st'.info.Keys == st'.mem.Keys && LinkWritten(pl, st, st', q, nd)
  {
    hide LinkedAt;
    assert Pushed(st, pl.l, q, nd, ents).info.Keys == Pushed(st, pl.l, q, nd, ents).mem.Keys;
  }

  lemma PushParts(pl: Plan, st: State, st': State, mem0: contents, P: nat, q: array<Huft>, nd: Node, ents: seq<Huft>)
    requires Inv(pl, st, P) && Tower(pl, st') && Extends(st, st', q, nd) && Relinked(pl, st, mem0, P)
    requires nd.Valid() && RoomyNode(pl, nd) && |ents| >= Pow2(nd.q) && Origin(nd.pre, nd.w) == P
    requires st'.info.Keys == st'.mem.Keys && st'.mem == mem0[q := ents] && LinkWritten(pl, st, st', q, nd)
    ensures Inv(pl, st', P)
  {
    hide LinkWritten, Tower, AllFilledTo, FilledTo, RoomyNode, Roomy, OthersDone, Linked;
    RoomyPush(pl, st.info, st.mem, mem0, q, nd, ents);
    DonePush(st, st', q, nd, P);
    FilledPush(pl, st.info, mem0, P, q, nd, ents);
    LinkedPush(pl, st, st', q, nd);
  }

  // ----- the loop on the real arrays

  /** The builder's state in memory. */
  ghost function InMemory(u: array<array?<Huft>>, x: array<nat>, h: int, info: nodes): State
    reads u, x, info.Keys
  {
    State(u[..], x[..], h, info, Snapshot(info))
  }

  /** What the sizing loop needs. */
  lemma AddStart(pl: Plan, st: State, P: nat, i: nat, w: nat, k: nat, r: nat)
    requires Sizing(pl) && AtCode(pl, st, P, i, k, r) && w == st.Depth(pl.l) < k && i < Pow2(w)
    ensures st.h >= 0 ==> w >= pl.l
    ensures pl.g <= BMAX && Filled(pl.c, pl.g) == ALL && P + Width(w) <= ALL && P >= Filled(pl.c, k - 1)
    ensures k <= pl.g && r < pl.c[k] && P == Start(pl.c, k, r) && -1 <= st.h && i < Pow2(w + pl.l)
  {
    hide OthersDone, Linked, AllFilledTo, Roomy, Along, Tower, Start, Filled, Width, Origin, Pow2;
    TowerDepth(pl, st);
    Pow2Mono(w, w + pl.l);
    OriginPad(i, w, k);
    OriginBound(i, w);
    StartAbove(pl.c, k, r);
  }

  /** The size of a new table, and its node. */
  lemma SizeOfNew(pl: Plan, st: State, w: nat, k: nat, i: nat, j: nat, P: nat, r: nat, q: array<Huft>, ents: seq<Huft>)
      returns (nd: Node)
    requires Sizing(pl) && AtCode(pl, st, P, i, k, r) && w == st.Depth(pl.l) < k && k - w <= j && w + j <= pl.g
    requires i < Pow2(w) && q !in st.info && |ents| == Pow2(j)
    requires j >= pl.l || Filled(pl.c, w + j) >= P + Width(w)
    ensures nd == Node(w, i, if st.h < 0 then pl.l else j) && nd.w + nd.q <= pl.g && Fresh(pl, st, P, q, nd, ents, k)
  {
    hide OthersDone, Linked, AllFilledTo, Roomy, Along, Low, Tower, Filled, Pow2, Origin;
    nd := Node(w, i, if st.h < 0 then pl.l else j);
    TowerDepth(pl, st);
    Pow2Values();
    OriginPad(i, w, k);
    if st.h < 0 && j < pl.l {
      RootWide(pl, j);
    }
    Pow2Mono(nd.q, j);
  }

  /** There are no more tables on the stack than bits before the next one. */
  lemma TowerDepth(pl: Plan, st: State)
    requires Tower(pl, st) && pl.l >= 1
    ensures st.h >= -1 && st.h + 1 <= st.Depth(pl.l)
    ensures if st.h < 0 then st.Depth(pl.l) == 0 else st.Depth(pl.l) >= pl.l
  {
  }

  /** Pushing the new table leaves the loop before the same code. */
  lemma PushAtCode(pl: Plan, st: State, P: nat, q: array<Huft>, nd: Node, ents: seq<Huft>, k: nat, r: nat)
    requires AtCode(pl, st, P, nd.pre, k, r) && Fresh(pl, st, P, q, nd, ents, k)
    ensures st.h >= 0 ==> Linkable(st, nd)
    ensures AtCode(pl, Pushed(st, pl.l, q, nd, ents), P, nd.pre, k, r)
    ensures -1 <= st.h < BMAX - 1 && |st.us| == BMAX && |st.xs| == BMAX + 1
    ensures st.h < 0 ==> nd.pre == 0 == st.xs[0]
    ensures st.h >= 0 ==> st.us[st.h] in st.info && st.us[st.h] != q && nd.w >= pl.l
    ensures st.h >= 0 ==> st.info[st.us[st.h]].w == nd.w - pl.l
  {
    PushKeeps(pl, st, P, q, nd, ents, k);
    hide OthersDone, Linked, AllFilledTo, Roomy, Along;
  }

  /**
   The loop stands before a code, with w bits before the top table: either the code goes
   beyond that table, or the table is q and the code ends in it.
   */
  ghost predicate Standing(pl: Plan, st: State, P: nat, i: nat, k: nat, r: nat, w: int, q: array?<Huft>) {
    && AtCode(pl, st, P, i, k, r) && w < k && w + pl.l == st.Depth(pl.l)
    && -1 <= st.h < BMAX == |st.us|
    && if k > w + pl.l then i < Pow2(w + pl.l)
       else 0 <= st.h && q != null && q == st.us[st.h] && q in st.info && st.info[q].w == w
  }

  /** The assignments that put a new table on the stack and link it from its parent. */
  method Connect(u: array<array?<Huft>>, x: array<nat>, h: int, l: nat, j: nat, q: array<Huft>, ghost info0: nodes,
                 ghost nd: Node,
                 i: nat, w: int)
    requires 0 <= h < u.Length && h < x.Length && q !in info0 && i == nd.pre && w == nd.w
    requires h == 0 ==> i == 0 == x[0]
    requires h > 0 ==> nd.q == j && Linkable(InMemory(u, x, h - 1, info0), nd)
    requires h > 0 ==> w >= l && u[h - 1] in info0 && info0[u[h - 1]].w == w - l
    modifies u, x, info0.Keys
    ensures InMemory(u, x, h, info0[q := nd]) == Pushed(old(InMemory(u, x, h - 1, info0)), l, q, nd, old(q[..]))
  {
    ghost var st, ents := InMemory(u, x, h - 1, info0), q[..];
    u[h] := q;
    if h > 0 {
      x[h] := i;
      var r := Huft(16 + j, l, Table(q));
      u[h - 1][Shr(i, w - l)] := r;
    }
    assert Snapshot(info0[q := nd]) == Relink(st, l, q, nd)[q := ents];
    assert x[..] == st.xs[h := i];
  }

  /** Allocates the table that the code i starts. */
  method Allocate(ghost pl: Plan, ghost st: State, ghost P: nat, ghost r: nat, c: array<nat>, k: nat, a: nat, i: nat,
                  l: nat, g: nat, w: int)
      returns (q: array<Huft>, j: nat, ghost nd: Node)
    requires Sizing(pl) && l == pl.l && g == pl.g && c.Length == BMAX + 1 && c[..] == pl.c
    requires AtCode(pl, st, P, i, k, r) && 0 <= w == st.Depth(l) < k <= g <= BMAX && a + r + 1 == pl.c[k] && i < Pow2(w)
    ensures fresh(q) && (q !in st.info ==> Fresh(pl, st, P, q, nd, q[..], k))
    ensures nd.pre == i && nd.w == w && (st.h >= 0 ==> nd.q == j) && NewNode(pl, nd, P, k, st.h + 1)
  {
    hide AtCode, Fresh, Start;
    AddStart(pl, st, P, i, w, k, r);
    j := TableBits(c, k, a, w, l, g, pl.c, P);
    q := new Huft[Pow2(j)];
    nd := SizeOfNew(pl, st, w, k, i, j, P, r, q, q[..]);
  }

  /** The size of a new table at level h. */
  ghost predicate NewNode(pl: Plan, nd: Node, P: nat, k: nat, h: int) {
    && nd.w < k <= pl.g <= BMAX && nd.w + nd.q <= pl.g && (if h == 0 then nd.q == pl.l else nd.w >= pl.l)
    && (h != 0 && nd.q > pl.l ==> k >= nd.w + pl.l)
    && P + Width(nd.w) <= ALL && P >= Filled(pl.c, k - 1)
  }

  /** After the push the code is one table further down. */
  lemma StandingPush(pl: Plan, st: State, P: nat, k: nat, r: nat, q: array<Huft>, nd: Node, ents: seq<Huft>)
    requires AtCode(pl, st, P, nd.pre, k, r) && Fresh(pl, st, P, q, nd, ents, k)
    ensures st.h >= 0 ==> Linkable(st, nd)
    ensures Standing(pl, Pushed(st, pl.l, q, nd, ents), P, nd.pre, k, r, nd.w, q)
    ensures -1 <= st.h < BMAX - 1 && |st.us| == BMAX && |st.xs| == BMAX + 1
    ensures st.h < 0 ==> nd.pre == 0 == st.xs[0]
    ensures st.h >= 0 ==> st.us[st.h] in st.info && nd.w >= pl.l && st.info[st.us[st.h]].w == nd.w - pl.l
  {
    hide AtCode, Linkable, Pow2, Origin;
    Pow2Mono(nd.w, nd.w + pl.l);
    PushAtCode(pl, st, P, q, nd, ents, k, r);
    assert Pushed(st, pl.l, q, nd, ents).Depth(pl.l) == nd.w + pl.l;
  }

  /**
   One turn of the loop that makes tables up to the required level: the code i of k bits
   starts a new table.
   */
  method AddTable(ghost pl: Plan, ghost P: nat, ghost r: nat, c: array<nat>, k: nat, a: nat, i: nat, l: nat, g: nat,
                  h0: int, w0: int, u: array<array?<Huft>>, x: array<nat>, ghost info0: nodes, ghost q0: array?<Huft>)
      returns (h: int, w: int, q: array<Huft>, ghost info: nodes, ghost nd: Node)
    requires Sizing(pl) && l == pl.l && g == pl.g && c.Length == BMAX + 1 && c[..] == pl.c && c != x
    requires u.Length == BMAX && x.Length == BMAX + 1 && w0 + l < k <= g <= BMAX && a + r + 1 == pl.c[k]
    requires Standing(pl, InMemory(u, x, h0, info0), P, i, k, r, w0, q0)
    modifies u, x, info0.Keys
    ensures h == h0 + 1 && w == w0 + l
    ensures Standing(pl, InMemory(u, x, h, info), P, i, k, r, w, q)
    ensures fresh(q) && q !in info0 && info == info0[q := nd] && NewNode(pl, nd, P, k, h)
  {
    hide AtCode, Fresh, Sizing, NewNode;
    ghost var st := InMemory(u, x, h0, info0);
    h := h0 + 1;
    w := w0 + l;
    var j;
    q, j, nd := Allocate(pl, st, P, r, c, k, a, i, l, g, w);
    StandingPush(pl, st, P, k, r, q, nd, q[..]);
    info := info0[q := nd];
    Connect(u, x, h, l, j, q, info0, nd, i, w);
  }
}
