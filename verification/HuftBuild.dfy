/**
 huft_build (boot/zBoot/inflate.c:99-303): lookup tables from code lengths.
 */
module HuftBuild {
  import opened Words
  import opened Stream
  import opened Canonical
  import opened Geometry
  import opened Tables
  import opened HuftPrepare
  import opened HuftInvariant
  import opened HuftGrow
  import opened HuftFill
  import opened HuftLevels

  // ----- one code

  lemma BetweenStanding(pl: Plan, st: State, P: nat, i: nat, k: nat, r: nat, w: int, q: array?<Huft>)
    requires Between(pl, st, P, i, k, w, q) && Sizing(pl) && k <= pl.g && r < pl.c[k] && P == Start(pl.c, k, r)
    ensures Standing(pl, st, P, i, k, r, w, q)
  {
    hide Inv, Along;
    MulSucc(r, pl.c[k], Width(k));
    FilledMono(pl.c, k, pl.g);
  }

  /** The current code's entry takes the loop to the next code. */
  lemma FillMoves(pl: Plan, st: State, P: nat, i: nat, k: nat, r: nat, w: int, q: array<Huft>, ents: seq<Huft>,
                  ent: Huft)
    requires Standing(pl, st, P, i, k, r, w, q) && 0 <= w < k <= w + pl.l
    requires q in st.mem && |ents| == |st.mem[q]| && ent.b == k - w && CodeEntry(pl.cs, ent, k, r)
    requires forall sl :: 0 <= sl < |ents| ==> ents[sl] == if Low(sl, k - w) == Shr(i, w) then ent else st.mem[q][sl]
    ensures Backing(pl, st.(mem := st.mem[q := ents]), P, P + Width(k), i, Next(i, k), k, w, q)
  {
    hide Inv, Along, Origin, Current, Start, CodeEntry;
    FillKeeps(pl, st, P, i, k, r, ents, ent);
    NextPoint(i, k, P);
    assert Refilled(st, ents) == st.(mem := st.mem[q := ents]);
    AlongMem(st, st.mem[q := ents], i);
  }

  lemma AlongMem(st: State, mem: contents, i: nat)
    requires Along(st, i)
    ensures Along(st.(mem := mem), i)
  {
  }

  lemma StandingTop(pl: Plan, st: State, P: nat, i: nat, k: nat, r: nat, w: int, q: array?<Huft>)
    requires Standing(pl, st, P, i, k, r, w, q) && k <= w + pl.l
    ensures q != null && q in st.info && 0 <= w < k <= BMAX && i < Pow2(k) && Shr(i, w) < Pow2(k - w) && r < pl.c[k]
  {
    hide Inv, Along, Origin;
    ShrBound(i, w, k - w);
  }

  /** One turn of the loop over the codes: tables, entry, fill, counter, way back up. */
  method PlaceCode(ghost pl: Plan, ghost P: nat, ghost r: nat, cs: CodeSet, c: array<nat>, k: nat, a: nat, i: nat,
                   p: nat,
                   l: nat, g: nat, h0: int, w0: int, q0: array?<Huft>, v: array<int>,
                   u: array<array?<Huft>>, x: array<nat>, ghost info0: nodes)
      returns (h: int, w: int, q: array?<Huft>, i': nat, p': nat, ghost info: nodes)
    requires Sizing(pl) && l == pl.l && g == pl.g && cs == pl.cs && cs.Valid() && Completed(cs, pl.c)
    requires c.Length == BMAX + 1 && c[..] == pl.c && c != x && u.Length == BMAX && x.Length == BMAX + 1
    requires v.Length == 288 && Sorted(cs.lens, |cs.lens|, v[..])
    requires 1 <= k <= g <= BMAX && a + r + 1 == pl.c[k] && P == Start(pl.c, k, r) && p == Pointer(cs, pl.c, k, r)
    requires Between(pl, InMemory(u, x, h0, info0), P, i, k, w0, q0)
    modifies u, x, info0.Keys
    ensures h >= 0 && Between(pl, InMemory(u, x, h, info), P + Width(k), i', k, w, q)
    ensures p' == Pointer(cs, pl.c, k, r + 1)
    ensures Grown(pl, info0, info) && fresh(info.Keys - info0.Keys)
  {
    hide Between, Standing, Sizing, Grown, Backing, Completed, Sorted, Start, Pointer, CodeEntry;
    assert 1 <= l by { SizingBounds(pl); }
    BetweenStanding(pl, InMemory(u, x, h0, info0), P, i, k, r, w0, q0);
    h, w, q, info := Descend(pl, P, r, c, k, a, i, l, g, h0, w0, q0, u, x, info0);
    ghost var st := InMemory(u, x, h, info);
    StandingTop(pl, st, P, i, k, r, w, q);
    var ent;
    ent, p' := MakeEntry(cs, v, p, k - w, pl.c, k, r);
    FillEntries(q, Shr(i, w), k - w, ent);
    FillMoves(pl, st, P, i, k, r, w, q, q[..], ent);
    assert Snapshot(info) == st.mem[q := q[..]];
    i' := BackwardIncrement(i, k);
    h, w := BackUp(pl, P, P + Width(k), i, i', k, l, h, w, u, x, info, q);
  }

  lemma SizingBounds(pl: Plan)
    requires Sizing(pl)
    ensures 1 <= pl.l <= pl.g <= BMAX
  {
  }

  // ----- all codes

  /** Before the first code. */
  lemma BetweenStart(pl: Plan, st: State, k: nat)
    requires Sizing(pl) && 1 <= k <= pl.g && (forall j :: 1 <= j < k ==> pl.c[j] == 0)
    requires st == State(st.us, st.xs, -1, map[], map[]) && |st.us| == BMAX && |st.xs| == BMAX + 1 && st.xs[0] == 0
    ensures Between(pl, st, Filled(pl.c, k - 1), 0, k, 0 - pl.l, null)
  {
    FilledZero(pl.c, k - 1);
    RevZero(k);
    assert Pow2(0) == 1;
  }

  /** From one length to the next. */
  lemma BetweenLengths(pl: Plan, st: State, i: nat, k: nat, w: int, q: array?<Huft>)
    requires Sizing(pl) && k < pl.g && Between(pl, st, Filled(pl.c, k), i, k, w, q)
    ensures Between(pl, st, Filled(pl.c, k), i, k + 1, w, q)
  {
    hide Inv, Along, Origin;
    OriginPad(i, k, k + 1);
    if k + 1 > w + pl.l && k <= w + pl.l {
      assert k == w + pl.l;
    }
  }

  lemma BetweenInv(pl: Plan, st: State, P: nat, i: nat, k: nat, w: int, q: array?<Huft>)
    requires Between(pl, st, P, i, k, w, q)
    ensures Inv(pl, st, P)
  {
    hide Inv;
  }

  /** All codes of one length. */
  method PlaceLength(ghost pl: Plan, cs: CodeSet, c: array<nat>, k: nat, i0: nat, p0: nat,
                     l: nat, g: nat, h0: int, w0: int, q0: array?<Huft>, v: array<int>,
                     u: array<array?<Huft>>, x: array<nat>, ghost info0: nodes)
      returns (h: int, w: int, q: array?<Huft>, i: nat, p: nat, ghost info: nodes)
    requires Sizing(pl) && l == pl.l && g == pl.g && cs == pl.cs && cs.Valid() && Completed(cs, pl.c)
    requires c.Length == BMAX + 1 && c[..] == pl.c && c != x && u.Length == BMAX && x.Length == BMAX + 1
    requires v.Length == 288 && Sorted(cs.lens, |cs.lens|, v[..])
    requires 1 <= k <= g <= BMAX && p0 == Pointer(cs, pl.c, k, 0)
    requires Between(pl, InMemory(u, x, h0, info0), Filled(pl.c, k - 1), i0, k, w0, q0)
    modifies u, x, info0.Keys
    ensures (h0 >= 0 || pl.c[k] > 0 ==> h >= 0) && Between(pl, InMemory(u, x, h, info), Filled(pl.c, k), i, k, w, q)
    ensures p == Pointer(cs, pl.c, k, pl.c[k])
    ensures Grown(pl, info0, info) && fresh(info.Keys - info0.Keys)
  {
    hide Between, Sizing, Grown, Completed, Sorted, Pointer;
    h, w, q, i, p, info := h0, w0, q0, i0, p0, info0;
    GrownRefl(pl, info0);
    var a := c[k];
    ghost var r := 0;
    while a > 0
      invariant a + r == pl.c[k] && p == Pointer(cs, pl.c, k, r) && (h0 >= 0 || r > 0 ==> h >= 0)
      invariant Between(pl, InMemory(u, x, h, info), Start(pl.c, k, r), i, k, w, q)
      invariant Grown(pl, info0, info) && fresh(info.Keys - info0.Keys)
    {
      a := a - 1;
      ghost var was := info;
      h, w, q, i, p, info := PlaceCode(pl, Start(pl.c, k, r), r, cs, c, k, a, i, p, l, g, h, w, q, v, u, x, info);
      GrownTrans(pl, info0, was, info);
      Distribute(1, r, 1, Width(k));
      r := r + 1;
    }
  }

  lemma GrownTrans(pl: Plan, a: nodes, b: nodes, c: nodes)
    requires Grown(pl, a, b) && Grown(pl, b, c)
    ensures Grown(pl, a, c)
  {
  }

  // ----- the whole construction

  /** Every code set the decoder meets is of this kind, so its tables decode it. */
  ghost predicate Suits(cs: CodeSet, m: nat)
    requires cs.Valid()
  {
    MaxLen(cs.lens, |cs.lens|) <= 2 * m || (Kraft(cs.lens, |cs.lens|) == ALL && |cs.lens| < Pow2(m))
  }

  /** What huft_build returns. */
  function ReturnCode(lens: seq<nat>): nat
    requires Lengths(lens)
  {
    if Kraft(lens, |lens|) > ALL then 2
    else if Kraft(lens, |lens|) < ALL && MaxLen(lens, |lens|) > 1 then 1
    else 0
  }

  /** The first table's node. */
  lemma RootNode(pl: Plan, st: State, P: nat)
    requires Inv(pl, st, P) && st.h >= 0
    ensures st.us[0] != null && st.us[0] in st.info && st.info[st.us[0]] == Node(0, 0, pl.l)
    ensures AllFilledTo(st.info, st.mem, pl.l, pl.cs, pl.c, P)
  {
    hide OthersDone, Linked, AllFilledTo;
    assert st.info[st.us[0]].pre == st.xs[0];
  }

  /** The main loop: tables for all codes, from the shortest length to the longest. */
  method MakeTables(ghost pl: Plan, cs: CodeSet, c: array<nat>, j: nat, l: nat, g: nat, v: array<int>, x: array<nat>)
      returns (t: array<Huft>, ghost info: nodes)
    requires Sizing(pl) && l == pl.l && g == pl.g && cs == pl.cs && cs.Valid() && Completed(cs, pl.c)
    requires c.Length == BMAX + 1 && c[..] == pl.c && c != x && x.Length == BMAX + 1
    requires v.Length == 288 && Sorted(cs.lens, |cs.lens|, v[..])
    requires 1 <= j <= g <= BMAX && forall k :: 1 <= k < j ==> pl.c[k] == 0
    modifies x
    ensures fresh(info.Keys) && t in info && info[t] == Node(0, 0, l)
    ensures AllFilledTo(info, Snapshot(info), l, cs, pl.c, ALL)
    ensures Narrow(pl) ==> AllNarrow(pl, info)
  {
    hide Between, Grown, Completed, Sorted, Pointer, Inv, AllFilledTo, Narrow, AllNarrow;
    var u := new array?<Huft>[BMAX](_ => null);
    var h, w, q: array?<Huft>, i, p, k := -1, 0 - l, null, 0, 0, j;
    x[0] := 0;
    info := map[];
    MakeStart(pl, InMemory(u, x, h, info), k);
    while k <= g
      invariant j <= k <= g + 1 && fresh(info.Keys)
      invariant k <= g ==> p == Pointer(cs, pl.c, k, 0)
      invariant k <= g ==> Between(pl, InMemory(u, x, h, info), Filled(pl.c, k - 1), i, k, w, q)
      invariant k == g + 1 ==> h >= 0 && Inv(pl, InMemory(u, x, h, info), Filled(pl.c, g))
      invariant Narrow(pl) ==> AllNarrow(pl, info)
    {
      ghost var was := info;
      h, w, q, i, p, info := PlaceLength(pl, cs, c, k, i, p, l, g, h, w, q, v, u, x, info);
      NextLength(pl, InMemory(u, x, h, info), i, k, w, q, p, was);
      k := k + 1;
    }
    RootNode(pl, InMemory(u, x, h, info), Filled(pl.c, g));
    t := u[0];
  }

  lemma MakeStart(pl: Plan, st: State, k: nat)
    requires Sizing(pl) && 1 <= k <= pl.g && (forall j :: 1 <= j < k ==> pl.c[j] == 0)
    requires st.h == -1 && st.info == map[] && st.mem == map[] && |st.us| == BMAX && |st.xs| == BMAX + 1
    requires st.xs[0] == 0
    ensures Between(pl, st, Filled(pl.c, k - 1), 0, k, 0 - pl.l, null)
    ensures Pointer(pl.cs, pl.c, k, 0) == 0 && AllNarrow(pl, st.info)
  {
    BetweenStart(pl, st, k);
    TotalZero(pl.c, k - 1);
  }

  lemma NextLength(pl: Plan, st: State, i: nat, k: nat, w: int, q: array?<Huft>, p: nat, was: nodes)
    requires Sizing(pl) && 1 <= k <= pl.g && Between(pl, st, Filled(pl.c, k), i, k, w, q) && Grown(pl, was, st.info)
    requires p == Pointer(pl.cs, pl.c, k, pl.c[k])
    ensures k < pl.g ==> p == Pointer(pl.cs, pl.c, k + 1, 0) && Between(pl, st, Filled(pl.c, k), i, k + 1, w, q)
    ensures Inv(pl, st, Filled(pl.c, k))
    ensures Narrow(pl) && AllNarrow(pl, was) ==> AllNarrow(pl, st.info)
  {
    hide Narrow, AllNarrow, Inv;
    BetweenInv(pl, st, Filled(pl.c, k), i, k, w, q);
    if k < pl.g {
      BetweenLengths(pl, st, i, k, w, q);
    }
  }

  // ----- the procedure

  /** The longest length in use is the last with a nonzero count. */
  lemma LongestIs(lens: seq<nat>, g: nat)
    requires Lengths(lens) && 1 <= g <= BMAX && Counts(lens)[g] > 0
    requires forall k :: g < k <= BMAX ==> Counts(lens)[k] == 0
    ensures MaxLen(lens, |lens|) == g
  {
    CountPositive(lens, |lens|, g);
    var m := MaxLen(lens, |lens|);
    CountPositive(lens, |lens|, m);
    assert Counts(lens)[m] == Count(lens, |lens|, m);
  }

  /** Not all lengths are zero when the count of zeros is not the number of symbols. */
  lemma SomeUsed(lens: seq<nat>)
    requires Lengths(lens)
    ensures Counts(lens)[0] == |lens| <==> AllZero(lens)
    ensures !AllZero(lens) ==> exists k :: 1 <= k <= BMAX && Counts(lens)[k] > 0
  {
    CountPositive(lens, |lens|, 0);
    if !AllZero(lens) {
      var i :| 0 <= i < |lens| && lens[i] != 0;
      CountPositive(lens, |lens|, lens[i]);
      assert Counts(lens)[lens[i]] == Count(lens, |lens|, lens[i]);
    }
  }

  /** Adding y codes of the greatest length completes the set. */
  lemma MakePlan(cs: CodeSet, l: nat, g: nat, y: nat) returns (pl: Plan)
    requires cs.Valid() && 1 <= l <= g <= BMAX && Counts(cs.lens)[g] > 0
    requires forall k :: g < k <= BMAX ==> Counts(cs.lens)[k] == 0
    requires Filled(Counts(cs.lens)[g := Counts(cs.lens)[g] + y], BMAX) == ALL
    ensures pl == Plan(cs, Counts(cs.lens)[g := Counts(cs.lens)[g] + y], l, g)
    ensures Completed(cs, pl.c) && Sizing(pl)
  {
    pl := Plan(cs, Counts(cs.lens)[g := Counts(cs.lens)[g] + y], l, g);
    FilledFlat(pl.c, g, BMAX);
  }

  /** The sets that huft_build is given stay narrow. */
  lemma SuitsNarrow(pl: Plan)
    requires pl.cs.Valid() && Suits(pl.cs, pl.l) && pl.g == MaxLen(pl.cs.lens, |pl.cs.lens|)
    requires Kraft(pl.cs.lens, |pl.cs.lens|) == ALL ==> pl.c == Counts(pl.cs.lens)
    ensures Narrow(pl)
  {
    TotalUsed(pl.cs.lens, |pl.cs.lens|);
  }

  /** Offsets, values in order of length, and the tables. */
  method SortAndMake(ghost pl: Plan, cs: CodeSet, c: array<nat>, j: nat, l: nat, g: nat)
      returns (t: array<Huft>, ghost info: nodes)
    requires Sizing(pl) && l == pl.l && g == pl.g && cs == pl.cs && cs.Valid() && Completed(cs, pl.c)
    requires c.Length == BMAX + 1 && c[..] == pl.c && g == MaxLen(cs.lens, |cs.lens|)
    requires 1 <= j <= g <= BMAX && forall k :: 1 <= k < j ==> pl.c[k] == 0
    ensures fresh(info.Keys) && t in info && info[t] == Node(0, 0, l)
    ensures AllFilledTo(info, Snapshot(info), l, cs, pl.c, ALL)
    ensures Narrow(pl) ==> AllNarrow(pl, info)
  {
    hide Sorted, Sizing, Narrow, AllFilledTo, Completed;
    var x := new nat[BMAX + 1];
    Offsets(c, g, x);
    forall k | 1 <= k <= g
      ensures x[k] == Total(Counts(cs.lens), k - 1)
    {
      OffsetsAgree(pl, k);
    }
    var v := new int[288](_ => -1);
    SortedNone(cs.lens, v[..]);
    SortSymbols(cs.lens, x, v, g);
    t, info := MakeTables(pl, cs, c, j, l, g, v, x);
  }

  lemma OffsetsAgree(pl: Plan, k: nat)
    requires Sizing(pl) && Completed(pl.cs, pl.c) && 1 <= k <= pl.g
    ensures Total(pl.c, k - 1) == Total(Counts(pl.cs.lens), k - 1)
  {
    TotalAgree(pl.c, Counts(pl.cs.lens), k - 1);
  }

  /**
   The return code by the Kraft sum, in units of 2^-16: 2 for too many codes, 1 for a code
   with gaps and a length above 1, and 0 otherwise.
   */
  lemma ReturnMeans(lens: seq<nat>)
    requires Lengths(lens)
    ensures ReturnCode(lens) == 2 <==> Kraft(lens, |lens|) > 0x1_0000
    ensures ReturnCode(lens) == 1 <==> Kraft(lens, |lens|) < 0x1_0000 && exists i :: 0 <= i < |lens| && lens[i] > 1
    ensures ReturnCode(lens) <= 2
  {
    hide Kraft;
    Pow2Values();
  }

  method Build(cs: CodeSet, m0: nat) returns (r: nat, t: array?<Huft>, m: nat, ghost info: nodes, ghost c': counts)
    requires cs.Valid()
    ensures AllZero(cs.lens) ==> r == 0 && t == null && m == 0
    ensures !AllZero(cs.lens) ==> r == ReturnCode(cs.lens)
    ensures !AllZero(cs.lens) ==> 1 <= m <= MaxLen(cs.lens, |cs.lens|) && (m0 <= m || m == MaxLen(cs.lens, |cs.lens|))
    ensures !AllZero(cs.lens) && r != 2 ==> t != null
    ensures fresh(info.Keys)
    ensures !AllZero(cs.lens) && r != 2 && Suits(cs, m) ==> Decodes(t, m, info, cs, c')
  {
    hide Completed, Sorted, Sizing, Narrow, AllFilledTo, Suits, Kraft, Filled;
    t, info, c' := null, map[], Counts(cs.lens);
    var c := CountLengths(cs.lens);
    SomeUsed(cs.lens);
    if c[0] == |cs.lens| {
      return 0, null, 0, info, c';
    }
    var j, g;
    m, j, g := FindBounds(c, m0);
    LongestIs(cs.lens, g);
    KraftFilled(cs.lens, |cs.lens|);
    var y := FillOut(c, j, g);
    if y < 0 {
      return 2, null, m, info, c';
    }
    ghost var pl := MakePlan(cs, m, g, y);
    c' := pl.c;
    t, info := SortAndMake(pl, cs, c, j, m, g);
    if Suits(cs, m) {
      SuitsNarrow(pl);
    }
    r := if y != 0 && g != 1 then 1 else 0;
  }
}
