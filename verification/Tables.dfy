/**
 The decoder's lookup tables (struct huft of boot/zBoot/inflate.c) and what it means for
 them to decode a code set.

 A table is an array of entries. A ghost map records, for every table, how many bits of
 a code come before it, which bits, and with how many bits it is indexed. The meaning is
 local: every slot holds the entry for the codes that its bits can start.
 */
module Tables {
  import opened Words
  import opened Stream
  import opened Wrappers
  import opened Canonical
  import opened Geometry

  /** The union `v` of struct huft; Unset is memory the source leaves uninitialised. */
  datatype Value = Num(n: nat) | Table(t: array<Huft>) | Unset

  /** e: extra bits or operation; b: number of bits in this code or subcode. */
  datatype Huft = Huft(e: nat, b: nat, v: Value)

  /** A symbol of the code set: simple up to s, then with base values and extra bits. */
  datatype CodeSet = CodeSet(lens: seq<nat>, s: nat, base: seq<nat>, extra: seq<nat>) {
    /** The arguments that huft_build's callers pass. */
    ghost predicate Valid() {
      && 1 <= |lens| <= 288 && Lengths(lens)
      && |base| == |extra|
      && |lens| <= s + |base|
      && (forall i :: 0 <= i < |extra| ==> extra[i] <= 13 || extra[i] == 99)
    }

    /** The operation and value of a symbol's entry. */
    function Operation(sym: nat): nat
      requires sym < s + |base| && |base| == |extra|
    {
      if sym < s then (if sym < 256 then 16 else 15) else extra[sym - s]
    }

    function Payload(sym: nat): nat
      requires sym < s + |base| && |base| == |extra|
    {
      if sym < s then sym else base[sym - s]
    }

    ghost predicate AllUsed() {
      forall i :: 0 <= i < |lens| ==> lens[i] != 0
    }
  }

  /** w bits with pattern `pre` lead to the table; q bits index it. */
  datatype Node = Node(w: nat, pre: nat, q: nat) {
    ghost predicate Valid() {
      1 <= q && w + q <= BMAX && pre < Pow2(w)
    }

    /** The bits that lead to slot sl, and the first point they stand for. */
    ghost function Cell(sl: nat): nat {
      pre + sl * Pow2(w)
    }

    ghost function At(sl: nat): nat
      requires Valid()
    {
      Origin(Cell(sl), w + q)
    }
  }

  type nodes = map<array<Huft>, Node>

  // ----- what a slot may hold

  ghost predicate SymbolEntry(cs: CodeSet, ent: Huft, sym: nat) {
    && sym < cs.s + |cs.base| && |cs.base| == |cs.extra|
    && ent.e == cs.Operation(sym) && ent.v == Num(cs.Payload(sym))
  }

  /** The entry of a code that no symbol has. */
  ghost predicate FillerEntry(cs: CodeSet, ent: Huft) {
    (ent.e == 99 && ent.v.Num?) || (ent.v.Unset? && !cs.AllUsed())
  }

  /** c counts the codes, including codes added to complete the set. */
  ghost predicate CodeEntry(cs: CodeSet, ent: Huft, k: nat, r: nat) {
    if r < Count(cs.lens, |cs.lens|, k) then SymbolEntry(cs, ent, Nth(cs.lens, |cs.lens|, k, r))
    else FillerEntry(cs, ent)
  }

  /** The r-th code of length k ends in this table and owns the slot at point `at`. */
  ghost predicate Owns(c: counts, nd: Node, at: nat, k: nat, r: nat) {
    && nd.w < k <= nd.w + nd.q && k <= BMAX && r < c[k]
    && Start(c, k, r) <= at < Start(c, k, r) + Width(k)
  }

  ghost predicate LeafOK(cs: CodeSet, c: counts, nd: Node, at: nat, ent: Huft) {
    exists k: nat, r: nat :: Owns(c, nd, at, k, r) && ent.b == k - nd.w && CodeEntry(cs, ent, k, r)
  }

  ghost predicate LinkOK(info: nodes, l: nat, nd: Node, sl: nat, ent: Huft) {
    && ent.v.Table? && ent.v.t in info && nd.q == l == ent.b
    && info[ent.v.t].w == nd.w + l && info[ent.v.t].pre == nd.Cell(sl)
    && ent.e == 16 + info[ent.v.t].q
  }

  ghost predicate EntryOK(info: nodes, l: nat, cs: CodeSet, c: counts, nd: Node, sl: nat, ent: Huft)
    requires nd.Valid()
  {
    LinkOK(info, l, nd, sl, ent) || LeafOK(cs, c, nd, nd.At(sl), ent)
  }

  /** Every slot of a table's entries that starts before point P is filled. */
  ghost predicate FilledTo(info: nodes, l: nat, cs: CodeSet, c: counts, P: nat, nd: Node, ents: seq<Huft>) {
    && nd.Valid() && |ents| >= Pow2(nd.q)
    && forall sl :: 0 <= sl < Pow2(nd.q) && nd.At(sl) < P ==> EntryOK(info, l, cs, c, nd, sl, ents[sl])
  }

  type contents = map<array<Huft>, seq<Huft>>

  /** What is in the tables. */
  ghost function Snapshot(info: nodes): contents
    reads info.Keys
  {
    map t | t in info :: t[..]
  }

  /** All tables are filled, except those that came out too big to be linked to correctly. */
  ghost predicate AllFilledTo(info: nodes, mem: contents, l: nat, cs: CodeSet, c: counts, P: nat)
    requires info.Keys == mem.Keys
  {
    forall t :: t in info && info[t].q <= l ==> FilledTo(info, l, cs, c, P, info[t], mem[t])
  }

  /** c is the count list of cs completed with codes of the greatest length. */
  ghost predicate Completed(cs: CodeSet, c: counts) {
    && Filled(c, BMAX) == ALL
    && (forall k :: 1 <= k <= BMAX ==> Count(cs.lens, |cs.lens|, k) <= c[k])
    && (forall k, j :: 1 <= k < j <= BMAX && c[j] > 0 ==> c[k] == Count(cs.lens, |cs.lens|, k))
    && (forall k :: 1 <= k <= BMAX && c[k] > 0 ==> Count(cs.lens, |cs.lens|, k) > 0)
  }

  /** The tables decode the code set: what huft_build is for. */
  ghost predicate Decodes(root: array<Huft>, m: nat, info: nodes, cs: CodeSet, c: counts)
    reads info.Keys
  {
    && cs.Valid() && Completed(cs, c)
    && root in info && info[root] == Node(0, 0, m) && m <= BMAX
    && (forall t :: t in info ==> info[t].q <= m)
    && AllFilledTo(info, Snapshot(info), m, cs, c, ALL)
  }

  // ----- a lookup

  /** A bit string's slot in a table on its path. */
  ghost function SlotOf(s: seq<bit>, p: nat, nd: Node): nat {
    Bits(s, p + nd.w, nd.q)
  }

  /** The table is on the path of the code that starts at p. */
  ghost predicate OnPath(s: seq<bit>, p: nat, nd: Node) {
    Bits(s, p, nd.w) == nd.pre
  }

  lemma SlotCell(s: seq<bit>, p: nat, nd: Node)
    requires nd.Valid() && OnPath(s, p, nd)
    ensures SlotOf(s, p, nd) < Pow2(nd.q)
    ensures nd.Cell(SlotOf(s, p, nd)) == Bits(s, p, nd.w + nd.q)
  {
    BitsBound(s, p + nd.w, nd.q);
    BitsSplit(s, p, nd.w, nd.q);
  }

  lemma SlotPoint(s: seq<bit>, p: nat, nd: Node)
    requires nd.Valid() && OnPath(s, p, nd)
    ensures nd.At(SlotOf(s, p, nd)) <= Msb(s, p, BMAX) < nd.At(SlotOf(s, p, nd)) + Width(nd.w + nd.q)
    ensures nd.At(SlotOf(s, p, nd)) < ALL
  {
    var n := nd.w + nd.q;
    SlotCell(s, p, nd);
    BitsBound(s, p, n);
    StreamStartsWith(s, p, Bits(s, p, n), n);
    OriginBound(Bits(s, p, n), n);
  }

  /** A link leads to the table for the bits read so far. */
  lemma FollowLink(info: nodes, l: nat, s: seq<bit>, p: nat, nd: Node, ent: Huft)
    requires nd.Valid() && OnPath(s, p, nd) && LinkOK(info, l, nd, SlotOf(s, p, nd), ent)
    ensures OnPath(s, p, info[ent.v.t])
  {
    SlotCell(s, p, nd);
  }

  /** The code that owns a slot is the one the stream starts with. */
  lemma OwnerOfStream(c: counts, s: seq<bit>, p: nat, nd: Node, k: nat, r: nat)
    requires nd.Valid() && OnPath(s, p, nd) && Owns(c, nd, nd.At(SlotOf(s, p, nd)), k, r)
    ensures Start(c, k, r) <= Msb(s, p, BMAX) < Start(c, k, r) + Width(k)
  {
    SlotPoint(s, p, nd);
    CellInside(c, nd, SlotOf(s, p, nd), k, r);
  }

  /** An owned slot lies in the owner's interval with all its points. */
  lemma CellInside(c: counts, nd: Node, sl: nat, k: nat, r: nat)
    requires nd.Valid() && Owns(c, nd, nd.At(sl), k, r)
    ensures nd.At(sl) + Width(nd.w + nd.q) <= Start(c, k, r) + Width(k)
  {
    var n := nd.w + nd.q;
    var u := FilledUnits(c, k - 1, n);
    Pow2Add(n - k, BMAX - n);
    Aligned(Rev(nd.Cell(sl), n), u, r, Pow2(n - k), Width(n), Width(k), nd.At(sl), Start(c, k, r));
  }

  lemma Aligned(m: nat, u: nat, r: nat, g: nat, w: nat, wide: nat, at: nat, start: nat)
    requires wide == g * w && at == m * w && start == u * w + r * wide && at < start + wide && w > 0
    ensures at + w <= start + wide
  {
    assert start + wide == (u + r * g + g) * w by {
      assert r * wide == r * g * w;
    }
    MulLt(m, u + r * g + g, w);
    MulLe(m + 1, u + r * g + g, w);
  }

  /** Starts of codes up to length n are multiples of Width(n). */
  lemma {:induction false} FilledUnits(c: counts, k: nat, n: nat) returns (u: nat)
    requires k <= n <= BMAX
    ensures Filled(c, k) == u * Width(n)
  {
    if k == 0 {
      u := 0;
    } else {
      var v := FilledUnits(c, k - 1, n);
      Pow2Add(n - k, BMAX - n);
      u := v + c[k] * Pow2(n - k);
      Units(v, c[k], Pow2(n - k), Width(n), Width(k));
    }
  }

  lemma Units(v: nat, a: nat, g: nat, w: nat, wide: nat)
    requires wide == g * w
    ensures v * w + a * wide == (v + a * g) * w
  {
    assert a * wide == a * g * w;
  }

  /** What a leaf says about the stream: its symbol, or that it starts with no code. */
  lemma ReadLeaf(cs: CodeSet, c: counts, s: seq<bit>, p: nat, nd: Node, ent: Huft)
    requires cs.Valid() && Completed(cs, c) && nd.Valid() && OnPath(s, p, nd)
    requires LeafOK(cs, c, nd, nd.At(SlotOf(s, p, nd)), ent) && p + nd.w + nd.q <= |s|
    ensures 1 <= ent.b <= nd.q
    ensures match Decode(s, p, cs.lens)
      case Some(sym) => SymbolEntry(cs, ent, sym) && cs.lens[sym] == nd.w + ent.b
      case None => FillerEntry(cs, ent)
  {
    var k: nat, r: nat :| Owns(c, nd, nd.At(SlotOf(s, p, nd)), k, r) && ent.b == k - nd.w && CodeEntry(cs, ent, k, r);
    OwnerOfStream(c, s, p, nd, k, r);
    if r < Count(cs.lens, |cs.lens|, k) {
      SymbolOwns(cs, c, s, p, k, r);
    } else {
      NobodyOwns(cs, c, s, p, k, r);
    }
  }

  lemma SymbolOwns(cs: CodeSet, c: counts, s: seq<bit>, p: nat, k: nat, r: nat)
    requires cs.Valid() && Completed(cs, c) && 1 <= k <= BMAX && r < Count(cs.lens, |cs.lens|, k)
    requires Start(c, k, r) <= Msb(s, p, BMAX) < Start(c, k, r) + Width(k) && p + k <= |s|
    ensures Decode(s, p, cs.lens) == Some(Nth(cs.lens, |cs.lens|, k, r))
  {
    var sym := Nth(cs.lens, |cs.lens|, k, r);
    StartsAgree(cs, c, k, r);
    MatchesPoint(s, p, cs.lens, sym);
    DecodeUnique(s, p, cs.lens, sym);
  }

  lemma NobodyOwns(cs: CodeSet, c: counts, s: seq<bit>, p: nat, k: nat, r: nat)
    requires cs.Valid() && Completed(cs, c)
    requires 1 <= k <= BMAX && Count(cs.lens, |cs.lens|, k) <= r < c[k]
    requires Start(c, k, r) <= Msb(s, p, BMAX) < Start(c, k, r) + Width(k)
    ensures Decode(s, p, cs.lens) == None
  {
    if Decode(s, p, cs.lens).Some? {
      var sym := Decode(s, p, cs.lens).value;
      var k' := cs.lens[sym];
      var r' := Count(cs.lens, sym, k');
      CountMono(cs.lens, sym, |cs.lens|, k');
      StartsAgree(cs, c, k', r');
      MatchesPoint(s, p, cs.lens, sym);
      OwnerUnique(c, k, r, k', r', Msb(s, p, BMAX));
    }
  }

  /** Completing the set does not move the codes of its symbols. */
  lemma StartsAgree(cs: CodeSet, c: counts, k: nat, r: nat)
    requires cs.Valid() && Completed(cs, c) && 1 <= k <= BMAX && r < c[k]
    ensures Start(c, k, r) == Start(Counts(cs.lens), k, r)
  {
    FilledAgree(c, Counts(cs.lens), k - 1);
  }

  lemma {:induction false} FilledAgree(c: counts, c': counts, k: nat)
    requires k <= BMAX && forall j :: 1 <= j <= k ==> c[j] == c'[j]
    ensures Filled(c, k) == Filled(c', k)
  {
    if k > 0 {
      FilledAgree(c, c', k - 1);
    }
  }
}
