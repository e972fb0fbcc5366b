/**
 The in-place quicksort of lib/libxc/qsort.c. The elements are blocks of es bytes; the
 pivot's equals are gathered in a block that grows and slides between the smaller and
 the greater elements.
 */
module Qsort {
  import opened Words

  type elem = seq<byte>

  type comparator = (elem, elem) -> int

  // ----- elements in memory

  /** Element k of es bytes each. */
  function Element(m: seq<byte>, es: nat, k: nat): elem
    requires k * es + es <= |m|
  {
    m[k * es..k * es + es]
  }

  /** The n elements that fill the memory. */
  ghost function View(m: seq<byte>, es: nat, n: nat): (v: seq<elem>)
    requires |m| == n * es
    ensures |v| == n
  {
    seq(n, k requires 0 <= k < n => assert k * es + es <= |m| by { MulSucc(k, n, es); } Element(m, es, k))
  }

  /** Blocks are the same or apart. */
  lemma BlocksApart(i: nat, j: nat, es: nat)
    ensures i < j ==> i * es + es <= j * es
    ensures i > j ==> j * es + es <= i * es
  {
    if i < j {
      MulSucc(i, j, es);
    } else if i > j {
      MulSucc(j, i, es);
    }
  }

  lemma BlockInside(i: nat, n: nat, es: nat)
    requires i < n
    ensures i * es + es <= n * es
  {
    MulSucc(i, n, es);
  }

  /** What is at q came to p, in blocks of es bytes. */
  ghost predicate Came(m: seq<byte>, m': seq<byte>, es: nat, p: nat, q: nat) {
    && |m'| == |m| && p + es <= |m| && q + es <= |m|
    && m'[p..p + es] == m[q..q + es]
  }

  lemma CameElement(m: seq<byte>, m': seq<byte>, es: nat, n: nat, i: nat, j: nat)
    requires |m| == n * es && i < n && j < n && Came(m, m', es, i * es, j * es)
    ensures View(m', es, n)[i] == View(m, es, n)[j]
  {
  }

  /** Blocks p, q and r hold what blocks r, p and q held; r may be q. */
  ghost predicate Exchanged(m: seq<byte>, m': seq<byte>, es: nat, p: nat, q: nat, r: nat) {
    && Came(m, m', es, p, r) && Came(m, m', es, q, p) && (r != q ==> Came(m, m', es, r, q))
    && forall x :: 0 <= x < |m| && !(p <= x < p + es) && !(q <= x < q + es) && !(r <= x < r + es) ==> m'[x] == m[x]
  }

  lemma CameMore(m: seq<byte>, was: seq<byte>, now: seq<byte>, t: nat, p: nat, q: nat)
    requires Came(m, was, t, p, q) && |now| == |m| && p + t < |m| && q + t < |m|
    requires now[p..p + t] == was[p..p + t] && now[p + t] == m[q + t]
    ensures Came(m, now, t + 1, p, q)
  {
    assert now[p..p + (t + 1)] == now[p..p + t] + [now[p + t]];
    assert m[q..q + (t + 1)] == m[q..q + t] + [m[q + t]];
  }

  lemma ExchangedNone(m: seq<byte>, p: nat, q: nat, r: nat)
    requires p <= |m| && q <= |m| && r <= |m|
    ensures Exchanged(m, m, 0, p, q, r)
  {
  }

  /** One more byte of each block. */
  lemma ExchangedMore(m: seq<byte>, was: seq<byte>, now: seq<byte>, t: nat, es: nat, p: nat, q: nat, r: nat)
    requires Exchanged(m, was, t, p, q, r) && t < es && p + es <= |m| && q + es <= |m| && r + es <= |m|
    requires (p == q == r) || ((p + es <= q || q + es <= p) && (p + es <= r || r + es <= p))
    requires q == r || q + es <= r || r + es <= q
    requires now == was[p + t := was[r + t]][r + t := was[q + t]][q + t := was[p + t]]
    ensures Exchanged(m, now, t + 1, p, q, r)
  {
    CameMore(m, was, now, t, p, r);
    CameMore(m, was, now, t, q, p);
    if r != q {
      CameMore(m, was, now, t, r, q);
    }
  }

  // ----- exchanges

  function Swap(v: seq<elem>, i: nat, j: nat): (r: seq<elem>)
    requires i < |v| && j < |v|
    ensures |r| == |v|
  {
    v[i := v[j]][j := v[i]]
  }

  /** i gets what was at k, k what was at j, and j what was at i. */
  function Rotate(v: seq<elem>, i: nat, j: nat, k: nat): (r: seq<elem>)
    requires i < |v| && j < |v| && k < |v|
    ensures |r| == |v|
  {
    v[i := v[k]][k := v[j]][j := v[i]]
  }

  lemma ExchangedView(m: seq<byte>, m': seq<byte>, es: nat, n: nat, i: nat, j: nat, k: nat)
    requires |m| == n * es && i < n && j < n && k < n && ((i != j && i != k) || j == k)
    requires Exchanged(m, m', es, i * es, j * es, k * es) && (j * es == k * es ==> j == k)
    ensures View(m', es, n) == Rotate(View(m, es, n), i, j, k)
  {
    CameElement(m, m', es, n, i, k);
    CameElement(m, m', es, n, j, i);
    if j != k {
      CameElement(m, m', es, n, k, j);
    }
    forall h | 0 <= h < n && h != i && h != j && h != k
      ensures View(m', es, n)[h] == View(m, es, n)[h]
    {
      BlockInside(h, n, es);
      BlocksApart(h, i, es);
      BlocksApart(h, j, es);
      BlocksApart(h, k, es);
      CameElement(m, m', es, n, h, h);
    }
  }

  /** Blocks of es bytes at p and q are the same block or apart. */
  predicate Blocks(p: nat, q: nat, es: nat) {
    p == q || p + es <= q || q + es <= p
  }

  /** qstexc: p gets what is at r, r what is at q, and q what was at p, byte by byte. */
  method Qstexc(mem: array<byte>, es: nat, p: nat, q: nat, r: nat)
    requires p + es <= mem.Length && q + es <= mem.Length && r + es <= mem.Length
    requires Blocks(p, q, es) && Blocks(p, r, es) && Blocks(q, r, es) && p != q && p != r
    modifies mem
    ensures Exchanged(old(mem[..]), mem[..], es, p, q, r)
  {
    hide Exchanged, Came;
    ghost var m := mem[..];
    ExchangedNone(m, p, q, r);
    var n := 0;
    while n < es
      invariant 0 <= n <= es && Exchanged(m, mem[..], n, p, q, r)
    {
      ghost var was := mem[..];
      var c := mem[p + n];
      mem[p + n] := mem[r + n];
      mem[r + n] := mem[q + n];
      mem[q + n] := c;
      assert mem[..] == was[p + n := was[r + n]][r + n := was[q + n]][q + n := was[p + n]];
      ExchangedMore(m, was, mem[..], n, es, p, q, r);
      n := n + 1;
    }
  }

  /** qsexc: the blocks at p and q change places, byte by byte; they may be the same. */
  method Qsexc(mem: array<byte>, es: nat, p: nat, q: nat)
    requires p + es <= mem.Length && q + es <= mem.Length && Blocks(p, q, es)
    modifies mem
    ensures Exchanged(old(mem[..]), mem[..], es, p, q, q)
  {
    hide Exchanged, Came;
    ghost var m := mem[..];
    ExchangedNone(m, p, q, q);
    var n := 0;
    while n < es
      invariant 0 <= n <= es && Exchanged(m, mem[..], n, p, q, q)
    {
      ghost var was := mem[..];
      var c := mem[p + n];
      mem[p + n] := mem[q + n];
      mem[q + n] := c;
      assert mem[..] == was[p + n := was[q + n]][q + n := was[q + n]][q + n := was[p + n]];
      ExchangedMore(m, was, mem[..], n, es, p, q, q);
      n := n + 1;
    }
  }

  lemma BlocksOf(i: nat, j: nat, es: nat)
    requires es >= 1
    ensures Blocks(i * es, j * es, es) && (i * es == j * es <==> i == j)
  {
    BlocksApart(i, j, es);
  }

  /** Three elements change places. */
  method RotateElements(mem: array<byte>, es: nat, i: nat, j: nat, k: nat, ghost n: nat)
    requires es >= 1 && mem.Length == n * es && i < n && j < n && k < n && i != j && i != k
    modifies mem
    ensures View(mem[..], es, n) == Rotate(old(View(mem[..], es, n)), i, j, k)
  {
    hide Exchanged, View, Rotate, Blocks;
    BlockInside(i, n, es);
    BlockInside(j, n, es);
    BlockInside(k, n, es);
    BlocksOf(i, j, es);
    BlocksOf(i, k, es);
    BlocksOf(j, k, es);
    ghost var m := mem[..];
    Qstexc(mem, es, i * es, j * es, k * es);
    ExchangedView(m, mem[..], es, n, i, j, k);
  }

  /** Two elements change places. */
  method SwapElements(mem: array<byte>, es: nat, i: nat, j: nat, ghost n: nat)
    requires es >= 1 && mem.Length == n * es && i < n && j < n
    modifies mem
    ensures View(mem[..], es, n) == Swap(old(View(mem[..], es, n)), i, j)
  {
    hide Exchanged, View, Rotate, Swap, Blocks;
    BlockInside(i, n, es);
    BlockInside(j, n, es);
    BlocksOf(i, j, es);
    ghost var m := mem[..];
    Qsexc(mem, es, i * es, j * es);
    ExchangedView(m, mem[..], es, n, i, j, j);
    SwapRotates(View(m, es, n), i, j);
  }

  lemma SwapRotates(v: seq<elem>, i: nat, j: nat)
    requires i < |v| && j < |v|
    ensures Swap(v, i, j) == Rotate(v, i, j, j)
  {
  }

  // ----- comparators and permutations

  /** What the comparator must be: a total preorder, as a sign. */
  ghost predicate TotalPreorder(cmp: comparator) {
    && (forall x, y :: cmp(x, y) < 0 <==> cmp(y, x) > 0)
    && (forall x, y, z :: cmp(x, y) <= 0 && cmp(y, z) <= 0 ==> cmp(x, z) <= 0)
  }

  /** Elements that are equal to the pivot compare like the pivot. */
  lemma ComparesLike(cmp: comparator, x: elem, q: elem, p: elem)
    requires TotalPreorder(cmp) && cmp(q, p) == 0
    ensures cmp(x, q) < 0 <==> cmp(x, p) < 0
    ensures cmp(x, q) > 0 <==> cmp(x, p) > 0
    ensures cmp(q, x) > 0 <==> cmp(x, p) < 0
    ensures cmp(q, x) < 0 <==> cmp(x, p) > 0
  {
  }

  /** v' has the elements of v, and differs from it between lo and hi only. */
  ghost predicate Permuted(v: seq<elem>, v': seq<elem>, lo: nat, hi: nat) {
    && |v'| == |v| && lo <= hi <= |v| && multiset(v') == multiset(v)
    && v'[..lo] == v[..lo] && v'[hi..] == v[hi..]
  }

  lemma SwapMultiset(v: seq<elem>, i: nat, j: nat)
    requires i < |v| && j < |v|
    ensures multiset(Swap(v, i, j)) == multiset(v)
  {
  }

  lemma SwapPermuted(v: seq<elem>, v': seq<elem>, i: nat, j: nat, lo: nat, hi: nat)
    requires Permuted(v, v', lo, hi) && lo <= i < hi && lo <= j < hi
    ensures Permuted(v, Swap(v', i, j), lo, hi)
  {
    SwapMultiset(v', i, j);
  }

  lemma RotatePermuted(v: seq<elem>, v': seq<elem>, i: nat, j: nat, k: nat, lo: nat, hi: nat)
    requires Permuted(v, v', lo, hi) && lo <= i < hi && lo <= j < hi && lo <= k < hi && i != j && i != k
    ensures Permuted(v, Rotate(v', i, j, k), lo, hi)
  {
    SwapPermuted(v, v', i, k, lo, hi);
    SwapPermuted(v, Swap(v', i, k), j, k, lo, hi);
    assert Rotate(v', i, j, k) == Swap(Swap(v', i, k), j, k);
  }

  lemma PermutedTrans(u: seq<elem>, v: seq<elem>, w: seq<elem>, lo: nat, a: nat, b: nat, hi: nat)
    requires Permuted(u, v, lo, hi) && Permuted(v, w, a, b) && lo <= a && b <= hi
    ensures Permuted(u, w, lo, hi)
  {
    assert w[..lo] == w[..a][..lo] && v[..lo] == v[..a][..lo];
    assert w[hi..] == w[b..][hi - b..] && v[hi..] == v[b..][hi - b..];
  }

  /** What is in the range was in the range. */
  lemma FromRange(v: seq<elem>, v': seq<elem>, lo: nat, hi: nat, k: nat) returns (h: nat)
    requires Permuted(v, v', lo, hi) && lo <= k < hi
    ensures lo <= h < hi && v[h] == v'[k]
  {
    assert v == v[..lo] + v[lo..hi] + v[hi..];
    assert v' == v'[..lo] + v'[lo..hi] + v'[hi..];
    assert multiset(v) == multiset(v[..lo]) + multiset(v[lo..hi]) + multiset(v[hi..]);
    assert multiset(v') == multiset(v'[..lo]) + multiset(v'[lo..hi]) + multiset(v'[hi..]);
    assert v'[k] in v'[lo..hi];
    assert multiset(v)[v'[k]] == multiset(v')[v'[k]];
    assert multiset(v[lo..hi])[v'[k]] == multiset(v'[lo..hi])[v'[k]] > 0;
    assert v'[k] in v[lo..hi];
    h :| lo <= h < hi && v[h] == v'[k];
  }

  // ----- the partition

  /** Smaller, unseen, equal, unseen and greater elements. */
  ghost predicate Parts(cmp: comparator, v: seq<elem>, p: elem, lo: nat, i: nat, lp: nat, hp: nat, j: nat, hi: nat) {
    && lo <= i <= lp <= hp <= j < hi <= |v|
    && (forall k :: lo <= k < i ==> cmp(v[k], p) < 0)
    && (forall k :: lp <= k <= hp ==> cmp(v[k], p) == 0)
    && (forall k :: j < k < hi ==> cmp(v[k], p) > 0)
  }

  /** The partition's state on the way from v0. */
  ghost predicate Sifted(cmp: comparator, v0: seq<elem>, v: seq<elem>, p: elem, lo: nat, i: nat, lp: nat, hp: nat,
                         j: nat, hi: nat) {
    TotalPreorder(cmp) && Permuted(v0, v, lo, hi) && Parts(cmp, v, p, lo, i, lp, hp, j, hi)
  }

  lemma SiftedBounds(cmp: comparator, v0: seq<elem>, v: seq<elem>, p: elem, lo: nat, i: nat, lp: nat, hp: nat, j: nat,
                     hi: nat)
    requires Sifted(cmp, v0, v, p, lo, i, lp, hp, j, hi)
    ensures lo <= i <= lp <= hp <= j < hi <= |v|
  {
  }

  /** What the next element of the left part goes to. */
  lemma LeftStep(cmp: comparator, v0: seq<elem>, v: seq<elem>, p: elem, lo: nat, i: nat, lp: nat, hp: nat, j: nat,
                 hi: nat)
    requires Sifted(cmp, v0, v, p, lo, i, lp, hp, j, hi) && i < lp
    ensures lp < |v| && lo <= i < lp <= hp <= j < hi <= |v|
    ensures cmp(v[i], v[lp]) == 0 ==> Sifted(cmp, v0, Swap(v, i, lp - 1), p, lo, i, lp - 1, hp, j, hi)
    ensures cmp(v[i], v[lp]) < 0 ==> Sifted(cmp, v0, v, p, lo, i + 1, lp, hp, j, hi)
    ensures cmp(v[i], v[lp]) > 0 ==> cmp(v[i], p) > 0
  {
    hide Permuted;
    var c := cmp(v[i], v[lp]);
    ComparesLike(cmp, v[i], v[lp], p);
    if c == 0 {
      SwapPermuted(v0, v, i, lp - 1, lo, hi);
    }
  }

  /** The first unseen element of the left part is greater than the pivot, if there is one. */
  ghost predicate Stuck(cmp: comparator, v: seq<elem>, p: elem, i: nat, lp: nat) {
    i < lp ==> i < |v| && cmp(v[i], p) > 0
  }

  /** The last element of the right part equals the pivot, or stays. */
  lemma RightStep(cmp: comparator, v0: seq<elem>, v: seq<elem>, p: elem, lo: nat, i: nat, lp: nat, hp: nat, j: nat,
                  hi: nat)
    requires Sifted(cmp, v0, v, p, lo, i, lp, hp, j, hi) && hp < j && Stuck(cmp, v, p, i, lp)
    ensures j < |v| && lo <= i <= lp <= hp < j < hi <= |v|
    ensures cmp(v[hp], v[j]) == 0 ==>
      Sifted(cmp, v0, Swap(v, hp + 1, j), p, lo, i, lp, hp + 1, j, hi) && Stuck(cmp, Swap(v, hp + 1, j), p, i, lp)
    ensures cmp(v[hp], v[j]) < 0 ==> Sifted(cmp, v0, v, p, lo, i, lp, hp, j - 1, hi)
  {
    hide Permuted, TotalPreorder;
    ComparesLike(cmp, v[j], v[hp], p);
    if cmp(v[hp], v[j]) == 0 {
      SwapPermuted(v0, v, hp + 1, j, lo, hi);
    }
  }

  /** A smaller element of the right part: the equals slide, or two elements change sides. */
  lemma CrossStep(cmp: comparator, v0: seq<elem>, v: seq<elem>, p: elem, lo: nat, i: nat, lp: nat, hp: nat, j: nat,
                  hi: nat)
    requires Sifted(cmp, v0, v, p, lo, i, lp, hp, j, hi) && hp < j < |v| && cmp(v[hp], v[j]) > 0
    requires Stuck(cmp, v, p, i, lp)
    ensures lo <= i <= lp <= hp < j < hi <= |v|
    ensures i == lp ==> Sifted(cmp, v0, Rotate(v, i, hp + 1, j), p, lo, i + 1, lp + 1, hp + 1, j, hi)
    ensures i < lp ==> Sifted(cmp, v0, Swap(v, i, j), p, lo, i + 1, lp, hp, j - 1, hi)
  {
    hide Permuted, TotalPreorder;
    ComparesLike(cmp, v[j], v[hp], p);
    if i == lp {
      RotatePermuted(v0, v, i, hp + 1, j, lo, hi);
    } else {
      SwapPermuted(v0, v, i, j, lo, hi);
    }
  }

  /** The right part is done: the equals slide to the left, for a greater element. */
  lemma SlideStep(cmp: comparator, v0: seq<elem>, v: seq<elem>, p: elem, lo: nat, i: nat, lp: nat, hp: nat, j: nat,
                  hi: nat)
    requires Sifted(cmp, v0, v, p, lo, i, lp, hp, j, hi) && j == hp && i < lp && Stuck(cmp, v, p, i, lp)
    ensures lo <= i < lp <= hp == j < hi <= |v|
    ensures Sifted(cmp, v0, Rotate(v, j, lp - 1, i), p, lo, i, lp - 1, hp - 1, hp - 1, hi)
  {
    hide Permuted;
    RotatePermuted(v0, v, j, lp - 1, i, lo, hi);
  }

  method Compare(mem: array<byte>, es: nat, i: nat, j: nat, cmp: comparator, ghost n: nat) returns (c: int)
    requires mem.Length == n * es && i < n && j < n
    ensures c == cmp(View(mem[..], es, n)[i], View(mem[..], es, n)[j])
  {
    BlockInside(i, n, es);
    BlockInside(j, n, es);
    assert mem[i * es..i * es + es] == mem[..][i * es..i * es + es];
    assert mem[j * es..j * es + es] == mem[..][j * es..j * es + es];
    c := cmp(mem[i * es..i * es + es], mem[j * es..j * es + es]);
  }

  /** The code at the label `loop`: back to the left part (again), or no unseen element on the right. */
  method FromRight(mem: array<byte>, es: nat, i0: nat, lp0: nat, hp0: nat, j0: nat, cmp: comparator,
                   ghost n: nat, ghost v0: seq<elem>, ghost p: elem, ghost lo: nat, ghost hi: nat)
      returns (again: bool, i: nat, lp: nat, hp: nat, j: nat)
    requires es >= 1 && mem.Length == n * es && hi <= n
    requires Sifted(cmp, v0, View(mem[..], es, n), p, lo, i0, lp0, hp0, j0, hi)
    requires Stuck(cmp, View(mem[..], es, n), p, i0, lp0)
    modifies mem
    ensures Sifted(cmp, v0, View(mem[..], es, n), p, lo, i, lp, hp, j, hi)
    ensures lp - i + (j - hp) <= lp0 - i0 + (j0 - hp0) - (if again then 1 else 0)
    ensures !again ==> j == hp && Stuck(cmp, View(mem[..], es, n), p, i, lp)
  {
    hide Sifted, View, Stuck, TotalPreorder, Swap, Rotate;
    i, lp, hp, j := i0, lp0, hp0, j0;
    SiftedBounds(cmp, v0, View(mem[..], es, n), p, lo, i, lp, hp, j, hi);
    while j > hp
      invariant Sifted(cmp, v0, View(mem[..], es, n), p, lo, i, lp, hp, j, hi)
      invariant Stuck(cmp, View(mem[..], es, n), p, i, lp) && hp <= j && lp - i + (j - hp) <= lp0 - i0 + (j0 - hp0)
      decreases j - hp
    {
      RightStep(cmp, v0, View(mem[..], es, n), p, lo, i, lp, hp, j, hi);
      var c := Compare(mem, es, hp, j, cmp, n);
      if c == 0 {
        hp := hp + 1;
        SwapElements(mem, es, hp, j, n);
        continue;
      }
      if c > 0 {
        CrossStep(cmp, v0, View(mem[..], es, n), p, lo, i, lp, hp, j, hi);
        if i == lp {
          hp := hp + 1;
          RotateElements(mem, es, i, hp, j, n);
          lp := lp + 1;
          i := lp;
          StuckNot(cmp, View(mem[..], es, n), p, i, lp);
          continue;
        }
        SwapElements(mem, es, i, j, n);
        j := j - 1;
        i := i + 1;
        return true, i, lp, hp, j;
      }
      j := j - 1;
    }
    SiftedBounds(cmp, v0, View(mem[..], es, n), p, lo, i, lp, hp, j, hi);
    again := false;
  }

  /** The pivot is the middle element; in the end no element is unseen. */
  method Partition(mem: array<byte>, es: nat, lo: nat, hi: nat, cmp: comparator, ghost n: nat)
      returns (lp: nat, hp: nat, ghost p: elem)
    requires TotalPreorder(cmp) && es >= 1 && mem.Length == n * es && lo + 1 < hi <= n
    modifies mem
    ensures Sifted(cmp, old(View(mem[..], es, n)), View(mem[..], es, n), p, lo, lp, lp, hp, hp, hi)
  {
    hide Sifted, View, Stuck, TotalPreorder, Swap, Rotate;
    ghost var v0 := View(mem[..], es, n);
    lp := lo + (hi - lo) / 2;
    hp := lp;
    p := v0[lp];
    var i: nat, j: nat := lo, hi - 1;
    SiftedStart(cmp, v0, lo, lp, hi);
    while true
      invariant Sifted(cmp, v0, View(mem[..], es, n), p, lo, i, lp, hp, j, hi)
      decreases lp - i + (j - hp)
    {
      SiftedBounds(cmp, v0, View(mem[..], es, n), p, lo, i, lp, hp, j, hi);
      StuckNot(cmp, View(mem[..], es, n), p, i, lp);
      if i < lp {
        LeftStep(cmp, v0, View(mem[..], es, n), p, lo, i, lp, hp, j, hi);
        var c := Compare(mem, es, i, lp, cmp, n);
        if c == 0 {
          lp := lp - 1;
          SwapElements(mem, es, i, lp, n);
          continue;
        }
        if c < 0 {
          i := i + 1;
          continue;
        }
      }
      var again;
      again, i, lp, hp, j := FromRight(mem, es, i, lp, hp, j, cmp, n, v0, p, lo, hi);
      if again {
        continue;
      }
      SiftedBounds(cmp, v0, View(mem[..], es, n), p, lo, i, lp, hp, j, hi);
      if i == lp {
        return;
      }
      SlideStep(cmp, v0, View(mem[..], es, n), p, lo, i, lp, hp, j, hi);
      lp := lp - 1;
      RotateElements(mem, es, j, lp, i, n);
      hp := hp - 1;
      j := hp;
    }
  }

  lemma SiftedStart(cmp: comparator, v: seq<elem>, lo: nat, mid: nat, hi: nat)
    requires TotalPreorder(cmp) && lo <= mid < hi <= |v|
    ensures Sifted(cmp, v, v, v[mid], lo, lo, mid, mid, hi - 1, hi)
  {
  }

  lemma StuckNot(cmp: comparator, v: seq<elem>, p: elem, i: nat, lp: nat)
    ensures i >= lp ==> Stuck(cmp, v, p, i, lp)
    ensures i < lp && i < |v| && cmp(v[i], p) > 0 ==> Stuck(cmp, v, p, i, lp)
  {
  }

  // ----- sorting

  ghost predicate Sorted(cmp: comparator, v: seq<elem>, lo: nat, hi: nat)
    requires lo <= hi <= |v|
  {
    forall x, y :: lo <= x < y < hi ==> cmp(v[x], v[y]) <= 0
  }

  /** Between lo and hi, all but the range from a to l is in its final order. */
  ghost predicate Placed(cmp: comparator, v: seq<elem>, lo: nat, a: nat, l: nat, hi: nat) {
    && lo <= a <= l <= hi <= |v|
    && forall x, y :: lo <= x < y < hi && (x < a || l <= y) ==> cmp(v[x], v[y]) <= 0
  }

  /** Permuting the rest keeps what is in place. */
  lemma PlacedPermuted(cmp: comparator, v: seq<elem>, v': seq<elem>, lo: nat, a: nat, l: nat, hi: nat)
    requires Placed(cmp, v, lo, a, l, hi) && Permuted(v, v', a, l)
    ensures Placed(cmp, v', lo, a, l, hi)
  {
    forall x, y | lo <= x < y < hi && (x < a || l <= y)
      ensures cmp(v'[x], v'[y]) <= 0
    {
      assert forall k :: 0 <= k < a ==> v'[k] == v'[..a][k] == v[k];
      assert forall k :: l <= k < |v| ==> v'[k] == v'[l..][k - l] == v[k];
      var x', y' := x, y;
      if a <= x < l {
        x' := FromRange(v, v', a, l, x);
      }
      if a <= y < l {
        y' := FromRange(v, v', a, l, y);
      }
      assert v[x'] == v'[x] && v[y'] == v'[y];
    }
  }

  /** Smaller, equal and greater elements, with all seen. */
  ghost predicate Split(cmp: comparator, v: seq<elem>, p: elem, a: nat, lp: nat, hp: nat, l: nat) {
    && a <= lp <= hp < l <= |v|
    && (forall k :: a <= k < lp ==> cmp(v[k], p) < 0)
    && (forall k :: lp <= k <= hp ==> cmp(v[k], p) == 0)
    && (forall k :: hp < k < l ==> cmp(v[k], p) > 0)
  }

  lemma SplitPermuted(cmp: comparator, v: seq<elem>, v': seq<elem>, p: elem, a: nat, lp: nat, hp: nat, l: nat, x: nat,
                      y: nat)
    requires Split(cmp, v, p, a, lp, hp, l) && Permuted(v, v', x, y) && ((x, y) == (a, lp) || (x, y) == (hp + 1, l))
    ensures Split(cmp, v', p, a, lp, hp, l)
  {
    assert forall k :: 0 <= k < x ==> v'[k] == v'[..x][k] == v[k];
    assert forall k :: y <= k < |v| ==> v'[k] == v'[y..][k - y] == v[k];
    forall k | x <= k < y
      ensures x < y ==> exists h :: x <= h < y && v[h] == v'[k]
    {
      var h := FromRange(v, v', x, y, k);
    }
  }

  /** Once the right part is sorted, everything from lp on is in place. */
  lemma RightDone(cmp: comparator, v: seq<elem>, p: elem, lo: nat, a: nat, lp: nat, hp: nat, l: nat, hi: nat)
    requires TotalPreorder(cmp) && Placed(cmp, v, lo, a, l, hi) && Split(cmp, v, p, a, lp, hp, l)
    requires Sorted(cmp, v, hp + 1, l)
    ensures Placed(cmp, v, lo, a, lp, hi)
  {
    forall x, y | lo <= x < y < hi && (x < a || lp <= y)
      ensures cmp(v[x], v[y]) <= 0
    {
      if a <= x && y < l && !(hp < x) {
        assert cmp(v[x], p) <= 0 && cmp(p, v[y]) <= 0;
      }
    }
  }

  lemma LeftDone(cmp: comparator, v: seq<elem>, p: elem, lo: nat, a: nat, lp: nat, hp: nat, l: nat, hi: nat)
    requires TotalPreorder(cmp) && Placed(cmp, v, lo, a, l, hi) && Split(cmp, v, p, a, lp, hp, l)
    requires Sorted(cmp, v, a, lp)
    ensures Placed(cmp, v, lo, hp + 1, l, hi)
  {
    forall x, y | lo <= x < y < hi && (x < hp + 1 || l <= y)
      ensures cmp(v[x], v[y]) <= 0
    {
      if a <= x && y < l && !(y < lp) {
        assert cmp(v[x], p) <= 0 && cmp(p, v[y]) <= 0;
      }
    }
  }

  lemma SiftedDone(cmp: comparator, v0: seq<elem>, v: seq<elem>, p: elem, a: nat, lp: nat, hp: nat, l: nat)
    requires Sifted(cmp, v0, v, p, a, lp, lp, hp, hp, l)
    ensures a <= lp <= hp < l <= |v| && Split(cmp, v, p, a, lp, hp, l) && Permuted(v0, v, a, l)
  {
  }

  /** A part that is no larger than the other needs one level of calls less. */
  lemma SmallerPart(m: nat, rest: nat, n: nat)
    requires m + rest < n && m <= rest && n > 1
    ensures Log2(m) + 1 <= Log2(n)
  {
    Log2Mono(m, n / 2);
  }

  /** The elements from lo to hi - 1 were sorted, and the others left alone. */
  ghost predicate SortedFrom(cmp: comparator, v: seq<elem>, v': seq<elem>, lo: nat, hi: nat) {
    Permuted(v, v', lo, hi) && Sorted(cmp, v', lo, hi)
  }

  /** The state at the top of the loop of qs1. */
  ghost predicate Sorting(cmp: comparator, v0: seq<elem>, v: seq<elem>, lo: nat, a: nat, l: nat, hi: nat) {
    TotalPreorder(cmp) && Permuted(v0, v, lo, hi) && Placed(cmp, v, lo, a, l, hi)
  }

  lemma SortingEnd(cmp: comparator, v0: seq<elem>, v: seq<elem>, lo: nat, a: nat, l: nat, hi: nat)
    requires Sorting(cmp, v0, v, lo, a, l, hi) && l - a <= 1
    ensures SortedFrom(cmp, v0, v, lo, hi)
  {
  }

  /** Partitioning, and then sorting the right part. */
  lemma SortingRight(cmp: comparator, v0: seq<elem>, v: seq<elem>, u: seq<elem>, w: seq<elem>, p: elem,
                     lo: nat, a: nat, lp: nat, hp: nat, l: nat, hi: nat)
    requires Sorting(cmp, v0, v, lo, a, l, hi) && Sifted(cmp, v, u, p, a, lp, lp, hp, hp, l)
    requires a <= lp && hp < l && SortedFrom(cmp, u, w, hp + 1, l)
    ensures Sorting(cmp, v0, w, lo, a, lp, hi)
  {
    hide TotalPreorder, Permuted, Placed, Split, Sorted, Sifted;
    SiftedDone(cmp, v, u, p, a, lp, hp, l);
    PlacedBounds(cmp, v, lo, a, l, hi);
    PlacedPermuted(cmp, v, u, lo, a, l, hi);
    PermutedTrans(v0, v, u, lo, a, l, hi);
    PermutedTrans(v0, u, w, lo, hp + 1, l, hi);
    PlacedWider(cmp, u, w, lo, a, hp + 1, l, l, hi);
    SplitPermuted(cmp, u, w, p, a, lp, hp, l, hp + 1, l);
    RightDone(cmp, w, p, lo, a, lp, hp, l, hi);
  }

  /** Partitioning, and then sorting the left part. */
  lemma SortingLeft(cmp: comparator, v0: seq<elem>, v: seq<elem>, u: seq<elem>, w: seq<elem>, p: elem,
                    lo: nat, a: nat, lp: nat, hp: nat, l: nat, hi: nat)
    requires Sorting(cmp, v0, v, lo, a, l, hi) && Sifted(cmp, v, u, p, a, lp, lp, hp, hp, l)
    requires a <= lp && hp < l && SortedFrom(cmp, u, w, a, lp)
    ensures Sorting(cmp, v0, w, lo, hp + 1, l, hi)
  {
    hide TotalPreorder, Permuted, Placed, Split, Sorted, Sifted;
    SiftedDone(cmp, v, u, p, a, lp, hp, l);
    PlacedBounds(cmp, v, lo, a, l, hi);
    PlacedPermuted(cmp, v, u, lo, a, l, hi);
    PermutedTrans(v0, v, u, lo, a, l, hi);
    PermutedTrans(v0, u, w, lo, a, lp, hi);
    PlacedWider(cmp, u, w, lo, a, a, lp, l, hi);
    SplitPermuted(cmp, u, w, p, a, lp, hp, l, a, lp);
    LeftDone(cmp, w, p, lo, a, lp, hp, l, hi);
  }

  lemma PlacedBounds(cmp: comparator, v: seq<elem>, lo: nat, a: nat, l: nat, hi: nat)
    requires Placed(cmp, v, lo, a, l, hi)
    ensures lo <= a <= l <= hi <= |v|
  {
  }

  /** A permutation of a part of the rest. */
  lemma PlacedWider(cmp: comparator, v: seq<elem>, v': seq<elem>, lo: nat, a: nat, x: nat, y: nat, l: nat, hi: nat)
    requires Placed(cmp, v, lo, a, l, hi) && Permuted(v, v', x, y) && a <= x && y <= l
    ensures Placed(cmp, v', lo, a, l, hi)
  {
    hide Placed;
    PlacedBounds(cmp, v, lo, a, l, hi);
    PermutedRefl(v, a, l);
    PermutedTrans(v, v, v', a, x, y, l);
    PlacedPermuted(cmp, v, v', lo, a, l, hi);
  }

  lemma PermutedRefl(v: seq<elem>, lo: nat, hi: nat)
    requires lo <= hi <= |v|
    ensures Permuted(v, v, lo, hi)
  {
  }

  /**
   Recurs on the smaller part, loops on the larger. Below this call, calls nest at most
   `room` deep: that they end is proved by counting down the room, with nothing else.
   */
  method Qs1(mem: array<byte>, es: nat, lo: nat, hi: nat, cmp: comparator, ghost n: nat, ghost room: nat)
    requires TotalPreorder(cmp) && es >= 1 && mem.Length == n * es && lo <= hi <= n
    requires Log2(hi - lo) <= room
    modifies mem
    ensures SortedFrom(cmp, old(View(mem[..], es, n)), View(mem[..], es, n), lo, hi)
    decreases room
  {
    hide TotalPreorder, View, Sorting, SortedFrom, Sifted, Log2;
    var a, l := lo, hi;
    ghost var v0 := View(mem[..], es, n);
    SortingStart(cmp, v0, lo, hi);
    while l - a > 1
      invariant lo <= a <= l <= hi && Sorting(cmp, v0, View(mem[..], es, n), lo, a, l, hi)
      decreases l - a
    {
      ghost var v := View(mem[..], es, n);
      var lp, hp;
      ghost var p;
      lp, hp, p := Partition(mem, es, a, l, cmp, n);
      ghost var u := View(mem[..], es, n);
      SiftedBounds(cmp, v, u, p, a, lp, lp, hp, hp, l);
      if lp - a >= l - hp {
        SmallerPart(l - (hp + 1), lp - a, hi - lo);
        Qs1(mem, es, hp + 1, l, cmp, n, room - 1);
        SortingRight(cmp, v0, v, u, View(mem[..], es, n), p, lo, a, lp, hp, l, hi);
        l := lp;
      } else {
        SmallerPart(lp - a, l - (hp + 1), hi - lo);
        Qs1(mem, es, a, lp, cmp, n, room - 1);
        SortingLeft(cmp, v0, v, u, View(mem[..], es, n), p, lo, a, lp, hp, l, hi);
        a := hp + 1;
      }
    }
    SortingEnd(cmp, v0, View(mem[..], es, n), lo, a, l, hi);
  }

  lemma SortingStart(cmp: comparator, v: seq<elem>, lo: nat, hi: nat)
    requires TotalPreorder(cmp) && lo <= hi <= |v|
    ensures Sorting(cmp, v, v, lo, lo, hi, hi)
  {
  }

  /** qsort: sorts n elements of es bytes each, with room for the logarithm of n nested calls. */
  method Qsort(mem: array<byte>, n: nat, es: nat, cmp: comparator)
    requires TotalPreorder(cmp) && es >= 1 && mem.Length == n * es
    modifies mem
    ensures Sorted(cmp, View(mem[..], es, n), 0, n)
    ensures multiset(View(mem[..], es, n)) == multiset(old(View(mem[..], es, n)))
  {
    Qs1(mem, es, 0, n, cmp, n, Log2(n));
  }
}
