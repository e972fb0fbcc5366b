/**
 The first half of huft_build (boot/zBoot/inflate.c): counting lengths, bounding the
 table size, checking and completing the code set, and sorting symbols by length.
 */
module HuftPrepare {
  import opened Words
  import opened Stream
  import opened Canonical
  import opened Geometry

  function MaxLen(lens: seq<nat>, n: nat): (g: nat)
    requires n <= |lens|
    ensures forall i :: 0 <= i < n ==> lens[i] <= g
    ensures g == 0 || exists i :: 0 <= i < n && lens[i] == g
  {
    if n == 0 then 0
    else if lens[n - 1] > MaxLen(lens, n - 1) then lens[n - 1]
    else MaxLen(lens, n - 1)
  }

  ghost predicate AllZero(lens: seq<nat>) {
    forall i :: 0 <= i < |lens| ==> lens[i] == 0
  }

  /** Number of codes of lengths 1 to k. */
  function Total(c: counts, k: nat): nat
    requires k <= BMAX
  {
    if k == 0 then 0 else Total(c, k - 1) + c[k]
  }

  lemma {:induction false} CountPositive(lens: seq<nat>, n: nat, k: nat)
    requires n <= |lens|
    ensures Count(lens, n, k) > 0 <==> exists i :: 0 <= i < n && lens[i] == k
    ensures Count(lens, n, k) == n <==> forall i :: 0 <= i < n ==> lens[i] == k
  {
    if n > 0 {
      CountPositive(lens, n - 1, k);
    }
  }

  method CountLengths(lens: seq<nat>) returns (c: array<nat>)
    requires |lens| >= 1 && Lengths(lens)
    ensures fresh(c) && c.Length == BMAX + 1 && c[..] == Counts(lens)
  {
    c := new nat[BMAX + 1](_ => 0);
    var i := 0;
    while i < |lens|
      invariant 0 <= i <= |lens|
      invariant forall k :: 0 <= k <= BMAX ==> c[k] == Count(lens, i, k)
    {
      c[lens[i]] := c[lens[i]] + 1;
      i := i + 1;
    }
  }

  /** Least and greatest length in use, and the table size bounded by them. */
  method FindBounds(c: array<nat>, m0: nat) returns (l: nat, j: nat, g: nat)
    requires c.Length == BMAX + 1 && exists k :: 1 <= k <= BMAX && c[k] > 0
    ensures 1 <= j <= g <= BMAX && c[j] > 0 && c[g] > 0
    ensures forall k :: 1 <= k <= BMAX && c[k] > 0 ==> j <= k <= g
    ensures l == if m0 < j then j else if m0 > g then g else m0
  {
    l := m0;
    j := 1;
    while j <= BMAX && c[j] == 0
      invariant 1 <= j <= BMAX + 1
      invariant forall k :: 1 <= k < j ==> c[k] == 0
    {
      j := j + 1;
    }
    if l < j {
      l := j;
    }
    g := BMAX;
    while g > 0 && c[g] == 0
      invariant 0 <= g <= BMAX
      invariant forall k :: g < k <= BMAX ==> c[k] == 0
    {
      g := g - 1;
    }
    if l > g {
      l := g;
    }
  }

  lemma {:induction false} FilledFlat(c: counts, a: nat, b: nat)
    requires a <= b <= BMAX && forall k :: a < k <= b ==> c[k] == 0
    ensures Filled(c, b) == Filled(c, a)
  {
    if a < b {
      FilledFlat(c, a, b - 1);
    }
  }

  /** y code words of length k are free when the shorter codes are placed. */
  ghost predicate Free(c: counts, y: int, k: nat)
    requires 1 <= k <= BMAX
  {
    y * Width(k) == ALL - Filled(c, k - 1)
  }

  lemma FreeStart(c: counts, j: nat)
    requires 1 <= j <= BMAX && forall k :: 1 <= k < j ==> c[k] == 0
    ensures Free(c, Pow2(j), j)
  {
    FilledZero(c, j - 1);
    Pow2Add(j, BMAX - j);
  }

  /** Placing the codes of length k, and doubling for the next length. */
  lemma FreeStep(c: counts, y: int, k: nat)
    requires 1 <= k <= BMAX && Free(c, y, k)
    ensures (y - c[k]) * Width(k) == ALL - Filled(c, k)
    ensures k < BMAX ==> Free(c, 2 * (y - c[k]), k + 1)
  {
    var w := Width(k);
    SubMul(y, c[k], w);
    if k < BMAX {
      WidthHalves(k + 1);
      Double(y - c[k], w, Width(k + 1));
    }
  }

  lemma SubMul(y: int, a: int, w: int)
    ensures (y - a) * w == y * w - a * w
  {
  }

  lemma Double(y: int, w: nat, half: nat)
    requires w == 2 * half
    ensures 2 * y * half == y * w
  {
  }

  lemma SignOf(y: int, w: nat, v: int)
    requires w > 0 && y * w == v
    ensures y < 0 <==> v < 0
    ensures y == 0 <==> v == 0
  {
  }

  /** The free code words after the codes of length k decide about the whole set. */
  lemma Overfull(c: counts, y: int, k: nat)
    requires 1 <= k <= BMAX && Free(c, y, k) && y - c[k] < 0
    ensures Filled(c, BMAX) > ALL
  {
    FreeStep(c, y, k);
    SignOf(y - c[k], Width(k), ALL - Filled(c, k));
    FilledMono(c, k, BMAX);
  }

  lemma Fits(c: counts, y: int, g: nat)
    requires 1 <= g <= BMAX && Free(c, y, g) && y - c[g] >= 0
    requires forall k :: g < k <= BMAX ==> c[k] == 0
    ensures Filled(c, BMAX) <= ALL
    ensures y - c[g] == 0 <==> Filled(c, BMAX) == ALL
    ensures Filled(c[g := y], BMAX) == ALL
  {
    FreeStep(c, y, g);
    SignOf(y - c[g], Width(g), ALL - Filled(c, g));
    FilledFlat(c, g, BMAX);
    FilledPlus(c, g, y - c[g], BMAX);
  }

  /**
   Adds codes of the greatest length until the set is complete; y is how many, or
   negative when there are more codes than code space.
   */
  method FillOut(c: array<nat>, j0: nat, g: nat) returns (y: int)
    requires c.Length == BMAX + 1 && 1 <= j0 <= g <= BMAX
    requires forall k :: 1 <= k <= BMAX && c[k] > 0 ==> j0 <= k <= g
    modifies c
    ensures y < 0 <==> Filled(old(c[..]), BMAX) > ALL
    ensures y == 0 <==> Filled(old(c[..]), BMAX) == ALL
    ensures y >= 0 ==> c[..] == old(c[..])[g := old(c[g]) + y] && Filled(c[..], BMAX) == ALL
  {
    ghost var c0: counts := c[..];
    var j := j0;
    y := Pow2(j);
    FreeStart(c0, j);
    while j < g
      invariant 1 <= j <= g && c[..] == c0 && Free(c0, y, j)
    {
      FreeStep(c0, y, j);
      if y - c[j] < 0 {
        Overfull(c0, y, j);
      }
      y := y - c[j];
      if y < 0 {
        return;
      }
      j := j + 1;
      y := 2 * y;
    }
    if y - c[g] < 0 {
      Overfull(c0, y, g);
    } else {
      Fits(c0, y, g);
    }
    y := y - c[g];
    if y >= 0 {
      c[g] := c[g] + y;
    }
  }

  lemma {:induction false} FilledPlus(c: counts, g: nat, y: nat, k: nat)
    requires 1 <= g <= BMAX && k <= BMAX
    ensures Filled(c[g := c[g] + y], k) == Filled(c, k) + (if g <= k then y * Width(g) else 0)
  {
    if k > 0 {
      FilledPlus(c, g, y, k - 1);
      if k == g {
        Distribute(1, c[g], y, Width(g));
      }
    }
  }

  // ----- sorting the symbols by length

  method Offsets(c: array<nat>, g: nat, x: array<nat>)
    requires c.Length == BMAX + 1 == x.Length && 1 <= g <= BMAX && x != c
    modifies x
    ensures forall k :: 1 <= k <= g ==> x[k] == Total(c[..], k - 1)
  {
    x[1] := 0;
    var j, i := 0, g - 1;
    var n := 1;
    ghost var c0: counts := c[..];
    while i > 0
      invariant 1 <= n <= g && i == g - n && c[..] == c0 && j == Total(c0, n - 1)
      invariant forall k :: 1 <= k <= n ==> x[k] == Total(c0, k - 1)
    {
      j := j + c[n];
      x[n + 1] := j;
      n := n + 1;
      i := i - 1;
    }
  }

  lemma {:induction false} TotalMono(c: counts, a: nat, b: nat)
    requires a <= b <= BMAX
    ensures Total(c, a) <= Total(c, b)
  {
    if a < b {
      TotalMono(c, a, b - 1);
    }
  }

  lemma {:induction false} TotalBump(c: counts, c': counts, j: nat, k: nat)
    requires j <= BMAX && k <= BMAX && c' == c[j := c[j] + 1]
    ensures Total(c', k) == Total(c, k) + (if 1 <= j <= k then 1 else 0)
  {
    if k > 0 {
      TotalBump(c, c', j, k - 1);
    }
  }

  lemma {:induction false} TotalZero(c: counts, k: nat)
    requires k <= BMAX && forall j :: 1 <= j <= k ==> c[j] == 0
    ensures Total(c, k) == 0
  {
    if k > 0 {
      TotalZero(c, k - 1);
    }
  }

  /** The counts add up to the number of used symbols. */
  lemma {:induction false} TotalUsed(lens: seq<nat>, n: nat)
    requires Lengths(lens) && n <= |lens|
    ensures Total(CountsTo(lens, n), BMAX) <= n
    ensures (forall i :: 0 <= i < n ==> lens[i] != 0) ==> Total(CountsTo(lens, n), BMAX) == n
  {
    if n == 0 {
      TotalZero(CountsTo(lens, 0), BMAX);
    } else {
      TotalUsed(lens, n - 1);
      var c := CountsTo(lens, n - 1);
      assert CountsTo(lens, n) == c[lens[n - 1] := c[lens[n - 1]] + 1];
      TotalBump(c, CountsTo(lens, n), lens[n - 1], BMAX);
    }
  }

  /** v lists the first n symbols by length and rank, and nothing else. */
  ghost predicate Sorted(lens: seq<nat>, n: nat, v: seq<int>)
    requires n <= |lens|
  {
    && |v| == 288
    && (forall k, r :: 1 <= k <= BMAX && 0 <= r < Count(lens, n, k) ==>
      Slot(lens, k, r) < 288 && v[Slot(lens, k, r)] == Nth(lens, n, k, r))
    && (forall p :: Total(Counts(lens), BMAX) <= p < 288 ==> v[p] == -1)
  }

  function Slot(lens: seq<nat>, k: nat, r: nat): nat
    requires 1 <= k <= BMAX
  {
    Total(Counts(lens), k - 1) + r
  }

  lemma SlotBound(lens: seq<nat>, k: nat, r: nat)
    requires Lengths(lens) && 1 <= k <= BMAX && r < Count(lens, |lens|, k)
    ensures Slot(lens, k, r) < Total(Counts(lens), BMAX) <= |lens|
  {
    TotalMono(Counts(lens), k, BMAX);
    TotalUsed(lens, |lens|);
  }

  lemma SlotInjective(lens: seq<nat>, k: nat, r: nat, k': nat, r': nat)
    requires 1 <= k <= BMAX && r < Count(lens, |lens|, k)
    requires 1 <= k' <= BMAX && r' < Count(lens, |lens|, k')
    requires Slot(lens, k, r) == Slot(lens, k', r')
    ensures k == k' && r == r'
  {
    if k < k' {
      TotalMono(Counts(lens), k, k' - 1);
    } else if k' < k {
      TotalMono(Counts(lens), k', k - 1);
    }
  }

  lemma CountNext(lens: seq<nat>, n: nat, k: nat, r: nat)
    requires n < |lens| && r < Count(lens, n + 1, k)
    ensures Count(lens, n + 1, k) == Count(lens, n, k) + (if lens[n] == k then 1 else 0)
    ensures Nth(lens, n + 1, k, r) == if lens[n] == k && r == Count(lens, n, k) then n else Nth(lens, n, k, r)
  {
  }

  lemma SortedNone(lens: seq<nat>, v: seq<int>)
    requires |v| == 288 && forall p :: 0 <= p < 288 ==> v[p] == -1
    ensures Sorted(lens, 0, v)
  {
  }

  /** Putting symbol n where the running offset of its length points. */
  lemma SortStep(lens: seq<nat>, n: nat, v: seq<int>, v': seq<int>)
    requires Lengths(lens) && n < |lens| <= 288 && Sorted(lens, n, v)
    requires lens[n] == 0 ==> v' == v
    requires lens[n] != 0 ==> Slot(lens, lens[n], Count(lens, n, lens[n])) < 288
    requires lens[n] != 0 ==> v' == v[Slot(lens, lens[n], Count(lens, n, lens[n])) := n]
    ensures Sorted(lens, n + 1, v')
  {
    hide Count, Nth, Total;
    var j := lens[n];
    if j != 0 {
      CountMono(lens, n, |lens|, j);
      SlotBound(lens, j, Count(lens, n, j));
    }
    forall k, r | 1 <= k <= BMAX && 0 <= r < Count(lens, n + 1, k)
      ensures Slot(lens, k, r) < 288 && v'[Slot(lens, k, r)] == Nth(lens, n + 1, k, r)
    {
      CountMono(lens, n + 1, |lens|, k);
      CountNext(lens, n, k, r);
      SlotBound(lens, k, r);
      if j != 0 && Slot(lens, k, r) == Slot(lens, j, Count(lens, n, j)) {
        SlotInjective(lens, k, r, j, Count(lens, n, j));
      }
    }
  }

  method SortSymbols(lens: seq<nat>, x: array<nat>, v: array<int>, ghost g: nat)
    requires 1 <= |lens| <= 288 && Lengths(lens) && x.Length == BMAX + 1 && v.Length == 288
    requires g <= BMAX && forall i :: 0 <= i < |lens| ==> lens[i] <= g
    requires forall k :: 1 <= k <= g ==> x[k] == Total(Counts(lens), k - 1)
    requires forall p :: 0 <= p < 288 ==> v[p] == -1
    modifies x, v
    ensures Sorted(lens, |lens|, v[..])
  {
    hide Sorted;
    SortedNone(lens, v[..]);
    var i := 0;
    while i < |lens|
      invariant 0 <= i <= |lens| && Sorted(lens, i, v[..])
      invariant forall k :: 1 <= k <= g ==> x[k] == Slot(lens, k, Count(lens, i, k))
    {
      var j := lens[i];
      ghost var before := v[..];
      if j != 0 {
        CountMono(lens, i, |lens|, j);
        SlotBound(lens, j, Count(lens, i, j));
        v[x[j]] := i;
        x[j] := x[j] + 1;
      }
      SortStep(lens, i, before, v[..]);
      i := i + 1;
    }
  }
}
