/**
 Canonical prefix codes (section 3.2.2 of RFC 1951): the code of every symbol from the
 list of code lengths, and the symbol a bit stream starts with.

 Codes are compared left-aligned in 16 bits: a code of k bits owns an interval of
 2^(16-k) points, and a stream starts with that code when its first 16 bits, as a
 number, fall into the interval.
 */
module Canonical {
  import opened Words
  import opened Stream
  import opened Wrappers

  /** Longest code length. */
  const BMAX: nat := 16

  ghost predicate Lengths(lens: seq<nat>) {
    forall i :: 0 <= i < |lens| ==> lens[i] <= BMAX
  }

  /** How many of the first n symbols have length k. */
  function Count(lens: seq<nat>, n: nat, k: nat): (r: nat)
    requires n <= |lens|
    ensures r <= n
  {
    if n == 0 then 0 else Count(lens, n - 1, k) + (if lens[n - 1] == k then 1 else 0)
  }

  // ----- the standard's definition

  function BlCount(lens: seq<nat>, k: nat): nat {
    if k == 0 then 0 else Count(lens, |lens|, k)
  }

  /** Smallest code of length k. */
  function NextCode(lens: seq<nat>, k: nat): nat {
    if k <= 1 then 0 else 2 * (NextCode(lens, k - 1) + BlCount(lens, k - 1))
  }

  /** Codes of one length are consecutive, in symbol order. */
  function Code(lens: seq<nat>, sym: nat): nat
    requires sym < |lens|
  {
    NextCode(lens, lens[sym]) + Count(lens, sym, lens[sym])
  }

  /** The stream at p starts with the code of `sym`. */
  predicate Matches(s: seq<bit>, p: nat, lens: seq<nat>, sym: nat)
    requires sym < |lens|
  {
    lens[sym] > 0 && p + lens[sym] <= |s| && Msb(s, p, lens[sym]) == Code(lens, sym)
  }

  /** The symbol whose code the stream at p starts with. */
  function Decode(s: seq<bit>, p: nat, lens: seq<nat>): (r: Option<nat>)
    ensures r.Some? ==> r.value < |lens| && Matches(s, p, lens, r.value)
    ensures r.None? ==> forall sym :: 0 <= sym < |lens| ==> !Matches(s, p, lens, sym)
  {
    DecodeFrom(s, p, lens, 0)
  }

  function DecodeFrom(s: seq<bit>, p: nat, lens: seq<nat>, i: nat): (r: Option<nat>)
    requires i <= |lens|
    ensures r.Some? ==> i <= r.value < |lens| && Matches(s, p, lens, r.value)
    ensures r.None? ==> forall sym :: i <= sym < |lens| ==> !Matches(s, p, lens, sym)
    decreases |lens| - i
  {
    if i == |lens| then None
    else if Matches(s, p, lens, i) then Some(i)
    else DecodeFrom(s, p, lens, i + 1)
  }

  // ----- left-aligned intervals

  /** Points owned by one code of length k. */
  function Width(k: nat): (r: nat)
    requires k <= BMAX
    ensures r >= 1
  {
    Pow2(BMAX - k)
  }

  type counts = c: seq<nat> | |c| == BMAX + 1 witness seq(BMAX + 1, _ => 0)

  /** Points owned by the codes of lengths 1 to k when there are c[j] codes of length j. */
  function Filled(c: counts, k: nat): nat
    requires k <= BMAX
  {
    if k == 0 then 0 else Filled(c, k - 1) + c[k] * Width(k)
  }

  /** Where the interval of the r-th code of length k starts. */
  function Start(c: counts, k: nat, r: nat): nat
    requires 1 <= k <= BMAX
  {
    Filled(c, k - 1) + r * Width(k)
  }

  function CountsTo(lens: seq<nat>, n: nat): counts
    requires n <= |lens|
  {
    seq(BMAX + 1, k requires 0 <= k => Count(lens, n, k))
  }

  function Counts(lens: seq<nat>): counts {
    CountsTo(lens, |lens|)
  }

  /** The Kraft sum of the nonzero lengths, in units of 2^-16. */
  function Kraft(lens: seq<nat>, n: nat): nat
    requires Lengths(lens) && n <= |lens|
  {
    if n == 0 then 0
    else Kraft(lens, n - 1) + (if lens[n - 1] == 0 then 0 else Width(lens[n - 1]))
  }

  lemma WidthHalves(k: nat)
    requires 1 <= k <= BMAX
    ensures Width(k - 1) == 2 * Width(k)
  {
  }

  lemma FilledNext(c: counts, k: nat)
    requires 1 <= k <= BMAX
    ensures Filled(c, k) == Filled(c, k - 1) + c[k] * Width(k) && c[k] * Width(k) >= 0
  {
    hide Width;
  }

  lemma {:induction false} FilledMono(c: counts, a: nat, b: nat)
    requires a <= b <= BMAX
    ensures Filled(c, a) <= Filled(c, b)
  {
    hide Filled, Width;
    if a < b {
      FilledMono(c, a, b - 1);
      FilledNext(c, b);
    }
  }

  /** A code starts no earlier than where the shorter codes end. */
  lemma StartAbove(c: counts, k: nat, r: nat)
    requires 1 <= k <= BMAX
    ensures Start(c, k, r) >= Filled(c, k - 1)
  {
    hide Filled, Width;
  }

  /** The standard's codes, left-aligned, start where the shorter codes end. */
  lemma {:induction false} NextCodeStart(lens: seq<nat>, k: nat)
    requires 1 <= k <= BMAX
    ensures NextCode(lens, k) * Width(k) == Filled(Counts(lens), k - 1)
  {
    if k > 1 {
      NextCodeStart(lens, k - 1);
      WidthHalves(k);
      NextCodeStep(NextCode(lens, k - 1), BlCount(lens, k - 1), Width(k - 1), Width(k));
    }
  }

  lemma NextCodeStep(n: nat, b: nat, w: nat, half: nat)
    requires w == 2 * half
    ensures 2 * (n + b) * half == n * w + b * w
  {
  }

  lemma CodeStart(lens: seq<nat>, sym: nat)
    requires sym < |lens| && 1 <= lens[sym] <= BMAX
    ensures Code(lens, sym) * Width(lens[sym]) == Start(Counts(lens), lens[sym], Count(lens, sym, lens[sym]))
  {
    NextCodeStart(lens, lens[sym]);
    Distribute(1, NextCode(lens, lens[sym]), Count(lens, sym, lens[sym]), Width(lens[sym]));
  }

  /** A code in the order of lengths and ranks ends before the next one starts. */
  lemma Ordered(c: counts, k: nat, r: nat, k': nat, r': nat)
    requires 1 <= k <= k' <= BMAX && r < c[k]
    requires k < k' || r < r'
    ensures Start(c, k, r) + Width(k) <= Start(c, k', r')
  {
    hide Filled, Width;
    if k < k' {
      FilledNext(c, k);
      FilledMono(c, k, k' - 1);
      MulSucc(r, c[k], Width(k));
      StartAbove(c, k', r');
    } else {
      MulSucc(r, r', Width(k));
    }
  }

  /** No point has two owners. */
  lemma OwnerUnique(c: counts, k: nat, r: nat, k': nat, r': nat, v: nat)
    requires 1 <= k <= BMAX && r < c[k] && Start(c, k, r) <= v < Start(c, k, r) + Width(k)
    requires 1 <= k' <= BMAX && r' < c[k'] && Start(c, k', r') <= v < Start(c, k', r') + Width(k')
    ensures k == k' && r == r'
  {
    if k < k' || (k == k' && r < r') {
      Ordered(c, k, r, k', r');
    } else if k' < k || r' < r {
      Ordered(c, k', r', k, r);
    }
  }

  /** Every point below where the codes of length k end has an owner. */
  lemma {:induction false} OwnerExists(c: counts, k: nat, v: nat) returns (j: nat, r: nat)
    requires k <= BMAX && v < Filled(c, k)
    ensures 1 <= j <= k && r < c[j] && Start(c, j, r) <= v < Start(c, j, r) + Width(j)
  {
    if v < Filled(c, k - 1) {
      j, r := OwnerExists(c, k - 1, v);
    } else {
      j := k;
      r := RankOf(v - Filled(c, k - 1), c[k], Width(k));
    }
  }

  lemma RankOf(d: nat, n: nat, w: nat) returns (r: nat)
    requires d < n * w && w > 0
    ensures r < n && r * w <= d < r * w + w
  {
    r := d / w;
    assert d == r * w + d % w;
    if r >= n {
      MulLe(n, r, w);
    }
  }

  /** The first k bits of a stream are the top k of its first 16. */
  lemma Prefix16(s: seq<bit>, p: nat, k: nat, code: nat)
    requires k <= BMAX
    ensures Msb(s, p, k) == code <==> code * Width(k) <= Msb(s, p, BMAX) < code * Width(k) + Width(k)
  {
    MsbSplit(s, p, k, BMAX - k);
    MsbBound(s, p + k, BMAX - k);
    Block(Msb(s, p, k), code, Width(k), Msb(s, p + k, BMAX - k));
  }

  /** A symbol's code starts the stream exactly when the stream's point is in its interval. */
  lemma MatchesPoint(s: seq<bit>, p: nat, lens: seq<nat>, sym: nat)
    requires sym < |lens| && 1 <= lens[sym] <= BMAX
    ensures var start := Start(Counts(lens), lens[sym], Count(lens, sym, lens[sym]));
      Matches(s, p, lens, sym) <==>
      p + lens[sym] <= |s| && start <= Msb(s, p, BMAX) < start + Width(lens[sym])
  {
    CodeStart(lens, sym);
    Prefix16(s, p, lens[sym], Code(lens, sym));
  }

  lemma {:induction false} CountMono(lens: seq<nat>, m: nat, n: nat, k: nat)
    requires m <= n <= |lens|
    ensures Count(lens, m, k) <= Count(lens, n, k)
    ensures m < n && lens[m] == k ==> Count(lens, m, k) < Count(lens, n, k)
  {
    if m < n {
      CountMono(lens, m, n - 1, k);
    }
  }

  /** At most one symbol's code can start a stream. */
  lemma DecodeUnique(s: seq<bit>, p: nat, lens: seq<nat>, sym: nat)
    requires Lengths(lens) && sym < |lens| && Matches(s, p, lens, sym)
    ensures Decode(s, p, lens) == Some(sym)
  {
    var sym' := Decode(s, p, lens).value;
    var k, k' := lens[sym], lens[sym'];
    MatchesPoint(s, p, lens, sym);
    MatchesPoint(s, p, lens, sym');
    CountMono(lens, sym, |lens|, k);
    CountMono(lens, sym', |lens|, k');
    OwnerUnique(Counts(lens), k, Count(lens, sym, k), k', Count(lens, sym', k'), Msb(s, p, BMAX));
    if sym < sym' {
      CountMono(lens, sym, sym', k);
    } else if sym' < sym {
      CountMono(lens, sym', sym, k);
    }
  }

  // ----- symbols by length and rank

  /** The r-th of the first n symbols of length k. */
  function Nth(lens: seq<nat>, n: nat, k: nat, r: nat): (sym: nat)
    requires n <= |lens| && r < Count(lens, n, k)
    ensures sym < n && lens[sym] == k && Count(lens, sym, k) == r
  {
    if lens[n - 1] == k && r == Count(lens, n - 1, k) then n - 1
    else Nth(lens, n - 1, k, r)
  }

  // ----- the Kraft sum and the counts

  lemma {:induction false} FilledBump(c: counts, c': counts, j: nat, k: nat)
    requires j <= BMAX && k <= BMAX && c' == c[j := c[j] + 1]
    ensures Filled(c', k) == Filled(c, k) + (if 1 <= j <= k then Width(j) else 0)
  {
    if k > 0 {
      FilledBump(c, c', j, k - 1);
      if j == k {
        Distribute(1, c[j], 1, Width(j));
      }
    }
  }

  lemma {:induction false} FilledZero(c: counts, k: nat)
    requires k <= BMAX && forall j :: 1 <= j <= k ==> c[j] == 0
    ensures Filled(c, k) == 0
  {
    if k > 0 {
      FilledZero(c, k - 1);
    }
  }

  lemma {:induction false} KraftFilled(lens: seq<nat>, n: nat)
    requires Lengths(lens) && n <= |lens|
    ensures Kraft(lens, n) == Filled(CountsTo(lens, n), BMAX)
  {
    if n == 0 {
      FilledZero(CountsTo(lens, 0), BMAX);
    } else {
      KraftFilled(lens, n - 1);
      var c := CountsTo(lens, n - 1);
      assert CountsTo(lens, n) == c[lens[n - 1] := c[lens[n - 1]] + 1];
      FilledBump(c, CountsTo(lens, n), lens[n - 1], BMAX);
    }
  }
}
