/**
 32-bit masks as sets of bit numbers.
 */
module Masks {
  import opened Words

  ghost predicate Has(m: nat, i: nat) {
    Bit(m, i) == 1
  }

  /** The bits of a mask. */
  ghost function Members(m: nat): (r: set<nat>) {
    set i: nat | i < 32 && Has(m, i)
  }

  lemma {:induction false} HasAnd(a: nat, b: nat, i: nat)
    ensures Has(And(a, b), i) <==> Has(a, i) && Has(b, i)
    decreases i
  {
    if a == 0 || b == 0 {
      BitZero(i);
    } else if i > 0 {
      HasAnd(a / 2, b / 2, i - 1);
    }
  }

  lemma {:induction false} HasOr(a: nat, b: nat, i: nat)
    ensures Has(Or(a, b), i) <==> Has(a, i) || Has(b, i)
    decreases i
  {
    if a == 0 && b == 0 {
      BitZero(i);
    } else if i > 0 {
      HasOr(a / 2, b / 2, i - 1);
    }
  }

  lemma {:induction false} BitZero(i: nat)
    ensures Bit(0, i) == 0
  {
    if i > 0 {
      BitZero(i - 1);
    }
  }

  lemma {:induction false} HasPow2(k: nat, i: nat)
    ensures Has(Pow2(k), i) <==> i == k
    decreases i
  {
    if k == 0 && i > 0 {
      BitZero(i - 1);
    } else if i > 0 {
      HasPow2(k - 1, i - 1);
    }
  }

  lemma {:induction false} HasComplement(x: nat, n: nat, i: nat)
    requires x < Pow2(n)
    ensures Has(Pow2(n) - 1 - x, i) <==> i < n && !Has(x, i)
    decreases i
  {
    if n == 0 {
      BitZero(i);
    } else {
      var y := Pow2(n) - 1 - x;
      assert y % 2 == 1 - x % 2 && y / 2 == Pow2(n - 1) - 1 - x / 2;
      if i > 0 {
        HasComplement(x / 2, n - 1, i - 1);
      }
    }
  }

  // ----- the operators on sets

  lemma MembersAnd(a: nat, b: nat)
    ensures Members(And(a, b)) == Members(a) * Members(b)
  {
    forall i: nat | i < 32
      ensures Has(And(a, b), i) <==> Has(a, i) && Has(b, i)
    {
      HasAnd(a, b, i);
    }
  }

  lemma MembersOr(a: nat, b: nat)
    ensures Members(Or(a, b)) == Members(a) + Members(b)
  {
    forall i: nat | i < 32
      ensures Has(Or(a, b), i) <==> Has(a, i) || Has(b, i)
    {
      HasOr(a, b, i);
    }
  }

  /** The bits from a up to b. */
  ghost function Range(a: nat, b: nat): (r: set<nat>)
    ensures forall i: nat :: i in r <==> a <= i < b
    decreases b
  {
    if a >= b then {} else Range(a, b - 1) + {b - 1}
  }

  lemma MembersNot(x: nat)
    requires x < WORD
    ensures Members(Not(x)) == Range(0, 32) - Members(x)
  {
    Pow2Values();
    forall i: nat | i < 32
      ensures Has(Not(x), i) <==> !Has(x, i)
    {
      HasComplement(x, 32, i);
    }
  }

  /** `1 << k`. */
  lemma MembersOne(k: nat)
    requires k < 32
    ensures Shl(1, k) == Pow2(k) < WORD && Members(Shl(1, k)) == {k}
  {
    Pow2Word(k);
    forall i: nat | i < 32
      ensures Has(Pow2(k), i) <==> i == k
    {
      HasPow2(k, i);
    }
  }

  lemma HasHigh(k: nat, i: nat)
    requires k < 32 && i < 32
    ensures Pow2(k) < WORD && (Has(WORD - Pow2(k), i) <==> k <= i)
  {
    hide Bit;
    Pow2Word(k);
    Pow2Values();
    HasComplement(Pow2(k) - 1, 32, i);
    HasComplement(0, k, i);
    BitZero(i);
  }

  /** `-1 << k`. */
  lemma MembersHigh(k: nat)
    requires k < 32
    ensures Shl(WORD - 1, k) == WORD - Pow2(k) && Pow2(k) < WORD
    ensures Members(Shl(WORD - 1, k)) == Range(k, 32)
  {
    hide Pow2, Has;
    Pow2Word(k);
    HighWord(Pow2(k));
    forall i: nat | i < 32
      ensures Has(WORD - Pow2(k), i) <==> i in Range(k, 32)
    {
      HasHigh(k, i);
    }
  }

  lemma HighWord(p: nat)
    requires 0 < p < WORD
    ensures (WORD - 1) * p % WORD == WORD - p
  {
    assert (WORD - 1) * p == (p - 1) * WORD + (WORD - p);
  }

  /** A mask is nothing but its bits. */
  lemma {:induction false} SameBits(a: nat, b: nat, n: nat)
    requires a < Pow2(n) && b < Pow2(n) && forall i: nat :: i < n ==> (Has(a, i) <==> Has(b, i))
    ensures a == b
    decreases n
  {
    if n > 0 {
      forall i: nat | i < n - 1
        ensures Has(a / 2, i) <==> Has(b / 2, i)
      {
        assert Has(a, i + 1) <==> Has(b, i + 1);
      }
      SameBits(a / 2, b / 2, n - 1);
      assert Has(a, 0) <==> Has(b, 0);
    }
  }

  lemma MembersSame(a: nat, b: nat)
    requires a < WORD && b < WORD && Members(a) == Members(b)
    ensures a == b
  {
    Pow2Values();
    forall i: nat | i < 32
      ensures Has(a, i) <==> Has(b, i)
    {
      assert i in Members(a) <==> i in Members(b);
    }
    SameBits(a, b, 32);
  }

  lemma MembersNone(m: nat)
    requires m < WORD
    ensures m == 0 <==> Members(m) == {}
  {
    forall i: nat
      ensures !Has(0, i)
    {
      BitZero(i);
    }
    if Members(m) == {} {
      MembersSame(m, 0);
    }
  }

  lemma {:induction false} AndBound(a: nat, b: nat)
    ensures And(a, b) <= a && And(a, b) <= b
  {
    if a > 0 && b > 0 {
      AndBound(a / 2, b / 2);
    }
  }

  lemma {:induction false} OrBound(a: nat, b: nat, n: nat)
    requires a < Pow2(n) && b < Pow2(n)
    ensures Or(a, b) < Pow2(n)
    decreases n
  {
    if n > 0 {
      OrBound(a / 2, b / 2, n - 1);
    }
  }
}
