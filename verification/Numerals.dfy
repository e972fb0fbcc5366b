/**
 Numerals in bases up to 16, and 32-bit signed words.
 */
module Numerals {
  import opened Words

  /** The 32-bit word that an arithmetic result leaves. */
  function Wrap(x: int): int32 {
    Signed(x % WORD)
  }

  /** Wrapping twice is wrapping once. */
  lemma WrapTwice(x: int, k: int, d: int)
    ensures Wrap(Wrap(x) * k + d) == Wrap(x * k + d)
  {
    var q := (x - Wrap(x)) / WORD;
    WrapOff(x, q);
    assert Wrap(x) * k + d == x * k + d - q * k * WORD by {
      assert (x - q * WORD) * k == x * k - q * WORD * k;
      assert q * WORD * k == q * k * WORD;
    }
    ModShift(x * k + d, q * k);
  }

  lemma WrapOff(x: int, q: int)
    requires q == (x - Wrap(x)) / WORD
    ensures Wrap(x) == x - q * WORD
  {
  }

  lemma ModShift(y: int, q: int)
    ensures (y - q * WORD) % WORD == y % WORD
  {
    var a, b := y / WORD, y % WORD;
    assert y - q * WORD == (a - q) * WORD + b;
  }

  const DIGITS: string := "0123456789abcdef"

  function DigitChar(d: nat): (c: char)
    requires d < 16
    ensures c == '0' <==> d == 0
    ensures c != '\0'
  {
    DIGITS[d]
  }

  /** The numeral of n: no leading zeros, but at least one digit. */
  function Numeral(n: nat, base: nat): (r: string)
    requires 2 <= base <= 16
    ensures |r| >= 1
    decreases n
  {
    if n < base then [DigitChar(n)] else Numeral(n / base, base) + [DigitChar(n % base)]
  }

  // ----- numerals from digits in reverse

  /** The k low digits of n, least significant first. */
  function LowDigits(n: nat, base: nat, k: nat): (r: string)
    requires 2 <= base <= 16
    ensures |r| == k
    decreases k
  {
    if k == 0 then [] else [DigitChar(n % base)] + LowDigits(n / base, base, k - 1)
  }

  /** Without the zeros at the end, except the first character. */
  function Trimmed(s: string): (r: string)
    requires s != ""
    ensures 1 <= |r| <= |s| && r == s[..|r|]
  {
    if |s| > 1 && s[|s| - 1] == '0' then Trimmed(s[..|s| - 1]) else s
  }

  function Reversed(s: string): (r: string)
    ensures |r| == |s|
  {
    if s == "" then "" else Reversed(s[1..]) + [s[0]]
  }

  function Power(base: nat, k: nat): (r: nat)
    ensures base >= 1 ==> r >= 1
  {
    if k == 0 then 1 else base * Power(base, k - 1)
  }

  lemma {:induction false} TrimmedFirst(c: char, s: string)
    requires s != ""
    ensures Trimmed([c] + s) == if Trimmed(s) == "0" then [c] else [c] + Trimmed(s)
    decreases |s|
  {
    var t := [c] + s;
    if s[|s| - 1] == '0' {
      assert t[..|t| - 1] == [c] + s[..|s| - 1];
      if |s| > 1 {
        TrimmedFirst(c, s[..|s| - 1]);
      }
    }
  }

  /** Trimmed and turned around, the digits are the numeral. */
  lemma {:induction false} NumeralFromDigits(n: nat, base: nat, k: nat)
    requires 2 <= base <= 16 && k >= 1 && n < Power(base, k)
    ensures Reversed(Trimmed(LowDigits(n, base, k))) == Numeral(n, base)
    decreases k
  {
    hide Trimmed, Reversed, DigitChar, Numeral, Power;
    if k == 1 {
      PowerNext(base, 1);
      LowDigitsOne(n, base);
      TrimmedOne(DigitChar(n));
      ReversedFirst(DigitChar(n), "");
      NumeralOne(n, base);
    } else {
      PowerNext(base, k);
      QuotientBound(n, base, Power(base, k - 1));
      NumeralFromDigits(n / base, base, k - 1);
      NumeralStep(n, base, LowDigits(n / base, base, k - 1));
    }
  }

  lemma PowerNext(base: nat, k: nat)
    requires k > 0
    ensures Power(base, k) == base * Power(base, k - 1) && (k == 1 ==> Power(base, k) == base)
  {
    assert Power(base, 0) == 1;
  }

  lemma LowDigitsOne(n: nat, base: nat)
    requires 2 <= base <= 16
    ensures LowDigits(n, base, 1) == [DigitChar(n % base)]
  {
    assert LowDigits(n / base, base, 0) == [];
  }

  lemma NumeralOne(n: nat, base: nat)
    requires n < base && 2 <= base <= 16
    ensures Numeral(n, base) == [DigitChar(n)] && n % base == n
  {
  }

  lemma NumeralStep(n: nat, base: nat, s: string)
    requires 2 <= base <= 16 && s != "" && Reversed(Trimmed(s)) == Numeral(n / base, base)
    ensures Reversed(Trimmed([DigitChar(n % base)] + s)) == Numeral(n, base)
  {
    hide Trimmed, DigitChar, Reversed, Numeral;
    var d := DigitChar(n % base);
    NumeralParts(n, base);
    TrimmedFirst(d, s);
    NumeralZero(n / base, base, Trimmed(s));
    ReversedFirst(d, Trimmed(s));
  }

  lemma NumeralParts(n: nat, base: nat)
    requires 2 <= base <= 16
    ensures n / base == 0 ==> Numeral(n, base) == [DigitChar(n % base)]
    ensures n / base != 0 ==> Numeral(n, base) == Numeral(n / base, base) + [DigitChar(n % base)]
  {
  }

  lemma TrimmedOne(c: char)
    ensures Trimmed([c]) == [c]
  {
  }

  lemma ReversedFirst(c: char, s: string)
    ensures Reversed([c] + s) == Reversed(s) + [c] && Reversed("") == "" && Reversed([c]) == [c]
  {
    assert ([c] + s)[1..] == s;
    assert Reversed([c]) == Reversed([c][1..]) + [c];
  }

  lemma QuotientBound(n: nat, base: nat, p: nat)
    requires base >= 1 && n < base * p
    ensures n / base < p
  {
    if n / base >= p {
      MulLe(p, n / base, base);
    }
  }

  /** Only zero's numeral is "0". */
  lemma NumeralZero(n: nat, base: nat, rest: string)
    requires 2 <= base <= 16 && Reversed(rest) == Numeral(n, base)
    ensures rest == "0" <==> n == 0
  {
    hide Reversed;
    ReversedZero(rest);
    if n < base {
      assert Numeral(n, base)[0] == DigitChar(n);
    } else {
      var m := Numeral(n / base, base);
      assert |Numeral(n, base)| == |m| + 1;
    }
  }

  lemma ReversedZero(s: string)
    ensures Reversed(s) == "0" <==> s == "0"
  {
    if |s| == 1 {
      assert s == [s[0]];
      ReversedFirst(s[0], "");
    }
  }
}
