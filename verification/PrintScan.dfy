/**
 Scanning undoes printing: for every 32-bit value, base, width and fill, exactly when the
 fill is not zeros to the right of the digits.
 */
module PrintScan {
  import opened Words
  import opened Numerals
  import opened Print
  import opened Scan

  // ----- digits and their value

  /** All characters are taken as digits of the base. */
  ghost predicate AllDigits(s: string, base: nat) {
    forall i :: 0 <= i < |s| ==> IsDigit(s[i] as int, base)
  }

  lemma CharValue(d: nat, base: nat)
    requires d < base && base in {8, 10, 16}
    ensures IsDigit(DigitChar(d) as int, base) && DigitValue(DigitChar(d) as int) == d
  {
  }

  lemma DigitsSnoc(s: string, c: char, base: nat)
    requires AllDigits(s, base) && IsDigit(c as int, base)
    ensures AllDigits(s + [c], base) && Digital(s) && Digital(s + [c])
    ensures Value(s + [c], base) == Value(s, base) * base + DigitValue(c as int)
  {
    hide Value, DigitValue;
    ValueSnoc(s, c, base);
  }

  lemma NumeralEnd(n: nat, base: nat)
    requires 2 <= base <= 16
    ensures n < base ==> Numeral(n, base) == "" + [DigitChar(n)] && n % base == n
    ensures n >= base ==> Numeral(n, base) == Numeral(n / base, base) + [DigitChar(n % base)]
  {
  }

  /** A numeral stands for its number. */
  ghost predicate StandsFor(s: string, n: nat, base: nat) {
    AllDigits(s, base) && Digital(s) && Value(s, base) == n
  }

  lemma StandsForMore(s: string, n: nat, d: nat, base: nat)
    requires StandsFor(s, n, base) && d < base && base in {8, 10, 16}
    ensures StandsFor(s + [DigitChar(d)], n * base + d, base)
  {
    hide DigitChar, IsDigit, DigitValue;
    CharValue(d, base);
    DigitsSnoc(s, DigitChar(d), base);
  }

  lemma {:induction false} NumeralStands(n: nat, base: nat)
    requires base in {8, 10, 16}
    ensures StandsFor(Numeral(n, base), n, base)
    decreases n
  {
    hide StandsFor, DigitChar;
    NumeralEnd(n, base);
    if n < base {
      NothingStands(base);
      StandsForMore("", 0, n, base);
    } else {
      NumeralStands(n / base, base);
      StandsForMore(Numeral(n / base, base), n / base, n % base, base);
    }
  }

  lemma NothingStands(base: nat)
    ensures StandsFor("", 0, base)
  {
  }

  lemma NumeralValue(n: nat, base: nat)
    requires base in {8, 10, 16}
    ensures AllDigits(Numeral(n, base), base) && Digital(Numeral(n, base)) && Value(Numeral(n, base), base) == n
  {
    hide Numeral, AllDigits, Digital, Value;
    NumeralStands(n, base);
  }

  lemma {:induction false} ZerosAlone(k: nat, base: nat)
    ensures AllDigits(Fill('0', k), base) && Digital(Fill('0', k)) && Value(Fill('0', k), base) == 0
  {
    hide DigitValue;
    if k > 0 {
      ZerosAlone(k - 1, base);
      DigitsSnoc(Fill('0', k - 1), '0', base);
      ZeroDigit();
      assert Fill('0', k) == Fill('0', k - 1) + ['0'];
    }
  }

  /** Zeros in front do not count. */
  lemma {:induction false} ZerosBefore(k: nat, s: string, base: nat)
    requires AllDigits(s, base)
    ensures AllDigits(Fill('0', k) + s, base) && Digital(s) && Digital(Fill('0', k) + s)
    ensures Value(Fill('0', k) + s, base) == Value(s, base)
    decreases |s|
  {
    hide DigitValue, Value;
    ZerosAlone(0, base);
    if s == "" {
      ZerosAlone(k, base);
      assert Fill('0', k) + s == Fill('0', k) && s == Fill('0', 0);
    } else {
      var t, c := s[..|s| - 1], s[|s| - 1];
      ZerosBefore(k, t, base);
      DigitsSnoc(t, c, base);
      DigitsSnoc(Fill('0', k) + t, c, base);
      assert t + [c] == s;
      assert (Fill('0', k) + t) + [c] == Fill('0', k) + s;
    }
  }

  lemma ZeroDigit()
    ensures DigitValue('0' as int) == 0
  {
  }

  /** Zeros behind multiply by the base. */
  lemma {:induction false} ZerosBehind(s: string, k: nat, base: nat)
    requires AllDigits(s, base)
    ensures AllDigits(s + Fill('0', k), base) && Digital(s) && Digital(s + Fill('0', k))
    ensures Value(s + Fill('0', k), base) == Value(s, base) * Power(base, k)
    decreases k
  {
    hide DigitValue;
    if k == 0 {
      assert s + Fill('0', 0) == s;
    } else {
      ZerosBehind(s, k - 1, base);
      DigitsSnoc(s + Fill('0', k - 1), '0', base);
      ZeroDigit();
      assert (s + Fill('0', k - 1)) + ['0'] == s + Fill('0', k);
      Rebase(Value(s, base), Power(base, k - 1), base);
    }
  }

  lemma Rebase(v: nat, p: nat, base: nat)
    ensures v * p * base == v * (base * p)
  {
  }

  // ----- scanning blanks, sign and digits

  lemma {:induction false} BlanksAre(k: nat, s: string)
    requires s == "" || !IsBlank(s[0] as int)
    ensures Blanks(Fill(' ', k) + s) == k
    decreases k
  {
    if k > 0 {
      BlanksAre(k - 1, s);
      assert (Fill(' ', k) + s)[1..] == Fill(' ', k - 1) + s;
    } else {
      assert Fill(' ', 0) + s == s;
    }
  }

  lemma {:induction false} DigitsAre(s: string, rest: string, base: nat, len: int)
    requires AllDigits(s, base) && |s| <= len && (rest == "" || !IsDigit(rest[0] as int, base))
    ensures Digits(s + rest, base, len) == |s|
    decreases |s|
  {
    if s == "" {
      assert s + rest == rest;
    } else {
      assert (s + rest)[1..] == s[1..] + rest;
      DigitsAre(s[1..], rest, base, len - 1);
    }
  }

  /** A digit is neither blank nor a sign. */
  lemma DigitFirst(c: char, base: nat)
    requires IsDigit(c as int, base)
    ensures !IsBlank(c as int) && c != '-' && c != '+'
  {
  }

  /** Where the sign and the digits of a printed number are found. */
  lemma StartIs(s: string, k: nat, sign: string, tail: string, base: nat)
    requires s == Fill(' ', k) + (sign + tail) && (sign == "" || sign == "-") && tail != ""
    requires IsDigit(tail[0] as int, base)
    ensures Negative(s) == HasSign(s) == (sign == "-") && Start(s) == k + |sign| && s[k + |sign|..] == tail
  {
    hide Blanks, IsDigit;
    DigitFirst(tail[0], base);
    BlanksAre(k, sign + tail);
    assert s[k] == (sign + tail)[0];
  }

  /** What is scanned, from where the digits start and how many there are. */
  lemma ScannedIs(s: string, f: char, len: int, p: nat, tail: string, body: string, limit: int)
    requires Start(s) == p && p <= |s| && s[p..] == tail && limit == (if HasSign(s) then len - 1 else len)
    requires |body| <= |tail| && tail[..|body|] == body && body != "" && Digital(body)
    requires Digits(tail, ScanBase(f), limit) == |body|
    ensures Span(s, f, len) == |body|
    ensures var n := Value(body, ScanBase(f));
      Scanned(s, f, len) == Result(true, Wrap(if Negative(s) then 0 - n else n), p + |body|)
  {
    hide Blanks, Digits, Value, Wrap, Start, Negative, HasSign, Digital, ScanBase;
    assert s[p..p + |body|] == tail[..|body|];
  }

  lemma ScanParts(s: string, k: nat, sign: string, body: string, rest: string, f: char, len: int)
    requires s == Fill(' ', k) + (sign + (body + rest)) && (sign == "" || sign == "-")
    requires body != "" && AllDigits(body, ScanBase(f)) && Digital(body) && |sign| + |body| <= len
    requires rest == "" || !IsDigit(rest[0] as int, ScanBase(f))
    ensures Span(s, f, len) == |body| && Negative(s) == (sign == "-")
    ensures var n := Value(body, ScanBase(f));
      Scanned(s, f, len) == Result(true, Wrap(if sign == "-" then 0 - n else n), k + |sign| + |body|)
  {
    hide Blanks, Digits, Value, Fill, Wrap, Start, Negative, HasSign, Scanned, Span, IsDigit, ScanBase, Digital;
    var tail, limit := body + rest, if sign == "-" then len - 1 else len;
    StartIs(s, k, sign, tail, ScanBase(f));
    DigitsAre(body, rest, ScanBase(f), limit);
    ScannedIs(s, f, len, k + |sign|, tail, body, limit);
  }

  // ----- the law

  /** The scanner's letter for what f prints: the printer's capitals mean the same as its small letters. */
  function Small(f: char): char {
    match f
    case 'D' => 'd'
    case 'U' => 'u'
    case 'O' => 'o'
    case 'X' => 'x'
    case _ => f
  }

  /** The base of each pair of letters. */
  function Radix(f: char): nat {
    if f in {'o', 'O'} then 8 else if f in {'x', 'X'} then 16 else 10
  }

  lemma SignedMagnitude(f: char, v: int32)
    requires IsNumeric(f)
    ensures Base(f) == ScanBase(Small(f)) == Radix(f) && Radix(f) in {8, 10, 16}
    ensures Wrap(if Minus(f, v) == "-" then 0 - (Magnitude(f, v) as int) else Magnitude(f, v)) == v
    ensures (Magnitude(f, v) == 0 <==> v == 0) && (Minus(f, v) == "" || Minus(f, v) == "-")
  {
  }

  /** Numerals of 32-bit numbers are short. */
  lemma {:induction false} NumeralShort(n: nat, base: nat, k: nat)
    requires base in {8, 10, 16} && k >= 1 && n < Power(base, k)
    ensures |Numeral(n, base)| <= k
    decreases k
  {
    if n >= base {
      QuotientBound(n, base, Power(base, k - 1));
      NumeralShort(n / base, base, k - 1);
    }
  }

  lemma MagnitudeShort(f: char, v: int32)
    requires IsNumeric(f)
    ensures |Numeral(Magnitude(f, v), Base(f))| <= 11
  {
    PowerValues();
    assert WORD <= Power(8, 11) && WORD <= Power(10, 10) && WORD <= Power(16, 8);
    NumeralShort(Magnitude(f, v), Base(f), if Base(f) == 8 then 11 else if Base(f) == 10 then 10 else 8);
  }

  /** The parts of a printed field, for scanning. */
  lemma ArrangedParts(sign: string, digits: string, leftjust: bool, zero: bool, pad: nat, rest: string, base: nat)
      returns (k: nat, body: string, rest': string)
    requires digits != "" && AllDigits(digits, base) && Digital(digits)
    requires rest == "" || !IsDigit(rest[0] as int, base)
    ensures Arranged(sign, digits, leftjust, zero, pad) + rest == Fill(' ', k) + (sign + (body + rest'))
    ensures |body| == |digits| + (if zero then pad else 0) && AllDigits(body, base) && Digital(body)
    ensures rest' == "" || !IsDigit(rest'[0] as int, base)
    ensures Value(body, base) ==
      if leftjust && zero then Value(digits, base) * Power(base, pad) else Value(digits, base)
    ensures !leftjust ==> rest' == rest && k + |sign| + |body| == |Arranged(sign, digits, leftjust, zero, pad)|
  {
    hide Value, Power, IsDigit;
    k, body, rest' := 0, digits, rest;
    assert Fill(' ', 0) == "";
    if zero && leftjust {
      ZerosBehind(digits, pad, base);
      body := digits + Fill('0', pad);
    } else if zero {
      ZerosBefore(pad, digits, base);
      body := Fill('0', pad) + digits;
    } else if leftjust {
      BlankNoDigit(base);
      rest' := Fill(' ', pad) + rest;
    } else {
      k := pad;
    }
  }

  lemma FieldParts(f: char, leftjust: bool, zero: bool, fmin: int, v: int32, rest: string)
      returns (k: nat, body: string, rest': string)
    requires IsNumeric(f) && (rest == "" || !IsDigit(rest[0] as int, Radix(f)))
    ensures Field(f, leftjust, zero, fmin, v) + rest == Fill(' ', k) + (Minus(f, v) + (body + rest'))
    ensures body != "" && AllDigits(body, Radix(f)) && Digital(body) && |Minus(f, v)| + |body| <= MAXSTR
    ensures |Minus(f, v)| + |body| <= 63 <==> !(zero && 63 < fmin <= MAXSTR)
    ensures rest' == "" || !IsDigit(rest'[0] as int, Radix(f))
    ensures var n, pad := Magnitude(f, v), Padding(fmin, |Numeral(Magnitude(f, v), Radix(f))| + |Minus(f, v)|);
      && Value(body, Radix(f)) == (if leftjust && zero then n * Power(Radix(f), pad) else n)
      && (!leftjust ==> rest' == rest && k + |Minus(f, v)| + |body| == |Field(f, leftjust, zero, fmin, v)|)
  {
    hide Value, Power, IsDigit, Magnitude, Base, Numeral, Arranged, AllDigits, Digital, Radix, IsNumeric;
    SignedMagnitude(f, v);
    MagnitudeShort(f, v);
    NumeralValue(Magnitude(f, v), Radix(f));
    var digits, sign := Numeral(Magnitude(f, v), Radix(f)), Minus(f, v);
    k, body, rest' := ArrangedParts(sign, digits, leftjust, zero, Padding(fmin, |digits| + |sign|), rest, Radix(f));
  }

  lemma BlankNoDigit(base: nat)
    ensures !IsDigit(' ' as int, base)
  {
  }

  /** An odd factor can be cancelled modulo a power of two. */
  lemma {:induction false} OddFactor(n: nat, odd: nat, k: nat)
    requires odd % 2 == 1 && n * odd % Pow2(k) == 0
    ensures n % Pow2(k) == 0
    decreases k
  {
    if k > 0 {
      var q := n * odd / Pow2(k);
      assert n * odd == q * Pow2(k);
      MulDouble(q, Pow2(k), Pow2(k - 1));
      EvenFactor(n, odd, q * Pow2(k - 1));
      var m := n / 2;
      Unique(m * odd, q, 0, Pow2(k - 1));
      OddFactor(m, odd, k - 1);
      var r := m / Pow2(k - 1);
      assert m == r * Pow2(k - 1);
      MulDouble(r, Pow2(k), Pow2(k - 1));
      Unique(n, r, 0, Pow2(k));
    }
  }

  lemma EvenFactor(n: nat, odd: nat, h: nat)
    requires odd % 2 == 1 && n * odd == 2 * h
    ensures n % 2 == 0 && n / 2 * odd == h
  {
    var o := odd / 2;
    assert n * odd == 2 * (n * o) + n by {
      assert n * (2 * o + 1) == 2 * (n * o) + n;
    }
    var m := n / 2;
    assert n == 2 * m;
    assert 2 * m * odd == 2 * (m * odd);
  }

  lemma {:induction false} PowerEven(base: nat, k: nat)
    requires base % 2 == 0 && base >= 1 && k >= 1
    ensures Power(base, k) % 2 == 0
  {
    var h := base / 2;
    assert base * Power(base, k - 1) == 2 * (h * Power(base, k - 1));
  }

  /** An odd multiple of a 32-bit number is no multiple of 2^32, unless the number is zero. */
  lemma OddMultiple(n: nat, p: nat)
    requires n < WORD && p % 2 == 0 && p > 0 && (n * p - n) % WORD == 0
    ensures n == 0
  {
    hide Pow2;
    Pow2Values();
    assert n * p - n == n * (p - 1);
    OddFactor(n, p - 1, 32);
  }

  /** The numbers with a sign. */
  function WithSign(n: nat, negative: bool): int {
    if negative then 0 - n else n
  }

  /** Multiplying a 32-bit number by a power of an even base changes it, unless it is zero. */
  lemma ScaledDiffers(n: nat, base: nat, k: nat, negative: bool)
    requires n < WORD && base % 2 == 0 && base >= 1 && k >= 1
    ensures Wrap(WithSign(n * Power(base, k), negative)) == Wrap(WithSign(n, negative)) <==> n == 0
  {
    hide Power, Wrap;
    var p := Power(base, k);
    PowerEven(base, k);
    if Wrap(WithSign(n * p, negative)) == Wrap(WithSign(n, negative)) {
      SameWrap(WithSign(n * p, negative), WithSign(n, negative));
      DifferenceMultiple(n * p, n, negative);
      OddMultiple(n, p);
    } else if n == 0 {
      ZeroTimes(p);
    }
  }

  lemma ZeroTimes(p: nat)
    ensures 0 * p == 0
  {
  }

  lemma SameWrap(x: int, y: int)
    requires Wrap(x) == Wrap(y)
    ensures (x - y) % WORD == 0
  {
    var q := x / WORD - y / WORD;
    assert x % WORD == y % WORD;
    assert x - y == q * WORD;
  }

  lemma DifferenceMultiple(a: int, b: int, negative: bool)
    requires a >= 0 && b >= 0 && (WithSign(a, negative) - WithSign(b, negative)) % WORD == 0
    ensures (a - b) % WORD == 0
  {
    if negative {
      var q := (b - a) / WORD;
      assert a - b == (0 - q) * WORD;
    }
  }

  /**
   What is printed is scanned as the same value, whatever follows that is no digit, and
   just as many characters are used up, exactly unless zeros were filled in on the right.
   The scanner's buffer holds the number, exactly unless it is filled with zeros to 64 to 80 places.
   */
  lemma RoundTrip(f: char, leftjust: bool, zero: bool, fmin: int, v: int32, rest: string, len: int)
    requires IsNumeric(f) && 80 <= len && (rest == "" || !IsDigit(rest[0] as int, Radix(f)))
    ensures var t, g := Field(f, leftjust, zero, fmin, v), Small(f);
      var pad := Padding(fmin, |Numeral(Magnitude(f, v), Radix(f))| + |Minus(f, v)|);
      && (Fits(t + rest, g, len) <==> !(zero && 63 < fmin <= 80))
      && Scanned(t + rest, g, len).matched
      && (Scanned(t + rest, g, len).value == v <==> !(leftjust && zero && pad > 0 && v != 0))
      && (!leftjust ==> Scanned(t + rest, g, len).used == |t|)
  {
    hide Field, Value, Scanned, Radix, Small, IsNumeric, ScanBase, Base, Fits, Padding, Numeral, Magnitude, Minus;
    hide Wrap, Power, IsDigit;
    SignedMagnitude(f, v);
    var k, body, rest' := FieldParts(f, leftjust, zero, fmin, v, rest);
    ScanParts(Field(f, leftjust, zero, fmin, v) + rest, k, Minus(f, v), body, rest', Small(f), len);
    FitsIs(Field(f, leftjust, zero, fmin, v) + rest, Small(f), len);
    var n := Magnitude(f, v);
    var pad := Padding(fmin, |Numeral(n, Radix(f))| + |Minus(f, v)|);
    if leftjust && zero {
      if pad > 0 {
        ScaledDiffers(n, Radix(f), pad, Minus(f, v) == "-");
      } else {
        PowerNone(n, Radix(f));
      }
    }
  }

  lemma FitsIs(s: string, f: char, len: int)
    ensures Fits(s, f, len) <==> (if Negative(s) then 1 else 0) + Span(s, f, len) <= 63
  {
  }

  lemma PowerNone(n: nat, base: nat)
    ensures n * Power(base, 0) == n
  {
  }

  /** Printing one, left-justified and filled with zeros to three places, gives a hundred. */
  lemma ZerosOnTheRight()
    ensures Field('d', true, true, 3, 1) == "100"
  {
    assert Numeral(1, 10) == "1";
    assert Fill('0', 2) == "00";
  }
}
