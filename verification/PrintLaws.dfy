/**
 Fields and scanned numbers by their characters: which letters print alike, where sign, fill
 and digits stand, what the digits and the letters of a number are worth, and what
 blanks and signs before a number do.
 */
module PrintLaws {
  import opened Words
  import opened Numerals
  import opened Print
  import opened Scan
  import opened PrintScan

  // ----- printing

  /** A capital conversion letter prints what the small one prints. */
  lemma CapitalsAlike(leftjust: bool, zero: bool, fmin: int, v: int32)
    ensures Field('D', leftjust, zero, fmin, v) == Field('d', leftjust, zero, fmin, v)
    ensures Field('U', leftjust, zero, fmin, v) == Field('u', leftjust, zero, fmin, v)
    ensures Field('O', leftjust, zero, fmin, v) == Field('o', leftjust, zero, fmin, v)
    ensures Field('X', leftjust, zero, fmin, v) == Field('x', leftjust, zero, fmin, v)
  {
    hide Arranged, Numeral;
  }

  /** The digits, by their characters. */
  lemma DigitChars(d: nat)
    requires d < 16
    ensures DigitChar(d) == "0123456789abcdef"[d] && DigitValue("0123456789abcdef"[d] as int) == d
    ensures IsDigit("0123456789ABCDEF"[d] as int, 16) && DigitValue("0123456789ABCDEF"[d] as int) == d
  {
  }

  /** From a to b - 1 the text consists of this character. */
  ghost predicate All(t: string, a: nat, b: nat, c: char) {
    a <= b <= |t| && forall i :: a <= i < b ==> t[i] == c
  }

  /**
   Sign, digits and fill in a text t: the fill comes after the digits, between the sign and
   the digits, or before the sign.
   */
  ghost predicate Laid(t: string, sign: string, digits: string, leftjust: bool, zero: bool) {
    var w := |sign| + |digits|;
    && w <= |t|
    && (leftjust ==> sign + digits <= t && All(t, w, |t|, if zero then '0' else ' '))
    && (!leftjust && zero ==> sign <= t && All(t, |sign|, |t| - |digits|, '0') && t[|t| - |digits|..] == digits)
    && (!leftjust && !zero ==> All(t, 0, |t| - w, ' ') && t[|t| - w..] == sign + digits)
  }

  /** A field: a minus sign, the digits in the letter's base, and fill up to a width of 1 to 80. */
  lemma FieldLaid(f: char, leftjust: bool, zero: bool, fmin: int, v: int32)
    requires IsNumeric(f)
    ensures var t, n: int := Field(f, leftjust, zero, fmin, v), v;
      var sign := if (f == 'd' || f == 'D') && n < 0 then "-" else "";
      var digits := Numeral(if f == 'd' || f == 'D' then (if n < 0 then -n else n)
                            else if n < 0 then n + 0x1_0000_0000 else n, Radix(f));
      var w := |sign| + |digits|;
      |t| == (if 0 < fmin <= 80 && w < fmin then fmin else w) && Laid(t, sign, digits, leftjust, zero)
  {
    hide Numeral, Arranged, Laid;
    var digits, sign := Numeral(Magnitude(f, v), Radix(f)), Minus(f, v);
    SignedMagnitude(f, v);
    ArrangedLaid(sign, digits, leftjust, zero, Padding(fmin, |digits| + |sign|));
  }

  lemma ArrangedLaid(sign: string, digits: string, leftjust: bool, zero: bool, padding: nat)
    ensures var t := Arranged(sign, digits, leftjust, zero, padding);
      |t| == |sign| + |digits| + padding && Laid(t, sign, digits, leftjust, zero)
  {
  }

  // ----- scanning

  /** t is s with some of its letters a to f made capitals. */
  ghost predicate Alike(s: string, t: string) {
    |s| == |t| && forall i :: 0 <= i < |s| ==> t[i] == s[i] || ('a' <= s[i] <= 'f' && t[i] as int == s[i] as int - 32)
  }

  lemma AlikeTail(s: string, t: string, i: nat, j: nat)
    requires Alike(s, t) && i <= j <= |s|
    ensures Alike(s[i..j], t[i..j])
  {
  }

  lemma {:induction false} AlikeBlanks(s: string, t: string)
    requires Alike(s, t)
    ensures Blanks(s) == Blanks(t)
  {
    if s != "" {
      AlikeTail(s, t, 1, |s|);
      AlikeBlanks(s[1..], t[1..]);
    }
  }

  lemma {:induction false} AlikeDigits(s: string, t: string, base: nat, len: int)
    requires Alike(s, t)
    ensures Digits(s, base, len) == Digits(t, base, len)
    decreases |s|
  {
    if s != "" {
      AlikeTail(s, t, 1, |s|);
      AlikeDigits(s[1..], t[1..], base, len - 1);
    }
  }

  lemma {:induction false} AlikeValue(s: string, t: string, base: nat)
    requires Alike(s, t) && Digital(s) && Digital(t)
    ensures Value(s, base) == Value(t, base)
    decreases |s|
  {
    if s != "" {
      AlikeTail(s, t, 0, |s| - 1);
      AlikeValue(s[..|s| - 1], t[..|s| - 1], base);
    }
  }

  /** A scan in terms of what stands where the digits start. */
  lemma ScannedTail(s: string, f: char, len: int, tail: string, n: nat)
    requires tail == s[Start(s)..] && n == Digits(tail, ScanBase(f), if HasSign(s) then len - 1 else len)
    ensures n <= |tail| && Digital(tail[..n])
    ensures var value := Value(tail[..n], ScanBase(f));
      Scanned(s, f, len) == Result(Negative(s) || n > 0, Wrap(if Negative(s) then 0 - value else value), Start(s) + n)
  {
    hide Value, Blanks, Wrap, HasSign, Negative, ScanBase, Start;
    assert s[Start(s)..Start(s) + n] == tail[..n];
  }

  /** Hexadecimal digits may be written as capitals. */
  lemma CapitalsScanAlike(s: string, t: string, f: char, len: int)
    requires Alike(s, t)
    ensures Scanned(s, f, len) == Scanned(t, f, len)
  {
    hide Value, Digits, Blanks, Digital, Wrap, Scanned, ScanBase, Alike, IsDigit;
    AlikeStart(s, t);
    AlikeTail(s, t, Start(s), |s|);
    var u, v := s[Start(s)..], t[Start(s)..];
    var limit := if HasSign(s) then len - 1 else len;
    AlikeDigits(u, v, ScanBase(f), limit);
    var n := Digits(u, ScanBase(f), limit);
    ScannedTail(s, f, len, u, n);
    ScannedTail(t, f, len, v, n);
    AlikeTail(u, v, 0, n);
    AlikeValue(u[..n], v[..n], ScanBase(f));
  }

  lemma AlikeStart(s: string, t: string)
    requires Alike(s, t)
    ensures |s| == |t| && Start(s) == Start(t) && (HasSign(s) <==> HasSign(t)) && (Negative(s) <==> Negative(t))
  {
    hide Blanks;
    AlikeBlanks(s, t);
  }

  lemma BlankStart(c: char, s: string)
    requires c as int in {32, 9, 10}
    ensures var t := [c] + s;
      && Start(t) == 1 + Start(s) && (HasSign(s) <==> HasSign(t)) && (Negative(s) <==> Negative(t))
      && t[Start(t)..] == s[Start(s)..]
  {
    assert ([c] + s)[1..] == s;
    assert Blanks([c] + s) == 1 + Blanks(s);
  }

  /** A space, a tab or a line feed before a number is skipped. */
  lemma BlankBefore(c: char, s: string, f: char, len: int)
    requires c as int in {32, 9, 10}
    ensures var r := Scanned(s, f, len); Scanned([c] + s, f, len) == Result(r.matched, r.value, r.used + 1)
  {
    hide Value, Digits, Digital, Wrap, Scanned, ScanBase, IsDigit, Start, HasSign, Negative;
    BlankStart(c, s);
    var tail := s[Start(s)..];
    var n := Digits(tail, ScanBase(f), if HasSign(s) then len - 1 else len);
    ScannedTail(s, f, len, tail, n);
    ScannedTail([c] + s, f, len, tail, n);
  }

  /** A plus sign before a number changes nothing, a minus sign negates it; either counts against the length. */
  lemma SignBefore(s: string, f: char, len: int)
    requires s == "" || (!IsBlank(s[0] as int) && s[0] != '+' && s[0] != '-')
    ensures var r := Scanned(s, f, len - 1);
      && Scanned("+" + s, f, len) == Result(r.matched, r.value, r.used + 1)
      && Scanned("-" + s, f, len) == Result(true, Wrap(0 - (r.value as int)), r.used + 1)
  {
    hide Value, Digits, Digital, Wrap;
    assert Blanks(s) == 0 && Start(s) == 0;
    SignedParts("+", s);
    SignedParts("-", s);
    var n := Span(s, f, len - 1);
    assert s[0..] == s;
    assert ("+" + s)[1..1 + n] == s[..n] && ("-" + s)[1..1 + n] == s[..n];
    WrapNegated(Value(s[..n], ScanBase(f)));
  }

  lemma SignedParts(sign: string, s: string)
    requires sign == "+" || sign == "-"
    ensures Blanks(sign + s) == 0 && Start(sign + s) == 1 && HasSign(sign + s) && (Negative(sign + s) <==> sign == "-")
    ensures (sign + s)[1..] == s
  {
  }

  /** No more than len digits are taken, and all of them if there are no more. */
  lemma {:induction false} LengthLimits(s: string, base: nat, len: int)
    requires AllDigits(s, base)
    ensures Digits(s, base, len) == if len <= 0 then 0 else if len < |s| then len else |s|
    decreases |s|
  {
    if s != "" && len > 0 {
      LengthLimits(s[1..], base, len - 1);
    }
  }
}
