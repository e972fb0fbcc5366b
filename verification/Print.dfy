/**
 Printing of integers (lib/libxc/doprnt.c:119-228, 250-265, 285-301, 320-335): digit buffers, sign,
 field width and fill.
 */
module Print {
  import opened Words
  import opened Numerals

  const MAXSTR: int := 80

  // ----- what is printed

  function Base(f: char): (base: nat)
    ensures 2 <= base <= 16
  {
    if f == 'o' || f == 'O' then 8 else if f == 'x' || f == 'X' then 16 else 10
  }

  predicate IsSigned(f: char) {
    f == 'd' || f == 'D'
  }

  predicate IsNumeric(f: char) {
    f in {'d', 'D', 'u', 'U', 'o', 'O', 'x', 'X'}
  }

  /** The number whose numeral is printed. */
  function Magnitude(f: char, v: int32): (n: nat)
    ensures n < WORD
  {
    if IsSigned(f) then (if v < 0 then 0 - (v as int) else v) else Unsigned(v)
  }

  function Minus(f: char, v: int32): string {
    if IsSigned(f) && v < 0 then "-" else ""
  }

  /** How many fill characters a field of width fmin needs. */
  function Padding(fmin: int, used: nat): nat {
    if 0 < fmin <= MAXSTR && used < fmin then fmin - used else 0
  }

  function Fill(c: char, n: nat): (r: string)
    ensures |r| == n && forall i :: 0 <= i < n ==> r[i] == c
  {
    seq(n, _ => c)
  }

  /** A printed field: a zero fill goes between the sign and the digits, a blank one before the sign. */
  function Field(f: char, leftjust: bool, zero: bool, fmin: int, v: int32): string {
    var digits := Numeral(Magnitude(f, v), Base(f));
    var sign := Minus(f, v);
    Arranged(sign, digits, leftjust, zero, Padding(fmin, |digits| + |sign|))
  }

  function Arranged(sign: string, digits: string, leftjust: bool, zero: bool, padding: nat): string {
    var pad := Fill(if zero then '0' else ' ', padding);
    if leftjust then sign + digits + pad
    else if zero then sign + pad + digits
    else pad + sign + digits
  }

  // ----- digit buffers

  /** The characters before the first NUL. */
  function Text(s: string): string {
    if s == "" || s[0] == '\0' then "" else [s[0]] + Text(s[1..])
  }

  lemma {:induction false} TextIs(s: string, t: string)
    requires |t| < |s| && s[..|t|] == t && s[|t|] == '\0' && forall i :: 0 <= i < |t| ==> t[i] != '\0'
    ensures Text(s) == t
    decreases |t|
  {
    if t != "" {
      assert s[0] == t[0];
      assert s[1..][..|t| - 1] == s[..|t|][1..];
      TextIs(s[1..], t[1..]);
    }
  }

  lemma {:induction false} ReversedAt(s: string, i: nat)
    requires i < |s|
    ensures Reversed(s)[i] == s[|s| - 1 - i]
  {
    if i < |s| - 1 {
      ReversedAt(s[1..], i);
    }
  }

  lemma {:induction false} LowDigitsClean(n: nat, base: nat, k: nat)
    requires 2 <= base <= 16
    ensures forall i :: 0 <= i < k ==> LowDigits(n, base, k)[i] != '\0'
    decreases k
  {
    if k > 0 {
      LowDigitsClean(n / base, base, k - 1);
    }
  }

  /** The end of each of the three routines: temp[1..k] backwards, without leading zeros. */
  method CopyDigits(temp: array<char>, k: nat, str: array<char>)
    requires temp.Length == k + 1 && temp[0] == '\0' && 1 <= k < str.Length && temp != str
    requires forall i :: 1 <= i <= k ==> temp[i] != '\0'
    modifies str
    ensures Text(str[..]) == Reversed(Trimmed(temp[1..]))
  {
    ghost var digits := temp[1..];
    assert digits == temp[1..k + 1];
    var i := k;
    while temp[i] == '0'
      invariant 0 <= i <= k && temp[0] == '\0'
      invariant i > 0 ==> Trimmed(temp[1..i + 1]) == Trimmed(digits)
      invariant i == 0 ==> Trimmed(digits) == temp[1..2]
      decreases i
    {
      assert i > 1 ==> temp[1..i + 1][..i - 1] == temp[1..i];
      i := i - 1;
    }
    if i == 0 {
      i := i + 1;
    }
    ghost var t := Trimmed(digits);
    assert t == temp[1..i + 1];
    var j := 0;
    ghost var n := i;
    while i >= 0
      invariant -1 <= i <= n && j == n - i && n < str.Length
      invariant forall h :: 0 <= h < j ==> str[h] == temp[n - h]
      decreases i + 1
    {
      str[j] := temp[i];
      i, j := i - 1, j + 1;
    }
    CopiedText(temp[..], n, str[..], t);
  }

  lemma CopiedText(temp: string, n: nat, str: string, t: string)
    requires 1 <= n < |temp| && n < |str| && t == temp[1..n + 1] && temp[0] == '\0'
    requires forall h :: 0 <= h <= n ==> str[h] == temp[n - h]
    requires forall i :: 1 <= i <= n ==> temp[i] != '\0'
    ensures Text(str) == Reversed(t)
  {
    forall i | 0 <= i < n
      ensures str[..n][i] == Reversed(t)[i]
    {
      ReversedAt(t, i);
    }
    assert str[..n] == Reversed(t);
    TextIs(str, Reversed(t));
  }

  lemma DecimalDigit(d: nat)
    requires d < 10
    ensures (d + '0' as int) as char == DigitChar(d)
  {
  }

  /** What the loops over the digits keep: the digits so far, and those still to come. */
  ghost predicate Filling(temp: string, i: nat, n: nat, rest: nat, base: nat, k: nat)
    requires 2 <= base <= 16
  {
    && |temp| == k + 1 && 1 <= i <= k + 1 && temp[0] == '\0'
    && temp[1..i] + LowDigits(rest, base, k + 1 - i) == LowDigits(n, base, k)
  }

  lemma FillingDone(temp: string, n: nat, rest: nat, base: nat, k: nat)
    requires 2 <= base <= 16 && k >= 1 && Filling(temp, k + 1, n, rest, base, k) && n < Power(base, k)
    ensures Reversed(Trimmed(temp[1..])) == Numeral(n, base) && forall i :: 1 <= i <= k ==> temp[i] != '\0'
  {
    LowDigitsClean(n, base, k);
    NumeralFromDigits(n, base, k);
    assert temp[1..k + 1] + LowDigits(rest, base, 0) == temp[1..k + 1] == temp[1..];
    forall i | 1 <= i <= k
      ensures temp[i] != '\0'
    {
      assert temp[1..][i - 1] == temp[i];
    }
  }

  /** One digit more. */
  lemma FillingMore(temp: string, temp': string, i: nat, n: nat, rest: nat, base: nat, k: nat)
    requires 2 <= base <= 16 && i <= k && Filling(temp, i, n, rest, base, k)
    requires temp' == temp[i := DigitChar(rest % base)]
    ensures Filling(temp', i + 1, n, rest / base, base, k)
  {
    assert temp'[1..i + 1] == temp[1..i] + [DigitChar(rest % base)];
  }

  lemma FillingStart(temp: string, n: nat, base: nat, k: nat)
    requires 2 <= base <= 16 && |temp| == k + 1 && temp[0] == '\0'
    ensures Filling(temp, 1, n, n, base, k)
  {
  }

  /** _prtl10. */
  method Prtl10(num0: nat, str: array<char>)
    requires num0 < 0x8000_0000 && str.Length == 20
    modifies str
    ensures Text(str[..]) == Numeral(num0, 10)
  {
    hide Filling, LowDigits, Trimmed, Reversed, Numeral;
    PowerValues();
    var num: nat := num0;
    var temp := new char[11](_ => '\0');
    FillingStart(temp[..], num, 10, 10);
    var i := 1;
    while i <= 10
      invariant 1 <= i <= 11 && temp[0] == '\0' && Filling(temp[..], i, num0, num, 10, 10)
    {
      ghost var was := temp[..];
      DecimalDigit(num % 10);
      temp[i] := (num % 10 + '0' as int) as char;
      FillingMore(was, temp[..], i, num0, num, 10, 10);
      num := num / 10;
      i := i + 1;
    }
    FillingDone(temp[..], num0, num, 10, 10);
    assert temp[1..] == temp[..][1..];
    CopyDigits(temp, 10, str);
  }

  lemma PowerValues()
    ensures Power(10, 9) == 1000000000 && Power(10, 10) == 10000000000 && Power(8, 11) == 8589934592
    ensures Power(16, 8) == WORD
  {
    assert Power(10, 3) == 1000 && Power(10, 6) == 1000000;
    assert Power(8, 4) == 4096 && Power(8, 8) == 16777216;
    assert Power(16, 4) == 65536;
  }

  // ----- shifting negative numbers

  /** num is u, less s when the number printed is negative; s is what is left of 2^32. */
  ghost predicate Shifted(num: int, u: nat, s: nat, negative: bool) {
    num == if negative then u - s else u
  }

  /** The low digit and the arithmetic shift do not see the sign as long as s is divisible. */
  lemma ShiftStep(num: int, u: nat, s: nat, negative: bool, base: nat)
    requires Shifted(num, u, s, negative) && base > 0 && s % base == 0
    ensures num % base == u % base && Shifted(num / base, u / base, s / base, negative)
  {
    var q := s / base;
    assert s == q * base;
    if negative {
      SubMultiple(u, q, base);
    }
  }

  lemma SubMultiple(u: nat, q: nat, base: nat)
    requires base > 0
    ensures (u - q * base) % base == u % base && (u - q * base) / base == u / base - q
  {
    var a, b := u / base, u % base;
    assert u - q * base == (a - q) * base + b;
    Unique(u - q * base, a - q, b, base);
  }

  lemma Unique(x: int, a: int, b: int, base: nat)
    requires x == a * base + b && 0 <= b < base
    ensures x / base == a && x % base == b
  {
    var d := x / base - a;
    assert x == x / base * base + x % base;
    assert d * base == b - x % base by {
      assert d * base == x / base * base - a * base;
    }
    if d >= 1 {
      MulLe(1, d, base);
    } else if d <= -1 {
      MulLe(d, -1, base);
    }
  }

  /** What is left of 2^32 after i digits of b bits. */
  ghost predicate Weight(s: nat, b: nat, i: nat) {
    b * i <= 32 && s == Pow2(32 - b * i)
  }

  lemma WeightStep(s: nat, b: nat, i: nat, u: nat, base: nat)
    requires Weight(s, b, i) && b * (i + 1) <= 32 && u < s && base == Pow2(b)
    ensures s % base == 0 && Weight(s / base, b, i + 1) && u / base < s / base
  {
    hide Pow2;
    var rest := 32 - b * (i + 1);
    assert b * (i + 1) == b * i + b;
    Pow2Add(rest, b);
    Unique(s, Pow2(rest), 0, base);
    QuotientBound(u, base, Pow2(rest));
  }

  lemma WeightStart(b: nat, v: int32)
    ensures Weight(WORD, b, 0) && Shifted(v, Unsigned(v), WORD, v < 0)
  {
    Pow2Values();
  }

  lemma HexDigit(d: nat)
    requires d < 16
    ensures "0123456789abcdef"[d] == DigitChar(d)
  {
  }

  /** _prtl16: `num & 0x0f` and `num >> 4` of a possibly negative number. */
  method Prtl16(num0: int32, str: array<char>)
    requires str.Length == 20
    modifies str
    ensures Text(str[..]) == Numeral(Unsigned(num0), 16)
  {
    hide Filling, LowDigits, Trimmed, Reversed, Numeral, Shifted, Weight, Unsigned, Pow2, Power, DigitChar;
    PowerValues();
    Pow2Values();
    var num: int := num0;
    var temp := new char[9](_ => '\0');
    ghost var u: nat, s: nat := Unsigned(num0), WORD;
    FillingStart(temp[..], u, 16, 8);
    WeightStart(4, num0);
    var i := 1;
    while i <= 8
      invariant 1 <= i <= 9 && temp[0] == '\0' && Filling(temp[..], i, Unsigned(num0), u, 16, 8)
      invariant Shifted(num, u, s, num0 < 0) && Weight(s, 4, i - 1) && u < s
    {
      ghost var was := temp[..];
      WeightStep(s, 4, i - 1, u, 16);
      ShiftStep(num, u, s, num0 < 0, 16);
      HexDigit(num % 16);
      temp[i] := "0123456789abcdef"[num % 16];
      FillingMore(was, temp[..], i, Unsigned(num0), u, 16, 8);
      num := num / 16;
      u, s := u / 16, s / 16;
      i := i + 1;
    }
    FillingDone(temp[..], Unsigned(num0), u, 16, 8);
    assert temp[1..] == temp[..][1..];
    CopyDigits(temp, 8, str);
  }

  /** `temp[11] &= '3'` keeps the two bits that are left of 32. */
  lemma TopOctal(num: int, u: nat, negative: bool)
    requires Shifted(num, u, 4, negative) && u < 4
    ensures And(num % 8 + '0' as int, '3' as int) < 256
    ensures And(num % 8 + '0' as int, '3' as int) as char == DigitChar(u % 8)
  {
    hide And;
    MaskedDigit(num % 8);
    DecimalDigit(u);
  }

  lemma MaskedDigit(d: nat)
    requires d < 8
    ensures And(d + '0' as int, '3' as int) == d % 4 + '0' as int
  {
    hide And;
    var x := d + 48;
    AndStep(x, 51);
    AndStep(x / 2, 25);
    Quarter(d);
    AndTwelve(x / 4);
  }

  lemma Quarter(d: nat)
    requires d < 8
    ensures (d + 48) / 2 / 2 == (d + 48) / 4 && 12 <= (d + 48) / 4 <= 13
    ensures (d + 48) % 2 + 2 * ((d + 48) / 2 % 2) == d % 4
  {
  }

  lemma AndTwelve(y: nat)
    requires 12 <= y <= 13
    ensures And(y, 12) == 12
  {
    hide And;
    AndStep(y, 12);
    AndStep(6, 6);
    AndStep(3, 3);
    AndStep(1, 1);
    AndStep(0, 0);
  }

  /** _prtl8: eleven octal digits, the last of which is masked. */
  method Prtl8(num0: int32, str: array<char>)
    requires str.Length == 20
    modifies str
    ensures Text(str[..]) == Numeral(Unsigned(num0), 8)
  {
    hide Filling, LowDigits, Trimmed, Reversed, Numeral, Shifted, Weight, Unsigned, And, Pow2, Power, DigitChar;
    PowerValues();
    Pow2Values();
    var num: int := num0;
    var temp := new char[12](_ => '\0');
    ghost var u: nat, s: nat := Unsigned(num0), WORD;
    FillingStart(temp[..], u, 8, 11);
    WeightStart(3, num0);
    ghost var last, before := num, temp[..];
    var i := 1;
    while i <= 11
      invariant 1 <= i <= 12 && temp[0] == '\0' && |before| == 12
      invariant i <= 11 ==> before == temp[..] && last == num
      invariant i == 12 ==> temp[..] == before[11 := (last % 8 + '0' as int) as char]
      invariant Filling(before, if i == 12 then 11 else i, Unsigned(num0), u, 8, 11)
      invariant Shifted(last, u, s, num0 < 0) && Weight(s, 3, if i == 12 then 10 else i - 1) && u < s
    {
      temp[i] := (num % 8 + '0' as int) as char;
      if i < 11 {
        WeightStep(s, 3, i - 1, u, 8);
        ShiftStep(num, u, s, num0 < 0, 8);
        DecimalDigit(num % 8);
        FillingMore(before, temp[..], i, Unsigned(num0), u, 8, 11);
        u, s, before, last := u / 8, s / 8, temp[..], num / 8;
      }
      num := num / 8;
      i := i + 1;
    }
    LastOctal(last, u, s, num0 < 0);
    temp[11] := And(temp[11] as int, '3' as int) as char;
    FillingMore(before, temp[..], 11, Unsigned(num0), u, 8, 11);
    FillingDone(temp[..], Unsigned(num0), u / 8, 8, 11);
    assert temp[1..] == temp[..][1..];
    CopyDigits(temp, 11, str);
  }

  lemma LastOctal(num: int, u: nat, s: nat, negative: bool)
    requires Weight(s, 3, 10) && Shifted(num, u, s, negative) && u < s
    ensures And(num % 8 + '0' as int, '3' as int) < 256
    ensures And(num % 8 + '0' as int, '3' as int) as char == DigitChar(u % 8)
  {
    hide And, Shifted;
    assert s == 4;
    TopOctal(num, u, negative);
  }

  // ----- numbers beyond the range of a long

  const BILLION: nat := 1000000000

  /** A multiple of 10^k does not show in the k low digits. */
  lemma {:induction false} LowDigitsMod(m: nat, q: nat, k: nat, n: nat)
    requires n == m + q * Power(10, k)
    ensures LowDigits(n, 10, k) == LowDigits(m, 10, k)
    decreases k
  {
    hide Power, DigitChar;
    if k > 0 {
      LastDigit(m, q, k, n);
      LowDigitsMod(m / 10, q, k - 1, n / 10);
    }
  }

  lemma LastDigit(m: nat, q: nat, k: nat, n: nat)
    requires k > 0 && n == m + q * Power(10, k)
    ensures n % 10 == m % 10 && n / 10 == m / 10 + q * Power(10, k - 1)
  {
    var u, p := Power(10, k - 1), q * Power(10, k - 1);
    TenTimes(q, u, Power(10, k));
    Unique(n, m / 10 + p, m % 10, 10);
  }

  lemma TenTimes(q: nat, u: nat, v: nat)
    requires v == 10 * u
    ensures q * v == 10 * (q * u)
  {
  }

  lemma ReversedLow(n: nat, k: nat)
    ensures Reversed(LowDigits(n, 10, k + 1)) == Reversed(LowDigits(n / 10, 10, k)) + [DigitChar(n % 10)]
  {
    ReversedFirst(DigitChar(n % 10), LowDigits(n / 10, 10, k));
  }

  /** A number of k + 1 digits: its first digit, and its k low digits. */
  lemma {:induction false} NumeralTop(n: nat, k: nat)
    requires Power(10, k) <= n < 10 * Power(10, k)
    ensures 1 <= n / Power(10, k) <= 9
    ensures Numeral(n, 10) == [DigitChar(n / Power(10, k))] + Reversed(LowDigits(n, 10, k))
    decreases k
  {
    if k > 0 {
      var p := Power(10, k - 1);
      assert Power(10, k) == 10 * p;
      QuotientBound(n, 10, 10 * p);
      assert n / 10 >= p;
      NumeralTop(n / 10, k - 1);
      ReversedLow(n, k - 1);
      DivTwice(n, p);
    }
  }

  lemma DivTwice(n: nat, p: nat)
    requires p >= 1
    ensures n / 10 / p == n / (10 * p)
  {
    var a := n / 10 / p;
    var r := n / 10 % p;
    assert n / 10 == a * p + r;
    Unique(n, a, 10 * r + n % 10, 10 * p);
  }

  /** Billions taken off before printing are added to the first digit afterwards. */
  lemma AddBack(u: nat, x: nat, d: nat)
    requires u == x + d * BILLION && BILLION <= x < 0x8000_0000 && u < WORD
    ensures var s := Numeral(x, 10); s[0] as int + d < 256 && Numeral(u, 10) == [(s[0] as int + d) as char] + s[1..]
  {
    hide Numeral, LowDigits, Reversed;
    PowerValues();
    NumeralTop(x, 9);
    NumeralTop(u, 9);
    LowDigitsMod(x, d, 9, u);
    assert u / BILLION == x / BILLION + d;
    DecimalDigit(x / BILLION);
    DecimalDigit(u / BILLION);
  }

  lemma WrapBillion(x: nat)
    requires 0x8000_0000 <= x < WORD
    ensures Wrap(Signed(x) - BILLION) == Signed(x - BILLION)
  {
    ModShift(x - BILLION, 1);
  }

  lemma TextStarts(s: string, t: string)
    requires Text(s) == t && t != ""
    ensures s != "" && s[0] == t[0] && s[0] != '\0'
  {
  }

  lemma TextFirst(s: string, c: char)
    requires s != "" && s[0] != '\0' && c != '\0'
    ensures Text(s) == [s[0]] + Text(s[1..]) && Text(s[0 := c]) == [c] + Text(s[1..])
  {
    assert s[0 := c][1..] == s[1..];
  }

  /** The loop that makes *args positive, and the decimal digits. */
  method PrintDecimal(args: array<int32>, k: nat, str: array<char>)
    requires k < args.Length && str.Length == 20
    modifies args, str
    ensures Text(str[..]) == Numeral(Unsigned(old(args[k])), 10)
    ensures forall i :: 0 <= i < args.Length && i != k ==> args[i] == old(args[i])
  {
    hide Text, Numeral, Wrap;
    var digit1 := 0;
    ghost var u := Unsigned(args[k]);
    ghost var x: nat := u;
    while args[k] < 0
      invariant u == x + digit1 * BILLION && x < WORD && args[k] == Signed(x) && digit1 >= 0
      invariant digit1 > 0 ==> x >= BILLION
      invariant forall i :: 0 <= i < args.Length && i != k ==> args[i] == old(args[i])
      decreases x
    {
      WrapBillion(x);
      args[k] := Wrap(args[k] - BILLION);
      x := x - BILLION;
      digit1 := digit1 + 1;
    }
    Prtl10(args[k], str);
    TextStarts(str[..], Numeral(x, 10));
    if digit1 > 0 {
      AddBack(u, x, digit1);
      TextFirst(str[..], (str[0] as int + digit1) as char);
    }
    ghost var was := str[..];
    str[0] := (str[0] as int + digit1) as char;
    assert str[..] == was[0 := (was[0] as int + digit1) as char];
    if digit1 == 0 {
      assert was[0 := was[0]] == was;
    }
  }

  // ----- the field

  /** The switch of _doprnt for numbers: the sign, and the digits in str. */
  method Convert(f: char, args: array<int32>, k: nat, str: array<char>) returns (sign: string)
    requires IsNumeric(f) && k < args.Length && str.Length == 20
    modifies args, str
    ensures Text(str[..]) == Numeral(Magnitude(f, old(args[k])), Base(f)) && sign == Minus(f, old(args[k]))
    ensures forall i :: 0 <= i < args.Length && i != k ==> args[i] == old(args[i])
  {
    hide Text, Numeral, Unsigned, Wrap;
    sign := "";
    match f
    case 'd' | 'D' =>
      NegatedMagnitude(args[k]);
      if args[k] < 0 {
        sign := "-";
        args[k] := Wrap(0 - (args[k] as int));
      }
      PrintDecimal(args, k, str);
    case 'u' | 'U' => PrintDecimal(args, k, str);
    case 'o' | 'O' => Prtl8(args[k], str);
    case 'x' | 'X' => Prtl16(args[k], str);
  }

  /** Negating the most negative number leaves it as it is, with the right bits. */
  lemma NegatedMagnitude(v: int32)
    ensures v < 0 ==> Unsigned(Wrap(0 - (v as int))) == 0 - (v as int)
    ensures v >= 0 ==> Unsigned(v) == v
  {
  }

  lemma TextLength(s: string, n: nat)
    requires n <= |Text(s)|
    ensures n <= |s| && s[..n] == Text(s)[..n] && (n < |s| ==> (s[n] == '\0' <==> n == |Text(s)|))
    ensures n == |s| ==> n == |Text(s)|
    decreases n
  {
    if n > 0 {
      TextLength(s[1..], n - 1);
      assert s[..n] == [s[0]] + s[1..][..n - 1];
      assert Text(s)[..n] == [s[0]] + Text(s[1..])[..n - 1];
    }
  }

  /** The number of characters before the first NUL. */
  method Length(str: array<char>) returns (length: nat)
    ensures length == |Text(str[..])| <= str.Length && str[..length] == Text(str[..])
  {
    hide Text;
    length := 0;
    TextLength(str[..], 0);
    while length < str.Length && str[length] != '\0'
      invariant 0 <= length <= |Text(str[..])| && length <= str.Length
    {
      TextLength(str[..], length);
      length := length + 1;
    }
    TextLength(str[..], length);
    assert str[..][..length] == str[..length];
  }

  /** What a directive writes, once its flags and its width are known. */
  method PrintField(f: char, leftjust: bool, zero: bool, fmin0: int, args: array<int32>, k: nat) returns (out: string)
    requires IsNumeric(f) && k < args.Length
    modifies args
    ensures out == Field(f, leftjust, zero, fmin0, old(args[k]))
    ensures forall i :: 0 <= i < args.Length && i != k ==> args[i] == old(args[i])
  {
    hide Text, Numeral, Magnitude, Base, IsNumeric, Arranged;
    var str := new char[20](_ => '\0');
    var sign := Convert(f, args, k, str);
    var length := Length(str);
    var fmin := if fmin0 > MAXSTR || fmin0 < 0 then 0 else fmin0;
    var leading := 0;
    if fmin != 0 {
      leading := fmin - length;
      if sign == "-" {
        leading := leading - 1;
      }
    }
    out := Arrange(sign, str[..length], leftjust, zero, leading);
  }

  /** Sign, fill and digits, in the order that the flags ask for. */
  method Arrange(sign: string, digits: string, leftjust: bool, zero: bool, leading: int) returns (out: string)
    requires sign == "" || sign == "-"
    ensures out == Arranged(sign, digits, leftjust, zero, if leading < 0 then 0 else leading)
  {
    var fill := if zero then '0' else ' ';
    out := "";
    if sign == "-" && fill == '0' {
      out := out + sign;
    }
    if !leftjust {
      out := PutFill(out, fill, leading);
    }
    if sign == "-" && fill == ' ' {
      out := out + sign;
    }
    out := out + digits;
    if leftjust {
      out := PutFill(out, fill, leading);
    }
  }

  /** The loops that write fill characters. */
  method PutFill(out0: string, fill: char, leading: int) returns (out: string)
    ensures out == out0 + Fill(fill, if leading < 0 then 0 else leading)
  {
    out := out0;
    var i := 0;
    while i < leading
      invariant 0 <= i && (leading >= 0 ==> i <= leading) && (leading < 0 ==> i == 0) && out == out0 + Fill(fill, i)
    {
      out := out + [fill];
      i := i + 1;
    }
  }
}
