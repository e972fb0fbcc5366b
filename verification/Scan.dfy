/**
 Scanning of integers (lib/libxc/doscan.c:119-205).
 */
module Scan {
  import opened Words
  import opened Numerals
  import opened Print

  const EOF: int := -1

  /** A stream of characters with one character of pushback; it gives EOF at its end. */
  class Source {
    const data: string
    var pos: nat

    ghost predicate Valid()
      reads this
    {
      pos <= |data|
    }

    constructor (data: string)
      ensures Valid() && this.data == data && pos == 0
    {
      this.data, pos := data, 0;
    }

    method Getch() returns (c: int)
      requires Valid()
      modifies this
      ensures Valid()
      ensures old(pos) < |data| ==> c == data[old(pos)] as int && pos == old(pos) + 1
      ensures old(pos) == |data| ==> c == EOF && pos == old(pos)
    {
      if pos < |data| {
        c := data[pos] as int;
        pos := pos + 1;
      } else {
        c := EOF;
      }
    }

    method Ungetch()
      requires Valid() && pos > 0
      modifies this
      ensures Valid() && pos == old(pos) - 1
    {
      pos := pos - 1;
    }
  }

  // ----- what is scanned

  predicate IsBlank(c: int) {
    c == ' ' as int || c == '\t' as int || c == '\n' as int
  }

  /** The characters that the loop takes: all decimal digits, also in octal, and letters in hexadecimal. */
  predicate IsDigit(c: int, base: nat) {
    || '0' as int <= c <= '9' as int
    || (base == 16 && ('a' as int <= c <= 'f' as int || 'A' as int <= c <= 'F' as int))
  }

  function DigitValue(c: int): (d: nat)
    requires IsDigit(c, 16)
    ensures d < 16
  {
    if c <= '9' as int then c - '0' as int
    else if 'a' as int <= c then c - 'a' as int + 10
    else c - 'A' as int + 10
  }

  /** How many blanks s starts with. */
  function Blanks(s: string): (n: nat)
    ensures n <= |s| && (forall i :: 0 <= i < n ==> IsBlank(s[i] as int)) && (n < |s| ==> !IsBlank(s[n] as int))
  {
    if s == "" || !IsBlank(s[0] as int) then 0 else 1 + Blanks(s[1..])
  }

  /** How many digits s starts with, not counting beyond len. */
  function Digits(s: string, base: nat, len: int): (n: nat)
    ensures n <= |s| && forall i :: 0 <= i < n ==> IsDigit(s[i] as int, 16)
    ensures n < |s| && n < len ==> !IsDigit(s[n] as int, base)
    decreases |s|
  {
    if s == "" || len <= 0 || !IsDigit(s[0] as int, base) then 0 else 1 + Digits(s[1..], base, len - 1)
  }

  predicate Digital(s: string) {
    forall i :: 0 <= i < |s| ==> IsDigit(s[i] as int, 16)
  }

  /** The number that digits stand for. */
  function Value(s: string, base: nat): nat
    requires Digital(s)
  {
    if s == "" then 0 else Value(s[..|s| - 1], base) * base + DigitValue(s[|s| - 1] as int)
  }

  /** A scan: what is stored, if anything, and how many characters are used up. */
  datatype Result = Result(matched: bool, value: int32, used: nat)

  function ScanBase(f: char): nat {
    if f == 'o' then 8 else if f == 'x' then 16 else 10
  }

  /** Whether a minus sign, or any sign, follows the blanks. */
  predicate Negative(s: string) {
    Blanks(s) < |s| && s[Blanks(s)] == '-'
  }

  predicate HasSign(s: string) {
    Negative(s) || (Blanks(s) < |s| && s[Blanks(s)] == '+')
  }

  /** Where the digits start, and how many of them there are; a sign counts against len. */
  function Start(s: string): (p: nat)
    ensures p <= |s|
  {
    if HasSign(s) then Blanks(s) + 1 else Blanks(s)
  }

  function Span(s: string, f: char, len: int): (n: nat)
    ensures Start(s) + n <= |s| && Digital(s[Start(s)..Start(s) + n])
  {
    Digits(s[Start(s)..], ScanBase(f), if HasSign(s) then len - 1 else len)
  }

  /** _innum: blanks, a sign, digits. A lone minus sign counts as a number. */
  function Scanned(s: string, f: char, len: int): Result {
    var n := Span(s, f, len);
    var value := Value(s[Start(s)..Start(s) + n], ScanBase(f));
    Result(Negative(s) || n > 0, Wrap(if Negative(s) then 0 - value else value), Start(s) + n)
  }

  // ----- the procedure

  /** Skips blanks, and gets the first character after them. */
  method SkipBlanks(src: Source) returns (c: int)
    requires src.Valid()
    modifies src
    ensures src.Valid() && var p := old(src.pos) + Blanks(src.data[old(src.pos)..]);
      if p < |src.data| then c == src.data[p] as int && src.pos == p + 1 else c == EOF && src.pos == p
  {
    ghost var start := src.pos;
    c := src.Getch();
    while IsBlank(c)
      invariant src.Valid() && start <= src.pos <= |src.data|
      invariant c == EOF ==> src.pos == |src.data| && src.pos == start + Blanks(src.data[start..])
      invariant c != EOF ==> start < src.pos && c == src.data[src.pos - 1] as int
      invariant c != EOF ==> Blanks(src.data[start..]) == src.pos - 1 - start + Blanks(src.data[src.pos - 1..])
      decreases |src.data| - src.pos, c != EOF
    {
      assert src.data[src.pos - 1..][1..] == src.data[src.pos..];
      c := src.Getch();
    }
  }

  /** The value of a digit, and the base's shift or multiplication of what was scanned before. */
  method Accumulate(lcval: int32, base: nat, c: int) returns (v: int32)
    requires IsDigit(c, 16) && base in {8, 10, 16}
    ensures v == Wrap(lcval * base + DigitValue(c))
  {
    if base == 8 {
      v := Wrap(lcval * 8);
    } else if base == 10 {
      v := Wrap(Wrap(Wrap(lcval * 4) + lcval) * 2);
      TimesTen(lcval);
    } else {
      v := Wrap(lcval * 16);
    }
    WrapTwice(lcval * base, 1, DigitValue(c));
    var d := if '0' as int <= c <= '9' as int then c - '0' as int
             else if 'a' as int <= c <= 'f' as int then c - ('a' as int - 10)
             else c - ('A' as int - 10);
    v := Wrap(v + d);
  }

  lemma TimesTen(x: int32)
    ensures Wrap(Wrap(Wrap(x * 4) + x) * 2) == Wrap(x * 10)
  {
    WrapTwice(x * 4, 1, x);
    assert Wrap(Wrap(x * 4) + x) == Wrap(x * 5);
    WrapTwice(x * 5, 2, 0);
  }

  /** c is the character at `at`, which was read. */
  ghost predicate Read(src: Source, c: int, at: nat)
    reads src
  {
    && src.Valid() && at <= |src.data|
    && if at < |src.data| then c == src.data[at] as int && src.pos == at + 1 else c == EOF && src.pos == at
  }

  lemma DigitsNext(s: string, at: nat, base: nat, len: int)
    requires at < |s|
    ensures Digits(s[at..], base, len) ==
      if len <= 0 || !IsDigit(s[at] as int, base) then 0 else 1 + Digits(s[at + 1..], base, len - 1)
  {
    assert s[at..][1..] == s[at + 1..];
  }

  lemma ValueSnoc(t: string, c: char, base: nat)
    requires Digital(t) && IsDigit(c as int, 16)
    ensures Digital(t + [c]) && Value(t + [c], base) == Value(t, base) * base + DigitValue(c as int)
  {
    assert (t + [c])[..|t|] == t;
  }

  lemma ValueNext(s: string, p: nat, at: nat, base: nat)
    requires p <= at < |s| && Digital(s[p..at]) && IsDigit(s[at] as int, 16)
    ensures Digital(s[p..at + 1])
    ensures Value(s[p..at + 1], base) == Value(s[p..at], base) * base + DigitValue(s[at] as int)
  {
    hide Digital, Value, DigitValue, IsDigit;
    ValueSnoc(s[p..at], s[at], base);
    assert s[p..at + 1] == s[p..at] + [s[at]];
  }

  /** The digits: their value modulo 2^32, and how many there are. */
  method ScanDigits(src: Source, c0: int, base: nat, len0: int, numbuf: array<char>, np0: nat, ghost p: nat)
      returns (lcval: int32, c: int, np: nat, ghost at: nat)
    requires Read(src, c0, p) && base in {8, 10, 16}
    requires np0 + Digits(src.data[p..], base, len0) < numbuf.Length
    modifies src, numbuf
    ensures at == p + Digits(src.data[p..], base, len0) <= |src.data| && Read(src, c, at) && np == np0 + (at - p)
    ensures Digital(src.data[p..at]) && lcval == Wrap(Value(src.data[p..at], base))
  {
    hide Digits, Value, Digital, DigitValue, Wrap, Power;
    lcval, c, np, at := 0, c0, np0, p;
    var len := len0;
    ValueNone(src.data, p, base);
    while true
      invariant p <= at <= |src.data| && Read(src, c, at) && np == np0 + (at - p) && Digital(src.data[p..at])
      invariant at + Digits(src.data[at..], base, len) == p + Digits(src.data[p..], base, len0)
      invariant lcval == Wrap(Value(src.data[p..at], base))
      decreases |src.data| - at
    {
      DigitsHere(src.data, at, base, len);
      len := len - 1;
      if len < 0 || !IsDigit(c, base) {
        return;
      }
      ValueNext(src.data, p, at, base);
      WrapTwice(Value(src.data[p..at], base), base, DigitValue(c));
      lcval := Accumulate(lcval, base, c);
      numbuf[np] := c as char;
      np := np + 1;
      c := src.Getch();
      at := at + 1;
    }
  }

  lemma DigitsHere(s: string, at: nat, base: nat, len: int)
    requires at <= |s|
    ensures at == |s| ==> Digits(s[at..], base, len) == 0
    ensures at < |s| && (len <= 0 || !IsDigit(s[at] as int, base)) ==> Digits(s[at..], base, len) == 0
    ensures at < |s| && len > 0 && IsDigit(s[at] as int, base) ==>
      Digits(s[at..], base, len) == 1 + Digits(s[at + 1..], base, len - 1)
  {
    if at < |s| {
      DigitsNext(s, at, base, len);
    }
  }

  lemma ValueNone(s: string, p: nat, base: nat)
    requires p <= |s|
    ensures Digital(s[p..p]) && Value(s[p..p], base) == 0 && Wrap(0) == 0
  {
  }

  /** The characters of a number fit into numbuf with their NUL. */
  predicate Fits(s: string, f: char, len: int) {
    (if Negative(s) then 1 else 0) + Span(s, f, len) + 1 <= 64
  }

  /** The sign: what comes after it, and whether it was a minus, which goes into numbuf. */
  method ScanSign(src: Source, c0: int, numbuf: array<char>, ghost s: string, ghost start: nat)
      returns (c: int, negflg: bool, signed: bool, np: nat)
    requires start <= |src.data| && s == src.data[start..] && Read(src, c0, start + Blanks(s)) && numbuf.Length == 64
    modifies src, numbuf
    ensures Read(src, c, start + Start(s)) && negflg == Negative(s) && signed == HasSign(s)
    ensures np == if negflg then 1 else 0
  {
    hide Blanks;
    c, negflg, signed, np := c0, false, false, 0;
    if c == '-' as int {
      negflg, signed := true, true;
      numbuf[np] := c as char;
      np := np + 1;
      c := src.Getch();
    } else if c == '+' as int {
      signed := true;
      c := src.Getch();
    }
  }

  /** What was scanned, from the number of its digits and their value. */
  lemma ScannedFrom(s: string, f: char, len: int, n: nat, digits: string)
    requires n == Span(s, f, len) && digits == s[Start(s)..Start(s) + n] && Digital(digits)
    ensures var v := Value(digits, ScanBase(f));
      var w := if Negative(s) then Wrap(0 - (Wrap(v) as int)) else Wrap(v);
      Scanned(s, f, len) == Result(Negative(s) || n > 0, w, Start(s) + n)
  {
    hide Value, Wrap, Start, Negative, Digital, Span;
    WrapNegated(Value(digits, ScanBase(f)));
  }

  /** The digits after the sign. */
  method ScanBody(src: Source, f: char, c0: int, signed: bool, len0: int, numbuf: array<char>, np0: nat,
                  ghost s: string, ghost start: nat)
      returns (lcval: int32, c: int, np: nat, ghost n: nat)
    requires start <= |src.data| && s == src.data[start..] && Read(src, c0, start + Start(s)) && signed == HasSign(s)
    requires np0 + Span(s, f, len0) < numbuf.Length
    modifies src, numbuf
    ensures n == Span(s, f, len0) && Start(s) + n <= |s| && Read(src, c, start + Start(s) + n) && np == np0 + n
    ensures Digital(s[Start(s)..Start(s) + n]) && lcval == Wrap(Value(s[Start(s)..Start(s) + n], ScanBase(f)))
  {
    hide Digits, Value, Digital, Wrap, Start, HasSign, Read;
    ghost var p := start + Start(s);
    assert src.data[p..] == s[Start(s)..];
    ghost var at;
    lcval, c, np, at := ScanDigits(src, c0, ScanBase(f), if signed then len0 - 1 else len0, numbuf, np0, p);
    n := at - p;
    assert src.data[p..at] == s[Start(s)..Start(s) + n];
  }

  /** _innum for the numeric conversions; eof says that the stream ended. */
  method Innum(src: Source, f: char, len0: int) returns (matched: bool, value: int32, eof: bool)
    requires src.Valid() && Fits(src.data[src.pos..], f, len0)
    modifies src
    ensures var r := Scanned(old(src.data[src.pos..]), f, len0);
      matched == r.matched && value == r.value && src.pos == old(src.pos) + r.used
    ensures src.Valid() && (eof <==> src.pos == |src.data|)
  {
    hide Digital, Value, Wrap, Blanks, Start, HasSign, Negative, Read, Span, Scanned;
    ghost var s, start := src.data[src.pos..], src.pos;
    var numbuf := new char[64](_ => '\0');
    var c := SkipBlanks(src);
    ReadFirst(src, c, s, start);
    var negflg, signed, np, lcval;
    c, negflg, signed, np := ScanSign(src, c, numbuf, s, start);
    ghost var n;
    lcval, c, np, n := ScanBody(src, f, c, signed, len0, numbuf, np, s, start);
    ScannedFrom(s, f, len0, n, s[Start(s)..Start(s) + n]);
    if negflg {
      lcval := Wrap(0 - (lcval as int));
    }
    eof := Unread(src, c, start + Start(s) + n);
    matched, value := np != 0, lcval;
  }

  lemma ReadFirst(src: Source, c: int, s: string, start: nat)
    requires src.Valid() && start <= |src.data| && s == src.data[start..]
    requires var p := start + Blanks(s);
      if p < |src.data| then c == src.data[p] as int && src.pos == p + 1 else c == EOF && src.pos == p
    ensures Read(src, c, start + Blanks(s))
  {
  }

  /** The character after the number goes back. */
  method Unread(src: Source, c: int, ghost at: nat) returns (eof: bool)
    requires Read(src, c, at)
    modifies src
    ensures src.Valid() && src.pos == at && (eof <==> at == |src.data|)
  {
    eof := c == EOF;
    if !eof {
      src.Ungetch();
    }
  }

  lemma WrapNegated(x: nat)
    ensures Wrap(0 - (Wrap(x) as int)) == Wrap(0 - x)
  {
    WrapTwice(x, -1, 0);
  }
}
