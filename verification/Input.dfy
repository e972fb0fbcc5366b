/**
 The input side of the decoder: the bytes to read and the bit buffer that NEEDBITS and
 DUMPBITS (boot/zBoot/inflate.c:84-85) keep in the locals b and k.
 */
module Input {
  import opened Words
  import opened Stream

  /** b holds the next k bits of the stream at p, and nothing above them. */
  ghost predicate Buffered(s: seq<bit>, p: nat, b: nat, k: nat) {
    b == Bits(s, p, k) && k <= 23
  }

  /** A byte shifted by less than 24 loses no bit of a 32-bit word. */
  lemma ShlByte(x: byte, k: nat)
    requires k <= 23
    ensures Shl(x, k) == x * Pow2(k)
  {
    hide Pow2;
    Pow2Add(8, k);
    Pow2Word(k + 8);
    Pow2Values();
    MulLe(x, 256, Pow2(k));
    SmallWord(x * Pow2(k));
  }

  lemma SmallWord(x: nat)
    requires x < WORD
    ensures x % WORD == x
  {
  }

  lemma FeedByte(data: seq<byte>, i: nat, b: nat, k: nat, p: nat)
    requires i < |data| && p + k == 8 * i && k <= 15 && Buffered(BitsOf(data), p, b, k)
    ensures Buffered(BitsOf(data), p, Or(b, Shl(data[i], k)), k + 8)
  {
    hide Bits, Or, Shl, Pow2, BitsOf;
    var s := BitsOf(data);
    BitsBound(s, p, k);
    BitsSplit(s, p, k, 8);
    BitsOfByte(data, i);
    OrDisjoint(b, data[i], k);
    ShlByte(data[i], k);
  }

  /** Looking at n buffered bits, and dropping them. */
  lemma TakeBits(s: seq<bit>, p: nat, b: nat, k: nat, n: nat)
    requires Buffered(s, p, b, k) && n <= k
    ensures And(b, Pow2(n) - 1) == Bits(s, p, n)
    ensures Buffered(s, p + n, Shr(b, n), k - n)
  {
    AndMask(b, n);
    BitsParts(s, p, n, k - n);
  }

  class Input {
    const data: seq<byte>
    var inptr: nat

    constructor (data: seq<byte>)
      ensures this.data == data && inptr == 0
    {
      this.data := data;
      inptr := 0;
    }

    ghost function Stream(): seq<bit> {
      BitsOf(data)
    }

    /** The next bit to decode is bit p, and b holds the k bits fetched beyond it. */
    ghost predicate At(p: nat, b: nat, k: nat)
      reads this
    {
      inptr <= |data| && p + k == 8 * inptr && Buffered(Stream(), p, b, k)
    }

    /** NEEDBITS(n); fails when the input runs out, where the source stops for good. */
    method NeedBits(b0: nat, k0: nat, n: nat, ghost p: nat) returns (b: nat, k: nat, ok: bool)
      requires At(p, b0, k0) && n <= 16
      modifies this
      ensures At(p, b, k) && (ok ==> k >= n) && (ok <==> p + n <= |Stream()|)
      ensures k <= k0 || k < n + 8
    {
      b, k := b0, k0;
      while k < n
        invariant At(p, b, k) && (k <= k0 || k < n + 8)
        decreases n - k
      {
        if inptr >= |data| {
          return b, k, false;
        }
        FeedByte(data, inptr, b, k, p);
        var next := data[inptr];
        inptr := inptr + 1;
        b := Or(b, Shl(next, k));
        k := k + 8;
      }
      ok := true;
    }

    /** DUMPBITS(n). */
    method DumpBits(b0: nat, k0: nat, n: nat, ghost p: nat) returns (b: nat, k: nat)
      requires At(p, b0, k0) && n <= k0
      ensures At(p + n, b, k) && k == k0 - n
    {
      TakeBits(Stream(), p, b0, k0, n);
      b := Shr(b0, n);
      k := k0 - n;
    }

    /** NEEDBITS(n), the value of the n bits, and DUMPBITS(n). */
    method TakeField(b0: nat, k0: nat, n: nat, ghost p: nat) returns (v: nat, b: nat, k: nat, ok: bool)
      requires At(p, b0, k0) && n <= 16
      modifies this
      ensures ok <==> p + n <= |Stream()|
      ensures ok ==> At(p + n, b, k) && v == Bits(Stream(), p, n) && v < Pow2(n)
    {
      b, k, ok := NeedBits(b0, k0, n, p);
      v := 0;
      if ok {
        TakeBits(Stream(), p, b, k, n);
        BitsBound(Stream(), p, n);
        v := And(b, Pow2(n) - 1);
        b, k := DumpBits(b, k, n, p);
      }
    }

    /** The end of inflate: whole bytes still in the buffer are given back. */
    method GiveBack(b: nat, k0: nat, ghost p: nat) returns (k: nat)
      requires At(p, b, k0)
      modifies this
      ensures k == k0 % 8 && inptr == (p + 7) / 8
    {
      k := k0;
      while k >= 8
        invariant 0 <= k && k % 8 == k0 % 8 && p + k == 8 * inptr
      {
        LessByte(k);
        k := k - 8;
        inptr := inptr - 1;
      }
      RoundedUp(p, k, inptr);
    }
  }

  lemma LessByte(k: nat)
    requires k >= 8
    ensures (k - 8) % 8 == k % 8
  {
  }

  lemma RoundedUp(p: nat, k: nat, i: nat)
    requires p + k == 8 * i && k < 8
    ensures k % 8 == k && (p + 7) / 8 == i
  {
  }
}
