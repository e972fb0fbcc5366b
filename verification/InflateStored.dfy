/**
 inflate_stored (boot/zBoot/inflate.c:434-486): bytes copied from the input as they are.
 */
module InflateStored {
  import opened Words
  import opened Stream
  import opened Wrappers
  import opened DeflateSpec
  import opened InflateCodes
  import Input
  import Output

  /** `(~b) & 0xffff` is the complement of the low 16 bits. */
  lemma NotLow(b: nat)
    requires b < WORD
    ensures And(Not(b), 0xffff) == 0xffff - Low(b, 16)
  {
    hide And, Low, Shr, Pow2;
    Pow2Values();
    Split(b, 16);
    AndMask(Not(b), 16);
    var hi, lo := Shr(b, 16), Low(b, 16);
    assert Not(b) == (65535 - hi) * 65536 + (65535 - lo);
    SplitUnique(65535 - hi, 65535 - lo, 16);
  }

  lemma RoundUp(p: nat, i: nat, r: nat)
    requires p + r == 8 * i && r < 8
    ensures ByteAligned(p) == p + r
  {
  }

  lemma LowThree(k: nat)
    ensures And(k, 7) == k % 8
  {
    hide And, Low, Shr;
    AndMask(k, 3);
    Split(k, 3);
    Pow2Values();
  }

  /** Dropping the bits up to a whole number of bytes. */
  lemma DropToByte(p: nat, k: nat, i: nat)
    requires p + k == 8 * i
    ensures And(k, 7) == k % 8 <= k && p + k % 8 == ByteAligned(p)
  {
    hide And, ByteAligned;
    LowThree(k);
    RoundUp(p, i - k / 8, k % 8);
  }

  /** The length field's complement, checked in the bit buffer. */
  lemma Complement(s: seq<bit>, p: nat, b: nat, k: nat, n: nat)
    requires Input.Buffered(s, p, b, k) && 16 <= k && n <= 0xffff
    ensures b < WORD && (n != And(Not(b), 0xffff) <==> n + Bits(s, p, 16) != 0xffff)
  {
    hide Bits, And, Low;
    BitsBound(s, p, k);
    Pow2Word(k);
    NotLow(b);
    Input.TakeBits(s, p, b, k, 16);
    AndMask(b, 16);
  }

  lemma NextByte(s: seq<bit>, p: nat, b: nat, k: nat)
    requires Input.Buffered(s, p, b, k) && 8 <= k
    ensures Low(b, 8) == ByteAt(s, p) < 256
  {
    Input.TakeBits(s, p, b, k, 8);
    AndMask(b, 8);
  }

  /** One byte through the bit buffer. */
  method StoredByte(inp: Input.Input, out: Output.Output, b0: nat, k0: nat, w0: nat, ghost p: nat)
      returns (ok: bool, b: nat, k: nat, w: nat)
    requires Standing(inp, out, p, b0, k0, w0)
    modifies inp, out.window, out`outcnt, out`output, out`bytesOut, out`hist, out.crc`crc
    ensures ok <==> p + 8 <= |inp.Stream()|
    ensures ok ==> Standing(inp, out, p + 8, b, k, w) && out.hist == old(out.hist) + [ByteAt(inp.Stream(), p)]
  {
    hide Bits, Low, Output.Mirrors, Output.Output.Sent;
    w := w0;
    b, k, ok := inp.NeedBits(b0, k0, 8, p);
    if ok {
      NextByte(inp.Stream(), p, b, k);
      w := out.Emit(w, Low(b, 8));
      b, k := inp.DumpBits(b, k, 8, p);
    }
  }

  /** The length and its complement. */
  method StoredLength(inp: Input.Input, b0: nat, k0: nat, ghost p0: nat)
      returns (o: Outcome, n: nat, b: nat, k: nat, ghost q: nat)
    requires inp.At(p0, b0, k0)
    modifies inp
    ensures q == ByteAligned(p0)
    ensures o == Returned(0) ==> q + 32 <= |inp.Stream()| && n == Bits(inp.Stream(), q, 16) && inp.At(q + 32, b, k)
    ensures o == Returned(0) ==> n + Bits(inp.Stream(), q + 16, 16) == 0xffff
    ensures o != Returned(0) ==>
      q + 32 > |inp.Stream()| || Bits(inp.Stream(), q, 16) + Bits(inp.Stream(), q + 16, 16) != 0xffff
  {
    hide Bits, And, Low, Pow2, ByteAligned, Shr;
    Pow2Values();
    DropToByte(p0, k0, inp.inptr);
    q := ByteAligned(p0);
    n := And(k0, 7);
    b, k := inp.DumpBits(b0, k0, n, p0);
    var ok;
    n, b, k, ok := inp.TakeField(b, k, 16, q);
    if !ok {
      return Halted, n, b, k, q;
    }
    b, k, ok := inp.NeedBits(b, k, 16, q + 16);
    if !ok {
      return Halted, n, b, k, q;
    }
    Complement(inp.Stream(), q + 16, b, k, n);
    if n != And(Not(b), 0xffff) {
      return Returned(1), n, b, k, q;
    }
    b, k := inp.DumpBits(b, k, 16, q + 16);
    o := Returned(0);
  }

  method InflateStored(inp: Input.Input, out: Output.Output, b0: nat, k0: nat, w0: nat, ghost p0: nat)
      returns (o: Outcome, b: nat, k: nat, w: nat, ghost p: nat)
    requires Standing(inp, out, p0, b0, k0, w0)
    modifies inp, out.window, out`outcnt, out`output, out`bytesOut, out`hist, out.crc`crc
    ensures Decoded(o, inp, out, p, b, k, w, Stored(inp.Stream(), p0, old(out.hist)))
  {
    hide Bits, Output.Mirrors, Output.Output.Sent, ByteAligned;
    ghost var s, q := inp.Stream(), 0;
    p, w := p0, w0;
    var n;
    o, n, b, k, q := StoredLength(inp, b0, k0, p0);
    if o != Returned(0) {
      return;
    }
    p := q + 32;
    ghost var total := n;
    while n > 0
      invariant 0 <= n <= total && p == q + 32 + 8 * (total - n) && p <= |s|
      invariant Standing(inp, out, p, b, k, w) && out.hist == old(out.hist) + Bytes(s, q + 32, total - n)
    {
      n := n - 1;
      var ok;
      ok, b, k, w := StoredByte(inp, out, b, k, w, p);
      if !ok {
        return Halted, b, k, w, p;
      }
      p := p + 8;
    }
  }
}
