/**
 inflate_block and inflate (boot/zBoot/inflate.c:722-810): a whole compressed data set.
 */
module Inflate {
  import opened Words
  import opened Stream
  import opened Wrappers
  import opened Canonical
  import opened DeflateSpec
  import opened DeflateWalk
  import opened InflateCodes
  import InflateStored
  import InflateFixed
  import InflateDynamic
  import Input
  import Output
  import Crc

  /** What a block is, in terms of what its kind of block is. */
  lemma BlockIs(s: seq<bit>, p: nat, out: seq<byte>) returns (r: Option<Progress>)
    requires p + 3 <= |s|
    ensures Bits(s, p + 1, 2) == 0 ==> r == Stored(s, p + 3, out)
    ensures Bits(s, p + 1, 2) == 1 ==> r == Compressed(s, p + 3, out, FixedLits(), FixedDists())
    ensures Bits(s, p + 1, 2) == 2 ==> r == Dynamic(s, p + 3, out, DECODER_DISTS)
    ensures Bits(s, p + 1, 2) > 2 ==> r == None
    ensures OneBlock(s, p, out, DECODER_DISTS) == match r
      case None => None
      case Some(pr) => Some(Block(Bits(s, p, 1) == 1, pr))
    ensures Bits(s, p, 1) < 2
  {
    hide Stored, Compressed, Dynamic, Bits;
    BitsBound(s, p, 1);
    Words.Pow2Values();
    var kind := Bits(s, p + 1, 2);
    r := if kind == 0 then Stored(s, p + 3, out)
         else if kind == 1 then Compressed(s, p + 3, out, FixedLits(), FixedDists())
         else if kind == 2 then Dynamic(s, p + 3, out, DECODER_DISTS)
         else None;
  }

  /** The last-block bit and the block's type. */
  method BlockHeader(inp: Input.Input, b0: nat, k0: nat, ghost p: nat)
      returns (ok: bool, e: nat, t: nat, b: nat, k: nat)
    requires inp.At(p, b0, k0)
    modifies inp
    ensures ok <==> p + 3 <= |inp.Stream()|
    ensures ok ==> inp.At(p + 3, b, k) && e == Bits(inp.Stream(), p, 1) && t == Bits(inp.Stream(), p + 1, 2)
  {
    hide Bits;
    t := 0;
    e, b, k, ok := inp.TakeField(b0, k0, 1, p);
    if ok {
      t, b, k, ok := inp.TakeField(b, k, 2, p + 1);
    }
  }

  class Inflater {
    const inp: Input.Input
    const out: Output.Output
    var wp: nat
    var bb: nat
    var bk: nat

    constructor (inp: Input.Input, out: Output.Output)
      ensures this.inp == inp && this.out == out
    {
      this.inp, this.out := inp, out;
      wp, bb, bk := 0, 0, 0;
    }

    /** The next bit to decode is bit p. */
    ghost predicate At(p: nat)
      reads this, inp, out, out.window, out.crc, out.crc.tab
    {
      Standing(inp, out, p, bb, bk, wp)
    }

    /** A block was decoded as specified, or there is a reason why not. */
    ghost predicate BlockDecoded(o: Outcome, e: nat, p: nat, spec: Option<Block>)
      reads this, inp, out, out.window, out.crc, out.crc.tab
    {
      if o == Returned(0) then
        At(p) && spec == Some(Block(e != 0, Progress(out.hist, p)))
      else
        spec.None? || (o.Halted? && spec.value.progress.p + BMAX > |inp.Stream()|)
    }

    /** One block of any type. */
    method InflateBlock(ghost p0: nat) returns (o: Outcome, e: nat, ghost p: nat)
      requires At(p0)
      modifies this, inp, out.window, out`outcnt, out`output, out`bytesOut, out`hist, out.crc`crc
      ensures BlockDecoded(o, e, p, OneBlock(inp.Stream(), p0, old(out.hist), DECODER_DISTS))
    {
      hide Bits, Stored, Compressed, Dynamic, OneBlock, Output.Mirrors, Output.Output.Sent;
      p := p0;
      var b, k, ok, t, w;
      ok, e, t, b, k := BlockHeader(inp, bb, bk, p);
      if !ok {
        NoBlock(inp.Stream(), p, out.hist);
        return Halted, e, p;
      }
      ghost var spec := BlockIs(inp.Stream(), p, out.hist);
      bb, bk := b, k;
      if t == 2 {
        o, b, k, w, p := InflateDynamic.InflateDynamic(inp, out, bb, bk, wp, p + 3);
      } else if t == 0 {
        o, b, k, w, p := InflateStored.InflateStored(inp, out, bb, bk, wp, p + 3);
      } else if t == 1 {
        o, b, k, w, p := InflateFixed.InflateFixed(inp, out, bb, bk, wp, p + 3);
      } else {
        return Returned(2), e, p;
      }
      bb, bk, wp := b, k, w;
    }

    /** What inflate leaves behind. */
    ghost predicate Finished(o: Outcome, spec: Option<Progress>, output0: seq<byte>, crc0: nat, bytes0: nat)
      reads this, inp, out, out.crc, out.crc.tab
    {
      if o == Returned(0) then
        && spec.Some? && |spec.value.out| >= Output.WSIZE && out.Ready() && inp.inptr <= |inp.data|
        && var made := spec.value.out[Output.WSIZE..];
          && out.output == output0 + made && out.outcnt == 0
          && out.crc.crc == Crc.Feed(crc0, made) && out.bytesOut == (bytes0 + |made|) % WORD
          && inp.inptr == (spec.value.p + 7) / 8 && bk < 8
      else
        Excused(o, spec, inp.Stream())
    }

    /** Block after block, the outcome is that of the whole data set. */
    lemma InflatedStep(o: Outcome, e: nat, p: nat, p0: nat, hist: seq<byte>)
      requires BlockDecoded(o, e, p, OneBlock(inp.Stream(), p0, hist, DECODER_DISTS))
      ensures o != Returned(0) ==> Excused(o, Inflated(inp.Stream(), p0, hist, DECODER_DISTS), inp.Stream())
      ensures o == Returned(0) ==> At(p) && p0 < p <= |inp.Stream()|
      ensures o == Returned(0) && e != 0 ==>
        Inflated(inp.Stream(), p0, hist, DECODER_DISTS) == Some(Progress(out.hist, p))
      ensures o == Returned(0) && e == 0 ==>
        Inflated(inp.Stream(), p0, hist, DECODER_DISTS) == Inflated(inp.Stream(), p, out.hist, DECODER_DISTS)
    {
      hide OneBlock, Standing;
    }

    /** Gives unused bytes back and sends the rest of the window. */
    method Finish(ghost p: nat)
      requires At(p) && p <= |inp.Stream()|
      modifies this`bk, inp, out`outcnt, out`output, out`bytesOut, out.crc`crc
      ensures Finished(Returned(0), Some(Progress(out.hist, p)), out.base, out.crc0, out.bytes0)
    {
      hide Crc.Feed, Output.Mirrors, Bits;
      bk := inp.GiveBack(bb, bk, p);
      out.FlushOutput(wp);
      assert out.hist[Output.WSIZE..|out.hist| - 0] == out.hist[Output.WSIZE..];
    }

    /**
     The data set is decoded as the format specifies, with the window's bytes as what came
     before. When 16 bits follow a valid data set, it is accepted exactly if no block has
     more than thirty distance codes.
     */
    method Inflate() returns (o: Outcome)
      requires out.Ready() && inp.inptr <= |inp.data|
      modifies this, inp, out, out.window, out.crc`crc
      ensures Finished(o, Specified(inp.Stream(), 8 * old(inp.inptr), old(out.window[..])),
                       old(out.output), old(out.crc.crc), old(out.bytesOut))
      ensures Accepts(o, inp.Stream(), 8 * old(inp.inptr), old(out.window[..]))
    {
      hide Inflated, Specified, Standing, BlockDecoded, Finished, Accepts, Output.Output.Ready, Output.Output.At;
      wp, bb, bk := 0, 0, 0;
      ghost var p: nat := 8 * inp.inptr;
      out.Begin();
      StandingStart();
      InflatedFew(inp.Stream(), p, out.hist);
      ghost var start, spec := p, Inflated(inp.Stream(), p, out.hist, DECODER_DISTS);
      var e := 0;
      while e == 0
        invariant At(p) && out.base == old(out.output) && out.crc0 == old(out.crc.crc)
        invariant out.bytes0 == old(out.bytesOut)
        invariant p <= |inp.Stream()|
        invariant e != 0 ==> spec == Some(Progress(out.hist, p))
        invariant e == 0 ==> spec == Inflated(inp.Stream(), p, out.hist, DECODER_DISTS)
        decreases e == 0, |inp.Stream()| - p
      {
        ghost var was, hist := p, out.hist;
        o, e, p := InflateBlock(p);
        InflatedStep(o, e, p, was, hist);
        if o != Returned(0) {
          ExcusedFinish(o, spec, old(out.output), old(out.crc.crc), old(out.bytesOut));
          AcceptsIs(o, inp.Stream(), start, old(out.window[..]));
          return;
        }
      }
      Finish(p);
      o := Returned(0);
      AcceptsIs(o, inp.Stream(), start, old(out.window[..]));
    }

    lemma StandingStart()
      requires out.At(0) && inp.inptr <= |inp.data| && wp == bb == bk == 0
      ensures At(8 * inp.inptr)
    {
    }

    lemma ExcusedFinish(o: Outcome, spec: Option<Progress>, output0: seq<byte>, crc0: nat, bytes0: nat)
      requires o != Returned(0) && Excused(o, spec, inp.Stream())
      ensures Finished(o, spec, output0, crc0, bytes0)
    {
    }
  }

  /** The decoder returns 0 only for valid data, and then exactly if no block has too many distance codes. */
  ghost predicate Accepts(o: Outcome, s: seq<bit>, p: nat, win: seq<byte>) {
    var valid := Inflated(s, p, win, FORMAT_DISTS);
    && (o == Returned(0) ==> valid.Some? && Few(s, p))
    && (valid.Some? && valid.value.p + BMAX <= |s| ==> (o == Returned(0) <==> Few(s, p)))
  }

  lemma AcceptsIs(o: Outcome, s: seq<bit>, p: nat, win: seq<byte>)
    requires o == Returned(0) ==> Specified(s, p, win).Some?
    requires o != Returned(0) ==> Excused(o, Specified(s, p, win), s)
    ensures Accepts(o, s, p, win)
  {
    hide Inflated, Few;
  }

  lemma NoBlock(s: seq<bit>, p: nat, out: seq<byte>)
    requires p + 3 > |s|
    ensures OneBlock(s, p, out, DECODER_DISTS) == None
  {
  }
}
