/**
 The output side of the decoder: the circular window, the copy of back references
 (boot/zBoot/inflate.c:363-419) and flush_window (boot/zBoot/misc.c:172-179, 261-271).

 A ghost history holds what was in the window before decoding began, followed by every
 byte produced since; it is the unbounded history that the window stands for.
 */
module Output {
  import opened Words
  import opened DeflateSpec
  import Crc

  const WSIZE: nat := 0x8000

  /** The window holds the last WSIZE bytes of the history, the newest one before w. */
  ghost predicate Mirrors(win: seq<byte>, hist: seq<byte>, w: nat) {
    && |win| == WSIZE && w <= WSIZE && WSIZE + w <= |hist|
    && (forall i :: 0 <= i < w ==> win[i] == hist[|hist| - w + i])
    && (forall i :: w <= i < WSIZE ==> win[i] == hist[|hist| - w - WSIZE + i])
  }

  /** memcpy of misc.c copies upwards, one byte at a time, even when the regions overlap. */
  function ForwardCopy(a: seq<byte>, dst: nat, src: nat, n: nat): (r: seq<byte>)
    requires dst + n <= |a| && src + n <= |a|
    ensures |r| == |a|
    decreases n
  {
    if n == 0 then a else ForwardCopy(a[dst := a[src]], dst + 1, src + 1, n - 1)
  }

  /** One byte of a copy is one byte of the specified copy. */
  lemma MirrorStep(win: seq<byte>, hist: seq<byte>, w: nat, b: byte)
    requires Mirrors(win, hist, w) && w < WSIZE
    ensures Mirrors(win[w := b], hist + [b], w + 1)
  {
  }

  /** d is dist behind w on the circle. */
  ghost predicate Behind(w: nat, d: int, dist: nat) {
    1 <= dist <= WSIZE && (d == w - dist || d == w - dist + WSIZE)
  }

  lemma {:induction false} MirrorCopy(win: seq<byte>, hist: seq<byte>, w: nat, d: nat, e: nat, dist: nat)
    requires Mirrors(win, hist, w) && w + e <= WSIZE && d + e <= WSIZE && Behind(w, d, dist)
    ensures dist <= |hist| && Mirrors(ForwardCopy(win, w, d, e), Copy(hist, dist, e), w + e)
    decreases e
  {
    if e > 0 {
      var b := win[d];
      assert b == hist[|hist| - dist];
      MirrorStep(win, hist, w, b);
      MirrorCopy(win[w := b], hist + [b], w + 1, d + 1, e - 1, dist);
    }
  }

  /** A copy may be done in pieces. */
  lemma {:induction false} CopySplit(out: seq<byte>, dist: nat, m: nat, n: nat)
    requires 1 <= dist <= |out|
    ensures Copy(out, dist, m + n) == Copy(Copy(out, dist, m), dist, n)
    decreases m
  {
    if m > 0 {
      CopySplit(out + [out[|out| - dist]], dist, m - 1, n);
    }
  }

  /** A full window starts over. */
  lemma MirrorWrap(win: seq<byte>, hist: seq<byte>)
    requires Mirrors(win, hist, WSIZE)
    ensures Mirrors(win, hist, 0)
  {
  }

  lemma MirrorTail(win: seq<byte>, hist: seq<byte>, w: nat)
    requires Mirrors(win, hist, w)
    ensures win[..w] == hist[|hist| - w..]
  {
  }

  class Output {
    const window: array<byte>
    const crc: Crc.Register
    var outcnt: nat
    /** What was written to output_data[0..output_ptr-1]. */
    var output: seq<byte>
    var bytesOut: nat

    ghost var hist: seq<byte>
    ghost var base: seq<byte>
    ghost var crc0: nat
    ghost var bytes0: nat

    ghost predicate Ready()
      reads this, crc, crc.tab
    {
      && window.Length == WSIZE && crc.TableReady() && crc.crc < WORD && bytesOut < WORD
      && window as object != crc.tab && crc as object != this
    }

    /** All of the history but its last w bytes has been written out and counted. */
    ghost predicate Sent(w: nat)
      reads this, crc
    {
      && WSIZE + w <= |hist|
      && var sent := hist[WSIZE..|hist| - w];
        output == base + sent && crc.crc == Crc.Feed(crc0, sent) && bytesOut == (bytes0 + |sent|) % WORD
    }

    /** The state of the decoder when its next byte goes to window[w]. */
    ghost predicate At(w: nat)
      reads this, window, crc, crc.tab
    {
      Ready() && crc0 < WORD && Mirrors(window[..], hist, w) && Sent(w)
    }

    constructor ()
      ensures fresh(window) && fresh(crc) && fresh(crc.tab) && Ready()
      ensures output == [] && bytesOut == 0 && crc.crc == 0xFFFF_FFFF && window.Length == 0x8000
    {
      window := new byte[WSIZE](_ => 0);
      var r := new Crc.Register();
      crc := r;
      outcnt, output, bytesOut := 0, [], 0;
      hist, base, crc0, bytes0 := [], [], 0, 0;
      new;
      crc.MakeCrc();
    }

    /** `wp = 0` at the start of inflate: decoding begins with the window as it is. */
    method Begin()
      requires Ready()
      modifies this
      ensures At(0) && outcnt == 0 && hist == window[..] && output == old(output) && bytesOut == old(bytesOut)
      ensures base == output && crc0 == crc.crc && bytes0 == bytesOut
    {
      outcnt := 0;
      hist, base, crc0, bytes0 := window[..], output, crc.crc, bytesOut;
      assert hist[WSIZE..|hist|] == [];
    }

    /** Writes the window's first outcnt bytes out, and updates the CRC and the count. */
    method FlushWindow()
      requires Ready() && outcnt <= WSIZE
      modifies this`outcnt, this`output, this`bytesOut, crc`crc
      ensures Ready() && outcnt == 0
      ensures output == old(output) + window[..old(outcnt)]
      ensures crc.crc == Crc.Feed(old(crc.crc), window[..old(outcnt)])
      ensures bytesOut == (old(bytesOut) + old(outcnt)) % WORD
    {
      hide Crc.Feed, Crc.Steps, Words.Xor;
      if outcnt == 0 {
        Crc.FeedNothing(crc.crc);
        assert window[..0] == [];
        return;
      }
      var _ := crc.UpdCrc(window, outcnt);
      output := output + window[..outcnt];
      bytesOut := (bytesOut + outcnt) % WORD;
      outcnt := 0;
    }

    /** flush_output(w): sends window[0..w-1]. */
    method FlushOutput(w: nat)
      requires At(w)
      modifies this`outcnt, this`output, this`bytesOut, crc`crc
      ensures outcnt == 0 && Ready() && Sent(0)
      ensures w == WSIZE ==> At(0)
    {
      hide Crc.Feed, Mirrors;
      SentMore(window[..], hist, w, crc0);
      AddCounts(bytes0, |hist| - w - WSIZE, w);
      outcnt := w;
      FlushWindow();
      if w == WSIZE {
        MirrorWrap(window[..], hist);
      }
    }

    /** `slide[w++] = b`, with the flush of a full window. */
    method Emit(w0: nat, b: byte) returns (w: nat)
      requires At(w0) && w0 < WSIZE
      modifies window, this`outcnt, this`output, this`bytesOut, this`hist, crc`crc
      ensures At(w) && w < WSIZE && hist == old(hist) + [b]
    {
      ghost var win := window[..];
      MirrorStep(win, hist, w0, b);
      window[w0] := b;
      w := w0 + 1;
      hist := hist + [b];
      assert window[..] == win[w0 := b];
      assert hist[WSIZE..|hist| - w] == old(hist)[WSIZE..|old(hist)| - w0];
      if w == WSIZE {
        FlushOutput(w);
        w := 0;
      }
    }

    /** memcpy(slide + w, slide + d, e). */
    method MemCpy(w: nat, d: nat, e: nat)
      requires w + e <= window.Length && d + e <= window.Length
      modifies window
      ensures window[..] == ForwardCopy(old(window[..]), w, d, e)
    {
      var i := 0;
      while i < e
        invariant 0 <= i <= e
        invariant ForwardCopy(window[..], w + i, d + i, e - i) == ForwardCopy(old(window[..]), w, d, e)
      {
        ghost var before := window[..];
        window[w + i] := window[d + i];
        assert window[..] == before[w + i := before[d + i]];
        i := i + 1;
      }
    }

    /** The loop `slide[w++] = slide[d++]`, e times. */
    method CopyBytes(w0: nat, d0: nat, e0: nat)
      requires w0 + e0 <= window.Length && d0 + e0 <= window.Length
      modifies window
      ensures window[..] == ForwardCopy(old(window[..]), w0, d0, e0)
    {
      var w, d, e := w0, d0, e0;
      while e != 0
        invariant 0 <= e <= e0 && w == w0 + (e0 - e) && d == d0 + (e0 - e)
        invariant ForwardCopy(window[..], w, d, e) == ForwardCopy(old(window[..]), w0, d0, e0)
      {
        ghost var before := window[..];
        window[w] := window[d];
        assert window[..] == before[w := before[d]];
        w, d, e := w + 1, d + 1, e - 1;
      }
    }

    /** One pass of the copy loop: e bytes that cross neither end of the window. */
    method CopyChunk(w0: nat, d: nat, e: nat, ghost dist: nat) returns (w: nat)
      requires At(w0) && w0 < WSIZE && d < WSIZE && e >= 1 && w0 + e <= WSIZE && d + e <= WSIZE && Behind(w0, d, dist)
      modifies window, this`outcnt, this`output, this`bytesOut, this`hist, crc`crc
      ensures dist <= |old(hist)| && hist == Copy(old(hist), dist, e)
      ensures At(w) && w < WSIZE && (w == w0 + e || (w == 0 && w0 + e == WSIZE))
    {
      hide Copy, ForwardCopy, Crc.Feed;
      MirrorCopy(window[..], hist, w0, d, e, dist);
      if (w0 - d + WORD) % WORD >= e {
        MemCpy(w0, d, e);
      } else {
        CopyBytes(w0, d, e);
      }
      w := w0 + e;
      hist := Copy(hist, dist, e);
      assert hist[WSIZE..|hist| - w] == old(hist)[WSIZE..|old(hist)| - w0];
      if w == WSIZE {
        FlushOutput(w);
        w := 0;
      }
    }

    /** Copies n bytes from d, a 32-bit word that is dist behind w on the circle. */
    method CopyMatch(w0: nat, d0: nat, n0: nat, ghost dist: nat) returns (w: nat)
      requires At(w0) && w0 < WSIZE && n0 >= 1 && Behind(w0, Low(d0, 15), dist)
      modifies window, this`outcnt, this`output, this`bytesOut, this`hist, crc`crc
      ensures dist <= |old(hist)| && hist == Copy(old(hist), dist, n0)
      ensures At(w) && w < WSIZE
    {
      hide Copy, Crc.Feed, Mirrors, Sent, Low;
      w := w0;
      var d: nat, n: nat := d0, n0;
      HistLong(w);
      CopyNone(hist, dist);
      while n != 0
        invariant 0 <= n <= n0 && At(w) && w < WSIZE && (n > 0 ==> Behind(w, Low(d, 15), dist))
        invariant dist <= |old(hist)| && |hist| == |old(hist)| + (n0 - n) && hist == Copy(old(hist), dist, n0 - n)
      {
        AndMask15(d);
        d := And(d, WSIZE - 1);
        var e := WSIZE - (if d > w then d else w);
        e := if e > n then n else e;
        CopySplit(old(hist), dist, n0 - n, e);
        w := CopyChunk(w, d, e, dist);
        n := n - e;
        d := d + e;
        WrapLow(d);
      }
    }

    lemma HistLong(w: nat)
      requires At(w)
      ensures |hist| >= WSIZE
    {
    }
  }

  /** What is sent after a flush: the bytes sent before it, then the window's. */
  lemma SentMore(win: seq<byte>, hist: seq<byte>, w: nat, crc0: nat)
    requires Mirrors(win, hist, w)
    ensures w <= WSIZE == |win| && WSIZE + w <= |hist|
    ensures var sent, more := hist[WSIZE..|hist| - w], win[..w];
      hist[WSIZE..|hist| - 0] == sent + more && Crc.Feed(crc0, sent + more) == Crc.Feed(Crc.Feed(crc0, sent), more)
  {
    MirrorTail(win, hist, w);
    Crc.FeedConcat(crc0, hist[WSIZE..|hist| - w], win[..w]);
  }

  lemma AddCounts(a: nat, m: nat, n: nat)
    ensures ((a + m) % WORD + n) % WORD == (a + (m + n)) % WORD
  {
  }

  lemma CopyNone(out: seq<byte>, dist: nat)
    requires 1 <= dist <= |out|
    ensures Copy(out, dist, 0) == out
  {
  }

  lemma AndMask15(d: nat)
    ensures And(d, WSIZE - 1) == Low(d, 15) < WSIZE
  {
    AndMask(d, 15);
    Split(d, 15);
    Pow2Values();
  }

  /** Past the end of the window the offset wraps; inside it nothing changes. */
  lemma WrapLow(d: nat)
    requires d <= WSIZE
    ensures Low(d, 15) == if d == WSIZE then 0 else d
  {
    Pow2Values();
    if d < WSIZE {
      LowSmall(d, 15);
    } else {
      SplitUnique(1, 0, 15);
    }
  }
}
