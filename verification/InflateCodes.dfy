/**
 inflate_codes (boot/zBoot/inflate.c:328-430): the codes of one compressed block.
 */
module InflateCodes {
  import opened Words
  import opened Stream
  import opened Wrappers
  import opened Canonical
  import opened Geometry
  import opened Tables
  import opened DeflateSpec
  import opened Lookup
  import Input
  import Output

  /** The value lists of inflate.c; 99 marks the two length symbols that are invalid. */
  function LitSet(lens: seq<nat>): CodeSet {
    CodeSet(lens, 257, LENGTH_BASE + [0, 0], LENGTH_EXTRA + [99, 99])
  }

  function DistSet(lens: seq<nat>): CodeSet {
    CodeSet(lens, 0, DIST_BASE, DIST_EXTRA)
  }

  /**
   How a procedure ends: with a return code, in the endless loop of error(), or in an
   access that C leaves undefined (a null table, or memory that was never written).
   */
  datatype Outcome = Returned(code: nat) | Halted | Undefined

  /** A failure is excused when the stream is invalid, or ends less than 16 bits later. */
  ghost predicate Excused(o: Outcome, r: Option<Progress>, s: seq<bit>) {
    o != Returned(0) && (r.None? || (o.Halted? && r.value.p + BMAX > |s|))
  }

  /** The tables that decode a code set, for the proof. */
  datatype Guide = Guide(info: nodes, cs: CodeSet, c: counts)

  // ----- the value lists

  lemma LengthValues(i: nat)
    requires i < 29
    ensures LENGTH_EXTRA[i] <= 5 && 3 <= LENGTH_BASE[i]
  {
  }

  lemma DistBounds(i: nat)
    requires i < 30
    ensures DIST_EXTRA[i] <= 13 && 1 <= DIST_BASE[i] && DIST_BASE[i] + Pow2(DIST_EXTRA[i]) <= Output.WSIZE + 1
  {
    Pow2Values();
    var x := DIST_EXTRA[i];
    assert Pow2(9) == 512 && Pow2(10) == 1024 && Pow2(11) == 2048 && Pow2(12) == 4096 && Pow2(13) == 8192;
  }

  /** What a literal/length entry says. */
  lemma LitEntry(lens: seq<nat>, ent: Huft, sym: nat)
    requires SymbolEntry(LitSet(lens), ent, sym) && LitSet(lens).Operation(sym) != 99
    ensures sym <= 285 && ent.v.Num?
    ensures ent.e == 16 <==> sym < 256
    ensures ent.e == 15 <==> sym == 256
    ensures sym < 256 ==> ent.v.n == sym
    ensures sym > 256 ==> ent.e == LENGTH_EXTRA[sym - 257] && ent.v.n == LENGTH_BASE[sym - 257]
  {
    if 257 <= sym <= 285 {
      LengthValues(sym - 257);
    }
  }

  lemma DistEntry(lens: seq<nat>, ent: Huft, sym: nat)
    requires SymbolEntry(DistSet(lens), ent, sym)
    ensures sym <= 29 && ent.v.Num? && ent.e == DIST_EXTRA[sym] && ent.v.n == DIST_BASE[sym]
  {
  }

  // ----- a back reference

  lemma LowOffset(x: nat, turns: nat, d: nat)
    requires x == turns * Output.WSIZE + d && d < Output.WSIZE
    ensures Low(x, 15) == d
  {
    hide Low;
    Pow2Values();
    SplitUnique(turns, d, 15);
  }

  /** The window offset, computed modulo 2^32 and cut to 15 bits, is the distance back on the circle. */
  lemma OffsetBehind(w: nat, dist: nat)
    requires w < Output.WSIZE && 1 <= dist <= Output.WSIZE
    ensures Output.Behind(w, Low((w - dist + WORD) % WORD, 15), dist)
  {
    hide Low;
    if dist <= w {
      LowOffset(w - dist, 0, w - dist);
    } else {
      LowOffset(w - dist + WORD, 131071, w - dist + Output.WSIZE);
    }
  }

  /** The outcome of a lookup that found no entry. */
  function Failure(status: Status): Outcome {
    match status
    case Bad => Returned(1)
    case OutOfInput => Halted
    case _ => Outcome.Undefined
  }

  /** Why reading a distance failed. */
  ghost predicate NoDistance(o: Outcome, r: Option<Distance>, s: seq<bit>) {
    o != Returned(0) && (r.None? || (o.Halted? && r.value.p + BMAX > |s|))
  }

  /** A distance lookup that found nothing. */
  lemma LostDistance(status: Status, ent: Huft, s: seq<bit>, p: nat, lens: seq<nat>)
    requires Verdict(status, ent, DistSet(lens), s, p) && !status.Found?
    ensures NoDistance(Failure(status), ReadDistance(s, p, lens), s)
  {
    var r := Decode(s, p, lens);
    if r.Some? && r.value <= 29 {
      DistBounds(r.value);
    }
  }

  /** The entry that was found, and what follows its code. */
  lemma FoundDistance(ent: Huft, s: seq<bit>, p: nat, lens: seq<nat>) returns (q: nat, x: nat, base: nat)
    requires Verdict(Found, ent, DistSet(lens), s, p)
    ensures Decode(s, p, lens).Some? && q == p + lens[Decode(s, p, lens).value]
    ensures ent.e == x <= 13 && ent.v == Num(base) && 1 <= base && base + Pow2(x) <= Output.WSIZE + 1
    ensures ReadDistance(s, p, lens) == if q + x > |s| then None else Some(Distance(base + Bits(s, q, x), q + x))
  {
    hide SymbolEntry, Pow2, Bits, Matches;
    var sym := Decode(s, p, lens).value;
    DistEntry(lens, ent, sym);
    DistBounds(sym);
    q, x, base := p + lens[sym], DIST_EXTRA[sym], DIST_BASE[sym];
  }

  /** Tables for the distance codes. */
  ghost predicate Distances(td: array?<Huft>, bd: nat, gd: Guide, lens: seq<nat>)
    reads gd.info.Keys
  {
    Serves(td, bd, gd.info, gd.cs, gd.c) && bd <= BMAX && gd.cs == DistSet(lens)
  }

  /** The distance: a code and its extra bits, subtracted from the window position. */
  method DecodeDistance(inp: Input.Input, td: array?<Huft>, bd: nat, w: nat, b0: nat, k0: nat,
                        ghost p: nat, ghost lens: seq<nat>, ghost gd: Guide)
      returns (o: Outcome, d: nat, b: nat, k: nat, ghost back: Option<Distance>)
    requires Distances(td, bd, gd, lens) && inp.At(p, b0, k0) && w < Output.WSIZE
    modifies inp
    ensures back == ReadDistance(inp.Stream(), p, lens)
    ensures o == Returned(0) ==> back.Some? && inp.At(back.value.p, b, k)
    ensures o == Returned(0) ==> Output.Behind(w, Low(d, 15), back.value.dist)
    ensures o != Returned(0) ==> NoDistance(o, back, inp.Stream())
  {
    hide Verdict, ReadDistance, Serves, Output.Behind, Low, Bits, Pow2;
    d := 0;
    back := ReadDistance(inp.Stream(), p, lens);
    var status, ent;
    status, ent, b, k := DecodeSymbol(inp, td, bd, b0, k0, p, gd.info, gd.cs, gd.c);
    if !status.Found? {
      LostDistance(status, ent, inp.Stream(), p, lens);
      return Failure(status), d, b, k, back;
    }
    ghost var q, x, base := FoundDistance(ent, inp.Stream(), p, lens);
    var v, ok;
    v, b, k, ok := inp.TakeField(b, k, ent.e, q);
    if !ok {
      return Halted, d, b, k, back;
    }
    d := (w - ent.v.n - v + WORD) % WORD;
    OffsetBehind(w, ent.v.n + v);
    o := Returned(0);
  }

  /** A reference was read, or there is a reason why not. */
  ghost predicate ReferenceRead(o: Outcome, n: nat, d: nat, b: nat, k: nat, w: nat, inp: Input.Input,
                                ref: Option<Reference>)
    reads inp
  {
    if o == Returned(0) then
      ref.Some? && n == ref.value.len >= 1 && inp.At(ref.value.p, b, k) && Output.Behind(w, Low(d, 15), ref.value.dist)
    else
      ref.None? || (o.Halted? && ref.value.p + BMAX > |inp.Stream()|)
  }

  lemma ReferenceParts(s: seq<bit>, p: nat, sym: nat, lens: seq<nat>) returns (x: nat, base: nat)
    requires 257 <= sym <= 285
    ensures x == LENGTH_EXTRA[sym - 257] <= 5 && base == LENGTH_BASE[sym - 257] >= 3
    ensures p + x > |s| ==> ReadReference(s, p, sym, lens) == None
    ensures p + x <= |s| ==> ReadReference(s, p, sym, lens) == match ReadDistance(s, p + x, lens)
      case None => None
      case Some(back) => Some(Reference(base + Bits(s, p, x), back.dist, back.p))
  {
    LengthValues(sym - 257);
    x, base := LENGTH_EXTRA[sym - 257], LENGTH_BASE[sym - 257];
  }

  /** A length and a distance. */
  method DecodeReference(inp: Input.Input, td: array?<Huft>, bd: nat, ent: Huft, w: nat, b0: nat, k0: nat,
                         ghost p: nat, ghost sym: nat, ghost lens: seq<nat>, ghost gd: Guide)
      returns (o: Outcome, n: nat, d: nat, b: nat, k: nat, ghost ref: Option<Reference>)
    requires 257 <= sym <= 285 && ent.e == LENGTH_EXTRA[sym - 257] && ent.v == Num(LENGTH_BASE[sym - 257])
    requires Distances(td, bd, gd, lens) && inp.At(p, b0, k0) && w < Output.WSIZE
    modifies inp
    ensures ref == ReadReference(inp.Stream(), p, sym, lens)
    ensures ReferenceRead(o, n, d, b, k, w, inp, ref)
  {
    hide Distances, ReadDistance, ReadReference, Output.Behind, Low, Bits;
    ghost var x, base := ReferenceParts(inp.Stream(), p, sym, lens);
    ref := ReadReference(inp.Stream(), p, sym, lens);
    n, d := 0, 0;
    var extra, ok;
    extra, b, k, ok := inp.TakeField(b0, k0, ent.e, p);
    if !ok {
      return Halted, n, d, b, k, ref;
    }
    n := ent.v.n + extra;
    ghost var back;
    o, d, b, k, back := DecodeDistance(inp, td, bd, w, b, k, p + x, lens, gd);
  }

  // ----- one code

  /** Where the decoder stands: the input at p, and the output at w. */
  ghost predicate Standing(inp: Input.Input, out: Output.Output, p: nat, b: nat, k: nat, w: nat)
    reads inp, out, out.window, out.crc, out.crc.tab
  {
    inp.At(p, b, k) && out.At(w) && w < Output.WSIZE
  }

  /** Both tables of a block. */
  ghost predicate Tabled(tl: array?<Huft>, td: array?<Huft>, bl: nat, bd: nat, gl: Guide, gd: Guide, lits: seq<nat>,
                         dists: seq<nat>)
    reads gl.info.Keys, gd.info.Keys
  {
    && Serves(tl, bl, gl.info, gl.cs, gl.c) && bl <= BMAX && gl.cs == LitSet(lits)
    && Distances(td, bd, gd, dists)
  }

  lemma CodesLost(status: Status, ent: Huft, s: seq<bit>, p: nat, out: seq<byte>, lits: seq<nat>, dists: seq<nat>)
    requires Verdict(status, ent, LitSet(lits), s, p) && !status.Found?
    ensures Excused(Failure(status), Compressed(s, p, out, lits, dists), s)
  {
  }

  /** What an entry that was found means. */
  lemma CodesFound(ent: Huft, s: seq<bit>, p: nat, out: seq<byte>, lits: seq<nat>, dists: seq<nat>)
      returns (sym: nat, q: nat)
    requires Verdict(Found, ent, LitSet(lits), s, p)
    ensures Decode(s, p, lits) == Some(sym) && q == p + lits[sym] && p < q <= |s| && sym <= 285 && ent.v.Num?
    ensures ent.e == 16 ==> ent.v.n < 256
    ensures ent.e == 16 ==> Compressed(s, p, out, lits, dists) == Compressed(s, q, out + [ent.v.n], lits, dists)
    ensures ent.e == 15 ==> Compressed(s, p, out, lits, dists) == Some(Progress(out, q))
    ensures ent.e != 16 && ent.e != 15 ==> sym >= 257 && ent.e == LENGTH_EXTRA[sym - 257]
    ensures ent.e != 16 && ent.e != 15 ==> ent.v == Num(LENGTH_BASE[sym - 257])
  {
    sym := Decode(s, p, lits).value;
    q := p + lits[sym];
    LitEntry(lits, ent, sym);
  }

  /** A reference in the block. */
  lemma CodesReference(s: seq<bit>, p: nat, sym: nat, out: seq<byte>, lits: seq<nat>, dists: seq<nat>)
    requires Decode(s, p, lits) == Some(sym) && 257 <= sym <= 285
    ensures var ref := ReadReference(s, p + lits[sym], sym, dists);
      && (ref.None? ==> Compressed(s, p, out, lits, dists) == None)
      && (ref.Some? && ref.value.dist <= |out| ==>
            Compressed(s, p, out, lits, dists) ==
              Compressed(s, ref.value.p, Copy(out, ref.value.dist, ref.value.len), lits, dists))
      && (ref.Some? && ref.value.dist > |out| ==> Compressed(s, p, out, lits, dists) == None)
  {
    hide ReadReference, Copy, Matches;
  }

  lemma ReferenceLost(o: Outcome, s: seq<bit>, p: nat, sym: nat, out: seq<byte>, lits: seq<nat>, dists: seq<nat>)
    requires Decode(s, p, lits) == Some(sym) && 257 <= sym <= 285 && o != Returned(0)
    requires var ref := ReadReference(s, p + lits[sym], sym, dists);
      ref.None? || (o.Halted? && ref.value.p + BMAX > |s|)
    ensures Excused(o, Compressed(s, p, out, lits, dists), s)
  {
    hide Compressed, ReadReference, Copy, Matches;
    CodesReference(s, p, sym, out, lits, dists);
  }

  /** One code was decoded: it ended the block (done), or the rest of the block remains. */
  ghost predicate Stepped(o: Outcome, done: bool, inp: Input.Input, out: Output.Output, p: nat, b: nat, k: nat, w: nat,
                          p0: nat, was: Option<Progress>, lits: seq<nat>, dists: seq<nat>)
    reads inp, out, out.window, out.crc, out.crc.tab
  {
    if o != Returned(0) then Excused(o, was, inp.Stream())
    else
      && Standing(inp, out, p, b, k, w) && p0 < p <= |inp.Stream()|
      && was == if done then Some(Progress(out.hist, p)) else Compressed(inp.Stream(), p, out.hist, lits, dists)
  }

  /** One turn of the loop of inflate_codes. */
  method OneCode(inp: Input.Input, out: Output.Output, tl: array?<Huft>, td: array?<Huft>, bl: nat, bd: nat, b0: nat,
                 k0: nat, w0: nat,
                 ghost p0: nat, ghost gl: Guide, ghost gd: Guide, ghost lits: seq<nat>, ghost dists: seq<nat>)
      returns (o: Outcome, done: bool, b: nat, k: nat, w: nat, ghost p: nat)
    requires Standing(inp, out, p0, b0, k0, w0) && Tabled(tl, td, bl, bd, gl, gd, lits, dists)
    modifies inp, out.window, out`outcnt, out`output, out`bytesOut, out`hist, out.crc`crc
    ensures Stepped(o, done, inp, out, p, b, k, w, p0,
                    Compressed(inp.Stream(), p0, old(out.hist), lits, dists), lits, dists)
  {
    hide Verdict, Serves, Distances, Compressed, ReadReference, Copy, Output.Behind, Low, Excused, Output.Mirrors,
      Output.Output.Sent;
    ghost var s := inp.Stream();
    done, w, p := false, w0, p0;
    var status, ent;
    status, ent, b, k := DecodeSymbol(inp, tl, bl, b0, k0, p0, gl.info, gl.cs, gl.c);
    if !status.Found? {
      CodesLost(status, ent, s, p0, out.hist, lits, dists);
      return Failure(status), done, b, k, w, p;
    }
    ghost var sym;
    sym, p := CodesFound(ent, s, p0, out.hist, lits, dists);
    o := Returned(0);
    if ent.e == 16 {
      w := out.Emit(w, ent.v.n);
    } else if ent.e == 15 {
      done := true;
    } else {
      CodesReference(s, p0, sym, out.hist, lits, dists);
      var n, d;
      ghost var ref;
      o, n, d, b, k, ref := DecodeReference(inp, td, bd, ent, w, b, k, p, sym, dists, gd);
      if o != Returned(0) {
        ReferenceLost(o, s, p0, sym, out.hist, lits, dists);
      } else {
        p := ref.value.p;
        w := out.CopyMatch(w, d, n, ref.value.dist);
      }
    }
  }

  /** From here to the block's end, the outcome is the one the whole block has. */
  lemma SteppedExcuse(o: Outcome, done: bool, inp: Input.Input, out: Output.Output, p: nat, b: nat, k: nat, w: nat,
                      p0: nat, was: Option<Progress>, lits: seq<nat>, dists: seq<nat>)
    requires Stepped(o, done, inp, out, p, b, k, w, p0, was, lits, dists)
    ensures o != Returned(0) ==> Excused(o, was, inp.Stream())
    ensures o == Returned(0) ==> Standing(inp, out, p, b, k, w) && p0 < p <= |inp.Stream()|
    ensures o == Returned(0) && done ==> was == Some(Progress(out.hist, p))
    ensures o == Returned(0) && !done ==> was == Compressed(inp.Stream(), p, out.hist, lits, dists)
  {
  }

  /** A block was decoded as specified, or there is a reason why not. */
  ghost predicate Decoded(o: Outcome, inp: Input.Input, out: Output.Output, p: nat, b: nat, k: nat, w: nat,
                          spec: Option<Progress>)
    reads inp, out, out.window, out.crc, out.crc.tab
  {
    if o == Returned(0) then Standing(inp, out, p, b, k, w) && spec == Some(Progress(out.hist, p))
    else Excused(o, spec, inp.Stream())
  }

  /** The codes of a block: an LZ77 history kept in a circular window. */
  method InflateCodes(inp: Input.Input, out: Output.Output, tl: array?<Huft>, td: array?<Huft>, bl: nat, bd: nat,
                      b0: nat, k0: nat, w0: nat,
                      ghost p0: nat, ghost gl: Guide, ghost gd: Guide, ghost lits: seq<nat>, ghost dists: seq<nat>)
      returns (o: Outcome, b: nat, k: nat, w: nat, ghost p: nat)
    requires Standing(inp, out, p0, b0, k0, w0) && Tabled(tl, td, bl, bd, gl, gd, lits, dists)
    modifies inp, out.window, out`outcnt, out`output, out`bytesOut, out`hist, out.crc`crc
    ensures Decoded(o, inp, out, p, b, k, w, Compressed(inp.Stream(), p0, old(out.hist), lits, dists))
  {
    hide Tabled, Compressed, Stepped, Standing, Excused;
    ghost var spec := Compressed(inp.Stream(), p0, out.hist, lits, dists);
    b, k, w, p := b0, k0, w0, p0;
    var done := false;
    while !done
      invariant Standing(inp, out, p, b, k, w)
      invariant done ==> spec == Some(Progress(out.hist, p))
      invariant !done ==> spec == Compressed(inp.Stream(), p, out.hist, lits, dists)
      decreases !done, |inp.Stream()| - p
    {
      ghost var q, was := p, Compressed(inp.Stream(), p, out.hist, lits, dists);
      o, done, b, k, w, p := OneCode(inp, out, tl, td, bl, bd, b, k, w, p, gl, gd, lits, dists);
      SteppedExcuse(o, done, inp, out, p, b, k, w, q, was, lits, dists);
      if o != Returned(0) {
        return;
      }
    }
    o := Returned(0);
  }
}
