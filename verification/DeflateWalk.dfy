/**
 How far a compressed data set reaches, and what its validity depends on: the structure
 of the stream, and, for each reference, how many bytes came before it. The bytes
 themselves do not matter.
 */
module DeflateWalk {
  import opened Words
  import opened Stream
  import opened Wrappers
  import opened Canonical
  import opened DeflateSpec

  /** How many bytes a part of the stream stands for, and where it ends. */
  datatype Reach = Reach(made: nat, p: nat)

  // ----- the codes of a block

  /** The codes up to the end of the block, without looking at how far references go back. */
  function CodesReach(s: seq<bit>, p: nat, lits: seq<nat>, dists: seq<nat>): (r: Option<Reach>)
    ensures r.Some? ==> p < r.value.p <= |s|
    decreases |s| - p
  {
    match Decode(s, p, lits)
    case None => None
    case Some(sym) =>
      var q := p + lits[sym];
      if sym < 256 then Further(1, CodesReach(s, q, lits, dists))
      else if sym == 256 then Some(Reach(0, q))
      else if sym > 285 then None
      else
        match ReadReference(s, q, sym, dists)
        case None => None
        case Some(ref) => Further(ref.len, CodesReach(s, ref.p, lits, dists))
  }

  function Further(n: nat, r: Option<Reach>): Option<Reach> {
    match r
    case None => None
    case Some(reach) => Some(Reach(n + reach.made, reach.p))
  }

  /** No reference goes back beyond n bytes before the codes and those made since. */
  predicate CodesWithin(s: seq<bit>, p: nat, n: nat, lits: seq<nat>, dists: seq<nat>)
    decreases |s| - p
  {
    match Decode(s, p, lits)
    case None => true
    case Some(sym) =>
      var q := p + lits[sym];
      if sym < 256 then CodesWithin(s, q, n + 1, lits, dists)
      else if sym == 256 || sym > 285 then true
      else
        match ReadReference(s, q, sym, dists)
        case None => true
        case Some(ref) => ref.dist <= n && CodesWithin(s, ref.p, n + ref.len, lits, dists)
  }

  /** r is what a part of the stream that reaches so far makes of n bytes, if it is valid there. */
  ghost predicate Agrees(r: Option<Progress>, reach: Option<Reach>, within: bool, n: nat) {
    && (r.Some? <==> reach.Some? && within)
    && (r.Some? ==> r.value.p == reach.value.p && |r.value.out| == n + reach.value.made)
  }

  /** A block's codes are valid exactly when they reach their end and all references stay within. */
  lemma {:induction false} CompressedAgrees(s: seq<bit>, p: nat, out: seq<byte>, lits: seq<nat>, dists: seq<nat>)
    ensures Agrees(Compressed(s, p, out, lits, dists), CodesReach(s, p, lits, dists),
                   CodesWithin(s, p, |out|, lits, dists), |out|)
    decreases |s| - p
  {
    hide ReadReference, Copy;
    var r := Decode(s, p, lits);
    if r.Some? {
      var q := p + lits[r.value];
      if r.value < 256 {
        CompressedAgrees(s, q, out + [r.value], lits, dists);
      } else if 256 < r.value <= 285 {
        var ref := ReadReference(s, q, r.value, dists);
        if ref.Some? && ref.value.dist <= |out| {
          CompressedAgrees(s, ref.value.p, Copy(out, ref.value.dist, ref.value.len), lits, dists);
        }
      }
    }
  }

  // ----- one block

  datatype Step = Step(last: bool, reach: Reach)

  ghost function BlockReach(s: seq<bit>, p: nat, most: nat): (r: Option<Step>)
    ensures r.Some? ==> p < r.value.reach.p <= |s|
  {
    if p + 3 > |s| then None
    else
      var kind := Bits(s, p + 1, 2);
      var r := if kind == 0 then StoredReach(s, p + 3)
               else if kind == 1 then CodesReach(s, p + 3, FixedLits(), FixedDists())
               else if kind == 2 then DynamicReach(s, p + 3, most)
               else None;
      match r
      case None => None
      case Some(reach) => Some(Step(Bits(s, p, 1) == 1, reach))
  }

  function StoredReach(s: seq<bit>, p: nat): (r: Option<Reach>)
    ensures r.Some? ==> p <= r.value.p <= |s|
  {
    match Stored(s, p, [])
    case None => None
    case Some(pr) => Some(Reach(|pr.out|, pr.p))
  }

  ghost function DynamicReach(s: seq<bit>, p: nat, most: nat): (r: Option<Reach>)
    ensures r.Some? ==> p <= r.value.p <= |s|
  {
    match ReadCodes(s, p, most)
    case None => None
    case Some(codes) =>
      if Usable(codes.lits) && Usable(codes.dists) then CodesReach(s, codes.p, codes.lits, codes.dists) else None
  }

  /** All references of the block at p stay within n bytes before it and those it makes. */
  ghost predicate BlockWithin(s: seq<bit>, p: nat, n: nat, most: nat) {
    var kind := Bits(s, p + 1, 2);
    if kind == 1 then CodesWithin(s, p + 3, n, FixedLits(), FixedDists())
    else if kind == 2 then
      match ReadCodes(s, p + 3, most)
      case None => true
      case Some(codes) => CodesWithin(s, codes.p, n, codes.lits, codes.dists)
    else true
  }

  lemma StoredAgrees(s: seq<bit>, p: nat, out: seq<byte>)
    ensures Agrees(Stored(s, p, out), StoredReach(s, p), true, |out|)
  {
    hide Bits, Bytes, ByteAligned;
  }

  lemma DynamicAgrees(s: seq<bit>, p: nat, out: seq<byte>, most: nat)
    ensures match ReadCodes(s, p, most)
      case None => Agrees(Dynamic(s, p, out, most), DynamicReach(s, p, most), true, |out|)
      case Some(codes) =>
        Agrees(Dynamic(s, p, out, most), DynamicReach(s, p, most),
               CodesWithin(s, codes.p, |out|, codes.lits, codes.dists), |out|)
  {
    hide ReadCodes, Usable, Compressed, CodesReach, CodesWithin;
    var r := ReadCodes(s, p, most);
    if r.Some? {
      CompressedAgrees(s, r.value.p, out, r.value.lits, r.value.dists);
    }
  }

  /** A block is valid exactly when it reaches its end and all its references stay within. */
  lemma BlockAgrees(s: seq<bit>, p: nat, out: seq<byte>, most: nat)
    ensures var r, b := OneBlock(s, p, out, most), BlockReach(s, p, most);
      && (r.Some? <==> b.Some? && BlockWithin(s, p, |out|, most))
      && (r.Some? ==> r.value.last == b.value.last && r.value.progress.p == b.value.reach.p)
      && (r.Some? ==> |r.value.progress.out| == |out| + b.value.reach.made)
  {
    hide Bits, ReadCodes, Stored, StoredReach, Compressed, CodesReach, CodesWithin, Dynamic, DynamicReach, FixedLits,
      FixedDists;
    StoredAgrees(s, p + 3, out);
    CompressedAgrees(s, p + 3, out, FixedLits(), FixedDists());
    DynamicAgrees(s, p + 3, out, most);
  }

  // ----- a whole data set

  ghost function InflatedReach(s: seq<bit>, p: nat, most: nat): (r: Option<Reach>)
    decreases |s| - p
  {
    match BlockReach(s, p, most)
    case None => None
    case Some(b) => if b.last then Some(b.reach) else Further(b.reach.made, InflatedReach(s, b.reach.p, most))
  }

  /** No distance in the data set is beyond n bytes before it and those produced so far. */
  ghost predicate Within(s: seq<bit>, p: nat, n: nat, most: nat)
    decreases |s| - p
  {
    && BlockWithin(s, p, n, most)
    && match BlockReach(s, p, most)
       case None => true
       case Some(b) => b.last || Within(s, b.reach.p, n + b.reach.made, most)
  }

  /** A data set is valid exactly when it reaches its end and all its references stay within. */
  lemma {:induction false} InflatedAgrees(s: seq<bit>, p: nat, out: seq<byte>, most: nat)
    ensures Agrees(Inflated(s, p, out, most), InflatedReach(s, p, most), Within(s, p, |out|, most), |out|)
    decreases |s| - p
  {
    hide OneBlock, BlockReach, BlockWithin;
    BlockAgrees(s, p, out, most);
    var r := OneBlock(s, p, out, most);
    if r.Some? && !r.value.last {
      InflatedAgrees(s, r.value.progress.p, r.value.progress.out, most);
    }
  }

  /** Whether a data set is valid depends on how many bytes came before it, not on which. */
  lemma LengthDecides(s: seq<bit>, p: nat, out: seq<byte>, out': seq<byte>, most: nat)
    requires |out| == |out'|
    ensures Inflated(s, p, out, most).Some? <==> Inflated(s, p, out', most).Some?
  {
    hide Inflated, InflatedReach, Within;
    InflatedAgrees(s, p, out, most);
    InflatedAgrees(s, p, out', most);
  }

  /** What is valid after other bytes is valid by itself exactly when no reference reaches those bytes. */
  lemma ValidByItself(s: seq<bit>, p: nat, win: seq<byte>, most: nat)
    requires Inflated(s, p, win, most).Some?
    ensures Inflated(s, p, [], most).Some? <==> Within(s, p, 0, most)
  {
    hide Inflated, InflatedReach, Within;
    InflatedAgrees(s, p, win, most);
    InflatedAgrees(s, p, [], most);
  }

  // ----- what the decoder does not accept

  /** The block at p, if it has codes of its own, has no more distance codes than the decoder accepts. */
  predicate HeaderFew(s: seq<bit>, p: nat) {
    Bits(s, p + 1, 2) == 2 ==> 1 + Bits(s, p + 8, 5) <= DECODER_DISTS
  }

  /** So do all blocks of the data set at p. */
  ghost predicate Few(s: seq<bit>, p: nat)
    decreases |s| - p
  {
    && HeaderFew(s, p)
    && match BlockReach(s, p, FORMAT_DISTS)
       case None => true
       case Some(b) => b.last || Few(s, b.reach.p)
  }

  /** What the decoder makes of a data set: what the format says, if no block has too many distance codes. */
  ghost function Specified(s: seq<bit>, p: nat, out: seq<byte>): (r: Option<Progress>)
    ensures r.Some? ==> p <= r.value.p <= |s| && out <= r.value.out
  {
    if Few(s, p) then Inflated(s, p, out, FORMAT_DISTS) else None
  }

  lemma ReadCodesFew(s: seq<bit>, p: nat)
    ensures ReadCodes(s, p, DECODER_DISTS) ==
      if 1 + Bits(s, p + 5, 5) <= DECODER_DISTS then ReadCodes(s, p, FORMAT_DISTS) else None
  {
    hide Bits, LengthCodes, Usable, Expand;
    BitsBound(s, p + 5, 5);
    assert Pow2(5) == 32;
  }

  lemma BlockFew(s: seq<bit>, p: nat, out: seq<byte>)
    ensures OneBlock(s, p, out, DECODER_DISTS) == if HeaderFew(s, p) then OneBlock(s, p, out, FORMAT_DISTS) else None
  {
    hide Bits, ReadCodes, Stored, Compressed, Usable, FixedLits, FixedDists;
    ReadCodesFew(s, p + 3);
  }

  /** With the decoder's limit, a data set is valid exactly when it is and no block has too many distance codes. */
  lemma {:induction false} InflatedFew(s: seq<bit>, p: nat, out: seq<byte>)
    ensures Inflated(s, p, out, DECODER_DISTS) == Specified(s, p, out)
    decreases |s| - p
  {
    hide OneBlock, BlockReach, BlockWithin, HeaderFew;
    BlockFew(s, p, out);
    BlockAgrees(s, p, out, FORMAT_DISTS);
    var r := OneBlock(s, p, out, FORMAT_DISTS);
    if r.Some? && !r.value.last {
      InflatedFew(s, r.value.progress.p, r.value.progress.out);
    }
  }
}
