/**
 The compressed format (sections 3.2.3 to 3.2.7 of RFC 1951) as functions from a bit
 stream and the bytes produced so far to the bytes produced afterwards and the position
 reached. None: the stream is not a valid one.
 */
module DeflateSpec {
  import opened Words
  import opened Stream
  import opened Wrappers
  import opened Canonical
  import opened Geometry
  import opened HuftPrepare

  /** Bytes produced and position in the stream. */
  datatype Progress = Progress(out: seq<byte>, p: nat)

  // ----- length and distance codes (section 3.2.5)

  /** Symbols 257 to 285. */
  const LENGTH_BASE: seq<nat> := [3, 4, 5, 6, 7, 8, 9, 10, 11, 13, 15, 17, 19, 23, 27, 31,
                                  35, 43, 51, 59, 67, 83, 99, 115, 131, 163, 195, 227, 258]
  const LENGTH_EXTRA: seq<nat> := [0, 0, 0, 0, 0, 0, 0, 0, 1, 1, 1, 1, 2, 2, 2, 2,
                                   3, 3, 3, 3, 4, 4, 4, 4, 5, 5, 5, 5, 0]

  /** Distance symbols 0 to 29. */
  const DIST_BASE: seq<nat> := [1, 2, 3, 4, 5, 7, 9, 13, 17, 25, 33, 49, 65, 97, 129, 193,
                                257, 385, 513, 769, 1025, 1537, 2049, 3073, 4097, 6145,
                                8193, 12289, 16385, 24577]
  const DIST_EXTRA: seq<nat> := [0, 0, 0, 0, 1, 1, 2, 2, 3, 3, 4, 4, 5, 5, 6, 6,
                                 7, 7, 8, 8, 9, 9, 10, 10, 11, 11, 12, 12, 13, 13]

  /** Repeats the byte `dist` back, n times. */
  function Copy(out: seq<byte>, dist: nat, n: nat): (r: seq<byte>)
    requires 1 <= dist <= |out|
    ensures |r| == |out| + n && out <= r
    decreases n
  {
    if n == 0 then out else Copy(out + [out[|out| - dist]], dist, n - 1)
  }

  /** How far back a reference goes, and where its bits end. */
  datatype Distance = Distance(dist: nat, p: nat)

  function ReadDistance(s: seq<bit>, p: nat, dists: seq<nat>): (r: Option<Distance>)
    ensures r.Some? ==> p < r.value.p <= |s| && r.value.dist >= 1
  {
    match Decode(s, p, dists)
    case None => None
    case Some(d) =>
      if d > 29 then None
      else
        var q := p + dists[d];
        var x := DIST_EXTRA[d];
        if q + x > |s| then None else Some(Distance(DIST_BASE[d] + Bits(s, q, x), q + x))
  }

  /** A back reference: how many bytes, from how far back. */
  datatype Reference = Reference(len: nat, dist: nat, p: nat)

  /** The length and distance that follow a length symbol's code. */
  function ReadReference(s: seq<bit>, p: nat, sym: nat, dists: seq<nat>): (r: Option<Reference>)
    requires 257 <= sym <= 285
    ensures r.Some? ==> p < r.value.p <= |s| && r.value.dist >= 1
  {
    var x := LENGTH_EXTRA[sym - 257];
    if p + x > |s| then None
    else
      match ReadDistance(s, p + x, dists)
      case None => None
      case Some(back) => Some(Reference(LENGTH_BASE[sym - 257] + Bits(s, p, x), back.dist, back.p))
  }

  /** The codes of a compressed block, up to its end-of-block code. */
  function Compressed(s: seq<bit>, p: nat, out: seq<byte>, lits: seq<nat>, dists: seq<nat>): (r: Option<Progress>)
    ensures r.Some? ==> p <= r.value.p <= |s| && out <= r.value.out
    decreases |s| - p
  {
    match Decode(s, p, lits)
    case None => None
    case Some(sym) =>
      var q := p + lits[sym];
      if sym < 256 then Compressed(s, q, out + [sym], lits, dists)
      else if sym == 256 then Some(Progress(out, q))
      else if sym > 285 then None
      else
        match ReadReference(s, q, sym, dists)
        case None => None
        case Some(ref) =>
          if ref.dist > |out| then None
          else Compressed(s, ref.p, Copy(out, ref.dist, ref.len), lits, dists)
  }

  // ----- stored blocks (section 3.2.4)

  function ByteAligned(p: nat): (q: nat)
    ensures p <= q < p + 8 && q % 8 == 0
  {
    (p + 7) / 8 * 8
  }

  function Bytes(s: seq<bit>, p: nat, n: nat): (r: seq<byte>)
    ensures |r| == n
    decreases n, p
  {
    if n == 0 then [] else Bytes(s, p, n - 1) + [ByteAt(s, p + 8 * (n - 1))]
  }

  function ByteAt(s: seq<bit>, p: nat): byte {
    BitsBound(s, p, 8);
    assert Pow2(8) == 256;
    Bits(s, p, 8)
  }

  function Stored(s: seq<bit>, p: nat, out: seq<byte>): (r: Option<Progress>)
    ensures r.Some? ==> p <= r.value.p <= |s| && out <= r.value.out
  {
    var q := ByteAligned(p);
    if q + 32 > |s| then None
    else
      var n := Bits(s, q, 16);
      if n + Bits(s, q + 16, 16) != 0xffff || q + 32 + 8 * n > |s| then None
      else Some(Progress(out + Bytes(s, q + 32, n), q + 32 + 8 * n))
  }

  // ----- fixed codes (section 3.2.6)

  function FixedLits(): (r: seq<nat>)
    ensures |r| == 288
    ensures forall i :: 0 <= i < 288 ==> r[i] == if i < 144 then 8 else if i < 256 then 9 else if i < 280 then 7 else 8
  {
    Repeat(8, 144) + Repeat(9, 112) + Repeat(7, 24) + Repeat(8, 8)
  }

  function FixedDists(): seq<nat> {
    Repeat(5, 32)
  }

  // ----- dynamic codes (section 3.2.7)

  const ORDER: seq<nat> := [16, 17, 18, 0, 8, 7, 9, 6, 10, 5, 11, 4, 12, 3, 13, 2, 14, 1, 15]

  /** Lengths of the code length codes, the first n of them present in the stream. */
  function LengthCodes(s: seq<bit>, p: nat, n: nat): (r: seq<nat>)
    ensures |r| == 19
    decreases n, p
  {
    if n == 0 || n > 19 then seq(19, _ => 0) else LengthCodes(s, p, n - 1)[ORDER[n - 1] := Bits(s, p + 3 * (n - 1), 3)]
  }

  function Repeat(x: nat, n: nat): (r: seq<nat>)
    ensures |r| == n && forall i :: 0 <= i < n ==> r[i] == x
  {
    seq(n, _ => x)
  }

  function Last(lens: seq<nat>): nat {
    if lens == [] then 0 else lens[|lens| - 1]
  }

  datatype Lens = Lens(lens: seq<nat>, p: nat)

  /** One code length symbol: the lengths it stands for. */
  function ExpandOne(s: seq<bit>, p: nat, cl: seq<nat>, lens: seq<nat>): (r: Option<Lens>)
    ensures r.Some? ==> p < r.value.p <= |s| && |lens| < |r.value.lens|
    ensures r.Some? && Limited(lens) ==> Limited(r.value.lens)
  {
    match Decode(s, p, cl)
    case None => None
    case Some(sym) =>
      var q := p + cl[sym];
      if sym < 16 then Some(Lens(lens + [sym], q))
      else
        var x := if sym == 16 then 2 else if sym == 17 then 3 else 7;
        if q + x > |s| then None
        else
          var n := (if sym == 18 then 11 else 3) + Bits(s, q, x);
          Some(Lens(lens + Repeat(if sym == 16 then Last(lens) else 0, n), q + x))
  }

  ghost predicate Limited(lens: seq<nat>) {
    forall i :: 0 <= i < |lens| ==> lens[i] <= 15
  }

  /** Exactly n code lengths. */
  function Expand(s: seq<bit>, p: nat, cl: seq<nat>, lens: seq<nat>, n: nat): (r: Option<Lens>)
    requires p <= |s|
    ensures r.Some? ==> p <= r.value.p <= |s|
    ensures r.Some? ==> |r.value.lens| == n
    ensures r.Some? && Limited(lens) ==> Limited(r.value.lens)
    decreases |s| - p
  {
    if |lens| == n then Some(Lens(lens, p))
    else if |lens| > n then None
    else
      match ExpandOne(s, p, cl, lens)
      case None => None
      case Some(next) => Expand(s, next.p, cl, next.lens, n)
  }

  /** A code that is complete, or has at most one-bit codes. */
  ghost predicate Usable(lens: seq<nat>) {
    Lengths(lens) && Kraft(lens, |lens|) <= ALL && (Kraft(lens, |lens|) == ALL || MaxLen(lens, |lens|) <= 1)
  }

  /**
   How many distance code lengths the format lets a block have, and how many the decoder
   accepts (boot/zBoot/inflate.c:584-590). The last two stand for no distance.
   */
  const FORMAT_DISTS: nat := 32
  const DECODER_DISTS: nat := 30

  /** The code lengths of a block, and where its codes start. */
  datatype Codes = Codes(lits: seq<nat>, dists: seq<nat>, p: nat)

  /** The code lengths, with at most `most` of them for distances. */
  ghost function ReadCodes(s: seq<bit>, p: nat, most: nat): (r: Option<Codes>)
    ensures r.Some? ==> p <= r.value.p <= |s|
    ensures r.Some? ==> 257 <= |r.value.lits| <= 286 && Limited(r.value.lits)
    ensures r.Some? ==> 1 <= |r.value.dists| <= most && Limited(r.value.dists)
  {
    var nl, nd, nb := 257 + Bits(s, p, 5), 1 + Bits(s, p + 5, 5), 4 + Bits(s, p + 10, 4);
    var q := p + 14 + 3 * nb;
    if q > |s| || nl > 286 || nd > most || !Usable(LengthCodes(s, p + 14, nb)) then None
    else
      match Expand(s, q, LengthCodes(s, p + 14, nb), [], nl + nd)
      case None => None
      case Some(all) => Some(Codes(all.lens[..nl], all.lens[nl..], all.p))
  }

  ghost function Dynamic(s: seq<bit>, p: nat, out: seq<byte>, most: nat): (r: Option<Progress>)
    ensures r.Some? ==> p <= r.value.p <= |s| && out <= r.value.out
  {
    match ReadCodes(s, p, most)
    case None => None
    case Some(codes) =>
      if !Usable(codes.lits) || !Usable(codes.dists) then None
      else Compressed(s, codes.p, out, codes.lits, codes.dists)
  }

  // ----- blocks (section 3.2.3)

  datatype Block = Block(last: bool, progress: Progress)

  ghost function OneBlock(s: seq<bit>, p: nat, out: seq<byte>, most: nat): (r: Option<Block>)
    ensures r.Some? ==> p < r.value.progress.p <= |s| && out <= r.value.progress.out
  {
    if p + 3 > |s| then None
    else
      var kind := Bits(s, p + 1, 2);
      var r := if kind == 0 then Stored(s, p + 3, out)
               else if kind == 1 then Compressed(s, p + 3, out, FixedLits(), FixedDists())
               else if kind == 2 then Dynamic(s, p + 3, out, most)
               else None;
      match r
      case None => None
      case Some(progress) => Some(Block(Bits(s, p, 1) == 1, progress))
  }

  /** A whole compressed data set; of the format when `most` is FORMAT_DISTS. */
  ghost function Inflated(s: seq<bit>, p: nat, out: seq<byte>, most: nat): (r: Option<Progress>)
    ensures r.Some? ==> p <= r.value.p <= |s| && out <= r.value.out
    decreases |s| - p
  {
    match OneBlock(s, p, out, most)
    case None => None
    case Some(block) =>
      if block.last then Some(block.progress) else Inflated(s, block.progress.p, block.progress.out, most)
  }
}
