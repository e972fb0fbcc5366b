/**
 A stream that is valid by itself means the same whatever bytes precede its output.

 The decoder never checks that a distance stays within the bytes produced so far: it
 reads what its window held before. For the streams that the format allows this makes
 no difference.
 */
module DeflateHistory {
  import opened Words
  import opened Stream
  import opened Wrappers
  import opened Canonical
  import opened DeflateSpec

  /** The same progress, after other bytes. */
  function After(pre: seq<byte>, r: Option<Progress>): Option<Progress> {
    match r
    case None => None
    case Some(pr) => Some(Progress(pre + pr.out, pr.p))
  }

  lemma {:induction false} CopyAfter(pre: seq<byte>, out: seq<byte>, dist: nat, n: nat)
    requires 1 <= dist <= |out|
    ensures Copy(pre + out, dist, n) == pre + Copy(out, dist, n)
    decreases n
  {
    hide Copy;
    if n > 0 {
      var b := out[|out| - dist];
      CopyNext(out, dist, n);
      CopyNext(pre + out, dist, n);
      assert (pre + out) + [b] == pre + (out + [b]);
      CopyAfter(pre, out + [b], dist, n - 1);
    } else {
      CopyNone(out, dist);
      CopyNone(pre + out, dist);
    }
  }

  lemma CopyNext(out: seq<byte>, dist: nat, n: nat)
    requires 1 <= dist <= |out| && n > 0
    ensures Copy(out, dist, n) == Copy(out + [out[|out| - dist]], dist, n - 1)
  {
  }

  lemma CopyNone(out: seq<byte>, dist: nat)
    requires 1 <= dist <= |out|
    ensures Copy(out, dist, 0) == out
  {
  }

  lemma {:induction false} CompressedAfter(s: seq<bit>, p: nat, pre: seq<byte>, out: seq<byte>, lits: seq<nat>,
                                           dists: seq<nat>)
    requires Compressed(s, p, out, lits, dists).Some?
    ensures Compressed(s, p, pre + out, lits, dists) == After(pre, Compressed(s, p, out, lits, dists))
    decreases |s| - p
  {
    hide ReadReference, Copy;
    var sym := Decode(s, p, lits).value;
    var q := p + lits[sym];
    if sym < 256 {
      assert (pre + out) + [sym] == pre + (out + [sym]);
      CompressedAfter(s, q, pre, out + [sym], lits, dists);
    } else if sym > 256 {
      var ref := ReadReference(s, q, sym, dists).value;
      CopyAfter(pre, out, ref.dist, ref.len);
      CompressedAfter(s, ref.p, pre, Copy(out, ref.dist, ref.len), lits, dists);
    }
  }

  lemma StoredAfter(s: seq<bit>, p: nat, pre: seq<byte>, out: seq<byte>)
    ensures Stored(s, p, pre + out) == After(pre, Stored(s, p, out))
  {
    hide Bits, ByteAligned, Bytes;
    var q := ByteAligned(p);
    var more := Bytes(s, q + 32, Bits(s, q, 16));
    assert (pre + out) + more == pre + (out + more);
  }

  lemma BlockAfter(s: seq<bit>, p: nat, pre: seq<byte>, out: seq<byte>, most: nat)
    requires OneBlock(s, p, out, most).Some?
    ensures OneBlock(s, p, pre + out, most).Some?
    ensures var a, b := OneBlock(s, p, out, most).value, OneBlock(s, p, pre + out, most).value;
      b == Block(a.last, Progress(pre + a.progress.out, a.progress.p))
  {
    hide Bits, Stored, Compressed, ReadCodes, Usable, FixedLits, FixedDists;
    var kind := Bits(s, p + 1, 2);
    if kind == 0 {
      StoredAfter(s, p + 3, pre, out);
    } else if kind == 1 {
      CompressedAfter(s, p + 3, pre, out, FixedLits(), FixedDists());
    } else {
      var codes := ReadCodes(s, p + 3, most).value;
      CompressedAfter(s, codes.p, pre, out, codes.lits, codes.dists);
    }
  }

  lemma {:induction false} InflatedAfter(s: seq<bit>, p: nat, pre: seq<byte>, out: seq<byte>, most: nat)
    requires Inflated(s, p, out, most).Some?
    ensures Inflated(s, p, pre + out, most) == After(pre, Inflated(s, p, out, most))
    decreases |s| - p
  {
    hide OneBlock;
    BlockAfter(s, p, pre, out, most);
    var block := OneBlock(s, p, out, most).value;
    if !block.last {
      InflatedAfter(s, block.progress.p, pre, block.progress.out, most);
    }
  }
}
