/**
 What gzip writes (sections 2.3.1 of RFC 1952 and 3.1.1 of RFC 1951): compressed bits packed
 into bytes, the CRC-32 and the length. The gzip branch of unzip gives the bytes back.
 */
module GzipTrip {
  import opened Words
  import opened Stream
  import opened Wrappers
  import opened DeflateSpec
  import opened DeflateWalk
  import opened Deflater
  import opened DeflateTrip
  import opened DeflateWritten
  import opened Crc
  import opened CrcLaws
  import opened Unzip

  // ----- bits packed into bytes

  /** Bits as a number, least significant first. */
  function Number(e: seq<bit>): (r: nat)
    ensures r < Pow2(|e|)
  {
    if e == [] then 0 else e[0] + 2 * Number(e[1..])
  }

  /** Bits packed into bytes, the last one filled up with zeros. */
  function Packed(e: seq<bit>): (r: seq<byte>)
    ensures |r| == (|e| + 7) / 8
    decreases |e|
  {
    assert Pow2(8) == 256;
    if e == [] then []
    else if |e| <= 8 then Small(e); [Number(e)]
    else [Number(e[..8])] + Packed(e[8..])
  }

  lemma Small(e: seq<bit>)
    requires |e| <= 8
    ensures Number(e) < 256
  {
    Pow2Mono(|e|, 8);
    assert Pow2(8) == 256;
  }

  lemma {:induction false} NumberBit(e: seq<bit>, j: nat)
    requires j < |e|
    ensures Bit(Number(e), j) == e[j]
    decreases j
  {
    var n := Number(e);
    assert n / 2 == Number(e[1..]) && n % 2 == e[0];
    if j > 0 {
      NumberBit(e[1..], j - 1);
    }
  }

  lemma {:induction false} PackedBit(e: seq<bit>, j: nat)
    requires j < |e|
    ensures Bit(Packed(e)[j / 8], j % 8) == e[j]
    decreases |e|
  {
    hide Bit, Number;
    if |e| <= 8 {
      NumberBit(e, j);
    } else if j < 8 {
      NumberBit(e[..8], j);
    } else {
      PackedBit(e[8..], j - 8);
      assert j / 8 == 1 + (j - 8) / 8 && j % 8 == (j - 8) % 8;
    }
  }

  /** The stream of the packed bytes, wherever they stand, continues with the bits. */
  lemma PackedSpells(pre: seq<byte>, e: seq<bit>, post: seq<byte>)
    ensures Spells(BitsOf(pre + Packed(e) + post), 8 * |pre|, e)
  {
    hide Bit, Packed;
    var data := pre + Packed(e) + post;
    var s, p := BitsOf(data), 8 * |pre|;
    forall j | 0 <= j < |e|
      ensures s[p + j] == e[j]
    {
      PackedBit(e, j);
      assert (p + j) / 8 == |pre| + j / 8 && (p + j) % 8 == j % 8;
      assert data[|pre| + j / 8] == Packed(e)[j / 8];
    }
    assert s[p..p + |e|] == e;
  }

  // ----- the trailer

  /** A word's bytes are read as the word, and no others are. */
  lemma LittleWord(s: seq<byte>, i: nat, x: nat)
    requires i + 4 <= |s| && x < WORD
    ensures Word(s, i) == x <==> s[i..i + 4] == Little(x, 4)
  {
    var b0: nat, b1: nat, b2: nat, b3: nat := s[i], s[i + 1], s[i + 2], s[i + 3];
    LittleFour(x);
    LittleFour(b0 + 0x100 * b1 + 0x1_0000 * b2 + 0x100_0000 * b3);
    FourParts(b0, b1, b2, b3);
    assert s[i..i + 4] == [s[i], s[i + 1], s[i + 2], s[i + 3]];
  }

  lemma LittleFour(x: nat)
    ensures Little(x, 4) == [x % 256, x / 256 % 256, x / 256 / 256 % 256, x / 256 / 256 / 256 % 256]
    ensures var b0, b1, b2, b3 := x % 256, x / 256 % 256, x / 256 / 256 % 256, x / 256 / 256 / 256 % 256;
      x < WORD ==> x == b0 + 0x100 * b1 + 0x1_0000 * b2 + 0x100_0000 * b3
  {
    assert Little(x / 256 / 256 / 256 / 256, 0) == [];
    assert Little(x / 256 / 256 / 256, 1) == [x / 256 / 256 / 256 % 256];
    assert Little(x / 256 / 256, 2) == [x / 256 / 256 % 256, x / 256 / 256 / 256 % 256];
  }

  lemma FourParts(b0: nat, b1: nat, b2: nat, b3: nat)
    requires b0 < 256 && b1 < 256 && b2 < 256 && b3 < 256
    ensures var x := b0 + 0x100 * b1 + 0x1_0000 * b2 + 0x100_0000 * b3;
      && x < WORD && x % 256 == b0 && x / 256 % 256 == b1 && x / 256 / 256 % 256 == b2
      && x / 256 / 256 / 256 % 256 == b3
  {
  }

  /** The trailer is the four bytes of the CRC-32 and then the four of the length, and nothing else. */
  lemma TrailerIs(data: seq<byte>, q: nat, bytes: seq<byte>)
    ensures Trailed(data, q, bytes) <==>
      q + 8 <= |data| && data[q..q + 8] == Little(Crc32(bytes), 4) + Little(|bytes| % WORD, 4)
  {
    hide Little, Word, Crc32;
    Residue(bytes);
    if q + 8 <= |data| {
      LittleWord(data, q, Crc32(bytes));
      LittleWord(data, q + 4, |bytes| % WORD);
      assert data[q..q + 8] == data[q..q + 4] + data[q + 4..q + 8];
      var a, b := Little(Crc32(bytes), 4), Little(|bytes| % WORD, 4);
      if data[q..q + 8] == a + b {
        assert data[q..q + 4] == (a + b)[..4] && data[q + 4..q + 8] == (a + b)[4..];
      }
    }
  }

  // ----- compressing and decompressing

  /** A member after its header: the blocks, the CRC-32 and the length of what they were made from. */
  ghost function Member(pieces: seq<Piece>, start: nat): seq<byte>
    requires GoodPieces(pieces, [], 30)
  {
    var bytes := Content(pieces, []);
    Packed(Deflated(pieces, 8 * start, [], 30)) + Little(Crc32(bytes), 4) + Little(|bytes| % WORD, 4)
  }

  /**
   Whatever blocks gzip writes, with at most thirty distance codes each, and whatever follows
   them: unzip accepts the member, and makes of it the bytes that were compressed.
   */
  lemma MemberRestored(pre: seq<byte>, pieces: seq<Piece>, post: seq<byte>, win: seq<byte>)
    requires GoodPieces(pieces, [], 30)
    ensures var data := pre + Member(pieces, |pre|) + post;
      && GoodMember(data, |pre|, win)
      && Made(data, |pre|, win).value.out == Content(pieces, [])
      && (Made(data, |pre|, win).value.p + 7) / 8 + 8 == |pre| + |Member(pieces, |pre|)|
  {
    hide Spells, Deflated, GoodPieces, Inflated, Few, Little, Crc32, Content, Packed, Trailed;
    var bytes := Content(pieces, []);
    var e := Deflated(pieces, 8 * |pre|, [], 30);
    var tail := Little(Crc32(bytes), 4) + Little(|bytes| % WORD, 4);
    var data := pre + Member(pieces, |pre|) + post;
    assert data == pre + Packed(e) + (tail + post);
    PackedSpells(pre, e, tail + post);
    RoundTrip(BitsOf(data), 8 * |pre|, [], pieces, 30);
    InflatedFew(BitsOf(data), 8 * |pre|, []);
    PackedLength(e);
    var p := 8 * |pre| + |e|;
    assert (p + 7) / 8 == |pre| + |Packed(e)|;
    TrailerIs(data, (p + 7) / 8, bytes);
    TailInside(pre + Packed(e), tail, post);
    ValidMemberIsGood(data, |pre|, win, bytes, p);
  }

  lemma PackedLength(e: seq<bit>)
    ensures |Packed(e)| == (|e| + 7) / 8
  {
  }

  lemma TailInside(a: seq<byte>, b: seq<byte>, c: seq<byte>)
    ensures (a + b + c)[|a|..|a| + |b|] == b && a + b + c == a + (b + c)
  {
  }

  /** The stream at byte i is written as these blocks, and followed by the trailer of what they make. */
  ghost predicate MemberOf(data: seq<byte>, i: nat, win: seq<byte>, pieces: seq<Piece>, made: Progress) {
    && WrittenAs(BitsOf(data), 8 * i, win, 30, pieces, made) && win <= made.out
    && var bytes, q := made.out[|win|..], (made.p + 7) / 8;
       q + 8 <= |data| && data[q..q + 8] == Little(Crc32(bytes), 4) + Little(|bytes| % WORD, 4)
  }

  /** Exactly such members are accepted. */
  lemma AcceptedExactly(data: seq<byte>, i: nat, win: seq<byte>)
    ensures GoodMember(data, i, win) <==> exists pieces, made :: MemberOf(data, i, win, pieces, made)
  {
    hide Inflated, Specified, WrittenAs, Trailed, Little, Crc32;
    if GoodMember(data, i, win) {
      var made := Specified(BitsOf(data), 8 * i, win).value;
      DecodedExactly(BitsOf(data), 8 * i, win, made);
      SpecifiedExtends(BitsOf(data), 8 * i, win);
      var pieces :| WrittenAs(BitsOf(data), 8 * i, win, 30, pieces, made);
      TrailerIs(data, (made.p + 7) / 8, made.out[|win|..]);
      assert MemberOf(data, i, win, pieces, made);
    }
    forall pieces, made | MemberOf(data, i, win, pieces, made)
      ensures GoodMember(data, i, win)
    {
      DecodedExactly(BitsOf(data), 8 * i, win, made);
      TrailerIs(data, (made.p + 7) / 8, made.out[|win|..]);
    }
  }

  lemma SpecifiedExtends(s: seq<bit>, p: nat, out: seq<byte>)
    requires Specified(s, p, out).Some?
    ensures out <= Specified(s, p, out).value.out
  {
  }
}
