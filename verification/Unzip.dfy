/**
 The gzip branch of unzip (boot/zBoot/unzip.c:86-178): decompress, then check the CRC-32
 and the length that follow the compressed data.
 */
module Unzip {
  import opened Words
  import opened Stream
  import opened Wrappers
  import opened Canonical
  import opened DeflateSpec
  import opened DeflateWalk
  import opened InflateCodes
  import DeflateHistory
  import Inflate
  import Input
  import Output
  import Crc

  /**
   How unzip ends. Stopped, and the three that name an error, are calls of error(), which
   never returns; Stopped is one made below unzip itself. Undefined as in Outcome.
   */
  datatype Ending = Accepted | InvalidFormat | CrcError | LengthError | Stopped | Undefined

  // ----- little-endian words

  /** The 32-bit word in four bytes, least significant first. */
  function Word(s: seq<byte>, i: nat): nat
    requires i + 4 <= |s|
  {
    var b0: nat, b1: nat, b2: nat, b3: nat := s[i], s[i + 1], s[i + 2], s[i + 3];
    b0 + 0x100 * b1 + 0x1_0000 * b2 + 0x100_0000 * b3
  }

  /** The macro SH. */
  function Sh(s: seq<byte>, i: nat): nat
    requires i + 2 <= |s|
  {
    Or(s[i], Shl(s[i + 1], 8))
  }

  /** The macro LG. */
  function Lg(s: seq<byte>, i: nat): nat
    requires i + 4 <= |s|
  {
    Or(Sh(s, i), Shl(Sh(s, i + 2), 16))
  }

  lemma ShIsWord(s: seq<byte>, i: nat)
    requires i + 2 <= |s|
    ensures var hi: nat := s[i + 1]; Sh(s, i) == s[i] + 0x100 * hi
  {
    hide Or;
    Pow2Values();
    OrDisjoint(s[i], s[i + 1], 8);
  }

  lemma LgIsWord(s: seq<byte>, i: nat)
    requires i + 4 <= |s|
    ensures Lg(s, i) == Word(s, i)
  {
    hide Or, Sh;
    Pow2Values();
    ShIsWord(s, i);
    ShIsWord(s, i + 2);
    OrDisjoint(Sh(s, i), Sh(s, i + 2), 16);
  }

  // ----- what a valid member is

  /** Bytes that the compressed data at i stands for, decoded after those of the window. */
  ghost function Made(data: seq<byte>, i: nat, win: seq<byte>): (r: Option<Progress>)
    ensures r.Some? ==> r.value.p <= 8 * |data|
  {
    match Specified(BitsOf(data), 8 * i, win)
    case None => None
    case Some(pr) => Some(Progress(pr.out[|win|..], pr.p))
  }

  /** The data set at i is valid and followed by the CRC-32 and the length of its bytes. */
  ghost predicate GoodMember(data: seq<byte>, i: nat, win: seq<byte>) {
    && Made(data, i, win).Some?
    && var made := Made(data, i, win).value;
      Trailed(data, (made.p + 7) / 8, made.out)
  }

  /** The decoder's answer, for the check of the trailer. */
  lemma AnswerMade(f: Inflate.Inflater, o: Outcome, i: nat, win: seq<byte>, output0: seq<byte>)
    requires |win| == Output.WSIZE
    requires f.Finished(o, Specified(f.inp.Stream(), 8 * i, win), output0, Crc.ALL_ONES, 0)
    ensures o == Returned(0) ==> Made(f.inp.data, i, win).Some? && var made := Made(f.inp.data, i, win).value;
      && f.inp.inptr == (made.p + 7) / 8 && f.out.output == output0 + made.out && f.out.Ready()
      && f.out.crc.crc == Crc.Feed(Crc.ALL_ONES, made.out) && f.out.bytesOut == |made.out| % WORD
    ensures o != Returned(0) ==> !GoodMember(f.inp.data, i, win)
  {
    hide Specified, Bits, Word, Crc.Crc32, Crc.Feed;
  }

  /** Eight bytes read one by one; fails at the end of the input. */
  method ReadTrailer(inp: Input.Input) returns (ok: bool, buf: array<byte>)
    requires inp.inptr <= |inp.data|
    modifies inp
    ensures fresh(buf) && buf.Length == 16 && (ok <==> old(inp.inptr) + 8 <= |inp.data|)
    ensures ok ==> inp.inptr == old(inp.inptr) + 8 && buf[..8] == inp.data[old(inp.inptr)..inp.inptr]
  {
    buf := new byte[16](_ => 0);
    var n := 0;
    while n < 8
      invariant 0 <= n <= 8 && inp.inptr == old(inp.inptr) + n <= |inp.data|
      invariant buf[..n] == inp.data[old(inp.inptr)..inp.inptr]
    {
      if inp.inptr >= |inp.data| {
        return false, buf;
      }
      buf[n] := inp.data[inp.inptr];
      inp.inptr := inp.inptr + 1;
      n := n + 1;
    }
    ok := true;
  }

  /** The trailer at the input's position is that of the bytes, which were sent. */
  ghost predicate Trailed(data: seq<byte>, q: nat, bytes: seq<byte>) {
    q + 8 <= |data| && Word(data, q) == Crc.Crc32(bytes) && Word(data, q + 4) == |bytes| % WORD
  }

  /** Reads the trailer, and compares it with the CRC register and the count. */
  method CheckTrailer(f: Inflate.Inflater, ghost bytes: seq<byte>) returns (r: Ending)
    requires f.inp.inptr <= |f.inp.data| && f.out.Ready()
    requires f.out.crc.crc == Crc.Feed(Crc.ALL_ONES, bytes) && f.out.bytesOut == |bytes| % WORD
    modifies f.inp, f.out.crc
    ensures r == Accepted <==> Trailed(f.inp.data, old(f.inp.inptr), bytes)
    ensures var q, data := old(f.inp.inptr), f.inp.data;
      r == (if q + 8 > |data| then Stopped
            else if Word(data, q) != Crc.Crc32(bytes) then CrcError
            else if Word(data, q + 4) != |bytes| % WORD then LengthError
            else Accepted)
  {
    hide Crc.Feed, Word, Lg;
    var ok, buf;
    ok, buf := ReadTrailer(f.inp);
    if !ok {
      return Stopped;
    }
    LgIsWord(buf[..], 0);
    LgIsWord(buf[..], 4);
    WordInside(f.inp.data, f.inp.inptr - 8, buf[..]);
    Crc.FeedNothing(f.out.crc.crc);
    assert f.out.window[..0] == [];
    var crc := f.out.crc.UpdCrc(f.out.window, 0);
    if Lg(buf[..], 0) != crc {
      return CrcError;
    }
    if Lg(buf[..], 4) != f.out.bytesOut {
      return LengthError;
    }
    r := Accepted;
  }

  method Unzip(f: Inflate.Inflater) returns (r: Ending)
    requires f.out.Ready() && f.inp.inptr <= |f.inp.data| && f.out.bytesOut == 0
    modifies f, f.inp, f.out, f.out.window, f.out.crc
    ensures r == Accepted <==> GoodMember(f.inp.data, old(f.inp.inptr), old(f.out.window[..]))
    ensures r == Accepted ==>
      f.out.output == old(f.out.output) + Made(f.inp.data, old(f.inp.inptr), old(f.out.window[..])).value.out
  {
    hide Made, Specified, Crc.Feed, Word, Lg, Crc.Crc32, Trailed, Inflate.Inflater.Finished, Inflate.Accepts;
    ghost var i, win, output0 := f.inp.inptr, f.out.window[..], f.out.output;
    var _ := f.out.crc.UpdCrc(null, 0);
    var o := f.Inflate();
    AnswerMade(f, o, i, win, output0);
    if o != Returned(0) {
      return if o.Undefined? then Ending.Undefined else if o.Halted? then Stopped else InvalidFormat;
    }
    r := CheckTrailer(f, Made(f.inp.data, i, win).value.out);
  }

  lemma WordInside(s: seq<byte>, q: nat, t: seq<byte>)
    requires q + 8 <= |s| && 8 <= |t| && t[..8] == s[q..q + 8]
    ensures Word(t, 0) == Word(s, q) && Word(t, 4) == Word(s, q + 4)
  {
  }

  // ----- what the format promises

  /**
   Compressed data that is valid by itself, has no block with too many distance codes, and
   comes with its trailer, is accepted whatever the window held.
   */
  lemma ValidMemberIsGood(data: seq<byte>, i: nat, win: seq<byte>, bytes: seq<byte>, p: nat)
    requires Inflated(BitsOf(data), 8 * i, [], FORMAT_DISTS) == Some(Progress(bytes, p)) && Few(BitsOf(data), 8 * i)
    requires Trailed(data, (p + 7) / 8, bytes)
    ensures GoodMember(data, i, win) && Made(data, i, win) == Some(Progress(bytes, p))
  {
    hide Inflated, Few, Word, Crc.Crc32;
    DeflateHistory.InflatedAfter(BitsOf(data), 8 * i, win, [], FORMAT_DISTS);
    assert win + [] == win;
    assert (win + bytes)[|win|..] == bytes;
  }

  /** Of what is accepted, exactly the data whose references stay within its own bytes is valid by itself. */
  lemma GoodMemberValid(data: seq<byte>, i: nat, win: seq<byte>)
    requires GoodMember(data, i, win)
    ensures Few(BitsOf(data), 8 * i)
    ensures Inflated(BitsOf(data), 8 * i, [], FORMAT_DISTS).Some? <==> Within(BitsOf(data), 8 * i, 0, FORMAT_DISTS)
  {
    hide Inflated, Few, Within, Trailed;
    ValidByItself(BitsOf(data), 8 * i, win, FORMAT_DISTS);
  }
}
