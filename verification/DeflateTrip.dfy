/**
 Blocks and whole data sets as a compressor may write them, and the theorem that the
 format gives back what was compressed.
 */
module DeflateTrip {
  import opened Words
  import opened Stream
  import opened Wrappers
  import opened Canonical
  import opened Geometry
  import opened HuftPrepare
  import opened DeflateSpec
  import opened DeflateWalk
  import opened DeflateLaws
  import opened Deflater
  import opened InflateDynamic

  // ----- code lengths

  /** Runs of code lengths: one length, the last one (zero if there is none) n times more, n zeros. */
  datatype Run = Length(x: nat) | Again(n: nat) | Zeros(n: nat)

  /** The symbol of the code length code that a run takes, and its extra bits. */
  function RunCoded(r: Run): Coded {
    match r
    case Length(x) => Coded(x, 0, 0)
    case Again(n) => Coded(16, 2, if n >= 3 then n - 3 else 0)
    case Zeros(n) =>
      if n <= 10 then Coded(17, 3, if n >= 3 then n - 3 else 0) else Coded(18, 7, n - 11)
  }

  predicate RunCodable(cl: seq<nat>, r: Run) {
    && |cl| == 19 && RunCoded(r).sym < 19 && cl[RunCoded(r).sym] > 0
    && match r
       case Length(x) => x < 16
       case Again(n) => 3 <= n <= 6
       case Zeros(n) => 3 <= n <= 138
  }

  function RunBits(cl: seq<nat>, r: Run): seq<bit>
    requires RunCodable(cl, r)
  {
    var c := RunCoded(r);
    SymbolBits(cl, c.sym) + Field(c.extra, c.width)
  }

  /** The lengths after one more run. */
  function Extended(r: Run, lens: seq<nat>): seq<nat> {
    match r
    case Length(x) => lens + [x]
    case Again(n) => lens + seq(n, _ => if lens == [] then 0 else lens[|lens| - 1])
    case Zeros(n) => lens + seq(n, _ => 0)
  }

  function AllLengths(runs: seq<Run>, lens: seq<nat>): seq<nat>
    decreases |runs|
  {
    if runs == [] then lens else AllLengths(runs[1..], Extended(runs[0], lens))
  }

  /** The runs make the lengths so far up to n lengths. */
  predicate Complete(cl: seq<nat>, runs: seq<Run>, lens: seq<nat>, n: nat)
    decreases |runs|
  {
    if runs == [] then |lens| == n
    else
      && |lens| < n && RunCodable(cl, runs[0])
      && Complete(cl, runs[1..], Extended(runs[0], lens), n)
  }

  function RunsBits(cl: seq<nat>, runs: seq<Run>, lens: seq<nat>, n: nat): seq<bit>
    requires Complete(cl, runs, lens, n)
    decreases |runs|
  {
    if runs == [] then [] else RunBits(cl, runs[0]) + RunsBits(cl, runs[1..], Extended(runs[0], lens), n)
  }

  lemma {:induction false} CompleteLength(cl: seq<nat>, runs: seq<Run>, lens: seq<nat>, n: nat)
    requires Complete(cl, runs, lens, n)
    ensures |AllLengths(runs, lens)| == n
    decreases |runs|
  {
    if runs != [] {
      CompleteLength(cl, runs[1..], Extended(runs[0], lens), n);
    }
  }

  lemma RunRead(s: seq<bit>, p: nat, cl: seq<nat>, r: Run, lens: seq<nat>)
    requires Roomy(cl) && RunCodable(cl, r) && Spells(s, p, RunBits(cl, r))
    ensures ExpandOne(s, p, cl, lens) == Some(DeflateSpec.Lens(Extended(r, lens), p + |RunBits(cl, r)|))
  {
    hide Spells, SymbolBits, Field, Decode, Roomy, Bits, ExpandOne, Pow2;
    Pow2Values();
    var c := RunCoded(r);
    SpellsBoth(s, p, SymbolBits(cl, c.sym), Field(c.extra, c.width));
    SymbolRead(s, p, cl, c.sym);
    FieldRead(s, p + cl[c.sym], c.extra, c.width);
    SpellsInside(s, p + cl[c.sym], Field(c.extra, c.width));
    ExpandOneIs(s, p, cl, lens, c.sym);
  }

  lemma {:induction false} RunsRead(s: seq<bit>, p: nat, cl: seq<nat>, runs: seq<Run>, lens: seq<nat>, n: nat)
    requires Roomy(cl) && Complete(cl, runs, lens, n) && p <= |s| && Spells(s, p, RunsBits(cl, runs, lens, n))
    ensures Expand(s, p, cl, lens, n)
      == Some(DeflateSpec.Lens(AllLengths(runs, lens), p + |RunsBits(cl, runs, lens, n)|))
    decreases |runs|
  {
    hide Spells, Roomy, RunBits, RunCodable, Extended, ExpandOne, Expand;
    if runs == [] {
      ExpandEnd(s, p, cl, lens);
    } else {
      var next := Extended(runs[0], lens);
      SpellsBoth(s, p, RunBits(cl, runs[0]), RunsBits(cl, runs[1..], next, n));
      RunRead(s, p, cl, runs[0], lens);
      SpellsInside(s, p, RunBits(cl, runs[0]));
      RunsRead(s, p + |RunBits(cl, runs[0])|, cl, runs[1..], next, n);
      ExpandStep(s, p, cl, lens, n);
    }
  }

  // ----- the header of a block with its own codes

  /** The lengths of the first n code length codes, in the order in which they are sent. */
  function LengthsBits(cl: seq<nat>, n: nat): (r: seq<bit>)
    requires n <= 19 == |cl|
    ensures |r| == 3 * n
  {
    if n == 0 then [] else LengthsBits(cl, n - 1) + Field(cl[Sent(n - 1)], 3)
  }

  lemma {:induction false} LengthsRead(s: seq<bit>, p: nat, cl: seq<nat>, n: nat, i: nat)
    requires i < n <= 19 == |cl| && (forall v :: 0 <= v < 19 ==> cl[v] <= 7) && Spells(s, p, LengthsBits(cl, n))
    ensures Bits(s, p + 3 * i, 3) == cl[Sent(i)]
    decreases n
  {
    hide Spells, Bits, Field, Pow2;
    Pow2Values();
    SpellsBoth(s, p, LengthsBits(cl, n - 1), Field(cl[Sent(n - 1)], 3));
    if i == n - 1 {
      FieldRead(s, p + 3 * i, cl[Sent(i)], 3);
    } else {
      LengthsRead(s, p, cl, n - 1, i);
    }
  }

  /** Lengths that are not sent are zero. */
  predicate Sendable(cl: seq<nat>, n: nat) {
    && 4 <= n <= 19 == |cl| && (forall v :: 0 <= v < 19 ==> cl[v] <= 7)
    && forall i :: n <= i < 19 ==> cl[Sent(i)] == 0
  }

  lemma LengthCodesRead(s: seq<bit>, p: nat, cl: seq<nat>, n: nat)
    requires Sendable(cl, n) && Spells(s, p, LengthsBits(cl, n))
    ensures LengthCodes(s, p, n) == cl
  {
    hide Spells, LengthsBits, Bits, LengthCodes, ORDER, Sent;
    OrderOnto();
    forall v | 0 <= v < 19
      ensures LengthCodes(s, p, n)[v] == cl[v]
    {
      var i := PLACE[v];
      LengthCodesAt(s, p, n, i);
      OrderIs(i);
      if i < n {
        LengthsRead(s, p, cl, n, i);
      }
    }
  }

  /** Numbers of lengths of three kinds, the lengths of the code length codes, and the runs. */
  datatype Header = Header(nl: nat, nd: nat, nb: nat, cl: seq<nat>, runs: seq<Run>)

  function BookOf(h: Header): Book {
    var lens := AllLengths(h.runs, []);
    if h.nl <= |lens| then OwnBook(lens[..h.nl], lens[h.nl..]) else OwnBook([], [])
  }

  /** A header the format allows, with at most `most` distance codes. */
  ghost predicate GoodHeader(h: Header, most: nat) {
    && 257 <= h.nl <= 286 && 1 <= h.nd <= most && h.nd <= 32 && Sendable(h.cl, h.nb) && Usable(h.cl)
    && Complete(h.cl, h.runs, [], h.nl + h.nd)
    && Usable(BookOf(h).lits) && Usable(BookOf(h).dists)
  }

  /** The three numbers, the lengths of the code length codes, and the runs. */
  function HeaderOf(nl: nat, nd: nat, nb: nat, lengths: seq<bit>, runs: seq<bit>): seq<bit>
    requires nl >= 257 && nd >= 1 && nb >= 4
  {
    Field(nl - 257, 5) + (Field(nd - 1, 5) + (Field(nb - 4, 4) + (lengths + runs)))
  }

  ghost function HeaderBits(h: Header, most: nat): seq<bit>
    requires GoodHeader(h, most)
  {
    HeaderOf(h.nl, h.nd, h.nb, LengthsBits(h.cl, h.nb), RunsBits(h.cl, h.runs, [], h.nl + h.nd))
  }

  lemma CountsRead(s: seq<bit>, p: nat, nl: nat, nd: nat, nb: nat, lengths: seq<bit>, runs: seq<bit>)
    requires 257 <= nl <= 286 && 1 <= nd <= 32 && 4 <= nb <= 19
    requires |lengths| == 3 * nb && Spells(s, p, HeaderOf(nl, nd, nb, lengths, runs))
    ensures Bits(s, p, 5) == nl - 257 && Bits(s, p + 5, 5) == nd - 1 && Bits(s, p + 10, 4) == nb - 4
    ensures Spells(s, p + 14, lengths) && Spells(s, p + 14 + 3 * nb, runs) && p + 14 + 3 * nb <= |s|
    ensures |HeaderOf(nl, nd, nb, lengths, runs)| == 14 + 3 * nb + |runs|
  {
    hide Spells, Bits, Field, Pow2;
    Pow2Values();
    var a, b, c := Field(nl - 257, 5), Field(nd - 1, 5), Field(nb - 4, 4);
    SpellsBoth(s, p, a, b + (c + (lengths + runs)));
    SpellsFour(s, p + 5, b, c, lengths, runs);
    FieldRead(s, p, nl - 257, 5);
    FieldRead(s, p + 5, nd - 1, 5);
    FieldRead(s, p + 10, nb - 4, 4);
    SpellsInside(s, p + 14, lengths);
  }

  lemma HeaderRead(s: seq<bit>, p: nat, h: Header, most: nat)
    requires GoodHeader(h, most) && Spells(s, p, HeaderBits(h, most))
    ensures ReadCodes(s, p, most) == Some(Codes(BookOf(h).lits, BookOf(h).dists, p + |HeaderBits(h, most)|))
  {
    hide Spells, Bits, Usable, Complete, LengthsBits, RunsBits, LengthCodes, Expand, AllLengths, HeaderOf, Sendable;
    SendableBounds(h.cl, h.nb);
    var lengths, runs := LengthsBits(h.cl, h.nb), RunsBits(h.cl, h.runs, [], h.nl + h.nd);
    CountsRead(s, p, h.nl, h.nd, h.nb, lengths, runs);
    LengthCodesRead(s, p + 14, h.cl, h.nb);
    UsableRoomy(h.cl);
    RunsRead(s, p + 14 + 3 * h.nb, h.cl, h.runs, [], h.nl + h.nd);
    CompleteLength(h.cl, h.runs, [], h.nl + h.nd);
  }

  lemma SendableBounds(cl: seq<nat>, n: nat)
    requires Sendable(cl, n)
    ensures 4 <= n <= 19 == |cl|
  {
  }

  lemma UsableRoomy(lens: seq<nat>)
    requires Usable(lens)
    ensures Roomy(lens)
  {
  }

  // ----- blocks

  /** A stored block, with bits to skip to the next byte; one with the fixed codes; one with codes of its own. */
  datatype Piece =
    | Plain(bytes: seq<byte>, skip: seq<bit>)
    | Standard(tokens: seq<Token>)
    | Custom(head: Header, tokens: seq<Token>)

  function BytesBits(bytes: seq<byte>): (r: seq<bit>)
    ensures |r| == 8 * |bytes|
  {
    if bytes == [] then [] else BytesBits(bytes[..|bytes| - 1]) + Field(bytes[|bytes| - 1], 8)
  }

  /** As many bits as there are up to the next byte, the length and its complement, and the bytes. */
  function PlainBits(bytes: seq<byte>, skip: seq<bit>, p: nat): seq<bit>
    requires |bytes| <= 0xffff && |skip| == 7
  {
    skip[..(8 - p % 8) % 8] + (Field(|bytes|, 16) + (Field(0xffff - |bytes|, 16) + BytesBits(bytes)))
  }

  /** A block that the format allows after n bytes. */
  ghost predicate GoodPiece(piece: Piece, n: nat, most: nat) {
    match piece
    case Plain(bytes, skip) => |bytes| <= 0xffff && |skip| == 7
    case Standard(tokens) => Writable(FixedBook, tokens, n)
    case Custom(head, tokens) => GoodHeader(head, most) && Writable(BookOf(head), tokens, n)
  }

  /** The bits of a block after its first three, which end at p. */
  ghost function BodyBits(piece: Piece, p: nat, n: nat, most: nat): seq<bit>
    requires GoodPiece(piece, n, most)
  {
    match piece
    case Plain(bytes, skip) => PlainBits(bytes, skip, p)
    case Standard(tokens) => TokensBits(FixedBook, tokens, n)
    case Custom(head, tokens) => HeaderBits(head, most) + TokensBits(BookOf(head), tokens, n)
  }

  function Kind(piece: Piece): nat {
    match piece
    case Plain(_, _) => 0
    case Standard(_) => 1
    case Custom(_, _) => 2
  }

  /** The bytes after a block. */
  function Restored(piece: Piece, out: seq<byte>): seq<byte> {
    match piece
    case Plain(bytes, _) => out + bytes
    case Standard(tokens) => Original(tokens, out)
    case Custom(_, tokens) => Original(tokens, out)
  }

  lemma {:induction false} BytesRead(s: seq<bit>, p: nat, bytes: seq<byte>)
    requires Spells(s, p, BytesBits(bytes))
    ensures Bytes(s, p, |bytes|) == bytes
    decreases |bytes|
  {
    hide Spells, Field, Bits, Pow2;
    if bytes != [] {
      var n := |bytes| - 1;
      Pow2Values();
      SpellsBoth(s, p, BytesBits(bytes[..n]), Field(bytes[n], 8));
      BytesRead(s, p, bytes[..n]);
      FieldRead(s, p + 8 * n, bytes[n], 8);
    }
  }

  lemma Padding(p: nat)
    ensures ByteAligned(p) == p + (8 - p % 8) % 8
  {
  }

  lemma PlainRead(s: seq<bit>, p: nat, out: seq<byte>, bytes: seq<byte>, skip: seq<bit>)
    requires |bytes| <= 0xffff && |skip| == 7 && Spells(s, p, PlainBits(bytes, skip, p))
    ensures Stored(s, p, out) == Some(Progress(out + bytes, p + |PlainBits(bytes, skip, p)|))
  {
    hide Spells, Field, Bits, Pow2, ByteAligned, Bytes, BytesBits;
    var pad, a, b: seq<bit> := skip[..(8 - p % 8) % 8], Field(|bytes|, 16), Field(0xffff - |bytes|, 16);
    var q := ByteAligned(p);
    Padding(p);
    Pow2Values();
    SpellsFour(s, p, pad, a, b, BytesBits(bytes));
    FieldRead(s, q, |bytes|, 16);
    FieldRead(s, q + 16, 0xffff - |bytes|, 16);
    BytesRead(s, q + 32, bytes);
  }

  /** What follows a block's first three bits, by its kind. */
  ghost function BodyRead(s: seq<bit>, p: nat, out: seq<byte>, kind: nat, most: nat): Option<Progress> {
    if kind == 0 then Stored(s, p, out)
    else if kind == 1 then Compressed(s, p, out, FixedLits(), FixedDists())
    else if kind == 2 then Dynamic(s, p, out, most)
    else None
  }

  lemma PieceRead(s: seq<bit>, p: nat, out: seq<byte>, piece: Piece, most: nat)
    requires GoodPiece(piece, |out|, most) && Spells(s, p, BodyBits(piece, p, |out|, most))
    ensures BodyRead(s, p, out, Kind(piece), most)
      == Some(Progress(Restored(piece, out), p + |BodyBits(piece, p, |out|, most)|))
  {
    hide Spells, PlainBits, Writable, GoodHeader, HeaderBits, TokensBits, FixedLits, FixedDists, Stored, Compressed;
    hide Dynamic, Original, BookOf;
    match piece
    case Plain(bytes, skip) =>
      PlainRead(s, p, out, bytes, skip);
    case Standard(tokens) =>
      TokensRead(s, p, out, FixedBook, tokens);
    case Custom(head, tokens) =>
      CustomRead(s, p, out, head, tokens, most);
  }

  lemma CustomRead(s: seq<bit>, p: nat, out: seq<byte>, head: Header, tokens: seq<Token>, most: nat)
    requires GoodHeader(head, most) && Writable(BookOf(head), tokens, |out|)
    requires Spells(s, p, HeaderBits(head, most) + TokensBits(BookOf(head), tokens, |out|))
    ensures Dynamic(s, p, out, most) == Some(Progress(
      Original(tokens, out), p + |HeaderBits(head, most)| + |TokensBits(BookOf(head), tokens, |out|)|))
  {
    hide Spells, Writable, HeaderBits, TokensBits, Compressed, Original, Usable, ReadCodes, Roomy, Complete, Sendable;
    SpellsBoth(s, p, HeaderBits(head, most), TokensBits(BookOf(head), tokens, |out|));
    HeaderRead(s, p, head, most);
    BookIs(head);
    UsableRoomy(BookOf(head).lits);
    UsableRoomy(BookOf(head).dists);
    TokensRead(s, p + |HeaderBits(head, most)|, out, BookOf(head), tokens);
  }

  lemma BookIs(h: Header)
    ensures BookOf(h).OwnBook? && Lits(BookOf(h)) == BookOf(h).lits && Dists(BookOf(h)) == BookOf(h).dists
  {
  }

  // ----- a whole data set

  /** Blocks that the format allows, one after the other. */
  ghost predicate GoodPieces(pieces: seq<Piece>, out: seq<byte>, most: nat)
    decreases |pieces|
  {
    && pieces != [] && GoodPiece(pieces[0], |out|, most)
    && (|pieces| > 1 ==> GoodPieces(pieces[1..], Restored(pieces[0], out), most))
  }

  /** The blocks as written from bit p on: the mark of the last one, the kind, and the rest. */
  ghost function Deflated(pieces: seq<Piece>, p: nat, out: seq<byte>, most: nat): seq<bit>
    requires GoodPieces(pieces, out, most)
    decreases |pieces|
  {
    var body := BodyBits(pieces[0], p + 3, |out|, most);
    if |pieces| == 1 then [1] + (Field(Kind(pieces[0]), 2) + body)
    else
      [0] + (Field(Kind(pieces[0]), 2) + (body
        + Deflated(pieces[1..], p + 3 + |body|, Restored(pieces[0], out), most)))
  }

  function Content(pieces: seq<Piece>, out: seq<byte>): seq<byte>
    decreases |pieces|
  {
    if pieces == [] then out else Content(pieces[1..], Restored(pieces[0], out))
  }

  lemma BlockRead(s: seq<bit>, p: nat, out: seq<byte>, piece: Piece, last: bit, most: nat)
    requires GoodPiece(piece, |out|, most)
    requires Spells(s, p, [last]) && Spells(s, p + 1, Field(Kind(piece), 2))
    requires Spells(s, p + 3, BodyBits(piece, p + 3, |out|, most))
    ensures OneBlock(s, p, out, most) == Some(Block(
      last == 1, Progress(Restored(piece, out), p + 3 + |BodyBits(piece, p + 3, |out|, most)|)))
  {
    hide BodyBits, Field, Bits, GoodPiece, Stored, Compressed, Dynamic, Restored, FixedLits, FixedDists, Pow2;
    PieceRead(s, p + 3, out, piece, most);
    Pow2Values();
    FieldRead(s, p + 1, Kind(piece), 2);
    OneBitRead(s, p, last);
  }

  lemma OneBitRead(s: seq<bit>, p: nat, b: bit)
    requires Spells(s, p, [b])
    ensures Bits(s, p, 1) == b
  {
    assert s[p..p + 1] == [s[p]];
    assert Bits(s, p + 1, 0) == 0;
  }

  /**
   Inflating undoes deflating: any blocks that the format allows, as written from bit p on and
   after any bytes, are read as what was compressed, up to their last bit.
   */
  lemma {:induction false} RoundTrip(s: seq<bit>, p: nat, out: seq<byte>, pieces: seq<Piece>, most: nat)
    requires GoodPieces(pieces, out, most) && Spells(s, p, Deflated(pieces, p, out, most))
    ensures Inflated(s, p, out, most)
      == Some(Progress(Content(pieces, out), p + |Deflated(pieces, p, out, most)|))
    decreases |pieces|
  {
    hide Spells, BodyBits, Field, GoodPiece, Restored, OneBlock;
    var piece := pieces[0];
    var kind, body := Field(Kind(piece), 2), BodyBits(piece, p + 3, |out|, most);
    if |pieces| == 1 {
      SpellsBoth(s, p, [1], kind + body);
      SpellsBoth(s, p + 1, kind, body);
      BlockRead(s, p, out, piece, 1, most);
    } else {
      var rest := Deflated(pieces[1..], p + 3 + |body|, Restored(piece, out), most);
      SpellsFour(s, p, [0], kind, body, rest);
      BlockRead(s, p, out, piece, 0, most);
      RoundTrip(s, p + 3 + |body|, Restored(piece, out), pieces[1..], most);
    }
  }
}
