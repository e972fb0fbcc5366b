/**
 What a compressor may write (RFC 1951), bit by bit and without the decoder's functions:
 stored blocks, blocks with the fixed codes, and blocks with codes of their own. Whatever
 is written stands for what was compressed: RoundTrip.
 */
module Deflater {
  import opened Words
  import opened Stream
  import opened Wrappers
  import opened Canonical
  import opened Geometry
  import opened HuftPrepare
  import opened DeflateSpec
  import opened DeflateWalk
  import opened DeflateLaws
  import opened DeflateCases
  import opened InflateDynamic
  import opened InflateFixed

  // ----- bits

  /** A number of n bits, least significant bit first. */
  function Field(v: nat, n: nat): (r: seq<bit>)
    ensures |r| == n
    decreases n, v
  {
    if n == 0 then [] else [v % 2] + Field(v / 2, n - 1)
  }

  /** A code of n bits, most significant bit first. */
  function CodeBits(v: nat, n: nat): (r: seq<bit>)
    ensures |r| == n
    decreases n, v
  {
    if n == 0 then [] else CodeBits(v / 2, n - 1) + [v % 2]
  }

  /** The stream at p continues with these bits. */
  predicate Spells(s: seq<bit>, p: nat, e: seq<bit>) {
    p + |e| <= |s| && s[p..p + |e|] == e
  }

  lemma SpellsBoth(s: seq<bit>, p: nat, a: seq<bit>, b: seq<bit>)
    ensures Spells(s, p, a + b) <==> Spells(s, p, a) && Spells(s, p + |a|, b)
  {
    if p + |a| + |b| <= |s| {
      var q := p + |a|;
      assert s[p..q + |b|] == s[p..q] + s[q..q + |b|];
      if s[p..q + |b|] == a + b {
        assert s[p..q] == (a + b)[..|a|] && s[q..q + |b|] == (a + b)[|a|..];
      }
    }
  }

  lemma {:induction false} FieldRead(s: seq<bit>, p: nat, v: nat, n: nat)
    requires v < Pow2(n) && Spells(s, p, Field(v, n))
    ensures Bits(s, p, n) == v
    decreases n
  {
    if n > 0 {
      SpellsBoth(s, p, [v % 2], Field(v / 2, n - 1));
      FieldRead(s, p + 1, v / 2, n - 1);
      assert s[p..p + 1] == [s[p]];
    }
  }

  lemma {:induction false} CodeBitsRead(s: seq<bit>, p: nat, v: nat, n: nat)
    requires v < Pow2(n) && Spells(s, p, CodeBits(v, n))
    ensures Msb(s, p, n) == v
    decreases n
  {
    if n > 0 {
      SpellsBoth(s, p, CodeBits(v / 2, n - 1), [v % 2]);
      CodeBitsRead(s, p, v / 2, n - 1);
      assert s[p + n - 1..p + n] == [s[p + n - 1]];
    }
  }

  // ----- codes

  /** A code: lengths that leave room for every symbol. */
  ghost predicate Roomy(lens: seq<nat>) {
    Lengths(lens) && Kraft(lens, |lens|) <= ALL
  }

  /** A symbol's code, as the standard assigns it. */
  function SymbolBits(lens: seq<nat>, sym: nat): (r: seq<bit>)
    requires sym < |lens|
    ensures |r| == lens[sym]
  {
    CodeBits(Code(lens, sym), lens[sym])
  }

  /** A code fits its length. */
  lemma CodeFits(lens: seq<nat>, sym: nat)
    requires Roomy(lens) && sym < |lens| && lens[sym] > 0
    ensures Code(lens, sym) < Pow2(lens[sym])
  {
    hide Code, Kraft, Filled, Start, Pow2;
    var k := lens[sym];
    var c := Counts(lens);
    CodeStart(lens, sym);
    CountMono(lens, sym, |lens|, k);
    FilledNext(c, k);
    FilledMono(c, k, BMAX);
    KraftFilled(lens, |lens|);
    StartIs(c, k, Count(lens, sym, k));
    MulSucc(Count(lens, sym, k), c[k], Width(k));
    Pow2Add(k, BMAX - k);
    MulLt(Code(lens, sym), Pow2(k), Width(k));
  }

  lemma StartIs(c: counts, k: nat, r: nat)
    requires 1 <= k <= BMAX
    ensures Start(c, k, r) == Filled(c, k - 1) + r * Width(k)
  {
  }

  lemma SymbolRead(s: seq<bit>, p: nat, lens: seq<nat>, sym: nat)
    requires Roomy(lens) && sym < |lens| && lens[sym] > 0 && Spells(s, p, SymbolBits(lens, sym))
    ensures Decode(s, p, lens) == Some(sym)
  {
    hide Code, Kraft, CodeBits, Msb;
    CodeFits(lens, sym);
    CodeBitsRead(s, p, Code(lens, sym), lens[sym]);
    DecodeUnique(s, p, lens, sym);
  }

  // ----- the fixed codes

  /** The table of section 3.2.6. */
  function FixedBits(sym: nat): (r: seq<bit>)
    requires sym < 288
  {
    if sym < 144 then CodeBits(0x30 + sym, 8)
    else if sym < 256 then CodeBits(0x190 + (sym - 144), 9)
    else if sym < 280 then CodeBits(sym - 256, 7)
    else CodeBits(0xc0 + (sym - 280), 8)
  }

  lemma FixedStarts()
    ensures NextCode(FixedLits(), 7) == 0 && NextCode(FixedLits(), 8) == 0x30 && NextCode(FixedLits(), 9) == 0x190
  {
    hide Count, FixedLits;
    FirstCode(FixedLits(), 7);
    FixedCounts();
    assert BlCount(FixedLits(), 7) == 24 && BlCount(FixedLits(), 8) == 152;
  }

  lemma FixedCounts()
    ensures Count(FixedLits(), 288, 7) == 24 && Count(FixedLits(), 288, 8) == 152
  {
    hide Count;
    FixedCount(288, 7);
    FixedCount(288, 8);
  }

  /** How many of the first n symbols have length k. */
  lemma FixedCount(n: nat, k: nat)
    requires n <= 288
    ensures Count(FixedLits(), n, k) ==
      if k == 8 then (if n < 144 then n else if n < 280 then 144 else n - 136)
      else if k == 9 then (if n < 144 then 0 else if n < 256 then n - 144 else 112)
      else if k == 7 then (if n < 256 then 0 else if n < 280 then n - 256 else 24)
      else 0
  {
    hide Count, FixedLits;
    var lens := FixedLits();
    CountNone(lens, k);
    CountRun(lens, 0, if n < 144 then n else 144, 8, k);
    if n >= 144 {
      CountRun(lens, 144, if n < 256 then n else 256, 9, k);
    }
    if n >= 256 {
      CountRun(lens, 256, if n < 280 then n else 280, 7, k);
    }
    if n >= 280 {
      CountRun(lens, 280, n, 8, k);
    }
  }

  /** The standard's way of assigning codes gives the table. */
  lemma FixedIs(sym: nat)
    requires sym < 288
    ensures SymbolBits(FixedLits(), sym) == FixedBits(sym)
  {
    hide Count, CodeBits, NextCode;
    FixedStarts();
    FixedCount(sym, FixedLits()[sym]);
  }

  lemma FixedRoomy()
    ensures Roomy(FixedLits())
  {
    hide Kraft;
    KraftRun(FixedLits(), 0, 144, 8);
    KraftRun(FixedLits(), 144, 256, 9);
    KraftRun(FixedLits(), 256, 280, 7);
    KraftRun(FixedLits(), 280, 288, 8);
    WidthValues();
    KraftZero(FixedLits());
    Pow2Values();
  }

  lemma FixedRead(s: seq<bit>, p: nat, sym: nat)
    requires sym < 288 && Spells(s, p, FixedBits(sym))
    ensures Decode(s, p, FixedLits()) == Some(sym) && FixedLits()[sym] == |FixedBits(sym)|
  {
    hide FixedBits, CodeBits, Spells, Code, Decode, Kraft;
    FixedIs(sym);
    FixedRoomy();
    SymbolRead(s, p, FixedLits(), sym);
  }

  /** A fixed distance code is the symbol in five bits. */
  lemma FixedDistanceRead(s: seq<bit>, p: nat, sym: nat)
    requires sym < 30 && Spells(s, p, CodeBits(sym, 5))
    ensures Decode(s, p, FixedDists()) == Some(sym) && FixedDists()[sym] == 5
  {
    hide Msb, CodeBits, Decode;
    Pow2Values();
    CodeBitsRead(s, p, sym, 5);
    DecodeUniform(s, p, 5, 32);
  }

  // ----- literals and matches

  /**
   What a compressor found: a byte, or a repetition of what stands `dist` bytes back. A length of
   258 also has a long form, with the symbol below its own.
   */
  datatype Token = Literal(b: byte) | Match(len: nat, dist: nat, long: bool)

  function MatchCoded(len: nat, long: bool): Coded
    requires 3 <= len <= 258
  {
    if long then Coded(284, 5, 31) else LengthCoded(len)
  }

  /** The bytes after one more token. */
  function Grown(t: Token, out: seq<byte>): (r: seq<byte>)
    ensures |r| == |out| + if t.Literal? then 1 else if 1 <= t.dist <= |out| then t.len else 0
  {
    match t
    case Literal(b) => out + [b]
    case Match(len, dist, _) =>
      if 1 <= dist <= |out| then out + seq(len, i requires 0 <= i < len => out[|out| - dist + i % dist]) else out
  }

  function Original(tokens: seq<Token>, out: seq<byte>): seq<byte>
    decreases |tokens|
  {
    if tokens == [] then out else Original(tokens[1..], Grown(tokens[0], out))
  }

  /** The codes of a block: the fixed ones, or those with these lengths. */
  datatype Book = FixedBook | OwnBook(lits: seq<nat>, dists: seq<nat>)

  function Lits(book: Book): seq<nat> {
    if book.FixedBook? then FixedLits() else book.lits
  }

  function Dists(book: Book): seq<nat> {
    if book.FixedBook? then FixedDists() else book.dists
  }

  ghost predicate Sound(book: Book) {
    book.OwnBook? ==> Roomy(book.lits) && Roomy(book.dists)
  }

  predicate HasLit(book: Book, sym: nat) {
    if book.FixedBook? then sym < 288 else sym < |book.lits| && book.lits[sym] > 0
  }

  predicate HasDist(book: Book, sym: nat) {
    if book.FixedBook? then sym < 30 else sym < |book.dists| && book.dists[sym] > 0
  }

  function LitBits(book: Book, sym: nat): seq<bit>
    requires HasLit(book, sym)
  {
    if book.FixedBook? then FixedBits(sym) else SymbolBits(book.lits, sym)
  }

  function DistBits(book: Book, sym: nat): seq<bit>
    requires HasDist(book, sym)
  {
    if book.FixedBook? then CodeBits(sym, 5) else SymbolBits(book.dists, sym)
  }

  /** A token that the format has a code for, and this block has the codes of. */
  predicate Codable(book: Book, t: Token) {
    match t
    case Literal(b) => HasLit(book, b)
    case Match(len, dist, long) =>
      && 3 <= len <= 258 && 1 <= dist <= 32768 && (long ==> len == 258)
      && HasLit(book, MatchCoded(len, long).sym) && HasDist(book, DistanceCoded(dist).sym)
  }

  function TokenBits(book: Book, t: Token): seq<bit>
    requires Codable(book, t)
  {
    match t
    case Literal(b) => LitBits(book, b)
    case Match(len, dist, long) =>
      var c, d := MatchCoded(len, long), DistanceCoded(dist);
      LitBits(book, c.sym) + (Field(c.extra, c.width) + (DistBits(book, d.sym) + Field(d.extra, d.width)))
  }

  /** Tokens that may stand after n bytes, in a block with these codes. */
  predicate Writable(book: Book, tokens: seq<Token>, n: nat)
    decreases |tokens|
  {
    if tokens == [] then HasLit(book, 256)
    else
      var t := tokens[0];
      Codable(book, t) && (t.Match? ==> t.dist <= n) && Writable(book, tokens[1..], n + if t.Match? then t.len else 1)
  }

  /** The tokens' bits, and the end of the block. */
  function TokensBits(book: Book, tokens: seq<Token>, n: nat): seq<bit>
    requires Writable(book, tokens, n)
    decreases |tokens|
  {
    if tokens == [] then LitBits(book, 256)
    else
      var t := tokens[0];
      TokenBits(book, t) + TokensBits(book, tokens[1..], n + if t.Match? then t.len else 1)
  }

  lemma LitRead(s: seq<bit>, p: nat, book: Book, sym: nat)
    requires Sound(book) && HasLit(book, sym) && Spells(s, p, LitBits(book, sym))
    ensures Decode(s, p, Lits(book)) == Some(sym) && Lits(book)[sym] == |LitBits(book, sym)|
  {
    hide Spells, FixedBits, SymbolBits, Decode, Roomy, FixedLits;
    if book.FixedBook? {
      FixedRead(s, p, sym);
    } else {
      SymbolRead(s, p, book.lits, sym);
    }
  }

  lemma DistRead(s: seq<bit>, p: nat, book: Book, sym: nat)
    requires Sound(book) && HasDist(book, sym) && Spells(s, p, DistBits(book, sym))
    ensures Decode(s, p, Dists(book)) == Some(sym) && Dists(book)[sym] == |DistBits(book, sym)|
  {
    hide Spells, CodeBits, SymbolBits, Decode, Roomy, FixedDists;
    if book.FixedBook? {
      FixedDistanceRead(s, p, sym);
    } else {
      SymbolRead(s, p, book.dists, sym);
    }
  }

  lemma SpellsFour(s: seq<bit>, p: nat, a: seq<bit>, b: seq<bit>, c: seq<bit>, d: seq<bit>)
    requires Spells(s, p, a + (b + (c + d)))
    ensures Spells(s, p, a) && Spells(s, p + |a|, b) && Spells(s, p + |a| + |b|, c)
    ensures Spells(s, p + |a| + |b| + |c|, d) && p + |a| + |b| + |c| + |d| <= |s|
  {
    hide Spells;
    SpellsBoth(s, p, a, b + (c + d));
    SpellsBoth(s, p + |a|, b, c + d);
    SpellsBoth(s, p + |a| + |b|, c, d);
    SpellsInside(s, p + |a| + |b| + |c|, d);
  }

  /** Either form of a length stands for it. */
  lemma MatchRight(len: nat, long: bool)
    requires 3 <= len <= 258 && (long ==> len == 258)
    ensures var c := MatchCoded(len, long);
      && 257 <= c.sym <= 285 && LENGTH_EXTRA[c.sym - 257] == c.width && c.extra < Pow2(c.width)
      && LENGTH_BASE[c.sym - 257] + c.extra == len
  {
    hide LengthCoded, Pow2;
    LengthRight(len);
    Pow2Values();
  }

  /** A match is read back as its length and its distance. */
  lemma MatchRead(s: seq<bit>, p: nat, book: Book, t: Token)
    requires Sound(book) && t.Match? && Codable(book, t) && Spells(s, p, TokenBits(book, t))
    ensures var sym := MatchCoded(t.len, t.long).sym;
      && 257 <= sym <= 285 && Decode(s, p, Lits(book)) == Some(sym)
      && ReadReference(s, p + Lits(book)[sym], sym, Dists(book))
         == Some(Reference(t.len, t.dist, p + |TokenBits(book, t)|))
  {
    hide Spells, LitBits, DistBits, Field, Decode, MatchCoded, DistanceCoded, Sound, HasLit, HasDist, Bits;
    hide ReadReference, Lits, Dists, Pow2, LENGTH_BASE, LENGTH_EXTRA, DIST_BASE, DIST_EXTRA;
    var c, d := MatchCoded(t.len, t.long), DistanceCoded(t.dist);
    var a, b, x, y := LitBits(book, c.sym), Field(c.extra, c.width), DistBits(book, d.sym), Field(d.extra, d.width);
    SpellsFour(s, p, a, b, x, y);
    MatchRight(t.len, t.long);
    DistanceRight(t.dist);
    LitRead(s, p, book, c.sym);
    DistRead(s, p + |a| + |b|, book, d.sym);
    FieldRead(s, p + |a|, c.extra, c.width);
    FieldRead(s, p + |a| + |b| + |x|, d.extra, d.width);
    ReferenceRead(s, p + |a|, c, d, t.len, t.dist, Dists(book));
  }

  lemma SpellsInside(s: seq<bit>, p: nat, e: seq<bit>)
    requires Spells(s, p, e)
    ensures p + |e| <= |s|
  {
  }

  /** What a block's codes stand for is what was compressed. */
  lemma {:induction false} TokensRead(s: seq<bit>, p: nat, out: seq<byte>, book: Book, tokens: seq<Token>)
    requires Sound(book) && Writable(book, tokens, |out|) && Spells(s, p, TokensBits(book, tokens, |out|))
    ensures Compressed(s, p, out, Lits(book), Dists(book))
      == Some(Progress(Original(tokens, out), p + |TokensBits(book, tokens, |out|)|))
    decreases |tokens|
  {
    hide Spells, LitBits, Sound, HasLit, Lits, Dists, Decode, ReadReference, Copy, Codable, TokenBits, Grown;
    if tokens == [] {
      LitRead(s, p, book, 256);
      CompressedEnd(s, p, out, Lits(book), Dists(book));
    } else {
      var t := tokens[0];
      var rest := TokensBits(book, tokens[1..], |out| + if t.Match? then t.len else 1);
      SpellsBoth(s, p, TokenBits(book, t), rest);
      TokenRead(s, p, out, book, t);
      TokensRead(s, p + |TokenBits(book, t)|, Grown(t, out), book, tokens[1..]);
    }
  }

  lemma CompressedEnd(s: seq<bit>, p: nat, out: seq<byte>, lits: seq<nat>, dists: seq<nat>)
    requires Decode(s, p, lits) == Some(256)
    ensures Compressed(s, p, out, lits, dists) == Some(Progress(out, p + lits[256]))
  {
    hide Decode, ReadReference, Copy;
  }

  lemma CompressedLiteral(s: seq<bit>, p: nat, out: seq<byte>, lits: seq<nat>, dists: seq<nat>, b: byte)
    requires Decode(s, p, lits) == Some(b)
    ensures Compressed(s, p, out, lits, dists) == Compressed(s, p + lits[b], out + [b], lits, dists)
  {
    hide Decode, ReadReference, Copy;
  }

  lemma CompressedMatch(s: seq<bit>, p: nat, out: seq<byte>, lits: seq<nat>, dists: seq<nat>, sym: nat, ref: Reference)
    requires 257 <= sym <= 285 && Decode(s, p, lits) == Some(sym) && 1 <= ref.dist <= |out|
    requires ReadReference(s, p + lits[sym], sym, dists) == Some(ref)
    ensures Compressed(s, p, out, lits, dists) == Compressed(s, ref.p, Copy(out, ref.dist, ref.len), lits, dists)
  {
    hide Decode, ReadReference, Copy;
  }

  /** One token is one turn. */
  lemma TokenRead(s: seq<bit>, p: nat, out: seq<byte>, book: Book, t: Token)
    requires Sound(book) && Codable(book, t) && Spells(s, p, TokenBits(book, t)) && (t.Match? ==> t.dist <= |out|)
    ensures Compressed(s, p, out, Lits(book), Dists(book))
      == Compressed(s, p + |TokenBits(book, t)|, Grown(t, out), Lits(book), Dists(book))
    ensures |Grown(t, out)| == |out| + if t.Match? then t.len else 1
  {
    hide Spells, LitBits, Sound, HasLit, HasDist, Lits, Dists, Decode, ReadReference, Copy, Compressed;
    match t
    case Literal(b) =>
      LitRead(s, p, book, b);
      CompressedLiteral(s, p, out, Lits(book), Dists(book), b);
    case Match(_, _, _) =>
      MatchTurn(s, p, out, book, t);
  }

  lemma MatchTurn(s: seq<bit>, p: nat, out: seq<byte>, book: Book, t: Token)
    requires Sound(book) && t.Match? && Codable(book, t) && Spells(s, p, TokenBits(book, t))
    requires 1 <= t.dist <= |out|
    ensures Compressed(s, p, out, Lits(book), Dists(book))
      == Compressed(s, p + |TokenBits(book, t)|, Grown(t, out), Lits(book), Dists(book))
  {
    hide Spells, LitBits, DistBits, Decode, MatchCoded, DistanceCoded, Sound, HasLit, HasDist, TokenBits;
    hide ReadReference, Lits, Dists, Compressed, Copy;
    var ref := Reference(t.len, t.dist, p + |TokenBits(book, t)|);
    MatchRead(s, p, book, t);
    CompressedMatch(s, p, out, Lits(book), Dists(book), MatchCoded(t.len, t.long).sym, ref);
    CopyIs(out, t.dist, t.len);
  }
}
