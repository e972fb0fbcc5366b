/**
 The other half: whatever the format accepts, some compressor writes. Together with
 DeflateTrip.RoundTrip, the format accepts exactly what can be written, and reads it as
 exactly what was compressed: ExactlyWritten.
 */
module DeflateWritten {
  import opened Words
  import opened Stream
  import opened Wrappers
  import opened Canonical
  import opened Geometry
  import opened HuftPrepare
  import opened DeflateSpec
  import opened DeflateWalk
  import opened DeflateLaws
  import opened Deflater
  import opened DeflateTrip
  import opened InflateDynamic
  import InflateFixed

  // ----- bits

  /** Every field is spelled by its number. */
  lemma {:induction false} FieldSpelled(s: seq<bit>, p: nat, n: nat)
    requires p + n <= |s|
    ensures Spells(s, p, Field(Bits(s, p, n), n))
    decreases n
  {
    if n > 0 {
      var v := Bits(s, p, n);
      FieldSpelled(s, p + 1, n - 1);
      assert s[p..p + 1] == [s[p]] == [v % 2];
      SpellsBoth(s, p, [v % 2], Field(v / 2, n - 1));
    }
  }

  lemma {:induction false} CodeSpelled(s: seq<bit>, p: nat, n: nat)
    requires p + n <= |s|
    ensures Spells(s, p, CodeBits(Msb(s, p, n), n))
    decreases n
  {
    if n > 0 {
      var v := Msb(s, p, n);
      CodeSpelled(s, p, n - 1);
      assert s[p + n - 1..p + n] == [s[p + n - 1]] == [v % 2];
      SpellsBoth(s, p, CodeBits(v / 2, n - 1), [v % 2]);
    }
  }

  lemma SymbolSpelled(s: seq<bit>, p: nat, lens: seq<nat>, sym: nat)
    requires Decode(s, p, lens) == Some(sym)
    ensures lens[sym] > 0 && Spells(s, p, SymbolBits(lens, sym))
  {
    hide Msb, Code, CodeBits, Spells;
    CodeSpelled(s, p, lens[sym]);
  }

  lemma LitSpelled(s: seq<bit>, p: nat, book: Book, sym: nat)
    requires Decode(s, p, Lits(book)) == Some(sym)
    ensures HasLit(book, sym) && Spells(s, p, LitBits(book, sym)) && |LitBits(book, sym)| == Lits(book)[sym]
  {
    hide Spells, SymbolBits, FixedBits, Decode;
    SymbolSpelled(s, p, Lits(book), sym);
    SymbolLength(Lits(book), sym);
    if book.FixedBook? {
      FixedIs(sym);
    }
  }

  lemma SymbolLength(lens: seq<nat>, sym: nat)
    requires sym < |lens|
    ensures |SymbolBits(lens, sym)| == lens[sym]
  {
  }

  lemma DistSpelled(s: seq<bit>, p: nat, book: Book, sym: nat)
    requires Decode(s, p, Dists(book)) == Some(sym) && sym < 30
    ensures HasDist(book, sym) && Spells(s, p, DistBits(book, sym)) && |DistBits(book, sym)| == Dists(book)[sym]
  {
    hide Spells, SymbolBits, CodeBits, Decode, Msb;
    if book.FixedBook? {
      InflateFixed.DecodeUniform(s, p, 5, 32);
      CodeSpelled(s, p, 5);
      CodeLength(sym, 5);
    } else {
      SymbolSpelled(s, p, book.dists, sym);
      SymbolLength(book.dists, sym);
    }
  }

  lemma CodeLength(v: nat, n: nat)
    ensures |CodeBits(v, n)| == n
  {
  }

  // ----- lengths and distances

  lemma Log2Exact(l: nat, n: nat)
    requires Pow2(n) <= l < 2 * Pow2(n)
    ensures Log2(l) == n
  {
    hide Log2;
    Log2Is(l);
    if Log2(l) < n {
      Pow2Strict(Log2(l), n);
    } else if Log2(l) > n {
      Pow2Strict(n, Log2(l));
    }
  }

  /** q 2^e + x, for a q of k + 1 bits: its logarithm, and the two parts. */
  lemma Parts(q: nat, e: nat, x: nat, k: nat)
    requires Pow2(k) <= q < 2 * Pow2(k) && x < Pow2(e)
    ensures var l := q * Pow2(e) + x; Log2(l) == k + e && Shr(l, e) == q && Low(l, e) == x
  {
    hide Pow2, Log2, Shr, Low;
    Pow2Add(k, e);
    MulLe(Pow2(k), q, Pow2(e));
    MulSucc(q, 2 * Pow2(k), Pow2(e));
    MulDouble(Pow2(e), 2 * Pow2(k), Pow2(k));
    Log2Exact(q * Pow2(e) + x, k + e);
    SplitUnique(q, x, e);
  }

  /** Every length symbol with every number in its extra bits codes some length. */
  lemma LengthWritten(i: nat, x: nat)
    requires i <= 28 && x < Pow2(LENGTH_EXTRA[i])
    ensures var len := LENGTH_BASE[i] + x;
      3 <= len <= 258 && MatchCoded(len, i == 27 && x == 31) == Coded(257 + i, LENGTH_EXTRA[i], x)
      && (i == 27 && x == 31 ==> len == 258)
  {
    hide LENGTH_BASE, LENGTH_EXTRA, Pow2, Log2, Shr, Low;
    LengthReach(i, x);
    LengthTable(if i < 28 then i else 0);
    Pow2Values();
    if 8 <= i < 28 {
      HigherLength(i, (i - 4) / 4, x);
    }
  }

  /** A length symbol with extra bits. */
  lemma HigherLength(i: nat, e: nat, x: nat)
    requires 8 <= i < 28 && e == (i - 4) / 4 && x < Pow2(e)
    ensures var l := (4 + i % 4) * Pow2(e) + x;
      Log2(l) == 2 + e && Shr(l, e) == 4 + i % 4 && Low(l, e) == x
      && 8 <= l <= 255 && (l == 255 <==> i == 27 && x == 31)
  {
    hide Log2, Pow2, Shr, Low;
    Pow2Values();
    Parts(4 + i % 4, e, x, 2);
    SmallPowers(e);
    if i < 27 {
      MulSucc(4 + i % 4, if e == 5 then 7 else 8, Pow2(e));
    }
  }

  lemma DistanceWritten(i: nat, x: nat)
    requires i <= 29 && x < Pow2(DIST_EXTRA[i])
    ensures var dist := DIST_BASE[i] + x;
      1 <= dist <= 32768 && DistanceCoded(dist) == Coded(i, DIST_EXTRA[i], x)
  {
    hide DIST_BASE, DIST_EXTRA, Pow2, Log2, Shr, Low;
    DistanceReach(i, x);
    DistanceTable(i);
    Pow2Values();
    if i >= 4 {
      var e, q := (i - 2) / 2, 2 + i % 2;
      Parts(q, e, x, 1);
      Pow2Mono(1, e);
      MulLe(2, q, Pow2(e));
    }
  }

  /** Every reference is a match that can be written. */
  lemma MatchWritten(s: seq<bit>, p: nat, book: Book, sym: nat) returns (t: Token)
    requires 257 <= sym <= 285 && Decode(s, p, Lits(book)) == Some(sym)
    requires ReadReference(s, p + Lits(book)[sym], sym, Dists(book)).Some?
    ensures var ref := ReadReference(s, p + Lits(book)[sym], sym, Dists(book)).value;
      && t.Match? && t.len == ref.len && t.dist == ref.dist
      && Codable(book, t) && Spells(s, p, TokenBits(book, t)) && ref.p == p + |TokenBits(book, t)|
  {
    hide Spells, LitBits, DistBits, Field, Decode, MatchCoded, DistanceCoded, HasLit, HasDist, Bits;
    hide ReadReference, Lits, Dists, Pow2, LENGTH_BASE, DIST_BASE;
    var i, x := sym - 257, LENGTH_EXTRA[sym - 257];
    LitSpelled(s, p, book, sym);
    var p1 := p + Lits(book)[sym];
    var d := ReferenceParts(s, p1, sym, Dists(book));
    FieldSpelled(s, p1, x);
    BitsBound(s, p1, x);
    LengthWritten(i, Bits(s, p1, x));
    DistSpelled(s, p1 + x, book, d);
    var q, y := p1 + x + Dists(book)[d], DIST_EXTRA[d];
    FieldSpelled(s, q, y);
    BitsBound(s, q, y);
    DistanceWritten(d, Bits(s, q, y));
    var ref := ReadReference(s, p1, sym, Dists(book)).value;
    t := Match(ref.len, ref.dist, i == 27 && Bits(s, p1, x) == 31);
    FieldLength(Bits(s, p1, x), x);
    FieldLength(Bits(s, q, y), y);
    FourSpelled(s, p, LitBits(book, sym), Field(Bits(s, p1, x), x), DistBits(book, d), Field(Bits(s, q, y), y));
  }

  lemma FieldLength(v: nat, n: nat)
    ensures |Field(v, n)| == n
  {
  }

  lemma FourSpelled(s: seq<bit>, p: nat, a: seq<bit>, b: seq<bit>, c: seq<bit>, d: seq<bit>)
    requires Spells(s, p, a) && Spells(s, p + |a|, b) && Spells(s, p + |a| + |b|, c)
    requires Spells(s, p + |a| + |b| + |c|, d)
    ensures Spells(s, p, a + (b + (c + d))) && |a + (b + (c + d))| == |a| + |b| + |c| + |d|
  {
    hide Spells;
    SpellsBoth(s, p + |a| + |b|, c, d);
    SpellsBoth(s, p + |a|, b, c + d);
    SpellsBoth(s, p, a, b + (c + d));
  }

  // ----- the codes of a block

  lemma CompressedParts(s: seq<bit>, p: nat, out: seq<byte>, lits: seq<nat>, dists: seq<nat>) returns (sym: nat)
    requires Compressed(s, p, out, lits, dists).Some?
    ensures Decode(s, p, lits) == Some(sym) && sym <= 285
    ensures sym > 256 ==>
      var ref := ReadReference(s, p + lits[sym], sym, dists); ref.Some? && 1 <= ref.value.dist <= |out|
  {
    hide Decode, ReadReference, Copy;
    sym := Decode(s, p, lits).value;
  }

  /** Whatever a block's codes are read as, tokens stand for it. */
  lemma {:induction false} TokensWritten(s: seq<bit>, p: nat, out: seq<byte>, book: Book) returns (tokens: seq<Token>)
    requires Compressed(s, p, out, Lits(book), Dists(book)).Some?
    ensures Writable(book, tokens, |out|) && Spells(s, p, TokensBits(book, tokens, |out|))
    ensures Compressed(s, p, out, Lits(book), Dists(book)).value
      == Progress(Original(tokens, out), p + |TokensBits(book, tokens, |out|)|)
    decreases |s| - p
  {
    hide Spells, LitBits, HasLit, Lits, Dists, Decode, ReadReference, Compressed, Codable, TokenBits, Grown, Copy;
    var sym := CompressedParts(s, p, out, Lits(book), Dists(book));
    LitSpelled(s, p, book, sym);
    if sym == 256 {
      CompressedEnd(s, p, out, Lits(book), Dists(book));
      tokens := [];
    } else {
      var t := TokenWritten(s, p, out, book, sym);
      var q := p + |TokenBits(book, t)|;
      var rest := TokensWritten(s, q, Grown(t, out), book);
      tokens := [t] + rest;
      assert tokens[1..] == rest;
      SpellsBoth(s, p, TokenBits(book, t), TokensBits(book, rest, |Grown(t, out)|));
    }
  }

  /** One turn, as a token. */
  lemma TokenWritten(s: seq<bit>, p: nat, out: seq<byte>, book: Book, sym: nat) returns (t: Token)
    requires Compressed(s, p, out, Lits(book), Dists(book)).Some?
    requires Decode(s, p, Lits(book)) == Some(sym) && sym <= 285 && sym != 256
    requires sym > 256 ==> var ref := ReadReference(s, p + Lits(book)[sym], sym, Dists(book));
      ref.Some? && 1 <= ref.value.dist <= |out|
    ensures Codable(book, t) && Spells(s, p, TokenBits(book, t)) && (t.Match? ==> t.dist <= |out|)
    ensures p < p + |TokenBits(book, t)| <= |s| && |Grown(t, out)| == |out| + if t.Match? then t.len else 1
    ensures Compressed(s, p, out, Lits(book), Dists(book))
      == Compressed(s, p + |TokenBits(book, t)|, Grown(t, out), Lits(book), Dists(book))
  {
    hide Spells, LitBits, HasLit, HasDist, Lits, Dists, Decode, ReadReference, Copy, Compressed, DistBits, MatchCoded;
    LitSpelled(s, p, book, sym);
    DecodedLength(s, p, Lits(book), sym);
    if sym < 256 {
      t := Literal(sym);
      CompressedLiteral(s, p, out, Lits(book), Dists(book), sym);
    } else {
      t := MatchWritten(s, p, book, sym);
      var ref := ReadReference(s, p + Lits(book)[sym], sym, Dists(book)).value;
      CompressedMatch(s, p, out, Lits(book), Dists(book), sym, ref);
      CopyIs(out, t.dist, t.len);
      ReferenceAfter(s, p + Lits(book)[sym], sym, Dists(book));
    }
    SpellsInside(s, p, TokenBits(book, t));
  }

  lemma DecodedLength(s: seq<bit>, p: nat, lens: seq<nat>, sym: nat)
    requires Decode(s, p, lens) == Some(sym)
    ensures lens[sym] > 0
  {
  }

  lemma ReferenceAfter(s: seq<bit>, p: nat, sym: nat, dists: seq<nat>)
    requires 257 <= sym <= 285 && ReadReference(s, p, sym, dists).Some?
    ensures ReadReference(s, p, sym, dists).value.p > p
  {
  }

  // ----- code lengths

  /** One code length symbol, as a run. */
  lemma RunWritten(s: seq<bit>, p: nat, cl: seq<nat>, lens: seq<nat>) returns (r: Run)
    requires |cl| == 19 && ExpandOne(s, p, cl, lens).Some?
    ensures RunCodable(cl, r) && Spells(s, p, RunBits(cl, r))
    ensures ExpandOne(s, p, cl, lens) == Some(DeflateSpec.Lens(Extended(r, lens), p + |RunBits(cl, r)|))
  {
    hide Spells, SymbolBits, Field, Decode, Bits, Pow2, ExpandOne;
    var sym := ExpandedSymbol(s, p, cl, lens);
    SymbolSpelled(s, p, cl, sym);
    SymbolLength(cl, sym);
    ExpandOneIs(s, p, cl, lens, sym);
    Pow2Values();
    var q, x := p + cl[sym], if sym < 16 then 0 else if sym == 16 then 2 else if sym == 17 then 3 else 7;
    if sym < 16 {
      r := Length(sym);
      DecodedInside(s, p, cl, sym);
      NoField(s, q);
    } else {
      FieldSpelled(s, q, x);
      BitsBound(s, q, x);
      r := if sym == 16 then Again(3 + Bits(s, q, 2)) else Zeros((if sym == 17 then 3 else 11) + Bits(s, q, x));
    }
    var c := RunCoded(r);
    FieldLength(c.extra, c.width);
    SpellsBoth(s, p, SymbolBits(cl, sym), Field(c.extra, c.width));
  }

  lemma ExpandedSymbol(s: seq<bit>, p: nat, cl: seq<nat>, lens: seq<nat>) returns (sym: nat)
    requires ExpandOne(s, p, cl, lens).Some?
    ensures Decode(s, p, cl) == Some(sym)
    ensures var x := if sym < 16 then 0 else if sym == 16 then 2 else if sym == 17 then 3 else 7;
      p + cl[sym] + x <= |s|
  {
    hide Bits;
    sym := Decode(s, p, cl).value;
  }

  lemma DecodedInside(s: seq<bit>, p: nat, lens: seq<nat>, sym: nat)
    requires Decode(s, p, lens) == Some(sym)
    ensures p + lens[sym] <= |s|
  {
  }

  lemma NoField(s: seq<bit>, p: nat)
    requires p <= |s|
    ensures Spells(s, p, Field(0, 0))
  {
  }

  lemma ExpandNext(s: seq<bit>, p: nat, cl: seq<nat>, lens: seq<nat>, n: nat)
    requires p <= |s| && Expand(s, p, cl, lens, n).Some? && |lens| != n
    ensures |lens| < n && ExpandOne(s, p, cl, lens).Some? && var next := ExpandOne(s, p, cl, lens).value;
      p < next.p <= |s| && Expand(s, p, cl, lens, n) == Expand(s, next.p, cl, next.lens, n)
  {
    hide ExpandOne;
    ExpandOneAfter(s, p, cl, lens);
  }

  lemma ExpandOneAfter(s: seq<bit>, p: nat, cl: seq<nat>, lens: seq<nat>)
    ensures ExpandOne(s, p, cl, lens).Some? ==> p < ExpandOne(s, p, cl, lens).value.p <= |s|
  {
  }

  /** Whatever code lengths are read, runs stand for them. */
  lemma {:induction false} RunsWritten(s: seq<bit>, p: nat, cl: seq<nat>, lens: seq<nat>, n: nat)
      returns (runs: seq<Run>)
    requires |cl| == 19 && p <= |s| && Expand(s, p, cl, lens, n).Some?
    ensures Complete(cl, runs, lens, n) && Spells(s, p, RunsBits(cl, runs, lens, n))
    ensures Expand(s, p, cl, lens, n)
      == Some(DeflateSpec.Lens(AllLengths(runs, lens), p + |RunsBits(cl, runs, lens, n)|))
    decreases |s| - p
  {
    hide RunBits, RunCodable, Extended, ExpandOne, Expand;
    if |lens| == n {
      ExpandEnd(s, p, cl, lens);
      runs := [];
    } else {
      ExpandNext(s, p, cl, lens, n);
      var next := ExpandOne(s, p, cl, lens).value;
      var r := RunWritten(s, p, cl, lens);
      var rest := RunsWritten(s, next.p, cl, next.lens, n);
      runs := [r] + rest;
      assert runs[1..] == rest;
      SpellsBoth(s, p, RunBits(cl, r), RunsBits(cl, rest, next.lens, n));
    }
  }

  // ----- headers

  lemma {:induction false} LengthsSpelled(s: seq<bit>, p: nat, cl: seq<nat>, n: nat)
    requires n <= 19 == |cl| && p + 3 * n <= |s| && forall i :: 0 <= i < n ==> cl[Sent(i)] == Bits(s, p + 3 * i, 3)
    ensures Spells(s, p, LengthsBits(cl, n))
    decreases n
  {
    hide Spells, Bits, Field;
    if n == 0 {
      NothingSpelled(s, p);
    } else {
      LengthsSpelled(s, p, cl, n - 1);
      FieldSpelled(s, p + 3 * (n - 1), 3);
      SpellsBoth(s, p, LengthsBits(cl, n - 1), Field(cl[Sent(n - 1)], 3));
    }
  }

  lemma NothingSpelled(s: seq<bit>, p: nat)
    requires p <= |s|
    ensures Spells(s, p, [])
  {
  }

  /** The code length codes' lengths, as they were sent. */
  lemma LengthCodesWritten(s: seq<bit>, p: nat, n: nat)
    requires 4 <= n <= 19 && p + 3 * n <= |s|
    ensures Sendable(LengthCodes(s, p, n), n) && Spells(s, p, LengthsBits(LengthCodes(s, p, n), n))
  {
    hide Spells, Bits, LengthCodes, LengthsBits, Sent, ORDER;
    var cl := LengthCodes(s, p, n);
    LengthCodesLimited(s, p, n);
    LengthCodesSize(s, p, n);
    forall i | 0 <= i < 19
      ensures Sent(i) < 19 && cl[Sent(i)] == if i < n then Bits(s, p + 3 * i, 3) else 0
    {
      OrderIs(i);
      LengthCodesAt(s, p, n, i);
    }
    LengthsSpelled(s, p, cl, n);
  }

  lemma LengthCodesSize(s: seq<bit>, p: nat, n: nat)
    ensures |LengthCodes(s, p, n)| == 19
  {
  }

  lemma ReadParts(s: seq<bit>, p: nat, most: nat) returns (nl: nat, nd: nat, nb: nat)
    requires ReadCodes(s, p, most).Some?
    ensures nl == 257 + Bits(s, p, 5) <= 286 && nd == 1 + Bits(s, p + 5, 5) <= most
    ensures nb == 4 + Bits(s, p + 10, 4) <= 19 && nd <= 32 && p + 14 + 3 * nb <= |s|
    ensures var cl := LengthCodes(s, p + 14, nb);
      && Usable(cl) && Expand(s, p + 14 + 3 * nb, cl, [], nl + nd).Some?
      && var all := Expand(s, p + 14 + 3 * nb, cl, [], nl + nd).value;
         && |all.lens| == nl + nd && ReadCodes(s, p, most).value == Codes(all.lens[..nl], all.lens[nl..], all.p)
  {
    hide Bits, LengthCodes, Usable, Expand, Pow2;
    nl, nd, nb := 257 + Bits(s, p, 5), 1 + Bits(s, p + 5, 5), 4 + Bits(s, p + 10, 4);
    BitsBound(s, p + 5, 5);
    BitsBound(s, p + 10, 4);
    Pow2Values();
    ExpandSize(s, p + 14 + 3 * nb, LengthCodes(s, p + 14, nb), nl + nd);
  }

  lemma ExpandSize(s: seq<bit>, p: nat, cl: seq<nat>, n: nat)
    ensures p <= |s| && Expand(s, p, cl, [], n).Some? ==> |Expand(s, p, cl, [], n).value.lens| == n
  {
  }

  /** Whatever codes a block brings, a header stands for them. */
  lemma HeaderWritten(s: seq<bit>, p: nat, most: nat) returns (h: Header)
    requires ReadCodes(s, p, most).Some?
    requires Usable(ReadCodes(s, p, most).value.lits) && Usable(ReadCodes(s, p, most).value.dists)
    ensures GoodHeader(h, most) && Spells(s, p, HeaderBits(h, most))
    ensures ReadCodes(s, p, most)
      == Some(Codes(BookOf(h).lits, BookOf(h).dists, p + |HeaderBits(h, most)|)) && BookOf(h).OwnBook?
  {
    hide Spells, Bits, Usable, Complete, LengthsBits, RunsBits, LengthCodes, Expand, AllLengths, HeaderOf, Sendable;
    hide ReadCodes;
    var nl, nd, nb := ReadParts(s, p, most);
    var cl := LengthCodes(s, p + 14, nb);
    LengthCodesWritten(s, p + 14, nb);
    LengthCodesSize(s, p + 14, nb);
    var runs := RunsWritten(s, p + 14 + 3 * nb, cl, [], nl + nd);
    h := Header(nl, nd, nb, cl, runs);
    HeaderSpelled(s, p, nl, nd, nb, LengthsBits(cl, nb), RunsBits(cl, runs, [], nl + nd));
  }

  lemma HeaderSpelled(s: seq<bit>, p: nat, nl: nat, nd: nat, nb: nat, lengths: seq<bit>, runs: seq<bit>)
    requires nl == 257 + Bits(s, p, 5) && nd == 1 + Bits(s, p + 5, 5) && nb == 4 + Bits(s, p + 10, 4)
    requires p + 14 <= |s| && Spells(s, p + 14, lengths) && Spells(s, p + 14 + |lengths|, runs)
    ensures Spells(s, p, HeaderOf(nl, nd, nb, lengths, runs))
    ensures |HeaderOf(nl, nd, nb, lengths, runs)| == 14 + |lengths| + |runs|
  {
    hide Spells, Bits, Field;
    FieldSpelled(s, p, 5);
    FieldSpelled(s, p + 5, 5);
    FieldSpelled(s, p + 10, 4);
    FieldLength(nl - 257, 5);
    FieldLength(nd - 1, 5);
    FieldLength(nb - 4, 4);
    FourSpelled(s, p + 5, Field(nd - 1, 5), Field(nb - 4, 4), lengths, runs);
    SpellsBoth(s, p, Field(nl - 257, 5), Field(nd - 1, 5) + (Field(nb - 4, 4) + (lengths + runs)));
  }

  // ----- blocks

  lemma {:induction false} BytesSpelled(s: seq<bit>, p: nat, n: nat)
    requires p + 8 * n <= |s|
    ensures Spells(s, p, BytesBits(Bytes(s, p, n)))
    decreases n
  {
    hide Spells, Field, Bits;
    if n == 0 {
      NothingSpelled(s, p);
    } else {
      var bytes := Bytes(s, p, n);
      BytesSpelled(s, p, n - 1);
      FieldSpelled(s, p + 8 * (n - 1), 8);
      assert bytes[..n - 1] == Bytes(s, p, n - 1);
      SpellsBoth(s, p, BytesBits(bytes[..n - 1]), Field(bytes[n - 1], 8));
    }
  }

  lemma PlainWritten(s: seq<bit>, p: nat, out: seq<byte>) returns (bytes: seq<byte>, skip: seq<bit>)
    requires Stored(s, p, out).Some?
    ensures |bytes| <= 0xffff && |skip| == 7 && Spells(s, p, PlainBits(bytes, skip, p))
    ensures Stored(s, p, out).value == Progress(out + bytes, p + |PlainBits(bytes, skip, p)|)
  {
    hide Spells, Field, Bits, Bytes, BytesBits, ByteAligned, Pow2;
    var q, k := ByteAligned(p), (8 - p % 8) % 8;
    Padding(p);
    var n := Bits(s, q, 16);
    bytes := Bytes(s, q + 32, n);
    BytesLength(s, q + 32, n);
    skip := Skipped(s, p, k);
    FieldSpelled(s, q, 16);
    FieldSpelled(s, q + 16, 16);
    BytesSpelled(s, q + 32, n);
    FieldLength(n, 16);
    FieldLength(0xffff - n, 16);
    FourSpelled(s, p, skip[..k], Field(n, 16), Field(0xffff - n, 16), BytesBits(bytes));
  }

  lemma BytesLength(s: seq<bit>, p: nat, n: nat)
    ensures |Bytes(s, p, n)| == n && |BytesBits(Bytes(s, p, n))| == 8 * n
  {
  }

  lemma Skipped(s: seq<bit>, p: nat, k: nat) returns (skip: seq<bit>)
    requires k <= 7 && p + k <= |s|
    ensures |skip| == 7 && |skip[..k]| == k && Spells(s, p, skip[..k])
  {
    skip := s[p..p + k] + seq(7 - k, _ => 0);
    assert skip[..k] == s[p..p + k];
  }

  lemma CustomWritten(s: seq<bit>, p: nat, out: seq<byte>, most: nat) returns (h: Header, tokens: seq<Token>)
    requires Dynamic(s, p, out, most).Some?
    ensures GoodHeader(h, most) && Writable(BookOf(h), tokens, |out|)
    ensures Spells(s, p, HeaderBits(h, most) + TokensBits(BookOf(h), tokens, |out|))
    ensures Dynamic(s, p, out, most).value == Progress(
      Original(tokens, out), p + |HeaderBits(h, most)| + |TokensBits(BookOf(h), tokens, |out|)|)
  {
    hide Spells, Writable, HeaderBits, TokensBits, Compressed, Original, Usable, ReadCodes, GoodHeader, BookOf;
    h := HeaderWritten(s, p, most);
    tokens := TokensWritten(s, p + |HeaderBits(h, most)|, out, BookOf(h));
    SpellsBoth(s, p, HeaderBits(h, most), TokensBits(BookOf(h), tokens, |out|));
  }

  /** Whatever follows a block's first bits, a block stands for it. */
  lemma PieceWritten(s: seq<bit>, p: nat, out: seq<byte>, kind: nat, most: nat) returns (piece: Piece)
    requires BodyRead(s, p, out, kind, most).Some?
    ensures GoodPiece(piece, |out|, most) && Kind(piece) == kind && Spells(s, p, BodyBits(piece, p, |out|, most))
    ensures BodyRead(s, p, out, kind, most)
      == Some(Progress(Restored(piece, out), p + |BodyBits(piece, p, |out|, most)|))
  {
    hide Spells, PlainBits, Writable, GoodHeader, HeaderBits, TokensBits, FixedLits, FixedDists, Stored, Compressed;
    hide Dynamic, Original, BookOf;
    if kind == 0 {
      var bytes, skip := PlainWritten(s, p, out);
      piece := Plain(bytes, skip);
    } else if kind == 1 {
      var tokens := TokensWritten(s, p, out, FixedBook);
      piece := Standard(tokens);
    } else {
      var h, tokens := CustomWritten(s, p, out, most);
      piece := Custom(h, tokens);
    }
  }

  // ----- whole data sets

  lemma BlockParts(s: seq<bit>, p: nat, out: seq<byte>, most: nat)
    requires OneBlock(s, p, out, most).Some?
    ensures p + 3 <= |s|
    ensures OneBlock(s, p, out, most).value.last == (s[p] == 1)
    ensures BodyRead(s, p + 3, out, Bits(s, p + 1, 2), most) == Some(OneBlock(s, p, out, most).value.progress)
  {
    hide Stored, Compressed, Dynamic, FixedLits, FixedDists;
    assert Bits(s, p + 1, 0) == 0;
    assert Bits(s, p, 1) == s[p];
  }

  /** Whatever the format accepts, blocks stand for it. */
  lemma {:induction false} Written(s: seq<bit>, p: nat, out: seq<byte>, most: nat) returns (pieces: seq<Piece>)
    requires Inflated(s, p, out, most).Some?
    ensures GoodPieces(pieces, out, most) && Spells(s, p, Deflated(pieces, p, out, most))
    ensures Inflated(s, p, out, most).value
      == Progress(Content(pieces, out), p + |Deflated(pieces, p, out, most)|)
    decreases |s| - p
  {
    hide Spells, BodyBits, Field, GoodPiece, Restored, OneBlock, Bits, BodyRead;
    var block := OneBlock(s, p, out, most).value;
    BlockParts(s, p, out, most);
    var piece := PieceWritten(s, p + 3, out, Bits(s, p + 1, 2), most);
    var kind, body := Field(Kind(piece), 2), BodyBits(piece, p + 3, |out|, most);
    FieldSpelled(s, p + 1, 2);
    FieldLength(Kind(piece), 2);
    BitSpelled(s, p);
    if block.last {
      pieces := [piece];
      SpellsBoth(s, p + 1, kind, body);
      SpellsBoth(s, p, [1], kind + body);
    } else {
      var rest := Written(s, p + 3 + |body|, Restored(piece, out), most);
      pieces := [piece] + rest;
      assert pieces[1..] == rest;
      FourSpelled(s, p, [0], kind, body, Deflated(rest, p + 3 + |body|, Restored(piece, out), most));
    }
  }

  lemma BitSpelled(s: seq<bit>, p: nat)
    requires p < |s|
    ensures Spells(s, p, [s[p]])
  {
    assert s[p..p + 1] == [s[p]];
  }

  /** Blocks that the stream at p spells, and what they stand for. */
  ghost predicate WrittenAs(s: seq<bit>, p: nat, out: seq<byte>, most: nat, pieces: seq<Piece>, made: Progress) {
    && GoodPieces(pieces, out, most) && Spells(s, p, Deflated(pieces, p, out, most))
    && made == Progress(Content(pieces, out), p + |Deflated(pieces, p, out, most)|)
  }

  /**
   For all streams: what the format accepts is exactly what a compressor can write, and it is
   read as what was compressed.
   */
  lemma ExactlyWritten(s: seq<bit>, p: nat, out: seq<byte>, most: nat, made: Progress)
    ensures Inflated(s, p, out, most) == Some(made) <==> exists pieces :: WrittenAs(s, p, out, most, pieces, made)
  {
    hide Spells, GoodPieces, Deflated, Content, Inflated;
    if Inflated(s, p, out, most) == Some(made) {
      var pieces := Written(s, p, out, most);
      assert WrittenAs(s, p, out, most, pieces, made);
    }
    forall pieces | WrittenAs(s, p, out, most, pieces, made)
      ensures Inflated(s, p, out, most) == Some(made)
    {
      RoundTrip(s, p, out, pieces, most);
    }
  }

  /** The decoder reads exactly what can be written with at most thirty distance codes in each block. */
  lemma DecodedExactly(s: seq<bit>, p: nat, out: seq<byte>, made: Progress)
    ensures Specified(s, p, out) == Some(made) <==> exists pieces :: WrittenAs(s, p, out, 30, pieces, made)
  {
    hide Inflated, Specified, WrittenAs;
    InflatedFew(s, p, out);
    ExactlyWritten(s, p, out, 30, made);
  }

  /** The format allows exactly what can be written with at most thirty-two. */
  lemma FormatExactly(s: seq<bit>, p: nat, out: seq<byte>, made: Progress)
    ensures Inflated(s, p, out, FORMAT_DISTS) == Some(made) <==> exists pieces :: WrittenAs(s, p, out, 32, pieces, made)
  {
    hide Inflated, WrittenAs;
    ExactlyWritten(s, p, out, 32, made);
  }
}
