/**
 A granule's Huffman-coded lines as a writer emits them (ISO/IEC 11172-3, section
 2.4.1.7, `Huffmancodebits`, and 2.4.2.7), and the proof that the Huffman stage
 (include/dr_mp3.h, `drmp3_L3_huffman`) gives back the values that were written.
 */
module HuffmanWriter {
  import opened BitString
  import opened BitReader
  import opened HuffmanCodes
  import opened HuffmanPairs
  import opened QuadCodes
  import opened ScalefactorBands
  import opened HuffmanStage

  // ----- bits at a place -----

  ghost predicate Stands(bits: Bits, pos: nat, s: Bits) {
    forall i: nat :: i < |s| ==> BitAt(bits, pos + i) == s[i]
  }

  lemma StandsParts(bits: Bits, pos: nat, a: Bits, b: Bits)
    requires Stands(bits, pos, a + b)
    ensures Stands(bits, pos, a) && Stands(bits, pos + |a|, b)
  {
    forall i: nat | i < |a| ensures BitAt(bits, pos + i) == a[i] {
      assert (a + b)[i] == a[i];
    }
    forall i: nat | i < |b| ensures BitAt(bits, pos + |a| + i) == b[i] {
      assert (a + b)[|a| + i] == b[i];
    }
  }

  lemma StandsIndex(bits: Bits, pos: nat, s: Bits, i: nat)
    requires Stands(bits, pos, s) && i < |s|
    ensures BitAt(bits, pos + i) == s[i]
  {
  }

  /** The value of the first n bits. */
  lemma {:induction false} StandsPrefix(bits: Bits, pos: nat, s: Bits, n: nat, end: nat)
    requires Stands(bits, pos, s) && n <= |s| && end == pos + n
    ensures Value(bits, pos, end) == FromDigits(s[..n])
  {
    hide Stands;
    if n > 0 {
      var k, last: nat := n - 1, end - 1;
      StandsPrefix(bits, pos, s, k, last);
      StandsIndex(bits, pos, s, k);
      assert s[..n][..k] == s[..k];
    }
  }

  lemma StandsValue(bits: Bits, pos: nat, s: Bits)
    requires Stands(bits, pos, s)
    ensures Value(bits, pos, pos + |s|) == FromDigits(s)
  {
    hide Stands, Value, FromDigits;
    StandsPrefix(bits, pos, s, |s|, pos + |s|);
    assert s[..|s|] == s;
  }

  // ----- codes -----

  /** From the root of a code tree, the bits lead to the symbol. */
  predicate Leads(t: Tree, code: Bits, symbol: nat)
    decreases t
  {
    if t.Leaf? then code == [] && t.symbol == symbol
    else code != [] && Leads(if code[0] == 0 then t.zero else t.one, code[1..], symbol)
  }

  lemma {:induction false} WalkLeads(t: Tree, code: Bits, symbol: nat, bits: Bits, pos: nat)
    requires Leads(t, code, symbol) && Stands(bits, pos, code)
    ensures Walk(t, bits, pos) == (symbol, pos + |code|)
    decreases t
  {
    if t.Node? {
      assert code == code[..1] + code[1..];
      StandsParts(bits, pos, code[..1], code[1..]);
      assert BitAt(bits, pos + 0) == code[0];
      WalkLeads(if code[0] == 0 then t.zero else t.one, code[1..], symbol, bits, pos + 1);
    }
  }

  // ----- values -----

  function Abs(v: int): nat { if v < 0 then -v else v }

  /** 1 for a negative value. */
  function SignBits(v: int): Bits {
    if v == 0 then [] else [if v < 0 then 1 else 0]
  }

  /** The digit of a value in its pair's symbol. */
  function Low(v: int): nat { if Abs(v) < 15 then Abs(v) else 15 }

  /** What is written of a value behind the code: what 15 leaves over, if the codebook has bits
      for it, and the sign. */
  function ValueBits(v: int, linbits: nat): Bits {
    (if linbits > 0 && Abs(v) >= 15 then Digits(Abs(v) - 15, linbits) else []) + SignBits(v)
  }

  predicate ValueFits(v: int, linbits: nat) {
    Abs(v) <= 15 || (linbits > 0 && Abs(v) - 15 < Pow2(linbits))
  }

  lemma SignRead(v: int, bits: Bits, pos: nat)
    requires v != 0 && Stands(bits, pos, SignBits(v))
    ensures BitAt(bits, pos) == if v < 0 then 1 else 0
  {
    StandsIndex(bits, pos, SignBits(v), 0);
  }

  lemma EscapeReadsBack(v: int, linbits: nat, escape: Bits, bits: Bits, pos: nat, end: nat)
    requires linbits > 0 && Abs(v) >= 15 && Abs(v) - 15 < Pow2(linbits) && escape == Digits(Abs(v) - 15, linbits)
    requires Stands(bits, pos, escape + SignBits(v)) && end == pos + linbits
    ensures SignedValue(15, linbits, bits, pos) == (v, end + 1)
  {
    hide Stands, Value, Digits;
    StandsParts(bits, pos, escape, SignBits(v));
    StandsValue(bits, pos, escape);
    DigitsInverse(Abs(v) - 15, linbits);
    SignRead(v, bits, end);
  }

  lemma PlainReadsBack(v: int, linbits: nat, bits: Bits, pos: nat)
    requires Abs(v) < 15 || (linbits == 0 && Abs(v) == 15)
    requires Stands(bits, pos, SignBits(v))
    ensures SignedValue(Low(v), linbits, bits, pos) == (v, pos + |SignBits(v)|)
  {
    hide Stands, Value;
    if v != 0 { SignRead(v, bits, pos); }
  }

  /** Every value that can be written reads back. */
  lemma ReadsBack(v: int, linbits: nat, bits: Bits, pos: nat)
    requires ValueFits(v, linbits) && Stands(bits, pos, ValueBits(v, linbits))
    ensures SignedValue(Low(v), linbits, bits, pos) == (v, pos + |ValueBits(v, linbits)|)
  {
    hide Stands, SignedValue;
    if linbits > 0 && Abs(v) >= 15 {
      Pow2Monotone(0, linbits);
      EscapeReadsBack(v, linbits, Digits(Abs(v) - 15, linbits), bits, pos, pos + linbits);
    } else {
      assert ValueBits(v, linbits) == SignBits(v);
      PlainReadsBack(v, linbits, bits, pos);
    }
  }

  // ----- pairs -----

  /** A pair and the code its writer has found for it, and the band it lies in. */
  datatype Coded = Coded(pair: Pair, code: Bits, band: nat)

  function PairBits(c: Coded, linbits: nat): Bits {
    c.code + (ValueBits(c.pair.first, linbits) + ValueBits(c.pair.second, linbits))
  }

  predicate PairWritable(c: Coded, b: Codebook) {
    && ValueFits(c.pair.first, b.linbits) && ValueFits(c.pair.second, b.linbits)
    && Leads(b.tree, c.code, Low(c.pair.first) + 16 * Low(c.pair.second))
  }

  lemma LowDigits(x: int, y: int)
    ensures (Low(x) + 16 * Low(y)) % 16 == Low(x) && (Low(x) + 16 * Low(y)) / 16 == Low(y)
  {
  }

  lemma PairReadsBack(c: Coded, b: Codebook, bits: Bits, pos: nat)
    requires PairWritable(c, b) && Stands(bits, pos, PairBits(c, b.linbits))
    ensures PairAt(b, bits, pos) == (c.pair, pos + |PairBits(c, b.linbits)|)
  {
    hide Stands, SignedValue, Walk, Leads, ValueBits;
    var x, y := c.pair.first, c.pair.second;
    var first, second := ValueBits(x, b.linbits), ValueBits(y, b.linbits);
    StandsParts(bits, pos, c.code, first + second);
    StandsParts(bits, pos + |c.code|, first, second);
    WalkLeads(b.tree, c.code, Low(x) + 16 * Low(y), bits, pos);
    LowDigits(x, y);
    ReadsBack(x, b.linbits, bits, pos + |c.code|);
    ReadsBack(y, b.linbits, bits, pos + |c.code| + |first|);
  }

  // ----- the big values -----

  /** The lines in the first b bands. */
  function LinesBefore(widths: seq<nat>, b: nat): nat
    requires b <= |widths|
  {
    if b == 0 then 0 else LinesBefore(widths, b - 1) + widths[b - 1]
  }

  /** A line lies in a band. */
  predicate InBand(bands: Bands, line: nat, b: nat) {
    b < bands.count < |bands.widths| && LinesBefore(bands.widths, b) <= line < LinesBefore(bands.widths, b + 1)
  }

  /** The table a band is coded with: the first region_count_0 + 1 bands have the first table,
      the next region_count_1 + 1 the second, the others the third. */
  function TableOf(h: Params, b: nat): nat
    requires |h.region| == 3 && |h.select| == 3
  {
    if b < h.region[0] + 1 then h.select[0]
    else if b < h.region[0] + 1 + (h.region[1] + 1) then h.select[1]
    else h.select[2]
  }

  ghost predicate BigWritable(h: Params, books: seq<Codebook>, cs: seq<Coded>)
    requires ValidParams(h, books)
  {
    forall k | 0 <= k < |cs| ::
      InBand(h.bands, 2 * k, cs[k].band) && PairWritable(cs[k], books[TableOf(h, cs[k].band)])
  }

  function BigBits(h: Params, books: seq<Codebook>, cs: seq<Coded>): Bits
    requires ValidParams(h, books)
  {
    if cs == [] then [] else
      var last := cs[|cs| - 1];
      BigBits(h, books, cs[..|cs| - 1]) + PairBits(last, books[TableOf(h, last.band)].linbits)
  }

  /** A value in its band as a line. */
  function LineOf(v: int, band: nat): Line {
    if v != 0 then Scaled(v, band) else Zero
  }

  function BigLinesOf(cs: seq<Coded>): (ls: seq<Line>)
    ensures |ls| == 2 * |cs|
  {
    if cs == [] then [] else
      var last := cs[|cs| - 1];
      BigLinesOf(cs[..|cs| - 1]) + [LineOf(last.pair.first, last.band), LineOf(last.pair.second, last.band)]
  }

  /** Bands are made up of pairs of lines. */
  lemma {:induction false} PairsBefore(s: Bands, b: nat)
    requires s.Valid() && b <= s.count
    ensures LinesBefore(s.widths, b) == 2 * s.Before(b)
  {
    if b > 0 { PairsBefore(s, b - 1); }
  }

  lemma BandIs(s: Bands, k: nat, line: nat, b: nat)
    requires s.Valid() && line == 2 * k && InBand(s, line, b)
    ensures s.BandOf(k) == b
  {
    PairsBefore(s, b);
    PairsBefore(s, b + 1);
    BandOfIs(s, b, k);
  }

  lemma TableIs(h: Params, books: seq<Codebook>, b: nat)
    requires ValidParams(h, books)
    ensures h.bands.Valid() && |h.region| == 3 && |h.select| == 3
    ensures TableOf(h, b) < |books| && BookOf(h, books, b) == books[TableOf(h, b)]
  {
  }

  lemma ShorterWritable(h: Params, books: seq<Codebook>, cs: seq<Coded>)
    requires ValidParams(h, books) && cs != [] && BigWritable(h, books, cs)
    ensures BigWritable(h, books, cs[..|cs| - 1])
  {
  }

  /** All big values of a granule read back, each pair by its region's table. */
  lemma {:induction false} BigReadsBack(h: Params, books: seq<Codebook>, cs: seq<Coded>, bits: Bits, start: nat)
    requires ValidParams(h, books) && BigWritable(h, books, cs) && Stands(bits, start, BigBits(h, books, cs))
    ensures BigLines(h, books, bits, start, |cs|) == (BigLinesOf(cs), start + |BigBits(h, books, cs)|)
  {
    hide Stands, ValidParams, PairAt, PairBits, BookOf, TableOf, PairWritable, InBand;
    if cs != [] {
      var k, init, last := |cs| - 1, cs[..|cs| - 1], cs[|cs| - 1];
      ShorterWritable(h, books, cs);
      TableIs(h, books, last.band);
      var book := books[TableOf(h, last.band)];
      StandsParts(bits, start, BigBits(h, books, init), PairBits(last, book.linbits));
      BigReadsBack(h, books, init, bits, start);
      BandIs(h.bands, k, 2 * k, last.band);
      PairReadsBack(last, book, bits, start + |BigBits(h, books, init)|);
    }
  }

  // ----- the quadruples -----

  /** Four values of magnitude at most one, their code, and the bands of the two halves. */
  datatype Quad = Quad(v: int, w: int, x: int, y: int, code: Bits, band: nat, band2: nat)

  /** The symbol says which values are not zero. */
  function QuadSymbol(q: Quad): nat {
    8 * Abs(q.v) + 4 * Abs(q.w) + 2 * Abs(q.x) + Abs(q.y)
  }

  function QuadBits(q: Quad): Bits {
    q.code + ((SignBits(q.v) + SignBits(q.w)) + (SignBits(q.x) + SignBits(q.y)))
  }

  function QuadOf(q: Quad): (ls: seq<Line>)
    ensures |ls| == 4
  {
    [LineOf(q.v, q.band), LineOf(q.w, q.band)] + [LineOf(q.x, q.band2), LineOf(q.y, q.band2)]
  }

  /** A quadruple that starts at a line. */
  predicate QuadWritable(q: Quad, h: Params, t: Tree, line: nat) {
    && Abs(q.v) <= 1 && Abs(q.w) <= 1 && Abs(q.x) <= 1 && Abs(q.y) <= 1
    && Leads(t, q.code, QuadSymbol(q)) && InBand(h.bands, line, q.band) && InBand(h.bands, line + 2, q.band2)
  }

  predicate QuadsWritable(qs: seq<Quad>, h: Params, t: Tree, line: nat) {
    qs != [] ==> QuadWritable(qs[0], h, t, line) && QuadsWritable(qs[1..], h, t, line + 4)
  }

  function QuadsBits(qs: seq<Quad>): Bits {
    if qs == [] then [] else QuadBits(qs[0]) + QuadsBits(qs[1..])
  }

  function QuadsOf(qs: seq<Quad>): (ls: seq<Line>)
    ensures |ls| == 4 * |qs|
  {
    if qs == [] then [] else QuadOf(qs[0]) + QuadsOf(qs[1..])
  }

  lemma UnitReadsBack(v: int, bits: Bits, pos: nat, band: nat)
    requires Abs(v) <= 1 && Stands(bits, pos, SignBits(v))
    ensures UnitAt(v != 0, bits, pos, band) == (LineOf(v, band), pos + |SignBits(v)|)
  {
    hide Stands;
    if v != 0 { SignRead(v, bits, pos); }
  }

  lemma HalfReadsBack(x: int, y: int, bits: Bits, pos: nat, band: nat)
    requires Abs(x) <= 1 && Abs(y) <= 1 && Stands(bits, pos, SignBits(x) + SignBits(y))
    ensures UnitPair(x != 0, y != 0, bits, pos, band) ==
      ([LineOf(x, band), LineOf(y, band)], pos + |SignBits(x) + SignBits(y)|)
  {
    hide Stands, UnitAt, SignBits;
    StandsParts(bits, pos, SignBits(x), SignBits(y));
    UnitReadsBack(x, bits, pos, band);
    UnitReadsBack(y, bits, pos + |SignBits(x)|, band);
  }

  lemma MaskBits(q: Quad)
    requires Abs(q.v) <= 1 && Abs(q.w) <= 1 && Abs(q.x) <= 1 && Abs(q.y) <= 1
    ensures var m := QuadSymbol(q);
      && (MaskBit(m, 0) <==> q.v != 0) && (MaskBit(m, 1) <==> q.w != 0)
      && (MaskBit(m, 2) <==> q.x != 0) && (MaskBit(m, 3) <==> q.y != 0)
  {
  }

  /** One quadruple reads back. */
  lemma QuadReadsBack(q: Quad, h: Params, t: Tree, bits: Bits, pos: nat, limit: int, p: nat, end: nat)
    requires h.bands.Valid() && QuadWritable(q, h, t, 2 * p) && Stands(bits, pos, QuadBits(q))
    requires end == pos + |QuadBits(q)| <= limit && p + 2 <= 288
    ensures QuadLines(h, t, bits, pos, limit, p) == QuadOf(q) + QuadLines(h, t, bits, end, limit, p + 2)
  {
    hide Stands, UnitPair, MaskBit, Walk, Leads, SignBits, InBand;
    var first, second := SignBits(q.v) + SignBits(q.w), SignBits(q.x) + SignBits(q.y);
    StandsParts(bits, pos, q.code, first + second);
    StandsParts(bits, pos + |q.code|, first, second);
    WalkLeads(t, q.code, QuadSymbol(q), bits, pos);
    MaskBits(q);
    BandIs(h.bands, p, 2 * p, q.band);
    BandIs(h.bands, p + 1, 2 * p + 2, q.band2);
    HalfReadsBack(q.v, q.w, bits, pos + |q.code|, q.band);
    HalfReadsBack(q.x, q.y, bits, pos + |q.code| + |first|, q.band2);
  }

  /** A code that starts at the limit is none. */
  lemma NoMore(h: Params, t: Tree, bits: Bits, pos: nat, p: nat)
    requires h.bands.Valid() && t.Node?
    ensures QuadLines(h, t, bits, pos, pos, p) == []
  {
    assert Walk(t, bits, pos).1 > pos;
  }

  /** All quadruples read back, and at the limit there are no more. */
  lemma {:induction false} QuadsReadBack(qs: seq<Quad>, h: Params, t: Tree, bits: Bits, pos: nat, limit: int, p: nat)
    requires h.bands.Valid() && t.Node? && QuadsWritable(qs, h, t, 2 * p) && Stands(bits, pos, QuadsBits(qs))
    requires limit == pos + |QuadsBits(qs)| && p + 2 * |qs| <= 288
    ensures QuadLines(h, t, bits, pos, limit, p) == QuadsOf(qs)
    decreases |qs|
  {
    hide Stands, QuadLines, QuadWritable, QuadBits, QuadOf;
    if qs == [] {
      NoMore(h, t, bits, pos, p);
    } else {
      StandsParts(bits, pos, QuadBits(qs[0]), QuadsBits(qs[1..]));
      QuadReadsBack(qs[0], h, t, bits, pos, limit, p, pos + |QuadBits(qs[0])|);
      QuadsReadBack(qs[1..], h, t, bits, pos + |QuadBits(qs[0])|, limit, p + 2);
    }
  }

  // ----- the codes for quadruples -----

  /** The code of each quadruple in table A of annex B, from 0000 to 1111. */
  const CODES_A: seq<Bits> := [
    [1], [0, 1, 0, 1], [0, 1, 0, 0], [0, 0, 1, 0, 1],
    [0, 1, 1, 0], [0, 0, 0, 1, 0, 1], [0, 0, 1, 0, 0], [0, 0, 0, 1, 0, 0],
    [0, 1, 1, 1], [0, 0, 0, 1, 1], [0, 0, 1, 1, 0], [0, 0, 0, 0, 0, 0],
    [0, 0, 1, 1, 1], [0, 0, 0, 0, 1, 0], [0, 0, 0, 0, 1, 1], [0, 0, 0, 0, 0, 1]]

  /** And in table B. */
  const CODES_B: seq<Bits> := [
    [1, 1, 1, 1], [1, 1, 1, 0], [1, 1, 0, 1], [1, 1, 0, 0], [1, 0, 1, 1], [1, 0, 1, 0], [1, 0, 0, 1], [1, 0, 0, 0],
    [0, 1, 1, 1], [0, 1, 1, 0], [0, 1, 0, 1], [0, 1, 0, 0], [0, 0, 1, 1], [0, 0, 1, 0], [0, 0, 0, 1], [0, 0, 0, 0]]

  /** The code of a quadruple by the table a granule says. */
  function QuadCode(count1: nat, symbol: nat): Bits
    requires symbol < 16
  {
    if count1 == 0 then CODES_A[symbol] else CODES_B[symbol]
  }

  /** Two steps down a tree. */
  lemma LeadsTwoDown(t: Tree, code: Bits, symbol: nat)
    requires t.Node? && t.zero.Node? && |code| >= 2 && code[0] == code[1] == 0 && Leads(t.zero.zero, code[2..], symbol)
    ensures Leads(t, code, symbol)
  {
    assert code[1..][1..] == code[2..];
    assert Leads(t.zero, code[1..], symbol);
  }

  /** Three steps. */
  lemma LeadsDeeper(t: Tree, code: Bits, symbol: nat)
    requires t.Node? && t.zero.Node? && t.zero.zero.Node?
    requires |code| >= 3 && code[0] == code[1] == code[2] == 0 && Leads(t.zero.zero.zero, code[3..], symbol)
    ensures Leads(t, code, symbol)
  {
    assert code[2..][1..] == code[3..] && code[1..][1..] == code[2..];
    assert Leads(t.zero.zero, code[2..], symbol);
    assert Leads(t.zero, code[1..], symbol);
  }

  lemma ShortCodesOfA(t: Tree)
    requires t == TREE_A
    ensures Leads(t, CODES_A[0], 0) && Leads(t, CODES_A[1], 1) && Leads(t, CODES_A[2], 2)
    ensures Leads(t, CODES_A[4], 4) && Leads(t, CODES_A[8], 8)
  {
  }

  lemma FiveBitCodesOfA(t: Tree)
    requires t == TREE_A.zero.zero
    ensures Leads(t, CODES_A[3][2..], 3) && Leads(t, CODES_A[6][2..], 6) && Leads(t, CODES_A[9][2..], 9)
    ensures Leads(t, CODES_A[10][2..], 10) && Leads(t, CODES_A[12][2..], 12)
  {
  }

  lemma SixBitCodesOfA(t: Tree)
    requires t == TREE_A.zero.zero.zero
    ensures Leads(t, CODES_A[5][3..], 5) && Leads(t, CODES_A[7][3..], 7) && Leads(t, CODES_A[11][3..], 11)
    ensures Leads(t, CODES_A[13][3..], 13) && Leads(t, CODES_A[14][3..], 14) && Leads(t, CODES_A[15][3..], 15)
  {
  }

  lemma CodeOfA(t: Tree, symbol: nat)
    requires t == TREE_A && symbol < 16
    ensures Leads(t, CODES_A[symbol], symbol)
  {
    hide Leads;
    if symbol == 0 || symbol == 1 || symbol == 2 || symbol == 4 || symbol == 8 {
      ShortCodesOfA(t);
    } else if symbol == 3 || symbol == 6 || symbol == 9 || symbol == 10 || symbol == 12 {
      FiveBitCodesOfA(t.zero.zero);
      LeadsTwoDown(t, CODES_A[symbol], symbol);
    } else {
      SixBitCodesOfA(t.zero.zero.zero);
      LeadsDeeper(t, CODES_A[symbol], symbol);
    }
  }

  lemma CodeOfB(t: Tree, symbol: nat)
    requires t == TREE_B && symbol < 16
    ensures Leads(t, CODES_B[symbol], symbol)
  {
  }

  /** The codes of table 2 for pairs of values up to 2, from (0, 0) to (2, 2). */
  const CODES_2: seq<Bits> := [
    [1], [0, 1, 0], [0, 0, 0, 0, 0, 1],
    [0, 1, 1], [0, 0, 1], [0, 0, 0, 0, 1],
    [0, 0, 0, 1, 1], [0, 0, 0, 1, 0], [0, 0, 0, 0, 0, 0]]

  lemma ShortCodesOfTable2(t: Tree)
    requires t == TREE_2
    ensures Leads(t, CODES_2[0], 0) && Leads(t, CODES_2[1], 16) && Leads(t, CODES_2[3], 1) && Leads(t, CODES_2[4], 17)
  {
  }

  lemma LongCodesOfTable2(t: Tree)
    requires t == TREE_2.zero.zero.zero
    ensures Leads(t, CODES_2[2][3..], 32) && Leads(t, CODES_2[5][3..], 33) && Leads(t, CODES_2[6][3..], 2)
    ensures Leads(t, CODES_2[7][3..], 18) && Leads(t, CODES_2[8][3..], 34)
  {
  }

  /** The decoder's table 2 stands for them. */
  lemma CodeOfTable2(t: Tree, x: nat, y: nat)
    requires t == TREE_2 && x <= 2 && y <= 2
    ensures Leads(t, CODES_2[3 * x + y], x + 16 * y)
  {
    hide Leads;
    ShortCodesOfTable2(t);
    LongCodesOfTable2(t.zero.zero.zero);
    var i := 3 * x + y;
    if i == 2 || i > 4 { LeadsDeeper(t, CODES_2[i], x + 16 * y); }
  }

  // ----- the granule -----

  /** The quadruples with the codes of the granule's table. */
  predicate QuadsCoded(qs: seq<Quad>, h: Params, line: nat) {
    qs != [] ==>
      && Abs(qs[0].v) <= 1 && Abs(qs[0].w) <= 1 && Abs(qs[0].x) <= 1 && Abs(qs[0].y) <= 1
      && qs[0].code == QuadCode(h.count1, QuadSymbol(qs[0]))
      && InBand(h.bands, line, qs[0].band) && InBand(h.bands, line + 2, qs[0].band2)
      && QuadsCoded(qs[1..], h, line + 4)
  }

  lemma {:induction false} CodedWritable(qs: seq<Quad>, h: Params, t: Tree, line: nat)
    requires QuadsCoded(qs, h, line) && t == QuadTree(h)
    ensures QuadsWritable(qs, h, t, line)
  {
    hide InBand, Leads;
    if qs != [] {
      if h.count1 == 0 { CodeOfA(t, QuadSymbol(qs[0])); } else { CodeOfB(t, QuadSymbol(qs[0])); }
      CodedWritable(qs[1..], h, t, line + 4);
    }
  }

  lemma CodesAreNodes(h: Params)
    ensures QuadTree(h).Node?
  {
  }

  /** Reader after writer, for the whole granule: pairs and quadruples of any values, coded by
      any code their tables have for them and followed by the granule's end, come out as their
      lines, each in its band. */
  lemma GranuleReadsBack(h: Params, books: seq<Codebook>, cs: seq<Coded>, qs: seq<Quad>, bits: Bits, start: nat,
          limit: nat)
    requires ValidParams(h, books) && h.bigValues == |cs| && 2 * |cs| + 4 * |qs| <= 576
    requires BigWritable(h, books, cs) && QuadsCoded(qs, h, 2 * |cs|)
    requires Stands(bits, start, BigBits(h, books, cs) + QuadsBits(qs))
    requires limit == start + |BigBits(h, books, cs)| + |QuadsBits(qs)|
    ensures StageLines(h, books, bits, start, limit) == BigLinesOf(cs) + QuadsOf(qs)
  {
    hide Stands, BigLines, QuadLines, BigWritable, BigBits, QuadsCoded, QuadTree;
    var t := QuadTree(h);
    CodesAreNodes(h);
    StandsParts(bits, start, BigBits(h, books, cs), QuadsBits(qs));
    BigReadsBack(h, books, cs, bits, start);
    CodedWritable(qs, h, t, 2 * |cs|);
    QuadsReadBack(qs, h, t, bits, start + |BigBits(h, books, cs)|, limit, |cs|);
  }
}
