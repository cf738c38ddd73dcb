/**
 The Huffman stage of one granule of one channel (include/dr_mp3.h,
 `drmp3_L3_huffman`): the big values, region by region and band by band, then the
 quadruples up to the end of the granule's bits.

 The specification reads the bit string directly: pair k uses the table of the region
 its band lies in and the scale factor of its band.
 */
module HuffmanStage {
  import opened BitString
  import opened CachedBits
  import opened HuffmanCodes
  import opened HuffmanPairs
  import opened QuadCodes
  import opened ScalefactorBands

  /** A spectral line: sign(q)|q|^(4/3) times the scale factor of a band, or zero. */
  datatype Line = Zero | Scaled(q: int, band: nat)

  function MakeLine(q: int, band: nat): Line {
    if q == 0 then Zero else Scaled(q, band)
  }

  /** What the side information says about a granule, as this stage uses it. */
  datatype Params = Params(bigValues: nat, bands: Bands, select: seq<nat>, region: seq<nat>, count1: nat)

  /** Either the window is switched and the second region is open-ended, or the third is. */
  predicate RegionsValid(region: seq<nat>) {
    && |region| == 3
    && (region[1] == 255 || (region[0] < 16 && region[1] < 8 && region[2] == 255))
  }

  ghost predicate ValidParams(h: Params, books: seq<Codebook>) {
    && h.bigValues <= PAIRS && h.bands.Valid() && RegionsValid(h.region)
    && |h.select| == 3 && (forall r :: 0 <= r < 3 ==> h.select[r] < |books|)
    && (forall i :: 0 <= i < |books| ==> WellFormed(books[i]))
  }

  // ----- the specification -----

  /** The region of a band: the first takes region[0]+1 bands, the second region[1]+1. */
  function RegionOf(region: seq<nat>, b: nat): (r: nat)
    requires |region| == 3
    ensures r < 3
  {
    if b <= region[0] then 0 else if b <= region[0] + 1 + region[1] then 1 else 2
  }

  function BookOf(h: Params, books: seq<Codebook>, b: nat): Codebook
    requires ValidParams(h, books)
  {
    books[h.select[RegionOf(h.region, b)]]
  }

  function PairLines(pair: Pair, band: nat): (ls: seq<Line>)
    ensures |ls| == 2
  {
    [MakeLine(pair.first, band), MakeLine(pair.second, band)]
  }

  /** The lines of the first k pairs and where their bits end. */
  function BigLines(h: Params, books: seq<Codebook>, bits: Bits, start: nat, k: nat): (r: (seq<Line>, nat))
    requires ValidParams(h, books)
    ensures |r.0| == 2 * k
  {
    if k == 0 then ([], start) else
      var (ls, p) := BigLines(h, books, bits, start, k - 1);
      var band := h.bands.BandOf(k - 1);
      var (pair, q) := PairAt(BookOf(h, books, band), bits, p);
      (ls + PairLines(pair, band), q)
  }

  // ----- the lines in place -----

  /** The lines of a granule. */
  const LINES: nat := 2 * PAIRS

  /** Lines with zeros behind them. */
  function Padded(ls: seq<Line>): (r: seq<Line>)
    requires |ls| <= LINES
    ensures |r| == LINES
  {
    ls + seq(LINES - |ls|, _ => Zero)
  }

  /** The granule's buffer holds the lines that have been written, and zeros behind them. */
  ghost predicate Holds(dst: array<Line>, ls: seq<Line>)
    reads dst
  {
    |ls| <= LINES && dst[..] == Padded(ls)
  }

  lemma PaddedNext(ls: seq<Line>, x: Line)
    requires |ls| < LINES
    ensures Padded(ls + [x]) == Padded(ls)[|ls| := x] && Padded(ls + [Zero]) == Padded(ls)
  {
  }

  /** *dst = x */
  method Store(dst: array<Line>, at: nat, x: Line, ghost ls: seq<Line>)
    requires Holds(dst, ls) && at == |ls| < LINES
    modifies dst
    ensures Holds(dst, ls + [x])
  {
    hide Padded;
    PaddedNext(ls, x);
    dst[at] := x;
  }

  // ----- the big values -----

  /** Memory reaches behind the furthest the stage can read. */
  predicate Room(mem: seq<Byte>, start: nat) {
    start + PAIR_BITS * (PAIRS + 1) + 64 <= 8 * |mem|
  }

  /** The first k pairs have been written and the cache stands behind their bits. */
  ghost predicate Stored(ls: seq<Line>, c: Cache, h: Params, books: seq<Codebook>, bits: Bits,
                         start: nat, k: nat, pos: nat)
    requires ValidParams(h, books)
  {
    && (ls, pos) == BigLines(h, books, bits, start, k)
    && pos <= start + PAIR_BITS * k && Ready(c, bits, pos)
  }

  lemma StoredLength(ls: seq<Line>, c: Cache, h: Params, books: seq<Codebook>, bits: Bits, start: nat, k: nat, pos: nat)
    requires ValidParams(h, books) && Stored(ls, c, h, books, bits, start, k, pos)
    ensures |ls| == 2 * k
  {
  }

  lemma BigLinesNext(h: Params, books: seq<Codebook>, bits: Bits, start: nat, k1: nat, ls: seq<Line>, pos: nat,
                     pair: Pair, end: nat, band: nat)
    requires ValidParams(h, books) && k1 > 0 && (ls, pos) == BigLines(h, books, bits, start, k1 - 1)
    requires band == h.bands.BandOf(k1 - 1) && (pair, end) == PairAt(BookOf(h, books, band), bits, pos)
    ensures BigLines(h, books, bits, start, k1) == (ls + PairLines(pair, band), end)
  {
    hide BookOf, PairAt, PairLines, ValidParams;
  }

  lemma StoredNext(ls: seq<Line>, h: Params, books: seq<Codebook>, bits: Bits, start: nat, k: nat, k1: nat, pos: nat,
                   pair: Pair, end: nat, band: nat)
    requires ValidParams(h, books) && (ls, pos) == BigLines(h, books, bits, start, k) && k1 == k + 1
    requires band == h.bands.BandOf(k) && (pair, end) == PairAt(BookOf(h, books, band), bits, pos)
    ensures ((ls + [MakeLine(pair.first, band)]) + [MakeLine(pair.second, band)], end) ==
      BigLines(h, books, bits, start, k1)
  {
    hide BookOf, PairAt, MakeLine, ValidParams, BigLines;
    BigLinesNext(h, books, bits, start, k1, ls, pos, pair, end, band);
    assert (ls + [MakeLine(pair.first, band)]) + [MakeLine(pair.second, band)] == ls + PairLines(pair, band);
  }

  /** One pair decoded and stored. */
  method NextPair(dst: array<Line>, at: nat, c: Cache, mem: seq<Byte>, book: Codebook, band: nat, k: nat,
                  ghost k1: nat, ghost ls: seq<Line>,
                  ghost h: Params, ghost books: seq<Codebook>, ghost bits: Bits, ghost start: nat, ghost pos: nat)
    returns (c': Cache, ghost ls': seq<Line>, ghost end: nat)
    requires ValidParams(h, books) && Spells(bits, mem) && Room(mem, start)
    requires k < h.bigValues && band == h.bands.BandOf(k) && book == BookOf(h, books, band)
    requires Stored(ls, c, h, books, bits, start, k, pos) && k1 == k + 1
    requires Holds(dst, ls) && at == 2 * k
    modifies dst
    ensures Stored(ls', c', h, books, bits, start, k1, end) && Holds(dst, ls')
  {
    hide BigLines, Padded, PairAt, Holds;
    var pair;
    c', pair, end := DecodePair(c, mem, book, bits, pos);
    StoredLength(ls, c, h, books, bits, start, k, pos);
    StoredNext(ls, h, books, bits, start, k, k1, pos, pair, end, band);
    Store(dst, at, MakeLine(pair.first, band), ls);
    ls' := ls + [MakeLine(pair.first, band)];
    Store(dst, at + 1, MakeLine(pair.second, band), ls');
    ls' := ls' + [MakeLine(pair.second, band)];
  }

  /** The inner loop: the pairs k .. to of band b; pairs_to_decode is to - i. */
  method DecodeBand(dst: array<Line>, at: nat, c: Cache, mem: seq<Byte>, book: Codebook, b: nat, k: nat, to: nat,
                    ghost ls: seq<Line>,
                    ghost h: Params, ghost books: seq<Codebook>, ghost bits: Bits, ghost start: nat, ghost pos: nat)
    returns (at': nat, c': Cache, ghost ls': seq<Line>, ghost end: nat)
    requires ValidParams(h, books) && Spells(bits, mem) && Room(mem, start)
    requires b < h.bands.count && k < to <= h.bigValues
    requires h.bands.Before(b) <= k && to <= h.bands.Before(b + 1) && book == BookOf(h, books, b)
    requires Stored(ls, c, h, books, bits, start, k, pos) && Holds(dst, ls) && at == 2 * k
    modifies dst
    ensures Stored(ls', c', h, books, bits, start, to, end) && Holds(dst, ls') && at' == 2 * to
  {
    hide Stored, Spells, Room, BigLines, Holds;
    var i := k;
    at', c', ls', end := at, c, ls, pos;
    while i < to
      invariant k <= i <= to && at' == 2 * i && Holds(dst, ls')
      invariant Stored(ls', c', h, books, bits, start, i, end)
    {
      BandOfIs(h.bands, b, i);
      ghost var k1 := i + 1;
      c', ls', end := NextPair(dst, at', c', mem, book, b, i, k1, ls', h, books, bits, start, end);
      i, at' := i + 1, at' + 2;
    }
  }

  /** The first band of a region. */
  function RegionStart(region: seq<nat>, r: nat): nat
    requires |region| == 3 && r <= 3
  {
    if r == 0 then 0 else RegionStart(region, r - 1) + region[r - 1] + 1
  }

  /** b bands are drawn; cnt is big_val_cnt, negative by the pairs left over in the last one. */
  ghost predicate Counts(h: Params, b: nat, cnt: int)
    requires h.bands.Valid()
  {
    && b <= h.bands.count && cnt == h.bigValues - h.bands.Before(b)
    && (b > 0 ==> h.bands.Before(b - 1) < h.bigValues)
  }

  /** The pairs decoded from b bands. */
  function Done(h: Params, b: nat): nat
    requires b <= |h.bands.widths|
  {
    if h.bands.Before(b) < h.bigValues then h.bands.Before(b) else h.bigValues
  }

  ghost predicate Drawn(ls: seq<Line>, c: Cache, h: Params, books: seq<Codebook>, bits: Bits,
                        start: nat, b: nat, cnt: int, pos: nat)
    requires ValidParams(h, books)
  {
    Counts(h, b, cnt) && Stored(ls, c, h, books, bits, start, Done(h, b), pos)
  }

  /** One band: np = *sfb++ / 2, its pairs, big_val_cnt -= np. */
  method NextBand(dst: array<Line>, at: nat, c: Cache, mem: seq<Byte>, book: Codebook, b: nat, cnt: int,
                  h: Params, ghost ls: seq<Line>,
                  ghost books: seq<Codebook>, ghost bits: Bits, ghost start: nat, ghost pos: nat)
    returns (at': nat, c': Cache, cnt': int, ghost ls': seq<Line>, ghost end: nat)
    requires ValidParams(h, books) && Spells(bits, mem) && Room(mem, start)
    requires cnt > 0 && Drawn(ls, c, h, books, bits, start, b, cnt, pos) && Holds(dst, ls) && at == 2 * Done(h, b)
    requires b < h.bands.count && book == BookOf(h, books, b)
    modifies dst
    ensures Drawn(ls', c', h, books, bits, start, b + 1, cnt', end) && Holds(dst, ls') && at' == 2 * Done(h, b + 1)
    ensures cnt' < cnt
  {
    hide Stored, Spells, Room, Holds, BookOf;
    BandCounts(h, b, cnt);
    var np := h.bands.widths[b] / 2;
    at', c', ls', end :=
      DecodeBand(dst, at, c, mem, book, b, Done(h, b), Done(h, b + 1), ls, h, books, bits, start, pos);
    cnt' := cnt - np;
  }

  /** MIN(big_val_cnt, np) pairs lead from one band's end to the next. */
  lemma BandCounts(h: Params, b: nat, cnt: int)
    requires h.bands.Valid() && b < h.bands.count && cnt > 0 && Counts(h, b, cnt)
    ensures var np := h.bands.widths[b] / 2;
      && np >= 1 && Counts(h, b + 1, cnt - np)
      && Done(h, b) == h.bands.Before(b) < Done(h, b + 1) <= h.bands.Before(b + 1)
      && Done(h, b + 1) == Done(h, b) + (if cnt < np then cnt else np)
  {
    BeforeEnd(h.bands, b);
  }

  lemma MoreBands(h: Params, books: seq<Codebook>, b: nat)
    requires ValidParams(h, books) && b <= h.bands.count && h.bands.Before(b) < h.bigValues
    ensures b < h.bands.count
  {
    BeforeEnd(h.bands, b);
  }

  /** The middle loop: the bands of region r, until they or the pairs are used up. */
  method DecodeRegion(dst: array<Line>, at: nat, c: Cache, mem: seq<Byte>, books: seq<Codebook>,
                      r: nat, b: nat, cnt: int, h: Params,
                      ghost ls: seq<Line>, ghost bits: Bits, ghost start: nat, ghost pos: nat)
    returns (at': nat, c': Cache, b': nat, cnt': int, ghost ls': seq<Line>, ghost end: nat)
    requires ValidParams(h, books) && Spells(bits, mem) && Room(mem, start)
    requires cnt > 0 && Drawn(ls, c, h, books, bits, start, b, cnt, pos) && Holds(dst, ls) && at == 2 * Done(h, b)
    requires r < 3 && b == RegionStart(h.region, r)
    modifies dst
    ensures Drawn(ls', c', h, books, bits, start, b', cnt', end) && Holds(dst, ls') && at' == 2 * Done(h, b')
    ensures cnt' > 0 ==> b' == RegionStart(h.region, r + 1)
    ensures cnt' < cnt
  {
    hide Stored, Spells, Room, Holds, BigLines;
    var sfbCnt: int := h.region[r];
    at', c', b', cnt', ls', end := at, c, b, cnt, ls, pos;
    while true
      invariant Drawn(ls', c', h, books, bits, start, b', cnt', end) && Holds(dst, ls') && at' == 2 * Done(h, b')
      invariant 0 < cnt' <= cnt && b' + sfbCnt == RegionStart(h.region, r) + h.region[r]
      invariant 0 <= sfbCnt && b <= b'
      decreases sfbCnt
    {
      MoreBands(h, books, b');
      RegionIs(h.region, r, b');
      at', c', cnt', ls', end :=
        NextBand(dst, at', c', mem, books[h.select[r]], b', cnt', h, ls', books, bits, start, end);
      b' := b' + 1;
      if cnt' <= 0 { return; }
      sfbCnt := sfbCnt - 1;
      if sfbCnt < 0 { return; }
    }
  }

  lemma RegionIs(region: seq<nat>, r: nat, b: nat)
    requires |region| == 3 && r < 3 && RegionStart(region, r) <= b <= RegionStart(region, r) + region[r]
    ensures RegionOf(region, b) == r
  {
    assert RegionStart(region, 1) == region[0] + 1;
    assert RegionStart(region, 2) == RegionStart(region, 1) + region[1] + 1;
  }

  /** While pairs are left there is a region for them: the open-ended one outlasts the bands. */
  lemma RegionsSuffice(h: Params, books: seq<Codebook>, r: nat)
    requires ValidParams(h, books) && r <= 3 && RegionStart(h.region, r) < h.bands.count
    ensures r < 3
  {
    assert RegionStart(h.region, 1) == h.region[0] + 1;
    assert RegionStart(h.region, 2) == RegionStart(h.region, 1) + h.region[1] + 1;
    assert RegionStart(h.region, 3) == RegionStart(h.region, 2) + h.region[2] + 1;
  }

  /** The outer loop: region after region until every big value is decoded. */
  method BigValues(dst: array<Line>, c: Cache, mem: seq<Byte>, books: seq<Codebook>,
                   h: Params, ghost bits: Bits, ghost start: nat)
    returns (at: nat, c': Cache, b: nat, cnt: int, ghost ls: seq<Line>, ghost end: nat)
    requires ValidParams(h, books) && Spells(bits, mem) && Room(mem, start)
    requires Ready(c, bits, start) && Holds(dst, [])
    modifies dst
    ensures cnt <= 0 && Drawn(ls, c', h, books, bits, start, b, cnt, end) && Holds(dst, ls) && at == 2 * h.bigValues
  {
    hide Spells, Room, Holds;
    var ireg := 0;
    at, c', b, cnt, ls, end := 0, c, 0, h.bigValues, [], start;
    while cnt > 0
      invariant ireg <= 3 && Drawn(ls, c', h, books, bits, start, b, cnt, end)
      invariant Holds(dst, ls) && at == 2 * Done(h, b)
      invariant cnt > 0 ==> b == RegionStart(h.region, ireg)
    {
      MoreBands(h, books, b);
      RegionsSuffice(h, books, ireg);
      at, c', b, cnt, ls, end := DecodeRegion(dst, at, c', mem, books, ireg, b, cnt, h, ls, bits, start, end);
      ireg := ireg + 1;
    }
  }

  // ----- the quadruples -----

  /** A value of magnitude at most one: a mask bit says whether there is one, then its sign. */
  function UnitAt(isSet: bool, bits: Bits, pos: nat, band: nat): (r: (Line, nat))
    ensures pos <= r.1 <= pos + 1
  {
    if isSet then (Scaled(if BitAt(bits, pos) == 1 then -1 else 1, band), pos + 1) else (Zero, pos)
  }

  function UnitPair(first: bool, second: bool, bits: Bits, pos: nat, band: nat): (r: (seq<Line>, nat))
    ensures pos <= r.1 <= pos + 2 && |r.0| == 2
  {
    var (x, p) := UnitAt(first, bits, pos, band);
    var (y, q) := UnitAt(second, bits, p, band);
    ([x, y], q)
  }

  predicate MaskBit(mask: nat, s: nat)
    requires s < 4
  {
    if s == 0 then mask / 8 % 2 == 1 else if s == 1 then mask / 4 % 2 == 1
    else if s == 2 then mask / 2 % 2 == 1 else mask % 2 == 1
  }

  /** The lines of the quadruples from pair p on: a code that ends behind the limit is not
      one any more, and the bands may run out in the middle of a quadruple. */
  function QuadLines(h: Params, t: Tree, bits: Bits, pos: nat, limit: int, p: nat): (ls: seq<Line>)
    requires h.bands.Valid()
    ensures |ls| <= if p <= PAIRS then 2 * (PAIRS - p) else 0
    decreases PAIRS - p
  {
    var (mask, q) := Walk(t, bits, pos);
    if q > limit || p >= PAIRS then [] else
      var (ls1, q1) := UnitPair(MaskBit(mask, 0), MaskBit(mask, 1), bits, q, h.bands.BandOf(p));
      if p + 1 >= PAIRS then ls1 else
        var (ls2, q2) := UnitPair(MaskBit(mask, 2), MaskBit(mask, 3), bits, q1, h.bands.BandOf(p + 1));
        ls1 + ls2 + QuadLines(h, t, bits, q2, limit, p + 2)
  }

  /** np, the bands loaded (sfb and scf move together), and the band `one` was loaded for. */
  datatype BandCursor = BandCursor(np: int, b: nat, one: nat)

  /** The cursor when p pairs are drawn: np - 1 of the last band loaded are left. */
  ghost predicate CursorAt(h: Params, p: nat, cur: BandCursor)
    requires h.bands.Valid()
  {
    && cur.b <= h.bands.count && cur.np >= 1 && p + cur.np - 1 == h.bands.Before(cur.b)
    && (cur.b > 0 ==> h.bands.Before(cur.b - 1) <= p && cur.one == cur.b - 1)
  }

  /** DRMP3_RELOAD_SCALEFACTOR: draws one pair; fails exactly when all are drawn. */
  method Reload(h: Params, cur: BandCursor, ghost p: nat) returns (ok: bool, cur': BandCursor)
    requires h.bands.Valid() && CursorAt(h, p, cur)
    ensures ok <==> p < PAIRS
    ensures ok ==> CursorAt(h, p + 1, cur') && cur'.one == h.bands.BandOf(p)
  {
    BeforeEnd(h.bands, cur.b);
    DrawnBand(h, p, cur.np, cur.b);
    ok, cur' := true, BandCursor(cur.np - 1, cur.b, cur.one);
    if cur'.np == 0 {
      cur' := BandCursor(h.bands.widths[cur.b] / 2, cur.b + 1, cur.one);
      if cur'.np == 0 { ok := false; return; }
      cur' := cur'.(one := cur.b);
    }
  }

  lemma DrawnBand(h: Params, p: nat, np: nat, b: nat)
    requires h.bands.Valid() && b <= h.bands.count && np >= 1 && p + np - 1 == h.bands.Before(b)
    requires b > 0 ==> h.bands.Before(b - 1) <= p
    ensures np > 1 ==> b > 0 && h.bands.BandOf(p) == b - 1 && p < PAIRS
    ensures np == 1 && b < h.bands.count ==> h.bands.BandOf(p) == b && p < PAIRS
  {
    BeforeEnd(h.bands, b);
    if np > 1 {
      BandOfIs(h.bands, b - 1, p);
    } else if b < h.bands.count {
      BandOfIs(h.bands, b, p);
    }
  }

  /** DRMP3_DEQ_COUNT1: a zero is not written, it is there already. */
  method Dequantise(dst: array<Line>, at: nat, c: Cache, isSet: bool, one: nat,
                    ghost ls: seq<Line>, ghost bits: Bits, ghost pos: nat)
    returns (c': Cache, ghost x: Line, ghost end: nat)
    requires StandsAt(c, bits, pos) && c.Valid() >= 1 && Holds(dst, ls) && at == |ls| < LINES
    modifies dst
    ensures (x, end) == UnitAt(isSet, bits, pos, one) && Holds(dst, ls + [x])
    ensures StandsAt(c', bits, end) && c'.Valid() >= c.Valid() - 1
  {
    hide Padded;
    c', x, end := c, Zero, pos;
    PaddedNext(ls, Zero);
    if isSet {
      SignBit(c, bits, pos);
      var line := Scaled(if c.Peek(1) == 1 then -1 else 1, one);
      Store(dst, at, line, ls);
      c' := FlushBits(c, 1, bits, pos);
      x, end := line, pos + 1;
    }
  }

  method DequantiseTwo(dst: array<Line>, at: nat, c: Cache, first: bool, second: bool, one: nat,
                       ghost ls: seq<Line>, ghost bits: Bits, ghost pos: nat)
    returns (c': Cache, ghost ls': seq<Line>, ghost end: nat)
    requires StandsAt(c, bits, pos) && c.Valid() >= 2 && Holds(dst, ls) && at == |ls| && at + 2 <= LINES
    modifies dst
    ensures ls' == ls + UnitPair(first, second, bits, pos, one).0 && end == UnitPair(first, second, bits, pos, one).1
    ensures |ls'| == at + 2 && Holds(dst, ls') && StandsAt(c', bits, end) && c'.Valid() >= c.Valid() - 2
  {
    hide Padded, Holds;
    ghost var x, y;
    c', x, end := Dequantise(dst, at, c, first, one, ls, bits, pos);
    ls' := ls + [x];
    c', y, end := Dequantise(dst, at + 1, c', second, one, ls', bits, end);
    ls' := ls' + [y];
    assert ls' == ls + [x, y];
  }

  /** The second half of a quadruple, if the bands reach that far. */
  function SecondHalf(h: Params, t: Tree, mask: nat, bits: Bits, q1: nat, limit: int, p: nat): seq<Line>
    requires h.bands.Valid()
  {
    if p + 1 >= PAIRS then [] else
      var (ls2, q2) := UnitPair(MaskBit(mask, 2), MaskBit(mask, 3), bits, q1, h.bands.BandOf(p + 1));
      ls2 + QuadLines(h, t, bits, q2, limit, p + 2)
  }

  /** What a turn of the loop, or a part of one, leaves. */
  datatype Turn = Turn(done: bool, c: Cache, cur: BandCursor)

  /** Behind a turn that ends the loop, `ls` is all of `total`; behind another one it is what
      `total` has before the lines of the quadruples from pair p on. */
  ghost predicate TurnAt(turn: Turn, ls: seq<Line>, h: Params, t: Tree, bits: Bits, limit: int, p: nat, end: nat,
                         total: seq<Line>)
    requires h.bands.Valid()
  {
    if turn.done then ls == total
    else p <= PAIRS && |ls| == 2 * p && Ready(turn.c, bits, end) && CursorAt(h, p, turn.cur)
         && ls + QuadLines(h, t, bits, end, limit, p) == total
  }

  /** From the second reload on. */
  method FinishQuad(dst: array<Line>, at: nat, c: Cache, mem: seq<Byte>, h: Params, mask: nat, cur: BandCursor,
                    ghost ls: seq<Line>, ghost t: Tree, ghost bits: Bits, ghost q1: nat, limit: int, ghost p: nat)
    returns (turn: Turn, ghost ls': seq<Line>, ghost end: nat)
    requires h.bands.Valid() && Spells(bits, mem) && q1 + 34 <= 8 * |mem| && Holds(dst, ls) && at == |ls| == 2 * (p + 1)
    requires StandsAt(c, bits, q1) && c.Valid() >= 2 && CursorAt(h, p + 1, cur)
    modifies dst
    ensures q1 <= end <= q1 + 2 && Holds(dst, ls')
    ensures TurnAt(turn, ls', h, t, bits, limit, p + 2, end, ls + SecondHalf(h, t, mask, bits, q1, limit, p))
  {
    hide Holds, QuadLines, Spells, StandsAt, CursorAt;
    end, ls' := q1, ls;
    var ok, cur' := Reload(h, cur, p + 1);
    if !ok {
      assert ls + [] == ls;
      return Turn(true, c, cur'), ls, q1;
    }
    var c';
    c', ls', end := DequantiseTwo(dst, at, c, mask / 2 % 2 == 1, mask % 2 == 1, cur'.one, ls, bits, q1);
    c' := Check(c', mem, bits, end);
    turn := Turn(false, c', cur');
    ghost var written := UnitPair(mask / 2 % 2 == 1, mask % 2 == 1, bits, q1, cur'.one).0;
    Regroup(ls, written, QuadLines(h, t, bits, end, limit, p + 2));
  }

  lemma Regroup(a: seq<Line>, b: seq<Line>, c: seq<Line>)
    ensures (a + b) + c == a + (b + c)
  {
  }

  /** The lines of a quadruple whose code has been read, and of those behind it. */
  function AfterCode(h: Params, t: Tree, mask: nat, bits: Bits, q: nat, limit: int, p: nat): seq<Line>
    requires h.bands.Valid()
  {
    if p >= PAIRS then [] else
      var (ls1, q1) := UnitPair(MaskBit(mask, 0), MaskBit(mask, 1), bits, q, h.bands.BandOf(p));
      ls1 + SecondHalf(h, t, mask, bits, q1, limit, p)
  }

  lemma QuadAfterCode(h: Params, t: Tree, bits: Bits, pos: nat, limit: int, p: nat)
    requires h.bands.Valid()
    ensures var (mask, q) := Walk(t, bits, pos);
      QuadLines(h, t, bits, pos, limit, p) == if q > limit then [] else AfterCode(h, t, mask, bits, q, limit, p)
  {
    var (mask, q) := Walk(t, bits, pos);
    if q <= limit && p < PAIRS {
      var (ls1, q1) := UnitPair(MaskBit(mask, 0), MaskBit(mask, 1), bits, q, h.bands.BandOf(p));
      if p + 1 < PAIRS {
        var (ls2, q2) := UnitPair(MaskBit(mask, 2), MaskBit(mask, 3), bits, q1, h.bands.BandOf(p + 1));
        Regroup(ls1, ls2, QuadLines(h, t, bits, q2, limit, p + 2));
      }
    }
  }

  /** From the first reload on. */
  method DrawQuad(dst: array<Line>, at: nat, c: Cache, mem: seq<Byte>, h: Params, mask: nat, cur: BandCursor,
                  ghost ls: seq<Line>, ghost t: Tree, ghost bits: Bits, ghost q: nat, limit: int, ghost p: nat)
    returns (turn: Turn, ghost ls': seq<Line>, ghost end: nat)
    requires h.bands.Valid() && Spells(bits, mem) && q + 36 <= 8 * |mem| && Holds(dst, ls) && at == |ls| == 2 * p
    requires StandsAt(c, bits, q) && c.Valid() >= 4 && CursorAt(h, p, cur)
    modifies dst
    ensures q <= end <= q + 4 && Holds(dst, ls')
    ensures TurnAt(turn, ls', h, t, bits, limit, p + 2, end, ls + AfterCode(h, t, mask, bits, q, limit, p))
  {
    hide Holds, QuadLines, Spells, StandsAt, SecondHalf, CursorAt;
    end, ls' := q, ls;
    var ok, cur' := Reload(h, cur, p);
    if !ok {
      assert ls + [] == ls;
      return Turn(true, c, cur'), ls, q;
    }
    var c';
    ghost var q1;
    c', ls', q1 := DequantiseTwo(dst, at, c, mask / 8 % 2 == 1, mask / 4 % 2 == 1, cur'.one, ls, bits, q);
    ghost var written := UnitPair(mask / 8 % 2 == 1, mask / 4 % 2 == 1, bits, q, cur'.one).0;
    Regroup(ls, written, SecondHalf(h, t, mask, bits, q1, limit, p));
    turn, ls', end := FinishQuad(dst, at + 2, c', mem, h, mask, cur', ls', t, bits, q1, limit, p);
  }

  /** One turn of the count1 loop. */
  method NextQuad(dst: array<Line>, at: nat, c: Cache, mem: seq<Byte>, h: Params, tab: seq<nat>, cur: BandCursor,
                  ghost ls: seq<Line>, ghost t: Tree, ghost bits: Bits, ghost pos: nat, limit: int, ghost p: nat)
    returns (turn: Turn, ghost ls': seq<Line>, ghost end: nat)
    requires h.bands.Valid() && Spells(bits, mem) && pos + 64 <= 8 * |mem| && QuadTable(tab, t)
    requires Ready(c, bits, pos) && CursorAt(h, p, cur) && Holds(dst, ls) && at == |ls| == 2 * p
    modifies dst
    ensures pos <= end <= pos + 11 && Holds(dst, ls')
    ensures TurnAt(turn, ls', h, t, bits, limit, p + 2, end, ls + QuadLines(h, t, bits, pos, limit, p))
  {
    hide Holds, QuadLines, Spells, AfterCode, CursorAt, QuadTable;
    QuadAfterCode(h, t, bits, pos, limit, p);
    var c', leaf;
    c', leaf, end := DecodeQuad(c, tab, t, bits, pos);
    if c'.Position() > limit {
      assert ls + [] == ls;
      return Turn(true, c', cur), ls, end;
    }
    turn, ls', end := DrawQuad(dst, at, c', mem, h, leaf / 16, cur, ls, t, bits, end, limit, p);
  }

  /** The count1 loop, up to its break. */
  method Count1(dst: array<Line>, at0: nat, c0: Cache, mem: seq<Byte>, h: Params, tab: seq<nat>, cur0: BandCursor,
                ghost ls0: seq<Line>, ghost t: Tree, ghost bits: Bits, ghost start: nat, ghost pos0: nat, limit: int)
    requires h.bands.Valid() && h.bigValues <= PAIRS && Spells(bits, mem) && Room(mem, start) && QuadTable(tab, t)
    requires CursorAt(h, h.bigValues, cur0) && Ready(c0, bits, pos0) && pos0 <= start + PAIR_BITS * h.bigValues
    requires Holds(dst, ls0) && at0 == |ls0| == 2 * h.bigValues
    modifies dst
    ensures Holds(dst, ls0 + QuadLines(h, t, bits, pos0, limit, h.bigValues))
  {
    hide QuadLines, QuadTable, Spells, Ready, StandsAt, Holds, CursorAt;
    ghost var p: nat, pos: nat, ls := h.bigValues, pos0, ls0;
    ghost var goal := ls0 + QuadLines(h, t, bits, pos0, limit, h.bigValues);
    var turn, at := Turn(false, c0, cur0), at0;
    while !turn.done
      invariant TurnAt(turn, ls, h, t, bits, limit, p, pos, goal) && Holds(dst, ls)
      invariant !turn.done ==> at == 2 * p && pos <= start + PAIR_BITS * p
      decreases !turn.done, PAIRS - p
    {
      ghost var end;
      turn, ls, end := NextQuad(dst, at, turn.c, mem, h, tab, turn.cur, ls, t, bits, pos, limit, p);
      p, pos, at := p + 2, end, at + 4;
    }
  }

  // ----- the stage -----

  /** The code of the quadruples. */
  function QuadTree(h: Params): Tree {
    if h.count1 != 0 then TREE_B else TREE_A
  }

  /** The lines of a granule: the big values, the quadruples, zeros. */
  function StageLines(h: Params, books: seq<Codebook>, bits: Bits, start: nat, limit: int): seq<Line>
    requires ValidParams(h, books)
  {
    var (big, p) := BigLines(h, books, bits, start, h.bigValues);
    big + QuadLines(h, QuadTree(h), bits, p, limit, h.bigValues)
  }

  /** They are no more than the 576 lines of a granule. */
  lemma StageFits(h: Params, books: seq<Codebook>, bits: Bits, start: nat, limit: int)
    requires ValidParams(h, books)
    ensures |StageLines(h, books, bits, start, limit)| <= 576
  {
  }

  /** drmp3_L3_huffman, on a buffer that has been cleared: the lines are written in place, and
      none behind them. The plain reader is left at the limit, wherever the codes ended. */
  method Huffman(dst: array<Line>, mem: seq<Byte>, start: nat, limit: int, h: Params, books: seq<Codebook>,
                 ghost bits: Bits)
    returns (bsPos: int)
    requires ValidParams(h, books) && Spells(bits, mem) && Room(mem, start)
    requires dst.Length == 576 && forall j | 0 <= j < 576 :: dst[j] == Zero
    modifies dst
    ensures var lines := StageLines(h, books, bits, start, limit);
      |lines| <= 576 && dst[..|lines|] == lines && forall j | |lines| <= j < 576 :: dst[j] == Zero
    ensures bsPos == limit
  {
    hide QuadTable, Encodes, QuadLines, BigLines, Spells, Ready, StandsAt;
    var c := Load(mem, start, bits);
    var at, b, cnt;
    ghost var ls, end;
    at, c, b, cnt, ls, end := BigValues(dst, c, mem, books, h, bits, start);
    var cur := BandCursor(1 - cnt, b, if b > 0 then b - 1 else 0);
    if h.count1 != 0 {
      Tab33Encodes(TAB33, TREE_B);
      Count1(dst, at, c, mem, h, TAB33, cur, ls, TREE_B, bits, start, end, limit);
    } else {
      Tab32Encodes(TAB32, TREE_A);
      Count1(dst, at, c, mem, h, TAB32, cur, ls, TREE_A, bits, start, end, limit);
    }
    bsPos := limit;
  }
}
