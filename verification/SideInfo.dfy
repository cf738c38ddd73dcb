/**
 Layer III side information (include/dr_mp3.h, `drmp3_L3_read_side_info`).

 The parser reads field after field; the specification below gives every field
 by its absolute position in the layout of ISO/IEC 11172-3, section 2.4.1.7 (and
 of 13818-3 for the lower sampling frequencies), so that the two agree only if
 every branch of the parser consumes the same number of bits.
 */
module SideInfo {
  import opened BitReader

  datatype BandTable = LongBands | ShortBands | MixedBands

  datatype Option<T> = None | Some(value: T)

  /** The window part of a record. Two fields keep whatever they held before on one of
      the two branches of the parser: they are None there. */
  datatype Window = Window(
    blockType: nat, mixedBlock: bool, bands: BandTable, tables: nat,
    regionCount0: nat, regionCount1: nat, regionCount2: Option<nat>,
    subblockGain: Option<(nat, nat, nat)>)

  /** The long bands of a table, whose low part is long in mixed blocks, and its short ones. */
  function LongSfb(bands: BandTable, mpeg1: bool): nat {
    if bands.LongBands? then 22 else if bands.ShortBands? then 0 else if mpeg1 then 8 else 6
  }

  function ShortSfb(bands: BandTable): nat {
    if bands.LongBands? then 0 else if bands.ShortBands? then 39 else 30
  }

  /** The record of one granule of one channel. Its bands are those of a row of a table: the
      window says which table, the sampling rate which row. */
  datatype Granule = Granule(
    part23Length: nat, bigValues: nat, globalGain: nat, scalefacCompress: nat,
    window: Window, preflag: bool, scalefacScale: nat, count1Table: nat, scfsi: nat, row: nat,
    longSfb: nat, shortSfb: nat)

  const SHORT_BLOCK: nat := 2
  const MAX_BIG_VALUES: nat := 288

  /** What the frame header tells the parser. */
  datatype Mode = Mode(mpeg1: bool, mono: bool, row: nat)
  {
    function Count(): (n: nat)
    {
      if mpeg1 then (if mono then 2 else 4) else (if mono then 1 else 2)
    }

    /** main_data_begin, private bits and scfsi. */
    function PrefixBits(): (n: nat)
    {
      if mpeg1 then (if mono then 18 else 20) else (if mono then 9 else 10)
    }

    function GranuleBits(): nat {
      if mpeg1 then 59 else 63
    }

    function CompressBits(): nat {
      if mpeg1 then 4 else 9
    }

    /** The size of the side information in bytes. */
    function SideBytes(): nat {
      if mpeg1 then (if mono then 17 else 32) else (if mono then 9 else 17)
    }

    /** Every record is as long as every other, so the whole ends on a byte boundary. */
    function TotalBits(): (n: nat)
      ensures n == 8 * SideBytes()
    {
      PrefixBits() + (if mpeg1 then 59 * Count() else 63 * Count())
    }
  }

  // ----- the layout -----

  /** The window part starting, with its switching flag, at c. */
  predicate Switched(s: Source, c: nat) {
    F(s, c, 1) != 0
  }

  function WindowAt(s: Source, c: nat): Window {
    if Switched(s, c) then SwitchedWindow(s, c + 1) else PlainWindow(s, c + 1)
  }

  function SwitchedWindow(s: Source, d: nat): Window {
    var isShort, mixed := F(s, d, 2) == SHORT_BLOCK, F(s, d + 2, 1) != 0;
    Window(F(s, d, 2), mixed,
           if !isShort then LongBands else if mixed then MixedBands else ShortBands,
           32 * F(s, d + 3, 10),
           if isShort && !mixed then 8 else 7, 255, None,
           Some((F(s, d + 13, 3), F(s, d + 16, 3), F(s, d + 19, 3))))
  }

  function PlainWindow(s: Source, d: nat): Window {
    Window(0, false, LongBands, F(s, d, 15), F(s, d + 15, 4), F(s, d + 19, 3), Some(255), None)
  }

  /** Where the window part of the record at b starts. */
  function WindowPos(mode: Mode, b: nat): nat {
    b + 29 + mode.CompressBits()
  }

  predicate IsShort(s: Source, mode: Mode, b: nat) {
    WindowAt(s, WindowPos(mode, b)).blockType == SHORT_BLOCK
  }

  predicate GranuleOk(s: Source, mode: Mode, b: nat) {
    && F(s, b + 12, 9) <= MAX_BIG_VALUES
    && (Switched(s, WindowPos(mode, b)) ==> WindowAt(s, WindowPos(mode, b)).blockType != 0)
  }

  /** The granule record at bit position b, its scfsi nibble supplied. */
  function GranuleAt(s: Source, mode: Mode, b: nat, scfsi: nat): Granule {
    var c := WindowPos(mode, b);
    var compress := F(s, b + 29, mode.CompressBits());
    Granule(
      F(s, b, 12), F(s, b + 12, 9), F(s, b + 21, 8), compress, WindowAt(s, c),
      if mode.mpeg1 then F(s, c + 23, 1) != 0 else compress >= 500,
      F(s, c + (if mode.mpeg1 then 24 else 23), 1),
      F(s, c + (if mode.mpeg1 then 25 else 24), 1),
      scfsi, mode.row, LongSfb(WindowAt(s, c).bands, mode.mpeg1), ShortSfb(WindowAt(s, c).bands))
  }

  function BaseOf(mode: Mode, start: nat, k: nat): nat {
    start + mode.PrefixBits() + (if mode.mpeg1 then 59 * k else 63 * k)
  }

  function MainDataBegin(s: Source, mode: Mode, start: nat): nat {
    if mode.mpeg1 then F(s, start, 9)
    else if mode.mono then F(s, start, 9) / 2 else F(s, start, 10) / 4
  }

  function PartSum(s: Source, mode: Mode, start: nat, k: nat): nat {
    if k == 0 then 0 else PartSum(s, mode, start, k - 1) + F(s, BaseOf(mode, start, k - 1), 12)
  }

  // ----- the running scfsi word -----

  /** The low four hexadecimal digits of the running word. It is only ever shifted left
      by a digit, masked with 0x0F0F and read at its fourth digit, so no higher digit
      is looked at. */
  datatype Word = Word(d3: nat, d2: nat, d1: nat, d0: nat)
  {
    /** << 4 */
    function Up(): Word { Word(d2, d1, d0, 0) }

    /** & 0x0F0F */
    function Mask(): Word { Word(0, d2, 0, d0) }
  }

  function ToWord(x: nat): Word {
    Word(x / 4096 % 16, x / 256 % 16, x / 16 % 16, x % 16)
  }

  /** The private bits and the scale-factor selection bits, read as one field. */
  function SelectionField(s: Source, mode: Mode, start: nat): nat {
    if !mode.mpeg1 then 0 else if mode.mono then F(s, start + 9, 9) else F(s, start + 9, 11)
  }

  /** The word a granule's digit is taken from: shifted for mono, masked for a short block. */
  function ScfsiWord(x: Word, mono: bool, isShort: bool): Word {
    var y := if mono then x.Up() else x;
    if isShort then y.Mask() else y
  }

  function ScfsiBefore(s: Source, mode: Mode, start: nat, k: nat): Word {
    if k == 0 then ToWord(SelectionField(s, mode, start))
    else ScfsiWord(ScfsiBefore(s, mode, start, k - 1), mode.mono,
                   IsShort(s, mode, BaseOf(mode, start, k - 1))).Up()
  }

  function Scfsi(s: Source, mode: Mode, start: nat, k: nat): nat {
    ScfsiWord(ScfsiBefore(s, mode, start, k), mode.mono, IsShort(s, mode, BaseOf(mode, start, k))).d3
  }

  function GranuleK(s: Source, mode: Mode, start: nat, k: nat): Granule {
    GranuleAt(s, mode, BaseOf(mode, start, k), Scfsi(s, mode, start, k))
  }

  /** The first n records. */
  function Granules(s: Source, mode: Mode, start: nat, n: nat): (grs: seq<Granule>)
    ensures |grs| == n
  {
    if n == 0 then [] else Granules(s, mode, start, n - 1) + [GranuleK(s, mode, start, n - 1)]
  }

  predicate AllOk(s: Source, mode: Mode, start: nat, n: nat) {
    n == 0 || (AllOk(s, mode, start, n - 1) && GranuleOk(s, mode, BaseOf(mode, start, n - 1)))
  }

  lemma {:induction false} NotAllOk(s: Source, mode: Mode, start: nat, k: nat, n: nat)
    requires k <= n && !AllOk(s, mode, start, k)
    ensures !AllOk(s, mode, start, n)
  {
    if k < n { NotAllOk(s, mode, start, k, n - 1); }
  }

  /** A parse is accepted when every record is and the coded data fits in what the
      reservoir can hold before this frame plus what is left of the frame. */
  predicate Accepted(s: Source, mode: Mode, start: nat) {
    && AllOk(s, mode, start, mode.Count())
    && PartSum(s, mode, start, mode.Count()) + start + mode.TotalBits()
       <= s.limit + 8 * MainDataBegin(s, mode, start)
  }

  // ----- the parser -----

  /** The fields behind a set window-switching flag; block type 0 ends the parse. */
  method ReadSwitched(bs: Reader, ghost s: Source) returns (w: Window)
    requires bs.Valid() && s == Source(bs.bits, bs.limit)
    modifies bs`pos
    ensures w.blockType == F(s, old(bs.pos), 2)
    ensures w.blockType != 0 ==> bs.pos == old(bs.pos) + 22 && w == SwitchedWindow(s, old(bs.pos))
  {
    var blockType := bs.GetBits(2);
    if blockType == 0 { return Window(0, false, LongBands, 0, 0, 0, None, None); }
    var mixed := bs.GetBits(1);
    var rc0, bands := 7, LongBands;
    if blockType == SHORT_BLOCK {
      if mixed == 0 { rc0, bands := 8, ShortBands; } else { bands := MixedBands; }
    }
    var tables := bs.GetBits(10);
    var g0 := bs.GetBits(3);
    var g1 := bs.GetBits(3);
    var g2 := bs.GetBits(3);
    w := Window(blockType, mixed != 0, bands, tables * 32, rc0, 255, None, Some((g0, g1, g2)));
  }

  method ReadPlain(bs: Reader, ghost s: Source) returns (w: Window)
    requires bs.Valid() && s == Source(bs.bits, bs.limit)
    modifies bs`pos
    ensures bs.pos == old(bs.pos) + 22 && w == PlainWindow(s, old(bs.pos))
  {
    var tables := bs.GetBits(15);
    var rc0 := bs.GetBits(4);
    var rc1 := bs.GetBits(3);
    w := Window(0, false, LongBands, tables, rc0, rc1, Some(255), None);
  }

  method ReadWindow(bs: Reader, ghost s: Source) returns (w: Window, ok: bool)
    requires bs.Valid() && s == Source(bs.bits, bs.limit)
    modifies bs`pos
    ensures ok <==> (Switched(s, old(bs.pos)) ==> WindowAt(s, old(bs.pos)).blockType != 0)
    ensures ok ==> bs.pos == old(bs.pos) + 23 && w == WindowAt(s, old(bs.pos))
  {
    var flag := bs.GetBits(1);
    if flag != 0 {
      w := ReadSwitched(bs, s);
      ok := w.blockType != 0;
    } else {
      w := ReadPlain(bs, s);
      ok := true;
    }
  }

  /** The fields before the window part; too many big values end the parse. */
  method ReadHead(bs: Reader, mode: Mode, ghost s: Source)
    returns (ok: bool, part23: nat, big: nat, gain: nat, compress: nat)
    requires bs.Valid() && s == Source(bs.bits, bs.limit)
    modifies bs`pos
    ensures ok == (F(s, old(bs.pos) + 12, 9) <= MAX_BIG_VALUES)
    ensures ok ==> bs.pos == WindowPos(mode, old(bs.pos))
    ensures ok ==> part23 == F(s, old(bs.pos), 12) && big == F(s, old(bs.pos) + 12, 9)
    ensures ok ==> gain == F(s, old(bs.pos) + 21, 8) && compress == F(s, old(bs.pos) + 29, mode.CompressBits())
  {
    ok, gain, compress := false, 0, 0;
    part23 := bs.GetBits(12);
    big := bs.GetBits(9);
    if big <= MAX_BIG_VALUES {
      gain := bs.GetBits(8);
      compress := bs.GetBits(if mode.mpeg1 then 4 else 9);
      ok := true;
    }
  }

  /** One turn of the granule loop; None is the -1 return. */
  method ReadGranule(bs: Reader, mode: Mode, scfsi: Word, ghost s: Source)
    returns (gr: Option<Granule>, scfsi': Word)
    requires bs.Valid() && s == Source(bs.bits, bs.limit)
    modifies bs`pos
    ensures gr.Some? <==> GranuleOk(s, mode, old(bs.pos))
    ensures gr.Some? ==> bs.pos == old(bs.pos) + mode.GranuleBits()
    ensures var word := ScfsiWord(scfsi, mode.mono, IsShort(s, mode, old(bs.pos)));
      gr.Some? ==> scfsi' == word.Up() && gr.value == GranuleAt(s, mode, old(bs.pos), word.d3)
  {
    gr := None;
    scfsi' := if mode.mono then scfsi.Up() else scfsi;
    var headOk, part23, big, gain, compress := ReadHead(bs, mode, s);
    if !headOk { return; }
    var window, ok := ReadWindow(bs, s);
    if !ok { return; }
    if window.blockType == SHORT_BLOCK { scfsi' := scfsi'.Mask(); }
    var preflag, scale, count1 := ReadTail(bs, mode, compress, s);
    var longSfb, shortSfb := LongSfb(window.bands, mode.mpeg1), ShortSfb(window.bands);
    gr := Some(Granule(part23, big, gain, compress, window, preflag, scale, count1, scfsi'.d3, mode.row,
                       longSfb, shortSfb));
    scfsi' := scfsi'.Up();
  }

  /** The three flags that end a record; preflag is sent only by MPEG-1. */
  method ReadTail(bs: Reader, mode: Mode, compress: nat, ghost s: Source)
    returns (preflag: bool, scale: nat, count1: nat)
    requires bs.Valid() && s == Source(bs.bits, bs.limit)
    modifies bs`pos
    ensures bs.pos == old(bs.pos) + (if mode.mpeg1 then 3 else 2)
    ensures preflag == if mode.mpeg1 then F(s, old(bs.pos), 1) != 0 else compress >= 500
    ensures scale == F(s, old(bs.pos) + (if mode.mpeg1 then 1 else 0), 1)
    ensures count1 == F(s, old(bs.pos) + (if mode.mpeg1 then 2 else 1), 1)
  {
    if mode.mpeg1 {
      var p := bs.GetBits(1);
      preflag := p != 0;
    } else {
      preflag := compress >= 500;
    }
    scale := bs.GetBits(1);
    count1 := bs.GetBits(1);
  }

  /** main_data_begin and the scfsi word: the fields before the first record. */
  method ReadPrefix(bs: Reader, mode: Mode, ghost s: Source)
    returns (grCount: nat, mainDataBegin: nat, scfsi: Word)
    requires bs.Valid() && s == Source(bs.bits, bs.limit)
    modifies bs`pos
    ensures bs.pos == old(bs.pos) + mode.PrefixBits() && grCount == mode.Count()
    ensures mainDataBegin == MainDataBegin(s, mode, old(bs.pos))
    ensures scfsi == ToWord(SelectionField(s, mode, old(bs.pos)))
  {
    grCount := if mode.mono then 1 else 2;
    if mode.mpeg1 {
      grCount := grCount * 2;
      mainDataBegin := bs.GetBits(9);
      var selection := bs.GetBits(7 + grCount);
      scfsi := ToWord(selection);
    } else {
      scfsi := ToWord(0);
      mainDataBegin := bs.GetBits(8 + grCount);
      mainDataBegin := if grCount == 1 then mainDataBegin / 2 else mainDataBegin / 4;
    }
  }

  lemma Extend(s: Source, mode: Mode, start: nat, k: nat, grs: seq<Granule>, gr: Granule, sum: nat,
               scfsi: Word, scfsi': Word)
    requires AllOk(s, mode, start, k) && GranuleOk(s, mode, BaseOf(mode, start, k))
    requires scfsi == ScfsiBefore(s, mode, start, k)
    requires var word := ScfsiWord(scfsi, mode.mono, IsShort(s, mode, BaseOf(mode, start, k)));
      scfsi' == word.Up() && gr == GranuleAt(s, mode, BaseOf(mode, start, k), word.d3)
    requires grs == Granules(s, mode, start, k)
    requires sum == PartSum(s, mode, start, k)
    ensures AllOk(s, mode, start, k + 1)
    ensures grs + [gr] == Granules(s, mode, start, k + 1)
    ensures sum + gr.part23Length == PartSum(s, mode, start, k + 1)
    ensures scfsi' == ScfsiBefore(s, mode, start, k + 1)
  {
  }

  /** The body of the granule loop, for record k. */
  method ReadNext(bs: Reader, mode: Mode, grs: seq<Granule>, partSum: nat, scfsi: Word,
                  ghost s: Source, ghost start: nat, ghost k: nat)
    returns (ok: bool, grs': seq<Granule>, partSum': nat, scfsi': Word)
    requires bs.Valid() && s == Source(bs.bits, bs.limit)
    requires bs.pos == BaseOf(mode, start, k) && AllOk(s, mode, start, k)
    requires grs == Granules(s, mode, start, k) && partSum == PartSum(s, mode, start, k)
    requires scfsi == ScfsiBefore(s, mode, start, k)
    modifies bs`pos
    ensures ok == AllOk(s, mode, start, k + 1)
    ensures ok ==>
      && bs.pos == BaseOf(mode, start, k + 1)
      && grs' == Granules(s, mode, start, k + 1) && partSum' == PartSum(s, mode, start, k + 1)
      && scfsi' == ScfsiBefore(s, mode, start, k + 1)
  {
    ok, grs', partSum' := false, grs, partSum;
    var gr;
    gr, scfsi' := ReadGranule(bs, mode, scfsi, s);
    if gr.Some? {
      Extend(s, mode, start, k, grs, gr.value, partSum, scfsi, scfsi');
      ok, grs', partSum' := true, grs + [gr.value], partSum + gr.value.part23Length;
    }
  }

  /** The granule loop. */
  method ReadRecords(bs: Reader, mode: Mode, scfsi0: Word, ghost s: Source, ghost start: nat)
    returns (ok: bool, grs: seq<Granule>, partSum: nat)
    requires bs.Valid() && s == Source(bs.bits, bs.limit)
    requires bs.pos == BaseOf(mode, start, 0) && scfsi0 == ScfsiBefore(s, mode, start, 0)
    modifies bs`pos
    ensures ok == AllOk(s, mode, start, mode.Count())
    ensures ok ==> bs.pos == BaseOf(mode, start, mode.Count())
    ensures ok ==> grs == Granules(s, mode, start, mode.Count())
    ensures ok ==> partSum == PartSum(s, mode, start, mode.Count())
  {
    var scfsi, k := scfsi0, 0;
    ok, grs, partSum := true, [], 0;
    while k < mode.Count()
      invariant bs.Valid() && s == Source(bs.bits, bs.limit) && k <= mode.Count()
      invariant ok && bs.pos == BaseOf(mode, start, k)
      invariant AllOk(s, mode, start, k)
      invariant grs == Granules(s, mode, start, k)
      invariant partSum == PartSum(s, mode, start, k)
      invariant scfsi == ScfsiBefore(s, mode, start, k)
    {
      ok, grs, partSum, scfsi := ReadNext(bs, mode, grs, partSum, scfsi, s, start, k);
      k := k + 1;
      if !ok {
        NotAllOk(s, mode, start, k, mode.Count());
        return;
      }
    }
  }

  /** drmp3_L3_read_side_info: None is the -1 return. */
  method Read(bs: Reader, mode: Mode) returns (r: Option<(nat, seq<Granule>)>)
    requires bs.Valid()
    modifies bs`pos
    ensures var s := Source(bs.bits, bs.limit); r.Some? <==> Accepted(s, mode, old(bs.pos))
    ensures var s := Source(bs.bits, bs.limit); r.Some? ==>
      && bs.pos == old(bs.pos) + mode.TotalBits()
      && r.value.0 == MainDataBegin(s, mode, old(bs.pos))
      && r.value.1 == Granules(s, mode, old(bs.pos), mode.Count())
  {
    ghost var s, start := Source(bs.bits, bs.limit), bs.pos;
    var grCount, mainDataBegin, scfsi := ReadPrefix(bs, mode, s);
    var ok, grs, partSum := ReadRecords(bs, mode, scfsi, s, start);
    if !ok { return None; }
    if partSum + bs.pos > bs.limit + mainDataBegin * 8 { return None; }
    r := Some((mainDataBegin, grs));
  }
}
