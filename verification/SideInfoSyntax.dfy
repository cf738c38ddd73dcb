/**
 The side information as a bit-stream writer emits it, element by element in the
 order of the syntax of ISO/IEC 11172-3, section 2.4.1.7, and the proof that the
 decoder's parser recovers what was written.
 */
module SideInfoSyntax {
  import opened BitString
  import opened BitReader
  import opened SideInfo

  // ----- the syntax of a record -----

  datatype WindowSyntax =
    | Plain(tables: nat, region0: nat, region1: nat)
    | WindowSwitching(blockType: nat, mixed: bool, tables: nat, gain0: nat, gain1: nat, gain2: nat)

  datatype Record = Record(part23: nat, big: nat, gain: nat, compress: nat,
                           window: WindowSyntax, preflag: bool, scale: nat, count1: nat)

  function Flag(b: bool): nat { if b then 1 else 0 }

  function HeadElements(mode: Mode, r: Record): Elements {
    Put(r.part23, 12, Put(r.big, 9, Put(r.gain, 8, Put(r.compress, mode.CompressBits(), End))))
  }

  function WindowElements(w: WindowSyntax): Elements {
    match w
    case Plain(tables, region0, region1) =>
      Put(0, 1, Put(tables, 15, Put(region0, 4, Put(region1, 3, End))))
    case WindowSwitching(blockType, mixed, tables, gain0, gain1, gain2) =>
      Put(1, 1, Put(blockType, 2, Put(Flag(mixed), 1, Put(tables, 10,
        Put(gain0, 3, Put(gain1, 3, Put(gain2, 3, End)))))))
  }

  function TailElements(mode: Mode, r: Record): Elements {
    var flags := Put(r.scale, 1, Put(r.count1, 1, End));
    if mode.mpeg1 then Put(Flag(r.preflag), 1, flags) else flags
  }

  function RecordElements(mode: Mode, r: Record): Elements {
    Append(HeadElements(mode, r), Append(WindowElements(r.window), TailElements(mode, r)))
  }

  /** The semantics of section 2.4.2.7 for the record's window part. */
  function WindowMeaning(w: WindowSyntax): Window {
    match w
    case Plain(tables, region0, region1) =>
      Window(0, false, LongBands, tables, region0, region1, Some(255), None)
    case WindowSwitching(blockType, mixed, tables, gain0, gain1, gain2) =>
      var isShort := blockType == 2;
      Window(blockType, mixed,
             if isShort && mixed then MixedBands else if isShort then ShortBands else LongBands,
             32 * tables, if isShort && !mixed then 8 else 7, 255, None, Some((gain0, gain1, gain2)))
  }

  /** And for its bands: the long ones and the short ones. */
  function BandCounts(mode: Mode, w: WindowSyntax): (nat, nat) {
    if w.Plain? || w.blockType != 2 then (22, 0)
    else if !w.mixed then (0, 39)
    else (if mode.mpeg1 then 8 else 6, 30)
  }

  function Meaning(mode: Mode, r: Record, scfsi: nat): Granule {
    var (long, short) := BandCounts(mode, r.window);
    Granule(r.part23, r.big, r.gain, r.compress, WindowMeaning(r.window),
            if mode.mpeg1 then r.preflag else r.compress >= 500, r.scale, r.count1, scfsi, mode.row, long, short)
  }

  /** A writer emits no reserved block type and no more than 576 big values. */
  predicate Writable(r: Record) {
    && r.big <= 288
    && (r.window.WindowSwitching? ==> r.window.blockType != 0)
  }

  lemma ReadsHead(s: Source, mode: Mode, r: Record, b: nat)
    requires Carries(s, b, HeadElements(mode, r))
    ensures F(s, b, 12) == r.part23 && F(s, b + 12, 9) == r.big && F(s, b + 21, 8) == r.gain
    ensures F(s, b + 29, mode.CompressBits()) == r.compress
  {
    var e1 := Put(r.gain, 8, Put(r.compress, mode.CompressBits(), End));
    assert Carries(s, b + 12, Put(r.big, 9, e1));
    assert Carries(s, b + 21, e1);
    assert Carries(s, b + 29, Put(r.compress, mode.CompressBits(), End));
  }

  lemma ReadsWindow(s: Source, w: WindowSyntax, c: nat)
    requires Carries(s, c, WindowElements(w))
    ensures WindowAt(s, c) == WindowMeaning(w)
    ensures Switched(s, c) == w.WindowSwitching?
  {
    match w
    case Plain(tables, region0, region1) =>
      var e := Put(region0, 4, Put(region1, 3, End));
      assert Carries(s, c + 1, Put(tables, 15, e));
      assert Carries(s, c + 16, e);
      assert Carries(s, c + 20, Put(region1, 3, End));
    case WindowSwitching(blockType, mixed, tables, gain0, gain1, gain2) =>
      var e := Put(gain0, 3, Put(gain1, 3, Put(gain2, 3, End)));
      assert Carries(s, c + 1, Put(blockType, 2, Put(Flag(mixed), 1, Put(tables, 10, e))));
      assert Carries(s, c + 3, Put(Flag(mixed), 1, Put(tables, 10, e)));
      assert Carries(s, c + 4, Put(tables, 10, e));
      assert Carries(s, c + 14, e);
      assert Carries(s, c + 17, Put(gain1, 3, Put(gain2, 3, End)));
      assert Carries(s, c + 20, Put(gain2, 3, End));
  }

  lemma ReadsTail(s: Source, mode: Mode, r: Record, t: nat)
    requires Carries(s, t, TailElements(mode, r))
    ensures mode.mpeg1 ==> F(s, t, 1) == Flag(r.preflag)
    ensures F(s, t + (if mode.mpeg1 then 1 else 0), 1) == r.scale
    ensures F(s, t + (if mode.mpeg1 then 2 else 1), 1) == r.count1
  {
    var u := if mode.mpeg1 then t + 1 else t;
    assert Carries(s, u, Put(r.scale, 1, Put(r.count1, 1, End)));
    assert Carries(s, u + 1, Put(r.count1, 1, End));
  }

  lemma WindowWidth(w: WindowSyntax)
    ensures Width(WindowElements(w)) == 23
  {
    match w
    case Plain(tables, region0, region1) =>
      assert Width(Put(region1, 3, End)) == 3;
      assert Width(Put(tables, 15, Put(region0, 4, Put(region1, 3, End)))) == 22;
    case WindowSwitching(blockType, mixed, tables, gain0, gain1, gain2) =>
      assert Width(Put(gain2, 3, End)) == 3;
      assert Width(Put(gain0, 3, Put(gain1, 3, Put(gain2, 3, End)))) == 9;
      assert Width(Put(Flag(mixed), 1, Put(tables, 10, Put(gain0, 3, Put(gain1, 3, Put(gain2, 3, End)))))) == 20;
  }

  lemma HeadWidth(mode: Mode, r: Record)
    ensures Width(HeadElements(mode, r)) == 29 + mode.CompressBits()
  {
    assert Width(Put(r.compress, mode.CompressBits(), End)) == mode.CompressBits();
    assert Width(Put(r.gain, 8, Put(r.compress, mode.CompressBits(), End))) == 8 + mode.CompressBits();
  }

  lemma TailWidth(mode: Mode, r: Record)
    ensures Width(TailElements(mode, r)) == if mode.mpeg1 then 3 else 2
  {
    assert Width(Put(r.count1, 1, End)) == 1;
    assert Width(Put(r.scale, 1, Put(r.count1, 1, End))) == 2;
  }

  lemma {:induction false} WidthAppend(a: Elements, b: Elements)
    ensures Width(Append(a, b)) == Width(a) + Width(b)
  {
    if a.Put? { WidthAppend(a.rest, b); }
  }

  lemma RecordParts(s: Source, mode: Mode, r: Record, b: nat)
    requires Carries(s, b, RecordElements(mode, r))
    ensures Carries(s, b, HeadElements(mode, r))
    ensures Carries(s, WindowPos(mode, b), WindowElements(r.window))
    ensures Carries(s, WindowPos(mode, b) + 23, TailElements(mode, r))
  {
    HeadWidth(mode, r);
    WindowWidth(r.window);
    CarriesAppend(s, b, HeadElements(mode, r), Append(WindowElements(r.window), TailElements(mode, r)));
    CarriesAppend(s, WindowPos(mode, b), WindowElements(r.window), TailElements(mode, r));
  }

  /** A written record is accepted exactly if a writer may emit it, and read as what it means. */
  lemma ReadsRecord(s: Source, mode: Mode, r: Record, b: nat, scfsi: nat)
    requires Carries(s, b, RecordElements(mode, r))
    ensures GranuleOk(s, mode, b) <==> Writable(r)
    ensures GranuleAt(s, mode, b, scfsi) == Meaning(mode, r, scfsi)
  {
    var c := WindowPos(mode, b);
    RecordParts(s, mode, r, b);
    ReadsHead(s, mode, r, b);
    ReadsWindow(s, r.window, c);
    ReadsTail(s, mode, r, c + 23);
  }

  lemma RecordWidth(mode: Mode, r: Record)
    ensures Width(RecordElements(mode, r)) == mode.GranuleBits()
  {
    HeadWidth(mode, r);
    WindowWidth(r.window);
    TailWidth(mode, r);
    WidthAppend(WindowElements(r.window), TailElements(mode, r));
    WidthAppend(HeadElements(mode, r), Append(WindowElements(r.window), TailElements(mode, r)));
  }

  // ----- the whole side information -----

  /** main_data_begin, the private bits, one scfsi digit per channel (MPEG-1), the records. */
  datatype Side = Side(mainDataBegin: nat, privateBits: nat, scfsi: seq<nat>, records: seq<Record>)

  function PrefixElements(mode: Mode, side: Side): Elements
    requires mode.mpeg1 ==> |side.scfsi| == if mode.mono then 1 else 2
  {
    if mode.mpeg1 then
      Put(side.mainDataBegin, 9,
        if mode.mono then Put(side.privateBits, 5, Put(side.scfsi[0], 4, End))
        else Put(side.privateBits, 3, Put(side.scfsi[0], 4, Put(side.scfsi[1], 4, End))))
    else
      Put(side.mainDataBegin, 8, Put(side.privateBits, if mode.mono then 1 else 2, End))
  }

  function RecordsElements(mode: Mode, rs: seq<Record>): Elements {
    if rs == [] then End else Append(RecordElements(mode, rs[0]), RecordsElements(mode, rs[1..]))
  }

  predicate WellFormed(mode: Mode, side: Side) {
    && (mode.mpeg1 ==> |side.scfsi| == if mode.mono then 1 else 2)
    && |side.records| == mode.Count()
  }

  predicate AllWritable(records: seq<Record>) {
    forall k :: 0 <= k < |records| ==> Writable(records[k])
  }

  function SideElements(mode: Mode, side: Side): Elements
    requires WellFormed(mode, side)
  {
    Append(PrefixElements(mode, side), RecordsElements(mode, side.records))
  }

  lemma PrefixWidth(mode: Mode, side: Side)
    requires WellFormed(mode, side)
    ensures Width(PrefixElements(mode, side)) == mode.PrefixBits()
  {
    if mode.mpeg1 {
      if !mode.mono {
        assert Width(Put(side.scfsi[1], 4, End)) == 4;
        assert Width(Put(side.scfsi[0], 4, Put(side.scfsi[1], 4, End))) == 8;
      } else {
        assert Width(Put(side.scfsi[0], 4, End)) == 4;
      }
    } else {
      assert Width(Put(side.privateBits, if mode.mono then 1 else 2, End)) == if mode.mono then 1 else 2;
    }
  }

  lemma {:induction false} ReadsRecords(s: Source, mode: Mode, rs: seq<Record>, b: nat, k: nat, scfsi: nat)
    requires Carries(s, b, RecordsElements(mode, rs)) && k < |rs|
    ensures var pos := b + (if mode.mpeg1 then 59 * k else 63 * k);
      (GranuleOk(s, mode, pos) <==> Writable(rs[k])) && GranuleAt(s, mode, pos, scfsi) == Meaning(mode, rs[k], scfsi)
    decreases k
  {
    hide GranuleOk, GranuleAt, Meaning, Carries, RecordElements, Writable;
    CarriesAppend(s, b, RecordElements(mode, rs[0]), RecordsElements(mode, rs[1..]));
    RecordWidth(mode, rs[0]);
    if k == 0 {
      ReadsRecord(s, mode, rs[0], b, scfsi);
    } else {
      ReadsRecords(s, mode, rs[1..], b + mode.GranuleBits(), k - 1, scfsi);
    }
  }

  /** Adjacent reads make up one wider read. */
  lemma JoinFields(s: Source, pos: nat, a: nat, b: nat)
    requires pos + a + b <= s.limit
    ensures F(s, pos, a + b) == Shift(F(s, pos, a), b) + F(s, pos + a, b)
    ensures F(s, pos + a, b) < Pow2(b)
  {
    ValueSplit(s.bits, pos, pos + a, pos + a + b);
    ValueBound(s.bits, pos + a, pos + a + b);
  }

  /** The parser reads the private bits together with main_data_begin or scfsi; both come out right. */
  lemma ReadsPrefix(s: Source, mode: Mode, side: Side, b: nat)
    requires WellFormed(mode, side) && Carries(s, b, PrefixElements(mode, side))
    requires b + mode.PrefixBits() <= s.limit
    ensures MainDataBegin(s, mode, b) == side.mainDataBegin
    ensures mode.mpeg1 && mode.mono ==>
      F(s, b + 9, 5) == side.privateBits && F(s, b + 14, 4) == side.scfsi[0]
    ensures mode.mpeg1 && !mode.mono ==>
      F(s, b + 9, 3) == side.privateBits && F(s, b + 12, 4) == side.scfsi[0] && F(s, b + 16, 4) == side.scfsi[1]
  {
    if mode.mpeg1 {
      if mode.mono {
        var e := Put(side.scfsi[0], 4, End);
        assert Carries(s, b + 9, Put(side.privateBits, 5, e));
        assert Carries(s, b + 14, e);
      } else {
        var e := Put(side.scfsi[1], 4, End);
        assert Carries(s, b + 9, Put(side.privateBits, 3, Put(side.scfsi[0], 4, e)));
        assert Carries(s, b + 12, Put(side.scfsi[0], 4, e));
        assert Carries(s, b + 16, e);
      }
    } else {
      LeadingEight(s, b, if mode.mono then 1 else 2);
    }
  }

  lemma LeadingEight(s: Source, b: nat, p: nat)
    requires 1 <= p <= 2 && b + 8 + p <= s.limit
    ensures F(s, b, 8) == if p == 1 then F(s, b, 9) / 2 else F(s, b, 10) / 4
  {
    JoinFields(s, b, 8, p);
    var x := F(s, b, 8);
    assert Shift(x, 1) == 2 * x && Pow2(1) == 2;
    assert Shift(x, 2) == 2 * Shift(x, 1) && Pow2(2) == 4;
  }

  /** Reader after writer, for the whole side information: behind any bits and before
      any bits, with room for it below the limit, everything written is recovered,
      except the scale-factor selection nibbles, which ScfsiOfStereo and ScfsiOfMono
      describe. */
  lemma RoundTrip(s: Source, mode: Mode, side: Side, before: seq<BitValue>, after: seq<BitValue>, k: nat)
    requires WellFormed(mode, side) && AllFit(SideElements(mode, side)) && k < mode.Count()
    requires BeginsWith(s.bits, before + Encode(SideElements(mode, side)) + after)
    requires |before| + mode.TotalBits() <= s.limit
    ensures MainDataBegin(s, mode, |before|) == side.mainDataBegin
    ensures GranuleOk(s, mode, BaseOf(mode, |before|, k)) <==> Writable(side.records[k])
    ensures GranuleK(s, mode, |before|, k) == Meaning(mode, side.records[k], Scfsi(s, mode, |before|, k))
  {
    hide GranuleOk, GranuleAt, Meaning, Carries, Scfsi, MainDataBegin, AllFit, Writable;
    var b := |before|;
    SideParts(s, mode, side, before, after);
    ReadsPrefix(s, mode, side, b);
    ReadsRecords(s, mode, side.records, b + mode.PrefixBits(), k, Scfsi(s, mode, b, k));
  }

  lemma SideParts(s: Source, mode: Mode, side: Side, before: seq<BitValue>, after: seq<BitValue>)
    requires WellFormed(mode, side) && AllFit(SideElements(mode, side))
    requires BeginsWith(s.bits, before + Encode(SideElements(mode, side)) + after)
    requires |before| + mode.TotalBits() <= s.limit
    ensures Carries(s, |before|, PrefixElements(mode, side))
    ensures Carries(s, |before| + mode.PrefixBits(), RecordsElements(mode, side.records))
  {
    SideWidth(mode, side);
    WrittenCarries(s, before, SideElements(mode, side), after);
    CarriesAppend(s, |before|, PrefixElements(mode, side), RecordsElements(mode, side.records));
    PrefixWidth(mode, side);
  }

  lemma {:induction false} RecordsWidth(mode: Mode, rs: seq<Record>)
    ensures Width(RecordsElements(mode, rs)) == if mode.mpeg1 then 59 * |rs| else 63 * |rs|
  {
    if rs != [] {
      RecordWidth(mode, rs[0]);
      RecordsWidth(mode, rs[1..]);
      WidthAppend(RecordElements(mode, rs[0]), RecordsElements(mode, rs[1..]));
    }
  }

  lemma SideWidth(mode: Mode, side: Side)
    requires WellFormed(mode, side)
    ensures Width(SideElements(mode, side)) == mode.TotalBits()
  {
    PrefixWidth(mode, side);
    RecordsWidth(mode, side.records);
    WidthAppend(PrefixElements(mode, side), RecordsElements(mode, side.records));
  }

  // ----- scale-factor selection -----

  /** The digits of the word the parser starts from. */
  lemma SelectionDigits(s: Source, mode: Mode, b: nat)
    requires mode.mpeg1 && b + mode.PrefixBits() <= s.limit
    ensures var w := ToWord(SelectionField(s, mode, b));
      && w.d3 == 0
      && (mode.mono ==> 16 * w.d2 + w.d1 == F(s, b + 9, 5) && w.d0 == F(s, b + 14, 4))
      && (!mode.mono ==> w.d2 == F(s, b + 9, 3) && w.d1 == F(s, b + 12, 4) && w.d0 == F(s, b + 16, 4))
  {
    PowersUpToFive();
    if mode.mono {
      JoinFields(s, b + 9, 5, 4);
      ShiftByFour(F(s, b + 9, 5));
      ValueBound(s.bits, b + 9, b + 14);
      HexDigits(F(s, b + 9, 5) / 16, F(s, b + 9, 5) % 16, F(s, b + 14, 4));
    } else {
      StereoSelection(s, b);
      HexDigits(F(s, b + 9, 3), F(s, b + 12, 4), F(s, b + 16, 4));
    }
  }

  lemma HexDigits(d2: nat, d1: nat, d0: nat)
    requires d2 < 16 && d1 < 16 && d0 < 16
    ensures ToWord(256 * d2 + 16 * d1 + d0) == Word(0, d2, d1, d0)
  {
    Digit(256 * d2 + 16 * d1 + d0, 16, 16 * d2 + d1, d0);
    Digit(16 * d2 + d1, 16, d2, d1);
    Digit(256 * d2 + 16 * d1 + d0, 256, d2, 16 * d1 + d0);
    Digit(256 * d2 + 16 * d1 + d0, 4096, 0, 256 * d2 + 16 * d1 + d0);
  }

  lemma Digit(x: nat, d: nat, q: nat, r: nat)
    requires d == 16 || d == 256 || d == 4096
    requires r < d && x == d * q + r
    ensures x / d == q && x % d == r
  {
  }

  lemma StereoSelection(s: Source, b: nat)
    requires b + 20 <= s.limit
    ensures F(s, b + 9, 3) < 16 && F(s, b + 12, 4) < 16 && F(s, b + 16, 4) < 16
    ensures F(s, b + 9, 11) == 256 * F(s, b + 9, 3) + 16 * F(s, b + 12, 4) + F(s, b + 16, 4)
  {
    JoinFields(s, b + 9, 3, 8);
    JoinFields(s, b + 12, 4, 4);
    ShiftByByte(F(s, b + 9, 3));
    ShiftByFour(F(s, b + 12, 4));
    ValueBound(s.bits, b + 9, b + 12);
    ValueBound(s.bits, b + 12, b + 16);
    PowersUpToFive();
  }

  lemma ShiftByFour(x: nat)
    ensures Shift(x, 4) == 16 * x
  {
    assert Shift(x, 2) == 2 * Shift(x, 1);
    assert Shift(x, 4) == 2 * Shift(x, 3);
  }

  lemma PowersUpToFive()
    ensures Pow2(3) == 8 && Pow2(4) == 16 && Pow2(5) == 32
  {
  }

  /** A record is read with window switching set and block type 2. */
  predicate ShortAt(s: Source, mode: Mode, b: nat) {
    var c := b + if mode.mpeg1 then 33 else 38;
    F(s, c, 1) != 0 && F(s, c + 1, 2) == 2
  }

  lemma ShortIs(s: Source, mode: Mode, b: nat)
    ensures IsShort(s, mode, b) <==> ShortAt(s, mode, b)
  {
  }

  /** Where the selection nibbles of an MPEG-1 stereo frame come from. Granule 0 of the
      second channel is handed the private bits, which are no scale-factor selection at
      all; granule 1 gets its channel's nibble unless one of the channel's two granules
      is a short block. */
  lemma ScfsiOfStereo(s: Source, mode: Mode, start: nat)
    requires mode.mpeg1 && !mode.mono && start + mode.PrefixBits() <= s.limit
    ensures var isShort := (k: nat) => ShortAt(s, mode, start + 20 + 59 * k);
      && Scfsi(s, mode, start, 0) == 0
      && Scfsi(s, mode, start, 1) == (if isShort(1) then 0 else F(s, start + 9, 3))
      && Scfsi(s, mode, start, 2) == (if isShort(0) || isShort(2) then 0 else F(s, start + 12, 4))
      && Scfsi(s, mode, start, 3) == (if isShort(1) || isShort(3) then 0 else F(s, start + 16, 4))
  {
    hide IsShort, ShortAt, SelectionField, ToWord;
    SelectionDigits(s, mode, start);
    ShortIs(s, mode, start + 20);
    ShortIs(s, mode, start + 79);
    ShortIs(s, mode, start + 138);
    ShortIs(s, mode, start + 197);
    var w0 := ScfsiBefore(s, mode, start, 0);
    var w1 := ScfsiBefore(s, mode, start, 1);
    var w2 := ScfsiBefore(s, mode, start, 2);
    var w3 := ScfsiBefore(s, mode, start, 3);
    assert w1 == ScfsiWord(w0, false, ShortAt(s, mode, start + 20)).Up();
    assert w2 == ScfsiWord(w1, false, ShortAt(s, mode, start + 79)).Up();
    assert w3 == ScfsiWord(w2, false, ShortAt(s, mode, start + 138)).Up();
  }

  /** The same for mono: granule 0 is handed the top private bit. */
  lemma ScfsiOfMono(s: Source, mode: Mode, start: nat)
    requires mode.mpeg1 && mode.mono && start + mode.PrefixBits() <= s.limit
    ensures var isShort := (k: nat) => ShortAt(s, mode, start + 18 + 59 * k);
      && Scfsi(s, mode, start, 0) == (if isShort(0) then 0 else F(s, start + 9, 5) / 16)
      && Scfsi(s, mode, start, 1) == (if isShort(0) || isShort(1) then 0 else F(s, start + 14, 4))
  {
    hide IsShort, ShortAt, SelectionField;
    SelectionDigits(s, mode, start);
    ShortIs(s, mode, start + 18);
    ShortIs(s, mode, start + 77);
    var w0 := ScfsiBefore(s, mode, start, 0);
    var w1 := ScfsiBefore(s, mode, start, 1);
  }

  /** The lower sampling frequencies have no selection: every nibble is zero. */
  lemma {:induction false} ScfsiOfLower(s: Source, mode: Mode, start: nat, k: nat)
    requires !mode.mpeg1
    ensures Scfsi(s, mode, start, k) == 0 && ScfsiBefore(s, mode, start, k) == Word(0, 0, 0, 0)
  {
    hide IsShort;
    if k > 0 { ScfsiOfLower(s, mode, start, k - 1); }
  }
}
