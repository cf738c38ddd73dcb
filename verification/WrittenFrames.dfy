/**
 Layer III frames as a writer emits them, parsed by the frame decoder (include/dr_mp3.h,
 `drmp3dec_decode_frame`), whatever bytes come behind them.
 */
module WrittenFrames {
  import opened BitString
  import opened BitReader
  import opened SideInfo
  import opened SideInfoSyntax
  import opened Header
  import opened FrameDecoder

  /** The coded bits of all records. */
  function PartBits(records: seq<Record>): nat {
    if records == [] then 0 else PartBits(records[..|records| - 1]) + records[|records| - 1].part23
  }

  /** A frame behind its header: the checksum if there is one, side information, payload. */
  datatype Written = Written(checksum: seq<Byte>, mode: Mode, side: Side, payload: seq<Byte>)
  {
    ghost predicate Ok() {
      WellFormed(mode, side) && AllFit(SideElements(mode, side))
    }

    function Bytes(): seq<Byte>
      requires WellFormed(mode, side)
    {
      checksum + (Pack(Encode(SideElements(mode, side))) + payload)
    }

    /** Where the side information starts. */
    function Start(): nat { 8 * |checksum| }
  }

  /** What a frame is parsed from when `more` comes behind it. */
  function SourceOf(w: Written, more: seq<Byte>): Source
    requires WellFormed(w.mode, w.side)
  {
    Source(BitsOf(w.Bytes() + more), 8 * |w.Bytes()|)
  }

  lemma WrittenBegins(w: Written, more: seq<Byte>)
    requires WellFormed(w.mode, w.side)
    ensures |w.Bytes()| == |w.checksum| + w.mode.SideBytes() + |w.payload|
    ensures BeginsWith(BitsOf(w.Bytes() + more), BitsOf(w.checksum) + Encode(SideElements(w.mode, w.side)) + [])
  {
    var d := Encode(SideElements(w.mode, w.side));
    SideWidth(w.mode, w.side);
    PackedBegins(w.checksum, d, w.payload + more);
    assert w.Bytes() + more == w.checksum + (Pack(d) + (w.payload + more));
    assert BitsOf(w.checksum) + d + [] == BitsOf(w.checksum) + d;
  }

  /** Record k of a frame is read as what was written. */
  lemma WrittenRecord(w: Written, more: seq<Byte>, start: nat, k: nat)
    requires w.Ok() && start == w.Start() && k < w.mode.Count()
    ensures var s := SourceOf(w, more);
      && MainDataBegin(s, w.mode, start) == w.side.mainDataBegin
      && (GranuleOk(s, w.mode, BaseOf(w.mode, start, k)) <==> Writable(w.side.records[k]))
      && GranuleK(s, w.mode, start, k) == Meaning(w.mode, w.side.records[k], Scfsi(s, w.mode, start, k))
  {
    WrittenBegins(w, more);
    RoundTrip(SourceOf(w, more), w.mode, w.side, BitsOf(w.checksum), [], k);
  }

  lemma RecordSum(s: Source, mode: Mode, records: seq<Record>, start: nat, k: nat, n: nat, scfsi: nat)
    requires k < |records| && n == k + 1
    requires GranuleAt(s, mode, BaseOf(mode, start, k), scfsi) == Meaning(mode, records[k], scfsi)
    requires PartSum(s, mode, start, k) == PartBits(records[..k])
    ensures PartSum(s, mode, start, n) == PartBits(records[..n])
  {
    assert records[..n][..k] == records[..k];
    assert F(s, BaseOf(mode, start, k), 12) == records[k].part23;
  }

  /** The first n records and their coded bits. */
  lemma {:induction false} WrittenRecords(w: Written, more: seq<Byte>, start: nat, n: nat)
    requires w.Ok() && start == w.Start() && n <= w.mode.Count()
    ensures var s := SourceOf(w, more);
      && (AllOk(s, w.mode, start, n) <==> AllWritable(w.side.records[..n]))
      && PartSum(s, w.mode, start, n) == PartBits(w.side.records[..n])
  {
    hide SourceOf, GranuleOk, Writable;
    if n > 0 {
      var k, s := n - 1, SourceOf(w, more);
      assert w.side.records[..n] == w.side.records[..k] + [w.side.records[k]];
      WrittenRecords(w, more, start, k);
      WrittenRecord(w, more, start, k);
      RecordSum(s, w.mode, w.side.records, start, k, n, Scfsi(s, w.mode, start, k));
    }
  }

  lemma WrittenAccepted(w: Written, more: seq<Byte>, start: nat, n: nat)
    requires w.Ok() && start == w.Start() && n == w.mode.Count()
    ensures var s := SourceOf(w, more);
      && (AllOk(s, w.mode, start, n) <==> AllWritable(w.side.records))
      && PartSum(s, w.mode, start, n) == PartBits(w.side.records)
      && MainDataBegin(s, w.mode, start) == w.side.mainDataBegin
  {
    WrittenRecord(w, more, start, 0);
    WrittenRecords(w, more, start, n);
    assert w.side.records[..n] == w.side.records;
  }

  lemma Eighth(end: nat, bits: nat)
    requires bits == 8 * end
    ensures bits / 8 == end
  {
  }

  /** The parse of a frame that has room for its side information. */
  lemma ParseAtIs(s: Source, mode: Mode, start: nat, data: seq<Byte>, bytes: nat, end: nat, begin: nat, sum: nat,
                  payload: seq<Byte>, n: nat, total: nat)
    requires n == mode.Count() && total == mode.TotalBits()
    requires PartSum(s, mode, start, n) == sum
    requires MainDataBegin(s, mode, start) == begin && s.limit == 8 * bytes
    requires 8 * end == start + total && end <= bytes <= |data| && payload == data[end..bytes]
    ensures ParseAt(s, mode, start, data, bytes) ==
      if AllOk(s, mode, start, n) && sum <= 8 * (|payload| + begin) then
        Some(Parsed(begin, Granules(s, mode, start, n), sum, payload))
      else None
  {
    Eighth(end, start + total);
    assert Accepted(s, mode, start) <==> AllOk(s, mode, start, n) && sum + start + total <= 8 * bytes + 8 * begin;
  }

  lemma WrittenPayload(w: Written, more: seq<Byte>)
    requires WellFormed(w.mode, w.side)
    ensures var end, bytes := |w.checksum| + w.mode.SideBytes(), |w.Bytes()|;
      end <= bytes && (w.Bytes() + more)[end..bytes] == w.payload
  {
    SideWidth(w.mode, w.side);
  }

  /** The parse of a written frame: it fails exactly if there is a record that no writer may
      emit or the coded bits do not fit in the main data, and otherwise gives back what was
      written, up to the scfsi nibbles. */
  lemma ParseOfWritten(hdr: Hdr, w: Written, more: seq<Byte>, start: nat, n: nat)
    requires w.Ok() && w.mode == ModeOf(hdr) && n == w.mode.Count()
    requires start == w.Start() && |w.checksum| == if hdr.HasCrc() then 2 else 0
    ensures var sum := PartBits(w.side.records);
      Parse(hdr, w.Bytes() + more, |w.Bytes()|) ==
      if AllWritable(w.side.records) && sum <= 8 * (|w.payload| + w.side.mainDataBegin) then
        Some(Parsed(w.side.mainDataBegin, Granules(SourceOf(w, more), w.mode, start, n), sum, w.payload))
      else None
  {
    var data, bytes := w.Bytes() + more, |w.Bytes()|;
    var end := |w.checksum| + w.mode.SideBytes();
    WrittenAccepted(w, more, start, n);
    WrittenPayload(w, more);
    ParseAtIs(SourceOf(w, more), w.mode, start, data, bytes, end, w.side.mainDataBegin, PartBits(w.side.records),
              w.payload, n, w.mode.TotalBits());
  }

  // ----- private bits -----

  predicate ShortBlock(r: Record) { r.window.WindowSwitching? && r.window.blockType == 2 }

  lemma WrittenPrefix(w: Written, more: seq<Byte>, start: nat)
    requires w.Ok() && start == w.Start()
    ensures var s := SourceOf(w, more);
      && start + w.mode.PrefixBits() <= s.limit && Carries(s, start, PrefixElements(w.mode, w.side))
  {
    WrittenBegins(w, more);
    SideParts(SourceOf(w, more), w.mode, w.side, BitsOf(w.checksum), []);
  }

  lemma WrittenShort(w: Written, more: seq<Byte>, start: nat, k: nat)
    requires w.Ok() && start == w.Start() && k < w.mode.Count()
    ensures ShortAt(SourceOf(w, more), w.mode, BaseOf(w.mode, start, k)) <==> ShortBlock(w.side.records[k])
  {
    hide SourceOf, ShortAt, GranuleOk;
    WrittenRecord(w, more, start, k);
    ShortIs(SourceOf(w, more), w.mode, BaseOf(w.mode, start, k));
  }

  /** In a written MPEG-1 stereo frame the first granule of the second channel is handed the
      private bits as its scfsi, unless it is a short block. */
  lemma WrittenScfsi(w: Written, more: seq<Byte>, start: nat)
    requires w.Ok() && w.mode.mpeg1 && !w.mode.mono && start == w.Start()
    ensures Scfsi(SourceOf(w, more), w.mode, start, 1) == if ShortBlock(w.side.records[1]) then 0
      else w.side.privateBits
  {
    hide SourceOf, ShortAt, Carries, Scfsi;
    var s := SourceOf(w, more);
    WrittenShort(w, more, start, 1);
    WrittenPrefix(w, more, start);
    ReadsPrefix(s, w.mode, w.side, start);
    ScfsiOfStereo(s, w.mode, start);
  }

  /** In a mono frame the first granule is handed the top private bit. */
  lemma WrittenScfsiOfMono(w: Written, more: seq<Byte>, start: nat)
    requires w.Ok() && w.mode.mpeg1 && w.mode.mono && start == w.Start()
    ensures Scfsi(SourceOf(w, more), w.mode, start, 0) == if ShortBlock(w.side.records[0]) then 0
      else w.side.privateBits / 16
  {
    hide SourceOf, ShortAt, Carries, Scfsi;
    var s := SourceOf(w, more);
    WrittenShort(w, more, start, 0);
    WrittenPrefix(w, more, start);
    ReadsPrefix(s, w.mode, w.side, start);
    ScfsiOfMono(s, w.mode, start);
  }

  lemma {:induction false} GranuleAtIndex(s: Source, mode: Mode, start: nat, n: nat, k: nat)
    requires k < n
    ensures Granules(s, mode, start, n)[k] == GranuleK(s, mode, start, k)
  {
    hide GranuleK;
    if k < n - 1 { GranuleAtIndex(s, mode, start, n - 1, k); }
  }

  /** So it comes out of the parse: every written MPEG-1 stereo frame whose coded bits fit, with
      or without checksum, is accepted with the private bits as scfsi of its second record,
      unless that is a short block. */
  lemma ParsedScfsi(hdr: Hdr, w: Written, more: seq<Byte>, start: nat)
    requires w.Ok() && w.mode == ModeOf(hdr)
    requires start == w.Start() && |w.checksum| == if hdr.HasCrc() then 2 else 0
    requires w.mode.mpeg1 && !w.mode.mono
    ensures var p := Parse(hdr, w.Bytes() + more, |w.Bytes()|);
      && (p.Some? <==>
            AllWritable(w.side.records) && PartBits(w.side.records) <= 8 * (|w.payload| + w.side.mainDataBegin))
      && (p.Some? ==> |p.value.granules| == 4
                      && p.value.granules[1].scfsi == if ShortBlock(w.side.records[1]) then 0 else w.side.privateBits)
  {
    ParseOfWritten(hdr, w, more, start, 4);
    WrittenScfsi(w, more, start);
    GranuleAtIndex(SourceOf(w, more), w.mode, start, 4, 1);
  }

  /** And of a mono frame the first record with the top private bit. */
  lemma ParsedScfsiOfMono(hdr: Hdr, w: Written, more: seq<Byte>, start: nat)
    requires w.Ok() && w.mode == ModeOf(hdr)
    requires start == w.Start() && |w.checksum| == if hdr.HasCrc() then 2 else 0
    requires w.mode.mpeg1 && w.mode.mono
    ensures var p := Parse(hdr, w.Bytes() + more, |w.Bytes()|);
      && (p.Some? <==>
            AllWritable(w.side.records) && PartBits(w.side.records) <= 8 * (|w.payload| + w.side.mainDataBegin))
      && (p.Some? ==> |p.value.granules| == 2
                      && p.value.granules[0].scfsi ==
                         if ShortBlock(w.side.records[0]) then 0 else w.side.privateBits / 16)
  {
    ParseOfWritten(hdr, w, more, start, 2);
    WrittenScfsiOfMono(w, more, start);
    GranuleAtIndex(SourceOf(w, more), w.mode, start, 2, 0);
  }
}
