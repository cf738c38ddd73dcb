/**
 One call of the frame decoder (include/dr_mp3.h, `drmp3dec_decode_frame`): locate a
 frame, parse its side information, rebuild its main data from the bit reservoir.

 What the synthesis makes of the main data is not part of this model; a Layer III
 frame that can be decoded yields the `Unit` the synthesis is fed with. Of Layers I
 and II only the outcome matters here, and it is a parameter.
 */
module FrameDecoder {
  import opened BitString
  import opened BitReader
  import opened SideInfo
  import opened Header
  import opened SyncSearch
  import opened Reservoir

  // ----- state and outcome -----

  /** The decoder between calls. A first header byte that is not 0xff stands for no header. */
  datatype Dec = Dec(header: Option<Hdr>, free: nat, reserv: seq<Byte>)

  /** Everything the synthesis of a Layer III frame depends on besides its own state. */
  datatype Unit = Unit(hdr: Hdr, granules: seq<Granule>, main: seq<Byte>)

  datatype Outcome = Outcome(dec: Dec, samples: nat, unit: Option<Unit>)

  ghost predicate DecOk(dec: Dec) {
    |dec.reserv| <= MAX_RESERVOIR && dec.free < MAX_FREE_FORMAT
  }

  // ----- the side information of a frame -----

  /** The part of a frame behind its header, parsed. */
  datatype Parsed = Parsed(begin: nat, granules: seq<Granule>, partBits: nat, payload: seq<Byte>)

  /** The coded bits fit in the main data once the reservoir supplies its part. */
  predicate PartsFit(p: Parsed) {
    p.partBits <= 8 * (p.begin + |p.payload|)
  }

  function ModeOf(hdr: Hdr): Mode {
    Mode(hdr.Mpeg1(), hdr.Mono(), hdr.BandRow())
  }

  /** The side information starts behind the checksum, if there is one. */
  function SideStart(hdr: Hdr): nat {
    if hdr.HasCrc() then 16 else 0
  }

  /** `data` starts behind the header; the frame has `bytes` of it (none, when negative). */
  function Parse(hdr: Hdr, data: seq<Byte>, bytes: int): Option<Parsed>
    requires bytes <= |data|
  {
    ParseAt(Source(BitsOf(data), 8 * bytes), ModeOf(hdr), SideStart(hdr), data, bytes)
  }

  function ParseAt(s: Source, mode: Mode, start: nat, data: seq<Byte>, bytes: int): Option<Parsed>
    requires bytes <= |data|
  {
    var end := start + mode.TotalBits();
    if Accepted(s, mode, start) && end <= 8 * bytes then
      Some(Parsed(MainDataBegin(s, mode, start), Granules(s, mode, start, mode.Count()),
                  PartSum(s, mode, start, mode.Count()), data[end / 8..bytes]))
    else None
  }

  lemma ParseFits(hdr: Hdr, data: seq<Byte>, bytes: int)
    requires bytes <= |data|
    ensures Parse(hdr, data, bytes).Some? ==>
      PartsFit(Parse(hdr, data, bytes).value) && |Parse(hdr, data, bytes).value.payload| <= bytes
  {
  }

  /** The nine bits of main_data_begin reach back no further than the reservoir does. */
  lemma BeginFits(hdr: Hdr, data: seq<Byte>, bytes: int)
    requires bytes <= |data|
    ensures Parse(hdr, data, bytes).Some? ==> Parse(hdr, data, bytes).value.begin <= 511
  {
    var s, mode, start := Source(BitsOf(data), 8 * bytes), ModeOf(hdr), SideStart(hdr);
    BeginBound(s, mode, start);
  }

  lemma BeginBound(s: Source, mode: Mode, start: nat)
    ensures MainDataBegin(s, mode, start) <= 511 == MAX_RESERVOIR
  {
    FieldBound(s, start, 9);
    FieldBound(s, start, 10);
    assert Pow2(9) == 512 && Pow2(10) == 1024;
  }

  // ----- the call -----

  /** The frame the previous header announces is where it is expected to be. */
  predicate Reuse(dec: Dec, v: View, n: nat)
    requires |v| == if n < HDR_SIZE then 0 else n - 3
  {
    n > HDR_SIZE && dec.header.Some? && Compare(InfoOf(dec.header.value), v[0]) &&
    var size := SizeOf(v[0], dec.free) + v[0].padding;
    size != 0 && (size == n || (size < |v| && Compare(v[0], v[size])))
  }

  /** Where the call finds its frame. A resync forgets everything the decoder knew. */
  ghost function Locate(dec: Dec, v: View, n: nat): (Dec, nat, nat)
    requires |v| == if n < HDR_SIZE then 0 else n - 3
  {
    if Reuse(dec, v, n) then (dec, 0, SizeOf(v[0], dec.free) + v[0].padding)
    else (Dec(None, Search(v, n).free, []), Search(v, n).i, Search(v, n).size)
  }

  /** A frame as far as the decoder's own state depends on it: its header and what is
      computed from it; of a Layer III frame, the parse. */
  datatype FrameData = FrameData(hdr: Hdr, samples: nat, layer3: bool, parsed: Option<Parsed>)

  predicate FrameOk(f: FrameData) {
    f.parsed.Some? ==> f.layer3 && PartsFit(f.parsed.value)
  }

  /** `data` starts behind the header; `bytes` of it are the frame's. */
  function FrameFrom(hdr: Hdr, data: seq<Byte>, bytes: int): (f: FrameData)
    requires bytes <= |data|
    ensures FrameOk(f)
  {
    ParseFits(hdr, data, bytes);
    FrameData(hdr, FrameSamples(hdr), hdr.LayerBits() == 1,
              if hdr.LayerBits() == 1 then Parse(hdr, data, bytes) else None)
  }

  /** A Layer III frame. `pcm` says whether the caller wants samples: only then are the
      coded bits read, so only then does the reservoir move past them. */
  function Layer3(dec: Dec, f: FrameData, pcm: bool): Outcome
    requires FrameOk(f)
  {
    if f.parsed.None? then Outcome(dec.(header := None), 0, None) else
      var p := f.parsed.value;
      var ok := |dec.reserv| >= p.begin;
      var main := MainData(dec.reserv, p.begin, p.payload);
      Outcome(Dec(Some(f.hdr), dec.free, Leftover(main, if ok && pcm then p.partBits else 0)),
              if ok then f.samples else 0,
              if ok then Some(Unit(f.hdr, p.granules, main)) else None)
  }

  /** A Layer I or II frame, which `ok` says can be decoded. */
  function OtherLayer(dec: Dec, f: FrameData, pcm: bool, ok: bool): Outcome {
    if pcm && !ok then Outcome(dec.(header := None), 0, None)
    else Outcome(dec.(header := Some(f.hdr)), f.samples, None)
  }

  function Body(dec: Dec, f: FrameData, pcm: bool, otherOk: bool): Outcome
    requires FrameOk(f)
  {
    if f.layer3 then Layer3(dec, f, pcm) else OtherLayer(dec, f, pcm, otherOk)
  }

  /** What a call works on: the decoder as located, the bytes consumed, the frame. */
  datatype Site =
    | Nothing(dec: Dec, consumed: nat)
    | Frame(dec: Dec, consumed: nat, frame: FrameData)

  ghost function SiteOf(dec: Dec, mp3: seq<Byte>): (site: Site)
    ensures site.Frame? ==> FrameOk(site.frame)
  {
    LocateInside(dec, mp3);
    var (dec1, i, size) := Locate(dec, ViewOf(mp3), |mp3|);
    if size == 0 then Nothing(dec1, i) else Frame(dec1, i + size, FrameAtOffset(mp3, i, size))
  }

  function FrameAtOffset(mp3: seq<Byte>, i: nat, size: nat): (f: FrameData)
    requires i + HDR_SIZE <= |mp3| && i + size <= |mp3|
    ensures FrameOk(f)
  {
    FrameFrom(HdrAt(mp3, i), mp3[i + HDR_SIZE..], size - HDR_SIZE)
  }

  /** Whether the Layer I or II frame found in an input can be decoded. */
  type Others = seq<Byte> -> bool

  /** The call: how many bytes it consumes, and what comes of it. */
  ghost function Decode(dec: Dec, mp3: seq<Byte>, pcm: bool, otherOk: bool): (nat, Outcome)
  {
    var site := SiteOf(dec, mp3);
    (site.consumed,
     if site.Nothing? then Outcome(site.dec, 0, None) else Body(site.dec, site.frame, pcm, otherOk))
  }

  /** A located frame lies in the input and behind it something is consumed. */
  lemma LocateInside(dec: Dec, mp3: seq<Byte>)
    ensures var (dec1, i, size) := Locate(dec, ViewOf(mp3), |mp3|);
      && i + size <= |mp3| && (|mp3| > 0 ==> i + size > 0)
      && (size > 0 ==> i + HDR_SIZE < |mp3|)
  {
    var v, n := ViewOf(mp3), |mp3|;
    ViewIsOk(mp3);
    if !Reuse(dec, v, n) {
      var fb := SearchFromFound(v, n, 0);
      var loc := Search(v, n);
      if n > 0 { FoundProgress(v, n, loc.i, loc.size, loc.free, fb); }
    }
  }

  /** Every call consumes something, and no more than there is. */
  lemma Progress(dec: Dec, mp3: seq<Byte>, pcm: bool, otherOk: bool)
    ensures Decode(dec, mp3, pcm, otherOk).0 <= |mp3|
    ensures |mp3| > 0 ==> Decode(dec, mp3, pcm, otherOk).0 > 0
  {
    LocateInside(dec, mp3);
  }

  // ----- the decoder object -----

  /** What a side-information parse amounts to. */
  function Assemble(data: seq<Byte>, bytes: int, side: Option<(nat, seq<Granule>)>, pos: nat): Option<Parsed>
    requires bytes <= |data|
  {
    if side.None? || pos > 8 * bytes then None
    else Some(Parsed(side.value.0, side.value.1, SumOf(side.value.1), data[pos / 8..bytes]))
  }

  lemma AssembleIs(data: seq<Byte>, bytes: int, s: Source, mode: Mode, start: nat,
                   side: Option<(nat, seq<Granule>)>, pos: nat)
    requires bytes <= |data|
    requires side.Some? <==> Accepted(s, mode, start)
    requires side.Some? ==> pos == start + mode.TotalBits() && side.value.0 == MainDataBegin(s, mode, start)
    requires side.Some? ==> side.value.1 == Granules(s, mode, start, mode.Count())
    ensures Assemble(data, bytes, side, pos) == ParseAt(s, mode, start, data, bytes)
  {
    SumOfGranules(s, mode, start, mode.Count());
  }

  /** Reader, checksum, side information, payload. */
  method ParseFrame(hdr: Hdr, data: seq<Byte>, bytes: int) returns (p: Option<Parsed>)
    requires bytes <= |data|
    ensures p == Parse(hdr, data, bytes)
  {
    var bs := new Reader(data, bytes);
    ghost var s, mode := Source(bs.bits, bs.limit), ModeOf(hdr);
    if hdr.HasCrc() { var checksum := bs.GetBits(16); }
    ghost var start := bs.pos;
    var side := Read(bs, ModeOf(hdr));
    AssembleIs(data, bytes, s, mode, start, side, bs.pos);
    p := Assemble(data, bytes, side, bs.pos);
  }

  /** The bits the granules' Huffman stages step over, one limit after the other. */
  function SumOf(granules: seq<Granule>): nat {
    if granules == [] then 0 else SumOf(granules[..|granules| - 1]) + granules[|granules| - 1].part23Length
  }

  lemma {:induction false} SumOfGranules(s: Source, mode: Mode, start: nat, n: nat)
    ensures SumOf(Granules(s, mode, start, n)) == PartSum(s, mode, start, n)
  {
    if n > 0 {
      SumOfGranules(s, mode, start, n - 1);
      assert Granules(s, mode, start, n)[..n - 1] == Granules(s, mode, start, n - 1);
    }
  }

  lemma SiteIs(dec: Dec, mp3: seq<Byte>, dec1: Dec, i: nat, size: nat)
    requires (dec1, i, size) == Locate(dec, ViewOf(mp3), |mp3|)
    ensures size == 0 ==> SiteOf(dec, mp3) == Nothing(dec1, i)
    ensures size > 0 ==> i + HDR_SIZE <= |mp3| && i + size <= |mp3|
    ensures size > 0 ==> SiteOf(dec, mp3) == Frame(dec1, i + size, FrameAtOffset(mp3, i, size))
  {
    LocateInside(dec, mp3);
  }

  lemma DecodeAtSite(dec: Dec, mp3: seq<Byte>, pcm: bool, otherOk: bool, site: Site)
    requires site == SiteOf(dec, mp3)
    ensures site.Nothing? ==> Decode(dec, mp3, pcm, otherOk) == (site.consumed, Outcome(site.dec, 0, None))
    ensures site.Frame? ==> FrameOk(site.frame)
    ensures site.Frame? ==> Decode(dec, mp3, pcm, otherOk) == (site.consumed, Body(site.dec, site.frame, pcm, otherOk))
  {
  }

  /** A located Layer III frame fits the fixed buffers. */
  lemma LocatedFrame(dec: Dec, mp3: seq<Byte>)
    requires DecOk(dec)
    ensures var (dec1, i, size) := Locate(dec, ViewOf(mp3), |mp3|);
      && DecOk(dec1) && i + size <= |mp3|
      && (size > 0 ==> i + HDR_SIZE <= |mp3|)
      && (size > 0 && HdrAt(mp3, i).LayerBits() == 1 ==> size <= 2304)
  {
    LocateInside(dec, mp3);
    ViewIsOk(mp3);
    var v, n := ViewOf(mp3), |mp3|;
    var (dec1, i, size) := Locate(dec, v, n);
    if !Reuse(dec, v, n) {
      var fb := SearchFromFound(v, n, 0);
      if n > 0 { FoundProgress(v, n, i, size, dec1.free, fb); }
    }
    if size > 0 { assert InfoOk(v[i]) && v[i].valid; }
  }

  lemma Layer3Ok(dec: Dec, f: FrameData, pcm: bool)
    requires DecOk(dec) && FrameOk(f)
    ensures DecOk(Layer3(dec, f, pcm).dec)
  {
  }

  class Decoder {
    var header: Option<Hdr>
    var free: nat
    const bufs: Buffers

    ghost predicate Valid()
      reads this, bufs, bufs.reservBuf
    {
      bufs.Valid() && DecOk(State())
    }

    function State(): Dec
      requires bufs.Valid()
      reads this, bufs, bufs.reservBuf
    {
      Dec(header, free, bufs.Contents())
    }

    constructor ()
      ensures Valid() && State() == Dec(None, 0, []) && fresh(bufs) && fresh(bufs.reservBuf) && fresh(bufs.maindata)
    {
      header, free := None, 0;
      bufs := new Buffers();
    }

    /** A decoder in a given state. */
    constructor From(dec: Dec)
      requires DecOk(dec)
      ensures Valid() && State() == dec && fresh(bufs) && fresh(bufs.reservBuf) && fresh(bufs.maindata)
    {
      header, free := dec.header, dec.free;
      var b := new Buffers.From(dec.reserv);
      bufs := b;
    }

    /** The header check of the call, or a resync on a cleared decoder. */
    method LocateFrame(v: View, n: nat) returns (i: nat, size: nat)
      requires Valid() && Input(v, n)
      modifies this, bufs
      ensures bufs.Valid() && (State(), i, size) == Locate(old(State()), v, n)
    {
      i, size := 0, 0;
      if n > 4 && header.Some? && Compare(InfoOf(header.value), v[0]) {
        size := SizeOf(v[0], free) + v[0].padding;
        if size != n && (size >= |v| || !Compare(v[0], v[size])) { size := 0; }
      }
      if size == 0 {
        header, free, bufs.reserv := None, 0, 0;
        ghost var fb;
        i, size, free, fb := FindFrame(v, n);
        SearchIs(v, n, i, size, free, fb);
      }
    }

    /** The Layer III branch. */
    method DecodeLayer3(hdr: Hdr, data: seq<Byte>, bytes: int, pcm: bool, ghost f: FrameData)
      returns (samples: nat, unit: Option<Unit>)
      requires Valid() && bytes <= |data| && bytes <= MAX_PAYLOAD
      requires f == FrameFrom(hdr, data, bytes) && f.layer3
      modifies this`header, bufs, bufs.reservBuf, bufs.maindata
      ensures Valid() && Outcome(State(), samples, unit) == Layer3(old(State()), f, pcm)
    {
      ParseFits(hdr, data, bytes);
      Layer3Ok(State(), f, pcm);
      header := Some(hdr);
      var parsed := ParseFrame(hdr, data, bytes);
      if parsed.None? {
        header := None;
        return 0, None;
      }
      var p := parsed.value;
      var main, ok := bufs.Frame(p.begin, p.payload, if pcm then p.partBits else 0);
      unit := if ok then Some(Unit(hdr, p.granules, main)) else None;
      samples := if ok then FrameSamples(hdr) else 0;
    }

    /** The other branch, its decoding taken as given. */
    method DecodeOther(hdr: Hdr, pcm: bool, otherOk: bool, ghost f: FrameData)
      returns (samples: nat, unit: Option<Unit>)
      requires Valid() && f.hdr == hdr && f.samples == FrameSamples(hdr)
      modifies this`header
      ensures Valid() && Outcome(State(), samples, unit) == OtherLayer(old(State()), f, pcm, otherOk)
    {
      header, samples, unit := Some(hdr), FrameSamples(hdr), None;
      if pcm && !otherOk { header, samples := None, 0; }
    }

    /** From the header copy on. */
    method DecodeLocated(hdr: Hdr, data: seq<Byte>, bytes: int, pcm: bool, otherOk: bool)
      returns (samples: nat, unit: Option<Unit>)
      requires Valid() && bytes <= |data| && (hdr.LayerBits() == 1 ==> bytes <= MAX_PAYLOAD)
      modifies this`header, bufs, bufs.reservBuf, bufs.maindata
      ensures Valid()
      ensures Outcome(State(), samples, unit) == Body(old(State()), FrameFrom(hdr, data, bytes), pcm, otherOk)
    {
      ghost var f := FrameFrom(hdr, data, bytes);
      if hdr.LayerBits() == 1 {
        samples, unit := DecodeLayer3(hdr, data, bytes, pcm, f);
      } else {
        samples, unit := DecodeOther(hdr, pcm, otherOk, f);
      }
    }

    /** drmp3dec_decode_frame */
    method DecodeFrame(mp3: seq<Byte>, pcm: bool, otherOk: bool)
      returns (consumed: nat, samples: nat, unit: Option<Unit>)
      requires Valid()
      modifies this, bufs, bufs.reservBuf, bufs.maindata
      ensures Valid()
      ensures (consumed, Outcome(State(), samples, unit)) == Decode(old(State()), mp3, pcm, otherOk)
    {
      hide Locate, Body, FrameFrom;
      ViewIsOk(mp3);
      LocatedFrame(State(), mp3);
      ghost var dec0 := State();
      var i, size := LocateFrame(ViewOf(mp3), |mp3|);
      SiteIs(dec0, mp3, State(), i, size);
      DecodeAtSite(dec0, mp3, pcm, otherOk, SiteOf(dec0, mp3));
      if size == 0 || i + size > |mp3| { return i, 0, None; }
      consumed := i + size;
      samples, unit := DecodeLocated(HdrAt(mp3, i), mp3[i + HDR_SIZE..], size - HDR_SIZE, pcm, otherOk);
    }
  }

  /** The call on an embedded decoder, as a value. */
  method DecodeOn(dec: Dec, mp3: seq<Byte>, pcm: bool, otherOk: bool) returns (n: nat, out: Outcome)
    requires DecOk(dec)
    ensures (n, out) == Decode(dec, mp3, pcm, otherOk) && DecOk(out.dec)
  {
    var d := new Decoder.From(dec);
    var consumed, samples, unit := d.DecodeFrame(mp3, pcm, otherOk);
    n, out := consumed, Outcome(d.State(), samples, unit);
  }
}
