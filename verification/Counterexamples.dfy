/**
 Inputs on which the decoder and what it is meant to do part (include/dr_mp3.h): an
 accepted frame whose private bits reach scfsi, and two frames of which a counting
 decoder counts one that a decoding one rejects.
 */
module Counterexamples {
  import opened BitString
  import opened BitReader
  import opened SideInfo
  import opened SideInfoSyntax
  import opened Header
  import opened SyncSearch
  import opened Reservoir
  import opened FrameDecoder
  import opened ReservoirConformance
  import opened ReservoirStreams
  import opened StreamFrames
  import opened WrittenFrames

  // ----- records that say nothing but how long they are -----

  function Silent(part23: nat): Record {
    Record(part23, 0, 0, 0, Plain(0, 0, 0), false, 0, 0)
  }

  lemma {:induction false} FitAppend(a: Elements, b: Elements)
    requires AllFit(a) && AllFit(b)
    ensures AllFit(Append(a, b))
  {
    if a.Put? { FitAppend(a.rest, b); }
  }

  lemma SilentFits(mode: Mode, part23: nat)
    requires part23 < Pow2(12)
    ensures AllFit(RecordElements(mode, Silent(part23)))
  {
    var r := Silent(part23);
    assert AllFit(HeadElements(mode, r)) by {
      assert AllFit(Put(0, mode.CompressBits(), End));
      assert AllFit(Put(0, 8, Put(0, mode.CompressBits(), End)));
    }
    assert AllFit(WindowElements(r.window)) by {
      assert AllFit(Put(0, 4, Put(0, 3, End)));
    }
    assert AllFit(TailElements(mode, r));
    FitAppend(WindowElements(r.window), TailElements(mode, r));
    FitAppend(HeadElements(mode, r), Append(WindowElements(r.window), TailElements(mode, r)));
  }

  lemma {:induction false} RecordsFit(mode: Mode, rs: seq<Record>)
    requires forall k :: 0 <= k < |rs| ==> AllFit(RecordElements(mode, rs[k]))
    ensures AllFit(RecordsElements(mode, rs))
  {
    if rs != [] {
      RecordsFit(mode, rs[1..]);
      FitAppend(RecordElements(mode, rs[0]), RecordsElements(mode, rs[1..]));
    }
  }

  // ----- private bits -----

  /** A frame of four records without coded bits. */
  function StereoFrame(mode: Mode, privateBits: nat, payload: seq<Byte>): (w: Written)
    requires mode.mpeg1 && !mode.mono
    ensures WellFormed(w.mode, w.side) && w.mode == mode
  {
    Written([], mode, Side(0, privateBits, [0, 0], [Silent(0), Silent(0), Silent(0), Silent(0)]), payload)
  }

  lemma StereoFits(mode: Mode, privateBits: nat, payload: seq<Byte>)
    requires mode.mpeg1 && !mode.mono && privateBits < 8
    ensures StereoFrame(mode, privateBits, payload).Ok()
  {
    var side := StereoFrame(mode, privateBits, payload).side;
    SilentFits(mode, 0);
    RecordsFit(mode, side.records);
    PowersUpToFive();
    assert AllFit(PrefixElements(mode, side)) by {
      assert AllFit(Put(0, 4, Put(0, 4, End)));
    }
    FitAppend(PrefixElements(mode, side), RecordsElements(mode, side.records));
  }

  lemma {:induction false} NoParts(rs: seq<Record>)
    requires forall k :: 0 <= k < |rs| ==> rs[k].part23 == 0
    ensures PartBits(rs) == 0
  {
    if rs != [] { NoParts(rs[..|rs| - 1]); }
  }

  /** Four silent records behind any MPEG-1 stereo header without checksum: accepted whatever the
      private bits are, with the private bits as scfsi of the second record. */
  lemma PrivateBitsReachScfsi(hdr: Hdr, privateBits: nat, payload: seq<Byte>, more: seq<Byte>)
    requires hdr.Mpeg1() && !hdr.Mono() && !hdr.HasCrc() && privateBits < 8
    ensures var w := StereoFrame(ModeOf(hdr), privateBits, payload);
      var p := Parse(hdr, w.Bytes() + more, |w.Bytes()|);
      p.Some? && |p.value.granules| == 4 && p.value.granules[1].scfsi == privateBits
  {
    var mode := ModeOf(hdr);
    var w := StereoFrame(mode, privateBits, payload);
    StereoFits(mode, privateBits, payload);
    NoParts(w.side.records);
    ParsedScfsi(hdr, w, more, 0);
  }

  /** 32 kbit/s at 44.1 kHz, two channels, no checksum. */
  const STEREO_HEADER: Hdr := Hdr(0xff, 0xfb, 0x10, 0)

  lemma StereoHeader()
    ensures HdrValid(STEREO_HEADER) && STEREO_HEADER.Mpeg1() && !STEREO_HEADER.Mono() && !STEREO_HEADER.HasCrc()
  {
  }

  lemma PrivateBitsExample(payload: seq<Byte>)
    ensures STEREO_HEADER.Mpeg1() && !STEREO_HEADER.Mono()
    ensures var data := StereoFrame(ModeOf(STEREO_HEADER), 7, payload).Bytes();
      var p := Parse(STEREO_HEADER, data, |data|);
      p.Some? && |p.value.granules| == 4 && p.value.granules[1].scfsi == 7
  {
    StereoHeader();
    var w := StereoFrame(ModeOf(STEREO_HEADER), 7, payload);
    PrivateBitsReachScfsi(STEREO_HEADER, 7, payload, []);
    assert w.Bytes() + [] == w.Bytes();
  }

  // ----- counted but not decoded -----

  const MONO: Mode := Mode(false, true, 3)

  /** MPEG-2, Layer III, 8 kbit/s, 24 kHz, one channel: 24 bytes a frame. */
  const HEADER: Hdr := Hdr(0xff, 0xf3, 0x14, 0xc0)

  function MonoBody(begin: nat, part23: nat, payload: seq<Byte>): (w: Written)
    ensures WellFormed(w.mode, w.side)
  {
    Written([], MONO, Side(begin, 0, [], [Silent(part23)]), payload)
  }

  lemma MonoFits(begin: nat, part23: nat, payload: seq<Byte>)
    requires begin < 256 && part23 < 128
    ensures MonoBody(begin, part23, payload).Ok()
  {
    var side := MonoBody(begin, part23, payload).side;
    PowersUpToFive();
    assert Pow2(7) == 128 && Pow2(8) == 256;
    Pow2Monotone(7, 12);
    SilentFits(MONO, part23);
    RecordsFit(MONO, side.records);
    assert AllFit(PrefixElements(MONO, side)) by {
      assert AllFit(Put(0, 1, End));
    }
    FitAppend(PrefixElements(MONO, side), RecordsElements(MONO, side.records));
  }

  function MonoFrame(begin: nat, part23: nat, payload: seq<Byte>): seq<Byte> {
    [HEADER.b0, HEADER.b1, HEADER.b2, HEADER.b3] + MonoBody(begin, part23, payload).Bytes()
  }

  /** A frame of 24 bytes asks for `begin` bytes of the reservoir, uses `part23` bits and
      brings `payload`. */
  ghost predicate IsMono(p: Parsed, begin: nat, part23: nat, payload: seq<Byte>) {
    p.begin == begin && p.partBits == part23 && p.payload == payload
  }

  predicate Small(begin: nat, part23: nat, payload: seq<Byte>) {
    begin < 256 && part23 <= 88 && |payload| == 11
  }

  lemma MonoParse(begin: nat, part23: nat, payload: seq<Byte>, more: seq<Byte>) returns (p: Parsed)
    requires Small(begin, part23, payload)
    ensures var data := MonoBody(begin, part23, payload).Bytes();
      |data| == 20 && Parse(HEADER, data + more, 20) == Some(p) && IsMono(p, begin, part23, payload)
  {
    var w := MonoBody(begin, part23, payload);
    MonoFits(begin, part23, payload);
    assert PartBits([Silent(part23)]) == part23 by { assert [Silent(part23)][..0] == []; }
    WrittenBegins(w, more);
    HeaderInfo();
    ParseOfWritten(HEADER, w, more, 0, 1);
    p := Parsed(begin, Granules(SourceOf(w, more), MONO, 0, 1), part23, payload);
  }

  lemma HeaderRates()
    ensures HdrValid(HEADER) && BitrateKbps(HEADER) == 8 && SampleRateHz(HEADER) == 24000
  {
    assert HEADER.LayerBits() == 1 && HEADER.BitrateIndex() == 1 && HEADER.RateIndex() == 1;
    assert !HEADER.Mpeg1() && HEADER.NotMpeg25();
  }

  lemma HeaderMode()
    ensures ModeOf(HEADER) == MONO && !HEADER.HasCrc() && !HEADER.Layer1() && HEADER.LayerBits() == 1
    ensures FrameSamples(HEADER) == 576 && PaddingBytes(HEADER) == 0
  {
  }

  lemma HeaderInfo()
    ensures HdrValid(HEADER) && ComputedBytes(HEADER) == 24 && PaddingBytes(HEADER) == 0
    ensures ModeOf(HEADER) == MONO && !HEADER.HasCrc() && HEADER.LayerBits() == 1 && FrameSamples(HEADER) == 576
  {
    hide HdrValid, BitrateKbps, SampleRateHz, FrameSamples, PaddingBytes, ModeOf;
    HeaderRates();
    HeaderMode();
    assert BytesAt(576 * 8 * 125, 24000) == 24;
  }

  lemma MonoAt(begin: nat, part23: nat, payload: seq<Byte>, more: seq<Byte>, mp3: seq<Byte>)
    requires Small(begin, part23, payload) && mp3 == MonoFrame(begin, part23, payload) + more
    ensures |mp3| == 24 + |more| && HdrAt(mp3, 0) == HEADER && mp3[24..] == more
    ensures mp3[HDR_SIZE..] == MonoBody(begin, part23, payload).Bytes() + more
  {
    hide Pack, Encode, SideElements;
    WrittenBegins(MonoBody(begin, part23, payload), more);
  }

  /** The decoder finds a frame of 24 bytes at the front, with or without a resync. */
  ghost predicate Located(dec: Dec, mp3: seq<Byte>, keeps: bool) {
    Locate(dec, ViewOf(mp3), |mp3|) == (if keeps then dec else Dec(None, 0, []), 0, 24)
  }

  /** What a decoder that has found a frame works on. */
  lemma MonoSite(dec: Dec, begin: nat, part23: nat, payload: seq<Byte>, more: seq<Byte>, mp3: seq<Byte>, keeps: bool)
    returns (p: Parsed)
    requires Small(begin, part23, payload) && mp3 == MonoFrame(begin, part23, payload) + more &&
      Located(dec, mp3, keeps)
    ensures IsMono(p, begin, part23, payload)
    ensures SiteOf(dec, mp3) == Frame(if keeps then dec else Dec(None, 0, []), 24,
      FrameData(HEADER, 576, true, Some(p)))
  {
    hide MonoFrame, Locate, SiteOf, Parse, ViewOf;
    HeaderInfo();
    MonoAt(begin, part23, payload, more, mp3);
    p := MonoParse(begin, part23, payload, more);
    SiteIs(dec, mp3, if keeps then dec else Dec(None, 0, []), 0, 24);
  }

  /** A call that works on such a frame consumes it and leaves its header. */
  lemma MonoCall(dec: Dec, begin: nat, part23: nat, payload: seq<Byte>, more: seq<Byte>, mp3: seq<Byte>, keeps: bool,
          pcm: bool, otherOk: bool)
    returns (p: Parsed, out: Outcome)
    requires Small(begin, part23, payload) && mp3 == MonoFrame(begin, part23, payload) + more &&
      Located(dec, mp3, keeps)
    requires keeps || dec.reserv == []
    ensures IsMono(p, begin, part23, payload) && Decode(dec, mp3, pcm, otherOk) == (24, out)
    ensures Worked(out, dec.reserv, p, pcm) && out.dec.header == Some(HEADER) &&
      (out.samples == 0 || out.samples == 576)
  {
    hide MonoFrame, SiteOf, Located;
    p := MonoSite(dec, begin, part23, payload, more, mp3, keeps);
    var site := SiteOf(dec, mp3);
    DecodeAtSite(dec, mp3, pcm, otherOk, site);
    FrameWorks(site.dec, site.frame, p, pcm, otherOk);
    out := Decode(dec, mp3, pcm, otherOk).1;
  }

  lemma HeaderAhead(mp3: seq<Byte>, at: nat)
    requires at + HDR_SIZE <= |mp3| && HdrAt(mp3, at) == HEADER
    ensures var info := ViewOf(mp3)[at]; info.valid && info.bytes == 24 && info.padding == 0 && info == InfoOf(HEADER)
  {
    HeaderInfo();
  }

  /** A fresh decoder finds a frame that another one of its kind comes behind. */
  lemma FirstLocated(mp3: seq<Byte>)
    requires |mp3| == 48 && HdrAt(mp3, 0) == HEADER && HdrAt(mp3, 24) == HEADER
    ensures Located(Dec(None, 0, []), mp3, false)
  {
    hide InfoOf, HEADER, LeastFreeSize;
    var v := ViewOf(mp3);
    HeaderAhead(mp3, 0);
    HeaderAhead(mp3, 24);
    ViewIsOk(mp3);
    assert Boundary(v, 0, 24, 1) == 24;
    assert Boundary(v, 0, 24, 2) == 48;
    assert MatchUpTo(v, 0, 24, 0) && MatchUpTo(v, 0, 24, 1) && MatchUpTo(v, 0, 24, 2);
    StaysOutside(v, 0, 24, 2, SYNC_MATCHES);
    assert FrameAt(v, 48, 0, 24, 24);
    SearchIs(v, 48, 0, 24, 0, 24);
  }

  /** A decoder that has seen such a frame finds one that ends the input. */
  lemma LastLocated(dec: Dec, mp3: seq<Byte>)
    requires |mp3| == 24 && HdrAt(mp3, 0) == HEADER && dec.header == Some(HEADER)
    ensures Located(dec, mp3, true)
  {
    hide InfoOf, HEADER, Search;
    HeaderAhead(mp3, 0);
  }

  /** The first frame uses all of its 11 bytes. */
  lemma FirstReservoir(p: Parsed, x: seq<Byte>)
    requires IsMono(p, 0, 88, x) && |x| == 11
    ensures PartsFit(p) && Passed([], p, true) == [] && Passed([], p, false) == x
  {
    assert MainData([], 0, x) == x;
  }

  /** The second frame asks for one byte of the first, which has used all of them. */
  function TwoFrames(x: seq<Byte>, y: seq<Byte>): seq<Byte> {
    MonoFrame(0, 88, x) + MonoFrame(1, 0, y)
  }

  lemma TwoFramesParts(x: seq<Byte>, y: seq<Byte>, mp3: seq<Byte>)
    requires |x| == |y| == 11 && mp3 == TwoFrames(x, y)
    ensures |mp3| == 48 && HdrAt(mp3, 0) == HEADER && HdrAt(mp3, 24) == HEADER && mp3[24..] == MonoFrame(1, 0, y)
    ensures |mp3[24..]| == 24 && HdrAt(mp3[24..], 0) == HEADER
  {
    hide MonoFrame;
    var last := MonoFrame(1, 0, y);
    assert last + [] == last;
    MonoAt(1, 0, y, [], last);
    MonoAt(0, 88, x, last, mp3);
  }

  /** The two calls on this stream. */
  lemma TwoFramesCalls(x: seq<Byte>, y: seq<Byte>, mp3: seq<Byte>, pcm: bool, others: Others)
    returns (first: Outcome, second: Outcome)
    requires |x| == |y| == 11 && mp3 == TwoFrames(x, y)
    ensures |mp3| == 48 && Decode(Dec(None, 0, []), mp3, pcm, others(mp3)) == (24, first)
    ensures Decode(first.dec, mp3[24..], pcm, others(mp3[24..])) == (24, second)
    ensures first.samples == 576 && second.samples == if pcm then 0 else 576
  {
    hide MonoFrame, Decode, Located, TwoFrames;
    var last := MonoFrame(1, 0, y);
    TwoFramesParts(x, y, mp3);
    FirstLocated(mp3);
    var p, q;
    assert mp3 == MonoFrame(0, 88, x) + last by { TwoFramesIs(x, y, mp3); }
    p, first := MonoCall(Dec(None, 0, []), 0, 88, x, last, mp3, false, pcm, others(mp3));
    FirstReservoir(p, x);
    LastLocated(first.dec, last);
    assert last + [] == last;
    q, second := MonoCall(first.dec, 1, 0, y, [], last, true, pcm, others(mp3[24..]));
  }

  lemma TwoFramesIs(x: seq<Byte>, y: seq<Byte>, mp3: seq<Byte>)
    requires mp3 == TwoFrames(x, y)
    ensures mp3 == MonoFrame(0, 88, x) + MonoFrame(1, 0, y)
  {
  }

  /** A stream of two frames that is counted as 1152 PCM frames and plays 576. */
  lemma CountedButNotDecodedExample(x: seq<Byte>, y: seq<Byte>, others: Others)
    requires |x| == |y| == 11
    ensures PassTotal(Dec(None, 0, []), TwoFrames(x, y), true, others) == 576
    ensures PassTotal(Dec(None, 0, []), TwoFrames(x, y), false, others) == 1152
  {
    TwoFramesSamples(x, y, true, others);
    TwoFramesSamples(x, y, false, others);
  }

  lemma TwoFramesSamples(x: seq<Byte>, y: seq<Byte>, pcm: bool, others: Others)
    requires |x| == |y| == 11
    ensures PassTotal(Dec(None, 0, []), TwoFrames(x, y), pcm, others) == if pcm then 576 else 1152
  {
    hide Decode, TwoFrames, PassTotal;
    var mp3 := TwoFrames(x, y);
    var first, second := TwoFramesCalls(x, y, mp3, pcm, others);
    FirstOfPass(Dec(None, 0, []), mp3, pcm, others, 24, first);
    FirstOfPass(first.dec, mp3[24..], pcm, others, 24, second);
    EmptyPass(second.dec, mp3[24..][24..], pcm, others);
  }

  /** A call comes upon such a frame, as it is parsed. */
  ghost predicate IsMonoEvent(e: Event, resync: bool, begin: nat, part23: nat, payload: seq<Byte>) {
    var data := MonoBody(begin, part23, payload).Bytes();
    e == Event(resync, Parse(HEADER, data, |data|)) && e.frame.Some? && IsMono(e.frame.value, begin, part23, payload)
  }

  lemma MonoEvent(resync: bool, begin: nat, part23: nat, payload: seq<Byte>) returns (e: Event)
    requires Small(begin, part23, payload)
    ensures IsMonoEvent(e, resync, begin, part23, payload)
  {
    hide Parse;
    var data := MonoBody(begin, part23, payload).Bytes();
    var p := MonoParse(begin, part23, payload, []);
    assert data + [] == data;
    e := Event(resync, Some(p));
  }

  /** A frame need not ask for what the one before has used to be disputed: behind a frame that
      both passes reject it is what an earlier one has used that matters. */
  lemma DisputedBehindRejected(x: seq<Byte>, y: seq<Byte>, z: seq<Byte>) returns (es: seq<Event>)
    requires |x| == |y| == |z| == 11
    ensures |es| == 3 && IsMonoEvent(es[0], true, 0, 88, x) && IsMonoEvent(es[1], false, 200, 0, y)
    ensures IsMonoEvent(es[2], false, 12, 0, z)
    ensures forall pcm :: !Served(DroppedAt(es, 1, pcm), Start(es, 1), es[1].frame.value)
    ensures Disputed(es, 2) && !(Start(es, 1) <= Start(es, 2) < MainEnd(es, 2))
  {
    hide MonoBody, Parse;
    var a := MonoEvent(true, 0, 88, x);
    var b := MonoEvent(false, 200, 0, y);
    var c := MonoEvent(false, 12, 0, z);
    es := [a, b, c];
    ThreeStarts(es, x, y, z);
  }

  lemma ThreeStarts(es: seq<Event>, x: seq<Byte>, y: seq<Byte>, z: seq<Byte>)
    requires |x| == |y| == |z| == 11 && |es| == 3 && es[0].resync && !es[1].resync && !es[2].resync
    requires forall k | 0 <= k < 3 :: es[k].frame.Some?
    requires IsMono(es[0].frame.value, 0, 88, x) && IsMono(es[1].frame.value, 200, 0, y)
    requires IsMono(es[2].frame.value, 12, 0, z)
    ensures forall pcm :: !Served(DroppedAt(es, 1, pcm), Start(es, 1), es[1].frame.value)
    ensures Disputed(es, 2) && !(Start(es, 1) <= Start(es, 2) < MainEnd(es, 2))
  {
    assert Payloads(es, 1) == x;
    assert Payloads(es, 2) == x + y;
    assert Start(es, 0) == 0 && Start(es, 1) == -189 && Start(es, 2) == 10;
    assert Dropped(es, 1, true) == 11 && Dropped(es, 1, false) == 0;
    assert Dropped(es, 2, true) == 11 && Dropped(es, 2, false) == 0;
  }
}
