/**
 What a stream of written Layer III frames plays (include/dr_mp3.h, `drmp3dec_decode_frame`,
 `drmp3_decode_next_frame_ex__memory` and `__callbacks`): from a fresh decoder on every
 frame comes out, one for each pull, with its own main data.
 */
module PlayedStreams {
  import opened BitString
  import opened SideInfo
  import opened SideInfoSyntax
  import opened Header
  import opened Syntax = HeaderSyntax
  import opened Reservoir
  import opened FrameDecoder
  import opened ReservoirConformance
  import opened WrittenFrames
  import opened WrittenStreams
  import opened StreamPull
  import opened WindowedStreams
  import Mono = Counterexamples

  const FRESH: Dec := Dec(None, 0, [])

  // ----- one call -----

  /** What a frame behind the payloads `history` comes to: its samples, its header, its records,
      and as main data the main_data_begin bytes before its payload and its payload. */
  ghost predicate Delivers(samples: nat, unit: Option<Unit>, e: Emitted, history: seq<Byte>)
    requires Syntax.Writable(e.fields)
  {
    && samples == (if e.fields.version.One? then 1152 else 576)
    && unit.Some? && unit.value.hdr == Syntax.Written(e.fields) && RecordsRead(unit.value.granules, e.body)
    && e.body.side.mainDataBegin <= |history|
    && unit.value.main == history[|history| - e.body.side.mainDataBegin..] + e.body.payload
  }

  /** The decoder is fresh, or it holds the header of a frame of the same kind. */
  ghost predicate Follows(dec: Dec, before: Fields, es: seq<Emitted>, free: nat)
    requires Formed(es) && es != []
  {
    if dec == FRESH then Discoverable(es)
    else Syntax.Writable(before) && SameKind(before, es[0].fields) && dec.header == Some(Syntax.Written(before))
         && (es[0].fields.bitrate == 0 ==> dec.free == free)
  }

  /** The decoder when it has found the frame. */
  function Seeing(dec: Dec, f: Fields, free: nat): Dec {
    if dec == FRESH && f.bitrate == 0 then Dec(None, free, []) else dec
  }

  /** The decoder has come to the stream `es`, and it holds the end of the payloads, from
      somewhere at or before `end` on. */
  ghost predicate Reaches(dec: Dec, before: Fields, es: seq<Emitted>, free: nat, history: seq<Byte>, dropped: nat,
                          end: nat)
    requires Formed(es)
  {
    && dropped <= |history| && dropped <= end && dec.reserv == TakeLast(history[dropped..], 511)
    && (es != [] ==> Follows(dec, before, es, free))
  }

  lemma {:induction false} FrontLocated(dec: Dec, before: Fields, es: seq<Emitted>, free: nat)
    requires EmitsAll(es, free) && es != [] && Follows(dec, before, es, free)
    ensures Locate(dec, ViewOf(Stream(es)), |Stream(es)|) == (Seeing(dec, es[0].fields, free), 0, |Bytes(es[0])|)
  {
    hide Stream, Announces, Locate, Discoverable;
    var mp3, n := Stream(es), |Bytes(es[0])|;
    if dec == FRESH {
      FirstFound(es, free);
    } else {
      FrontOf(es);
      EmittedSize(es, free, 0);
      SecondHeader(es, free);
      var f := es[0].fields;
      FrontAnnounced(dec, mp3, before, f, n, if |es| > 1 then es[1].fields else f);
    }
  }

  lemma {:induction false} CallTakes(dec: Dec, before: Fields, es: seq<Emitted>, free: nat, pcm: bool, otherOk: bool)
    requires EmitsAll(es, free) && es != [] && Follows(dec, before, es, free)
    ensures |Bytes(es[0])| <= |Stream(es)| && 4 <= |Stream(es)|
    ensures var n, seeing := |Bytes(es[0])|, Seeing(dec, es[0].fields, free);
      Decode(dec, Stream(es), pcm, otherOk) == (n, Body(seeing, FrameAtOffset(Stream(es), 0, n), pcm, otherOk))
  {
    hide Stream, Decode, Body, FrameAtOffset, Announces, Locate, Follows, Seeing, SiteOf, Bytes, Sized;
    var mp3, n, seeing := Stream(es), |Bytes(es[0])|, Seeing(dec, es[0].fields, free);
    FrontOf(es);
    FrontLocated(dec, before, es, free);
    SiteIs(dec, mp3, seeing, 0, n);
    DecodeAtSite(dec, mp3, pcm, otherOk, SiteOf(dec, mp3));
  }

  lemma {:induction false} FrontInPlace(dec: Dec, before: Fields, es: seq<Emitted>, free: nat)
    requires EmitsAll(es, free) && es != [] && Follows(dec, before, es, free) && es[0].fields.bitrate > 0
    ensures InFront(dec, Stream(es))
  {
    hide Stream, Locate, Announces, Follows;
    FrontOf(es);
    FrontLocated(dec, before, es, free);
    EmittedSize(es, free, 0);
    WrittenSecond(es[0].fields);
    WrittenThird(es[0].fields);
  }

  lemma {:induction false} SecondHeader(es: seq<Emitted>, free: nat)
    requires EmitsAll(es, free) && es != []
    ensures var n := |Bytes(es[0])|;
      if |es| == 1 then n == |Stream(es)|
      else n + 4 <= |Stream(es)| && HdrAt(Stream(es), n) == Syntax.Written(es[1].fields)
           && Sensible(es[1].fields) && SameKind(es[0].fields, es[1].fields)
  {
    hide Stream, At, Sized;
    HeadersAt(es, 0);
    FirstAt(es);
    if |es| > 1 {
      HeadersAt(es, 1);
      EmittedSize(es, free, 1);
    }
  }

  lemma {:induction false} Layer3Delivers(dec: Dec, f: FrameData, p: Parsed, e: Emitted, history: seq<Byte>,
          dropped: nat, end: nat, pcm: bool, out: Outcome, next: nat)
    requires Syntax.Writable(e.fields) && e.fields.layer == 3
    requires f == FrameData(Syntax.Written(e.fields), Pcm(e.fields), true, Some(p))
    requires ParsedAs(p, e.body) && PartsFit(p) && dropped <= |history| && dropped <= end
    requires dec.reserv == TakeLast(history[dropped..], 511) && end <= |history| - p.begin
    requires out == Layer3(dec, f, pcm) && next == |history| - p.begin + (if pcm then (p.partBits + 7) / 8 else 0)
    ensures Delivers(out.samples, out.unit, e, history)
    ensures out.dec.header == Some(Syntax.Written(e.fields)) && out.dec.free == dec.free
    ensures next <= |history + p.payload| && out.dec.reserv == TakeLast((history + p.payload)[next..], 511)
  {
    hide TakeLast, RecordsRead, Leftover;
    FrameIs(dec, f, pcm);
    var start: nat := |history| - p.begin;
    FrameDrops(history, dropped, dec.reserv, p, start, pcm);
    assert (history + p.payload)[start..] == history[start..] + p.payload;
  }

  /** What the call makes of the frame at the front, as it was written. */
  lemma {:induction false} CallDecodes(dec: Dec, before: Fields, es: seq<Emitted>, free: nat, pcm: bool, otherOk: bool)
    returns (p: Parsed, f: FrameData)
    requires EmitsAll(es, free) && es != [] && Follows(dec, before, es, free)
    requires PartBits(es[0].body.side.records) <= 8 * (es[0].body.side.mainDataBegin + |es[0].body.payload|)
    ensures ParsedAs(p, es[0].body) && PartsFit(p) && FrameOk(f)
    ensures f == FrameData(Syntax.Written(es[0].fields), Pcm(es[0].fields), true, Some(p))
    ensures Decode(dec, Stream(es), pcm, otherOk) == (|Bytes(es[0])|, Layer3(Seeing(dec, es[0].fields, free), f, pcm))
  {
    hide Decode, Stream, Layer3, Sized, FrameAtOffset, ParsedAs, Follows, Pcm, Seeing;
    CallTakes(dec, before, es, free, pcm, otherOk);
    p := FrameEmitted(es, free);
    f := FrameAtOffset(Stream(es), 0, |Bytes(es[0])|);
  }

  /** A call on the stream: the frame at the front is consumed and delivered, and the decoder has
      come to the next. */
  lemma {:induction false} CallDelivers(dec: Dec, before: Fields, es: seq<Emitted>, free: nat, history: seq<Byte>,
          dropped: nat, end: nat, pcm: bool, otherOk: bool)
    returns (out: Outcome, next: nat, nextEnd: nat)
    requires EmitsAll(es, free) && es != [] && PlacedBehind(es, |history|, end)
    requires Reaches(dec, before, es, free, history, dropped, end)
    ensures Decode(dec, Stream(es), pcm, otherOk) == (|Bytes(es[0])|, out)
    ensures Delivers(out.samples, out.unit, es[0], history)
    ensures Formed(es[1..])
    ensures Reaches(out.dec, es[0].fields, es[1..], free, history + es[0].body.payload, next, nextEnd)
    ensures PlacedBehind(es[1..], |history + es[0].body.payload|, nextEnd)
  {
    hide Decode, Stream, Delivers, Layer3, Sized, Bytes, Pcm, TakeLast, RecordsRead, Follows;
    var e := es[0];
    EmittedSize(es, free, 0);
    var p, f := CallDecodes(dec, before, es, free, pcm, otherOk);
    var seeing := Seeing(dec, e.fields, free);
    out := Layer3(seeing, f, pcm);
    var start: nat := |history| - p.begin;
    next, nextEnd := start + (if pcm then (p.partBits + 7) / 8 else 0), start + (p.partBits + 7) / 8;
    Layer3Delivers(seeing, f, p, e, history, dropped, end, pcm, out, next);
    if |es| > 1 { NextFollows(dec, before, out.dec, es, free); }
  }

  lemma {:induction false} NextFollows(dec0: Dec, before: Fields, dec: Dec, es: seq<Emitted>, free: nat)
    requires EmitsAll(es, free) && |es| > 1 && Follows(dec0, before, es, free)
    requires dec.header == Some(Syntax.Written(es[0].fields)) && dec.free == Seeing(dec0, es[0].fields, free).free
    ensures Follows(dec, es[0].fields, es[1..], free)
  {
    assert Emits(es[0], free);
    assert SameKind(es[0].fields, es[1..][0].fields);
  }

  // ----- the stream -----

  /** The pulls on a stream: each takes one frame and delivers it. */
  ghost predicate Plays(pulls: seq<Pulled>, es: seq<Emitted>, history: seq<Byte>)
    requires Formed(es)
  {
    if es == [] then pulls == [] else
      Tail(es);
      && pulls != [] && pulls[0].consumed == |Bytes(es[0])|
      && Delivers(pulls[0].samples, pulls[0].unit, es[0], history)
      && Plays(pulls[1..], es[1..], history + es[0].body.payload)
  }

  lemma {:induction false} OneFrame(call: Call, pcm: bool, others: Others, dec: Dec, mp3: seq<Byte>, n: nat,
          out: Outcome)
    requires IsFrameDecoder(call, pcm, others) && Progresses(call) && n <= |mp3| && out.samples > 0
    requires Decode(dec, mp3, pcm, others(mp3)) == (n, out)
    ensures (n, out) == Ask(call, dec, mp3)
    ensures Frames(call, dec, mp3) == [Pulled(out.dec, n, out.samples, out.unit)] + Frames(call, out.dec, mp3[n..])
  {
    hide Decode;
    assert Named(dec, mp3);
    PullEnds(call, dec, mp3);
  }

  lemma {:induction false} NoFrames(call: Call, dec: Dec)
    requires Progresses(call)
    ensures Frames(call, dec, []) == []
  {
    PullEnds(call, dec, []);
  }

  lemma {:induction false} StreamPlays(call: Call, pcm: bool, others: Others, dec: Dec, before: Fields,
          es: seq<Emitted>, free: nat, history: seq<Byte>, dropped: nat, end: nat)
    requires IsFrameDecoder(call, pcm, others) && Progresses(call)
    requires EmitsAll(es, free) && PlacedBehind(es, |history|, end)
    requires Reaches(dec, before, es, free, history, dropped, end)
    ensures Plays(Frames(call, dec, Stream(es)), es, history)
    ensures es == [] || es[0].fields.bitrate > 0 ==> InPlace(call, dec, Stream(es))
    decreases |es|
  {
    hide Decode, Stream, Delivers, Reaches, PlacedBehind, IsFrameDecoder, Bytes, Frames, InFront;
    if es == [] {
      NothingWritten(es);
      NoFrames(call, dec);
    } else {
      TailEmits(es, free);
      FrontOf(es);
      var mp3, n := Stream(es), |Bytes(es[0])|;
      var out, next, nextEnd := CallDelivers(dec, before, es, free, history, dropped, end, pcm, others(mp3));
      SomeSamples(out, es[0], history);
      OneFrame(call, pcm, others, dec, mp3, n, out);
      if es[0].fields.bitrate > 0 {
        ReachesFollows(dec, before, es, free, history, dropped, end);
        FrontInPlace(dec, before, es, free);
      }
      StreamPlays(call, pcm, others, out.dec, es[0].fields, es[1..], free, history + es[0].body.payload, next, nextEnd);
    }
  }

  lemma {:induction false} TailEmits(es: seq<Emitted>, free: nat)
    requires EmitsAll(es, free) && es != []
    ensures EmitsAll(es[1..], free) && (|es| > 1 ==> SameKind(es[0].fields, es[1..][0].fields))
  {
  }

  lemma {:induction false} ReachesFollows(dec: Dec, before: Fields, es: seq<Emitted>, free: nat, history: seq<Byte>,
          dropped: nat, end: nat)
    requires Formed(es) && Reaches(dec, before, es, free, history, dropped, end) && es != []
    ensures Follows(dec, before, es, free)
  {
  }

  lemma {:induction false} NothingWritten(es: seq<Emitted>)
    requires es == []
    ensures Formed(es) && Stream(es) == []
  {
  }

  lemma {:induction false} SomeSamples(out: Outcome, e: Emitted, history: seq<Byte>)
    requires Syntax.Writable(e.fields) && Delivers(out.samples, out.unit, e, history)
    ensures out.samples > 0
  {
  }

  /** From a fresh decoder on a stream of written frames plays, or is counted, as it was written,
      frame after frame, each with its own main data; in free format, if its size can be found
      out. */
  lemma {:induction false} WrittenPlays(call: Call, pcm: bool, others: Others, es: seq<Emitted>, free: nat)
    requires IsFrameDecoder(call, pcm, others) && Progresses(call)
    requires EmitsAll(es, free) && PlacedBehind(es, 0, 0) && (es != [] ==> Discoverable(es))
    ensures Plays(Frames(call, FRESH, Stream(es)), es, [])
    ensures es == [] || es[0].fields.bitrate > 0 ==> InPlace(call, FRESH, Stream(es))
  {
    hide Stream, Plays, IsFrameDecoder, InPlace, Frames, Discoverable, PlacedBehind;
    var anything := Fields(One, 3, false, 9, 0, false, 0, 0, 0);
    StreamPlays(call, pcm, others, FRESH, anything, es, free, [], 0, 0);
  }

  /** Behind callbacks the same frames come out, however the window falls. */
  lemma {:induction false} WrittenPlaysBehindCallbacks(call: Call, pcm: bool, others: Others, es: seq<Emitted>,
          free: nat)
    requires IsFrameDecoder(call, pcm, others) && Progresses(call)
    requires EmitsAll(es, free) && PlacedBehind(es, 0, 0) && (es != [] ==> es[0].fields.bitrate > 0)
    ensures Plays(Frames(call, FRESH, Stream(es)), es, [])
    ensures OfWindowPulls(WindowFrames(call, StreamPull.View(FRESH, Stream(es), 0))) ==
      OfPulls(Frames(call, FRESH, Stream(es)))
  {
    hide Stream, Plays, IsFrameDecoder, InPlace, Frames, WindowFrames, PlacedBehind, Announces;
    WrittenPlays(call, pcm, others, es, free);
    SameFrames(call, pcm, others, StreamPull.View(FRESH, Stream(es), 0));
  }

  // ----- an example -----

  /** MPEG-2, Layer III, 8 kbit/s, 24 kHz, one channel. */
  const MONO_FIELDS: Fields := Fields(Two, 3, false, 1, 1, false, 0, 3, 0)

  function MonoEmitted(begin: nat, payload: seq<Byte>): Emitted {
    Emitted(MONO_FIELDS, Mono.MonoBody(begin, 0, payload))
  }

  lemma {:induction false} MonoEmits(begin: nat, payload: seq<Byte>)
    requires begin < 256 && |payload| == 11
    ensures Emits(MonoEmitted(begin, payload), 0) && PartBits(MonoEmitted(begin, payload).body.side.records) == 0
  {
    var e := MonoEmitted(begin, payload);
    Mono.MonoFits(begin, 0, payload);
    Mono.NoParts(e.body.side.records);
    WrittenBegins(e.body, []);
    assert Fills(24, 1, Hz(MONO_FIELDS), FrameBits(MONO_FIELDS));
  }

  /** Three frames of 24 bytes, the second of which reaches five bytes back: it is handed the last
      five bytes of the first payload and its own. */
  lemma {:induction false} ThreeFramesPlay(call: Call, others: Others, x: seq<Byte>, y: seq<Byte>, z: seq<Byte>)
    returns (es: seq<Emitted>)
    requires IsFrameDecoder(call, true, others) && Progresses(call) && |x| == |y| == |z| == 11
    ensures es == [MonoEmitted(0, x), MonoEmitted(5, y), MonoEmitted(0, z)] && EmitsAll(es, 0)
    ensures var pulls := Frames(call, FRESH, Stream(es));
      && |pulls| == 3 && pulls[0].samples == pulls[1].samples == pulls[2].samples == 576
      && pulls[1].unit.Some? && pulls[1].unit.value.main == x[6..] + y
  {
    hide Stream, Frames, IsFrameDecoder, WindowFrames, Emits, RecordsRead, PartBits;
    es := [MonoEmitted(0, x), MonoEmitted(5, y), MonoEmitted(0, z)];
    MonoEmits(0, x);
    MonoEmits(5, y);
    MonoEmits(0, z);
    assert es[1..] == [es[1], es[2]] && es[1..][1..] == [es[2]] && es[1..][1..][1..] == [];
    assert PlacedBehind(es[1..][1..][1..], 33, 22);
    assert PlacedBehind(es[1..][1..], 22, 6);
    assert PlacedBehind(es[1..], 11, 0);
    assert PlacedBehind(es, 0, 0);
    WrittenPlays(call, true, others, es, 0);
    var pulls := Frames(call, FRESH, Stream(es));
    Tail(es);
    Tail(es[1..]);
    assert [] + x == x;
    assert Plays(pulls[1..], es[1..], x);
    assert Plays(pulls[1..][1..], es[1..][1..], x + y);
    assert Plays(pulls[1..][1..][1..], es[1..][1..][1..], x + y + z);
    assert pulls[1..][0] == pulls[1] && pulls[1..][1..][0] == pulls[2];
    assert Delivers(pulls[1].samples, pulls[1].unit, es[1], x);
  }
}
