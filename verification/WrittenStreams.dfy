/**
 Streams of Layer III frames as a writer emits them (ISO/IEC 11172-3, sections 2.4.1 and
 2.4.2.7), decoded from the beginning (include/dr_mp3.h, `drmp3dec_decode_frame` and the
 pull loops above it): every call takes one frame and hands on what was written in it.
 */
module WrittenStreams {
  import opened BitString
  import opened BitReader
  import opened SideInfo
  import opened SideInfoSyntax
  import opened Header
  import opened Syntax = HeaderSyntax
  import opened SyncSearch
  import opened FrameDecoder
  import opened WrittenFrames

  // ----- frames -----

  /** A frame: the fields of its header, and what comes behind the header. */
  datatype Emitted = Emitted(fields: Fields, body: WrittenFrames.Written)

  function HeaderBytes(h: Hdr): seq<Byte> { [h.b0, h.b1, h.b2, h.b3] }

  function Bytes(e: Emitted): seq<Byte>
    requires Syntax.Writable(e.fields) && WellFormed(e.body.mode, e.body.side)
  {
    HeaderBytes(Syntax.Written(e.fields)) + e.body.Bytes()
  }

  /** As long as its header says: what goes into the PCM frames at the bitrate, and a byte more
      with padding. */
  predicate Announces(f: Fields, size: nat)
    requires Sensible(f) && f.bitrate > 0
  {
    var slot := if f.layer == 1 then 4 else 1;
    var pad := if f.padded then slot else 0;
    size >= pad && (size - pad) % slot == 0 && Fills(size - pad, slot, Hz(f), FrameBits(f))
  }

  /** In free format all frames have the same size but for padding. */
  predicate Sized(f: Fields, size: nat, free: nat)
    requires Sensible(f)
  {
    if f.bitrate > 0 then Announces(f, size)
    else size > 0 && size == free + if !f.padded then 0 else if f.layer == 1 then 4 else 1
  }

  /** What a Layer III writer emits. */
  ghost predicate Emits(e: Emitted, free: nat) {
    && Sensible(e.fields) && e.fields.layer == 3
    && e.body.Ok() && AllWritable(e.body.side.records)
    && e.body.mode == Mode(e.fields.version.One?, e.fields.mode == 3, Row(e.fields))
    && |e.body.checksum| == (if e.fields.protected then 2 else 0)
    && Sized(e.fields, |Bytes(e)|, free)
  }

  /** The frames of a stream agree in version, layer, sampling rate and free-format-ness. */
  predicate SameKind(f: Fields, g: Fields) {
    f.version == g.version && f.layer == g.layer && f.rate == g.rate && (f.bitrate == 0 <==> g.bitrate == 0)
  }

  // ----- one call -----

  lemma {:induction false} FillsOnce(a: nat, b: nat, slot: nat, hz: nat, bits: nat)
    requires hz > 0 && (slot == 1 || slot == 4) && a % slot == 0 && b % slot == 0
    requires Fills(a, slot, hz, bits) && Fills(b, slot, hz, bits)
    ensures a == b
  {
    if a + slot <= b {
      Below2(a + slot, b, hz, hz);
    } else if b + slot <= a {
      Below2(b + slot, a, hz, hz);
    }
  }

  /** The decoder computes the size the header announces. */
  lemma {:induction false} AnnouncedSize(f: Fields, size: nat)
    requires Sensible(f) && f.bitrate > 0 && Announces(f, size)
    ensures var info := InfoOf(Syntax.Written(f));
      info.valid && info.bytes != 0 && info.bytes + info.padding == size && (info.layer3 <==> f.layer == 3)
  {
    hide Fills, HdrValid, ComputedBytes, Hz, FrameBits, PaddingBytes;
    WrittenValid(f);
    WrittenSecond(f);
    WrittenFree(f);
    WrittenPadding(f);
    var slot := if f.layer == 1 then 4 else 1;
    var bytes := ComputedBytes(Syntax.Written(f));
    WrittenBytes(f, bytes);
    FillsOnce(bytes, size - if f.padded then slot else 0, slot, Hz(f), FrameBits(f));
  }

  /** And in free format it takes the size it has found out. */
  lemma {:induction false} SizeIs(f: Fields, size: nat, free: nat)
    requires Sensible(f) && Sized(f, size, free)
    ensures var info := InfoOf(Syntax.Written(f));
      && info.valid && (info.bytes == 0 <==> f.bitrate == 0) && (info.layer3 <==> f.layer == 3)
      && size > 0 && SizeOf(info, free) + info.padding == size
  {
    hide Announces, HdrValid, ComputedBytes, PaddingBytes;
    WrittenValid(f);
    WrittenSecond(f);
    WrittenFree(f);
    WrittenPadding(f);
    if f.bitrate > 0 { AnnouncedSize(f, size); }
  }

  /** The frame at the front begins with a header like the one before, and it ends the input or
      another such header comes where it ends. */
  ghost predicate Announced(mp3: seq<Byte>, before: Fields, f: Fields, size: nat, next: Fields, free: nat) {
    && Sensible(f) && SameKind(before, f) && Sized(f, size, free)
    && 4 < |mp3| && HdrAt(mp3, 0) == Syntax.Written(f)
    && (size != |mp3| ==>
          size + 4 <= |mp3| && Sensible(next) && SameKind(f, next)
          && HdrAt(mp3, size) == Syntax.Written(next))
  }

  lemma {:induction false} FrontAnnounced(dec: Dec, mp3: seq<Byte>, before: Fields, f: Fields, size: nat, next: Fields)
    requires Syntax.Writable(before) && dec.header == Some(Syntax.Written(before))
    requires Announced(mp3, before, f, size, next, dec.free)
    ensures size > 0 && Locate(dec, ViewOf(mp3), |mp3|) == (dec, 0, size)
  {
    hide Sized, InfoOf, Compare, HdrAt;
    SizeIs(f, size, dec.free);
    WrittenMatch(before, f);
    if size != |mp3| { WrittenMatch(f, next); }
  }

  /** Between matching headers, a call takes the frame at the front as it is announced, and the
      decoder goes on from what it holds. */
  lemma {:induction false} TakesFront(dec: Dec, mp3: seq<Byte>, before: Fields, f: Fields, size: nat, next: Fields,
          pcm: bool, otherOk: bool)
    requires Syntax.Writable(before) && dec.header == Some(Syntax.Written(before))
    requires Announced(mp3, before, f, size, next, dec.free)
    ensures 4 <= |mp3| && size <= |mp3|
    ensures Decode(dec, mp3, pcm, otherOk) == (size, Body(dec, FrameAtOffset(mp3, 0, size), pcm, otherOk))
  {
    hide Announces, Announced, Decode, Body, FrameAtOffset, Locate, SiteOf;
    FrontAnnounced(dec, mp3, before, f, size, next);
    SiteIs(dec, mp3, dec, 0, size);
    DecodeAtSite(dec, mp3, pcm, otherOk, SiteOf(dec, mp3));
  }

  lemma {:induction false} ModeOfEmitted(f: Fields)
    requires Sensible(f)
    ensures ModeOf(Syntax.Written(f)) == Mode(f.version.One?, f.mode == 3, Row(f))
    ensures Syntax.Written(f).HasCrc() <==> f.protected
    ensures Syntax.Written(f).LayerBits() == 4 - f.layer && FrameSamples(Syntax.Written(f)) == Pcm(f)
  {
    WrittenSecond(f);
    WrittenThird(f);
    WrittenRow(f);
    WrittenRate(f);
  }

  /** The header before, the one at the front and the one where the frame ends belong together. */
  ghost predicate Continues(before: Fields, mp3: seq<Byte>, size: nat, free: nat) {
    4 < |mp3| && HdrValid(HdrAt(mp3, 0)) &&
    var f := FieldsOf(HdrAt(mp3, 0));
    && SameKind(before, f) && Sensible(f) && Sized(f, size, free)
    && (size == |mp3| ||
        (size + 4 <= |mp3| && HdrValid(HdrAt(mp3, size)) && SameKind(f, FieldsOf(HdrAt(mp3, size)))))
  }

  lemma {:induction false} ComputedAnnounces(f: Fields, size: nat, free: nat)
    requires Sensible(f) && size > 0
    requires var info := InfoOf(Syntax.Written(f)); size == SizeOf(info, free) + info.padding
    ensures Sized(f, size, free)
  {
    hide Fills, HdrValid, ComputedBytes, Hz, FrameBits, PaddingBytes;
    WrittenValid(f);
    WrittenFree(f);
    WrittenPadding(f);
    if f.bitrate > 0 { WrittenBytes(f, ComputedBytes(Syntax.Written(f))); }
  }

  lemma {:induction false} MatchedKinds(f: Fields, h: Hdr)
    requires Syntax.Writable(f) && Compare(InfoOf(Syntax.Written(f)), InfoOf(h))
    ensures HdrValid(h) && Sensible(FieldsOf(h)) && Syntax.Written(FieldsOf(h)) == h && SameKind(f, FieldsOf(h))
  {
    hide HdrValid, Compare, InfoOf;
    MatchValid(InfoOf(Syntax.Written(f)), h);
    FieldsWritten(h);
    WrittenMatch(f, FieldsOf(h));
  }

  lemma {:induction false} MatchValid(a: Info, h: Hdr)
    requires Compare(a, InfoOf(h))
    ensures HdrValid(h)
  {
  }

  lemma {:induction false} ReuseContinues(dec: Dec, before: Fields, mp3: seq<Byte>) returns (size: nat)
    requires Syntax.Writable(before) && dec.header == Some(Syntax.Written(before))
    requires Reuse(dec, ViewOf(mp3), |mp3|)
    ensures Continues(before, mp3, size, dec.free)
  {
    hide HdrValid, Compare, InfoOf, Sized, HdrAt, FieldsOf;
    var v := ViewOf(mp3);
    size := SizeOf(v[0], dec.free) + v[0].padding;
    MatchedKinds(before, HdrAt(mp3, 0));
    var f := FieldsOf(HdrAt(mp3, 0));
    ComputedAnnounces(f, size, dec.free);
    if size != |mp3| { MatchedKinds(f, HdrAt(mp3, size)); }
  }

  /** When they do not belong together, or no header has been seen, the decoder does what a fresh one
      does: it forgets all it holds. */
  lemma {:induction false} Resyncs(dec: Dec, before: Fields, mp3: seq<Byte>, pcm: bool, otherOk: bool)
    requires dec.header.Some? ==> Syntax.Writable(before) && dec.header == Some(Syntax.Written(before))
    requires dec.header.Some? ==> forall size: nat :: !Continues(before, mp3, size, dec.free)
    ensures Decode(dec, mp3, pcm, otherOk) == Decode(Dec(None, 0, []), mp3, pcm, otherOk)
  {
    hide Continues, Search, Compare, SizeOf;
    if Reuse(dec, ViewOf(mp3), |mp3|) {
      var size := ReuseContinues(dec, before, mp3);
      assert false;
    }
    var (dec1, i, size) := Locate(dec, ViewOf(mp3), |mp3|);
    SiteIs(dec, mp3, dec1, i, size);
    SiteIs(Dec(None, 0, []), mp3, dec1, i, size);
    DecodeAtSite(dec, mp3, pcm, otherOk, SiteOf(dec, mp3));
    DecodeAtSite(Dec(None, 0, []), mp3, pcm, otherOk, SiteOf(dec, mp3));
  }

  /** So it takes a Layer I or II frame: if samples are wanted and it cannot be decoded, the header
      is forgotten, and nothing else. */
  lemma {:induction false} TakesOther(dec: Dec, mp3: seq<Byte>, before: Fields, f: Fields, size: nat, next: Fields,
          pcm: bool, otherOk: bool)
    requires Syntax.Writable(before) && dec.header == Some(Syntax.Written(before))
    requires Announced(mp3, before, f, size, next, dec.free) && f.layer != 3
    ensures Decode(dec, mp3, pcm, otherOk) ==
      (size, if pcm && !otherOk then Outcome(Dec(None, dec.free, dec.reserv), 0, None)
             else Outcome(Dec(Some(Syntax.Written(f)), dec.free, dec.reserv), if f.layer == 1 then 384 else 1152, None))
  {
    hide Announces, Decode, Locate, HdrValid, Pcm, FrameSamples;
    TakesFront(dec, mp3, before, f, size, next, pcm, otherOk);
    OtherFrame(f, mp3, size);
  }

  lemma {:induction false} OtherFrame(f: Fields, mp3: seq<Byte>, size: nat)
    requires Sensible(f) && f.layer != 3 && 4 <= |mp3| && size <= |mp3| && HdrAt(mp3, 0) == Syntax.Written(f)
    ensures FrameAtOffset(mp3, 0, size) ==
      FrameData(Syntax.Written(f), if f.layer == 1 then 384 else 1152, false, None)
  {
    hide HdrValid;
    WrittenSecond(f);
    WrittenRate(f);
  }

  /** A Layer III frame that no writer may emit: there is a record of a reserved block type or with
      more than 288 big values, or there are more coded bits than there is main data. */
  ghost predicate Broken(e: Emitted) {
    && Sensible(e.fields) && e.fields.layer == 3 && e.body.Ok()
    && e.body.mode == Mode(e.fields.version.One?, e.fields.mode == 3, Row(e.fields))
    && |e.body.checksum| == (if e.fields.protected then 2 else 0)
    && (!AllWritable(e.body.side.records)
        || PartBits(e.body.side.records) > 8 * (e.body.side.mainDataBegin + |e.body.payload|))
  }

  /** A frame with something behind it, taken apart. */
  lemma {:induction false} Pieces(e: Emitted, mp3: seq<Byte>, more: seq<Byte>)
    requires Syntax.Writable(e.fields) && WellFormed(e.body.mode, e.body.side) && mp3 == Bytes(e) + more
    ensures |Bytes(e)| == 4 + |e.body.Bytes()| && |mp3| == |Bytes(e)| + |more|
    ensures HdrAt(mp3, 0) == Syntax.Written(e.fields) && mp3[4..] == e.body.Bytes() + more && mp3[|Bytes(e)|..] == more
  {
    var body := e.body.Bytes();
    var header := HeaderBytes(Syntax.Written(e.fields));
    assert (header + body) + more == header + (body + more);
  }

  lemma {:induction false} ParseBroken(e: Emitted, more: seq<Byte>)
    requires Broken(e)
    ensures Parse(Syntax.Written(e.fields), e.body.Bytes() + more, |e.body.Bytes()|) == None
  {
    hide AllWritable, Parse, SourceOf, HdrValid;
    ModeOfEmitted(e.fields);
    ParseOfWritten(Syntax.Written(e.fields), e.body, more, e.body.Start(), e.body.mode.Count());
  }

  lemma {:induction false} BrokenFrame(e: Emitted, mp3: seq<Byte>, more: seq<Byte>, size: nat)
    requires Broken(e) && mp3 == Bytes(e) + more && size == |Bytes(e)|
    ensures 4 <= size <= |mp3| &&
      FrameAtOffset(mp3, 0, size) == FrameData(Syntax.Written(e.fields), Pcm(e.fields), true, None)
  {
    hide Parse, Pcm, FrameSamples, Bytes, HdrValid;
    ModeOfEmitted(e.fields);
    Pieces(e, mp3, more);
    ParseBroken(e, more);
  }

  /** And so it takes a broken frame: the header is forgotten, and nothing else. */
  lemma {:induction false} TakesBroken(dec: Dec, e: Emitted, mp3: seq<Byte>, more: seq<Byte>, before: Fields,
          size: nat, next: Fields, pcm: bool, otherOk: bool)
    requires Syntax.Writable(before) && dec.header == Some(Syntax.Written(before)) && Broken(e)
    requires mp3 == Bytes(e) + more && size == |Bytes(e)| && Announced(mp3, before, e.fields, size, next, dec.free)
    ensures Decode(dec, mp3, pcm, otherOk) == (size, Outcome(Dec(None, dec.free, dec.reserv), 0, None))
  {
    hide Announced, Decode, Locate, FrameAtOffset, Broken, Bytes;
    TakesFront(dec, mp3, before, e.fields, size, next, pcm, otherOk);
    BrokenFrame(e, mp3, more, size);
  }

  // ----- a stream -----

  ghost predicate Formed(es: seq<Emitted>) {
    forall k | 0 <= k < |es| :: Syntax.Writable(es[k].fields) && WellFormed(es[k].body.mode, es[k].body.side)
  }

  /** All frames are what a writer emits, in free format with `free` bytes each but for padding, and
      of one kind. */
  ghost predicate EmitsAll(es: seq<Emitted>, free: nat) {
    && Formed(es)
    && (forall k | 0 <= k < |es| :: Emits(es[k], free))
    && (forall k | 0 < k < |es| :: SameKind(es[k - 1].fields, es[k].fields))
  }

  ghost function Stream(es: seq<Emitted>): seq<Byte>
    requires Formed(es)
  {
    if es == [] then [] else
      Tail(es);
      Bytes(es[0]) + Stream(es[1..])
  }

  lemma {:induction false} Tail(es: seq<Emitted>)
    requires Formed(es) && es != []
    ensures Formed(es[1..])
  {
  }

  /** Behind payloads of so many bytes, of which those before `end` have been used, every frame's
      main data starts main_data_begin bytes before its own payload but not before `end`, and its
      coded bits end before its payload does (section 2.4.2.7). */
  predicate PlacedBehind(es: seq<Emitted>, length: nat, end: nat) {
    es != [] ==>
      var w := es[0].body;
      var start := length - w.side.mainDataBegin;
      && end <= start && PartBits(w.side.records) <= 8 * (w.side.mainDataBegin + |w.payload|)
      && PlacedBehind(es[1..], length + |w.payload|, start + (PartBits(w.side.records) + 7) / 8)
  }

  lemma {:induction false} FrontOf(es: seq<Emitted>)
    requires Formed(es) && es != []
    ensures var n := |Bytes(es[0])|;
      && n == 4 + |es[0].body.Bytes()| && n >= 13
      && Stream(es) == Bytes(es[0]) + Stream(es[1..]) && Stream(es)[n..] == Stream(es[1..])
      && HdrAt(Stream(es), 0) == Syntax.Written(es[0].fields)
      && Stream(es)[4..] == es[0].body.Bytes() + Stream(es[1..])
  {
    hide Stream, Bytes;
    StreamIs(es);
    WrittenLength(es[0].body);
    Pieces(es[0], Stream(es), Stream(es[1..]));
  }

  lemma {:induction false} StreamIs(es: seq<Emitted>)
    requires Formed(es) && es != []
    ensures Formed(es[1..]) && Stream(es) == Bytes(es[0]) + Stream(es[1..])
  {
    Tail(es);
  }

  lemma {:induction false} WrittenLength(w: WrittenFrames.Written)
    requires WellFormed(w.mode, w.side)
    ensures |w.Bytes()| >= 9
  {
    WrittenBegins(w, []);
  }

  // ----- where the frames are found -----

  /** Where frame k starts. */
  ghost function At(es: seq<Emitted>, k: nat): nat
    requires Formed(es) && k <= |es|
  {
    if k == 0 then 0 else
      Tail(es);
      |Bytes(es[0])| + At(es[1..], k - 1)
  }

  lemma {:induction false} FirstAt(es: seq<Emitted>)
    requires Formed(es)
    ensures At(es, 0) == 0
  {
  }

  lemma {:induction false} LaterAt(es: seq<Emitted>, k: nat)
    requires Formed(es) && k < |es|
    ensures Formed(es[1..]) && At(es, k + 1) == |Bytes(es[0])| + At(es[1..], k)
  {
    Tail(es);
  }

  lemma {:induction false} NextAt(es: seq<Emitted>, k: nat)
    requires Formed(es) && k < |es|
    ensures At(es, k) + |Bytes(es[k])| == At(es, k + 1)
  {
    hide At;
    LaterAt(es, k);
    if k == 0 {
      FirstAt(es);
      FirstAt(es[1..]);
    } else {
      LaterAt(es, k - 1);
      NextAt(es[1..], k - 1);
    }
  }

  lemma {:induction false} AtEnd(es: seq<Emitted>, k: nat)
    requires Formed(es) && k <= |es|
    ensures At(es, |es|) == |Stream(es)| && At(es, k) <= |Stream(es)|
    decreases |es| - k
  {
    hide At, Stream, Bytes;
    if k < |es| {
      AtEnd(es, k + 1);
      NextAt(es, k);
    } else {
      WholeStream(es);
    }
  }

  lemma {:induction false} WholeStream(es: seq<Emitted>)
    requires Formed(es)
    ensures At(es, |es|) == |Stream(es)|
    decreases |es|
  {
    hide Bytes, Emits;
    if es != [] {
      LaterAt(es, |es| - 1);
      StreamIs(es);
      WholeStream(es[1..]);
    }
  }

  lemma {:induction false} HeaderOf(es: seq<Emitted>, k: nat, at: nat)
    requires Formed(es) && k < |es| && at == At(es, k)
    ensures at + 4 < |Stream(es)| && HdrAt(Stream(es), at) == Syntax.Written(es[k].fields)
    decreases |es|
  {
    hide Stream, At, HdrAt;
    FrontOf(es);
    if k == 0 {
      FirstAt(es);
    } else {
      LaterAt(es, k - 1);
      var i := At(es[1..], k - 1);
      HeaderOf(es[1..], k - 1, i);
      ShiftedHeader(Stream(es), |Bytes(es[0])|, i);
    }
  }

  lemma {:induction false} HeadersAt(es: seq<Emitted>, k: nat)
    requires Formed(es) && k < |es|
    ensures At(es, k) + |Bytes(es[k])| == At(es, k + 1) <= At(es, |es|) == |Stream(es)|
    ensures At(es, k) + 4 < |Stream(es)| && HdrAt(Stream(es), At(es, k)) == Syntax.Written(es[k].fields)
  {
    hide Stream, At;
    NextAt(es, k);
    AtEnd(es, k + 1);
    HeaderOf(es, k, At(es, k));
  }

  lemma {:induction false} ShiftedHeader(mp3: seq<Byte>, n: nat, i: nat)
    requires n + i + 4 <= |mp3|
    ensures HdrAt(mp3, n + i) == HdrAt(mp3[n..], i)
  {
  }

  lemma {:induction false} KindOfAll(es: seq<Emitted>, free: nat, k: nat)
    requires EmitsAll(es, free) && k < |es|
    ensures SameKind(es[0].fields, es[k].fields)
  {
    if k > 0 { KindOfAll(es, free, k - 1); }
  }

  lemma {:induction false} InfoAt(es: seq<Emitted>, free: nat, k: nat)
    requires EmitsAll(es, free) && k < |es|
    ensures At(es, k) < |ViewOf(Stream(es))|
    ensures var v := ViewOf(Stream(es)); var info := v[At(es, k)];
      && info.valid && info.layer3 && (info.bytes == 0 <==> es[0].fields.bitrate == 0)
      && At(es, k) + SizeOf(info, free) + info.padding == At(es, k + 1)
      && Compare(v[0], info)
  {
    hide Emits, Sized, InfoOf, Compare, HdrAt, Stream, At;
    HeadersAt(es, k);
    HeadersAt(es, 0);
    KindOfAll(es, free, k);
    EmittedSize(es, free, 0);
    EmittedSize(es, free, k);
    SizeIs(es[k].fields, |Bytes(es[k])|, free);
    WrittenMatch(es[0].fields, es[k].fields);
    assert At(es, 0) == 0 by { FirstAt(es); }
  }

  lemma {:induction false} EmittedSize(es: seq<Emitted>, free: nat, k: nat)
    requires EmitsAll(es, free) && k < |es|
    ensures Sensible(es[k].fields) && es[k].fields.layer == 3
    ensures WellFormed(es[k].body.mode, es[k].body.side) && Sized(es[k].fields, |Bytes(es[k])|, free)
  {
    assert Emits(es[k], free);
  }

  /** Headers at the given places, each leading to the next, match the first up to the end. */
  ghost predicate Chain(v: View, at: seq<nat>, free: nat) {
    && |at| >= 2 && at[|at| - 1] >= |v|
    && forall k | 0 <= k < |at| - 1 :: LinksAt(v, at, free, k)
  }

  predicate LinksAt(v: View, at: seq<nat>, free: nat, k: nat)
    requires k + 1 < |at|
  {
    && at[k] < |v| && at[k] + SizeOf(v[at[k]], free) + v[at[k]].padding == at[k + 1]
    && at[0] < |v| && Compare(v[at[0]], v[at[k]])
  }

  /** Then all boundaries are these places, and the search is content with the frame. */
  lemma {:induction false} ChainMatches(v: View, at: seq<nat>, free: nat, m: nat)
    requires Chain(v, at, free)
    ensures at[0] < |v| && MatchUpTo(v, at[0], free, m)
    ensures m < |at| ==> Boundary(v, at[0], free, m) == at[m]
    ensures m >= |at| ==> Boundary(v, at[0], free, m) == at[|at| - 1]
  {
    hide Compare;
    assert LinksAt(v, at, free, 0);
    if m > 0 {
      ChainMatches(v, at, free, m - 1);
      if m < |at| { assert LinksAt(v, at, free, m - 1); }
      if m < |at| - 1 { assert LinksAt(v, at, free, m); }
    }
  }

  /** A frame that a chain starts with is found, if none comes before it and its size is the one it
      announces or the least that fits. */
  lemma {:induction false} ChainFound(v: View, n: nat, at: seq<nat>, fb: nat, size: nat)
    requires Input(v, n) && Chain(v, at, fb) && at[0] < |v| && at[0] + 4 < n && v[at[0]].valid
    requires NoFrameBefore(v, n, at[0]) && size > 0 && at[0] + size == at[1] <= n
    requires |at| == 2 ==> at[0] == 0 && size == n
    requires if v[at[0]].bytes != 0 then fb == v[at[0]].bytes else LeastFreeSize(v, n, at[0], size)
    ensures Search(v, n) == Location(at[0], size, if v[at[0]].bytes != 0 then 0 else fb)
  {
    hide Compare, MatchUpTo, LeastFreeSize, NoFrameBefore;
    assert LinksAt(v, at, fb, 0);
    ChainMatches(v, at, fb, 10);
    ChainMatches(v, at, fb, 1);
    if |at| > 2 { assert LinksAt(v, at, fb, 1); }
    assert FrameAt(v, n, at[0], fb, size);
    SearchIs(v, n, at[0], size, if v[at[0]].bytes != 0 then 0 else fb, fb);
  }

  /** In free format no size before the right one fits, if no matching header comes before. */
  lemma {:induction false} RightFreeSize(v: View, n: nat, at: seq<nat>, free: nat)
    requires Input(v, n) && |v| > 0 && Chain(v, at, free) && at[0] == 0 && |at| >= 4 && at[|at| - 1] == n
    requires v[0].bytes == 0 && 12 <= free && at[1] < 2304
    requires forall j | 4 <= j < at[1] && j < |v| :: !Compare(v[0], v[j])
    ensures LeastFreeSize(v, n, 0, at[1])
  {
    hide Compare;
    assert LinksAt(v, at, free, 0) && LinksAt(v, at, free, 1) && LinksAt(v, at, free, 2);
    LaterPlaces(v, at, free, 3);
    assert InfoOk(v[0]) && InfoOk(v[at[1]]);
    assert v[at[1]].bytes == 0 && v[at[2]].bytes == 0 by { SameFreeness(v, at, free, 1); SameFreeness(v, at, free, 2); }
  }

  lemma {:induction false} SameFreeness(v: View, at: seq<nat>, free: nat, k: nat)
    requires ViewOk(v) && |v| > 0 && Chain(v, at, free) && at[0] == 0 && k + 1 < |at| && v[0].bytes == 0
    ensures at[k] < |v| && v[at[k]].bytes == 0
  {
    assert LinksAt(v, at, free, 0) && LinksAt(v, at, free, k);
    assert InfoOk(v[0]) && InfoOk(v[at[k]]);
  }

  lemma {:induction false} LaterPlaces(v: View, at: seq<nat>, free: nat, k: nat)
    requires Chain(v, at, free) && k < |at|
    ensures at[k] <= at[|at| - 1]
    decreases |at| - k
  {
    if k < |at| - 1 {
      assert LinksAt(v, at, free, k);
      LaterPlaces(v, at, free, k + 1);
    }
  }

  ghost function Places(es: seq<Emitted>): (at: seq<nat>)
    requires Formed(es)
    ensures |at| == |es| + 1 && forall k | 0 <= k <= |es| :: at[k] == At(es, k)
  {
    seq(|es| + 1, k requires 0 <= k <= |es| => At(es, k))
  }

  lemma {:induction false} FramesChain(es: seq<Emitted>, free: nat, fb: nat)
    requires EmitsAll(es, free) && es != [] && (es[0].fields.bitrate == 0 ==> fb == free)
    ensures Chain(ViewOf(Stream(es)), Places(es), fb)
  {
    hide At, Stream, Compare, Emits;
    var v, at := ViewOf(Stream(es)), Places(es);
    FirstAt(es);
    HeadersAt(es, |es| - 1);
    forall k | 0 <= k < |at| - 1 ensures LinksAt(v, at, fb, k) { InfoAt(es, free, k); }
  }

  /** Nothing in the first frame looks like a header of its kind. */
  ghost predicate NoFalseSync(es: seq<Emitted>)
    requires Formed(es) && es != []
  {
    forall j, g: Fields | 4 <= j < |Bytes(es[0])| && j + 4 <= |Stream(es)| && Sensible(g) &&
      SameKind(es[0].fields, g) :: HdrAt(Stream(es), j) != Syntax.Written(g)
  }

  /** A free-format stream whose size can be found out: it has three frames of less than 2304 bytes,
      and no false header in the first. */
  ghost predicate Discoverable(es: seq<Emitted>)
    requires Formed(es) && es != []
  {
    es[0].fields.bitrate == 0 ==> |es| >= 3 && |Bytes(es[0])| < 2304 && NoFalseSync(es)
  }

  /** Every valid header is a written one. */
  lemma {:induction false} NoMatchInside(es: seq<Emitted>, j: nat)
    requires Formed(es) && es != [] && NoFalseSync(es) && 4 <= j < |Bytes(es[0])| && j < |ViewOf(Stream(es))|
    ensures !Compare(InfoOf(Syntax.Written(es[0].fields)), ViewOf(Stream(es))[j])
  {
    hide Stream, HdrValid, Compare, Bytes;
    var h := HdrAt(Stream(es), j);
    if Compare(InfoOf(Syntax.Written(es[0].fields)), InfoOf(h)) { MatchedKinds(es[0].fields, h); }
  }

  lemma {:induction false} FreeSizeFound(es: seq<Emitted>, free: nat)
    requires EmitsAll(es, free) && es != [] && es[0].fields.bitrate == 0 && Discoverable(es)
    ensures LeastFreeSize(ViewOf(Stream(es)), |Stream(es)|, 0, |Bytes(es[0])|)
  {
    hide Stream, Chain, Emits, Compare, NoFalseSync, LeastFreeSize, At, InfoOf, Sized, HdrAt;
    var v, at := ViewOf(Stream(es)), Places(es);
    FramesChain(es, free, free);
    InfoAt(es, free, 0);
    FirstAt(es);
    FrontOf(es);
    HeadersAt(es, 0);
    HeadersAt(es, |es| - 1);
    ViewIsOk(Stream(es));
    EmittedSize(es, free, 0);
    FreeAtLeast(es[0].fields, |Bytes(es[0])|, free);
    forall j | 4 <= j < at[1] && j < |v| ensures !Compare(v[0], v[j]) { NoMatchInside(es, j); }
    RightFreeSize(v, |Stream(es)|, at, free);
  }

  lemma {:induction false} FreeAtLeast(f: Fields, size: nat, free: nat)
    requires Sensible(f) && f.layer == 3 && f.bitrate == 0 && Sized(f, size, free) && size >= 13
    ensures free >= 12
  {
  }

  lemma {:induction false} FirstPlaces(es: seq<Emitted>)
    requires Formed(es) && es != []
    ensures var at := Places(es); at[0] == 0 && at[1] == |Bytes(es[0])| <= |Stream(es)| && at[1] > 0
    ensures 4 < |Stream(es)| && 0 < |ViewOf(Stream(es))| && (|es| == 1 ==> |Bytes(es[0])| == |Stream(es)|)
  {
    hide Stream, At, HdrAt;
    FirstAt(es);
    FrontOf(es);
    HeadersAt(es, 0);
    HeadersAt(es, |es| - 1);
  }

  lemma {:induction false} FirstLocation(es: seq<Emitted>, free: nat, fb: nat)
    requires EmitsAll(es, free) && es != [] && Discoverable(es) && 0 < |ViewOf(Stream(es))|
    requires fb == if es[0].fields.bitrate == 0 then free else ViewOf(Stream(es))[0].bytes
    ensures Search(ViewOf(Stream(es)), |Stream(es)|) ==
      Location(0, |Bytes(es[0])|, if es[0].fields.bitrate == 0 then free else 0)
  {
    hide Stream, Emits, Search, Discoverable, LeastFreeSize, Chain, HdrAt, At, Bytes, Compare, NoFrame;
    FramesChain(es, free, fb);
    FirstPlaces(es);
    InfoAt(es, free, 0);
    FirstAt(es);
    ViewIsOk(Stream(es));
    if es[0].fields.bitrate == 0 { FreeSizeFound(es, free); }
    ChainFound(ViewOf(Stream(es)), |Stream(es)|, Places(es), fb, |Bytes(es[0])|);
  }

  /** A fresh decoder finds the first frame. */
  lemma {:induction false} FirstFound(es: seq<Emitted>, free: nat)
    requires EmitsAll(es, free) && es != [] && Discoverable(es)
    ensures Locate(Dec(None, 0, []), ViewOf(Stream(es)), |Stream(es)|) ==
      (Dec(None, if es[0].fields.bitrate == 0 then free else 0, []), 0, |Bytes(es[0])|)
  {
    hide Stream, Emits, Search, Discoverable, Chain, HdrAt, At;
    FirstAt(es);
    HeadersAt(es, 0);
    InfoAt(es, free, 0);
    FirstLocation(es, free, if es[0].fields.bitrate == 0 then free else ViewOf(Stream(es))[0].bytes);
  }

  // ----- behind other bytes -----

  /** No header starts in the bytes before the stream. */
  ghost predicate NoHeaders(junk: seq<Byte>, es: seq<Emitted>)
    requires Formed(es)
  {
    forall i | 0 <= i < |junk| && i + 4 <= |junk + Stream(es)| :: !HdrValid(HdrAt(junk + Stream(es), i))
  }

  lemma {:induction false} ShiftedView(junk: seq<Byte>, s: seq<Byte>, i: nat)
    requires i + 4 <= |s|
    ensures |junk| + i < |ViewOf(junk + s)| && ViewOf(junk + s)[|junk| + i] == ViewOf(s)[i]
  {
    ShiftedHeader(junk + s, |junk|, i);
    assert (junk + s)[|junk|..] == s;
  }

  ghost function ShiftedPlaces(junk: seq<Byte>, es: seq<Emitted>): (at: seq<nat>)
    requires Formed(es)
    ensures |at| == |es| + 1 && forall k | 0 <= k <= |es| :: at[k] == |junk| + At(es, k)
  {
    seq(|es| + 1, k requires 0 <= k <= |es| => |junk| + At(es, k))
  }

  lemma {:induction false} LinkMoved(w: View, at: seq<nat>, free: nat, v: View, moved: seq<nat>, fb: nat, d: nat,
          k: nat)
    requires k + 1 < |at| == |moved| && LinksAt(w, at, free, k) && w[at[k]].bytes != 0
    requires moved[0] == d + at[0] && moved[k] == d + at[k] && moved[k + 1] == d + at[k + 1]
    requires d + at[k] < |v| && d + at[0] < |v| && v[d + at[k]] == w[at[k]] && v[d + at[0]] == w[at[0]]
    ensures LinksAt(v, moved, fb, k)
  {
    hide Compare;
  }

  lemma {:induction false} ShiftedLink(junk: seq<Byte>, es: seq<Emitted>, free: nat, fb: nat, k: nat)
    requires EmitsAll(es, free) && k < |es| && es[0].fields.bitrate > 0
    ensures LinksAt(ViewOf(junk + Stream(es)), ShiftedPlaces(junk, es), fb, k)
  {
    hide At, Stream, Compare, Emits, SizeOf, HdrAt, LinksAt, InfoOf;
    var at := Places(es);
    FramesChain(es, free, free);
    FirstPlaces(es);
    HeadersAt(es, k);
    InfoAt(es, free, k);
    ShiftedView(junk, Stream(es), at[0]);
    ShiftedView(junk, Stream(es), at[k]);
    LinkMoved(ViewOf(Stream(es)), at, free, ViewOf(junk + Stream(es)), ShiftedPlaces(junk, es), fb, |junk|, k);
  }

  lemma {:induction false} ShiftedChain(junk: seq<Byte>, es: seq<Emitted>, free: nat, fb: nat)
    requires EmitsAll(es, free) && es != [] && es[0].fields.bitrate > 0
    ensures Chain(ViewOf(junk + Stream(es)), ShiftedPlaces(junk, es), fb)
  {
    hide At, Stream, LinksAt, Emits;
    HeadersAt(es, |es| - 1);
    var v, at := ViewOf(junk + Stream(es)), ShiftedPlaces(junk, es);
    forall k | 0 <= k < |at| - 1 ensures LinksAt(v, at, fb, k) { ShiftedLink(junk, es, free, fb, k); }
  }

  lemma {:induction false} NoFrameInJunk(junk: seq<Byte>, es: seq<Emitted>)
    requires Formed(es) && es != [] && NoHeaders(junk, es)
    ensures |junk| <= |ViewOf(junk + Stream(es))|
    ensures NoFrameBefore(ViewOf(junk + Stream(es)), |junk + Stream(es)|, |junk|)
  {
    hide Stream, HdrValid, ComputedBytes, Confirmed, LeastFreeSize;
    FrontOf(es);
    var mp3 := junk + Stream(es);
    forall i | 0 <= i < |junk| ensures NoFrame(ViewOf(mp3), |mp3|, i) {
      assert !ViewOf(mp3)[i].valid;
    }
  }

  lemma {:induction false} FoundBehindJunk(junk: seq<Byte>, es: seq<Emitted>, free: nat)
    requires EmitsAll(es, free) && |es| >= 2 && es[0].fields.bitrate > 0 && NoHeaders(junk, es)
    ensures var mp3, dec := junk + Stream(es), Dec(None, 0, []);
      Locate(dec, ViewOf(mp3), |mp3|) == (dec, |junk|, |Bytes(es[0])|)
  {
    hide Stream, Emits, Search, Chain, HdrAt, At, Compare, NoFrameBefore, NoHeaders, InfoOf;
    var mp3 := junk + Stream(es);
    FirstPlaces(es);
    FirstAt(es);
    NextAt(es, 0);
    InfoAt(es, free, 0);
    ShiftedView(junk, Stream(es), 0);
    var fb := ViewOf(Stream(es))[0].bytes;
    ShiftedChain(junk, es, free, fb);
    NoFrameInJunk(junk, es);
    ViewIsOk(mp3);
    ChainFound(ViewOf(mp3), |mp3|, ShiftedPlaces(junk, es), fb, |Bytes(es[0])|);
  }

  lemma {:induction false} SameFrame(junk: seq<Byte>, s: seq<Byte>, size: nat)
    requires 4 <= |s| && size <= |s|
    ensures FrameAtOffset(junk + s, |junk|, size) == FrameAtOffset(s, 0, size)
  {
    hide FrameFrom;
    ShiftedHeader(junk + s, |junk|, 0);
    assert (junk + s)[|junk|..] == s;
    assert (junk + s)[|junk| + 4..] == s[4..];
  }

  /** Bytes in which no header starts are stepped over: a fresh decoder does with the stream behind
      them what it would have done without them. */
  lemma {:induction false} JunkSkipped(junk: seq<Byte>, es: seq<Emitted>, free: nat, pcm: bool, otherOk: bool)
    requires EmitsAll(es, free) && |es| >= 2 && es[0].fields.bitrate > 0 && NoHeaders(junk, es)
    ensures var dec := Dec(None, 0, []);
      && Decode(dec, Stream(es), pcm, otherOk).0 == |Bytes(es[0])|
      && Decode(dec, junk + Stream(es), pcm, otherOk) ==
         (|junk| + |Bytes(es[0])|, Decode(dec, Stream(es), pcm, otherOk).1)
  {
    hide Stream, Emits, Locate, Decode, NoHeaders, FrameAtOffset, Body, Bytes;
    var dec, mp3, n := Dec(None, 0, []), junk + Stream(es), |Bytes(es[0])|;
    FirstPlaces(es);
    FirstFound(es, free);
    FoundBehindJunk(junk, es, free);
    SameFrame(junk, Stream(es), n);
    SiteIs(dec, mp3, dec, |junk|, n);
    SiteIs(dec, Stream(es), dec, 0, n);
    DecodeAtSite(dec, mp3, pcm, otherOk, SiteOf(dec, mp3));
    DecodeAtSite(dec, Stream(es), pcm, otherOk, SiteOf(dec, Stream(es)));
  }

  // ----- what a frame is parsed as -----

  /** The records come out as what they mean, whatever scfsi they are handed. */
  predicate RecordsRead(granules: seq<Granule>, w: WrittenFrames.Written) {
    |granules| == |w.side.records| &&
    forall g | 0 <= g < |granules| :: granules[g] == Meaning(w.mode, w.side.records[g], granules[g].scfsi)
  }

  lemma {:induction false} RecordsAre(w: WrittenFrames.Written, more: seq<Byte>, start: nat, n: nat)
    requires w.Ok() && AllWritable(w.side.records) && start == w.Start() && n == w.mode.Count()
    ensures RecordsRead(Granules(SourceOf(w, more), w.mode, start, n), w)
  {
    hide SourceOf, Meaning, GranuleOk, GranuleAt;
    var s := SourceOf(w, more);
    forall g | 0 <= g < n
      ensures Granules(s, w.mode, start, n)[g] ==
        Meaning(w.mode, w.side.records[g], Granules(s, w.mode, start, n)[g].scfsi)
    {
      GranuleAtIndex(s, w.mode, start, n, g);
      WrittenRecord(w, more, start, g);
      ScfsiOfMeaning(w.mode, w.side.records[g], Scfsi(s, w.mode, start, g));
    }
  }

  lemma {:induction false} ScfsiOfMeaning(mode: Mode, r: Record, scfsi: nat)
    ensures Meaning(mode, r, scfsi).scfsi == scfsi
  {
  }

  /** A frame's parse has what was written. */
  ghost predicate ParsedAs(p: Parsed, w: WrittenFrames.Written) {
    && p.begin == w.side.mainDataBegin && p.begin <= 511 && p.partBits == PartBits(w.side.records)
    && p.payload == w.payload && RecordsRead(p.granules, w)
  }

  lemma {:induction false} ParseEmitted(e: Emitted, free: nat, more: seq<Byte>) returns (p: Parsed)
    requires Emits(e, free) && PartBits(e.body.side.records) <= 8 * (e.body.side.mainDataBegin + |e.body.payload|)
    ensures Parse(Syntax.Written(e.fields), e.body.Bytes() + more, |e.body.Bytes()|) == Some(p)
    ensures ParsedAs(p, e.body) && PartsFit(p)
  {
    hide Sized, RecordsRead, Parse, SourceOf, HdrValid;
    var w := e.body;
    var start, n := w.Start(), w.mode.Count();
    ModeOfEmitted(e.fields);
    ParseOfWritten(Syntax.Written(e.fields), w, more, start, n);
    RecordsAre(w, more, start, n);
    p := Parse(Syntax.Written(e.fields), w.Bytes() + more, |w.Bytes()|).value;
    BeginFits(Syntax.Written(e.fields), w.Bytes() + more, |w.Bytes()|);
  }

  lemma {:induction false} FrameEmitted(es: seq<Emitted>, free: nat) returns (p: Parsed)
    requires EmitsAll(es, free) && es != []
    requires PartBits(es[0].body.side.records) <= 8 * (es[0].body.side.mainDataBegin + |es[0].body.payload|)
    ensures |Bytes(es[0])| <= |Stream(es)| && 4 <= |Stream(es)| && ParsedAs(p, es[0].body) && PartsFit(p)
    ensures FrameAtOffset(Stream(es), 0, |Bytes(es[0])|) ==
      FrameData(Syntax.Written(es[0].fields), Pcm(es[0].fields), true, Some(p))
  {
    hide Stream, ParsedAs, Parse, Pcm, FrameSamples;
    Tail(es);
    FrontOf(es);
    EmittedSize(es, free, 0);
    ModeOfEmitted(es[0].fields);
    p := ParseEmitted(es[0], free, Stream(es[1..]));
  }
}
