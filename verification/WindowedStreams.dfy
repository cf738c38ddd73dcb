/**
 The two pull loops side by side (include/dr_mp3.h, `drmp3_decode_next_frame_ex__memory`
 and `__callbacks`): behind a read callback the frame decoder is shown a window of the
 stream and not all of it. While every frame is found where it is expected, that makes no
 difference; a search may end differently at the end of a window.
 */
module WindowedStreams {
  import opened BitString
  import opened BitReader
  import opened SideInfo
  import opened Header
  import opened SyncSearch
  import opened FrameDecoder
  import opened StreamPull

  // ----- a frame is parsed from its own bytes -----

  /** Two sources of which every field is read alike. */
  ghost predicate Alike(a: Source, b: Source) {
    a.limit == b.limit && forall pos: nat, n: nat :: F(a, pos, n) == F(b, pos, n)
  }

  lemma {:induction false} ValueAlike(a: Bits, b: Bits, from: nat, to: nat)
    requires forall i: nat :: i < to ==> BitAt(a, i) == BitAt(b, i)
    ensures Value(a, from, to) == Value(b, from, to)
  {
    if from < to { ValueAlike(a, b, from, to - 1); }
  }

  predicate SameBytes(x: seq<Byte>, y: seq<Byte>, bytes: int)
    requires bytes <= |x| && bytes <= |y|
  {
    bytes >= 0 ==> x[..bytes] == y[..bytes]
  }

  lemma BitAlike(x: seq<Byte>, y: seq<Byte>, bytes: nat, i: nat)
    requires bytes <= |x| && bytes <= |y| && SameBytes(x, y, bytes) && i < 8 * bytes
    ensures BitAt(BitsOf(x), i) == BitAt(BitsOf(y), i)
  {
    var j := i / 8;
    assert x[..bytes][j] == y[..bytes][j];
  }

  lemma BytesAlike(x: seq<Byte>, y: seq<Byte>, bytes: int)
    requires bytes <= |x| && bytes <= |y| && SameBytes(x, y, bytes)
    ensures Alike(Source(BitsOf(x), 8 * bytes), Source(BitsOf(y), 8 * bytes))
  {
    var a, b := Source(BitsOf(x), 8 * bytes), Source(BitsOf(y), 8 * bytes);
    forall pos: nat, n: nat ensures F(a, pos, n) == F(b, pos, n) {
      if pos + n <= 8 * bytes {
        forall i: nat | i < pos + n ensures BitAt(a.bits, i) == BitAt(b.bits, i) {
          BitAlike(x, y, bytes, i);
        }
        ValueAlike(a.bits, b.bits, pos, pos + n);
      }
    }
  }

  lemma WindowAlike(a: Source, b: Source, c: nat)
    requires Alike(a, b)
    ensures Switched(a, c) == Switched(b, c) && WindowAt(a, c) == WindowAt(b, c)
  {
    hide Field;
  }

  lemma RecordAlike(a: Source, b: Source, mode: Mode, c: nat, scfsi: nat)
    requires Alike(a, b)
    ensures GranuleOk(a, mode, c) == GranuleOk(b, mode, c) && IsShort(a, mode, c) == IsShort(b, mode, c)
    ensures GranuleAt(a, mode, c, scfsi) == GranuleAt(b, mode, c, scfsi) && F(a, c, 12) == F(b, c, 12)
  {
    hide Field, WindowAt, Switched;
    WindowAlike(a, b, WindowPos(mode, c));
  }

  lemma PrefixAlike(a: Source, b: Source, mode: Mode, start: nat)
    requires Alike(a, b)
    ensures MainDataBegin(a, mode, start) == MainDataBegin(b, mode, start)
    ensures ScfsiBefore(a, mode, start, 0) == ScfsiBefore(b, mode, start, 0)
  {
    hide Field;
    assert SelectionField(a, mode, start) == SelectionField(b, mode, start);
  }

  lemma {:induction false} RecordsAlike(a: Source, b: Source, mode: Mode, start: nat, n: nat)
    requires Alike(a, b)
    ensures AllOk(a, mode, start, n) == AllOk(b, mode, start, n)
    ensures PartSum(a, mode, start, n) == PartSum(b, mode, start, n)
    ensures ScfsiBefore(a, mode, start, n) == ScfsiBefore(b, mode, start, n)
    ensures Granules(a, mode, start, n) == Granules(b, mode, start, n)
  {
    hide F, Alike, GranuleOk, GranuleAt, IsShort, BaseOf, ScfsiWord;
    if n == 0 {
      PrefixAlike(a, b, mode, start);
    } else {
      var k := n - 1;
      RecordsAlike(a, b, mode, start, k);
      RecordAlike(a, b, mode, BaseOf(mode, start, k), Scfsi(b, mode, start, k));
      assert Scfsi(a, mode, start, k) == Scfsi(b, mode, start, k);
    }
  }

  lemma ParseAlike(hdr: Hdr, x: seq<Byte>, y: seq<Byte>, bytes: int)
    requires bytes <= |x| && bytes <= |y| && SameBytes(x, y, bytes)
    ensures Parse(hdr, x, bytes) == Parse(hdr, y, bytes)
  {
    hide AllOk, PartSum, Granules, MainDataBegin;
    var a, b := Source(BitsOf(x), 8 * bytes), Source(BitsOf(y), 8 * bytes);
    var mode, start := ModeOf(hdr), SideStart(hdr);
    BytesAlike(x, y, bytes);
    PrefixAlike(a, b, mode, start);
    RecordsAlike(a, b, mode, start, mode.Count());
    var end := start + mode.TotalBits();
    if end <= 8 * bytes {
      assert x[end / 8..bytes] == x[..bytes][end / 8..];
      assert y[end / 8..bytes] == y[..bytes][end / 8..];
    }
  }

  /** What comes behind a frame does not matter to it. */
  lemma FrameAlike(mp3: seq<Byte>, m: nat, size: nat)
    requires m <= |mp3| && HDR_SIZE <= m && size <= m
    ensures FrameAtOffset(mp3[..m], 0, size) == FrameAtOffset(mp3, 0, size)
  {
    hide Parse;
    var bytes := size - HDR_SIZE;
    var x, y := mp3[..m][HDR_SIZE..], mp3[HDR_SIZE..];
    assert bytes >= 0 ==> x[..bytes] == y[..bytes];
    ParseAlike(HdrAt(mp3, 0), x, y, bytes);
  }

  // ----- the same frame in the window -----

  /** The frame at the front is a Layer III frame, where the header before announces it; or
      where a resync finds it, if its size is not one to be discovered. */
  ghost predicate InFront(dec: Dec, mp3: seq<Byte>) {
    |mp3| > HDR_SIZE && HdrAt(mp3, 0).LayerBits() == 1 &&
    var (dec1, i, size) := Locate(dec, ViewOf(mp3), |mp3|);
    i == 0 && size > 0 && (HdrAt(mp3, 0).FreeFormat() ==> Reuse(dec, ViewOf(mp3), |mp3|))
  }

  /** The header readings of a stream, and of a window of it that is not all of it. */
  ghost predicate Windowed(v: Header.View, n: nat, w: Header.View, m: nat) {
    && MIN_CHUNK <= m < n && |v| == n - 3 && |w| == m - 3
    && (forall j :: 0 <= j < |w| ==> w[j] == v[j]) && InfoOk(v[0]) && v[0].layer3
  }

  /** No frame is as long as the window. */
  lemma ReuseAlike(dec: Dec, v: Header.View, n: nat, w: Header.View, m: nat)
    requires Windowed(v, n, w, m) && dec.free < MAX_FREE_FORMAT
    ensures Reuse(dec, w, m) == Reuse(dec, v, n)
  {
    assert w[0] == v[0];
    var size := SizeOf(v[0], dec.free) + v[0].padding;
    if v[0].valid { assert size < |w| && w[size] == v[size]; }
  }

  lemma {:induction false} BoundaryAlike(v: Header.View, w: Header.View, i: nat, free: nat, k: nat)
    requires |w| <= |v| && i < |w| && forall j :: 0 <= j < |w| ==> w[j] == v[j]
    ensures Boundary(w, i, free, k) < |w| ==> Boundary(v, i, free, k) == Boundary(w, i, free, k)
    ensures MatchUpTo(v, i, free, k) ==> MatchUpTo(w, i, free, k)
  {
    if k > 0 { BoundaryAlike(v, w, i, free, k - 1); }
  }

  lemma FoundAlike(v: Header.View, n: nat, w: Header.View, m: nat, size: nat, fb: nat)
    requires Windowed(v, n, w, m) && size > 0 && v[0].bytes != 0 && Found(v, n, 0, size, 0, fb)
    ensures Found(w, m, 0, size, 0, fb)
  {
    hide MatchUpTo, LeastFreeSize;
    assert w[0] == v[0];
    assert Boundary(w, 0, fb, 0) == 0;
    assert Boundary(w, 0, fb, 1) == size;
    BoundaryAlike(v, w, 0, fb, SYNC_MATCHES);
  }

  lemma LocateAlike(dec: Dec, v: Header.View, n: nat, w: Header.View, m: nat)
    requires Windowed(v, n, w, m) && Header.ViewOk(v) && dec.free < MAX_FREE_FORMAT
    requires var (dec1, i, size) := Locate(dec, v, n); i == 0 && size > 0
    requires v[0].key.free ==> Reuse(dec, v, n)
    ensures Locate(dec, w, m) == Locate(dec, v, n)
  {
    hide Found, Search;
    assert w[0] == v[0];
    ReuseAlike(dec, v, n, w, m);
    if !Reuse(dec, v, n) { SearchAlike(v, n, w, m); }
  }

  lemma SearchAlike(v: Header.View, n: nat, w: Header.View, m: nat)
    requires Windowed(v, n, w, m) && Header.ViewOk(v) && !v[0].key.free
    requires Search(v, n).i == 0 && Search(v, n).size > 0
    ensures Search(w, m) == Search(v, n)
  {
    hide FrameAt;
    var fb := SearchFromFound(v, n, 0);
    var size := Search(v, n).size;
    FoundProgress(v, n, 0, size, Search(v, n).free, fb);
    FoundAlike(v, n, w, m, size, fb);
    SearchIs(w, m, 0, size, 0, fb);
  }

  // ----- the same call -----

  lemma PrefixView(mp3: seq<Byte>, m: nat)
    requires MIN_CHUNK <= m < |mp3| && HdrAt(mp3, 0).LayerBits() == 1
    ensures Windowed(ViewOf(mp3), |mp3|, ViewOf(mp3[..m]), m) && Header.ViewOk(ViewOf(mp3))
    ensures ViewOf(mp3)[0].key.free == HdrAt(mp3, 0).FreeFormat()
  {
    ViewIsOk(mp3);
    var v, w := ViewOf(mp3), ViewOf(mp3[..m]);
    forall j | 0 <= j < |w| ensures w[j] == v[j] {
      assert HdrAt(mp3[..m], j) == HdrAt(mp3, j);
    }
  }

  /** A call that finds its frame at the front works on the same frame in a window. */
  lemma SiteAlike(dec: Dec, mp3: seq<Byte>, m: nat)
    requires DecOk(dec) && InFront(dec, mp3) && m <= |mp3| && (m == |mp3| || MIN_CHUNK <= m)
    ensures SiteOf(dec, mp3[..m]) == SiteOf(dec, mp3)
    ensures SiteOf(dec, mp3).Frame? && SiteOf(dec, mp3).frame.layer3
  {
    hide Locate, Reuse, Windowed, FrameAtOffset, SiteOf;
    var (dec1, i, size) := Locate(dec, ViewOf(mp3), |mp3|);
    SiteIs(dec, mp3, dec1, i, size);
    assert FrameAtOffset(mp3, 0, size).layer3 by { FrameLayer(mp3, size); }
    if m == |mp3| {
      assert mp3[..m] == mp3;
    } else {
      LocatedFrame(dec, mp3);
      PrefixView(mp3, m);
      LocateAlike(dec, ViewOf(mp3), |mp3|, ViewOf(mp3[..m]), m);
      SiteIs(dec, mp3[..m], dec1, i, size);
      FrameAlike(mp3, m, size);
    }
  }

  lemma FrameLayer(mp3: seq<Byte>, size: nat)
    requires HDR_SIZE <= |mp3| && size <= |mp3| && HdrAt(mp3, 0).LayerBits() == 1
    ensures FrameAtOffset(mp3, 0, size).layer3
  {
  }

  /** The call itself: what becomes of the decoder, and what it consumes and yields. */
  lemma CallAlike(dec: Dec, mp3: seq<Byte>, m: nat, pcm: bool, otherOk: bool, otherOk': bool)
    requires DecOk(dec) && InFront(dec, mp3) && m <= |mp3| && (m == |mp3| || MIN_CHUNK <= m)
    ensures Decode(dec, mp3[..m], pcm, otherOk) == Decode(dec, mp3, pcm, otherOk')
    ensures DecOk(Decode(dec, mp3, pcm, otherOk').1.dec)
  {
    hide SiteOf, InFront, Layer3;
    SiteAlike(dec, mp3, m);
    var site := SiteOf(dec, mp3);
    DecodeAtSite(dec, mp3[..m], pcm, otherOk, site);
    DecodeAtSite(dec, mp3, pcm, otherOk', site);
    SiteDec(dec, mp3);
    Layer3Ok(site.dec, site.frame, pcm);
  }

  lemma SiteDec(dec: Dec, mp3: seq<Byte>)
    requires DecOk(dec)
    ensures DecOk(SiteOf(dec, mp3).dec)
  {
    hide FrameAtOffset;
    LocatedFrame(dec, mp3);
  }

  // ----- the same pull -----

  /** Every call on the stream, one behind the other, finds its frame at the front. */
  ghost predicate InPlace(call: Call, dec: Dec, mp3: seq<Byte>)
    requires Progresses(call)
    decreases |mp3|
  {
    mp3 == [] ||
    (InFront(dec, mp3) && var (n, out) := Ask(call, dec, mp3); InPlace(call, out.dec, mp3[n..]))
  }

  /** The two pulls yield the same and leave the stream at the same place. At the end of a
      stream only the decoder in memory is called once more, on nothing. */
  predicate SamePull(r: Pulled, p: WindowPulled, rest: seq<Byte>) {
    && r.consumed <= |rest| && p.view.rest == rest[r.consumed..]
    && p.samples == r.samples && p.unit == r.unit && (r.samples > 0 ==> p.view.dec == r.dec)
    && (p.atEnd <==> r.samples == 0)
  }

  lemma ShownEnough(rest: nat, size: nat)
    requires size <= rest
    ensures Shown(rest, size) <= rest && (Shown(rest, size) == rest || MIN_CHUNK <= Shown(rest, size))
    ensures rest > 0 ==> Shown(rest, size) > 0
  {
  }

  /** One turn of the one loop and one call of the other. */
  lemma TurnAlike(call: Call, pcm: bool, others: Others, v: StreamPull.View)
    returns (n: nat, out: Outcome, t: WindowPulled)
    requires IsFrameDecoder(call, pcm, others) && Progresses(call)
    requires StreamPull.ViewOk(v) && DecOk(v.dec) && v.rest != [] && InFront(v.dec, v.rest)
    ensures (n, out) == Ask(call, v.dec, v.rest) && 0 < n <= |v.rest| && DecOk(out.dec)
    ensures t == Turned(call, v) && StreamPull.ViewOk(t.view)
    ensures !t.atEnd && t.samples == out.samples && t.unit == out.unit
    ensures t.view.dec == out.dec && t.view.rest == v.rest[n..]
  {
    hide InFront, Shown, Turned, Decode, DecOk;
    var m := Shown(|v.rest|, v.size);
    ShownEnough(|v.rest|, v.size);
    assert Named(v.dec, v.rest) && Named(v.dec, v.rest[..m]);
    CallAlike(v.dec, v.rest, m, pcm, others(v.rest[..m]), others(v.rest));
    n, out := Ask(call, v.dec, v.rest).0, Ask(call, v.dec, v.rest).1;
    TurnedIs(call, v, m);
    t := Turned(call, v);
  }

  lemma SameBehind(r: Pulled, p: WindowPulled, rest: seq<Byte>, n: nat)
    requires n <= |rest| && SamePull(r, p, rest[n..])
    ensures SamePull(Onward(n, r), p, rest)
  {
    assert rest[n..][r.consumed..] == rest[n + r.consumed..];
  }

  /** A pull through the window is a pull from the rest of the stream; behind it all frames
      are still in place. */
  lemma {:induction false} WindowPullIsPull(call: Call, pcm: bool, others: Others, v: StreamPull.View)
    requires IsFrameDecoder(call, pcm, others) && Progresses(call)
    requires StreamPull.ViewOk(v) && DecOk(v.dec) && InPlace(call, v.dec, v.rest)
    ensures var r, p := Pull(call, v.dec, v.rest), WindowPull(call, v);
      && SamePull(r, p, v.rest) && DecOk(p.view.dec) && StreamPull.ViewOk(p.view)
      && (r.samples > 0 ==> InPlace(call, p.view.dec, p.view.rest))
    decreases |v.rest|
  {
    hide IsFrameDecoder, InFront, Turned, DecOk;
    if v.rest == [] {
      TurnedIs(call, v, 0);
    } else {
      var n, out, t := TurnAlike(call, pcm, others, v);
      TurnStep(call, v, t);
      if out.samples == 0 {
        WindowPullIsPull(call, pcm, others, t.view);
        SameBehind(Pull(call, out.dec, v.rest[n..]), WindowPull(call, t.view), v.rest, n);
      }
    }
  }

  /** The frames a stream yields, pull after pull through the window. */
  ghost function WindowFrames(call: Call, v: StreamPull.View): seq<WindowPulled>
    requires Progresses(call) && StreamPull.ViewOk(v)
    decreases |v.rest|
  {
    WindowPullEnds(call, v);
    var p := WindowPull(call, v);
    if p.samples == 0 then [] else [p] + WindowFrames(call, p.view)
  }

  /** The frame of a pull. */
  datatype Sounding = Sounding(samples: nat, unit: Option<Unit>)

  function OfPulls(rs: seq<Pulled>): seq<Sounding> {
    seq(|rs|, k requires 0 <= k < |rs| => Sounding(rs[k].samples, rs[k].unit))
  }

  function OfWindowPulls(ps: seq<WindowPulled>): seq<Sounding> {
    seq(|ps|, k requires 0 <= k < |ps| => Sounding(ps[k].samples, ps[k].unit))
  }

  /** A stream whose frames are all in place yields the same frames from memory and from
      callbacks, however much of it is buffered to begin with. */
  lemma {:induction false} SameFrames(call: Call, pcm: bool, others: Others, v: StreamPull.View)
    requires IsFrameDecoder(call, pcm, others) && Progresses(call)
    requires StreamPull.ViewOk(v) && DecOk(v.dec) && InPlace(call, v.dec, v.rest)
    ensures OfWindowPulls(WindowFrames(call, v)) == OfPulls(Frames(call, v.dec, v.rest))
    decreases |v.rest|
  {
    hide IsFrameDecoder, InPlace, Pull, WindowPull, DecOk;
    var r, p := Pull(call, v.dec, v.rest), WindowPull(call, v);
    WindowPullIsPull(call, pcm, others, v);
    PullEnds(call, v.dec, v.rest);
    if r.samples > 0 {
      SameFrames(call, pcm, others, p.view);
      OneMore(r, Frames(call, r.dec, v.rest[r.consumed..]), p, WindowFrames(call, p.view));
    }
  }

  lemma OneMore(r: Pulled, rs: seq<Pulled>, p: WindowPulled, ps: seq<WindowPulled>)
    requires r.samples == p.samples && r.unit == p.unit && OfPulls(rs) == OfWindowPulls(ps)
    ensures OfPulls([r] + rs) == OfWindowPulls([p] + ps)
  {
    assert |OfPulls(rs)| == |OfWindowPulls(ps)|;
    forall k | 0 < k <= |rs| ensures OfPulls([r] + rs)[k] == OfWindowPulls([p] + ps)[k] {
      assert OfPulls(rs)[k - 1] == OfWindowPulls(ps)[k - 1];
    }
  }
}
