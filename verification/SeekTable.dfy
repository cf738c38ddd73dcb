/**
 Seek tables (include/dr_mp3.h, `drmp3_calculate_seek_points`,
 `drmp3_find_closest_seek_point`, `drmp3_seek_to_pcm_frame__seek_table`,
 `drmp3__on_seek_64`), over streams whose MP3 frames decode the same wherever decoding
 starts, at one sample rate, the stream starting at offset 0.
 */
module SeekTable {
  import opened Numbers
  import opened PcmReader
  import opened Seeking

  // ----- bytes -----

  /** The bytes of the first `i` MP3 frames. */
  function BytesBefore(frames: seq<Frame>, i: nat): nat
    requires i <= |frames|
  {
    if i == 0 then 0 else BytesBefore(frames, i - 1) + frames[i - 1].bytes
  }

  /** The first MP3 frame, from `i` on, that starts at `pos` or behind it. */
  function FrameFrom(frames: seq<Frame>, pos: nat, i: nat): (r: nat)
    requires i <= |frames|
    ensures i <= r <= |frames|
    decreases |frames| - i
  {
    if i == |frames| || pos <= BytesBefore(frames, i) then i else FrameFrom(frames, pos, i + 1)
  }

  predicate HasBytes(frames: seq<Frame>) { forall i | 0 <= i < |frames| :: frames[i].bytes > 0 }

  lemma {:induction false} BytesIncrease(frames: seq<Frame>, i: nat, j: nat)
    requires HasBytes(frames) && i < j <= |frames|
    ensures BytesBefore(frames, i) < BytesBefore(frames, j)
  {
    if i < j - 1 { BytesIncrease(frames, i, j - 1); }
    assert frames[j - 1].bytes > 0;
  }

  /** Where MP3 frame `j` starts, it is found. */
  lemma {:induction false} FrameFound(frames: seq<Frame>, j: nat, i: nat)
    requires HasBytes(frames) && i <= j <= |frames|
    ensures FrameFrom(frames, BytesBefore(frames, j), i) == j
    decreases j - i
  {
    if i < j {
      BytesIncrease(frames, i, j);
      FrameFound(frames, j, i + 1);
    }
  }

  const STEP: nat := 0x7FFFFFFF

  function Total(steps: seq<nat>): nat {
    if steps == [] then 0 else Total(steps[..|steps| - 1]) + steps[|steps| - 1]
  }

  /** How many calls of the seek callback a seek to `offset` takes. */
  function Calls(offset: nat): (n: nat)
    ensures n > 0 && offset <= n * 0x7FFFFFFF && (n > 1 ==> (n - 1) * 0x7FFFFFFF < offset)
  {
    if offset <= STEP then 1 else 1 + Calls(offset - STEP)
  }

  /** drmp3__on_seek_64: the stream's seek callback takes offsets of 31 bits; longer ways go
      in steps. `refused` are the calls of the callback that fail; it succeeds exactly if
      none of those it needs does, and otherwise leaves the cursor where it came to. */
  method OnSeek64(cursor: nat, offset: nat, refused: set<nat>)
    returns (ok: bool, streamCursor: nat, ghost steps: seq<nat>)
    ensures ok <==> forall i :: 0 <= i < Calls(offset) ==> i !in refused
    ensures streamCursor == if ok then offset else if steps == [] then cursor else Total(steps)
    ensures ok ==> |steps| == Calls(offset) && Total(steps) == offset
    ensures forall i | 0 <= i < |steps| :: steps[i] <= 0x7FFFFFFF && i !in refused
  {
    ok, steps, streamCursor := false, [], cursor;
    if 0 in refused { return; }
    if offset <= STEP { return true, offset, [offset]; }
    streamCursor, steps := STEP, [STEP];
    var remaining, calls := offset - STEP, 1;
    while remaining > 0
      invariant 0 <= remaining && streamCursor + remaining == offset && streamCursor == Total(steps) && calls == |steps|
      invariant Calls(offset) == calls + if remaining > 0 then Calls(remaining) else 0
      invariant forall i | 0 <= i < |steps| :: steps[i] <= STEP && i !in refused
      invariant steps != []
    {
      var step := if remaining <= STEP then remaining else STEP;
      if calls in refused { return; }
      streamCursor, remaining, calls, steps := streamCursor + step, remaining - step, calls + 1, steps + [step];
    }
    ok := true;
  }

  /** Decoding will start at the first MP3 frame from byte `pos` on; nothing is decoded. */
  method SeekToByte(r: Reader, pos: nat)
    requires r.Valid()
    modifies r
    ensures r.Valid() && r.next == FrameFrom(r.frames, pos, 0) && r.current == 0 && r.Now().left == []
  {
    var ok, streamCursor, steps := OnSeek64(0, pos, {});
    var i := 0;
    while i < |r.frames| && BytesBefore(r.frames, i) < streamCursor
      invariant i <= |r.frames| && FrameFrom(r.frames, pos, 0) == FrameFrom(r.frames, pos, i)
    {
      i := i + 1;
    }
    r.next, r.current, r.consumed, r.remaining := i, 0, 0, 0;
  }

  // ----- seek points -----

  datatype Point = Point(seekPosInBytes: nat, pcmFrameIndex: nat, mp3FramesToDiscard: nat, pcmFramesToDiscard: nat)

  const LEADING: nat := 2

  /** Narrowed to 16 bits. */
  function Cast16(x: int): nat { x % 0x10000 }

  /** The number of MP3 frames decoded when PCM frame `t` has been: the least from `m` on. */
  function Needed(frames: seq<Frame>, t: nat, m: nat): (r: nat)
    requires m <= |frames|
    ensures m <= r <= |frames|
    decreases |frames| - m
  {
    if m == |frames| || t < PcmBefore(frames, m) then m else Needed(frames, t, m + 1)
  }

  /** The seek point for PCM frame `t`, with `m` MP3 frames decoded. */
  function PointAt(frames: seq<Frame>, t: nat, m: nat): Point
    requires LEADING < m <= |frames|
  {
    Point(BytesBefore(frames, m - LEADING - 1), t, LEADING, Cast16(t - PcmBefore(frames, m - LEADING)))
  }

  function PointFor(frames: seq<Frame>, t: nat): Point
    requires LEADING < |frames|
  {
    PointAt(frames, t, Needed(frames, t, LEADING + 1))
  }

  function Table(frames: seq<Frame>, between: nat, n: nat): (r: seq<Point>)
    requires LEADING < |frames|
    ensures |r| == n
  {
    if n == 0 then [] else Table(frames, between, n - 1) + [PointFor(frames, Times(n, between))]
  }

  /** A point far enough in the stream: seeking to it restarts decoding one MP3 frame early,
      at or before the PCM frame it is for, and nothing is lost in 16 bits. */
  lemma PointLeads(frames: seq<Frame>, t: nat, m: nat)
    requires LEADING < |frames| && m == Needed(frames, t, LEADING + 1)
    requires PcmBefore(frames, 1) <= t < PcmBefore(frames, |frames|)
    ensures PcmBefore(frames, m - LEADING) <= t < PcmBefore(frames, m)
  {
    NeededIs(frames, t, LEADING + 1);
    if m > LEADING + 1 { assert PcmBefore(frames, m - LEADING) <= PcmBefore(frames, m - 1); }
  }

  lemma {:induction false} NeededIs(frames: seq<Frame>, t: nat, m: nat)
    requires m <= |frames| && t < PcmBefore(frames, |frames|)
    ensures var r := Needed(frames, t, m); t < PcmBefore(frames, r) && (r == m || PcmBefore(frames, r - 1) <= t)
    decreases |frames| - m
  {
    if m < |frames| && t >= PcmBefore(frames, m) { NeededIs(frames, t, m + 1); }
  }

  // ----- calculating the points -----

  datatype FrameInfo = FrameInfo(bytePos: nat, pcmFrameIndex: nat)

  function InfoAt(frames: seq<Frame>, i: nat): FrameInfo
    requires i <= |frames|
  {
    FrameInfo(BytesBefore(frames, i), PcmBefore(frames, i))
  }

  /** The cache holds where the last three of `m` MP3 frames start. */
  ghost predicate Cached(frames: seq<Frame>, m: nat, infos: seq<FrameInfo>) {
    && LEADING < m <= |frames| && |infos| == LEADING + 1
    && infos[0] == InfoAt(frames, m - 3) && infos[1] == InfoAt(frames, m - 2) && infos[2] == InfoAt(frames, m - 1)
  }

  /** The cache filled with the leading MP3 frames. */
  method FillCache(r: Reader, infos: array<FrameInfo>) returns (running: nat)
    requires r.Valid() && r.next == 0 && infos.Length == LEADING + 1 && LEADING < |r.frames|
    modifies r, infos
    ensures r.Valid() && r.next == LEADING + 1 && Cached(r.frames, r.next, infos[..]) &&
      running == PcmBefore(r.frames, r.next)
  {
    running := 0;
    var i := 0;
    while i < infos.Length
      invariant r.Valid() && r.next == i <= infos.Length && running == PcmBefore(r.frames, i)
      invariant forall j | 0 <= j < i :: infos[j] == InfoAt(r.frames, j)
    {
      infos[i] := FrameInfo(BytesBefore(r.frames, r.next), running);
      var count := r.DecodeNext();
      running, i := running + count, i + 1;
    }
  }

  /** The cache cycled, with the MP3 frame about to be decoded at its end. */
  method CycleCache(infos: array<FrameInfo>, info: FrameInfo)
    requires infos.Length == LEADING + 1
    modifies infos
    ensures infos[..] == [old(infos[1]), old(infos[2]), info]
  {
    var i := 0;
    while i < infos.Length - 1
      invariant i <= infos.Length - 1
      invariant forall j | 0 <= j < i :: infos[j] == old(infos[j + 1])
      invariant forall j | i <= j < infos.Length :: infos[j] == old(infos[j])
    {
      infos[i] := infos[i + 1];
      i := i + 1;
    }
    infos[infos.Length - 1] := info;
  }

  /** The cache cycled and the next MP3 frame, of which there is one, decoded. */
  method DecodeCached(r: Reader, infos: array<FrameInfo>, running0: nat, ghost m: nat) returns (running: nat)
    requires r.Valid() && r.next == m < |r.frames| && Cached(r.frames, m, infos[..]) &&
      running0 == PcmBefore(r.frames, m)
    modifies r, infos
    ensures r.Valid() && r.next == m + 1 && Cached(r.frames, r.next, infos[..]) &&
      running == PcmBefore(r.frames, r.next)
  {
    CycleCache(infos, FrameInfo(BytesBefore(r.frames, r.next), running0));
    var count := r.DecodeNext();
    running := running0 + count;
  }

  /** The MP3 frame that PCM frame `t` is in, and its seek point. Since `t` lies in the
      stream, there always is a next MP3 frame to decode. */
  method FindPoint(r: Reader, infos: array<FrameInfo>, running0: nat, t: nat) returns (running: nat, p: Point)
    requires r.Valid() && Cached(r.frames, r.next, infos[..]) && running0 == PcmBefore(r.frames, r.next)
    requires t < PcmBefore(r.frames, |r.frames|)
    modifies r, infos
    ensures r.Valid() && Cached(r.frames, r.next, infos[..]) && running == PcmBefore(r.frames, r.next)
    ensures r.next == Needed(r.frames, t, old(r.next)) && p == PointAt(r.frames, t, r.next)
  {
    running := running0;
    while running <= t
      invariant r.Valid() && Cached(r.frames, r.next, infos[..]) && running == PcmBefore(r.frames, r.next)
      invariant Needed(r.frames, t, old(r.next)) == Needed(r.frames, t, r.next)
      decreases |r.frames| - r.next
    {
      running := DecodeCached(r, infos, running, r.next);
    }
    p := Point(infos[0].bytePos, t, LEADING, Cast16(t - infos[LEADING - 1].pcmFrameIndex));
  }

  /** The search for a later PCM frame can go on where the one for an earlier one stopped. */
  lemma {:induction false} NeededLater(frames: seq<Frame>, t0: nat, t: nat, m: nat)
    requires m <= |frames| && t0 <= t
    ensures Needed(frames, t, Needed(frames, t0, m)) == Needed(frames, t, m)
    decreases |frames| - m
  {
    if m < |frames| && t0 >= PcmBefore(frames, m) { NeededLater(frames, t0, t, m + 1); }
  }

  /** The PCM frames between two of `count` seek points. */
  function Between(total: nat, count: nat): nat { total / (count + 1) }

  lemma QuotientFits(total: nat, count: nat, q: nat)
    requires q == Between(total, count) && total > 0
    ensures count * q < total
  {
    assert (count + 1) * q <= total;
  }

  lemma {:induction false} TimesGrow(i: nat, n: nat, between: nat)
    requires i <= n
    ensures Times(i, between) <= Times(n, between) && (i < n && between > 0 ==> Times(i, between) < Times(n, between))
  {
    if i < n { TimesGrow(i, n - 1, between); }
  }

  /** All targets lie in the stream. */
  lemma TargetsFit(total: nat, count: nat, between: nat, i: nat)
    requires between == Between(total, count) && total > 0 && i <= count
    ensures Times(i, between) < total
  {
    QuotientFits(total, count, between);
    TimesIsProduct(count, between);
    TimesGrow(i, count, between);
  }

  lemma SoundingTotal(frames: seq<Frame>)
    requires Sounding(frames) && frames != []
    ensures PcmBefore(frames, |frames|) > 0
  {
    assert frames[|frames| - 1].pcm != [];
  }

  /** The points themselves: the stream is run through once, every target found where the
      one before stopped. */
  method FillPoints(r: Reader, points: array<Point>, count: nat, between: nat)
    requires r.Valid() && r.next == 0 && LEADING < |r.frames| && count <= points.Length
    requires between == Between(PcmBefore(r.frames, |r.frames|), count)
    modifies r, points
    ensures r.Valid() && points[..count] == Table(r.frames, between, count)
  {
    hide Cached, Needed;
    var infos := new FrameInfo[LEADING + 1](_ => FrameInfo(0, 0));
    var running := FillCache(r, infos);
    SoundingTotal(r.frames);
    ghost var total := PcmBefore(r.frames, |r.frames|);
    var i, target := 0, 0;
    while i < count
      invariant i <= count && target == Times(i, between) && fresh(infos)
      invariant r.Valid() && Cached(r.frames, r.next, infos[..]) && running == PcmBefore(r.frames, r.next)
      invariant r.next == Needed(r.frames, target, LEADING + 1) || (i == 0 && r.next == LEADING + 1)
      invariant points[..i] == Table(r.frames, between, i)
    {
      ghost var target0 := target;
      i, target := i + 1, target + between;
      TargetsFit(total, count, between, i);
      NeededLater(r.frames, target0, target, LEADING + 1);
      var p;
      running, p := FindPoint(r, infos, running, target);
      points[i - 1] := p;
    }
  }

  const NO_POINT := Point(0, 0, 0, 0)

  /** What drmp3_calculate_seek_points reports when `wanted` points are asked for. */
  function Points(frames: seq<Frame>, wanted: nat): seq<Point> {
    if |frames| < LEADING + 1 then [NO_POINT] else
      var count := Min(wanted, |frames| - 1);
      Table(frames, Between(PcmBefore(frames, |frames|), count), count)
  }

  /** drmp3_calculate_seek_points, with no seek table bound. Only the MP3 frames that are
      counted matter, in both runs through the stream: `counter` is the decoder while it runs
      without sample output. It fails only when there is no getting back to where the decoder
      was. */
  method CalculateSeekPoints(r: Reader, counter: Reader, wanted: nat, points: array<Point>)
    returns (ok: bool, count: nat)
    requires r.Valid() && counter.Valid() && wanted <= points.Length
    modifies r, counter, points
    ensures r.Valid() && counter.Valid()
    ensures wanted == 0 ==> !ok && r.Now() == old(r.Now())
    ensures wanted > 0 ==> Sought(r.Now(), ok) == Restore(r.frames, r.trim, old(r.current))
    ensures ok ==> count <= points.Length && points[..count] == Points(counter.frames, wanted)
  {
    if wanted == 0 { return false, 0; }
    var current, mp3Frames, pcmFrames := r.current, 0, 0;
    ok, mp3Frames, pcmFrames := CountFrames(r, counter);
    if !ok { return false, 0; }
    if mp3Frames < LEADING + 1 {
      points[0] := NO_POINT;
      return true, 1;
    }
    PcmOfAll(counter.frames);
    count := Min(wanted, mp3Frames - 1);
    SeekToStart(counter);
    FillPoints(counter, points, count, Between(pcmFrames, count));
    SeekToStart(r);
    ok := SeekToPcmFrame(r, current);
  }

  // ----- seeking with the points -----

  /** How many points in front are for `f` or before it. */
  function Leading(points: seq<Point>, f: nat, i: nat): (r: nat)
    requires i <= |points|
    ensures i <= r <= |points| && (r > i ==> points[r - 1].pcmFrameIndex <= f)
    ensures r == i && i < |points| ==> points[i].pcmFrameIndex > f
    decreases |points| - i
  {
    if i == |points| || points[i].pcmFrameIndex > f then i else Leading(points, f, i + 1)
  }

  /** The point a seek to `f` goes by. */
  function Chosen(points: seq<Point>, f: nat): Point
    requires points != []
  {
    if f < points[0].pcmFrameIndex then NO_POINT else points[Leading(points, f, 0) - 1]
  }

  /** It is the last point for `f` or before it, as far as the points in front are in order; the
      start of the stream, if the first is for a later PCM frame. */
  lemma ChosenIsLast(points: seq<Point>, f: nat) returns (n: nat)
    requires points != []
    ensures n <= |points| && forall i | 0 <= i < n :: points[i].pcmFrameIndex <= f
    ensures n < |points| ==> points[n].pcmFrameIndex > f
    ensures Chosen(points, f) == if n == 0 then Point(0, 0, 0, 0) else points[n - 1]
  {
    n := Leading(points, f, 0);
    AllLeading(points, f, 0);
    if points[0].pcmFrameIndex <= f { assert n == Leading(points, f, 1); }
  }

  lemma {:induction false} AllLeading(points: seq<Point>, f: nat, i: nat)
    requires i <= |points|
    ensures var n := Leading(points, f, i);
      && (forall j | i <= j < n :: points[j].pcmFrameIndex <= f)
      && (n < |points| ==> points[n].pcmFrameIndex > f)
    decreases |points| - i
  {
    if i < |points| && points[i].pcmFrameIndex <= f {
      AllLeading(points, f, i + 1);
      assert Leading(points, f, i) == Leading(points, f, i + 1);
    } else {
      assert Leading(points, f, i) == i;
    }
  }

  /** drmp3_find_closest_seek_point, and its result looked up. */
  method FindClosestSeekPoint(points: array<Point>, f: nat) returns (p: Point)
    requires points.Length > 0
    ensures p == Chosen(points[..], f)
  {
    if f < points[0].pcmFrameIndex { return NO_POINT; }
    var closest, i := 0, 0;
    while i < points.Length && points[i].pcmFrameIndex <= f
      invariant i <= points.Length && (i > 0 ==> closest == i - 1)
      invariant Leading(points[..], f, 0) == Leading(points[..], f, i)
    {
      closest, i := i, i + 1;
    }
    p := points[closest];
  }

  const WORD64: nat := 0x1_0000_0000_0000_0000

  /** 64-bit subtraction. */
  function Minus(a: nat, b: nat): nat { if b <= a then a - b else (a - b) % WORD64 }

  /** Decoding restarted at a point, if the stream has the MP3 frames to discard. */
  predicate CanRestart(frames: seq<Frame>, p: Point) {
    FrameFrom(frames, p.seekPosInBytes, 0) + p.mp3FramesToDiscard <= |frames|
  }

  function Restarted(frames: seq<Frame>, p: Point): State
    requires CanRestart(frames, p)
  {
    var next := FrameFrom(frames, p.seekPosInBytes, 0) + p.mp3FramesToDiscard;
    State(Minus(p.pcmFrameIndex, p.pcmFramesToDiscard), if p.mp3FramesToDiscard == 0 then [] else frames[next - 1].pcm,
      frames[next..])
  }

  /** To the first byte of the point's MP3 frame, and the MP3 frames to discard decoded. */
  method Restart(r: Reader, p: Point) returns (ok: bool)
    requires r.Valid()
    modifies r
    ensures r.Valid() && (ok <==> CanRestart(r.frames, p))
    ensures ok ==> r.Now() == Restarted(r.frames, p)
  {
    hide Minus, FrameFrom;
    SeekToByte(r, p.seekPosInBytes);
    ghost var first := r.next;
    var i := 0;
    while i < p.mp3FramesToDiscard
      invariant r.Valid() && i <= p.mp3FramesToDiscard && r.next == first + i
      invariant r.Now().left == if i == 0 then [] else r.frames[r.next - 1].pcm
    {
      var count := r.DecodeNext();
      if count == 0 { return false; }
      i := i + 1;
    }
    r.current := Minus(p.pcmFrameIndex, p.pcmFramesToDiscard);
    ok := true;
  }

  /** A seek to `f` by a given point. */
  function SeekBy(frames: seq<Frame>, trim: Trim, p: Point, f: nat): Sought
    requires CanRestart(frames, p)
  {
    Forward(Restarted(frames, p), trim, Minus(f, Restarted(frames, p).current))
  }

  /** drmp3_seek_to_pcm_frame__seek_table */
  method SeekByTable(r: Reader, points: array<Point>, f: nat) returns (ok: bool)
    requires r.Valid() && points.Length > 0
    modifies r
    ensures r.Valid()
    ensures var p := Chosen(points[..], f);
      if CanRestart(r.frames, p) then Sought(r.Now(), ok) == SeekBy(r.frames, r.trim, p, f) else !ok
  {
    var p := FindClosestSeekPoint(points, f);
    ok := Restart(r, p);
    if ok { ok := SeekForward(r, Minus(f, r.current)); }
  }

  // ----- the points are right -----

  /** MP3 frames hold at most 1152 PCM frames. */
  predicate Short(frames: seq<Frame>) { forall i | 0 <= i < |frames| :: |frames[i].pcm| <= 1152 }

  lemma TwoFrames(frames: seq<Frame>, m: nat)
    requires Short(frames) && LEADING <= m <= |frames|
    ensures PcmBefore(frames, m) - PcmBefore(frames, m - LEADING) <= 2304
  {
    assert |frames[m - 1].pcm| <= 1152 && |frames[m - 2].pcm| <= 1152;
    assert PcmBefore(frames, m - 1) == PcmBefore(frames, m - 2) + |frames[m - 2].pcm|;
  }

  /** The number of PCM frames to discard neither underflows nor loses its upper bits, exactly
      if the target lies behind the first MP3 frame; in the first it wraps around. */
  lemma DiscardFits(frames: seq<Frame>, t: nat, m: nat)
    requires Short(frames) && LEADING < |frames| && m == Needed(frames, t, LEADING + 1)
    requires t < PcmBefore(frames, |frames|)
    ensures var discard := PointFor(frames, t).pcmFramesToDiscard;
      && (discard == t - PcmBefore(frames, m - LEADING) <==> PcmBefore(frames, 1) <= t)
      && (PcmBefore(frames, 1) <= t ==> PcmBefore(frames, m - LEADING) <= t && discard < 0x10000)
      && (t < PcmBefore(frames, 1) ==> discard == 0x10000 + t - PcmBefore(frames, 1))
  {
    if PcmBefore(frames, 1) <= t {
      PointLeads(frames, t, m);
      TwoFrames(frames, m);
    } else {
      DiscardWraps(frames, t, m);
    }
  }

  lemma DiscardWraps(frames: seq<Frame>, t: nat, m: nat)
    requires Short(frames) && LEADING < |frames| && m == Needed(frames, t, LEADING + 1) && t < PcmBefore(frames, 1)
    ensures m == LEADING + 1 && PointFor(frames, t).pcmFramesToDiscard == 0x10000 + t - PcmBefore(frames, 1)
  {
    assert PcmBefore(frames, 1) == PcmBefore(frames, 0) + |frames[0].pcm|;
    assert PcmBefore(frames, 1) <= PcmBefore(frames, 2) <= PcmBefore(frames, 3);
  }

  /** Standing at the start of MP3 frame `i`, decoded. */
  lemma AtFrame(frames: seq<Frame>, i: nat, st: State)
    requires i < |frames| && st == State(PcmBefore(frames, i), frames[i].pcm, frames[i + 1..])
    ensures At(frames, st)
  {
    ConcatFrom(frames, i);
    assert frames[i..][0] == frames[i] && frames[i..][1..] == frames[i + 1..];
  }

  lemma RestartedIs(frames: seq<Frame>, p: Point, i: nat)
    requires 0 < i < |frames| && FrameFrom(frames, p.seekPosInBytes, 0) == i - 1 && p.mp3FramesToDiscard == LEADING
    requires p.pcmFrameIndex == PcmBefore(frames, i) + p.pcmFramesToDiscard
    ensures CanRestart(frames, p) && Restarted(frames, p) == State(PcmBefore(frames, i), frames[i].pcm, frames[i + 1..])
  {
  }

  /** Decoding restarted at a point stands in the stream, at or before `t`. */
  lemma PointRestarts(frames: seq<Frame>, t: nat, p: Point)
    requires Short(frames) && HasBytes(frames) && LEADING < |frames| && p == PointFor(frames, t)
    requires PcmBefore(frames, 1) <= t < PcmBefore(frames, |frames|)
    ensures CanRestart(frames, p) && At(frames, Restarted(frames, p)) && Restarted(frames, p).current <= t
  {
    var m := Needed(frames, t, LEADING + 1);
    var i := m - LEADING;
    DiscardFits(frames, t, m);
    var first := i - 1;
    FrameFound(frames, first, 0);
    assert p.seekPosInBytes == BytesBefore(frames, first);
    RestartedIs(frames, p, i);
    AtFrame(frames, i, Restarted(frames, p));
  }

  /** Where decoding has been restarted at or before `f`, reading on leads to `f`. */
  lemma RestartSeeks(frames: seq<Frame>, trim: Trim, st: State, f: nat)
    requires At(frames, st) && trim.delay == 0 && st.current <= f <= MusicEnd(frames, trim)
    ensures Forward(st, trim, Minus(f, st.current)).ok && IsAt(frames, Forward(st, trim, Minus(f, st.current)).state, f)
  {
    var n := f - st.current;
    if n > 0 {
      ForwardReaches(frames, st, trim, n, f);
      AdvanceIsAt(frames, st, f);
    } else {
      NothingPlays(st, trim, n);
    }
  }

  lemma {:induction false} TableAt(frames: seq<Frame>, between: nat, n: nat, i: nat)
    requires LEADING < |frames| && i < n
    ensures Table(frames, between, n)[i] == PointFor(frames, Times(i + 1, between))
  {
    if i < n - 1 { TableAt(frames, between, n - 1, i); }
  }

  /** How many points there are: one fewer than there are MP3 frames, or as many as asked for; with
      fewer than three MP3 frames there is one, the start of the stream. */
  lemma HowManyPoints(frames: seq<Frame>, wanted: nat)
    ensures if |frames| < 3 then Points(frames, wanted) == [Point(0, 0, 0, 0)]
            else |Points(frames, wanted)| == if wanted < |frames| then wanted else |frames| - 1
  {
  }

  /** What they are: they lie at equal distances, and for a PCM frame of MP3 frame `k` decoding
      restarts two MP3 frames before it, which are discarded. */
  lemma PointIs(frames: seq<Frame>, wanted: nat, i: nat, t: nat, k: nat)
    requires |frames| >= 3 && i < |Points(frames, wanted)| && k < |frames|
    requires t == (i + 1) * (|Concat(frames)| / (|Points(frames, wanted)| + 1))
    requires PcmBefore(frames, k) <= t < PcmBefore(frames, k + 1)
    ensures Points(frames, wanted)[i].pcmFrameIndex == t && Points(frames, wanted)[i].mp3FramesToDiscard == 2
    ensures Points(frames, wanted)[i].seekPosInBytes == BytesBefore(frames, if k < 2 then 0 else k - 2)
  {
    hide Concat, Needed, Table;
    var count := |Points(frames, wanted)|;
    var between := Between(PcmBefore(frames, |frames|), count);
    HowManyPoints(frames, wanted);
    TableAt(frames, between, count, i);
    TimesIsProduct(i + 1, between);
    PcmOfAll(frames);
    NeededFor(frames, t, k);
  }

  /** The MP3 frame that holds the PCM frame is the last that is decoded, but three are. */
  lemma NeededFor(frames: seq<Frame>, t: nat, k: nat)
    requires LEADING < |frames| && k < |frames| && PcmBefore(frames, k) <= t < PcmBefore(frames, k + 1)
    ensures Needed(frames, t, LEADING + 1) == if k < 2 then 3 else k + 1
  {
    var m := Needed(frames, t, LEADING + 1);
    BeforeGrows(frames, k + 1, |frames|);
    NeededIs(frames, t, LEADING + 1);
    if m > k + 1 && m > 3 { BeforeGrows(frames, k + 1, m - 1); }
    if m < k + 1 { BeforeGrows(frames, m, k); }
  }

  lemma {:induction false} BeforeGrows(frames: seq<Frame>, a: nat, b: nat)
    requires a <= b <= |frames|
    ensures PcmBefore(frames, a) <= PcmBefore(frames, b)
  {
    if a < b { BeforeGrows(frames, a, b - 1); }
  }

  /** The points are in strictly increasing order. */
  lemma TableIncreases(frames: seq<Frame>, between: nat, n: nat, i: nat, j: nat)
    requires LEADING < |frames| && between > 0 && i < j < n
    ensures Table(frames, between, n)[i].pcmFrameIndex < Table(frames, between, n)[j].pcmFrameIndex
  {
    TableAt(frames, between, n, i);
    TableAt(frames, between, n, j);
    TimesGrow(i + 1, j + 1, between);
  }

  /** The point chosen from a table. */
  lemma ChosenFromTable(frames: seq<Frame>, between: nat, n: nat, f: nat) returns (t: nat)
    requires LEADING < |frames| && n > 0
    ensures var p := Chosen(Table(frames, between, n), f);
      p == NO_POINT || (p == PointFor(frames, t) && t <= f && exists j | 1 <= j <= n :: t == Times(j, between))
  {
    var points := Table(frames, between, n);
    t := 0;
    if f >= points[0].pcmFrameIndex {
      var j := Leading(points, f, 0);
      t := Times(j, between);
      TableAt(frames, between, n, j - 1);
    }
  }

  lemma NoPointRestarts(frames: seq<Frame>)
    ensures CanRestart(frames, NO_POINT) && Restarted(frames, NO_POINT) == Start(frames) && At(frames, Start(frames))
  {
  }

  /** No seek point lies in the first MP3 frame. */
  predicate Spaced(frames: seq<Frame>, wanted: nat) {
    |frames| > LEADING ==> |frames[0].pcm| <= Between(PcmBefore(frames, |frames|), Min(wanted, |frames| - 1))
  }

  /** A point discards what leads up to its PCM frame. */
  predicate DiscardsRight(frames: seq<Frame>, p: Point)
    requires LEADING < |frames|
  {
    p.pcmFramesToDiscard ==
    p.pcmFrameIndex - PcmBefore(frames, Needed(frames, p.pcmFrameIndex, LEADING + 1) - LEADING)
  }

  /** All points of a table do exactly if none lies in the first MP3 frame. */
  lemma SpacedIff(frames: seq<Frame>, wanted: nat)
    requires Short(frames) && Sounding(frames) && LEADING < |frames| && wanted > 0
    ensures (forall p | p in Points(frames, wanted) :: DiscardsRight(frames, p)) <==> Spaced(frames, wanted)
  {
    var total, count := PcmBefore(frames, |frames|), Min(wanted, |frames| - 1);
    var between, points := Between(total, count), Points(frames, wanted);
    SoundingTotal(frames);
    assert PcmBefore(frames, 1) == PcmBefore(frames, 0) + |frames[0].pcm|;
    forall i | 0 <= i < count
      ensures DiscardsRight(frames, points[i]) <==> PcmBefore(frames, 1) <= Times(i + 1, between)
    {
      PointOfTable(frames, total, between, count, i);
    }
    assert Times(1, between) == Times(0, between) + between;
    if Spaced(frames, wanted) {
      forall i | 0 <= i < count ensures DiscardsRight(frames, points[i]) { TimesGrow(1, i + 1, between); }
    } else {
      assert points[0] in points && !DiscardsRight(frames, points[0]);
    }
  }

  lemma PointOfTable(frames: seq<Frame>, total: nat, between: nat, count: nat, i: nat)
    requires Short(frames) && LEADING < |frames| && total == PcmBefore(frames, |frames|) && total > 0
    requires between == Between(total, count) && i < count
    ensures DiscardsRight(frames, Table(frames, between, count)[i]) <==> PcmBefore(frames, 1) <= Times(i + 1, between)
  {
    hide Table;
    var t := Times(i + 1, between);
    TableAt(frames, between, count, i);
    TargetsFit(total, count, between, i + 1);
    DiscardFits(frames, t, Needed(frames, t, LEADING + 1));
  }

  /** A long MP3 frame before two short ones: the first of two points lies in it, and is to
      discard 64768 PCM frames. */
  lemma DiscardExample(frames: seq<Frame>)
    requires |frames| == 3 && |frames[0].pcm| == 1152 && |frames[1].pcm| == |frames[2].pcm| == 1
    ensures !Spaced(frames, 2) && |Points(frames, 2)| == 2
    ensures Points(frames, 2)[0].pcmFrameIndex == 384 && Points(frames, 2)[0].pcmFramesToDiscard == 64768
  {
    assert PcmBefore(frames, 1) == 1152;
    assert PcmBefore(frames, 3) == PcmBefore(frames, 2) + 1 == 1154;
    assert Between(1154, 2) == 384;
    TableAt(frames, 384, 2, 0);
    assert Times(1, 384) == Times(0, 384) + 384;
    DiscardWraps(frames, 384, Needed(frames, 384, LEADING + 1));
  }

  /** The point a seek goes by restarts decoding in the stream, at or before the PCM frame
      sought. */
  lemma ChosenRestarts(frames: seq<Frame>, wanted: nat, f: nat)
    requires Short(frames) && HasBytes(frames) && Sounding(frames) && wanted > 0 && Spaced(frames, wanted)
    ensures var p := Chosen(Points(frames, wanted), f);
      CanRestart(frames, p) && At(frames, Restarted(frames, p)) && Restarted(frames, p).current <= f
  {
    NoPointRestarts(frames);
    if |frames| > LEADING {
      var total, count := PcmBefore(frames, |frames|), Min(wanted, |frames| - 1);
      var between := Between(total, count);
      var t := ChosenFromTable(frames, between, count, f);
      var p := Chosen(Table(frames, between, count), f);
      if p != NO_POINT {
        var j :| 1 <= j <= count && t == Times(j, between);
        SoundingTotal(frames);
        TargetsFit(total, count, between, j);
        TimesGrow(1, j, between);
        assert PcmBefore(frames, 1) == |frames[0].pcm| == PcmBefore(frames, 0) + |frames[0].pcm|;
        assert Times(1, between) == Times(0, between) + between;
        PointRestarts(frames, t, p);
      }
    }
  }

  /** Seeking by the calculated points comes to the same position, with the same PCM frame
      to be read next, as seeking by reading. */
  lemma TableSeeksLikeReading(frames: seq<Frame>, trim: Trim, wanted: nat, st: State, f: nat)
    requires Short(frames) && HasBytes(frames) && Sounding(frames) && wanted > 0 && Spaced(frames, wanted)
    requires trim.delay == 0 && At(frames, st) && st.current <= MusicEnd(frames, trim) && f <= MusicEnd(frames, trim)
    ensures var p := Chosen(Points(frames, wanted), f); var r := BruteForce(frames, st, trim, f);
      && CanRestart(frames, p) && SeekBy(frames, trim, p, f).ok && IsAt(frames, SeekBy(frames, trim, p, f).state, f)
      && r.ok && IsAt(frames, r.state, f)
  {
    BruteForceSeeks(frames, st, trim, f);
    var p := Chosen(Points(frames, wanted), f);
    ChosenRestarts(frames, wanted, f);
    RestartSeeks(frames, trim, Restarted(frames, p), f);
  }

  /** The 64-bit numbers involved: counters of streams that there are stay far from wrapping. */
  predicate Moderate(frames: seq<Frame>, trim: Trim) {
    |Concat(frames)| < WORD64 - 0x10000 && (trim.Bounded() ==> trim.End() < WORD64 - 0x10000)
  }

  /** Where decoding restarts by a point in the first MP3 frame: right behind that frame, with a
      position that has wrapped around. */
  lemma WrappedRestart(frames: seq<Frame>, t: nat, p: Point) returns (st: State)
    requires Short(frames) && HasBytes(frames) && LEADING < |frames|
    requires p == PointFor(frames, t) && t < PcmBefore(frames, 1)
    ensures CanRestart(frames, p) && st == Restarted(frames, p)
    ensures PcmBefore(frames, 1) <= 1152 && PcmBefore(frames, 1) <= |Concat(frames)|
    ensures st.current == WORD64 - 0x10000 + PcmBefore(frames, 1)
    ensures Rest(st) == Concat(frames)[PcmBefore(frames, 1)..]
  {
    var m := Needed(frames, t, LEADING + 1);
    DiscardWraps(frames, t, m);
    assert PcmBefore(frames, 1) == PcmBefore(frames, 0) + |frames[0].pcm|;
    FrameFound(frames, 0, 0);
    assert BytesBefore(frames, 0) == 0 && FrameFrom(frames, p.seekPosInBytes, 0) == 0;
    st := Restarted(frames, p);
    WrapsAround(t, p.pcmFramesToDiscard, PcmBefore(frames, 1));
    ConcatFrom(frames, 1);
    assert frames[1..][0] == frames[1] && frames[1..][1..] == frames[2..];
  }

  lemma WrapsAround(t: nat, discard: nat, before: nat)
    requires t < before <= 1152 && discard == 0x10000 + t - before
    ensures Minus(t, discard) == WORD64 - 0x10000 + before
  {
  }

  lemma WrapsBack(f: nat, current: nat, before: nat)
    requires before <= 1152 && f < WORD64 - 0x10000 && current == WORD64 - 0x10000 + before
    ensures Minus(f, current) == f + 0x10000 - before
  {
  }

  /** Reading on from there. */
  lemma WrappedForward(frames: seq<Frame>, trim: Trim, st: State, f: nat, n: nat, before: nat)
    requires Moderate(frames, trim) && trim.delay == 0 && f <= |Concat(frames)| && before <= 1152
    requires before <= |Concat(frames)| && Rest(st) == Concat(frames)[before..]
    requires st.current == WORD64 - 0x10000 + before && n == f + 0x10000 - before
    ensures var r := Forward(st, trim, n);
      && (r.ok <==> !trim.Bounded() && f + 0x10000 <= |Concat(frames)|)
      && (r.ok ==> Rest(r.state) == Concat(frames)[f + 0x10000..])
  {
    hide Concat;
    if trim.Bounded() {
      NothingPlays(st, trim, n);
    } else {
      var t := st.current + n;
      Playing(st, trim, n, t);
      AdvanceIs(st, t);
      var far := Min(t, Stop(st));
      WindowLength(st, st.current, far);
      assert Window(st, st.current, t) == Window(st, st.current, far);
      if t <= Stop(st) { SliceLater(Concat(frames), before, before + n, |Concat(frames)|); }
    }
  }

  /** A seek by a point in the first MP3 frame does not get to the PCM frame sought: it fails,
      or without an end to the music it lands 65536 PCM frames behind, if the stream is that
      long. */
  lemma WrappedSeek(frames: seq<Frame>, trim: Trim, t: nat, p: Point, f: nat)
    requires Short(frames) && HasBytes(frames) && LEADING < |frames|
    requires p == PointFor(frames, t) && t < PcmBefore(frames, 1)
    requires Moderate(frames, trim) && trim.delay == 0 && f <= |Concat(frames)|
    ensures CanRestart(frames, p)
    ensures var r := SeekBy(frames, trim, p, f);
      && (r.ok <==> !trim.Bounded() && f + 0x10000 <= |Concat(frames)|)
      && (r.ok ==> Rest(r.state) == Concat(frames)[f + 0x10000..])
  {
    hide Forward, Concat, PcmBefore;
    var st := WrappedRestart(frames, t, p);
    var before := PcmBefore(frames, 1);
    WrapsBack(f, st.current, before);
    WrappedForward(frames, trim, st, f, f + 0x10000 - before, before);
  }

  /** The point a seek goes by lies in the first MP3 frame. */
  predicate InFirst(frames: seq<Frame>, p: Point)
    requires frames != []
  {
    p != NO_POINT && p.pcmFrameIndex < PcmBefore(frames, 1)
  }

  /** Seeking by calculated points comes where seeking by reading does, exactly if the point it
      goes by does not lie in the first MP3 frame. */
  lemma TableSeeksIff(frames: seq<Frame>, trim: Trim, wanted: nat, f: nat)
    requires Short(frames) && HasBytes(frames) && Sounding(frames) && frames != [] && wanted > 0
    requires Moderate(frames, trim) && trim.delay == 0 && f <= MusicEnd(frames, trim)
    ensures var p := Chosen(Points(frames, wanted), f);
      && CanRestart(frames, p)
      && (SeekBy(frames, trim, p, f).ok && IsAt(frames, SeekBy(frames, trim, p, f).state, f) <==> !InFirst(frames, p))
  {
    NoPointRestarts(frames);
    var p := Chosen(Points(frames, wanted), f);
    if p == NO_POINT {
      RestartSeeks(frames, trim, Restarted(frames, p), f);
    } else {
      var t := PointChosen(frames, wanted, f);
      if InFirst(frames, p) {
        WrappedSeek(frames, trim, t, p, f);
      } else {
        PointRestarts(frames, t, p);
        RestartSeeks(frames, trim, Restarted(frames, p), f);
      }
    }
  }

  lemma PointChosen(frames: seq<Frame>, wanted: nat, f: nat) returns (t: nat)
    requires Sounding(frames) && frames != [] && wanted > 0 && Chosen(Points(frames, wanted), f) != NO_POINT
    ensures LEADING < |frames| && Chosen(Points(frames, wanted), f) == PointFor(frames, t)
    ensures t <= f && t < PcmBefore(frames, |frames|)
  {
    var total, count := PcmBefore(frames, |frames|), Min(wanted, |frames| - 1);
    var between := Between(total, count);
    SoundingTotal(frames);
    t := ChosenFromTable(frames, between, count, f);
    var j :| 1 <= j <= count && t == Times(j, between);
    TargetsFit(total, count, between, j);
  }

  lemma {:induction false} EqualFramesTotal(frames: seq<Frame>, size: nat, i: nat)
    requires i <= |frames| && forall j | 0 <= j < |frames| :: |frames[j].pcm| == size
    ensures PcmBefore(frames, i) == i * size
  {
    if i > 0 { EqualFramesTotal(frames, size, i - 1); }
  }

  lemma FactorAtLeast(k: nat, q: nat, size: nat, total: nat)
    requires k * size <= total < k * (q + 1)
    ensures q >= size
  {
    if q + 1 <= size { Products(q + 1, size, k); }
  }

  lemma QuotientAbove(total: nat, count: nat) returns (k: nat, q: nat)
    ensures k == count + 1 && q == Between(total, count) && total < k * (q + 1)
  {
    k, q := count + 1, total / (count + 1);
  }

  lemma ProductAtMost(count: nat, n: nat, size: nat, total: nat)
    requires count + 1 <= n && total == n * size
    ensures (count + 1) * size <= total
  {
    Products(count + 1, n, size);
  }

  lemma QuotientAtLeast(count: nat, n: nat, size: nat, total: nat)
    requires count + 1 <= n && total == n * size
    ensures Between(total, count) >= size
  {
    var k, q := QuotientAbove(total, count);
    ProductAtMost(count, n, size, total);
    FactorAtLeast(k, q, size, total);
  }

  /** In streams of equal MP3 frames the points never come too close. */
  lemma EqualFramesSpaced(frames: seq<Frame>, size: nat, wanted: nat)
    requires forall j | 0 <= j < |frames| :: |frames[j].pcm| == size
    ensures Spaced(frames, wanted)
  {
    if |frames| > LEADING {
      EqualFramesTotal(frames, size, |frames|);
      QuotientAtLeast(Min(wanted, |frames| - 1), |frames|, size, PcmBefore(frames, |frames|));
    }
  }
}
