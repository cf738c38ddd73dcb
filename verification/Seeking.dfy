/**
 Seeking by reading and counting frames (include/dr_mp3.h, `drmp3_seek_to_start_of_stream`,
 `drmp3_seek_to_pcm_frame__brute_force`, `drmp3_get_mp3_and_pcm_frame_count`), over
 streams whose MP3 frames decode the same wherever decoding starts.
 */
module Seeking {
  import opened PcmReader

  /** The start of the stream, nothing decoded. */
  function Start(frames: seq<Frame>): State { State(0, [], frames) }

  /** Where the music ends: at the padding or with the stream. */
  function MusicEnd(frames: seq<Frame>, trim: Trim): nat {
    EndOfMusic(trim, |Concat(frames)|)
  }

  // ----- seeking by reading -----

  datatype Sought = Sought(state: State, ok: bool)

  /** Reading `n` PCM frames and throwing them away. */
  function Forward(st: State, trim: Trim, n: nat): Sought {
    Sought(After(st, trim, n), |Delivered(st, trim, n)| == n)
  }

  /** drmp3_seek_to_pcm_frame__brute_force */
  function BruteForce(frames: seq<Frame>, st: State, trim: Trim, f: nat): Sought {
    if f == st.current then Sought(st, true)
    else
      var from := if f < st.current then Start(frames) else st;
      Forward(from, trim, f - from.current)
  }

  /** `st` stands in the stream `frames`, at `st.current`. */
  predicate At(frames: seq<Frame>, st: State) { Onward(Start(frames), st) }

  lemma WindowLength(st: State, a: nat, b: nat)
    requires st.current <= a <= b <= Stop(st)
    ensures |Window(st, a, b)| == b - a
  {
  }

  lemma AtStop(frames: seq<Frame>, st: State)
    requires At(frames, st)
    ensures Stop(st) == |Concat(frames)|
  {
  }

  /** Without delay, reading forward reaches any position up to the end of the music, and
      no other. */
  lemma ForwardReaches(frames: seq<Frame>, st: State, trim: Trim, n: nat, f: nat)
    requires At(frames, st) && trim.delay == 0 && st.current + n == f && n > 0
    ensures Forward(st, trim, n).ok <==> f <= MusicEnd(frames, trim)
    ensures f <= MusicEnd(frames, trim) ==> Forward(st, trim, n).state == AdvanceTo(st, f)
  {
    AtStop(frames, st);
    if trim.Past(st.current) {
    } else {
      var t := Target(st.current, trim, n);
      Playing(st, trim, n, t);
      if t == f && f <= Stop(st) { WindowLength(st, st.current, f); }
    }
  }

  /** `st` is where a seek to `f` should be. */
  predicate IsAt(frames: seq<Frame>, st: State, f: nat) {
    f <= |Concat(frames)| && st.current == f && Rest(st) == Concat(frames)[f..]
  }

  lemma DropTwice<T>(s: seq<T>, a: nat, b: nat)
    requires a <= b <= |s|
    ensures s[a..][b - a..] == s[b..]
  {
  }

  lemma AdvanceIsAt(frames: seq<Frame>, st: State, f: nat)
    requires At(frames, st) && st.current <= f <= |Concat(frames)|
    ensures IsAt(frames, AdvanceTo(st, f), f)
  {
    hide AdvanceTo, Concat;
    AtStop(frames, st);
    AdvanceIs(st, f);
    var stream, on := Concat(frames), AdvanceTo(st, f);
    assert Rest(Start(frames)) == stream by { assert [] + stream == stream; }
    DropTwice(stream, st.current, f);
    assert on.current == f && Rest(st) == stream[st.current..];
  }

  /** Without delay, seeking by reading succeeds exactly up to the end of the music, and
      then leaves the stream at `f`: the next PCM frame read is the one with index `f`. */
  lemma BruteForceSeeks(frames: seq<Frame>, st: State, trim: Trim, f: nat)
    requires At(frames, st) && trim.delay == 0 && st.current <= MusicEnd(frames, trim)
    ensures var r := BruteForce(frames, st, trim, f);
      && (r.ok <==> f <= MusicEnd(frames, trim)) && (r.ok ==> IsAt(frames, r.state, f))
  {
    hide Delivered, Window, AdvanceTo, Concat;
    if f == st.current {
    } else {
      var from := if f < st.current then Start(frames) else st;
      var n := f - from.current;
      if n > 0 { ForwardReaches(frames, from, trim, n, f); } else { NothingPlays(from, trim, 0); }
      if f <= MusicEnd(frames, trim) { AdvanceIsAt(frames, from, f); }
    }
  }

  /** With a delay a seek from the start that succeeds overshoots by just the delay. */
  lemma BruteForceOvershoots(frames: seq<Frame>, trim: Trim, f: nat)
    requires f > 0 && BruteForce(frames, Start(frames), trim, f).ok
    ensures BruteForce(frames, Start(frames), trim, f).state.current == trim.delay + f
  {
    hide Concat, AdvanceTo;
    var st := Start(frames);
    if Plays(st, trim) {
      var t := Target(st.current, trim, f);
      Playing(st, trim, f, t);
      AdvanceIs(st, t);
    } else {
      NothingPlays(st, trim, f);
    }
  }

  // ----- counting frames -----

  /** The PCM frames of the first `i` MP3 frames. */
  function PcmBefore(frames: seq<Frame>, i: nat): nat
    requires i <= |frames|
  {
    if i == 0 then 0 else PcmBefore(frames, i - 1) + |frames[i - 1].pcm|
  }

  /** What comes from MP3 frame `i` on is the stream from PCM frame `PcmBefore(i)` on. */
  lemma {:induction false} ConcatFrom(frames: seq<Frame>, i: nat)
    requires i <= |frames|
    ensures PcmBefore(frames, i) <= |Concat(frames)| && Concat(frames[i..]) == Concat(frames)[PcmBefore(frames, i)..]
  {
    if i > 0 {
      ConcatFrom(frames, i - 1);
      var at, rest := PcmBefore(frames, i - 1), frames[i - 1..];
      assert rest[0] == frames[i - 1] && rest[1..] == frames[i..];
      assert Concat(rest) == rest[0].pcm + Concat(frames[i..]);
      var k := |rest[0].pcm|;
      assert Concat(rest)[k..] == Concat(frames[i..]);
      SliceLater(Concat(frames), at, at + k, |Concat(frames)|);
    }
  }

  lemma PcmOfAll(frames: seq<Frame>)
    ensures PcmBefore(frames, |frames|) == |Concat(frames)|
  {
    ConcatFrom(frames, |frames|);
    assert frames[|frames|..] == [];
  }

  /** How counting goes back to PCM frame `c`: to the start, and forward again. */
  function Restore(frames: seq<Frame>, trim: Trim, c: nat): Sought {
    if c == 0 then Sought(Start(frames), true) else BruteForce(frames, Start(frames), trim, c)
  }

  lemma {:induction false} AdvanceToStop(st: State)
    requires Sounding(st.later)
    ensures AdvanceTo(st, Stop(st)) == State(Stop(st), [], [])
    decreases |st.later|
  {
    if st.later != [] {
      var next := Decoded(Used(st));
      assert Rest(st) == st.left + Rest(next);
      assert st.later[0].pcm != [];
      AdvanceToStop(next);
    }
  }

  /** A decoder that reads have positioned, by `n` PCM frames in all, from the start or from
      the first MP3 frame already decoded. */
  predicate Positioned(frames: seq<Frame>, trim: Trim, n: nat, st: State) {
    st == After(Start(frames), trim, n) || (n > 0 && frames != [] && st == After(Decoded(Start(frames)), trim, n))
  }

  lemma PositionedFromStart(frames: seq<Frame>, trim: Trim, n: nat, st: State)
    requires Positioned(frames, trim, n, st) && n > 0
    ensures st == After(Start(frames), trim, n)
  {
    if frames != [] && !trim.Past(0) {
      DecodeStep(Start(frames), trim, n);
    }
  }

  lemma PositionedAt(frames: seq<Frame>, trim: Trim, n: nat, st: State, t: nat)
    requires Sounding(frames) && trim.delay == 0 && n > 0 && st == After(Start(frames), trim, n) &&
      t == Target(0, trim, n)
    ensures st.current <= MusicEnd(frames, trim) && st == AdvanceTo(Start(frames), st.current)
  {
    var start := Start(frames);
    Playing(start, trim, n, t);
    AdvanceIs(start, t);
    if t > Stop(start) {
      AdvanceOver(start, t);
      AdvanceToStop(start);
    }
  }

  /** Without delay, going back after counting leaves exactly the state there was before. */
  lemma CountTransparent(frames: seq<Frame>, trim: Trim, n: nat, st: State)
    requires Sounding(frames) && trim.delay == 0 && Positioned(frames, trim, n, st)
    ensures Restore(frames, trim, st.current) == Sought(st, true)
  {
    if n > 0 {
      PositionedFromStart(frames, trim, n, st);
      PositionedAt(frames, trim, n, st, Target(0, trim, n));
      var c := st.current;
      if c > 0 { ForwardReaches(frames, Start(frames), trim, c, c); }
    }
  }

  /** Before anything has been read the first MP3 frame may be in memory, which it is not
      any more after counting: every read comes to the same all the same. */
  lemma CountTransparentAtFirst(frames: seq<Frame>, trim: Trim, m: nat)
    requires frames != [] && m > 0
    ensures After(Restore(frames, trim, 0).state, trim, m) == After(Decoded(Start(frames)), trim, m)
    ensures Delivered(Restore(frames, trim, 0).state, trim, m) == Delivered(Decoded(Start(frames)), trim, m)
  {
    DecodeStep(Start(frames), trim, m);
  }

  /** Counting comes back to PCM frame `c` exactly from the start, and without delay from
      anywhere up to the end of the music. */
  lemma CountRestoresIff(frames: seq<Frame>, trim: Trim, c: nat)
    ensures var r := Restore(frames, trim, c);
      r.ok && r.state.current == c <==> c == 0 || (trim.delay == 0 && c <= MusicEnd(frames, trim))
  {
    if c > 0 {
      if trim.delay == 0 {
        ForwardReaches(frames, Start(frames), trim, c, c);
        AtStop(frames, Start(frames));
        AdvanceIs(Start(frames), c);
      } else if Restore(frames, trim, c).ok {
        BruteForceOvershoots(frames, trim, c);
      }
    }
  }

  /** One MP3 frame of four PCM frames, of which the first is delay: reading one PCM frame
      leaves the reader at index 2, and counting then leaves it at index 3. */
  lemma OvershootExample(a: PcmFrame, b: PcmFrame, c: PcmFrame, d: PcmFrame)
    ensures var frames, trim := [Frame(0, [a, b, c, d])], Trim(1, 0, Unknown);
      && After(Start(frames), trim, 1) == State(2, [c, d], [])
      && Restore(frames, trim, 2) == Sought(State(3, [d], []), true)
  {
    var frames, trim := [Frame(0, [a, b, c, d])], Trim(1, 0, Unknown);
    var st, st1 := Start(frames), State(0, [a, b, c, d], []);
    assert frames[1..] == [];
    assert Decoded(Used(st)) == st1;
    assert Concat(frames) == [a, b, c, d] + Concat([]);
    assert Rest(st) == Rest(st1) == [a, b, c, d];
    assert AdvanceTo(st, 2) == AdvanceTo(st1, 2) == State(2, [c, d], []);
    assert AdvanceTo(st, 3) == AdvanceTo(st1, 3) == State(3, [d], []);
    assert Window(st, 1, 3) == [b, c];
  }

  // ----- the methods -----

  /** drmp3_seek_to_start_of_stream */
  method SeekToStart(r: Reader)
    requires r.Valid()
    modifies r
    ensures r.Valid() && r.Now() == Start(r.frames) && r.next == 0
  {
    r.next, r.current, r.consumed, r.remaining := 0, 0, 0, 0;
  }

  method SeekForward(r: Reader, n: nat) returns (ok: bool)
    requires r.Valid()
    modifies r
    ensures r.Valid() && Sought(r.Now(), ok) == Forward(old(r.Now()), r.trim, n)
  {
    var framesRead := r.ReadRaw(n, null);
    ok := framesRead == n;
  }

  method SeekBruteForce(r: Reader, f: nat) returns (ok: bool)
    requires r.Valid()
    modifies r
    ensures r.Valid() && Sought(r.Now(), ok) == BruteForce(r.frames, old(r.Now()), r.trim, f)
  {
    if f == r.current { return true; }
    if f < r.current { SeekToStart(r); }
    ok := SeekForward(r, f - r.current);
  }

  /** drmp3_seek_to_pcm_frame without a seek table. */
  method SeekToPcmFrame(r: Reader, f: nat) returns (ok: bool)
    requires r.Valid()
    modifies r
    ensures r.Valid()
    ensures Sought(r.Now(), ok) ==
      if f == 0 then Sought(Start(r.frames), true) else BruteForce(r.frames, old(r.Now()), r.trim, f)
  {
    if f == 0 {
      SeekToStart(r);
      return true;
    }
    ok := SeekBruteForce(r, f);
  }

  /** The counting pass, to the end of the stream. */
  method CountPass(r: Reader) returns (mp3Frames: nat, pcmFrames: nat)
    requires r.Valid() && r.next == 0
    modifies r
    ensures r.Valid() && mp3Frames == |r.frames| && pcmFrames == |Concat(r.frames)|
  {
    mp3Frames, pcmFrames := 0, 0;
    var more := true;
    while more
      invariant r.Valid() && mp3Frames == r.next && pcmFrames == PcmBefore(r.frames, r.next)
      invariant !more ==> r.next == |r.frames|
      decreases more, |r.frames| - r.next
    {
      var count := r.DecodeNext();
      if count == 0 {
        more := false;
      } else {
        mp3Frames, pcmFrames := mp3Frames + 1, pcmFrames + count;
      }
    }
    PcmOfAll(r.frames);
  }

  /** drmp3_get_mp3_and_pcm_frame_count. Without sample output the stream may yield more MP3
      frames: `counter` is the decoder while it counts, with the frames it then yields. */
  method CountFrames(r: Reader, counter: Reader) returns (ok: bool, mp3Frames: nat, pcmFrames: nat)
    requires r.Valid() && counter.Valid()
    modifies r, counter
    ensures r.Valid() && counter.Valid() && mp3Frames == |counter.frames| && pcmFrames == |Concat(counter.frames)|
    ensures Sought(r.Now(), ok) == Restore(r.frames, r.trim, old(r.current))
  {
    var current := r.current;
    SeekToStart(counter);
    mp3Frames, pcmFrames := CountPass(counter);
    SeekToStart(r);
    ok := SeekToPcmFrame(r, current);
  }
}
