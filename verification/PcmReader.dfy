/**
 Reading PCM (include/dr_mp3.h, `drmp3_read_pcm_frames_raw`): reads of any size across
 MP3 frames, with the encoder's delay skipped and its padding cut off.

 A decoded MP3 frame is its byte length and its PCM frames; a PCM frame holds one sample
 for each channel.
 */
module PcmReader {
  import opened Numbers

  type PcmFrame = seq<int>

  datatype Frame = Frame(bytes: nat, pcm: seq<PcmFrame>)

  datatype Total = Unknown | Known(count: nat)

  /** What the Xing/Info tag says about the samples that are not music. */
  datatype Trim = Trim(delay: nat, padding: nat, total: Total) {
    predicate Bounded() { total.Known? && total.count > padding }

    function End(): nat
      requires Bounded()
    {
      total.count - padding
    }

    /** There is music at all. */
    predicate Playable() { Bounded() ==> delay < End() }

    predicate Past(current: nat) { Bounded() && current >= End() }
  }

  /** Where reading stands: the absolute index of the next PCM frame, what is left of the
      MP3 frame in memory, and the MP3 frames not yet decoded. */
  datatype State = State(current: nat, left: seq<PcmFrame>, later: seq<Frame>)

  /** The decoder yields frames that hold samples. */
  predicate Sounding(frames: seq<Frame>) { forall i | 0 <= i < |frames| :: frames[i].pcm != [] }

  function Concat(frames: seq<Frame>): seq<PcmFrame> {
    if frames == [] then [] else frames[0].pcm + Concat(frames[1..])
  }

  function Rest(st: State): seq<PcmFrame> { st.left + Concat(st.later) }

  /** The absolute index at which the stream ends. */
  function Stop(st: State): nat { st.current + |Rest(st)| }

  /** The PCM frames with absolute index from `a` on and below `b`, as far as there are any. */
  function Window(st: State, a: nat, b: nat): seq<PcmFrame>
    requires st.current <= a
  {
    var e := Min(b, Stop(st));
    if a < e then Rest(st)[a - st.current..e - st.current] else []
  }

  lemma WindowJoin(st: State, a: nat, b: nat, c: nat)
    requires st.current <= a <= b <= c
    ensures Window(st, a, b) + Window(st, b, c) == Window(st, a, c)
  {
  }

  /** The stream seen from further on. */
  predicate Onward(st: State, st1: State) {
    st.current <= st1.current <= Stop(st) && Rest(st1) == Rest(st)[st1.current - st.current..]
  }

  lemma SliceLater<T>(s: seq<T>, d: nat, a: nat, b: nat)
    requires d <= a <= b <= |s|
    ensures s[d..][a - d..b - d] == s[a..b]
  {
  }

  lemma WindowLater(st: State, st1: State, a: nat, b: nat)
    requires Onward(st, st1) && st1.current <= a
    ensures Window(st1, a, b) == Window(st, a, b)
  {
    var c, e := st.current, Min(b, Stop(st));
    assert Stop(st1) == Stop(st);
    if a < e { SliceLater(Rest(st), st1.current - c, a - c, e - c); }
  }

  // ----- stepping over PCM frames -----

  /** The MP3 frame in memory used up. */
  function Used(st: State): State { State(st.current + |st.left|, [], st.later) }

  /** The next MP3 frame in memory. */
  function Decoded(st: State): State
    requires st.later != []
  {
    State(st.current, st.later[0].pcm, st.later[1..])
  }

  /** On to absolute index `t`, or to the end. An MP3 frame is decoded only once it is needed. */
  function AdvanceTo(st: State, t: nat): State
    decreases |st.later|
  {
    if t <= st.current then st
    else if t <= st.current + |st.left| then State(t, st.left[t - st.current..], st.later)
    else if st.later == [] then Used(st)
    else AdvanceTo(Decoded(Used(st)), t)
  }

  /** `r` is the stream from `t` on, or its end. */
  ghost predicate Reached(st: State, t: nat, r: State) {
    Onward(st, r) && r.current == Max(st.current, Min(t, Stop(st)))
  }

  lemma NothingLater(st: State)
    ensures st.later == [] ==> Concat(st.later) == []
  {
  }

  /** A state `d` PCM frames further on, within the MP3 frame in memory, has been reached if it stops at
      `t` or has used all there is. */
  lemma ReachedAfter(st: State, t: nat, d: nat, r: State)
    requires d <= |st.left| && r == State(st.current + d, st.left[d..], st.later)
    requires (t <= st.current && d == 0) || t == st.current + d || (st.current + d < t && d == |Rest(st)|)
    ensures Reached(st, t, r)
  {
    hide Concat;
    DropSome(st.left, Concat(st.later), d);
  }

  lemma ReachedInside(st: State, t: nat)
    requires t <= st.current + |st.left| || st.later == []
    ensures Reached(st, t, AdvanceTo(st, t))
  {
    hide Reached;
    if t <= st.current {
      assert st.left[0..] == st.left;
      ReachedAfter(st, t, 0, st);
    } else if t <= st.current + |st.left| {
      ReachedAfter(st, t, t - st.current, AdvanceTo(st, t));
    } else {
      NothingLater(st);
      ReachedAfter(st, t, |st.left|, AdvanceTo(st, t));
    }
  }

  lemma DropSome<T>(a: seq<T>, b: seq<T>, c: nat)
    requires c <= |a|
    ensures (a + b)[c..] == a[c..] + b
  {
  }

  lemma ReachedPast(st: State, next: State, t: nat, r: State)
    requires next.current == st.current + |st.left| < t && Rest(st) == st.left + Rest(next) && Reached(next, t, r)
    ensures Reached(st, t, r)
  {
    hide Concat;
    var d := |st.left|;
    assert Rest(st)[d..] == Rest(next);
    SliceLater(Rest(st), d, r.current - st.current, |Rest(st)|);
  }

  lemma {:induction false} AdvanceIs(st: State, t: nat)
    ensures Reached(st, t, AdvanceTo(st, t))
    decreases |st.later|
  {
    if t <= st.current + |st.left| || st.later == [] {
      ReachedInside(st, t);
    } else {
      var next := Decoded(Used(st));
      AdvanceIs(next, t);
      ReachedPast(st, next, t, AdvanceTo(next, t));
    }
  }

  lemma {:induction false} AdvanceTwice(st: State, a: nat, b: nat)
    requires a <= b
    ensures AdvanceTo(AdvanceTo(st, a), b) == AdvanceTo(st, b)
    decreases |st.later|
  {
    if a > st.current + |st.left| && st.later != [] { AdvanceTwice(Decoded(Used(st)), a, b); }
  }

  lemma {:induction false} AdvanceOver(st: State, t: nat)
    requires t > Stop(st)
    ensures AdvanceTo(st, t) == State(Stop(st), [], [])
    decreases |st.later|
  {
    if st.later != [] {
      assert Rest(st) == st.left + Rest(Decoded(Used(st)));
      AdvanceOver(Decoded(Used(st)), t);
    }
  }

  // ----- what a read is -----

  /** How far a read of `n` wants to get. */
  function Target(current: nat, trim: Trim, n: nat): nat {
    var wanted := Max(current, trim.delay) + n;
    if trim.Bounded() then Min(trim.End(), wanted) else wanted
  }

  /** Nothing of the delay is in front of what is in memory. */
  predicate Settled(st: State, trim: Trim) { st.current < trim.delay ==> st.left == [] }

  /** The delay skipped as far as the MP3 frame in memory goes. */
  function Skip(st: State, trim: Trim): (r: State)
    ensures Settled(r, trim)
  {
    if Settled(st, trim) then st
    else if st.current + |st.left| <= trim.delay then Used(st)
    else State(trim.delay, st.left[trim.delay - st.current..], st.later)
  }

  /** Without music a read steps over MP3 frames until it is past the end. */
  function Stuck(st: State, trim: Trim): State
    decreases |st.later|
  {
    var st1 := Skip(st, trim);
    if trim.Past(st1.current) || st.later == [] then st1 else Stuck(Decoded(st1), trim)
  }

  /** The state a read of `n` leaves. */
  function After(st: State, trim: Trim, n: nat): State {
    if n == 0 then st
    else if !trim.Playable() then Stuck(st, trim)
    else if trim.Past(st.current) then st
    else AdvanceTo(st, Target(st.current, trim, n))
  }

  /** The PCM frames it delivers: of all that are to come, those from the end of the delay
      on, at most `n`, and none of the padding. */
  function Delivered(st: State, trim: Trim, n: nat): seq<PcmFrame> {
    if !trim.Playable() || trim.Past(st.current) then []
    else Window(st, Max(st.current, trim.delay), Target(st.current, trim, n))
  }

  // ----- splitting a read -----

  lemma {:induction false} StuckTwice(st: State, trim: Trim)
    ensures Stuck(Stuck(st, trim), trim) == Stuck(st, trim)
    decreases |st.later|
  {
    var st1 := Skip(st, trim);
    if !trim.Past(st1.current) && st.later != [] { StuckTwice(Decoded(st1), trim); }
  }

  /** There is music, and the reader is not past it. */
  predicate Plays(st: State, trim: Trim) { trim.Playable() && !trim.Past(st.current) }

  lemma AtTheEnd(current: nat, trim: Trim, m: nat)
    ensures After(State(current, [], []), trim, m) == State(current, [], [])
    ensures Delivered(State(current, [], []), trim, m) == []
  {
  }

  lemma NothingPlays(st: State, trim: Trim, n: nat)
    requires n == 0 || !Plays(st, trim)
    ensures Delivered(st, trim, n) == []
  {
  }

  lemma Playing(st: State, trim: Trim, n: nat, t: nat)
    requires Plays(st, trim) && n > 0 && t == Target(st.current, trim, n)
    ensures After(st, trim, n) == AdvanceTo(st, t) && Max(st.current, trim.delay) <= t
    ensures Delivered(st, trim, n) == Window(st, Max(st.current, trim.delay), t)
  {
  }

  /** Where two reads want to get, `t` and then `t2`. */
  lemma TargetTwice(current: nat, trim: Trim, n: nat, m: nat, t: nat) returns (t2: nat)
    requires trim.Playable() && !trim.Past(current) && n > 0 && t == Target(current, trim, n)
    ensures t2 == Target(current, trim, n + m) && Max(current, trim.delay) <= t <= t2
    ensures if trim.Past(t) then t2 == t else t2 == Target(t, trim, m)
  {
    t2 := Target(current, trim, n + m);
  }

  /** When the stream has what the first read wants. */
  lemma SplitReached(st: State, trim: Trim, n: nat, m: nat, t: nat, t2: nat, a: nat, st1: State)
    requires a <= t <= t2 && trim.Playable() && m > 0 && a == Max(st.current, trim.delay)
    requires if trim.Past(t) then t2 == t else t2 == Target(t, trim, m)
    requires st1 == AdvanceTo(st, t) && Onward(st, st1) && st1.current == t
    ensures After(st1, trim, m) == AdvanceTo(st, t2)
    ensures Window(st, a, t) + Delivered(st1, trim, m) == Window(st, a, t2)
  {
    if trim.Past(t) {
      NothingPlays(st1, trim, m);
    } else {
      Playing(st1, trim, m, t2);
      AdvanceTwice(st, t, t2);
      WindowLater(st, st1, t, t2);
      WindowJoin(st, a, t, t2);
    }
  }

  /** When it has not. */
  lemma SplitShort(st: State, trim: Trim, m: nat, t: nat, t2: nat, a: nat, st1: State)
    requires st.current <= a <= t <= t2 && st1 == AdvanceTo(st, t) && t > Stop(st)
    ensures After(st1, trim, m) == AdvanceTo(st, t2)
    ensures Window(st, a, t) + Delivered(st1, trim, m) == Window(st, a, t2)
  {
    AdvanceOver(st, t);
    AdvanceOver(st, t2);
    AtTheEnd(Stop(st), trim, m);
  }

  lemma SplitPlaying(st: State, trim: Trim, n: nat, m: nat, t: nat, t2: nat, st1: State)
    requires Plays(st, trim) && n > 0 && m > 0 && t == Target(st.current, trim, n)
    requires t2 == Target(st.current, trim, n + m) && st1 == AdvanceTo(st, t)
    ensures After(st1, trim, m) == AdvanceTo(st, t2)
    ensures Delivered(st, trim, n) + Delivered(st1, trim, m) == Window(st, Max(st.current, trim.delay), t2)
  {
    var t3 := TargetTwice(st.current, trim, n, m, t);
    var a := Max(st.current, trim.delay);
    Playing(st, trim, n, t);
    AdvanceIs(st, t);
    if t > Stop(st) {
      SplitShort(st, trim, m, t, t2, a, st1);
    } else {
      SplitReached(st, trim, n, m, t, t2, a, st1);
    }
  }

  /** Reading in two goes delivers what reading at once delivers, and leaves what it leaves,
      MP3 frame in memory and all. */
  lemma ReadSplit(st: State, trim: Trim, n: nat, m: nat)
    ensures After(After(st, trim, n), trim, m) == After(st, trim, n + m)
    ensures Delivered(st, trim, n) + Delivered(After(st, trim, n), trim, m) == Delivered(st, trim, n + m)
  {
    if n == 0 || m == 0 {
      NothingPlays(st, trim, 0);
      NothingPlays(After(st, trim, n), trim, 0);
    } else if !trim.Playable() {
      StuckTwice(st, trim);
    } else if !trim.Past(st.current) {
      var t, t2, both := Target(st.current, trim, n), Target(st.current, trim, n + m), n + m;
      Playing(st, trim, n, t);
      Playing(st, trim, both, t2);
      SplitPlaying(st, trim, n, m, t, t2, After(st, trim, n));
    }
  }

  // ----- one turn of the read loop -----

  lemma SkipPlaying(st: State, trim: Trim, n: nat, t: nat, to: nat, st1: State)
    requires Plays(st, trim) && n > 0 && st.current < trim.delay && t == Target(st.current, trim, n)
    requires to <= trim.delay && st1 == AdvanceTo(st, to) && st.current <= st1.current <= trim.delay
    ensures After(st, trim, n) == After(st1, trim, n) && Delivered(st, trim, n) == Delivered(st1, trim, n)
  {
    AdvanceIs(st, to);
    Playing(st, trim, n, t);
    Playing(st1, trim, n, t);
    AdvanceTwice(st, to, t);
    WindowLater(st, st1, trim.delay, t);
  }

  lemma SkipAdvances(st: State, trim: Trim) returns (to: nat)
    requires st.current < trim.delay
    ensures to <= trim.delay && Skip(st, trim) == AdvanceTo(st, to) &&
      st.current <= Skip(st, trim).current <= trim.delay
  {
    to := Min(trim.delay, st.current + |st.left|);
  }

  /** Skipping what it can of the delay first changes nothing about a read. */
  lemma SkipStep(st: State, trim: Trim, n: nat)
    requires n > 0
    ensures After(st, trim, n) == After(Skip(st, trim), trim, n)
    ensures Delivered(st, trim, n) == Delivered(Skip(st, trim), trim, n)
  {
    if trim.Playable() && st.current < trim.delay {
      var to := SkipAdvances(st, trim);
      SkipPlaying(st, trim, n, Target(st.current, trim, n), to, Skip(st, trim));
    }
  }

  /** `c` PCM frames of the MP3 frame in memory taken. */
  function Taken(st: State, c: nat): State
    requires c <= |st.left|
  {
    State(st.current + c, st.left[c..], st.later)
  }

  predicate CanTake(st: State, trim: Trim, c: nat) {
    c <= |st.left| && Settled(st, trim) && (trim.Bounded() ==> st.current + c <= trim.End())
  }

  lemma Take(st: State, trim: Trim, c: nat, t: nat)
    requires CanTake(st, trim, c) && t == st.current + c
    ensures After(st, trim, c) == Taken(st, c) && Delivered(st, trim, c) == st.left[..c]
  {
    if c > 0 {
      Playing(st, trim, c, t);
      assert Window(st, st.current, t) == st.left[..c];
    } else {
      NothingPlays(st, trim, c);
    }
  }

  /** Taking `c` from the MP3 frame in memory is a read of `c`; `m` are still wanted. */
  lemma ConsumeStep(st: State, trim: Trim, n: nat, c: nat, m: nat)
    requires CanTake(st, trim, c) && c + m == n
    ensures After(st, trim, n) == After(Taken(st, c), trim, m)
    ensures Delivered(st, trim, n) == st.left[..c] + Delivered(Taken(st, c), trim, m)
  {
    Take(st, trim, c, st.current + c);
    ReadSplit(st, trim, c, m);
  }

  /** The MP3 frame in memory is used up: the next one is decoded. */
  lemma DecodeStep(st: State, trim: Trim, n: nat)
    requires n > 0 && st.left == [] && !trim.Past(st.current) && st.later != []
    ensures After(st, trim, n) == After(Decoded(st), trim, n)
    ensures Delivered(st, trim, n) == Delivered(Decoded(st), trim, n)
  {
    hide Concat;
    DecodedRest(st);
    if trim.Playable() {
      var t := Target(st.current, trim, n);
      Playing(st, trim, n, t);
      Playing(Decoded(st), trim, n, t);
    } else {
      assert Skip(st, trim) == st;
    }
  }

  lemma DecodedRest(st: State)
    requires st.left == [] && st.later != []
    ensures Used(st) == st && Rest(Decoded(st)) == Rest(st)
  {
  }

  /** Or there is none, or the padding has been reached: reading stops. */
  lemma StopStep(st: State, trim: Trim, n: nat)
    requires Settled(st, trim) && (trim.Past(st.current) || (st.left == [] && st.later == []))
    ensures After(st, trim, n) == st && Delivered(st, trim, n) == []
  {
    if !trim.Past(st.current) { AtTheEnd(st.current, trim, n); }
  }

  // ----- whole runs -----

  function Sum(sizes: seq<nat>): nat {
    if sizes == [] then 0 else sizes[0] + Sum(sizes[1..])
  }

  datatype Run = Run(state: State, pcm: seq<PcmFrame>)

  /** Reads of the given sizes, one after the other. */
  function ReadAll(st: State, trim: Trim, sizes: seq<nat>): Run
    decreases |sizes|
  {
    if sizes == [] then Run(st, []) else
      var r := ReadAll(After(st, trim, sizes[0]), trim, sizes[1..]);
      Run(r.state, Delivered(st, trim, sizes[0]) + r.pcm)
  }

  /** However a caller cuts up its reading, it gets what one read gets. */
  lemma {:induction false} RunIsOneRead(st: State, trim: Trim, sizes: seq<nat>)
    ensures ReadAll(st, trim, sizes) == Run(After(st, trim, Sum(sizes)), Delivered(st, trim, Sum(sizes)))
    decreases |sizes|
  {
    if sizes == [] {
      NothingPlays(st, trim, 0);
    } else {
      var n, m := sizes[0], Sum(sizes[1..]);
      RunIsOneRead(After(st, trim, n), trim, sizes[1..]);
      ReadSplit(st, trim, n, m);
    }
  }

  /** Where the music of a stream of `length` PCM frames ends: if the total is known and more
      than the padding, the padding at its end is none. */
  function EndOfMusic(trim: Trim, length: nat): (end: nat)
    ensures end <= length
  {
    if trim.total.Known? && trim.total.count > trim.padding then Min(trim.total.count - trim.padding, length)
    else length
  }

  /** The music of a stream: neither the delay nor the padding. */
  function Music(trim: Trim, all: seq<PcmFrame>): seq<PcmFrame> {
    var end := EndOfMusic(trim, |all|);
    if trim.delay < end then all[trim.delay..end] else []
  }

  lemma FirstOf(all: seq<PcmFrame>, from: nat, end: nat, n: nat)
    requires from <= end <= |all| && n <= end - from
    ensures all[from..from + n] == all[from..end][..n]
  {
  }

  lemma ReadFromStart(st: State, trim: Trim, n: nat)
    requires st.current == 0
    ensures var music := Music(trim, Rest(st)); Delivered(st, trim, n) == music[..Min(n, |music|)]
  {
    hide Concat;
    var all, end := Rest(st), EndOfMusic(trim, |Rest(st)|);
    if Plays(st, trim) && n > 0 {
      Playing(st, trim, n, Target(0, trim, n));
      if trim.delay < end { FirstOf(all, trim.delay, end, Min(n, end - trim.delay)); }
    } else {
      NothingPlays(st, trim, n);
    }
  }

  lemma PositionFromStart(st: State, trim: Trim, n: nat)
    requires st.current == 0 && n > 0 && trim.delay < EndOfMusic(trim, |Rest(st)|)
    ensures After(st, trim, n).current == Min(trim.delay + n, EndOfMusic(trim, |Rest(st)|))
  {
    hide Concat, AdvanceTo;
    var t := Target(0, trim, n);
    Playing(st, trim, n, t);
    AdvanceIs(st, t);
  }

  /** From the start, whatever the sizes of the reads, they deliver the music from its beginning
      on, once and in order, as much as is asked for; the delay and the padding never. */
  lemma RunDelivers(st: State, trim: Trim, sizes: seq<nat>)
    requires st.current == 0
    ensures var r, music := ReadAll(st, trim, sizes), Music(trim, Rest(st));
      && r.pcm == music[..Min(Sum(sizes), |music|)]
      && (music != [] && Sum(sizes) > 0 ==> r.state.current == trim.delay + |r.pcm|)
  {
    hide Concat, After, Delivered;
    RunIsOneRead(st, trim, sizes);
    ReadFromStart(st, trim, Sum(sizes));
    if Music(trim, Rest(st)) != [] && Sum(sizes) > 0 { PositionFromStart(st, trim, Sum(sizes)); }
  }

  // ----- the reader -----

  lemma SkipTakes(st: State, trim: Trim)
    ensures Skip(st, trim) ==
      if st.current < trim.delay then Taken(st, Min(|st.left|, trim.delay - st.current)) else st
  {
    if st.current < trim.delay && st.left == [] { assert Taken(st, 0) == st; }
  }

  lemma Inside(s: seq<PcmFrame>, at: nat, length: nat, c: nat)
    requires at + length <= |s| && c <= length
    ensures s[at + c..at + c + (length - c)] == s[at..at + length][c..]
  {
  }

  /** How much of the MP3 frame in memory a turn delivers. */
  function ToConsume(st: State, trim: Trim, n: nat): (c: nat)
    requires !trim.Past(st.current)
    ensures c <= n && c <= |st.left| && (trim.Bounded() ==> st.current + c <= trim.End())
    ensures c == n || c == |st.left| || trim.Past(st.current + c)
  {
    var c := Min(|st.left|, n);
    if trim.Bounded() then Min(c, trim.End() - st.current) else c
  }

  datatype Turned = Turned(state: State, pcm: seq<PcmFrame>, more: bool)

  /** One turn of the loop with `n` PCM frames still wanted: what can be is delivered; unless
      that is all or the padding has been reached, the next MP3 frame is decoded. */
  function TurnOf(st: State, trim: Trim, n: nat): (t: Turned)
    ensures |t.pcm| <= n
  {
    var skipped := Skip(st, trim);
    if trim.Past(skipped.current) then Turned(skipped, [], false) else
      var c := ToConsume(skipped, trim, n);
      var taken := Taken(skipped, c);
      if c == n || trim.Past(taken.current) || taken.later == [] then Turned(taken, skipped.left[..c], false)
      else Turned(Decoded(taken), skipped.left[..c], true)
  }

  /** What is owed of a read when `st` has been reached and `n` PCM frames are still wanted. */
  ghost predicate Owed(goal: Run, got: seq<PcmFrame>, st: State, trim: Trim, n: nat) {
    goal == Run(After(st, trim, n), got + Delivered(st, trim, n))
  }

  /** A turn keeps what is owed; the last one leaves nothing owing. */
  lemma TurnKeeps(goal: Run, got: seq<PcmFrame>, st: State, trim: Trim, n: nat, t: Turned, st1: State, m: nat)
    requires n > 0 && Owed(goal, got, st, trim, n) && t == TurnOf(st, trim, n) && |t.pcm| + m == n && st1 == t.state
    ensures if t.more then Owed(goal, got + t.pcm, st1, trim, m) else goal == Run(st1, got + t.pcm)
  {
    SkipStep(st, trim, n);
    var skipped := Skip(st, trim);
    if trim.Past(skipped.current) {
      StopStep(skipped, trim, n);
    } else {
      var c := ToConsume(skipped, trim, n);
      TurnTakes(goal, got, skipped, trim, n, c, m);
    }
  }

  lemma NothingWanted(st: State, trim: Trim, n: nat)
    requires n == 0
    ensures After(st, trim, n) == st && Delivered(st, trim, n) == []
  {
    NothingPlays(st, trim, n);
  }

  lemma OwedNothing(goal: Run, got: seq<PcmFrame>, st: State, trim: Trim, n: nat)
    requires Owed(goal, got, st, trim, n) && After(st, trim, n) == st && Delivered(st, trim, n) == []
    ensures goal == Run(st, got)
  {
    assert got + [] == got;
  }

  lemma TurnTakes(goal: Run, got: seq<PcmFrame>, st: State, trim: Trim, n: nat, c: nat, m: nat)
    requires n > 0 && Owed(goal, got, st, trim, n) && c + m == n
    requires Settled(st, trim) && !trim.Past(st.current) && c == ToConsume(st, trim, n)
    ensures var taken, pcm := Taken(st, c), got + st.left[..c];
      if c == n || trim.Past(taken.current) || taken.later == [] then goal == Run(taken, pcm)
      else Owed(goal, pcm, Decoded(taken), trim, m)
  {
    hide After, Delivered, Window;
    ConsumeStep(st, trim, n, c, m);
    var taken, pcm := Taken(st, c), got + st.left[..c];
    assert Owed(goal, pcm, taken, trim, m) by {
      assert pcm + Delivered(taken, trim, m) == got + (st.left[..c] + Delivered(taken, trim, m));
    }
    if c == n {
      NothingWanted(taken, trim, m);
      OwedNothing(goal, pcm, taken, trim, m);
    } else if trim.Past(taken.current) || taken.later == [] {
      StopStep(taken, trim, m);
      OwedNothing(goal, pcm, taken, trim, m);
    } else {
      DecodeStep(taken, trim, m);
    }
  }

  /** A buffer with `pcm` written to it at `at`. */
  function Fill<T>(buffer: seq<T>, at: nat, pcm: seq<T>): seq<T>
    requires at + |pcm| <= |buffer|
  {
    buffer[..at] + pcm + buffer[at + |pcm|..]
  }

  lemma FillIs<T>(buffer: seq<T>, at: nat, pcm: seq<T>, filled: seq<T>)
    requires at + |pcm| <= |buffer| == |filled|
    requires forall j :: 0 <= j < |buffer| ==>
      filled[j] == if at <= j < at + |pcm| then pcm[j - at] else buffer[j]
    ensures filled == Fill(buffer, at, pcm)
  {
  }

  lemma FillTwice<T>(buffer: seq<T>, a: seq<T>, b: seq<T>)
    requires |a| + |b| <= |buffer|
    ensures Fill(Fill(buffer, 0, a), |a|, b) == Fill(buffer, 0, a + b)
  {
  }

  /** The caller's buffer, if there is one, was `before` and has been written to. */
  ghost predicate Filled(out: array?<PcmFrame>, before: seq<PcmFrame>, at: nat, pcm: seq<PcmFrame>)
    reads out
  {
    out != null ==> at + |pcm| <= |before| && out[..] == Fill(before, at, pcm)
  }

  ghost function Contents(out: array?<PcmFrame>): seq<PcmFrame>
    reads out
  {
    if out == null then [] else out[..]
  }

  lemma Leading<T>(s: seq<T>, a: nat, n: nat, c: nat)
    requires a + n <= |s| && c <= n
    ensures s[a..a + n][..c] == s[a..a + c]
  {
  }

  class Reader {
    const frames: seq<Frame>
    const trim: Trim
    var next: nat
    var current: nat
    var pcmFrames: seq<PcmFrame>
    var consumed: nat
    var remaining: nat

    ghost predicate Valid()
      reads this
    {
      Sounding(frames) && next <= |frames| && consumed + remaining <= |pcmFrames|
    }

    function Now(): State
      requires next <= |frames| && consumed + remaining <= |pcmFrames|
      reads this
    {
      State(current, pcmFrames[consumed..consumed + remaining], frames[next..])
    }

    constructor (frames: seq<Frame>, trim: Trim)
      requires Sounding(frames)
      ensures Valid() && Now() == State(0, [], frames) && this.frames == frames && this.trim == trim && next == 0
    {
      this.frames, this.trim := frames, trim;
      next, current, pcmFrames, consumed, remaining := 0, 0, [], 0, 0;
    }

    /** drmp3_decode_next_frame, with the MP3 frames it yields given. */
    method DecodeNext() returns (count: nat)
      requires Valid()
      modifies this`next, this`pcmFrames, this`consumed, this`remaining
      ensures Valid() && (count == 0 <==> old(next) == |frames|)
      ensures count == 0 ==> Now() == old(Now()) && next == old(next)
      ensures count > 0 ==> next == old(next) + 1 && count == |frames[old(next)].pcm| && Now() == Decoded(old(Now()))
    {
      if next == |frames| { return 0; }
      count := |frames[next].pcm|;
      pcmFrames, consumed, remaining, next := frames[next].pcm, 0, count, next + 1;
    }

    /** `c` PCM frames on in the MP3 frame in memory. */
    method Step(c: nat)
      requires Valid() && c <= remaining
      modifies this`current, this`consumed, this`remaining
      ensures Valid() && Now() == Taken(old(Now()), c) && remaining == old(remaining) - c
    {
      Inside(pcmFrames, consumed, remaining, c);
      current, consumed, remaining := current + c, consumed + c, remaining - c;
    }

    /** The delay, as far as the MP3 frame in memory goes. */
    method SkipDelay()
      requires Valid()
      modifies this`current, this`consumed, this`remaining
      ensures Valid() && Now() == Skip(old(Now()), trim)
    {
      SkipTakes(Now(), trim);
      if current < trim.delay { Step(Min(remaining, trim.delay - current)); }
    }

    /** `c` PCM frames from the MP3 frame in memory to the caller's buffer. */
    method Copy(c: nat, out: array<PcmFrame>, at: nat)
      requires Valid() && c <= remaining && at + c <= out.Length
      modifies out
      ensures Filled(out, old(out[..]), at, Now().left[..c])
    {
      hide Fill;
      ghost var before, pcm := out[..], pcmFrames[consumed..consumed + c];
      Leading(pcmFrames, consumed, remaining, c);
      forall j | at <= j < at + c { out[j] := pcmFrames[consumed + (j - at)]; }
      FillIs(before, at, pcm, out[..]);
    }

    /** Delivers what can be, to the buffer at `at` if there is one. */
    method Deliver(n: nat, out: array?<PcmFrame>, at: nat) returns (c: nat)
      requires Valid() && !trim.Past(current) && (out != null ==> at + n <= out.Length)
      modifies this`current, this`consumed, this`remaining, out
      ensures Valid() && c == ToConsume(old(Now()), trim, n) && Now() == Taken(old(Now()), c)
      ensures c == n || trim.Past(current) || remaining == 0
      ensures Filled(out, old(Contents(out)), at, old(Now()).left[..c])
    {
      c := Min(remaining, n);
      if trim.Bounded() {
        var framesRemainingToPadding := trim.End() - current;
        if c > framesRemainingToPadding { c := framesRemainingToPadding; }
      }
      if out != null { Copy(c, out, at); }
      Step(c);
    }

    /** One turn of the loop. */
    method Turn(n: nat, out: array?<PcmFrame>, at: nat) returns (c: nat, more: bool)
      requires Valid() && n > 0 && (out != null ==> at + n <= out.Length)
      modifies this, out
      ensures var t := TurnOf(old(Now()), trim, n);
        && Valid() && Now() == t.state && c == |t.pcm| && more == t.more && (more ==> next > old(next))
        && Filled(out, old(Contents(out)), at, t.pcm)
    {
      SkipDelay();
      if trim.Past(current) { return 0, false; }
      c := Deliver(n, out, at);
      if c == n || trim.Past(current) { return c, false; }
      assert remaining == 0;
      var count := DecodeNext();
      more := count != 0;
    }

    /** The loop; `goal` is what it should come to. */
    method ReadLoop(n: nat, out: array?<PcmFrame>, ghost goal: Run) returns (total: nat)
      requires Valid() && (out != null ==> n <= out.Length) && Owed(goal, [], Now(), trim, n)
      modifies this, out
      ensures Valid() && Now() == goal.state && total == |goal.pcm| <= n && Filled(out, old(Contents(out)), 0, goal.pcm)
    {
      ghost var got, before: seq<PcmFrame> := [], Contents(out);
      var wanted, more := n, true;
      total := 0;
      while wanted > 0 && more
        invariant Valid() && |got| == total && total + wanted == n && Filled(out, before, 0, got)
        invariant if more then Owed(goal, got, Now(), trim, wanted) else goal == Run(Now(), got)
        decreases more, |frames| - next
      {
        ghost var st, n0, t := Now(), wanted, TurnOf(Now(), trim, wanted);
        var c;
        c, more := Turn(wanted, out, total);
        total, wanted := total + c, wanted - c;
        TurnKeeps(goal, got, st, trim, n0, t, Now(), wanted);
        if out != null { FillTwice(before, got, t.pcm); }
        got := got + t.pcm;
      }
      if more { NothingPlays(Now(), trim, 0); }
    }

    /** drmp3_read_pcm_frames_raw */
    method ReadRaw(n: nat, out: array?<PcmFrame>) returns (total: nat)
      requires Valid() && (out != null ==> n <= out.Length)
      modifies this, out
      ensures Valid() && Now() == After(old(Now()), trim, n) && total == |Delivered(old(Now()), trim, n)| <= n
      ensures Filled(out, old(Contents(out)), 0, Delivered(old(Now()), trim, n))
    {
      ghost var goal := Run(After(Now(), trim, n), Delivered(Now(), trim, n));
      total := ReadLoop(n, out, goal);
    }
  }
}
