/**
 What a stream plays and what counting it reports (include/dr_mp3.h,
 `drmp3_decode_next_frame_ex__memory`, `drmp3_get_mp3_and_pcm_frame_count`): the MP3
 frames of a PCM reader are those the frame decoder yields, pull after pull.
 */
module StreamFrames {
  import opened BitString
  import opened FrameDecoder
  import opened StreamPull
  import opened ReservoirConformance
  import opened ReservoirStreams
  import Passes = ReservoirRuns
  import Pcm = PcmReader

  // ----- pulls and passes -----

  /** The PCM frames of a stream's MP3 frames. */
  function PcmTotal(pulls: seq<Pulled>): nat {
    if pulls == [] then 0 else pulls[0].samples + PcmTotal(pulls[1..])
  }

  /** The PCM frames of a pass. */
  ghost function PassTotal(dec: Dec, mp3: seq<Byte>, pcm: bool, others: Others): nat {
    Passes.Samples(Passes.Pass(dec, mp3, pcm, others))
  }

  lemma FirstOfPass(dec: Dec, mp3: seq<Byte>, pcm: bool, others: Others, n: nat, out: Outcome)
    requires mp3 != [] && (n, out) == Decode(dec, mp3, pcm, others(mp3))
    ensures 0 < n <= |mp3|
    ensures PassTotal(dec, mp3, pcm, others) == out.samples + PassTotal(out.dec, mp3[n..], pcm, others)
  {
    hide Decode;
    var k, first := Passes.PassNext(dec, mp3, pcm, others);
    var rest := Passes.Pass(out.dec, mp3[n..], pcm, others);
    assert ([out] + rest)[1..] == rest;
  }

  lemma OnePull(call: Call, pcm: bool, others: Others, dec: Dec, mp3: seq<Byte>, n: nat, out: Outcome)
    requires IsFrameDecoder(call, pcm, others) && Progresses(call)
    requires mp3 != [] && (n, out) == Decode(dec, mp3, pcm, others(mp3))
    ensures 0 < n <= |mp3|
    ensures Pull(call, dec, mp3) ==
      if out.samples > 0 then Pulled(out.dec, n, out.samples, out.unit) else Onward(n, Pull(call, out.dec, mp3[n..]))
  {
    hide Decode;
    assert Named(dec, mp3);
    assert Ask(call, dec, mp3) == (n, out);
  }

  /** A pull is made up of calls, of which only the last yields samples. */
  lemma {:induction false} PullOfPass(call: Call, pcm: bool, others: Others, dec: Dec, mp3: seq<Byte>)
    requires IsFrameDecoder(call, pcm, others) && Progresses(call)
    ensures var r := Pull(call, dec, mp3);
      && r.consumed <= |mp3|
      && PassTotal(dec, mp3, pcm, others) == r.samples + PassTotal(r.dec, mp3[r.consumed..], pcm, others)
    decreases |mp3|
  {
    hide Decode, PassTotal;
    PullEnds(call, dec, mp3);
    if mp3 == [] {
      EmptyPass(dec, mp3, pcm, others);
      EmptyPass(Pull(call, dec, mp3).dec, mp3[0..], pcm, others);
    } else {
      var (n, out) := Decode(dec, mp3, pcm, others(mp3));
      OnePull(call, pcm, others, dec, mp3, n, out);
      FirstOfPass(dec, mp3, pcm, others, n, out);
      if out.samples == 0 {
        PullOfPass(call, pcm, others, out.dec, mp3[n..]);
        var r := Pull(call, out.dec, mp3[n..]);
        assert mp3[n..][r.consumed..] == mp3[n + r.consumed..];
      }
    }
  }

  lemma EmptyPass(dec: Dec, mp3: seq<Byte>, pcm: bool, others: Others)
    requires mp3 == []
    ensures PassTotal(dec, mp3, pcm, others) == 0
  {
  }

  /** The frames of a stream hold what all calls on it yield. */
  lemma {:induction false} FramesTotal(call: Call, pcm: bool, others: Others, dec: Dec, mp3: seq<Byte>)
    requires IsFrameDecoder(call, pcm, others) && Progresses(call)
    ensures PcmTotal(Frames(call, dec, mp3)) == PassTotal(dec, mp3, pcm, others)
    decreases |mp3|
  {
    hide Decode, PassTotal;
    PullEnds(call, dec, mp3);
    PullOfPass(call, pcm, others, dec, mp3);
    var r := Pull(call, dec, mp3);
    if r.samples > 0 {
      FramesTotal(call, pcm, others, r.dec, mp3[r.consumed..]);
      assert Frames(call, dec, mp3)[1..] == Frames(call, r.dec, mp3[r.consumed..]);
    } else {
      EmptyPass(r.dec, mp3[r.consumed..], pcm, others);
    }
  }

  // ----- as a PCM reader sees them -----

  /** The MP3 frames a reader is given: as long as the pulls say, with samples as many. */
  ghost predicate Rendered(pulls: seq<Pulled>, frames: seq<Pcm.Frame>) {
    |frames| == |pulls| &&
    forall k | 0 <= k < |pulls| :: frames[k].bytes == pulls[k].consumed && |frames[k].pcm| == pulls[k].samples
  }

  lemma {:induction false} RenderedTotal(pulls: seq<Pulled>, frames: seq<Pcm.Frame>)
    requires Rendered(pulls, frames)
    ensures |Pcm.Concat(frames)| == PcmTotal(pulls)
  {
    if pulls != [] {
      assert |frames[0].pcm| == pulls[0].samples;
      RenderedTotal(pulls[1..], frames[1..]);
    }
  }

  lemma {:induction false} FramesSound(call: Call, dec: Dec, mp3: seq<Byte>)
    requires Progresses(call)
    ensures forall k | 0 <= k < |Frames(call, dec, mp3)| :: Frames(call, dec, mp3)[k].samples > 0
    decreases |mp3|
  {
    PullEnds(call, dec, mp3);
    var r := Pull(call, dec, mp3);
    if r.samples > 0 { FramesSound(call, r.dec, mp3[r.consumed..]); }
  }

  /** What a PCM reader is given holds samples, frame by frame. */
  lemma RenderedSounding(call: Call, dec: Dec, mp3: seq<Byte>, frames: seq<Pcm.Frame>)
    requires Progresses(call) && Rendered(Frames(call, dec, mp3), frames)
    ensures Pcm.Sounding(frames)
  {
    FramesSound(call, dec, mp3);
    forall k | 0 <= k < |frames| ensures frames[k].pcm != [] {
      assert Frames(call, dec, mp3)[k].samples > 0;
    }
  }

  // ----- counting -----

  /** What the calls on a stream come upon. */
  ghost function EventsOf(dec: Dec, mp3: seq<Byte>, others: Others): (es: seq<Event>)
    decreases |mp3|
  {
    if mp3 == [] then [] else
      Progress(dec, mp3, true, others(mp3));
      var (n, out) := Decode(dec, mp3, true, others(mp3));
      [EventAt(dec, mp3)] + EventsOf(out.dec, mp3[n..], others)
  }

  lemma FirstEvent(dec: Dec, mp3: seq<Byte>, others: Others, n: nat, out: Outcome)
    requires mp3 != [] && (n, out) == Decode(dec, mp3, true, others(mp3)) && n <= |mp3|
    ensures EventsOf(dec, mp3, others) == [EventAt(dec, mp3)] + EventsOf(out.dec, mp3[n..], others)
  {
    hide Decode, EventAt;
    Progress(dec, mp3, true, others(mp3));
  }

  /** A pass over a stream as a run of the frame decoder. */
  ghost predicate RunOfPass(r: Run, dec: Dec, mp3: seq<Byte>, pcm: bool, others: Others) {
    IsRun(r) && r.states[0] == dec && r.outs == Passes.Pass(dec, mp3, pcm, others) && Outputs(r.calls, pcm)
  }

  lemma EmptyRun(dec: Dec, mp3: seq<Byte>, pcm: bool, others: Others) returns (r: Run)
    requires mp3 == []
    ensures r == Run([], [dec], []) && RunOfPass(r, dec, mp3, pcm, others)
  {
    r := Run([], [dec], []);
  }

  /** A call before a run. */
  lemma RunBehind(r0: Run, dec: Dec, c: Passes.Call, out: Outcome) returns (r: Run)
    requires IsRun(r0) && out == Passes.Step(dec, c) && r0.states[0] == out.dec
    ensures r == Run([c] + r0.calls, [dec] + r0.states, [out] + r0.outs) && IsRun(r)
    ensures r.calls[1..] == r0.calls && r.states[1..] == r0.states
  {
    hide Passes.Step;
    r := Run([c] + r0.calls, [dec] + r0.states, [out] + r0.outs);
    forall k: nat {:trigger Turn(k)} | Turn(k) && k < |r.calls|
      ensures r.outs[k] == Passes.Step(r.states[k], r.calls[k]) && r.states[k + 1] == r.outs[k].dec
    {
      if k > 0 {
        var j := k - 1;
        assert Turn(j);
        assert r.outs[k] == r0.outs[j] && r.calls[k] == r0.calls[j];
        assert r.states[k] == r0.states[j] && r.states[k + 1] == r0.states[j + 1];
      }
    }
  }

  lemma EventsBehind(es: seq<Event>, e: Event, r0: Run, r: Run)
    requires IsRun(r0) && IsRun(r) && Describes(es, r0) && |r.calls| == |r0.calls| + 1
    requires r.states[1..] == r0.states && r.calls[1..] == r0.calls && e == EventAt(r.states[0], r.calls[0].mp3)
    ensures Describes([e] + es, r)
  {
    hide EventAt, Passes.Step;
    forall k: nat {:trigger Turn(k)} | Turn(k) && k < |[e] + es|
      ensures ([e] + es)[k] == EventAt(r.states[k], r.calls[k].mp3)
    {
      if k > 0 {
        var j := k - 1;
        assert Turn(j);
        assert r.states[k] == r.states[1..][j] && r.calls[k] == r.calls[1..][j];
      }
    }
  }

  lemma MatchedBehind(a0: Run, b0: Run, a: Run, b: Run)
    requires Matched(a0, b0) && IsRun(a) && IsRun(b) && |a.calls| == |a0.calls| + 1 == |b.calls|
    requires a.calls[1..] == a0.calls && b.calls[1..] == b0.calls && a.states[1..] == a0.states
    requires a.calls[0].pcm && b.calls[0] == a.calls[0].(pcm := false)
    requires !Passes.OtherFails(a.states[0], a.calls[0].mp3, a.calls[0].otherOk)
    ensures Matched(a, b)
  {
    hide Passes.OtherFails, Passes.Step;
    forall k | 0 <= k < |a.calls| ensures a.calls[k].pcm && b.calls[k] == a.calls[k].(pcm := false) {
      if k > 0 { assert a.calls[k] == a.calls[1..][k - 1] && b.calls[k] == b.calls[1..][k - 1]; }
    }
    forall k: nat {:trigger Turn(k)} | Turn(k) && k < |a.calls|
      ensures !Passes.OtherFails(a.states[k], a.calls[k].mp3, a.calls[k].otherOk)
    {
      if k > 0 {
        var j := k - 1;
        assert Turn(j);
        assert a.states[k] == a.states[1..][j] && a.calls[k] == a.calls[1..][j];
      }
    }
  }

  lemma EmptyMatched(a0: Dec, b0: Dec, mp3: seq<Byte>, others: Others)
    requires mp3 == []
    ensures Matched(Run([], [a0], []), Run([], [b0], []))
    ensures Describes(EventsOf(a0, mp3, others), Run([], [a0], []))
  {
  }

  /** The two passes over a stream are two runs on the same inputs. */
  lemma {:induction false} PassRuns(a0: Dec, b0: Dec, mp3: seq<Byte>, others: Others) returns (a: Run, b: Run)
    requires Passes.Ahead(a0, b0) && Passes.NoneFails(a0, mp3, others)
    ensures RunOfPass(a, a0, mp3, true, others) && RunOfPass(b, b0, mp3, false, others) && Matched(a, b)
    ensures |a.calls| == |b.calls| && Describes(EventsOf(a0, mp3, others), a)
    decreases |mp3|
  {
    hide Decode, EventAt, Describes, Matched, Passes.OtherFails;
    if mp3 == [] {
      a := EmptyRun(a0, mp3, true, others);
      b := EmptyRun(b0, mp3, false, others);
      EmptyMatched(a0, b0, mp3, others);
    } else {
      Passes.CallAhead(a0, b0, mp3, others(mp3));
      var n, x := Passes.PassNext(a0, mp3, true, others);
      var m, y := Passes.PassNext(b0, mp3, false, others);
      var a1, b1 := PassRuns(x.dec, y.dec, mp3[n..], others);
      var c := Passes.Call(mp3, true, others(mp3));
      a := RunBehind(a1, a0, c, x);
      b := RunBehind(b1, b0, c.(pcm := false), y);
      FirstEvent(a0, mp3, others, n, x);
      EventsBehind(EventsOf(x.dec, mp3[n..], others), EventAt(a0, mp3), a1, a);
      MatchedBehind(a1, b1, a, b);
    }
  }

  /** The count of a stream is never less than what the stream plays. It is exactly that if and
      only if no frame comes up whose main data a decoding pass has dropped in part and a
      counting pass has not; provided no Layer I or II frame comes up that cannot be decoded. */
  lemma CountCoversPlay(play: Call, count: Call, others: Others, dec: Dec, mp3: seq<Byte>,
          frames: seq<Pcm.Frame>, counted: seq<Pcm.Frame>)
    requires IsFrameDecoder(play, true, others) && Progresses(play) && Rendered(Frames(play, dec, mp3), frames)
    requires IsFrameDecoder(count, false, others) && Progresses(count) && Rendered(Frames(count, dec, mp3), counted)
    requires Passes.NoneFails(dec, mp3, others) && dec.reserv == []
    ensures |Pcm.Concat(frames)| <= |Pcm.Concat(counted)|
    ensures var es := EventsOf(dec, mp3, others);
      |Pcm.Concat(frames)| == |Pcm.Concat(counted)| <==> forall k | 0 <= k < |es| :: !Disputed(es, k)
  {
    hide Describes, IsRun, Disputed, EventsOf, Passes.NoneFails;
    RenderedTotal(Frames(play, dec, mp3), frames);
    RenderedTotal(Frames(count, dec, mp3), counted);
    FramesTotal(play, true, others, dec, mp3);
    FramesTotal(count, false, others, dec, mp3);
    var a, b := PassRuns(dec, dec, mp3, others);
    RunEvents(a, EventsOf(dec, mp3, others));
    TotalsDiffer(a, b, EventsOf(dec, mp3, others));
  }

  /** Such frames there are for every stream. */
  lemma Rendering(dec: Dec, mp3: seq<Byte>, pcm: bool, others: Others) returns (call: Call, frames: seq<Pcm.Frame>)
    ensures IsFrameDecoder(call, pcm, others) && Progresses(call) && Rendered(Frames(call, dec, mp3), frames)
  {
    call := TheCall(pcm, others);
    var pulls := Frames(call, dec, mp3);
    frames := seq(|pulls|,
      k requires 0 <= k < |pulls| => Pcm.Frame(pulls[k].consumed, seq(pulls[k].samples, _ => [])));
  }
}
