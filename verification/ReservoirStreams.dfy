/**
 Runs of the frame decoder (include/dr_mp3.h, `drmp3dec_decode_frame`): which Layer III
 frames decode, what main data they get, and which are counted without decoding.
 */
module ReservoirStreams {
  import opened BitString
  import opened SideInfo
  import opened Header
  import opened SyncSearch
  import opened Reservoir
  import opened FrameDecoder
  import opened ReservoirRuns
  import opened ReservoirConformance

  // ----- runs -----

  /** The calls of a run, the states between them and what comes of them. */
  datatype Run = Run(calls: seq<Call>, states: seq<Dec>, outs: seq<Outcome>)

  /** Nothing but a name: proofs that look at a call of a run mention it. */
  predicate Turn(k: nat) { true }

  ghost predicate IsRun(r: Run) {
    && |r.states| == |r.calls| + 1 && |r.outs| == |r.calls|
    && forall k: nat {:trigger Turn(k)} | Turn(k) && k < |r.calls| ::
         r.outs[k] == Step(r.states[k], r.calls[k]) && r.states[k + 1] == r.outs[k].dec
  }

  /** All calls want samples, or none does. */
  predicate Outputs(calls: seq<Call>, pcm: bool) {
    forall k | 0 <= k < |calls| :: calls[k].pcm == pcm
  }

  /** Every sequence of calls has its run, which ends in the state after them. */
  lemma {:induction false} TheRun(dec: Dec, calls: seq<Call>) returns (r: Run)
    ensures r.calls == calls && IsRun(r) && r.states[0] == dec && r.states[|calls|] == StateAfter(dec, calls)
  {
    if calls == [] {
      r := Run([], [dec], []);
    } else {
      var n := |calls| - 1;
      var init := TheRun(dec, calls[..n]);
      r := Longer(init, calls[n], Step(init.states[n], calls[n]));
    }
  }

  lemma LongerAt(r0: Run, r: Run, k: nat)
    requires IsRun(r0) && |r.calls| == |r0.calls| + 1 && |r.outs| == |r.calls| && |r.states| == |r.calls| + 1
    requires r.calls[..|r0.calls|] == r0.calls && r.states[..|r0.states|] == r0.states
    requires r.outs[..|r0.outs|] == r0.outs && k < |r0.calls|
    ensures r.outs[k] == Step(r.states[k], r.calls[k]) && r.states[k + 1] == r.outs[k].dec
  {
    assert Turn(k);
    assert r.calls[k] == r.calls[..|r0.calls|][k] && r.outs[k] == r.outs[..|r0.outs|][k];
    assert r.states[k] == r.states[..|r0.states|][k] && r.states[k + 1] == r.states[..|r0.states|][k + 1];
  }

  lemma Longer(r0: Run, c: Call, out: Outcome) returns (r: Run)
    requires IsRun(r0) && out == Step(r0.states[|r0.calls|], c)
    ensures r == Run(r0.calls + [c], r0.states + [out.dec], r0.outs + [out]) && IsRun(r)
  {
    hide Step;
    r := Run(r0.calls + [c], r0.states + [out.dec], r0.outs + [out]);
    forall k: nat {:trigger Turn(k)} | Turn(k) && k < |r.calls|
      ensures r.outs[k] == Step(r.states[k], r.calls[k]) && r.states[k + 1] == r.outs[k].dec
    {
      if k < |r0.calls| { LongerAt(r0, r, k); }
    }
  }

  // ----- what a run comes upon -----

  /** What a call comes upon, from the headers and the side information it sees. */
  ghost function EventAt(dec: Dec, input: seq<Byte>): Event {
    Event(!Reuse(dec, ViewOf(input), |input|), ParsedBy(dec, input))
  }

  ghost predicate Describes(es: seq<Event>, r: Run)
    requires IsRun(r)
  {
    && |es| == |r.calls|
    && forall k: nat {:trigger Turn(k)} | Turn(k) && k < |es| :: es[k] == EventAt(r.states[k], r.calls[k].mp3)
  }

  /** Every run comes upon something. */
  lemma TheEvents(r: Run) returns (es: seq<Event>)
    requires IsRun(r)
    ensures Describes(es, r)
  {
    hide EventAt, Step;
    es := seq(|r.calls|, k requires 0 <= k < |r.calls| => EventAt(r.states[k], r.calls[k].mp3));
  }

  /** An outcome is that of working on the frame with the given reservoir. */
  ghost predicate Worked(out: Outcome, reserv: seq<Byte>, p: Parsed, pcm: bool) {
    && PartsFit(p) && out.dec.reserv == Passed(reserv, p, pcm)
    && (out.unit.Some? <==> Decodes(reserv, p)) && (out.samples > 0 <==> Decodes(reserv, p))
    && (out.unit.Some? ==> out.unit.value.main == MainData(reserv, p.begin, p.payload))
  }

  lemma FrameWorks(dec: Dec, f: FrameData, p: Parsed, pcm: bool, otherOk: bool)
    requires FrameOk(f) && f.parsed == Some(p) && f.samples > 0
    ensures Worked(Body(dec, f, pcm, otherOk), dec.reserv, p, pcm)
  {
    FrameIs(dec, f, pcm);
  }

  /** What a call makes of what it comes upon. */
  ghost predicate Made(out: Outcome, reserv: seq<Byte>, e: Event, pcm: bool) {
    if e.frame.Some? then Worked(out, reserv, e.frame.value, pcm) else out.dec.reserv == reserv && out.unit.None?
  }

  /** The reservoir with which a call comes to its frame. */
  function Found(dec: Dec, e: Event): seq<Byte> { if e.resync then [] else dec.reserv }

  lemma SiteOfEvent(dec: Dec, input: seq<Byte>) returns (site: Site)
    ensures var e := EventAt(dec, input);
      && site == SiteOf(dec, input) && site.dec.reserv == Found(dec, e)
      && (site.Frame? ==> FrameOk(site.frame) && site.frame.parsed == e.frame && site.frame.samples > 0)
      && (site.Nothing? ==> e.frame.None?)
  {
    hide Search, Parse, Compare;
    site := SiteOf(dec, input);
  }

  lemma CallMakes(dec: Dec, c: Call)
    ensures var e := EventAt(dec, c.mp3); Made(Step(dec, c), Found(dec, e), e, c.pcm)
  {
    hide EventAt, SiteOf, Worked;
    var site := SiteOfEvent(dec, c.mp3);
    DecodeAtSite(dec, c.mp3, c.pcm, c.otherOk, site);
    if site.Frame? && site.frame.parsed.Some? {
      FrameWorks(site.dec, site.frame, site.frame.parsed.value, c.pcm, c.otherOk);
    }
  }

  lemma TurnMakes(r: Run, es: seq<Event>, k: nat)
    requires IsRun(r) && Describes(es, r) && k < |es|
    ensures Made(r.outs[k], Found(r.states[k], es[k]), es[k], r.calls[k].pcm) && r.states[k + 1] == r.outs[k].dec
  {
    hide EventAt, Made, Step;
    assert Turn(k);
    CallMakes(r.states[k], r.calls[k]);
  }

  lemma EventsFit(r: Run, es: seq<Event>)
    requires IsRun(r) && Describes(es, r)
    ensures AllPartsFit(es)
  {
    hide EventAt, Step;
    forall k | 0 <= k < |es| && es[k].frame.Some? ensures PartsFit(es[k].frame.value) {
      assert Turn(k);
      var site := SiteOfEvent(r.states[k], r.calls[k].mp3);
    }
  }

  lemma PassNext(es: seq<Event>, k: nat, n: nat, out: Outcome, pcm: bool)
    requires k < |es| && AllPartsFit(es) && n == k + 1 && Made(out, ReservoirAt(es, k, pcm), es[k], pcm)
    ensures PassReservoir(es, n, pcm) == out.dec.reserv
  {
    hide Passed;
  }

  /** In every run the decoder holds the reservoir of the pass. */
  lemma {:induction false} RunReservoir(r: Run, pcm: bool, es: seq<Event>, k: nat)
    requires IsRun(r) && r.states[0].reserv == [] && Outputs(r.calls, pcm)
    requires Describes(es, r) && k <= |es| && AllPartsFit(es)
    ensures r.states[k].reserv == PassReservoir(es, k, pcm)
    decreases k
  {
    hide Describes, Step, Made;
    if k > 0 {
      var j := k - 1;
      RunReservoir(r, pcm, es, j);
      RunEvents(r, es);
      TurnMakes(r, es, j);
      PassNext(es, j, k, r.outs[j], pcm);
    }
  }

  lemma RunEvents(r: Run, es: seq<Event>)
    requires IsRun(r) && Describes(es, r)
    ensures |es| == |r.calls|
  {
  }

  /** In every run a Layer III frame yields samples exactly if nothing has been dropped from
      where its main data starts and it reaches no further back than 511 bytes; a frame that
      decodes does so from exactly its own main data. */
  lemma RunDecodesIff(r: Run, pcm: bool, es: seq<Event>, k: nat)
    requires IsRun(r) && r.states[0].reserv == [] && Outputs(r.calls, pcm)
    requires Describes(es, r) && k < |es| == |r.calls| && es[k].frame.Some?
    ensures var out, served := r.outs[k], Served(DroppedAt(es, k, pcm), Start(es, k), es[k].frame.value);
      && (out.unit.Some? <==> served) && (out.samples > 0 <==> served)
      && (served ==> 0 <= Start(es, k) <= |Payloads(es, k + 1)|
                     && out.unit.value.main == Payloads(es, k + 1)[Start(es, k)..])
  {
    hide Describes, Step, Dropped, Start, Payloads, PassReservoir;
    EventsFit(r, es);
    RunReservoir(r, pcm, es, k);
    TurnMakes(r, es, k);
    DecodesIff(es, k, pcm);
  }

  /** As long as every frame is placed as the standard asks, the first that does not decode is
      the first that is placed wrong. */
  lemma RunDecodesIffPlaced(r: Run, es: seq<Event>, k: nat)
    requires IsRun(r) && r.states[0].reserv == [] && Outputs(r.calls, true)
    requires Describes(es, r) && k < |es| == |r.calls| && es[k].frame.Some? && PlacedUpTo(es, k)
    ensures (r.outs[k].unit.Some? <==> Placed(es, k)) && (r.outs[k].samples > 0 <==> Placed(es, k))
    ensures Placed(es, k) ==>
      0 <= Start(es, k) <= |Payloads(es, k + 1)| && r.outs[k].unit.value.main == Payloads(es, k + 1)[Start(es, k)..]
  {
    hide Describes, IsRun, Dropped, Start, MainEnd, Payloads;
    RunDecodesIff(r, true, es, k);
    PlacedDrops(es, k);
  }

  // ----- a decoding and a counting run -----

  /** Two runs from one state on the same inputs, one decoding and one counting, in which every
      Layer I or II frame can be decoded. */
  ghost predicate Paired(a: Run, b: Run) {
    Matched(a, b) && a.states[0] == b.states[0] && a.states[0].reserv == []
  }

  ghost predicate Matched(a: Run, b: Run) {
    && IsRun(a) && IsRun(b) && Outputs(a.calls, true) && Outputs(b.calls, false) && |a.calls| == |b.calls|
    && (forall k | 0 <= k < |a.calls| :: b.calls[k] == a.calls[k].(pcm := false))
    && forall k: nat {:trigger Turn(k)} | Turn(k) && k < |a.calls| ::
         !OtherFails(a.states[k], a.calls[k].mp3, a.calls[k].otherOk)
  }

  lemma TurnAhead(a: Run, b: Run, k: nat)
    requires Paired(a, b) && k < |a.calls| && Ahead(a.states[k], b.states[k])
    ensures OutcomeAhead(a.outs[k], b.outs[k]) && Ahead(a.states[k + 1], b.states[k + 1])
  {
    hide OtherFails;
    assert Turn(k);
    CallAhead(a.states[k], b.states[k], a.calls[k].mp3, a.calls[k].otherOk);
  }

  lemma {:induction false} RunsAhead(a: Run, b: Run, k: nat)
    requires Paired(a, b) && k <= |a.calls|
    ensures Ahead(a.states[k], b.states[k])
  {
    if k > 0 {
      var j := k - 1;
      RunsAhead(a, b, j);
      TurnAhead(a, b, j);
    }
  }

  lemma SameEvent(a: Dec, b: Dec, input: seq<Byte>)
    requires Ahead(a, b)
    ensures EventAt(b, input) == EventAt(a, input)
  {
    hide SiteOf;
    SameSite(a, b, input);
  }

  /** A counting run comes upon the same. */
  lemma CountingMeets(a: Run, b: Run, es: seq<Event>)
    requires Paired(a, b) && Describes(es, a)
    ensures Describes(es, b)
  {
    hide EventAt, Step, OtherFails, Ahead;
    forall k: nat {:trigger Turn(k)} | Turn(k) && k < |es| ensures es[k] == EventAt(b.states[k], b.calls[k].mp3) {
      RunsAhead(a, b, k);
      SameEvent(a.states[k], b.states[k], a.calls[k].mp3);
    }
  }

  /** Without a Layer III frame to work on the two calls yield the same. */
  lemma NoFrameSame(a: Dec, b: Dec, c: Call)
    requires Ahead(a, b) && !OtherFails(a, c.mp3, c.otherOk) && EventAt(a, c.mp3).frame.None? && c.pcm
    ensures Step(a, c).samples == Step(b, c.(pcm := false)).samples
  {
    hide SiteOf, EventAt;
    var site := SiteOfEvent(a, c.mp3);
    SameSite(a, b, c.mp3);
    DecodeAtSite(a, c.mp3, true, c.otherOk, site);
    DecodeAtSite(b, c.mp3, false, c.otherOk, SiteOf(b, c.mp3));
  }

  lemma TurnSame(a: Run, b: Run, es: seq<Event>, k: nat)
    requires Paired(a, b) && Describes(es, a) && k < |es| && es[k].frame.None?
    ensures a.outs[k].samples == b.outs[k].samples
  {
    hide EventAt, Step, OtherFails, Ahead;
    assert Turn(k);
    RunsAhead(a, b, k);
    NoFrameSame(a.states[k], b.states[k], a.calls[k]);
  }

  /** A frame is counted without decoding exactly if a decoding pass has dropped some of its
      main data and a counting pass has not; on no other call the two runs differ. */
  lemma RunsDiffer(a: Run, b: Run, es: seq<Event>, k: nat)
    requires Paired(a, b) && Describes(es, a) && k < |es| == |a.calls|
    ensures b.outs[k].samples > 0 && a.outs[k].samples == 0 <==> Disputed(es, k)
    ensures a.outs[k].samples == b.outs[k].samples <==> !Disputed(es, k)
    ensures a.outs[k].samples <= b.outs[k].samples
  {
    hide Describes, Step, Ahead, Dropped, Start;
    RunsAhead(a, b, k);
    TurnAhead(a, b, k);
    if es[k].frame.Some? {
      CountingMeets(a, b, es);
      RunDecodesIff(a, true, es, k);
      RunDecodesIff(b, false, es, k);
      CountingKeepsMore(es, k);
    } else {
      TurnSame(a, b, es, k);
    }
  }

  /** The count of a run is what it plays exactly if no frame is disputed. */
  lemma TotalsDiffer(a: Run, b: Run, es: seq<Event>)
    requires Paired(a, b) && Describes(es, a) && |es| == |a.calls|
    ensures Samples(a.outs) <= Samples(b.outs)
    ensures Samples(a.outs) == Samples(b.outs) <==> forall k | 0 <= k < |es| :: !Disputed(es, k)
  {
    hide Describes, Ahead, Disputed, Samples;
    forall k | 0 <= k < |es|
      ensures a.outs[k].samples <= b.outs[k].samples
      ensures a.outs[k].samples == b.outs[k].samples <==> !Disputed(es, k)
    {
      RunsDiffer(a, b, es, k);
    }
    SumsEqual(a.outs, b.outs);
  }

  /** As long as every frame is placed as the standard asks, it is the first placed wrong on
      which the two may differ: one that asks for bytes the frame before has used, but for none
      from before that one's main data. */
  lemma RunsDifferPlaced(a: Run, b: Run, es: seq<Event>, k: nat)
    requires Paired(a, b) && Describes(es, a) && 0 < k < |es| == |a.calls| && PlacedUpTo(es, k)
    requires es[k].frame.Some? && !es[k].resync && es[k - 1].frame.Some?
    ensures b.outs[k].samples > 0 && a.outs[k].samples == 0 <==>
      Start(es, k - 1) <= Start(es, k) < MainEnd(es, k) && es[k].frame.value.begin <= 511
  {
    hide Describes, IsRun, Paired, Dropped, Start, MainEnd;
    RunsDiffer(a, b, es, k);
    PlacedDrops(es, k);
  }
}
