/**
 The bit reservoir over whole runs of the frame decoder: what it holds, what a frame's
 main data therefore is, and what a pass without sample output (the one that counts
 frames) has in common with a decoding pass.
 */
module ReservoirRuns {
  import opened BitString
  import opened SideInfo
  import opened Header
  import opened SyncSearch
  import opened Reservoir
  import opened FrameDecoder

  /** One call: the input it sees, whether samples are wanted, and whether a Layer I or
      II frame in it can be decoded. */
  datatype Call = Call(mp3: seq<Byte>, pcm: bool, otherOk: bool)

  ghost function Step(dec: Dec, c: Call): Outcome {
    Decode(dec, c.mp3, c.pcm, c.otherOk).1
  }

  ghost function StateAfter(dec: Dec, calls: seq<Call>): Dec {
    if calls == [] then dec else Step(StateAfter(dec, calls[..|calls| - 1]), calls[|calls| - 1]).dec
  }

  // ----- what the reservoir holds -----

  /** The parse of the Layer III frame a call works on, if it works on one. */
  ghost function ParsedBy(dec: Dec, mp3: seq<Byte>): Option<Parsed> {
    var site := SiteOf(dec, mp3);
    if site.Frame? then site.frame.parsed else None
  }

  /** The payloads since the last resync, before a call adds its own. */
  ghost function Kept(dec: Dec, history: seq<Byte>, mp3: seq<Byte>): seq<Byte> {
    if Reuse(dec, ViewOf(mp3), |mp3|) then history else []
  }

  ghost function Extended(dec: Dec, history: seq<Byte>, mp3: seq<Byte>): seq<Byte> {
    var p := ParsedBy(dec, mp3);
    Kept(dec, history, mp3) + if p.Some? then p.value.payload else []
  }

  ghost function HistoryAfter(dec: Dec, calls: seq<Call>): seq<Byte> {
    if calls == [] then dec.reserv else
      var init := calls[..|calls| - 1];
      Extended(StateAfter(dec, init), HistoryAfter(dec, init), calls[|calls| - 1].mp3)
  }

  /** A suffix long enough for what is asked yields the same as the whole. */
  lemma TakeFromSuffix(a: seq<Byte>, b: seq<Byte>, n: nat)
    requires IsSuffix(a, b) && n <= |a|
    ensures TakeLast(a, n) == TakeLast(b, n)
  {
  }

  /** One frame: the reservoir stays a suffix of the history, and the main data handed to
      the synthesis is exactly the bytes asked for before this payload, and the payload. */
  lemma FrameSafety(dec: Dec, history: seq<Byte>, f: FrameData, p: Parsed, pcm: bool)
    requires IsSuffix(dec.reserv, history) && FrameOk(f) && f.parsed == Some(p)
    ensures var out := Layer3(dec, f, pcm);
      && IsSuffix(out.dec.reserv, history + p.payload) && |out.dec.reserv| <= 511
      && (out.unit.Some? <==> p.begin <= |dec.reserv|)
      && (out.unit.Some? ==>
            && p.begin <= |history| && out.unit.value.main == history[|history| - p.begin..] + p.payload
            && p.partBits <= 8 * |out.unit.value.main|)
  {
    hide TakeLast;
    var ok := |dec.reserv| >= p.begin;
    LeftoverOfHistory(history, dec.reserv, p.begin, p.payload, if ok && pcm then p.partBits else 0);
    if ok { TakeFromSuffix(dec.reserv, history, p.begin); }
  }

  /** What one call guarantees, from the payloads kept and the frame's parse. */
  predicate Safe(out: Outcome, kept: seq<Byte>, p: Option<Parsed>) {
    && IsSuffix(out.dec.reserv, kept + if p.Some? then p.value.payload else []) && |out.dec.reserv| <= 511
    && (out.unit.Some? ==>
          && p.Some? && p.value.begin <= |kept| && p.value.begin <= 511
          && out.unit.value.main == kept[|kept| - p.value.begin..] + p.value.payload
          && p.value.partBits <= 8 * |out.unit.value.main|)
  }

  lemma BodySafety(dec: Dec, kept: seq<Byte>, f: FrameData, pcm: bool, otherOk: bool)
    requires IsSuffix(dec.reserv, kept) && |dec.reserv| <= 511 && FrameOk(f)
    ensures Safe(Body(dec, f, pcm, otherOk), kept, f.parsed)
  {
    assert kept + [] == kept;
    if f.parsed.Some? { FrameSafety(dec, kept, f, f.parsed.value, pcm); }
  }

  lemma SiteKeeps(dec: Dec, history: seq<Byte>, mp3: seq<Byte>)
    requires IsSuffix(dec.reserv, history) && |dec.reserv| <= 511
    ensures IsSuffix(SiteOf(dec, mp3).dec.reserv, Kept(dec, history, mp3)) &&
      |SiteOf(dec, mp3).dec.reserv| <= 511
  {
  }

  /** One call. */
  lemma CallSafety(dec: Dec, history: seq<Byte>, c: Call)
    requires IsSuffix(dec.reserv, history) && |dec.reserv| <= 511
    ensures Safe(Step(dec, c), Kept(dec, history, c.mp3), ParsedBy(dec, c.mp3))
  {
    SiteKeeps(dec, history, c.mp3);
    var site, kept := SiteOf(dec, c.mp3), Kept(dec, history, c.mp3);
    if site.Frame? {
      BodySafety(site.dec, kept, site.frame, c.pcm, c.otherOk);
    } else {
      assert kept + [] == kept;
    }
  }

  /** Every run: the reservoir is always a suffix of the payloads since the last resync. */
  lemma {:induction false} RunSafety(dec: Dec, calls: seq<Call>)
    requires |dec.reserv| <= 511
    ensures IsSuffix(StateAfter(dec, calls).reserv, HistoryAfter(dec, calls))
    ensures |StateAfter(dec, calls).reserv| <= 511
  {
    if calls != [] {
      var init := calls[..|calls| - 1];
      RunSafety(dec, init);
      CallSafety(StateAfter(dec, init), HistoryAfter(dec, init), calls[|calls| - 1]);
    }
  }

  // ----- the counting pass and the decoding pass -----

  /** The decoding pass and the counting pass agree on everything but the reservoir,
      of which the counting pass has more. */
  ghost predicate Ahead(a: Dec, b: Dec) {
    a.header == b.header && a.free == b.free && IsSuffix(a.reserv, b.reserv)
  }

  lemma FrameAhead(a: Dec, b: Dec, f: FrameData)
    requires Ahead(a, b) && FrameOk(f)
    ensures OutcomeAhead(Layer3(a, f, true), Layer3(b, f, false))
  {
    if f.parsed.Some? {
      var p := f.parsed.value;
      var ok := |a.reserv| >= p.begin;
      MainDataSuffix(a.reserv, b.reserv, p.begin, p.payload);
      LeftoverSuffix(MainData(a.reserv, p.begin, p.payload), MainData(b.reserv, p.begin, p.payload),
        if ok then p.partBits else 0);
    }
  }

  lemma SameLocation(a: Dec, b: Dec, v: View, n: nat)
    requires Ahead(a, b) && |v| == if n < HDR_SIZE then 0 else n - 3
    ensures var (s, i, size) := Locate(a, v, n); var (t, j, size') := Locate(b, v, n);
      Ahead(s, t) && i == j && size == size'
  {
  }

  lemma SameSite(a: Dec, b: Dec, mp3: seq<Byte>)
    requires Ahead(a, b)
    ensures var s, t := SiteOf(a, mp3), SiteOf(b, mp3);
      && Ahead(s.dec, t.dec) && s.consumed == t.consumed && s.Frame? == t.Frame?
      && (s.Frame? ==> s.frame == t.frame)
  {
    hide Locate, FrameAtOffset;
    SameLocation(a, b, ViewOf(mp3), |mp3|);
  }

  /** The decoding pass's outcome against the counting pass's. */
  ghost predicate OutcomeAhead(x: Outcome, y: Outcome) {
    && Ahead(x.dec, y.dec) && x.samples <= y.samples
    && (x.unit.Some? ==> y.unit == x.unit && y.samples == x.samples)
  }

  lemma BodyAhead(a: Dec, b: Dec, f: FrameData, otherOk: bool)
    requires Ahead(a, b) && FrameOk(f)
    ensures OutcomeAhead(Body(a, f, true, otherOk), Body(b, f, false, otherOk)) <==> f.layer3 || otherOk
  {
    if f.layer3 { FrameAhead(a, b, f); }
  }

  /** The call works on a Layer I or II frame that cannot be decoded. */
  ghost predicate OtherFails(dec: Dec, mp3: seq<Byte>, otherOk: bool) {
    var site := SiteOf(dec, mp3); site.Frame? && !site.frame.layer3 && !otherOk
  }

  /** One call of each pass on the same input: both consume the same, and the counting pass
      stays ahead exactly unless this is a Layer I or II frame that cannot be decoded. */
  lemma CallAhead(a: Dec, b: Dec, mp3: seq<Byte>, otherOk: bool)
    requires Ahead(a, b)
    ensures Decode(a, mp3, true, otherOk).0 == Decode(b, mp3, false, otherOk).0
    ensures OutcomeAhead(Decode(a, mp3, true, otherOk).1, Decode(b, mp3, false, otherOk).1) <==>
      !OtherFails(a, mp3, otherOk)
  {
    hide SiteOf, Body;
    SameSite(a, b, mp3);
    var s, t := SiteOf(a, mp3), SiteOf(b, mp3);
    if s.Frame? { BodyAhead(s.dec, t.dec, s.frame, otherOk); }
  }

  /** The calls of a pass over a byte string: each sees what the one before left over.
      This is the loop of the memory-backed decoder. */
  ghost function Pass(dec: Dec, mp3: seq<Byte>, pcm: bool, others: Others): seq<Outcome>
    decreases |mp3|
  {
    if mp3 == [] then [] else
      Progress(dec, mp3, pcm, others(mp3));
      var (n, out) := Decode(dec, mp3, pcm, others(mp3));
      [out] + Pass(out.dec, mp3[n..], pcm, others)
  }

  function Samples(outs: seq<Outcome>): nat {
    if outs == [] then 0 else outs[0].samples + Samples(outs[1..])
  }

  ghost predicate SameSamples(xs: seq<Outcome>, ys: seq<Outcome>) {
    |xs| == |ys| && forall k | 0 <= k < |xs| :: xs[k].samples == ys[k].samples
  }

  /** Sums of which each summand of the one is at most that of the other. */
  lemma {:induction false} SumsEqual(xs: seq<Outcome>, ys: seq<Outcome>)
    requires |xs| == |ys| && forall k | 0 <= k < |xs| :: xs[k].samples <= ys[k].samples
    ensures Samples(xs) <= Samples(ys)
    ensures Samples(xs) == Samples(ys) <==> SameSamples(xs, ys)
  {
    if xs != [] {
      SumsEqual(xs[1..], ys[1..]);
      assert xs[0].samples <= ys[0].samples;
      if SameSamples(xs[1..], ys[1..]) && xs[0].samples == ys[0].samples {
        forall k | 0 <= k < |xs| ensures xs[k].samples == ys[k].samples {
          if k > 0 { assert xs[k] == xs[1..][k - 1] && ys[k] == ys[1..][k - 1]; }
        }
      } else if SameSamples(xs, ys) {
        forall k | 0 <= k < |xs[1..]| ensures xs[1..][k].samples == ys[1..][k].samples {
          assert xs[1..][k] == xs[k + 1] && ys[1..][k] == ys[k + 1];
        }
      }
    }
  }

  /** Every Layer I or II frame that a decoding pass comes to can be decoded. */
  ghost predicate NoneFails(dec: Dec, mp3: seq<Byte>, others: Others)
    decreases |mp3|
  {
    mp3 == [] ||
    (Progress(dec, mp3, true, others(mp3));
     var (n, out) := Decode(dec, mp3, true, others(mp3));
     !OtherFails(dec, mp3, others(mp3)) && NoneFails(out.dec, mp3[n..], others))
  }

  ghost predicate PassAhead(xs: seq<Outcome>, ys: seq<Outcome>) {
    |xs| == |ys| && forall k :: 0 <= k < |xs| ==> OutcomeAhead(xs[k], ys[k])
  }

  lemma PassAheadStep(x: Outcome, y: Outcome, xs: seq<Outcome>, ys: seq<Outcome>)
    ensures PassAhead([x] + xs, [y] + ys) <==> OutcomeAhead(x, y) && PassAhead(xs, ys)
  {
    hide OutcomeAhead;
    var as1, bs1 := [x] + xs, [y] + ys;
    assert as1[0] == x && bs1[0] == y;
    assert forall k | 0 <= k < |xs| :: as1[k + 1] == xs[k];
    assert forall k | 0 <= k < |ys| :: bs1[k + 1] == ys[k];
    if PassAhead(as1, bs1) {
      forall k | 0 <= k < |xs| ensures OutcomeAhead(xs[k], ys[k]) { assert OutcomeAhead(as1[k + 1], bs1[k + 1]); }
    } else if |xs| == |ys| {
      var k :| 0 <= k < |as1| && !OutcomeAhead(as1[k], bs1[k]);
      if k > 0 { assert !OutcomeAhead(xs[k - 1], ys[k - 1]); }
    }
  }

  /** The first call of a pass, and the rest of it. */
  lemma PassNext(dec: Dec, mp3: seq<Byte>, pcm: bool, others: Others) returns (n: nat, out: Outcome)
    requires mp3 != []
    ensures (n, out) == Decode(dec, mp3, pcm, others(mp3)) && 0 < n <= |mp3|
    ensures Pass(dec, mp3, pcm, others) == [out] + Pass(out.dec, mp3[n..], pcm, others)
    ensures pcm ==> (NoneFails(dec, mp3, others) <==>
      !OtherFails(dec, mp3, others(mp3)) && NoneFails(out.dec, mp3[n..], others))
  {
    hide Decode, OtherFails;
    Progress(dec, mp3, pcm, others(mp3));
    var r := Decode(dec, mp3, pcm, others(mp3));
    n, out := r.0, r.1;
  }

  /** Two passes over the same bytes, one decoding and one counting: call by call, what
      the decoding pass decodes the counting pass accepts with identical main data, exactly
      unless a Layer I or II frame comes up that cannot be decoded. */
  lemma {:induction false} CountingMissesNothing(a: Dec, b: Dec, mp3: seq<Byte>, others: Others)
    requires Ahead(a, b)
    ensures PassAhead(Pass(a, mp3, true, others), Pass(b, mp3, false, others)) <==> NoneFails(a, mp3, others)
    decreases |mp3|
  {
    hide Decode, OtherFails, PassAhead;
    if mp3 == [] {
      NothingPassed(a, b, others);
    } else {
      CallAhead(a, b, mp3, others(mp3));
      var n, x := PassNext(a, mp3, true, others);
      var m, y := PassNext(b, mp3, false, others);
      PassAheadStep(x, y, Pass(x.dec, mp3[n..], true, others), Pass(y.dec, mp3[n..], false, others));
      if OutcomeAhead(x, y) { CountingMissesNothing(x.dec, y.dec, mp3[n..], others); }
    }
  }

  lemma NothingPassed(a: Dec, b: Dec, others: Others)
    ensures PassAhead(Pass(a, [], true, others), Pass(b, [], false, others)) && NoneFails(a, [], others)
  {
  }
}
