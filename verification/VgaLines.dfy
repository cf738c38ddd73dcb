/**
 The lines of the VGA signal, counted in system cycles over runs of all three machines
 (include/hsync.pio.h): how long a line lasts and how long its pulse.
 */
module VgaLines {
  import opened Pio
  import opened VgaTiming

  // ----- runs in pieces -----

  lemma {:induction false} RunSplit(s: Vga, a: seq<nat>, b: seq<nat>)
    ensures Run(s, a + b) == Run(Run(s, a), b)
  {
    hide Tick;
    if b == [] {
      assert a + b == a;
    } else {
      var n := |b| - 1;
      RunSplit(s, a, b[..n]);
      assert (a + b)[..|a + b| - 1] == a + b[..n];
    }
  }

  predicate SyncLow(s: Vga) { s.hs.pins == 0 }

  /** The system cycles of a run in which the hsync pin is low. */
  function LowCycles(s: Vga, words: seq<nat>): nat {
    if words == [] then 0 else
      var before := words[..|words| - 1];
      LowCycles(s, before) + if SyncLow(Run(s, before)) then 1 else 0
  }

  lemma {:induction false} LowCyclesSplit(s: Vga, a: seq<nat>, b: seq<nat>)
    ensures LowCycles(s, a + b) == LowCycles(s, a) + LowCycles(Run(s, a), b)
  {
    hide Tick;
    if b == [] {
      assert a + b == a;
    } else {
      var n := |b| - 1;
      LowCyclesSplit(s, a, b[..n]);
      RunSplit(s, a, b[..n]);
      assert (a + b)[..|a + b| - 1] == a + b[..n];
    }
  }

  // ----- one hsync cycle -----

  /** hsync has been run on to `hs`, with the pin low in `low` system cycles. */
  ghost predicate Come(s: Vga, words: seq<nat>, hs: Sm, wait: int, lines: nat, low: nat) {
    Run(s, words).hs == hs && Run(s, words).wait == wait && Run(s, words).lines == lines && LowCycles(s, words) == low
  }

  /** As long as it is not clocked hsync rests. */
  lemma {:induction false} Resting(s: Vga, words: seq<nat>)
    requires |words| <= s.wait
    ensures Come(s, words, s.hs, s.wait - |words|, s.lines, if SyncLow(s) then |words| else 0)
  {
    hide RgbCycle;
    if words != [] { Resting(s, words[..|words| - 1]); }
  }

  lemma Clocked(s: Vga, word: nat)
    requires s.wait == 0
    ensures var c := HsyncCycle(s.hs);
      Come(s, [word], c.sm, 4, s.lines + (if c.effect == Raises(0) then 1 else 0), if SyncLow(s) then 1 else 0)
  {
    hide HsyncCycle, VsyncCycle, RgbCycle, FrameEnds;
    assert [word][..0] == [];
    assert Run(s, [word]) == Tick(Run(s, []), word);
    assert LowCycles(s, [word]) == LowCycles(s, []) + (if SyncLow(s) then 1 else 0);
  }

  /** Five system cycles are one of hsync. */
  lemma FiveCycles(s: Vga, words: seq<nat>)
    requires s.wait == 0 && |words| == 5
    ensures var c := HsyncCycle(s.hs);
      Come(s, words, c.sm, 0, s.lines + (if c.effect == Raises(0) then 1 else 0),
           (if SyncLow(s) then 1 else 0) + (if c.sm.pins == 0 then 4 else 0))
  {
    hide HsyncCycle, Run, LowCycles;
    var first, later := words[..1], words[1..];
    assert words == first + later && first == [words[0]];
    Clocked(s, words[0]);
    Resting(Run(s, first), later);
    RunSplit(s, first, later);
    LowCyclesSplit(s, first, later);
  }

  lemma MoreCycles(s: Vga, first: seq<nat>, later: seq<nat>, words: seq<nat>, hs: Sm, lines: nat, low: nat, hs1: Sm,
          lines1: nat, low1: nat)
    requires words == first + later && Come(s, first, hs, 0, lines, low) &&
      Come(Run(s, first), later, hs1, 0, lines1, low1)
    ensures Come(s, words, hs1, 0, lines1, low + low1)
  {
    hide Run, LowCycles;
    RunSplit(s, first, later);
    LowCyclesSplit(s, first, later);
  }

  /** The system cycles with the pin low in `n` cycles of hsync: all but the first of five
      have it as it is after them. */
  function LowIn(hs: Sm, n: nat): int {
    5 * Lows(hs, n) - (if hs.pins == 0 then 4 else 0) + (if HsyncRun(hs, n).pins == 0 then 4 else 0)
  }

  lemma NoCycles(s: Vga, words: seq<nat>)
    requires s.wait == 0 && words == []
    ensures LowIn(s.hs, 0) == 0 && Come(s, words, HsyncRun(s.hs, 0), 0, s.lines + Raised0(s.hs, 0), LowIn(s.hs, 0))
  {
  }

  lemma LowInMore(hs: Sm, n: nat, m: nat)
    requires n == m + 1
    ensures var hs1 := HsyncCycle(hs).sm;
      && LowIn(hs, n) == (if hs.pins == 0 then 1 else 0) + (if hs1.pins == 0 then 4 else 0) + LowIn(hs1, m)
      && HsyncRun(hs, n) == HsyncRun(hs1, m)
      && Raised0(hs, n) == (if HsyncCycle(hs).effect == Raises(0) then 1 else 0) + Raised0(hs1, m)
  {
    hide HsyncCycle;
  }

  /** Many. */
  lemma {:induction false} ManyCycles(s: Vga, n: nat, words: seq<nat>)
    requires s.wait == 0 && |words| == 5 * n
    ensures LowIn(s.hs, n) >= 0 && Come(s, words, HsyncRun(s.hs, n), 0, s.lines + Raised0(s.hs, n), LowIn(s.hs, n))
    decreases n, 1
  {
    hide HsyncCycle, Run, LowCycles, LowIn, HsyncRun, Raised0, Come;
    if n == 0 {
      NoCycles(s, words);
    } else {
      ManyCyclesOn(s, n, words, n - 1);
    }
  }

  lemma {:induction false} ManyCyclesOn(s: Vga, n: nat, words: seq<nat>, m: nat)
    requires s.wait == 0 && |words| == 5 * n && n == m + 1
    ensures LowIn(s.hs, n) >= 0 && Come(s, words, HsyncRun(s.hs, n), 0, s.lines + Raised0(s.hs, n), LowIn(s.hs, n))
    decreases n, 0
  {
    hide HsyncCycle, Run, LowCycles, LowIn, HsyncRun, Raised0;
    var first, later := words[..5], words[5..];
    var s1, c := Run(s, first), HsyncCycle(s.hs);
    var low := (if SyncLow(s) then 1 else 0) + (if c.sm.pins == 0 then 4 else 0);
    var lines := s.lines + (if c.effect == Raises(0) then 1 else 0);
    FiveCycles(s, first);
    ManyCycles(s1, m, later);
    LowInMore(s.hs, n, m);
    MoreCycles(s, first, later, words, c.sm, lines, low, HsyncRun(c.sm, m), lines + Raised0(c.sm, m), LowIn(c.sm, m));
  }

  // ----- a line -----

  /** The pin has its level from the start until the first pulse, also in a line that has one. */
  lemma FirstLow(h: nat, sm: Sm)
    requires HsyncOk(h, sm, false) && (sm.pins == 0 <==> Pos(h, sm) <= h + 98) && Pos(h, sm) < h + 144
    ensures var c := HsyncCycle(sm).sm;
      HsyncOk(h, c, false) && Pos(h, c) == Pos(h, sm) + 1 && (c.pins == 0 <==> Pos(h, c) <= h + 98)
  {
  }

  lemma {:induction false} FirstLowsCount(h: nat, sm: Sm, p: int, n: nat, e: int)
    requires HsyncOk(h, sm, false) && p == Pos(h, sm) && (sm.pins == 0 <==> p <= h + 98)
    requires p + n == e <= h + 145
    ensures Lows(sm, n) == Overlap(p, e, 0, h + 99)
    decreases n
  {
    hide HsyncCycle;
    if n > 0 {
      HsyncStep(h, sm, false);
      if n > 1 {
        FirstLow(h, sm);
        FirstLowsCount(h, HsyncCycle(sm).sm, p + 1, n - 1, e);
      }
    }
  }

  lemma {:induction false} FirstWalk(h: nat, sm: Sm, p: int, n: nat, e: int)
    requires HsyncOk(h, sm, false) && p == Pos(h, sm) && n > 0 && p + n == e == h + 145
    ensures HsyncOk(h, HsyncRun(sm, n), true) && Pos(h, HsyncRun(sm, n)) == 0
    decreases n
  {
    hide HsyncCycle;
    HsyncStep(h, sm, false);
    if n > 1 { FirstWalk(h, HsyncCycle(sm).sm, p + 1, n - 1, e); }
  }

  lemma {:induction false} FirstRaisedCount(h: nat, sm: Sm, p: int, n: nat, e: int)
    requires n > 0 ==> HsyncOk(h, sm, false) && p == Pos(h, sm)
    requires p + n == e <= h + 145
    ensures Raised0(sm, n) == Overlap(p, e, h + 143, h + 144)
    decreases n
  {
    hide HsyncCycle;
    if n > 0 {
      HsyncStep(h, sm, false);
      FirstRaisedCount(h, HsyncCycle(sm).sm, p + 1, n - 1, e);
    }
  }

  /** A line of hsync, the first one or a later one. */
  lemma AnyLine(h: nat, sm: Sm, n: nat)
    requires HsyncOk(h, sm, false) && Pos(h, sm) == 0 && n == h + 145
    ensures HsyncOk(h, HsyncRun(sm, n), true) && Pos(h, HsyncRun(sm, n)) == 0 && Raised0(sm, n) == 1
    ensures Lows(sm, n) == if sm.pins == 0 then h + 99 else 96
    ensures LowIn(sm, n) == if sm.pins == 0 then 5 * (h + 99) - 4 else 480
  {
    if sm.pins == 0 {
      FirstWalk(h, sm, 0, n, n);
      FirstLowsCount(h, sm, 0, n, n);
      FirstRaisedCount(h, sm, 0, n, n);
    } else {
      HsyncLine(h, sm, n);
    }
  }

  // ----- in every run -----

  /** Before the first line has ended the pin is as at the start until it is driven. */
  ghost predicate FirstLine(hsPin: nat, s: Vga) {
    s.lines == 0 && s.hs.pc <= 3 ==> s.hs.pins == hsPin
  }

  lemma PinKeeps(h: nat, sm: Sm, hsPin: nat)
    requires HsyncOk(h, sm, false) && (sm.pc <= 3 ==> sm.pins == hsPin)
    ensures var c := HsyncCycle(sm); c.effect != Raises(0) && c.sm.pc <= 3 ==> c.sm.pins == hsPin
  {
  }

  lemma LineKeeps(h: nat, s: Vga, hsPin: nat, word: nat)
    requires HsyncOk(h, s.hs, s.lines > 0) && FirstLine(hsPin, s)
    ensures FirstLine(hsPin, Tick(s, word))
  {
    hide HsyncCycle, VsyncCycle, RgbCycle;
    if s.wait == 0 && s.lines == 0 { PinKeeps(h, s.hs, hsPin); }
  }

  lemma {:induction false} RunLine(h: nat, v: nat, y: nat, s: Vga, hsPin: nat, words: seq<nat>)
    requires Ok(h, v, y, s) && Fits(h, y) && FirstLine(hsPin, s)
    ensures FirstLine(hsPin, Run(s, words))
  {
    hide Tick;
    if words != [] {
      var n := |words| - 1;
      RunKeeps(h, v, y, s, words[..n]);
      RunLine(h, v, y, s, hsPin, words[..n]);
      LineKeeps(h, Run(s, words[..n]), hsPin, words[n]);
    }
  }

  /** A line starts in a system cycle in which hsync is clocked. */
  predicate LineStarts(h: nat, s: Vga) { Pos(h, s.hs) == 0 && s.wait == 0 }

  /** In every run every line takes `5 * (h + 145)` system cycles, raises IRQ 0 once, and has
      the pin low in exactly 480 of them; but the first, if the pin is low from the start, has
      it low until the pulse as well. */
  lemma LineCounts(h: nat, v: nat, y: nat, hsPin: nat, vsPin: nat, before: seq<nat>, words: seq<nat>)
    requires Fits(h, y) && |words| == 5 * (h + 145)
    ensures var s := Run(Start(h, v, y, hsPin, vsPin), before);
      LineStarts(h, s) ==>
        && LineStarts(h, Run(s, words)) && Run(s, words).lines == s.lines + 1
        && LowCycles(s, words) == if s.lines == 0 && hsPin == 0 then 480 + (5 * h + 11) else 480
  {
    var start := Start(h, v, y, hsPin, vsPin);
    StartOk(h, v, y, hsPin, vsPin);
    RunKeeps(h, v, y, start, before);
    RunLine(h, v, y, start, hsPin, before);
    var s := Run(start, before);
    if LineStarts(h, s) { OneLine(h, s, hsPin, words, h + 145); }
  }

  lemma OneLine(h: nat, s: Vga, hsPin: nat, words: seq<nat>, n: nat)
    requires HsyncOk(h, s.hs, s.lines > 0) && FirstLine(hsPin, s) && LineStarts(h, s) && n == h + 145 &&
      |words| == 5 * n
    ensures LineStarts(h, Run(s, words)) && Run(s, words).lines == s.lines + 1
    ensures LowCycles(s, words) == if s.lines == 0 && hsPin == 0 then 480 + (5 * h + 11) else 480
  {
    hide HsyncRun, LowIn, Raised0, Run, LowCycles, Lows;
    ManyCycles(s, n, words);
    AnyLine(h, s.hs, n);
  }

  /** The pulse of the first line is 96 hsync cycles long exactly if the pin is high from the
      start. */
  lemma FirstPulse(h: nat, v: nat, y: nat, hsPin: nat, vsPin: nat, n: nat)
    requires n == h + 145
    ensures Lows(Start(h, v, y, hsPin, vsPin).hs, n) == (if hsPin == 0 then h + 99 else 96)
    ensures Lows(Start(h, v, y, hsPin, vsPin).hs, n) == 96 <==> hsPin != 0
  {
    hide Lows;
    StartOk(h, v, y, hsPin, vsPin);
    AnyLine(h, Start(h, v, y, hsPin, vsPin).hs, n);
  }
}
