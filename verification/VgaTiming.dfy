/**
 The VGA timing protocol: the hsync, vsync and rgb programs (include/hsync.pio.h,
 include/vsync.pio.h, include/rgb.pio.h) running together. hsync and vsync are clocked at a
 fifth of the system clock, rgb at the system clock; all start in the same cycle with
 their counts `h`, `v` and `y` already in their registers.
 */
module VgaTiming {
  import opened Pio

  // ----- hsync -----

  /** Position in the line, in hsync cycles. */
  function Pos(h: nat, sm: Sm): int {
    if sm.pc == 1 then if sm.delay > 0 then h + 145 - sm.delay else 0
    else if sm.pc == 2 then 1 + h - sm.x
    else if sm.pc == 8 then h + 143 - sm.delay
    else if sm.pc == 7 then h + 130 - sm.delay
    else h + 2 + 32 * (sm.pc - 3) - sm.delay
  }

  /** A state the hsync machine reaches: the pin is low in 96 positions of the line. Before
      the first pulse (`driven` says it has been) the pin has its level from the start. */
  ghost predicate HsyncOk(h: nat, sm: Sm, driven: bool) {
    && 1 <= sm.pc <= 8 && sm.osr == h && (sm.pc == 2 ==> sm.x <= h)
    && (if sm.pc <= 3 then sm.delay <= 1 && (sm.pc != 1 ==> sm.delay == 0) else if sm.pc == 8 then sm.delay <= 12
      else sm.delay <= 31)
    && (sm.pc > 3 ==> (sm.pins == 0 <==> Pos(h, sm) <= h + 98))
    && (sm.pc <= 3 && (driven || sm.delay > 0) ==> sm.pins != 0)
  }

  function HsyncCycle(sm: Sm): Cycle { Execute(Hsync(sm.pc), 1, 8, sm, Flags(false, false), 0) }

  lemma HsyncIsProgram(sm: Sm, flags: Flags, word: nat)
    requires 1 <= sm.pc <= 8
    ensures RunCycle(HSYNC, sm, flags, word) == HsyncCycle(sm)
  {
    HsyncDecoded(sm.pc);
  }

  /** One cycle on: the next position, or the start of the next line; IRQ 0 is raised at one
      position of the line. */
  lemma HsyncStep(h: nat, sm: Sm, driven: bool)
    requires HsyncOk(h, sm, driven)
    ensures var c := HsyncCycle(sm);
      && HsyncOk(h, c.sm, driven) && 0 <= Pos(h, sm) <= h + 144
      && Pos(h, c.sm) == (if Pos(h, sm) == h + 144 then 0 else Pos(h, sm) + 1)
      && c.effect == (if Pos(h, sm) == h + 143 then Raises(0) else Quiet)
      && (Pos(h, sm) >= h + 143 ==> HsyncOk(h, c.sm, true))
  {
  }

  /** The machine after `n` cycles. */
  function HsyncRun(sm: Sm, n: nat): Sm
    decreases n
  {
    if n == 0 then sm else HsyncRun(HsyncCycle(sm).sm, n - 1)
  }

  /** Of the `n` cycles from `sm` on, those with the pin low. */
  function Lows(sm: Sm, n: nat): nat
    decreases n
  {
    if n == 0 then 0 else (if sm.pins == 0 then 1 else 0) + Lows(HsyncCycle(sm).sm, n - 1)
  }

  /** And those that raise IRQ 0. */
  function Raised0(sm: Sm, n: nat): nat
    decreases n
  {
    if n == 0 then 0 else (if HsyncCycle(sm).effect == Raises(0) then 1 else 0) + Raised0(HsyncCycle(sm).sm, n - 1)
  }

  /** The size of the part of [a, b) that lies in [c, d). */
  function Overlap(a: int, b: int, c: int, d: int): int {
    var lo, hi := if a < c then c else a, if b < d then b else d;
    if lo < hi then hi - lo else 0
  }

  lemma {:induction false} HsyncWalk(h: nat, sm: Sm, p: int, n: nat, e: int)
    requires HsyncOk(h, sm, true) && p == Pos(h, sm) && n > 0 && p + n == e <= h + 145
    ensures HsyncOk(h, HsyncRun(sm, n), true) && Pos(h, HsyncRun(sm, n)) == (if e == h + 145 then 0 else e)
    decreases n
  {
    HsyncStep(h, sm, true);
    if n > 1 { HsyncWalk(h, HsyncCycle(sm).sm, p + 1, n - 1, e); }
  }

  lemma LowHere(h: nat, sm: Sm)
    requires HsyncOk(h, sm, true)
    ensures sm.pins == 0 <==> h + 3 <= Pos(h, sm) <= h + 98
  {
  }

  lemma {:induction false} LowsCount(h: nat, sm: Sm, p: int, n: nat, e: int)
    requires n > 0 ==> HsyncOk(h, sm, true) && p == Pos(h, sm)
    requires p + n == e <= h + 145
    ensures Lows(sm, n) == Overlap(p, e, h + 3, h + 99)
    decreases n
  {
    if n > 0 {
      LowHere(h, sm);
      HsyncStep(h, sm, true);
      LowsCount(h, HsyncCycle(sm).sm, p + 1, n - 1, e);
    }
  }

  lemma {:induction false} RaisedCount(h: nat, sm: Sm, p: int, n: nat, e: int)
    requires n > 0 ==> HsyncOk(h, sm, true) && p == Pos(h, sm)
    requires p + n == e <= h + 145
    ensures Raised0(sm, n) == Overlap(p, e, h + 143, h + 144)
    decreases n
  {
    if n > 0 {
      HsyncStep(h, sm, true);
      RaisedCount(h, HsyncCycle(sm).sm, p + 1, n - 1, e);
    }
  }

  /** Every line lasts `h + 145` hsync cycles, has the pin low for exactly 96 of them and
      raises IRQ 0 exactly once. */
  lemma HsyncLine(h: nat, sm: Sm, n: nat)
    requires HsyncOk(h, sm, true) && Pos(h, sm) == 0 && n == h + 145
    ensures HsyncOk(h, HsyncRun(sm, n), true) && Pos(h, HsyncRun(sm, n)) == 0
    ensures Lows(sm, n) == 96 && Raised0(sm, n) == 1
  {
    HsyncWalk(h, sm, 0, n, n);
    LowsCount(h, sm, 0, n, n);
    RaisedCount(h, sm, 0, n, n);
  }

  // ----- vsync -----

  /** The instructions that wait for IRQ 0. */
  predicate Waits(pc: nat) { pc == 2 || pc == 6 || pc == 9 || pc == 10 || pc == 12 }

  /** A state the vsync machine reaches. Before the first frame has ended (`driven` says it
      has) the pin may still have its level from the start. */
  ghost predicate VsyncOk(v: nat, sm: Sm, driven: bool) {
    && 1 <= sm.pc <= 13 && sm.osr == v && sm.delay == 0
    && (2 <= sm.pc <= 4 ==> sm.x <= v) && (6 <= sm.pc <= 7 ==> sm.y <= 9) && (12 <= sm.pc ==> sm.y <= 31)
    && (9 <= sm.pc <= 11 ==> sm.pins == 0) && (sm.pc == 13 || (sm.pc <= 8 && driven) ==> sm.pins != 0)
  }

  /** The waits for IRQ 0 completed in the frame. */
  function Taken(v: nat, sm: Sm): int {
    if sm.pc == 1 then 0
    else if sm.pc <= 4 then v - sm.x + (if sm.pc == 2 then 0 else 1)
    else if sm.pc == 5 then v + 1
    else if sm.pc <= 7 then v + 10 - sm.y + (if sm.pc == 6 then 0 else 1)
    else if sm.pc <= 11 then v + 11 + (if sm.pc == 10 then 1 else if sm.pc == 11 then 2 else 0)
    else v + 44 - sm.y + (if sm.pc == 12 then 0 else 1)
  }

  /** The times IRQ 1 has been raised in the frame. */
  function Given(v: nat, sm: Sm): int {
    if sm.pc == 1 then 0 else if sm.pc <= 4 then v - sm.x + (if sm.pc == 4 then 1 else 0) else v + 1
  }

  /** The waits completed in the frame with the pin low. */
  function LowTaken(sm: Sm): int { if sm.pc <= 9 then 0 else if sm.pc == 10 then 1 else 2 }

  function VsyncCycle(sm: Sm, flags: Flags): Cycle { Execute(Vsync(sm.pc), 1, 13, sm, flags, 0) }

  lemma VsyncIsProgram(sm: Sm, flags: Flags, word: nat)
    requires 1 <= sm.pc <= 13
    ensures RunCycle(VSYNC, sm, flags, word) == VsyncCycle(sm, flags)
  {
    VsyncDecoded(sm.pc);
  }

  /** The last instruction of a frame. */
  predicate FrameEnds(sm: Sm) { sm.pc == 13 && sm.y == 0 }

  /** One cycle: completed waits are counted on, the first `v + 1` are answered by IRQ 1, and
      a frame ends after `v + 45`. */
  lemma VsyncStep(v: nat, sm: Sm, flags: Flags, driven: bool)
    requires VsyncOk(v, sm, driven)
    ensures var c := VsyncCycle(sm, flags);
      && VsyncOk(v, c.sm, driven || FrameEnds(sm))
      && c.effect == (if Waits(sm.pc) && flags.irq0 then Clears(0) else if sm.pc == 3 then Raises(1) else Quiet)
      && (FrameEnds(sm) ==> Taken(v, sm) == v + 45 && Given(v, sm) == v + 1 && LowTaken(sm) == 2 && c.sm.pc == 1)
      && (!FrameEnds(sm) ==> Taken(v, c.sm) == Taken(v, sm) + (if c.effect == Clears(0) then 1 else 0))
      && (!FrameEnds(sm) ==> Given(v, c.sm) == Given(v, sm) + (if c.effect == Raises(1) then 1 else 0))
  {
  }

  /** The waits completed with the pin low are those at 9 and 10. */
  lemma VsyncLow(v: nat, sm: Sm, flags: Flags)
    requires VsyncOk(v, sm, true) && !FrameEnds(sm)
    ensures var c := VsyncCycle(sm, flags);
      LowTaken(c.sm) == LowTaken(sm) + (if c.effect == Clears(0) && c.sm.pins == 0 then 1 else 0)
  {
  }

  /** Every IRQ 1 answers a completed wait, the first `v + 1` of the frame. */
  lemma GivenIsTaken(v: nat, sm: Sm)
    requires VsyncOk(v, sm, false)
    ensures Given(v, sm) == (if Taken(v, sm) < v + 1 then Taken(v, sm) else v + 1) - (if sm.pc == 3 then 1 else 0)
  {
  }

  /** Where the machine goes once it does not wait. */
  lemma VsyncMoves(v: nat, sm: Sm, flags: Flags)
    requires VsyncOk(v, sm, false)
    ensures var pc, pc1 := sm.pc, VsyncCycle(sm, flags).sm.pc;
      && (Waits(pc) ==> pc1 == if flags.irq0 then pc + 1 else pc)
      && (pc == 1 ==> pc1 == 2) && (pc == 3 ==> pc1 == 4) && (pc == 4 ==> pc1 == 2 || pc1 == 5)
      && (pc == 5 ==> pc1 == 6)
      && (pc == 7 ==> pc1 == 6 || pc1 == 8) && (pc == 8 ==> pc1 == 9) && (pc == 11 ==> pc1 == 12)
      && (pc == 13 ==> pc1 == 12 || pc1 == 1)
  {
  }

  // ----- rgb -----

  ghost predicate RgbOk(y: nat, sm: Sm) {
    && 2 <= sm.pc <= 8 && sm.y == y && (sm.pc >= 5 ==> sm.x <= y)
    && sm.delay <= (if sm.pc == 5 then 3 else if sm.pc == 7 then 4 else if sm.pc == 8 then 2 else 0)
    && (3 <= sm.pc <= 4 ==> sm.pins == 0) && (sm.pc == 4 ==> sm.x == y)
  }

  /** The system cycles until the machine waits for IRQ 1 again. */
  function Busy(sm: Sm): int {
    if sm.pc == 4 then 0
    else if sm.pc <= 3 then 4 - sm.pc
    else sm.delay + 10 * sm.x + (if sm.pc == 5 then 12 else if sm.pc == 6 then 11 else if sm.pc == 7 then 6 else 3)
  }

  function RgbCycle(sm: Sm, flags: Flags, word: nat): Cycle { Execute(Rgb(sm.pc), 2, 8, sm, flags, word) }

  lemma RgbIsProgram(sm: Sm, flags: Flags, word: nat)
    requires 1 <= sm.pc <= 8
    ensures RunCycle(RGB, sm, flags, word) == RgbCycle(sm, flags, word)
  {
    RgbDecoded(sm.pc);
  }

  /** The machine works a line off in `10 * (y + 1) + 6` system cycles and is black while it
      waits. */
  lemma RgbStep(y: nat, sm: Sm, flags: Flags, word: nat)
    requires RgbOk(y, sm)
    ensures var c := RgbCycle(sm, flags, word);
      && RgbOk(y, c.sm) && Busy(sm) >= 0 && (Busy(sm) == 0 ==> sm.pins == 0)
      && c.effect == (if Busy(sm) == 0 && flags.irq1 then Clears(1) else Quiet)
      && Busy(c.sm) == (if Busy(sm) > 0 then Busy(sm) - 1 else if flags.irq1 then 10 * (y + 1) + 5 else 0)
  {
  }

  // ----- the three together -----

  /** The machines, the flags, the system cycles until hsync and vsync are clocked, and a
      record: whether a flag has been raised while still set, what vsync has done in the
      frame, and how many frames and lines have been completed. */
  datatype Vga = Vga(hs: Sm, vs: Sm, rgb: Sm, flags: Flags, wait: nat,
                     lost: bool, taken: nat, given: nat, low: nat, frames: nat, lines: nat)

  /** All three started in the same cycle, with their counts loaded and the flags clear. */
  function Start(h: nat, v: nat, y: nat, hsPin: nat, vsPin: nat): Vga {
    Vga(Sm(1, 0, 0, h, 0, hsPin), Sm(1, 0, 0, v, 0, vsPin), Sm(2, 0, y, y, 0, 0), Flags(false, false), 0,
        false, 0, 0, 0, 0, 0)
  }

  /** The flags after a cycle; raising wins over clearing. */
  function Apply(flags: Flags, a: Effect, b: Effect, c: Effect): Flags {
    Flags(After(flags.irq0, 0, a, b, c), After(flags.irq1, 1, a, b, c))
  }

  predicate After(before: bool, flag: nat, a: Effect, b: Effect, c: Effect) {
    if a == Raises(flag) || b == Raises(flag) || c == Raises(flag) then true
    else if a == Clears(flag) || b == Clears(flag) || c == Clears(flag) then false
    else before
  }

  /** A flag raised while it is still set. */
  predicate Loses(flags: Flags, e: Effect) { e.Raises? && IsSet(flags, e.flag) }

  /** A system cycle in which only rgb is clocked. */
  function FastTick(s: Vga, word: nat): Vga
    requires s.wait > 0
  {
    var r := RgbCycle(s.rgb, s.flags, word);
    s.(rgb := r.sm, flags := Apply(s.flags, Quiet, Quiet, r.effect), wait := s.wait - 1,
      lost := s.lost || Loses(s.flags, r.effect))
  }

  /** A system cycle in which all are. */
  function SlowTick(s: Vga, word: nat): Vga {
    var a, b, r := HsyncCycle(s.hs), VsyncCycle(s.vs, s.flags), RgbCycle(s.rgb, s.flags, word);
    var end := FrameEnds(s.vs);
    var took := b.effect == Clears(0);
    Vga(a.sm, b.sm, r.sm, Apply(s.flags, a.effect, b.effect, r.effect), 4,
        s.lost || Loses(s.flags, a.effect) || Loses(s.flags, b.effect) || Loses(s.flags, r.effect),
        if end then 0 else s.taken + (if took then 1 else 0),
        if end then 0 else s.given + (if b.effect == Raises(1) then 1 else 0),
        if end then 0 else s.low + (if took && b.sm.pins == 0 then 1 else 0),
        s.frames + (if end then 1 else 0),
        s.lines + (if a.effect == Raises(0) then 1 else 0))
  }

  /** In terms of what each machine does. */
  lemma SlowTickIs(s: Vga, word: nat, a: Cycle, b: Cycle, r: Cycle)
    requires a == HsyncCycle(s.hs) && b == VsyncCycle(s.vs, s.flags) && r == RgbCycle(s.rgb, s.flags, word)
    ensures SlowTick(s, word) == Vga(a.sm, b.sm, r.sm, Apply(s.flags, a.effect, b.effect, r.effect), 4,
        s.lost || Loses(s.flags, a.effect) || Loses(s.flags, b.effect) || Loses(s.flags, r.effect),
        if FrameEnds(s.vs) then 0 else s.taken + (if b.effect == Clears(0) then 1 else 0),
        if FrameEnds(s.vs) then 0 else s.given + (if b.effect == Raises(1) then 1 else 0),
        if FrameEnds(s.vs) then 0 else s.low + (if b.effect == Clears(0) && b.sm.pins == 0 then 1 else 0),
        s.frames + (if FrameEnds(s.vs) then 1 else 0),
        s.lines + (if a.effect == Raises(0) then 1 else 0))
  {
  }

  function Tick(s: Vga, word: nat): Vga {
    if s.wait > 0 then FastTick(s, word) else SlowTick(s, word)
  }

  // ----- what every run keeps -----

  /** System cycles since the place in the line where IRQ 1 is raised. */
  function Since(h: nat, p: int, wait: int): int { 5 * (if p == 0 then h + 144 else p - 1) + 4 - wait }

  /** vsync is away from a wait only in the first three positions of a line. */
  predicate Linked(p: int, pc: nat) {
    if pc == 3 || pc == 7 || pc == 11 || pc == 13 then p == 0
    else if pc == 4 || pc == 8 then p == 1
    else if pc == 5 then p == 2
    else if pc == 1 then p == 0 || p == 1
    else true
  }

  /** IRQ 1 is set for one cycle only, when rgb waits for it; a line of pixels is done before
      the place where the next IRQ 1 may be raised. */
  predicate Paced(h: nat, y: nat, p: int, wait: int, pc: nat, busy: int, irq1: bool) {
    && (irq1 ==> Since(h, p, wait) == 0 && busy == 0)
    && (busy == 0 || busy + Since(h, p, wait) <= 10 * (y + 1) + 6 || (pc == 1 && p == 0 && busy <= 2))
  }

  ghost predicate MachinesOk(h: nat, v: nat, y: nat, s: Vga) {
    HsyncOk(h, s.hs, s.lines > 0) && VsyncOk(v, s.vs, s.frames > 0) && RgbOk(y, s.rgb) && s.wait <= 4
  }

  ghost predicate Protocol(h: nat, y: nat, s: Vga) {
    && Linked(Pos(h, s.hs), s.vs.pc) && (s.flags.irq0 <==> Pos(h, s.hs) == h + 144)
    && Paced(h, y, Pos(h, s.hs), s.wait, s.vs.pc, Busy(s.rgb), s.flags.irq1) && !s.lost
  }

  ghost predicate Counted(v: nat, s: Vga) {
    s.taken == Taken(v, s.vs) && s.given == Given(v, s.vs) && (s.frames > 0 ==> s.low == LowTaken(s.vs))
  }

  ghost predicate Ok(h: nat, v: nat, y: nat, s: Vga) {
    MachinesOk(h, v, y, s) && Protocol(h, y, s) && Counted(v, s)
  }

  lemma StartOk(h: nat, v: nat, y: nat, hsPin: nat, vsPin: nat)
    ensures Ok(h, v, y, Start(h, v, y, hsPin, vsPin))
  {
  }

  /** A pixel line fits a line of the screen. */
  predicate Fits(h: nat, y: nat) { 10 * (y + 1) + 6 <= 5 * (h + 145) }

  lemma FastKeeps(h: nat, v: nat, y: nat, s: Vga, word: nat)
    requires Ok(h, v, y, s) && s.wait > 0
    ensures Ok(h, v, y, FastTick(s, word))
  {
    RgbStep(y, s.rgb, s.flags, word);
    HsyncStep(h, s.hs, s.lines > 0);
  }

  lemma LinkKeeps(v: nat, vs: Sm, flags: Flags, h: nat, p: int, p1: int)
    requires VsyncOk(v, vs, false) && Linked(p, vs.pc) && (flags.irq0 <==> p == h + 144)
    requires p1 == if p == h + 144 then 0 else p + 1
    requires p >= 0
    ensures Linked(p1, VsyncCycle(vs, flags).sm.pc)
  {
    VsyncMoves(v, vs, flags);
  }

  lemma PaceKeeps(h: nat, y: nat, p: int, p1: int, pc: nat, pc1: nat, busy: int, busy1: int, irq1: bool, raised: bool)
    requires Fits(h, y) && 0 <= p <= h + 144 && Paced(h, y, p, 0, pc, busy, irq1) && busy >= 0
    requires p1 == if p == h + 144 then 0 else p + 1
    requires busy1 == if busy > 0 then busy - 1 else if irq1 then 10 * (y + 1) + 5 else 0
    requires (raised ==> pc == 3) && Linked(p, pc)
    ensures Paced(h, y, p1, 4, pc1, busy1, raised) && !irq1
  {
  }

  lemma SlowMachines(h: nat, v: nat, y: nat, s: Vga, word: nat)
    requires Ok(h, v, y, s)
    ensures MachinesOk(h, v, y, SlowTick(s, word)) && Counted(v, SlowTick(s, word))
  {
    HsyncStep(h, s.hs, s.lines > 0);
    VsyncStep(v, s.vs, s.flags, s.frames > 0);
    RgbStep(y, s.rgb, s.flags, word);
    if s.frames > 0 && !FrameEnds(s.vs) { VsyncLow(v, s.vs, s.flags); }
  }

  lemma SlowProtocol(h: nat, v: nat, y: nat, s: Vga, word: nat)
    requires Ok(h, v, y, s) && s.wait == 0 && Fits(h, y)
    ensures Protocol(h, y, SlowTick(s, word))
  {
    hide HsyncCycle, VsyncCycle, RgbCycle;
    var a, b, r := HsyncCycle(s.hs), VsyncCycle(s.vs, s.flags), RgbCycle(s.rgb, s.flags, word);
    var p := Pos(h, s.hs);
    HsyncStep(h, s.hs, s.lines > 0);
    VsyncStep(v, s.vs, s.flags, s.frames > 0);
    RgbStep(y, s.rgb, s.flags, word);
    LinkKeeps(v, s.vs, s.flags, h, p, Pos(h, a.sm));
    PaceKeeps(h, y, p, Pos(h, a.sm), s.vs.pc, b.sm.pc, Busy(s.rgb), Busy(r.sm), s.flags.irq1, b.effect == Raises(1));
  }

  /** Every system cycle keeps the protocol, however long the pixel line is that still fits. */
  lemma TickKeeps(h: nat, v: nat, y: nat, s: Vga, word: nat)
    requires Ok(h, v, y, s) && Fits(h, y)
    ensures Ok(h, v, y, Tick(s, word))
  {
    if s.wait > 0 {
      FastKeeps(h, v, y, s, word);
    } else {
      SlowMachines(h, v, y, s, word);
      SlowProtocol(h, v, y, s, word);
    }
  }

  /** The state after as many system cycles as there are words on offer to rgb. */
  function Run(s: Vga, words: seq<nat>): Vga {
    if words == [] then s else Tick(Run(s, words[..|words| - 1]), words[|words| - 1])
  }

  lemma {:induction false} RunKeeps(h: nat, v: nat, y: nat, s: Vga, words: seq<nat>)
    requires Ok(h, v, y, s) && Fits(h, y)
    ensures Ok(h, v, y, Run(s, words))
  {
    if words != [] {
      var n := |words| - 1;
      RunKeeps(h, v, y, s, words[..n]);
      TickKeeps(h, v, y, Run(s, words[..n]), words[n]);
    }
  }

  /** In no run is an interrupt raised while it is still pending. */
  lemma NoInterruptLost(h: nat, v: nat, y: nat, hsPin: nat, vsPin: nat, words: seq<nat>)
    requires Fits(h, y)
    ensures !Run(Start(h, v, y, hsPin, vsPin), words).lost
  {
    StartOk(h, v, y, hsPin, vsPin);
    RunKeeps(h, v, y, Start(h, v, y, hsPin, vsPin), words);
  }

  /** The waits of the first frame completed with the pin low, if it is low from the start. */
  function FirstLowTaken(v: nat, sm: Sm): int {
    if sm.pc <= 9 then Taken(v, sm) else if sm.pc == 10 then v + 12 else v + 13
  }

  /** In the first frame the pin keeps its level from the start until it is first driven. */
  ghost predicate FirstFrame(v: nat, vsPin: nat, s: Vga) {
    s.frames == 0 ==>
      && (s.vs.pc <= 8 ==> (s.vs.pins == 0 <==> vsPin == 0))
      && s.low == if vsPin == 0 then FirstLowTaken(v, s.vs) else LowTaken(s.vs)
  }

  lemma FirstVsync(v: nat, sm: Sm, flags: Flags, vsPin: nat)
    requires VsyncOk(v, sm, false) && !FrameEnds(sm) && (sm.pc <= 8 ==> (sm.pins == 0 <==> vsPin == 0))
    ensures var c := VsyncCycle(sm, flags); var more := if c.effect == Clears(0) && c.sm.pins == 0 then 1 else 0;
      && (c.sm.pc <= 8 ==> (c.sm.pins == 0 <==> vsPin == 0))
      && (vsPin == 0 ==> FirstLowTaken(v, c.sm) == FirstLowTaken(v, sm) + more)
      && (vsPin != 0 ==> LowTaken(c.sm) == LowTaken(sm) + more)
  {
  }

  lemma FirstKeeps(v: nat, vsPin: nat, s: Vga, word: nat)
    requires VsyncOk(v, s.vs, s.frames > 0) && FirstFrame(v, vsPin, s)
    ensures FirstFrame(v, vsPin, Tick(s, word))
  {
    if s.wait == 0 && s.frames == 0 && !FrameEnds(s.vs) { FirstVsync(v, s.vs, s.flags, vsPin); }
  }

  lemma {:induction false} RunFirst(h: nat, v: nat, y: nat, s: Vga, vsPin: nat, words: seq<nat>)
    requires Ok(h, v, y, s) && Fits(h, y) && FirstFrame(v, vsPin, s)
    ensures FirstFrame(v, vsPin, Run(s, words))
  {
    if words != [] {
      var n := |words| - 1;
      RunKeeps(h, v, y, s, words[..n]);
      RunFirst(h, v, y, s, vsPin, words[..n]);
      FirstKeeps(v, vsPin, Run(s, words[..n]), words[n]);
    }
  }

  /** In every run every frame that ends has taken exactly `v + 45` IRQ 0 and given exactly
      `v + 1` IRQ 1, and the pin has been low for exactly two of the waits; but in the first
      frame, if the pin is low from the start, for the `v + 11` waits before them as well.
      Within a frame it is the first waits that are answered by IRQ 1. */
  lemma FrameCounts(h: nat, v: nat, y: nat, hsPin: nat, vsPin: nat, words: seq<nat>)
    requires Fits(h, y)
    ensures var s := Run(Start(h, v, y, hsPin, vsPin), words);
      && (FrameEnds(s.vs) ==> s.taken == v + 45 && s.given == v + 1)
      && (FrameEnds(s.vs) ==> s.low == if s.frames == 0 && vsPin == 0 then v + 13 else 2)
      && s.given == (if s.taken < v + 1 then s.taken else v + 1) - (if s.vs.pc == 3 then 1 else 0)
  {
    var start := Start(h, v, y, hsPin, vsPin);
    StartOk(h, v, y, hsPin, vsPin);
    RunKeeps(h, v, y, start, words);
    RunFirst(h, v, y, start, vsPin, words);
    var s := Run(start, words);
    VsyncStep(v, s.vs, s.flags, s.frames > 0);
    GivenIsTaken(v, s.vs);
  }

  /** In every run each interrupt is taken by the next cycle of the machine it is for: an
      IRQ 1 starts a line of pixels, an IRQ 0 completes a wait of vsync. */
  lemma InterruptsTaken(h: nat, v: nat, y: nat, hsPin: nat, vsPin: nat, words: seq<nat>, word: nat)
    requires Fits(h, y)
    ensures var s := Run(Start(h, v, y, hsPin, vsPin), words);
      && (s.flags.irq1 ==> !Tick(s, word).flags.irq1 && Busy(Tick(s, word).rgb) == 10 * (y + 1) + 5)
      && (s.flags.irq0 && s.wait == 0 ==>
            !SlowTick(s, word).flags.irq0 && VsyncCycle(s.vs, s.flags).effect == Clears(0))
  {
    StartOk(h, v, y, hsPin, vsPin);
    RunKeeps(h, v, y, Start(h, v, y, hsPin, vsPin), words);
    TakenNext(h, v, y, Run(Start(h, v, y, hsPin, vsPin), words), word);
  }

  lemma TakenNext(h: nat, v: nat, y: nat, s: Vga, word: nat)
    requires Ok(h, v, y, s)
    ensures s.flags.irq1 ==> !Tick(s, word).flags.irq1 && Busy(Tick(s, word).rgb) == 10 * (y + 1) + 5
    ensures s.flags.irq0 && s.wait == 0 ==>
      !SlowTick(s, word).flags.irq0 && VsyncCycle(s.vs, s.flags).effect == Clears(0)
  {
    RgbStep(y, s.rgb, s.flags, word);
    HsyncStep(h, s.hs, s.lines > 0);
    VsyncStep(v, s.vs, s.flags, s.frames > 0);
  }

  /** In every run the pixel pins are black whenever rgb waits for IRQ 1. */
  lemma BlackWhileWaiting(h: nat, v: nat, y: nat, hsPin: nat, vsPin: nat, words: seq<nat>)
    requires Fits(h, y)
    ensures var rgb := Run(Start(h, v, y, hsPin, vsPin), words).rgb; rgb.pc == 4 ==> rgb.pins == 0
  {
    StartOk(h, v, y, hsPin, vsPin);
    RunKeeps(h, v, y, Start(h, v, y, hsPin, vsPin), words);
  }

  // ----- the machines in place -----

  class Board {
    var hs: Sm
    var vs: Sm
    var rgb: Sm
    var flags: Flags
    var wait: nat
    var lost: bool
    var taken: nat
    var given: nat
    var low: nat
    var frames: nat
    var lines: nat

    function Now(): Vga
      reads this
    {
      Vga(hs, vs, rgb, flags, wait, lost, taken, given, low, frames, lines)
    }

    constructor (h: nat, v: nat, y: nat, hsPin: nat, vsPin: nat)
      ensures Now() == Start(h, v, y, hsPin, vsPin) && Ok(h, v, y, Now())
    {
      hs, vs, rgb := Sm(1, 0, 0, h, 0, hsPin), Sm(1, 0, 0, v, 0, vsPin), Sm(2, 0, y, y, 0, 0);
      flags, wait := Flags(false, false), 0;
      lost, taken, given, low, frames, lines := false, 0, 0, 0, 0, 0;
      new;
      StartOk(h, v, y, hsPin, vsPin);
    }

    /** hsync and vsync clocked, each by the instruction word it is at. */
    method ClockSlow(latched: Flags) returns (a: Effect, b: Effect)
      requires 1 <= hs.pc <= 8 && 1 <= vs.pc <= 13
      modifies this`hs, this`vs
      ensures Cycle(hs, a) == HsyncCycle(old(hs)) && Cycle(vs, b) == VsyncCycle(old(vs), latched)
    {
      HsyncIsProgram(hs, latched, 0);
      VsyncIsProgram(vs, latched, 0);
      var c, d := RunCycle(HSYNC, hs, latched, 0), RunCycle(VSYNC, vs, latched, 0);
      hs, a, vs, b := c.sm, c.effect, d.sm, d.effect;
    }

    method ClockFast(latched: Flags, word: nat) returns (r: Effect)
      requires 1 <= rgb.pc <= 8
      modifies this`rgb
      ensures Cycle(rgb, r) == RgbCycle(old(rgb), latched, word)
    {
      RgbIsProgram(rgb, latched, word);
      var c := RunCycle(RGB, rgb, latched, word);
      rgb, r := c.sm, c.effect;
    }

    /** What the slow machines did is put on record. */
    method Record(frameEnds: bool, a: Effect, b: Effect)
      modifies this`taken, this`given, this`low, this`frames, this`lines
      ensures taken == (if frameEnds then 0 else old(taken) + (if b == Clears(0) then 1 else 0))
      ensures given == (if frameEnds then 0 else old(given) + (if b == Raises(1) then 1 else 0))
      ensures low == (if frameEnds then 0 else old(low) + (if b == Clears(0) && vs.pins == 0 then 1 else 0))
      ensures frames == old(frames) + (if frameEnds then 1 else 0) &&
        lines == old(lines) + (if a == Raises(0) then 1 else 0)
    {
      if b == Clears(0) { taken := taken + 1; }
      if b == Clears(0) && vs.pins == 0 { low := low + 1; }
      if b == Raises(1) { given := given + 1; }
      if a == Raises(0) { lines := lines + 1; }
      if frameEnds { taken, given, low, frames := 0, 0, 0, frames + 1; }
    }

    /** A system cycle in which all are clocked. */
    method ClockAll(word: nat)
      requires 1 <= hs.pc <= 8 && 1 <= vs.pc <= 13 && 1 <= rgb.pc <= 8
      modifies this
      ensures Now() == SlowTick(old(Now()), word)
    {
      hide HsyncCycle, VsyncCycle, RgbCycle, Apply, Loses, FrameEnds, SlowTick;
      SlowTickIs(Now(), word, HsyncCycle(hs), VsyncCycle(vs, flags), RgbCycle(rgb, flags, word));
      var latched, frameEnds := flags, FrameEnds(vs);
      var r := ClockFast(latched, word);
      var a, b := ClockSlow(latched);
      Record(frameEnds, a, b);
      flags, wait := Apply(latched, a, b, r), 4;
      lost := lost || Loses(latched, a) || Loses(latched, b) || Loses(latched, r);
    }

    /** One system cycle; `word` is what the FIFO offers rgb. */
    method Clock(word: nat, ghost h: nat, ghost v: nat, ghost y: nat)
      requires Ok(h, v, y, Now()) && Fits(h, y)
      modifies this
      ensures Now() == Tick(old(Now()), word) && Ok(h, v, y, Now())
    {
      TickKeeps(h, v, y, Now(), word);
      if wait > 0 {
        var latched := flags;
        var r := ClockFast(latched, word);
        flags, wait, lost := Apply(latched, Quiet, Quiet, r), wait - 1, lost || Loses(latched, r);
      } else {
        ClockAll(word);
      }
    }
  }
}
