/**
 The picture on the screen (src/vga_graphics.c, `initVGA`): the pixel array is fed to the rgb
 program byte after byte, from the start again behind its end, while hsync and vsync run. Row
 and line never part, because the array holds as many rows as a frame has answered lines.
 */
module Scanout {
  import opened Numbers
  import opened Pio
  import opened VgaTiming
  import opened PixelStream

  /** The three machines, and how many bytes the rgb program has taken. */
  datatype Scan = Scan(vga: Vga, next: nat)

  predicate Pulls(sm: Sm) { sm.pc == 5 && sm.delay == 0 }

  /** The byte on offer: the transfers start over at the end of the array. */
  function Offered(image: seq<nat>, next: nat): nat
    requires image != []
  {
    image[next % |image|]
  }

  /** A system cycle. */
  function ScanTick(s: Scan, image: seq<nat>): Scan
    requires image != []
  {
    Scan(Tick(s.vga, Offered(image, s.next)), s.next + if Pulls(s.vga.rgb) then 1 else 0)
  }

  /** The state after `n` system cycles. */
  function Scanned(s: Scan, image: seq<nat>, n: nat): Scan
    requires image != []
  {
    if n == 0 then s else ScanTick(Scanned(s, image, n - 1), image)
  }

  /** The bytes on offer in them. */
  function Words(s: Scan, image: seq<nat>, n: nat): (words: seq<nat>)
    requires image != []
    ensures |words| == n
  {
    if n == 0 then [] else Words(s, image, n - 1) + [Offered(image, Scanned(s, image, n - 1).next)]
  }

  /** It is a run of the three machines. */
  lemma {:induction false} ScanIsRun(s: Scan, image: seq<nat>, n: nat)
    requires image != []
    ensures Scanned(s, image, n).vga == Run(s.vga, Words(s, image, n))
  {
    hide Tick, Offered;
    if n > 0 {
      ScanIsRun(s, image, n - 1);
      var words := Words(s, image, n);
      assert words[..|words| - 1] == Words(s, image, n - 1);
    }
  }

  // ----- rows and lines -----

  /** The bytes of the line that rgb has still to take. */
  function Left(sm: Sm): nat { if sm.pc <= 4 then 0 else if sm.pc == 5 then sm.x + 1 else sm.x }

  /** The lines begun: those answered by IRQ 1, less the one rgb has not yet seen. */
  function Begun(v: nat, s: Vga): int { Times(s.frames, v + 1) + s.given - if s.flags.irq1 then 1 else 0 }

  /** IRQ 1 is set only where vsync has just raised it. */
  predicate JustRaised(s: Vga) { s.flags.irq1 ==> s.vs.pc == 4 }

  /** For every line begun the bytes of a row have been taken, but those still to take. */
  ghost predicate Aligned(v: nat, y: nat, s: Scan) {
    JustRaised(s.vga) && Begun(v, s.vga) >= 0 && s.next + Left(s.vga.rgb) == Times(Begun(v, s.vga), y + 1)
  }

  /** What a cycle of rgb does to what is left of a line. */
  lemma LeftStep(y: nat, sm: Sm, flags: Flags, word: nat)
    requires RgbOk(y, sm)
    ensures var c := RgbCycle(sm, flags, word);
      Left(c.sm) == Left(sm) - (if Pulls(sm) then 1 else 0) + (if c.effect == Clears(1) then y + 1 else 0)
    ensures RgbCycle(sm, flags, word).effect == Clears(1) ==> flags.irq1
    ensures RgbCycle(sm, flags, word).effect == Quiet || RgbCycle(sm, flags, word).effect == Clears(1)
  {
  }

  /** What a cycle does to the lines begun: rgb sees IRQ 1, or nothing changes. */
  lemma BegunStep(h: nat, v: nat, y: nat, s: Vga, word: nat)
    requires Ok(h, v, y, s) && Fits(h, y)
    ensures Begun(v, Tick(s, word)) == Begun(v, s) + if RgbCycle(s.rgb, s.flags, word).effect == Clears(1) then 1 else 0
  {
    hide HsyncCycle, VsyncCycle, RgbCycle;
    HsyncStep(h, s.hs, s.lines > 0);
    VsyncStep(v, s.vs, s.flags, s.frames > 0);
    RgbStep(y, s.rgb, s.flags, word);
  }

  lemma RaisedStep(h: nat, v: nat, y: nat, s: Vga, word: nat)
    requires Ok(h, v, y, s)
    ensures JustRaised(Tick(s, word))
  {
    hide HsyncCycle, RgbCycle;
    HsyncStep(h, s.hs, s.lines > 0);
    VsyncStep(v, s.vs, s.flags, s.frames > 0);
    VsyncMoves(v, s.vs, s.flags);
    RgbStep(y, s.rgb, s.flags, word);
  }

  lemma AlignedKeeps(h: nat, v: nat, y: nat, s: Scan, image: seq<nat>)
    requires image != [] && Ok(h, v, y, s.vga) && Fits(h, y) && Aligned(v, y, s)
    ensures Aligned(v, y, ScanTick(s, image))
  {
    hide Offered, Tick, Left, Begun, Ok, Pulls, JustRaised;
    var word := Offered(image, s.next);
    BegunStep(h, v, y, s.vga, word);
    RaisedStep(h, v, y, s.vga, word);
    RgbRuns(h, v, y, s.vga, word);
    LeftStep(y, s.vga.rgb, s.vga.flags, word);
  }

  /** rgb is clocked in every cycle. */
  lemma RgbRuns(h: nat, v: nat, y: nat, s: Vga, word: nat)
    requires Ok(h, v, y, s)
    ensures RgbOk(y, s.rgb) && Tick(s, word).rgb == RgbCycle(s.rgb, s.flags, word).sm
  {
    hide HsyncCycle, VsyncCycle, RgbCycle;
  }

  lemma {:induction false} ScanKeeps(h: nat, v: nat, y: nat, s: Scan, image: seq<nat>, n: nat)
    requires image != [] && Ok(h, v, y, s.vga) && Fits(h, y) && Aligned(v, y, s)
    ensures Ok(h, v, y, Scanned(s, image, n).vga) && Aligned(v, y, Scanned(s, image, n))
  {
    hide Tick, Offered, Ok, Aligned;
    if n > 0 {
      var m := n - 1;
      var s1 := Scanned(s, image, m);
      ScanKeeps(h, v, y, s, image, m);
      TickKeeps(h, v, y, s1.vga, Offered(image, s1.next));
      AlignedKeeps(h, v, y, s1, image);
    }
  }

  // ----- a line on the screen -----

  /** The pixel pins after each of `n` cycles. */
  function Pins(s: Scan, image: seq<nat>, n: nat): seq<nat>
    requires image != []
    decreases n
  {
    if n == 0 then [] else
      var next := ScanTick(s, image);
      [next.vga.rgb.pins] + Pins(next, image, n - 1)
  }

  /** The FIFO of the rgb machine alone holds what comes next of the array. */
  ghost predicate Holds(fifo: seq<nat>, image: seq<nat>, next: nat)
    requires image != []
  {
    forall i: nat | i < |fifo| :: fifo[i] == Offered(image, next + i)
  }

  /** Away from the wait the flags do not matter, and the byte only when one is taken. */
  lemma Alone(sm: Sm, flags: Flags, word: nat, other: nat)
    requires 2 <= sm.pc <= 8 && sm.pc != 4 && (Pulls(sm) ==> word == other)
    ensures RgbCycle(sm, flags, word) == RgbCycle(sm, CLEAR, other)
  {
  }

  lemma HoldsNext(fifo: seq<nat>, image: seq<nat>, next: nat)
    requires image != [] && fifo != [] && Holds(fifo, image, next)
    ensures fifo[0] == Offered(image, next) && Holds(fifo[1..], image, next + 1)
  {
    hide Offered;
    assert fifo[0] == Offered(image, next + 0);
    forall i: nat | i < |fifo[1..]| ensures fifo[1..][i] == Offered(image, next + 1 + i) {
      assert fifo[1..][i] == fifo[i + 1] == Offered(image, next + (i + 1));
    }
  }

  /** The rgb machine on its own, fed from the FIFO, keeps step with the one in the run. */
  ghost predicate InStep(y: nat, s: Scan, image: seq<nat>, fed: Fed)
    requires image != []
  {
    s.vga.rgb == fed.sm && RgbOk(y, fed.sm) && Left(fed.sm) <= |fed.fifo| && Holds(fed.fifo, image, s.next)
  }

  lemma KeepsStep(y: nat, s: Scan, image: seq<nat>, fed: Fed)
    requires image != [] && InStep(y, s, image, fed) && Busy(fed.sm) > 0
    requires Tick(s.vga, Offered(image, s.next)).rgb == RgbCycle(fed.sm, s.vga.flags, Offered(image, s.next)).sm
    ensures InStep(y, ScanTick(s, image), image, FedCycle(fed)) && Busy(FedCycle(fed).sm) == Busy(fed.sm) - 1
  {
    hide Tick, Offered, RgbCycle, Holds;
    var word := Offered(image, s.next);
    if Pulls(fed.sm) {
      HoldsNext(fed.fifo, image, s.next);
      Alone(fed.sm, s.vga.flags, word, fed.fifo[0]);
      RgbStep(y, fed.sm, CLEAR, fed.fifo[0]);
      LeftStep(y, fed.sm, CLEAR, fed.fifo[0]);
    } else {
      Alone(fed.sm, s.vga.flags, word, 0);
      RgbStep(y, fed.sm, CLEAR, 0);
      LeftStep(y, fed.sm, CLEAR, 0);
    }
  }

  lemma {:induction false} PlayInScan(h: nat, v: nat, y: nat, s: Scan, image: seq<nat>, fed: Fed, n: nat)
    requires image != [] && Ok(h, v, y, s.vga) && Fits(h, y) && InStep(y, s, image, fed) && n <= Busy(fed.sm)
    ensures Pins(s, image, n) == Play(fed, n).shown
    decreases n
  {
    hide Tick, Offered, RgbCycle, InStep, Busy, Ok, FedCycle;
    if n > 0 {
      var word := Offered(image, s.next);
      RgbRuns(h, v, y, s.vga, word);
      TickKeeps(h, v, y, s.vga, word);
      SameRgb(y, s, image, fed);
      KeepsStep(y, s, image, fed);
      var next, fed1 := ScanTick(s, image), FedCycle(fed);
      PlayInScan(h, v, y, next, image, fed1, n - 1);
      SameRgb(y, next, image, fed1);
    }
  }

  lemma SameRgb(y: nat, s: Scan, image: seq<nat>, fed: Fed)
    requires image != [] && InStep(y, s, image, fed)
    ensures s.vga.rgb == fed.sm
  {
  }

  // ----- which row -----

  lemma Remainder(q: nat, m: nat, r: nat, n: nat)
    requires r < m && n == q * m + r
    ensures n % m == r
  {
    var d, e := n / m, n % m;
    assert n == d * m + e;
    if d < q {
      ProductsApart(d, q, m);
    } else if q < d {
      ProductsApart(q, d, m);
    }
  }

  lemma WholeImages(f: nat, rows: nat, k: nat, width: nat, i: nat)
    requires k < rows && i < width
    ensures (f * rows + k) * width + i == f * (rows * width) + (k * width + i)
    ensures k * width + i < rows * width
  {
    assert (k + 1) * width <= rows * width;
  }

  /** Byte i of the line begun after f frames and k lines is byte i of row k. */
  lemma Wraps(f: nat, rows: nat, k: nat, width: nat, i: nat)
    requires k < rows && i < width
    ensures (Times(Times(f, rows) + k, width) + i) % (rows * width) == k * width + i
  {
    TimesIsProduct(f, rows);
    TimesIsProduct(f * rows + k, width);
    WholeImages(f, rows, k, width, i);
    Remainder(f, rows * width, k * width + i, (f * rows + k) * width + i);
  }

  /** Row k of the picture, which has `width` bytes a row. */
  function Row(image: seq<nat>, width: nat, k: nat): (row: seq<nat>)
    requires (k + 1) * width <= |image|
    ensures |row| == width
  {
    assert (k + 1) * width == k * width + width;
    image[k * width..(k + 1) * width]
  }

  lemma RowAt(image: seq<nat>, width: nat, k: nat, i: nat)
    requires (k + 1) * width <= |image| && i < width
    ensures k * width + i < |image| && Row(image, width, k)[i] == image[k * width + i]
  {
  }

  lemma RowInside(rows: nat, k: nat, width: nat, size: nat)
    requires k < rows && size == rows * width && width > 0
    ensures (k + 1) * width <= size && size > 0
  {
    ProductsApart(k, rows, width);
  }

  lemma OfferedInRow(image: seq<nat>, f: nat, rows: nat, k: nat, width: nat, next: nat, i: nat)
    requires k < rows && |image| == rows * width && next == Times(Times(f, rows) + k, width) && i < width
    requires (k + 1) * width <= |image|
    ensures Row(image, width, k)[i] == Offered(image, next + i)
  {
    hide Row, Times;
    Wraps(f, rows, k, width, i);
    RowAt(image, width, k, i);
  }

  lemma RowHeld(image: seq<nat>, f: nat, rows: nat, k: nat, width: nat, next: nat)
    requires k < rows && |image| == rows * width && width > 0 && next == Times(Times(f, rows) + k, width)
    ensures (k + 1) * width <= |image| && image != [] && Holds(Row(image, width, k), image, next)
  {
    hide Row, Times, Offered;
    RowInside(rows, k, width, |image|);
    forall i: nat | i < width ensures Row(image, width, k)[i] == Offered(image, next + i) {
      OfferedInRow(image, f, rows, k, width, next, i);
    }
  }

  // ----- the picture -----

  /** rgb is about to see IRQ 1. */
  lemma LineBegins(h: nat, v: nat, y: nat, s: Vga) returns (osr: nat)
    requires Ok(h, v, y, s) && s.flags.irq1 && JustRaised(s)
    ensures s.rgb == Waiting(y, osr) && Left(s.rgb) == 0 && 0 < s.given <= v + 1
  {
    osr := s.rgb.osr;
  }

  /** The row that comes on the screen: six system cycles more than ten for each byte. */
  lemma RowShown(h: nat, v: nat, y: nat, s: Scan, image: seq<nat>, row: seq<nat>, n: nat)
    requires image != [] && Ok(h, v, y, s.vga) && Fits(h, y) && s.vga.flags.irq1 && JustRaised(s.vga)
    requires |row| == y + 1 && Holds(row, image, s.next) && n == 10 * (y + 1) + 6
    ensures Unpacked(row) != [] && Pins(s, image, n) == [0] + LineShown(Unpacked(row))
  {
    hide Tick, Offered, Holds, Ok, Busy, LineShown, Play, RgbCycle;
    var osr := LineBegins(h, v, y, s.vga);
    var word, m := Offered(image, s.next), n - 1;
    RgbRuns(h, v, y, s.vga, word);
    TickKeeps(h, v, y, s.vga, word);
    Triggered(y, osr, s.vga.flags.irq0, word);
    var next, fed := ScanTick(s, image), Fed(Sm(5, y, y, osr, 3, 0), row + []);
    FedHolds(row, image, s.next);
    FedBusy(y, osr, m);
    PlayInScan(h, v, y, next, image, fed, m);
    WordsShown(row, [], y, osr, m);
  }

  lemma FedHolds(row: seq<nat>, image: seq<nat>, next: nat)
    requires image != [] && Holds(row, image, next)
    ensures Holds(row + [], image, next)
  {
    assert row + [] == row;
  }

  lemma FedBusy(y: nat, osr: nat, n: nat)
    requires n == 10 * (y + 1) + 5
    ensures Busy(Sm(5, y, y, osr, 3, 0)) == n && Left(Sm(5, y, y, osr, 3, 0)) == y + 1 &&
      RgbOk(y, Sm(5, y, y, osr, 3, 0))
  {
  }

  /** In every run, whenever rgb is about to see the (k+1)-th IRQ 1 of a frame, row k of the
      picture comes on the screen, in every frame alike: the array holds the rows of a frame. */
  lemma PictureShown(h: nat, v: nat, y: nat, hsPin: nat, vsPin: nat, image: seq<nat>, t: nat, n: nat)
    requires Fits(h, y) && |image| == (v + 1) * (y + 1) && image != [] && n == 10 * (y + 1) + 6
    ensures var s := Scanned(Scan(Start(h, v, y, hsPin, vsPin), 0), image, t);
      s.vga.flags.irq1 ==>
        && 0 < s.vga.given <= v + 1 && s.vga.given * (y + 1) <= |image|
        && var row := Row(image, y + 1, s.vga.given - 1);
          Unpacked(row) != [] && Pins(s, image, n) == [0] + LineShown(Unpacked(row))
  {
    hide Scanned, Pins, Holds, Ok, Row, LineShown, Unpacked, Left;
    var start := Scan(Start(h, v, y, hsPin, vsPin), 0);
    StartAligned(h, v, y, hsPin, vsPin);
    ScanKeeps(h, v, y, start, image, t);
    var s := Scanned(start, image, t);
    if s.vga.flags.irq1 {
      var osr := LineBegins(h, v, y, s.vga);
      var k, rows, width := s.vga.given - 1, v + 1, y + 1;
      assert s.next == Times(Times(s.vga.frames, rows) + k, width);
      RowHeld(image, s.vga.frames, rows, k, width, s.next);
      RowShown(h, v, y, s, image, Row(image, width, k), n);
    }
  }

  lemma StartAligned(h: nat, v: nat, y: nat, hsPin: nat, vsPin: nat)
    ensures Ok(h, v, y, Start(h, v, y, hsPin, vsPin)) && Aligned(v, y, Scan(Start(h, v, y, hsPin, vsPin), 0))
  {
    StartOk(h, v, y, hsPin, vsPin);
  }

  // ----- the pixels -----

  /** The pixels of row k, two to a byte. */
  function PixelRow(data: seq<Pixel>, width: nat, k: nat): seq<Pixel>
    requires 2 * ((k + 1) * width) <= |data|
  {
    assert (k + 1) * width == k * width + width;
    data[2 * (k * width)..2 * ((k + 1) * width)]
  }

  lemma RowBounds(image: seq<nat>, data: seq<Pixel>, width: nat, k: nat, a: nat, b: nat)
    requires a == k * width && b == (k + 1) * width && b <= |image| && |data| == 2 * |image|
    ensures a <= b && Row(image, width, k) == image[a..b] && PixelRow(data, width, k) == data[2 * a..2 * b]
  {
    assert (k + 1) * width == k * width + width;
  }

  lemma RowColours(data: seq<Pixel>, image: seq<nat>, width: nat, k: nat, a: nat, b: nat)
    requires Unpacked(image) == Colours(data) && a == k * width && b == (k + 1) * width && b <= |image|
    ensures |data| == 2 * |image| && Unpacked(Row(image, width, k)) == Colours(PixelRow(data, width, k))
  {
    hide Row, PixelRow, Unpacked, Colours;
    UnpackedLength(image);
    ColoursLength(data);
    RowBounds(image, data, width, k, a, b);
    UnpackedPart(image, a, b);
    ColoursPart(data, 2 * a, 2 * b);
  }

  /** From the pixels of an image to the screen: packed, its row k comes out in every frame on
      the line the (k+1)-th IRQ 1 begins, pixel after pixel. */
  lemma ImageShown(h: nat, v: nat, y: nat, hsPin: nat, vsPin: nat, data: seq<Pixel>, image: seq<nat>, t: nat, n: nat)
    requires Fits(h, y) && |image| == (v + 1) * (y + 1) && image != [] && n == 10 * (y + 1) + 6
    requires Unpacked(image) == Colours(data)
    ensures var s := Scanned(Scan(Start(h, v, y, hsPin, vsPin), 0), image, t);
      s.vga.flags.irq1 ==>
        && 0 < s.vga.given <= v + 1 && 2 * (s.vga.given * (y + 1)) <= |data|
        && var row := PixelRow(data, y + 1, s.vga.given - 1);
          Colours(row) != [] && Pins(s, image, n) == [0] + LineShown(Colours(row))
  {
    hide Scanned, Pins, Row, PixelRow, LineShown, Unpacked, Colours;
    PictureShown(h, v, y, hsPin, vsPin, image, t, n);
    var s := Scanned(Scan(Start(h, v, y, hsPin, vsPin), 0), image, t);
    if s.vga.flags.irq1 {
      var k, width := s.vga.given - 1, y + 1;
      RowColours(data, image, width, k, k * width, (k + 1) * width);
    }
  }
}
