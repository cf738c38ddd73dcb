/**
 Pixels: the packing of two pixels into a byte (img_to_vga.py, `main` and `flag`) and what
 the rgb program (include/rgb.pio.h) shows of the bytes it is fed.
 */
module PixelStream {
  import opened Pio
  import opened VgaTiming

  // ----- packing -----

  datatype Pixel = Pixel(r: nat, g: nat, b: nat, a: nat)

  function Bit(level: nat): nat { if level > 127 then 1 else 0 }

  /** The three colour bits: red, green and blue, each set from half its range on. */
  function Colour(p: Pixel): (c: nat)
    ensures c < 8
  {
    (if p.r >= 128 then 1 else 0) + (if p.g >= 128 then 2 else 0) + (if p.b >= 128 then 4 else 0)
  }

  /** The byte for two pixels: six bits side by side. */
  function PackPair(p: Pixel, q: Pixel): nat {
    Bit(p.r) + 2 * Bit(p.g) + 4 * Bit(p.b) + 8 * Bit(q.r) + 16 * Bit(q.g) + 32 * Bit(q.b)
  }

  /** The packed image, or the failure of the second index when a pixel has no partner. */
  datatype Image = Bytes(bytes: seq<nat>) | IndexError

  function Colours(data: seq<Pixel>): seq<nat> {
    if data == [] then [] else Colours(data[..|data| - 1]) + [Colour(data[|data| - 1])]
  }

  function Low(word: nat): nat { word % 8 }

  function High(word: nat): nat { word / 8 % 8 }

  /** The colours in a row of words. */
  function Unpacked(words: seq<nat>): seq<nat> {
    if words == [] then [] else Unpacked(words[..|words| - 1]) + [Low(words[|words| - 1]), High(words[|words| - 1])]
  }

  lemma PairUnpacks(p: Pixel, q: Pixel)
    ensures Low(PackPair(p, q)) == Colour(p) && High(PackPair(p, q)) == Colour(q)
  {
    assert PackPair(p, q) == Colour(p) + 8 * Colour(q);
    TwoDigits(Colour(p), Colour(q));
  }

  lemma TwoDigits(a: nat, b: nat)
    requires a < 8 && b < 8
    ensures (a + 8 * b) % 8 == a && (a + 8 * b) / 8 % 8 == b
  {
  }

  /** The packing loop: the bytes hold exactly the thresholded colours, in order; an image
      with an odd number of pixels fails. */
  method Pack(data: seq<Pixel>) returns (image: Image)
    ensures image.IndexError? <==> |data| % 2 == 1
    ensures image.Bytes? ==> Unpacked(image.bytes) == Colours(data)
  {
    var arr: seq<nat> := [];
    var i := 0;
    while i < |data|
      invariant i <= |data| && i % 2 == 0 && Unpacked(arr) == Colours(data[..i])
    {
      if i + 1 == |data| { return IndexError; }
      PairUnpacks(data[i], data[i + 1]);
      ColoursNext(data, i);
      arr := arr + [PackPair(data[i], data[i + 1])];
      i := i + 2;
    }
    assert data[..i] == data;
    image := Bytes(arr);
  }

  lemma ColoursNext(data: seq<Pixel>, i: nat)
    requires i + 1 < |data|
    ensures Colours(data[..i + 2]) == Colours(data[..i]) + [Colour(data[i]), Colour(data[i + 1])]
  {
    assert data[..i + 2][..i + 1] == data[..i + 1] && data[..i + 1][..i] == data[..i];
  }

  // ----- parts of an image -----

  lemma {:induction false} UnpackedLength(words: seq<nat>)
    ensures |Unpacked(words)| == 2 * |words|
  {
    if words != [] { UnpackedLength(words[..|words| - 1]); }
  }

  lemma {:induction false} UnpackedFront(words: seq<nat>, b: nat)
    requires b <= |words|
    ensures |Unpacked(words)| == 2 * |words| && Unpacked(words[..b]) == Unpacked(words)[..2 * b]
  {
    UnpackedLength(words);
    if b == |words| {
      assert words[..b] == words;
    } else {
      var n := |words| - 1;
      UnpackedFront(words[..n], b);
      assert words[..n][..b] == words[..b];
    }
  }

  lemma {:induction false} UnpackedPart(words: seq<nat>, a: nat, b: nat)
    requires a <= b <= |words|
    ensures |Unpacked(words)| == 2 * |words| && Unpacked(words[a..b]) == Unpacked(words)[2 * a..2 * b]
    decreases b
  {
    UnpackedLength(words);
    if a < b {
      var n := b - 1;
      UnpackedPart(words, a, n);
      assert words[a..b][..n - a] == words[a..n];
      UnpackedFront(words, b);
      assert words[..b][..n] == words[..n];
      UnpackedFront(words, n);
      assert Unpacked(words[..b]) == Unpacked(words[..n]) + [Low(words[n]), High(words[n])];
      Ends(Unpacked(words), 2 * a, 2 * n, Low(words[n]), High(words[n]));
    }
  }

  lemma Ends(s: seq<nat>, a: nat, n: nat, x: nat, y: nat)
    requires a <= n && n + 2 <= |s| && s[..n + 2] == s[..n] + [x, y]
    ensures s[a..n] + [x, y] == s[a..n + 2]
  {
    assert s[a..n + 2] == s[..n + 2][a..];
  }

  lemma {:induction false} ColoursLength(data: seq<Pixel>)
    ensures |Colours(data)| == |data|
  {
    if data != [] { ColoursLength(data[..|data| - 1]); }
  }

  lemma {:induction false} ColourAt(data: seq<Pixel>, i: nat)
    requires i < |data|
    ensures |Colours(data)| == |data| && Colours(data)[i] == Colour(data[i])
  {
    ColoursLength(data);
    var n := |data| - 1;
    if i < n { ColourAt(data[..n], i); }
  }

  lemma ColoursPart(data: seq<Pixel>, a: nat, b: nat)
    requires a <= b <= |data|
    ensures |Colours(data)| == |data| && Colours(data[a..b]) == Colours(data)[a..b]
  {
    ColoursLength(data);
    ColoursLength(data[a..b]);
    forall i: nat | i < b - a ensures Colours(data[a..b])[i] == Colours(data)[a + i] {
      ColourAt(data[a..b], i);
      ColourAt(data, a + i);
    }
  }

  // ----- the rgb machine fed -----

  const CLEAR := Flags(false, false)

  /** The machine, and the words the FIFO still holds. */
  datatype Fed = Fed(sm: Sm, fifo: seq<nat>)

  /** One cycle; a pull takes a word, or stalls when there is none. */
  function FedCycle(s: Fed): Fed {
    if s.sm.pc == 5 && s.sm.delay == 0 then
      if s.fifo == [] then s else Fed(RgbCycle(s.sm, CLEAR, s.fifo[0]).sm, s.fifo[1..])
    else Fed(RgbCycle(s.sm, CLEAR, 0).sm, s.fifo)
  }

  /** What is shown in `n` cycles, and the state then. */
  datatype Played = Played(shown: seq<nat>, end: Fed)

  function Play(s: Fed, n: nat): Played
    decreases n
  {
    if n == 0 then Played([], s) else
      var next := FedCycle(s);
      var rest := Play(next, n - 1);
      Played([next.sm.pins] + rest.shown, rest.end)
  }

  /** `n` cycles of one colour. */
  function Hold(colour: nat, n: nat): seq<nat> { seq(n, _ => colour) }

  lemma {:induction false} PlayJoin(s: Fed, a: nat, b: nat, n: nat)
    requires n == a + b
    ensures var p := Play(s, a); var q := Play(p.end, b);
      Play(s, n) == Played(p.shown + q.shown, q.end)
    decreases a
  {
    hide FedCycle;
    if a > 0 { PlayJoin(FedCycle(s), a - 1, b, n - 1); }
  }

  lemma DelayCycle(s: Fed)
    requires s.sm.delay > 0
    ensures FedCycle(s) == s.(sm := s.sm.(delay := s.sm.delay - 1))
  {
  }

  lemma {:induction false} PlayDelay(s: Fed, d: nat)
    requires s.sm.delay == d
    ensures Play(s, d) == Played(Hold(s.sm.pins, d), s.(sm := s.sm.(delay := 0)))
    decreases d
  {
    if d > 0 {
      DelayCycle(s);
      PlayDelay(FedCycle(s), d - 1);
      assert [s.sm.pins] + Hold(s.sm.pins, d - 1) == Hold(s.sm.pins, d);
    }
  }

  /** An instruction and its delay cycles. */
  lemma PlayInstr(s: Fed, next: Fed, d: nat, n: nat)
    requires next == FedCycle(s) && next.sm.delay == d && n == d + 1
    ensures Play(s, n) == Played(Hold(next.sm.pins, n), next.(sm := next.sm.(delay := 0)))
  {
    PlayDelay(next, d);
    assert [next.sm.pins] + Hold(next.sm.pins, d) == Hold(next.sm.pins, n);
  }

  // ----- a word -----

  /** The colour before word `k`: black, or the second pixel of the word before. */
  function Before(words: seq<nat>, k: nat): nat
    requires k <= |words|
  {
    if k == 0 then 0 else High(words[k - 1])
  }

  /** What is shown from the pull of a word to the jump behind its second pixel. */
  function WordShown(before: nat, w: nat): seq<nat> { [before] + Hold(Low(w), 5) + Hold(High(w), 4) }

  /** At the pull, with the counter at `x`. */
  function AtPull(x: nat, y: nat, osr: nat, pins: nat): Sm { Sm(5, x, y, osr, 0, pins) }

  /** Behind the jump: back at the pull, or on to the end of the line. */
  function BehindJump(x: nat, y: nat, osr: nat, pins: nat): Sm {
    if x > 0 then AtPull(x - 1, y, osr, pins) else Sm(2, Decrement(0), y, osr, 0, pins)
  }

  lemma PlayPull(x: nat, y: nat, osr: nat, pins: nat, fifo: seq<nat>)
    requires fifo != []
    ensures Play(Fed(AtPull(x, y, osr, pins), fifo), 1) ==
      Played(Hold(pins, 1), Fed(Sm(6, x, y, fifo[0], 0, pins), fifo[1..]))
  {
    PlayInstr(Fed(AtPull(x, y, osr, pins), fifo), Fed(Sm(6, x, y, fifo[0], 0, pins), fifo[1..]), 0, 1);
  }

  lemma PlayFirst(x: nat, y: nat, w: nat, pins: nat, fifo: seq<nat>, n: nat)
    requires n == 5
    ensures Play(Fed(Sm(6, x, y, w, 0, pins), fifo), n) ==
      Played(Hold(Low(w), n), Fed(Sm(7, x, y, w / 8, 0, Low(w)), fifo))
  {
    PlayInstr(Fed(Sm(6, x, y, w, 0, pins), fifo), Fed(Sm(7, x, y, w / 8, 4, Low(w)), fifo), 4, n);
  }

  lemma PlaySecond(x: nat, y: nat, osr: nat, pins: nat, fifo: seq<nat>, n: nat)
    requires n == 3
    ensures Play(Fed(Sm(7, x, y, osr, 0, pins), fifo), n) ==
      Played(Hold(Low(osr), n), Fed(Sm(8, x, y, osr / 8, 0, Low(osr)), fifo))
  {
    PlayInstr(Fed(Sm(7, x, y, osr, 0, pins), fifo), Fed(Sm(8, x, y, osr / 8, 2, Low(osr)), fifo), 2, n);
  }

  lemma PlayJump(x: nat, y: nat, osr: nat, pins: nat, fifo: seq<nat>)
    ensures Play(Fed(Sm(8, x, y, osr, 0, pins), fifo), 1) ==
      Played(Hold(pins, 1), Fed(BehindJump(x, y, osr, pins), fifo))
  {
    PlayInstr(Fed(Sm(8, x, y, osr, 0, pins), fifo), Fed(BehindJump(x, y, osr, pins), fifo), 0, 1);
  }

  /** A word takes ten cycles. */
  lemma PlayWord(x: nat, y: nat, osr: nat, pins: nat, fifo: seq<nat>, n: nat)
    requires fifo != [] && n == 10
    ensures var w := fifo[0];
      Play(Fed(AtPull(x, y, osr, pins), fifo), n) ==
      Played(WordShown(pins, w), Fed(BehindJump(x, y, w / 8 / 8, High(w)), fifo[1..]))
  {
    var w, rest := fifo[0], fifo[1..];
    var one, five, three, six, nine := 1, 5, 3, 6, 9;
    PlayPull(x, y, osr, pins, fifo);
    PlayFirst(x, y, w, pins, rest, five);
    PlaySecond(x, y, w / 8, Low(w), rest, three);
    PlayJump(x, y, w / 8 / 8, High(w), rest);
    var s := Fed(AtPull(x, y, osr, pins), fifo);
    PlayJoin(s, one, five, six);
    PlayJoin(s, six, three, nine);
    PlayJoin(s, nine, one, n);
    assert Hold(pins, 1) + Hold(Low(w), 5) + Hold(High(w), 3) + Hold(High(w), 1) == WordShown(pins, w);
  }

  // ----- a line -----

  /** What is shown of the first `k` words. */
  function Shown(words: seq<nat>, k: nat): seq<nat>
    requires k <= |words|
  {
    if k == 0 then [] else Shown(words, k - 1) + WordShown(Before(words, k - 1), words[k - 1])
  }

  /** The machine behind the first `k` words of a line. */
  function Behind(words: seq<nat>, k: nat, y: nat, osr: nat): Sm
    requires k <= |words| && words != []
  {
    if k == 0 then AtPull(|words| - 1, y, osr, 0)
    else BehindJump(|words| - k, y, words[k - 1] / 8 / 8, High(words[k - 1]))
  }

  lemma BehindAtPull(words: seq<nat>, k: nat, y: nat, osr: nat) returns (osr1: nat)
    requires k < |words|
    ensures Behind(words, k, y, osr) == AtPull(|words| - 1 - k, y, osr1, Before(words, k))
  {
    osr1 := if k == 0 then osr else words[k - 1] / 8 / 8;
  }

  lemma PlayNextWord(words: seq<nat>, more: seq<nat>, j: nat, k: nat, y: nat, osr: nat, n: nat)
    requires k == j + 1 <= |words| && n == 10
    ensures Play(Fed(Behind(words, j, y, osr), words[j..] + more), n) ==
      Played(WordShown(Before(words, j), words[j]), Fed(Behind(words, k, y, osr), words[k..] + more))
  {
    var osr1 := BehindAtPull(words, j, y, osr);
    var fifo := words[j..] + more;
    assert fifo[0] == words[j] && fifo[1..] == words[k..] + more;
    PlayWord(|words| - k, y, osr1, Before(words, j), fifo, n);
  }

  lemma {:induction false} PlayWords(words: seq<nat>, more: seq<nat>, k: nat, y: nat, osr: nat, n: nat)
    requires words != [] && k <= |words| && n == 10 * k
    ensures Play(Fed(Behind(words, 0, y, osr), words[0..] + more), n) ==
      Played(Shown(words, k), Fed(Behind(words, k, y, osr), words[k..] + more))
    decreases k
  {
    if k > 0 {
      var j, m, ten := k - 1, n - 10, 10;
      PlayWords(words, more, j, y, osr, m);
      PlayNextWord(words, more, j, k, y, osr, ten);
      PlayJoin(Fed(Behind(words, 0, y, osr), words[0..] + more), m, ten, n);
    }
  }

  /** Waiting for IRQ 1, with the counter loaded. */
  function Waiting(y: nat, osr: nat): Sm { Sm(4, y, y, osr, 0, 0) }

  lemma PlayEnd(x: nat, y: nat, osr: nat, pins: nat, fifo: seq<nat>, n: nat)
    requires n == 2
    ensures Play(Fed(Sm(2, x, y, osr, 0, pins), fifo), n) == Played(Hold(0, n), Fed(Waiting(y, osr), fifo))
  {
    var one := 1;
    PlayInstr(Fed(Sm(2, x, y, osr, 0, pins), fifo), Fed(Sm(3, x, y, osr, 0, 0), fifo), 0, one);
    PlayInstr(Fed(Sm(3, x, y, osr, 0, 0), fifo), Fed(Waiting(y, osr), fifo), 0, one);
    PlayJoin(Fed(Sm(2, x, y, osr, 0, pins), fifo), one, one, n);
    assert Hold(0, 1) + Hold(0, 1) == Hold(0, n);
  }

  /** The cycle in which the machine sees IRQ 1. */
  lemma Triggered(y: nat, osr: nat, irq0: bool, word: nat)
    ensures RgbCycle(Waiting(y, osr), Flags(irq0, true), word) == Cycle(Sm(5, y, y, osr, 3, 0), Clears(1))
  {
  }

  /** From IRQ 1 on a line of words is shown, and then the machine waits again, black. */
  lemma PlayLine(words: seq<nat>, more: seq<nat>, y: nat, osr: nat, n: nat)
    requires |words| == y + 1 && n == 10 * (y + 1) + 5
    ensures var p := Play(Fed(Sm(5, y, y, osr, 3, 0), words + more), n);
      && p.shown == Hold(0, 3) + Shown(words, |words|) + Hold(0, 2)
      && p.end == Fed(Waiting(y, words[y] / 8 / 8), more)
  {
    hide Play, FedCycle, Shown;
    var s := Fed(Sm(5, y, y, osr, 3, 0), words + more);
    var three, two, m, k := 3, 2, 10 * (y + 1), |words|;
    PlayDelay(s, three);
    PlayWords(words, more, k, y, osr, m);
    assert words[0..] == words && words[k..] + more == more;
    PlayEnd(Decrement(0), y, words[y] / 8 / 8, High(words[y]), more, two);
    PlayJoin(s, three, m, m + 3);
    PlayJoin(s, m + 3, two, n);
  }

  // ----- the pixels -----

  /** Every colour for five cycles. */
  function Held(colours: seq<nat>): (r: seq<nat>)
    ensures |r| == 5 * |colours|
  {
    if colours == [] then [] else Held(colours[..|colours| - 1]) + Hold(colours[|colours| - 1], 5)
  }

  lemma HeldTwo(colours: seq<nat>, a: nat, b: nat)
    ensures Held(colours + [a, b]) == Held(colours) + Hold(a, 5) + Hold(b, 5)
  {
    assert (colours + [a, b])[..|colours| + 1] == colours + [a];
    assert (colours + [a])[..|colours|] == colours;
  }

  lemma Regroup(s: seq<nat>, before: nat, held: seq<nat>, w: nat)
    requires s + [before] == [0] + held
    ensures s + WordShown(before, w) + [High(w)] == [0] + (held + Hold(Low(w), 5) + Hold(High(w), 5))
  {
    assert Hold(High(w), 4) + [High(w)] == Hold(High(w), 5);
    assert s + WordShown(before, w) + [High(w)] == (s + [before]) + Hold(Low(w), 5) + (Hold(High(w), 4) + [High(w)]);
  }

  /** Words show their pixels in order, five cycles each, the one at the end one cycle less. */
  lemma {:induction false} ShownIs(words: seq<nat>, k: nat)
    requires k <= |words|
    ensures Shown(words, k) + [Before(words, k)] == [0] + Held(Unpacked(words[..k]))
  {
    if k > 0 {
      var w, front := words[k - 1], words[..k - 1];
      ShownIs(words, k - 1);
      assert words[..k][..k - 1] == front;
      HeldTwo(Unpacked(front), Low(w), High(w));
      Regroup(Shown(words, k - 1), Before(words, k - 1), Held(Unpacked(front)), w);
    }
  }

  lemma ShownLong(words: seq<nat>, k: nat)
    requires 0 < k <= |words|
    ensures |Shown(words, k)| > 0
  {
    assert |WordShown(Before(words, k - 1), words[k - 1])| > 0;
  }

  lemma Blacker(n: nat, m: nat)
    requires m == n + 1
    ensures Hold(0, n) + [0] == Hold(0, m)
  {
  }

  lemma CutLast(s: seq<nat>, c: nat, held: seq<nat>, n: nat, m: nat)
    requires s + [c] == [0] + held && |s| > 0 && m == n + 1
    ensures held != [] && Hold(0, n) + s == Hold(0, m) + held[..|held| - 1]
  {
    assert |s + [c]| == |s| + 1 && |[0] + held| == |held| + 1;
    var cut := held[..|held| - 1];
    assert s == (s + [c])[..|s|] == [0] + cut;
    Blacker(n, m);
    assert Hold(0, n) + ([0] + cut) == (Hold(0, n) + [0]) + cut;
  }

  /** What is shown from the cycle behind the one that sees IRQ 1 on: four black cycles, every
      colour for five, the last for four, and black. */
  function LineShown(colours: seq<nat>): seq<nat>
    requires colours != []
  {
    Hold(0, 4) + Held(colours)[..|Held(colours)| - 1] + Hold(0, 2)
  }

  /** The words of a line come out as the colours in them, and then the machine waits for
      IRQ 1, black. */
  lemma WordsShown(words: seq<nat>, more: seq<nat>, y: nat, osr: nat, n: nat)
    requires |words| == y + 1 && n == 10 * (y + 1) + 5
    ensures var p := Play(Fed(Sm(5, y, y, osr, 3, 0), words + more), n);
      && Unpacked(words) != [] && p.shown == LineShown(Unpacked(words))
      && p.end == Fed(Waiting(y, words[y] / 8 / 8), more)
  {
    hide Play, Shown;
    var k := |words|;
    var held := Held(Unpacked(words));
    PlayLine(words, more, y, osr, n);
    assert words[..k] == words;
    ShownIs(words, k);
    ShownLong(words, k);
    CutLast(Shown(words, k), Before(words, k), held, 3, 4);
  }

  /** A row of pixels packed into the words of a line comes out as its thresholded colours,
      in order. */
  lemma PixelsShown(row: seq<Pixel>, words: seq<nat>, more: seq<nat>, y: nat, osr: nat, n: nat)
    requires Unpacked(words) == Colours(row) && |words| == y + 1 && n == 10 * (y + 1) + 5
    ensures Colours(row) != []
    ensures var p := Play(Fed(RgbCycle(Waiting(y, osr), Flags(false, true), 0).sm, words + more), n);
      p.shown == LineShown(Colours(row)) && p.end == Fed(Waiting(y, words[y] / 8 / 8), more)
  {
    hide Play;
    Triggered(y, osr, false, 0);
    WordsShown(words, more, y, osr, n);
  }
}
