/**
 The reordering of short blocks (include/dr_mp3.h, `drmp3_L3_reorder`): in every band the
 lines of the three windows, which were coded window after window, are interleaved.
 */
module Reorder {

  /** Three windows of a band, interleaved. */
  function Weave<T>(a: seq<T>, b: seq<T>, c: seq<T>): (r: seq<T>)
    requires |a| == |b| == |c|
    ensures |r| == 3 * |a|
  {
    if a == [] then [] else
      var n := |a| - 1;
      Weave(a[..n], b[..n], c[..n]) + [a[n], b[n], c[n]]
  }

  /** Line `i` of window `w` goes to place `3 * i + w`. */
  lemma {:induction false} WeaveAt<T>(a: seq<T>, b: seq<T>, c: seq<T>, i: nat)
    requires |a| == |b| == |c| && i < |a|
    ensures var r := Weave(a, b, c); r[3 * i] == a[i] && r[3 * i + 1] == b[i] && r[3 * i + 2] == c[i]
  {
    var n := |a| - 1;
    if i < n { WeaveAt(a[..n], b[..n], c[..n], i); }
  }

  /** Every third element, from `w` on. */
  function Strand<T>(s: seq<T>, n: nat, w: nat): (r: seq<T>)
    requires 3 * n <= |s| && w < 3
    ensures |r| == n
  {
    if n == 0 then [] else Strand(s, n - 1, w) + [s[3 * (n - 1) + w]]
  }

  lemma {:induction false} StrandIs<T>(s: seq<T>, n: nat, w: nat, a: seq<T>)
    requires 3 * n <= |s| && w < 3 && |a| == n
    requires forall i: nat | i < n :: s[3 * i + w] == a[i]
    ensures Strand(s, n, w) == a
  {
    if n > 0 {
      var m := n - 1;
      assert forall i: nat | i < m :: a[..m][i] == a[i];
      StrandIs(s, m, w, a[..m]);
      assert s[3 * m + w] == a[m];
    }
  }

  lemma WeaveBefore<T>(a: seq<T>, b: seq<T>, c: seq<T>, rest: seq<T>, r: seq<T>, i: nat)
    requires |a| == |b| == |c| && i < |a| && r == Weave(a, b, c) + rest
    ensures r[3 * i] == a[i] && r[3 * i + 1] == b[i] && r[3 * i + 2] == c[i]
  {
    hide Weave;
    WeaveAt(a, b, c, i);
  }

  lemma StrandOfWeave<T>(a: seq<T>, b: seq<T>, c: seq<T>, rest: seq<T>)
    requires |a| == |b| == |c|
    ensures var r := Weave(a, b, c) + rest; Strand(r, |a|, 0) == a && Strand(r, |a|, 1) == b && Strand(r, |a|, 2) == c
  {
    hide Weave, Strand;
    var r := Weave(a, b, c) + rest;
    forall i: nat | i < |a| ensures r[3 * i + 0] == a[i] && r[3 * i + 1] == b[i] && r[3 * i + 2] == c[i] {
      WeaveBefore(a, b, c, rest, r, i);
    }
    StrandIs(r, |a|, 0, a);
    StrandIs(r, |a|, 1, b);
    StrandIs(r, |a|, 2, c);
  }

  // ----- the bands -----

  /** Every third width of the table up to its terminator: a band's three windows are
      equally wide. */
  function Widths(sfb: seq<nat>, p: nat): seq<nat>
    requires Terminated(sfb, p)
    decreases |sfb| - p
  {
    if sfb[p] == 0 then [] else [sfb[p]] + Widths(sfb, p + 3)
  }

  predicate Terminated(sfb: seq<nat>, p: nat)
    decreases |sfb| - p
  {
    p < |sfb| && (sfb[p] == 0 || Terminated(sfb, p + 3))
  }

  /** The lines of all bands and windows. */
  function Lines(widths: seq<nat>): nat {
    if widths == [] then 0 else 3 * widths[0] + Lines(widths[1..])
  }

  function Band<T>(s: seq<T>, len: nat): seq<T>
    requires 3 * len <= |s|
  {
    Weave(s[..len], s[len..2 * len], s[2 * len..3 * len])
  }

  /** All bands interleaved, the rest as it was. */
  function Reordered<T>(s: seq<T>, widths: seq<nat>): (r: seq<T>)
    requires Lines(widths) <= |s|
    ensures |r| == |s|
    decreases |widths|
  {
    if widths == [] then s else
      var n := 3 * widths[0];
      Band(s, widths[0]) + Reordered(s[n..], widths[1..])
  }

  /** The bands taken apart again. */
  function Restored<T>(s: seq<T>, widths: seq<nat>): (r: seq<T>)
    requires Lines(widths) <= |s|
    ensures |r| == |s|
    decreases |widths|
  {
    if widths == [] then s else
      var len := widths[0];
      Strand(s, len, 0) + Strand(s, len, 1) + Strand(s, len, 2) + Restored(s[3 * len..], widths[1..])
  }

  lemma Behind<T>(a: seq<T>, b: seq<T>, n: nat)
    requires n == |a|
    ensures (a + b)[n..] == b && (a + b)[..n] == a
  {
  }

  lemma Thirds<T>(s: seq<T>, n: nat)
    requires 3 * n <= |s|
    ensures s[..n] + s[n..2 * n] + s[2 * n..3 * n] + s[3 * n..] == s
  {
  }

  lemma BandRestored<T>(s: seq<T>, len: nat, more: seq<T>, n: nat)
    requires 3 * len == n <= |s|
    ensures var r := Band(s, len) + more;
      r[n..] == more && Strand(r, len, 0) + Strand(r, len, 1) + Strand(r, len, 2) + s[n..] == s
  {
    StrandOfWeave(s[..len], s[len..2 * len], s[2 * len..3 * len], more);
    Behind(Band(s, len), more, n);
    Thirds(s, len);
  }

  /** Nothing is lost: taking the bands apart gives back what went in. */
  lemma {:induction false} ReorderingRestored<T>(s: seq<T>, widths: seq<nat>)
    requires Lines(widths) <= |s|
    ensures Restored(Reordered(s, widths), widths) == s
    decreases |widths|
  {
    if widths != [] {
      var n := 3 * widths[0];
      ReorderingRestored(s[n..], widths[1..]);
      BandRestored(s, widths[0], Reordered(s[n..], widths[1..]), n);
    }
  }

  lemma {:induction false} WeaveOfStrands<T>(s: seq<T>, n: nat)
    requires 3 * n <= |s|
    ensures Weave(Strand(s, n, 0), Strand(s, n, 1), Strand(s, n, 2)) == s[..3 * n]
  {
    if n > 0 { WeaveOfStrands(s, n - 1); }
  }

  lemma ApartThirds<T>(a: seq<T>, b: seq<T>, c: seq<T>, rest: seq<T>, len: nat, n: nat)
    requires |a| == |b| == |c| == len && n == 3 * len
    ensures var r := a + b + c + rest; r[..len] == a && r[len..2 * len] == b && r[2 * len..n] == c && r[n..] == rest
  {
  }

  lemma BandReordered<T>(s: seq<T>, len: nat, more: seq<T>, n: nat)
    requires 3 * len == n <= |s|
    ensures var r := Strand(s, len, 0) + Strand(s, len, 1) + Strand(s, len, 2) + more;
      r[n..] == more && Band(r, len) == s[..n]
  {
    ApartThirds(Strand(s, len, 0), Strand(s, len, 1), Strand(s, len, 2), more, len, n);
    WeaveOfStrands(s, len);
  }

  /** And everything is reached: reordering is a bijection. */
  lemma {:induction false} RestoringReordered<T>(s: seq<T>, widths: seq<nat>)
    requires Lines(widths) <= |s|
    ensures Reordered(Restored(s, widths), widths) == s
    decreases |widths|
  {
    if widths != [] {
      var n := 3 * widths[0];
      RestoringReordered(s[n..], widths[1..]);
      BandReordered(s, widths[0], Restored(s[n..], widths[1..]), n);
      assert s[..n] + s[n..] == s;
    }
  }

  // ----- the places -----

  /** Where band `k` starts. */
  function Base(widths: seq<nat>, k: nat): nat
    requires k <= |widths|
  {
    if k == 0 then 0 else 3 * widths[0] + Base(widths[1..], k - 1)
  }

  /** Line `i` of each window of a band goes from place `w * len + i` to place `3 * i + w`. */
  predicate Placed<T(==)>(s: seq<T>, r: seq<T>, base: nat, len: nat, i: nat) {
    && base + 3 * len <= |s| == |r| && i < len
    && r[base + 3 * i] == s[base + i] && r[base + 3 * i + 1] == s[base + len + i]
    && r[base + 3 * i + 2] == s[base + 2 * len + i]
  }

  lemma PlacedHere<T>(s: seq<T>, len: nat, more: seq<T>, i: nat)
    requires 3 * len <= |s| && |more| == |s| - 3 * len && i < len
    ensures Placed(s, Band(s, len) + more, 0, len, i)
  {
    WeaveAt(s[..len], s[len..2 * len], s[2 * len..3 * len], i);
  }

  lemma PlacedThere<T>(s: seq<T>, front: seq<T>, more: seq<T>, n: nat, base1: nat, base: nat, len: nat, i: nat)
    requires n == |front| <= |s| && Placed(s[n..], more, base1, len, i) && base == n + base1
    ensures Placed(s, front + more, base, len, i)
  {
  }

  /** So all lines of all bands are placed. */
  lemma {:induction false} ReorderedAt<T>(s: seq<T>, widths: seq<nat>, k: nat, i: nat)
    requires Lines(widths) <= |s| && k < |widths| && i < widths[k]
    ensures Placed(s, Reordered(s, widths), Base(widths, k), widths[k], i)
    decreases |widths|
  {
    var n := 3 * widths[0];
    var more := Reordered(s[n..], widths[1..]);
    if k == 0 {
      PlacedHere(s, widths[0], more, i);
    } else {
      ReorderedAt(s[n..], widths[1..], k - 1, i);
      PlacedThere(s, Band(s, widths[0]), more, n, Base(widths[1..], k - 1), Base(widths, k), widths[k], i);
    }
  }

  /** Behind the bands nothing is touched. */
  lemma {:induction false} ReorderedBeyond<T>(s: seq<T>, widths: seq<nat>)
    requires Lines(widths) <= |s|
    ensures Reordered(s, widths)[Lines(widths)..] == s[Lines(widths)..]
    decreases |widths|
  {
    if widths != [] {
      var n, m := 3 * widths[0], Lines(widths[1..]);
      var more := Reordered(s[n..], widths[1..]);
      ReorderedBeyond(s[n..], widths[1..]);
      assert (Band(s, widths[0]) + more)[n + m..] == more[m..];
      assert s[n..][m..] == s[n + m..];
    }
  }

  // ----- the method -----

  method Put(scratch: array<real>, p: nat, a: real, b: real, c: real)
    requires p + 3 <= scratch.Length
    modifies scratch
    ensures scratch[..p + 3] == old(scratch[..p]) + [a, b, c]
  {
    scratch[p] := a;
    scratch[p + 1] := b;
    scratch[p + 2] := c;
    assert scratch[..p] == old(scratch[..p]);
  }

  lemma WeaveNext<T>(a: seq<T>, b: seq<T>, c: seq<T>, i: nat, j: nat)
    requires |a| == |b| == |c| && i < |a| && j == i + 1
    ensures Weave(a[..j], b[..j], c[..j]) == Weave(a[..i], b[..i], c[..i]) + [a[i], b[i], c[i]]
  {
    assert a[..j][..i] == a[..i] && b[..j][..i] == b[..i] && c[..j][..i] == c[..i];
  }

  /** The first `i` lines of each of the three windows of the band at the front of `s`. */
  function Woven<T>(s: seq<T>, len: nat, i: nat): seq<T>
    requires i <= len && 3 * len <= |s|
  {
    Weave(s[..len][..i], s[len..2 * len][..i], s[2 * len..3 * len][..i])
  }

  lemma WovenNext<T>(s: seq<T>, len: nat, i: nat, j: nat)
    requires i < len && j == i + 1 && 3 * len <= |s|
    ensures Woven(s, len, j) == Woven(s, len, i) + [s[i], s[len + i], s[2 * len + i]]
  {
    hide Weave;
    WeaveNext(s[..len], s[len..2 * len], s[2 * len..3 * len], i, j);
  }

  lemma WovenEnds<T>(s: seq<T>, len: nat)
    requires 3 * len <= |s|
    ensures Woven(s, len, 0) == [] && Woven(s, len, len) == Band(s, len)
  {
    var a, b, c := s[..len], s[len..2 * len], s[2 * len..3 * len];
    assert a[..len] == a && b[..len] == b && c[..len] == c;
  }

  /** Three more lines behind those that are done. */
  lemma Behind3<T>(front: seq<T>, woven: seq<T>, before: seq<T>, x: T, y: T, z: T)
    requires before == front + woven
    ensures before + [x, y, z] == front + (woven + [x, y, z])
  {
  }

  /** One band to the scratch buffer. */
  method ReorderBand(grbuf: array<real>, src: nat, len: nat, scratch: array<real>, dst: nat) returns (end: nat)
    requires src + 3 * len <= grbuf.Length && dst + 3 * len <= scratch.Length && grbuf != scratch
    modifies scratch
    ensures end == dst + 3 * len && scratch[..end] == old(scratch[..dst]) + Band(grbuf[src..], len)
  {
    hide Weave, Woven, Band;
    end := dst;
    ghost var s, front := grbuf[src..], scratch[..dst];
    WovenEnds(s, len);
    var i := 0;
    while i < len
      invariant i <= len && end == dst + 3 * i && s == grbuf[src..]
      invariant scratch[..end] == front + Woven(s, len, i)
    {
      var x, y, z := grbuf[src + i], grbuf[src + len + i], grbuf[src + 2 * len + i];
      ghost var j := i + 1;
      WovenNext(s, len, i, j);
      Behind3(front, Woven(s, len, i), scratch[..end], x, y, z);
      Put(scratch, end, x, y, z);
      i, end := i + 1, end + 3;
    }
  }

  lemma ReorderedStep<T>(goal: seq<T>, done: seq<T>, rest: seq<T>, widths: seq<nat>, n: nat)
    requires Lines(widths) <= |rest| && widths != [] && n == 3 * widths[0]
    requires goal == done + Reordered(rest, widths)
    ensures Lines(widths[1..]) <= |rest| - n &&
      goal == (done + Band(rest, widths[0])) + Reordered(rest[n..], widths[1..])
  {
    var band, more := Band(rest, widths[0]), Reordered(rest[n..], widths[1..]);
    assert done + (band + more) == (done + band) + more;
  }

  /** The first `d` lines from `at` on overwritten with the scratch buffer. */
  method CopyBack(grbuf: array<real>, at: nat, scratch: array<real>, d: nat)
    requires at + d <= grbuf.Length && d <= scratch.Length && grbuf != scratch
    modifies grbuf
    ensures grbuf[..at] == old(grbuf[..at]) && grbuf[at..] == scratch[..d] + old(grbuf[at + d..])
  {
    forall j | at <= j < at + d { grbuf[j] := scratch[j - at]; }
    assert grbuf[at..at + d] == scratch[..d];
  }

  /** `done` of the bands `widths` of `s` have been reordered, `rest` remains. */
  ghost predicate Remaining(goal: seq<real>, done: seq<real>, rest: seq<real>, widths: seq<nat>) {
    Lines(widths) <= |rest| && goal == done + Reordered(rest, widths)
  }

  /** The next band. */
  method ReorderNext(grbuf: array<real>, src: nat, len: nat, scratch: array<real>, d: nat,
                     ghost goal: seq<real>, ghost rest: seq<real>, ghost widths: seq<nat>)
    returns (src1: nat, d1: nat, ghost rest1: seq<real>)
    requires grbuf != scratch && src <= grbuf.Length && d <= scratch.Length && rest == grbuf[src..]
    requires Remaining(goal, scratch[..d], rest, widths) && widths != [] && len == widths[0] &&
      d + Lines(widths) <= scratch.Length
    modifies scratch
    ensures src1 == src + 3 * len <= grbuf.Length && d1 == d + 3 * len <= scratch.Length && rest1 == grbuf[src1..]
    ensures Remaining(goal, scratch[..d1], rest1, widths[1..])
  {
    var n := 3 * len;
    ReorderedStep(goal, scratch[..d], rest, widths, n);
    d1 := ReorderBand(grbuf, src, len, scratch, d);
    src1, rest1 := src + n, rest[n..];
  }

  /** All bands, whose lines start at `at`, to the scratch buffer. */
  method ReorderBands(grbuf: array<real>, at: nat, scratch: array<real>, sfb: seq<nat>) returns (d: nat)
    requires Terminated(sfb, 0) && at <= grbuf.Length && grbuf != scratch
    requires Lines(Widths(sfb, 0)) <= grbuf.Length - at && Lines(Widths(sfb, 0)) <= scratch.Length
    modifies scratch
    ensures at + d <= grbuf.Length && d <= scratch.Length
    ensures scratch[..d] + grbuf[at + d..] == Reordered(grbuf[at..], Widths(sfb, 0))
  {
    ghost var goal, rest, widths := Reordered(grbuf[at..], Widths(sfb, 0)), grbuf[at..], Widths(sfb, 0);
    var p, src := 0, at;
    d := 0;
    while sfb[p] != 0
      invariant Terminated(sfb, p) && widths == Widths(sfb, p) && d + Lines(widths) <= scratch.Length
      invariant src == at + d <= grbuf.Length && rest == grbuf[src..] && Remaining(goal, scratch[..d], rest, widths)
      decreases |sfb| - p
    {
      src, d, rest := ReorderNext(grbuf, src, sfb[p], scratch, d, goal, rest, widths);
      p, widths := p + 3, widths[1..];
    }
  }

  /** drmp3_L3_reorder on the lines from `at` on, with the band table `sfb`. */
  method ReorderLines(grbuf: array<real>, at: nat, scratch: array<real>, sfb: seq<nat>)
    requires Terminated(sfb, 0) && at <= grbuf.Length && grbuf != scratch
    requires Lines(Widths(sfb, 0)) <= grbuf.Length - at && Lines(Widths(sfb, 0)) <= scratch.Length
    modifies grbuf, scratch
    ensures grbuf[..at] == old(grbuf[..at]) && grbuf[at..] == Reordered(old(grbuf[at..]), Widths(sfb, 0))
  {
    var d := ReorderBands(grbuf, at, scratch, sfb);
    CopyBack(grbuf, at, scratch, d);
  }
}
