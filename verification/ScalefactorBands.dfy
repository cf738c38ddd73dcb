/**
 The scale-factor band tables as the Huffman stage walks them: pairs are drawn band
 after band, until the zero that ends the table.
 */
module ScalefactorBands {

  const PAIRS: nat := 288

  /** A zero-terminated table of even widths. */
  datatype Bands = Bands(widths: seq<nat>, count: nat)
  {
    /** The pairs in the first b bands. */
    function Before(b: nat): nat
      requires b <= |widths|
    {
      if b == 0 then 0 else Before(b - 1) + widths[b - 1] / 2
    }

    /** What every table of the decoder satisfies: `count` positive even widths that make
        up 576 lines, then a zero. */
    ghost predicate Valid() {
      && count < |widths| && count <= 255 && widths[count] == 0
      && (forall b :: 0 <= b < count ==> widths[b] >= 2 && widths[b] % 2 == 0)
      && Before(count) == PAIRS
    }

    /** The band of pair p. */
    function BandFrom(b: nat, p: nat): nat
      requires b <= count < |widths|
      decreases count - b
    {
      if b == count || p < Before(b + 1) then b else BandFrom(b + 1, p)
    }

    function BandOf(p: nat): nat
      requires count < |widths|
    {
      BandFrom(0, p)
    }
  }

  lemma {:induction false} BeforeMonotone(s: Bands, a: nat, b: nat)
    requires a <= b <= |s.widths|
    ensures s.Before(a) <= s.Before(b)
  {
    if a < b { BeforeMonotone(s, a, b - 1); }
  }

  lemma {:induction false} BandFromIs(s: Bands, from: nat, b: nat, p: nat)
    requires from <= b < s.count < |s.widths|
    requires s.Before(b) <= p < s.Before(b + 1)
    ensures s.BandFrom(from, p) == b
    decreases b - from
  {
    if from < b {
      BeforeMonotone(s, from + 1, b);
      BandFromIs(s, from + 1, b, p);
    }
  }

  /** The band of a pair is the one whose range it lies in. */
  lemma BandOfIs(s: Bands, b: nat, p: nat)
    requires b < s.count < |s.widths| && s.Before(b) <= p < s.Before(b + 1)
    ensures s.BandOf(p) == b
  {
    BandFromIs(s, 0, b, p);
  }

  /** Only the terminator stops the bands short of all pairs. */
  lemma BeforeEnd(s: Bands, b: nat)
    requires s.Valid() && b <= s.count
    ensures s.Before(b) <= PAIRS && (s.Before(b) == PAIRS <==> b == s.count)
    ensures b < s.count ==> s.Before(b + 1) == s.Before(b) + s.widths[b] / 2 && s.widths[b] / 2 >= 1
  {
    BeforeMonotone(s, b, s.count);
    if b < s.count {
      assert s.widths[b] >= 2;
      BeforeMonotone(s, b + 1, s.count);
    }
  }

  // ----- an instance: long blocks at 44.1 kHz -----

  const LONG_44100: seq<nat> := [4, 4, 4, 4, 4, 4, 6, 6, 8, 8, 10, 12, 16, 20, 24, 28, 34, 42, 50, 54, 76, 158, 0]

  /** Its running sums of pairs. */
  const SUMS_44100: seq<nat> :=
    [0, 2, 4, 6, 8, 10, 12, 15, 18, 22, 26, 31, 37, 45, 55, 67, 81, 98, 119, 144, 171, 209, 288]

  lemma Entry(widths: seq<nat>, sums: seq<nat>, b: nat)
    requires widths == LONG_44100 && sums == SUMS_44100 && b < 22
    ensures widths[b] >= 2 && widths[b] % 2 == 0 && sums[b + 1] == sums[b] + widths[b] / 2
  {
  }

  lemma {:induction false} BeforeIsSum(s: Bands, sums: seq<nat>, b: nat)
    requires s.widths == LONG_44100 && sums == SUMS_44100 && b <= 22
    ensures s.Before(b) == sums[b]
  {
    if b > 0 {
      BeforeIsSum(s, sums, b - 1);
      Entry(s.widths, sums, b - 1);
    }
  }

  /** The requirements on band tables are met by one of the decoder's own. */
  lemma Long44100Valid(s: Bands)
    requires s.widths == LONG_44100 && s.count == 22
    ensures s.Valid()
  {
    BeforeIsSum(s, SUMS_44100, s.count);
    forall b | 0 <= b < s.count ensures s.widths[b] >= 2 && s.widths[b] % 2 == 0 { Entry(s.widths, SUMS_44100, b); }
  }
}
