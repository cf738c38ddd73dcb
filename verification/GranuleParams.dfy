/**
 From the side information to the Huffman stage: what an accepted record makes the
 stage rely on.
 */
module GranuleParams {
  import opened BitString
  import opened BitReader
  import opened SideInfo
  import opened SideInfoSyntax
  import opened ScalefactorBands
  import opened HuffmanStage

  /** table_select: three five-bit numbers packed into one field. */
  function Select(w: Window): (r: seq<nat>)
    ensures |r| == 3
  {
    [w.tables / 1024, w.tables / 32 % 32, w.tables % 32]
  }

  /** region_count; on a switched window the third is whatever the record held before. */
  function Regions(w: Window, stale: nat): (r: seq<nat>)
    ensures |r| == 3
  {
    [w.regionCount0, w.regionCount1, if w.regionCount2.Some? then w.regionCount2.value else stale]
  }

  function ParamsOf(g: Granule, bands: Bands, stale: nat): Params {
    Params(g.bigValues, bands, Select(g.window), Regions(g.window, stale), g.count1Table)
  }

  lemma FieldBounds(s: Source, d: nat)
    ensures F(s, d, 15) < 32768 && F(s, d + 15, 4) < 16 && F(s, d + 19, 3) < 8 && F(s, d + 3, 10) < 1024
  {
    FieldBound(s, d, 15);
    FieldBound(s, d + 15, 4);
    FieldBound(s, d + 19, 3);
    FieldBound(s, d + 3, 10);
    Powers();
  }

  lemma Powers()
    ensures Pow2(3) == 8 && Pow2(4) == 16 && Pow2(10) == 1024 && Pow2(15) == 32768
  {
  }

  /** Every record the parser accepts, from any bits, has table numbers below 32 and
      region counts the region loop can rely on, whatever a stale count holds. */
  lemma AcceptedParams(s: Source, mode: Mode, b: nat, scfsi: nat, bands: Bands, stale: nat)
    requires GranuleOk(s, mode, b)
    ensures var h := ParamsOf(GranuleAt(s, mode, b, scfsi), bands, stale);
      && h.bigValues <= PAIRS && RegionsValid(h.region)
      && forall r :: 0 <= r < 3 ==> h.select[r] < 32
  {
    FieldBounds(s, WindowPos(mode, b) + 1);
    SelectBounds(WindowAt(s, WindowPos(mode, b)));
  }

  lemma SelectBounds(w: Window)
    requires w.tables < 32768
    ensures forall r :: 0 <= r < 3 ==> Select(w)[r] < 32
  {
  }

  /** The stage is handed what a writer says: three tables and two counts, or, when the window
      is switched, two tables and the counts that go with the block. */
  lemma WrittenParams(mode: Mode, r: Record, scfsi: nat, bands: Bands, stale: nat, t0: nat, t1: nat, t2: nat)
    requires t0 < 32 && t1 < 32 && t2 < 32
    requires r.window.tables == if r.window.Plain? then 1024 * t0 + 32 * t1 + t2 else 32 * t0 + t1
    ensures var h := ParamsOf(Meaning(mode, r, scfsi), bands, stale);
      && h.bigValues == r.big && h.count1 == r.count1 && h.bands == bands
      && (if r.window.Plain? then h.select == [t0, t1, t2] && h.region == [r.window.region0, r.window.region1, 255]
          else h.select == [t0, t1, 0]
               && h.region == [if r.window.blockType == 2 && !r.window.mixed then 8 else 7, 255, stale])
  {
    ThreeTables(t0, t1, t2);
    ThreeTables(t0, t1, 0);
  }

  lemma ThreeTables(t0: nat, t1: nat, t2: nat)
    requires t0 < 32 && t1 < 32 && t2 < 32
    ensures var tables := 1024 * t0 + 32 * t1 + t2; tables / 1024 == t0 && tables / 32 % 32 == t1 && tables % 32 == t2
  {
    assert (1024 * t0 + 32 * t1 + t2) / 32 == 32 * t0 + t1;
  }
}
