/**
 MPEG audio frame headers (include/dr_mp3.h, `drmp3_hdr_*`), and the reading of a
 header at every offset of an input, which is all that the sync search looks at.
 */
module Header {
  import opened BitString
  import opened Numbers

  /** The four bytes of a header. */
  datatype Hdr = Hdr(b0: Byte, b1: Byte, b2: Byte, b3: Byte)
  {
    predicate Mpeg1() { b1 / 8 % 2 == 1 }
    predicate NotMpeg25() { b1 / 16 % 2 == 1 }
    /** 1, 2 and 3 stand for the layers III, II and I. */
    function LayerBits(): nat { b1 / 2 % 4 }
    predicate Layer1() { b1 / 2 % 4 == 3 }
    predicate HasCrc() { b1 % 2 == 0 }
    /** The row of the band tables, for the nine sampling rates; the two highest of MPEG-2.5
        share one. */
    function BandRow(): nat {
      var rate := RateIndex() + 3 * ((if Mpeg1() then 1 else 0) + if NotMpeg25() then 1 else 0);
      if rate == 0 then 0 else rate - 1
    }
    function BitrateIndex(): nat { b2 / 16 }
    function RateIndex(): nat { b2 / 4 % 4 }
    predicate FreeFormat() { b2 / 16 == 0 }
    predicate Padded() { b2 / 2 % 2 == 1 }
    predicate Mono() { b3 / 64 == 3 }
    /** Layer III of MPEG-2 and 2.5, and the code's frames of half length. */
    predicate Frame576() { b1 / 2 % 8 == 1 }
  }

  /** drmp3_hdr_valid */
  predicate HdrValid(h: Hdr) {
    && h.b0 == 0xff
    && (h.b1 / 16 == 15 || h.b1 / 2 == 0x71)
    && h.LayerBits() != 0 && h.BitrateIndex() != 15 && h.RateIndex() != 3
  }

  /** There are eight rows. */
  lemma RowInTable(h: Hdr)
    requires HdrValid(h)
    ensures h.BandRow() < 8
  {
  }

  /** Half the bitrate in kbit/s, by version, layer and index. */
  function HalfRates(mpeg1: bool, layer: nat): (r: seq<nat>)
    requires 1 <= layer <= 3
    ensures |r| == 15
  {
    if mpeg1 then
      if layer == 1 then [0, 16, 20, 24, 28, 32, 40, 48, 56, 64, 80, 96, 112, 128, 160]
      else if layer == 2 then [0, 16, 24, 28, 32, 40, 48, 56, 64, 80, 96, 112, 128, 160, 192]
      else [0, 16, 32, 48, 64, 80, 96, 112, 128, 144, 160, 176, 192, 208, 224]
    else if layer == 3 then [0, 16, 24, 28, 32, 40, 48, 56, 64, 72, 80, 88, 96, 112, 128]
    else [0, 4, 8, 12, 16, 20, 24, 28, 32, 40, 48, 56, 64, 72, 80]
  }

  function BitrateKbps(h: Hdr): nat
    requires HdrValid(h)
  {
    2 * HalfRates(h.Mpeg1(), h.LayerBits())[h.BitrateIndex()]
  }

  /** The base rate, halved for MPEG-2 and halved again for MPEG-2.5. */
  function SampleRateHz(h: Hdr): (hz: nat)
    requires HdrValid(h)
    ensures hz >= 8000
  {
    var base := if h.RateIndex() == 0 then 44100 else if h.RateIndex() == 1 then 48000 else 32000;
    var lower := if h.Mpeg1() then base else base / 2;
    if h.NotMpeg25() then lower else lower / 2
  }

  function FrameSamples(h: Hdr): nat {
    if h.Layer1() then 384 else if h.Frame576() then 576 else 1152
  }

  /** drmp3_hdr_frame_bytes before the free-format size is filled in. */
  function ComputedBytes(h: Hdr): nat
    requires HdrValid(h)
  {
    var bytes := BytesAt(FrameSamples(h) * BitrateKbps(h) * 125, SampleRateHz(h));
    if h.Layer1() then bytes / 4 * 4 else bytes
  }

  function BytesAt(scaledBits: nat, hz: nat): nat
    requires hz > 0
  {
    scaledBits / hz
  }

  /** drmp3_hdr_padding */
  function PaddingBytes(h: Hdr): nat {
    if h.Padded() then (if h.Layer1() then 4 else 1) else 0
  }

  // ----- the reading of a header -----

  /** Two headers match when version, layer, sampling rate and free-format-ness agree. */
  datatype Key = Key(versionLayer: nat, rate: nat, free: bool)

  /** What the decoder computes from a header. */
  datatype Info = Info(valid: bool, key: Key, bytes: nat, padding: nat, layer3: bool, mpeg1: bool, mono: bool,
          crc: bool, samples: nat)

  function InfoOf(h: Hdr): Info {
    Info(HdrValid(h), Key(h.b1 / 2, h.RateIndex(), h.FreeFormat()),
         if HdrValid(h) then ComputedBytes(h) else 0, PaddingBytes(h),
         h.LayerBits() == 1, h.Mpeg1(), h.Mono(), h.HasCrc(), FrameSamples(h))
  }

  /** drmp3_hdr_compare: the second header must be valid, the first need not be. */
  predicate Compare(a: Info, b: Info) {
    b.valid && a.key == b.key
  }

  /** drmp3_hdr_frame_bytes */
  function SizeOf(a: Info, freeFormatBytes: nat): nat {
    if a.bytes != 0 then a.bytes else freeFormatBytes
  }

  const MAX_FRAME: nat := 1441
  const MAX_FREE_FORMAT: nat := 2304

  /** What holds of every valid header. */
  predicate InfoOk(a: Info) {
    && a.padding <= 4 && (a.layer3 ==> a.padding <= 1) && a.samples > 0
    && (a.valid ==> (a.bytes == 0 <==> a.key.free))
    && (a.valid && a.layer3 && a.bytes != 0 ==> 24 <= a.bytes < MAX_FRAME)
  }

  lemma {:induction false} DivBounds(n: nat, d: nat, lo: nat, hi: nat)
    requires d > 0 && lo * d <= n < hi * d
    ensures lo <= n / d < hi
  {
    if n / d < lo {
      ProductsApart(n / d, lo, d);
    } else if n / d >= hi {
      ProductsApart(hi - 1, n / d, d);
    }
  }

  /** The bitrates by version and layer. */
  lemma RateRange(h: Hdr)
    requires HdrValid(h)
    ensures BitrateKbps(h) == 0 <==> h.FreeFormat()
    ensures !h.FreeFormat() ==> (if h.Mpeg1() then 32 else 8) <= BitrateKbps(h) <= 448
    ensures h.LayerBits() == 1 ==> BitrateKbps(h) <= if h.Mpeg1() then 320 else 160
  {
  }

  lemma HzRange(h: Hdr)
    requires HdrValid(h)
    ensures h.Mpeg1() ==> 32000 <= SampleRateHz(h) <= 48000
    ensures !h.Mpeg1() ==> 8000 <= SampleRateHz(h) <= 24000
  {
    VersionBits(h.b1);
  }

  /** Only MPEG-2.5 clears the second version bit, and never together with MPEG-1. */
  lemma VersionBits(b: Byte)
    ensures b / 16 == 15 ==> b / 16 % 2 == 1
    ensures b / 2 == 0x71 ==> b / 8 % 2 == 0
  {
  }

  lemma SamplesByVersion(h: Hdr)
    ensures h.LayerBits() == 1 ==> FrameSamples(h) == if h.Mpeg1() then 1152 else 576
  {
    var x := h.b1 / 2;
    assert h.b1 / 8 == x / 4;
    assert x % 8 == x % 4 + 4 * (x / 4 % 2);
  }

  /** At a nonzero bitrate no frame is empty. */
  lemma NotEmpty(h: Hdr)
    requires HdrValid(h) && !h.FreeFormat()
    ensures ComputedBytes(h) != 0
  {
    RateRange(h);
    HzRange(h);
    var n, hz := FrameSamples(h) * BitrateKbps(h) * 125, SampleRateHz(h);
    assert FrameSamples(h) >= 384;
    EnoughBits(FrameSamples(h), BitrateKbps(h), hz, h.Mpeg1());
    DivBounds(n, hz, 4, n + 1);
  }

  lemma EnoughBits(samples: nat, kbps: nat, hz: nat, mpeg1: bool)
    requires samples >= 384 && kbps >= (if mpeg1 then 32 else 8) && 1 <= hz <= (if mpeg1 then 48000 else 24000)
    ensures 4 * hz <= samples * kbps * 125 < (samples * kbps * 125 + 1) * hz
  {
    var m := if mpeg1 then 32 else 8;
    Below2(384, samples, m, kbps);
    var n := samples * kbps * 125;
    assert (n + 1) * hz == n * hz + hz;
    Below2(n, n, 1, hz);
  }

  lemma Below2(a: nat, b: nat, c: nat, d: nat)
    requires a <= b && c <= d
    ensures a * c <= b * d
  {
    assert b * d - a * c == b * (d - c) + (b - a) * c;
  }

  lemma Layer3Bytes(h: Hdr)
    requires HdrValid(h) && !h.FreeFormat() && h.LayerBits() == 1
    ensures 24 <= ComputedBytes(h) <= 1440
  {
    RateRange(h);
    HzRange(h);
    SamplesByVersion(h);
    DivBounds(FrameSamples(h) * BitrateKbps(h) * 125, SampleRateHz(h), 24, MAX_FRAME);
  }

  /** Every header reads as an Info the rest of the decoder can rely on. */
  lemma InfoIsOk(h: Hdr)
    ensures InfoOk(InfoOf(h))
  {
    if HdrValid(h) {
      if h.FreeFormat() {
        RateRange(h);
        ZeroBytes(h);
      } else {
        NotEmpty(h);
        if h.LayerBits() == 1 { Layer3Bytes(h); }
      }
    }
  }

  lemma ZeroBytes(h: Hdr)
    requires HdrValid(h) && BitrateKbps(h) == 0
    ensures ComputedBytes(h) == 0
  {
    assert FrameSamples(h) * BitrateKbps(h) * 125 == 0;
  }

  // ----- the input as the search sees it -----

  /** The header reading at every offset that has four bytes. */
  type View = seq<Info>

  function HdrAt(mp3: seq<Byte>, i: nat): Hdr
    requires i + 4 <= |mp3|
  {
    Hdr(mp3[i], mp3[i + 1], mp3[i + 2], mp3[i + 3])
  }

  function ViewOf(mp3: seq<Byte>): (v: View)
    ensures |v| == if |mp3| < 4 then 0 else |mp3| - 3
    ensures forall i :: 0 <= i < |v| ==> v[i] == InfoOf(HdrAt(mp3, i))
  {
    if |mp3| < 4 then [] else seq(|mp3| - 3, i requires 0 <= i < |mp3| - 3 => InfoOf(HdrAt(mp3, i)))
  }

  ghost predicate ViewOk(v: View) {
    forall i :: 0 <= i < |v| ==> InfoOk(v[i])
  }

  lemma ViewIsOk(mp3: seq<Byte>)
    ensures ViewOk(ViewOf(mp3))
  {
    forall i | 0 <= i < |ViewOf(mp3)| ensures InfoOk(ViewOf(mp3)[i]) {
      InfoIsOk(HdrAt(mp3, i));
    }
  }
}
