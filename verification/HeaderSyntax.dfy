/**
 Frame headers as a writer emits them, field by field in the order of ISO/IEC 11172-3,
 section 2.4.1.3, and what the decoder makes of them (include/dr_mp3.h, `drmp3_hdr_*`):
 the numbers of section 2.4.2.3 and of ISO/IEC 13818-3.
 */
module HeaderSyntax {
  import opened BitString
  import opened Header

  /** MPEG-2.5 is the extension to the lowest sampling rates. */
  datatype Version = One | Two | TwoAndHalf

  datatype Fields = Fields(version: Version, layer: nat, protected: bool, bitrate: nat, rate: nat, padded: bool,
                           private: nat, mode: nat, rest: nat)

  /** The fields are as wide as the syntax says. */
  predicate Writable(f: Fields) {
    1 <= f.layer <= 3 && f.bitrate < 16 && f.rate < 4 && f.private < 2 && f.mode < 4 && f.rest < 64
  }

  function IdOf(version: Version): nat {
    match version
    case One => 3
    case Two => 2
    case TwoAndHalf => 0
  }

  /** Eleven bits of sync word, version, layer, protection; bitrate, sampling rate, padding,
      private bit; channel mode and the rest. */
  function Written(f: Fields): Hdr
    requires Writable(f)
  {
    Hdr(255, 224 + 8 * IdOf(f.version) + 2 * (4 - f.layer) + (if f.protected then 0 else 1),
        16 * f.bitrate + 4 * f.rate + (if f.padded then 2 else 0) + f.private, 64 * f.mode + f.rest)
  }

  /** Neither bitrate nor sampling rate is reserved; MPEG-2.5 is for Layer III only. */
  predicate Sensible(f: Fields) {
    Writable(f) && f.bitrate != 15 && f.rate != 3 && (f.version.TwoAndHalf? ==> f.layer == 3)
  }

  lemma WrittenSecond(f: Fields)
    requires Writable(f)
    ensures var h := Written(f);
      && (h.Mpeg1() <==> f.version.One?) && (h.NotMpeg25() <==> !f.version.TwoAndHalf?)
      && h.LayerBits() == 4 - f.layer && (h.Layer1() <==> f.layer == 1) && (h.HasCrc() <==> f.protected)
      && (h.Frame576() <==> f.layer == 3 && !f.version.One?)
      && (h.b1 / 16 == 15 <==> !f.version.TwoAndHalf?)
      && (h.b1 / 2 == 113 <==> f.version.TwoAndHalf? && f.layer == 3)
      && h.b1 / 2 == 112 + 4 * IdOf(f.version) + (4 - f.layer)
  {
  }

  lemma ThirdByte(b: nat, bitrate: nat, rate: nat, pad: nat, private: nat)
    requires rate < 4 && pad < 2 && private < 2 && b == 16 * bitrate + 4 * rate + 2 * pad + private
    ensures b / 16 == bitrate && b / 4 % 4 == rate && b / 2 % 2 == pad
  {
    assert b / 2 == 8 * bitrate + 2 * rate + pad;
    assert b / 4 == 4 * bitrate + rate;
  }

  lemma WrittenThird(f: Fields)
    requires Writable(f)
    ensures var h := Written(f);
      && h.BitrateIndex() == f.bitrate && h.RateIndex() == f.rate && (h.Padded() <==> f.padded)
      && (h.FreeFormat() <==> f.bitrate == 0) && (h.Mono() <==> f.mode == 3)
  {
    ThirdByte(Written(f).b2, f.bitrate, f.rate, if f.padded then 1 else 0, f.private);
  }

  /** Headers that are written sensibly are the valid ones. */
  lemma WrittenValid(f: Fields)
    requires Writable(f)
    ensures HdrValid(Written(f)) <==> Sensible(f)
  {
    WrittenSecond(f);
    WrittenThird(f);
  }

  /** The fields of a header. */
  function FieldsOf(h: Hdr): Fields {
    var id := h.b1 / 8 % 4;
    Fields(if id == 3 then One else if id == 2 then Two else TwoAndHalf, 4 - h.b1 / 2 % 4, h.b1 % 2 == 0,
           h.b2 / 16, h.b2 / 4 % 4, h.b2 / 2 % 2 == 1, h.b2 % 2, h.b3 / 64, h.b3 % 64)
  }

  /** Every valid header can be written. */
  lemma FieldsWritten(h: Hdr)
    requires HdrValid(h)
    ensures Sensible(FieldsOf(h)) && Written(FieldsOf(h)) == h
  {
    SecondByte(h.b1);
    ThirdParts(h.b2);
    assert h.b3 == 64 * (h.b3 / 64) + h.b3 % 64;
    WrittenValid(FieldsOf(h));
  }

  lemma SecondByte(b: Byte)
    requires b / 16 == 15 || b / 2 == 113
    ensures b == 224 + 8 * (b / 8 % 4) + 2 * (b / 2 % 4) + b % 2
    ensures b / 8 % 4 == 3 || b / 8 % 4 == 2 || (b / 8 % 4 == 0 && b / 2 % 4 == 1)
  {
  }

  lemma ThirdParts(b: Byte)
    ensures b == 16 * (b / 16) + 4 * (b / 4 % 4) + 2 * (b / 2 % 2) + b % 2
  {
    var c, d := b / 2, b / 4;
    assert b == 2 * c + b % 2;
    assert c == 2 * d + c % 2;
    assert d == 4 * (b / 16) + d % 4;
  }

  // ----- the numbers -----

  /** 32, 40, 48, 56, and twice that at every fourth step. */
  function Geometric(k: nat): nat {
    if k < 4 then 32 + 8 * k else 2 * Geometric(k - 4)
  }

  /** The bitrate in kbit/s at an index other than 0 and 15. */
  function Kbps(f: Fields): nat
    requires 1 <= f.bitrate <= 14
  {
    var i := f.bitrate;
    if f.version.One? then
      if f.layer == 1 then 32 * i
      else if f.layer == 2 then (if i == 1 then 32 else Geometric(i))
      else Geometric(i - 1)
    else if f.layer == 1 then
      (if i == 1 then 32 else if i <= 4 then 32 + 8 * i else if i <= 12 then 16 * i else 32 * (i - 6))
    else if i <= 8 then 8 * i else 16 * (i - 4)
  }

  function Hz(f: Fields): (hz: nat)
    ensures hz > 0
  {
    match f.version
    case One => if f.rate == 0 then 44100 else if f.rate == 1 then 48000 else 32000
    case Two => if f.rate == 0 then 22050 else if f.rate == 1 then 24000 else 16000
    case TwoAndHalf => if f.rate == 0 then 11025 else if f.rate == 1 then 12000 else 8000
  }

  /** The PCM frames of a frame. */
  function Pcm(f: Fields): nat {
    if f.layer == 1 then 384 else if f.layer == 2 || f.version.One? then 1152 else 576
  }

  lemma OneThree(i: nat)
    requires 1 <= i <= 14
    ensures 2 * HalfRates(true, 1)[i] == Geometric(i - 1)
  {
    assert Geometric(4) == 64 && Geometric(5) == 80 && Geometric(6) == 96 && Geometric(7) == 112;
    assert Geometric(8) == 128 && Geometric(9) == 160 && Geometric(10) == 192 && Geometric(11) == 224;
    assert Geometric(12) == 256 && Geometric(13) == 320;
  }

  lemma OneTwo(i: nat)
    requires 1 <= i <= 14
    ensures 2 * HalfRates(true, 2)[i] == if i == 1 then 32 else Geometric(i)
  {
    assert Geometric(4) == 64 && Geometric(5) == 80 && Geometric(6) == 96 && Geometric(7) == 112;
    assert Geometric(8) == 128 && Geometric(9) == 160 && Geometric(10) == 192 && Geometric(11) == 224;
    assert Geometric(12) == 256 && Geometric(13) == 320 && Geometric(14) == 384;
  }

  lemma RatesOfOne(f: Fields, layer: nat)
    requires Sensible(f) && f.bitrate > 0 && f.version.One? && layer == 4 - f.layer
    ensures 2 * HalfRates(true, layer)[f.bitrate] == Kbps(f)
  {
    hide Geometric;
    if layer == 1 { OneThree(f.bitrate); } else if layer == 2 { OneTwo(f.bitrate); }
  }

  lemma LowerRates(f: Fields, layer: nat)
    requires Sensible(f) && f.bitrate > 0 && !f.version.One? && layer == 4 - f.layer
    ensures 2 * HalfRates(false, layer)[f.bitrate] == Kbps(f)
  {
  }

  /** The bitrates of all versions and layers. */
  lemma WrittenBitrate(f: Fields)
    requires Sensible(f) && f.bitrate > 0
    ensures HdrValid(Written(f)) && BitrateKbps(Written(f)) == Kbps(f)
  {
    hide Kbps, HalfRates;
    WrittenValid(f);
    WrittenSecond(f);
    WrittenThird(f);
    if f.version.One? { RatesOfOne(f, 4 - f.layer); } else { LowerRates(f, 4 - f.layer); }
  }

  lemma WrittenRate(f: Fields)
    requires Sensible(f)
    ensures HdrValid(Written(f)) && SampleRateHz(Written(f)) == Hz(f) && FrameSamples(Written(f)) == Pcm(f)
  {
    WrittenValid(f);
    WrittenSecond(f);
    WrittenThird(f);
  }

  /** `bytes` is the most that goes into `bits` at `hz`, in steps of `slot`. */
  predicate Fills(bytes: nat, slot: nat, hz: nat, bits: nat) {
    bytes * hz <= bits < (bytes + slot) * hz
  }

  lemma Quotient(n: nat, d: nat)
    requires d > 0
    ensures Fills(n / d, 1, d, n)
  {
    assert (n / d + 1) * d == n / d * d + d;
  }

  /** Rounding down to a multiple of four. */
  lemma SlotsOf(n: nat, d: nat, q: nat)
    requires Fills(q, 1, d, n)
    ensures Fills(q / 4 * 4, 4, d, n)
  {
    var r := q / 4 * 4;
    assert q * d == r * d + (q - r) * d;
    assert (r + 4) * d == (q + 1) * d + (r + 3 - q) * d;
  }

  /** What the PCM frames of a frame come to at its bitrate, times the sampling rate, in bytes. */
  function FrameBits(f: Fields): nat
    requires 1 <= f.bitrate <= 14
  {
    Pcm(f) * Kbps(f) * 125
  }

  lemma BytesFrom(f: Fields, h: Hdr)
    requires 1 <= f.bitrate <= 14 && HdrValid(h)
    requires FrameSamples(h) == Pcm(f) && BitrateKbps(h) == Kbps(f) && SampleRateHz(h) == Hz(f)
    ensures ComputedBytes(h) == if h.Layer1() then FrameBits(f) / Hz(f) / 4 * 4 else FrameBits(f) / Hz(f)
  {
    hide FrameSamples, BitrateKbps, HdrValid, Pcm, Kbps;
    assert BytesAt(FrameSamples(h) * BitrateKbps(h) * 125, SampleRateHz(h)) == BytesAt(FrameBits(f), Hz(f));
  }

  /** The size of a frame without padding is the whole bytes (in Layer I, the whole slots of
      four bytes) that its PCM frames take up at its bitrate. */
  lemma WrittenBytes(f: Fields, bytes: nat)
    requires Sensible(f) && f.bitrate > 0 && HdrValid(Written(f)) && bytes == ComputedBytes(Written(f))
    ensures if f.layer == 1 then bytes % 4 == 0 && Fills(bytes, 4, Hz(f), FrameBits(f))
      else Fills(bytes, 1, Hz(f), FrameBits(f))
  {
    hide Fills, FrameBits, Kbps, Hz, Pcm, BitrateKbps, SampleRateHz, FrameSamples, HdrValid, ComputedBytes;
    WrittenBitrate(f);
    WrittenRate(f);
    WrittenSecond(f);
    BytesFrom(f, Written(f));
    SizeFills(f.layer == 1, bytes, FrameBits(f), Hz(f));
  }

  lemma SizeFills(slots: bool, bytes: nat, bits: nat, hz: nat)
    requires hz > 0 && bytes == if slots then bits / hz / 4 * 4 else bits / hz
    ensures if slots then bytes % 4 == 0 && Fills(bytes, 4, hz, bits) else Fills(bytes, 1, hz, bits)
  {
    hide Fills;
    Quotient(bits, hz);
    if slots { SlotsOf(bits, hz, bits / hz); }
  }

  /** A frame of free format announces no size. */
  lemma WrittenFree(f: Fields)
    requires Sensible(f)
    ensures InfoOf(Written(f)).bytes == 0 <==> f.bitrate == 0
  {
    WrittenValid(f);
    WrittenThird(f);
    InfoIsOk(Written(f));
  }

  lemma WrittenPadding(f: Fields)
    requires Sensible(f)
    ensures PaddingBytes(Written(f)) == if !f.padded then 0 else if f.layer == 1 then 4 else 1
  {
    WrittenSecond(f);
    WrittenThird(f);
  }

  /** Two headers match exactly if the second is valid and they agree in version, layer,
      sampling rate and in whether they are of free format. */
  lemma WrittenMatch(f: Fields, g: Fields)
    requires Writable(f) && Writable(g)
    ensures Compare(InfoOf(Written(f)), InfoOf(Written(g))) <==>
      Sensible(g) && f.version == g.version && f.layer == g.layer && f.rate == g.rate
      && (f.bitrate == 0 <==> g.bitrate == 0)
  {
    hide HdrValid, ComputedBytes;
    WrittenSecond(f);
    WrittenThird(f);
    WrittenValid(g);
    WrittenSecond(g);
    WrittenThird(g);
  }

  /** The band tables of the sampling rates, MPEG-2.5 first, then MPEG-2, then MPEG-1; the two
      highest of MPEG-2.5 share one. */
  function Row(f: Fields): nat {
    match f.version
    case One => 5 + f.rate
    case Two => 2 + f.rate
    case TwoAndHalf => if f.rate == 2 then 1 else 0
  }

  lemma WrittenRow(f: Fields)
    requires Sensible(f)
    ensures Written(f).BandRow() == Row(f)
  {
    WrittenSecond(f);
    WrittenThird(f);
  }
}
