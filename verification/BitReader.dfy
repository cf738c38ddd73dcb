/**
 The decoder's plain bit reader (include/dr_mp3.h, `drmp3_bs`), and the bit
 writer it inverts.
 */
module BitReader {
  import opened BitString

  /** What a read of n bits at `pos` yields: the next n bits, or 0 past the limit. */
  function Field(bits: Bits, limit: int, pos: nat, n: nat): nat {
    if pos + n > limit then 0 else Value(bits, pos, pos + n)
  }

  class Reader {
    const buf: seq<Byte>
    const limit: int
    ghost const bits: Bits
    var pos: nat

    /** The buffer holds every bit below the limit. */
    ghost predicate Valid() {
      limit <= 8 * |buf| && Spells(bits, buf)
    }

    /** drmp3_bs_init: the byte count is an int, and comes out negative for a frame
        shorter than its own header. */
    constructor (data: seq<Byte>, bytes: int)
      requires bytes <= |data|
      ensures Valid() && buf == data && pos == 0 && limit == 8 * bytes && bits == BitsOf(data)
    {
      buf, pos, limit := data, 0, bytes * 8;
      bits := BitsOf(data);
      BitsOfSpells(data);
    }

    /** drmp3_bs_get_bits: the position always moves on; past the limit nothing is read. */
    method GetBits(n: nat) returns (r: nat)
      requires Valid() && 1 <= n <= 25
      modifies this`pos
      ensures pos == old(pos) + n
      ensures r == Field(bits, limit, old(pos), n)
    {
      var start := pos;
      pos := pos + n;
      if pos > limit { return 0; }
      r := Gather(buf, start, n, bits);
    }
  }

  /** The reading loop of drmp3_bs_get_bits: masks the first byte, shifts whole bytes
      in from below and drops the surplus of the last one. */
  method Gather(buf: seq<Byte>, start: nat, n: nat, ghost bits: Bits) returns (r: nat)
    requires Spells(bits, buf) && 1 <= n <= 25 && start + n <= 8 * |buf|
    ensures r == Value(bits, start, start + n)
  {
    ghost var end := start + n;
    var shl: int := n + start % 8;
    var p := start / 8;
    var next := MaskFirst(bits, buf, p, start % 8);
    var cache := 0;
    ShiftZero(n);
    p, shl := p + 1, shl - 8;
    ghost var b := start;
    while shl > 0
      invariant start <= b < end && b < 8 * p
      invariant shl == end - 8 * p
      invariant next == Value(bits, b, 8 * p)
      invariant cache == Shift(Value(bits, start, b), end - b)
    {
      cache := ShiftIn(bits, start, b, 8 * p, end, cache, next, shl);
      b := 8 * p;
      next := NextByte(bits, buf, p);
      p, shl := p + 1, shl - 8;
    }
    r := DropSurplus(bits, start, b, end, 8 * p, cache, next, -shl);
  }

  /** *p & (255 >> s) */
  method MaskFirst(ghost bits: Bits, buf: seq<Byte>, p: nat, s: nat) returns (next: nat)
    requires Spells(bits, buf) && p < |buf| && s < 8
    ensures next == Value(bits, 8 * p + s, 8 * (p + 1))
  {
    next := And(buf[p], Shr(255, s));
    ByteMask(s);
    AndMask(buf[p], 8 - s);
    assert SpelledAt(bits, buf, p);
    ByteTail(bits, buf, p, s);
  }

  /** *p */
  method NextByte(ghost bits: Bits, buf: seq<Byte>, p: nat) returns (next: nat)
    requires Spells(bits, buf) && p < |buf|
    ensures next == Value(bits, 8 * p, 8 * (p + 1))
  {
    next := buf[p];
    assert SpelledAt(bits, buf, p);
  }

  /** cache | next << shl: the pending bits [b, e) go above the bits [e, end) still to come. */
  method ShiftIn(ghost bits: Bits, ghost start: nat, ghost b: nat, ghost e: nat, ghost end: nat,
                 cache: nat, next: nat, shl: nat)
    returns (r: nat)
    requires start <= b <= e <= end <= start + 25 && shl == end - e
    requires next == Value(bits, b, e)
    requires cache == Shift(Value(bits, start, b), end - b)
    ensures r == Shift(Value(bits, start, e), end - e)
  {
    r := Or(cache, Shl(next, shl));
    ValueBound(bits, b, e);
    ValueSplit(bits, start, b, e);
    OrInto(Value(bits, start, b), e - b, next, shl);
  }

  /** cache | next >> x: the surplus bits [end, e) of the last byte are shifted out. */
  method DropSurplus(ghost bits: Bits, ghost start: nat, ghost b: nat, ghost end: nat, ghost e: nat,
                     cache: nat, next: nat, x: nat)
    returns (r: nat)
    requires start <= b <= end <= e && x == e - end
    requires next == Value(bits, b, e)
    requires cache == Shift(Value(bits, start, b), end - b)
    ensures r == Value(bits, start, end)
  {
    r := Or(cache, Shr(next, x));
    ValueHighLow(bits, b, end, e);
    ValueBound(bits, b, end);
    OrDisjoint(Value(bits, start, b), Value(bits, b, end), end - b);
    ValueSplit(bits, start, b, end);
  }

  // ----- the writer -----

  /** The n binary digits of v, most significant first. */
  function Digits(v: nat, n: nat): (d: seq<BitValue>)
    ensures |d| == n
  {
    if n == 0 then [] else Digits(v / 2, n - 1) + [v % 2]
  }

  function FromDigits(d: seq<BitValue>): nat {
    if d == [] then 0 else 2 * FromDigits(d[..|d| - 1]) + d[|d| - 1]
  }

  lemma {:induction false} FromDigitsBound(d: seq<BitValue>)
    ensures FromDigits(d) < Pow2(|d|)
  {
    if d != [] { FromDigitsBound(d[..|d| - 1]); }
  }

  /** Bits to bytes, the last byte filled up with zeros. */
  function Pack(bits: seq<BitValue>): (bytes: seq<Byte>)
    ensures |bytes| == (|bits| + 7) / 8
  {
    seq((|bits| + 7) / 8, j requires 0 <= j < (|bits| + 7) / 8 => PackByte(bits, j))
  }

  function ByteDigits(bits: seq<BitValue>, j: nat): (d: seq<BitValue>)
    ensures |d| == 8
  {
    seq(8, t requires 0 <= t < 8 => if 8 * j + t < |bits| then bits[8 * j + t] else 0)
  }

  function PackByte(bits: seq<BitValue>, j: nat): Byte {
    FromDigitsBound(ByteDigits(bits, j));
    assert Pow2(8) == 256;
    FromDigits(ByteDigits(bits, j))
  }

  /** Dropping the low digits of a number leaves its leading ones. */
  lemma {:induction false} LeadingDigits(d: seq<BitValue>, k: nat)
    requires k <= |d|
    ensures Drop(FromDigits(d), |d| - k) == FromDigits(d[..k])
  {
    if k == |d| {
      assert d[..k] == d;
    } else {
      var init := d[..|d| - 1];
      LeadingDigits(init, k);
      assert init[..k] == d[..k];
      DropHalf(FromDigits(d), |d| - 1 - k);
      assert FromDigits(d) / 2 == FromDigits(init);
    }
  }

  lemma PackBit(bits: seq<BitValue>, i: nat)
    requires i < |bits|
    ensures BitAt(BitsOf(Pack(bits)), i) == bits[i]
  {
    var j, k := i / 8, i % 8;
    var d := ByteDigits(bits, j);
    assert Pack(bits)[j] == FromDigits(d);
    LeadingDigits(d, k + 1);
    assert d[..k + 1][..k] == d[..k];
    assert d[k] == bits[i];
  }

  /** `bits` begins with the bits of s. */
  ghost predicate BeginsWith(bits: Bits, s: seq<BitValue>) {
    forall i: nat :: i < |s| ==> BitAt(bits, i) == s[i]
  }

  lemma {:induction false} ValueOfDigits(bits: Bits, s: seq<BitValue>, from: nat, to: nat)
    requires BeginsWith(bits, s) && from <= to <= |s|
    ensures Value(bits, from, to) == FromDigits(s[from..to])
  {
    if from < to {
      ValueOfDigits(bits, s, from, to - 1);
      assert s[from..to][..to - 1 - from] == s[from..to - 1];
      assert BitAt(bits, to - 1) == s[to - 1];
    }
  }

  lemma {:induction false} DigitsInverse(v: nat, n: nat)
    requires v < Pow2(n)
    ensures FromDigits(Digits(v, n)) == v
  {
    if n > 0 {
      DigitsInverse(v / 2, n - 1);
      assert Digits(v, n)[..n - 1] == Digits(v / 2, n - 1);
    }
  }

  lemma MiddleValue(bits: Bits, before: seq<BitValue>, d: seq<BitValue>, after: seq<BitValue>)
    requires BeginsWith(bits, before + d + after)
    ensures Value(bits, |before|, |before| + |d|) == FromDigits(d)
  {
    var s := before + d + after;
    ValueOfDigits(bits, s, |before|, |before| + |d|);
    assert s[|before|..|before| + |d|] == d;
  }

  /** A bit string and the limit of reading. */
  datatype Source = Source(bits: Bits, limit: int)

  function F(s: Source, pos: nat, n: nat): nat {
    Field(s.bits, s.limit, pos, n)
  }

  lemma FieldBound(s: Source, pos: nat, n: nat)
    ensures F(s, pos, n) < Pow2(n)
  {
    if pos + n <= s.limit {
      ValueBound(s.bits, pos, pos + n);
    } else {
      Pow2Monotone(0, n);
    }
  }

  // ----- streams of fields -----

  datatype Elements = End | Put(value: nat, width: nat, rest: Elements)

  function Append(a: Elements, b: Elements): Elements {
    if a.End? then b else Put(a.value, a.width, Append(a.rest, b))
  }

  function Width(es: Elements): nat {
    if es.End? then 0 else es.width + Width(es.rest)
  }

  predicate AllFit(es: Elements) {
    es.Put? ==> es.value < Pow2(es.width) && AllFit(es.rest)
  }

  function Encode(es: Elements): (bits: seq<BitValue>)
    ensures |bits| == Width(es)
  {
    if es.End? then [] else Digits(es.value, es.width) + Encode(es.rest)
  }

  /** Reads from `pos` on yield the elements one after the other. */
  predicate Carries(s: Source, pos: nat, es: Elements)
    decreases es
  {
    es.Put? ==> F(s, pos, es.width) == es.value && Carries(s, pos + es.width, es.rest)
  }

  lemma {:induction false} CarriesAppend(s: Source, pos: nat, a: Elements, b: Elements)
    ensures Carries(s, pos, Append(a, b)) <==> Carries(s, pos, a) && Carries(s, pos + Width(a), b)
    decreases a
  {
    if a.Put? {
      CarriesAppend(s, pos + a.width, a.rest, b);
      assert pos + Width(a) == pos + a.width + Width(a.rest);
    }
  }

  /** What was written can be read back, wherever it stands. */
  lemma {:induction false} WrittenCarries(s: Source, before: seq<BitValue>, es: Elements, after: seq<BitValue>)
    requires AllFit(es) && BeginsWith(s.bits, before + Encode(es) + after)
    requires |before| + Width(es) <= s.limit
    ensures Carries(s, |before|, es)
    decreases es
  {
    if es.Put? {
      var d := Digits(es.value, es.width);
      assert before + Encode(es) + after == before + d + (Encode(es.rest) + after);
      assert before + Encode(es) + after == (before + d) + Encode(es.rest) + after;
      DigitsInverse(es.value, es.width);
      MiddleValue(s.bits, before, d, Encode(es.rest) + after);
      WrittenCarries(s, before + d, es.rest, after);
    }
  }

  lemma BitsOfFront(bytes: seq<Byte>, more: seq<Byte>, i: nat)
    requires i < 8 * |bytes|
    ensures BitAt(BitsOf(bytes + more), i) == BitAt(BitsOf(bytes), i)
  {
  }

  lemma BitsBehind(front: seq<Byte>, more: seq<Byte>, i: nat, j: nat)
    requires j < 8 * |more| && i == 8 * |front| + j
    ensures BitAt(BitsOf(front + more), i) == BitAt(BitsOf(more), j)
  {
    assert i / 8 == |front| + j / 8 && i % 8 == j % 8;
  }

  lemma PackedAt(front: seq<Byte>, d: seq<BitValue>, more: seq<Byte>, i: nat)
    requires i < 8 * |front| + |d|
    ensures BitAt(BitsOf(front + (Pack(d) + more)), i) == (BitsOf(front) + d)[i]
  {
    if i < 8 * |front| {
      BitsOfFront(front, Pack(d) + more, i);
    } else {
      var j := i - 8 * |front|;
      BitsBehind(front, Pack(d) + more, i, j);
      BitsOfFront(Pack(d), more, j);
      PackBit(d, j);
    }
  }

  /** Packed bits between whole bytes. */
  lemma PackedBegins(front: seq<Byte>, d: seq<BitValue>, more: seq<Byte>)
    ensures BeginsWith(BitsOf(front + (Pack(d) + more)), BitsOf(front) + d)
  {
    forall i: nat | i < |BitsOf(front) + d|
      ensures BitAt(BitsOf(front + (Pack(d) + more)), i) == (BitsOf(front) + d)[i]
    {
      PackedAt(front, d, more, i);
    }
  }

  /** Reader inverts writer: what has been written and packed into bytes reads back field by
      field, whatever bytes stand before it and behind it. */
  lemma WriteThenRead(front: seq<Byte>, es: Elements, more: seq<Byte>, limit: int)
    requires AllFit(es) && 8 * |front| + Width(es) <= limit
    ensures Carries(Source(BitsOf(front + (Pack(Encode(es)) + more)), limit), 8 * |front|, es)
  {
    var bits := BitsOf(front + (Pack(Encode(es)) + more));
    PackedBegins(front, Encode(es), more);
    assert BitsOf(front) + Encode(es) + [] == BitsOf(front) + Encode(es);
    WrittenCarries(Source(bits, limit), BitsOf(front), es, []);
  }
}
