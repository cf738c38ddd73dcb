/**
 Bit strings, the bytes that spell them (most significant bit first), and the
 unsigned word operations the decoder's bit readers are written with.

 Every bit reader of the decoder is specified against `Value`: the number whose
 binary digits are the bits at positions [from, to). Shifts are defined one
 place at a time, so that every proof about them is linear.
 */
module BitString {

  type Byte = b: int | 0 <= b < 256

  // ----- shifts of unbounded naturals -----

  /** x * 2^k */
  function Shift(x: nat, k: nat): (r: nat)
    ensures x <= r
  {
    if k == 0 then x else 2 * Shift(x, k - 1)
  }

  /** x / 2^k */
  function Drop(x: nat, k: nat): (r: nat)
    ensures r <= x
  {
    if k == 0 then x else Drop(x, k - 1) / 2
  }

  /** x modulo 2^k */
  function Keep(x: nat, k: nat): nat {
    if k == 0 then 0 else 2 * Keep(x / 2, k - 1) + x % 2
  }

  function Pow2(k: nat): nat {
    Shift(1, k)
  }

  lemma {:induction false} ShiftAdd(x: nat, a: nat, b: nat)
    ensures Shift(Shift(x, a), b) == Shift(x, a + b)
  {
    if b > 0 { ShiftAdd(x, a, b - 1); }
  }

  lemma {:induction false} ShiftZero(k: nat)
    ensures Shift(0, k) == 0
  {
    if k > 0 { ShiftZero(k - 1); }
  }

  lemma {:induction false} ShiftPlus(x: nat, y: nat, k: nat)
    ensures Shift(x + y, k) == Shift(x, k) + Shift(y, k)
  {
    if k > 0 { ShiftPlus(x, y, k - 1); }
  }

  lemma ShiftParts(h: nat, w: nat, l: nat, t: nat)
    ensures Shift(Shift(h, w) + l, t) == Shift(h, w + t) + Shift(l, t)
  {
    ShiftPlus(Shift(h, w), l, t);
    ShiftAdd(h, w, t);
  }

  lemma {:induction false} ShiftStrict(x: nat, y: nat, k: nat)
    requires x < y
    ensures Shift(x, k) < Shift(y, k)
  {
    if k > 0 { ShiftStrict(x, y, k - 1); }
  }

  lemma {:induction false} Pow2Monotone(a: nat, b: nat)
    requires a <= b
    ensures Pow2(a) <= Pow2(b)
  {
    if a < b { Pow2Monotone(a, b - 1); }
  }

  /** w bits moved up by t places stay below 2^(w+t). */
  lemma ShiftBound(v: nat, w: nat, t: nat)
    requires v < Pow2(w)
    ensures Shift(v, t) < Pow2(w + t)
  {
    ShiftStrict(v, Pow2(w), t);
    ShiftAdd(1, w, t);
  }

  lemma {:induction false} DropHalf(x: nat, k: nat)
    ensures Drop(x / 2, k) == Drop(x, k) / 2
  {
    if k > 0 { DropHalf(x, k - 1); }
  }

  /** A number assembled from high bits and k low bits comes apart again. */
  lemma {:induction false} DropKeepOfSum(h: nat, l: nat, k: nat)
    requires l < Pow2(k)
    ensures Drop(Shift(h, k) + l, k) == h
    ensures Keep(Shift(h, k) + l, k) == l
  {
    if k > 0 {
      var x := Shift(h, k) + l;
      assert x / 2 == Shift(h, k - 1) + l / 2 && x % 2 == l % 2;
      DropKeepOfSum(h, l / 2, k - 1);
      DropHalf(x, k - 1);
    }
  }

  // ----- bit strings -----

  type BitValue = b: nat | b < 2

  type Bits = seq<BitValue>

  function BitAt(bits: Bits, i: nat): BitValue {
    if i < |bits| then bits[i] else 0
  }

  function Value(bits: Bits, from: nat, to: nat): nat {
    if to <= from then 0 else 2 * Value(bits, from, to - 1) + BitAt(bits, to - 1)
  }

  lemma {:induction false} ValueBound(bits: Bits, from: nat, to: nat)
    requires from <= to
    ensures Value(bits, from, to) < Pow2(to - from)
  {
    if from < to { ValueBound(bits, from, to - 1); }
  }

  /** Reading up to `mid` and then on is reading the whole at once. */
  lemma {:induction false} ValueSplit(bits: Bits, from: nat, mid: nat, to: nat)
    requires from <= mid <= to
    ensures Value(bits, from, to) == Shift(Value(bits, from, mid), to - mid) + Value(bits, mid, to)
  {
    if mid < to {
      ValueSplit(bits, from, mid, to - 1);
    }
  }

  /** The leading bits of a value, and its trailing ones. */
  lemma ValueHighLow(bits: Bits, from: nat, mid: nat, to: nat)
    requires from <= mid <= to
    ensures Drop(Value(bits, from, to), to - mid) == Value(bits, from, mid)
    ensures Keep(Value(bits, from, to), to - mid) == Value(bits, mid, to)
  {
    ValueSplit(bits, from, mid, to);
    ValueBound(bits, mid, to);
    DropKeepOfSum(Value(bits, from, mid), Value(bits, mid, to), to - mid);
  }

  // ----- the bits of bytes -----

  /** The bits the bytes spell, most significant first. */
  function BitsOf(bytes: seq<Byte>): (bits: Bits)
    ensures |bits| == 8 * |bytes|
  {
    seq(8 * |bytes|, i requires 0 <= i < 8 * |bytes| => Drop(bytes[i / 8], 7 - i % 8) % 2)
  }

  ghost predicate Spells(bits: Bits, bytes: seq<Byte>) {
    |bits| == 8 * |bytes| && forall q: nat :: q < |bytes| ==> SpelledAt(bits, bytes, q)
  }

  predicate SpelledAt(bits: Bits, bytes: seq<Byte>, q: nat)
    requires q < |bytes|
  {
    Value(bits, 8 * q, 8 * (q + 1)) == bytes[q]
  }

  /** The first k bits of a byte. */
  lemma {:induction false} ByteHead(bytes: seq<Byte>, q: nat, k: nat)
    requires q < |bytes| && k <= 8
    ensures Value(BitsOf(bytes), 8 * q, 8 * q + k) == Drop(bytes[q], 8 - k)
  {
    if k == 0 {
      ShiftZero(8);
      ShiftByByte(1);
      DropKeepOfSum(0, bytes[q], 8);
    } else {
      ByteHead(bytes, q, k - 1);
      var i := 8 * q + k - 1;
      assert i / 8 == q && i % 8 == k - 1;
      assert Drop(bytes[q], 8 - (k - 1)) == Drop(bytes[q], 8 - k) / 2;
    }
  }

  lemma BitsOfSpells(bytes: seq<Byte>)
    ensures Spells(BitsOf(bytes), bytes)
  {
    forall q: nat | q < |bytes| ensures SpelledAt(BitsOf(bytes), bytes, q) {
      ByteHead(bytes, q, 8);
    }
  }

  /** The bits of a byte from bit s on. */
  lemma ByteTail(bits: Bits, bytes: seq<Byte>, q: nat, s: nat)
    requires Spells(bits, bytes) && q < |bytes| && s <= 8
    ensures Value(bits, 8 * q + s, 8 * (q + 1)) == Keep(bytes[q], 8 - s)
  {
    assert SpelledAt(bits, bytes, q);
    ValueHighLow(bits, 8 * q, 8 * q + s, 8 * (q + 1));
  }

  // ----- unsigned words -----

  const WORD: nat := 0x1_0000_0000

  /** Shifting by 32 places is multiplication by the word size. */
  lemma ShiftByWord(x: nat)
    ensures Shift(x, 32) == WORD * x
  {
    ShiftAdd(x, 8, 8);
    ShiftAdd(x, 16, 8);
    ShiftAdd(x, 24, 8);
    ShiftByByte(x);
    ShiftByByte(Shift(x, 8));
    ShiftByByte(Shift(x, 16));
    ShiftByByte(Shift(x, 24));
  }

  lemma ShiftByByte(x: nat)
    ensures Shift(x, 8) == 256 * x
  {
    assert Shift(x, 1) == 2 * x;
    assert Shift(x, 2) == 4 * x;
    assert Shift(x, 4) == 4 * Shift(x, 2);
    assert Shift(x, 6) == 4 * Shift(x, 4);
  }

  /** x << k on a 32-bit unsigned word. */
  function Shl(x: nat, k: nat): nat {
    Shift(x, k) % WORD
  }

  /** w bits moved up by t places lose nothing while w+t is within the word. */
  lemma ShlFits(v: nat, w: nat, t: nat)
    requires v < Pow2(w) && w + t <= 32
    ensures Shl(v, t) == Shift(v, t) < Pow2(w + t)
  {
    ShiftBound(v, w, t);
    Pow2Monotone(w + t, 32);
    ShiftByWord(1);
  }

  /** x >> k on an unsigned word. */
  function Shr(x: nat, k: nat): nat {
    Drop(x, k)
  }

  /** x | y, bit by bit. */
  function Or(x: nat, y: nat): nat
    decreases x + y
  {
    if x == 0 then y else if y == 0 then x
    else 2 * Or(x / 2, y / 2) + (if x % 2 == 1 || y % 2 == 1 then 1 else 0)
  }

  /** x & y, bit by bit. */
  function And(x: nat, y: nat): nat {
    if x == 0 || y == 0 then 0
    else 2 * And(x / 2, y / 2) + (if x % 2 == 1 && y % 2 == 1 then 1 else 0)
  }

  /** Or of words with no common bit is addition. */
  lemma {:induction false} OrDisjoint(h: nat, l: nat, k: nat)
    requires l < Pow2(k)
    ensures Or(Shift(h, k), l) == Shift(h, k) + l
  {
    if k > 0 {
      OrDisjoint(h, l / 2, k - 1);
    }
  }

  /** Putting w bits, moved up by t, into the gap below higher bits. */
  lemma OrInto(h: nat, w: nat, l: nat, t: nat)
    requires l < Pow2(w) && w + t <= 32
    ensures Or(Shift(h, w + t), Shl(l, t)) == Shift(Shift(h, w) + l, t)
  {
    ShlFits(l, w, t);
    OrDisjoint(h, Shift(l, t), w + t);
    ShiftParts(h, w, l, t);
  }

  /** And with a mask of k ones keeps the k low bits. */
  lemma {:induction false} AndMask(x: nat, k: nat)
    ensures And(x, Pow2(k) - 1) == Keep(x, k)
  {
    if k > 0 {
      AndMask(x / 2, k - 1);
      assert (Pow2(k) - 1) / 2 == Pow2(k - 1) - 1;
      if x == 0 {
        assert And(0, Pow2(k - 1) - 1) == 0;
      }
    }
  }

  /** 255 >> s is the mask of the low 8-s bits. */
  lemma {:induction false} ByteMask(s: nat)
    requires s <= 8
    ensures Shr(255, s) == Pow2(8 - s) - 1
  {
    if s > 0 { ByteMask(s - 1); }
  }
}
