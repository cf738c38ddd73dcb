/**
 The bit reader inside the Huffman stage (include/dr_mp3.h, `drmp3_L3_huffman`):
 a 32-bit word of look-ahead, its fill level and the address of the next byte. Its
 macros read the same bit string as the plain reader does.
 */
module CachedBits {
  import opened BitString

  /** bs_cache, bs_sh and the index bs_next_ptr has reached. */
  datatype Cache = Cache(word: nat, sh: int, next: nat)
  {
    /** DRMP3_BSPOS */
    function Position(): int {
      8 * next - 24 + sh
    }

    /** How many bits of the word are valid. */
    function Valid(): int {
      24 - sh
    }

    /** DRMP3_PEEK_BITS(n) */
    function Peek(n: nat): nat
      requires n <= 32
    {
      Shr(word, 32 - n)
    }

    /** DRMP3_FLUSH_BITS(n) */
    function Flush(n: nat): Cache {
      Cache(Shl(word, n), sh + n, next)
    }
  }

  /** The cache stands at bit `pos`: DRMP3_BSPOS is that position, and the word holds the
      bits from there up to the next byte, left-justified and zero-filled. */
  ghost predicate StandsAt(c: Cache, bits: Bits, pos: nat) {
    && -8 <= c.sh <= 24
    && c.Position() == pos
    && 8 * c.next <= |bits|
    && c.word == Shift(Value(bits, pos, 8 * c.next), 8 + c.sh)
  }

  /** After DRMP3_CHECK_BITS at least 25 bits are valid. */
  ghost predicate Ready(c: Cache, bits: Bits, pos: nat) {
    StandsAt(c, bits, pos) && c.sh < 0
  }

  /** The word as the bits before `mid` above the bits from `mid` on. */
  lemma WordParts(bits: Bits, pos: nat, mid: nat, end: nat, t: nat)
    requires pos <= mid <= end
    ensures Shift(Value(bits, pos, end), t) ==
      Shift(Value(bits, pos, mid), end - mid + t) + Shift(Value(bits, mid, end), t)
    ensures Shift(Value(bits, mid, end), t) < Pow2(end - mid + t)
  {
    hide Value, Pow2, Shift;
    ValueSplit(bits, pos, mid, end);
    ShiftParts(Value(bits, pos, mid), end - mid, Value(bits, mid, end), t);
    ValueBound(bits, mid, end);
    ShiftBound(Value(bits, mid, end), end - mid, t);
  }

  lemma PeekIsValue(c: Cache, bits: Bits, pos: nat, n: nat)
    requires StandsAt(c, bits, pos) && n <= c.Valid()
    ensures c.Peek(n) == Value(bits, pos, pos + n)
  {
    WordParts(bits, pos, pos + n, 8 * c.next, 8 + c.sh);
    DropKeepOfSum(Value(bits, pos, pos + n), Shift(Value(bits, pos + n, 8 * c.next), 8 + c.sh), 32 - n);
  }

  lemma ModWord(h: nat, l: nat)
    requires l < WORD
    ensures (WORD * h + l) % WORD == l
  {
  }

  /** Shifting the word out by the bits up to `mid` leaves those behind it. */
  lemma FlushWord(bits: Bits, pos: nat, mid: nat, end: nat, n: nat, t: nat, t1: nat)
    requires pos <= mid <= end && mid == pos + n && t1 == t + n && end - mid + t1 == 32
    ensures Shl(Shift(Value(bits, pos, end), t), n) == Shift(Value(bits, mid, end), t1)
  {
    hide Value;
    ShiftAdd(Value(bits, pos, end), t, n);
    WordParts(bits, pos, mid, end, t1);
    ShiftByWord(Value(bits, pos, mid));
    ShiftByWord(1);
    ModWord(Value(bits, pos, mid), Shift(Value(bits, mid, end), t1));
  }

  lemma FlushMoves(c: Cache, bits: Bits, pos: nat, n: nat)
    requires StandsAt(c, bits, pos) && n <= c.Valid()
    ensures StandsAt(c.Flush(n), bits, pos + n)
  {
    hide Value, Shift, Shl;
    FlushWord(bits, pos, pos + n, 8 * c.next, n, 8 + c.sh, 8 + c.sh + n);
  }

  /** DRMP3_FLUSH_BITS(n): n of the valid bits are consumed. */
  method FlushBits(c: Cache, n: nat, ghost bits: Bits, ghost pos: nat) returns (c': Cache)
    requires StandsAt(c, bits, pos) && n <= c.Valid()
    ensures StandsAt(c', bits, pos + n) && c'.next == c.next && c'.sh == c.sh + n
  {
    FlushMoves(c, bits, pos, n);
    c' := c.Flush(n);
  }

  lemma FillWord(bits: Bits, pos: nat, b: nat, e: nat, sh: nat)
    requires pos <= b && e == b + 8 && sh <= 24
    ensures Or(Shift(Value(bits, pos, b), 8 + sh), Shl(Value(bits, b, e), sh)) == Shift(Value(bits, pos, e), sh)
  {
    ValueBound(bits, b, e);
    ValueSplit(bits, pos, b, e);
    OrInto(Value(bits, pos, b), 8, Value(bits, b, e), sh);
  }

  /** One byte shifted in below the valid bits. */
  method FillByte(c: Cache, mem: seq<Byte>, ghost bits: Bits, ghost pos: nat) returns (c': Cache)
    requires StandsAt(c, bits, pos) && c.sh >= 0 && Spells(bits, mem) && c.next < |mem|
    ensures StandsAt(c', bits, pos) && c'.sh == c.sh - 8 && c'.next == c.next + 1
  {
    c' := Cache(Or(c.word, Shl(mem[c.next], c.sh)), c.sh - 8, c.next + 1);
    FillWord(bits, pos, 8 * c.next, 8 * (c.next + 1), c.sh);
    assert SpelledAt(bits, mem, c.next);
  }

  /** DRMP3_CHECK_BITS */
  method Check(c: Cache, mem: seq<Byte>, ghost bits: Bits, ghost pos: nat) returns (c': Cache)
    requires StandsAt(c, bits, pos) && Spells(bits, mem) && pos + 32 <= 8 * |mem|
    ensures Ready(c', bits, pos)
  {
    c' := c;
    while c'.sh >= 0
      invariant StandsAt(c', bits, pos)
    {
      c' := FillByte(c', mem, bits, pos);
    }
  }

  /** Four bytes as one word. */
  function Join(b0: nat, b1: nat, b2: nat, b3: nat): nat {
    ((b0 * 256 + b1) * 256 + b2) * 256 + b3
  }

  lemma FourBytes(mem: seq<Byte>, bits: Bits, q: nat)
    requires Spells(bits, mem) && q + 4 <= |mem|
    ensures Join(mem[q], mem[q + 1], mem[q + 2], mem[q + 3]) == Value(bits, 8 * q, 8 * (q + 4))
  {
    JoinByte(mem, bits, q, q + 1);
    JoinByte(mem, bits, q, q + 2);
    JoinByte(mem, bits, q, q + 3);
    assert SpelledAt(bits, mem, q);
  }

  lemma JoinByte(mem: seq<Byte>, bits: Bits, q: nat, r: nat)
    requires Spells(bits, mem) && q <= r < |mem|
    ensures Value(bits, 8 * q, 8 * (r + 1)) == Value(bits, 8 * q, 8 * r) * 256 + mem[r]
  {
    ValueSplit(bits, 8 * q, 8 * r, 8 * (r + 1));
    ShiftByByte(Value(bits, 8 * q, 8 * r));
    assert SpelledAt(bits, mem, r);
  }

  /** Loading the cache at any bit position. */
  method Load(mem: seq<Byte>, pos: nat, ghost bits: Bits) returns (c: Cache)
    requires Spells(bits, mem) && pos + 32 <= 8 * |mem|
    ensures Ready(c, bits, pos)
  {
    var q, s := pos / 8, pos % 8;
    var word := Join(mem[q], mem[q + 1], mem[q + 2], mem[q + 3]);
    FourBytes(mem, bits, q);
    FlushMoves(Cache(word, -8, q + 4), bits, 8 * q, s);
    c := Cache(Shl(word, s), s - 8, q + 4);
  }

  /** The top bit of the word is the bit at the position: the sign test. */
  lemma SignBit(c: Cache, bits: Bits, pos: nat)
    requires StandsAt(c, bits, pos) && c.Valid() >= 1
    ensures c.Peek(1) == BitAt(bits, pos)
  {
    PeekIsValue(c, bits, pos, 1);
    assert Value(bits, pos, pos + 1) == 2 * Value(bits, pos, pos) + BitAt(bits, pos);
  }
}
