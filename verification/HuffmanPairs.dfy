/**
 One pair of big values (include/dr_mp3.h, `drmp3_L3_huffman`, the inner loops):
 the code, then for each of the two values its escape bits and its sign.
 */
module HuffmanPairs {
  import opened BitString
  import opened CachedBits
  import opened HuffmanCodes

  /** A codebook: its lookup tables, the code they stand for, its escape bits. */
  datatype Codebook = Codebook(book: seq<int>, tree: Tree, linbits: nat)

  predicate Escaped(lsb: nat, linbits: nat) {
    linbits > 0 && lsb == 15
  }

  /** A code of `len` bits followed by what its symbol asks for fits the valid bits: a
      sign each, or one sign and one escape. */
  predicate SymbolFits(symbol: nat, len: nat, linbits: nat) {
    && symbol < 256 && len + 2 <= VALID_BITS
    && (Escaped(symbol % 16, linbits) || Escaped(symbol / 16, linbits) ==> len + 1 + linbits <= VALID_BITS)
  }

  /** The same for every code of a tree reached after `len` bits. */
  predicate AllFit(t: Tree, len: nat, linbits: nat) {
    if t.Leaf? then SymbolFits(t.symbol, len, linbits)
    else AllFit(t.zero, len + 1, linbits) && AllFit(t.one, len + 1, linbits)
  }

  const MAX_LINBITS: nat := 13

  predicate WellFormed(b: Codebook) {
    && Codes(b.book, 0, FIRST_WIDTH, b.tree, 0)
    && AllFit(b.tree, 0, b.linbits) && b.linbits <= MAX_LINBITS
  }

  lemma {:induction false} FitsHeight(t: Tree, len: nat, linbits: nat)
    requires AllFit(t, len, linbits)
    ensures len + Height(t) + 2 <= VALID_BITS
  {
    if t.Node? {
      FitsHeight(t.zero, len + 1, linbits);
      FitsHeight(t.one, len + 1, linbits);
    }
  }

  lemma {:induction false} WalkFits(t: Tree, len: nat, linbits: nat, bits: Bits, pos: nat)
    requires AllFit(t, len, linbits)
    ensures SymbolFits(Walk(t, bits, pos).0, len + (Walk(t, bits, pos).1 - pos), linbits)
    decreases t
  {
    if t.Node? {
      WalkFits(Child(t, BitAt(bits, pos)), len + 1, linbits, bits, pos + 1);
    }
  }

  // ----- the values -----

  /** The magnitude of a value and where its bits end, escape bits included. */
  function Magnitude(lsb: nat, linbits: nat, bits: Bits, pos: nat): (nat, nat) {
    if Escaped(lsb, linbits) then (15 + Value(bits, pos, pos + linbits), pos + linbits) else (lsb, pos)
  }

  /** The signed value, and where it ends: zero has no sign bit. */
  function SignedValue(lsb: nat, linbits: nat, bits: Bits, pos: nat): (r: (int, nat))
    ensures pos <= r.1 <= pos + linbits + 1
  {
    var (mag, end) := Magnitude(lsb, linbits, bits, pos);
    if mag == 0 then (0, end)
    else (if BitAt(bits, end) == 1 then 0 - mag else mag, end + 1)
  }

  datatype Pair = Pair(first: int, second: int)

  /** A pair as the standard reads it: the code bit by bit, then each value in turn. */
  function PairAt(b: Codebook, bits: Bits, pos: nat): (r: (Pair, nat))
    ensures pos <= r.1 <= pos + Height(b.tree) + 2 * b.linbits + 2
  {
    var (symbol, p) := Walk(b.tree, bits, pos);
    var (x, q) := SignedValue(symbol % 16, b.linbits, bits, p);
    var (y, r) := SignedValue(symbol / 16, b.linbits, bits, q);
    (Pair(x, y), r)
  }

  /** Entry i of the power table is sign(n)|n|^(4/3) for this n. */
  function TableValue(i: nat): int {
    if i < 16 then 0 - i else i - 16
  }

  /** One turn of the loop over the pair. */
  method ReadValue(c: Cache, mem: seq<Byte>, lsb: nat, linbits: nat, ghost bits: Bits, ghost pos: nat)
    returns (c': Cache, value: int, ghost end: nat)
    requires StandsAt(c, bits, pos) && Spells(bits, mem) && lsb < 16 && linbits < VALID_BITS
    requires (if Escaped(lsb, linbits) then linbits else 1) <= c.Valid()
    requires pos + linbits + 32 <= 8 * |mem|
    ensures (value, end) == SignedValue(lsb, linbits, bits, pos)
    ensures StandsAt(c', bits, end)
    ensures Escaped(lsb, linbits) ==> c'.Valid() >= VALID_BITS - 1
    ensures !Escaped(lsb, linbits) ==> c'.Valid() >= c.Valid() - 1
  {
    c', end := c, pos;
    var mag := lsb;
    if linbits > 0 && lsb == 15 {
      PeekIsValue(c', bits, pos, linbits);
      mag := lsb + c'.Peek(linbits);
      c' := FlushBits(c', linbits, bits, end);
      end := end + linbits;
      c' := Check(c', mem, bits, end);
      SignBit(c', bits, end);
      value := mag * (if c'.Peek(1) == 1 then -1 else 1);
    } else {
      SignBit(c', bits, end);
      value := TableValue(16 + lsb - 16 * c'.Peek(1));
    }
    c' := FlushBits(c', if mag != 0 then 1 else 0, bits, end);
    end := end + (if mag != 0 then 1 else 0);
  }

  /** The furthest a pair can reach. */
  const PAIR_BITS: nat := 51

  /** The code, then the two values, the second from the symbol's high digit. */
  method DecodePair(c: Cache, mem: seq<Byte>, b: Codebook, ghost bits: Bits, ghost pos: nat)
    returns (c': Cache, pair: Pair, ghost end: nat)
    requires Ready(c, bits, pos) && Spells(bits, mem) && WellFormed(b)
    requires pos + PAIR_BITS + 32 <= 8 * |mem|
    ensures pair == PairAt(b, bits, pos).0
    ensures end == PairAt(b, bits, pos).1 <= pos + 51 && Ready(c', bits, end)
  {
    FitsHeight(b.tree, 0, b.linbits);
    WalkFits(b.tree, 0, b.linbits, bits, pos);
    var leaf, x, y;
    c', leaf, end := DecodeSymbol(c, b.book, b.tree, bits, pos);
    LeafDigits(leaf);
    c', x, end := ReadValue(c', mem, leaf % 16, b.linbits, bits, end);
    leaf := leaf / 16;
    c', y, end := ReadValue(c', mem, leaf % 16, b.linbits, bits, end);
    c' := Check(c', mem, bits, end);
    pair := Pair(x, y);
  }

  lemma LeafDigits(leaf: nat)
    ensures leaf % 256 % 16 == leaf % 16 && leaf % 256 / 16 == leaf / 16 % 16
  {
  }

  // ----- an instance: the decoder's codebook with table number 2, which has two levels -----

  const TABLE_2: seq<int> := [
    -255, 1313, 1298, 1282, 785, 785, 785, 785, 784, 784, 784, 784, 769, 769, 769, 769,
    256, 256, 256, 256, 256, 256, 256, 256, 256, 256, 256, 256, 256, 256, 256, 256, 290, 288]

  const TREE_2: Tree :=
    Node(
      Node(
        Node(Node(Node(Node(Leaf(34), Leaf(32)), Leaf(33)), Node(Leaf(18), Leaf(2))), Leaf(17)),
        Node(Leaf(16), Leaf(1))),
      Leaf(0))

  lemma LeafCodes(book: seq<int>, off: int, size: nat, w: nat, t: Tree, depth: nat)
    requires t.Leaf? && t.symbol < 256 && size == Pow2(w) && Filled(book, off, off + size, 256 * depth + t.symbol)
    ensures Codes(book, off, w, t, depth)
  {
  }

  lemma JoinCodes(book: seq<int>, off: int, half: nat, w: nat, t: Tree, depth: nat)
    requires half == Pow2(w) && t.Node?
    requires Codes(book, off, w, t.zero, depth + 1) && Codes(book, off + half, w, t.one, depth + 1)
    ensures Codes(book, off, w + 1, t, depth)
  {
  }

  lemma LeadCodes(book: seq<int>, off: int, next: int, w: nat, t: Tree, depth: nat)
    requires t.Node? && 0 <= off < |book| && book[off] < 0 && NextTable(book[off]) == next && NextWidth(book[off]) == w
    requires 1 <= w <= Height(t) && Codes(book, next, w, t, 0)
    ensures Codes(book, off, 0, t, depth)
  {
  }

  lemma PowersToSixteen()
    ensures Pow2(0) == 1 && Pow2(1) == 2 && Pow2(2) == 4 && Pow2(3) == 8 && Pow2(4) == 16
  {
  }

  /** Two neighbouring entries. */
  lemma TwoCodes(book: seq<int>, off: int, t: Tree, depth: nat)
    requires t.Node? && t.zero.Leaf? && t.one.Leaf? && t.zero.symbol < 256 && t.one.symbol < 256
    requires 0 <= off && off + 2 <= |book|
    requires book[off] == 256 * (depth + 1) + t.zero.symbol && book[off + 1] == 256 * (depth + 1) + t.one.symbol
    ensures Codes(book, off, 1, t, depth)
  {
    hide Codes;
    PowersToSixteen();
    LeafCodes(book, off, 1, 0, t.zero, depth + 1);
    LeafCodes(book, off + 1, 1, 0, t.one, depth + 1);
    JoinCodes(book, off, 1, 0, t, depth);
  }

  lemma Table2Deep(book: seq<int>, t: Tree)
    requires book == TABLE_2 && t == TREE_2.zero.zero.zero.zero
    ensures Codes(book, 0, 1, t, 4)
  {
    hide Codes;
    PowersToSixteen();
    TwoCodes(book, 32, t.zero, 0);
    LeadCodes(book, 0, 32, 1, t.zero, 5);
    LeafCodes(book, 1, 1, 0, t.one, 5);
    JoinCodes(book, 0, 1, 0, t, 4);
  }

  lemma Table2Long(book: seq<int>, t: Tree)
    requires book == TABLE_2 && t == TREE_2.zero.zero
    ensures Codes(book, 0, 3, t, 2)
  {
    hide Codes;
    PowersToSixteen();
    Table2Deep(book, t.zero.zero);
    TwoCodes(book, 2, t.zero.one, 4);
    JoinCodes(book, 0, 2, 1, t.zero, 3);
    LeafCodes(book, 4, 4, 2, t.one, 3);
    JoinCodes(book, 0, 4, 2, t, 2);
  }

  lemma Table2Short(book: seq<int>, t: Tree)
    requires book == TABLE_2 && t == TREE_2.zero.one
    ensures Codes(book, 8, 3, t, 2)
  {
    hide Codes;
    PowersToSixteen();
    LeafCodes(book, 8, 4, 2, t.zero, 3);
    LeafCodes(book, 12, 4, 2, t.one, 3);
    JoinCodes(book, 8, 4, 2, t, 2);
  }

  lemma Table2Zero(book: seq<int>, t: Tree)
    requires book == TABLE_2 && t == TREE_2.zero
    ensures Codes(book, 0, 4, t, 1)
  {
    hide Codes;
    PowersToSixteen();
    Table2Long(book, t.zero);
    Table2Short(book, t.one);
    JoinCodes(book, 0, 8, 3, t, 1);
  }

  lemma Table2One(book: seq<int>, t: Tree)
    requires book == TABLE_2 && t == TREE_2.one
    ensures Codes(book, 16, 4, t, 1)
  {
    hide Codes;
    PowersToSixteen();
    LeafCodes(book, 16, 16, 4, t, 1);
  }

  lemma JoinFit(t: Tree, len: nat, linbits: nat)
    requires t.Node? && AllFit(t.zero, len + 1, linbits) && AllFit(t.one, len + 1, linbits)
    ensures AllFit(t, len, linbits)
  {
  }

  lemma Table2Fits(t: Tree)
    requires t == TREE_2
    ensures AllFit(t, 0, 0)
  {
    JoinFit(t.zero.zero.zero.zero.zero, 5, 0);
    JoinFit(t.zero.zero.zero.zero, 4, 0);
    JoinFit(t.zero.zero.zero.one, 4, 0);
    JoinFit(t.zero.zero.zero, 3, 0);
    JoinFit(t.zero.zero, 2, 0);
    JoinFit(t.zero.one, 2, 0);
    JoinFit(t.zero, 1, 0);
  }

  lemma Table2Codes(book: seq<int>, t: Tree)
    requires book == TABLE_2 && t == TREE_2
    ensures Codes(book, 0, FIRST_WIDTH, t, 0)
  {
    hide Codes;
    PowersToSixteen();
    Table2Zero(book, t.zero);
    Table2One(book, t.one);
    JoinCodes(book, 0, 16, 4, t, 0);
  }

  /** The requirements on codebooks are met by one of the decoder's own. */
  lemma Table2WellFormed(b: Codebook)
    requires b.book == TABLE_2 && b.tree == TREE_2 && b.linbits == 0
    ensures WellFormed(b)
  {
    Table2Codes(b.book, b.tree);
    Table2Fits(b.tree);
  }
}
