/**
 Decoding one pair of quantised values (include/dr_mp3.h, `drmp3_L3_huffman`).

 A codebook is an array of multi-level lookup tables; the code it stands for is a
 binary tree walked one bit at a time. `Codes` says that the tables are an encoding
 of the tree. All of it holds for any such codebook; the decoder's own tables are
 not part of this model.
 */
module HuffmanCodes {
  import opened BitString
  import opened CachedBits
  import opened Numbers

  // ----- the code: a tree, walked bit by bit -----

  datatype Tree = Leaf(symbol: nat) | Node(zero: Tree, one: Tree)

  function Child(t: Tree, b: BitValue): Tree
    requires t.Node?
  {
    if b == 0 then t.zero else t.one
  }

  function Height(t: Tree): nat {
    if t.Leaf? then 0 else 1 + Max(Height(t.zero), Height(t.one))
  }

  /** The symbol found by following the bits from pos on, and where its code ends. */
  function Walk(t: Tree, bits: Bits, pos: nat): (r: (nat, nat))
    ensures pos <= r.1 <= pos + Height(t)
    decreases t
  {
    if t.Leaf? then (t.symbol, pos) else Walk(Child(t, BitAt(bits, pos)), bits, pos + 1)
  }

  // ----- the codebook -----

  /** The part of a table at `off` that is indexed by the next w bits, `depth` bits of its
      index being spent, encodes t: a code that ends within the table fills every entry
      it is a prefix of with its symbol and the bits it takes from this table; a longer
      one leads to an entry that names the next table and its width. */
  predicate Codes(book: seq<int>, off: int, w: nat, t: Tree, depth: nat)
    decreases t, w == 0
  {
    if t.Leaf? then
      t.symbol < 256 && Filled(book, off, off + Pow2(w), 256 * depth + t.symbol)
    else if w == 0 then
      0 <= off < |book| && book[off] < 0 && 1 <= NextWidth(book[off]) <= Height(t) &&
      Codes(book, NextTable(book[off]), NextWidth(book[off]), t, 0)
    else
      Codes(book, off, w - 1, t.zero, depth + 1) &&
      Codes(book, off + Pow2(w - 1), w - 1, t.one, depth + 1)
  }

  predicate Filled(book: seq<int>, from: int, to: int, entry: int) {
    0 <= from <= to <= |book| && forall j :: from <= j < to ==> book[j] == entry
  }

  /** leaf & 7 */
  function NextWidth(leaf: int): nat { leaf % 8 }

  /** -(leaf >> 3) */
  function NextTable(leaf: int): int { -(leaf / 8) }

  lemma {:induction false} CodesInRange(book: seq<int>, off: int, w: nat, t: Tree, depth: nat)
    requires Codes(book, off, w, t, depth)
    ensures 0 <= off && off + Pow2(w) <= |book|
    decreases w
  {
    if t.Node? && w > 0 {
      CodesInRange(book, off, w - 1, t.zero, depth + 1);
      CodesInRange(book, off + Pow2(w - 1), w - 1, t.one, depth + 1);
    }
  }

  /** A non-negative entry ends the code the next bits spell. */
  predicate EndsCode(e: int, w: nat, t: Tree, depth: nat, bits: Bits, pos: nat) {
    var r := Walk(t, bits, pos);
    e >= 0 && r.0 < 256 && r.1 <= pos + w && e == 256 * (depth + (r.1 - pos)) + r.0
  }

  /** A negative entry leads to the table of the subtree w bits down. */
  predicate LeadsTo(book: seq<int>, e: int, w: nat, t: Tree, bits: Bits, pos: nat, t': Tree) {
    && e < 0 && Walk(t, bits, pos) == Walk(t', bits, pos + w) && Height(t') + w <= Height(t)
    && 1 <= NextWidth(e) <= Height(t') && Codes(book, NextTable(e), NextWidth(e), t', 0)
  }

  lemma {:induction false} Lookup(book: seq<int>, off: int, w: nat, t: Tree, depth: nat, bits: Bits, pos: nat, i: int)
    returns (t': Tree)
    requires Codes(book, off, w, t, depth) && i == off + Value(bits, pos, pos + w)
    ensures 0 <= i < |book|
    ensures if book[i] >= 0 then EndsCode(book[i], w, t, depth, bits, pos)
            else LeadsTo(book, book[i], w, t, bits, pos, t')
    decreases w
  {
    t' := t;
    CodesInRange(book, off, w, t, depth);
    ValueBound(bits, pos, pos + w);
    if t.Node? && w > 0 {
      var b := BitAt(bits, pos);
      IndexSplit(bits, pos, w);
      t' := LookupChild(book, if b == 0 then off else off + Pow2(w - 1), w, t, depth, bits, pos, i);
    }
  }

  lemma {:induction false} LookupChild(book: seq<int>, off: int, w: nat, t: Tree, depth: nat, bits: Bits, pos: nat,
          i: int)
    returns (t': Tree)
    requires t.Node? && w > 0 && Codes(book, off, w - 1, Child(t, BitAt(bits, pos)), depth + 1)
    requires i == off + Value(bits, pos + 1, pos + w)
    ensures 0 <= i < |book|
    ensures if book[i] >= 0 then EndsCode(book[i], w, t, depth, bits, pos)
            else LeadsTo(book, book[i], w, t, bits, pos, t')
    decreases w, 0
  {
    t' := Lookup(book, off, w - 1, Child(t, BitAt(bits, pos)), depth + 1, bits, pos + 1, i);
  }

  /** The first of w index bits chooses the half of the table. */
  lemma IndexSplit(bits: Bits, pos: nat, w: nat)
    requires w > 0
    ensures Value(bits, pos, pos + w) == (if BitAt(bits, pos) == 0 then 0 else Pow2(w - 1)) +
      Value(bits, pos + 1, pos + w)
  {
    ValueSplit(bits, pos, pos + 1, pos + w);
    assert Value(bits, pos, pos + 1) == 2 * Value(bits, pos, pos) + BitAt(bits, pos);
    ShiftZero(w - 1);
  }

  const FIRST_WIDTH: nat := 5
  const VALID_BITS: nat := 25

  /** codebook[PEEK(w) + off] */
  method ReadEntry(c: Cache, book: seq<int>, off: int, w: nat, ghost t: Tree, ghost bits: Bits, ghost pos: nat)
    returns (leaf: int, ghost down: Tree)
    requires StandsAt(c, bits, pos) && w <= c.Valid() && Codes(book, off, w, t, 0)
    ensures if leaf >= 0 then EndsCode(leaf, w, t, 0, bits, pos) else LeadsTo(book, leaf, w, t, bits, pos, down)
  {
    PeekIsValue(c, bits, pos, w);
    down := Lookup(book, off, w, t, 0, bits, pos, c.Peek(w) + off);
    leaf := book[c.Peek(w) + off];
  }

  /** The table walk: decodes the symbol the bit-by-bit walk finds and consumes its bits. */
  method DecodeSymbol(c: Cache, book: seq<int>, ghost t: Tree, ghost bits: Bits, ghost pos: nat)
    returns (c': Cache, leaf: int, ghost end: nat)
    requires Ready(c, bits, pos) && Codes(book, 0, FIRST_WIDTH, t, 0) && Height(t) <= VALID_BITS
    ensures end == Walk(t, bits, pos).1 && StandsAt(c', bits, end) && c'.next == c.next
    ensures leaf >= 0 && leaf % 256 == Walk(t, bits, pos).0
  {
    hide Codes, Walk;
    c', end := c, pos;
    var w := FIRST_WIDTH;
    ghost var sub, down := t, t;
    leaf, down := ReadEntry(c', book, 0, w, t, bits, pos);
    while leaf < 0
      invariant StandsAt(c', bits, end) && c'.next == c.next && pos <= end && w >= 1
      invariant end + w <= pos + VALID_BITS && end + Height(sub) <= pos + VALID_BITS
      invariant Walk(sub, bits, end) == Walk(t, bits, pos)
      invariant if leaf >= 0 then EndsCode(leaf, w, sub, 0, bits, end) else LeadsTo(book, leaf, w, sub, bits, end, down)
      decreases Height(sub)
    {
      c' := FlushBits(c', w, bits, end);
      end, sub := end + w, down;
      w := NextWidth(leaf);
      leaf, down := ReadEntry(c', book, NextTable(leaf), w, sub, bits, end);
    }
    c' := FlushBits(c', leaf / 256, bits, end);
    end := end + leaf / 256;
  }
}
