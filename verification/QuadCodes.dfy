/**
 The count1 codes (include/dr_mp3.h, `tab32` and `tab33` of `drmp3_L3_huffman`): four
 values of magnitude at most one, coded together.
 */
module QuadCodes {
  import opened BitString
  import opened CachedBits
  import opened HuffmanCodes

  // ----- the codes of ISO/IEC 11172-3, annex B, tables A and B for quadruples -----

  const TREE_A: Tree :=
    Node(
      Node(
        Node(
          Node(Node(Node(Leaf(11), Leaf(15)), Node(Leaf(13), Leaf(14))),
               Node(Node(Leaf(7), Leaf(5)), Leaf(9))),
          Node(Node(Leaf(6), Leaf(3)), Node(Leaf(10), Leaf(12)))),
        Node(Node(Leaf(2), Leaf(1)), Node(Leaf(4), Leaf(8)))),
      Leaf(0))

  const TREE_B: Tree :=
    Node(
      Node(Node(Node(Leaf(15), Leaf(14)), Node(Leaf(13), Leaf(12))),
           Node(Node(Leaf(11), Leaf(10)), Node(Leaf(9), Leaf(8)))),
      Node(Node(Node(Leaf(7), Leaf(6)), Node(Leaf(5), Leaf(4))),
           Node(Node(Leaf(3), Leaf(2)), Node(Leaf(1), Leaf(0)))))

  // ----- the decoder's tables -----

  const TAB32: seq<nat> := [
    130, 162, 193, 209, 44, 28, 76, 140, 9, 9, 9, 9, 9, 9, 9, 9,
    190, 254, 222, 238, 126, 94, 157, 157, 109, 61, 173, 205]

  const TAB33: seq<nat> := [
    252, 236, 220, 204, 188, 172, 156, 140, 124, 108, 92, 76, 60, 44, 28, 12]

  predicate FilledWith(tab: seq<nat>, from: nat, to: nat, entry: nat) {
    from <= to <= |tab| && forall j :: from <= j < to ==> tab[j] == entry
  }

  /** A table part encodes t: a code's entries hold its symbol, a marker and its length;
      the one kind of longer code leads from its first four bits to a second table. */
  predicate Encodes(tab: seq<nat>, off: nat, w: nat, t: Tree, depth: nat)
    decreases t, w == 0
  {
    if t.Leaf? then
      t.symbol < 16 && depth < 8 && FilledWith(tab, off, off + Pow2(w), 16 * t.symbol + 8 + depth)
    else if w == 0 then
      depth == 4 && off < |tab| && !Marked(tab[off]) && 1 <= tab[off] % 4 &&
      EncodesTail(tab, tab[off] / 8, tab[off] % 4, t, depth)
    else
      Encodes(tab, off, w - 1, t.zero, depth + 1) && Encodes(tab, off + Pow2(w - 1), w - 1, t.one, depth + 1)
  }

  /** A second table: every code ends in it. */
  predicate EncodesTail(tab: seq<nat>, off: nat, w: nat, t: Tree, depth: nat)
    decreases t, 0
  {
    if t.Leaf? then
      t.symbol < 16 && depth < 8 && FilledWith(tab, off, off + Pow2(w), 16 * t.symbol + 8 + depth)
    else
      w > 0 && EncodesTail(tab, off, w - 1, t.zero, depth + 1) &&
      EncodesTail(tab, off + Pow2(w - 1), w - 1, t.one, depth + 1)
  }

  /** leaf & 8 */
  predicate Marked(leaf: nat) { leaf / 8 % 2 == 1 }

  /** The entry of the code the bits from pos on spell. */
  predicate IsQuad(leaf: nat, t: Tree, depth: nat, bits: Bits, pos: nat) {
    var r := Walk(t, bits, pos);
    r.0 < 16 && depth + (r.1 - pos) < 8 && leaf == 16 * r.0 + 8 + (depth + (r.1 - pos))
  }

  lemma {:induction false} LookupTail(tab: seq<nat>, off: nat, w: nat, t: Tree, depth: nat, bits: Bits, pos: nat,
          i: nat)
    requires EncodesTail(tab, off, w, t, depth) && i == off + Value(bits, pos, pos + w)
    ensures i < |tab| && IsQuad(tab[i], t, depth, bits, pos)
    decreases w
  {
    ValueBound(bits, pos, pos + w);
    if t.Node? {
      var b := BitAt(bits, pos);
      IndexSplit(bits, pos, w);
      LookupTail(tab, if b == 0 then off else off + Pow2(w - 1), w - 1, Child(t, b), depth + 1, bits, pos + 1, i);
    }
  }

  /** An entry of the first table: either the code's, or the way to the second table. */
  predicate HeadEntry(tab: seq<nat>, e: nat, w: nat, t: Tree, depth: nat, bits: Bits, pos: nat, t': Tree) {
    if Marked(e) then IsQuad(e, t, depth, bits, pos)
    else Walk(t, bits, pos) == Walk(t', bits, pos + w) && 1 <= e % 4
         && EncodesTail(tab, e / 8, e % 4, t', depth + w)
  }

  lemma {:induction false} LookupHead(tab: seq<nat>, off: nat, w: nat, t: Tree, depth: nat, bits: Bits, pos: nat,
          i: nat)
    returns (t': Tree)
    requires Encodes(tab, off, w, t, depth) && i == off + Value(bits, pos, pos + w)
    ensures i < |tab| && HeadEntry(tab, tab[i], w, t, depth, bits, pos, t')
    decreases w, 1
  {
    t' := t;
    ValueBound(bits, pos, pos + w);
    if t.Leaf? {
      MarkedLeaf(t.symbol, depth);
    } else if w > 0 {
      var b := BitAt(bits, pos);
      IndexSplit(bits, pos, w);
      t' := LookupHeadChild(tab, if b == 0 then off else off + Pow2(w - 1), w, t, depth, bits, pos, i);
    }
  }

  lemma {:induction false} LookupHeadChild(tab: seq<nat>, off: nat, w: nat, t: Tree, depth: nat, bits: Bits, pos: nat,
          i: nat)
    returns (t': Tree)
    requires t.Node? && w > 0 && Encodes(tab, off, w - 1, Child(t, BitAt(bits, pos)), depth + 1)
    requires i == off + Value(bits, pos + 1, pos + w)
    ensures i < |tab| && HeadEntry(tab, tab[i], w, t, depth, bits, pos, t')
    decreases w, 0
  {
    t' := LookupHead(tab, off, w - 1, Child(t, BitAt(bits, pos)), depth + 1, bits, pos + 1, i);
  }

  lemma MarkedLeaf(symbol: nat, len: nat)
    requires len < 8
    ensures Marked(16 * symbol + 8 + len) && (16 * symbol + 8 + len) / 16 == symbol
    ensures (16 * symbol + 8 + len) % 8 == len
  {
    assert (16 * symbol + 8 + len) / 8 == 2 * symbol + 1;
  }

  predicate QuadTable(tab: seq<nat>, t: Tree) {
    Encodes(tab, 0, 4, t, 0)
  }

  /** codebook_count1[(leaf >> 3) + (bs_cache << 4 >> (32 - (leaf & 3)))] */
  method SecondStep(c: Cache, tab: seq<nat>, off: nat, w: nat, ghost t': Tree, ghost bits: Bits, ghost pos: nat)
    returns (leaf: nat)
    requires StandsAt(c, bits, pos) && 7 <= c.Valid() && w < 4 && EncodesTail(tab, off, w, t', 4)
    ensures IsQuad(leaf, t', 4, bits, pos + 4)
  {
    FlushMoves(c, bits, pos, 4);
    PeekIsValue(c.Flush(4), bits, pos + 4, w);
    LookupTail(tab, off, w, t', 4, bits, pos + 4, off + c.Flush(4).Peek(w));
    leaf := tab[off + c.Flush(4).Peek(w)];
  }

  method FindQuad(c: Cache, tab: seq<nat>, ghost t: Tree, ghost bits: Bits, ghost pos: nat) returns (leaf: nat)
    requires StandsAt(c, bits, pos) && 7 <= c.Valid() && QuadTable(tab, t)
    ensures IsQuad(leaf, t, 0, bits, pos)
  {
    PeekIsValue(c, bits, pos, 4);
    ghost var t' := LookupHead(tab, 0, 4, t, 0, bits, pos, c.Peek(4));
    leaf := tab[c.Peek(4)];
    if !Marked(leaf) {
      leaf := SecondStep(c, tab, leaf / 8, leaf % 4, t', bits, pos);
    }
  }

  /** The two-step lookup: leaf >> 4 is the quadruple's mask, its bits are consumed. */
  method DecodeQuad(c: Cache, tab: seq<nat>, ghost t: Tree, ghost bits: Bits, ghost pos: nat)
    returns (c': Cache, leaf: nat, ghost end: nat)
    requires Ready(c, bits, pos) && QuadTable(tab, t)
    ensures (leaf / 16, end) == Walk(t, bits, pos) && leaf / 16 < 16
    ensures pos <= end <= pos + 7 && StandsAt(c', bits, end) && c'.Valid() >= VALID_BITS - 7
  {
    leaf := FindQuad(c, tab, t, bits, pos);
    MarkedLeaf(Walk(t, bits, pos).0, Walk(t, bits, pos).1 - pos);
    end := pos + leaf % 8;
    c' := FlushBits(c, leaf % 8, bits, pos);
  }

  // The table proofs name table and tree by variables, so that they are unfolded one
  // level at a time.

  lemma Powers()
    ensures Pow2(0) == 1 && Pow2(1) == 2 && Pow2(2) == 4 && Pow2(3) == 8
  {
  }

  /** Two neighbouring parts make up the part of their parent node. */
  lemma JoinParts(tab: seq<nat>, off: nat, half: nat, w: nat, t: Tree, depth: nat)
    requires half == Pow2(w) && t.Node?
    requires Encodes(tab, off, w, t.zero, depth + 1) && Encodes(tab, off + half, w, t.one, depth + 1)
    ensures Encodes(tab, off, w + 1, t, depth)
  {
  }

  lemma LeafPart(tab: seq<nat>, off: nat, size: nat, w: nat, t: Tree, depth: nat)
    requires t.Leaf? && t.symbol < 16 && depth < 8 && size == Pow2(w)
    requires FilledWith(tab, off, off + size, 16 * t.symbol + 8 + depth)
    ensures Encodes(tab, off, w, t, depth)
  {
  }

  /** A table of four codes of four bits each. */
  lemma FourLeaves(tab: seq<nat>, off: nat, t: Tree)
    requires t.Node? && t.zero.Node? && t.one.Node?
    requires t.zero.zero.Leaf? && t.zero.one.Leaf? && t.one.zero.Leaf? && t.one.one.Leaf?
    requires t.zero.zero.symbol < 16 && t.zero.one.symbol < 16 && t.one.zero.symbol < 16 && t.one.one.symbol < 16
    requires off + 4 <= |tab|
    requires tab[off] == 16 * t.zero.zero.symbol + 12 && tab[off + 1] == 16 * t.zero.one.symbol + 12
    requires tab[off + 2] == 16 * t.one.zero.symbol + 12 && tab[off + 3] == 16 * t.one.one.symbol + 12
    ensures Encodes(tab, off, 2, t, 2)
  {
    hide Encodes;
    Powers();
    LeafPart(tab, off, 1, 0, t.zero.zero, 4);
    LeafPart(tab, off + 1, 1, 0, t.zero.one, 4);
    LeafPart(tab, off + 2, 1, 0, t.one.zero, 4);
    LeafPart(tab, off + 3, 1, 0, t.one.one, 4);
    JoinParts(tab, off, 1, 0, t.zero, 3);
    JoinParts(tab, off + 2, 1, 0, t.one, 3);
    JoinParts(tab, off, 2, 1, t, 2);
  }

  lemma Tab33Zero(tab: seq<nat>, t: Tree)
    requires tab == TAB33 && t == TREE_B.zero
    ensures Encodes(tab, 0, 3, t, 1)
  {
    hide Encodes;
    Powers();
    FourLeaves(tab, 0, t.zero);
    FourLeaves(tab, 4, t.one);
    JoinParts(tab, 0, 4, 2, t, 1);
  }

  lemma Tab33One(tab: seq<nat>, t: Tree)
    requires tab == TAB33 && t == TREE_B.one
    ensures Encodes(tab, 8, 3, t, 1)
  {
    hide Encodes;
    Powers();
    FourLeaves(tab, 8, t.zero);
    FourLeaves(tab, 12, t.one);
    JoinParts(tab, 8, 4, 2, t, 1);
  }

  lemma Tab33Encodes(tab: seq<nat>, t: Tree)
    requires tab == TAB33 && t == TREE_B
    ensures QuadTable(tab, t)
  {
    hide Encodes;
    Powers();
    Tab33Zero(tab, t.zero);
    Tab33One(tab, t.one);
    JoinParts(tab, 0, 8, 3, t, 0);
  }

  lemma TailPart(tab: seq<nat>, off: nat, size: nat, w: nat, t: Tree, depth: nat)
    requires t.Leaf? && t.symbol < 16 && depth < 8 && size == Pow2(w)
    requires FilledWith(tab, off, off + size, 16 * t.symbol + 8 + depth)
    ensures EncodesTail(tab, off, w, t, depth)
  {
  }

  lemma JoinTails(tab: seq<nat>, off: nat, half: nat, w: nat, t: Tree, depth: nat)
    requires half == Pow2(w) && t.Node?
    requires EncodesTail(tab, off, w, t.zero, depth + 1) && EncodesTail(tab, off + half, w, t.one, depth + 1)
    ensures EncodesTail(tab, off, w + 1, t, depth)
  {
  }

  lemma LeadPart(tab: seq<nat>, i: nat, off: nat, w: nat, t: Tree)
    requires t.Node? && i < |tab| && 1 <= w < 4 && tab[i] % 4 == w && tab[i] / 8 == off && !Marked(tab[i])
    requires EncodesTail(tab, off, w, t, 4)
    ensures Encodes(tab, i, 0, t, 4)
  {
  }

  /** Two one-bit steps of a second table. */
  lemma TailPair(tab: seq<nat>, off: nat, t: Tree, depth: nat)
    requires t.Node? && t.zero.Leaf? && t.one.Leaf? && t.zero.symbol < 16 && t.one.symbol < 16
    requires off + 2 <= |tab| && depth < 7
    requires tab[off] == 16 * t.zero.symbol + 9 + depth && tab[off + 1] == 16 * t.one.symbol + 9 + depth
    ensures EncodesTail(tab, off, 1, t, depth)
  {
    hide EncodesTail;
    Powers();
    TailPart(tab, off, 1, 0, t.zero, depth + 1);
    TailPart(tab, off + 1, 1, 0, t.one, depth + 1);
    JoinTails(tab, off, 1, 0, t, depth);
  }

  lemma Tab32Sixes(tab: seq<nat>, t: Tree)
    requires tab == TAB32 && t == TREE_A.zero.zero.zero.zero
    ensures EncodesTail(tab, 16, 2, t, 4)
  {
    hide EncodesTail;
    Powers();
    TailPair(tab, 16, t.zero, 5);
    TailPair(tab, 18, t.one, 5);
    JoinTails(tab, 16, 2, 1, t, 4);
  }

  lemma Tab32Mixed(tab: seq<nat>, t: Tree)
    requires tab == TAB32 && t == TREE_A.zero.zero.zero.one
    ensures EncodesTail(tab, 20, 2, t, 4)
  {
    hide EncodesTail;
    Powers();
    TailPair(tab, 20, t.zero, 5);
    TailPart(tab, 22, 2, 1, t.one, 5);
    JoinTails(tab, 20, 2, 1, t, 4);
  }

  lemma Tab32LongZero(tab: seq<nat>, t: Tree)
    requires tab == TAB32 && t == TREE_A.zero.zero.zero
    ensures Encodes(tab, 0, 1, t, 3)
  {
    hide Encodes, EncodesTail;
    Powers();
    Tab32Sixes(tab, t.zero);
    Tab32Mixed(tab, t.one);
    LeadPart(tab, 0, 16, 2, t.zero);
    LeadPart(tab, 1, 20, 2, t.one);
    JoinParts(tab, 0, 1, 0, t, 3);
  }

  lemma Tab32LongOne(tab: seq<nat>, t: Tree)
    requires tab == TAB32 && t == TREE_A.zero.zero.one
    ensures Encodes(tab, 2, 1, t, 3)
  {
    hide Encodes, EncodesTail;
    Powers();
    TailPair(tab, 24, t.zero, 4);
    TailPair(tab, 26, t.one, 4);
    LeadPart(tab, 2, 24, 1, t.zero);
    LeadPart(tab, 3, 26, 1, t.one);
    JoinParts(tab, 2, 1, 0, t, 3);
  }

  lemma Tab32Long(tab: seq<nat>, t: Tree)
    requires tab == TAB32 && t == TREE_A.zero.zero
    ensures Encodes(tab, 0, 2, t, 2)
  {
    hide Encodes;
    Powers();
    Tab32LongZero(tab, t.zero);
    Tab32LongOne(tab, t.one);
    JoinParts(tab, 0, 2, 1, t, 2);
  }

  lemma Tab32Zero(tab: seq<nat>, t: Tree)
    requires tab == TAB32 && t == TREE_A.zero
    ensures Encodes(tab, 0, 3, t, 1)
  {
    hide Encodes;
    Powers();
    Tab32Long(tab, t.zero);
    FourLeaves(tab, 4, t.one);
    JoinParts(tab, 0, 4, 2, t, 1);
  }

  lemma Tab32Encodes(tab: seq<nat>, t: Tree)
    requires tab == TAB32 && t == TREE_A
    ensures QuadTable(tab, t)
  {
    hide Encodes;
    Powers();
    Tab32Zero(tab, t.zero);
    LeafPart(tab, 8, 8, 3, t.one, 1);
    JoinParts(tab, 0, 8, 3, t, 0);
  }
}
