/** Block arithmetic of block.c: how a byte range is cut into blocks of BL_S bytes. */
module Blocks {

  // Block size in bytes. The source writes division and remainder by it as a shift and a mask.
  const BL_S: nat := 131072

  /** The number of the block that holds byte `p` of a file. */
  function BlockOf(p: nat): nat {
    p / BL_S
  }

  /** First block and number of blocks of the byte range [offset, offset + size). */
  function CalcBlocks(offset: nat, size: nat): (nat, nat)
    requires size > 0
  {
    (offset / BL_S, (size + offset % BL_S - 1) / BL_S + 1)
  }

  /** A block is between the computed bounds exactly when it holds a byte of the range. */
  lemma CalcBlocksExact(offset: nat, size: nat, b: nat)
    requires size > 0
    ensures var (first, count) := CalcBlocks(offset, size);
            first <= b < first + count <==> exists p: nat :: offset <= p < offset + size && BlockOf(p) == b
  {
    var (first, count) := CalcBlocks(offset, size);
    assert first + count == (offset + size - 1) / BL_S + 1;
    if first <= b < first + count {
      var p := if b == first then offset else b * BL_S;
      assert offset <= p < offset + size && BlockOf(p) == b;
    }
  }
}
