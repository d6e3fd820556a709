/** Arithmetic of fixed-size blocks. Products and quotients of two variables are
    written as repeated sums and differences, which keeps proofs about blocks
    linear; the first lemmas show that they are the usual operations. */
module BlockMath {
  /** The bytes of `k` whole blocks: k * block. */
  function Span(k: nat, block: nat): nat
  {
    if k == 0 then 0 else Span(k - 1, block) + block
  }

  /** The block that position `p` lies in: p / block. */
  function BlockOf(p: nat, block: nat): nat
    requires block > 0
  {
    if p < block then 0 else 1 + BlockOf(p - block, block)
  }

  /** The place of position `p` inside its block: p % block. */
  function Offset(p: nat, block: nat): (x: nat)
    requires block > 0
    ensures x < block
  {
    if p < block then p else Offset(p - block, block)
  }

  lemma {:induction false} SpanIsProduct(k: nat, block: nat)
    ensures Span(k, block) == k * block
  {
    if k > 0 {
      SpanIsProduct(k - 1, block);
      assert k * block == (k - 1) * block + block;
    }
  }

  /** A position is the start of its block plus its offset. */
  lemma {:induction false} SpanSplit(p: nat, block: nat)
    requires block > 0
    ensures p == Span(BlockOf(p, block), block) + Offset(p, block)
  {
    if p >= block {
      SpanSplit(p - block, block);
    }
  }

  lemma {:induction false} SplitUnique(i: nat, x: nat, block: nat)
    requires x < block
    ensures BlockOf(Span(i, block) + x, block) == i && Offset(Span(i, block) + x, block) == x
  {
    if i > 0 {
      SplitUnique(i - 1, x, block);
    }
  }

  lemma {:induction false} SpanMonotone(x: nat, y: nat, block: nat)
    requires x <= y
    ensures Span(x, block) <= Span(y, block)
    ensures x < y ==> Span(x, block) + block <= Span(y, block)
    decreases y
  {
    if x < y {
      SpanMonotone(x, y - 1, block);
    }
  }

  /** A position is below `k` whole blocks when its block is one of the first `k`. */
  lemma BlockIndex(p: nat, k: nat, block: nat)
    requires block > 0
    ensures p < Span(k, block) <==> BlockOf(p, block) < k
  {
    SpanSplit(p, block);
    if BlockOf(p, block) < k {
      SpanMonotone(BlockOf(p, block), k, block);
    } else {
      SpanMonotone(k, BlockOf(p, block), block);
    }
  }

  /** Bytes of one block lie at consecutive offsets. */
  lemma SameBlock(p: nat, d: nat, block: nat)
    requires block > 0 && Offset(p, block) + d < block
    ensures BlockOf(p + d, block) == BlockOf(p, block)
    ensures Offset(p + d, block) == Offset(p, block) + d
  {
    SpanSplit(p, block);
    SplitUnique(BlockOf(p, block), Offset(p, block) + d, block);
  }

  /** Positions of a chunk inside one block, by block and offset. */
  lemma InChunk(p: nat, len: nat, q: nat, block: nat)
    requires block > 0 && Offset(p, block) + len <= block
    ensures p <= q < p + len <==>
            BlockOf(q, block) == BlockOf(p, block) && Offset(p, block) <= Offset(q, block) < Offset(p, block) + len
    ensures BlockOf(q, block) == BlockOf(p, block) ==> q - p == Offset(q, block) - Offset(p, block)
  {
    SpanSplit(p, block);
    SpanSplit(q, block);
    if p <= q < p + len {
      SameBlock(p, q - p, block);
    }
  }

  /** Number of blocks needed for `total` bytes. */
  function BlkDiv(total: nat, block: nat): nat
    requires block > 0
  {
    BlockOf(total, block) + (if Offset(total, block) == 0 then 0 else 1)
  }

  /** BlkDiv is the least number of blocks that hold `total` bytes. */
  lemma BlkDivLeast(total: nat, k: nat, block: nat)
    requires block > 0
    ensures total <= Span(k, block) <==> BlkDiv(total, block) <= k
  {
    SpanSplit(total, block);
    BlockIndex(total, k, block);
    if total == Span(k, block) {
      SplitUnique(k, 0, block);
    }
  }
}
