/** The layout of a Myriad on values: how a stream's flat bytes are spread over
    fixed-size blocks, and how the blocks are shared out among the streams. */
module MyriadLayout {
  import opened BlockMath
  import opened Bytes
  import opened Numbers

  /** One stream record: its id, its size in bytes and the blocks it owns, in order. */
  datatype Rec = Rec(id: int, size: nat, blocks: seq<nat>)

  /** The stream owns enough blocks for its size. */
  ghost predicate Covers(r: Rec, block: nat) { r.size <= Span(|r.blocks|, block) }

  // ---- Flat contents ----

  /** Byte `p` of a stream that owns `blocks`, when block `b` holds `cells[b]`. */
  function ByteAt(blocks: seq<nat>, cells: seq<seq<byte>>, block: nat, p: nat): byte
    requires block > 0
  {
    CellByte(blocks, cells, BlockOf(p, block), Offset(p, block))
  }

  /** Byte `x` of the stream's `i`-th block. */
  function CellByte(blocks: seq<nat>, cells: seq<seq<byte>>, i: nat, x: nat): byte
  {
    if i < |blocks| && blocks[i] < |cells| && x < |cells[blocks[i]]| then cells[blocks[i]][x] else 0
  }

  /** The flat byte array a stream stands for. */
  function Flat(r: Rec, cells: seq<seq<byte>>, block: nat): (s: seq<byte>)
    requires block > 0
    ensures |s| == r.size
  {
    seq(r.size, p requires p >= 0 => ByteAt(r.blocks, cells, block, p))
  }

  /** How many of `n` bytes from `pos` on lie below `size`. */
  function Available(size: nat, pos: nat, n: nat): nat
  {
    if pos >= size then 0 else Min(n, size - pos)
  }

  /** The `n` bytes from `pos` on. */
  function BytesAt(blocks: seq<nat>, cells: seq<seq<byte>>, block: nat, pos: nat, n: nat): (s: seq<byte>)
    requires block > 0
    ensures |s| == n
  {
    seq<byte>(n, k requires k >= 0 => ByteAt(blocks, cells, block, pos + k))
  }

  lemma BytesAppend(blocks: seq<nat>, cells: seq<seq<byte>>, block: nat, pos: nat, k: nat, n: nat)
    requires block > 0
    ensures BytesAt(blocks, cells, block, pos, k + n)
         == BytesAt(blocks, cells, block, pos, k) + BytesAt(blocks, cells, block, pos + k, n)
  {
    var s, t := BytesAt(blocks, cells, block, pos, k + n), BytesAt(blocks, cells, block, pos + k, n);
    forall x | k <= x < k + n
      ensures s[x] == t[x - k]
    {
      assert pos + x == pos + k + (x - k);
    }
  }

  /** Bytes that lie in one block are a slice of that block. */
  lemma ChunkAt(blocks: seq<nat>, cells: seq<seq<byte>>, block: nat, p: nat, n: nat)
    requires block > 0 && Uniform(cells, block)
    requires BlockOf(p, block) < |blocks| && blocks[BlockOf(p, block)] < |cells|
    requires Offset(p, block) + n <= block
    ensures BytesAt(blocks, cells, block, p, n)
         == cells[blocks[BlockOf(p, block)]][Offset(p, block)..Offset(p, block) + n]
  {
    var c, off := cells[blocks[BlockOf(p, block)]], Offset(p, block);
    var s, t := BytesAt(blocks, cells, block, p, n), c[off..off + n];
    forall x: nat | x < n
      ensures s[x] == t[x]
    {
      SameBlock(p, x, block);
    }
  }

  /** A chunk that stays inside one of the first `k` blocks ends below them. */
  lemma ChunkInside(p: nat, n: nat, k: nat, block: nat)
    requires block > 0 && BlockOf(p, block) < k && Offset(p, block) + n <= block
    ensures p + n <= Span(k, block)
  {
    SpanSplit(p, block);
    SpanMonotone(BlockOf(p, block), k, block);
  }

  /** What a read of `n` bytes at `pos` gives: the slice there, cut off at the end. */
  function Slice(s: seq<byte>, pos: nat, n: nat): (t: seq<byte>)
    ensures |t| == Available(|s|, pos, n)
  {
    if pos >= |s| then [] else s[pos..pos + Available(|s|, pos, n)]
  }

  lemma ReadIsSlice(r: Rec, cells: seq<seq<byte>>, block: nat, pos: nat, n: nat)
    requires block > 0
    ensures BytesAt(r.blocks, cells, block, pos, Available(r.size, pos, n)) == Slice(Flat(r, cells, block), pos, n)
  {
  }

  /** `s` with `d` written at `pos`, extending it when the write runs past the end. */
  function Splice(s: seq<byte>, pos: nat, d: seq<byte>): (t: seq<byte>)
    requires pos <= |s|
  {
    s[..pos] + d + (if pos + |d| < |s| then s[pos + |d|..] else [])
  }

  lemma {:induction false} SpliceMore(s: seq<byte>, pos: nat, d: seq<byte>, e: seq<byte>)
    requires pos <= |s|
    ensures Splice(Splice(s, pos, d), pos + |d|, e) == Splice(s, pos, d + e)
  {
    var t := Splice(s, pos, d);
    assert t[..pos + |d|] == s[..pos] + d;
    if pos + |d| + |e| < |s| {
      assert t[pos + |d| + |e|..] == s[pos + |d + e|..];
    }
  }

  /** `cells` where `d` was copied into block `b` from offset `off` on. */
  function Poke(cells: seq<seq<byte>>, b: nat, off: nat, d: seq<byte>): (t: seq<seq<byte>>)
    requires b < |cells| && off + |d| <= |cells[b]|
    ensures |t| == |cells|
  {
    cells[b := cells[b][..off] + d + cells[b][off + |d|..]]
  }

  /** Every block holds exactly `block` bytes. */
  predicate Uniform(cells: seq<seq<byte>>, block: nat)
  {
    forall b :: 0 <= b < |cells| ==> |cells[b]| == block
  }

  ghost predicate Injective(blocks: seq<nat>)
  {
    forall i, j :: 0 <= i < |blocks| && 0 <= j < |blocks| && blocks[i] == blocks[j] ==> i == j
  }

  ghost predicate InRange(blocks: seq<nat>, n: nat)
  {
    forall i :: 0 <= i < |blocks| ==> blocks[i] < n
  }

  lemma PokeCellByte(blocks: seq<nat>, cells: seq<seq<byte>>, i: nat, off: nat, d: seq<byte>, j: nat, x: nat)
    requires Injective(blocks) && InRange(blocks, |cells|)
    requires i < |blocks| && off + |d| <= |cells[blocks[i]]|
    ensures CellByte(blocks, Poke(cells, blocks[i], off, d), j, x)
         == if j == i && off <= x < off + |d| then d[x - off] else CellByte(blocks, cells, j, x)
  {
  }

  ghost predicate PokedAt(blocks: seq<nat>, cells: seq<seq<byte>>, block: nat, p: nat, d: seq<byte>, q: nat)
    requires block > 0 && Uniform(cells, block) && InRange(blocks, |cells|)
    requires BlockOf(p, block) < |blocks| && Offset(p, block) + |d| <= block
  {
    ByteAt(blocks, Poke(cells, blocks[BlockOf(p, block)], Offset(p, block), d), block, q)
    == if p <= q < p + |d| then d[q - p] else ByteAt(blocks, cells, block, q)
  }

  /** A copy into one block, at the place of position `p`, changes exactly those positions. */
  lemma PokeByteAt(blocks: seq<nat>, cells: seq<seq<byte>>, block: nat, p: nat, d: seq<byte>, q: nat)
    requires block > 0 && Uniform(cells, block)
    requires Injective(blocks) && InRange(blocks, |cells|)
    requires BlockOf(p, block) < |blocks| && Offset(p, block) + |d| <= block
    ensures PokedAt(blocks, cells, block, p, d, q)
  {
    InChunk(p, |d|, q, block);
    var i, off := BlockOf(p, block), Offset(p, block);
    var j, x := BlockOf(q, block), Offset(q, block);
    PokeCellByte(blocks, cells, i, off, d, j, x);
  }

  /** The same copy, seen from a stream that does not own the block. */
  lemma PokeElsewhere(r: Rec, cells: seq<seq<byte>>, block: nat, b: nat, off: nat, d: seq<byte>)
    requires block > 0 && b < |cells| && off + |d| <= |cells[b]|
    requires b !in r.blocks
    ensures Flat(r, Poke(cells, b, off, d), block) == Flat(r, cells, block)
  {
  }

  /** The same copy, seen from the owner, is a splice of its flat bytes. */
  lemma PokeSplice(r: Rec, cells: seq<seq<byte>>, block: nat, p: nat, d: seq<byte>)
    requires block > 0 && Uniform(cells, block)
    requires Injective(r.blocks) && InRange(r.blocks, |cells|)
    requires BlockOf(p, block) < |r.blocks| && Offset(p, block) + |d| <= block
    requires p <= r.size
    ensures Flat(r.(size := Max(r.size, p + |d|)), Poke(cells, r.blocks[BlockOf(p, block)], Offset(p, block), d), block)
         == Splice(Flat(r, cells, block), p, d)
  {
    var size' := Max(r.size, p + |d|);
    var s := Flat(r.(size := size'), Poke(cells, r.blocks[BlockOf(p, block)], Offset(p, block), d), block);
    var t := Splice(Flat(r, cells, block), p, d);
    forall q: nat | q < size'
      ensures s[q] == t[q]
    {
      PokeByteAt(r.blocks, cells, block, p, d, q);
    }
    assert |s| == |t|;
  }

  /** Cells added past a stream's blocks, or blocks appended to it, do not show below its size. */
  lemma FlatGrow(r: Rec, cells: seq<seq<byte>>, more: seq<seq<byte>>, extra: seq<nat>, block: nat)
    requires block > 0 && InRange(r.blocks, |cells|)
    requires Covers(r, block)
    ensures Flat(r.(blocks := r.blocks + extra), cells + more, block) == Flat(r, cells, block)
  {
    forall p: nat | p < r.size
      ensures ByteAt(r.blocks + extra, cells + more, block, p) == ByteAt(r.blocks, cells, block, p)
    {
      BlockIndex(p, |r.blocks|, block);
    }
  }

  /** Dropping blocks that lie wholly past a stream's size does not change it. */
  lemma FlatShrink(r: Rec, cells: seq<seq<byte>>, keep: nat, size: nat, block: nat)
    requires block > 0 && keep <= |r.blocks|
    requires size <= r.size && size <= Span(keep, block)
    ensures Flat(Rec(r.id, size, r.blocks[..keep]), cells, block) == Flat(r, cells, block)[..size]
  {
    forall p: nat | p < size
      ensures ByteAt(r.blocks[..keep], cells, block, p) == ByteAt(r.blocks, cells, block, p)
    {
      BlockIndex(p, keep, block);
    }
  }

  // ---- All streams at once ----

  /** The flat byte arrays of all streams, in order. */
  ghost function Contents(recs: seq<Rec>, cells: seq<seq<byte>>, block: nat): (cs: seq<seq<byte>>)
    requires block > 0
    ensures |cs| == |recs|
  {
    seq(|recs|, i requires 0 <= i < |recs| => Flat(recs[i], cells, block))
  }

  /** Appending blocks to stream `i`, or cells past the end, does not change any stream's bytes. */
  lemma GrowContents(recs: seq<Rec>, cells: seq<seq<byte>>, cells': seq<seq<byte>>, block: nat, i: nat, extra: seq<nat>)
    requires block > 0 && i < |recs| && cells <= cells'
    requires forall j :: 0 <= j < |recs| ==> Covers(recs[j], block) && InRange(recs[j].blocks, |cells|)
    ensures Contents(recs[i := recs[i].(blocks := recs[i].blocks + extra)], cells', block)
            == Contents(recs, cells, block)
  {
    assert cells' == cells + cells'[|cells|..];
    forall j | 0 <= j < |recs|
      ensures Flat(recs[i := recs[i].(blocks := recs[i].blocks + extra)][j], cells', block)
              == Flat(recs[j], cells, block)
    {
      FlatGrow(recs[j], cells, cells'[|cells|..], if j == i then extra else [], block);
    }
  }

  /** Stream `i` was cut or extended to `n` bytes, and no other stream changed. */
  ghost predicate Resized(before: seq<seq<byte>>, after: seq<seq<byte>>, i: nat, n: nat)
  {
    && i < |before| && |after| == |before|
    && (forall j :: 0 <= j < |before| && j != i ==> after[j] == before[j])
    && |after[i]| == n
    && (if n <= |before[i]| then after[i] == before[i][..n] else before[i] <= after[i])
  }

  /** `d` was written to stream `i` at `pos`, and no other stream changed. At or before the end it
      replaces or extends exactly that slice; past the end the stream grows by the length of `d` only,
      behind the bytes that were there. */
  ghost predicate Wrote(before: seq<seq<byte>>, after: seq<seq<byte>>, i: nat, pos: nat, d: seq<byte>)
  {
    && i < |before|
    && if pos <= |before[i]| then after == before[i := Splice(before[i], pos, d)]
       else Resized(before, after, i, |before[i]| + |d|)
  }

  lemma WroteNothing(a: seq<seq<byte>>, i: nat, pos: nat)
    requires i < |a|
    ensures Wrote(a, a, i, pos, [])
  {
    if pos <= |a[i]| {
      assert Splice(a[i], pos, []) == a[i];
    }
  }

  lemma WrittenSize(a: seq<seq<byte>>, b: seq<seq<byte>>, i: nat, pos: nat, d: seq<byte>)
    requires Wrote(a, b, i, pos, d)
    ensures |b| == |a| && |b[i]| == if pos <= |a[i]| then Max(|a[i]|, pos + |d|) else |a[i]| + |d|
  {
  }

  /** Two writes, one where the other ended, are one write of both. */
  lemma WroteMore(a: seq<seq<byte>>, b: seq<seq<byte>>, c: seq<seq<byte>>, i: nat, pos: nat, d: seq<byte>, e: seq<byte>)
    requires Wrote(a, b, i, pos, d) && Wrote(b, c, i, pos + |d|, e)
    ensures Wrote(a, c, i, pos, d + e)
  {
    if pos <= |a[i]| {
      SpliceMore(a[i], pos, d, e);
      assert |b[i]| == Max(|a[i]|, pos + |d|);
      assert c == a[i := Splice(a[i], pos, d + e)];
    } else {
      assert a[i] <= b[i] <= c[i] by {
        if d == [] { assert b[i] == a[i][..|a[i]|]; }
        if e == [] { assert c[i] == b[i][..|b[i]|]; }
      }
    }
  }

  // ---- The block cache over the backing store ----

  /** A block in memory; `changed` when it has not been written back yet. */
  datatype Block = Block(data: seq<byte>, changed: bool)

  function StoreBlock(data: seq<byte>, block: nat, b: nat): (s: seq<byte>)
    ensures Span(b, block) + block <= |data| ==> |s| == block
  {
    if Span(b, block) + block <= |data| then data[Span(b, block)..Span(b, block) + block] else []
  }

  /** What the blocks hold: the cached copy where there is one, else the store. */
  function View(data: seq<byte>, block: nat, n: nat, active: map<nat, Block>): (cells: seq<seq<byte>>)
    ensures |cells| == n
  {
    seq(n, b requires 0 <= b < n => if b in active then active[b].data else StoreBlock(data, block, b))
  }

  /** The cache holds whole existing blocks, and clean copies agree with the store. */
  ghost predicate Coherent(data: seq<byte>, block: nat, n: nat, active: map<nat, Block>)
  {
    && block > 0 && Span(n, block) <= |data|
    && forall b :: b in active ==>
         && b < n && |active[b].data| == block
         && (!active[b].changed ==> active[b].data == StoreBlock(data, block, b))
  }

  lemma StoreBlockInside(data: seq<byte>, block: nat, n: nat, b: nat)
    requires b < n && Span(n, block) <= |data|
    ensures Span(b, block) + block <= |data| && |StoreBlock(data, block, b)| == block
  {
    SpanMonotone(b, n, block);
  }

  lemma CoherentUniform(data: seq<byte>, block: nat, n: nat, active: map<nat, Block>)
    requires Coherent(data, block, n, active)
    ensures Uniform(View(data, block, n, active), block)
  {
    forall b: nat | b < n
      ensures |View(data, block, n, active)[b]| == block
    {
      StoreBlockInside(data, block, n, b);
    }
  }

  /** Writing block `b` back changes that block of the store and no other. */
  lemma WriteBack(data: seq<byte>, block: nat, n: nat, b: nat, d: seq<byte>, c: nat)
    requires b < n && c < n && Span(n, block) <= |data| && |d| == block
    ensures Span(b, block) <= |data|
    ensures |Splice(data, Span(b, block), d)| == |data|
    ensures StoreBlock(Splice(data, Span(b, block), d), block, c) == if c == b then d else StoreBlock(data, block, c)
  {
    hide Splice;
    StoreBlockInside(data, block, n, b);
    StoreBlockInside(data, block, n, c);
    if b < c {
      SpanMonotone(b, c, block);
    } else if c < b {
      SpanMonotone(c, b, block);
    }
    SpliceSlice(data, Span(b, block), d, Span(c, block));
  }

  /** A slice of the length of what was put in, at the same place or away from it. */
  lemma SpliceSlice(s: seq<byte>, p: nat, d: seq<byte>, q: nat)
    requires p + |d| <= |s| && q + |d| <= |s| && (q == p || q + |d| <= p || p + |d| <= q)
    ensures |Splice(s, p, d)| == |s|
    ensures Splice(s, p, d)[q..q + |d|] == if q == p then d else s[q..q + |d|]
  {
  }

  lemma StoreGrow(data: seq<byte>, data': seq<byte>, block: nat, n: nat, b: nat)
    requires b < n && Span(n, block) <= |data| && Span(n, block) <= |data'|
    requires data[..Span(n, block)] == data'[..Span(n, block)]
    ensures StoreBlock(data', block, b) == StoreBlock(data, block, b)
  {
    StoreBlockInside(data, block, n, b);
    SpanMonotone(b, n, block);
    assert data[Span(b, block)..Span(b, block) + block]
        == data[..Span(n, block)][Span(b, block)..Span(b, block) + block];
    assert data'[Span(b, block)..Span(b, block) + block]
        == data'[..Span(n, block)][Span(b, block)..Span(b, block) + block];
  }

  /** `data'` is `data` with block `b` rewritten to `d`. */
  ghost predicate Rewritten(data: seq<byte>, data': seq<byte>, block: nat, n: nat, b: nat, d: seq<byte>)
  {
    && |data'| == |data|
    && forall c :: 0 <= c < n ==> StoreBlock(data', block, c) == if c == b then d else StoreBlock(data, block, c)
  }

  lemma WriteRewrites(data: seq<byte>, block: nat, n: nat, b: nat, d: seq<byte>)
    requires b < n && Span(n, block) <= |data| && |d| == block
    ensures Span(b, block) <= |data| && Rewritten(data, Splice(data, Span(b, block), d), block, n, b, d)
  {
    WriteBack(data, block, n, b, d, b);
    forall c: nat | c < n
      ensures StoreBlock(Splice(data, Span(b, block), d), block, c) == if c == b then d else StoreBlock(data, block, c)
    {
      WriteBack(data, block, n, b, d, c);
    }
  }

  /** Writing a cached block back leaves what the blocks hold as it was. */
  lemma WriteBackView(data: seq<byte>, data': seq<byte>, block: nat, n: nat, active: map<nat, Block>, b: nat)
    requires Coherent(data, block, n, active) && b in active
    requires Rewritten(data, data', block, n, b, active[b].data)
    ensures Coherent(data', block, n, active[b := Block(active[b].data, false)])
    ensures View(data', block, n, active[b := Block(active[b].data, false)]) == View(data, block, n, active)
  {
  }

  /** A written-back block may leave the cache. */
  lemma DropView(data: seq<byte>, block: nat, n: nat, active: map<nat, Block>, b: nat)
    requires Coherent(data, block, n, active) && b in active && !active[b].changed
    ensures Coherent(data, block, n, active - {b})
    ensures View(data, block, n, active - {b}) == View(data, block, n, active)
  {
  }
}
