/** A byte queue that grows and shrinks by blocks. */
module QueueBuf {
  import opened BlockMath
  import opened Bytes
  import opened Numbers
  import opened Wrappers

  ghost predicate AllFull(blocks: seq<seq<byte>>, size: nat)
  {
    forall i :: 0 <= i < |blocks| ==> |blocks[i]| == size
  }

  lemma {:induction false} ConcatLength(blocks: seq<seq<byte>>, size: nat)
    requires AllFull(blocks, size)
    ensures |Concat(blocks)| == Span(|blocks|, size)
  {
    if blocks != [] {
      ConcatLength(blocks[1..], size);
    }
  }

  /** The last block, and where it begins. */
  lemma LastBlock(blocks: seq<seq<byte>>, size: nat)
    requires AllFull(blocks, size) && blocks != []
    ensures var n := |blocks| - 1;
            && Concat(blocks) == Concat(blocks[..n]) + blocks[n] && |Concat(blocks[..n])| == Span(n, size)
            && |Concat(blocks)| == Span(n, size) + size
  {
    var n := |blocks| - 1;
    assert blocks == blocks[..n] + [blocks[n]];
    ConcatApart(blocks[..n], [blocks[n]]);
    assert Concat([blocks[n]]) == blocks[n] + Concat([]);
    assert Concat([]) == [];
    ConcatLength(blocks[..n], size);
  }

  /** `n` bytes of block `k` from `x` on. */
  lemma {:induction false} BlockSlice(blocks: seq<seq<byte>>, size: nat, k: nat, x: nat, n: nat)
    requires AllFull(blocks, size) && k < |blocks| && x + n <= size
    ensures Span(k, size) + x + n <= |Concat(blocks)|
    ensures Concat(blocks)[Span(k, size) + x..Span(k, size) + x + n] == blocks[k][x..x + n]
  {
    if k > 0 {
      BlockSlice(blocks[1..], size, k - 1, x, n);
      SliceBehind(blocks[0], Concat(blocks[1..]), Span(k - 1, size) + x, n);
    } else {
      SliceOfFirst(blocks[0], Concat(blocks[1..]), x, n);
    }
  }

  lemma SplitSlice(s: seq<byte>, a: nat, n: nat, b: nat)
    requires a + n <= b <= |s|
    ensures s[a..b][..n] == s[a..a + n] && s[a..b][n..] == s[a + n..b]
  {
    assert s[a..b] == s[a..a + n] + s[a + n..b];
  }

  lemma SliceSlice(s: seq<byte>, a: nat, b: nat, x: nat, y: nat)
    requires a <= b <= |s| && x <= y <= b - a
    ensures s[a..b][x..y] == s[a + x..a + y]
  {
    var u, v := s[a..b][x..y], s[a + x..a + y];
    forall k | 0 <= k < y - x
      ensures u[k] == v[k]
    {
      assert u[k] == s[a..b][x + k] == s[a + x + k];
    }
  }

  /** Two slices from the same place are equal exactly when they are equally long. */
  lemma SameStart(s: seq<byte>, p: nat, k: nat, m: nat)
    requires p + k <= |s| && p + m <= |s|
    ensures s[p..p + k] == s[p..p + m] <==> k == m
  {
    assert |s[p..p + k]| == k && |s[p..p + m]| == m;
  }

  lemma SliceBehind(a: seq<byte>, b: seq<byte>, p: nat, n: nat)
    requires p + n <= |b|
    ensures (a + b)[|a| + p..|a| + p + n] == b[p..p + n]
  {
  }

  lemma SliceOfFirst(a: seq<byte>, b: seq<byte>, p: nat, n: nat)
    requires p + n <= |a|
    ensures (a + b)[p..p + n] == a[p..p + n]
  {
  }

  class QueueBuf {
    const blockSize: nat
    var blocks: seq<seq<byte>>
    var readOffset: nat
    var writeOffset: nat
    var totalSize: nat

    constructor (blockSize: nat)
      requires blockSize >= 1
      ensures Valid() && this.blockSize == blockSize && Contents() == []
    {
      this.blockSize := blockSize;
      blocks, readOffset, writeOffset, totalSize := [], 0, 0, 0;
    }

    /** All blocks have their size, and the bytes in the queue lie between the two offsets. */
    ghost predicate Valid()
      reads this
    {
      && blockSize >= 1 && AllFull(blocks, blockSize)
      && (blocks == [] ==> readOffset == 0 && writeOffset == 0 && totalSize == 0)
      && (blocks != [] ==> readOffset <= blockSize && Bounded())
    }

    ghost predicate Bounded()
      requires blocks != []
      reads this
    {
      writeOffset <= blockSize && readOffset + totalSize == Span(|blocks| - 1, blockSize) + writeOffset
    }

    /** The total size is what the blocks and the offsets say. */
    lemma SizeLaw()
      requires Valid() && blocks != []
      ensures totalSize == (|blocks| - 1) * blockSize + writeOffset - readOffset
    {
      SpanIsProduct(|blocks| - 1, blockSize);
    }

    ghost function Contents(): (s: seq<byte>)
      requires Valid()
      reads this
      ensures |s| == totalSize
    {
      if blocks == [] then []
      else
        LastBlock(blocks, blockSize);
        Concat(blocks)[readOffset..readOffset + totalSize]
    }

    method Close()
      requires blockSize >= 1
      modifies this
      ensures Valid() && Contents() == []
    {
      blocks, readOffset, writeOffset, totalSize := [], 0, 0, 0;
    }

    method AddBlock()
      modifies `blocks
      ensures blocks == old(blocks) + [seq<byte>(blockSize, _ => 0)]
    {
      blocks := blocks + [seq<byte>(blockSize, _ => 0)];
    }

    method RemoveBlock()
      requires blocks != []
      modifies `blocks
      ensures blocks == old(blocks)[1..]
    {
      blocks := blocks[1..];
    }

    // ---- Writing ----

    /** Have room for a byte in the last block. */
    method MakeRoom()
      requires Valid() && blocks != []
      modifies `blocks, `writeOffset
      ensures Valid() && blocks != [] && writeOffset < blockSize && Contents() == old(Contents())
    {
      if writeOffset == blockSize {
        ghost var before := blocks;
        AddBlock();
        writeOffset := 0;
        ConcatApart(before, [seq<byte>(blockSize, _ => 0)]);
        ConcatLength(before, blockSize);
        assert Concat(blocks)[readOffset..readOffset + totalSize] == Concat(before)[readOffset..readOffset + totalSize];
      }
    }

    /** Copy a chunk into the last block. */
    method Put(chunk: seq<byte>)
      requires Valid() && blocks != [] && writeOffset + |chunk| <= blockSize
      modifies `blocks, `writeOffset, `totalSize
      ensures Valid() && blocks != [] && Contents() == old(Contents()) + chunk
    {
      hide Concat, AllFull, Span;
      var n := |blocks| - 1;
      var last := blocks[n];
      PutInLast(blocks, blockSize, writeOffset, chunk);
      ghost var before, from := Concat(blocks), readOffset;
      blocks := blocks[..n] + [last[..writeOffset] + chunk + last[writeOffset + |chunk|..]];
      writeOffset := writeOffset + |chunk|;
      totalSize := totalSize + |chunk|;
      SlicePut(before, Concat(blocks), from, Span(n, blockSize) + old(writeOffset), chunk);
    }

    /** Have a first block. */
    method Begin()
      requires Valid() && blocks == []
      modifies `blocks, `writeOffset
      ensures Valid() && blocks != [] && Contents() == old(Contents())
    {
      AddBlock();
      writeOffset := 0;
      assert blocks == [seq<byte>(blockSize, _ => 0)];
      OneBlock(blockSize);
    }

    method Write(data: seq<byte>) returns (written: nat)
      requires Valid()
      modifies this
      ensures Valid() && Contents() == old(Contents()) + data && written == |data|
    {
      hide AllFull, Concat, Span, QueueBuf.Contents, QueueBuf.Bounded;
      if data == [] {
        assert Contents() + data == Contents();
        return 0;
      }
      if blocks == [] {
        Begin();
      }
      var done := 0;
      while done < |data|
        invariant done <= |data| && Valid() && blocks != []
        invariant Contents() == old(Contents()) + data[..done]
      {
        MakeRoom();
        var n := Min(blockSize - writeOffset, |data| - done);
        Put(data[done..done + n]);
        NextPart(old(Contents()), data, done, n);
        done := done + n;
      }
      assert data[..done] == data;
      written := |data|;
    }

    static lemma NextPart(all: seq<byte>, data: seq<byte>, done: nat, n: nat)
      requires done + n <= |data|
      ensures all + data[..done] + data[done..done + n] == all + data[..done + n]
    {
      assert data[..done] + data[done..done + n] == data[..done + n];
    }

    // ---- Reading ----

    /** Be done with a first block that was read to its end. */
    method SkipDone()
      requires Valid() && totalSize > 0
      modifies `blocks, `readOffset
      ensures Valid() && blocks != [] && readOffset < blockSize && Contents() == old(Contents())
    {
      if readOffset == blockSize {
        ghost var before := Concat(blocks);
        FirstBlock(blocks, blockSize);
        LastBlock(blocks, blockSize);
        RemoveBlock();
        readOffset := 0;
        LastBlock(blocks, blockSize);
        assert before[blockSize..blockSize + totalSize] == Concat(blocks)[..totalSize];
      }
    }

    /** Take a chunk out of the first block. */
    method Take(n: nat) returns (chunk: seq<byte>)
      requires Valid() && blocks != [] && readOffset + n <= blockSize && n <= totalSize
      modifies `readOffset, `totalSize
      ensures Valid() && blocks != [] && chunk == old(Contents())[..n] && Contents() == old(Contents())[n..]
    {
      hide Concat;
      BlockSlice(blocks, blockSize, 0, readOffset, n);
      LastBlock(blocks, blockSize);
      ghost var all := Concat(blocks);
      SplitSlice(all, readOffset, n, readOffset + totalSize);
      assert Span(0, blockSize) == 0;
      chunk := blocks[0][readOffset..readOffset + n];
      readOffset := readOffset + n;
      totalSize := totalSize - n;
    }

    /** Take at most `n` bytes, out of one block. */
    method ReadChunk(n: nat) returns (chunk: seq<byte>)
      requires Valid() && totalSize > 0 && n > 0
      modifies `blocks, `readOffset, `totalSize
      ensures Valid() && 0 < |chunk| <= n && chunk + Contents() == old(Contents())
    {
      hide QueueBuf.Contents, AllFull, Concat, Span;
      SkipDone();
      chunk := Take(Min(Min(blockSize - readOffset, n), totalSize));
    }

    method Read(n: nat) returns (data: seq<byte>)
      requires Valid()
      modifies `blocks, `readOffset, `totalSize
      ensures Valid()
      ensures data == old(Contents())[..Min(n, |old(Contents())|)]
      ensures Contents() == old(Contents())[Min(n, |old(Contents())|)..]
    {
      hide QueueBuf.Valid, QueueBuf.Contents;
      data := [];
      if n == 0 || blocks == [] {
        EmptyContents();
        ReadDone(data, Contents(), n);
        return;
      }
      while |data| < n && totalSize > 0
        invariant |data| <= n && Valid() && data + Contents() == old(Contents())
      {
        var chunk := ReadChunk(n - |data|);
        ReadMore(data, chunk, Contents());
        data := data + chunk;
      }
      ReadDone(data, Contents(), n);
    }

    lemma EmptyContents()
      requires Valid()
      ensures blocks == [] ==> Contents() == []
    {
    }

    static lemma ReadMore(data: seq<byte>, chunk: seq<byte>, rest: seq<byte>)
      ensures data + chunk + rest == data + (chunk + rest)
    {
    }

    static lemma ReadDone(data: seq<byte>, rest: seq<byte>, n: nat)
      requires |data| <= n && (|data| == n || rest == [])
      ensures data == (data + rest)[..Min(n, |data + rest|)] && rest == (data + rest)[Min(n, |data + rest|)..]
    {
    }

    /** Drop the first bytes. */
    method Seek(n: nat)
      requires Valid()
      modifies this
      ensures Valid() && Contents() == old(Contents())[Min(n, |old(Contents())|)..]
    {
      if n == 0 {
        return;
      }
      if n >= totalSize {
        Close();
        return;
      }
      LastBlock(blocks, blockSize);
      ghost var rest := Contents()[n..];
      assert Concat(blocks)[readOffset..readOffset + totalSize][n..]
             == Concat(blocks)[readOffset + n..readOffset + totalSize];
      readOffset := readOffset + n;
      totalSize := totalSize - n;
      while readOffset >= blockSize
        invariant blocks != [] && AllFull(blocks, blockSize) && Bounded() && totalSize > 0
        invariant readOffset + totalSize <= |Concat(blocks)|
        invariant rest == Concat(blocks)[readOffset..readOffset + totalSize]
        decreases readOffset
      {
        DropFirst();
      }
    }

    /** Leave out a first block that lies before the read offset. */
    method DropFirst()
      requires blocks != [] && AllFull(blocks, blockSize) && Bounded() && totalSize > 0 && blockSize >= 1
      requires readOffset >= blockSize && readOffset + totalSize <= |Concat(blocks)|
      modifies `blocks, `readOffset
      ensures blocks != [] && AllFull(blocks, blockSize) && Bounded() && readOffset == old(readOffset) - blockSize
      ensures readOffset + totalSize <= |Concat(blocks)|
      ensures Concat(blocks)[readOffset..readOffset + totalSize]
              == old(Concat(blocks)[readOffset..readOffset + totalSize])
    {
      ghost var before := Concat(blocks);
      FirstBlock(blocks, blockSize);
      RemoveBlock();
      readOffset := readOffset - blockSize;
      LastBlock(blocks, blockSize);
      assert before[readOffset + blockSize..readOffset + blockSize + totalSize]
             == Concat(blocks)[readOffset..readOffset + totalSize];
    }

    /** The block that a position is in or just behind, and the place there. */
    method Find(p: nat) returns (i: nat, off: nat)
      requires Valid()
      ensures Span(i, blockSize) + off == p && off <= blockSize
      ensures i >= |blocks| <==> p > Span(|blocks|, blockSize) || blocks == []
      ensures i > |blocks| <==> p > Span(|blocks| + 1, blockSize)
    {
      i, off := 0, p;
      while off > blockSize
        invariant Span(i, blockSize) + off == p && (i > 0 ==> off > 0)
        decreases off
      {
        off := off - blockSize;
        i := i + 1;
      }
      if i > |blocks| {
        SpanMonotone(|blocks| + 1, i, blockSize);
      } else if i < |blocks| {
        SpanMonotone(i + 1, |blocks|, blockSize);
      }
    }

    /** Look at `n` bytes behind the first `skip`, without taking them. `None` stands for a look past the blocks there
        are, which throws; an empty queue that still has blocks allows for one block more. The size of the queue limits
        the bytes as if none had been skipped. */
    method Peek(n: nat, skip: nat) returns (r: Option<seq<byte>>)
      requires Valid()
      ensures n == 0 || blocks == [] ==> r == Some([])
      ensures n > 0 && blocks != [] && totalSize == 0 ==>
                r == if readOffset + skip > Span(|blocks| + 1, blockSize) then None else Some([])
      ensures n > 0 && totalSize > 0 ==> (r.None? <==> readOffset + skip > Span(|blocks|, blockSize))
      ensures n > 0 && r.Some? && totalSize > 0 ==>
                |r.value| == Min(Min(n, totalSize), Span(|blocks|, blockSize) - readOffset - skip)
                && r.value == BytesFrom(readOffset + skip, |r.value|)
    {
      if n == 0 || blocks == [] {
        return Some([]);
      }
      var i: nat, off: nat := Find(readOffset + skip);
      if i > |blocks| {
        return None;
      }
      if totalSize == 0 {
        return Some([]);
      }
      if i == |blocks| {
        return None;
      }
      var data := CopyFrom(i, off, Min(n, totalSize), readOffset + skip);
      r := Some(data);
    }

    /** Copy up to `n` bytes from a place on, until the blocks end. */
    method CopyFrom(i0: nat, off0: nat, n: nat, ghost p: nat) returns (data: seq<byte>)
      requires Valid() && i0 < |blocks| && off0 <= blockSize && Span(i0, blockSize) + off0 == p
      ensures p <= Span(|blocks|, blockSize) && |data| == Min(n, Span(|blocks|, blockSize) - p)
      ensures data == BytesFrom(p, |data|)
    {
      hide QueueBuf.Valid, QueueBuf.BytesFrom, Span;
      var i: nat, off: nat := i0, off0;
      data := [];
      BytesNone(p);
      BlockEnd(i);
      while |data| < n
        invariant |data| <= n && off <= blockSize && i < |blocks|
        invariant Span(i, blockSize) + off == p + |data| <= Span(|blocks|, blockSize)
        invariant data == BytesFrom(p, |data|)
        decreases n - |data|
      {
        if off == blockSize {
          BlockEnd(i);
          i := i + 1;
          if i == |blocks| {
            return;
          }
          off := 0;
        }
        BlockEnd(i);
        var k := Min(blockSize - off, n - |data|);
        var chunk := Chunk(i, off, k);
        BytesMore(p, |data|, k);
        off := off + k;
        data := data + chunk;
      }
    }

    lemma BlockEnd(i: nat)
      requires Valid() && i < |blocks|
      ensures Span(i + 1, blockSize) == Span(i, blockSize) + blockSize <= Span(|blocks|, blockSize) && blockSize >= 1
    {
      SpanMonotone(i + 1, |blocks|, blockSize);
    }

    method Chunk(i: nat, off: nat, k: nat) returns (chunk: seq<byte>)
      requires Valid() && i < |blocks| && off + k <= blockSize
      ensures Span(i, blockSize) + off + k <= |Concat(blocks)| && |chunk| == k
      ensures chunk == BytesFrom(Span(i, blockSize) + off, k)
    {
      BlockSlice(blocks, blockSize, i, off, k);
      chunk := blocks[i][off..off + k];
    }

    lemma BytesNone(p: nat)
      ensures BytesFrom(p, 0) == []
    {
    }

    lemma BytesMore(p: nat, n: nat, k: nat)
      requires p + n + k <= |Concat(blocks)|
      ensures BytesFrom(p, n) + BytesFrom(p + n, k) == BytesFrom(p, n + k)
    {
    }

    /** A look that stays inside the queue gives exactly that part of it. One that goes past the end gives exactly
        what there is when nothing was skipped or the last block is full, and otherwise more than there is. */
    lemma PeekIsExact(n: nat, skip: nat)
      requires Valid() && n > 0 && totalSize > 0 && skip <= totalSize
      ensures readOffset + skip <= Span(|blocks|, blockSize)
      ensures var k := Min(Min(n, totalSize), Span(|blocks|, blockSize) - readOffset - skip);
              && (BytesFrom(readOffset + skip, k) == Contents()[skip..skip + Min(n, totalSize - skip)]
                  <==> skip + n <= totalSize || skip == 0 || writeOffset == blockSize)
    {
      hide Concat, Span, AllFull, Min;
      LastBlock(blocks, blockSize);
      BlockEnd(|blocks| - 1);
      ConcatLength(blocks, blockSize);
      PeekOn(Concat(blocks), readOffset, totalSize, blockSize - writeOffset, n, skip);
    }

    /** The same on the bytes of the blocks: `total` bytes from `from` on, with `slack` unused ones behind. */
    static lemma PeekOn(all: seq<byte>, from: nat, total: nat, slack: nat, n: nat, skip: nat)
      requires from + total + slack == |all| && n > 0 && total > 0 && skip <= total
      ensures var p, k := from + skip, Min(Min(n, total), total + slack - skip);
              && p + k <= |all|
              && (all[p..p + k] == all[from..from + total][skip..skip + Min(n, total - skip)]
                  <==> skip + n <= total || skip == 0 || slack == 0)
    {
      PeekLengths(n, skip, total, slack);
      var p, k, m := from + skip, Min(Min(n, total), total + slack - skip), Min(n, total - skip);
      SliceSlice(all, from, from + total, skip, skip + m);
      SameStart(all, p, k, m);
    }

    static lemma PeekLengths(n: nat, skip: nat, total: nat, slack: nat)
      requires n > 0 && total > 0 && skip <= total
      ensures Min(Min(n, total), total + slack - skip) == Min(n, total - skip)
         <==> skip + n <= total || skip == 0 || slack == 0
    {
    }

    /** `n` bytes of the blocks from `p` on. */
    ghost function BytesFrom(p: nat, n: nat): seq<byte>
      reads this
    {
      if p + n <= |Concat(blocks)| then Concat(blocks)[p..p + n] else []
    }
  }

  lemma FirstBlock(blocks: seq<seq<byte>>, size: nat)
    requires AllFull(blocks, size) && blocks != []
    ensures Concat(blocks)[size..] == Concat(blocks[1..]) && |Concat(blocks)| == size + |Concat(blocks[1..])|
    ensures AllFull(blocks[1..], size) && Span(|blocks|, size) == size + Span(|blocks| - 1, size)
  {
  }

  lemma OneBlock(size: nat)
    ensures AllFull([seq<byte>(size, _ => 0)], size) && Span(0, size) == 0
  {
  }

  /** What a copy into the last block does to the bytes. */
  lemma PutInLast(blocks: seq<seq<byte>>, size: nat, at: nat, chunk: seq<byte>)
    requires AllFull(blocks, size) && blocks != [] && at + |chunk| <= size
    ensures |blocks[|blocks| - 1]| == size
    ensures var n := |blocks| - 1;
            var after := blocks[..n] + [blocks[n][..at] + chunk + blocks[n][at + |chunk|..]];
            var e := Span(n, size) + at;
            && AllFull(after, size) && e + |chunk| <= |Concat(after)| && e <= |Concat(blocks)|
            && Concat(after)[..e] == Concat(blocks)[..e] && Concat(after)[e..e + |chunk|] == chunk
  {
    var n := |blocks| - 1;
    var last := blocks[n][..at] + chunk + blocks[n][at + |chunk|..];
    var after := blocks[..n] + [last];
    LastBlock(blocks, size);
    LastBlock(after, size);
    assert after[..n] == blocks[..n];
    var head := Concat(blocks[..n]);
    hide Concat, AllFull, Span;
    PutBehind(head, blocks[n], at, chunk);
  }

  lemma PutBehind(head: seq<byte>, block: seq<byte>, at: nat, chunk: seq<byte>)
    requires at + |chunk| <= |block|
    ensures var t, e := head + (block[..at] + chunk + block[at + |chunk|..]), |head| + at;
            t[..e] == (head + block)[..e] && t[e..e + |chunk|] == chunk
  {
    var last := block[..at] + chunk + block[at + |chunk|..];
    SliceBehind(head, last, at, |chunk|);
    assert last[at..at + |chunk|] == chunk;
    assert (head + last)[..|head| + at] == head + last[..at];
    assert (head + block)[..|head| + at] == head + block[..at];
    assert last[..at] == block[..at];
  }

  lemma SlicePut(s: seq<byte>, t: seq<byte>, from: nat, e: nat, chunk: seq<byte>)
    requires from <= e <= |s| && e + |chunk| <= |t| && t[..e] == s[..e] && t[e..e + |chunk|] == chunk
    ensures t[from..e + |chunk|] == s[from..e] + chunk
  {
    assert t[from..e] == t[..e][from..] && s[from..e] == s[..e][from..];
  }
}
