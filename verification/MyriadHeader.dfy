/** The header of a Myriad on values: how many blocks it starts with, what bytes
    it consists of, and where each field is found again. */
module MyriadHeader {
  import opened BlockMath
  import opened Bytes
  import opened MyriadLayout
  import opened MyriadMeta

  // ---- How many blocks a fresh header takes ----

  /** `n` blocks of `block` bytes hold a header that lists one stream of `n` blocks, and at least 30 bytes. */
  predicate HeaderFits(n: nat, block: nat) { 22 + 4 * n <= Span(n, block) && 30 <= Span(n, block) }

  /** The least number of blocks a header with a single stream fits into. */
  function BootBlocks(block: nat): (n: nat)
    requires block >= 5
    ensures n > 0 && HeaderFits(n, block) && forall m :: 0 <= m < n ==> !HeaderFits(m, block)
  {
    BootFrom(0, block)
  }

  function BootFrom(k: nat, block: nat): (n: nat)
    requires block >= 5
    requires forall m :: 0 <= m < k ==> !HeaderFits(m, block)
    ensures HeaderFits(n, block) && forall m :: 0 <= m < n ==> !HeaderFits(m, block)
    decreases 22 - k
  {
    if HeaderFits(k, block) then k
    else
      TooFew(k, block);
      BootFrom(k + 1, block)
  }

  lemma {:induction false} FitsUpward(m: nat, n: nat, block: nat)
    requires block >= 5 && m <= n && HeaderFits(m, block)
    ensures HeaderFits(n, block)
  {
    if m < n {
      FitsUpward(m, n - 1, block);
    }
  }

  lemma TooFew(k: nat, block: nat)
    requires block >= 5 && !HeaderFits(k, block)
    ensures k < 22
  {
    if k >= 22 {
      SpanIsProduct(22, block);
      FitsUpward(22, k, block);
    }
  }

  /** The first round of the sizing loop starts from 26 bytes, as if one block were listed. */
  lemma SizingStart(block: nat)
    requires block >= 5
    ensures 0 < BlkDiv(30, block) <= BootBlocks(block) && 30 <= Span(BlkDiv(30, block), block)
  {
    BlkDivLeast(30, BootBlocks(block), block);
    BlkDivLeast(30, BlkDiv(30, block), block);
    BlkDivLeast(30, 0, block);
  }

  /** A later round: a block count that does not fit grows, and it never jumps past the least that fits. */
  lemma SizingStep(m: nat, block: nat)
    requires block >= 5 && 22 + 4 * m > Span(m, block) >= 30
    ensures m < BlkDiv(26 + 4 * m, block) <= BootBlocks(block)
    ensures 30 <= Span(BlkDiv(26 + 4 * m, block), block)
  {
    var n := BootBlocks(block);
    if n <= m {
      FitsUpward(n, m, block);
    }
    BlkDivLeast(26 + 4 * m, n, block);
    BlkDivLeast(26 + 4 * m, m, block);
    SpanMonotone(m, BlkDiv(26 + 4 * m, block), block);
  }

  /** A header that lists `n` blocks, with `n` the number it starts with, needs all of them. */
  lemma BootNeeded(block: nat, size: nat)
    requires block >= 5 && size >= 22 + 4 * BootBlocks(block)
    ensures BlkDiv(size, block) >= BootBlocks(block)
  {
    var n := BootBlocks(block);
    BlkDivLeast(size, n - 1, block);
    assert !HeaderFits(n - 1, block);
  }

  /** After the blocks the header starts with, the id of one more can be read from them. */
  predicate RoomForNext(block: nat)
    requires block >= 5
  {
    26 + 4 * BootBlocks(block) <= Span(BootBlocks(block), block)
  }

  /** With room for one more id behind the first blocks there is room behind any later number of blocks. */
  lemma {:induction false} RoomStays(block: nat, k: nat)
    requires block >= 5 && RoomForNext(block) && k >= BootBlocks(block)
    ensures 26 + 4 * k <= Span(k, block)
  {
    if k > BootBlocks(block) {
      RoomStays(block, k - 1);
    }
  }

  /** The documented minimum block size of 30 bytes leaves that room. */
  lemma RoomFrom30(block: nat)
    requires block >= 30
    ensures BootBlocks(block) == 1 && RoomForNext(block)
  {
    assert Span(1, block) == block && HeaderFits(1, block);
    assert !HeaderFits(0, block);
  }

  /** With 16-byte blocks there is none: two blocks hold the first header exactly up to byte 30. */
  lemma NoRoomAt16()
    ensures BootBlocks(16) == 2 && !RoomForNext(16)
  {
    assert Span(1, 16) == 16 && Span(2, 16) == 32;
    assert HeaderFits(2, 16) && !HeaderFits(1, 16) && !HeaderFits(0, 16);
  }

  // ---- The bytes of a header ----

  const MAGIC: seq<byte> := [0x0a, 0xd3, 0xfa, 0x84]

  function Ints(xs: seq<nat>): (s: seq<byte>)
    ensures |s| == 4 * |xs|
  {
    if xs == [] then [] else Ints(xs[..|xs| - 1]) + Le32(xs[|xs| - 1])
  }

  /** The record of `r` as it survives a trip through the store: only the blocks in use. */
  function Trim(r: Rec, block: nat): (t: Rec)
    requires block > 0
    ensures t.id == r.id && t.size == r.size
  {
    var used := BlkDiv(r.size, block);
    if used <= |r.blocks| then r.(blocks := r.blocks[..used]) else r
  }

  function TrimAll(recs: seq<Rec>, block: nat): (t: seq<Rec>)
    requires block > 0
    ensures |t| == |recs| && forall i :: 0 <= i < |recs| ==> t[i] == Trim(recs[i], block)
  {
    seq(|recs|, i requires 0 <= i < |recs| => Trim(recs[i], block))
  }

  function RecBytes(r: Rec): (s: seq<byte>)
    ensures |s| == 8 + 4 * |r.blocks|
  {
    Le32(r.id) + Le32(r.size) + Ints(r.blocks)
  }

  function RecsBytes(recs: seq<Rec>): seq<byte>
  {
    if recs == [] then [] else RecsBytes(recs[..|recs| - 1]) + RecBytes(recs[|recs| - 1])
  }

  function Preamble(block: nat, count: nat): (s: seq<byte>)
    ensures |s| == 14
  {
    MAGIC + [1, 32] + Le32(block) + Le32(count)
  }

  /** Magic number, version, word size, block size, stream count, stream records. */
  function HeaderBytes(block: nat, recs: seq<Rec>): seq<byte>
  {
    Preamble(block, |recs|) + RecsBytes(recs)
  }

  /** The size `updateHeader` gives the header: it counts every owned block. */
  ghost function HeaderSize(recs: seq<Rec>): nat
  {
    14 + 8 * |recs| + 4 * OwnedCount(recs)
  }

  lemma TrimShorter(r: Rec, block: nat)
    requires block > 0 && Covers(r, block)
    ensures |Trim(r, block).blocks| == BlkDiv(r.size, block) <= |r.blocks|
    ensures Trim(r, block).blocks == r.blocks[..BlkDiv(r.size, block)]
    ensures Covers(Trim(r, block), block)
  {
    BlkDivLeast(r.size, |r.blocks|, block);
    BlkDivLeast(r.size, BlkDiv(r.size, block), block);
  }

  lemma {:induction false} OwnedCountStep(recs: seq<Rec>)
    requires recs != []
    ensures OwnedCount(recs) == OwnedCount(recs[..|recs| - 1]) + |recs[|recs| - 1].blocks|
  {
    var i := |recs| - 1;
    OwnedSplit(recs, i);
    assert recs[..i] + recs[i + 1..] == recs[..i];
  }

  /** What is written fits into the size that was computed. */
  lemma {:induction false} HeaderBytesFit(recs: seq<Rec>, block: nat)
    requires block > 0
    requires forall i :: 0 <= i < |recs| ==> Covers(recs[i], block)
    ensures |RecsBytes(TrimAll(recs, block))| <= 8 * |recs| + 4 * OwnedCount(recs)
  {
    if recs != [] {
      var n := |recs| - 1;
      var t := TrimAll(recs, block);
      assert t[..n] == TrimAll(recs[..n], block);
      HeaderBytesFit(recs[..n], block);
      OwnedCountStep(recs);
      TrimShorter(recs[n], block);
    }
  }

  /** Block id `k` sits at offset 4k. */
  lemma {:induction false} IntsAt(xs: seq<nat>, k: nat)
    requires k < |xs|
    ensures Ints(xs)[4 * k..4 * k + 4] == Le32(xs[k])
    ensures Ints(xs[..k]) == Ints(xs)[..4 * k]
  {
    var n := |xs| - 1;
    if k < n {
      IntsAt(xs[..n], k);
      assert xs[..n][..k] == xs[..k];
    } else {
      assert xs[..k] == xs[..n];
    }
  }

  /** The bytes of record `i` follow those of the records before it. */
  lemma {:induction false} RecAt(recs: seq<Rec>, i: nat)
    requires i < |recs|
    ensures RecsBytes(recs[..i]) + RecBytes(recs[i]) <= RecsBytes(recs)
  {
    var n := |recs| - 1;
    if i < n {
      RecAt(recs[..n], i);
      assert recs[..n][..i] == recs[..i];
    } else {
      assert recs[..i] == recs[..n];
    }
  }

  /** Where record `i` begins in the header. */
  function RecOffset(recs: seq<Rec>, i: nat): nat
    requires i <= |recs|
  {
    14 + |RecsBytes(recs[..i])|
  }

  lemma RecOffsetStep(recs: seq<Rec>, i: nat)
    requires i < |recs|
    ensures RecOffset(recs, i + 1) == RecOffset(recs, i) + 8 + 4 * |recs[i].blocks|
  {
    assert recs[..i + 1][..i] == recs[..i];
  }

  lemma RecOffsetEnd(block: nat, recs: seq<Rec>)
    ensures RecOffset(recs, 0) == 14
    ensures RecOffset(recs, |recs|) == |HeaderBytes(block, recs)|
  {
    assert recs[..|recs|] == recs;
  }

  /** The preamble's fields are found at the start of the header. */
  lemma PreambleFields(block: nat, recs: seq<Rec>)
    ensures |HeaderBytes(block, recs)| >= 14
    ensures HeaderBytes(block, recs)[..4] == MAGIC && HeaderBytes(block, recs)[4..6] == [1, 32]
    ensures HeaderBytes(block, recs)[6..10] == Le32(block)
    ensures HeaderBytes(block, recs)[10..14] == Le32(|recs|)
  {
    var h := HeaderBytes(block, recs);
    assert h[..14] == Preamble(block, |recs|);
    assert h[..4] == h[..14][..4] && h[4..6] == h[..14][4..6];
    assert h[6..10] == h[..14][6..10] && h[10..14] == h[..14][10..14];
  }

  /** Everything up to the fields of record `i` and its first `k` block ids is a prefix of the header. */
  lemma HeaderUpTo(block: nat, recs: seq<Rec>, i: nat, k: nat)
    requires i < |recs| && k <= |recs[i].blocks|
    ensures Preamble(block, |recs|) + RecsBytes(recs[..i])
            + (Le32(recs[i].id) + Le32(recs[i].size) + Ints(recs[i].blocks[..k])) <= HeaderBytes(block, recs)
  {
    RecAt(recs, i);
    var r, xs := recs[i], recs[i].blocks;
    var whole, part := Ints(xs), Ints(xs[..k]);
    assert part <= whole by {
      if k < |xs| { IntsAt(xs, k); } else { assert xs[..k] == xs; }
    }
    var p, rs := Preamble(block, |recs|), RecsBytes(recs[..i]);
    var f := Le32(r.id) + Le32(r.size);
    assert rs + (f + whole) == rs + RecBytes(r);
    assert f + part <= f + whole;
    assert rs + (f + part) <= rs + (f + whole) <= RecsBytes(recs);
    assert p + rs + (f + part) == p + (rs + (f + part));
  }

  /** The fields of record `i` are found at its offset. */
  lemma RecFields(block: nat, recs: seq<Rec>, i: nat)
    requires i < |recs|
    ensures RecOffset(recs, i) + 8 <= |HeaderBytes(block, recs)|
    ensures HeaderBytes(block, recs)[RecOffset(recs, i)..RecOffset(recs, i) + 4] == Le32(recs[i].id)
    ensures HeaderBytes(block, recs)[RecOffset(recs, i) + 4..RecOffset(recs, i) + 8] == Le32(recs[i].size)
  {
    HeaderUpTo(block, recs, i, 0);
    var h, o := HeaderBytes(block, recs), RecOffset(recs, i);
    var a := Preamble(block, |recs|) + RecsBytes(recs[..i]);
    var t := a + (Le32(recs[i].id) + Le32(recs[i].size) + Ints(recs[i].blocks[..0]));
    assert |a| == o && t[o..o + 4] == Le32(recs[i].id) && t[o + 4..o + 8] == Le32(recs[i].size);
    assert h[o..o + 4] == h[..|t|][o..o + 4] && h[o + 4..o + 8] == h[..|t|][o + 4..o + 8];
  }

  /** Block id `k` of record `i` is found behind its fields. */
  lemma BlockField(block: nat, recs: seq<Rec>, i: nat, k: nat)
    requires i < |recs| && k < |recs[i].blocks|
    ensures RecOffset(recs, i) + 12 + 4 * k <= |HeaderBytes(block, recs)|
    ensures HeaderBytes(block, recs)[RecOffset(recs, i) + 8 + 4 * k..RecOffset(recs, i) + 12 + 4 * k]
         == Le32(recs[i].blocks[k])
  {
    HeaderUpTo(block, recs, i, k + 1);
    var h, o, xs := HeaderBytes(block, recs), RecOffset(recs, i), recs[i].blocks;
    var a := Preamble(block, |recs|) + RecsBytes(recs[..i]) + (Le32(recs[i].id) + Le32(recs[i].size));
    assert xs[..k + 1][..k] == xs[..k];
    var t := a + (Ints(xs[..k]) + Le32(xs[k]));
    assert t == Preamble(block, |recs|) + RecsBytes(recs[..i])
                + (Le32(recs[i].id) + Le32(recs[i].size) + Ints(xs[..k + 1]));
    var q := o + 8 + 4 * k;
    assert |a| == o + 8 && |t| == q + 4 && t[q..q + 4] == Le32(xs[k]);
    assert h[q..q + 4] == h[..|t|][q..q + 4];
  }

  /** The header's bytes fit into the size computed for it, which its blocks cover. */
  lemma HeaderFitsSize(block: nat, recs: seq<Rec>)
    requires block > 0 && AllCovered(recs, block)
    ensures |HeaderBytes(block, TrimAll(recs, block))| <= HeaderSize(recs)
  {
    HeaderBytesFit(recs, block);
  }

  /** How many blocks a header of `size` bytes takes besides the `n` it has, as each is listed in it too. */
  function HeaderNeed(size: nat, n: nat, block: nat): (k: nat)
    requires block >= 5
    decreases size - Span(n, block)
  {
    if size <= Span(n, block) then 0 else 1 + HeaderNeed(size + 4, n + 1, block)
  }

  /** They are just as many as are needed. */
  lemma {:induction false} HeaderNeedLeast(size: nat, n: nat, block: nat)
    requires block >= 5
    ensures var k := HeaderNeed(size, n, block);
            size + 4 * k <= Span(n + k, block) && forall j: nat :: j < k ==> size + 4 * j > Span(n + j, block)
    decreases size - Span(n, block)
  {
    if size > Span(n, block) {
      var k := HeaderNeed(size + 4, n + 1, block);
      HeaderNeedLeast(size + 4, n + 1, block);
      forall j: nat | j < k + 1
        ensures size + 4 * j > Span(n + j, block)
      {
        if j > 0 {
          var i: nat := j - 1;
          assert size + 4 + 4 * i > Span(n + 1 + i, block);
        }
      }
    }
  }

  /** From `m0` on, blocks were taken for the header: with `size` bytes now, it still takes just what it needed then. */
  ghost predicate Sizing(m0: Meta, m: Meta, size: nat, block: nat)
    requires block >= 5
  {
    && m0.recs != [] && m.recs != []
    && var k := HeaderNeed(HeaderSize(m0.recs), |m0.recs[0].blocks|, block);
       var left := HeaderNeed(size, |m.recs[0].blocks|, block);
       TakeMany(m, 0, left) == TakeMany(m0, 0, k) && size + 4 * left == HeaderSize(m0.recs) + 4 * k
  }

  lemma SizingBegins(m: Meta, block: nat)
    requires block >= 5 && m.recs != []
    ensures Sizing(m, m, HeaderSize(m.recs), block)
  {
  }

  lemma SizingGoesOn(m0: Meta, m: Meta, size: nat, block: nat)
    requires block >= 5 && Sizing(m0, m, size, block) && size > Span(|m.recs[0].blocks|, block)
    ensures Sizing(m0, TakeFor(m, 0), size + 4, block)
  {
  }

  lemma SizingEnds(m0: Meta, m: Meta, size: nat, block: nat)
    requires block >= 5 && Sizing(m0, m, size, block) && size <= Span(|m.recs[0].blocks|, block)
    ensures Synced(m0, block) == WithSize(m, 0, size)
  {
  }

  /** The arrangement after the header was brought up to date. */
  ghost function Synced(m: Meta, block: nat): (m': Meta)
    requires block >= 5 && m.recs != []
    ensures |m'.recs| == |m.recs|
  {
    var k := HeaderNeed(HeaderSize(m.recs), |m.recs[0].blocks|, block);
    WithSize(TakeMany(m, 0, k), 0, HeaderSize(m.recs) + 4 * k)
  }

  /** The header up to and including block id `k - 1` of record `i`. */
  function SoFar(block: nat, recs: seq<Rec>, i: nat, k: nat): seq<byte>
    requires i < |recs| && k <= |recs[i].blocks|
  {
    Before(block, recs, i) + (Le32(recs[i].id) + Le32(recs[i].size) + Ints(recs[i].blocks[..k]))
  }

  /** The header before record `i`. */
  function Before(block: nat, recs: seq<Rec>, i: nat): seq<byte>
    requires i <= |recs|
  {
    Preamble(block, |recs|) + RecsBytes(recs[..i])
  }

  /** Field by field the header grows from one of these prefixes to the next. */
  lemma FieldsOfRecord(block: nat, recs: seq<Rec>, i: nat)
    requires i < |recs|
    ensures Before(block, recs, i) + Le32(recs[i].id) <= HeaderBytes(block, recs)
    ensures Before(block, recs, i) + Le32(recs[i].id) + Le32(recs[i].size) == SoFar(block, recs, i, 0)
    ensures SoFar(block, recs, i, 0) <= HeaderBytes(block, recs)
    ensures SoFar(block, recs, i, |recs[i].blocks|) == Before(block, recs, i + 1)
  {
    HeaderUpTo(block, recs, i, 0);
    assert Ints(recs[i].blocks[..0]) == [];
    var t := Before(block, recs, i) + Le32(recs[i].id);
    assert t + Le32(recs[i].size) == SoFar(block, recs, i, 0);
    assert t <= SoFar(block, recs, i, 0);
    assert recs[..i + 1][..i] == recs[..i] && recs[i].blocks[..|recs[i].blocks|] == recs[i].blocks;
    assert SoFar(block, recs, i, |recs[i].blocks|)
        == Preamble(block, |recs|) + (RecsBytes(recs[..i]) + RecBytes(recs[i]));
  }

  lemma FieldOfBlock(block: nat, recs: seq<Rec>, i: nat, k: nat)
    requires i < |recs| && k < |recs[i].blocks|
    ensures SoFar(block, recs, i, k) + Le32(recs[i].blocks[k]) == SoFar(block, recs, i, k + 1)
    ensures SoFar(block, recs, i, k + 1) <= HeaderBytes(block, recs)
  {
    HeaderUpTo(block, recs, i, k + 1);
    assert recs[i].blocks[..k + 1][..k] == recs[i].blocks[..k];
  }

  lemma PreambleParts(block: nat, recs: seq<Rec>)
    ensures MAGIC + [1] + [32] + Le32(block) + Le32(|recs|) == Before(block, recs, 0) <= HeaderBytes(block, recs)
    ensures [] + MAGIC == MAGIC
    ensures MAGIC + [1] + [32] + Le32(block) <= Before(block, recs, 0)
    ensures MAGIC + [1] + [32] <= Before(block, recs, 0) && MAGIC + [1] <= Before(block, recs, 0)
    ensures MAGIC <= Before(block, recs, 0)
    ensures Before(block, recs, |recs|) == HeaderBytes(block, recs)
  {
    assert recs[..0] == [] && recs[..|recs|] == recs;
  }

  /** Setting the header's size to the one computed keeps that size right, and the header fits. */
  lemma HeaderSized(m: Meta, size: nat, block: nat)
    requires Sound(m, block) && size == HeaderSize(m.recs) && size <= Span(|m.recs[0].blocks|, block)
    ensures Sound(WithSize(m, 0, size), block) && Drift(WithSize(m, 0, size)) == Drift(m)
    ensures HeaderSize(WithSize(m, 0, size).recs) == size
    ensures |HeaderBytes(block, TrimAll(WithSize(m, 0, size).recs, block))| <= size
  {
    hide Partition, HeaderBytes, TrimAll;
    WithSizeSound(m, 0, size, block);
    HeaderFitsSize(block, WithSize(m, 0, size).recs);
  }

  // ---- What a store must hold to be loaded ----

  /** Every number in the header fits the 32 bits it is given. */
  ghost predicate Fits32(block: nat, recs: seq<Rec>)
  {
    && FitsInt32(block) && FitsInt32(|recs|)
    && forall i :: 0 <= i < |recs| ==>
         && FitsInt32(recs[i].id) && FitsInt32(recs[i].size)
         && forall k :: 0 <= k < |recs[i].blocks| ==> FitsInt32(recs[i].blocks[k])
  }

  /** The header's first blocks are the first blocks of the store, which is where loading starts. */
  ghost predicate Bootable(block: nat, recs: seq<Rec>)
  {
    && block >= 5 && recs != [] && BootBlocks(block) <= |recs[0].blocks|
    && recs[0].blocks[..BootBlocks(block)] == Iota(BootBlocks(block))
  }

  /** No block is owned twice, and all are below `n`. */
  ghost predicate OwnedOnce(n: nat, recs: seq<Rec>)
  {
    forall b: nat :: Owned(recs)[b] <= if b < n then 1 else 0
  }

  /** The blocks of a store without anything in memory. */
  function Stored(data: seq<byte>, block: nat): seq<seq<byte>>
    requires block > 0
  {
    View(data, block, BlockOf(|data|, block), map[])
  }

  /** `data` is a store from which exactly the streams `recs` can be read back. */
  ghost predicate Image(data: seq<byte>, block: nat, recs: seq<Rec>)
  {
    && block >= 5 && Ordered(recs) && AllCovered(recs, block) && Fits32(block, recs)
    && OwnedOnce(BlockOf(|data|, block), recs)
    && Bootable(block, recs) && recs[0].size >= 22 + 4 * BootBlocks(block)
    && HeaderBytes(block, TrimAll(recs, block)) <= Flat(recs[0], Stored(data, block), block)
  }

  /** Loading succeeds exactly when the header is no longer than the blocks it started with,
      or these leave room for the next block id. */
  ghost predicate Loadable(block: nat, recs: seq<Rec>)
    requires Bootable(block, recs)
  {
    |Trim(recs[0], block).blocks| <= BootBlocks(block) || RoomForNext(block)
  }

  /** Whether what is synced can be loaded, from the streams before the sync: the blocks a header starts with leave
      room for one more block id, or they hold a header that lists all the blocks there are. */
  ghost predicate WillLoad(block: nat, recs: seq<Rec>, changed: bool)
    requires Bootable(block, recs)
  {
    || RoomForNext(block)
    || if changed then HeaderSize(recs) <= Span(BootBlocks(block), block)
       else |Trim(recs[0], block).blocks| <= BootBlocks(block)
  }

  lemma SyncedLoads(m: Meta, block: nat)
    requires Sound(m, block) && Bootable(block, m.recs)
    ensures Bootable(block, Synced(m, block).recs)
    ensures Loadable(block, Synced(m, block).recs) <==> WillLoad(block, m.recs, true)
  {
    hide Partition, Owned;
    var n, size := |m.recs[0].blocks|, HeaderSize(m.recs);
    var k := HeaderNeed(size, n, block);
    HeaderNeedLeast(size, n, block);
    TakeManySound(m, 0, k, block);
    var r := Synced(m, block).recs[0];
    assert r.blocks[..BootBlocks(block)] == m.recs[0].blocks[..BootBlocks(block)];
    SpanMonotone(BootBlocks(block), n, block);
    BlkDivLeast(r.size, BootBlocks(block), block);
    BlkDivLeast(r.size, n + k, block);
    if k > 0 {
      assert size + 4 * 0 > Span(n + 0, block);
    }
  }

  lemma CleanView(data: seq<byte>, block: nat, n: nat, active: map<nat, Block>)
    requires Coherent(data, block, n, active) && forall b :: b in active ==> !active[b].changed
    ensures View(data, block, n, active) == View(data, block, n, map[])
  {
  }

  /** Cells past the blocks a record lists do not matter to it. */
  lemma FlatOfMore(r: Rec, cells: seq<seq<byte>>, more: seq<seq<byte>>, block: nat)
    requires block > 0 && InRange(r.blocks, |cells|) && Covers(r, block) && cells <= more
    ensures Flat(r, more, block) == Flat(r, cells, block)
  {
    assert more == cells + more[|cells|..];
    FlatGrow(r, cells, more[|cells|..], [], block);
    assert r.(blocks := r.blocks + []) == r;
  }

  /** A sound arrangement whose blocks are all written back, header included, is such an image. */
  lemma SavedIsImage(data: seq<byte>, block: nat, m: Meta, active: map<nat, Block>)
    requires Sound(m, block) && Coherent(data, block, m.blocks, active)
    requires forall b :: b in active ==> !active[b].changed
    requires Fits32(block, m.recs) && Bootable(block, m.recs) && m.recs[0].size >= 22 + 4 * BootBlocks(block)
    requires HeaderBytes(block, TrimAll(m.recs, block)) <= Flat(m.recs[0], View(data, block, m.blocks, active), block)
    ensures Image(data, block, m.recs)
    ensures forall i :: 0 <= i < |m.recs| ==>
              Flat(m.recs[i], Stored(data, block), block) == Flat(m.recs[i], View(data, block, m.blocks, active), block)
  {
    hide HeaderBytes, TrimAll, Fits32, Bootable;
    var n := BlockOf(|data|, block);
    BlocksInStore(data, block, m.blocks);
    forall b: nat
      ensures Owned(m.recs)[b] <= if b < n then 1 else 0
    {
      PartitionCount(m.blocks, m.free, m.recs, b);
    }
    RangesOf(m, block);
    CleanView(data, block, m.blocks, active);
    assert View(data, block, m.blocks, map[]) <= Stored(data, block);
    forall i | 0 <= i < |m.recs|
      ensures Flat(m.recs[i], Stored(data, block), block) == Flat(m.recs[i], View(data, block, m.blocks, active), block)
    {
      FlatOfMore(m.recs[i], View(data, block, m.blocks, map[]), Stored(data, block), block);
    }
  }

  lemma BlocksInStore(data: seq<byte>, block: nat, n: nat)
    requires block > 0 && Span(n, block) <= |data|
    ensures n <= BlockOf(|data|, block) && Span(BlockOf(|data|, block), block) <= |data|
  {
    SpanSplit(|data|, block);
    BlockIndex(|data|, n, block);
  }

  /** In the blocks a header starts with, positions of the stream are positions of the store. */
  lemma BootByte(data: seq<byte>, block: nat, n: nat, blocks: seq<nat>, k: nat, p: nat)
    requires block > 0 && Span(n, block) <= |data| && k <= n && k <= |blocks| && blocks[..k] == Iota(k)
    requires p < Span(k, block)
    ensures p < |data| && ByteAt(blocks, View(data, block, n, map[]), block, p) == data[p]
  {
    SpanMonotone(k, n, block);
    BlockIndex(p, k, block);
    SpanSplit(p, block);
    var i, x := BlockOf(p, block), Offset(p, block);
    assert blocks[i] == blocks[..k][i] == i;
    StoreBlockInside(data, block, n, i);
    assert StoreBlock(data, block, i)[x] == data[Span(i, block) + x];
  }

  // ---- A freshly formatted store ----

  /** The records of a fresh Myriad: the header alone, in the first blocks. */
  function FreshRecs(block: nat): (recs: seq<Rec>)
    requires block >= 5
  {
    [Rec(0, 22 + 4 * BootBlocks(block), Iota(BootBlocks(block)))]
  }

  function FreshFree(n: nat, count: nat): (s: seq<nat>)
    ensures |s| == count && forall i :: 0 <= i < count ==> s[i] == n + i
  {
    seq(count, i requires i >= 0 => n + i)
  }

  lemma FreshSound(block: nat, extra: nat)
    requires block >= 5
    ensures var n := BootBlocks(block);
            Sound(Meta(n + extra, FreshFree(n, extra), n + 1, FreshRecs(block)), block)
    ensures var n := BootBlocks(block);
            Drift(Meta(n + extra, FreshFree(n, extra), n + 1, FreshRecs(block))) == 1
    ensures Bootable(block, FreshRecs(block))
  {
    var n := BootBlocks(block);
    var recs, free := FreshRecs(block), FreshFree(n, extra);
    assert Owned(recs) == multiset(Iota(n));
    assert Iota(n) + free == Iota(n + extra);
    assert Iota(n)[..n] == Iota(n);
  }

  /** The header of a fresh Myriad lists its own blocks and fills its size exactly. */
  lemma FreshHeader(block: nat)
    requires block >= 5
    ensures TrimAll(FreshRecs(block), block) == FreshRecs(block)
    ensures HeaderBytes(block, FreshRecs(block))
         == Preamble(block, 1) + (Le32(0) + Le32(22 + 4 * BootBlocks(block)) + Ints(Iota(BootBlocks(block))))
    ensures |HeaderBytes(block, FreshRecs(block))| == 22 + 4 * BootBlocks(block)
  {
    var r := FreshRecs(block)[0];
    BootNeeded(block, r.size);
    BlkDivLeast(r.size, BootBlocks(block), block);
    assert r.blocks[..|r.blocks|] == r.blocks;
    assert Trim(r, block) == r;
    assert RecsBytes([r]) == [] + RecBytes(r);
  }

  /** A store that begins with these bytes has the header in its header stream. */
  lemma FreshWritten(data: seq<byte>, block: nat, n: nat)
    requires block >= 5 && Span(n, block) <= |data| && BootBlocks(block) <= n
    requires 22 + 4 * BootBlocks(block) <= |data|
    requires data[..22 + 4 * BootBlocks(block)] == HeaderBytes(block, FreshRecs(block))
    ensures Flat(FreshRecs(block)[0], View(data, block, n, map[]), block) == HeaderBytes(block, FreshRecs(block))
  {
    var r := FreshRecs(block)[0];
    var s := Flat(r, View(data, block, n, map[]), block);
    assert r.blocks[..|r.blocks|] == r.blocks;
    forall p: nat | p < r.size
      ensures s[p] == data[..r.size][p]
    {
      BootByte(data, block, n, r.blocks, |r.blocks|, p);
    }
    assert s == data[..r.size];
  }

  /** The header it starts with fits into the blocks it starts with. */
  lemma FreshFits(block: nat)
    requires block >= 5
    ensures BootBlocks(block) > 0 && 22 + 4 * BootBlocks(block) <= Span(BootBlocks(block), block)
  {
  }

  lemma FreshCoherent(data: seq<byte>, block: nat, n: nat)
    requires block > 0 && Span(n, block) <= |data|
    ensures Coherent(data, block, n, map[])
  {
  }

  // ---- Loading: where the bytes of an image's header are found ----

  /** The part of an image's header that its first blocks hold is the start of the store. */
  lemma ImageStart(data: seq<byte>, block: nat, recs: seq<Rec>)
    requires Image(data, block, recs)
    ensures 22 + 4 * BootBlocks(block) <= |data| && BootBlocks(block) <= BlockOf(|data|, block)
    ensures data[..14] == Preamble(block, |recs|)
  {
    hide Fits32, Ordered, AllCovered, RecsBytes, Preamble;
    var n, r, h := BootBlocks(block), recs[0], HeaderBytes(block, TrimAll(recs, block));
    var cells := Stored(data, block);
    assert r.blocks[n - 1] == r.blocks[..n][n - 1] == n - 1;
    OwnedAt(recs, 0, n - 1);
    assert n - 1 in multiset(r.blocks);
    BlocksInStore(data, block, 0);
    SpanMonotone(n, BlockOf(|data|, block), block);
    assert h[..14] == Preamble(block, |recs|);
    forall p | 0 <= p < 14
      ensures data[p] == h[p]
    {
      BootByte(data, block, BlockOf(|data|, block), r.blocks, n, p);
      assert Flat(r, cells, block)[p] == h[p];
    }
    assert data[..14] == h[..14];
  }

  /** Four bytes of an image's header, read through the blocks known so far. */
  lemma ImageField(data: seq<byte>, block: nat, recs: seq<Rec>, blocks: seq<nat>, p: nat)
    requires Image(data, block, recs) && blocks <= recs[0].blocks
    requires p + 4 <= |HeaderBytes(block, TrimAll(recs, block))| && p + 4 <= Span(|blocks|, block)
    ensures BytesAt(blocks, Stored(data, block), block, p, 4) == HeaderBytes(block, TrimAll(recs, block))[p..p + 4]
  {
    hide Fits32, Ordered, AllCovered, HeaderBytes, OwnedOnce;
    var h := HeaderBytes(block, TrimAll(recs, block));
    var s := BytesAt(blocks, Stored(data, block), block, p, 4);
    forall k: nat | k < 4
      ensures s[k] == h[p + k]
    {
      BlockIndex(p + k, |blocks|, block);
      assert blocks[BlockOf(p + k, block)] == recs[0].blocks[BlockOf(p + k, block)];
      assert s[k] == ByteAt(blocks, Stored(data, block), block, p + k);
      assert Flat(recs[0], Stored(data, block), block)[p + k] == h[p + k];
    }
  }

  /** The blocks in use hold the whole header. */
  lemma ImageCovers(data: seq<byte>, block: nat, recs: seq<Rec>)
    requires Image(data, block, recs)
    ensures |HeaderBytes(block, TrimAll(recs, block))| <= recs[0].size <= Span(|Trim(recs[0], block).blocks|, block)
    ensures BootBlocks(block) <= |Trim(recs[0], block).blocks| && Trim(recs[0], block).blocks <= recs[0].blocks
    ensures Trim(recs[0], block).blocks[..BootBlocks(block)] == Iota(BootBlocks(block))
  {
    hide Fits32, Ordered, HeaderBytes, OwnedOnce;
    TrimShorter(recs[0], block);
    BlkDivLeast(recs[0].size, BlkDiv(recs[0].size, block), block);
    BootNeeded(block, recs[0].size);
    var n := BootBlocks(block);
    assert Trim(recs[0], block).blocks[..n] == recs[0].blocks[..n];
  }

  /** What is left of an image after a trip through the store keeps its order and covers its sizes. */
  lemma TrimKeeps(recs: seq<Rec>, block: nat)
    requires block > 0 && Ordered(recs) && AllCovered(recs, block)
    ensures Ordered(TrimAll(recs, block)) && AllCovered(TrimAll(recs, block), block)
  {
    forall i | 0 <= i < |recs|
      ensures Covers(TrimAll(recs, block)[i], block)
    {
      TrimShorter(recs[i], block);
    }
  }

  lemma {:induction false} TrimOwned(recs: seq<Rec>, block: nat, b: nat)
    requires block > 0 && AllCovered(recs, block)
    ensures Owned(TrimAll(recs, block))[b] <= Owned(recs)[b]
  {
    if recs != [] {
      var t := TrimAll(recs, block);
      TrimShorter(recs[0], block);
      assert t[1..] == TrimAll(recs[1..], block);
      TrimOwned(recs[1..], block, b);
      var k := BlkDiv(recs[0].size, block);
      assert recs[0].blocks == recs[0].blocks[..k] + recs[0].blocks[k..];
    }
  }

  /** The blocks below `n` that are not in `used`, in increasing order. */
  function Unused(n: nat, used: set<nat>): (s: seq<nat>)
    ensures forall b: nat :: b in s <==> b < n && b !in used
  {
    if n == 0 then [] else
      var rest := Unused(n - 1, used);
      if n - 1 in used then rest else rest + [n - 1]
  }

  lemma {:induction false} UnusedAscends(n: nat, used: set<nat>)
    ensures forall i, j :: 0 <= i < j < |Unused(n, used)| ==> Unused(n, used)[i] < Unused(n, used)[j]
  {
    if n > 0 {
      UnusedAscends(n - 1, used);
      var rest := Unused(n - 1, used);
      assert forall i :: 0 <= i < |rest| ==> rest[i] in rest;
    }
  }

  lemma {:induction false} UnusedCount(n: nat, used: set<nat>, b: nat)
    ensures multiset(Unused(n, used))[b] == if b < n && b !in used then 1 else 0
  {
    if n > 0 {
      UnusedCount(n - 1, used, b);
      var rest := Unused(n - 1, used);
      assert multiset(rest + [n - 1]) == multiset(rest) + multiset{n - 1};
    }
  }

  /** All blocks some record lists. */
  ghost predicate Listed(recs: seq<Rec>, used: set<nat>)
  {
    forall b: nat :: b in used <==> b in Owned(recs)
  }

  /** `ids` are the blocks the records list, `count` of them with repetition, all below `n`. */
  ghost predicate Tallied(recs: seq<Rec>, ids: set<nat>, count: int, n: nat)
  {
    && Listed(recs, ids) && count == OwnedCount(recs)
    && forall j :: 0 <= j < |recs| ==> InRange(recs[j].blocks, n)
  }

  lemma TalliedMore(recs: seq<Rec>, ids: set<nat>, count: int, n: nat, i: nat, b: nat)
    requires i < |recs| && Tallied(recs, ids, count, n) && b < n
    ensures Tallied(recs[i := recs[i].(blocks := recs[i].blocks + [b])], ids + {b}, count + 1, n)
  {
    ListedMore(recs, ids, i, b);
    hide Listed, Owned, OwnedCount;
    var t := recs[i := recs[i].(blocks := recs[i].blocks + [b])];
    forall j | 0 <= j < |t|
      ensures InRange(t[j].blocks, n)
    {
      assert InRange(recs[j].blocks, n);
    }
  }

  lemma ListedMore(recs: seq<Rec>, ids: set<nat>, i: nat, b: nat)
    requires i < |recs| && Listed(recs, ids)
    ensures Listed(recs[i := recs[i].(blocks := recs[i].blocks + [b])], ids + {b})
    ensures OwnedCount(recs[i := recs[i].(blocks := recs[i].blocks + [b])]) == OwnedCount(recs) + 1
  {
    OwnedUpdate(recs, i, recs[i].(blocks := recs[i].blocks + [b]));
    assert multiset(recs[i].blocks + [b]) == multiset(recs[i].blocks) + multiset{b};
  }

  lemma TalliedNew(recs: seq<Rec>, ids: set<nat>, count: int, n: nat, r: Rec)
    requires Tallied(recs, ids, count, n) && r.blocks == []
    ensures Tallied(recs + [r], ids, count, n)
  {
    OwnedConcat(recs, [r]);
  }

  /** What was loaded, with every other block free, is sound and has no drift. */
  lemma LoadedSound(data: seq<byte>, block: nat, recs: seq<Rec>, used: set<nat>, count: int)
    requires Image(data, block, recs) && Listed(TrimAll(recs, block), used)
    requires count == OwnedCount(TrimAll(recs, block))
    ensures var n := BlockOf(|data|, block);
            Sound(Meta(n, Unused(n, used), count, TrimAll(recs, block)), block)
    ensures var n := BlockOf(|data|, block);
            Drift(Meta(n, Unused(n, used), count, TrimAll(recs, block))) == 0
  {
    hide HeaderBytes, Fits32, Bootable;
    var n, t := BlockOf(|data|, block), TrimAll(recs, block);
    TrimKeeps(recs, block);
    hide Ordered, AllCovered, TrimAll;
    forall b: nat
      ensures multiset(Unused(n, used))[b] + Owned(t)[b] == multiset(Iota(n))[b]
    {
      UnusedCount(n, used, b);
      IotaCount(n, b);
      TrimOwned(recs, block, b);
    }
  }

  /** The streams loaded once `k` block ids of record `i` were read. */
  function Partial(t: seq<Rec>, i: nat, k: nat): seq<Rec>
    requires i < |t| && k <= |t[i].blocks|
  {
    t[..i] + [t[i].(blocks := t[i].blocks[..k])]
  }

  lemma PartialSteps(t: seq<Rec>, i: nat, k: nat)
    requires i < |t| && k <= |t[i].blocks|
    ensures k < |t[i].blocks| ==>
              Partial(t, i, k + 1)
              == Partial(t, i, k)[i := Partial(t, i, k)[i].(blocks := t[i].blocks[..k] + [t[i].blocks[k]])]
    ensures Partial(t, i, 0) == t[..i] + [Rec(t[i].id, t[i].size, [])]
    ensures Partial(t, i, |t[i].blocks|) == t[..i + 1]
  {
    assert t[i].blocks[..|t[i].blocks|] == t[i].blocks;
    if k < |t[i].blocks| {
      assert t[i].blocks[..k + 1] == t[i].blocks[..k] + [t[i].blocks[k]];
    }
  }

  /** The record that stands for the header before any stream is loaded. */
  function FakeHeader(block: nat): Rec
    requires block >= 5
  {
    Rec(0, 22 + 4 * BootBlocks(block), Iota(BootBlocks(block)))
  }

  /** The record the header is read through after `k` block ids of record `i` were read. */
  function Source(block: nat, t: seq<Rec>, i: nat, k: nat): Rec
    requires block >= 5 && i < |t| && k <= |t[i].blocks|
  {
    if i > 0 then t[0]
    else if k < BootBlocks(block) then FakeHeader(block)
    else t[0].(blocks := t[0].blocks[..k])
  }

  /** The integer read through `src` at `p`. */
  ghost function IntAt(src: Rec, data: seq<byte>, block: nat, p: nat): int
    requires block > 0
  {
    FromLe32(BytesAt(src.blocks, Stored(data, block), block, p, 4))
  }

  predicate Within(r: Rec, p: nat, block: nat)
  {
    p + 4 <= r.size && p + 4 <= Span(|r.blocks|, block)
  }

  /** Four header bytes that an image's known blocks hold. */
  lemma SourceField(data: seq<byte>, block: nat, recs: seq<Rec>, i: nat, k: nat, p: nat)
    requires Image(data, block, recs) && i < |recs| && k <= |TrimAll(recs, block)[i].blocks|
    requires p + 4 <= |HeaderBytes(block, TrimAll(recs, block))|
    requires Within(Source(block, TrimAll(recs, block), i, k), p, block)
    ensures BytesAt(Source(block, TrimAll(recs, block), i, k).blocks, Stored(data, block), block, p, 4)
         == HeaderBytes(block, TrimAll(recs, block))[p..p + 4]
  {
    hide Fits32, Ordered, AllCovered, HeaderBytes, OwnedOnce, BytesAt, Stored;
    var src := Source(block, TrimAll(recs, block), i, k);
    ImageCovers(data, block, recs);
    assert src.blocks <= Trim(recs[0], block).blocks <= recs[0].blocks;
    ImageField(data, block, recs, src.blocks, p);
  }

  /** The id and size of a stream can always be read. */
  lemma SourceRecord(data: seq<byte>, block: nat, recs: seq<Rec>, i: nat)
    requires Image(data, block, recs) && i < |recs|
    ensures var t := TrimAll(recs, block);
            var src, p := Source(block, t, i, 0), RecOffset(t, i);
            && Within(src, p, block) && Within(src, p + 4, block)
            && IntAt(src, data, block, p) == recs[i].id
            && IntAt(src, data, block, p + 4) == recs[i].size
  {
    hide OwnedOnce, HeaderBytes, BytesAt, Stored;
    var t := TrimAll(recs, block);
    var src, p := Source(block, t, i, 0), RecOffset(t, i);
    ImageCovers(data, block, recs);
    RecFields(block, t, i);
    RecOffsetEnd(block, t);
    assert Within(src, p, block) && Within(src, p + 4, block);
    SourceField(data, block, recs, i, 0, p);
    SourceField(data, block, recs, i, 0, p + 4);
    Le32RoundTrip(recs[i].id);
    Le32RoundTrip(recs[i].size);
  }

  /** Where an image lists a block, it lists one of the store's. */
  lemma ListedBlock(data: seq<byte>, block: nat, recs: seq<Rec>, i: nat, k: nat)
    requires Image(data, block, recs) && i < |recs| && k < |TrimAll(recs, block)[i].blocks|
    ensures TrimAll(recs, block)[i].blocks[k] < BlockOf(|data|, block)
    ensures FromLe32(Le32(TrimAll(recs, block)[i].blocks[k])) == TrimAll(recs, block)[i].blocks[k]
  {
    hide HeaderBytes, Bootable, FromLe32, Le32;
    TrimShorter(recs[i], block);
    assert TrimAll(recs, block)[i].blocks[k] == recs[i].blocks[k];
    assert recs[i].blocks[k] in multiset(recs[i].blocks);
    OwnedAt(recs, i, recs[i].blocks[k]);
    Le32RoundTrip(recs[i].blocks[k]);
  }

  /** A block id can be read when it lies in the blocks known so far. */
  ghost predicate Reachable(block: nat, i: nat, k: nat)
    requires block >= 5
  {
    i > 0 || k < BootBlocks(block) || 26 + 4 * k <= Span(k, block)
  }

  lemma SourceWithin(data: seq<byte>, block: nat, recs: seq<Rec>, i: nat, k: nat)
    requires Image(data, block, recs) && i < |recs| && k < |TrimAll(recs, block)[i].blocks|
    ensures var t := TrimAll(recs, block);
            Within(Source(block, t, i, k), RecOffset(t, i) + 8 + 4 * k, block) <==> Reachable(block, i, k)
  {
    hide HeaderBytes, OwnedOnce, Fits32;
    var t := TrimAll(recs, block);
    ImageCovers(data, block, recs);
    BlockField(block, t, i, k);
    RecOffsetEnd(block, t);
  }

  /** What is read there is the block id. */
  lemma SourceBlock(data: seq<byte>, block: nat, recs: seq<Rec>, i: nat, k: nat)
    requires Image(data, block, recs) && i < |recs| && k < |TrimAll(recs, block)[i].blocks|
    requires Reachable(block, i, k)
    ensures var t := TrimAll(recs, block);
            var src, p := Source(block, t, i, k), RecOffset(t, i) + 8 + 4 * k;
            IntAt(src, data, block, p) == t[i].blocks[k] < BlockOf(|data|, block)
  {
    hide HeaderBytes, BytesAt, Stored, Image, Source, Within, TrimAll, Reachable;
    var t := TrimAll(recs, block);
    SourceWithin(data, block, recs, i, k);
    BlockField(block, t, i, k);
    SourceField(data, block, recs, i, k, RecOffset(t, i) + 8 + 4 * k);
    ListedBlock(data, block, recs, i, k);
  }

  /** An image is loadable exactly when every block id of the header itself can be reached. */
  lemma ReachableIsLoadable(data: seq<byte>, block: nat, recs: seq<Rec>, k: nat)
    requires Image(data, block, recs) && k < |Trim(recs[0], block).blocks| && !Reachable(block, 0, k)
    ensures !Loadable(block, recs)
  {
    if RoomForNext(block) {
      RoomStays(block, k);
    }
  }

  /** The blocks that are dropped on a trip through the store hold none of a stream's bytes. */
  lemma TrimContents(recs: seq<Rec>, cells: seq<seq<byte>>, block: nat)
    requires block > 0 && AllCovered(recs, block)
    ensures Contents(TrimAll(recs, block), cells, block) == Contents(recs, cells, block)
  {
    forall i | 0 <= i < |recs|
      ensures Flat(TrimAll(recs, block)[i], cells, block) == Flat(recs[i], cells, block)
    {
      TrimShorter(recs[i], block);
      FlatShrink(recs[i], cells, BlkDiv(recs[i].size, block), recs[i].size, block);
      assert Flat(recs[i], cells, block)[..recs[i].size] == Flat(recs[i], cells, block);
    }
  }

  lemma ImagePreamble(data: seq<byte>, block: nat, recs: seq<Rec>)
    requires Image(data, block, recs)
    ensures |data| >= 14 && data[..6] == MAGIC + [1, 32]
    ensures FromLe32(data[6..10]) == block && FromLe32(data[10..14]) == |recs|
    ensures block >= 5 && BootBlocks(block) <= BlockOf(|data|, block) && recs != []
  {
    hide FromLe32, Le32, HeaderBytes, OwnedOnce, Ordered, AllCovered;
    ImageStart(data, block, recs);
    PreambleFields(block, []);
    var p := data[..14];
    assert p == Preamble(block, |recs|);
    assert data[..6] == p[..6] && data[6..10] == p[6..10] && data[10..14] == p[10..14];
    Le32RoundTrip(block);
    Le32RoundTrip(|recs|);
  }

  lemma NothingLoaded(t: seq<Rec>, n: nat)
    ensures Tallied([], {}, 0, n) && t[..0] == [] && RecOffset(t, 0) == 14
  {
  }

  /** What makes an unchanged header good for loading: it lists the streams, and starts at the store's start. */
  ghost predicate HeaderGood(block: nat, recs: seq<Rec>, header: seq<byte>, changed: bool)
    ensures HeaderGood(block, recs, header, changed) ==> Bootable(block, recs)
  {
    && Bootable(block, recs)
    && (!changed ==> HeaderBytes(block, TrimAll(recs, block)) <= header && recs[0].size >= 22 + 4 * BootBlocks(block))
  }

  /** As long as every change is noted, and the header's first blocks stay, the header stays good. */
  lemma HeaderStaysGood(block: nat, recs: seq<Rec>, recs': seq<Rec>, header: seq<byte>, changed: bool, changed': bool)
    requires HeaderGood(block, recs, header, changed)
    requires recs' != [] && recs[0].blocks <= recs'[0].blocks
    requires changed' || (recs' == recs && !changed)
    ensures HeaderGood(block, recs', header, changed')
  {
    var n := BootBlocks(block);
    assert recs'[0].blocks[..n] == recs[0].blocks[..n];
  }

  lemma GoodBoots(block: nat, recs: seq<Rec>, header: seq<byte>, changed: bool)
    requires HeaderGood(block, recs, header, changed)
    ensures Bootable(block, recs)
  {
  }

  /** A header just written is good when the one before was. */
  lemma HeaderWrittenGood(block: nat, before: seq<Rec>, recs: seq<Rec>, header: seq<byte>)
    requires Bootable(block, before) && recs != [] && before[0].blocks <= recs[0].blocks
    requires recs[0].size == HeaderSize(recs)
    requires HeaderBytes(block, TrimAll(recs, block)) <= header
    ensures HeaderGood(block, recs, header, false)
  {
    OwnedSplit(recs, 0);
    assert |multiset(recs[0].blocks)| == |recs[0].blocks|;
    var n := BootBlocks(block);
    assert recs[0].blocks[..n] == before[0].blocks[..n];
  }

  lemma TrimTwice(recs: seq<Rec>, block: nat)
    requires block > 0 && AllCovered(recs, block)
    ensures TrimAll(TrimAll(recs, block), block) == TrimAll(recs, block)
  {
    var t := TrimAll(recs, block);
    forall i | 0 <= i < |recs|
      ensures Trim(t[i], block) == t[i]
    {
      TrimShorter(recs[i], block);
      assert t[i].blocks[..|t[i].blocks|] == t[i].blocks;
    }
  }

  /** What was loaded from an image has a good header. */
  lemma ImageGood(data: seq<byte>, block: nat, recs: seq<Rec>)
    requires Image(data, block, recs)
    ensures HeaderGood(block, TrimAll(recs, block), Flat(recs[0], Stored(data, block), block), false)
  {
    hide HeaderBytes, Fits32, OwnedOnce;
    TrimTwice(recs, block);
    ImageCovers(data, block, recs);
  }

  /** A fresh header is good. */
  lemma FreshGood(block: nat, header: seq<byte>)
    requires block >= 5 && Bootable(block, FreshRecs(block))
    requires HeaderBytes(block, TrimAll(FreshRecs(block), block)) <= header
    ensures HeaderGood(block, FreshRecs(block), header, false) && HeaderGood(block, FreshRecs(block), header, true)
  {
  }
}
