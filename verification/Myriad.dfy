/** Many growing byte streams multiplexed over the fixed-size blocks of one
    backing store. */
module Myriad {
  import opened BlockMath
  import opened Bytes
  import opened MyriadFormat
  import opened MyriadHeader
  import opened MyriadLayout
  import opened MyriadMeta
  import opened Numbers
  import opened Store
  import opened Wrappers

  datatype MyriadError =
    | EmptyStream | InvalidFormat | BadVersion | InvalidWordSize
    | NoSuchStream | InvalidStreamId | ProtectedStream
    | IndexOutOfRange | Corrupt

  /** How often a counting loop up to `k` runs. */
  function Count(k: int): nat { if k < 0 then 0 else k }

  /** Blocks other than `bs` are in memory as before. */
  ghost predicate SameOutside(before: map<nat, Block>, after: map<nat, Block>, bs: seq<nat>)
  {
    forall b :: b !in bs ==> (b in after <==> b in before) && (b in after ==> after[b] == before[b])
  }

  lemma SameOutsideAgain(a: map<nat, Block>, b: map<nat, Block>, c: map<nat, Block>, bs: seq<nat>)
    requires SameOutside(a, b, bs) && SameOutside(b, c, bs)
    ensures SameOutside(a, c, bs)
  {
  }

  /** What a handle that works on the blocks `bs` and has `cur` in memory may rely on:
      no block of its stream other than `cur` is in memory. */
  ghost predicate Holds(active: map<nat, Block>, bs: seq<nat>, cur: Option<nat>)
  {
    && (cur.Some? ==> cur.value in active && cur.value in bs)
    && forall b :: b in bs && b in active ==> cur == Some(b)
  }

  /** A handle on the stream with this id has `cur` in memory and no other of its blocks is there. */
  ghost predicate HeldBy(recs: seq<Rec>, active: map<nat, Block>, id: int, cur: Option<nat>)
  {
    !Fresh(recs, id) && Holds(active, recs[Spot(recs, id)].blocks, cur)
  }

  /** Changing the contents of the block in memory changes neither what is held nor what is outside. */
  lemma StillHolds(a: map<nat, Block>, b: map<nat, Block>, c: map<nat, Block>, bs: seq<nat>, x: nat)
    requires Holds(b, bs, Some(x)) && SameOutside(a, b, bs)
    requires c.Keys == b.Keys && SameOutside(b, c, [x])
    ensures Holds(c, bs, Some(x)) && SameOutside(a, c, bs)
  {
  }

  /** Every block in memory is as it is in the store. */
  ghost predicate Clean(active: map<nat, Block>)
  {
    forall b :: b in active ==> !active[b].changed
  }

  /** Stream `i` may have got blocks appended; nothing else about the streams changed. */
  ghost predicate Appended(before: seq<Rec>, after: seq<Rec>, i: nat)
  {
    && i < |before| && |after| == |before|
    && after == before[i := before[i].(blocks := after[i].blocks)]
    && before[i].blocks <= after[i].blocks
  }

  lemma AppendedAndSized(a: seq<Rec>, m: Meta, i: nat, n: nat)
    requires Appended(a, m.recs, i)
    ensures Touched(a, WithSize(m, i, n).recs, i)
  {
  }

  /** Only stream `i` changed: it kept its id, and blocks may have been appended to it. */
  ghost predicate Touched(before: seq<Rec>, after: seq<Rec>, i: nat)
  {
    && i < |before| && |after| == |before|
    && after == before[i := after[i]]
    && after[i].id == before[i].id && before[i].blocks <= after[i].blocks
  }

  /** An empty byte array was put in at `place`. */
  ghost predicate AddedEmpty(before: seq<seq<byte>>, after: seq<seq<byte>>, place: Option<nat>)
  {
    place.Some? && place.value <= |before| && after == before[..place.value] + [[]] + before[place.value..]
  }

  /** Resizing under a handle: it holds what it should exactly when its block in memory was kept. */
  lemma SizeDone(m: Meta, i: nat, n: nat, block: nat, active: map<nat, Block>, cur: Option<nat>)
    requires Sound(m, block) && i < |m.recs| && Holds(active, m.recs[i].blocks, cur)
    requires forall b :: b in active ==> b < m.blocks && b !in m.free
    ensures Holds(active, Resize(m, i, n, block).recs[i].blocks, cur)
       <==> KeepsBlock(m.recs[i], n, block, cur)
    ensures (forall b :: b in active && b in m.recs[i].blocks ==> b in Resize(m, i, n, block).recs[i].blocks)
       <==> KeepsBlock(m.recs[i], n, block, cur)
  {
    assert block > 0;
    hide Sound, Resize;
    if cur.Some? {
      ResizeKeepsIndex(m, i, n, block, cur.value);
    }
    forall b | b in active && b in Resize(m, i, n, block).recs[i].blocks
      ensures b in m.recs[i].blocks
    {
      ResizeNew(m, i, n, block, b);
    }
  }

  lemma ResizeSame(m: Meta, i: nat, n: nat, block: nat)
    requires i < |m.recs| && block > 0 && n == m.recs[i].size
    ensures Resize(m, i, n, block) == m
  {
  }

  lemma FirstBytes(recs: seq<Rec>, cells: seq<seq<byte>>, block: nat)
    requires block > 0 && recs != []
    ensures Contents(recs, cells, block)[0] == Flat(recs[0], cells, block)
  {
  }

  lemma SameIds(recs: seq<Rec>, recs': seq<Rec>, i: nat, id: int)
    requires i < |recs| && |recs'| == |recs| && recs' == recs[i := recs'[i]] && recs'[i].id == recs[i].id
    ensures Fresh(recs', id) <==> Fresh(recs, id)
    ensures Increasing(recs) ==> Increasing(recs')
  {
    assert forall j :: 0 <= j < |recs| ==> recs'[j].id == recs[j].id;
  }

  /** What a write may change, at one moment. */
  datatype Snapshot = Snapshot(meta: Meta, bytes: seq<seq<byte>>, active: map<nat, Block>, changed: bool)

  /** A change to the arrangement marks the header as changed. */
  ghost predicate Noted(a: Snapshot, b: Snapshot)
  {
    (a.changed ==> b.changed) && (b.meta != a.meta ==> b.changed)
  }

  /** Between `a` and `b` the chunk `d` was written to stream `i` at `pos`, through block `x`. */
  ghost predicate ChunkWritten(a: Snapshot, b: Snapshot, i: nat, pos: nat, d: seq<byte>, x: nat)
  {
    && Wrote(a.bytes, b.bytes, i, pos, d) && Drift(b.meta) == Drift(a.meta)
    && Touched(a.meta.recs, b.meta.recs, i)
    && Holds(b.active, b.meta.recs[i].blocks, Some(x))
    && SameOutside(a.active, b.active, b.meta.recs[i].blocks)
    && (pos + |d| <= a.meta.recs[i].size ==> b.meta == a.meta && b.changed == a.changed) && Noted(a, b)
  }

  // ---- Facts the write path uses ----

  lemma NextIsIdle(m: Meta, block: nat, active: map<nat, Block>)
    requires Sound(m, block)
    requires forall b :: b in active ==> b < m.blocks && b !in m.free
    ensures NextBlock(m) !in active && NextBlock(m) < Take(m).blocks
    ensures forall b :: b in Take(m).free ==> b in m.free
  {
    PartitionMeaning(m.blocks, m.free, m.recs);
  }

  lemma GrownNothing(m: Meta, i: nat, pos: nat, n: nat)
    requires i < |m.recs| && pos < m.recs[i].size
    ensures WithSize(m, i, GrownSize(m.recs[i].size, pos, n)) == m
  {
  }

  lemma AppendedNothing(recs: seq<Rec>, i: nat)
    requires i < |recs|
    ensures Appended(recs, recs, i)
  {
  }

  lemma AppendedOne(m: Meta, i: nat, active: map<nat, Block>, cur: Option<nat>)
    requires i < |m.recs| && Holds(active, m.recs[i].blocks, cur) && NextBlock(m) !in active
    ensures Appended(m.recs, TakeFor(m, i).recs, i)
    ensures Holds(active, TakeFor(m, i).recs[i].blocks, cur)
  {
  }

  lemma TouchedNothing(recs: seq<Rec>, i: nat)
    requires i < |recs|
    ensures Touched(recs, recs, i)
  {
  }

  lemma TouchedByTake(recs: seq<Rec>, m: Meta, i: nat)
    requires Touched(recs, m.recs, i)
    ensures Touched(recs, TakeFor(m, i).recs, i)
  {
  }

  lemma FirstIsZero(m: Meta, block: nat)
    requires Sound(m, block)
    ensures m.recs != [] && m.recs[0].id == 0 && Increasing(m.recs)
  {
  }

  lemma AllCovers(m: Meta, block: nat)
    requires Sound(m, block)
    ensures forall i :: 0 <= i < |m.recs| ==> Covers(m.recs[i], block)
  {
  }

  lemma SameOutsideNone(active: map<nat, Block>, bs: seq<nat>)
    ensures SameOutside(active, active, bs)
  {
  }

  /** Overwriting right behind a known prefix extends it. */
  lemma FieldPut(a: seq<seq<byte>>, b: seq<seq<byte>>, d: seq<byte>, out: seq<byte>)
    requires Wrote(a, b, 0, |out|, d) && out <= a[0]
    ensures |b| == |a| && out + d <= b[0] && b == a[0 := b[0]]
  {
    assert a[0][..|out|] == out;
  }

  lemma OutsideKeys(a: map<nat, Block>, b: map<nat, Block>, bs: seq<nat>)
    requires SameOutside(a, b, bs)
    ensures forall x :: x !in bs ==> (x in b <==> x in a)
  {
  }

  lemma TouchedBySize(recs: seq<Rec>, m: Meta, i: nat, n: nat)
    requires Touched(recs, m.recs, i)
    ensures Touched(recs, WithSize(m, i, n).recs, i)
  {
  }

  lemma AppendedParts(a: seq<Rec>, b: seq<Rec>, i: nat)
    requires Appended(a, b, i)
    ensures i < |a| && |b| == |a| && b[i].size == a[i].size
  {
  }

  lemma HeldIsActive(active: map<nat, Block>, bs: seq<nat>, b: nat)
    requires Holds(active, bs, Some(b))
    ensures b in active && b in bs
  {
  }

  /** Loading and releasing blocks a stream owns brings no free block into memory. */
  lemma StaysIdle(m: Meta, block: nat, i: nat, active: map<nat, Block>, active': map<nat, Block>)
    requires Sound(m, block) && i < |m.recs| && SameOutside(active, active', m.recs[i].blocks)
    requires forall b :: b in active ==> b !in m.free
    ensures forall b :: b in active' ==> b !in m.free
  {
    PartitionMeaning(m.blocks, m.free, m.recs);
  }

  /** Opening the block and putting the chunk into it is writing the chunk. */
  lemma ChunkComposed(a: Snapshot, b: Snapshot, c: Snapshot, i: nat, pos: nat, d: seq<byte>, x: nat)
    requires Appended(a.meta.recs, b.meta.recs, i) && b.bytes == a.bytes && Drift(b.meta) == Drift(a.meta)
    requires Holds(b.active, b.meta.recs[i].blocks, Some(x))
    requires SameOutside(a.active, b.active, b.meta.recs[i].blocks)
    requires pos < a.meta.recs[i].size ==> b.meta == a.meta && b.changed == a.changed && c.changed == b.changed
    requires c.meta == WithSize(b.meta, i, GrownSize(b.meta.recs[i].size, pos, |d|)) && Drift(c.meta) == Drift(b.meta)
    requires Wrote(b.bytes, c.bytes, i, pos, d) && d != []
    requires c.active.Keys == b.active.Keys && SameOutside(b.active, c.active, [x])
    requires Noted(a, b) && Noted(b, c)
    ensures ChunkWritten(a, c, i, pos, d, x)
  {
    hide Wrote, Drift;
    AppendedAndSized(a.meta.recs, b.meta, i, GrownSize(b.meta.recs[i].size, pos, |d|));
    StillHolds(a.active, b.active, c.active, b.meta.recs[i].blocks, x);
    if pos + |d| <= a.meta.recs[i].size {
      assert c.meta.recs == b.meta.recs;
    }
  }

  /** How the header is read while loading: through the loaded header record or its stand-in, the block
      in memory, and the position. */
  datatype Reader = Reader(switched: bool, cur: Option<nat>, pos: nat)

  class Myriad {
    const store: Store
    var blockSize: nat
    var blocks: nat
    var used: int
    var free: seq<nat>
    var streams: seq<Rec>
    /** Blocks held in memory, by index. A handle refers to its block by this index. */
    var active: map<nat, Block>
    var headerChanged: bool

    /** An instance over `store` before it is loaded or formatted. */
    constructor (store: Store)
      ensures this.store == store && streams == [] && free == [] && active == map[]
      ensures blockSize == 0 && blocks == 0 && used == 0 && !headerChanged
    {
      this.store := store;
      blockSize, blocks, used, free, streams, active, headerChanged := 0, 0, 0, [], [], map[], false;
    }

    /** The arrangement of blocks and streams, as a value. */
    ghost function Meta(): Meta
      reads this
    {
      MyriadMeta.Meta(blocks, free, used, streams)
    }

    /** The cache and the store agree on what every block holds. */
    ghost predicate CacheOk()
      reads this, store
      ensures CacheOk() ==> blockSize > 0
    {
      Coherent(store.data, blockSize, blocks, active)
    }

    /** What every block currently holds. */
    ghost function Cells(): seq<seq<byte>>
      reads this, store
    {
      View(store.data, blockSize, blocks, active)
    }

    /** No free block is held in memory, so no later write-back can hit one. */
    ghost predicate FreeIsIdle()
      reads this
    {
      forall b :: b in active ==> b !in free
    }

    ghost predicate Valid()
      reads this, store
      ensures Valid() ==> CacheOk() && blockSize >= 5 && streams != []
    {
      CacheOk() && FreeIsIdle() && Sound(Meta(), blockSize)
    }

    lemma ActiveInUse()
      requires Valid()
      ensures forall b :: b in active ==> b < blocks && b !in free
    {
    }

    /** The flat byte arrays all the streams stand for, in order. */
    ghost function Bytes(): (cs: seq<seq<byte>>)
      requires blockSize > 0
      reads this, store
      ensures |cs| == |streams|
    {
      Contents(streams, Cells(), blockSize)
    }

    ghost function Here(): Snapshot
      requires blockSize > 0
      reads this, store
    {
      Snapshot(Meta(), Bytes(), active, headerChanged)
    }

    // ---- The block cache ----

    method GetBlock(b: nat)
      requires CacheOk() && b < blocks && b !in active
      modifies `active, store`pos
      ensures active == old(active)[b := Block(StoreBlock(store.data, blockSize, b), false)]
      ensures CacheOk() && Cells() == old(Cells())
    {
      StoreBlockInside(store.data, blockSize, blocks, b);
      store.SetPos(Span(b, blockSize));
      var data := store.Read(blockSize);
      active := active[b := Block(data, false)];
    }

    method SyncBlock(b: nat)
      requires CacheOk() && b in active
      modifies `active, store
      ensures |store.data| == |old(store.data)|
      ensures !old(active)[b].changed ==> store.data == old(store.data)
      ensures active == old(active)[b := Block(old(active)[b].data, false)]
      ensures CacheOk() && Cells() == old(Cells())
    {
      if active[b].changed {
        ghost var before := store.data;
        WriteRewrites(before, blockSize, blocks, b, active[b].data);
        store.SetPos(Span(b, blockSize));
        store.Write(active[b].data);
        WriteBackView(before, store.data, blockSize, blocks, active, b);
        active := active[b := active[b].(changed := false)];
      }
    }

    method ReleaseBlock(b: nat)
      requires CacheOk() && b in active
      modifies `active, store
      ensures |store.data| == |old(store.data)|
      ensures Clean(old(active)) ==> Clean(active) && store.data == old(store.data)
      ensures active == old(active) - {b}
      ensures CacheOk() && Cells() == old(Cells())
    {
      SyncBlock(b);
      DropView(store.data, blockSize, blocks, active, b);
      active := active - {b};
    }

    /** Have block `b` in memory in place of `cur`. */
    method SwitchBlock(bs: seq<nat>, cur: Option<nat>, b: nat)
      requires CacheOk() && Holds(active, bs, cur) && b in bs && b < blocks
      modifies `active, store
      ensures CacheOk() && Cells() == old(Cells())
      ensures Clean(old(active)) ==> Clean(active) && store.data == old(store.data)
      ensures Holds(active, bs, Some(b)) && SameOutside(old(active), active, bs)
    {
      if cur != Some(b) {
        if cur.Some? {
          ReleaseBlock(cur.value);
        }
        GetBlock(b);
      }
    }

    /** Copy `d` into block `b`, which is in memory, from offset `off` on. */
    method CopyIn(b: nat, off: nat, d: seq<byte>)
      requires CacheOk() && b in active && off + |d| <= blockSize
      modifies `active
      ensures b < |old(Cells())| && off + |d| <= |old(Cells())[b]|
      ensures CacheOk() && Cells() == Poke(old(Cells()), b, off, d)
      ensures active.Keys == old(active).Keys && SameOutside(old(active), active, [b])
      ensures active[b].changed && active[b].data[off..off + |d|] == d
    {
      var data := active[b].data;
      active := active[b := Block(data[..off] + d + data[off + |d|..], true)];
    }

    // ---- Allocation ----

    method FindEmptyBlock() returns (b: nat)
      requires CacheOk()
      modifies `free, `blocks, `headerChanged, store
      ensures headerChanged
      ensures b == NextBlock(old(Meta())) && Meta() == Take(old(Meta()))
      // The block that is free for longest, or a new one behind all others.
      ensures old(free) != [] ==> b == old(free)[0] && free == old(free)[1..] && blocks == old(blocks)
      ensures old(free) == [] ==> b == old(blocks) && free == [] && blocks == old(blocks) + 1
      ensures CacheOk() && old(Cells()) <= Cells()
    {
      headerChanged := true;
      if free == [] {
        ghost var before := store.data;
        store.SetSize(Span(blocks + 1, blockSize));
        forall c: nat | c < blocks
          ensures StoreBlock(store.data, blockSize, c) == StoreBlock(before, blockSize, c)
        {
          assert store.data[..Span(blocks, blockSize)] == before[..Span(blocks, blockSize)];
          StoreGrow(before, store.data, blockSize, blocks, c);
        }
        b := blocks;
        blocks := blocks + 1;
      } else {
        b := free[0];
        free := free[1..];
      }
    }

    /** Take a block and append it to the `i`-th stream. */
    method StreamAddBlock(i: nat) returns (b: nat)
      requires CacheOk() && i < |streams|
      modifies `free, `blocks, `used, `headerChanged, `streams, store
      ensures headerChanged
      ensures b == NextBlock(old(Meta())) && Meta() == TakeFor(old(Meta()), i)
      ensures CacheOk() && old(Cells()) <= Cells()
    {
      b := FindEmptyBlock();
      streams := streams[i := streams[i].(blocks := streams[i].blocks + [b])];
      used := used + 1;
    }

    // ---- Resizing ----

    /** Give back the blocks that lie wholly past byte `n`. */
    method ShrinkBlocks(i: nat, n: nat)
      requires i < |streams| && blockSize > 0
      modifies `free, `used, `streams
      ensures Meta() == ShrinkTo(old(Meta()), i, n, blockSize)
    {
      var newSize := Span(|streams[i].blocks|, blockSize);
      while newSize - blockSize > n
        invariant i < |streams| && newSize == Span(|streams[i].blocks|, blockSize)
        invariant ShrinkTo(Meta(), i, n, blockSize) == ShrinkTo(old(Meta()), i, n, blockSize)
        decreases newSize
      {
        var owned := streams[i].blocks;
        used := used - 1;
        free := free + [owned[|owned| - 1]];
        streams := streams[i := streams[i].(blocks := owned[..|owned| - 1])];
        newSize := newSize - blockSize;
      }
    }

    /** Take blocks until `n` bytes are covered. */
    method GrowBlocks(i: nat, n: nat)
      requires CacheOk() && i < |streams|
      modifies `free, `blocks, `used, `headerChanged, `streams, store
      ensures Meta() == GrowTo(old(Meta()), i, n, blockSize)
      ensures CacheOk() && old(Cells()) <= Cells()
    {
      var newSize := Span(|streams[i].blocks|, blockSize);
      while newSize < n
        invariant i < |streams| && newSize == Span(|streams[i].blocks|, blockSize)
        invariant GrowTo(Meta(), i, n, blockSize) == GrowTo(old(Meta()), i, n, blockSize)
        invariant CacheOk() && old(Cells()) <= Cells()
      {
        var _ := StreamAddBlock(i);
        newSize := newSize + blockSize;
      }
    }

    method SetStreamSize(i: nat, n: nat)
      requires Valid() && i < |streams|
      modifies `free, `blocks, `used, `headerChanged, `streams, store
      ensures Meta() == Resize(old(Meta()), i, n, blockSize)
      ensures CacheOk() && Sound(Meta(), blockSize) && Drift(Meta()) == old(Drift(Meta()))
      ensures Resized(old(Bytes()), Bytes(), i, n)
      // Blocks are given back behind the free ones, the last one first.
      ensures n <= old(streams)[i].size ==>
                && |streams[i].blocks| <= |old(streams)[i].blocks|
                && free == old(free) + Backward(old(streams)[i].blocks[|streams[i].blocks|..])
      // A freed block may still be in memory: exactly then a later write-back would hit it.
      ensures FreeIsIdle() <==> forall b :: b in active && b in old(streams)[i].blocks ==> b in streams[i].blocks
      ensures headerChanged == (old(headerChanged) || n != old(streams)[i].size)
    {
      ghost var m, cells := Meta(), Cells();
      if streams[i].size > n {
        ShrinkBlocks(i, n);
        streams := streams[i := streams[i].(size := n)];
        headerChanged := true;
      } else if streams[i].size < n {
        GrowBlocks(i, n);
        streams := streams[i := streams[i].(size := n)];
        headerChanged := true;
      }
      assert Meta() == Resize(m, i, n, blockSize);
      ghost var idle := active.Keys;
      assert forall b :: b in idle ==> b !in m.free;
      FreedComeLast(m, i, n, blockSize);
      hide Resize, Sound, View, Coherent, Contents, Resized, Drift;
      ResizeSound(m, i, n, blockSize);
      ResizeContents(m, i, n, cells, Cells(), blockSize);
      ResizeIdle(m, i, n, blockSize, idle);
    }

    // ---- Streams ----

    /** The place of the stream with this id. */
    method FindStream(id: int) returns (r: Result<nat, MyriadError>)
      ensures r.Ok? ==> r.value < |streams| && streams[r.value].id == id
      ensures r.Err? <==> Fresh(streams, id)
      ensures r.Err? ==> r.error == NoSuchStream
    {
      for i := 0 to |streams|
        invariant forall j :: 0 <= j < i ==> streams[j].id != id
      {
        if streams[i].id == id {
          return Ok(i);
        }
      }
      return Err(NoSuchStream);
    }

    /** Take `k` blocks for the `i`-th stream. */
    method Preallocate(i: nat, k: int)
      requires CacheOk() && i < |streams|
      modifies `free, `blocks, `used, `headerChanged, `streams, store
      ensures Meta() == TakeMany(old(Meta()), i, Count(k))
      ensures CacheOk() && old(Cells()) <= Cells()
    {
      var j := 0;
      while j < k
        invariant i < |streams| && 0 <= j <= Count(k)
        invariant TakeMany(Meta(), i, Count(k) - j) == TakeMany(old(Meta()), i, Count(k))
        invariant CacheOk() && old(Cells()) <= Cells()
      {
        var _ := StreamAddBlock(i);
        j := j + 1;
      }
    }

    /** Put a new empty stream before position `i`. */
    method InsertStream(i: nat, id: int, preallocate: int)
      requires CacheOk() && i <= |streams|
      modifies `free, `blocks, `used, `headerChanged, `streams, store
      ensures Meta() == Create(old(Meta()), i, id, Count(preallocate)) && headerChanged
      ensures CacheOk() && old(Cells()) <= Cells()
    {
      streams := streams[..i] + [Rec(id, 0, [])] + streams[i..];
      Preallocate(i, preallocate);
      headerChanged := true;
    }

    method CreateStream(preallocate: int) returns (id: int)
      requires Valid()
      modifies `free, `blocks, `used, `headerChanged, `streams, store
      ensures id > 0 && Fresh(old(streams), id) && id == old(streams)[|old(streams)| - 1].id + 1
      ensures Meta() == Create(old(Meta()), |old(streams)|, id, Count(preallocate))
      ensures Valid() && headerChanged && Drift(Meta()) == old(Drift(Meta()))
      ensures Bytes() == old(Bytes()) + [[]]
      ensures old(HeaderKept()) ==> HeaderKept()
    {
      ghost var m, cells, cs := Meta(), Cells(), Bytes();
      id := streams[|streams| - 1].id + 1;
      LastIsLargest(streams);
      assert cs[..|cs|] + [[]] + cs[|cs|..] == cs + [[]];
      hide Sound, Create, Drift, Contents, View, Coherent, HeaderGood;
      ghost var before := Here();
      InsertStream(|streams|, id, preallocate);
      CreateDone(m, |m.recs|, id, Count(preallocate), cells);
      CreateKeepsFirst(m, |m.recs|, id, Count(preallocate));
      if old(HeaderKept()) {
        StillKept(before);
      }
    }

    /** A created stream is empty, the others are as they were, and the state stays valid. */
    lemma CreateDone(m: Meta, i: nat, id: int, k: nat, cells: seq<seq<byte>>)
      requires Sound(m, blockSize) && 0 < i <= |m.recs| && m.recs[i - 1].id < id
      requires i < |m.recs| ==> id < m.recs[i].id
      requires Meta() == Create(m, i, id, k)
      requires |cells| == m.blocks && cells <= Cells() && CacheOk()
      requires forall b :: b in active ==> b !in m.free
      ensures Valid() && Drift(Meta()) == Drift(m)
      ensures Bytes() == Contents(m.recs, cells, blockSize)[..i] + [[]] + Contents(m.recs, cells, blockSize)[i..]
    {
      hide Sound, Create, Drift, Contents, View, Coherent;
      CreateSound(m, i, id, k, blockSize);
      CreateContents(m, i, id, k, cells, Cells(), blockSize);
    }

    method CreateStreamWithId(id: int, preallocate: int)
      requires Valid()
      modifies `free, `blocks, `used, `headerChanged, `streams, store
      ensures Meta() == CreateWithId(old(Meta()), id, Count(preallocate)) && CacheOk() && headerChanged
      // The arrangement stays sound for a fresh positive id, and for the last id when nothing is preallocated.
      ensures Sound(Meta(), blockSize) <==>
              (id > 0 && Fresh(old(streams), id)) ||
              (id == old(streams)[|old(streams)| - 1].id && preallocate <= 0)
      ensures id > 0 && Fresh(old(streams), id) ==>
              && Valid() && Drift(Meta()) == old(Drift(Meta()))
              && AddedEmpty(old(Bytes()), Bytes(), Place(old(streams), id))
              && (old(HeaderKept()) ==> HeaderKept())
    {
      ghost var m, cells := Meta(), Cells();
      assert streams != [];
      ghost var before := Here();
      PlaceStream(id, preallocate);
      CreateWithIdDone(m, id, Count(preallocate), cells);
      if id > 0 && Fresh(m.recs, id) && old(HeaderKept()) {
        PlaceOfFresh(m.recs, id);
        CreateKeepsFirst(m, Place(m.recs, id).value, id, Count(preallocate));
        StillKept(before);
      }
    }

    /** Put a new stream where its id says. */
    method PlaceStream(id: int, preallocate: int)
      requires CacheOk() && streams != []
      modifies `free, `blocks, `used, `headerChanged, `streams, store
      ensures Meta() == CreateWithId(old(Meta()), id, Count(preallocate)) && headerChanged
      ensures CacheOk() && old(Cells()) <= Cells()
    {
      var place := FindPlace(id);
      match place
      case Some(i) =>
        InsertStream(i, id, preallocate);
      case None =>
        LoseBlocks(preallocate);
        headerChanged := true;
    }

    lemma CreateWithIdDone(m: Meta, id: int, k: nat, cells: seq<seq<byte>>)
      requires Sound(m, blockSize) && Meta() == CreateWithId(m, id, k)
      requires |cells| == m.blocks && cells <= Cells() && CacheOk()
      requires forall b :: b in active ==> b !in m.free
      ensures Sound(Meta(), blockSize)
         <==> (id > 0 && Fresh(m.recs, id)) || (id == m.recs[|m.recs| - 1].id && k == 0)
      ensures id > 0 && Fresh(m.recs, id) ==>
              && Valid() && Drift(Meta()) == Drift(m)
              && AddedEmpty(Contents(m.recs, cells, blockSize), Bytes(), Place(m.recs, id))
    {
      CreateWithIdSound(m, id, k, blockSize);
      if id > 0 && Fresh(m.recs, id) {
        PlaceOfFresh(m.recs, id);
        hide Sound, Create, Drift, Contents, View, Coherent, Fresh, Place;
        CreateDone(m, Place(m.recs, id).value, id, k, cells);
      }
    }

    /** Where in the list a new stream with this id goes. */
    method FindPlace(id: int) returns (p: Option<nat>)
      requires streams != []
      ensures p == Place(streams, id)
    {
      if streams[|streams| - 1].id < id {
        return Some(|streams|);
      }
      for i := 0 to |streams|
        invariant FirstAbove(streams, id, i) == FirstAbove(streams, id, 0)
      {
        if streams[i].id > id {
          return Some(i);
        }
      }
      return None;
    }

    /** Take `k` blocks for a stream that was put in no list. */
    method LoseBlocks(k: int)
      requires CacheOk()
      modifies `free, `blocks, `used, `headerChanged, store
      ensures Meta() == Lose(old(Meta()), Count(k)) && CacheOk() && old(Cells()) <= Cells()
    {
      hide Coherent, View;
      var j := 0;
      while j < k
        invariant 0 <= j <= Count(k)
        invariant Lose(Meta(), Count(k) - j) == Lose(old(Meta()), Count(k))
        invariant CacheOk() && old(Cells()) <= Cells()
      {
        var _ := FindEmptyBlock();
        used := used + 1;
        j := j + 1;
      }
    }

    method DeleteStream(id: int) returns (r: Outcome<MyriadError>)
      requires Valid()
      modifies `free, `used, `headerChanged, `streams
      ensures id < 0 ==> r == Fail(InvalidStreamId)
      ensures id == 0 ==> r == Fail(ProtectedStream)
      ensures id > 0 ==> r == Pass
      ensures CacheOk() && Sound(Meta(), blockSize) && Drift(Meta()) == old(Drift(Meta()))
      ensures id <= 0 || Fresh(old(streams), id) ==> Meta() == old(Meta()) && headerChanged == old(headerChanged)
      ensures id > 0 && !Fresh(old(streams), id) ==>
              exists i :: 0 <= i < |old(streams)| && old(streams)[i].id == id
                       && Deleted(old(Meta()), old(Bytes()), i)
      ensures old(free) <= free
      ensures old(HeaderKept()) ==> HeaderKept()
    {
      if id < 0 {
        return Fail(InvalidStreamId);
      }
      if id == 0 {
        return Fail(ProtectedStream);
      }
      r := Pass;
      var found := FindStream(id);
      if found.Ok? {
        var i := found.value;
        ghost var m, before := Meta(), Here();
        var owned := streams[i].blocks;
        for j := 0 to |owned|
          invariant free == m.free + owned[..j] && used == m.used - j && streams == m.recs
        {
          free := free + [owned[j]];
          used := used - 1;
        }
        assert owned[..|owned|] == owned;
        streams := streams[..i] + streams[i + 1..];
        headerChanged := true;
        DeleteSound(m, i, blockSize);
        DeleteContents(m, i, Cells(), blockSize);
        assert Deleted(m, old(Bytes()), i);
        if old(HeaderKept()) {
          StillKept(before);
        }
      }
    }

    /** Stream `i` of the arrangement `m` is gone, with all its blocks free; the other streams keep
        their bytes, and no block in memory became free exactly when none of its blocks was. */
    ghost predicate Deleted(m: Meta, before: seq<seq<byte>>, i: nat)
      requires i < |m.recs| == |before| && blockSize > 0
      reads this, store
    {
      && Meta() == Delete(m, i)
      && Bytes() == before[..i] + before[i + 1..]
      && (FreeIsIdle() <==> forall b :: b in active ==> b !in m.recs[i].blocks)
    }

    // ---- Reading and writing ----

    /** Copy up to `left` bytes out of the block at position `p`. */
    method ReadChunk(bs: seq<nat>, cur: Option<nat>, p: nat, left: nat) returns (cur': Option<nat>, buf: seq<byte>)
      requires CacheOk() && Holds(active, bs, cur) && InRange(bs, blocks)
      requires BlockOf(p, blockSize) < |bs| && left > 0
      modifies `active, store
      ensures CacheOk() && Cells() == old(Cells())
      ensures Clean(old(active)) ==> Clean(active) && store.data == old(store.data)
      ensures Holds(active, bs, cur') && SameOutside(old(active), active, bs)
      ensures 0 < |buf| <= left && p + |buf| <= Span(|bs|, blockSize)
      ensures buf == BytesAt(bs, Cells(), blockSize, p, |buf|)
    {
      hide BytesAt, SameOutside, Clean, Span;
      var b, off := bs[BlockOf(p, blockSize)], Offset(p, blockSize);
      var amount := Min(blockSize - off, left);
      SwitchBlock(bs, cur, b);
      cur' := Some(b);
      buf := active[b].data[off..off + amount];
      CoherentUniform(store.data, blockSize, blocks, active);
      ChunkAt(bs, Cells(), blockSize, p, amount);
      ChunkInside(p, amount, |bs|, blockSize);
    }

    /** Read `total` bytes from `pos` on, block by block, stopping early where the record lists no block. */
    method ReadBlocks(bs: seq<nat>, cur: Option<nat>, pos: nat, total: nat)
      returns (cur': Option<nat>, buf: seq<byte>)
      requires CacheOk() && Holds(active, bs, cur) && InRange(bs, blocks)
      modifies `active, store
      ensures CacheOk() && Cells() == old(Cells())
      ensures Clean(old(active)) ==> Clean(active) && store.data == old(store.data)
      ensures Holds(active, bs, cur') && SameOutside(old(active), active, bs)
      ensures |buf| <= total && buf == BytesAt(bs, Cells(), blockSize, pos, |buf|)
      ensures |buf| > 0 ==> pos + |buf| <= Span(|bs|, blockSize)
      ensures |buf| < total ==> BlockOf(pos + |buf|, blockSize) >= |bs|
    {
      assert blockSize > 0 && SameOutside(active, active, bs);
      hide BytesAt, Coherent, View, SameOutside, Holds, InRange, Span, BlockOf, Offset, Clean;
      cur' := cur;
      buf := [];
      ghost var cells := Cells();
      while |buf| < total && BlockOf(pos + |buf|, blockSize) < |bs|
        invariant |buf| <= total && buf == BytesAt(bs, cells, blockSize, pos, |buf|)
        invariant |buf| > 0 ==> pos + |buf| <= Span(|bs|, blockSize)
        invariant CacheOk() && Cells() == cells
        invariant Holds(active, bs, cur') && SameOutside(old(active), active, bs)
        invariant Clean(old(active)) ==> Clean(active) && store.data == old(store.data)
        decreases total - |buf|
      {
        ghost var before := active;
        var chunk;
        cur', chunk := ReadChunk(bs, cur', pos + |buf|, total - |buf|);
        BytesAppend(bs, cells, blockSize, pos, |buf|, |chunk|);
        SameOutsideAgain(old(active), before, active, bs);
        buf := buf + chunk;
      }
    }

    /** Read up to `n` bytes of `r` from `pos` on. Fails when a byte lies in a block the record does not list. */
    method ReadRec(r: Rec, cur: Option<nat>, pos: nat, n: nat)
      returns (cur': Option<nat>, data: Result<seq<byte>, MyriadError>)
      requires CacheOk() && Holds(active, r.blocks, cur) && InRange(r.blocks, blocks)
      modifies `active, store
      ensures CacheOk() && Cells() == old(Cells())
      ensures Clean(old(active)) ==> Clean(active) && store.data == old(store.data)
      ensures Holds(active, r.blocks, cur') && SameOutside(old(active), active, r.blocks)
      ensures data.Ok? <==>
              (Available(r.size, pos, n) == 0 || pos + Available(r.size, pos, n) <= Span(|r.blocks|, blockSize))
      ensures data.Ok? ==> data.value == BytesAt(r.blocks, Cells(), blockSize, pos, Available(r.size, pos, n))
      ensures data.Err? ==> data.error == IndexOutOfRange
    {
      var total, buf := Available(r.size, pos, n), [];
      cur', buf := ReadBlocks(r.blocks, cur, pos, total);
      BlockIndex(pos + |buf|, |r.blocks|, blockSize);
      data := if |buf| < total then Err(IndexOutOfRange) else Ok(buf);
    }

    /** Take a block for the `i`-th stream; no stream's bytes change. */
    method AddBlock(i: nat) returns (b: nat)
      requires Valid() && i < |streams|
      modifies `free, `blocks, `used, `headerChanged, `streams, store
      ensures Valid() && Bytes() == old(Bytes()) && Drift(Meta()) == old(Drift(Meta()))
      ensures old(Cells()) <= Cells() && headerChanged
      ensures b == NextBlock(old(Meta())) && Meta() == TakeFor(old(Meta()), i)
      ensures b !in active && b < blocks
    {
      hide Sound, Drift, Contents, View, Take, NextBlock;
      ghost var m, cells := Meta(), Cells();
      NextIsIdle(m, blockSize, active);
      b := StreamAddBlock(i);
      TakeForSound(m, i, blockSize);
      TakeForExtends(m, i);
      ExtendContents(m, TakeFor(m, i), i, cells, Cells(), blockSize);
    }

    /** Copy a chunk into the block in memory that it belongs to, and grow the stream when it is at or
        past the end. */
    method PutChunk(i: nat, b: nat, pos: nat, d: seq<byte>)
      requires Valid() && i < |streams|
      requires Placed(streams[i], pos, b, blocks, blockSize) && b in active
      requires Offset(pos, blockSize) + |d| <= blockSize
      requires pos < streams[i].size ==> pos + |d| <= streams[i].size
      modifies `active, `streams, `headerChanged
      ensures Valid() && Wrote(old(Bytes()), Bytes(), i, pos, d) && Drift(Meta()) == old(Drift(Meta()))
      ensures Meta() == WithSize(old(Meta()), i, GrownSize(old(streams)[i].size, pos, |d|))
      ensures active.Keys == old(active).Keys && SameOutside(old(active), active, [b])
      ensures pos < old(streams)[i].size ==> headerChanged == old(headerChanged)
      ensures Noted(old(Here()), Here())
    {
      hide Sound, Drift, Contents, View, Wrote, Placed, WithSize, GrownSize;
      ghost var m, cells := Meta(), Cells();
      CoherentUniform(store.data, blockSize, blocks, active);
      ChunkDone(m, i, b, pos, d, cells, blockSize);
      if pos < streams[i].size {
        GrownNothing(m, i, pos, |d|);
      }
      CopyIn(b, Offset(pos, blockSize), d);
      GrowSize(i, pos, |d|);
    }

    /** Account for `n` bytes written at `pos`. */
    method GrowSize(i: nat, pos: nat, n: nat)
      requires i < |streams|
      modifies `streams, `headerChanged
      ensures Meta() == WithSize(old(Meta()), i, GrownSize(old(streams)[i].size, pos, n))
      ensures headerChanged == (old(headerChanged) || pos >= old(streams)[i].size)
    {
      if pos >= streams[i].size {
        streams := streams[i := streams[i].(size := streams[i].size + n)];
        headerChanged := true;
      }
    }

    /** The block for a chunk at `pos`, taking a new one for the stream when it has none there. */
    method BlockFor(i: nat, cur: Option<nat>, pos: nat) returns (b: nat)
      requires Valid() && i < |streams| && Holds(active, streams[i].blocks, cur)
      modifies `free, `blocks, `used, `headerChanged, `streams, store
      ensures Valid() && Bytes() == old(Bytes()) && Drift(Meta()) == old(Drift(Meta()))
      ensures Appended(old(streams), streams, i) && Holds(active, streams[i].blocks, cur)
      ensures BlockOf(pos, blockSize) < |old(streams)[i].blocks| ==>
                Meta() == old(Meta()) && headerChanged == old(headerChanged)
      ensures Placed(streams[i], pos, b, blocks, blockSize)
      ensures Noted(old(Here()), Here())
    {
      hide Sound, Drift, Contents, View, Appended, Placed, Take, NextBlock, Holds;
      ghost var m := Meta();
      if BlockOf(pos, blockSize) < |streams[i].blocks| {
        OldBlockPlaced(m, i, pos, blockSize);
        AppendedNothing(streams, i);
        b := streams[i].blocks[BlockOf(pos, blockSize)];
      } else {
        NewBlockPlaced(m, i, pos, blockSize);
        b := AddBlock(i);
        AppendedOne(m, i, active, cur);
      }
    }

    /** Have the block for a chunk at `pos` in memory. */
    method OpenBlock(i: nat, cur: Option<nat>, pos: nat) returns (b: nat)
      requires Valid() && i < |streams| && Holds(active, streams[i].blocks, cur)
      modifies `free, `blocks, `used, `headerChanged, `streams, `active, store
      ensures Valid() && Bytes() == old(Bytes()) && Drift(Meta()) == old(Drift(Meta()))
      ensures Appended(old(streams), streams, i)
      ensures BlockOf(pos, blockSize) < |old(streams)[i].blocks| ==>
                Meta() == old(Meta()) && headerChanged == old(headerChanged)
      ensures Placed(streams[i], pos, b, blocks, blockSize) && b in active
      ensures Noted(old(Here()), Here())
      ensures Holds(active, streams[i].blocks, Some(b)) && SameOutside(old(active), active, streams[i].blocks)
    {
      hide Sound, Drift, Contents, View, Appended, Placed, Holds, SameOutside;
      b := BlockFor(i, cur, pos);
      PlacedParts(streams[i], pos, b, blocks, blockSize);
      ghost var before := active;
      SwitchBlock(streams[i].blocks, cur, b);
      StaysIdle(Meta(), blockSize, i, before, active);
      HeldIsActive(active, streams[i].blocks, b);
    }

    /** Write as much of `buf` at `pos` as fits into one block. */
    method WriteChunk(i: nat, cur: Option<nat>, pos: nat, buf: seq<byte>) returns (b: nat, k: nat)
      requires Valid() && i < |streams| && buf != [] && Holds(active, streams[i].blocks, cur)
      modifies `free, `blocks, `used, `headerChanged, `streams, `active, store
      ensures Valid() && 0 < k <= |buf|
      ensures ChunkWritten(old(Here()), Here(), i, pos, buf[..k], b)
    {
      hide Sound, Drift, Contents, View, Coherent, Wrote, Appended, Touched, Placed, Holds, SameOutside, ChunkWritten;
      ghost var before := Here();
      if pos < streams[i].size {
        InsideBlocks(Meta(), i, pos, blockSize);
      }
      b := OpenBlock(i, cur, pos);
      AppendedParts(before.meta.recs, streams, i);
      ghost var ready := Here();
      var room := blockSize - Offset(pos, blockSize);
      k := if pos < streams[i].size then Min(Min(room, |buf|), streams[i].size - pos) else Min(room, |buf|);
      PutChunk(i, b, pos, buf[..k]);
      ChunkComposed(before, ready, Here(), i, pos, buf[..k], b);
    }

    // ---- The header ----

    /** The size of a header that lists every block. */
    method HeaderTotal() returns (size: nat)
      ensures size == HeaderSize(streams)
    {
      size := 14 + 8 * |streams|;
      OwnedCountNone(streams);
      for i := 0 to |streams|
        invariant size == 14 + 8 * |streams| + 4 * OwnedCount(streams[..i])
      {
        OwnedCountPrefix(streams, i);
        size := size + 4 * |streams[i].blocks|;
      }
      assert streams[..|streams|] == streams;
    }

    /** Take blocks for the header until it can list every block, its own included. */
    method SizeHeader() returns (size: nat)
      requires Valid() && Holds(active, streams[0].blocks, None)
      modifies `free, `blocks, `used, `headerChanged, `streams, store
      ensures Valid() && Bytes() == old(Bytes()) && Drift(Meta()) == old(Drift(Meta()))
      ensures Holds(active, streams[0].blocks, None)
      ensures Touched(old(streams), streams, 0) && streams[0].size == old(streams)[0].size
      ensures size == HeaderSize(streams) && size <= Span(|streams[0].blocks|, blockSize)
      // Just the blocks it needs are taken.
      ensures WithSize(Meta(), 0, size) == Synced(old(Meta()), blockSize)
    {
      hide Sound, Contents, View, Coherent, Touched, Partition, Owned, TakeFor, NextBlock, Holds, Sizing, Synced;
      ghost var begin := Meta();
      size := HeaderTotal();
      SizingBegins(begin, blockSize);
      TouchedNothing(streams, 0);
      var newBlocks := BlkDiv(size, blockSize);
      BlkDivLeast(size, |streams[0].blocks|, blockSize);
      while newBlocks > |streams[0].blocks|
        invariant Valid() && Bytes() == old(Bytes()) && Drift(Meta()) == old(Drift(Meta()))
        invariant Touched(old(streams), streams, 0) && streams[0].size == old(streams)[0].size
        invariant Holds(active, streams[0].blocks, None)
        invariant size == HeaderSize(streams)
        invariant size <= Span(|streams[0].blocks|, blockSize) <==> newBlocks <= |streams[0].blocks|
        invariant Sizing(begin, Meta(), size, blockSize)
        decreases size - Span(|streams[0].blocks|, blockSize)
      {
        ghost var m := Meta();
        var _ := AddBlock(0);
        SizingGoesOn(begin, m, size, blockSize);
        TakeForCounts(m, 0);
        TouchedByTake(old(streams), m, 0);
        AppendedOne(m, 0, active, None);
        size := size + 4;
        newBlocks := BlkDiv(size, blockSize);
        BlkDivLeast(size, |streams[0].blocks|, blockSize);
      }
      SizingEnds(begin, Meta(), size, blockSize);
    }

    /** The header stream holds the header's bytes. */
    ghost predicate HeaderWritten()
      requires blockSize > 0
      reads this, store
    {
      streams != [] && HeaderBytes(blockSize, TrimAll(streams, blockSize)) <= Bytes()[0]
    }

    lemma BytesSize(m: Meta, i: nat)
      requires blockSize > 0 && m == Meta() && i < |streams|
      ensures |Bytes()[i]| == streams[i].size
    {
    }

    /** The header stream is good for loading, or will be once it is written. */
    ghost predicate HeaderKept()
      requires blockSize > 0
      reads this, store
    {
      streams != [] && HeaderGood(blockSize, streams, Bytes()[0], headerChanged)
    }

    /** Changes that are noted and leave the header's blocks and bytes alone keep the header good. */
    lemma StillKept(a: Snapshot)
      requires blockSize > 0 && Noted(a, Here())
      requires a.meta.recs != [] && |a.bytes| == |a.meta.recs|
      requires HeaderGood(blockSize, a.meta.recs, a.bytes[0], a.changed)
      requires streams != [] && streams[0] == a.meta.recs[0] && Bytes()[0] == a.bytes[0]
      ensures HeaderKept()
    {
      hide HeaderGood;
      HeaderStaysGood(blockSize, a.meta.recs, streams, a.bytes[0], a.changed, headerChanged);
    }

    /** While the header is written through `hdr`: nothing but the header's bytes differs from `begin`,
        and `out` is what they start with. */
    ghost predicate Writing(hdr: MyriadStream, begin: Snapshot, out: seq<byte>)
      reads this, store, hdr
      ensures Writing(hdr, begin, out) ==> Valid() && streams == begin.meta.recs
    {
      && hdr.myriad == this && hdr.id == 0 && Valid() && hdr.Attached() && hdr.pos == |out|
      && Meta() == begin.meta && headerChanged == begin.changed
      && |begin.bytes| == |streams| && Bytes() == begin.bytes[0 := Bytes()[0]] && out <= Bytes()[0]
      && SameOutside(begin.active, active, streams[0].blocks)
    }

    /** Write the next bytes `data` of the header `h` through the handle `hdr`. */
    method PutField(hdr: MyriadStream, data: seq<byte>, ghost begin: Snapshot, ghost out: seq<byte>, ghost h: seq<byte>)
      requires Writing(hdr, begin, out) && out + data <= h && |h| <= streams[0].size
      modifies hdr`cur, hdr`pos, store
      modifies `free, `blocks, `used, `headerChanged, `streams, `active
      ensures Writing(hdr, begin, out + data)
    {
      hide Sound, Contents, View, Coherent, SameOutside, Wrote, Touched, Drift;
      ghost var before, m, active0 := Bytes(), Meta(), active;
      FirstIsZero(m, blockSize);
      hdr.OnlyPlace(0);
      BytesSize(m, 0);
      var _ := hdr.Write(data);
      FieldPut(before, Bytes(), data, out);
      SameOutsideAgain(begin.active, active0, active, streams[0].blocks);
    }

    method WritePreamble(hdr: MyriadStream, ghost begin: Snapshot, ghost t: seq<Rec>)
      requires Writing(hdr, begin, []) && |t| == |streams| && |HeaderBytes(blockSize, t)| <= streams[0].size
      modifies hdr`cur, hdr`pos, store
      modifies `free, `blocks, `used, `headerChanged, `streams, `active
      ensures Writing(hdr, begin, Before(blockSize, t, 0))
    {
      hide Valid, HeaderBytes, Before, SameOutside;
      ghost var h := HeaderBytes(blockSize, t);
      PreambleParts(blockSize, t);
      PutField(hdr, MAGIC, begin, [], h);
      PutField(hdr, [1], begin, MAGIC, h);
      PutField(hdr, [32], begin, MAGIC + [1], h);
      PutField(hdr, Le32(blockSize), begin, MAGIC + [1] + [32], h);
      PutField(hdr, Le32(|streams|), begin, MAGIC + [1] + [32] + Le32(blockSize), h);
    }

    method WriteRecord(hdr: MyriadStream, i: nat, ghost begin: Snapshot, ghost t: seq<Rec>)
      requires i < |t| && Writing(hdr, begin, Before(blockSize, t, i)) && t == TrimAll(streams, blockSize)
      requires Covers(streams[i], blockSize) && |HeaderBytes(blockSize, t)| <= streams[0].size
      modifies hdr`cur, hdr`pos, store
      modifies `free, `blocks, `used, `headerChanged, `streams, `active
      ensures Writing(hdr, begin, Before(blockSize, t, i + 1))
    {
      hide Valid, HeaderBytes, Before, SoFar, SameOutside;
      ghost var h := HeaderBytes(blockSize, t);
      var r := streams[i];
      TrimShorter(r, blockSize);
      FieldsOfRecord(blockSize, t, i);
      PutField(hdr, Le32(r.id), begin, Before(blockSize, t, i), h);
      PutField(hdr, Le32(r.size), begin, Before(blockSize, t, i) + Le32(r.id), h);
      WriteBlockIds(hdr, i, r.blocks[..BlkDiv(r.size, blockSize)], begin, t);
    }

    method WriteBlockIds(hdr: MyriadStream, i: nat, ids: seq<nat>, ghost begin: Snapshot, ghost t: seq<Rec>)
      requires i < |t| && ids == t[i].blocks
      requires Writing(hdr, begin, SoFar(blockSize, t, i, 0)) && |HeaderBytes(blockSize, t)| <= streams[0].size
      modifies hdr`cur, hdr`pos, store
      modifies `free, `blocks, `used, `headerChanged, `streams, `active
      ensures Writing(hdr, begin, SoFar(blockSize, t, i, |ids|))
    {
      hide Valid, HeaderBytes, Before, SoFar, SameOutside;
      ghost var h := HeaderBytes(blockSize, t);
      for k := 0 to |ids|
        invariant Writing(hdr, begin, SoFar(blockSize, t, i, k))
      {
        FieldOfBlock(blockSize, t, i, k);
        PutField(hdr, Le32(ids[k]), begin, SoFar(blockSize, t, i, k), h);
      }
    }

    /** Write the header through a handle of its own, which is dropped again. */
    method WriteHeader()
      requires Valid() && Holds(active, streams[0].blocks, None)
      requires |HeaderBytes(blockSize, TrimAll(streams, blockSize))| <= streams[0].size
      modifies `free, `blocks, `used, `headerChanged, `streams, `active, store
      ensures Valid() && HeaderWritten() && Meta() == old(Meta()) && headerChanged == old(headerChanged)
      ensures Bytes() == old(Bytes())[0 := Bytes()[0]]
      ensures Holds(active, streams[0].blocks, None) && SameOutside(old(active), active, streams[0].blocks)
    {
      hide Sound, Contents, View, Coherent, HeaderBytes, Before, SameOutside, TrimAll, Holds;
      ghost var begin, recs := Here(), streams;
      ghost var t := TrimAll(recs, blockSize);
      FirstIsZero(Meta(), blockSize);
      AllCovers(Meta(), blockSize);
      PreambleParts(blockSize, t);
      SameOutsideNone(active, streams[0].blocks);
      var hdr := new MyriadStream(this, 0);
      hdr.OnlyPlace(0);
      WritePreamble(hdr, begin, t);
      var count := |streams|;
      for i := 0 to count
        invariant Writing(hdr, begin, Before(blockSize, t, i))
      {
        WriteRecord(hdr, i, begin, t);
      }
      ghost var before := active;
      hdr.OnlyPlace(0);
      hdr.Close();
      hdr.OnlyPlace(0);
      SameOutsideAgain(begin.active, before, active, streams[0].blocks);
    }

    /** Give the header stream the size computed for it. */
    method SetHeaderSize(size: nat)
      requires Valid() && Holds(active, streams[0].blocks, None)
      requires size == HeaderSize(streams) && size <= Span(|streams[0].blocks|, blockSize)
      modifies `streams
      ensures Valid() && Holds(active, streams[0].blocks, None)
      ensures Meta() == WithSize(old(Meta()), 0, size) && Drift(Meta()) == old(Drift(Meta()))
      ensures streams[0].size == HeaderSize(streams)
      ensures |HeaderBytes(blockSize, TrimAll(streams, blockSize))| <= streams[0].size
      ensures Bytes() == old(Bytes())[0 := Bytes()[0]]
    {
      hide Sound, Contents, View, Coherent, HeaderBytes, TrimAll, Holds, Drift;
      ghost var m, cells := Meta(), Cells();
      HeaderSized(m, size, blockSize);
      WithSizeContents(m, 0, size, cells, blockSize);
      streams := streams[0 := streams[0].(size := size)];
    }

    /** Bring the header up to date. */
    method UpdateHeader()
      requires Valid() && Holds(active, streams[0].blocks, None)
      modifies `free, `blocks, `used, `headerChanged, `streams, `active, store
      ensures Valid() && Holds(active, streams[0].blocks, None) && Drift(Meta()) == old(Drift(Meta()))
      ensures !old(headerChanged) || !store.writable ==>
                Here() == old(Here()) && store.data == old(store.data)
      ensures old(headerChanged) && store.writable ==>
                !headerChanged && HeaderWritten() && streams[0].size == HeaderSize(streams)
      ensures old(headerChanged) && store.writable ==> Meta() == Synced(old(Meta()), blockSize)
      ensures old(HeaderKept()) ==> HeaderKept()
      // No other stream changes, and the header's own blocks only grow.
      ensures Touched(old(streams), streams, 0) && Bytes() == old(Bytes())[0 := Bytes()[0]]
      ensures SameOutside(old(active), active, streams[0].blocks)
    {
      hide Sound, Contents, View, Coherent, HeaderBytes, TrimAll, SameOutside, Touched, Holds, Drift, WithSize;
      hide HeaderGood, Synced;
      TouchedNothing(streams, 0);
      SameOutsideNone(active, streams[0].blocks);
      if !headerChanged {
        return;
      }
      if !store.writable {
        return;
      }
      var size := SizeHeader();
      ghost var m := Meta();
      SetHeaderSize(size);
      TouchedBySize(old(streams), m, 0, size);
      WriteHeader();
      headerChanged := false;
      if old(HeaderKept()) {
        TouchedBlocks(old(streams), streams, 0);
        GoodBoots(blockSize, old(streams), old(Bytes()[0]), old(headerChanged));
        HeaderWrittenGood(blockSize, old(streams), streams, Bytes()[0]);
      }
    }

    /** Bring the header up to date and write every changed block back. */
    method Sync()
      requires Valid() && Holds(active, streams[0].blocks, None)
      modifies `free, `blocks, `used, `headerChanged, `streams, `active, store
      ensures Valid() && Holds(active, streams[0].blocks, None) && Drift(Meta()) == old(Drift(Meta()))
      ensures forall b :: b in active ==> !active[b].changed
      ensures !old(headerChanged) || !store.writable ==> Meta() == old(Meta()) && Bytes() == old(Bytes())
      ensures old(headerChanged) && store.writable ==> HeaderWritten() && streams[0].size == HeaderSize(streams)
      ensures old(headerChanged) && store.writable ==> Meta() == Synced(old(Meta()), blockSize)
      ensures old(headerChanged) && store.writable ==> Layout(Bytes()[0], blockSize, TrimAll(streams, blockSize))
      ensures forall b :: b !in streams[0].blocks ==> (b in active <==> b in old(active))
      ensures old(HeaderKept()) ==> HeaderKept()
      ensures old(HeaderKept()) && store.writable ==> !headerChanged
      ensures Touched(old(streams), streams, 0) && Bytes() == old(Bytes())[0 := Bytes()[0]]
    {
      hide Sound, Contents, View, Coherent, HeaderBytes, TrimAll, SameOutside, Touched, Drift, HeaderGood;
      hide Synced, Layout;
      UpdateHeader();
      LayoutExactly(Bytes()[0], blockSize, TrimAll(streams, blockSize));
      OutsideKeys(old(active), active, streams[0].blocks);
      var left := active.Keys;
      ghost var m, cells, keys, noted := Meta(), Cells(), active.Keys, headerChanged;
      while left != {}
        invariant left <= active.Keys == keys
        invariant Meta() == m && Cells() == cells && CacheOk() && headerChanged == noted
        invariant forall b :: b in active && b !in left ==> !active[b].changed
        decreases |left|
      {
        var b :| b in left;
        if active[b].changed {
          SyncBlock(b);
        }
        left := left - {b};
      }
    }

    // ---- Formatting ----

    /** How many blocks a fresh header takes, and its size. */
    method HeaderBlocks(block: nat) returns (n: nat, size: nat)
      requires block >= 5
      ensures n == BootBlocks(block) && size == 22 + 4 * n
    {
      n, size := 0, 26;
      while size > Span(n, block)
        invariant n <= BootBlocks(block)
        invariant n == 0 ==> size == 26
        invariant n > 0 ==> size == 22 + 4 * n && 30 <= Span(n, block)
        decreases BootBlocks(block) - n
      {
        if n == 0 {
          SizingStart(block);
        } else {
          SizingStep(n, block);
        }
        n := BlkDiv(size + 4, block);
        size := 22 + 4 * n;
      }
      assert HeaderFits(n, block);
    }

    /** Write `total` zeroed blocks from the current position on. */
    method FillZeros(block: nat, total: nat)
      modifies store
      ensures |store.data| >= Span(total, block)
    {
      var zeros := seq<byte>(block, _ => 0);
      for j := 0 to total
        invariant store.pos >= Span(j, block) && |store.data| >= Span(j, block)
      {
        store.Write(zeros);
      }
    }

    /** Write `data` straight to the store, behind the bytes `out` of the header `h` that it starts with. */
    method PutRaw(data: seq<byte>, ghost out: seq<byte>, ghost h: seq<byte>)
      requires store.pos == |out| && out <= store.data && out + data <= h && |h| <= |store.data|
      modifies store
      ensures store.pos == |out + data| && out + data <= store.data && |store.data| == |old(store.data)|
    {
      assert store.data[..|out|] == out;
      store.Write(data);
    }

    /** Write the header of a fresh Myriad to the start of the store. */
    method WriteFreshHeader(block: nat, n: nat, size: nat)
      requires block >= 5 && n == BootBlocks(block) && size == 22 + 4 * n <= |store.data|
      modifies store
      ensures |store.data| == |old(store.data)| && store.data[..size] == HeaderBytes(block, FreshRecs(block))
    {
      hide HeaderBytes, Before, SoFar, BootBlocks, Preamble;
      ghost var t := FreshRecs(block);
      ghost var h := HeaderBytes(block, t);
      FreshHeader(block);
      PreambleParts(block, t);
      FieldsOfRecord(block, t, 0);
      store.SetPos(0);
      PutRaw(MAGIC, [], h);
      PutRaw([1], MAGIC, h);
      PutRaw([32], MAGIC + [1], h);
      PutRaw(Le32(block), MAGIC + [1] + [32], h);
      PutRaw(Le32(1), MAGIC + [1] + [32] + Le32(block), h);
      PutRaw(Le32(0), Before(block, t, 0), h);
      PutRaw(Le32(size), Before(block, t, 0) + Le32(0), h);
      for i := 0 to n
        invariant store.pos == |SoFar(block, t, 0, i)| && SoFar(block, t, 0, i) <= store.data
        invariant |store.data| == |old(store.data)|
      {
        FieldOfBlock(block, t, 0, i);
        PutRaw(Le32(i), SoFar(block, t, 0, i), h);
      }
      assert store.data[..size] == SoFar(block, t, 0, n);
    }

    /** Make a Myriad of `block`-byte blocks out of the store, with `preallocate` blocks beside the header. */
    method Format(block: nat, preallocate: nat)
      requires block >= 5 && active == map[]
      modifies this, store
      ensures Valid() && blockSize == block && active == map[] && headerChanged
      ensures streams == FreshRecs(block) && blocks == BootBlocks(block) + preallocate
      ensures free == FreshFree(BootBlocks(block), preallocate) && Drift(Meta()) == 1
      ensures HeaderWritten() && HeaderKept() && Layout(store.data, block, FreshRecs(block))
    {
      hide HeaderBytes, Preamble, Sound, Bootable, Drift, BootBlocks, Coherent, View, HeaderGood, FreshFree, Layout;
      hide BytesAt, Iota, Flat, TrimAll, Span;
      var n, size := HeaderBlocks(block);
      used := 1;
      FillZeros(block, n + preallocate);
      SpanMonotone(n, n + preallocate, block);
      FreshFits(block);
      WriteFreshHeader(block, n, size);
      LayoutExactly(store.data, block, FreshRecs(block));
      blockSize, blocks := block, n + preallocate;
      var own := seq(n, i requires i >= 0 => i);
      used := used + n;
      free := seq(preallocate, i requires i >= 0 => n + i);
      streams := [Rec(0, size, own)];
      headerChanged := true;
      FreshSound(block, preallocate);
      FreshHeader(block);
      FreshWritten(store.data, block, blocks);
      assert own == Iota(n) && free == FreshFree(n, preallocate);
      FreshCoherent(store.data, block, blocks);
      FreshGood(block, Bytes()[0]);
    }

    // ---- Loading ----

    /** Read four bytes of the store as an integer. */
    method ReadRawInt() returns (r: Option<int>)
      modifies store`pos
      ensures r.Some? <==> old(store.pos) + 4 <= |store.data|
      ensures r.Some? ==>
                r == Some(FromLe32(store.data[old(store.pos)..old(store.pos) + 4])) && store.pos == old(store.pos) + 4
    {
      var buf := store.Read(4);
      r := if |buf| == 4 then Some(FromLe32(buf)) else None;
    }

    /** Check the preamble and read the block size and the number of streams. A version or word size that is
        cut off keeps the value the buffer had from the magic number. */
    method ReadPreamble() returns (r: Result<(nat, int), MyriadError>)
      modifies store`pos
      ensures |store.data| < 4 <==> r == Err(EmptyStream)
      ensures |store.data| >= 4 && store.data[..4] != [0x0a, 0xd3, 0xfa, 0x84] ==> r == Err(InvalidFormat)
      ensures |store.data| >= 6 && store.data[..4] == [0x0a, 0xd3, 0xfa, 0x84] ==>
                && (store.data[4] != 1 ==> r == Err(BadVersion))
                && (store.data[4] == 1 && store.data[5] != 32 ==> r == Err(InvalidWordSize))
      ensures r.Ok? ==> r.value.0 >= 5 && store.pos == 14 <= |store.data|
      ensures r.Ok? ==> store.data[..6] == [0x0a, 0xd3, 0xfa, 0x84, 1, 32]
      ensures r.Ok? ==> r.value.0 == FromLe32(store.data[6..10]) && r.value.1 == FromLe32(store.data[10..14])
      ensures r.Err? <==>
              !(|store.data| >= 14 && store.data[..6] == [0x0a, 0xd3, 0xfa, 0x84, 1, 32]
                && FromLe32(store.data[6..10]) >= 5)
    {
      store.SetPos(0);
      var buf := store.Read(4);
      if |buf| < 4 {
        return Err(EmptyStream);
      }
      if buf != MAGIC {
        return Err(InvalidFormat);
      }
      var pair := store.Read(2);
      assert |store.data| >= 6 ==> |pair| == 2 && pair[0] == store.data[4] && pair[1] == store.data[5];
      buf := pair + buf[|pair|..];
      if buf[0] != 1 {
        return Err(BadVersion);
      }
      if buf[1] != 32 {
        return Err(InvalidWordSize);
      }
      assert store.data[..6] == store.data[..4] + store.data[4..6];
      var size := ReadRawInt();
      var count := ReadRawInt();
      if size.None? || count.None? || size.value < 5 {
        return Err(Corrupt);
      }
      return Ok((size.value, count.value));
    }

    /** While stream records are read: nothing is in memory but the block `cur` of the record `src` that is read. */
    ghost predicate Loading(src: Rec, cur: Option<nat>)
      reads this, store
      ensures Loading(src, cur) ==> CacheOk() && blockSize >= 5
    {
      && CacheOk() && blockSize >= 5 && blocks == BlockOf(|store.data|, blockSize)
      && InRange(src.blocks, blocks) && Holds(active, src.blocks, cur)
      && Clean(active) && (forall b :: b in active ==> b in src.blocks)
    }

    lemma ReadsStored()
      requires CacheOk() && Clean(active) && blocks == BlockOf(|store.data|, blockSize)
      ensures Cells() == Stored(store.data, blockSize)
    {
      CleanView(store.data, blockSize, blocks, active);
    }

    /** Read an integer of the header through `src`. */
    method ReadInt(src: Rec, cur: Option<nat>, pos: nat) returns (cur': Option<nat>, r: Result<int, MyriadError>)
      requires Loading(src, cur)
      modifies `active, store
      ensures r.Err? ==> r.error != EmptyStream
      ensures Loading(src, cur') && store.data == old(store.data)
      ensures r.Ok? <==> pos + 4 <= src.size && pos + 4 <= Span(|src.blocks|, blockSize)
      ensures r.Ok? ==> r.value == IntAt(src, store.data, blockSize, pos)
    {
      var data;
      cur', data := ReadRec(src, cur, pos, 4);
      ReadsStored();
      if data.Err? {
        return cur', Err(data.error);
      }
      if |data.value| < 4 {
        return cur', Err(Corrupt);
      }
      r := Ok(FromLe32(data.value));
    }

    /** The record the header is read through: a stand-in until the header's own first blocks are known. */
    function ReadsThrough(fake: Rec, switched: bool): Rec
      requires switched ==> streams != []
      reads `streams
    {
      if switched then streams[0] else fake
    }

    /** While records are read: `ids` are the blocks listed so far, and `used` counts them. */
    ghost predicate LoadOk(fake: Rec, rd: Reader, ids: set<nat>)
      reads this, store
      ensures LoadOk(fake, rd, ids) ==> blockSize >= 5 && (rd.switched ==> streams != [])
      ensures LoadOk(fake, rd, ids) ==> blocks == BlockOf(|store.data|, blockSize)
    {
      && (rd.switched ==> streams != [])
      && Loading(ReadsThrough(fake, rd.switched), rd.cur)
      && Tallied(streams, ids, used, blocks)
    }

    /** While an image is loaded: `i` records and `k` block ids of the next have been read. */
    ghost predicate LoadedTo(img: seq<Rec>, i: nat, k: nat, fake: Rec, rd: Reader)
      requires blockSize >= 5
      reads this, store
    {
      && Image(store.data, blockSize, img)
      && var t := TrimAll(img, blockSize);
         && i < |t| && k <= |t[i].blocks| && streams == Partial(t, i, k)
         && fake == FakeHeader(blockSize)
         && (rd.switched <==> i > 0 || k >= BootBlocks(blockSize))
         && rd.pos == RecOffset(t, i) + 8 + 4 * k
         && (i > 0 || k > BootBlocks(blockSize) ==> Loadable(blockSize, img))
    }

    lemma LoadedSource(img: seq<Rec>, i: nat, k: nat, fake: Rec, rd: Reader)
      requires blockSize >= 5 && LoadedTo(img, i, k, fake, rd)
      ensures streams != [] && ReadsThrough(fake, rd.switched) == Source(blockSize, TrimAll(img, blockSize), i, k)
    {
      hide Image, RecOffset, Loadable;
      var t := TrimAll(img, blockSize);
      ImageCovers(store.data, blockSize, img);
      PartialSteps(t, i, k);
      assert t[0].blocks[..|t[0].blocks|] == t[0].blocks;
    }

    /** Between two records: `i` of them have been read. */
    ghost predicate LoadedAll(img: seq<Rec>, i: nat, fake: Rec, rd: Reader)
      requires blockSize >= 5
      reads `blockSize, `streams, store`data
    {
      && Image(store.data, blockSize, img)
      && var t := TrimAll(img, blockSize);
         && i <= |t| && streams == t[..i] && fake == FakeHeader(blockSize)
         && (rd.switched <==> i > 0) && rd.pos == RecOffset(t, i)
         && (i > 0 ==> Loadable(blockSize, img))
    }

    /** Read the next integer of the header. */
    method NextInt(fake: Rec, rd: Reader, ids: set<nat>) returns (rd': Reader, r: Result<int, MyriadError>)
      requires LoadOk(fake, rd, ids)
      modifies `active, store
      ensures r.Err? ==> r.error != EmptyStream
      ensures store.data == old(store.data)
      ensures LoadOk(fake, rd', ids) && rd'.switched == rd.switched && rd'.pos == rd.pos + 4
      ensures r.Ok? <==> Within(ReadsThrough(fake, rd.switched), rd.pos, blockSize)
      ensures r.Ok? ==> r.value == IntAt(ReadsThrough(fake, rd.switched), store.data, blockSize, rd.pos)
    {
      hide Loading, Tallied, BytesAt, Stored;
      var cur;
      cur, r := ReadInt(ReadsThrough(fake, rd.switched), rd.cur, rd.pos);
      rd' := Reader(rd.switched, cur, rd.pos + 4);
    }

    method BeginRecord(fake: Rec, rd: Reader, ids: set<nat>, id: int, size: nat)
      requires LoadOk(fake, rd, ids)
      modifies `streams
      ensures LoadOk(fake, rd, ids) && streams == old(streams) + [Rec(id, size, [])]
    {
      hide Tallied, Coherent;
      TalliedNew(streams, ids, used, blocks, Rec(id, size, []));
      ghost var src := ReadsThrough(fake, rd.switched);
      streams := streams + [Rec(id, size, [])];
      assert ReadsThrough(fake, rd.switched) == src;
    }

    /** Read the id and size of the next stream. */
    method LoadRecord(fake: Rec, rd: Reader, ids: set<nat>, ghost img: seq<Rec>)
      returns (rd': Reader, r: Outcome<MyriadError>)
      requires LoadOk(fake, rd, ids)
      modifies `active, `streams, store
      ensures r.Fail? ==> r.error != EmptyStream
      ensures store.data == old(store.data)
      ensures r.Pass? ==> LoadOk(fake, rd', ids) && |streams| == |old(streams)| + 1
      ensures old(LoadedAll(img, |streams|, fake, rd)) && |old(streams)| < |img| ==>
                r.Pass? && LoadedTo(img, |old(streams)|, 0, fake, rd')
    {
      hide LoadOk, LoadedTo, IntAt, Within, Image, RecOffset, Loadable, TrimAll, FakeHeader;
      ghost var given := LoadedAll(img, |streams|, fake, rd) && |streams| < |img|;
      if given {
        RecordReadable(img, |streams|, fake, rd);
      }
      var id, size;
      rd', id := NextInt(fake, rd, ids);
      if id.Err? {
        return rd', Fail(id.error);
      }
      rd', size := NextInt(fake, rd', ids);
      if size.Err? {
        return rd', Fail(size.error);
      }
      if size.value < 0 {
        return rd', Fail(Corrupt);
      }
      r := Pass;
      BeginRecord(fake, rd', ids, id.value, size.value);
      if given {
        RecordBegun(img, old(streams), fake, rd, rd');
      }
    }

    lemma RecordBegun(img: seq<Rec>, before: seq<Rec>, fake: Rec, rd: Reader, rd': Reader)
      requires blockSize >= 5 && |before| < |img| && Image(store.data, blockSize, img)
      requires before == TrimAll(img, blockSize)[..|before|] && fake == FakeHeader(blockSize)
      requires (rd.switched <==> |before| > 0) && rd.pos == RecOffset(TrimAll(img, blockSize), |before|)
      requires |before| > 0 ==> Loadable(blockSize, img)
      requires streams == before + [Rec(img[|before|].id, img[|before|].size, [])]
      requires rd'.switched == rd.switched && rd'.pos == rd.pos + 8
      ensures LoadedTo(img, |before|, 0, fake, rd')
    {
      hide Image;
      PartialSteps(TrimAll(img, blockSize), |before|, 0);
    }

    lemma RecordReadable(img: seq<Rec>, i: nat, fake: Rec, rd: Reader)
      requires blockSize >= 5 && i < |img| && LoadedAll(img, i, fake, rd)
      ensures rd.switched ==> streams != []
      ensures var src := ReadsThrough(fake, rd.switched);
              && Within(src, rd.pos, blockSize) && Within(src, rd.pos + 4, blockSize)
              && IntAt(src, store.data, blockSize, rd.pos) == img[i].id
              && IntAt(src, store.data, blockSize, rd.pos + 4) == img[i].size
    {
      hide Image;
      SourceRecord(store.data, blockSize, img, i);
    }

    /** List block `b` for the stream that was begun last. */
    method ListBlock(fake: Rec, rd: Reader, ids: set<nat>, b: nat) returns (ids': set<nat>)
      requires LoadOk(fake, rd, ids) && streams != [] && b < blocks
      modifies `streams, `used
      ensures LoadOk(fake, rd, ids')
      ensures var i := |old(streams)| - 1;
              streams == old(streams)[i := old(streams)[i].(blocks := old(streams)[i].blocks + [b])]
    {
      hide Tallied, Coherent;
      var i := |streams| - 1;
      TalliedMore(streams, ids, used, blocks, i, b);
      streams := streams[i := streams[i].(blocks := streams[i].blocks + [b])];
      ids' := ids + {b};
      used := used + 1;
    }

    /** Go on through the header's own record. */
    method Switch(fake: Rec, rd: Reader, ids: set<nat>) returns (rd': Reader)
      requires LoadOk(fake, rd, ids) && streams != []
      modifies `active, store
      ensures store.data == old(store.data)
      ensures LoadOk(fake, rd', ids) && rd'.switched && rd'.pos == rd.pos
    {
      hide Listed, Coherent;
      if rd.cur.Some? {
        ReleaseBlock(rd.cur.value);
      }
      rd' := Reader(true, None, rd.pos);
    }

    /** Read the next block id of the stream that was begun last; `last` says that it completes the blocks
        the header starts with. */
    method LoadBlock(fake: Rec, rd: Reader, ids: set<nat>, last: bool, ghost img: seq<Rec>, ghost k: nat)
      returns (rd': Reader, ids': set<nat>, r: Outcome<MyriadError>)
      requires LoadOk(fake, rd, ids) && streams != []
      requires last <==> |streams| == 1 && k == BootBlocks(blockSize) - 1
      modifies `active, `streams, `used, store
      ensures r.Fail? ==> r.error != EmptyStream
      ensures store.data == old(store.data)
      ensures r.Pass? ==> LoadOk(fake, rd', ids') && |streams| == |old(streams)|
      ensures old(LoadedTo(img, |streams| - 1, k, fake, rd))
              && k < |Trim(img[|old(streams)| - 1], blockSize).blocks| ==>
                if r.Pass? then LoadedTo(img, |streams| - 1, k + 1, fake, rd') else !Loadable(blockSize, img)
    {
      hide LoadOk, IntAt, Within, Loadable, Trim, BootBlocks, Image, RecOffset, TrimAll, FakeHeader, Partial, Reachable;
      ghost var i := |streams| - 1;
      ghost var given := LoadedTo(img, i, k, fake, rd) && k < |Trim(img[i], blockSize).blocks|;
      if given {
        BlockReadable(img, i, k, fake, rd);
      }
      var id;
      ids' := ids;
      rd', id := NextInt(fake, rd, ids);
      if id.Err? {
        return rd', ids, Fail(id.error);
      }
      if id.value < 0 || id.value >= blocks {
        return rd', ids, Fail(Corrupt);
      }
      r := Pass;
      ids' := ListBlock(fake, rd', ids, id.value);
      if last {
        rd' := Switch(fake, rd', ids');
      }
      if given {
        BlockListed(img, old(streams), i, k, fake, rd, rd');
      }
    }

    /** Read all block ids of the stream that was begun last. */
    method LoadBlocks(fake: Rec, rd: Reader, ids: set<nat>, boot: nat, ghost img: seq<Rec>)
      returns (rd': Reader, ids': set<nat>, r: Outcome<MyriadError>)
      requires LoadOk(fake, rd, ids) && streams != [] && boot == BootBlocks(blockSize)
      modifies `active, `streams, `used, store
      ensures r.Fail? ==> r.error != EmptyStream
      ensures store.data == old(store.data)
      ensures r.Pass? ==> LoadOk(fake, rd', ids') && |streams| == |old(streams)|
      ensures old(LoadedTo(img, |streams| - 1, 0, fake, rd)) ==>
                if r.Pass? then LoadedAll(img, |streams|, fake, rd') else !Loadable(blockSize, img)
    {
      hide LoadOk, Loadable, Trim, BootBlocks, Image, RecOffset, TrimAll, FakeHeader, Partial;
      var i := |streams| - 1;
      ghost var given := LoadedTo(img, i, 0, fake, rd);
      if given {
        RecordLength(img, i, fake, rd);
      }
      var count := BlkDiv(streams[i].size, blockSize);
      rd', ids', r := rd, ids, Pass;
      for k := 0 to count
        invariant store.data == old(store.data) && r.Pass?
        invariant LoadOk(fake, rd', ids') && |streams| == i + 1
        invariant given ==> count == |Trim(img[i], blockSize).blocks| && LoadedTo(img, i, k, fake, rd')
      {
        rd', ids', r := LoadBlock(fake, rd', ids', |streams| == 1 && k == boot - 1, img, k);
        if r.Fail? {
          return;
        }
      }
      if given {
        RecordComplete(img, i, fake, rd');
      }
    }

    lemma RecordLength(img: seq<Rec>, i: nat, fake: Rec, rd: Reader)
      requires blockSize >= 5 && LoadedTo(img, i, 0, fake, rd)
      ensures i < |streams| && BlkDiv(streams[i].size, blockSize) == |Trim(img[i], blockSize).blocks|
    {
      TrimShorter(img[i], blockSize);
    }

    lemma RecordComplete(img: seq<Rec>, i: nat, fake: Rec, rd: Reader)
      requires blockSize >= 5 && i < |img| && LoadedTo(img, i, |Trim(img[i], blockSize).blocks|, fake, rd)
      ensures LoadedAll(img, i + 1, fake, rd)
    {
      hide Image;
      ImageCovers(store.data, blockSize, img);
      var t := TrimAll(img, blockSize);
      PartialSteps(t, i, |t[i].blocks|);
      RecOffsetStep(t, i);
    }

    /** Read all stream records. */
    method LoadStreams(fake: Rec, count: int, ghost img: seq<Rec>)
      returns (rd: Reader, ids: set<nat>, r: Outcome<MyriadError>)
      requires blockSize >= 5 && LoadOk(fake, Reader(false, None, 14), {}) && streams == []
      modifies `active, `streams, `used, store
      ensures r.Fail? ==> r.error != EmptyStream
      ensures store.data == old(store.data)
      ensures r.Pass? ==> LoadOk(fake, rd, ids)
      ensures old(LoadedAll(img, 0, fake, Reader(false, None, 14))) && count == |img| ==>
                if r.Pass? then LoadedAll(img, |img|, fake, rd) else !Loadable(blockSize, img)
    {
      hide LoadOk, LoadedAll, LoadedTo, Loadable;
      ghost var given := LoadedAll(img, 0, fake, Reader(false, None, 14)) && count == |img|;
      rd, ids, r := Reader(false, None, 14), {}, Pass;
      var boot, _ := HeaderBlocks(blockSize);
      var j := 0;
      while j < count
        invariant 0 <= j <= Count(count) && |streams| == j
        invariant store.data == old(store.data) && r.Pass? && LoadOk(fake, rd, ids)
        invariant given ==> LoadedAll(img, j, fake, rd)
      {
        rd, r := LoadRecord(fake, rd, ids, img);
        if r.Fail? {
          return;
        }
        rd, ids, r := LoadBlocks(fake, rd, ids, boot, img);
        if r.Fail? {
          return;
        }
        j := j + 1;
      }
    }

    /** Load the streams that the store's header describes. `img` are the streams of the image, if it is one. */
    method Load(ghost block: nat, ghost img: seq<Rec>) returns (r: Outcome<MyriadError>)
      requires streams == [] && free == [] && used == 0 && active == map[]
      modifies this, store
      ensures store.data == old(store.data)
      ensures |store.data| < 4 <==> r == Fail(EmptyStream)
      ensures r == Fail(EmptyStream) ==> active == map[]
      ensures |store.data| >= 4 && store.data[..4] != [0x0a, 0xd3, 0xfa, 0x84] ==> r == Fail(InvalidFormat)
      ensures |store.data| >= 6 && store.data[..4] == [0x0a, 0xd3, 0xfa, 0x84] ==>
                && (store.data[4] != 1 ==> r == Fail(BadVersion))
                && (store.data[4] == 1 && store.data[5] != 32 ==> r == Fail(InvalidWordSize))
      ensures Image(store.data, block, img) ==> (r.Pass? <==> Loadable(block, img))
      ensures Image(store.data, block, img) && r.Pass? ==>
                && Valid() && active == map[] && headerChanged == old(headerChanged)
                && blockSize == block && blocks == BlockOf(|store.data|, block)
                && streams == TrimAll(img, block)
                && Bytes() == Contents(img, Stored(store.data, block), block)
                && Drift(Meta()) == 0 && (!headerChanged ==> HeaderKept())
                && (forall i, j :: 0 <= i < j < |free| ==> free[i] < free[j])
    {
      hide LoadOk, LoadedAll, Loadable, Image, Sound, Contents, TrimAll, Drift, FromLe32, Stored;
      if Image(store.data, block, img) {
        ImagePreamble(store.data, block, img);
      }
      var pre := ReadPreamble();
      if pre.Err? {
        return Fail(pre.error);
      }
      blockSize := pre.value.0;
      blocks := BlockOf(|store.data|, blockSize);
      var n, size := HeaderBlocks(blockSize);
      if n > blocks {
        return Fail(Corrupt);
      }
      var fake := Rec(0, size, seq(n, i requires i >= 0 => i));
      assert fake == FakeHeader(blockSize);
      LoadBegins(fake, img);
      r := LoadRest(fake, pre.value.1, img);
    }

    lemma LoadBegins(fake: Rec, img: seq<Rec>)
      requires streams == [] && used == 0 && active == map[] && blockSize >= 5
      requires blocks == BlockOf(|store.data|, blockSize) && BootBlocks(blockSize) <= blocks
      requires fake == FakeHeader(blockSize)
      ensures LoadOk(fake, Reader(false, None, 14), {})
      ensures Image(store.data, blockSize, img) ==> LoadedAll(img, 0, fake, Reader(false, None, 14))
    {
      hide Image;
      NothingLoaded(TrimAll(img, blockSize), blocks);
      BlocksInStore(store.data, blockSize, 0);
    }

    /** Read the stream records, drop the reader and list the free blocks. */
    method LoadRest(fake: Rec, count: int, ghost img: seq<Rec>) returns (r: Outcome<MyriadError>)
      requires blockSize >= 5 && LoadOk(fake, Reader(false, None, 14), {}) && streams == [] && free == []
      modifies `active, `streams, `used, `free, store
      ensures store.data == old(store.data) && (r.Fail? ==> r.error != EmptyStream)
      ensures old(LoadedAll(img, 0, fake, Reader(false, None, 14))) && count == |img| ==>
                && (r.Pass? <==> Loadable(blockSize, img))
                && (r.Pass? ==>
                     && Valid() && active == map[] && streams == TrimAll(img, blockSize) && Drift(Meta()) == 0
                     && Bytes() == Contents(img, Stored(store.data, blockSize), blockSize)
                     && (!headerChanged ==> HeaderKept())
                     && (forall i, j :: 0 <= i < j < |free| ==> free[i] < free[j]))
    {
      hide LoadOk, LoadedAll, Loadable;
      ghost var given := LoadedAll(img, 0, fake, Reader(false, None, 14)) && count == |img|;
      var rd, ids;
      rd, ids, r := LoadStreams(fake, count, img);
      if r.Fail? {
        return;
      }
      ListFree(fake, rd, ids);
      if given {
        UnusedAscends(blocks, ids);
        ImageLoaded(img, fake, rd, ids);
      }
    }

    method ListFree(fake: Rec, rd: Reader, ids: set<nat>)
      requires LoadOk(fake, rd, ids) && free == []
      modifies `active, `free, store
      ensures store.data == old(store.data) && active == map[] && CacheOk()
      ensures Tallied(streams, ids, used, blocks) && blocks == BlockOf(|store.data|, blockSize)
      ensures free == Unused(blocks, ids)
    {
      hide Listed, Coherent, Tallied;
      if rd.cur.Some? {
        ReleaseBlock(rd.cur.value);
      }
      for j := 0 to blocks
        invariant free == Unused(j, ids) && active == map[] && CacheOk() && store.data == old(store.data)
      {
        if j !in ids {
          free := free + [j];
        }
      }
    }

    lemma ImageLoaded(img: seq<Rec>, fake: Rec, rd: Reader, ids: set<nat>)
      requires CacheOk() && blockSize >= 5 && LoadedAll(img, |img|, fake, rd) && active == map[]
      requires Tallied(streams, ids, used, blocks) && blocks == BlockOf(|store.data|, blockSize)
      requires free == Unused(blocks, ids)
      ensures Loadable(blockSize, img)
      ensures Valid() && streams == TrimAll(img, blockSize) && Drift(Meta()) == 0
      ensures !headerChanged ==> HeaderKept()
      ensures Bytes() == Contents(img, Stored(store.data, blockSize), blockSize)
    {
      hide HeaderBytes, Fits32, Bootable, OwnedOnce, Ordered, Drift, Sound, Listed, Contents, Loadable, HeaderGood;
      ImagePreamble(store.data, blockSize, img);
      assert img != [] && streams == TrimAll(img, blockSize);
      LoadedSound(store.data, blockSize, img, ids, used);
      TrimContents(img, Cells(), blockSize);
      ImageGood(store.data, blockSize, img);
      FirstBytes(img, Cells(), blockSize);
    }

    lemma BlockReadable(img: seq<Rec>, i: nat, k: nat, fake: Rec, rd: Reader)
      requires blockSize >= 5 && LoadedTo(img, i, k, fake, rd) && k < |Trim(img[i], blockSize).blocks|
      requires blocks == BlockOf(|store.data|, blockSize)
      ensures streams != []
      ensures Within(ReadsThrough(fake, rd.switched), rd.pos, blockSize) <==> Reachable(blockSize, i, k)
      ensures !Reachable(blockSize, i, k) ==> !Loadable(blockSize, img)
      ensures Reachable(blockSize, i, k) ==>
                IntAt(ReadsThrough(fake, rd.switched), store.data, blockSize, rd.pos)
                == Trim(img[i], blockSize).blocks[k] < blocks
    {
      hide Image, RecOffset, Loadable, Within, BytesAt, Stored;
      LoadedSource(img, i, k, fake, rd);
      SourceWithin(store.data, blockSize, img, i, k);
      if Reachable(blockSize, i, k) {
        SourceBlock(store.data, blockSize, img, i, k);
      } else {
        ReachableIsLoadable(store.data, blockSize, img, k);
      }
    }

    lemma BlockListed(img: seq<Rec>, before: seq<Rec>, i: nat, k: nat, fake: Rec, rd: Reader, rd': Reader)
      requires blockSize >= 5 && i < |img| && k < |Trim(img[i], blockSize).blocks| && Image(store.data, blockSize, img)
      requires before == Partial(TrimAll(img, blockSize), i, k) && fake == FakeHeader(blockSize)
      requires rd.switched <==> i > 0 || k >= BootBlocks(blockSize)
      requires rd.pos == RecOffset(TrimAll(img, blockSize), i) + 8 + 4 * k
      requires Reachable(blockSize, i, k)
      requires i > 0 || k > BootBlocks(blockSize) ==> Loadable(blockSize, img)
      requires streams == before[i := before[i].(blocks := before[i].blocks + [Trim(img[i], blockSize).blocks[k]])]
      requires rd'.switched == (rd.switched || (i == 0 && k == BootBlocks(blockSize) - 1)) && rd'.pos == rd.pos + 4
      ensures LoadedTo(img, i, k + 1, fake, rd')
    {
      hide Image, RecOffset;
      PartialSteps(TrimAll(img, blockSize), i, k);
      ImageCovers(store.data, blockSize, img);
    }
  }

  // ---- What one handle's work means for the others ----

  lemma SameOutsideWider(a: map<nat, Block>, b: map<nat, Block>, c: map<nat, Block>, bs: seq<nat>, bs': seq<nat>)
    requires SameOutside(a, b, bs) && SameOutside(b, c, bs') && bs <= bs'
    ensures SameOutside(a, c, bs')
  {
    assert forall x :: x in bs ==> x in bs';
  }

  lemma TouchedBlocks(a: seq<Rec>, b: seq<Rec>, i: nat)
    requires Touched(a, b, i)
    ensures i < |a| && |b| == |a| && a[i].blocks <= b[i].blocks
  {
  }

  lemma TouchedAgain(a: seq<Rec>, b: seq<Rec>, c: seq<Rec>, i: nat)
    requires Touched(a, b, i) && Touched(b, c, i)
    ensures Touched(a, c, i)
  {
  }

  /** A covered stream lists every block a read needs. */
  lemma ReadNeeds(m: Meta, i: nat, pos: nat, n: nat, block: nat)
    requires Sound(m, block) && i < |m.recs|
    ensures InRange(m.recs[i].blocks, m.blocks)
    ensures Available(m.recs[i].size, pos, n) == 0
         || pos + Available(m.recs[i].size, pos, n) <= Span(|m.recs[i].blocks|, block)
  {
    RangesOf(m, block);
  }

  /** Work on stream `i` leaves a handle on another stream `j` with what it holds. */
  lemma OthersKeepHolding(recs: seq<Rec>, recs': seq<Rec>, i: nat, j: nat, n: nat, free: seq<nat>,
                          active: map<nat, Block>, active': map<nat, Block>, cur: Option<nat>)
    requires Touched(recs, recs', i) && j < |recs| && j != i && Partition(n, free, recs')
    requires SameOutside(active, active', recs'[i].blocks)
    requires Holds(active, recs[j].blocks, cur)
    ensures Holds(active', recs'[j].blocks, cur)
  {
    PartitionMeaning(n, free, recs');
    hide Partition;
    assert recs'[j] == recs[j];
    forall b | b in recs[j].blocks
      ensures b !in recs'[i].blocks
    {
    }
  }

  /** Halfway through a write of `buf` at `start`: between `a` and `b` the first `done` bytes were written. */
  ghost predicate Progress(a: Snapshot, b: Snapshot, i: nat, buf: seq<byte>, done: nat, start: nat, cur: Option<nat>)
  {
    && done <= |buf| && Touched(a.meta.recs, b.meta.recs, i)
    && Wrote(a.bytes, b.bytes, i, start, buf[..done])
    && Holds(b.active, b.meta.recs[i].blocks, cur)
    && SameOutside(a.active, b.active, b.meta.recs[i].blocks)
    && Drift(b.meta) == Drift(a.meta)
    && (start + done <= a.meta.recs[i].size ==> b.meta == a.meta && b.changed == a.changed) && Noted(a, b)
  }

  lemma ProgressParts(a: Snapshot, b: Snapshot, i: nat, buf: seq<byte>, done: nat, start: nat, cur: Option<nat>)
    requires Progress(a, b, i, buf, done, start, cur)
    ensures i < |b.meta.recs| && done <= |buf| && Holds(b.active, b.meta.recs[i].blocks, cur)
  {
  }

  lemma NothingWritten(a: Snapshot, i: nat, buf: seq<byte>, start: nat, cur: Option<nat>)
    requires i < |a.meta.recs| && Wrote(a.bytes, a.bytes, i, start, []) && Holds(a.active, a.meta.recs[i].blocks, cur)
    ensures Progress(a, a, i, buf, 0, start, cur)
  {
    hide Wrote, Holds, Drift;
    assert buf[..0] == [];
  }

  /** What a finished write amounts to. */
  lemma ProgressDone(a: Snapshot, b: Snapshot, i: nat, buf: seq<byte>, start: nat, cur: Option<nat>)
    requires Progress(a, b, i, buf, |buf|, start, cur)
    requires |a.bytes| == |a.meta.recs| && |b.bytes| == |b.meta.recs| && |a.bytes[i]| == a.meta.recs[i].size
    requires |b.bytes[i]| == b.meta.recs[i].size
    ensures Touched(a.meta.recs, b.meta.recs, i) && Wrote(a.bytes, b.bytes, i, start, buf) && Noted(a, b)
    ensures Holds(b.active, b.meta.recs[i].blocks, cur) && SameOutside(a.active, b.active, b.meta.recs[i].blocks)
    ensures Drift(b.meta) == Drift(a.meta)
    ensures start + |buf| <= a.meta.recs[i].size ==> b.meta == a.meta && b.changed == a.changed
    ensures buf != [] ==>
              (b.meta.recs[i].size == Max(a.meta.recs[i].size, start + |buf|) <==> start <= a.meta.recs[i].size)
    ensures |b.meta.recs| == |a.meta.recs| && b.meta.recs == a.meta.recs[i := b.meta.recs[i]]
    ensures b.meta.recs[i].id == a.meta.recs[i].id
    ensures i != 0 ==> b.meta.recs[0] == a.meta.recs[0] && b.bytes[0] == a.bytes[0]
  {
    assert buf[..|buf|] == buf;
    hide Holds, SameOutside, Drift, Noted;
    WrittenSize(a.bytes, b.bytes, i, start, buf);
  }

  lemma ProgressMore(a: Snapshot, b: Snapshot, c: Snapshot, i: nat, buf: seq<byte>, done: nat, k: nat, start: nat,
                     cur: Option<nat>, x: nat)
    requires Progress(a, b, i, buf, done, start, cur)
    requires done + k <= |buf|
    requires ChunkWritten(b, c, i, start + done, buf[done..][..k], x)
    ensures Progress(a, c, i, buf, done + k, start, Some(x))
  {
    assert buf[..done] + buf[done..][..k] == buf[..done + k];
    hide Holds;
    WroteMore(a.bytes, b.bytes, c.bytes, i, start, buf[..done], buf[done..][..k]);
    TouchedAgain(a.meta.recs, b.meta.recs, c.meta.recs, i);
    hide Wrote, Drift, Touched;
    SameOutsideWider(a.active, b.active, c.active, b.meta.recs[i].blocks, c.meta.recs[i].blocks);
  }

  /** An open handle on one stream: a position, and at most one block of the stream in memory. */
  class MyriadStream {
    const myriad: Myriad
    const id: int
    var cur: Option<nat>
    var pos: nat

    /** A handle on the stream with this id, which has no block in memory yet. */
    constructor (myriad: Myriad, id: int)
      requires !Fresh(myriad.streams, id)
      ensures this.myriad == myriad && this.id == id && cur == None && pos == 0
    {
      this.myriad, this.id, cur, pos := myriad, id, None, 0;
    }

    /** The place of the handle's stream. */
    ghost function At(): (i: nat)
      requires !Fresh(myriad.streams, id)
      reads this, myriad
      ensures i < |myriad.streams| && myriad.streams[i].id == id
    {
      Spot(myriad.streams, id)
    }

    ghost predicate Attached()
      reads this, myriad
    {
      HeldBy(myriad.streams, myriad.active, id, cur)
    }

    /** Ids are distinct, so a stream has only one place. */
    lemma OnlyPlace(i: nat)
      requires Increasing(myriad.streams) && i < |myriad.streams| && myriad.streams[i].id == id
      ensures !Fresh(myriad.streams, id) && At() == i
    {
    }

    /** The handle's stream, as an index. */
    method Locate() returns (i: nat)
      requires myriad.Valid() && Attached()
      ensures i == At()
    {
      var found := myriad.FindStream(id);
      i := found.value;
      OnlyPlace(i);
    }

    method Read(n: int) returns (data: seq<byte>)
      requires myriad.Valid() && Attached()
      modifies `cur, `pos, myriad`active, myriad.store
      ensures myriad.Valid() && Attached() && myriad.Bytes() == old(myriad.Bytes())
      ensures data == Slice(myriad.Bytes()[At()], old(pos), Count(n)) && pos == old(pos) + |data|
      ensures old(myriad.HeaderKept()) ==> myriad.HeaderKept()
      ensures SameOutside(old(myriad.active), myriad.active, myriad.streams[At()].blocks)
    {
      var i := Locate();
      var r := myriad.streams[i];
      ReadNeeds(myriad.Meta(), i, pos, Count(n), myriad.blockSize);
      ReadIsSlice(r, myriad.Cells(), myriad.blockSize, pos, Count(n));
      assert myriad.blockSize > 0;
      ghost var m, active := myriad.Meta(), myriad.active;
      hide Sound, Contents, View, Coherent, SameOutside, Slice, BytesAt, Holds;
      var result;
      cur, result := myriad.ReadRec(r, cur, pos, Count(n));
      StaysIdle(m, myriad.blockSize, i, active, myriad.active);
      data := result.value;
      pos := pos + |data|;
    }

    method WriteStep(i: nat, buf: seq<byte>, done: nat, ghost start: nat, ghost begin: Snapshot) returns (done': nat)
      requires myriad.Valid() && Progress(begin, myriad.Here(), i, buf, done, start, cur)
      requires done < |buf| && pos == start + done
      modifies `cur, `pos, myriad.store
      modifies myriad`free, myriad`blocks, myriad`used, myriad`headerChanged, myriad`streams, myriad`active
      ensures myriad.Valid() && Progress(begin, myriad.Here(), i, buf, done', start, cur)
      ensures done < done' <= |buf| && pos == start + done'
    {
      hide Myriad.Valid, Sound, Contents, View, Coherent, Holds, Progress, ChunkWritten;
      ghost var before, cur0 := myriad.Here(), cur;
      ProgressParts(begin, before, i, buf, done, start, cur);
      var b, k := myriad.WriteChunk(i, cur, pos, buf[done..]);
      cur := Some(b);
      pos := pos + k;
      done' := done + k;
      ProgressMore(begin, before, myriad.Here(), i, buf, done, k, start, cur0, b);
    }

    method Write(buf: seq<byte>) returns (written: nat)
      requires myriad.Valid() && Attached()
      modifies `cur, `pos, myriad.store
      modifies myriad`free, myriad`blocks, myriad`used, myriad`headerChanged, myriad`streams, myriad`active
      ensures myriad.Valid() && Attached() && written == |buf| && pos == old(pos) + |buf|
      ensures At() == old(At())
      ensures Wrote(old(myriad.Bytes()), myriad.Bytes(), At(), old(pos), buf)
      // The file-like law for the new size holds exactly for a write that starts at or before the end.
      ensures buf != [] ==>
                (myriad.streams[At()].size == Max(old(myriad.streams[At()].size), pos)
                 <==> old(pos) <= old(myriad.streams[At()].size))
      ensures Touched(old(myriad.streams), myriad.streams, At())
      ensures SameOutside(old(myriad.active), myriad.active, myriad.streams[At()].blocks)
      // Overwriting takes no block.
      ensures pos <= old(myriad.streams[At()].size) ==>
                myriad.Meta() == old(myriad.Meta()) && myriad.headerChanged == old(myriad.headerChanged)
      ensures Noted(old(myriad.Here()), myriad.Here())
      ensures Drift(myriad.Meta()) == old(Drift(myriad.Meta()))
      ensures id != 0 && old(myriad.HeaderKept()) ==> myriad.HeaderKept()
    {
      hide Sound, Contents, View, Coherent, Holds, Drift, HeaderGood, SameOutside, Touched, Wrote, Noted, Progress;
      var i := Locate();
      ghost var start, begin := pos, myriad.Here();
      FirstIsZero(begin.meta, myriad.blockSize);
      myriad.BytesSize(begin.meta, i);
      WriteAll(i, buf);
      ProgressParts(begin, myriad.Here(), i, buf, |buf|, start, cur);
      myriad.BytesSize(myriad.Meta(), i);
      ProgressDone(begin, myriad.Here(), i, buf, start, cur);
      SameIds(begin.meta.recs, myriad.streams, i, id);
      OnlyPlace(i);
      if id != 0 && old(myriad.HeaderKept()) {
        myriad.StillKept(begin);
      }
      written := |buf|;
    }

    /** Write `buf` to the `i`-th stream, block by block. */
    method WriteAll(i: nat, buf: seq<byte>)
      requires myriad.Valid() && i < |myriad.streams| && Holds(myriad.active, myriad.streams[i].blocks, cur)
      modifies `cur, `pos, myriad.store
      modifies myriad`free, myriad`blocks, myriad`used, myriad`headerChanged, myriad`streams, myriad`active
      ensures myriad.Valid() && pos == old(pos) + |buf|
      ensures Progress(old(myriad.Here()), myriad.Here(), i, buf, |buf|, old(pos), cur)
    {
      ghost var start, begin := pos, myriad.Here();
      WroteNothing(begin.bytes, i, pos);
      assert buf[..0] == [];
      hide Sound, Contents, View, Coherent, Holds, Drift, SameOutside, Touched, Wrote, Noted;
      NothingWritten(begin, i, buf, start, cur);
      hide Progress;
      var done := 0;
      while done < |buf|
        invariant 0 <= done <= |buf| && pos == start + done
        invariant myriad.Valid() && Progress(begin, myriad.Here(), i, buf, done, start, cur)
      {
        done := WriteStep(i, buf, done, start, begin);
      }
    }

    method SetSize(n: int)
      requires myriad.Valid() && Attached()
      modifies `pos, myriad.store
      modifies myriad`free, myriad`blocks, myriad`used, myriad`headerChanged, myriad`streams
      ensures !Fresh(myriad.streams, id) && At() == old(At())
      ensures myriad.Meta() == Resize(old(myriad.Meta()), At(), Count(n), myriad.blockSize)
      ensures Resized(old(myriad.Bytes()), myriad.Bytes(), At(), Count(n))
      ensures pos == if old(pos) > Count(n) then Count(n) else old(pos)
      ensures Drift(myriad.Meta()) == old(Drift(myriad.Meta()))
      ensures id != 0 && old(myriad.HeaderKept()) ==> myriad.HeaderKept()
      // The handle stays usable exactly when its block in memory is not among those given back.
      ensures myriad.Valid() && Attached() <==>
              KeepsBlock(old(myriad.streams[At()]), Count(n), myriad.blockSize, cur)
    {
      hide Sound, Contents, View, Coherent, Holds, Drift, Resize, HeaderGood, KeepsBlock;
      var i := Locate();
      var size := if n < 0 then 0 else n;
      ghost var m, begin := myriad.Meta(), myriad.Here();
      FirstIsZero(m, myriad.blockSize);
      myriad.ActiveInUse();
      SizeDone(m, i, size, myriad.blockSize, myriad.active, cur);
      ResizeIds(m, i, size, myriad.blockSize);
      if size == m.recs[i].size {
        ResizeSame(m, i, size, myriad.blockSize);
      }
      myriad.SetStreamSize(i, size);
      SameIds(m.recs, myriad.streams, i, id);
      if id != 0 && old(myriad.HeaderKept()) {
        myriad.StillKept(begin);
      }
      if pos > size {
        pos := size;
      }
    }

    method Seek(offset: int)
      requires pos + offset >= 0
      modifies `pos
      ensures pos == old(pos) + offset
    {
      pos := pos + offset;
    }

    method SetPos(p: nat)
      modifies `pos
      ensures pos == p
    {
      pos := p;
    }

    /** Go to a position counted from the end. */
    method SetPosEnd(p: int)
      requires myriad.Valid() && Attached() && myriad.streams[At()].size - p >= 0
      modifies `pos
      ensures pos == |myriad.Bytes()[At()]| - p
    {
      var i := Locate();
      pos := myriad.streams[i].size - p;
    }

    /** Dropping the handle writes its block back. */
    method Close()
      requires myriad.Valid() && Attached()
      modifies `cur, myriad`active, myriad.store
      ensures myriad.Valid() && Attached() && cur == None && myriad.Bytes() == old(myriad.Bytes())
      ensures old(myriad.HeaderKept()) ==> myriad.HeaderKept()
      ensures SameOutside(old(myriad.active), myriad.active, myriad.streams[At()].blocks)
    {
      if cur.Some? {
        myriad.ReleaseBlock(cur.value);
        cur := None;
      }
    }
  }
}
