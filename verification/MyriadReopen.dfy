/** Opening a store: what was synced comes back, and an empty store is formatted. */
module MyriadReopen {
  import opened BlockMath
  import opened Bytes
  import opened MyriadFormat
  import opened MyriadHeader
  import opened MyriadLayout
  import opened MyriadMeta
  import opened Myriad
  import opened Store
  import opened Wrappers

  /** Open the Myriad in `store`, or make one there when the store is empty. `img` are the streams of `saved`-byte
      blocks that the store holds, if it is an image of some. */
  method Open(store: Store, block: nat, preallocate: nat, ghost saved: nat, ghost img: seq<Rec>)
    returns (m: Myriad, r: Outcome<MyriadError>)
    requires block >= 5
    modifies store
    ensures fresh(m) && m.store == store
    ensures |old(store.data)| < 4 ==>
              && r.Pass? && m.Valid() && m.HeaderKept()
              && m.blockSize == block && m.streams == FreshRecs(block) && m.active == map[]
              && Layout(store.data, block, FreshRecs(block))
              && m.blocks == BootBlocks(block) + preallocate && m.free == FreshFree(BootBlocks(block), preallocate)
    ensures |old(store.data)| >= 4 ==> store.data == old(store.data)
    ensures |old(store.data)| >= 4 && store.data[..4] != [0x0a, 0xd3, 0xfa, 0x84] ==> r == Fail(InvalidFormat)
    ensures Image(old(store.data), saved, img) ==> (r.Pass? <==> Loadable(saved, img))
    ensures r.Pass? && Image(old(store.data), saved, img) ==> Reads(m, saved, img)
  {
    hide Image, Loadable, Contents, Sound, HeaderGood, Coherent, View, Drift, TrimAll, Layout, FreshFree;
    m := new Myriad(store);
    if Image(store.data, saved, img) {
      ImagePreamble(store.data, saved, img);
    }
    r := m.Load(saved, img);
    if r == Fail(EmptyStream) {
      m.Format(block, preallocate);
      r := Pass;
    }
  }

  /** What an image is, in numbers: its header stream is laid out as the format has it. */
  lemma ImageInNumbers(data: seq<byte>, block: nat, recs: seq<Rec>)
    ensures Image(data, block, recs) <==>
            && block >= 5 && Ordered(recs) && AllCovered(recs, block) && Fits32(block, recs)
            && OwnedOnce(BlockOf(|data|, block), recs)
            && Bootable(block, recs) && recs[0].size >= 22 + 4 * BootBlocks(block)
            && Layout(Flat(recs[0], Stored(data, block), block), block, TrimAll(recs, block))
  {
    hide HeaderBytes, Layout, Flat, Stored, TrimAll, Fits32, OwnedOnce, Bootable;
    if block >= 5 && recs != [] {
      LayoutExactly(Flat(recs[0], Stored(data, block), block), block, TrimAll(recs, block));
    }
  }

  /** A store of one block of 64 bytes, byte by byte, is loaded as one header stream of 26 bytes. */
  method OpenLiteral(store: Store) returns (m: Myriad, r: Outcome<MyriadError>)
    requires |store.data| == 64
    requires store.data[..26] == [0x0a, 0xd3, 0xfa, 0x84, 1, 32, 64, 0, 0, 0, 1, 0, 0, 0,
                                  0, 0, 0, 0, 26, 0, 0, 0, 0, 0, 0, 0]
    modifies store
    ensures r.Pass? && m.Valid() && m.blockSize == 64 && m.streams == [Rec(0, 26, [0])] && m.free == []
  {
    hide Image, Loadable, Contents, Sound, Coherent, View, Drift, TrimAll, Reads;
    ghost var recs := [Rec(0, 26, [0])];
    LiteralIsImage(store.data);
    DocumentedSizeLoads(store.data, 64, recs);
    m, r := Open(store, 64, 0, 64, recs);
    LiteralParts(m);
  }

  lemma LiteralIsImage(data: seq<byte>)
    requires |data| == 64
    requires data[..26] == [0x0a, 0xd3, 0xfa, 0x84, 1, 32, 64, 0, 0, 0, 1, 0, 0, 0, 0, 0, 0, 0, 26, 0, 0, 0, 0, 0, 0, 0]
    ensures Image(data, 64, [Rec(0, 26, [0])])
  {
    hide FieldAt, HeaderBytes, Layout;
    var recs := [Rec(0, 26, [0])];
    RoomFrom30(64);
    LiteralTrim();
    assert BlockOf(64, 64) == 1 && Span(1, 64) == 64;
    LiteralBytes(data);
    LiteralLayout(data[..26]);
    LayoutExactly(data[..26], 64, recs);
    OwnedOne(recs[0]);
  }

  lemma LiteralTrim()
    ensures var recs := [Rec(0, 26, [0])]; TrimAll(recs, 64) == recs
  {
    assert BlkDiv(26, 64) == 1;
    var b: seq<nat> := [0];
    assert b[..1] == b;
  }

  lemma LiteralBytes(data: seq<byte>)
    requires |data| == 64
    ensures Flat(Rec(0, 26, [0]), Stored(data, 64), 64) == data[..26]
  {
    assert BlockOf(64, 64) == 1 && Span(1, 64) == 64;
    var b: seq<nat> := [0];
    forall p: nat | p < 26
      ensures ByteAt(b, Stored(data, 64), 64, p) == data[p]
    {
      assert b[..1] == Iota(1);
      BootByte(data, 64, 1, b, 1, p);
    }
  }

  lemma LiteralFields(h: seq<byte>)
    requires h == [0x0a, 0xd3, 0xfa, 0x84, 1, 32, 64, 0, 0, 0, 1, 0, 0, 0, 0, 0, 0, 0, 26, 0, 0, 0, 0, 0, 0, 0]
    ensures h[..6] == [0x0a, 0xd3, 0xfa, 0x84, 1, 32] && FieldAt(h, 6, 64) && FieldAt(h, 10, 1)
    ensures FieldAt(h, 14, 0) && FieldAt(h, 18, 26) && FieldAt(h, 22, 0)
  {
  }

  lemma LiteralLayout(h: seq<byte>)
    requires h == [0x0a, 0xd3, 0xfa, 0x84, 1, 32, 64, 0, 0, 0, 1, 0, 0, 0, 0, 0, 0, 0, 26, 0, 0, 0, 0, 0, 0, 0]
    ensures Layout(h, 64, [Rec(0, 26, [0])])
  {
    hide FieldAt;
    var recs := [Rec(0, 26, [0])];
    LiteralFields(h);
    assert Start(recs, 0) == 14 && Start(recs, 1) == 26;
    assert RecordAt(h, 14, recs[0]);
  }

  lemma LiteralParts(m: Myriad)
    requires Reads(m, 64, [Rec(0, 26, [0])]) && |m.store.data| == 64
    ensures m.Valid() && m.blockSize == 64 && m.streams == [Rec(0, 26, [0])] && m.free == []
  {
    hide Coherent, View, Contents, HeaderGood, Owned;
    LiteralTrim();
    assert BlockOf(64, 64) == 1;
    PartitionSize(m.blocks, m.free, m.streams);
    OwnedOne(m.streams[0]);
  }

  /** `m` has loaded exactly the streams `img`: ids, sizes, the blocks in use and the bytes, with every other
      block free, in order. */
  ghost predicate Reads(m: Myriad, block: nat, img: seq<Rec>)
    requires block > 0
    reads m, m.store
  {
    && m.Valid() && m.blockSize == block && m.blocks == BlockOf(|m.store.data|, block)
    && m.active == map[] && Drift(m.Meta()) == 0 && m.HeaderKept()
    && m.streams == TrimAll(img, block)
    && m.Bytes() == Contents(img, Stored(m.store.data, block), block)
    && (forall i, j :: 0 <= i < j < |m.free| ==> m.free[i] < m.free[j])
  }

  /** Write everything back and open the same store again. */
  method Reopen(m: Myriad) returns (again: Myriad, r: Outcome<MyriadError>)
    requires m.Valid() && m.HeaderKept() && Holds(m.active, m.streams[0].blocks, None)
    requires m.store.writable
    modifies m, m.store
    // No stream is lost: the header takes the blocks it needs, the others' bytes stay.
    ensures m.Valid() && m.HeaderKept() && Touched(old(m.streams), m.streams, 0)
    ensures m.Bytes() == old(m.Bytes())[0 := m.Bytes()[0]]
    ensures m.Meta() == After(old(m.Meta()), m.blockSize, old(m.headerChanged)) && m.blockSize == old(m.blockSize)
    // It opens exactly when the header's blocks can be read one after the other, which can be told before.
    ensures Fits32(m.blockSize, m.streams) ==>
              (r.Pass? <==> WillLoad(m.blockSize, old(m.streams), old(m.headerChanged)))
    // Then every stream is there, with its id, its size, its blocks in use and its bytes.
    ensures Fits32(m.blockSize, m.streams) && r.Pass? ==>
              && Reads(again, m.blockSize, m.streams) && again.Bytes() == m.Bytes()
              && SameStreams(m.streams, again.streams, m.blockSize)
  {
    hide Image, Loadable, Contents, Sound, HeaderGood, Coherent, View, Drift, TrimAll, Fits32, Touched, Holds;
    hide Reads, SameStreams, Clean, WillLoad;
    AfterLoads(m.Meta(), m.blockSize, m.headerChanged);
    m.Sync();
    ghost var data, bytes := m.store.data, m.Bytes();
    StoreNotEmpty(m);
    if Fits32(m.blockSize, m.streams) {
      SyncedIsImage(m);
    }
    again, r := Open(m.store, m.blockSize, 0, m.blockSize, m.streams);
    assert m.store.data == data && m.Bytes() == bytes;
    if Fits32(m.blockSize, m.streams) && r.Pass? {
      ReadsParts(again, m.blockSize, m.streams);
    }
  }

  /** The arrangement after a sync. */
  ghost function After(m: Meta, block: nat, changed: bool): Meta
    requires block >= 5 && m.recs != []
  {
    if changed then Synced(m, block) else m
  }

  lemma AfterLoads(m: Meta, block: nat, changed: bool)
    requires Sound(m, block) && Bootable(block, m.recs)
    ensures Bootable(block, After(m, block, changed).recs)
    ensures Loadable(block, After(m, block, changed).recs) <==> WillLoad(block, m.recs, changed)
  {
    SyncedLoads(m, block);
  }

  /** A store with one empty stream comes back exactly when the block size leaves room for one more block id. So with
      blocks of 16 bytes it is lost. */
  method OneStreamReopens(store: Store, block: nat) returns (again: Myriad, r: Outcome<MyriadError>)
    requires store.data == [] && store.writable && 5 <= block < 0x8000_0000
    modifies store
    ensures r.Pass? <==> RoomForNext(block)
    ensures block == 16 ==> r.Fail?
    ensures r.Pass? ==> again.Valid() && again.blockSize == block && |again.Bytes()| == 2 && again.Bytes()[1] == []
  {
    hide Image, Loadable, Contents, Sound, HeaderGood, Coherent, View, Drift, TrimAll, Fits32, RoomForNext, WillLoad;
    NoRoomAt16();
    var m := new Myriad(store);
    m.Format(block, 0);
    ghost var formatted := m.Meta();
    var id := m.CreateStream(0);
    ghost var before := m.Meta();
    OneStream(formatted, block, before);
    again, r := Reopen(m);
  }

  lemma OneStream(m: Meta, block: nat, m': Meta)
    requires 5 <= block < 0x8000_0000 && m.recs == FreshRecs(block) && m.blocks == BootBlocks(block)
    requires m' == Create(m, 1, 1, 0) && Sound(m', block)
    ensures Bootable(block, m'.recs) && (WillLoad(block, m'.recs, true) <==> RoomForNext(block))
    ensures Fits32(block, After(m', block, true).recs)
  {
    hide Sound, Loadable, Partition, Owned, HeaderNeed, TakeMany, Extends, Drift;
    var boot, r := BootBlocks(block), FreshRecs(block)[0];
    CreatedOne(m, r, m');
    OwnedOfOne(m'.recs);
    assert r.blocks[..boot] == Iota(boot);
    SmallHeader(block);
    var k := HeaderNeed(30 + 4 * boot, boot, block);
    assert HeaderSize(m'.recs) == 30 + 4 * boot;
    TakeManySound(m', 0, k, block);
    TakeManyOthers(m', 0, k, 1);
    TakeManyIds(m', 0, k);
    TakeManyBlocks(m', 0, k);
    RangesOf(TakeMany(m', 0, k), block);
  }

  lemma CreatedOne(m: Meta, r: Rec, m': Meta)
    requires m.recs == [r] && m' == Create(m, 1, 1, 0)
    ensures m'.recs == [r, Rec(1, 0, [])] && m'.blocks == m.blocks
  {
    assert [r][..1] + [Rec(1, 0, [])] + [r][1..] == [r, Rec(1, 0, [])];
  }

  lemma OwnedOfOne(recs: seq<Rec>)
    requires |recs| == 2 && recs[1].blocks == []
    ensures OwnedCount(recs) == |recs[0].blocks|
  {
    assert Owned(recs[1..]) == multiset{};
  }

  lemma {:induction false} TakeManyBlocks(m: Meta, i: nat, k: nat)
    requires i < |m.recs|
    ensures TakeMany(m, i, k).blocks <= m.blocks + k
    decreases k
  {
    if k > 0 {
      TakeManyBlocks(TakeFor(m, i), i, k - 1);
    }
  }

  /** The header of a store with one stream takes a few blocks only. */
  lemma SmallHeader(block: nat)
    requires block >= 5
    ensures BootBlocks(block) <= 22 && HeaderNeed(30 + 4 * BootBlocks(block), BootBlocks(block), block) <= 30
  {
    SpanAtLeast(22, block);
    assert HeaderFits(22, block);
    var boot := BootBlocks(block);
    var k := HeaderNeed(30 + 4 * boot, boot, block);
    HeaderNeedLeast(30 + 4 * boot, boot, block);
    SpanAtLeast(boot + 30, block);
    assert 30 + 4 * boot + 4 * 30 <= Span(boot + 30, block);
  }

  lemma {:induction false} SpanAtLeast(n: nat, block: nat)
    requires block >= 5
    ensures Span(n, block) >= 5 * n
  {
    if n > 0 {
      SpanAtLeast(n - 1, block);
    }
  }

  lemma StoreNotEmpty(m: Myriad)
    requires m.Valid() && m.HeaderKept()
    ensures |m.store.data| >= 4
  {
    hide HeaderBytes, TrimAll;
    var n, r := BootBlocks(m.blockSize), m.streams[0];
    assert r.blocks[n - 1] == r.blocks[..n][n - 1] == n - 1;
    RangesOf(m.Meta(), m.blockSize);
    SpanMonotone(n, m.blocks, m.blockSize);
  }

  lemma ReadsParts(m: Myriad, block: nat, img: seq<Rec>)
    requires block > 0 && Reads(m, block, img)
    ensures m.blockSize == block && m.streams == TrimAll(img, block)
    ensures m.Bytes() == Contents(img, Stored(m.store.data, block), block)
  {
  }

  /** The same ids and sizes in the same order, and of the blocks those that are in use. */
  ghost predicate SameStreams(recs: seq<Rec>, recs': seq<Rec>, block: nat)
    requires block > 0
  {
    && |recs'| == |recs|
    && forall i :: 0 <= i < |recs| ==>
         && recs'[i].id == recs[i].id && recs'[i].size == recs[i].size
         && recs'[i].blocks <= recs[i].blocks && |recs'[i].blocks| == BlkDiv(recs[i].size, block)
  }

  lemma TrimIsSame(recs: seq<Rec>, block: nat)
    requires block > 0 && AllCovered(recs, block)
    ensures SameStreams(recs, TrimAll(recs, block), block)
  {
    forall i | 0 <= i < |recs|
      ensures TrimAll(recs, block)[i].blocks <= recs[i].blocks
      ensures |TrimAll(recs, block)[i].blocks| == BlkDiv(recs[i].size, block)
    {
      TrimShorter(recs[i], block);
    }
  }

  /** After a sync the store is an image of the streams, and what it holds is what they hold. */
  lemma SyncedIsImage(m: Myriad)
    requires m.Valid() && m.HeaderKept() && !m.headerChanged && forall b :: b in m.active ==> !m.active[b].changed
    requires Fits32(m.blockSize, m.streams)
    ensures Image(m.store.data, m.blockSize, m.streams)
    ensures Contents(m.streams, Stored(m.store.data, m.blockSize), m.blockSize) == m.Bytes()
    ensures SameStreams(m.streams, TrimAll(m.streams, m.blockSize), m.blockSize)
  {
    hide HeaderBytes, TrimAll, Fits32, Bootable, SameStreams;
    FirstBytes(m.streams, m.Cells(), m.blockSize);
    SavedIsImage(m.store.data, m.blockSize, m.Meta(), m.active);
    TrimIsSame(m.streams, m.blockSize);
  }

  /** With the documented minimum of 30 bytes per block what was saved can always be loaded. */
  lemma DocumentedSizeLoads(data: seq<byte>, block: nat, recs: seq<Rec>)
    requires block >= 30 && Image(data, block, recs)
    ensures Loadable(block, recs)
  {
    RoomFrom30(block);
  }

  /** With 16-byte blocks it cannot once the header takes a third block. */
  lemma SixteenFails(recs: seq<Rec>)
    requires Bootable(16, recs)
    ensures Loadable(16, recs) <==> |Trim(recs[0], 16).blocks| <= 2
  {
    NoRoomAt16();
  }
}
