/** What happens when a block that is given back is still in memory: with blocks of 16 bytes, a stream of 20 bytes is
    cut to nothing while its second block is in memory, another stream takes that block, and dropping the first
    stream's handle overwrites what the other one wrote. */
module MyriadHazard {
  import opened BlockMath
  import opened Bytes
  import opened Myriad
  import opened MyriadHeader
  import opened MyriadLayout
  import opened MyriadMeta
  import opened Store
  import opened Wrappers

  // ---- The arrangements, one after the other ----

  const HEADER := Rec(0, 30, [0, 1])

  function Formatted(): Meta { Meta(2, [], 3, [HEADER]) }

  /** One stream with as many blocks. */
  function Begun(blocks: seq<nat>): Meta { Meta(2 + |blocks|, [], 3 + |blocks|, [HEADER, Rec(1, 0, blocks)]) }

  /** It has 20 bytes in two blocks. */
  function Long(): Meta { Meta(4, [], 5, [HEADER, Rec(1, 20, [2, 3])]) }

  /** It was cut to nothing and keeps its first block. */
  function Cut(): Meta { Meta(4, [3], 4, [HEADER, Rec(1, 0, [2])]) }

  /** There is a second stream. */
  function Second(): Meta { Meta(4, [3], 4, [HEADER, Rec(1, 0, [2]), Rec(2, 0, [])]) }

  /** It has taken the other block, for as many bytes. */
  function Taken(size: nat): Meta { Meta(4, [], 5, [HEADER, Rec(1, 0, [2]), Rec(2, size, [3])]) }

  lemma FormattedIs(m: Meta)
    requires m.recs == FreshRecs(16) && m.blocks == BootBlocks(16) && m.free == FreshFree(BootBlocks(16), 0)
    requires Drift(m) == 1
    ensures m == Formatted()
  {
    NoRoomAt16();
    OwnedSplit(m.recs, 0);
    assert m.free == [];
    assert m.recs[0] == HEADER;
  }

  lemma FirstSteps()
    ensures Create(Formatted(), 1, 1, 0) == Begun([])
    ensures TakeFor(Begun([]), 1) == Begun([2]) && TakeFor(Begun([2]), 1) == Begun([2, 3])
    ensures WithSize(Begun([2, 3]), 1, 20) == Long()
  {
    assert [HEADER][..1] + [Rec(1, 0, [])] + [HEADER][1..] == [HEADER, Rec(1, 0, [])];
    var none: seq<nat> := [];
    assert none + [2] == [2] && [2] + [3] == [2, 3];
    assert TakeFor(Begun([]), 1).recs == Begun([2]).recs && TakeFor(Begun([2]), 1).recs == Begun([2, 3]).recs;
  }

  lemma LongIsSound()
    requires Sound(Begun([]), 16)
    ensures Sound(Long(), 16)
  {
    hide Partition, Owned, Drift, TakeFor;
    FirstSteps();
    TakeForSound(Begun([]), 1, 16);
    TakeForSound(Begun([2]), 1, 16);
    assert Span(1, 16) == 16 && Span(2, 16) == 32;
    WithSizeSound(Begun([2, 3]), 1, 20, 16);
  }

  lemma LaterSteps()
    ensures Resize(Long(), 1, 0, 16) == Cut() && Create(Cut(), 2, 2, 0) == Second()
    ensures TakeFor(Second(), 2) == Taken(0) && WithSize(Taken(0), 2, 1) == Taken(1)
  {
    assert Span(1, 16) == 16 && Span(0, 16) == 0;
    var t := GiveLast(Long(), 1);
    assert t.recs[1].blocks == [2] && t.free == [3];
    assert ShrinkTo(t, 1, 0, 16) == t && ShrinkTo(Long(), 1, 0, 16) == t;
    assert Resize(Long(), 1, 0, 16).recs == Cut().recs;
    assert Cut().recs[..2] + [Rec(2, 0, [])] + Cut().recs[2..] == Second().recs;
    assert [] + [3] == [3];
    assert TakeFor(Second(), 2).recs == Taken(0).recs;
  }

  // ---- The run ----

  /** A store with one empty stream. */
  method MakeStream(store: Store) returns (m: Myriad)
    modifies store
    ensures fresh(m) && m.store == store && m.Valid() && m.blockSize == 16 && m.Meta() == Begun([]) && m.active == map[]
  {
    hide Sound, Coherent, View, Contents, Drift, HeaderGood, Create, BootBlocks;
    m := new Myriad(store);
    m.Format(16, 0);
    FormattedIs(m.Meta());
    FirstSteps();
    var id := m.CreateStream(0);
  }

  /** Block 3 alone is in memory, changed, and begins with a 7. */
  ghost predicate HasSeven(active: map<nat, Block>)
    ensures HasSeven(active) ==> 3 in active
  {
    active.Keys == {3} && active[3].changed && |active[3].data| == 16 && active[3].data[0] == 7
  }

  lemma SevenIn(data: seq<byte>, n: nat, active: map<nat, Block>)
    requires Coherent(data, 16, n, active) && active.Keys == {3} && active[3].changed && active[3].data[0..0 + 1] == [7]
    ensures HasSeven(active)
  {
    assert active[3].data[0] == active[3].data[0..0 + 1][0];
  }

  /** It gets 20 bytes and has its second block in memory, which begins with a 7. */
  method MakeLong(m: Myriad)
    requires m.Valid() && m.blockSize == 16 && m.Meta() == Begun([]) && m.active == map[]
    modifies m, m.store
    ensures m.Valid() && m.blockSize == 16 && m.Meta() == Long() && HasSeven(m.active)
  {
    hide Sound, Coherent, View, Contents, Drift, TakeFor, WithSize, SameOutside, StoreBlock, HasSeven;
    LongIsSound();
    FirstSteps();
    var b := m.StreamAddBlock(1);
    b := m.StreamAddBlock(1);
    m.GetBlock(3);
    FirstByteFits(m.store.data, 4, m.active);
    m.CopyIn(3, 0, [7]);
    SevenIn(m.store.data, 4, m.active);
    m.GrowSize(1, 0, 20);
  }

  lemma FirstByteFits(data: seq<byte>, n: nat, active: map<nat, Block>)
    requires Coherent(data, 16, n, active) && 3 in active
    ensures |active[3].data| == 16
  {
  }

  /** Cutting the stream gives back the block in memory, and the state is valid no more. A second stream takes the
      block and stores a 9 in it. */
  method CutAndTake(m: Myriad)
    requires m.Valid() && m.blockSize == 16 && m.Meta() == Long() && HasSeven(m.active)
    modifies m, m.store
    ensures m.CacheOk() && m.blockSize == 16 && m.Meta() == Taken(1) && HasSeven(m.active)
    ensures Flat(m.streams[2], Stored(m.store.data, 16), 16) == [9]
  {
    hide Sound, Coherent, View, Contents, Drift, TakeFor, WithSize, Create, Resize, Resized, StoreBlock;
    hide Rewritten, Flat;
    LaterSteps();
    m.SetStreamSize(1, 0);
    assert 3 in m.active && 3 in m.free && !m.Valid();
    m.InsertStream(2, 2, 0);
    var b := m.StreamAddBlock(2);
    m.GrowSize(2, 0, 1);
    var nines := seq<byte>(16, _ => 9);
    SecondBlock(m.store.data, nines, m.active);
    m.store.SetPos(Span(3, 16));
    m.store.Write(nines);
  }

  /** The second stream's own copy of the block is written to the store. */
  lemma SecondBlock(data: seq<byte>, d: seq<byte>, active: map<nat, Block>)
    requires Coherent(data, 16, 4, active) && HasSeven(active) && |d| == 16 && d[0] == 9
    ensures Span(3, 16) <= |data| && Padded(data, Span(3, 16)) == data
    ensures var now := Splice(data, Span(3, 16), d);
            Coherent(now, 16, 4, active) && Flat(Rec(2, 1, [3]), Stored(now, 16), 16) == [9]
  {
    var now := Splice(data, Span(3, 16), d);
    WriteRewrites(data, 16, 4, 3, d);
    StoredByte(now, 4);
  }

  lemma StoredByte(data: seq<byte>, n: nat)
    requires n >= 4 && Span(n, 16) <= |data|
    ensures |StoreBlock(data, 16, 3)| == 16
    ensures Flat(Rec(2, 1, [3]), Stored(data, 16), 16) == [StoreBlock(data, 16, 3)[0]]
  {
    StoreBlockInside(data, 16, n, 3);
    SpanMonotone(4, n, 16);
    BlockIndex(Span(3, 16), BlockOf(|data|, 16), 16);
    SpanSplit(|data|, 16);
  }

  lemma Dropped(data: seq<byte>, active: map<nat, Block>, data': seq<byte>, active': map<nat, Block>)
    requires HasSeven(active) && Coherent(data', 16, 4, active') && 3 !in active'
    requires View(data', 16, 4, active') == View(data, 16, 4, active)
    ensures Flat(Rec(2, 1, [3]), Stored(data', 16), 16) == [7]
  {
    StoredByte(data', 4);
    assert View(data', 16, 4, active')[3] == View(data, 16, 4, active)[3];
  }

  /** Dropping the first stream's handle writes the block back, over what the second stream stored. */
  method Overwritten(store: Store) returns (m: Myriad)
    modifies store
    ensures fresh(m) && m.store == store && m.blockSize == 16 && m.Meta() == Taken(1)
    ensures Flat(m.streams[2], Stored(store.data, 16), 16) == [7]
  {
    hide Coherent, View, Contents, Stored, Flat, Clean, HasSeven, Sound;
    m := MakeStream(store);
    MakeLong(m);
    CutAndTake(m);
    ghost var data, active := store.data, m.active;
    m.ReleaseBlock(3);
    Dropped(data, active, store.data, m.active);
  }
}
