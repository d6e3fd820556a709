/** Any number of handles on a Myriad, at most one to a stream: what each operation leaves them with. */
module MyriadHandles {
  import opened Bytes
  import opened Myriad
  import opened MyriadLayout
  import opened MyriadMeta
  import opened Wrappers

  /** Some handle has this block in memory. */
  ghost predicate InHands(curs: map<int, Option<nat>>, b: nat)
  {
    exists id :: id in curs && curs[id] == Some(b)
  }

  /** Every handle holds what it may, `curs` giving its block by the stream's id, and nothing else is in memory. */
  ghost predicate AllHeld(recs: seq<Rec>, active: map<nat, Block>, curs: map<int, Option<nat>>)
  {
    && (forall id :: id in curs ==> id > 0 && HeldBy(recs, active, id, curs[id]))
    && (forall b :: b in active ==> InHands(curs, b))
  }

  /** A stream whose blocks stay as they are leaves its handle with what it holds. */
  lemma KeepsHeld(recs: seq<Rec>, recs': seq<Rec>, active: map<nat, Block>, j: nat, j': nat, cur: Option<nat>)
    requires Increasing(recs) && Increasing(recs') && j < |recs| && j' < |recs'|
    requires recs'[j'].id == recs[j].id && recs'[j'].blocks == recs[j].blocks
    ensures HeldBy(recs, active, recs[j].id, cur) <==> HeldBy(recs', active, recs[j].id, cur)
  {
    OnlySpot(recs, j);
    OnlySpot(recs', j');
  }

  /** A handle holds none of another stream's blocks. */
  lemma HoldsItsOwn(m: Meta, block: nat, active: map<nat, Block>, id: int, b: nat, i: nat)
    requires Sound(m, block) && HeldBy(m.recs, active, id, Some(b)) && i < |m.recs| && b in m.recs[i].blocks
    ensures m.recs[i].id == id
  {
    PartitionMeaning(m.blocks, m.free, m.recs);
  }

  /** No block of a stream without a handle is in memory. */
  lemma NotInMemory(m: Meta, block: nat, active: map<nat, Block>, curs: map<int, Option<nat>>, i: nat)
    requires Sound(m, block) && AllHeld(m.recs, active, curs) && i < |m.recs| && m.recs[i].id !in curs
    ensures forall b :: b in m.recs[i].blocks ==> b !in active
    ensures Holds(active, m.recs[i].blocks, None)
  {
    hide Sound, HeldBy;
    forall b | b in m.recs[i].blocks && b in active
      ensures false
    {
      assert InHands(curs, b);
      var id :| id in curs && curs[id] == Some(b);
      HoldsItsOwn(m, block, active, id, b, i);
    }
  }

  // ---- One lemma for each operation ----

  /** Work through the handle on one stream leaves a handle on another with what it holds. */
  lemma OtherHolds(m: Meta, m': Meta, block: nat, active: map<nat, Block>, active': map<nat, Block>, i: nat, other: int,
                   cur: Option<nat>)
    requires Sound(m, block) && Sound(m', block) && HeldBy(m.recs, active, other, cur)
    requires i < |m.recs| && m.recs[i].id != other
    requires Touched(m.recs, m'.recs, i) && SameOutside(active, active', m'.recs[i].blocks)
    ensures HeldBy(m'.recs, active', other, cur)
  {
    hide Partition, Holds, SameOutside;
    var j := Spot(m.recs, other);
    OnlySpot(m'.recs, j);
    OthersKeepHolding(m.recs, m'.recs, i, j, m'.blocks, m'.free, active, active', cur);
  }

  /** Reading, writing and closing through one handle leave all others with what they hold. */
  lemma AfterWork(m: Meta, m': Meta, block: nat, active: map<nat, Block>, active': map<nat, Block>,
                  curs: map<int, Option<nat>>, id: int, cur: Option<nat>)
    requires Sound(m, block) && Sound(m', block) && AllHeld(m.recs, active, curs) && id in curs
    requires !Fresh(m.recs, id)
    requires var i := Spot(m.recs, id);
             Touched(m.recs, m'.recs, i) && SameOutside(active, active', m'.recs[i].blocks)
    requires HeldBy(m'.recs, active', id, cur)
    ensures AllHeld(m'.recs, active', curs[id := cur])
  {
    hide Sound, HeldBy, Touched, SameOutside;
    var i := Spot(m.recs, id);
    forall other | other in curs && other != id
      ensures HeldBy(m'.recs, active', other, curs[other])
    {
      OtherHolds(m, m', block, active, active', i, other, curs[other]);
    }
    forall b | b in active'
      ensures InHands(curs[id := cur], b)
    {
      StillInHands(m, m', block, active, active', curs, id, cur, b);
    }
  }

  lemma StillInHands(m: Meta, m': Meta, block: nat, active: map<nat, Block>, active': map<nat, Block>,
                     curs: map<int, Option<nat>>, id: int, cur: Option<nat>, b: nat)
    requires Sound(m', block) && AllHeld(m.recs, active, curs) && id in curs && !Fresh(m.recs, id)
    requires var i := Spot(m.recs, id);
             Touched(m.recs, m'.recs, i) && SameOutside(active, active', m'.recs[i].blocks)
    requires HeldBy(m'.recs, active', id, cur) && b in active'
    ensures InHands(curs[id := cur], b)
  {
    hide Partition;
    var i := Spot(m.recs, id);
    OnlySpot(m'.recs, i);
    if b in m'.recs[i].blocks {
      assert id in curs[id := cur] && cur == Some(b);
    } else {
      assert InHands(curs, b);
      var k :| k in curs && curs[k] == Some(b);
      assert HeldBy(m.recs, active, k, curs[k]);
      assert k in curs[id := cur] && k != id;
    }
  }

  /** Resizing does, when the stream's own handle keeps its block. */
  lemma AfterResize(m: Meta, block: nat, active: map<nat, Block>, curs: map<int, Option<nat>>, id: int, n: nat)
    requires Sound(m, block) && AllHeld(m.recs, active, curs) && id in curs && !Fresh(m.recs, id)
    requires HeldBy(Resize(m, Spot(m.recs, id), n, block).recs, active, id, curs[id])
    ensures AllHeld(Resize(m, Spot(m.recs, id), n, block).recs, active, curs)
  {
    var i := Spot(m.recs, id);
    var m' := Resize(m, i, n, block);
    ResizeIds(m, i, n, block);
    ResizeSound(m, i, n, block);
    hide Resize, Partition;
    forall other | other in curs && other != id
      ensures HeldBy(m'.recs, active, other, curs[other])
    {
      var j := Spot(m.recs, other);
      KeepsHeld(m.recs, m'.recs, active, j, j, curs[other]);
    }
  }

  /** Creating a stream does. */
  lemma AfterCreate(m: Meta, block: nat, active: map<nat, Block>, curs: map<int, Option<nat>>, i: nat, id: int, k: nat)
    requires Sound(m, block) && AllHeld(m.recs, active, curs) && 0 < i <= |m.recs|
    requires m.recs[i - 1].id < id && (i < |m.recs| ==> id < m.recs[i].id)
    ensures AllHeld(Create(m, i, id, k).recs, active, curs)
  {
    var recs := m.recs[..i] + [Rec(id, 0, [])] + m.recs[i..];
    var m' := Create(m, i, id, k);
    CreateSound(m, i, id, k, block);
    forall other | other in curs
      ensures HeldBy(m'.recs, active, other, curs[other])
    {
      var j := Spot(m.recs, other);
      var j' := if j < i then j else j + 1;
      assert recs[j'] == m.recs[j];
      TakeManyOthers(m.(recs := recs), i, k, j');
      KeepsHeld(m.recs, m'.recs, active, j, j', curs[other]);
    }
  }

  /** Deleting a stream without a handle does, and none of its blocks is in memory. */
  lemma AfterDelete(m: Meta, block: nat, active: map<nat, Block>, curs: map<int, Option<nat>>, i: nat)
    requires Sound(m, block) && AllHeld(m.recs, active, curs) && 0 < i < |m.recs| && m.recs[i].id !in curs
    ensures AllHeld(Delete(m, i).recs, active, curs)
    ensures forall b :: b in active ==> b !in m.recs[i].blocks
  {
    NotInMemory(m, block, active, curs, i);
    DeleteSound(m, i, block);
    var recs' := Delete(m, i).recs;
    hide Partition;
    forall other | other in curs
      ensures HeldBy(recs', active, other, curs[other])
    {
      var j := Spot(m.recs, other);
      var j' := if j < i then j else j - 1;
      assert recs'[j'] == m.recs[j];
      KeepsHeld(m.recs, recs', active, j, j', curs[other]);
    }
  }

  /** A new handle on a stream that has none holds nothing. */
  lemma AfterOpen(m: Meta, block: nat, active: map<nat, Block>, curs: map<int, Option<nat>>, id: int)
    requires Sound(m, block) && AllHeld(m.recs, active, curs) && id > 0 && id !in curs && !Fresh(m.recs, id)
    ensures AllHeld(m.recs, active, curs[id := None])
  {
    NotInMemory(m, block, active, curs, Spot(m.recs, id));
    hide Sound;
    forall b | b in active
      ensures InHands(curs[id := None], b)
    {
      assert InHands(curs, b);
      var k :| k in curs && curs[k] == Some(b);
      assert k in curs[id := None];
    }
  }

  /** A handle that holds nothing can go. */
  lemma AfterDrop(recs: seq<Rec>, active: map<nat, Block>, curs: map<int, Option<nat>>, id: int)
    requires AllHeld(recs, active, curs) && id in curs && curs[id] == None
    ensures AllHeld(recs, active, curs - {id})
  {
    forall b | b in active
      ensures InHands(curs - {id}, b)
    {
      assert InHands(curs, b);
      var k :| k in curs && curs[k] == Some(b);
      assert k in curs - {id};
    }
  }

  /** Bringing the header up to date does. */
  lemma AfterSync(m: Meta, m': Meta, block: nat, active: map<nat, Block>, active': map<nat, Block>,
                  curs: map<int, Option<nat>>)
    requires Sound(m, block) && Sound(m', block) && AllHeld(m.recs, active, curs)
    requires Touched(m.recs, m'.recs, 0) && Holds(active', m'.recs[0].blocks, None)
    requires forall b :: b !in m'.recs[0].blocks ==> (b in active' <==> b in active)
    ensures AllHeld(m'.recs, active', curs)
  {
    hide Sound, HeldBy, Touched;
    forall id | id in curs
      ensures HeldBy(m'.recs, active', id, curs[id])
    {
      HeldAfterSync(m, m', block, active, active', id, curs[id]);
    }
    TouchedBlocks(m.recs, m'.recs, 0);
  }

  lemma HeldAfterSync(m: Meta, m': Meta, block: nat, active: map<nat, Block>, active': map<nat, Block>, id: int,
                      cur: Option<nat>)
    requires Sound(m, block) && Sound(m', block) && id > 0 && HeldBy(m.recs, active, id, cur)
    requires Touched(m.recs, m'.recs, 0)
    requires forall b :: b !in m'.recs[0].blocks ==> (b in active' <==> b in active)
    ensures HeldBy(m'.recs, active', id, cur)
  {
    PartitionMeaning(m'.blocks, m'.free, m'.recs);
    hide Partition;
    var j := Spot(m.recs, id);
    OnlySpot(m'.recs, j);
    assert m'.recs[j] == m.recs[j];
  }

  // ---- The streams as files ----

  /** The bytes of the stream with this id; the header is no file. */
  ghost function FileOf(recs: seq<Rec>, bytes: seq<seq<byte>>, id: int): Option<seq<byte>>
    requires |bytes| == |recs|
  {
    if id > 0 && !Fresh(recs, id) then Some(bytes[Spot(recs, id)]) else None
  }

  ghost function Ids(recs: seq<Rec>): (ids: set<int>)
    ensures forall id :: id in ids <==> id > 0 && !Fresh(recs, id)
  {
    set i | 0 <= i < |recs| && recs[i].id > 0 :: recs[i].id
  }

  /** The bytes of every stream but the header, by its id. */
  ghost function Files(recs: seq<Rec>, bytes: seq<seq<byte>>): (files: map<int, seq<byte>>)
    requires |bytes| == |recs|
    ensures forall id :: (id in files <==> FileOf(recs, bytes, id).Some?)
                         && (id in files ==> files[id] == FileOf(recs, bytes, id).value)
  {
    map id | id in Ids(recs) :: bytes[Spot(recs, id)]
  }

  lemma FileAt(recs: seq<Rec>, bytes: seq<seq<byte>>, i: nat)
    requires Ordered(recs) && 0 < i < |recs| == |bytes|
    ensures recs[i].id > 0 && FileOf(recs, bytes, recs[i].id) == Some(bytes[i])
  {
    OnlySpot(recs, i);
    assert recs[0].id < recs[i].id;
  }

  /** A file has its place. */
  lemma FileHasPlace(recs: seq<Rec>, bytes: seq<seq<byte>>, id: int) returns (i: nat)
    requires Ordered(recs) && |recs| == |bytes| && FileOf(recs, bytes, id).Some?
    ensures 0 < i < |recs| && recs[i].id == id && bytes[i] == FileOf(recs, bytes, id).value
  {
    i := Spot(recs, id);
  }

  /** Where a stream is found after another one was put in at `i`. */
  function Shifted(j: nat, i: nat): nat { if j < i then j else j + 1 }

  lemma FileAdded(recs: seq<Rec>, recs': seq<Rec>, bytes: seq<seq<byte>>, bytes': seq<seq<byte>>, i: nat, k: int)
    requires Ordered(recs) && Ordered(recs') && 0 < i <= |recs| == |bytes| && |recs'| == |recs| + 1 == |bytes'|
    requires forall j :: 0 <= j < |recs| ==>
                         recs'[Shifted(j, i)].id == recs[j].id && bytes'[Shifted(j, i)] == bytes[j]
    ensures FileOf(recs', bytes', k) == if k == recs'[i].id then Some(bytes'[i]) else FileOf(recs, bytes, k)
  {
    hide FileOf;
    FileAt(recs', bytes', i);
    if FileOf(recs, bytes, k).Some? {
      var j := FileHasPlace(recs, bytes, k);
      FileAt(recs', bytes', Shifted(j, i));
      assert Shifted(j, i) != i && recs'[Shifted(j, i)].id == k;
      assert k != recs'[i].id by { OnlySpot(recs', i); OnlySpot(recs', Shifted(j, i)); }
    } else if FileOf(recs', bytes', k).Some? && k != recs'[i].id {
      var j' := FileHasPlace(recs', bytes', k);
      var j := if j' < i then j' else j' - 1;
      assert Shifted(j, i) == j' && recs[j].id == k;
      FileAt(recs, bytes, j);
    }
  }

  lemma FileKept(recs: seq<Rec>, recs': seq<Rec>, bytes: seq<seq<byte>>, bytes': seq<seq<byte>>, i: nat, k: int)
    requires Ordered(recs) && Ordered(recs') && i < |recs| == |bytes| && |recs'| == |recs| == |bytes'|
    requires forall j :: 0 <= j < |recs| ==> recs'[j].id == recs[j].id && (j != i ==> bytes'[j] == bytes[j])
    ensures FileOf(recs', bytes', k) == if i > 0 && k == recs[i].id then Some(bytes'[i]) else FileOf(recs, bytes, k)
  {
    hide FileOf;
    if i > 0 {
      FileAt(recs', bytes', i);
    }
    if FileOf(recs, bytes, k).Some? {
      var j := FileHasPlace(recs, bytes, k);
      FileAt(recs', bytes', j);
    } else if FileOf(recs', bytes', k).Some? {
      var j := FileHasPlace(recs', bytes', k);
      FileAt(recs, bytes, j);
    }
  }

  predicate SameAt(a: map<int, seq<byte>>, b: map<int, seq<byte>>, k: int)
  {
    (k in a <==> k in b) && (k in a ==> a[k] == b[k])
  }

  lemma SameFiles(a: map<int, seq<byte>>, b: map<int, seq<byte>>)
    requires forall k :: SameAt(a, b, k)
    ensures a == b
  {
    forall k | k in a
      ensures k in b && a[k] == b[k]
    {
      assert SameAt(a, b, k);
    }
    forall k | k in b
      ensures k in a
    {
      assert SameAt(a, b, k);
    }
  }

  /** Only the bytes of stream `i` changed. */
  lemma FilesUpdate(recs: seq<Rec>, recs': seq<Rec>, bytes: seq<seq<byte>>, bytes': seq<seq<byte>>, i: nat)
    requires Ordered(recs) && Ordered(recs') && i < |recs| == |bytes| && |recs'| == |recs| == |bytes'|
    requires forall j :: 0 <= j < |recs| ==> recs'[j].id == recs[j].id && (j != i ==> bytes'[j] == bytes[j])
    ensures Files(recs', bytes') ==
            if i > 0 then Files(recs, bytes)[recs[i].id := bytes'[i]] else Files(recs, bytes)
  {
    hide FileOf, Files, Ordered;
    var a, b := Files(recs', bytes'), if i > 0 then Files(recs, bytes)[recs[i].id := bytes'[i]] else Files(recs, bytes);
    forall k
      ensures SameAt(a, b, k)
    {
      FileKept(recs, recs', bytes, bytes', i, k);
    }
    SameFiles(a, b);
  }

  /** A stream without bytes was put in at `i`. */
  lemma FilesAdd(recs: seq<Rec>, recs': seq<Rec>, bytes: seq<seq<byte>>, bytes': seq<seq<byte>>, i: nat)
    requires Ordered(recs) && Ordered(recs') && 0 < i <= |recs| == |bytes| && |recs'| == |recs| + 1
    requires forall j :: 0 <= j < |recs| ==> recs'[Shifted(j, i)].id == recs[j].id
    requires bytes' == bytes[..i] + [[]] + bytes[i..]
    ensures Files(recs', bytes') == Files(recs, bytes)[recs'[i].id := []]
  {
    hide FileOf, Files, Ordered;
    var a, b := Files(recs', bytes'), Files(recs, bytes)[recs'[i].id := []];
    forall k
      ensures SameAt(a, b, k)
    {
      FileAdded(recs, recs', bytes, bytes', i, k);
    }
    SameFiles(a, b);
  }

  /** Stream `i` is gone. */
  lemma FilesRemove(recs: seq<Rec>, recs': seq<Rec>, bytes: seq<seq<byte>>, bytes': seq<seq<byte>>, i: nat)
    requires Ordered(recs) && Ordered(recs') && 0 < i < |recs| == |bytes|
    requires recs' == recs[..i] + recs[i + 1..] && bytes' == bytes[..i] + bytes[i + 1..]
    ensures Files(recs', bytes') == Files(recs, bytes) - {recs[i].id}
  {
    hide FileOf, Files, Ordered;
    FileGone(recs, recs', bytes', i);
    var a, b := Files(recs', bytes'), Files(recs, bytes) - {recs[i].id};
    forall k
      ensures SameAt(a, b, k)
    {
      FileAdded(recs', recs, bytes', bytes, i, k);
    }
    SameFiles(a, b);
  }

  lemma FileGone(recs: seq<Rec>, recs': seq<Rec>, bytes': seq<seq<byte>>, i: nat)
    requires Ordered(recs) && 0 < i < |recs| && recs' == recs[..i] + recs[i + 1..] && |bytes'| == |recs'|
    ensures FileOf(recs', bytes', recs[i].id) == None
  {
    forall j | 0 <= j < |recs'|
      ensures recs'[j].id != recs[i].id
    {
      assert recs'[j] == recs[Shifted(j, i)];
    }
  }

  /** An open handle's stream is a file. */
  lemma HandleHasFile(m: Meta, block: nat, active: map<nat, Block>, curs: map<int, Option<nat>>, bytes: seq<seq<byte>>,
                      id: int)
    requires Sound(m, block) && AllHeld(m.recs, active, curs) && id in curs && |bytes| == |m.recs|
    ensures id > 0 && HeldBy(m.recs, active, id, curs[id]) && !Fresh(m.recs, id) && 0 < Spot(m.recs, id)
    ensures id in Files(m.recs, bytes) && Files(m.recs, bytes)[id] == bytes[Spot(m.recs, id)]
    ensures m.recs[Spot(m.recs, id)].id == id
  {
    hide Partition;
    FileAt(m.recs, bytes, Spot(m.recs, id));
  }

  // ---- What a change of the streams is for the files ----

  /** What became of a file when `d` was written at `pos`. */
  predicate Written(s: seq<byte>, pos: nat, d: seq<byte>, t: seq<byte>)
  {
    if pos <= |s| then t == Splice(s, pos, d) else s <= t && |t| == |s| + |d|
  }

  /** What became of a file that was resized. */
  predicate Sized(s: seq<byte>, n: nat, t: seq<byte>)
  {
    |t| == n && if n <= |s| then t == s[..n] else s <= t
  }

  lemma WroteFile(m: Meta, m': Meta, block: nat, bytes: seq<seq<byte>>, bytes': seq<seq<byte>>, i: nat, pos: nat,
                  d: seq<byte>)
    requires Sound(m, block) && Sound(m', block) && |bytes| == |m.recs| && |bytes'| == |m'.recs| && 0 < i
    requires Touched(m.recs, m'.recs, i) && Wrote(bytes, bytes', i, pos, d)
    ensures i < |m.recs| && i < |bytes'|
    ensures Files(m'.recs, bytes') == Files(m.recs, bytes)[m.recs[i].id := bytes'[i]]
    ensures Written(bytes[i], pos, d, bytes'[i])
  {
    hide Partition, Files, FileOf;
    FilesUpdate(m.recs, m'.recs, bytes, bytes', i);
  }

  lemma ResizedFile(m: Meta, block: nat, bytes: seq<seq<byte>>, bytes': seq<seq<byte>>, i: nat, n: nat)
    requires Sound(m, block) && |bytes| == |m.recs| == |bytes'| && 0 < i < |m.recs|
    requires Resized(bytes, bytes', i, n)
    ensures Files(Resize(m, i, n, block).recs, bytes') == Files(m.recs, bytes)[m.recs[i].id := bytes'[i]]
    ensures Sized(bytes[i], n, bytes'[i])
  {
    ResizeIds(m, i, n, block);
    ResizeSound(m, i, n, block);
    hide Partition, Files, FileOf, Resize;
    FilesUpdate(m.recs, Resize(m, i, n, block).recs, bytes, bytes', i);
  }

  lemma SoundIsOrdered(m: Meta, block: nat)
    requires Sound(m, block)
    ensures Ordered(m.recs)
  {
  }

  lemma CreatedIds(m: Meta, i: nat, id: int, k: nat)
    requires i <= |m.recs|
    ensures var recs := Create(m, i, id, k).recs;
            && |recs| == |m.recs| + 1 && recs[i].id == id
            && forall j :: 0 <= j < |m.recs| ==> recs[Shifted(j, i)].id == m.recs[j].id
  {
    TakeManyIds(m.(recs := m.recs[..i] + [Rec(id, 0, [])] + m.recs[i..]), i, k);
    hide TakeMany;
  }

  lemma CreatedFile(m: Meta, block: nat, bytes: seq<seq<byte>>, bytes': seq<seq<byte>>, i: nat, id: int, k: nat)
    requires Sound(m, block) && |bytes| == |m.recs| && 0 < i <= |m.recs|
    requires m.recs[i - 1].id < id && (i < |m.recs| ==> id < m.recs[i].id)
    requires bytes' == bytes[..i] + [[]] + bytes[i..]
    ensures |bytes'| == |Create(m, i, id, k).recs|
    ensures Files(Create(m, i, id, k).recs, bytes') == Files(m.recs, bytes)[id := []]
  {
    hide Sound, Files, FileOf, Create;
    CreateSound(m, i, id, k, block);
    CreatedIds(m, i, id, k);
    SoundIsOrdered(m, block);
    SoundIsOrdered(Create(m, i, id, k), block);
    FilesAdd(m.recs, Create(m, i, id, k).recs, bytes, bytes', i);
  }

  lemma DeletedFile(m: Meta, block: nat, bytes: seq<seq<byte>>, bytes': seq<seq<byte>>, i: nat)
    requires Sound(m, block) && |bytes| == |m.recs| && 0 < i < |m.recs|
    requires bytes' == bytes[..i] + bytes[i + 1..]
    ensures |bytes'| == |Delete(m, i).recs|
    ensures Files(Delete(m, i).recs, bytes') == Files(m.recs, bytes) - {m.recs[i].id}
  {
    DeleteSound(m, i, block);
    hide Partition, Files, FileOf;
    FilesRemove(m.recs, Delete(m, i).recs, bytes, bytes', i);
  }

  lemma SyncedFiles(m: Meta, m': Meta, block: nat, bytes: seq<seq<byte>>, bytes': seq<seq<byte>>)
    requires Sound(m, block) && Sound(m', block) && |bytes| == |m.recs| && |bytes'| == |m'.recs|
    requires Touched(m.recs, m'.recs, 0) && bytes' == bytes[0 := bytes'[0]]
    ensures Files(m'.recs, bytes') == Files(m.recs, bytes)
  {
    hide Partition, Files, FileOf;
    FilesUpdate(m.recs, m'.recs, bytes, bytes', 0);
  }

  /** A file is a stream other than the header. */
  lemma FileIsStream(m: Meta, block: nat, bytes: seq<seq<byte>>, id: int)
    requires Sound(m, block) && |bytes| == |m.recs|
    ensures id in Files(m.recs, bytes) <==> id > 0 && !Fresh(m.recs, id)
  {
  }
}
