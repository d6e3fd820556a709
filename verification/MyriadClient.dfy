/** A client that works on any number of streams at once, in any order: every run is one on flat files. */
module MyriadClient {
  import opened Bytes
  import opened Myriad
  import opened MyriadHandles
  import opened MyriadHeader
  import opened MyriadLayout
  import opened MyriadMeta
  import opened MyriadReopen
  import opened Numbers
  import opened Store
  import opened Wrappers

  /** Files by id, and the position of every open handle. */
  datatype World = World(files: map<int, seq<byte>>, open: map<int, nat>)

  datatype Op =
    | Open(id: int)
    | Close(id: int)
    | Read(id: int, n: int)
    | Write(id: int, data: seq<byte>)
    | SetSize(id: int, n: int)
    | Seek(id: int, offset: int)
    | SetPos(id: int, pos: int)
    | SetPosEnd(id: int, back: int)
    | Create(preallocate: int)
    | CreateWithId(id: int, preallocate: int)
    | Delete(id: int)
    | Sync

  datatype Answer = Done | Data(bytes: seq<byte>) | NewId(id: int)

  /** What a client has to see to: at most one handle to a stream, none on a stream that is deleted, and no position
      before the start. */
  predicate Allowed(w: World, op: Op)
  {
    match op
    case Open(id) => id in w.files && id !in w.open
    case Close(id) => id in w.open && id in w.files
    case Read(id, _) => id in w.open && id in w.files
    case Write(id, _) => id in w.open && id in w.files
    case SetSize(id, _) => id in w.open && id in w.files
    case Seek(id, offset) => id in w.open && id in w.files && w.open[id] + offset >= 0
    case SetPos(id, pos) => id in w.open && id in w.files && pos >= 0
    case SetPosEnd(id, back) => id in w.open && id in w.files && |w.files[id]| - back >= 0
    case Create(_) => true
    case CreateWithId(id, _) => id > 0 && id !in w.files
    case Delete(id) => id in w.files && id !in w.open
    case Sync => true
  }

  /** One operation on flat files. No operation changes any file or position but the one it is about. */
  predicate Stepped(w: World, op: Op, a: Answer, w': World)
  {
    && Allowed(w, op)
    && match op
       case Open(id) => a == Done && w' == w.(open := w.open[id := 0])
       case Close(id) => a == Done && w' == w.(open := w.open - {id})
       case Read(id, n) =>
         && a == Data(Slice(w.files[id], w.open[id], Count(n)))
         && w' == w.(open := w.open[id := w.open[id] + |a.bytes|])
       case Write(id, d) =>
         && a == Done && id in w'.files && Written(w.files[id], w.open[id], d, w'.files[id])
         && w' == World(w.files[id := w'.files[id]], w.open[id := w.open[id] + |d|])
       case SetSize(id, n) =>
         && a == Done && id in w'.files && Sized(w.files[id], Count(n), w'.files[id])
         && w' == World(w.files[id := w'.files[id]], w.open[id := Min(w.open[id], Count(n))])
       case Seek(id, offset) => a == Done && w' == w.(open := w.open[id := w.open[id] + offset])
       case SetPos(id, pos) => a == Done && w' == w.(open := w.open[id := pos])
       case SetPosEnd(id, back) => a == Done && w' == w.(open := w.open[id := |w.files[id]| - back])
       case Create(_) => a.NewId? && a.id > 0 && a.id !in w.files && w' == w.(files := w.files[a.id := []])
       case CreateWithId(id, _) => a == Done && w' == w.(files := w.files[id := []])
       case Delete(id) => a == Done && w' == w.(files := w.files - {id})
       case Sync => a == Done && w' == w
  }

  /** The stream an operation is about, if there is one. */
  function About(op: Op, a: Answer): Option<int>
  {
    match op
    case Create(_) => if a.NewId? then Some(a.id) else None
    case Sync => None
    case _ => Some(op.id)
  }

  /** No other file and no other position changes. */
  lemma OthersUntouched(w: World, op: Op, a: Answer, w': World, id: int)
    requires Stepped(w, op, a, w') && About(op, a) != Some(id)
    ensures (id in w'.files <==> id in w.files) && (id in w.files ==> w'.files[id] == w.files[id])
    ensures (id in w'.open <==> id in w.open) && (id in w.open ==> w'.open[id] == w.open[id])
  {
  }

  /** What was written is read back from where it was written. */
  lemma ReadBack(w: World, id: int, d: seq<byte>, w1: World, w2: World, a: Answer, w3: World)
    requires Stepped(w, Write(id, d), Done, w1) && w.open[id] <= |w.files[id]|
    requires Stepped(w1, Seek(id, -|d|), Done, w2) && Stepped(w2, Read(id, |d|), a, w3)
    ensures a == Data(d) && w3 == w1
  {
    var s, p := w.files[id], w.open[id];
    assert Splice(s, p, d)[p..p + |d|] == d;
    assert w3.open == w1.open;
  }

  /** A run on flat files: from world to world by one operation after the other. */
  ghost predicate Trace(worlds: seq<World>, ops: seq<Op>, answers: seq<Answer>)
    ensures Trace(worlds, ops, answers) ==> |answers| <= |ops| && |worlds| == |answers| + 1
  {
    && |answers| <= |ops| && |worlds| == |answers| + 1
    && forall k :: 0 <= k < |answers| ==> Stepped(worlds[k], ops[k], answers[k], worlds[k + 1])
  }

  lemma TraceStart(w: World, ops: seq<Op>)
    ensures Trace([w], ops, [])
  {
  }

  lemma TraceMore(worlds: seq<World>, ops: seq<Op>, answers: seq<Answer>, a: Answer, w: World)
    requires Trace(worlds, ops, answers) && |answers| < |ops|
    requires Stepped(worlds[|answers|], ops[|answers|], a, w)
    ensures Trace(worlds + [w], ops, answers + [a])
  {
  }

  class Client {
    const myriad: Myriad
    /** The open handles, by the id of their stream. */
    var handles: map<int, MyriadStream>

    constructor (myriad: Myriad)
      requires myriad.Valid() && myriad.HeaderKept() && myriad.active == map[]
      ensures Valid() && this.myriad == myriad && handles == map[]
    {
      this.myriad, handles := myriad, map[];
    }

    /** The block each handle has in memory. */
    ghost function Curs(): map<int, Option<nat>>
      reads this, handles.Values
    {
      map id | id in handles :: handles[id].cur
    }

    ghost function Positions(): map<int, nat>
      reads this, handles.Values
    {
      map id | id in handles :: handles[id].pos
    }

    ghost predicate Valid()
      reads this, myriad, myriad.store, handles.Values
      ensures Valid() ==> myriad.Valid()
    {
      && myriad.Valid() && myriad.HeaderKept()
      && (forall id :: id in handles ==> handles[id].myriad == myriad && handles[id].id == id)
      && AllHeld(myriad.streams, myriad.active, Curs())
    }

    ghost function Now(): World
      requires myriad.blockSize > 0
      reads this, myriad, myriad.store, handles.Values
    {
      World(Files(myriad.streams, myriad.Bytes()), Positions())
    }

    /** An open handle is attached, and its stream is a file. */
    lemma Handle(id: int) returns (i: nat)
      requires Valid() && id in handles
      ensures id > 0 && handles[id].Attached() && handles[id].myriad == myriad && handles[id].id == id
      ensures id in Curs() && Curs()[id] == handles[id].cur && id in Positions() && Positions()[id] == handles[id].pos
      ensures i == handles[id].At() && 0 < i < |myriad.streams| && i == Spot(myriad.streams, id)
      ensures id in Now().files && Now().files[id] == myriad.Bytes()[i]
    {
      hide Sound, AllHeld, Files, FileOf, Contents, View, Coherent, HeaderGood, Fresh, Holds;
      HandleHasFile(myriad.Meta(), myriad.blockSize, myriad.active, Curs(), myriad.Bytes(), id);
      i := Spot(myriad.streams, id);
    }

    /** Only the handle on this stream moved. */
    twostate lemma OneMoved(id: int)
      requires handles == old(handles) && id in handles
      requires forall k :: k in handles ==> handles[k].id == k
      requires forall k :: k in handles && handles[k] != handles[id] ==> unchanged(handles[k])
      ensures Curs() == old(Curs())[id := handles[id].cur]
      ensures Positions() == old(Positions())[id := handles[id].pos]
    {
      var curs, positions := old(Curs())[id := handles[id].cur], old(Positions())[id := handles[id].pos];
      forall k | k in handles
        ensures Curs()[k] == curs[k] && Positions()[k] == positions[k]
      {
        assert k != id ==> handles[k] != handles[id];
      }
    }

    method Open(id: int)
      requires Valid() && Allowed(Now(), Op.Open(id))
      modifies this
      ensures Valid() && Stepped(old(Now()), Op.Open(id), Done, Now())
      ensures fresh(handles.Values - old(handles.Values))
    {
      hide Sound, AllHeld, Files, FileOf, Contents, View, Coherent, HeaderGood, Fresh;
      FileIsStream(myriad.Meta(), myriad.blockSize, myriad.Bytes(), id);
      AfterOpen(myriad.Meta(), myriad.blockSize, myriad.active, Curs(), id);
      ghost var curs, positions := Curs(), Positions();
      var h := new MyriadStream(myriad, id);
      handles := handles[id := h];
      assert Curs() == curs[id := None] && Positions() == positions[id := 0];
    }

    method Close(id: int)
      requires Valid() && id in handles
      modifies this, handles[id], myriad, myriad.store
      ensures Valid() && handles == old(handles) - {id}
      ensures Stepped(old(Now()), Op.Close(id), Done, Now())
      ensures Drift(myriad.Meta()) == old(Drift(myriad.Meta()))
    {
      hide Sound, AllHeld, Files, FileOf, Contents, View, Coherent, HeaderGood, HeldBy, Touched, SameOutside;
      var h := handles[id];
      ghost var i := Handle(id);
      ghost var m, active, curs, positions := myriad.Meta(), myriad.active, Curs(), Positions();
      h.Close();
      TouchedNothing(m.recs, i);
      AfterWork(m, m, myriad.blockSize, active, myriad.active, curs, id, h.cur);
      AfterDrop(m.recs, myriad.active, curs[id := None], id);
      handles := handles - {id};
      assert forall k :: k in handles ==> old(handles)[k] != h;
      assert Curs() == curs[id := None] - {id} && Positions() == positions - {id};
    }

    method Read(id: int, n: int) returns (data: seq<byte>)
      requires Valid() && id in handles
      modifies handles[id], myriad, myriad.store
      ensures Valid() && handles == old(handles)
      ensures Stepped(old(Now()), Op.Read(id, n), Data(data), Now())
      ensures Drift(myriad.Meta()) == old(Drift(myriad.Meta()))
    {
      hide Sound, AllHeld, Files, FileOf, Contents, View, Coherent, HeaderGood, HeldBy, Touched, SameOutside, Slice;
      var h := handles[id];
      ghost var i := Handle(id);
      ghost var m, active, curs := myriad.Meta(), myriad.active, Curs();
      data := h.Read(n);
      TouchedNothing(m.recs, i);
      AfterWork(m, m, myriad.blockSize, active, myriad.active, curs, id, h.cur);
      OneMoved(id);
    }
  
    method Write(id: int, d: seq<byte>)
      requires Valid() && id in handles
      modifies handles[id], myriad, myriad.store
      ensures Valid() && handles == old(handles)
      ensures Stepped(old(Now()), Op.Write(id, d), Done, Now())
      ensures Drift(myriad.Meta()) == old(Drift(myriad.Meta()))
    {
      hide Sound, AllHeld, Files, FileOf, Contents, View, Coherent, HeaderGood, HeldBy, Touched, SameOutside, Wrote;
      hide Noted, Drift, Written;
      var h := handles[id];
      ghost var i := Handle(id);
      ghost var m, active, curs, bytes, pos := myriad.Meta(), myriad.active, Curs(), myriad.Bytes(), h.pos;
      var _ := h.Write(d);
      AfterWork(m, myriad.Meta(), myriad.blockSize, active, myriad.active, curs, id, h.cur);
      WroteFile(m, myriad.Meta(), myriad.blockSize, bytes, myriad.Bytes(), i, pos, d);
      OneMoved(id);
    }

    method Seek(id: int, offset: int)
      requires Valid() && id in handles && handles[id].pos + offset >= 0
      modifies handles[id]
      ensures Valid() && handles == old(handles)
      ensures Stepped(old(Now()), Op.Seek(id, offset), Done, Now())
    {
      hide Sound, AllHeld, Files, FileOf, Contents, View, Coherent, HeaderGood, HeldBy;
      ghost var curs := Curs();
      ghost var i := Handle(id);
      handles[id].Seek(offset);
      OneMoved(id);
      assert curs[id := handles[id].cur] == curs;
    }

    method SetPos(id: int, pos: nat)
      requires Valid() && id in handles
      modifies handles[id]
      ensures Valid() && handles == old(handles)
      ensures Stepped(old(Now()), Op.SetPos(id, pos), Done, Now())
    {
      hide Sound, AllHeld, Files, FileOf, Contents, View, Coherent, HeaderGood, HeldBy;
      ghost var curs := Curs();
      ghost var i := Handle(id);
      handles[id].SetPos(pos);
      OneMoved(id);
      assert curs[id := handles[id].cur] == curs;
    }

    method SetPosEnd(id: int, back: int)
      requires Valid() && id in handles && Allowed(Now(), Op.SetPosEnd(id, back))
      modifies handles[id]
      ensures Valid() && handles == old(handles)
      ensures Stepped(old(Now()), Op.SetPosEnd(id, back), Done, Now())
    {
      hide Sound, AllHeld, Files, FileOf, Contents, View, Coherent, HeaderGood, HeldBy;
      ghost var curs := Curs();
      ghost var i := Handle(id);
      myriad.BytesSize(myriad.Meta(), i);
      handles[id].SetPosEnd(back);
      OneMoved(id);
      assert curs[id := handles[id].cur] == curs;
    }

    /** Resize a file. The handle's block in memory must be one of those the stream keeps. */
    method SetSize(id: int, n: int)
      requires Valid() && id in handles && KeepsItsBlock(id, n)
      modifies handles[id], myriad, myriad.store
      ensures Valid() && handles == old(handles)
      ensures Stepped(old(Now()), Op.SetSize(id, n), Done, Now())
      ensures Drift(myriad.Meta()) == old(Drift(myriad.Meta()))
    {
      hide Sound, AllHeld, Files, FileOf, Contents, View, Coherent, HeaderGood, HeldBy, Resized, Resize, KeepsBlock;
      hide Drift, Sized;
      var h := handles[id];
      ghost var i := Handle(id);
      ghost var m, active, curs, bytes := myriad.Meta(), myriad.active, Curs(), myriad.Bytes();
      h.SetSize(n);
      AfterResize(m, myriad.blockSize, active, curs, id, Count(n));
      ResizedFile(m, myriad.blockSize, bytes, myriad.Bytes(), i, Count(n));
      OneMoved(id);
      assert curs[id := h.cur] == curs;
    }

    /** The block that a handle has in memory, if any, stays with its stream when that is resized. */
    ghost predicate KeepsItsBlock(id: int, n: int)
      requires id in handles && myriad.Valid()
      reads this, myriad, myriad.store, handles.Values
    {
      && !Fresh(myriad.streams, id)
      && KeepsBlock(myriad.streams[Spot(myriad.streams, id)], Count(n), myriad.blockSize, handles[id].cur)
    }

    method Create(preallocate: int) returns (id: int)
      requires Valid()
      modifies myriad, myriad.store
      ensures Valid() && handles == old(handles)
      ensures Stepped(old(Now()), Op.Create(preallocate), NewId(id), Now())
      ensures Drift(myriad.Meta()) == old(Drift(myriad.Meta()))
    {
      hide Sound, AllHeld, Files, FileOf, Contents, View, Coherent, HeaderGood, HeldBy, MyriadMeta.Create, Drift;
      ghost var m, curs, bytes := myriad.Meta(), Curs(), myriad.Bytes();
      id := myriad.CreateStream(preallocate);
      assert bytes[..|bytes|] + [[]] + bytes[|bytes|..] == bytes + [[]];
      AfterCreate(m, myriad.blockSize, myriad.active, curs, |m.recs|, id, Count(preallocate));
      CreatedFile(m, myriad.blockSize, bytes, myriad.Bytes(), |m.recs|, id, Count(preallocate));
      FileIsStream(m, myriad.blockSize, bytes, id);
    }

    method CreateWithId(id: int, preallocate: int)
      requires Valid() && Allowed(Now(), Op.CreateWithId(id, preallocate))
      modifies myriad, myriad.store
      ensures Valid() && handles == old(handles)
      ensures Stepped(old(Now()), Op.CreateWithId(id, preallocate), Done, Now())
      ensures Drift(myriad.Meta()) == old(Drift(myriad.Meta()))
    {
      hide Sound, AllHeld, Files, FileOf, Contents, View, Coherent, HeaderGood, HeldBy, MyriadMeta.Create, Drift, Fresh;
      ghost var m, curs, bytes := myriad.Meta(), Curs(), myriad.Bytes();
      FileIsStream(m, myriad.blockSize, bytes, id);
      FirstIsZero(m, myriad.blockSize);
      myriad.CreateStreamWithId(id, preallocate);
      PlaceOfFresh(m.recs, id);
      var i := Place(m.recs, id).value;
      AfterCreate(m, myriad.blockSize, myriad.active, curs, i, id, Count(preallocate));
      CreatedFile(m, myriad.blockSize, bytes, myriad.Bytes(), i, id, Count(preallocate));
    }

    method Delete(id: int)
      requires Valid() && Allowed(Now(), Op.Delete(id))
      modifies myriad, myriad.store
      ensures Valid() && handles == old(handles)
      ensures Stepped(old(Now()), Op.Delete(id), Done, Now())
      ensures Drift(myriad.Meta()) == old(Drift(myriad.Meta()))
    {
      hide Sound, AllHeld, Files, FileOf, Contents, View, Coherent, HeaderGood, HeldBy, MyriadMeta.Delete, Drift, Fresh;
      ghost var m, curs, bytes := myriad.Meta(), Curs(), myriad.Bytes();
      FileIsStream(m, myriad.blockSize, bytes, id);
      FirstIsZero(m, myriad.blockSize);
      var _ := myriad.DeleteStream(id);
      ghost var i :| 0 <= i < |m.recs| && m.recs[i].id == id && myriad.Deleted(m, bytes, i);
      AfterDelete(m, myriad.blockSize, myriad.active, curs, i);
      DeletedFile(m, myriad.blockSize, bytes, myriad.Bytes(), i);
    }

    /** The header is brought up to date and every block written back; no file changes. */
    method Sync()
      requires Valid()
      modifies myriad, myriad.store
      ensures Valid() && handles == old(handles)
      ensures Stepped(old(Now()), Op.Sync, Done, Now())
      ensures Drift(myriad.Meta()) == old(Drift(myriad.Meta()))
    {
      hide Sound, AllHeld, Files, FileOf, Contents, View, Coherent, HeaderGood, HeldBy, Touched, Holds, Drift, Fresh;
      ghost var m, active, curs, bytes := myriad.Meta(), myriad.active, Curs(), myriad.Bytes();
      NoneOnHeader();
      myriad.Sync();
      AfterSync(m, myriad.Meta(), myriad.blockSize, active, myriad.active, curs);
      SyncedFiles(m, myriad.Meta(), myriad.blockSize, bytes, myriad.Bytes());
    }

    lemma NoneOnHeader()
      requires Valid()
      ensures Holds(myriad.active, myriad.streams[0].blocks, None)
    {
      hide Holds, HeldBy, Coherent, View, Contents, HeaderGood, Partition;
      NotInMemory(myriad.Meta(), myriad.blockSize, myriad.active, Curs(), 0);
    }

    /** What is synced now can be loaded again. */
    ghost predicate CanBeLoaded()
      requires Valid()
      reads this, myriad, myriad.store, handles.Values
    {
      WillLoad(myriad.blockSize, myriad.streams, myriad.headerChanged)
    }

    /** What is synced now is made of numbers of 32 bits. */
    ghost predicate FitsFormat()
      requires Valid()
      reads this, myriad, myriad.store, handles.Values
    {
      Fits32(myriad.blockSize, After(myriad.Meta(), myriad.blockSize, myriad.headerChanged).recs)
    }

    // ---- Any run ----

    /** The operation is allowed, and a resize keeps the block that the handle has in memory. */
    ghost predicate May(op: Op)
      requires myriad.Valid()
      reads this, myriad, myriad.store, handles.Values
    {
      Allowed(Now(), op) && (op.SetSize? ==> op.id in handles && KeepsItsBlock(op.id, op.n))
    }

    /** Whether the operation may be done, as a client can tell. */
    method Can(op: Op) returns (b: bool)
      requires Valid()
      ensures b <==> May(op)
    {
      hide Sound, AllHeld, Files, FileOf, Contents, View, Coherent, HeaderGood, HeldBy, KeepsBlock;
      match op {
        case Open(id) =>
          var found := Exists(id);
          b := found && id !in handles;
        case Close(id) =>
          b := IsOpen(id);
        case Read(id, _) =>
          b := IsOpen(id);
        case Write(id, _) =>
          b := IsOpen(id);
        case SetSize(id, n) =>
          b := IsOpen(id);
          if b {
            b := KeepsIt(id, n);
          }
        case Seek(id, offset) =>
          b := IsOpen(id);
          b := b && handles[id].pos + offset >= 0;
        case SetPos(id, pos) =>
          b := IsOpen(id);
          b := b && pos >= 0;
        case SetPosEnd(id, back) =>
          b := IsOpen(id);
          if b {
            var size := SizeOf(id);
            b := size - back >= 0;
          }
        case Create(_) =>
          b := true;
        case CreateWithId(id, _) =>
          var found := Exists(id);
          b := id > 0 && !found;
        case Delete(id) =>
          var found := Exists(id);
          b := found && id !in handles;
        case Sync =>
          b := true;
      }
    }

    method Exists(id: int) returns (b: bool)
      requires Valid()
      ensures b <==> id in Now().files
    {
      hide Sound, AllHeld, Files, FileOf, Contents, View, Coherent, HeaderGood;
      FileIsStream(myriad.Meta(), myriad.blockSize, myriad.Bytes(), id);
      var found := myriad.FindStream(id);
      b := id > 0 && found.Ok?;
    }

    method IsOpen(id: int) returns (b: bool)
      requires Valid()
      ensures b <==> id in handles
      ensures b <==> id in Now().open && id in Now().files
    {
      hide Sound, AllHeld, Files, FileOf, Contents, View, Coherent, HeaderGood;
      b := id in handles;
      if b {
        ghost var i := Handle(id);
      }
    }

    method SizeOf(id: int) returns (n: nat)
      requires Valid() && id in handles
      ensures id in Now().files && n == |Now().files[id]|
    {
      hide Sound, AllHeld, Files, FileOf, Contents, View, Coherent, HeaderGood;
      ghost var at := Handle(id);
      myriad.BytesSize(myriad.Meta(), at);
      var i := handles[id].Locate();
      n := myriad.streams[i].size;
    }

    method KeepsIt(id: int, n: int) returns (b: bool)
      requires Valid() && id in handles
      ensures b <==> KeepsItsBlock(id, n)
    {
      hide Sound, AllHeld, Files, FileOf, Contents, View, Coherent, HeaderGood;
      var h := handles[id];
      ghost var at := Handle(id);
      var i := h.Locate();
      var r := myriad.streams[i];
      b := h.cur.None? || h.cur.value in r.blocks[..Min(KeptOf(r, Count(n), myriad.blockSize), |r.blocks|)];
    }

    /** Do one operation. */
    method Do(op: Op) returns (a: Answer)
      requires Valid() && May(op)
      modifies this, myriad, myriad.store, handles.Values
      ensures Valid() && Stepped(old(Now()), op, a, Now()) && Drift(myriad.Meta()) == old(Drift(myriad.Meta()))
      ensures fresh(handles.Values - old(handles.Values))
    {
      hide Sound, AllHeld, Files, FileOf, Contents, View, Coherent, HeaderGood, HeldBy, KeepsBlock, Stepped, Drift;
      a := Done;
      match op {
        case Open(id) =>
          Open(id);
        case Close(id) =>
          Close(id);
        case Read(id, n) =>
          var data := Read(id, n);
          a := Data(data);
        case Write(id, d) =>
          Write(id, d);
        case SetSize(id, n) =>
          SetSize(id, n);
        case Seek(id, offset) =>
          Seek(id, offset);
        case SetPos(id, pos) =>
          SetPos(id, pos);
        case SetPosEnd(id, back) =>
          SetPosEnd(id, back);
        case Create(preallocate) =>
          var id := Create(preallocate);
          a := NewId(id);
        case CreateWithId(id, preallocate) =>
          CreateWithId(id, preallocate);
        case Delete(id) =>
          Delete(id);
        case Sync =>
          Sync();
      }
    }

    /** Do the operations one after the other, up to the first that may not be done. Every stream behaves as a flat
        file of its own, whatever the order in which streams are created, opened, read, written, resized, closed and
        deleted, wherever handles are moved to, and whenever the store is synced. */
    method Run(ops: seq<Op>) returns (answers: seq<Answer>, ghost worlds: seq<World>)
      requires Valid()
      modifies this, myriad, myriad.store, handles.Values
      ensures Valid() && Trace(worlds, ops, answers)
      ensures worlds[0] == old(Now()) && worlds[|answers|] == Now()
      ensures |answers| < |ops| ==> !May(ops[|answers|])
      // The used counter stays as far from the number of blocks in use as it was.
      ensures Drift(myriad.Meta()) == old(Drift(myriad.Meta()))
    {
      hide Stepped, Trace, May, Valid, Now, Drift;
      assert myriad.Valid() by {
        assert Valid();
      }
      answers, worlds := [], [Now()];
      TraceStart(Now(), ops);
      while |answers| < |ops|
        invariant Valid() && Trace(worlds, ops, answers)
        invariant worlds[0] == old(Now()) && worlds[|answers|] == Now()
        invariant fresh(handles.Values - old(handles.Values))
        invariant Drift(myriad.Meta()) == old(Drift(myriad.Meta()))
        decreases |ops| - |answers|
      {
        var can := Can(ops[|answers|]);
        if !can {
          return;
        }
        var a := Do(ops[|answers|]);
        TraceMore(worlds, ops, answers, a, Now());
        answers := answers + [a];
        worlds := worlds + [Now()];
      }
    }
  }

  /** After any run: the files are synced and come back when the store is opened again. Whether they do can be told
      before. */
  method SaveAndReopen(c: Client) returns (again: Client?, r: Outcome<MyriadError>)
    requires c.Valid() && c.myriad.store.writable && c.FitsFormat()
    modifies c.myriad, c.myriad.store
    ensures r.Pass? <==> old(c.CanBeLoaded())
    ensures r.Pass? ==> again != null && again.Valid() && again.Now() == World(old(c.Now()).files, map[])
  {
    hide Sound, AllHeld, Files, FileOf, Contents, View, Coherent, HeaderGood, HeldBy, Touched, Holds, Drift, Fits32;
    hide TrimAll, WillLoad, After, SameStreams;
    ghost var m, bytes := c.myriad.Meta(), c.myriad.Bytes();
    c.NoneOnHeader();
    var n;
    n, r := Reopen(c.myriad);
    again := null;
    if r.Pass? {
      SyncedFiles(m, c.myriad.Meta(), c.myriad.blockSize, bytes, c.myriad.Bytes());
      LoadedFiles(c.myriad, n);
      again := new Client(n);
    }
  }

  lemma LoadedFiles(m: Myriad, again: Myriad)
    requires m.Valid() && again.Valid() && SameStreams(m.streams, again.streams, m.blockSize)
    requires again.Bytes() == m.Bytes()
    ensures Files(again.streams, again.Bytes()) == Files(m.streams, m.Bytes())
  {
    hide Contents, View, Coherent, Partition, Files;
    FilesUpdate(m.streams, again.streams, m.Bytes(), again.Bytes(), 0);
  }
}
