/** An open-addressing hash table over five parallel arrays. */
module Hash {
  import opened HashCrowd
  import opened HashRun
  import opened HashTable
  import opened Numbers
  import opened Wrappers

  datatype HashError = NotFilled

  class HashCore<K(==,0), V(==,0)> {
    const hash: K -> nat
    var capacity: nat
    var fills: nat
    var deletes: nat
    var filled: array<bool>
    var deleted: array<bool>
    var keys: array<K>
    var values: array<V>
    var codes: array<nat>

    constructor (hash: K -> nat)
      ensures this.hash == hash && Valid() && capacity == 0 && Contents() == map[]
      ensures fresh(filled) && fresh(deleted) && fresh(keys) && fresh(values) && fresh(codes)
    {
      this.hash := hash;
      capacity, fills, deletes := 0, 0, 0;
      filled, deleted, keys, values, codes := new bool[0], new bool[0], new K[0], new V[0], new nat[0];
    }

    /** The five arrays are five objects of the same length. */
    ghost predicate Separate()
      reads this
    {
      && filled != deleted && (keys as object) != (values as object) && (keys as object) != (codes as object)
      && (values as object) != (codes as object)
      && (filled as object) != (keys as object) && (filled as object) != (values as object)
      && (deleted as object) != (keys as object) && (deleted as object) != (values as object)
      && capacity == filled.Length == deleted.Length == keys.Length == values.Length == codes.Length
    }

    ghost function Slots(): (t: Table<K, V>)
      reads this, filled, deleted, keys, values, codes
    {
      Table(filled[..], deleted[..], keys[..], values[..], codes[..])
    }

    ghost predicate Valid()
      reads this, filled, deleted, keys, values, codes
      ensures Valid() ==> Separate() && Good(Slots(), hash)
    {
      && Separate() && Good(Slots(), hash)
      && fills == CountTrue(filled[..]) && deletes == CountTrue(deleted[..])
    }

    /** The finite map the table stands for. */
    ghost function Contents(): map<K, V>
      requires Shaped(Slots())
      reads this, filled, deleted, keys, values, codes
    {
      Map(Slots())
    }

    /** What a probe sees of the table. */
    ghost function Marks(): (s: seq<Mark<K>>)
      requires Shaped(Slots())
      reads this, filled, deleted, keys, values, codes
      ensures |s| == filled.Length
    {
      MarksOf(Slots())
    }

    /** Whether a probe for the key ends without a rehash. */
    ghost predicate Roomy(k: K)
      requires Shaped(Slots())
      reads this, filled, deleted, keys, values, codes
    {
      HasRoom(Slots(), hash, k)
    }

    method Allocate(n: nat)
      modifies this
      ensures capacity == n && fills == 0 && deletes == 0 && Separate() && Blank(Slots())
      ensures fresh(filled) && fresh(deleted) && fresh(keys) && fresh(values) && fresh(codes)
    {
      capacity, fills, deletes := n, 0, 0;
      keys, values, codes := new K[n], new V[n], new nat[n];
      filled := new bool[n](_ => false);
      deleted := new bool[n](_ => false);
      BlankBits(filled[..], deleted[..], keys[..], values[..], codes[..]);
    }

    /** Start over with an empty table. */
    method Reset(n: nat)
      modifies this
      ensures capacity == n && deletes == 0 && Valid() && Contents() == map[] && Marks() == Blanks(n)
      ensures fresh(filled) && fresh(deleted) && fresh(keys) && fresh(values) && fresh(codes)
    {
      hide Good, Map, CountTrue, Blank, MarksOf;
      Allocate(n);
      EmptyGood(Slots(), hash);
      BlankMarks(Slots());
    }

    /** Allocate the first table. */
    method Init()
      requires Valid()
      modifies this
      ensures Valid() && capacity > 0 && Contents() == old(Contents()) && Marks() == Begun(old(Marks()))
      ensures old(capacity) > 0 ==> unchanged(this)
      ensures old(capacity) == 0 ==> deletes == 0
      ensures old(capacity) == 0 ==> fresh(filled) && fresh(deleted) && fresh(keys) && fresh(values) && fresh(codes)
    {
      if capacity == 0 {
        Reset(11);
      }
    }

    method Fill(pos: nat, k: K, v: V, code: nat)
      requires Separate() && pos < capacity && !filled[pos]
      modifies this`fills, filled, keys, values, codes
      ensures Separate() && Slots() == Filled(old(Slots()), pos, k, v, code)
      ensures fills == old(fills) + 1
    {
      filled[pos] := true;
      values[pos] := v;
      keys[pos] := k;
      codes[pos] := code;
      fills := fills + 1;
    }

    method EraseAt(pos: nat)
      requires Valid() && Live(Slots(), pos)
      modifies this`deletes, deleted
      ensures Valid() && Contents() == old(Contents()) - {old(keys[pos])}
    {
      EraseRemoves(Slots(), hash, pos);
      CountSet(deleted[..], pos);
      ghost var t := Slots();
      deleted[pos] := true;
      deletes := deletes + 1;
      assert Slots() == Erased(t, pos);
    }

    method Overwrite(pos: nat, v: V)
      requires Valid() && Live(Slots(), pos)
      modifies values
      ensures Slots() == Revalued(old(Slots()), pos, v)
      ensures Valid() && Contents() == old(Contents())[keys[pos] := v]
    {
      RevalueReplaces(Slots(), hash, pos, v);
      ghost var t := Slots();
      values[pos] := v;
      assert Slots() == Revalued(t, pos, v);
    }

    /** Look for the key along its probe positions, up to the first slot that is not filled. */
    method Scan(code: nat, k: K) returns (j: nat, pos: nat, found: bool)
      requires Valid() && capacity > 0 && code == hash(k)
      ensures j <= 32 && pos < capacity && pos == Position(code, j, capacity)
      ensures found ==> Matches(Slots(), pos, k)
      ensures !found ==> k !in Contents() && AllFilled(filled[..], code, j)
      ensures !found && j < 32 ==> !filled[pos]
      ensures j == Stop(Marks(), code, k, 0) && (found ==> j < PROBES)
    {
      hide Reachable, Unique, Map, CountTrue, Passed, Position, Pow2, AllFilled, MarksOf, Stop;
      PassedStart(Slots(), hash, k);
      j, pos, found := 0, code % capacity, false;
      var step := 1;
      while filled[pos] && j < PROBES
        invariant j <= PROBES && pos < capacity && pos == Position(code, j, capacity) && step == Pow2(j)
        invariant Passed(Slots(), hash, k, j)
      {
        if code == codes[pos] && !deleted[pos] && keys[pos] == k {
          found := true;
          ScanStops(Slots(), hash, k, j);
          return;
        }
        PassedMore(Slots(), hash, k, j);
        pos := (pos + step) % capacity;
        step := 2 * step;
        j := j + 1;
      }
      PassedAll(Slots(), hash, k, j);
      ScanStops(Slots(), hash, k, j);
    }

    /** Filled slots less deleted ones is the number of keys. */
    lemma SizeIsKeys()
      requires Valid()
      ensures fills - deletes == |Contents()|
    {
      SizeIsCount(Slots(), |Slots().filled|);
      assert filled[..][..filled.Length] == filled[..] && deleted[..][..deleted.Length] == deleted[..];
    }

    /** The capacity to go on with: small again when most entries are gone, else as it is, a bit more, or double. */
    static method CalcNextSize(capacity: nat, fills: nat, deletes: nat) returns (size: nat)
      requires deletes <= fills
      ensures size == NextCapacity(capacity, fills, deletes)
    {
      if fills - deletes <= capacity / 4 {
        size := 11;
        while size < fills * 5 / 4
          invariant GrownTo(size, fills * 5 / 4) == GrownTo(11, fills * 5 / 4) && size >= 11
        {
          size := size * 2 + 1;
        }
        return;
      }
      if fills - deletes <= capacity / 2 {
        size := if deletes == 0 then capacity / 4 * 5 + 1 else capacity;
        return;
      }
      size := capacity * 2 + 1;
    }

    method NextSize() returns (size: nat)
      requires Valid() && capacity > 0
      ensures size > 0 && size == NextCapacity(|Marks()|, Fills(Marks()), Deads(Marks()))
      // There is room for every key, and for one more in any table of the usual size.
      ensures |Contents()| <= size && (capacity >= 11 ==> |Contents()| < size)
    {
      hide Good, Map, CountTrue, MarksOf, NextCapacity;
      MarksCounted(Slots());
      SizeIsKeys();
      size := CalcNextSize(capacity, fills, deletes);
      NextCapacityHolds(capacity, fills, deletes);
    }

    /** The slot of the key, or the empty slot where it belongs; a table without such a slot is rehashed first.
        The search gives up (`!ok`) when the rehashes nest deeper than `fuel`. */
    method Probe(code: nat, k: K, fuel: nat) returns (ok: bool, pos: nat, found: bool)
      requires Valid() && code == hash(k)
      modifies this
      ensures ok ==> Valid() && capacity > 0 && Contents() == old(Contents()) && pos < capacity
      ensures ok && old(deletes) == 0 ==> deletes == 0
      ensures ok && found ==> Matches(Slots(), pos, k)
      ensures ok && !found ==> k !in Contents() && Landed(Slots(), code, pos)
      // Whether it ends, and what the table is then.
      ensures ok <==> Settled(hash, Begun(old(Marks())), k, fuel).Some?
      ensures ok ==> Some(Marks()) == Settled(hash, Begun(old(Marks())), k, fuel)
      ensures ok ==> pos == Position(code, Stop(Marks(), code, k, 0), capacity)
      // It ends without a rehash exactly when the key is there or one of the probe's steps finds a free slot.
      ensures (old(Roomy(k)) ==> ok) && (fuel == 0 ==> (ok <==> old(Roomy(k))))
      ensures (filled == old(filled) || fresh(filled)) && (deleted == old(deleted) || fresh(deleted))
      ensures (keys == old(keys) || fresh(keys)) && (values == old(values) || fresh(values))
      ensures codes == old(codes) || fresh(codes)
      decreases fuel, 0
    {
      hide Good, Map, CountTrue, AllFilled, Landed, Position, MarksOf, Stop, HasRoom, Settled, Rebuilt, NextCapacity;
      hide Begun, Matches, Fills, Deads;
      RoomEnds(Slots(), hash, k);
      Init();
      ghost var s := Marks();
      var j;
      j, pos, found := Scan(code, k);
      if found {
        SettledHere(hash, s, k, fuel);
        return true, pos, true;
      }
      if filled[pos] || j == PROBES {
        SettledStuck(hash, s, k, fuel);
        if fuel == 0 {
          return false, pos, false;
        }
        var size := NextSize();
        ok := Rehash(size, fuel - 1);
        if ok {
          ok, pos, found := Probe(code, k, fuel - 1);
        }
        return;
      }
      LandedAt(Slots(), code, j);
      SettledHere(hash, s, k, fuel);
      return true, pos, false;
    }

    method Insert(k: K, v: V, fuel: nat) returns (ok: bool)
      requires Valid()
      modifies this, filled, keys, values, codes
      ensures ok ==> Valid() && capacity > 0 && Contents() == old(Contents())[k := v]
      ensures ok && old(deletes) == 0 ==> deletes == 0
      ensures ok <==> Inserted(hash, Begun(old(Marks())), k, fuel).Some?
      ensures ok ==> Some(Marks()) == Inserted(hash, Begun(old(Marks())), k, fuel)
      ensures (old(Roomy(k)) ==> ok) && (fuel == 0 ==> (ok <==> old(Roomy(k))))
      ensures (filled == old(filled) || fresh(filled)) && (deleted == old(deleted) || fresh(deleted))
      ensures (keys == old(keys) || fresh(keys)) && (values == old(values) || fresh(values))
      ensures codes == old(codes) || fresh(codes)
      decreases fuel, 1
    {
      hide Good, Map, CountTrue, Landed, MarksOf, Stop, HasRoom, Settled, Begun, Inserted, Position, Matches;
      ghost var s := Begun(Marks());
      var pos, found;
      ok, pos, found := Probe(hash(k), k, fuel);
      InsertedIs(hash, s, k, fuel, pos);
      if ok {
        PutAt(pos, found, k, v);
      }
    }

    /** Put the key into the slot where the probe for it ended. */
    method PutAt(pos: nat, found: bool, k: K, v: V)
      requires Valid() && capacity > 0 && pos < capacity
      requires if found then Matches(Slots(), pos, k) else k !in Contents() && Landed(Slots(), hash(k), pos)
      modifies this`fills, filled, keys, values, codes
      ensures Valid() && Contents() == old(Contents())[k := v] && Marks() == old(Marks())[pos := Holds(k)]
    {
      hide Good, Map, CountTrue, Landed, MarksOf;
      if found {
        RevaluedMarks(Slots(), pos, v);
        Overwrite(pos, v);
      } else {
        FillAdds(Slots(), hash, pos, k, v);
        FilledMarks(Slots(), pos, k, v, hash(k));
        CountSet(filled[..], pos);
        Fill(pos, k, v, hash(k));
      }
    }

    /** With 32 keys of its hash code in the table, no insertion of one more ends, however deep the rehashes nest. */
    method InsertCrowded(k: K, v: V, fuel: nat, ghost same: set<K>) returns (ok: bool)
      requires Valid() && k !in Contents()
      requires |same| == 32 && same <= Contents().Keys && forall x :: x in same ==> hash(x) == hash(k)
      modifies this, filled, keys, values, codes
      ensures !ok
    {
      hide Reachable, Unique, Map, CountTrue;
      ok := Insert(k, v, fuel);
      if ok {
        AtMostProbesShareACode(Slots(), hash, hash(k), same + {k});
      }
    }

    /** Insert the live entry `j` of the table `t`, as one step of building this one from it. */
    method Reinsert(k: K, v: V, fuel: nat, ghost t: Table<K, V>, ghost j: nat, ghost size: nat) returns (ok: bool)
      requires Valid() && capacity > 0 && Shaped(t) && Live(t, j) && k == t.keys[j] && v == t.values[j] && size > 0
      requires Contents() == Entries(t, j) && Rebuilt(hash, MarksOf(t), j, size, fuel) == Some(Marks())
      modifies this, filled, keys, values, codes
      ensures ok ==> Valid() && capacity > 0 && (old(deletes) == 0 ==> deletes == 0)
      ensures ok ==> Contents() == Entries(t, j + 1) && Rebuilt(hash, MarksOf(t), j + 1, size, fuel) == Some(Marks())
      ensures !ok ==> Rebuilt(hash, MarksOf(t), |t.filled|, size, fuel).None?
      ensures (filled == old(filled) || fresh(filled)) && (deleted == old(deleted) || fresh(deleted))
      ensures (keys == old(keys) || fresh(keys)) && (values == old(values) || fresh(values))
      ensures codes == old(codes) || fresh(codes)
      decreases fuel, 2
    {
      hide Good, Map, CountTrue, Inserted, Rebuilt, MarksOf, HasRoom, Entries;
      RebuiltNext(hash, MarksOf(t), j, size, fuel, Marks());
      EntriesStep(t, j);
      ok := Insert(k, v, fuel);
      if !ok {
        RebuiltInVain(hash, MarksOf(t), j + 1, |t.filled|, size, fuel);
      }
    }

    /** Build a new table of `size` slots out of the live entries. */
    method Rehash(size: nat, fuel: nat) returns (ok: bool)
      requires Valid() && size > 0
      modifies this
      ensures ok ==> Valid() && capacity > 0 && deletes == 0 && Contents() == old(Contents())
      ensures ok <==> Rebuilt(hash, old(Marks()), old(capacity), size, fuel).Some?
      ensures ok ==> Some(Marks()) == Rebuilt(hash, old(Marks()), old(capacity), size, fuel)
      ensures fresh(filled) && fresh(deleted) && fresh(keys) && fresh(values) && fresh(codes)
      decreases fuel, 3
    {
      hide Good, CountTrue, Inserted, Rebuilt, MarksOf, HasRoom;
      var oldCapacity, oldFilled, oldDeleted, oldKeys, oldValues := capacity, filled, deleted, keys, values;
      ghost var t := Slots();
      Reset(size);
      RebuiltStart(hash, MarksOf(t), size, fuel);
      for j := 0 to oldCapacity
        invariant Valid() && capacity > 0 && deletes == 0 && Contents() == Entries(t, j)
        invariant Rebuilt(hash, MarksOf(t), j, size, fuel) == Some(Marks())
        invariant fresh(filled) && fresh(deleted) && fresh(keys) && fresh(values) && fresh(codes)
      {
        if oldFilled[j] && !oldDeleted[j] {
          var inserted := Reinsert(oldKeys[j], oldValues[j], fuel, t, j, size);
          if !inserted {
            return false;
          }
        } else {
          RebuiltNext(hash, MarksOf(t), j, size, fuel, Marks());
        }
      }
      return true;
    }

    // ---- The operations of a hash ----

    method Erase(k: K, fuel: nat) returns (ok: bool)
      requires Valid()
      modifies this, deleted
      ensures ok ==> Valid() && Contents() == old(Contents()) - {k}
      ensures ok <==> Settled(hash, Begun(old(Marks())), k, fuel).Some?
      ensures (old(Roomy(k)) ==> ok) && (fuel == 0 ==> (ok <==> old(Roomy(k))))
    {
      hide Good, Map, CountTrue, Landed, Settled, Stop, MarksOf, HasRoom;
      var pos, found;
      ok, pos, found := Probe(hash(k), k, fuel);
      if ok && found {
        EraseAt(pos);
      }
    }

    /** The value of a key, found without a rehash. */
    method Get(k: K) returns (r: Result<V, HashError>)
      requires Valid()
      modifies this
      ensures Valid() && Contents() == old(Contents())
      ensures r == if k in Contents() then Ok(Contents()[k]) else Err(NotFilled)
    {
      hide Reachable, Map, CountTrue, AllFilled, Position;
      Init();
      var j, pos, found := Scan(hash(k), k);
      if !found {
        return Err(NotFilled);
      }
      Found(Slots(), k, pos);
      return Ok(values[pos]);
    }

    /** The same for a hash that may not change; here the lookup can rehash the table. */
    method Lookup(k: K, fuel: nat) returns (ok: bool, r: Result<V, HashError>)
      requires Valid()
      modifies this
      ensures ok ==> Valid() && Contents() == old(Contents())
      ensures ok ==> r == if k in Contents() then Ok(Contents()[k]) else Err(NotFilled)
      ensures ok <==> Settled(hash, Begun(old(Marks())), k, fuel).Some?
      ensures ok ==> Some(Marks()) == Settled(hash, Begun(old(Marks())), k, fuel)
      ensures (old(Roomy(k)) ==> ok) && (fuel == 0 ==> (ok <==> old(Roomy(k))))
    {
      hide Reachable, Map, CountTrue, Landed, Settled, Stop, MarksOf, HasRoom;
      var pos, found;
      ok, pos, found := Probe(hash(k), k, fuel);
      r := Err(NotFilled);
      if ok && found {
        Found(Slots(), k, pos);
        r := Ok(values[pos]);
      }
    }

    method Has(k: K, fuel: nat) returns (ok: bool, has: bool)
      requires Valid()
      modifies this
      ensures ok ==> Valid() && Contents() == old(Contents()) && (has <==> k in Contents())
      ensures ok <==> Settled(hash, Begun(old(Marks())), k, fuel).Some?
      ensures (old(Roomy(k)) ==> ok) && (fuel == 0 ==> (ok <==> old(Roomy(k))))
    {
      hide Reachable, Map, CountTrue, Landed, Settled, Stop, MarksOf, HasRoom;
      var pos;
      ok, pos, has := Probe(hash(k), k, fuel);
      if ok && has {
        Found(Slots(), k, pos);
      }
    }

    method Clear()
      modifies this
      ensures Valid() && Contents() == map[]
    {
      Reset(0);
    }

    method GetSize() returns (n: nat)
      requires Valid()
      ensures n == |Contents()|
    {
      SizeIsKeys();
      n := fills - deletes;
    }

    /** The first live slot from `start` on. */
    method NextPos(start: nat) returns (r: Option<nat>)
      requires Valid()
      ensures r.Some? ==> start <= r.value < capacity && Live(Slots(), r.value) && NoneLive(Slots(), start, r.value)
      ensures r.None? ==> NoneLive(Slots(), start, capacity)
    {
      hide Good;
      for j := start to Max(start, capacity)
        invariant NoneLive(Slots(), start, j)
      {
        if filled[j] && !deleted[j] {
          return Some(j);
        }
      }
      return None;
    }

    /** The first live slot from `start` on, or the end; no entry is passed over. */
    method Advance(start: nat) returns (i: nat)
      requires Valid() && start <= capacity
      ensures start <= i <= capacity && (i < capacity ==> Live(Slots(), i))
      ensures Entries(Slots(), i) == Entries(Slots(), start)
    {
      hide Good, CountTrue;
      var next := NextPos(start);
      i := if next.Some? then next.value else capacity;
      SkipDead(Slots(), start, i);
    }

    /** All keys, each once, and their values in the same order. */
    method GetEntries() returns (ks: seq<K>, vs: seq<V>)
      requires Valid()
      ensures |vs| == |ks| == |Contents()|
      ensures forall i :: 0 <= i < |ks| ==> ks[i] in Contents() && Contents()[ks[i]] == vs[i]
      ensures forall i, j :: 0 <= i < j < |ks| ==> ks[i] != ks[j]
      ensures forall k :: k in Contents() ==> k in ks
    {
      hide Reachable, CountTrue;
      ks, vs := [], [];
      ghost var t := Slots();
      for j := 0 to capacity
        invariant |vs| == |ks| == |Entries(t, j)|
        invariant forall i :: 0 <= i < |ks| ==> ks[i] in Entries(t, j) && Entries(t, j)[ks[i]] == vs[i]
        invariant forall x, y :: 0 <= x < y < |ks| ==> ks[x] != ks[y]
        invariant forall k :: k in Entries(t, j) ==> k in ks
      {
        if filled[j] && !deleted[j] {
          EntriesMeaning(t, j);
          assert Live(t, j) && keys[j] !in Entries(t, j);
          ks := ks + [keys[j]];
          vs := vs + [values[j]];
        }
      }
    }

    /** A table of its own with the same entries and the same capacity to start with. */
    method Copy(fuel: nat) returns (ok: bool, copy: HashCore<K, V>)
      requires Valid()
      ensures fresh(copy) && copy.hash == hash
      ensures ok ==> copy.Valid() && copy.Contents() == Contents()
      ensures ok <==> capacity == 0 || Rebuilt(hash, Marks(), capacity, capacity, fuel).Some?
    {
      hide Good, CountTrue, Entries, Map, Rebuilt, MarksOf, HasRoom;
      var t := Table(filled[..], deleted[..], keys[..], values[..], codes[..]);
      NoEntries(t);
      copy := new HashCore(hash);
      copy.Reset(capacity);
      ok := copy.CopyEntries(t, fuel);
    }

    /** Insert the live entries of another table of the same capacity. */
    method CopyEntries(t: Table<K, V>, fuel: nat) returns (ok: bool)
      requires Valid() && Good(t, hash) && Contents() == map[] && capacity == |t.filled| && Marks() == Blanks(capacity)
      modifies this, filled, keys, values, codes
      ensures ok ==> Valid() && Contents() == Map(t)
      ensures ok <==> t.filled == [] || Rebuilt(hash, MarksOf(t), |t.filled|, |t.filled|, fuel).Some?
    {
      hide Good, CountTrue, Entries, Map, Rebuilt, MarksOf, HasRoom;
      NoEntries(t);
      var size := |t.filled|;
      if size == 0 {
        return true;
      }
      RebuiltStart(hash, MarksOf(t), size, fuel);
      for j := 0 to size
        invariant filled == old(filled) || fresh(filled)
        invariant (keys == old(keys) || fresh(keys)) && (values == old(values) || fresh(values))
        invariant codes == old(codes) || fresh(codes)
        invariant Valid() && capacity > 0 && Contents() == Entries(t, j)
        invariant Rebuilt(hash, MarksOf(t), j, size, fuel) == Some(Marks())
      {
        if t.filled[j] && !t.deleted[j] {
          ok := Reinsert(t.keys[j], t.values[j], fuel, t, j, size);
          if !ok {
            return;
          }
        } else {
          RebuiltNext(hash, MarksOf(t), j, size, fuel, Marks());
          SkipDead(t, j, j + 1);
        }
      }
      ok := true;
    }

    /** Whether two hashes stand for the same map. A lookup in the other one may rehash it. */
    method Equals(other: HashCore<K, V>, fuel: nat) returns (ok: bool, same: bool)
      requires Valid() && other.Valid() && other != this && other.hash == hash
      modifies other
      ensures Valid() && Contents() == old(Contents())
      ensures ok ==> other.Valid() && other.Contents() == old(other.Contents())
      ensures ok ==> (same <==> Contents() == other.Contents())
      // It ends when no key needs a rehash of the other one.
      ensures AllStop(hash, Begun(old(other.Marks())), Contents().Keys) ==> ok
    {
      hide Good, CountTrue, Entries, Map, MarksOf, HasRoom, Stop, Settled, Begun, HashCore.Valid;
      var size := GetSize();
      var otherSize := other.GetSize();
      ok, same := true, false;
      if size != otherSize {
        return;
      }
      ghost var t, m := Slots(), other.Contents();
      ghost var s, stops := Begun(other.Marks()), AllStop(hash, Begun(other.Marks()), Contents().Keys);
      NoEntries(t);
      for j := 0 to capacity
        invariant other.Valid() && other.Contents() == m && Slots() == t && Valid()
        invariant stops ==> Begun(other.Marks()) == s
        invariant forall k :: k in Entries(t, j) ==> k in m && m[k] == Entries(t, j)[k]
      {
        if filled[j] && !deleted[j] {
          EntriesStep(t, j);
          LiveIsEntry(t, hash, j);
          if stops {
            SettledHere(hash, s, keys[j], fuel);
          }
          var value;
          ok, value := other.Lookup(keys[j], fuel);
          if !ok {
            return;
          }
          if value.Err? || values[j] != value.value {
            return true, false;
          }
        } else {
          SkipDead(t, j, j + 1);
        }
      }
      SameMap(Contents(), m);
      return true, true;
    }
  }

  /** Insert different keys of one hash code into a new table: it ends exactly for at most thirteen keys, however deep
      the rehashes may nest. */
  method InsertCrowd<K(==,0), V(==,0)>(hash: K -> nat, keys: seq<K>, v: V, fuel: nat, ghost h: nat)
    returns (ok: bool, table: HashCore<K, V>)
    requires forall i, j :: 0 <= i < j < |keys| ==> keys[i] != keys[j]
    requires forall i :: 0 <= i < |keys| ==> hash(keys[i]) == h
    ensures ok <==> |keys| <= if fuel == 0 then 10 else 13
    ensures fresh(table) && (ok ==> table.Valid() && table.Contents() == map k | k in keys :: v)
  {
    hide Good, CountTrue, Entries, Map, MarksOf, HasRoom, Stop, Settled, Inserted, Rebuilt;
    table := new HashCore(hash);
    ghost var s := KeyMarks(keys);
    CrowdEnds(hash, keys, h, fuel);
    RebuiltStart(hash, s, 11, fuel);
    assert table.Marks() == [];
    for i := 0 to |keys|
      invariant table.hash == hash && table.Valid() && table.Contents() == map k | k in keys[..i] :: v
      invariant Rebuilt(hash, s, i, 11, fuel) == Some(Begun(table.Marks()))
      invariant fresh(table) && fresh(table.filled) && fresh(table.deleted)
      invariant fresh(table.keys) && fresh(table.values) && fresh(table.codes)
    {
      RebuiltNext(hash, s, i, 11, fuel, Begun(table.Marks()));
      ok := table.Insert(keys[i], v, fuel);
      if !ok {
        RebuiltInVain(hash, s, i + 1, |s|, 11, fuel);
        return;
      }
      assert keys[..i + 1] == keys[..i] + [keys[i]];
    }
    assert keys[..|keys|] == keys;
    ok := true;
  }
}
