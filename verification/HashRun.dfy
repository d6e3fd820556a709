/** Whether an operation on a hash ends: what a probe and the rehashes it starts do to the marks of a table. */
module HashRun {
  import opened HashTable
  import opened Numbers
  import opened Wrappers

  /** All that a probe sees of a slot. */
  datatype Mark<K> = Empty | Dead | Holds(key: K)

  ghost function MarksOf<K, V>(t: Table<K, V>): (s: seq<Mark<K>>)
    requires Shaped(t)
    ensures |s| == |t.filled|
    ensures forall i :: 0 <= i < |s| ==>
              s[i] == if !t.filled[i] then Empty else if t.deleted[i] then Dead else Holds(t.keys[i])
  {
    seq(|t.filled|, i requires 0 <= i < |t.filled| =>
      if !t.filled[i] then Empty else if t.deleted[i] then Dead else Holds(t.keys[i]))
  }

  function Blanks<K>(n: nat): (s: seq<Mark<K>>)
    ensures |s| == n && forall i :: 0 <= i < n ==> s[i] == Empty
  {
    seq(n, _ => Empty)
  }

  /** The first operation allocates a table. */
  function Begun<K>(s: seq<Mark<K>>): (r: seq<Mark<K>>)
    ensures r != [] && (s != [] ==> r == s)
  {
    if s == [] then Blanks(11) else s
  }

  function Fills<K>(s: seq<Mark<K>>): (n: nat)
    ensures n <= |s|
  {
    if s == [] then 0 else Fills(s[..|s| - 1]) + (if s[|s| - 1].Empty? then 0 else 1)
  }

  function Deads<K>(s: seq<Mark<K>>): (n: nat)
    ensures n <= Fills(s)
  {
    if s == [] then 0 else Deads(s[..|s| - 1]) + (if s[|s| - 1].Dead? then 1 else 0)
  }

  /** A probe for `k` ends at its step `j`: it finds the key, or a place for it. */
  predicate EndsAt<K(==)>(s: seq<Mark<K>>, h: nat, k: K, j: nat)
    requires s != []
  {
    var m := s[Position(h, j, |s|)];
    m.Empty? || m == Holds(k)
  }

  /** The step at which a probe ends that comes to step `j`; PROBES when there is none. */
  function Stop<K(==)>(s: seq<Mark<K>>, h: nat, k: K, j: nat): (r: nat)
    requires s != [] && j <= PROBES
    ensures j <= r <= PROBES && (r < PROBES ==> EndsAt(s, h, k, r))
    ensures forall i :: j <= i < r ==> !EndsAt(s, h, k, i)
    decreases PROBES - j
  {
    if j == PROBES || EndsAt(s, h, k, j) then j else Stop(s, h, k, j + 1)
  }

  lemma StopIs<K>(s: seq<Mark<K>>, h: nat, k: K, j: nat)
    requires s != [] && j <= PROBES && (j == PROBES || EndsAt(s, h, k, j))
    requires forall i :: 0 <= i < j ==> !EndsAt(s, h, k, i)
    ensures Stop(s, h, k, 0) == j
  {
    var r := Stop(s, h, k, 0);
    assert r < PROBES ==> EndsAt(s, h, k, r);
  }

  /** The capacity of the next table. */
  function NextCapacity(capacity: nat, fills: nat, deletes: nat): (size: nat)
    requires deletes <= fills
    ensures size > 0
  {
    if fills - deletes <= capacity / 4 then GrownTo(11, fills * 5 / 4)
    else if fills - deletes <= capacity / 2 then (if deletes == 0 then capacity / 4 * 5 + 1 else capacity)
    else capacity * 2 + 1
  }

  /** There is room for the keys there are, and for one more in any table of the usual size. */
  lemma NextCapacityHolds(capacity: nat, fills: nat, deletes: nat)
    requires deletes <= fills && fills - deletes <= capacity
    ensures fills - deletes <= NextCapacity(capacity, fills, deletes)
    ensures capacity >= 11 ==> fills - deletes < NextCapacity(capacity, fills, deletes)
  {
  }

  /** The marks after a probe for `k`, when rehashes nest no deeper than `fuel`. */
  ghost function Settled<K>(hash: K -> nat, s: seq<Mark<K>>, k: K, fuel: nat): (r: Option<seq<Mark<K>>>)
    requires s != []
    ensures r.Some? ==> r.value != [] && Stop(r.value, hash(k), k, 0) < PROBES
    decreases fuel, 0
  {
    if Stop(s, hash(k), k, 0) < PROBES then Some(s)
    else if fuel == 0 then None
    else
      match Rebuilt(hash, s, |s|, NextCapacity(|s|, Fills(s), Deads(s)), fuel - 1)
      case None => None
      case Some(r) => Settled(hash, r, k, fuel - 1)
  }

  /** Probes for these keys all end without a rehash. */
  ghost predicate AllStop<K>(hash: K -> nat, s: seq<Mark<K>>, ks: set<K>)
    requires s != []
  {
    forall k :: k in ks ==> Stop(s, hash(k), k, 0) < PROBES
  }

  lemma SettledHere<K>(hash: K -> nat, s: seq<Mark<K>>, k: K, fuel: nat)
    requires s != [] && Stop(s, hash(k), k, 0) < PROBES
    ensures Settled(hash, s, k, fuel) == Some(s)
  {
  }

  lemma SettledStuck<K>(hash: K -> nat, s: seq<Mark<K>>, k: K, fuel: nat)
    requires s != [] && Stop(s, hash(k), k, 0) == PROBES
    ensures fuel == 0 ==> Settled(hash, s, k, fuel).None?
    ensures fuel > 0 ==>
              var r := Rebuilt(hash, s, |s|, NextCapacity(|s|, Fills(s), Deads(s)), fuel - 1);
              Settled(hash, s, k, fuel) == if r.None? then None else Settled(hash, r.value, k, fuel - 1)
  {
  }

  /** The marks once `k` was inserted. */
  ghost function Inserted<K>(hash: K -> nat, s: seq<Mark<K>>, k: K, fuel: nat): (r: Option<seq<Mark<K>>>)
    requires s != []
    ensures r.Some? ==> r.value != []
    decreases fuel, 1
  {
    match Settled(hash, s, k, fuel)
    case None => None
    case Some(r) => Some(Put(r, hash(k), k))
  }

  lemma InsertedIs<K>(hash: K -> nat, s: seq<Mark<K>>, k: K, fuel: nat, p: nat)
    requires s != []
    ensures Inserted(hash, s, k, fuel).Some? <==> Settled(hash, s, k, fuel).Some?
    ensures var r := Settled(hash, s, k, fuel);
            r.Some? && p == Position(hash(k), Stop(r.value, hash(k), k, 0), |r.value|) ==>
              p < |r.value| && Inserted(hash, s, k, fuel) == Some(r.value[p := Holds(k)])
  {
  }

  /** The key is put where the probe for it ends. */
  function Put<K(==)>(s: seq<Mark<K>>, h: nat, k: K): (r: seq<Mark<K>>)
    requires s != []
    ensures |r| == |s|
  {
    s[Position(h, Stop(s, h, k, 0), |s|) := Holds(k)]
  }

  /** The marks of a new table of `size` slots with the keys of the first `n` slots. */
  ghost function Rebuilt<K>(hash: K -> nat, s: seq<Mark<K>>, n: nat, size: nat, fuel: nat)
    : (r: Option<seq<Mark<K>>>)
    requires n <= |s| && size > 0
    ensures r.Some? ==> r.value != []
    decreases fuel, n + 2
  {
    if n == 0 then Some(Blanks(size))
    else
      match Rebuilt(hash, s, n - 1, size, fuel)
      case None => None
      case Some(r) => if s[n - 1].Holds? then Inserted(hash, r, s[n - 1].key, fuel) else Some(r)
  }

  lemma RebuiltStart<K>(hash: K -> nat, s: seq<Mark<K>>, size: nat, fuel: nat)
    requires size > 0
    ensures Rebuilt(hash, s, 0, size, fuel) == Some(Blanks(size))
  {
  }

  lemma RebuiltNext<K>(hash: K -> nat, s: seq<Mark<K>>, n: nat, size: nat, fuel: nat, r: seq<Mark<K>>)
    requires n < |s| && size > 0 && Rebuilt(hash, s, n, size, fuel) == Some(r)
    ensures r != []
    ensures Rebuilt(hash, s, n + 1, size, fuel) ==
            if s[n].Holds? then Inserted(hash, r, s[n].key, fuel) else Some(r)
  {
  }

  // ---- Fuel ----

  /** A run that ends, ends the same way with more fuel. */
  lemma {:induction false} MoreFuel<K>(hash: K -> nat, s: seq<Mark<K>>, k: K, f: nat, g: nat)
    requires s != [] && f <= g && Settled(hash, s, k, f).Some?
    ensures Settled(hash, s, k, g) == Settled(hash, s, k, f)
    decreases f, 0
  {
    hide Rebuilt, EndsAt, Stop, Fills, Deads, NextCapacity;
    if Stop(s, hash(k), k, 0) == PROBES {
      var size := NextCapacity(|s|, Fills(s), Deads(s));
      RebuiltMoreFuel(hash, s, |s|, size, f - 1, g - 1);
      MoreFuel(hash, Rebuilt(hash, s, |s|, size, f - 1).value, k, f - 1, g - 1);
    }
  }

  lemma {:induction false} RebuiltMoreFuel<K>(hash: K -> nat, s: seq<Mark<K>>, n: nat, size: nat, f: nat, g: nat)
    requires n <= |s| && size > 0 && f <= g && Rebuilt(hash, s, n, size, f).Some?
    ensures Rebuilt(hash, s, n, size, g) == Rebuilt(hash, s, n, size, f)
    decreases f, n + 1
  {
    if n > 0 {
      RebuiltMoreFuel(hash, s, n - 1, size, f, g);
      if s[n - 1].Holds? {
        MoreFuel(hash, Rebuilt(hash, s, n - 1, size, f).value, s[n - 1].key, f, g);
      }
    }
  }

  lemma {:induction false} RebuiltInVain<K>(hash: K -> nat, s: seq<Mark<K>>, n: nat, m: nat, size: nat, fuel: nat)
    requires n <= m <= |s| && size > 0 && Rebuilt(hash, s, n, size, fuel).None?
    ensures Rebuilt(hash, s, m, size, fuel).None?
    decreases m
  {
    if n < m {
      RebuiltInVain(hash, s, n, m - 1, size, fuel);
    }
  }

  // ---- Marks and tables ----

  /** A scan that has passed `j` steps and ends there, ends where the marks say. */
  lemma ScanStops<K, V>(t: Table<K, V>, hash: K -> nat, k: K, j: nat)
    requires Shaped(t) && t.filled != [] && j <= PROBES && Passed(t, hash, k, j)
    requires var p := Position(hash(k), j, |t.filled|); j == PROBES || !t.filled[p] || Matches(t, p, k)
    ensures Stop(MarksOf(t), hash(k), k, 0) == j
  {
    var s := MarksOf(t);
    forall i | 0 <= i < j
      ensures !EndsAt(s, hash(k), k, i)
    {
      assert !Matches(t, Position(hash(k), i, |t.filled|), k);
    }
    StopIs(s, hash(k), k, j);
  }

  lemma {:induction false} FillsAreCounted<K, V>(t: Table<K, V>, n: nat)
    requires Shaped(t) && n <= |t.filled|
    ensures Fills(MarksOf(t)[..n]) == CountTrue(t.filled[..n]) && Deads(MarksOf(t)[..n]) == CountTrue(t.deleted[..n])
  {
    if n > 0 {
      FillsAreCounted(t, n - 1);
      var s := MarksOf(t);
      assert s[..n][..n - 1] == s[..n - 1];
      assert t.filled[..n][..n - 1] == t.filled[..n - 1] && t.deleted[..n][..n - 1] == t.deleted[..n - 1];
    }
  }

  lemma MarksCounted<K, V>(t: Table<K, V>)
    requires Shaped(t)
    ensures Fills(MarksOf(t)) == CountTrue(t.filled) && Deads(MarksOf(t)) == CountTrue(t.deleted)
  {
    FillsAreCounted(t, |t.filled|);
    assert MarksOf(t)[..|t.filled|] == MarksOf(t);
    assert t.filled[..|t.filled|] == t.filled && t.deleted[..|t.filled|] == t.deleted;
  }

  lemma BlankMarks<K, V>(t: Table<K, V>)
    requires Blank(t)
    ensures Shaped(t) && MarksOf(t) == Blanks(|t.filled|)
  {
  }

  lemma FilledMarks<K, V>(t: Table<K, V>, p: nat, k: K, v: V, h: nat)
    requires Shaped(t) && p < |t.filled| && !t.filled[p]
    ensures Shaped(Filled(t, p, k, v, h)) && MarksOf(Filled(t, p, k, v, h)) == MarksOf(t)[p := Holds(k)]
  {
  }

  lemma RevaluedMarks<K, V>(t: Table<K, V>, p: nat, v: V)
    requires Shaped(t) && Live(t, p)
    ensures Shaped(Revalued(t, p, v)) && MarksOf(Revalued(t, p, v)) == MarksOf(t)[p := Holds(t.keys[p])]
  {
  }

  /** The key is in the table, or a probe for it comes to a slot that is not filled. */
  ghost predicate HasRoom<K, V>(t: Table<K, V>, hash: K -> nat, k: K)
    requires Shaped(t)
  {
    || t.filled == []
    || k in Map(t)
    || exists j :: 0 <= j < 32 && !t.filled[Position(hash(k), j, |t.filled|)]
  }

  /** This is when a probe ends without a rehash. */
  lemma RoomEnds<K, V>(t: Table<K, V>, hash: K -> nat, k: K)
    requires Good(t, hash)
    ensures HasRoom(t, hash, k) <==> Settled(hash, Begun(MarksOf(t)), k, 0).Some?
    ensures HasRoom(t, hash, k) ==> forall fuel :: Settled(hash, Begun(MarksOf(t)), k, fuel).Some?
  {
    var s, h := Begun(MarksOf(t)), hash(k);
    if t.filled == [] {
      assert EndsAt(s, h, k, 0);
    } else {
      EntriesMeaning(t, |t.filled|);
      var r := Stop(s, h, k, 0);
      if r < PROBES {
        var i := Position(h, r, |s|);
        assert EndsAt(s, h, k, r) && (t.filled[i] ==> Live(t, i) && t.keys[i] == k);
      }
      if k in Map(t) {
        var i :| 0 <= i < |t.filled| && Live(t, i) && t.keys[i] == k;
        assert Reached(t.filled, t.codes[i], i);
        var j :| 0 <= j < PROBES && Position(h, j, |t.filled|) == i;
        assert EndsAt(s, h, k, j);
      } else if j :| 0 <= j < PROBES && !t.filled[Position(h, j, |t.filled|)] {
        assert EndsAt(s, h, k, j);
      }
    }
  }
}
