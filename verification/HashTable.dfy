/** The table of a hash on values: probe positions, what the slots stand for, and what every operation keeps. */
module HashTable {
  import opened Numbers

  /** The five parallel arrays of a hash table. */
  datatype Table<K, V> = Table(filled: seq<bool>, deleted: seq<bool>, keys: seq<K>, values: seq<V>, codes: seq<nat>)

  /** A probe looks at no more than this many slots. */
  const PROBES: nat := 32

  /** The slot a probe for hash code `h` looks at in step `j`: the steps double. */
  function Position(h: nat, j: nat, capacity: nat): (p: nat)
    requires capacity > 0
    ensures p < capacity
  {
    if j == 0 then h % capacity else (Position(h, j - 1, capacity) + Pow2(j - 1)) % capacity
  }

  ghost predicate Shaped<K, V>(t: Table<K, V>)
  {
    && |t.deleted| == |t.filled| && |t.keys| == |t.filled| && |t.values| == |t.filled| && |t.codes| == |t.filled|
    && forall i :: 0 <= i < |t.filled| && t.deleted[i] ==> t.filled[i]
  }

  ghost predicate Live<K, V>(t: Table<K, V>, i: int)
  {
    0 <= i < |t.filled| && i < |t.deleted| && t.filled[i] && !t.deleted[i]
  }

  /** The first `j` slots a probe for `h` looks at are filled. */
  ghost predicate AllFilled(filled: seq<bool>, h: nat, j: nat)
    requires filled != []
  {
    forall i :: 0 <= i < j ==> filled[Position(h, i, |filled|)]
  }

  /** A probe for `h` comes to slot `i` within its steps, before any slot that is not filled. */
  ghost predicate Reached(filled: seq<bool>, h: nat, i: int)
    requires filled != []
  {
    exists j :: 0 <= j < PROBES && Position(h, j, |filled|) == i && AllFilled(filled, h, j)
  }

  /** Live slots carry their key's hash code and are reached by a probe for it. */
  ghost predicate Reachable<K, V>(t: Table<K, V>, hash: K -> nat)
    requires Shaped(t)
  {
    forall i :: Live(t, i) ==> t.codes[i] == hash(t.keys[i]) && Reached(t.filled, t.codes[i], i)
  }

  /** No key is live twice. */
  ghost predicate Unique<K, V>(t: Table<K, V>)
    requires Shaped(t)
  {
    forall i, j :: Live(t, i) && Live(t, j) && t.keys[i] == t.keys[j] ==> i == j
  }

  /** What holds between any two operations. */
  ghost predicate Good<K, V>(t: Table<K, V>, hash: K -> nat)
    ensures Good(t, hash) ==> Shaped(t)
  {
    Shaped(t) && Reachable(t, hash) && Unique(t)
  }

  /** The finite map that the first `n` slots stand for. */
  ghost function Entries<K, V>(t: Table<K, V>, n: nat): map<K, V>
    requires Shaped(t) && n <= |t.filled|
  {
    if n == 0 then map[]
    else if Live(t, n - 1) then Entries(t, n - 1)[t.keys[n - 1] := t.values[n - 1]]
    else Entries(t, n - 1)
  }

  ghost function Map<K, V>(t: Table<K, V>): map<K, V>
    requires Shaped(t)
  {
    Entries(t, |t.filled|)
  }

  lemma {:induction false} EntriesMeaning<K, V>(t: Table<K, V>, n: nat)
    requires Shaped(t) && Unique(t) && n <= |t.filled|
    ensures forall i :: 0 <= i < n && Live(t, i) ==>
              t.keys[i] in Entries(t, n) && Entries(t, n)[t.keys[i]] == t.values[i]
    ensures forall k :: k in Entries(t, n) ==> exists i :: 0 <= i < n && Live(t, i) && t.keys[i] == k
  {
    if n > 0 {
      EntriesMeaning(t, n - 1);
      forall k | k in Entries(t, n)
        ensures exists i :: 0 <= i < n && Live(t, i) && t.keys[i] == k
      {
        if k in Entries(t, n - 1) {
          var i :| 0 <= i < n - 1 && Live(t, i) && t.keys[i] == k;
        } else {
          assert Live(t, n - 1) && t.keys[n - 1] == k;
        }
      }
    }
  }

  lemma {:induction false} NothingLive<K, V>(t: Table<K, V>, n: nat)
    requires Shaped(t) && n <= |t.filled| && forall i :: 0 <= i < |t.filled| ==> !t.filled[i]
    ensures Entries(t, n) == map[]
  {
    if n > 0 {
      NothingLive(t, n - 1);
    }
  }

  /** No slot was ever filled. */
  ghost predicate Blank<K, V>(t: Table<K, V>)
  {
    && |t.deleted| == |t.filled| && |t.keys| == |t.filled| && |t.values| == |t.filled| && |t.codes| == |t.filled|
    && forall i :: 0 <= i < |t.filled| ==> !t.filled[i] && !t.deleted[i]
  }

  lemma BlankBits<K, V>(filled: seq<bool>, deleted: seq<bool>, keys: seq<K>, values: seq<V>, codes: seq<nat>)
    requires |deleted| == |filled| && |keys| == |filled| && |values| == |filled| && |codes| == |filled|
    requires forall i :: 0 <= i < |filled| ==> !filled[i]
    requires forall i :: 0 <= i < |deleted| ==> !deleted[i]
    ensures Blank(Table(filled, deleted, keys, values, codes))
  {
  }

  /** A table without filled slots is good and empty. */
  lemma EmptyGood<K, V>(t: Table<K, V>, hash: K -> nat)
    requires Blank(t)
    ensures Good(t, hash) && Map(t) == map[] && CountTrue(t.filled) == 0 && CountTrue(t.deleted) == 0
  {
    CountNone(t.filled);
    CountNone(t.deleted);
    NothingLive(t, |t.filled|);
  }

  // ---- What a probe finds ----

  /** Slot `i` holds the key. */
  ghost predicate Matches<K, V>(t: Table<K, V>, i: int, k: K)
    requires Shaped(t)
  {
    Live(t, i) && t.keys[i] == k
  }

  /** When no slot matches up to the first that is not filled, or up to the last probe step, the key is nowhere. */
  lemma ProbedInVain<K, V>(t: Table<K, V>, hash: K -> nat, k: K, j: nat)
    requires Good(t, hash) && t.filled != [] && j <= 32
    requires forall i :: 0 <= i < j ==> !Matches(t, Position(hash(k), i, |t.filled|), k)
    requires j == 32 || !t.filled[Position(hash(k), j, |t.filled|)]
    ensures k !in Map(t)
  {
    EntriesMeaning(t, |t.filled|);
    forall i | Live(t, i)
      ensures t.keys[i] != k
    {
      assert Reached(t.filled, t.codes[i], i);
      var n :| 0 <= n < PROBES && Position(t.codes[i], n, |t.filled|) == i && AllFilled(t.filled, t.codes[i], n);
      if n < j {
        assert !Matches(t, Position(hash(k), n, |t.filled|), k);
      }
    }
  }

  /** None of the first `j` slots a probe for the key looks at holds it, though all are filled. */
  ghost predicate Passed<K, V>(t: Table<K, V>, hash: K -> nat, k: K, j: nat)
    requires Shaped(t) && t.filled != []
  {
    && AllFilled(t.filled, hash(k), j)
    && forall i :: 0 <= i < j ==> !Matches(t, Position(hash(k), i, |t.filled|), k)
  }

  lemma PassedStart<K, V>(t: Table<K, V>, hash: K -> nat, k: K)
    requires Shaped(t) && t.filled != []
    ensures Passed(t, hash, k, 0) && Position(hash(k), 0, |t.filled|) == hash(k) % |t.filled| && Pow2(0) == 1
  {
  }

  /** One probe step. */
  lemma PassedMore<K, V>(t: Table<K, V>, hash: K -> nat, k: K, j: nat)
    requires Good(t, hash) && t.filled != [] && Passed(t, hash, k, j)
    requires var p := Position(hash(k), j, |t.filled|);
             t.filled[p] && !(hash(k) == t.codes[p] && !t.deleted[p] && t.keys[p] == k)
    ensures Passed(t, hash, k, j + 1) && Pow2(j + 1) == 2 * Pow2(j)
    ensures Position(hash(k), j + 1, |t.filled|) == (Position(hash(k), j, |t.filled|) + Pow2(j)) % |t.filled|
  {
  }

  /** A probe that ends without a match. */
  lemma PassedAll<K, V>(t: Table<K, V>, hash: K -> nat, k: K, j: nat)
    requires Good(t, hash) && t.filled != [] && j <= PROBES && Passed(t, hash, k, j)
    requires j == PROBES || !t.filled[Position(hash(k), j, |t.filled|)]
    ensures k !in Map(t) && AllFilled(t.filled, hash(k), j)
  {
    ProbedInVain(t, hash, k, j);
  }

  /** Slot `pos` is the empty one that a probe for the key ends at. */
  ghost predicate Landed<K, V>(t: Table<K, V>, code: nat, pos: nat)
    requires Shaped(t) && t.filled != []
  {
    && pos < |t.filled| && !t.filled[pos]
    && exists j :: 0 <= j < PROBES && pos == Position(code, j, |t.filled|) && AllFilled(t.filled, code, j)
  }

  lemma LandedAt<K, V>(t: Table<K, V>, code: nat, j: nat)
    requires Shaped(t) && t.filled != [] && j < PROBES && AllFilled(t.filled, code, j)
    requires !t.filled[Position(code, j, |t.filled|)]
    ensures Landed(t, code, Position(code, j, |t.filled|))
  {
  }

  lemma Found<K, V>(t: Table<K, V>, k: K, i: nat)
    requires Shaped(t) && Unique(t) && Matches(t, i, k)
    ensures k in Map(t) && Map(t)[k] == t.values[i]
  {
    EntriesMeaning(t, |t.filled|);
  }

  // ---- The three ways a table changes ----

  function Filled<K, V>(t: Table<K, V>, i: nat, k: K, v: V, h: nat): Table<K, V>
    requires i < |t.filled| && i < |t.keys| && i < |t.values| && i < |t.codes|
  {
    t.(filled := t.filled[i := true], keys := t.keys[i := k], values := t.values[i := v], codes := t.codes[i := h])
  }

  function Erased<K, V>(t: Table<K, V>, i: nat): Table<K, V>
    requires i < |t.deleted|
  {
    t.(deleted := t.deleted[i := true])
  }

  function Revalued<K, V>(t: Table<K, V>, i: nat, v: V): Table<K, V>
    requires i < |t.values|
  {
    t.(values := t.values[i := v])
  }

  lemma StillReached(filled: seq<bool>, h: nat, i: int, p: nat)
    requires filled != [] && p < |filled| && Reached(filled, h, i)
    ensures Reached(filled[p := true], h, i)
  {
    var j :| 0 <= j < PROBES && Position(h, j, |filled|) == i && AllFilled(filled, h, j);
    assert AllFilled(filled[p := true], h, j);
  }

  /** Filling the empty slot a probe for a new key ended at adds that key. */
  lemma FillAdds<K, V>(t: Table<K, V>, hash: K -> nat, p: nat, k: K, v: V)
    requires Good(t, hash) && t.filled != [] && k !in Map(t) && Landed(t, hash(k), p)
    ensures var t' := Filled(t, p, k, v, hash(k));
            Good(t', hash) && Map(t') == Map(t)[k := v] && !t.filled[p]
  {
    var j :| 0 <= j < PROBES && p == Position(hash(k), j, |t.filled|) && AllFilled(t.filled, hash(k), j);
    var t' := Filled(t, p, k, v, hash(k));
    EntriesMeaning(t, |t.filled|);
    assert forall i :: i != p ==> (Live(t', i) <==> Live(t, i));
    forall i | Live(t', i)
      ensures t'.codes[i] == hash(t'.keys[i]) && Reached(t'.filled, t'.codes[i], i)
    {
      if i == p {
        assert Position(hash(k), j, |t'.filled|) == i && AllFilled(t'.filled, hash(k), j);
      } else {
        assert Live(t, i);
        StillReached(t.filled, t.codes[i], i, p);
      }
    }
    assert Reachable(t', hash);
    FilledEntries(t, p, k, v, hash(k), |t.filled|);
  }

  lemma {:induction false} FilledEntries<K, V>(t: Table<K, V>, p: nat, k: K, v: V, h: nat, n: nat)
    requires Shaped(t) && p < |t.filled| && !t.filled[p] && n <= |t.filled|
    requires forall i :: Live(t, i) ==> t.keys[i] != k
    ensures Shaped(Filled(t, p, k, v, h))
    ensures Entries(Filled(t, p, k, v, h), n) == if p < n then Entries(t, n)[k := v] else Entries(t, n)
  {
    if n > 0 {
      FilledEntries(t, p, k, v, h, n - 1);
      assert Live(t, n - 1) ==> t.keys[n - 1] != k;
    }
  }

  /** Marking a live slot as deleted removes its key, and nothing else. */
  lemma EraseRemoves<K, V>(t: Table<K, V>, hash: K -> nat, p: nat)
    requires Good(t, hash) && Live(t, p)
    ensures Good(Erased(t, p), hash) && Map(Erased(t, p)) == Map(t) - {t.keys[p]}
  {
    var t' := Erased(t, p);
    assert forall i :: Live(t', i) <==> Live(t, i) && i != p;
    ErasedEntries(t, p, |t.filled|);
  }

  lemma {:induction false} ErasedEntries<K, V>(t: Table<K, V>, p: nat, n: nat)
    requires Shaped(t) && Unique(t) && Live(t, p) && n <= |t.filled|
    ensures Shaped(Erased(t, p))
    ensures Entries(Erased(t, p), n) == Entries(t, n) - {t.keys[p]}
  {
    if n > 0 {
      ErasedEntries(t, p, n - 1);
      assert Live(t, n - 1) && n - 1 != p ==> t.keys[n - 1] != t.keys[p];
    }
  }

  /** Putting a new value into a live slot changes what its key is mapped to. */
  lemma RevalueReplaces<K, V>(t: Table<K, V>, hash: K -> nat, p: nat, v: V)
    requires Good(t, hash) && Live(t, p)
    ensures Good(Revalued(t, p, v), hash) && Map(Revalued(t, p, v)) == Map(t)[t.keys[p] := v]
  {
    var t' := Revalued(t, p, v);
    assert forall i :: Live(t', i) <==> Live(t, i);
    RevaluedEntries(t, p, v, |t.filled|);
  }

  lemma {:induction false} RevaluedEntries<K, V>(t: Table<K, V>, p: nat, v: V, n: nat)
    requires Shaped(t) && Unique(t) && Live(t, p) && n <= |t.filled|
    ensures Shaped(Revalued(t, p, v))
    ensures Entries(Revalued(t, p, v), n) == if p < n then Entries(t, n)[t.keys[p] := v] else Entries(t, n)
  {
    if n > 0 {
      RevaluedEntries(t, p, v, n - 1);
      assert Live(t, n - 1) && n - 1 != p ==> t.keys[n - 1] != t.keys[p];
    }
  }

  // ---- Counting ----

  function CountTrue(s: seq<bool>): (n: nat)
    ensures n <= |s|
  {
    if s == [] then 0 else CountTrue(s[..|s| - 1]) + (if s[|s| - 1] then 1 else 0)
  }

  lemma {:induction false} CountSet(s: seq<bool>, i: nat)
    requires i < |s| && !s[i]
    ensures CountTrue(s[i := true]) == CountTrue(s) + 1
  {
    var n := |s| - 1;
    if i < n {
      CountSet(s[..n], i);
      assert s[i := true][..n] == s[..n][i := true];
    } else {
      assert s[i := true][..n] == s[..n];
    }
  }

  lemma {:induction false} CountNone(s: seq<bool>)
    requires forall i :: 0 <= i < |s| ==> !s[i]
    ensures CountTrue(s) == 0
  {
    if s != [] {
      CountNone(s[..|s| - 1]);
    }
  }

  /** Filled slots less deleted ones is the number of keys. */
  lemma {:induction false} SizeIsCount<K, V>(t: Table<K, V>, n: nat)
    requires Shaped(t) && Unique(t) && n <= |t.filled|
    ensures |Entries(t, n)| == CountTrue(t.filled[..n]) - CountTrue(t.deleted[..n])
  {
    if n > 0 {
      SizeIsCount(t, n - 1);
      assert t.filled[..n][..n - 1] == t.filled[..n - 1] && t.deleted[..n][..n - 1] == t.deleted[..n - 1];
      EntriesMeaning(t, n - 1);
      if Live(t, n - 1) {
        assert t.keys[n - 1] !in Entries(t, n - 1);
      }
    }
  }

  // ---- The size of the next table ----

  /** `c` doubled, and one added, until it is at least `n`. */
  function GrownTo(c: nat, n: nat): (d: nat)
    requires c > 0
    ensures d >= c && d >= n
    decreases n - c
  {
    if c < n then GrownTo(2 * c + 1, n) else c
  }

  // ---- The limit of the probe ----

  /** The slots a probe for `h` looks at in its first `n` steps. */
  ghost function Probed(h: nat, n: nat, capacity: nat): (s: set<nat>)
    requires capacity > 0
    ensures |s| <= n
    ensures forall j :: 0 <= j < n ==> Position(h, j, capacity) in s
  {
    if n == 0 then {} else Probed(h, n - 1, capacity) + {Position(h, n - 1, capacity)}
  }

  /** The live slot a key is in. */
  ghost function SlotOf<K, V>(t: Table<K, V>, k: K): (i: nat)
    requires Shaped(t) && Unique(t) && k in Map(t)
    ensures Matches(t, i, k)
  {
    EntriesMeaning(t, |t.filled|);
    var i: nat :| i < |t.filled| && Live(t, i) && t.keys[i] == k;
    i
  }

  /** No table can hold more keys with the same hash code than a probe has steps, so inserting one more never ends. */
  lemma AtMostProbesShareACode<K, V>(t: Table<K, V>, hash: K -> nat, h: nat, same: set<K>)
    requires Good(t, hash) && same <= Map(t).Keys && forall k :: k in same ==> hash(k) == h
    ensures |same| <= 32
  {
    if same != {} {
      var k0 :| k0 in same;
      assert Matches(t, SlotOf(t, k0), k0);
      var slots := set k | k in same :: SlotOf(t, k);
      SameSize(t, same, slots);
      forall i | i in slots
        ensures i in Probed(h, PROBES, |t.filled|)
      {
        var k :| k in same && SlotOf(t, k) == i;
        assert Matches(t, i, k) && Reached(t.filled, h, i);
      }
      SubsetSmaller(slots, Probed(h, PROBES, |t.filled|));
    }
  }

  /** Different keys are in different slots. */
  lemma {:induction false} SameSize<K, V>(t: Table<K, V>, same: set<K>, slots: set<nat>)
    requires Shaped(t) && Unique(t) && same <= Map(t).Keys
    requires slots == set k | k in same :: SlotOf(t, k)
    ensures |slots| == |same|
  {
    if same != {} {
      var k :| k in same;
      var rest := same - {k};
      SameSize(t, rest, set x | x in rest :: SlotOf(t, x));
      assert slots == (set x | x in rest :: SlotOf(t, x)) + {SlotOf(t, k)};
      forall x | x in rest
        ensures SlotOf(t, x) != SlotOf(t, k)
      {
        assert Matches(t, SlotOf(t, x), x) && Matches(t, SlotOf(t, k), k);
      }
    }
  }

  /** Once 32 keys share a hash code, no table holds one more key with that code: an insertion of it cannot end. */
  lemma CrowdedCode<K, V>(m: map<K, V>, hash: K -> nat, same: set<K>, k: K, v: V)
    requires |same| == 32 && same <= m.Keys && k !in same
    requires forall x :: x in same ==> hash(x) == hash(k)
    ensures forall t: Table<K, V> :: Good(t, hash) ==> Map(t) != m[k := v]
  {
    forall t: Table<K, V> | Good(t, hash) && Map(t) == m[k := v]
      ensures false
    {
      AtMostProbesShareACode(t, hash, hash(k), same + {k});
    }
  }

  /** The live slots from `i` on that come before `n`. */
  ghost predicate NoneLive<K, V>(t: Table<K, V>, i: int, n: int)
  {
    forall j :: i <= j < n ==> !Live(t, j)
  }

  lemma EntriesStep<K, V>(t: Table<K, V>, p: nat)
    requires Shaped(t) && Live(t, p)
    ensures Entries(t, p + 1) == Entries(t, p)[t.keys[p] := t.values[p]]
  {
  }

  lemma LiveIsEntry<K, V>(t: Table<K, V>, hash: K -> nat, p: nat)
    requires Good(t, hash) && Live(t, p)
    ensures t.keys[p] in Map(t) && Map(t)[t.keys[p]] == t.values[p]
  {
    EntriesMeaning(t, |t.filled|);
  }

  lemma NoEntries<K, V>(t: Table<K, V>)
    requires Shaped(t)
    ensures Entries(t, 0) == map[] && Entries(t, |t.filled|) == Map(t)
  {
  }

  lemma {:induction false} SkipDead<K, V>(t: Table<K, V>, i: nat, n: nat)
    requires Shaped(t) && i <= n <= |t.filled| && NoneLive(t, i, n)
    ensures Entries(t, n) == Entries(t, i)
  {
    if i < n {
      SkipDead(t, i, n - 1);
    }
  }

  /** A map that has every entry of another and no more entries is that map. */
  lemma SameMap<K, V>(m: map<K, V>, m': map<K, V>)
    requires |m| == |m'| && forall k :: k in m ==> k in m' && m'[k] == m[k]
    ensures m == m'
  {
    assert m.Keys <= m'.Keys && |m.Keys| == |m| && |m'.Keys| == |m'|;
    SubsetIsAll(m.Keys, m'.Keys);
  }

  lemma {:induction false} SubsetIsAll<K>(a: set<K>, b: set<K>)
    requires a <= b && |a| == |b|
    ensures a == b
  {
    if x :| x in b && x !in a {
      assert |b - {x}| == |b| - 1 && a <= b - {x};
      SubsetSmaller(a, b - {x});
    }
  }

  lemma {:induction false} SubsetSmaller<K>(a: set<K>, b: set<K>)
    requires a <= b
    ensures |a| <= |b|
  {
    if a != {} {
      var x :| x in a;
      SubsetSmaller(a - {x}, b - {x});
    }
  }
}
