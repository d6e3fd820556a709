/** Keys that share a hash code: how many of them go into a table. */
module HashCrowd {
  import opened HashRun
  import opened HashTable
  import opened Numbers
  import opened Wrappers

  // ---- Tables with keys of one hash code ----

  /** No slot is deleted, the keys are distinct, and all have the hash code `h`. */
  ghost predicate OneCode<K>(hash: K -> nat, s: seq<Mark<K>>, h: nat)
  {
    && (forall i :: 0 <= i < |s| ==> !s[i].Dead?)
    && (forall i :: 0 <= i < |s| && s[i].Holds? ==> hash(s[i].key) == h)
    && (forall i, j :: 0 <= i < j < |s| && s[i].Holds? && s[j].Holds? ==> s[i].key != s[j].key)
  }

  /** A probe for `h` comes to slot `i` over filled slots. */
  ghost predicate OnPath<K>(s: seq<Mark<K>>, h: nat, i: nat)
    requires s != []
  {
    exists j :: 0 <= j < PROBES && Position(h, j, |s|) == i && Covered(s, h, j)
  }

  ghost predicate Covered<K>(s: seq<Mark<K>>, h: nat, j: nat)
    requires s != []
  {
    forall x :: 0 <= x < j ==> !s[Position(h, x, |s|)].Empty?
  }

  ghost predicate Tight<K>(hash: K -> nat, s: seq<Mark<K>>, h: nat)
  {
    s != [] && OneCode(hash, s, h) && forall i :: 0 <= i < |s| && !s[i].Empty? ==> OnPath(s, h, i)
  }

  ghost function Keys<K>(s: seq<Mark<K>>): (ks: set<K>)
    ensures forall k :: k in ks ==> Holds(k) in s
    ensures forall i :: 0 <= i < |s| && s[i].Holds? ==> s[i].key in ks
  {
    set i | 0 <= i < |s| && s[i].Holds? :: s[i].key
  }

  ghost function FilledSlots<K>(s: seq<Mark<K>>): set<nat>
  {
    set i: nat | i < |s| && !s[i].Empty?
  }

  lemma {:induction false} FillsCount<K>(s: seq<Mark<K>>)
    ensures |FilledSlots(s)| == Fills(s)
  {
    if s != [] {
      var n := |s| - 1;
      FillsCount(s[..n]);
      assert FilledSlots(s) == FilledSlots(s[..n]) + if s[n].Empty? then {} else {n};
    }
  }

  lemma {:induction false} NoneDead<K>(s: seq<Mark<K>>)
    requires forall i :: 0 <= i < |s| ==> !s[i].Dead?
    ensures Deads(s) == 0
  {
    if s != [] {
      NoneDead(s[..|s| - 1]);
    }
  }

  lemma {:induction false} ProbedMeaning(h: nat, n: nat, capacity: nat, p: nat)
    requires capacity > 0 && p in Probed(h, n, capacity)
    ensures exists j :: 0 <= j < n && Position(h, j, capacity) == p
  {
    if p in Probed(h, n - 1, capacity) {
      ProbedMeaning(h, n - 1, capacity, p);
    } else {
      assert Position(h, n - 1, capacity) == p;
    }
  }

  /** How many slots a probe for `h` can come to. */
  ghost function Reach(h: nat, capacity: nat): nat
    requires capacity > 0
  {
    |Probed(h, PROBES, capacity)|
  }

  lemma FilledIsProbed<K>(hash: K -> nat, s: seq<Mark<K>>, h: nat)
    requires Tight(hash, s, h)
    ensures FilledSlots(s) <= Probed(h, PROBES, |s|)
  {
    forall i | i in FilledSlots(s)
      ensures i in Probed(h, PROBES, |s|)
    {
      assert OnPath(s, h, i);
    }
  }

  lemma AllProbedFilled<K>(s: seq<Mark<K>>, h: nat, k: K)
    requires s != [] && Stop(s, h, k, 0) == PROBES
    ensures Probed(h, PROBES, |s|) <= FilledSlots(s)
  {
    forall p | p in Probed(h, PROBES, |s|)
      ensures p in FilledSlots(s)
    {
      ProbedMeaning(h, PROBES, |s|, p);
      var x :| 0 <= x < PROBES && Position(h, x, |s|) == p;
      assert !EndsAt(s, h, k, x);
    }
  }

  /** There is a place for a new key exactly as long as fewer keys are there than slots can be come to. */
  lemma Room<K>(hash: K -> nat, s: seq<Mark<K>>, h: nat, k: K)
    requires Tight(hash, s, h) && k !in Keys(s)
    ensures Stop(s, h, k, 0) < PROBES <==> Fills(s) < Reach(h, |s|)
  {
    hide Tight, OneCode, Stop, Keys, FilledSlots, Probed, Fills, EndsAt;
    TightParts(hash, s, h);
    FilledIsProbed(hash, s, h);
    FillsCount(s);
    var j := Stop(s, h, k, 0);
    if j < PROBES {
      PlaceIsFree(s, h, k);
      SubsetSmaller(FilledSlots(s), Probed(h, PROBES, |s|) - {Position(h, j, |s|)});
    } else {
      AllProbedFilled(s, h, k);
      assert FilledSlots(s) == Probed(h, PROBES, |s|);
    }
  }

  lemma PlaceIsFree<K>(s: seq<Mark<K>>, h: nat, k: K)
    requires s != [] && k !in Keys(s) && Stop(s, h, k, 0) < PROBES
    ensures var p := Position(h, Stop(s, h, k, 0), |s|);
            s[p].Empty? && p !in FilledSlots(s) && p in Probed(h, PROBES, |s|)
  {
    assert EndsAt(s, h, k, Stop(s, h, k, 0));
  }

  /** A new key put in its place. */
  lemma PutTight<K>(hash: K -> nat, s: seq<Mark<K>>, h: nat, k: K)
    requires Tight(hash, s, h) && k !in Keys(s) && hash(k) == h && Stop(s, h, k, 0) < PROBES
    ensures var r := Put(s, h, k);
            Tight(hash, r, h) && Fills(r) == Fills(s) + 1 && Keys(r) == Keys(s) + {k}
  {
    hide OnPath, Stop, Keys, Fills, OneCode;
    PlaceIsFree(s, h, k);
    var r, p := Put(s, h, k), Position(h, Stop(s, h, k, 0), |s|);
    forall i | 0 <= i < |r| && !r[i].Empty?
      ensures OnPath(r, h, i)
    {
      StillOnPath(s, h, k, i);
    }
    PutFills(s, p, k);
    PutKeys(s, p, k);
    PutOneCode(hash, s, h, p, k);
  }

  lemma PutFills<K>(s: seq<Mark<K>>, p: nat, k: K)
    requires p < |s| && s[p].Empty?
    ensures Fills(s[p := Holds(k)]) == Fills(s) + 1
  {
    FillsCount(s);
    FillsCount(s[p := Holds(k)]);
    assert FilledSlots(s[p := Holds(k)]) == FilledSlots(s) + {p};
  }

  lemma PutOneCode<K>(hash: K -> nat, s: seq<Mark<K>>, h: nat, p: nat, k: K)
    requires OneCode(hash, s, h) && p < |s| && k !in Keys(s) && hash(k) == h
    ensures OneCode(hash, s[p := Holds(k)], h)
  {
    assert forall i :: 0 <= i < |s| && s[i].Holds? ==> s[i].key in Keys(s);
  }

  lemma StillOnPath<K>(s: seq<Mark<K>>, h: nat, k: K, i: nat)
    requires s != [] && k !in Keys(s) && Stop(s, h, k, 0) < PROBES && i < |s|
    requires i != Position(h, Stop(s, h, k, 0), |s|) ==> OnPath(s, h, i)
    ensures OnPath(Put(s, h, k), h, i)
  {
    var j, r := Stop(s, h, k, 0), Put(s, h, k);
    if i == Position(h, j, |s|) {
      forall x | 0 <= x < j
        ensures !r[Position(h, x, |r|)].Empty?
      {
        assert !EndsAt(s, h, k, x);
      }
      assert Covered(r, h, j);
    } else {
      var y :| 0 <= y < PROBES && Position(h, y, |s|) == i && Covered(s, h, y);
      assert Covered(r, h, y);
    }
  }

  lemma PutKeys<K>(s: seq<Mark<K>>, p: nat, k: K)
    requires p < |s| && s[p].Empty?
    ensures Keys(s[p := Holds(k)]) == Keys(s) + {k}
  {
    var r := s[p := Holds(k)];
    assert r[p].Holds?;
    forall i | 0 <= i < |s| && s[i].Holds?
      ensures s[i].key in Keys(r)
    {
      assert r[i] == s[i];
    }
  }

  // ---- Counting instead of keys ----

  /** The capacity once one more key was inserted into a table with `n` keys of the code `h`. */
  ghost function Ends(h: nat, capacity: nat, n: nat, fuel: nat): (c: Option<nat>)
    requires capacity > 0
    ensures c.Some? ==> c.value > 0
    decreases fuel, 0
  {
    if n < Reach(h, capacity) then Some(capacity)
    else if fuel == 0 then None
    else
      match Refilled(h, NextCapacity(capacity, n, 0), n, fuel - 1)
      case None => None
      case Some(c) => Ends(h, c, n, fuel - 1)
  }

  /** The capacity once `n` keys of the code `h` were inserted into an empty table of `size` slots. */
  ghost function Refilled(h: nat, size: nat, n: nat, fuel: nat): (c: Option<nat>)
    requires size > 0
    ensures c.Some? ==> c.value > 0
    decreases fuel, n + 1
  {
    if n == 0 then Some(size)
    else
      match Refilled(h, size, n - 1, fuel)
      case None => None
      case Some(c) => Ends(h, c, n - 1, fuel)
  }

  /** What the marks of a table with `n` keys of the code `h` are. */
  ghost predicate Like<K>(hash: K -> nat, r: Option<seq<Mark<K>>>, h: nat, c: Option<nat>, ks: set<K>, n: nat)
  {
    && (r.Some? <==> c.Some?)
    && (r.Some? ==> |r.value| == c.value && Tight(hash, r.value, h) && Keys(r.value) == ks && Fills(r.value) == n)
  }

  lemma {:induction false} SettledCounts<K>(hash: K -> nat, s: seq<Mark<K>>, h: nat, k: K, fuel: nat)
    requires Tight(hash, s, h) && k !in Keys(s) && hash(k) == h
    ensures Like(hash, Settled(hash, s, k, fuel), h, Ends(h, |s|, Fills(s), fuel), Keys(s), Fills(s))
    decreases fuel, 0
  {
    hide Tight, OneCode, Fills, Keys, Stop, NextCapacity, Reach;
    TightParts(hash, s, h);
    Room(hash, s, h, k);
    if Stop(s, h, k, 0) == PROBES && fuel > 0 {
      var size := NextCapacity(|s|, Fills(s), 0);
      RebuiltCounts(hash, s, h, |s|, size, fuel - 1);
      assert s[..|s|] == s;
      var r := Rebuilt(hash, s, |s|, size, fuel - 1);
      if r.Some? {
        SettledCounts(hash, r.value, h, k, fuel - 1);
      }
    }
  }

  lemma TightParts<K>(hash: K -> nat, s: seq<Mark<K>>, h: nat)
    requires Tight(hash, s, h)
    ensures s != [] && OneCode(hash, s, h) && Deads(s) == 0
  {
    NoneDead(s);
  }

  lemma {:induction false} InsertedCounts<K>(hash: K -> nat, s: seq<Mark<K>>, h: nat, k: K, fuel: nat)
    requires Tight(hash, s, h) && k !in Keys(s) && hash(k) == h
    ensures Like(hash, Inserted(hash, s, k, fuel), h, Ends(h, |s|, Fills(s), fuel), Keys(s) + {k}, Fills(s) + 1)
    decreases fuel, 1
  {
    hide Tight, OneCode, Fills, Keys, Stop, Settled, Ends, Put;
    TightParts(hash, s, h);
    SettledCounts(hash, s, h, k, fuel);
    var r := Settled(hash, s, k, fuel);
    if r.Some? {
      PutTight(hash, r.value, h, k);
    }
  }

  lemma {:induction false} RebuiltCounts<K>(hash: K -> nat, s: seq<Mark<K>>, h: nat, n: nat, size: nat, fuel: nat)
    requires OneCode(hash, s, h) && n <= |s| && size > 0
    ensures Like(hash, Rebuilt(hash, s, n, size, fuel), h, Refilled(h, size, Fills(s[..n]), fuel),
                 Keys(s[..n]), Fills(s[..n]))
    decreases fuel, n + 2
  {
    hide Tight, OneCode, Fills, Keys, Inserted, Ends;
    if n == 0 {
      BlanksAreTight(hash, h, size);
      assert s[..0] == [];
    } else {
      RebuiltCounts(hash, s, h, n - 1, size, fuel);
      OneMoreSlot(hash, s, h, n);
      var r := Rebuilt(hash, s, n - 1, size, fuel);
      if r.Some? && s[n - 1].Holds? {
        InsertedCounts(hash, r.value, h, s[n - 1].key, fuel);
      }
    }
  }

  lemma {:induction false} BlanksAreTight<K>(hash: K -> nat, h: nat, size: nat)
    requires size > 0
    ensures var s: seq<Mark<K>> := Blanks(size);
            Tight(hash, s, h) && Keys(s) == {} && Fills(s) == 0
    ensures var s: seq<Mark<K>> := []; Keys(s) == {} && Fills(s) == 0
  {
    var s: seq<Mark<K>> := Blanks(size);
    FillsCount(s);
    assert FilledSlots(s) == {};
  }

  /** The next slot of a table with keys of one code. */
  lemma OneMoreSlot<K>(hash: K -> nat, s: seq<Mark<K>>, h: nat, n: nat)
    requires OneCode(hash, s, h) && 0 < n <= |s|
    ensures var was, m := s[..n - 1], s[n - 1];
            && (m.Holds? || m.Empty?)
            && Fills(s[..n]) == Fills(was) + (if m.Holds? then 1 else 0)
            && Keys(s[..n]) == Keys(was) + (if m.Holds? then {m.key} else {})
            && (m.Holds? ==> hash(m.key) == h && m.key !in Keys(was))
  {
    var was, now, m := s[..n - 1], s[..n], s[n - 1];
    assert now[..n - 1] == was && now[n - 1] == m;
    forall k | k in Keys(now)
      ensures k in Keys(was) + (if m.Holds? then {m.key} else {})
    {
      var i :| 0 <= i < n && now[i] == Holds(k);
      assert i < n - 1 ==> was[i] == now[i];
    }
    forall i | 0 <= i < n - 1 && was[i].Holds?
      ensures was[i].key in Keys(now)
    {
      assert now[i] == was[i];
    }
  }

  // ---- How many slots a probe can come to ----

  /** Addition modulo `c`, of two numbers below it. */
  function Turned(x: nat, y: nat, c: nat): nat
    requires x < c && y < c
  {
    if x + y < c then x + y else x + y - c
  }

  lemma TurnedIsMod(x: nat, y: nat, c: nat)
    requires x < c
    ensures (x + y) % c == Turned(x, y % c, c)
  {
    var q, r := y / c, y % c;
    assert y == c * q + r;
    if x + r < c {
      Remainder(q, x + r, c);
    } else {
      assert x + y == c * (q + 1) + (x + r - c);
      Remainder(q + 1, x + r - c, c);
    }
  }

  lemma Remainder(q: nat, r: nat, c: nat)
    requires r < c
    ensures (c * q + r) % c == r
  {
    var x := c * q + r;
    var k := x / c;
    assert x == c * k + x % c;
    assert q < k ==> c * (q + 1) <= c * k;
    assert q > k ==> c * (k + 1) <= c * q;
  }

  /** The width of step `j` modulo `c`. */
  function Turn(j: nat, c: nat): (t: nat)
    requires c > 1
    ensures t < c
  {
    if j == 0 then 1 else Turned(Turn(j - 1, c), Turn(j - 1, c), c)
  }

  /** The way from the first slot to the one of a step is the step's width less one. */
  lemma {:induction false} PositionTurns(h: nat, j: nat, c: nat)
    requires c > 1
    ensures Pow2(j) % c == Turn(j, c)
    ensures Position(h, j, c) == Turned(h % c, if Turn(j, c) == 0 then c - 1 else Turn(j, c) - 1, c)
  {
    if j > 0 {
      PositionTurns(h, j - 1, c);
      TurnedIsMod(Position(h, j - 1, c), Pow2(j - 1), c);
      DoubleMod(Pow2(j - 1), c);
    }
  }

  lemma DoubleMod(x: nat, c: nat)
    requires c > 1
    ensures (2 * x) % c == Turned(x % c, x % c, c)
  {
    var q, r := x / c, x % c;
    assert x == c * q + r;
    if r + r < c {
      assert 2 * x == c * (2 * q) + (r + r);
      Remainder(2 * q, r + r, c);
    } else {
      assert 2 * x == c * (2 * q + 1) + (r + r - c);
      Remainder(2 * q + 1, r + r - c, c);
    }
  }

  /** The turns come back to where they were at step `a` after `m - a` steps. */
  lemma {:induction false} TurnsRepeat(a: nat, m: nat, j: nat, c: nat)
    requires c > 1 && a < m <= j && Turn(m, c) == Turn(a, c)
    ensures Turn(j, c) == Turn(j - (m - a), c)
    decreases j
  {
    if j > m {
      TurnsRepeat(a, m, j - 1, c);
    }
  }

  /** The first `m` steps come to different slots. */
  ghost predicate Apart(m: nat, c: nat)
    requires c > 1
  {
    forall i, j :: 0 <= i < j < m ==> Turn(i, c) != Turn(j, c)
  }

  lemma {:induction false} ProbedApart(h: nat, m: nat, n: nat, c: nat)
    requires c > 1 && n <= m && Apart(m, c)
    ensures |Probed(h, n, c)| == n
  {
    if n > 0 {
      ProbedApart(h, m, n - 1, c);
      NewSlot(h, m, n - 1, c);
    }
  }

  lemma NewSlot(h: nat, m: nat, n: nat, c: nat)
    requires c > 1 && n < m && Apart(m, c)
    ensures Position(h, n, c) !in Probed(h, n, c)
  {
    hide Position, Apart, Probed;
    forall i: nat | i < n
      ensures Position(h, i, c) != Position(h, n, c)
    {
      SlotsApart(h, m, i, n, c);
    }
    if Position(h, n, c) in Probed(h, n, c) {
      ProbedMeaning(h, n, c, Position(h, n, c));
    }
  }

  lemma SlotsApart(h: nat, m: nat, i: nat, j: nat, c: nat)
    requires c > 1 && i < j < m && Apart(m, c)
    ensures Position(h, i, c) != Position(h, j, c)
  {
    hide Position, Turn;
    PositionTurns(h, i, c);
    PositionTurns(h, j, c);
  }

  lemma {:induction false} ProbedRepeats(h: nat, a: nat, m: nat, n: nat, c: nat)
    requires c > 1 && a < m <= n && Turn(m, c) == Turn(a, c)
    ensures Probed(h, n, c) == Probed(h, m, c)
    decreases n
  {
    if n > m {
      ProbedRepeats(h, a, m, n - 1, c);
      var j := n - 1;
      TurnsRepeat(a, m, j, c);
      PositionTurns(h, j, c);
      PositionTurns(h, j - (m - a), c);
      assert Position(h, j, c) == Position(h, j - (m - a), c);
    }
  }

  /** When the first `m` steps differ, and the next one is like step `a`, a probe comes to `m` slots. */
  lemma ReachIs(h: nat, a: nat, m: nat, c: nat)
    requires c > 1 && a < m <= PROBES && Turn(m, c) == Turn(a, c) && Apart(m, c)
    ensures Reach(h, c) == m
  {
    ProbedRepeats(h, a, m, PROBES, c);
    ProbedApart(h, m, m, c);
  }

  /** The same, from the list of the first widths. */
  lemma ReachByList(h: nat, a: nat, d: seq<nat>, c: nat)
    requires c > 1 && a < |d| <= PROBES && d[0] == 1 && forall i :: 0 <= i < |d| ==> d[i] < c
    requires forall i :: 0 <= i < |d| - 1 ==> d[i + 1] == Turned(d[i], d[i], c)
    requires d[a] == Turned(d[|d| - 1], d[|d| - 1], c)
    requires forall i, j :: 0 <= i < j < |d| ==> d[i] != d[j]
    ensures Reach(h, c) == |d|
  {
    TurnsAre(d, c, |d| - 1);
    ReachIs(h, a, |d|, c);
  }

  lemma {:induction false} TurnsAre(d: seq<nat>, c: nat, n: nat)
    requires c > 1 && n < |d| && d[0] == 1 && forall i :: 0 <= i < |d| ==> d[i] < c
    requires forall i :: 0 <= i < |d| - 1 ==> d[i + 1] == Turned(d[i], d[i], c)
    ensures forall i :: 0 <= i <= n ==> Turn(i, c) == d[i]
  {
    if n > 0 {
      TurnsAre(d, c, n - 1);
      assert d[n - 1 + 1] == Turned(d[n - 1], d[n - 1], c);
    }
  }

  lemma ReachOf11(h: nat)
    ensures Reach(h, 11) == 10
  {
    hide Reach;
    ReachByList(h, 0, [1, 2, 4, 8, 5, 10, 9, 7, 3, 6], 11);
  }

  lemma ReachOf23(h: nat)
    ensures Reach(h, 23) == 11
  {
    hide Reach;
    ReachByList(h, 0, [1, 2, 4, 8, 16, 9, 18, 13, 3, 6, 12], 23);
  }

  lemma ReachOf26(h: nat)
    ensures Reach(h, 26) == 13
  {
    hide Reach;
    ReachByList(h, 1, [1, 2, 4, 8, 16, 6, 12, 24, 22, 18, 10, 20, 14], 26);
  }

  lemma ReachOf31(h: nat)
    ensures Reach(h, 31) == 5
  {
    hide Reach;
    ReachByList(h, 0, [1, 2, 4, 8, 16], 31);
  }

  /** The four capacities that matter. */
  lemma Reaches(h: nat)
    ensures Reach(h, 11) == 10 && Reach(h, 23) == 11 && Reach(h, 26) == 13 && Reach(h, 31) == 5
  {
    hide Reach;
    ReachOf11(h);
    ReachOf23(h);
    ReachOf26(h);
    ReachOf31(h);
  }

  /** And the way from one to the next. */
  lemma NextCapacities()
    ensures NextCapacity(11, 10, 0) == 23 && NextCapacity(23, 11, 0) == 26
    ensures NextCapacity(26, 13, 0) == 31 && NextCapacity(31, 5, 0) == 11
  {
  }

  /** A table that is full for this code is rebuilt with the next capacity, and takes the key when it is not full
      then. */
  lemma OneRehash(h: nat, c: nat, n: nat, fuel: nat)
    requires c > 0 && n == Reach(h, c) && n < Reach(h, NextCapacity(c, n, 0))
    ensures Ends(h, c, n, fuel) == if fuel == 0 then None else Some(NextCapacity(c, n, 0))
  {
    hide Reach;
    if fuel > 0 {
      Fitting(h, NextCapacity(c, n, 0), n, fuel - 1);
    }
  }

  // ---- Thirteen keys of one code, and no more ----

  /** A table with ten keys takes the eleventh, and so on up to the thirteenth: capacities 11, 23 and 26. */
  lemma {:induction false} UpTo13(h: nat, n: nat, fuel: nat)
    requires n <= 13
    ensures Refilled(h, 11, n, fuel) ==
            if n <= 10 then Some(11)
            else if fuel == 0 then None
            else Some(if n == 11 then 23 else 26)
  {
    hide Reach;
    Reaches(h);
    NextCapacities();
    if n <= 10 {
      Fitting(h, 11, n, fuel);
    } else {
      UpTo13(h, n - 1, fuel);
      if n == 11 {
        OneRehash(h, 11, 10, fuel);
      } else if n == 12 && fuel > 0 {
        OneRehash(h, 23, 11, fuel);
      }
    }
  }

  /** As many keys as a probe can come to slots go in without a rehash. */
  lemma {:induction false} Fitting(h: nat, c: nat, n: nat, fuel: nat)
    requires c > 0 && n <= Reach(h, c)
    ensures Refilled(h, c, n, fuel) == Some(c)
  {
    if n > 0 {
      Fitting(h, c, n - 1, fuel);
    }
  }

  /** A table of 31 slots takes five of thirteen keys, goes on with 11, 23 and 26 slots, and ends with 26 again. */
  lemma {:induction false} BackTo26(h: nat, n: nat, fuel: nat)
    requires 5 <= n <= 13
    ensures var r := Refilled(h, 31, n, fuel);
            r == None || r == Some(if n == 5 then 31 else if n <= 10 then 11 else if n == 11 then 23 else 26)
  {
    hide Reach;
    Reaches(h);
    NextCapacities();
    if n == 5 {
      Fitting(h, 31, 5, fuel);
    } else {
      BackTo26(h, n - 1, fuel);
      if n == 6 {
        OneRehash(h, 31, 5, fuel);
      } else if n == 11 {
        OneRehash(h, 11, 10, fuel);
      } else if n == 12 {
        OneRehash(h, 23, 11, fuel);
      }
    }
  }

  /** So the fourteenth key is never in: with thirteen keys in 26 slots every rehash ends there again. */
  lemma {:induction false} NeverEnds(h: nat, fuel: nat)
    ensures Ends(h, 26, 13, fuel) == None
  {
    hide Reach;
    Reaches(h);
    NextCapacities();
    if fuel > 0 {
      BackTo26(h, 13, fuel - 1);
      NeverEnds(h, fuel - 1);
    }
  }

  lemma {:induction false} NoMoreThan13(h: nat, n: nat, fuel: nat)
    ensures Refilled(h, 11, n, fuel).Some? <==> n <= if fuel == 0 then 10 else 13
  {
    if n <= 13 {
      UpTo13(h, n, fuel);
    } else {
      NoMoreThan13(h, n - 1, fuel);
      if n == 14 {
        UpTo13(h, 13, fuel);
        NeverEnds(h, fuel);
      }
    }
  }

  function KeyMarks<K>(keys: seq<K>): (s: seq<Mark<K>>)
    ensures |s| == |keys| && forall i :: 0 <= i < |s| ==> s[i] == Holds(keys[i])
  {
    seq(|keys|, i requires 0 <= i < |keys| => Holds(keys[i]))
  }

  lemma {:induction false} AllFills<K>(s: seq<Mark<K>>)
    requires forall i :: 0 <= i < |s| ==> s[i].Holds?
    ensures Fills(s) == |s|
  {
    if s != [] {
      AllFills(s[..|s| - 1]);
    }
  }

  /** Different keys of one hash code all go into a new table exactly when there are at most thirteen of them, or ten
      when no rehash may nest. */
  lemma CrowdEnds<K>(hash: K -> nat, keys: seq<K>, h: nat, fuel: nat)
    requires forall i, j :: 0 <= i < j < |keys| ==> keys[i] != keys[j]
    requires forall i :: 0 <= i < |keys| ==> hash(keys[i]) == h
    ensures Rebuilt(hash, KeyMarks(keys), |keys|, 11, fuel).Some? <==> |keys| <= if fuel == 0 then 10 else 13
  {
    hide Rebuilt, Refilled, Fills, Keys;
    var s := KeyMarks(keys);
    AllFills(s);
    RebuiltCounts(hash, s, h, |s|, 11, fuel);
    assert s[..|s|] == s;
    NoMoreThan13(h, |s|, fuel);
  }
}
