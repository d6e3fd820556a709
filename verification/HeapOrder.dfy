/** Heap order on values, for any strict weak order. */
module HeapOrder {
  /** `lt` is a strict weak order: asymmetric, and of x < z either x < y or y < z for every y. */
  ghost predicate StrictWeak<T(!new)>(lt: (T, T) -> bool)
  {
    && (forall x, y :: lt(x, y) ==> !lt(y, x))
    && (forall x, y, z :: lt(x, z) ==> lt(x, y) || lt(y, z))
  }

  function Parent(i: nat): (p: nat)
    requires i > 0
    ensures p < i
  {
    (i - 1) / 2
  }

  /** No item is less than its parent. */
  ghost predicate Ordered<T>(s: seq<T>, lt: (T, T) -> bool)
  {
    forall i :: 1 <= i < |s| ==> !lt(s[i], s[Parent(i)])
  }

  /** The first item of a heap is a least one. */
  lemma {:induction false} FirstIsLeast<T(!new)>(s: seq<T>, lt: (T, T) -> bool, i: nat)
    requires StrictWeak(lt) && Ordered(s, lt) && i < |s|
    ensures !lt(s[i], s[0])
    decreases i
  {
    if i > 0 {
      FirstIsLeast(s, lt, Parent(i));
    }
  }

  lemma UpdateMultiset<T>(s: seq<T>, i: nat, x: T)
    requires i < |s|
    ensures multiset(s[i := x]) == multiset(s) - multiset{s[i]} + multiset{x}
  {
    assert s == s[..i] + [s[i]] + s[i + 1..];
    assert s[i := x] == s[..i] + [x] + s[i + 1..];
  }

  lemma SwapMultiset<T>(s: seq<T>, i: nat, j: nat)
    requires i < |s| && j < |s|
    ensures multiset(s[i := s[j]][j := s[i]]) == multiset(s)
  {
    UpdateMultiset(s, i, s[j]);
    UpdateMultiset(s[i := s[j]], j, s[i]);
  }

  // ---- Enqueue: push down ----

  /** A carried item that belongs above item `j` takes its place; the heap stays in order, and what is carried on
      belongs below it. */
  lemma SinkSwap<T(!new)>(s: seq<T>, lt: (T, T) -> bool, j: nat, x: T)
    requires StrictWeak(lt) && Ordered(s, lt) && j < |s| && lt(x, s[j])
    requires j > 0 ==> !lt(x, s[Parent(j)])
    ensures Ordered(s[j := x], lt) && !lt(s[j], x)
    ensures multiset(s[j := x]) + multiset{s[j]} == multiset(s) + multiset{x}
  {
    UpdateMultiset(s, j, x);
    var t := s[j := x];
    forall i | 1 <= i < |t|
      ensures !lt(t[i], t[Parent(i)])
    {
      if Parent(i) == j {
        assert !lt(s[i], s[j]);
      }
    }
  }

  // ---- Enqueue: sift up ----

  /** In order but for item `j`, which may belong above its parent. */
  ghost predicate OrderedBut<T>(s: seq<T>, lt: (T, T) -> bool, j: nat)
  {
    && (forall i :: 1 <= i < |s| && i != j ==> !lt(s[i], s[Parent(i)]))
    && (forall i :: 1 <= i < |s| && j > 0 && Parent(i) == j ==> j < |s| && !lt(s[i], s[Parent(j)]))
  }

  lemma AppendBut<T>(s: seq<T>, lt: (T, T) -> bool, x: T)
    requires Ordered(s, lt)
    ensures OrderedBut(s + [x], lt, |s|)
  {
    forall i | 1 <= i < |s|
      ensures !lt((s + [x])[i], (s + [x])[Parent(i)])
    {
    }
  }

  lemma SiftSwap<T(!new)>(s: seq<T>, lt: (T, T) -> bool, j: nat)
    requires StrictWeak(lt) && OrderedBut(s, lt, j) && 0 < j < |s| && !lt(s[Parent(j)], s[j])
    ensures var t := s[Parent(j) := s[j]][j := s[Parent(j)]];
            OrderedBut(t, lt, Parent(j)) && multiset(t) == multiset(s)
  {
    var k := Parent(j);
    var t := s[k := s[j]][j := s[k]];
    SwapMultiset(s, k, j);
    forall i | 1 <= i < |t| && i != k
      ensures !lt(t[i], t[Parent(i)])
    {
      if i == j {
      } else if Parent(i) == k {
        assert !lt(s[i], s[k]);
      } else if Parent(i) == j {
        assert !lt(s[i], s[k]);
      } else {
        assert !lt(s[i], s[Parent(i)]);
      }
    }
    forall i | 1 <= i < |t| && k > 0 && Parent(i) == k
      ensures !lt(t[i], t[Parent(k)])
    {
      assert !lt(s[k], s[Parent(k)]);
      if i != j {
        assert !lt(s[i], s[k]);
      }
    }
  }

  lemma SiftDone<T>(s: seq<T>, lt: (T, T) -> bool, j: nat)
    requires OrderedBut(s, lt, j) && (j == 0 || (j < |s| && !lt(s[j], s[Parent(j)])))
    ensures Ordered(s, lt)
  {
  }

  // ---- Dequeue: moving the hole ----

  /** While the hole is at `j`, its old content is still there: the items are in order, putting `first` back into
      the hole gives the items there were, and `last` belongs below the hole. */
  ghost predicate Hole<T>(s: seq<T>, lt: (T, T) -> bool, j: nat, first: T, last: T, items: multiset<T>)
  {
    && j < |s| && Ordered(s, lt) && multiset(s[j := first]) == items
    && (j > 0 ==> !lt(last, s[Parent(j)]))
    && (j < |s| - 1 ==> s[|s| - 1] == last)
  }

  /** Item `c` is a least child of item `j`. */
  ghost predicate LeastChild<T>(s: seq<T>, lt: (T, T) -> bool, j: nat, c: nat)
  {
    && 0 < c < |s| && Parent(c) == j
    && forall i :: 1 <= i < |s| && Parent(i) == j ==> !lt(s[i], s[c])
  }

  /** The last item may stand above the children of item `j`, apart from itself. */
  ghost predicate FitsAbove<T>(s: seq<T>, lt: (T, T) -> bool, j: nat, last: T)
  {
    forall i :: 1 <= i < |s| - 1 && Parent(i) == j ==> !lt(s[i], last)
  }

  lemma HoleMovesOrder<T(!new)>(s: seq<T>, lt: (T, T) -> bool, j: nat, c: nat)
    requires StrictWeak(lt) && Ordered(s, lt) && j < |s| && LeastChild(s, lt, j, c)
    ensures Ordered(s[j := s[c]], lt)
  {
    var t := s[j := s[c]];
    forall i | 1 <= i < |t|
      ensures !lt(t[i], t[Parent(i)])
    {
      assert !lt(s[i], s[Parent(i)]);
      if i == j {
        assert !lt(s[c], s[j]);
      }
    }
  }

  lemma Irreflexive<T(!new)>(lt: (T, T) -> bool, x: T)
    requires StrictWeak(lt)
    ensures !lt(x, x)
  {
  }

  lemma HoleMovesItems<T>(s: seq<T>, j: nat, c: nat, first: T)
    requires j < |s| && c < |s| && j != c
    ensures multiset(s[j := s[c]][c := first]) == multiset(s[j := first])
  {
    var u := s[j := first];
    assert s[j := s[c]][c := first] == u[j := u[c]][c := u[j]];
    SwapMultiset(u, j, c);
  }

  lemma HoleMoves<T(!new)>(s: seq<T>, lt: (T, T) -> bool, j: nat, c: nat, first: T, last: T, items: multiset<T>)
    requires StrictWeak(lt) && Hole(s, lt, j, first, last, items) && LeastChild(s, lt, j, c)
    requires c < |s| - 1 ==> !lt(last, s[c])
    ensures Hole(s[j := s[c]], lt, c, first, last, items)
  {
    hide Ordered, StrictWeak, LeastChild;
    HoleMovesOrder(s, lt, j, c);
    ChildBehind(s, lt, j, c);
    HoleMovesItems(s, j, c, first);
    Irreflexive(lt, s[c]);
    HoleMovesEnds(s, j, c);
  }

  lemma ChildBehind<T>(s: seq<T>, lt: (T, T) -> bool, j: nat, c: nat)
    requires LeastChild(s, lt, j, c)
    ensures j < c < |s| && Parent(c) == j
  {
  }

  lemma HoleMovesEnds<T>(s: seq<T>, j: nat, c: nat)
    requires j < c < |s|
    ensures s[j := s[c]][j] == s[c] && s[j := s[c]][|s| - 1] == s[|s| - 1]
  {
  }

  lemma FilledOrder<T>(s: seq<T>, lt: (T, T) -> bool, j: nat, last: T)
    requires Ordered(s, lt) && j < |s| - 1 && (j > 0 ==> !lt(last, s[Parent(j)]))
    requires FitsAbove(s, lt, j, last)
    ensures Ordered(s[j := last][..|s| - 1], lt)
  {
    var n := |s| - 1;
    var u := s[j := last];
    forall i | 1 <= i < n
      ensures !lt(u[i], u[Parent(i)])
    {
      assert !lt(s[i], s[Parent(i)]);
    }
  }

  lemma PrefixOrder<T>(s: seq<T>, lt: (T, T) -> bool, n: nat)
    requires Ordered(s, lt) && n <= |s|
    ensures Ordered(s[..n], lt)
  {
    forall i | 1 <= i < n
      ensures !lt(s[..n][i], s[..n][Parent(i)])
    {
      assert !lt(s[i], s[Parent(i)]);
    }
  }

  lemma Cancel<T>(a: multiset<T>, b: multiset<T>, x: T)
    requires a + multiset{x} == b + multiset{x}
    ensures a == b
  {
    forall y
      ensures a[y] == b[y]
    {
      assert (a + multiset{x})[y] == (b + multiset{x})[y];
    }
  }

  lemma FilledItems<T>(s: seq<T>, j: nat, first: T)
    requires j < |s|
    ensures var t := (if j < |s| - 1 then s[j := s[|s| - 1]] else s)[..|s| - 1];
            multiset(t) + multiset{first} == multiset(s[j := first])
  {
    var n := |s| - 1;
    var t := (if j < |s| - 1 then s[j := s[|s| - 1]] else s)[..|s| - 1];
    UpdateMultiset(s, j, first);
    if j < n {
      var u := s[j := s[n]];
      assert t == u[..n];
      UpdateMultiset(s, j, s[n]);
      assert u == u[..n] + [s[n]];
      assert multiset(u) == multiset(t) + multiset{s[n]};
      Cancel(multiset(t), multiset(s) - multiset{s[j]}, s[n]);
    } else {
      assert s[j := first] == s[..n] + [first];
    }
  }

  /** The last item fills the hole where it is not greater than the children. */
  lemma HoleFilled<T(!new)>(s: seq<T>, lt: (T, T) -> bool, j: nat, first: T, last: T, items: multiset<T>)
    requires Hole(s, lt, j, first, last, items)
    requires FitsAbove(s, lt, j, last)
    ensures var t := (if j < |s| - 1 then s[j := last] else s)[..|s| - 1];
            Ordered(t, lt) && multiset(t) == items - multiset{first} && first in items
  {
    FilledItems(s, j, first);
    if j < |s| - 1 {
      FilledOrder(s, lt, j, last);
    } else {
      PrefixOrder(s, lt, |s| - 1);
    }
    hide Ordered;
    var t := (if j < |s| - 1 then s[j := last] else s)[..|s| - 1];
    assert multiset(t) + multiset{first} == items;
  }

  /** Of the one or two children the code compares, `c` is a least one. */
  lemma LeastOfTwo<T(!new)>(s: seq<T>, lt: (T, T) -> bool, j: nat, c: nat)
    requires StrictWeak(lt) && c < |s|
    requires (c == 2 * j + 2 && lt(s[c], s[c - 1]))
          || (c == 2 * j + 1 && (c + 1 < |s| ==> !lt(s[c + 1], s[c])))
    ensures LeastChild(s, lt, j, c)
  {
    forall i | 1 <= i < |s| && Parent(i) == j
      ensures !lt(s[i], s[c])
    {
      assert i == 2 * j + 1 || i == 2 * j + 2;
    }
  }

  /** An item less than the least child is less than every child. */
  lemma BelowLeast<T(!new)>(s: seq<T>, lt: (T, T) -> bool, j: nat, c: nat, x: T)
    requires StrictWeak(lt) && LeastChild(s, lt, j, c) && lt(x, s[c])
    ensures FitsAbove(s, lt, j, x)
  {
  }

  lemma NoChildren<T>(s: seq<T>, lt: (T, T) -> bool, j: nat, x: T)
    requires 2 * j + 1 >= |s|
    ensures FitsAbove(s, lt, j, x)
  {
  }
}
