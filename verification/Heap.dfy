/** A binary heap in an array that grows. */
module Heap {
  import opened HeapOrder
  import opened Wrappers

  datatype HeapError = HeapEmpty

  class HeapCore<T(0,!new)> {
    const cmp: (T, T) -> bool
    var size: nat
    var fill: nat
    var items: array<T>

    constructor (cmp: (T, T) -> bool, capacity: nat)
      requires StrictWeak(cmp)
      ensures Valid() && Items() == [] && this.cmp == cmp && fresh(items)
    {
      this.cmp := cmp;
      var n := 1;
      while n < capacity
        invariant n > 0
      {
        n := n * 2 + 1;
      }
      size, fill, items := n, 0, new T[n];
    }

    /** The items, in heap order. */
    ghost function Items(): seq<T>
      requires fill <= items.Length
      reads this, items
    {
      items[..fill]
    }

    ghost predicate Valid()
      reads this, items
      ensures Valid() ==> fill <= items.Length
    {
      && StrictWeak(cmp) && size == items.Length && fill <= size && size > 0
      && Ordered(Items(), cmp)
    }

    method UpSize()
      requires Valid()
      modifies this
      ensures Valid() && Items() == old(Items()) && size == 2 * old(size) + 1 && fresh(items)
    {
      var more := new T[size * 2 + 1];
      for j := 0 to fill
        invariant unchanged(this) && forall i :: 0 <= i < j ==> more[i] == items[i]
      {
        more[j] := items[j];
      }
      items := more;
      size := size * 2 + 1;
      assert Items() == old(Items());
    }

    /** Push an item down from the top: it takes the place of any item it belongs above, which is carried on. */
    method PushDown(x: T) returns (carried: T)
      requires Valid()
      modifies items
      ensures Valid() && multiset(Items()) + multiset{carried} == multiset(old(Items())) + multiset{x}
    {
      hide Ordered, StrictWeak;
      carried := x;
      var j := 0;
      while j < fill
        invariant Valid() && multiset(Items()) + multiset{carried} == multiset(old(Items())) + multiset{x}
        invariant 0 < j < fill ==> !cmp(carried, items[Parent(j)])
        decreases fill - j
      {
        if cmp(carried, items[j]) {
          SinkSwap(Items(), cmp, j, carried);
          ghost var s := Items();
          carried, items[j] := items[j], carried;
          assert Items() == s[j := items[j]];
        }
        if j * 2 + 1 >= fill {
          break;
        }
        assert Parent(j * 2 + 1) == j && Parent(j * 2 + 2) == j;
        j := if cmp(carried, items[j * 2 + 1]) then j * 2 + 1 else j * 2 + 2;
      }
    }

    /** Move item `n` up to where it belongs. */
    method SiftUp(n: nat)
      requires StrictWeak(cmp) && 0 < n < items.Length && OrderedBut(items[..n + 1], cmp, n)
      modifies items
      ensures Ordered(items[..n + 1], cmp) && multiset(items[..n + 1]) == multiset(old(items[..n + 1]))
    {
      hide Ordered, OrderedBut, StrictWeak;
      var j := n;
      while j > 0
        invariant j <= n && OrderedBut(items[..n + 1], cmp, j)
        invariant multiset(items[..n + 1]) == multiset(old(items[..n + 1]))
      {
        var k := Parent(j);
        if cmp(items[k], items[j]) {
          break;
        }
        ghost var s := items[..n + 1];
        SiftSwap(s, cmp, j);
        items[k], items[j] := items[j], items[k];
        assert items[..n + 1] == s[k := s[j]][j := s[k]];
        j := k;
      }
      if j > 0 {
        Asymmetric(cmp, items[Parent(j)], items[j]);
      }
      SiftDone(items[..n + 1], cmp, j);
    }

    method Enqueue(x: T)
      requires Valid()
      modifies this, items
      ensures Valid() && multiset(Items()) == multiset(old(Items())) + multiset{x}
      ensures items == old(items) || fresh(items)
    {
      hide Ordered, StrictWeak;
      if fill + 1 >= size {
        UpSize();
      }
      var last := PushDown(x);
      Append(last);
    }

    /** Put an item at the end and move it up. */
    method Append(last: T)
      requires Valid() && fill < size
      modifies `fill, items
      ensures Valid() && multiset(Items()) == multiset(old(Items())) + multiset{last}
    {
      hide Ordered, StrictWeak, OrderedBut;
      ghost var s := Items();
      items[fill] := last;
      assert items[..fill + 1] == s + [last];
      AppendBut(s, cmp, last);
      if fill > 0 {
        SiftUp(fill);
      } else {
        OneIsOrdered(items[..fill + 1], cmp);
      }
      fill := fill + 1;
    }

    /** Take out the first item: the hole it leaves moves down to where the last item belongs. */
    method Dequeue() returns (r: Result<T, HeapError>)
      requires Valid()
      modifies this, items
      ensures Valid() && items == old(items)
      ensures old(Items()) == [] ==> r == Err(HeapEmpty) && Items() == []
      ensures old(Items()) != [] ==>
                && r.Ok? && r.value in multiset(old(Items()))
                && multiset(Items()) == multiset(old(Items())) - multiset{r.value}
      ensures r.Ok? ==> forall x :: x in multiset(old(Items())) ==> !cmp(x, r.value)
    {
      if fill == 0 {
        return Err(HeapEmpty);
      }
      hide Ordered, StrictWeak, Hole, FitsAbove;
      ghost var before := Items();
      FirstIsLeastOfAll(before, cmp);
      var first := items[0];
      ghost var last := items[fill - 1];
      var j := MoveHole(first);
      FillHole(j, first, last, multiset(before));
      r := Ok(first);
    }

    /** Put the last item into the hole, and forget its old place. */
    method FillHole(j: nat, ghost first: T, ghost last: T, ghost all: multiset<T>)
      requires 0 < fill <= items.Length && size == items.Length && StrictWeak(cmp)
      requires Hole(Items(), cmp, j, first, last, all)
      requires FitsAbove(Items(), cmp, j, last)
      modifies `fill, items
      ensures Valid() && multiset(Items()) == all - multiset{first} && first in all
    {
      hide Ordered, StrictWeak, Hole, FitsAbove;
      ghost var s := Items();
      HoleFilled(s, cmp, j, first, last, all);
      HoleInside(s, cmp, j, first, last, all);
      if j < fill - 1 {
        items[j] := items[fill - 1];
        assert items[..fill - 1] == s[j := last][..fill - 1];
      } else {
        assert items[..fill - 1] == s[..fill - 1];
      }
      fill := fill - 1;
    }

    /** Move the hole from the top down to where the last item belongs. */
    method MoveHole(first: T) returns (j: nat)
      requires Valid() && fill > 0 && first == items[0]
      modifies items
      ensures Hole(Items(), cmp, j, first, old(items[fill - 1]), multiset(old(Items())))
      ensures FitsAbove(Items(), cmp, j, old(items[fill - 1]))
    {
      hide Ordered, StrictWeak, Hole, FitsAbove;
      ghost var all, last := multiset(Items()), items[fill - 1];
      HoleBegins(Items(), cmp);
      j := 0;
      var done := false;
      while !done
        invariant Hole(Items(), cmp, j, first, last, all) && j < fill && StrictWeak(cmp)
        invariant done ==> FitsAbove(Items(), cmp, j, last)
        decreases fill - j, !done
      {
        j, done := MoveOn(j, first, last, all);
      }
    }

    /** Move the hole down by one, unless the last item belongs into it. */
    method MoveOn(j: nat, ghost first: T, ghost last: T, ghost all: multiset<T>) returns (j': nat, done: bool)
      requires fill <= items.Length && j < fill && StrictWeak(cmp) && Hole(Items(), cmp, j, first, last, all)
      modifies items
      ensures j' < fill && Hole(Items(), cmp, j', first, last, all)
      ensures if done then j' == j else j < j'
      ensures done ==> FitsAbove(Items(), cmp, j', last)
    {
      hide Ordered, StrictWeak, Hole, LeastChild, FitsAbove;
      var k := j * 2 + 1;
      assert Parent(k) == j && Parent(k + 1) == j;
      ghost var s := Items();
      HoleInside(s, cmp, j, first, last, all);
      if k >= fill {
        NoChildren(s, cmp, j, last);
        return j, true;
      }
      var c := if k + 1 < fill && cmp(items[k + 1], items[k]) then k + 1 else k;
      LeastOfTwo(s, cmp, j, c);
      if c < fill - 1 && cmp(items[fill - 1], items[c]) {
        BelowLeast(s, cmp, j, c, last);
        return j, true;
      }
      HoleMoves(s, cmp, j, c, first, last, all);
      items[j] := items[c];
      assert Items() == s[j := s[c]];
      return c, false;
    }

    method Peek() returns (r: Result<T, HeapError>)
      requires Valid()
      ensures if Items() == [] then r == Err(HeapEmpty) else r == Ok(Items()[0])
      ensures r.Ok? ==> forall x :: x in multiset(Items()) ==> !cmp(x, r.value)
    {
      if fill == 0 {
        return Err(HeapEmpty);
      }
      FirstIsLeastOfAll(Items(), cmp);
      r := Ok(items[0]);
    }

    method IsEmpty() returns (empty: bool)
      requires Valid()
      ensures empty <==> Items() == []
    {
      empty := fill == 0;
    }
  }

  lemma Asymmetric<T(!new)>(lt: (T, T) -> bool, x: T, y: T)
    requires StrictWeak(lt) && lt(x, y)
    ensures !lt(y, x)
  {
  }

  lemma OneIsOrdered<T>(s: seq<T>, lt: (T, T) -> bool)
    requires |s| <= 1
    ensures Ordered(s, lt)
  {
  }

  lemma FirstIsLeastOfAll<T(!new)>(s: seq<T>, lt: (T, T) -> bool)
    requires StrictWeak(lt) && Ordered(s, lt) && s != []
    ensures forall x :: x in multiset(s) ==> !lt(x, s[0])
  {
    forall x | x in multiset(s)
      ensures !lt(x, s[0])
    {
      var i :| 0 <= i < |s| && s[i] == x;
      FirstIsLeast(s, lt, i);
    }
  }

  /** At the start the hole is at the top. */
  lemma HoleBegins<T(!new)>(s: seq<T>, lt: (T, T) -> bool)
    requires Ordered(s, lt) && s != []
    ensures Hole(s, lt, 0, s[0], s[|s| - 1], multiset(s))
  {
    assert s[0 := s[0]] == s;
  }

  lemma HoleInside<T>(s: seq<T>, lt: (T, T) -> bool, j: nat, first: T, last: T, items: multiset<T>)
    requires Hole(s, lt, j, first, last, items)
    ensures j < |s| && (j < |s| - 1 ==> s[|s| - 1] == last)
  {
  }
}
