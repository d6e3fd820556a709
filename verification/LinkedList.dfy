/** A doubly linked list, and sorting it with a heap. */
module LinkedList {
  import opened Heap
  import opened HeapOrder
  import opened Wrappers

  class Link<T> {
    var value: T
    var next: Link?<T>
    var prev: Link?<T>

    constructor (value: T)
      ensures this.value == value && next == null && prev == null
    {
      this.value, next, prev := value, null, null;
    }
  }

  class ListCore<T(0,!new)> {
    var first: Link?<T>
    var last: Link?<T>
    var size: int
    ghost var links: seq<Link<T>>

    constructor ()
      ensures Valid() && Contents() == [] && links == []
    {
      first, last, size, links := null, null, 0, [];
    }

    /** The links are chained both ways in order, without sharing. */
    ghost predicate Valid()
      reads this, links
    {
      && size == |links| && first == At(links, 0) && last == At(links, |links| - 1)
      && (forall i :: 0 <= i < |links| ==> Joined(links, i)) && Distinct(links)
    }

    ghost function Contents(): (s: seq<T>)
      reads this, links
      ensures |s| == |links|
    {
      seq(|links|, i requires 0 <= i < |links| reads this, links => links[i].value)
    }

    method Append(x: T)
      requires Valid()
      modifies this, links
      ensures Valid() && Contents() == old(Contents()) + [x]
      ensures links != [] && links[..|links| - 1] == old(links) && fresh(links[|links| - 1])
    {
      hide Distinct;
      var link := new Link(x);
      size := size + 1;
      if first == null {
        first, last := link, link;
      } else {
        link.prev := last;
        DistinctLast(links);
        last.next := link;
        last := link;
      }
      ghost var before := links;
      links := links + [link];
      DistinctAppend(before, link);
      forall i | 0 <= i < |links|
        ensures Joined(links, i)
      {
        assert i < |before| ==> links[i] == before[i] && old(Joined(before, i));
      }
    }

    method Clear()
      modifies this
      ensures Valid() && Contents() == [] && links == []
    {
      first, last, size, links := null, null, 0, [];
    }

    /** Put all values into a heap. */
    method FillHeap(cmp: (T, T) -> bool) returns (h: HeapCore<T>)
      requires Valid() && StrictWeak(cmp)
      ensures fresh(h) && fresh(h.items) && h.Valid() && h.cmp == cmp
      ensures multiset(h.Items()) == multiset(Contents())
    {
      hide StrictWeak, Ordered, Distinct;
      h := new HeapCore(cmp, size);
      var cur := first;
      ghost var i := 0;
      while cur != null
        invariant i <= |links| && cur == At(links, i)
        invariant fresh(h.items) && h.Valid() && h.cmp == cmp
        invariant multiset(h.Items()) == multiset(Contents()[..i])
        decreases |links| - i
      {
        assert Joined(links, i) && Contents()[..i + 1] == Contents()[..i] + [Contents()[i]];
        h.Enqueue(cur.value);
        cur := cur.next;
        i := i + 1;
      }
      assert Contents()[..i] == Contents();
    }

    /** Sort by a heap: afterwards no value is less than one before it, and the values are the same. */
    method Sort(cmp: (T, T) -> bool)
      requires Valid() && StrictWeak(cmp)
      modifies this, links
      ensures Valid() && Sorted(Contents(), cmp) && multiset(Contents()) == multiset(old(Contents()))
    {
      hide StrictWeak, Ordered, Distinct, Joined, Sorted;
      var h := FillHeap(cmp);
      Clear();
      DrainHeap(h);
    }

    /** Append all items of the heap, the least first. */
    method DrainHeap(h: HeapCore<T>)
      requires Valid() && links == [] && h.Valid()
      modifies this, h, h.items
      ensures Valid() && Sorted(Contents(), h.cmp) && multiset(Contents()) == multiset(old(h.Items()))
    {
      hide ListCore.Valid, HeapCore.Valid, Sorted, Draining;
      ghost var all := multiset(h.Items());
      assert Contents() == [];
      DrainBegins(h.Items(), h.cmp);
      var empty := h.IsEmpty();
      while !empty
        invariant Valid() && fresh(links) && h.items == old(h.items)
        invariant h.Valid() && (empty <==> h.Items() == [])
        invariant Draining(h.Items(), Contents(), h.cmp, all)
        decreases |h.Items()|
      {
        ghost var before := links;
        MoveLeast(h, h.cmp, all);
        assert links == before + [links[|links| - 1]];
        empty := h.IsEmpty();
      }
      DrainEnds(h.Items(), Contents(), h.cmp, all);
    }

    /** Append the least item of the heap. */
    method MoveLeast(h: HeapCore<T>, cmp: (T, T) -> bool, ghost all: multiset<T>)
      requires Valid() && h.Valid() && h.cmp == cmp && h.Items() != []
      requires Draining(h.Items(), Contents(), cmp, all)
      modifies this, links, h, h.items
      ensures Valid() && h.Valid() && h.items == old(h.items) && |h.Items()| < |old(h.Items())|
      ensures links != [] && links[..|links| - 1] == old(links) && fresh(links[|links| - 1])
      ensures Draining(h.Items(), Contents(), cmp, all)
    {
      hide StrictWeak, Ordered, Distinct, Joined, Sorted, NoneBefore;
      ghost var items, before := multiset(h.Items()), Contents();
      var r := h.Dequeue();
      LeastIsNext(items, before, r.value, cmp);
      FewerItems(items, multiset(h.Items()), r.value);
      ghost var left := h.Items();
      Append(r.value);
      assert h.Items() == left;
      Moved(items, before, r.value, all);
    }
  }

  lemma FewerItems<T>(a: multiset<T>, b: multiset<T>, x: T)
    requires b == a - multiset{x} && x in a
    ensures |a| == |b| + 1
  {
  }

  lemma Moved<T>(items: multiset<T>, s: seq<T>, x: T, all: multiset<T>)
    requires x in items && items + multiset(s) == all
    ensures items - multiset{x} + multiset(s + [x]) == all
  {
    assert multiset(s + [x]) == multiset(s) + multiset{x};
  }

  /** No value is less than one before it. */
  ghost predicate Sorted<T>(s: seq<T>, lt: (T, T) -> bool)
  {
    forall i, j :: 0 <= i < j < |s| ==> !lt(s[j], s[i])
  }

  /** Nothing in the bag is less than anything in the list. */
  ghost predicate NoneBefore<T>(bag: multiset<T>, s: seq<T>, lt: (T, T) -> bool)
  {
    forall x, i :: x in bag && 0 <= i < |s| ==> !lt(x, s[i])
  }

  /** Some items are still in the heap, the others are in the list, sorted and before them. */
  ghost predicate Draining<T>(items: seq<T>, s: seq<T>, lt: (T, T) -> bool, all: multiset<T>)
  {
    multiset(items) + multiset(s) == all && Sorted(s, lt) && NoneBefore(multiset(items), s, lt)
  }

  lemma DrainBegins<T>(items: seq<T>, lt: (T, T) -> bool)
    ensures Draining(items, [], lt, multiset(items))
  {
  }

  lemma DrainEnds<T>(items: seq<T>, s: seq<T>, lt: (T, T) -> bool, all: multiset<T>)
    requires Draining(items, s, lt, all) && items == []
    ensures Sorted(s, lt) && multiset(s) == all
  {
  }

  /** A least item of the bag may come next. */
  lemma LeastIsNext<T>(bag: multiset<T>, s: seq<T>, x: T, lt: (T, T) -> bool)
    requires x in bag && (forall y :: y in bag ==> !lt(y, x))
    requires Sorted(s, lt) && NoneBefore(bag, s, lt)
    ensures Sorted(s + [x], lt) && NoneBefore(bag - multiset{x}, s + [x], lt)
  {
    forall y, i | y in bag - multiset{x} && 0 <= i < |s + [x]|
      ensures !lt(y, (s + [x])[i])
    {
      assert y in bag;
    }
  }

  /** Link `i`, or nothing outside of the list. */
  function At<T>(links: seq<Link<T>>, i: int): Link?<T>
  {
    if 0 <= i < |links| then links[i] else null
  }

  ghost predicate Joined<T>(links: seq<Link<T>>, i: int)
    requires 0 <= i < |links|
    reads links[i]
  {
    links[i].next == At(links, i + 1) && links[i].prev == At(links, i - 1)
  }

  ghost predicate Distinct<T>(links: seq<Link<T>>)
  {
    forall i, j :: 0 <= i < j < |links| ==> links[i] != links[j]
  }

  lemma DistinctAppend<T>(links: seq<Link<T>>, link: Link<T>)
    requires Distinct(links) && link !in links
    ensures Distinct(links + [link])
  {
  }

  lemma DistinctLast<T>(links: seq<Link<T>>)
    requires Distinct(links) && links != []
    ensures forall i :: 0 <= i < |links| - 1 ==> links[i] != links[|links| - 1]
  {
  }
}
