/** What a synchronized queue does while it holds its lock: a singly linked list with a pointer to either end. */
module SynchroItems {
  import opened Wrappers

  class Item<T> {
    var data: T
    var next: Item?<T>

    constructor (data: T)
      ensures this.data == data && next == null
    {
      this.data, next := data, null;
    }
  }

  class ItemQueue<T> {
    var start: Item?<T>
    /** The last item. Left as it is when the last item is taken out. */
    var end: Item?<T>
    var size: int
    ghost var items: seq<Item<T>>

    constructor ()
      ensures Valid() && Contents() == []
    {
      start, end, size, items := null, null, 0, [];
    }

    /** The items are linked in order, without sharing, from start to end. */
    ghost predicate Valid()
      reads this, items
    {
      && size == |items|
      && start == (if items == [] then null else items[0])
      && (items != [] ==> end == items[|items| - 1])
      && (forall i :: 0 <= i < |items| ==> items[i].next == After(i))
      && (forall i, j :: 0 <= i < j < |items| ==> items[i] != items[j])
    }

    /** What the `i`-th item is linked to. */
    ghost function After(i: nat): Item?<T>
      reads this
    {
      if i + 1 < |items| then items[i + 1] else null
    }

    ghost function Contents(): (s: seq<T>)
      reads this, items
      ensures |s| == |items|
    {
      seq(|items|, i requires 0 <= i < |items| reads this, items => items[i].data)
    }

    method Enqueue(x: T)
      requires Valid()
      modifies this, items
      ensures Valid() && Contents() == old(Contents()) + [x]
      ensures size == old(size) + 1
    {
      if start == null {
        var item := new Item(x);
        start, end := item, item;
        items := [item];
        size := size + 1;
      } else {
        var item := new Item(x);
        end.next := item;
        end := item;
        items := items + [item];
        size := size + 1;
      }
    }

    /** Take the first item out, if there is one. */
    method Take() returns (r: Option<T>)
      requires Valid()
      modifies this
      ensures Valid()
      ensures old(Contents()) == [] ==> r == None && Contents() == [] && size == 0
      ensures old(Contents()) != [] ==>
                r == Some(old(Contents())[0]) && Contents() == old(Contents())[1..] && size == old(size) - 1
    {
      if start == null {
        return None;
      }
      r := Some(start.data);
      start := start.next;
      ghost var before := items;
      items := items[1..];
      size := size - 1;
      forall i | 0 <= i < |items|
        ensures items[i].next == After(i)
      {
        assert items[i] == before[i + 1];
      }
    }
  }
}
