/** Copy on write: any number of handles on shared cores with reference counters. */
module SharedCore {
  class Core<T> {
    var value: T

    constructor (value: T)
      ensures this.value == value
    {
      this.value := value;
    }
  }

  class Counter {
    var n: int

    constructor (n: int)
      ensures this.n == n
    {
      this.n := n;
    }
  }

  /** Which handle is on which core. */
  type Owners<T> = map<Handle<T>, Core<T>>

  /** The handles on a core. */
  ghost function Users<T>(owner: Owners<T>, c: Core<T>): set<Handle<T>>
  {
    set h | h in owner && owner[h] == c
  }

  /** A handle that comes to a core is one more on it, and one less on the core it was on. */
  lemma UsersMove<T>(owner: Owners<T>, h: Handle<T>, c: Core<T>, x: Core<T>)
    ensures |Users(owner[h := c], x)|
         == |Users(owner, x)| + (if x == c then 1 else 0) - (if h in owner && owner[h] == x then 1 else 0)
    ensures x == c ==> h in Users(owner[h := c], x)
  {
    if x == c {
      assert Users(owner[h := c], x) == Users(owner, x) + {h};
    } else {
      assert Users(owner[h := c], x) == Users(owner, x) - {h};
    }
  }

  lemma UsersLeave<T>(owner: Owners<T>, h: Handle<T>, x: Core<T>)
    ensures |Users(owner - {h}, x)| == |Users(owner, x)| - (if h in owner && owner[h] == x then 1 else 0)
  {
    assert Users(owner - {h}, x) == Users(owner, x) - {h};
  }

  /** A handle that was on no core comes to one that had no handle. */
  lemma OwnUsers<T>(owner: Owners<T>, h: Handle<T>, c: Core<T>)
    requires c !in owner.Values && h !in owner
    ensures Users(owner[h := c], c) == {h}
    ensures forall x :: x != c ==> Users(owner[h := c], x) == Users(owner, x)
  {
  }

  /** Everything there is of one kind of core: the live handles with the core each is on, and the counter of each
      core that was not deallocated. */
  class World<T> {
    ghost var owner: Owners<T>
    ghost var counters: map<Core<T>, Counter>

    constructor ()
      ensures Valid() && owner == map[] && counters == map[]
    {
      owner, counters := map[], map[];
    }

    /** Handles point to the core they are on and to its counter. */
    ghost predicate Attached()
      reads this, owner.Keys
    {
      forall h :: h in owner ==> h.world == this && h.core == owner[h] && owner[h] in counters
                                 && h.count == counters[owner[h]]
    }

    /** Every counter is the number of handles on its core, which is there because there are some. */
    ghost predicate Counted()
      reads this, counters.Values
    {
      forall c :: c in counters ==> counters[c].n == |Users(owner, c)| && counters[c].n > 0
    }

    /** No two cores have the same counter. */
    ghost predicate Separate()
      reads this
    {
      forall c, d :: c in counters && d in counters && counters[c] == counters[d] ==> c == d
    }

    ghost predicate Valid()
      reads this, owner.Keys, counters.Values
    {
      Attached() && Counted() && Separate()
    }

    /** What a valid world says about one live handle. */
    lemma LiveHandle(h: Handle<T>)
      requires Valid() && h in owner
      ensures h.world == this && h.core == owner[h] && owner[h] in counters && h.count == counters[owner[h]]
      ensures h.count.n == |Users(owner, owner[h])| > 0
    {
    }

    /** The cores that were not deallocated are exactly those some handle is on. */
    lemma CoresAreUsed()
      requires Valid()
      ensures counters.Keys == owner.Values
    {
      forall c | c in counters
        ensures c in owner.Values
      {
        assert |Users(owner, c)| > 0;
        var h :| h in Users(owner, c);
        assert owner[h] == c;
      }
    }
  }

  class Handle<T> {
    const world: World<T>
    var core: Core?<T>
    var count: Counter?

    /** A live handle. */
    ghost predicate Live()
      reads this, world
    {
      this in world.owner
    }

    /** A handle on a core of its own. */
    constructor (world: World<T>, value: T)
      requires world.Valid()
      modifies world
      ensures world.Valid() && this.world == world && core != null && fresh(core) && core.value == value
      ensures world.owner == old(world.owner)[this := core]
      ensures count != null && world.counters == old(world.counters)[core := count]
    {
      this.world := world;
      core, count := null, null;
      new;
      var c := new Core(value);
      Own(c);
    }

    /** A handle on the core of another one. */
    constructor Copy(src: Handle<T>)
      requires src.world.Valid() && src.Live()
      modifies src.world, src.count
      ensures world == src.world && world.Valid() && core == src.core && src.core == old(src.core)
      ensures world.owner == old(src.world.owner)[this := src.core] && world.counters == old(src.world.counters)
      ensures core.value == old(src.core.value)
    {
      world := src.world;
      core, count := null, null;
      new;
      Share(src);
    }

    /** Come to the core of another handle; this one is on none. */
    method Share(src: Handle<T>)
      requires world.Valid() && src.world == world && src.Live() && !Live()
      modifies this, world, src.count
      ensures world.Valid() && core == src.core
      ensures world.owner == old(world.owner)[this := src.core] && world.counters == old(world.counters)
    {
      hide Users;
      core := src.core;
      count := src.count;
      count.n := count.n + 1;
      ghost var owner := world.owner;
      world.owner := owner[this := core];
      forall x | x in world.counters
        ensures world.counters[x].n == |Users(world.owner, x)| && world.counters[x].n > 0
      {
        UsersMove(owner, this, core, x);
      }
    }

    /** Leave the core. The last handle to leave deallocates it. */
    method Deref()
      requires world.Valid() && Live()
      modifies this, world, count
      ensures world.Valid() && core == null && world.owner == old(world.owner) - {this}
      ensures world.counters == if Users(old(world.owner), old(core)) == {this} then old(world.counters) - {old(core)}
                                else old(world.counters)
    {
      ghost var owner, c := world.owner, core;
      OnlyUser(owner, this);
      count.n := count.n - 1;
      world.owner := owner - {this};
      if count.n == 0 {
        world.counters := world.counters - {c};
      }
      core, count := null, null;
      forall x | x in world.counters
        ensures world.counters[x].n == |Users(world.owner, x)| && world.counters[x].n > 0
      {
        UsersLeave(owner, this, x);
      }
    }

    /** Assignment: leave one core for another. */
    method Assign(rhs: Handle<T>)
      requires world.Valid() && Live() && rhs.world == world && rhs.Live()
      modifies this, world, count, rhs.count
      ensures world.Valid() && core == rhs.core == old(rhs.core) && core.value == old(rhs.core.value)
      ensures world.owner == old(world.owner)[this := core]
      // The core that was left is there exactly as long as another handle is on it.
      ensures old(core) in world.counters <==> Users(world.owner, old(core)) != {}
      // No other handle sees a difference.
      ensures forall c :: c in old(world.owner - {this}).Values ==> c.value == old(c.value)
    {
      hide World.Attached, World.Counted, World.Separate, Users;
      world.LiveHandle(this);
      world.LiveHandle(rhs);
      if core == rhs.core {
        assert world.owner == world.owner[this := core];
        StillUsed(world.owner, this);
        return;
      }
      ghost var c := core;
      Deref();
      Share(rhs);
      Unused(world, c);
    }

    /** Have a core of one's own, with the same value. */
    method HardCopy()
      requires world.Valid() && Live()
      modifies this, world, count
      ensures world.Valid() && Live() && core.value == old(core.value)
      ensures Users(world.owner, core) == {this} && (core == old(core) || fresh(core))
      ensures world.owner == old(world.owner)[this := core]
      // No other handle sees a difference.
      ensures forall c :: c in old(world.owner - {this}).Values ==> c.value == old(c.value)
    {
      hide World.Attached, World.Counted, World.Separate, Users;
      world.LiveHandle(this);
      OnlyUser(world.owner, this);
      if count.n == 1 {
        assert world.owner == world.owner[this := core];
        return;
      }
      var copy := new Core(core.value);
      Deref();
      Own(copy);
    }

    /** Come to a new core; this handle is on none. */
    method Own(c: Core<T>)
      requires world.Valid() && !Live() && c !in world.counters && c !in world.owner.Values
      modifies this, world
      ensures world.Valid() && core == c
      ensures world.owner == old(world.owner)[this := c] && Users(world.owner, c) == {this}
      ensures world.counters == old(world.counters)[c := count] && count != null
    {
      hide Users;
      OwnUsers(world.owner, this, c);
      var n := new Counter(1);
      assert n !in world.counters.Values;
      core, count := c, n;
      world.owner := world.owner[this := c];
      world.counters := world.counters[c := n];
    }

    /** Change the value, which no other handle sees. */
    method Mutate(value: T)
      requires world.Valid() && Live()
      modifies this, world, count, core
      ensures world.Valid() && Live() && core.value == value && Users(world.owner, core) == {this}
      ensures world.owner == old(world.owner)[this := core]
      // No other handle sees a difference.
      ensures forall c :: c in old(world.owner - {this}).Values ==> c.value == old(c.value)
    {
      hide World.Attached, World.Counted, World.Separate, Users;
      world.LiveHandle(this);
      HardCopy();
      core.value := value;
      OwnOnly(world.owner, this);
      assert world.owner - {this} == old(world.owner - {this});
    }

    /** Start over with a new core. */
    method Reset(value: T)
      requires world.Valid() && Live()
      modifies this, world, count
      ensures world.Valid() && Live() && fresh(core) && core.value == value
      ensures world.owner == old(world.owner)[this := core]
      ensures old(core) in world.counters <==> Users(world.owner, old(core)) != {}
      // No other handle sees a difference.
      ensures forall c :: c in old(world.owner - {this}).Values ==> c.value == old(c.value)
    {
      hide World.Attached, World.Counted, World.Separate, Users;
      world.LiveHandle(this);
      ghost var old0 := core;
      var c := new Core(value);
      Deref();
      Own(c);
      Unused(world, old0);
    }

    /** The end of a handle. */
    method Destroy()
      requires world.Valid() && Live()
      modifies this, world, count
      ensures world.Valid() && !Live() && world.owner == old(world.owner) - {this}
      ensures old(core) in world.counters <==> Users(world.owner, old(core)) != {}
      // No other handle sees a difference.
      ensures forall c :: c in old(world.owner - {this}).Values ==> c.value == old(c.value)
    {
      hide World.Attached, World.Counted, World.Separate, Users;
      world.LiveHandle(this);
      ghost var c := core;
      Deref();
      Unused(world, c);
    }

    method GetRefCount() returns (n: int)
      requires world.Valid() && Live()
      ensures n == |Users(world.owner, core)|
    {
      n := count.n;
    }
  }

  lemma OnlyUser<T>(owner: Owners<T>, h: Handle<T>)
    requires h in owner
    ensures |Users(owner, owner[h])| == 1 <==> Users(owner, owner[h]) == {h}
  {
    assert h in Users(owner, owner[h]);
    if |Users(owner, owner[h])| == 1 {
      assert |Users(owner, owner[h]) - {h}| == 0;
    }
  }

  lemma StillUsed<T>(owner: Owners<T>, h: Handle<T>)
    requires h in owner
    ensures Users(owner, owner[h]) != {}
  {
    assert h in Users(owner, owner[h]);
  }

  /** A core with one handle is not among the cores of the others. */
  lemma OwnOnly<T>(owner: Owners<T>, h: Handle<T>)
    requires h in owner && Users(owner, owner[h]) == {h}
    ensures owner[h] !in (owner - {h}).Values
  {
    forall x | x in owner && x != h
      ensures owner[x] != owner[h]
    {
      assert x in Users(owner, owner[x]);
    }
  }

  /** In a valid world a core is there exactly when a handle is on it. */
  lemma Unused<T>(world: World<T>, c: Core<T>)
    requires world.Valid()
    ensures c in world.counters <==> Users(world.owner, c) != {}
  {
    if c in world.counters {
      assert |Users(world.owner, c)| > 0;
    }
    if h :| h in Users(world.owner, c) {
      assert world.owner[h] == c;
    }
  }
}
