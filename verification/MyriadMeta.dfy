/** Which blocks each stream owns and which are free, on values: the operations
    that move blocks, and what every reachable arrangement satisfies. */
module MyriadMeta {
  import opened BlockMath
  import opened Bytes
  import opened MyriadLayout
  import opened Numbers
  import opened Wrappers

  // ---- Sharing out the blocks ----

  /** 0, 1, ..., n-1. */
  function Iota(n: nat): (s: seq<nat>)
    ensures |s| == n && forall i :: 0 <= i < n ==> s[i] == i
  {
    seq(n, i => i)
  }

  /** All blocks the streams own, with multiplicity. */
  ghost function Owned(recs: seq<Rec>): multiset<nat>
  {
    if recs == [] then multiset{} else multiset(recs[0].blocks) + Owned(recs[1..])
  }

  ghost function OwnedCount(recs: seq<Rec>): nat { |Owned(recs)| }

  /** Free blocks and owned blocks together are 0..n-1, each exactly once. */
  ghost predicate Partition(n: nat, free: seq<nat>, recs: seq<Rec>)
  {
    multiset(free) + Owned(recs) == multiset(Iota(n))
  }

  lemma {:induction false} OwnedConcat(a: seq<Rec>, b: seq<Rec>)
    ensures Owned(a + b) == Owned(a) + Owned(b)
  {
    if a == [] {
      assert a + b == b;
    } else {
      assert (a + b)[0] == a[0] && (a + b)[1..] == a[1..] + b;
      OwnedConcat(a[1..], b);
    }
  }

  lemma OwnedOne(r: Rec)
    ensures Owned([r]) == multiset(r.blocks)
  {
  }

  /** The blocks of stream `i`, and those of all the others. */
  lemma OwnedSplit(recs: seq<Rec>, i: nat)
    requires i < |recs|
    ensures Owned(recs) == multiset(recs[i].blocks) + Owned(recs[..i] + recs[i + 1..])
  {
    hide Owned;
    assert recs == recs[..i] + ([recs[i]] + recs[i + 1..]);
    OwnedConcat(recs[..i], [recs[i]] + recs[i + 1..]);
    OwnedConcat([recs[i]], recs[i + 1..]);
    OwnedConcat(recs[..i], recs[i + 1..]);
    OwnedOne(recs[i]);
  }

  lemma OwnedUpdate(recs: seq<Rec>, i: nat, r: Rec)
    requires i < |recs|
    ensures multiset(recs[i].blocks) <= Owned(recs)
    ensures Owned(recs[i := r]) == Owned(recs) - multiset(recs[i].blocks) + multiset(r.blocks)
  {
    OwnedSplit(recs, i);
    OwnedSplit(recs[i := r], i);
    assert recs[i := r][..i] == recs[..i] && recs[i := r][i + 1..] == recs[i + 1..];
  }

  lemma OwnedAt(recs: seq<Rec>, i: nat, b: nat)
    requires i < |recs|
    ensures multiset(recs[i].blocks)[b] <= Owned(recs)[b]
  {
    OwnedSplit(recs, i);
  }

  lemma OwnedTwice(recs: seq<Rec>, i: nat, j: nat, b: nat)
    requires i < |recs| && j < |recs| && i != j
    ensures multiset(recs[i].blocks)[b] + multiset(recs[j].blocks)[b] <= Owned(recs)[b]
  {
    OwnedSplit(recs, i);
    var rest := recs[..i] + recs[i + 1..];
    OwnedAt(rest, if j < i then j else j - 1, b);
  }

  lemma {:induction false} OwnedBySome(recs: seq<Rec>, b: nat)
    requires b in Owned(recs)
    ensures exists i :: 0 <= i < |recs| && b in recs[i].blocks
  {
    if b in recs[0].blocks {
    } else {
      OwnedBySome(recs[1..], b);
      var i :| 0 <= i < |recs[1..]| && b in recs[1..][i].blocks;
      assert recs[i + 1] == recs[1..][i];
    }
  }

  lemma {:induction false} CountTwice(s: seq<nat>, i: nat, j: nat)
    requires i < j < |s| && s[i] == s[j]
    ensures multiset(s)[s[i]] >= 2
  {
    assert s == s[..j] + ([s[j]] + s[j + 1..]);
    assert s[i] in s[..j];
    assert multiset(s) == multiset(s[..j]) + multiset([s[j]]) + multiset(s[j + 1..]);
  }

  lemma {:induction false} IotaCount(n: nat, b: nat)
    ensures multiset(Iota(n))[b] == if b < n then 1 else 0
  {
    if n > 0 {
      IotaCount(n - 1, b);
      assert Iota(n) == Iota(n - 1) + [n - 1];
    }
  }

  lemma PartitionCount(n: nat, free: seq<nat>, recs: seq<Rec>, b: nat)
    requires Partition(n, free, recs)
    ensures multiset(free)[b] + Owned(recs)[b] == if b < n then 1 else 0
  {
    IotaCount(n, b);
    assert (multiset(free) + Owned(recs))[b] == multiset(Iota(n))[b];
  }

  /** What a partition means block by block. */
  lemma PartitionMeaning(n: nat, free: seq<nat>, recs: seq<Rec>)
    requires Partition(n, free, recs)
    ensures Injective(free) && InRange(free, n)
    ensures forall i :: 0 <= i < |recs| ==> Injective(recs[i].blocks) && InRange(recs[i].blocks, n)
    ensures forall i, b :: 0 <= i < |recs| && b in recs[i].blocks ==> b !in free
    ensures forall i, j, b :: 0 <= i < |recs| && 0 <= j < |recs| && b in recs[i].blocks && b in recs[j].blocks
                           ==> i == j
    ensures forall b :: 0 <= b < n ==> b in free || exists i :: 0 <= i < |recs| && b in recs[i].blocks
  {
    forall i, j | 0 <= i < j < |free| && free[i] == free[j]
      ensures false
    {
      CountTwice(free, i, j);
      PartitionCount(n, free, recs, free[i]);
    }
    forall i | 0 <= i < |free|
      ensures free[i] < n
    {
      assert free[i] in multiset(free);
      PartitionCount(n, free, recs, free[i]);
    }
    forall i | 0 <= i < |recs|
      ensures Injective(recs[i].blocks) && InRange(recs[i].blocks, n)
    {
      BlocksOfOne(n, free, recs, i);
    }
    forall i, b | 0 <= i < |recs| && b in recs[i].blocks
      ensures b !in free
    {
      OwnedAt(recs, i, b);
      assert b in multiset(recs[i].blocks);
      assert b in free ==> b in multiset(free);
      PartitionCount(n, free, recs, b);
    }
    forall i, j, b | 0 <= i < |recs| && 0 <= j < |recs| && b in recs[i].blocks && b in recs[j].blocks
      ensures i == j
    {
      assert b in multiset(recs[i].blocks) && b in multiset(recs[j].blocks);
      PartitionCount(n, free, recs, b);
      if i != j { OwnedTwice(recs, i, j, b); }
    }
    forall b | 0 <= b < n && b !in free
      ensures exists i :: 0 <= i < |recs| && b in recs[i].blocks
    {
      PartitionCount(n, free, recs, b);
      assert b !in multiset(free);
      OwnedBySome(recs, b);
    }
  }

  lemma BlocksOfOne(n: nat, free: seq<nat>, recs: seq<Rec>, i: nat)
    requires Partition(n, free, recs) && i < |recs|
    ensures Injective(recs[i].blocks) && InRange(recs[i].blocks, n)
  {
    var s := recs[i].blocks;
    forall x, y | 0 <= x < y < |s| && s[x] == s[y]
      ensures false
    {
      CountTwice(s, x, y);
      OwnedAt(recs, i, s[x]);
      PartitionCount(n, free, recs, s[x]);
    }
    forall x | 0 <= x < |s|
      ensures s[x] < n
    {
      assert s[x] in multiset(s);
      OwnedAt(recs, i, s[x]);
      PartitionCount(n, free, recs, s[x]);
    }
  }

  // ---- The arrangement and its operations ----

  /** Block count, free list, used counter and stream records of a Myriad. */
  datatype Meta = Meta(blocks: nat, free: seq<nat>, used: int, recs: seq<Rec>)

  /** The block that is taken next: the first free one, or a new one at the end. */
  function NextBlock(m: Meta): nat
  {
    if m.free != [] then m.free[0] else m.blocks
  }

  function Take(m: Meta): Meta
  {
    if m.free != [] then m.(free := m.free[1..]) else m.(blocks := m.blocks + 1)
  }

  /** Take a block for stream `i`. */
  function TakeFor(m: Meta, i: nat): Meta
    requires i < |m.recs|
  {
    Take(m).(used := m.used + 1,
             recs := m.recs[i := m.recs[i].(blocks := m.recs[i].blocks + [NextBlock(m)])])
  }

  /** Take `k` blocks for stream `i`. */
  function TakeMany(m: Meta, i: nat, k: nat): (m': Meta)
    requires i < |m.recs|
    ensures |m'.recs| == |m.recs|
    decreases k
  {
    if k == 0 then m else TakeMany(TakeFor(m, i), i, k - 1)
  }

  /** Put the last block of stream `i` on the free list. */
  function GiveLast(m: Meta, i: nat): Meta
    requires i < |m.recs| && m.recs[i].blocks != []
  {
    var k := |m.recs[i].blocks| - 1;
    m.(free := m.free + [m.recs[i].blocks[k]], used := m.used - 1,
       recs := m.recs[i := m.recs[i].(blocks := m.recs[i].blocks[..k])])
  }

  /** Give back the blocks of stream `i` that lie wholly past byte `n`. */
  function ShrinkTo(m: Meta, i: nat, n: nat, block: nat): (m': Meta)
    requires i < |m.recs|
    ensures |m'.recs| == |m.recs|
    decreases |m.recs[i].blocks|
  {
    if m.recs[i].blocks != [] && Span(|m.recs[i].blocks| - 1, block) > n
    then ShrinkTo(GiveLast(m, i), i, n, block) else m
  }

  /** Take blocks for stream `i` until `n` bytes are covered. */
  function GrowTo(m: Meta, i: nat, n: nat, block: nat): (m': Meta)
    requires i < |m.recs| && block > 0
    ensures |m'.recs| == |m.recs|
    decreases n - Span(|m.recs[i].blocks|, block)
  {
    if Span(|m.recs[i].blocks|, block) < n then GrowTo(TakeFor(m, i), i, n, block) else m
  }

  function Resize(m: Meta, i: nat, n: nat, block: nat): (m': Meta)
    requires i < |m.recs| && block > 0
    ensures |m'.recs| == |m.recs|
  {
    if m.recs[i].size == n then m
    else
      var t := if n < m.recs[i].size then ShrinkTo(m, i, n, block) else GrowTo(m, i, n, block);
      t.(recs := t.recs[i := t.recs[i].(size := n)])
  }

  function Backward(s: seq<nat>): seq<nat>
  {
    if s == [] then [] else [s[|s| - 1]] + Backward(s[..|s| - 1])
  }

  /** Blocks that are given back come last among the free ones, the last block of the stream first. */
  lemma {:induction false} FreedComeLast(m: Meta, i: nat, n: nat, block: nat)
    requires i < |m.recs| && block > 0
    ensures var s := ShrinkTo(m, i, n, block);
            var k := |s.recs[i].blocks|;
            k <= |m.recs[i].blocks| && s.free == m.free + Backward(m.recs[i].blocks[k..])
    decreases |m.recs[i].blocks|
  {
    var owned := m.recs[i].blocks;
    if owned != [] && Span(|owned| - 1, block) > n {
      FreedComeLast(GiveLast(m, i), i, n, block);
      var j, k := |owned| - 1, |ShrinkTo(m, i, n, block).recs[i].blocks|;
      assert owned[k..][|owned| - k - 1] == owned[j] && owned[k..][..|owned| - k - 1] == owned[..j][k..];
    }
  }

  /** A new empty stream before position `i`, with `k` blocks taken for it. */
  function Create(m: Meta, i: nat, id: int, k: nat): Meta
    requires i <= |m.recs|
  {
    TakeMany(m.(recs := m.recs[..i] + [Rec(id, 0, [])] + m.recs[i..]), i, k)
  }

  function Delete(m: Meta, i: nat): Meta
    requires i < |m.recs|
  {
    m.(free := m.free + m.recs[i].blocks, used := m.used - |m.recs[i].blocks|,
       recs := m.recs[..i] + m.recs[i + 1..])
  }

  // ---- What every operation keeps ----

  ghost predicate Increasing(recs: seq<Rec>)
  {
    forall i, j :: 0 <= i < j < |recs| ==> recs[i].id < recs[j].id
  }

  ghost predicate AllCovered(recs: seq<Rec>, block: nat)
  {
    forall i :: 0 <= i < |recs| ==> Covers(recs[i], block)
  }

  ghost predicate Ordered(recs: seq<Rec>)
  {
    recs != [] && recs[0].id == 0 && Increasing(recs)
  }

  /** What holds in every reachable state. */
  ghost predicate Sound(m: Meta, block: nat)
  {
    && block >= 5
    && Ordered(m.recs)
    && AllCovered(m.recs, block)
    && Partition(m.blocks, m.free, m.recs)
  }

  /** The used counter's distance from the number of blocks owned. */
  ghost function Drift(m: Meta): int { m.used - OwnedCount(m.recs) }

  lemma TakeConserves(m: Meta, owned: multiset<nat>)
    requires multiset(m.free) + owned == multiset(Iota(m.blocks))
    ensures multiset(Take(m).free) + (owned + multiset{NextBlock(m)}) == multiset(Iota(Take(m).blocks))
  {
    if m.free != [] {
      assert m.free == [m.free[0]] + m.free[1..];
    } else {
      assert Iota(m.blocks + 1) == Iota(m.blocks) + [m.blocks];
    }
  }

  lemma UpdateKeeps(recs: seq<Rec>, i: nat, r: Rec, block: nat)
    requires Ordered(recs) && AllCovered(recs, block) && i < |recs|
    requires r.id == recs[i].id
    requires (r.size == recs[i].size && recs[i].blocks <= r.blocks) || Covers(r, block)
    ensures Ordered(recs[i := r]) && AllCovered(recs[i := r], block)
  {
    SpanMonotone(Min(|recs[i].blocks|, |r.blocks|), |r.blocks|, block);
    assert Covers(recs[i], block);
    assert recs[i := r][0].id == recs[0].id;
  }

  lemma TakeForKeeps(m: Meta, i: nat)
    requires Partition(m.blocks, m.free, m.recs) && i < |m.recs|
    ensures Partition(Take(m).blocks, Take(m).free, TakeFor(m, i).recs)
    ensures Drift(TakeFor(m, i)) == Drift(m)
  {
    var r := m.recs[i].(blocks := m.recs[i].blocks + [NextBlock(m)]);
    OwnedUpdate(m.recs, i, r);
    assert multiset(r.blocks) == multiset(m.recs[i].blocks) + multiset{NextBlock(m)};
    assert Owned(m.recs[i := r]) == Owned(m.recs) + multiset{NextBlock(m)};
    TakeConserves(m, Owned(m.recs));
  }

  lemma TakeForSound(m: Meta, i: nat, block: nat)
    requires Sound(m, block) && i < |m.recs|
    ensures Sound(TakeFor(m, i), block) && Drift(TakeFor(m, i)) == Drift(m)
  {
    hide Partition, Owned, Drift, Ordered, AllCovered, Increasing;
    TakeForKeeps(m, i);
    UpdateKeeps(m.recs, i, TakeFor(m, i).recs[i], block);
  }

  lemma {:induction false} TakeManySound(m: Meta, i: nat, k: nat, block: nat)
    requires Sound(m, block) && i < |m.recs|
    ensures Sound(TakeMany(m, i, k), block) && Drift(TakeMany(m, i, k)) == Drift(m)
    ensures Extends(m, TakeMany(m, i, k), i) && |TakeMany(m, i, k).recs[i].blocks| == |m.recs[i].blocks| + k
    decreases k
  {
    hide Partition, Owned, Drift;
    if k > 0 {
      TakeForSound(m, i, block);
      TakeManySound(TakeFor(m, i), i, k - 1, block);
    }
  }

  lemma GiveLastKeeps(m: Meta, i: nat)
    requires Partition(m.blocks, m.free, m.recs) && i < |m.recs| && m.recs[i].blocks != []
    ensures Partition(m.blocks, GiveLast(m, i).free, GiveLast(m, i).recs)
    ensures Drift(GiveLast(m, i)) == Drift(m)
  {
    hide Owned;
    var k := |m.recs[i].blocks| - 1;
    var b, r := m.recs[i].blocks[k], GiveLast(m, i).recs[i];
    OwnedUpdate(m.recs, i, r);
    assert m.recs[i].blocks == r.blocks + [b];
    GiveConserves(m.free, b, Owned(m.recs), multiset(m.recs[i].blocks), multiset(r.blocks));
  }

  lemma GiveConserves(free: seq<nat>, b: nat, owned: multiset<nat>, had: multiset<nat>, has: multiset<nat>)
    requires had <= owned && had == has + multiset{b}
    ensures multiset(free + [b]) + (owned - had + has) == multiset(free) + owned
    ensures |owned - had + has| == |owned| - 1
  {
    assert owned == (owned - had + has) + multiset{b};
  }

  /** `m'` differs from `m` only in blocks appended to stream `i`. */
  ghost predicate Extends(m: Meta, m': Meta, i: nat)
  {
    && i < |m.recs| && |m'.recs| == |m.recs|
    && m.recs[i].blocks <= m'.recs[i].blocks
    && m'.recs == m.recs[i := m.recs[i].(blocks := m'.recs[i].blocks)]
    && m.blocks <= m'.blocks
    && forall b :: b in m'.free ==> b in m.free
  }

  /** A taken block is one more block owned. */
  lemma TakeForCounts(m: Meta, i: nat)
    requires i < |m.recs|
    ensures OwnedCount(TakeFor(m, i).recs) == OwnedCount(m.recs) + 1
    ensures |TakeFor(m, i).recs| == |m.recs| && TakeFor(m, i).recs[i].size == m.recs[i].size
    ensures |TakeFor(m, i).recs[i].blocks| == |m.recs[i].blocks| + 1
  {
    var r := TakeFor(m, i).recs[i];
    OwnedUpdate(m.recs, i, r);
    assert multiset(r.blocks) == multiset(m.recs[i].blocks) + multiset{NextBlock(m)};
    assert Owned(m.recs[i := r]) == Owned(m.recs) + multiset{NextBlock(m)};
  }

  lemma OwnedCountPrefix(recs: seq<Rec>, i: nat)
    requires i < |recs|
    ensures OwnedCount(recs[..i + 1]) == OwnedCount(recs[..i]) + |recs[i].blocks|
  {
    var t := recs[..i + 1];
    OwnedSplit(t, i);
    assert t[..i] + t[i + 1..] == recs[..i];
  }

  lemma OwnedCountNone(recs: seq<Rec>)
    ensures OwnedCount(recs[..0]) == 0
  {
  }

  lemma TakeForExtends(m: Meta, i: nat)
    requires i < |m.recs|
    ensures Extends(m, TakeFor(m, i), i)
  {
  }

  lemma {:induction false} GrowToSound(m: Meta, i: nat, n: nat, block: nat)
    requires Sound(m, block) && i < |m.recs|
    ensures Sound(GrowTo(m, i, n, block), block) && Drift(GrowTo(m, i, n, block)) == Drift(m)
    ensures Extends(m, GrowTo(m, i, n, block), i)
    ensures |GrowTo(m, i, n, block).recs[i].blocks| == Max(|m.recs[i].blocks|, BlkDiv(n, block))
    decreases n - Span(|m.recs[i].blocks|, block)
  {
    hide Partition, Owned, Drift, Ordered, AllCovered;
    BlkDivLeast(n, |m.recs[i].blocks|, block);
    if Span(|m.recs[i].blocks|, block) < n {
      TakeForSound(m, i, block);
      GrowToSound(TakeFor(m, i), i, n, block);
    }
  }

  /** The number of blocks a stream keeps when it shrinks to `n` bytes. */
  function Kept(have: nat, n: nat, block: nat): nat
    requires block > 0
  {
    Min(have, BlockOf(n, block) + 1)
  }

  /** What shrinking to `n` bytes does: a tail of stream `i`'s blocks moves to the free list. */
  ghost predicate Shrunk(m: Meta, m': Meta, i: nat, k: nat)
    requires i < |m.recs| && k <= |m.recs[i].blocks|
  {
    && m'.blocks == m.blocks
    && m'.recs == m.recs[i := m.recs[i].(blocks := m.recs[i].blocks[..k])]
    && forall b :: b in m'.free <==> b in m.free || b in m.recs[i].blocks[k..]
  }

  lemma {:induction false} ShrinkToKeeps(m: Meta, i: nat, n: nat, block: nat)
    requires Partition(m.blocks, m.free, m.recs) && i < |m.recs| && block > 0
    ensures Partition(m.blocks, ShrinkTo(m, i, n, block).free, ShrinkTo(m, i, n, block).recs)
    ensures Drift(ShrinkTo(m, i, n, block)) == Drift(m)
    ensures Shrunk(m, ShrinkTo(m, i, n, block), i, Kept(|m.recs[i].blocks|, n, block))
    decreases |m.recs[i].blocks|
  {
    hide Partition, Owned, Drift;
    var owned := m.recs[i].blocks;
    if owned == [] {
    } else {
      var j := |owned| - 1;
      BlockIndex(n, j, block);
      if Span(j, block) > n {
        GiveLastKeeps(m, i);
        ShrinkToKeeps(GiveLast(m, i), i, n, block);
        var k := Kept(|owned|, n, block);
        assert k == Kept(j, n, block) && k <= j;
        assert owned[..j][..k] == owned[..k] && owned[k..] == owned[..j][k..] + [owned[j]];
        assert m.recs[i := GiveLast(m, i).recs[i]][i := GiveLast(m, i).recs[i].(blocks := owned[..k])]
            == m.recs[i := m.recs[i].(blocks := owned[..k])];
      } else {
        assert owned[..|owned|] == owned;
      }
    }
  }

  lemma SameBlocks(m: Meta, i: nat, r: Rec)
    requires i < |m.recs| && r.blocks == m.recs[i].blocks
    ensures Partition(m.blocks, m.free, m.recs) ==> Partition(m.blocks, m.free, m.recs[i := r])
    ensures Drift(m.(recs := m.recs[i := r])) == Drift(m)
  {
    OwnedUpdate(m.recs, i, r);
    assert Owned(m.recs[i := r]) == Owned(m.recs);
  }

  /** Resizing a stream keeps the arrangement sound and the drift of the counter. */
  lemma ResizeSound(m: Meta, i: nat, n: nat, block: nat)
    requires Sound(m, block) && i < |m.recs|
    ensures Sound(Resize(m, i, n, block), block) && Drift(Resize(m, i, n, block)) == Drift(m)
  {
    hide Partition, Owned, Drift, Ordered, AllCovered;
    var r := Resize(m, i, n, block).recs[i];
    if n < m.recs[i].size {
      var t := ShrinkTo(m, i, n, block);
      ShrinkToKeeps(m, i, n, block);
      SameBlocks(t, i, r);
      ShrinkCovers(m, i, n, block);
      UpdateKeeps(m.recs, i, r, block);
      assert t.recs[i := r] == m.recs[i := r];
    } else if n > m.recs[i].size {
      var t := GrowTo(m, i, n, block);
      GrowToSound(m, i, n, block);
      SameBlocks(t, i, r);
      BlkDivLeast(n, |r.blocks|, block);
      UpdateKeeps(t.recs, i, r, block);
    }
  }

  /** The blocks kept on a shrink cover the new size. */
  lemma ShrinkCovers(m: Meta, i: nat, n: nat, block: nat)
    requires i < |m.recs| && block > 0 && n <= m.recs[i].size && AllCovered(m.recs, block)
    ensures n <= Span(Kept(|m.recs[i].blocks|, n, block), block)
  {
    assert Covers(m.recs[i], block);
    BlockIndex(n, BlockOf(n, block) + 1, block);
  }

  lemma RangesOf(m: Meta, block: nat)
    requires Sound(m, block)
    ensures forall j :: 0 <= j < |m.recs| ==> Covers(m.recs[j], block) && InRange(m.recs[j].blocks, m.blocks)
  {
    hide Partition, Owned;
    PartitionMeaning(m.blocks, m.free, m.recs);
  }

  /** Appended blocks and new cells do not change what the streams hold. */
  lemma ExtendContents(m: Meta, m': Meta, i: nat, cells: seq<seq<byte>>, cells': seq<seq<byte>>, block: nat)
    requires Sound(m, block) && Extends(m, m', i) && |cells| == m.blocks && cells <= cells'
    ensures Contents(m'.recs, cells', block) == Contents(m.recs, cells, block)
  {
    hide Partition, Owned, Ordered;
    RangesOf(m, block);
    var extra := m'.recs[i].blocks[|m.recs[i].blocks|..];
    assert m'.recs[i].blocks == m.recs[i].blocks + extra;
    GrowContents(m.recs, cells, cells', block, i, extra);
  }

  /** Resizing cuts or extends one stream's bytes and touches no other stream's. */
  lemma ResizeContents(m: Meta, i: nat, n: nat, cells: seq<seq<byte>>, cells': seq<seq<byte>>, block: nat)
    requires Sound(m, block) && i < |m.recs| && |cells| == m.blocks && cells <= cells'
    requires n <= m.recs[i].size ==> cells' == cells
    ensures Resized(Contents(m.recs, cells, block), Contents(Resize(m, i, n, block).recs, cells', block), i, n)
  {
    hide Partition, Owned, Drift, Ordered;
    var r := Resize(m, i, n, block).recs[i];
    if n < m.recs[i].size {
      ShrinkToKeeps(m, i, n, block);
      ShrinkCovers(m, i, n, block);
      FlatShrink(m.recs[i], cells, |r.blocks|, n, block);
      assert Resize(m, i, n, block).recs == m.recs[i := r];
    } else if n > m.recs[i].size {
      var t := GrowTo(m, i, n, block);
      GrowToSound(m, i, n, block);
      ExtendContents(m, t, i, cells, cells', block);
      FlatLonger(t.recs[i], n, cells', block);
    } else {
      assert Flat(m.recs[i], cells, block)[..n] == Flat(m.recs[i], cells, block);
    }
  }

  lemma FlatLonger(r: Rec, n: nat, cells: seq<seq<byte>>, block: nat)
    requires block > 0 && r.size <= n
    ensures Flat(r, cells, block) <= Flat(r.(size := n), cells, block)
  {
  }

  /** A block freed by a resize can be told by looking at the block list before and after. */
  lemma ResizeFrees(m: Meta, i: nat, n: nat, block: nat, b: nat)
    requires Sound(m, block) && i < |m.recs|
    ensures b in m.recs[i].blocks ==>
              (b in Resize(m, i, n, block).free <==> b !in Resize(m, i, n, block).recs[i].blocks)
    ensures b !in m.recs[i].blocks ==> (b in Resize(m, i, n, block).free ==> b in m.free)
    ensures b !in m.recs[i].blocks && n <= m.recs[i].size ==> (b in Resize(m, i, n, block).free <==> b in m.free)
  {
    hide Owned, Drift, Ordered, AllCovered;
    PartitionMeaning(m.blocks, m.free, m.recs);
    hide Partition;
    var m' := Resize(m, i, n, block);
    if n < m.recs[i].size {
      ShrinkToKeeps(m, i, n, block);
      var k := |m'.recs[i].blocks|;
      assert m.recs[i].blocks == m.recs[i].blocks[..k] + m.recs[i].blocks[k..];
    } else if n > m.recs[i].size {
      GrowToSound(m, i, n, block);
    }
  }

  /** After a resize, a block in memory is free exactly when the resize freed it. */
  lemma ResizeIdle(m: Meta, i: nat, n: nat, block: nat, active: set<nat>)
    requires Sound(m, block) && i < |m.recs|
    requires forall b :: b in active ==> b !in m.free
    ensures (forall b :: b in active ==> b !in Resize(m, i, n, block).free)
       <==> (forall b :: b in active && b in m.recs[i].blocks ==> b in Resize(m, i, n, block).recs[i].blocks)
  {
    assert block > 0;
    hide Sound, Resize;
    forall b | b in active
      ensures b in Resize(m, i, n, block).free
         <==> b in m.recs[i].blocks && b !in Resize(m, i, n, block).recs[i].blocks
    {
      ResizeFrees(m, i, n, block, b);
    }
  }

  /** Resizing keeps every id and every other record; blocks only come or go at the end. */
  lemma ResizeIds(m: Meta, i: nat, n: nat, block: nat)
    requires Sound(m, block) && i < |m.recs|
    ensures Resize(m, i, n, block).recs == m.recs[i := Resize(m, i, n, block).recs[i]]
    ensures Resize(m, i, n, block).recs[i].id == m.recs[i].id
    ensures m.recs[i].blocks <= Resize(m, i, n, block).recs[i].blocks
         || Resize(m, i, n, block).recs[i].blocks <= m.recs[i].blocks
  {
    hide Partition, Owned, Drift;
    if n < m.recs[i].size {
      ShrinkToKeeps(m, i, n, block);
    } else if n > m.recs[i].size {
      GrowToSound(m, i, n, block);
    }
  }

  /** How many of its blocks, from the first on, a stream keeps when it is resized to `n` bytes. */
  function KeptOf(r: Rec, n: nat, block: nat): nat
    requires block > 0
  {
    if n < r.size then Kept(|r.blocks|, n, block) else |r.blocks|
  }

  /** The block `cur`, if any, is among those kept. */
  ghost predicate KeepsBlock(r: Rec, n: nat, block: nat, cur: Option<nat>)
    requires block > 0
  {
    cur.None? || exists k :: 0 <= k < KeptOf(r, n, block) && k < |r.blocks| && r.blocks[k] == cur.value
  }

  lemma ResizeKeepsIndex(m: Meta, i: nat, n: nat, block: nat, b: nat)
    requires Sound(m, block) && i < |m.recs| && b in m.recs[i].blocks
    ensures b in Resize(m, i, n, block).recs[i].blocks <==> KeepsBlock(m.recs[i], n, block, Some(b))
  {
    hide Owned, Drift;
    var r := m.recs[i];
    if n < r.size {
      ShrinkToKeeps(m, i, n, block);
    } else if n > r.size {
      GrowToSound(m, i, n, block);
    }
  }

  /** A block a stream gains was free or did not exist before. */
  lemma {:induction false} GrowToNew(m: Meta, i: nat, n: nat, block: nat, b: nat)
    requires i < |m.recs| && block > 0 && b in GrowTo(m, i, n, block).recs[i].blocks
    ensures b in m.recs[i].blocks || b in m.free || b >= m.blocks
    decreases n - Span(|m.recs[i].blocks|, block)
  {
    if Span(|m.recs[i].blocks|, block) < n {
      GrowToNew(TakeFor(m, i), i, n, block, b);
    }
  }

  /** Blocks of the stream that are in memory after a resize were in the stream before it. */
  lemma ResizeNew(m: Meta, i: nat, n: nat, block: nat, b: nat)
    requires Sound(m, block) && i < |m.recs| && b in Resize(m, i, n, block).recs[i].blocks
    requires b !in m.free && b < m.blocks
    ensures b in m.recs[i].blocks
  {
    ResizeIds(m, i, n, block);
    if n > m.recs[i].size {
      GrowToNew(m, i, n, block, b);
    } else if n < m.recs[i].size {
      ShrinkToKeeps(m, i, n, block);
    }
  }

  // ---- Writing a chunk that stays inside one block ----

  /** The block a chunk at `pos` goes to, once there is one: the block at that position, or the last one. */
  function Target(r: Rec, pos: nat, block: nat): nat
    requires block > 0 && r.blocks != []
  {
    if BlockOf(pos, block) < |r.blocks| then r.blocks[BlockOf(pos, block)] else r.blocks[|r.blocks| - 1]
  }

  function WithSize(m: Meta, i: nat, n: nat): Meta
    requires i < |m.recs|
  {
    m.(recs := m.recs[i := m.recs[i].(size := n)])
  }

  lemma WithSizeSound(m: Meta, i: nat, n: nat, block: nat)
    requires Sound(m, block) && i < |m.recs| && n <= Span(|m.recs[i].blocks|, block)
    ensures Sound(WithSize(m, i, n), block) && Drift(WithSize(m, i, n)) == Drift(m)
  {
    hide Partition, Drift, Owned, Ordered, AllCovered;
    SameBlocks(m, i, m.recs[i].(size := n));
    UpdateKeeps(m.recs, i, m.recs[i].(size := n), block);
  }

  /** A chunk written at or before the end is a splice of that stream; no other stream changes. */
  lemma ChunkContents(m: Meta, i: nat, pos: nat, d: seq<byte>, cells: seq<seq<byte>>, block: nat)
    requires Sound(m, block) && i < |m.recs| && |cells| == m.blocks && Uniform(cells, block)
    requires BlockOf(pos, block) < |m.recs[i].blocks| && Offset(pos, block) + |d| <= block
    requires pos <= m.recs[i].size
    ensures m.recs[i].blocks[BlockOf(pos, block)] < |cells|
    ensures Contents(WithSize(m, i, Max(m.recs[i].size, pos + |d|)).recs,
                     Poke(cells, m.recs[i].blocks[BlockOf(pos, block)], Offset(pos, block), d), block)
         == Contents(m.recs, cells, block)[i := Splice(Flat(m.recs[i], cells, block), pos, d)]
  {
    hide Owned, Drift, Ordered, AllCovered;
    PartitionMeaning(m.blocks, m.free, m.recs);
    hide Partition;
    var b, off := m.recs[i].blocks[BlockOf(pos, block)], Offset(pos, block);
    PokeSplice(m.recs[i], cells, block, pos, d);
    forall j | 0 <= j < |m.recs| && j != i
      ensures Flat(m.recs[j], Poke(cells, b, off, d), block) == Flat(m.recs[j], cells, block)
    {
      assert b !in m.recs[j].blocks;
      PokeElsewhere(m.recs[j], cells, block, b, off, d);
    }
  }

  /** A chunk written past the end grows the stream by its own length only: the bytes that were
      there stay, and no other stream changes. */
  lemma ChunkPastEnd(m: Meta, i: nat, pos: nat, d: seq<byte>, cells: seq<seq<byte>>, block: nat)
    requires Sound(m, block) && i < |m.recs| && |cells| == m.blocks && Uniform(cells, block)
    requires m.recs[i].blocks != [] && Offset(pos, block) + |d| <= block
    requires pos > m.recs[i].size
    requires BlockOf(pos, block) >= |m.recs[i].blocks| ==> m.recs[i].size <= Span(|m.recs[i].blocks| - 1, block)
    ensures Target(m.recs[i], pos, block) < |cells|
    ensures Resized(Contents(m.recs, cells, block),
                    Contents(WithSize(m, i, m.recs[i].size + |d|).recs,
                             Poke(cells, Target(m.recs[i], pos, block), Offset(pos, block), d), block),
                    i, m.recs[i].size + |d|)
  {
    hide Owned, Drift, Ordered, AllCovered;
    PartitionMeaning(m.blocks, m.free, m.recs);
    hide Partition;
    var r, b, off := m.recs[i], Target(m.recs[i], pos, block), Offset(pos, block);
    var cells' := Poke(cells, b, off, d);
    forall q: nat | q < r.size
      ensures ByteAt(r.blocks, cells', block, q) == ByteAt(r.blocks, cells, block, q)
    {
      if BlockOf(pos, block) < |r.blocks| {
        PokeByteAt(r.blocks, cells, block, pos, d, q);
      } else {
        BlockIndex(q, |r.blocks| - 1, block);
        PokeCellByte(r.blocks, cells, |r.blocks| - 1, off, d, BlockOf(q, block), Offset(q, block));
      }
    }
    forall j | 0 <= j < |m.recs| && j != i
      ensures Flat(m.recs[j], cells', block) == Flat(m.recs[j], cells, block)
    {
      assert b !in m.recs[j].blocks;
      PokeElsewhere(m.recs[j], cells, block, b, off, d);
    }
    var s, t := Flat(r, cells, block), Flat(r.(size := r.size + |d|), cells', block);
    assert s <= t;
    if d == [] { assert t[..|s|] == t; }
  }

  /** The size of a stream after a chunk of `n` bytes that starts at `pos`. */
  function GrownSize(size: nat, pos: nat, n: nat): nat
  {
    if pos < size then size else size + n
  }

  /** The chunk goes to a block the stream owns: the one at `pos`, or one just taken past the end. */
  ghost predicate NewSizeFits(r: Rec, pos: nat, block: nat)
    requires block > 0
  {
    BlockOf(pos, block) < |r.blocks| || (r.blocks != [] && pos > r.size && r.size <= Span(|r.blocks| - 1, block))
  }

  /** Block `b` is where a chunk of `r` at `pos` goes. */
  ghost predicate Placed(r: Rec, pos: nat, b: nat, n: nat, block: nat)
    requires block > 0
  {
    && r.blocks != [] && b == Target(r, pos, block) && b in r.blocks && b < n
    && (pos >= r.size ==> NewSizeFits(r, pos, block))
  }

  /** After a block was taken for a chunk past the blocks there are, the chunk has its place. */
  lemma NewBlockFits(m: Meta, i: nat, pos: nat, block: nat)
    requires Sound(m, block) && i < |m.recs| && BlockOf(pos, block) >= |m.recs[i].blocks|
    ensures Target(TakeFor(m, i).recs[i], pos, block) == NextBlock(m)
    ensures pos >= m.recs[i].size && NewSizeFits(TakeFor(m, i).recs[i], pos, block)
  {
    hide Partition, Owned;
    assert Covers(m.recs[i], block);
    BlockIndex(pos, |m.recs[i].blocks|, block);
    if pos == m.recs[i].size {
      assert pos == Span(|m.recs[i].blocks|, block) + 0;
      SplitUnique(|m.recs[i].blocks|, 0, block);
    }
  }

  lemma ChunkDone(m: Meta, i: nat, b: nat, pos: nat, d: seq<byte>, cells: seq<seq<byte>>, block: nat)
    requires Sound(m, block) && i < |m.recs| && |cells| == m.blocks && Uniform(cells, block)
    requires Placed(m.recs[i], pos, b, m.blocks, block) && Offset(pos, block) + |d| <= block
    requires pos < m.recs[i].size ==> pos + |d| <= m.recs[i].size
    ensures b < |cells| && |cells[b]| == block
    ensures Sound(WithSize(m, i, GrownSize(m.recs[i].size, pos, |d|)), block)
    ensures Drift(WithSize(m, i, GrownSize(m.recs[i].size, pos, |d|))) == Drift(m)
    ensures Wrote(Contents(m.recs, cells, block),
                  Contents(WithSize(m, i, GrownSize(m.recs[i].size, pos, |d|)).recs,
                           Poke(cells, b, Offset(pos, block), d), block),
                  i, pos, d)
  {
    hide Owned, Drift, Ordered, Partition;
    var r, n := m.recs[i], GrownSize(m.recs[i].size, pos, |d|);
    assert Covers(r, block);
    BlockIndex(pos, |r.blocks|, block);
    if BlockOf(pos, block) < |r.blocks| {
      ChunkInside(pos, |d|, |r.blocks|, block);
    }
    WithSizeSound(m, i, n, block);
    if pos <= r.size {
      ChunkContents(m, i, pos, d, cells, block);
    } else {
      ChunkPastEnd(m, i, pos, d, cells, block);
    }
  }

  /** A position inside a stream lies in one of its blocks. */
  lemma InsideBlocks(m: Meta, i: nat, pos: nat, block: nat)
    requires Sound(m, block) && i < |m.recs| && pos < m.recs[i].size
    ensures BlockOf(pos, block) < |m.recs[i].blocks|
  {
    hide Partition;
    assert Covers(m.recs[i], block);
    BlockIndex(pos, |m.recs[i].blocks|, block);
  }

  lemma OldBlockPlaced(m: Meta, i: nat, pos: nat, block: nat)
    requires Sound(m, block) && i < |m.recs| && BlockOf(pos, block) < |m.recs[i].blocks|
    ensures Placed(m.recs[i], pos, m.recs[i].blocks[BlockOf(pos, block)], m.blocks, block)
  {
    RangesOf(m, block);
  }

  lemma NewBlockPlaced(m: Meta, i: nat, pos: nat, block: nat)
    requires Sound(m, block) && i < |m.recs| && BlockOf(pos, block) >= |m.recs[i].blocks|
    ensures Placed(TakeFor(m, i).recs[i], pos, NextBlock(m), Take(m).blocks, block)
  {
    NewBlockFits(m, i, pos, block);
    TakeForSound(m, i, block);
    RangesOf(TakeFor(m, i), block);
  }

  lemma PlacedParts(r: Rec, pos: nat, b: nat, n: nat, block: nat)
    requires block > 0 && Placed(r, pos, b, n, block)
    ensures b in r.blocks && b < n
  {
  }

  /** Setting a stream's size leaves the other streams' bytes alone. */
  lemma WithSizeContents(m: Meta, i: nat, n: nat, cells: seq<seq<byte>>, block: nat)
    requires block > 0 && i < |m.recs|
    ensures Contents(WithSize(m, i, n).recs, cells, block)
         == Contents(m.recs, cells, block)[i := Flat(m.recs[i].(size := n), cells, block)]
  {
  }

  // ---- Creating and deleting ----

  /** Deleting a stream and freeing all its blocks keeps the partition. */
  lemma RemovePartition(n: nat, free: seq<nat>, recs: seq<Rec>, i: nat)
    requires Partition(n, free, recs) && i < |recs|
    ensures Partition(n, free + recs[i].blocks, recs[..i] + recs[i + 1..])
    ensures OwnedCount(recs[..i] + recs[i + 1..]) == OwnedCount(recs) - |recs[i].blocks|
  {
    OwnedSplit(recs, i);
  }

  /** A stream without blocks may be put in anywhere. */
  lemma InsertOwned(recs: seq<Rec>, i: nat, r: Rec)
    requires i <= |recs| && r.blocks == []
    ensures Owned(recs[..i] + [r] + recs[i..]) == Owned(recs)
  {
    hide Owned;
    OwnedConcat(recs[..i] + [r], recs[i..]);
    OwnedConcat(recs[..i], [r]);
    OwnedConcat(recs[..i], recs[i..]);
    OwnedOne(r);
    assert recs[..i] + recs[i..] == recs;
  }

  lemma CreateSound(m: Meta, i: nat, id: int, k: nat, block: nat)
    requires Sound(m, block) && 0 < i <= |m.recs|
    requires m.recs[i - 1].id < id && (i < |m.recs| ==> id < m.recs[i].id)
    ensures Sound(Create(m, i, id, k), block) && Drift(Create(m, i, id, k)) == Drift(m)
    ensures forall b :: b in Create(m, i, id, k).free ==> b in m.free
  {
    hide Owned;
    var recs := m.recs[..i] + [Rec(id, 0, [])] + m.recs[i..];
    InsertOwned(m.recs, i, Rec(id, 0, []));
    InsertOrdered(m.recs, i, Rec(id, 0, []));
    forall j | 0 <= j < |recs|
      ensures Covers(recs[j], block)
    {
      assert j < i ==> recs[j] == m.recs[j];
      assert j > i ==> recs[j] == m.recs[j - 1];
    }
    TakeManySound(m.(recs := recs), i, k, block);
  }

  lemma InsertOrdered(recs: seq<Rec>, i: nat, r: Rec)
    requires Ordered(recs) && 0 < i <= |recs|
    requires recs[i - 1].id < r.id && (i < |recs| ==> r.id < recs[i].id)
    ensures Ordered(recs[..i] + [r] + recs[i..])
  {
    var t := recs[..i] + [r] + recs[i..];
    forall x, y | 0 <= x < y < |t|
      ensures t[x].id < t[y].id
    {
      assert t[x] == if x < i then recs[x] else if x == i then r else recs[x - 1];
      assert t[y] == if y < i then recs[y] else if y == i then r else recs[y - 1];
    }
  }

  /** A new stream is empty; the others keep their bytes. */
  lemma CreateContents(m: Meta, i: nat, id: int, k: nat, cells: seq<seq<byte>>, cells': seq<seq<byte>>, block: nat)
    requires Sound(m, block) && 0 < i <= |m.recs|
    requires m.recs[i - 1].id < id && (i < |m.recs| ==> id < m.recs[i].id)
    requires |cells| == m.blocks && cells <= cells'
    ensures Contents(Create(m, i, id, k).recs, cells', block)
         == Contents(m.recs, cells, block)[..i] + [[]] + Contents(m.recs, cells, block)[i..]
  {
    hide Partition, Owned, Drift, Ordered;
    var t := Create(m, i, id, 0);
    CreateSound(m, i, id, 0, block);
    TakeManySound(t, i, k, block);
    ExtendContents(t, TakeMany(t, i, k), i, cells, cells', block);
  }

  lemma DeleteSound(m: Meta, i: nat, block: nat)
    requires Sound(m, block) && 0 < i < |m.recs|
    ensures Sound(Delete(m, i), block) && Drift(Delete(m, i)) == Drift(m)
  {
    RemovePartition(m.blocks, m.free, m.recs, i);
    hide Partition, Owned, Drift;
    var t := m.recs[..i] + m.recs[i + 1..];
    forall x | 0 <= x < |t|
      ensures t[x] == m.recs[if x < i then x else x + 1] && Covers(t[x], block)
    {
    }
  }

  lemma DeleteContents(m: Meta, i: nat, cells: seq<seq<byte>>, block: nat)
    requires block > 0 && i < |m.recs|
    ensures Contents(Delete(m, i).recs, cells, block)
         == Contents(m.recs, cells, block)[..i] + Contents(m.recs, cells, block)[i + 1..]
  {
  }

  /** A stream put in behind the first leaves the first one's record alone. */
  lemma CreateKeepsFirst(m: Meta, i: nat, id: int, k: nat)
    requires 0 < i <= |m.recs|
    ensures Create(m, i, id, k).recs != [] && Create(m, i, id, k).recs[0] == m.recs[0]
  {
    TakeManyOthers(m.(recs := m.recs[..i] + [Rec(id, 0, [])] + m.recs[i..]), i, k, 0);
  }

  lemma {:induction false} TakeManyOthers(m: Meta, i: nat, k: nat, j: nat)
    requires i < |m.recs| && j < |m.recs| && j != i
    ensures TakeMany(m, i, k).recs[j] == m.recs[j]
    decreases k
  {
    if k > 0 {
      TakeManyOthers(TakeFor(m, i), i, k - 1, j);
    }
  }

  lemma LastIsLargest(recs: seq<Rec>)
    requires Ordered(recs)
    ensures forall j :: 0 <= j < |recs| ==> 0 <= recs[j].id <= recs[|recs| - 1].id
  {
    forall j | 0 <= j < |recs|
      ensures 0 <= recs[j].id <= recs[|recs| - 1].id
    {
      assert j < |recs| - 1 ==> recs[j].id < recs[|recs| - 1].id;
      assert j > 0 ==> recs[0].id < recs[j].id;
    }
  }

  // ---- Creating a stream under a given id ----

  /** Where a stream with this id is put: before the first larger id; nowhere when it is the last id itself. */
  function Place(recs: seq<Rec>, id: int): (p: Option<nat>)
    requires recs != []
    ensures p.None? ==> recs[|recs| - 1].id >= id && forall j :: 0 <= j < |recs| ==> recs[j].id <= id
    ensures p.Some? ==> p.value <= |recs|
    ensures p.Some? && p.value < |recs| ==> id < recs[p.value].id && forall j :: 0 <= j < p.value ==> recs[j].id <= id
    ensures p.Some? && p.value == |recs| ==> recs[|recs| - 1].id < id
  {
    if recs[|recs| - 1].id < id then Some(|recs|) else FirstAbove(recs, id, 0)
  }

  function FirstAbove(recs: seq<Rec>, id: int, from: nat): (p: Option<nat>)
    requires from <= |recs|
    ensures p.None? ==> forall j :: from <= j < |recs| ==> recs[j].id <= id
    ensures p.Some? ==> from <= p.value < |recs| && id < recs[p.value].id
    ensures p.Some? ==> forall j :: from <= j < p.value ==> recs[j].id <= id
    decreases |recs| - from
  {
    if from == |recs| then None
    else if recs[from].id > id then Some(from)
    else FirstAbove(recs, id, from + 1)
  }

  /** Take `k` blocks for a stream that is in no list. */
  function Lose(m: Meta, k: nat): Meta
    decreases k
  {
    if k == 0 then m else Lose(Take(m).(used := m.used + 1), k - 1)
  }

  function CreateWithId(m: Meta, id: int, k: nat): Meta
    requires m.recs != []
  {
    match Place(m.recs, id)
    case Some(i) => Create(m, i, id, k)
    case None => Lose(m, k)
  }

  lemma PlaceOfFresh(recs: seq<Rec>, id: int)
    requires Ordered(recs) && id > 0 && Fresh(recs, id)
    ensures Place(recs, id).Some? && 0 < Place(recs, id).value
    ensures var i := Place(recs, id).value; recs[i - 1].id < id && (i < |recs| ==> id < recs[i].id)
  {
  }

  ghost predicate Fresh(recs: seq<Rec>, id: int)
  {
    forall j :: 0 <= j < |recs| ==> recs[j].id != id
  }

  /** The place of the stream with this id. */
  ghost function Spot(recs: seq<Rec>, id: int): (i: nat)
    requires !Fresh(recs, id)
    ensures i < |recs| && recs[i].id == id
  {
    var i: nat :| i < |recs| && recs[i].id == id;
    i
  }

  /** Ids are distinct, so a stream has only one place. */
  lemma OnlySpot(recs: seq<Rec>, i: nat)
    requires Increasing(recs) && i < |recs|
    ensures !Fresh(recs, recs[i].id) && Spot(recs, recs[i].id) == i
  {
  }

  lemma {:induction false} LoseCounts(m: Meta, k: nat)
    ensures Lose(m, k).recs == m.recs
    ensures Lose(m, k).blocks - |Lose(m, k).free| == m.blocks - |m.free| + k
    decreases k
  {
    if k > 0 {
      LoseCounts(Take(m).(used := m.used + 1), k - 1);
    }
  }

  lemma {:induction false} TakeManyIds(m: Meta, i: nat, k: nat)
    requires i < |m.recs|
    ensures forall j :: 0 <= j < |m.recs| ==> TakeMany(m, i, k).recs[j].id == m.recs[j].id
    decreases k
  {
    if k > 0 {
      TakeManyIds(TakeFor(m, i), i, k - 1);
    }
  }

  /** Creating under a given id keeps the arrangement sound exactly for a fresh positive id;
      the last id in use is harmless only when no blocks are asked for. */
  lemma CreateWithIdSound(m: Meta, id: int, k: nat, block: nat)
    requires Sound(m, block)
    ensures Sound(CreateWithId(m, id, k), block)
       <==> (id > 0 && Fresh(m.recs, id)) || (id == m.recs[|m.recs| - 1].id && k == 0)
  {
    var last := m.recs[|m.recs| - 1];
    match Place(m.recs, id)
    case None =>
      assert id == last.id;
      LoseKeepsOnly(m, k, block);
    case Some(i) =>
      if id > 0 && Fresh(m.recs, id) {
        assert i > 0 && m.recs[i - 1].id != id;
        CreateSound(m, i, id, k, block);
      } else {
        CreateBreaks(m, i, id, k);
      }
  }

  lemma PartitionSize(n: nat, free: seq<nat>, recs: seq<Rec>)
    ensures Partition(n, free, recs) ==> |free| + |Owned(recs)| == n
  {
    assert |multiset(free) + Owned(recs)| == |free| + |Owned(recs)|;
    assert |multiset(Iota(n))| == n;
  }

  lemma LoseKeepsOnly(m: Meta, k: nat, block: nat)
    requires Sound(m, block)
    ensures Sound(Lose(m, k), block) <==> k == 0
  {
    LoseCounts(m, k);
    PartitionSize(m.blocks, m.free, m.recs);
    PartitionSize(Lose(m, k).blocks, Lose(m, k).free, m.recs);
  }

  lemma CreateBreaks(m: Meta, i: nat, id: int, k: nat)
    requires Ordered(m.recs) && Place(m.recs, id) == Some(i)
    requires id <= 0 || !Fresh(m.recs, id)
    ensures !Ordered(Create(m, i, id, k).recs)
  {
    var recs := m.recs[..i] + [Rec(id, 0, [])] + m.recs[i..];
    TakeManyIds(m.(recs := recs), i, k);
    var t := Create(m, i, id, k).recs;
    assert t[i].id == id;
    if i > 0 {
      assert t[i - 1].id == m.recs[i - 1].id <= id;
      if id <= 0 {
        assert m.recs[0].id <= m.recs[i - 1].id;
      } else {
        var j :| 0 <= j < |m.recs| && m.recs[j].id == id;
        assert j < i && m.recs[j].id <= m.recs[i - 1].id;
      }
      assert t[i - 1].id == t[i].id;
    }
  }
}
