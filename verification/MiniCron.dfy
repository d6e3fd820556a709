/** A scheduler over a heap of jobs. */
module MiniCron {
  import opened Heap
  import opened HeapOrder
  import opened Wrappers

  /** A timer that gives times at a fixed distance, and the job that asks it for its next time. */
  datatype Timer = Interval(next: int, interval: int)

  datatype Job = Job(id: int, next: int, repeats: bool, timer: Timer, runs: nat)

  /** One run of a job, at the time it was scheduled for. */
  datatype Run = Run(id: int, time: int)

  /** The job after one run. Its callback changes nothing. */
  function Ran(j: Job, reschedule: bool): (k: Job)
    ensures k.id == j.id
  {
    var k := j.(runs := j.runs + 1);
    if reschedule then k.(next := j.timer.next, timer := j.timer.(next := j.timer.next + j.timer.interval)) else k
  }

  predicate Earlier(a: Job, b: Job) { a.next < b.next }

  lemma EarlierIsOrder()
    ensures StrictWeak(Earlier)
  {
  }

  /** The timer is one step ahead of the job, and steps forward. */
  predicate OnTime(j: Job)
  {
    j.timer.interval > 0 && j.timer.next == j.next + j.timer.interval
  }

  /** How many of the times `next`, `next + interval`, and so on, have come. */
  function Times(next: int, interval: int, now: int): nat
    requires interval > 0
    decreases now - next
  {
    if next > now then 0 else 1 + Times(next + interval, interval, now)
  }

  /** How many of a job's scheduled times, from its next one on, have come. */
  function Due(j: Job, now: int): nat
    requires j.timer.interval > 0
  {
    Times(j.next, j.timer.interval, now)
  }

  /** What becomes of a job when every run that is due by `now` was made; a job that does not repeat is dropped. */
  function Settle(j: Job, now: int): (r: Option<Job>)
    requires OnTime(j)
    ensures r.Some? ==> r.value.id == j.id && r.value.repeats == j.repeats && OnTime(r.value) && r.value.next > now
    decreases now - j.next
  {
    if j.next > now then Some(j)
    else if j.repeats then Settle(Ran(j, true), now)
    else None
  }

  /** A settled job was run exactly once for each of its scheduled times that have come. */
  lemma {:induction false} SettleCounts(j: Job, now: int)
    requires OnTime(j) && j.repeats
    ensures Settle(j, now).Some? && Settle(j, now).value.runs == j.runs + Due(j, now)
    decreases now - j.next
  {
    if j.next <= now {
      SettleCounts(Ran(j, true), now);
    }
  }

  /** Settling at one time and then at a later one is settling at the later one. */
  lemma {:induction false} SettleTwice(j: Job, now: int, later: int)
    requires OnTime(j) && now <= later
    ensures (if Settle(j, now).Some? then Settle(Settle(j, now).value, later) else None) == Settle(j, later)
    decreases now - j.next
  {
    if j.next <= now && j.repeats {
      SettleTwice(Ran(j, true), now, later);
    }
  }

  /** A run that does not ask the timer is counted and changes nothing else: the job comes to the same as without it,
      with one run more. One that asks the timer leaves out the next scheduled time. */
  lemma {:induction false} RunOutOfTurn(j: Job, now: int)
    ensures Ran(j, false) == Job(j.id, j.next, j.repeats, j.timer, j.runs + 1)
    ensures Ran(j, true) == Job(j.id, j.timer.next, j.repeats,
                                Interval(j.timer.next + j.timer.interval, j.timer.interval), j.runs + 1)
    ensures OnTime(j) ==>
              var r := Settle(j, now);
              Settle(Ran(j, false), now) == if r.Some? then Some(r.value.(runs := r.value.runs + 1)) else None
    decreases now - j.next
  {
    if OnTime(j) && j.next <= now && j.repeats {
      RunOutOfTurn(Ran(j, true), now);
      assert Ran(Ran(j, false), true) == Ran(Ran(j, true), false);
    }
  }

  // ---- All jobs at once ----

  type Jobs = map<int, Job>

  ghost predicate AllOnTime(jobs: Jobs)
  {
    forall id :: id in jobs ==> jobs[id].id == id && OnTime(jobs[id])
  }

  ghost function SettleAll(jobs: Jobs, now: int): Jobs
    requires AllOnTime(jobs)
  {
    map id | id in jobs && Settle(jobs[id], now).Some? :: Settle(jobs[id], now).value
  }

  /** The bag holds exactly these jobs, each once. */
  ghost predicate Bag(items: multiset<Job>, jobs: Jobs)
  {
    forall j :: items[j] == if j.id in jobs && jobs[j.id] == j then 1 else 0
  }

  lemma BagTake(items: multiset<Job>, jobs: Jobs, j: Job)
    requires Bag(items, jobs) && j in items
    ensures j.id in jobs && jobs[j.id] == j && Bag(items - multiset{j}, jobs - {j.id})
  {
    assert items[j] > 0;
  }

  /** Taking the first job. */
  lemma BagTakeFirst(items: multiset<Job>, jobs: Jobs, j: Job)
    requires Bag(items, jobs) && AllOnTime(jobs) && j in items && forall x :: x in items ==> !Earlier(x, j)
    ensures j.id in jobs && jobs[j.id] == j && Bag(items - multiset{j}, jobs - {j.id}) && AllOnTime(jobs - {j.id})
    ensures forall id :: id in jobs ==> jobs[id].next >= j.next
  {
    BagTake(items, jobs, j);
    forall id | id in jobs
      ensures jobs[id].next >= j.next
    {
      InBag(items, jobs, id);
    }
  }

  lemma EmptyBag(items: multiset<Job>, jobs: Jobs)
    requires Bag(items, jobs) && AllOnTime(jobs) && items == multiset{}
    ensures jobs == map[]
  {
    forall id
      ensures id !in jobs
    {
      if id in jobs {
        InBag(items, jobs, id);
      }
    }
    assert jobs.Keys == {};
  }

  lemma InBag(items: multiset<Job>, jobs: Jobs, id: int)
    requires Bag(items, jobs) && AllOnTime(jobs) && id in jobs
    ensures jobs[id] in items
  {
    assert items[jobs[id]] == 1;
  }

  lemma BagPut(items: multiset<Job>, jobs: Jobs, j: Job)
    requires Bag(items, jobs) && j.id !in jobs
    ensures Bag(items + multiset{j}, jobs[j.id := j])
  {
  }

  /** All runs that are due. */
  ghost function DueAll(jobs: Jobs, now: int): nat
    requires AllOnTime(jobs)
  {
    if exists id :: id in jobs then
      var id :| id in jobs;
      Due(jobs[id], now) + DueAll(jobs - {id}, now)
    else 0
  }

  lemma {:induction false} DueAllOf(jobs: Jobs, now: int, id: int)
    requires AllOnTime(jobs) && id in jobs
    ensures AllOnTime(jobs - {id}) && DueAll(jobs, now) == Due(jobs[id], now) + DueAll(jobs - {id}, now)
    decreases |jobs|
  {
    hide Due;
    var x :| x in jobs && DueAll(jobs, now) == Due(jobs[x], now) + DueAll(jobs - {x}, now);
    hide DueAll;
    if x != id {
      DueAllOf(jobs - {x}, now, id);
      assert jobs - {x} - {id} == jobs - {id} - {x};
      DueAllOf(jobs - {id}, now, x);
    }
  }

  /** The jobs after one of them was run, or run for the last time. */
  function AfterRun(jobs: Jobs, j: Job): Jobs
  {
    if j.repeats then jobs[j.id := Ran(j, true)] else jobs - {j.id}
  }

  lemma RunOnTime(jobs: Jobs, j: Job)
    requires AllOnTime(jobs) && j.id in jobs && jobs[j.id] == j
    ensures AllOnTime(AfterRun(jobs, j))
  {
  }

  /** Running a job that is due changes nothing about what all jobs settle to. */
  lemma RunSettles(jobs: Jobs, j: Job, now: int)
    requires AllOnTime(jobs) && j.id in jobs && jobs[j.id] == j && j.next <= now
    ensures AllOnTime(AfterRun(jobs, j))
    ensures SettleAll(AfterRun(jobs, j), now) == SettleAll(jobs, now)
  {
    RunOnTime(jobs, j);
    assert Settle(j, now) == if j.repeats then Settle(Ran(j, true), now) else None;
    hide Settle;
    var a, b := SettleAll(AfterRun(jobs, j), now), SettleAll(jobs, now);
    forall id
      ensures id in a <==> id in b
      ensures id in a ==> a[id] == b[id]
    {
    }
  }

  /** Running it leaves one run less to make. */
  lemma RunCounts(jobs: Jobs, j: Job, now: int)
    requires AllOnTime(jobs) && j.id in jobs && jobs[j.id] == j && j.next <= now
    ensures AllOnTime(AfterRun(jobs, j)) && DueAll(AfterRun(jobs, j), now) < DueAll(jobs, now)
  {
    hide DueAll;
    var after := AfterRun(jobs, j);
    RunOnTime(jobs, j);
    DueAllOf(jobs, now, j.id);
    assert Due(j, now) > 0;
    if j.repeats {
      DueAllOf(after, now, j.id);
      assert Due(j, now) == 1 + Due(Ran(j, true), now);
      assert after - {j.id} == jobs - {j.id};
    }
  }

  lemma SettledAlready(jobs: Jobs, now: int)
    requires AllOnTime(jobs) && forall id :: id in jobs ==> jobs[id].next > now
    ensures SettleAll(jobs, now) == jobs
  {
    forall id | id in jobs
      ensures id in SettleAll(jobs, now) && SettleAll(jobs, now)[id] == jobs[id]
    {
      assert Settle(jobs[id], now) == Some(jobs[id]);
    }
  }

  /** Polling at one time and then at a later one is polling at the later one. */
  lemma SettleAllTwice(jobs: Jobs, now: int, later: int)
    requires AllOnTime(jobs) && now <= later
    ensures AllOnTime(SettleAll(jobs, now)) && SettleAll(SettleAll(jobs, now), later) == SettleAll(jobs, later)
  {
    forall id | id in jobs
      ensures (if Settle(jobs[id], now).Some? then Settle(Settle(jobs[id], now).value, later) else None)
           == Settle(jobs[id], later)
    {
      SettleTwice(jobs[id], now, later);
    }
  }

  /** Runs in the order of their scheduled times, none of them after `limit`. */
  ghost predicate InOrder(runs: seq<Run>, limit: int)
  {
    && (forall i, k :: 0 <= i < k < |runs| ==> runs[i].time <= runs[k].time)
    && (forall i :: 0 <= i < |runs| ==> runs[i].time <= limit)
  }

  /** Nothing left to run is due before the last run. */
  ghost predicate NoneBeforeLast(runs: seq<Run>, jobs: Jobs)
  {
    runs != [] ==> forall id :: id in jobs ==> jobs[id].next >= runs[|runs| - 1].time
  }

  /** The scheduled times of a job that have come, in order; a job that does not repeat has only one. */
  function Scheduled(j: Job, now: int): seq<int>
    requires OnTime(j)
    decreases now - j.next
  {
    if j.next > now then [] else [j.next] + (if j.repeats then Scheduled(Ran(j, true), now) else [])
  }

  /** The times at which a job was run. */
  function RunsOf(runs: seq<Run>, id: int): seq<int>
  {
    if runs == [] then []
    else
      var last := runs[|runs| - 1];
      RunsOf(runs[..|runs| - 1], id) + (if last.id == id then [last.time] else [])
  }

  ghost function StillScheduled(jobs: Jobs, id: int, now: int): seq<int>
    requires AllOnTime(jobs)
  {
    if id in jobs then Scheduled(jobs[id], now) else []
  }

  /** The runs made and those still to be made are together those that were scheduled at the start. */
  ghost predicate Accounted(all: Jobs, jobs: Jobs, runs: seq<Run>, now: int)
    requires AllOnTime(all) && AllOnTime(jobs)
  {
    forall id :: RunsOf(runs, id) + StillScheduled(jobs, id, now) == StillScheduled(all, id, now)
  }

  lemma RunsOfOne(runs: seq<Run>, r: Run, id: int)
    ensures RunsOf(runs + [r], id) == RunsOf(runs, id) + if r.id == id then [r.time] else []
  {
    assert (runs + [r])[..|runs|] == runs;
  }

  lemma StillScheduledNext(jobs: Jobs, j: Job, id: int, now: int)
    requires AllOnTime(jobs) && AllOnTime(AfterRun(jobs, j))
    requires j.id in jobs && jobs[j.id] == j && j.next <= now
    ensures StillScheduled(jobs, id, now) == (if j.id == id then [j.next] else [])
            + StillScheduled(AfterRun(jobs, j), id, now)
  {
  }

  lemma Regroup(a: seq<int>, b: seq<int>, c: seq<int>)
    ensures (a + b) + c == a + (b + c)
  {
  }

  /** What counts for one job: its run goes from those still to be made to those made. */
  lemma RunMoves(jobs: Jobs, runs: seq<Run>, j: Job, id: int, now: int)
    requires AllOnTime(jobs) && AllOnTime(AfterRun(jobs, j))
    requires j.id in jobs && jobs[j.id] == j && j.next <= now
    ensures RunsOf(runs + [Run(j.id, j.next)], id) + StillScheduled(AfterRun(jobs, j), id, now)
         == RunsOf(runs, id) + StillScheduled(jobs, id, now)
  {
    hide RunsOf, StillScheduled, AllOnTime, AfterRun;
    RunsOfOne(runs, Run(j.id, j.next), id);
    StillScheduledNext(jobs, j, id, now);
    Regroup(RunsOf(runs, id), if j.id == id then [j.next] else [], StillScheduled(AfterRun(jobs, j), id, now));
  }

  lemma RunAccounted(all: Jobs, jobs: Jobs, runs: seq<Run>, j: Job, now: int)
    requires AllOnTime(all) && AllOnTime(jobs) && Accounted(all, jobs, runs, now)
    requires j.id in jobs && jobs[j.id] == j && j.next <= now
    ensures AllOnTime(AfterRun(jobs, j)) && Accounted(all, AfterRun(jobs, j), runs + [Run(j.id, j.next)], now)
  {
    RunOnTime(jobs, j);
    forall id
      ensures RunsOf(runs + [Run(j.id, j.next)], id) + StillScheduled(AfterRun(jobs, j), id, now)
           == StillScheduled(all, id, now)
    {
      RunMoves(jobs, runs, j, id, now);
    }
  }

  lemma NothingRun(jobs: Jobs, now: int)
    requires AllOnTime(jobs)
    ensures Accounted(jobs, jobs, [], now)
  {
  }

  /** When no job is due any more, every job was run exactly at its scheduled times. */
  lemma AllAccounted(all: Jobs, jobs: Jobs, runs: seq<Run>, now: int)
    requires AllOnTime(all) && AllOnTime(jobs) && Accounted(all, jobs, runs, now)
    requires forall id :: id in jobs ==> jobs[id].next > now
    ensures forall id :: RunsOf(runs, id) == if id in all then Scheduled(all[id], now) else []
  {
    forall id
      ensures RunsOf(runs, id) == StillScheduled(all, id, now)
    {
      assert StillScheduled(jobs, id, now) == [];
    }
  }

  /** The clock never runs backward. */
  ghost predicate NonDecreasing(clock: seq<int>)
  {
    forall i, k :: 0 <= i < k < |clock| ==> clock[i] <= clock[k]
  }

  /** The jobs after polls at these times. */
  ghost function SettleOver(jobs: Jobs, clock: seq<int>): Jobs
    requires AllOnTime(jobs)
    decreases |clock|
  {
    if clock == [] then jobs
    else
      SettleAllTwice(jobs, clock[0], clock[0]);
      SettleOver(SettleAll(jobs, clock[0]), clock[1..])
  }

  /** Any number of polls with a clock that does not run backward come to the same as one poll at the last time. */
  lemma {:induction false} PollsAreOnePoll(jobs: Jobs, clock: seq<int>)
    requires AllOnTime(jobs) && clock != [] && NonDecreasing(clock)
    ensures SettleOver(jobs, clock) == SettleAll(jobs, clock[|clock| - 1])
    decreases |clock|
  {
    SettleAllTwice(jobs, clock[0], clock[0]);
    var rest := clock[1..];
    if rest != [] {
      assert rest[|rest| - 1] == clock[|clock| - 1];
      PollsAreOnePoll(SettleAll(jobs, clock[0]), rest);
      SettleAllTwice(jobs, clock[0], clock[|clock| - 1]);
    }
  }

  lemma RunInOrder(runs: seq<Run>, jobs: Jobs, j: Job, limit: int)
    requires InOrder(runs, limit) && NoneBeforeLast(runs, jobs) && AllOnTime(jobs)
    requires j.id in jobs && jobs[j.id] == j && j.next <= limit
    requires forall id :: id in jobs ==> jobs[id].next >= j.next
    ensures InOrder(runs + [Run(j.id, j.next)], limit)
    ensures NoneBeforeLast(runs + [Run(j.id, j.next)], AfterRun(jobs, j))
  {
  }

  class MiniCron {
    const heap: HeapCore<Job>
    var nextId: int
    ghost var jobs: Jobs

    constructor ()
      ensures Valid() && jobs == map[] && fresh(heap) && fresh(heap.items)
    {
      EarlierIsOrder();
      heap := new HeapCore(Earlier, 7);
      nextId, jobs := 1, map[];
    }

    /** The heap holds the jobs, each under its own id. */
    ghost predicate Valid()
      reads this, heap, heap.items
      ensures Valid() ==> AllOnTime(jobs) && forall id :: id in jobs ==> id < nextId
    {
      && heap.Valid() && heap.cmp == Earlier && AllOnTime(jobs)
      && Bag(multiset(heap.Items()), jobs)
      && forall id :: id in jobs ==> id < nextId
    }

    /** A new job takes its first time from the timer at once. */
    method AddJob(timer: Timer, repeats: bool) returns (id: int)
      requires Valid() && timer.interval > 0
      modifies this, heap, heap.items
      ensures Valid() && id !in old(jobs) && nextId == old(nextId) + 1
      ensures jobs == old(jobs)[id := Job(id, timer.next, repeats, timer.(next := timer.next + timer.interval), 0)]
      ensures heap.items == old(heap.items) || fresh(heap.items)
    {
      id := nextId;
      nextId := nextId + 1;
      var j := Job(id, timer.next, repeats, timer.(next := timer.next + timer.interval), 0);
      BagPut(multiset(heap.Items()), jobs, j);
      heap.Enqueue(j);
      jobs := jobs[id := j];
    }

    /** Take out the job with the earliest time. */
    method Pop() returns (j: Job)
      requires Valid() && jobs != map[]
      modifies `jobs, heap, heap.items
      ensures Valid() && heap.items == old(heap.items)
      ensures j.id in old(jobs) && old(jobs)[j.id] == j && jobs == old(jobs) - {j.id}
      ensures forall id :: id in old(jobs) ==> old(jobs)[id].next >= j.next
    {
      hide Bag, AllOnTime, HeapCore.Valid, HeapCore.Items, Earlier;
      ghost var items := multiset(heap.Items());
      if heap.Items() == [] {
        EmptyBag(items, jobs);
      }
      var r := heap.Dequeue();
      j := r.value;
      BagTakeFirst(items, jobs, j);
      jobs := jobs - {j.id};
    }

    method Push(j: Job)
      requires Valid() && j.id !in jobs && OnTime(j) && j.id < nextId
      modifies `jobs, heap, heap.items
      ensures Valid() && jobs == old(jobs)[j.id := j]
      ensures heap.items == old(heap.items) || fresh(heap.items)
    {
      BagPut(multiset(heap.Items()), jobs, j);
      heap.Enqueue(j);
      jobs := jobs[j.id := j];
    }

    /** Run every job that is due, the earliest first, until none is. */
    method Poll(now: int) returns (ghost runs: seq<Run>)
      requires Valid()
      modifies `jobs, heap, heap.items
      ensures Valid() && jobs == SettleAll(old(jobs), now)
      ensures forall id :: id in jobs ==> jobs[id].next > now
      ensures InOrder(runs, now)
      // Every job is run exactly at its scheduled times that have come, in order.
      ensures forall id :: RunsOf(runs, id) == if id in old(jobs) then Scheduled(old(jobs)[id], now) else []
      ensures heap.items == old(heap.items) || fresh(heap.items)
    {
      hide Settle, Bag, DueAll, InOrder, NoneBeforeLast, Accounted, RunsOf, Scheduled;
      runs := [];
      NoRuns(jobs, now);
      NothingRun(jobs, now);
      var due := IsDue(now);
      while due
        invariant Valid() && (heap.items == old(heap.items) || fresh(heap.items))
        invariant SettleAll(jobs, now) == SettleAll(old(jobs), now)
        invariant InOrder(runs, now) && NoneBeforeLast(runs, jobs) && Accounted(old(jobs), jobs, runs, now)
        invariant due ==> EarliestIsDue(now)
        invariant !due ==> forall id :: id in jobs ==> jobs[id].next > now
        decreases DueAll(jobs, now)
      {
        runs := RunFirst(now, runs, old(jobs));
        due := IsDue(now);
      }
      SettledAlready(jobs, now);
      AllAccounted(old(jobs), jobs, runs, now);
    }

    /** Put the jobs of a list back. */
    method PushAll(list: seq<Job>, ghost held: Jobs)
      requires Valid() && Held(list, held) && held.Keys !! jobs.Keys && AllOnTime(held)
      requires forall id :: id in held ==> id < nextId
      modifies `jobs, heap, heap.items
      ensures Valid() && jobs == old(jobs) + held
      ensures heap.items == old(heap.items) || fresh(heap.items)
    {
      hide Held, Bag, OnTime;
      ghost var left := held;
      for i := 0 to |list|
        invariant Valid() && (heap.items == old(heap.items) || fresh(heap.items))
        invariant Held(list[i..], left) && left.Keys !! jobs.Keys && jobs + left == old(jobs) + held
        invariant forall id :: id in left ==> id in held && left[id] == held[id]
      {
        HeldLess(list[i..], left);
        assert list[i..][1..] == list[i + 1..] && list[i..][0] == list[i];
        PutBack(jobs, left, list[i]);
        Push(list[i]);
        left := left - {list[i].id};
      }
      assert list[|list|..] == [];
      HeldNothing(left);
    }

    /** Whether there are no jobs. */
    method NoJobs() returns (none: bool)
      requires Valid()
      ensures none <==> jobs == map[]
    {
      none := heap.IsEmpty();
      if none {
        EmptyBag(multiset(heap.Items()), jobs);
      } else {
        BagTake(multiset(heap.Items()), jobs, heap.Items()[0]);
      }
    }

    /** Take out the earliest job; it goes to the list unless it is the one looked for. */
    method TakeOne(id: int, list: seq<Job>, ghost all: Jobs, ghost held: Jobs)
      returns (j: Job, list': seq<Job>, ghost held': Jobs)
      requires Valid() && jobs != map[] && Taking(all, jobs, list, held, id, nextId)
      modifies `jobs, heap, heap.items
      ensures Valid() && heap.items == old(heap.items) && Taking(all, jobs, list', held', id, nextId)
      ensures j.id in old(jobs) && old(jobs)[j.id] == j && jobs == old(jobs) - {j.id}
    {
      hide MiniCron.Valid, Taking;
      j := Pop();
      list', held' := list, held;
      if j.id == id {
        TakeDropped(all, old(jobs), list, held, j, nextId);
      } else {
        TakeKept(all, old(jobs), list, held, j, id, nextId);
        list' := list + [j];
        held' := held[j.id := j];
      }
    }

    /** Drop a job; the others stay as they are. */
    method RemoveJob(id: int)
      requires Valid()
      modifies `jobs, heap, heap.items
      ensures Valid() && jobs == old(jobs) - {id}
      ensures heap.items == old(heap.items) || fresh(heap.items)
    {
      hide MiniCron.Valid, Taking;
      var list := [];
      ghost var held: Jobs := map[];
      TakeBegins(jobs, id, nextId);
      var none := NoJobs();
      while !none
        invariant Valid() && heap.items == old(heap.items) && (none <==> jobs == map[])
        invariant Taking(old(jobs), jobs, list, held, id, nextId)
        decreases |jobs|
      {
        var j;
        j, list, held := TakeOne(id, list, old(jobs), held);
        none := NoJobs();
      }
      TakeEnds(old(jobs), jobs, list, held, id, nextId);
      PushAll(list, held);
    }

    /** Run a job now; the others stay as they are. One that does not repeat is dropped. */
    method RunJob(id: int, reschedule: bool)
      requires Valid()
      modifies `jobs, heap, heap.items
      ensures Valid()
      ensures jobs == if id !in old(jobs) then old(jobs)
                      else if old(jobs)[id].repeats then old(jobs)[id := Ran(old(jobs)[id], reschedule)]
                      else old(jobs) - {id}
      // The run is counted. Without rescheduling the job's times stay as they are.
      ensures id in jobs ==>
                && jobs[id].runs == old(jobs)[id].runs + 1
                && (!reschedule ==> jobs[id].next == old(jobs)[id].next && jobs[id].timer == old(jobs)[id].timer)
                && (reschedule ==> jobs[id].next == old(jobs)[id].timer.next)
      ensures heap.items == old(heap.items) || fresh(heap.items)
    {
      hide MiniCron.Valid, Held, AllOnTime, Ran, OnTime, HeapCore.Valid;
      var list, found;
      ghost var held;
      list, found, held := TakeUntil(id);
      NotThere(old(jobs), id);
      if found.Some? && found.value.repeats {
        var j := Ran(found.value, reschedule);
        RunListed(list, held, found.value, reschedule);
        PutBackRun(jobs, held, old(jobs), j);
        list := list + [j];
        held := held[id := j];
      }
      PushAll(list, held);
      if id in old(jobs) {
        RunOutOfTurn(old(jobs)[id], 0);
      }
    }

    /** Take jobs out until the one looked for has been taken out. */
    method TakeUntil(id: int) returns (list: seq<Job>, found: Option<Job>, ghost held: Jobs)
      requires Valid()
      modifies `jobs, heap, heap.items
      ensures Valid() && heap.items == old(heap.items)
      ensures Held(list, held) && AllOnTime(held) && held.Keys !! jobs.Keys
      ensures forall x :: x in held ==> x < nextId
      ensures found == if id in old(jobs) then Some(old(jobs)[id]) else None
      ensures found.Some? ==> found.value.id == id && OnTime(found.value) && id < nextId
      ensures id !in held && id !in jobs && jobs + held == old(jobs) - {id}
    {
      hide MiniCron.Valid, Taking, Held;
      list, found := [], None;
      held := map[];
      TakeBegins(jobs, id, nextId);
      var none := NoJobs();
      while !none && found == None
        invariant Valid() && heap.items == old(heap.items) && (none <==> jobs == map[])
        invariant Taking(old(jobs), jobs, list, held, id, nextId)
        invariant if found.Some? then id in old(jobs) && found == Some(old(jobs)[id]) && id !in jobs
                  else (id in jobs <==> id in old(jobs)) && (id in jobs ==> jobs[id] == old(jobs)[id])
        decreases |jobs|
      {
        var j;
        j, list, held := TakeOne(id, list, old(jobs), held);
        if j.id == id {
          found := Some(j);
        }
        none := NoJobs();
      }
      TakeEnds(old(jobs), jobs, list, held, id, nextId);
    }

    /** Some job is due. */
    ghost predicate EarliestIsDue(now: int)
      reads this
    {
      exists id :: id in jobs && jobs[id].next <= now
    }

    method IsDue(now: int) returns (due: bool)
      requires Valid()
      ensures due ==> EarliestIsDue(now)
      ensures !due ==> forall id :: id in jobs ==> jobs[id].next > now
    {
      ghost var items := multiset(heap.Items());
      var r := heap.Peek();
      if r.Err? {
        EmptyBag(items, jobs);
        return false;
      }
      assert r.value in items;
      BagTake(items, jobs, r.value);
      due := r.value.next <= now;
      if !due {
        forall id | id in jobs
          ensures jobs[id].next > now
        {
          assert items[jobs[id]] == 1;
        }
      }
    }

    /** Run the earliest job, which is due, and keep it if it repeats. */
    method RunFirst(now: int, ghost runs: seq<Run>, ghost all: Jobs) returns (ghost runs': seq<Run>)
      requires Valid() && EarliestIsDue(now)
      requires InOrder(runs, now) && NoneBeforeLast(runs, jobs)
      requires AllOnTime(all) && Accounted(all, jobs, runs, now)
      modifies `jobs, heap, heap.items
      ensures Valid() && (heap.items == old(heap.items) || fresh(heap.items))
      ensures SettleAll(jobs, now) == SettleAll(old(jobs), now) && DueAll(jobs, now) < DueAll(old(jobs), now)
      ensures InOrder(runs', now) && NoneBeforeLast(runs', jobs) && Accounted(all, jobs, runs', now)
    {
      hide Settle, Bag, DueAll, InOrder, NoneBeforeLast, SettleAll, Accounted;
      var j := Pop();
      RunSettles(old(jobs), j, now);
      RunCounts(old(jobs), j, now);
      RunInOrder(runs, old(jobs), j, now);
      RunAccounted(all, old(jobs), runs, j, now);
      runs' := runs + [Run(j.id, j.next)];
      if j.repeats {
        Push(Ran(j, true));
      }
      assert jobs == AfterRun(old(jobs), j);
    }
  }

  /** The list holds exactly these jobs, each once. */
  ghost predicate Held(list: seq<Job>, jobs: Jobs)
  {
    && (forall i :: 0 <= i < |list| ==> list[i].id in jobs && jobs[list[i].id] == list[i])
    && (forall i, k :: 0 <= i < k < |list| ==> list[i].id != list[k].id)
    && |list| == |jobs|
  }

  lemma HeldMore(list: seq<Job>, jobs: Jobs, j: Job)
    requires Held(list, jobs) && j.id !in jobs
    ensures Held(list + [j], jobs[j.id := j])
  {
    assert jobs[j.id := j].Keys == jobs.Keys + {j.id};
    assert |jobs[j.id := j].Keys| == |jobs.Keys| + 1;
  }

  lemma HeldLess(list: seq<Job>, jobs: Jobs)
    requires Held(list, jobs) && list != []
    ensures list[0].id in jobs && jobs[list[0].id] == list[0] && Held(list[1..], jobs - {list[0].id})
  {
    var id := list[0].id;
    assert (jobs - {id}).Keys == jobs.Keys - {id};
    assert |(jobs - {id}).Keys| == |jobs.Keys| - 1;
  }

  lemma HeldNothing(jobs: Jobs)
    ensures Held([], jobs) <==> jobs == map[]
  {
    assert |jobs.Keys| == |jobs|;
    if jobs.Keys == {} {
      assert jobs == map[];
    }
  }

  /** Putting the jobs of a list back next to the others gives all of them. */
  lemma PutBack(jobs: Jobs, held: Jobs, j: Job)
    requires j.id in held && held[j.id] == j && held.Keys !! jobs.Keys
    ensures jobs[j.id := j] + (held - {j.id}) == jobs + held && (held - {j.id}).Keys !! jobs[j.id := j].Keys
  {
  }

  /** The jobs taken out of the heap so far are in the list, but for the one with this id. */
  ghost predicate Taking(all: Jobs, jobs: Jobs, list: seq<Job>, held: Jobs, id: int, limit: int)
  {
    && Held(list, held) && AllOnTime(held) && held.Keys !! jobs.Keys && id !in held
    && (forall x :: x in all ==> x < limit)
    && (forall x :: x in jobs ==> x in all && jobs[x] == all[x])
    && (forall x :: x in held ==> x in all && held[x] == all[x])
    && (forall x :: x in all && x != id ==> x in jobs || x in held)
  }

  /** Putting back all jobs but one drops that one, and putting it back in another state changes only that one. */
  lemma PutBackRun(jobs: Jobs, held: Jobs, all: Jobs, j: Job)
    requires j.id !in jobs && j.id !in held && held.Keys !! jobs.Keys && jobs + held == all - {j.id}
    ensures jobs + held[j.id := j] == all[j.id := j] && held[j.id := j].Keys !! jobs.Keys
  {
    var t := all[j.id := j];
    forall x
      ensures x in jobs + held[j.id := j] <==> x in t
      ensures x in t ==> (jobs + held[j.id := j])[x] == t[x]
    {
      assert x != j.id ==> (x in jobs + held <==> x in all - {j.id});
      assert x != j.id && x in all ==> (jobs + held)[x] == (all - {j.id})[x];
    }
  }

  lemma NotThere(all: Jobs, id: int)
    ensures id !in all ==> all - {id} == all
  {
  }

  lemma TakeBegins(jobs: Jobs, id: int, limit: int)
    requires forall x :: x in jobs ==> x < limit
    ensures Taking(jobs, jobs, [], map[], id, limit)
  {
    HeldNothing(map[]);
  }

  lemma TakeKept(all: Jobs, jobs: Jobs, list: seq<Job>, held: Jobs, j: Job, id: int, limit: int)
    requires Taking(all, jobs, list, held, id, limit) && AllOnTime(jobs)
    requires j.id in jobs && jobs[j.id] == j && j.id != id
    ensures Taking(all, jobs - {j.id}, list + [j], held[j.id := j], id, limit)
  {
    HeldMore(list, held, j);
    hide Held;
  }

  lemma TakeDropped(all: Jobs, jobs: Jobs, list: seq<Job>, held: Jobs, j: Job, limit: int)
    requires Taking(all, jobs, list, held, j.id, limit)
    ensures Taking(all, jobs - {j.id}, list, held, j.id, limit)
  {
  }

  /** In the end the list and what is left are all jobs, but for the one with this id if it was taken. */
  lemma TakeEnds(all: Jobs, jobs: Jobs, list: seq<Job>, held: Jobs, id: int, limit: int)
    requires Taking(all, jobs, list, held, id, limit)
    ensures Held(list, held) && AllOnTime(held) && held.Keys !! jobs.Keys && id !in held
    ensures forall x :: x in held ==> x < limit
    ensures jobs + held == if id in jobs then all else all - {id}
  {
    hide Held, AllOnTime;
    var t := if id in jobs then all else all - {id};
    forall x
      ensures x in jobs + held <==> x in t
      ensures x in t ==> (jobs + held)[x] == t[x]
    {
    }
  }

  /** A job that was run is listed again. */
  lemma RunListed(list: seq<Job>, held: Jobs, j: Job, reschedule: bool)
    requires Held(list, held) && AllOnTime(held) && j.id !in held && OnTime(j)
    ensures Held(list + [Ran(j, reschedule)], held[j.id := Ran(j, reschedule)])
    ensures AllOnTime(held[j.id := Ran(j, reschedule)])
  {
    HeldMore(list, held, Ran(j, reschedule));
  }

  lemma NoRuns(jobs: Jobs, now: int)
    ensures InOrder([], now) && NoneBeforeLast([], jobs)
  {
  }
}
