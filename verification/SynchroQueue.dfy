/** A queue shared by any number of threads: every interleaving of their steps. */
module SynchroQueue {
  import opened Wrappers

  datatype Mode = Poll | Block | Timed

  /** Where a thread is. In the states from `Linking` on, except for `Asleep` and `Woken`, it holds the lock. */
  datatype Place<T> =
    | Idle
    | ToEnqueue(x: T)
    | ToDequeue(mode: Mode)
    | ToUnblock
    | ToMeasure
    /** Has the lock and will link its item. */
    | Linking(x: T)
    /** Has linked its item and will signal. */
    | Signalling
    /** Has the lock and will look whether the queue is empty. */
    | Testing(mode: Mode)
    /** Waits for a signal, without the lock. */
    | Asleep(mode: Mode)
    /** Was woken and waits for the lock. */
    | Woken(mode: Mode)
    /** Has the lock again and will look once more whether the queue is empty. */
    | Retesting(mode: Mode)
    | Broadcasting
    | Measuring
    /** Will release the lock and return. */
    | Leaving(result: Option<T>)

  /** The threads, the lock, the queue, and the values enqueued and dequeued so far in lock order. */
  datatype State<T> = State(threads: seq<Place<T>>, lock: Option<nat>, queue: seq<T>, size: int,
                            put: seq<T>, got: seq<(nat, T)>)

  /** The steps of the system, each by thread `i`. */
  datatype Step<T> =
    | Call(i: nat, place: Place<T>)
    | Acquire(i: nat)
    | Link(i: nat)
    | SignalOne(i: nat, j: nat)
    | SignalNone(i: nat)
    | Test(i: nat)
    /** A sleeping thread wakes up without a signal: its time is up, or for no reason. */
    | WakeAlone(i: nat)
    | Retest(i: nat)
    | Broadcast(i: nat)
    | Measure(i: nat)
    | Leave(i: nat)

  predicate Holds<T>(p: Place<T>)
  {
    p.Linking? || p.Signalling? || p.Testing? || p.Retesting? || p.Broadcasting? || p.Measuring? || p.Leaving?
  }

  predicate Wants<T>(p: Place<T>)
  {
    p.ToEnqueue? || p.ToDequeue? || p.ToUnblock? || p.ToMeasure? || p.Woken?
  }

  function Entered<T>(p: Place<T>): Place<T>
    requires Wants(p)
  {
    match p
    case ToEnqueue(x) => Linking(x)
    case ToDequeue(mode) => Testing(mode)
    case ToUnblock => Broadcasting
    case ToMeasure => Measuring
    case Woken(mode) => Retesting(mode)
  }

  /** Take the first value out for thread `i`. */
  function Taken<T>(s: State<T>, i: nat): State<T>
    requires i < |s.threads| && s.queue != []
  {
    s.(threads := s.threads[i := Leaving(Some(s.queue[0]))], queue := s.queue[1..], size := s.size - 1,
       got := s.got + [(i, s.queue[0])])
  }

  function WakeAll<T>(ts: seq<Place<T>>): (us: seq<Place<T>>)
    ensures |us| == |ts|
    ensures forall k :: 0 <= k < |ts| ==> us[k] == if ts[k].Asleep? then Woken(ts[k].mode) else ts[k]
  {
    seq(|ts|, k requires 0 <= k < |ts| => if ts[k].Asleep? then Woken(ts[k].mode) else ts[k])
  }

  ghost predicate NextBy<T>(s: State<T>, step: Step<T>, s': State<T>)
  {
    var i := step.i;
    && i < |s.threads|
    && var p := s.threads[i];
       match step
       case Call(_, place) =>
         && p.Idle? && Wants(place) && !place.Woken?
         && s' == s.(threads := s.threads[i := place])
       case Acquire(_) =>
         && Wants(p) && s.lock == None
         && s' == s.(threads := s.threads[i := Entered(p)], lock := Some(i))
       case Link(_) =>
         && p.Linking?
         && s' == s.(threads := s.threads[i := Signalling], queue := s.queue + [p.x], size := s.size + 1,
                     put := s.put + [p.x])
       case SignalOne(_, j) =>
         && p.Signalling? && j < |s.threads| && s.threads[j].Asleep?
         && s' == s.(threads := s.threads[i := Leaving(None)][j := Woken(s.threads[j].mode)])
       case SignalNone(_) =>
         && p.Signalling? && (forall j :: 0 <= j < |s.threads| ==> !s.threads[j].Asleep?)
         && s' == s.(threads := s.threads[i := Leaving(None)])
       case Test(_) =>
         && p.Testing?
         && (s.queue != [] ==> s' == Taken(s, i))
         && (s.queue == [] && p.mode.Poll? ==> s' == s.(threads := s.threads[i := Leaving(None)]))
         && (s.queue == [] && !p.mode.Poll? ==> s' == s.(threads := s.threads[i := Asleep(p.mode)], lock := None))
       case WakeAlone(_) =>
         && p.Asleep?
         && s' == s.(threads := s.threads[i := Woken(p.mode)])
       case Retest(_) =>
         && p.Retesting?
         && (s.queue != [] ==> s' == Taken(s, i))
         && (s.queue == [] ==> s' == s.(threads := s.threads[i := Leaving(None)]))
       case Broadcast(_) =>
         && p.Broadcasting?
         && s' == s.(threads := WakeAll(s.threads)[i := Leaving(None)])
       case Measure(_) =>
         && p.Measuring?
         && s' == s.(threads := s.threads[i := Leaving(None)])
       case Leave(_) =>
         && p.Leaving?
         && s' == s.(threads := s.threads[i := Idle], lock := None)
  }

  ghost predicate Next<T(!new)>(s: State<T>, s': State<T>)
  {
    exists step: Step<T> :: NextBy(s, step, s')
  }

  ghost predicate Init<T>(s: State<T>)
  {
    && (forall i :: 0 <= i < |s.threads| ==> s.threads[i].Idle?)
    && s.lock == None && s.queue == [] && s.size == 0 && s.put == [] && s.got == []
  }

  /** A run from the start, in any interleaving. */
  ghost predicate Run<T(!new)>(run: seq<State<T>>)
  {
    run != [] && Init(run[0]) && forall k :: 0 <= k < |run| - 1 ==> Next(run[k], run[k + 1])
  }

  /** A run with the step taken at each moment. */
  ghost predicate RunBy<T>(run: seq<State<T>>, steps: seq<Step<T>>)
  {
    && |run| == |steps| + 1 && Init(run[0])
    && forall k :: 0 <= k < |steps| ==> NextBy(run[k], steps[k], run[k + 1])
  }

  lemma RunByIsRun<T(!new)>(run: seq<State<T>>, steps: seq<Step<T>>)
    requires RunBy(run, steps)
    ensures Run(run)
  {
    hide NextBy, Init;
    forall k | 0 <= k < |run| - 1
      ensures Next(run[k], run[k + 1])
    {
      assert NextBy(run[k], steps[k], run[k + 1]);
    }
  }

  // ---- What every reachable state satisfies ----

  /** The values dequeued. */
  function Values<T>(got: seq<(nat, T)>): (vs: seq<T>)
    ensures |vs| == |got|
  {
    seq(|got|, k requires 0 <= k < |got| => got[k].1)
  }

  /** First in, first out, and nothing lost or doubled; the size is right. */
  ghost predicate Fifo<T>(s: State<T>)
  {
    Values(s.got) + s.queue == s.put && s.size == |s.queue|
  }

  /** The lock is held by the one thread whose place says so. */
  ghost predicate Exclusive<T>(s: State<T>)
  {
    && (s.lock.Some? ==> s.lock.value < |s.threads|)
    && forall i :: 0 <= i < |s.threads| ==> (Holds(s.threads[i]) <==> s.lock == Some(i))
  }

  /** A thread about to return a value returns the one that was just taken out for it. */
  ghost predicate Returns<T>(s: State<T>)
  {
    forall i :: 0 <= i < |s.threads| && s.threads[i].Leaving? && s.threads[i].result.Some? ==>
      s.got != [] && s.got[|s.got| - 1] == (i, s.threads[i].result.value)
  }

  /** Threads that were woken and have not looked at the queue yet. */
  function WokenCount<T>(ts: seq<Place<T>>): nat
  {
    if ts == [] then 0
    else WokenCount(ts[..|ts| - 1]) + (if ts[|ts| - 1].Woken? || ts[|ts| - 1].Retesting? then 1 else 0)
  }

  predicate IsWoken<T>(p: Place<T>) { p.Woken? || p.Retesting? }

  lemma {:induction false} WokenUpdate<T>(ts: seq<Place<T>>, i: nat, p: Place<T>)
    requires i < |ts|
    ensures WokenCount(ts[i := p])
         == WokenCount(ts) - (if IsWoken(ts[i]) then 1 else 0) + (if IsWoken(p) then 1 else 0)
  {
    var n := |ts| - 1;
    if i < n {
      WokenUpdate(ts[..n], i, p);
      assert ts[i := p][..n] == ts[..n][i := p];
    } else {
      assert ts[i := p][..n] == ts[..n];
    }
  }

  ghost predicate SomeAsleep<T>(s: State<T>)
  {
    exists i :: 0 <= i < |s.threads| && s.threads[i].Asleep?
  }

  /** The thread with the lock has linked an item and not signalled yet. */
  predicate AboutToSignal<T>(s: State<T>)
  {
    s.lock.Some? && s.lock.value < |s.threads| && s.threads[s.lock.value].Signalling?
  }

  /** While a thread sleeps, every value in the queue has a woken thread coming for it, or a signal under way. */
  ghost predicate NoLostWakeup<T>(s: State<T>)
  {
    SomeAsleep(s) ==> |s.queue| <= WokenCount(s.threads) + (if AboutToSignal(s) then 1 else 0)
  }

  /** A thread about to signal has something to announce. */
  ghost predicate Announces<T>(s: State<T>)
  {
    forall i :: 0 <= i < |s.threads| && s.threads[i].Signalling? ==> s.queue != []
  }

  ghost predicate Inv<T>(s: State<T>)
  {
    Fifo(s) && Exclusive(s) && Returns(s) && NoLostWakeup(s) && Announces(s)
  }

  lemma InitInv<T>(s: State<T>)
    requires Init(s)
    ensures Inv(s)
  {
    assert Values(s.got) == [];
  }

  lemma StepFifo<T>(s: State<T>, step: Step<T>, s': State<T>)
    requires Fifo(s) && NextBy(s, step, s')
    ensures Fifo(s')
  {
    var i := step.i;
    if s'.queue != s.queue {
      if step.Link? {
        assert Values(s.got) + (s.queue + [s.threads[i].x]) == s.put + [s.threads[i].x];
      } else {
        assert Values(s'.got) == Values(s.got) + [s.queue[0]];
        assert s.queue == [s.queue[0]] + s.queue[1..];
      }
    }
  }

  lemma StepExclusive<T>(s: State<T>, step: Step<T>, s': State<T>)
    requires Exclusive(s) && NextBy(s, step, s')
    ensures Exclusive(s') && |s'.threads| == |s.threads|
  {
  }

  lemma StepReturns<T>(s: State<T>, step: Step<T>, s': State<T>)
    requires Exclusive(s) && Returns(s) && NextBy(s, step, s')
    ensures Returns(s')
  {
  }

  lemma StepNoLostWakeup<T>(s: State<T>, step: Step<T>, s': State<T>)
    requires Exclusive(s) && NoLostWakeup(s) && NextBy(s, step, s')
    ensures NoLostWakeup(s')
  {
    var i := step.i;
    StepExclusive(s, step, s');
    if SomeAsleep(s') {
      var k :| 0 <= k < |s'.threads| && s'.threads[k].Asleep?;
      if step.SignalOne? {
        var ts := s.threads[i := Leaving(None)];
        WokenUpdate(s.threads, i, Leaving(None));
        WokenUpdate(ts, step.j, Woken(s.threads[step.j].mode));
        assert SomeAsleep(s);
      } else if !step.Broadcast? {
        assert s'.threads == s.threads[i := s'.threads[i]];
        WokenUpdate(s.threads, i, s'.threads[i]);
        if k != i {
          assert s.threads[k].Asleep? && SomeAsleep(s);
        }
      }
    }
  }

  lemma StepAnnounces<T>(s: State<T>, step: Step<T>, s': State<T>)
    requires Exclusive(s) && Announces(s) && NextBy(s, step, s')
    ensures Announces(s')
  {
  }

  /** Every step of every thread keeps all of it. */
  lemma StepInv<T(!new)>(s: State<T>, s': State<T>)
    requires Inv(s) && Next(s, s')
    ensures Inv(s')
  {
    hide NextBy, Fifo, Exclusive, Returns, NoLostWakeup, Announces;
    var step: Step<T> :| NextBy(s, step, s');
    StepFifo(s, step, s');
    StepExclusive(s, step, s');
    StepReturns(s, step, s');
    StepNoLostWakeup(s, step, s');
    StepAnnounces(s, step, s');
  }

  lemma {:induction false} RunInv<T(!new)>(run: seq<State<T>>, k: nat)
    requires Run(run) && k < |run|
    ensures Inv(run[k])
  {
    hide Inv, Next, Init;
    if k == 0 {
      InitInv(run[0]);
    } else {
      RunInv(run, k - 1);
      assert Next(run[k - 1], run[k - 1 + 1]);
      StepInv(run[k - 1], run[k]);
    }
  }

  /** In every reachable state: what was dequeued, in lock order, and what is queued is what was enqueued. */
  lemma EveryRunIsFifo<T(!new)>(run: seq<State<T>>, k: nat)
    requires Run(run) && k < |run|
    ensures Values(run[k].got) + run[k].queue == run[k].put && run[k].size == |run[k].queue|
    ensures Values(run[k].got) <= run[k].put
  {
    RunInv(run, k);
  }

  /** Nobody is on the way: every thread is outside of the queue or sleeps in it. */
  ghost predicate AtRest<T>(s: State<T>)
  {
    forall i :: 0 <= i < |s.threads| ==> s.threads[i].Idle? || s.threads[i].Asleep?
  }

  lemma {:induction false} NoneWoken<T>(ts: seq<Place<T>>)
    requires forall i :: 0 <= i < |ts| ==> !IsWoken(ts[i])
    ensures WokenCount(ts) == 0
  {
    if ts != [] {
      NoneWoken(ts[..|ts| - 1]);
    }
  }

  /** No wakeup is lost: when all is at rest and somebody sleeps, there is nothing in the queue to wait for. */
  lemma NobodySleepsInVain<T(!new)>(run: seq<State<T>>, k: nat)
    requires Run(run) && k < |run| && AtRest(run[k]) && SomeAsleep(run[k])
    ensures run[k].queue == []
  {
    RunInv(run, k);
    NoneWoken(run[k].threads);
  }

  // ---- Nobody is stuck ----

  /** At most how many more steps a thread makes before it lets go of the lock. */
  function StepsLeft<T>(p: Place<T>): nat
  {
    match p
    case Linking(_) => 3
    case Signalling | Testing(_) | Retesting(_) | Broadcasting | Measuring => 2
    case Leaving(_) => 1
    case _ => 0
  }

  /** A thread that has the lock can make a step, as can one that wants the lock when it is free. */
  lemma CanGoOn<T>(s: State<T>, i: nat) returns (step: Step<T>, s': State<T>)
    requires i < |s.threads|
    requires Holds(s.threads[i]) || (Wants(s.threads[i]) && s.lock == None)
    ensures step.i == i && !step.Call? && NextBy(s, step, s')
  {
    var p := s.threads[i];
    var left := s.(threads := s.threads[i := Leaving(None)]);
    match p {
    case ToEnqueue(_) | ToDequeue(_) | ToUnblock | ToMeasure | Woken(_) =>
      step, s' := Acquire(i), s.(threads := s.threads[i := Entered(p)], lock := Some(i));
    case Linking(x) =>
      step, s' := Link(i), s.(threads := s.threads[i := Signalling], queue := s.queue + [x], size := s.size + 1,
                              put := s.put + [x]);
    case Signalling =>
      if j: nat :| j < |s.threads| && s.threads[j].Asleep? {
        step := SignalOne(i, j);
        s' := s.(threads := s.threads[i := Leaving(None)][j := Woken(s.threads[j].mode)]);
      } else {
        step, s' := SignalNone(i), left;
      }
    case Testing(mode) =>
      step := Test(i);
      s' := if s.queue != [] then Taken(s, i) else if mode.Poll? then left
            else s.(threads := s.threads[i := Asleep(mode)], lock := None);
    case Retesting(_) => step, s' := Retest(i), if s.queue != [] then Taken(s, i) else left;
    case Broadcasting => step, s' := Broadcast(i), s.(threads := WakeAll(s.threads)[i := Leaving(None)]);
    case Measuring => step, s' := Measure(i), left;
    case Leaving(_) => step, s' := Leave(i), s.(threads := s.threads[i := Idle], lock := None);
    }
  }

  /** There is no deadlock: in every reachable state, unless all threads are outside of the queue or asleep in it, one
      that is not can make a step. */
  lemma NoDeadlock<T(!new)>(run: seq<State<T>>, k: nat) returns (step: Step<T>, s': State<T>)
    requires Run(run) && k < |run| && !AtRest(run[k])
    ensures step.i < |run[k].threads| && !run[k].threads[step.i].Asleep? && !step.Call? && NextBy(run[k], step, s')
  {
    var s := run[k];
    RunInv(run, k);
    if s.lock.Some? {
      step, s' := CanGoOn(s, s.lock.value);
    } else {
      var i :| 0 <= i < |s.threads| && !s.threads[i].Idle? && !s.threads[i].Asleep?;
      step, s' := CanGoOn(s, i);
    }
  }

  /** How many of the steps from `k` to `m` are the thread's own. */
  function OwnCount<T>(steps: seq<Step<T>>, k: nat, m: nat, i: nat): nat
    requires k <= m <= |steps|
    decreases m
  {
    if k == m then 0 else OwnCount(steps, k, m - 1, i) + if steps[m - 1].i == i then 1 else 0
  }

  /** In every run, a thread that has the lock has let go of it by its third step, whatever the others do. */
  lemma LockComesFree<T(!new)>(run: seq<State<T>>, steps: seq<Step<T>>, k: nat, m: nat, i: nat)
    requires RunBy(run, steps) && k <= m < |run| && run[k].lock == Some(i) && OwnCount(steps, k, m, i) >= 3
    ensures exists t :: k < t <= m && run[t].lock == None
  {
    RunByIsRun(run, steps);
    RunInv(run, k);
    if forall t :: k < t <= m ==> run[t].lock.Some? {
      HolderStays(run, steps, k, m, i);
      RunInv(run, m);
    }
  }

  lemma {:induction false} HolderStays<T(!new)>(run: seq<State<T>>, steps: seq<Step<T>>, k: nat, m: nat, i: nat)
    requires RunBy(run, steps) && |run| == |steps| + 1 && k <= m < |run| && run[k].lock == Some(i)
    requires forall t :: k < t <= m ==> run[t].lock.Some?
    ensures run[m].lock == Some(i) && i < |run[m].threads|
    ensures OwnCount(steps, k, m, i) + StepsLeft(run[m].threads[i]) <= 3
    decreases m
  {
    hide Exclusive, RunBy, NextBy, StepsLeft;
    if k < m {
      HolderStays(run, steps, k, m - 1, i);
      OneOfRun(run, steps, m - 1);
      HolderStep(run[m - 1], steps[m - 1], run[m], i);
    } else {
      HolderStarts(run, steps, k, i);
    }
  }

  lemma OneOfRun<T(!new)>(run: seq<State<T>>, steps: seq<Step<T>>, k: nat)
    requires RunBy(run, steps) && k < |steps|
    ensures |run| == |steps| + 1 && Exclusive(run[k]) && NextBy(run[k], steps[k], run[k + 1])
  {
    hide NextBy, Init;
    RunByIsRun(run, steps);
    RunInv(run, k);
  }

  lemma HolderStarts<T(!new)>(run: seq<State<T>>, steps: seq<Step<T>>, k: nat, i: nat)
    requires RunBy(run, steps) && k < |run| && run[k].lock == Some(i)
    ensures i < |run[k].threads| && StepsLeft(run[k].threads[i]) <= 3
  {
    hide NextBy, Init;
    RunByIsRun(run, steps);
    RunInv(run, k);
  }

  lemma HolderStep<T>(s: State<T>, step: Step<T>, s': State<T>, i: nat)
    requires Exclusive(s) && NextBy(s, step, s') && s.lock == Some(i) && s'.lock.Some?
    ensures s'.lock == Some(i) && i < |s'.threads|
    ensures StepsLeft(s'.threads[i]) + (if step.i == i then 1 else 0) <= StepsLeft(s.threads[i])
  {
  }

  // ---- When a blocking dequeue returns a value ----

  /** In every run, a blocking dequeue returns nothing exactly when it was woken and finds the queue empty then, that
      is, when everything enqueued by then has been dequeued. */
  lemma ReturnsNothingExactly<T(!new)>(run: seq<State<T>>, steps: seq<Step<T>>, k: nat, i: nat)
    requires RunBy(run, steps) && k < |steps| && i < |run[k].threads|
    requires run[k].threads[i] in {Testing(Block), Retesting(Block)} && steps[k].i == i
    requires run[k + 1].threads[i].Leaving?
    ensures run[k + 1].threads[i].result.None? <==> run[k].threads[i].Retesting? && |run[k].got| == |run[k].put|
  {
    RunByIsRun(run, steps);
    RunInv(run, k);
    assert NextBy(run[k], steps[k], run[k + 1]);
  }

  /** In every run, when a thread in a dequeue of any kind looks at the queue: it takes the first value when there is
      one; with an empty queue it goes to sleep exactly when it has not slept yet and may, else it returns nothing. */
  lemma LooksAtQueue<T(!new)>(run: seq<State<T>>, steps: seq<Step<T>>, k: nat, i: nat)
    requires RunBy(run, steps) && k < |steps| && i < |run[k].threads| && steps[k].i == i
    requires run[k].threads[i].Testing? || run[k].threads[i].Retesting?
    ensures i < |run[k + 1].threads|
    ensures var p, p' := run[k].threads[i], run[k + 1].threads[i];
            if run[k].queue != [] then
              && p' == Leaving(Some(run[k].queue[0])) && run[k + 1].queue == run[k].queue[1..]
              && run[k + 1].got == run[k].got + [(i, run[k].queue[0])]
            else
              && p' == (if p.Testing? && p.mode != Poll then Asleep(p.mode) else Leaving(None))
              && run[k + 1].queue == [] && run[k + 1].got == run[k].got
  {
    assert NextBy(run[k], steps[k], run[k + 1]);
  }

  /** Only its own steps move a thread that is not asleep. */
  lemma OwnSteps<T>(s: State<T>, step: Step<T>, s': State<T>, i: nat)
    requires NextBy(s, step, s') && i < |s.threads| && step.i != i && !s.threads[i].Asleep?
    ensures i < |s'.threads| && s'.threads[i] == s.threads[i]
  {
  }

  lemma {:induction false} OwnStepsOver<T>(run: seq<State<T>>, steps: seq<Step<T>>, k: nat, m: nat, i: nat)
    requires RunBy(run, steps) && k <= m < |run| && i < |run[k].threads| && !run[k].threads[i].Asleep?
    requires forall t :: k <= t < m ==> steps[t].i != i
    ensures i < |run[m].threads| && run[m].threads[i] == run[k].threads[i]
    decreases m - k
  {
    hide NextBy, Init;
    if k < m {
      assert NextBy(run[k], steps[k], run[k + 1]);
      OwnSteps(run[k], steps[k], run[k + 1], i);
      OwnStepsOver(run, steps, k + 1, m, i);
    }
  }

  /** In every run, the second step of a thread that unblocks leaves nobody asleep. */
  lemma UnblockWakesAll<T>(run: seq<State<T>>, steps: seq<Step<T>>, k: nat, m: nat, n: nat, i: nat)
    requires RunBy(run, steps) && k <= m < n < |steps| && i < |run[k].threads| && run[k].threads[i].ToUnblock?
    requires steps[m].i == i && steps[n].i == i
    requires forall t :: k <= t < n && t != m ==> steps[t].i != i
    ensures !SomeAsleep(run[n + 1])
  {
    OwnStepsOver(run, steps, k, m, i);
    assert NextBy(run[m], steps[m], run[m + 1]);
    assert run[m + 1].threads[i] == Broadcasting;
    OwnStepsOver(run, steps, m + 1, n, i);
    assert NextBy(run[n], steps[n], run[n + 1]);
  }

  /** In every run, the second step of a thread that enqueues puts its value last. */
  lemma EnqueuePutsLast<T>(run: seq<State<T>>, steps: seq<Step<T>>, k: nat, m: nat, n: nat, i: nat)
    requires RunBy(run, steps) && k <= m < n < |steps| && i < |run[k].threads| && run[k].threads[i].ToEnqueue?
    requires steps[m].i == i && steps[n].i == i
    requires forall t :: k <= t < n && t != m ==> steps[t].i != i
    ensures run[n + 1].queue == run[n].queue + [run[k].threads[i].x]
  {
    OwnStepsOver(run, steps, k, m, i);
    assert NextBy(run[m], steps[m], run[m + 1]);
    assert run[m + 1].threads[i] == Linking(run[k].threads[i].x);
    OwnStepsOver(run, steps, m + 1, n, i);
    assert NextBy(run[n], steps[n], run[n + 1]);
  }

  /** Dequeued by somebody in this step. */
  predicate Dequeued<T>(s: State<T>, s': State<T>) { |s.got| < |s'.got| }

  lemma QueueStays<T>(s: State<T>, step: Step<T>, s': State<T>)
    requires NextBy(s, step, s') && !Dequeued(s, s')
    ensures s.queue <= s'.queue
  {
  }

  lemma {:induction false} QueueStaysOver<T>(run: seq<State<T>>, steps: seq<Step<T>>, m: nat, k: nat)
    requires RunBy(run, steps) && m <= k <= |steps|
    requires forall t :: m <= t < k ==> !Dequeued(run[t], run[t + 1])
    ensures run[m].queue <= run[k].queue
    decreases k - m
  {
    hide NextBy, Init, Dequeued;
    if m < k {
      assert NextBy(run[m], steps[m], run[m + 1]) && !Dequeued(run[m], run[m + 1]);
      QueueStays(run[m], steps[m], run[m + 1]);
      QueueStaysOver(run, steps, m + 1, k);
    }
  }

  /** In every run, a thread that was woken at step `m` and finds nothing at step `k` was not woken by a signal, or
      somebody dequeued in between. */
  lemma WhyNothing<T(!new)>(run: seq<State<T>>, steps: seq<Step<T>>, m: nat, k: nat, i: nat)
    requires RunBy(run, steps) && m < k < |steps| && i < |run[m].threads| == |run[m + 1].threads|
    requires run[m].threads[i].Asleep? && run[m + 1].threads[i].Woken? && run[k].queue == []
    ensures steps[m] == WakeAlone(i) || steps[m].Broadcast? || exists t :: m < t < k && Dequeued(run[t], run[t + 1])
  {
    RunByIsRun(run, steps);
    RunInv(run, m);
    assert NextBy(run[m], steps[m], run[m + 1]);
    if forall t :: m < t < k ==> !Dequeued(run[t], run[t + 1]) {
      QueueStaysOver(run, steps, m + 1, k);
    }
  }

  /** Only thread `i` dequeues, nobody unblocks, and `i` wakes up by a signal only. */
  predicate SoleConsumer<T(==)>(steps: seq<Step<T>>, i: nat)
  {
    forall k :: 0 <= k < |steps| ==>
      && (steps[k].Call? && steps[k].place.ToDequeue? ==> steps[k].i == i)
      && (steps[k].Call? ==> !steps[k].place.ToUnblock?)
      && (steps[k].WakeAlone? ==> steps[k].i != i)
  }

  /** Nobody else is in a dequeue, nobody unblocks, and when `i` is woken there is something for it. */
  ghost predicate Served<T>(s: State<T>, i: nat)
  {
    forall j :: 0 <= j < |s.threads| ==>
      var p := s.threads[j];
      && !p.ToUnblock? && !p.Broadcasting?
      && (p.ToDequeue? || p.Testing? || p.Asleep? || IsWoken(p) ==> j == i)
      && (IsWoken(p) ==> s.queue != [])
  }

  lemma StepServed<T>(s: State<T>, step: Step<T>, s': State<T>, i: nat)
    requires Exclusive(s) && Announces(s) && Served(s, i) && NextBy(s, step, s') && SoleConsumer([step], i)
    ensures Served(s', i)
  {
    assert [step][0] == step;
  }

  lemma {:induction false} RunServed<T(!new)>(run: seq<State<T>>, steps: seq<Step<T>>, i: nat, k: nat)
    requires RunBy(run, steps) && SoleConsumer(steps, i) && k < |run|
    ensures Served(run[k], i)
  {
    if k > 0 {
      RunByIsRun(run, steps);
      RunInv(run, k - 1);
      RunServed(run, steps, i, k - 1);
      hide NextBy, Init, Served, Exclusive, Fifo, NoLostWakeup, Returns, Announces;
      assert NextBy(run[k - 1], steps[k - 1], run[k - 1 + 1]);
      StepServed(run[k - 1], steps[k - 1], run[k], i);
    }
  }

  /** The only consumer of a queue that nobody unblocks gets a value from every blocking dequeue, when it is woken by
      signals only. */
  lemma SoleConsumerGetsValues<T(!new)>(run: seq<State<T>>, steps: seq<Step<T>>, i: nat, k: nat)
    requires RunBy(run, steps) && SoleConsumer(steps, i) && k < |steps| && i < |run[k].threads|
    requires run[k].threads[i] in {Testing(Block), Retesting(Block)} && steps[k].i == i
    ensures run[k + 1].threads[i].Asleep? || (run[k + 1].threads[i].Leaving? && run[k + 1].threads[i].result.Some?)
    ensures run[k].threads[i].Retesting? ==> run[k + 1].threads[i].Leaving?
  {
    RunServed(run, steps, i, k);
    assert NextBy(run[k], steps[k], run[k + 1]);
  }

  // ---- A blocking dequeue that returns nothing ----

  /** The header promises that a blocking dequeue returns nothing only to a cancelled thread. Here thread 0 blocks,
      thread 1 enqueues and signals, and thread 1 takes the value itself before thread 0 has the lock again. */
  function StolenWakeup(): (run: seq<State<int>>)
    ensures |run| == 16
  {
    var dead: Place<int> := Idle;
    var s0 := State([dead, dead], None, [], 0, [], []);
    var s1 := s0.(threads := [ToDequeue(Block), dead]);
    var s2 := s1.(threads := [Testing(Block), dead], lock := Some(0));
    var s3 := s2.(threads := [Asleep(Block), dead], lock := None);
    var s4 := s3.(threads := [Asleep(Block), ToEnqueue(7)]);
    var s5 := s4.(threads := [Asleep(Block), Linking(7)], lock := Some(1));
    var s6 := s5.(threads := [Asleep(Block), Signalling], queue := [7], size := 1, put := [7]);
    var s7 := s6.(threads := [Woken(Block), Leaving(None)]);
    var s8 := s7.(threads := [Woken(Block), dead], lock := None);
    var s9 := s8.(threads := [Woken(Block), ToDequeue(Poll)]);
    var s10 := s9.(threads := [Woken(Block), Testing(Poll)], lock := Some(1));
    var s11 := s10.(threads := [Woken(Block), Leaving(Some(7))], queue := [], size := 0, got := [(1, 7)]);
    var s12 := s11.(threads := [Woken(Block), dead], lock := None);
    var s13 := s12.(threads := [Retesting(Block), dead], lock := Some(0));
    var s14 := s13.(threads := [Leaving(None), dead]);
    var s15 := s14.(threads := [dead, dead], lock := None);
    [s0, s1, s2, s3, s4, s5, s6, s7, s8, s9, s10, s11, s12, s13, s14, s15]
  }

  lemma StolenFirstHalf()
    ensures forall k :: 0 <= k < 7 ==> Next(StolenWakeup()[k], StolenWakeup()[k + 1])
  {
    var r := StolenWakeup();
    assert NextBy(r[0], Call(0, ToDequeue(Block)), r[1]);
    assert NextBy(r[1], Acquire(0), r[2]);
    assert NextBy(r[2], Test(0), r[3]);
    assert NextBy(r[3], Call(1, ToEnqueue(7)), r[4]);
    assert NextBy(r[4], Acquire(1), r[5]);
    assert NextBy(r[5], Link(1), r[6]);
    assert NextBy(r[6], SignalOne(1, 0), r[7]);
  }

  lemma StolenSecondHalf()
    ensures forall k :: 7 <= k < 15 ==> Next(StolenWakeup()[k], StolenWakeup()[k + 1])
  {
    var r := StolenWakeup();
    assert NextBy(r[7], Leave(1), r[8]);
    assert NextBy(r[8], Call(1, ToDequeue(Poll)), r[9]);
    assert NextBy(r[9], Acquire(1), r[10]);
    assert NextBy(r[10], Test(1), r[11]);
    assert NextBy(r[11], Leave(1), r[12]);
    assert NextBy(r[12], Acquire(0), r[13]);
    assert NextBy(r[13], Retest(0), r[14]);
    assert NextBy(r[14], Leave(0), r[15]);
  }

  lemma BlockingDequeueMayReturnNothing()
    ensures Run(StolenWakeup())
    ensures StolenWakeup()[3].threads[0] == Asleep(Block) && StolenWakeup()[14].threads[0] == Leaving(None)
    ensures forall k :: 0 <= k < 16 ==> !StolenWakeup()[k].threads[1].ToUnblock?
  {
    StolenFirstHalf();
    StolenSecondHalf();
    hide Next;
    assert Init(StolenWakeup()[0]);
  }
}
