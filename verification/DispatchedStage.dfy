/** A stage's work items run by the worker pool: the bodies of one dispatch take the items' steps, on
    whichever worker holds their slice.  When the dispatch is over the items have run to their ends, in
    some interleaving; that is all the theorems on stages ask for. */
module DispatchedStage {
  import opened CellStore
  import opened StageExecution
  import opened StageTick
  import opened SystemAccess
  import P = ThreadPool
  import T = ThreadPoolTheorems

  // ----- pool and items together -----

  /** A step of the pool, or a step of the item whose slice thread t is running. */
  datatype Event = PoolStep(step: P.Step) | ItemStep(t: nat)

  datatype Joint<V, L> = Joint(pool: P.Pool, stage: State<V, L>)

  /** Thread t is inside the body of a slice of dispatch d, one slice per item. */
  predicate RunsSlice(p: P.Pool, d: nat, n: nat, t: nat) {
    t < |p.threads| && p.threads[t].InBody? && p.threads[t].job.d == d && p.threads[t].job.idx < n
  }

  /** The body of a slice returns when its item is finished. */
  ghost predicate Can<V, L>(items: seq<Item<V, L>>, d: nat, s: Joint<V, L>, e: Event)
    requires |items| == |s.stage.locals|
  {
    match e
    case PoolStep(step) =>
      && P.Enabled(s.pool, step)
      && (step.FinishBody? && RunsSlice(s.pool, d, |items|, step.t) ==>
          Finished(items, s.stage, s.pool.threads[step.t].job.idx))
    case ItemStep(t) => RunsSlice(s.pool, d, |items|, t) && s.pool.threads[t].control.Code?
  }

  ghost function Do<V, L>(items: seq<Item<V, L>>, d: nat, s: Joint<V, L>, e: Event): (r: Joint<V, L>)
    requires |items| == |s.stage.locals| && Can(items, d, s, e)
    ensures |r.stage.locals| == |items|
  {
    match e
    case PoolStep(step) => s.(pool := P.After(s.pool, step))
    case ItemStep(t) => s.(stage := StepItem(items, s.stage, s.pool.threads[t].job.idx))
  }

  ghost predicate IsRun<V, L>(items: seq<Item<V, L>>, d: nat, s: Joint<V, L>, events: seq<Event>)
    requires |items| == |s.stage.locals|
  {
    events == [] ||
    (var front := events[..|events| - 1];
     IsRun(items, d, s, front) && Can(items, d, End(items, d, s, front), events[|events| - 1]))
  }

  ghost function End<V, L>(items: seq<Item<V, L>>, d: nat, s: Joint<V, L>, events: seq<Event>): (r: Joint<V, L>)
    requires |items| == |s.stage.locals|
    ensures |r.stage.locals| == |items|
  {
    if events == [] then s
    else
      var before, e := End(items, d, s, events[..|events| - 1]), events[|events| - 1];
      if Can(items, d, before, e) then Do(items, d, before, e) else before
  }

  function PoolSteps(events: seq<Event>): seq<P.Step> {
    if events == [] then []
    else
      PoolSteps(events[..|events| - 1]) +
      match events[|events| - 1] case PoolStep(step) => [step] case ItemStep(_) => []
  }

  /** The interleaving: the item of each item step. */
  ghost function Sched<V, L>(items: seq<Item<V, L>>, d: nat, s: Joint<V, L>, events: seq<Event>): seq<nat>
    requires |items| == |s.stage.locals|
  {
    if events == [] then []
    else
      var front, e := events[..|events| - 1], events[|events| - 1];
      Sched(items, d, s, front) +
      if e.ItemStep? && e.t < |End(items, d, s, front).pool.threads|
        && End(items, d, s, front).pool.threads[e.t].InBody?
      then [End(items, d, s, front).pool.threads[e.t].job.idx] else []
  }

  // ----- both halves of a run -----

  lemma {:induction false} PoolHalf<V, L>(items: seq<Item<V, L>>, d: nat, s: Joint<V, L>, events: seq<Event>)
    requires |items| == |s.stage.locals| && IsRun(items, d, s, events)
    ensures P.IsRun(s.pool, PoolSteps(events)) && P.RunEnd(s.pool, PoolSteps(events)) == End(items, d, s, events).pool
    decreases |events|
  {
    if events != [] {
      var front, e := events[..|events| - 1], events[|events| - 1];
      PoolHalf(items, d, s, front);
      match e
      case PoolStep(step) => T.RunSnoc(s.pool, PoolSteps(front), step);
      case ItemStep(_) => assert PoolSteps(events) == PoolSteps(front);
    }
  }

  lemma {:induction false} StageHalf<V, L>(items: seq<Item<V, L>>, d: nat, s: Joint<V, L>, events: seq<Event>)
    requires |items| == |s.stage.locals| && IsRun(items, d, s, events)
    ensures Schedules(items, Sched(items, d, s, events))
    ensures Run(items, s.stage, Sched(items, d, s, events)) == End(items, d, s, events).stage
    decreases |events|
  {
    if events != [] {
      var front, e := events[..|events| - 1], events[|events| - 1];
      StageHalf(items, d, s, front);
      var before, sched := End(items, d, s, front), Sched(items, d, s, front);
      match e
      case PoolStep(_) => assert Sched(items, d, s, events) == sched;
      case ItemStep(t) =>
        assert (sched + [before.pool.threads[t].job.idx])[..|sched|] == sched;
    }
  }

  // ----- what has run is finished -----

  /** Once the item would return, it would in every store. */
  ghost predicate ReturnsForGood<V(!new), L(!new)>(item: Item<V, L>) {
    forall local: L, v: map<Cell, V>, w: map<Cell, V> :: StaysDone(item, local, v, w)
  }

  ghost predicate StaysDone<V, L>(item: Item<V, L>, local: L, v: map<Cell, V>, w: map<Cell, V>) {
    item.step(local, v).Done? ==> item.step(local, w).Done?
  }

  /** The items do not interfere, or at least do not wake each other up. */
  ghost predicate Steady<V(!new), L(!new)>(items: seq<Item<V, L>>) {
    Independent(items) || forall i :: 0 <= i < |items| ==> ReturnsForGood(items[i])
  }

  lemma SteadyStep<V(!new), L(!new)>(items: seq<Item<V, L>>, st: State<V, L>, j: nat, i: nat)
    requires Steady(items) && i < |items| == |st.locals| && j < |items| && Finished(items, st, i)
    ensures Finished(items, StepItem(items, st, j), i)
  {
    if Independent(items) {
      FinishedStep(items, st, j, i);
    } else {
      assert StaysDone(items[i], st.locals[i], View(items[i], st.store), View(items[i], StepItem(items, st, j).store));
    }
  }

  ghost predicate RanIsFinished<V, L>(items: seq<Item<V, L>>, d: nat, s: Joint<V, L>)
    requires |items| == |s.stage.locals|
  {
    forall i: nat :: i < |items| && s.pool.ran[P.Job(d, i)] > 0 ==> Finished(items, s.stage, i)
  }

  lemma RanStep<V(!new), L(!new)>(items: seq<Item<V, L>>, d: nat, s: Joint<V, L>, e: Event)
    requires Steady(items) && |items| == |s.stage.locals| && Can(items, d, s, e) && RanIsFinished(items, d, s)
    ensures RanIsFinished(items, d, Do(items, d, s, e))
  {
    var after := Do(items, d, s, e);
    forall i: nat | i < |items| && after.pool.ran[P.Job(d, i)] > 0 ensures Finished(items, after.stage, i) {
      if e.ItemStep? {
        SteadyStep(items, s.stage, s.pool.threads[e.t].job.idx, i);
      }
    }
  }

  lemma {:induction false} RunRanIsFinished<V(!new), L(!new)>(items: seq<Item<V, L>>, d: nat, s: Joint<V, L>,
                                                              events: seq<Event>)
    requires Steady(items) && |items| == |s.stage.locals| && P.Initial(s.pool) && IsRun(items, d, s, events)
    ensures RanIsFinished(items, d, End(items, d, s, events))
    decreases |events|
  {
    if events != [] {
      var front := events[..|events| - 1];
      RunRanIsFinished(items, d, s, front);
      RanStep(items, d, End(items, d, s, front), events[|events| - 1]);
    }
  }

  // ----- the dispatch is over -----

  /** Dispatch d is the stage's, with one slice per item, and its counter is down to zero. */
  predicate Over(p: P.Pool, d: nat, n: nat) {
    d < |p.dispatches| && p.dispatches[d].total == n && p.dispatches[d].count == 0
  }

  lemma OverRanAll(p: P.Pool, d: nat, n: nat, i: nat)
    requires P.Inv(p) && Over(p, d, n) && i < n
    ensures p.ran[P.Job(d, i)] == 1
  {
    var j := P.Job(d, i);
    P.CountZero(p.queue, P.OfDispatch(d));
    P.CountZero(p.threads, P.Owes(d));
    P.CountZero(p.queue, P.Is(j));
    P.CountZero(p.threads, P.Runs(j));
    assert p.dispatches[d].count == P.Outstanding(p, d);
    forall k | 0 <= k < |p.queue| ensures !P.Is(j)(p.queue[k]) {
      assert !P.OfDispatch(d)(p.queue[k]);
    }
    forall t | 0 <= t < |p.threads| ensures !P.Runs(j)(p.threads[t]) {
      assert !P.Owes(d)(p.threads[t]);
    }
    assert P.Occurrences(p, j) == 1;
  }

  /** However many workers there are and whatever else they run, when the stage's dispatch is over its
      items have taken the steps of one interleaving, each to its end. */
  lemma DispatchFinishes<V(!new), L(!new)>(items: seq<Item<V, L>>, d: nat, s: Joint<V, L>, events: seq<Event>)
    requires Steady(items) && |items| == |s.stage.locals| && P.Initial(s.pool) && IsRun(items, d, s, events)
    requires Over(End(items, d, s, events).pool, d, |items|)
    ensures Finishes(items, s.stage, Sched(items, d, s, events))
    ensures End(items, d, s, events).stage == Run(items, s.stage, Sched(items, d, s, events))
  {
    var v := End(items, d, s, events);
    PoolHalf(items, d, s, events);
    P.RunInv(s.pool, PoolSteps(events));
    StageHalf(items, d, s, events);
    RunRanIsFinished(items, d, s, events);
    forall i: nat | i < |items| ensures Finished(items, v.stage, i) {
      OverRanAll(v.pool, d, |items|, i);
    }
  }

  /** Two pools, with different numbers of workers and other work besides, leave the same stage. */
  lemma WorkersDoNotMatter<V(!new), L(!new)>(items: seq<Item<V, L>>, st: State<V, L>, p: P.Pool, d: nat, a: seq<Event>,
                                             q: P.Pool, e: nat, b: seq<Event>)
    requires Independent(items) && |items| == |st.locals| && P.Initial(p) && P.Initial(q)
    requires IsRun(items, d, Joint(p, st), a) && Over(End(items, d, Joint(p, st), a).pool, d, |items|)
    requires IsRun(items, e, Joint(q, st), b) && Over(End(items, e, Joint(q, st), b).pool, e, |items|)
    ensures End(items, d, Joint(p, st), a).stage == End(items, e, Joint(q, st), b).stage
  {
    DispatchFinishes(items, d, Joint(p, st), a);
    DispatchFinishes(items, e, Joint(q, st), b);
    CompleteRunsAgree(items, st, Sched(items, d, Joint(p, st), a), Sched(items, e, Joint(q, st), b));
  }

  /** A stage run by the pool is a stage run of the tick. */
  lemma PoolRunsStage<A(!new)>(programs: Programs<A>, regs: seq<Registration>, g: Game, p: P.Pool, d: nat,
                               events: seq<Event>)
    requires var items, st := ItemsOf(programs, regs, g), StartOf(programs, regs, g);
             && Steady(items) && AllocatorApart(items) && P.Initial(p) && IsRun(items, d, Joint(p, st), events)
             && Over(End(items, d, Joint(p, st), events).pool, d, |items|)
    ensures StageRuns(programs, regs, g, Sched(ItemsOf(programs, regs, g), d, Joint(p, StartOf(programs, regs, g)),
                                               events))
  {
    DispatchFinishes(ItemsOf(programs, regs, g), d, Joint(p, StartOf(programs, regs, g)), events);
  }

  // ----- it goes on until then -----

  /** If the pool can move, pool and items together can: a body that may not return yet has an item
      with a step to take. */
  lemma MoveOrWork<V, L>(items: seq<Item<V, L>>, d: nat, s: Joint<V, L>)
    requires |items| == |s.stage.locals| && T.CanMove(s.pool)
    ensures exists e :: Can(items, d, s, e)
  {
    var step :| T.Move(step) && P.Enabled(s.pool, step);
    if step.FinishBody? && RunsSlice(s.pool, d, |items|, step.t)
      && !Finished(items, s.stage, s.pool.threads[step.t].job.idx) {
      assert Can(items, d, s, ItemStep(step.t));
    } else {
      assert Can(items, d, s, PoolStep(step));
    }
  }

  /** As long as bodies do not dispatch, as in the parallel branch, a pending dispatch always lets some
      thread go on. */
  lemma StageGoesOn<V, L>(items: seq<Item<V, L>>, d: nat, s: Joint<V, L>, events: seq<Event>)
    requires |items| == |s.stage.locals| && P.Initial(s.pool) && IsRun(items, d, s, events)
             && T.Flat(s.pool, PoolSteps(events))
    requires exists e: nat :: T.Unreturned(End(items, d, s, events).pool, e)
    ensures exists e :: Can(items, d, End(items, d, s, events), e)
  {
    PoolHalf(items, d, s, events);
    T.FlatNeverStuck(s.pool, PoolSteps(events));
    MoveOrWork(items, d, End(items, d, s, events));
  }
}
