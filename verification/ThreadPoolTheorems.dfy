/** What the pool's step machine promises: dispatches that return have run every slice once and
    left no reference behind, shutdown loses no job, and how much nesting is safe. */
module ThreadPoolTheorems {
  import opened ThreadPool

  // ----- returning -----

  /** A thread or the queue still refers to dispatch d. */
  predicate RefersTo(x: Thread, d: nat) {
    (x.InBody? || x.Ran? || x.Locked?) && x.job.d == d
  }

  /** When a dispatch can return, each of its slices has run exactly once, none is queued, and no
      worker holds anything of it: neither a body, nor the pointer to its counter, nor its mutex. */
  lemma ReturnMeansDone(s: Pool, steps: seq<Step>, t: nat, i: nat)
    requires Initial(s) && IsRun(s, steps) && Enabled(RunEnd(s, steps), Return(t))
    ensures var v := RunEnd(s, steps);
            var d := v.threads[t].control.d;
            && (i < v.dispatches[d].total ==> v.ran[Job(d, i)] == 1)
            && (forall k :: 0 <= k < |v.queue| ==> v.queue[k].d != d)
            && (forall u :: 0 <= u < |v.threads| ==> !RefersTo(v.threads[u], d))
  {
    RunInv(s, steps);
    var v := RunEnd(s, steps);
    var d := v.threads[t].control.d;
    assert v.dispatches[d].count == Outstanding(v, d);
    CountZero(v.queue, OfDispatch(d));
    forall k | 0 <= k < |v.queue| ensures v.queue[k].d != d {
      assert !OfDispatch(d)(v.queue[k]);
    }
    forall u | 0 <= u < |v.threads| ensures !RefersTo(v.threads[u], d) {
      ReturnFree(v, t, u);
    }
    if i < v.dispatches[d].total {
      RanOnce(v, Job(d, i));
    }
  }

  /** A slice that is neither queued nor in a body has run exactly once. */
  lemma RanOnce(s: Pool, j: Job)
    requires Inv(s) && JobMade(s, j)
    requires (forall k :: 0 <= k < |s.queue| ==> s.queue[k] != j)
             && forall t :: 0 <= t < |s.threads| ==> !Runs(j)(s.threads[t])
    ensures s.ran[j] == 1
  {
    CountZero(s.queue, Is(j));
    CountZero(s.threads, Runs(j));
    assert Occurrences(s, j) == 1;
  }

  /** In every reachable state no thread refers to a dispatch that has returned, so nobody touches
      a counter, mutex or body that is gone from its owner's stack. */
  lemma NoStaleReference(s: Pool, steps: seq<Step>, t: nat, d: nat)
    requires Initial(s) && IsRun(s, steps)
    requires var v := RunEnd(s, steps); t < |v.threads| && RefersTo(v.threads[t], d)
    ensures var v := RunEnd(s, steps); d < |v.dispatches| && !v.dispatches[d].returned
  {
    RunInv(s, steps);
    assert Sound(RunEnd(s, steps), t);
  }

  // ----- shutdown -----

  /** After a worker has left, a queued job's dispatch waits inside the body of another. */
  lemma QueuedHasWorker(s: Pool, k: nat)
    requires Inv(s) && k < |s.queue| && exists t :: 0 <= t < |s.threads| && s.threads[t].Exited?
    ensures exists t :: 0 <= t < |s.threads| && s.threads[t].InBody?
  {
    assert FromWorker(s, s.queue[k]);
  }

  /** When all workers have left, nothing is queued and every job ever made has run once. */
  lemma ShutdownDropsNothing(s: Pool, steps: seq<Step>, j: Job)
    requires Initial(s) && IsRun(s, steps)
    requires var v := RunEnd(s, steps);
             && (forall t :: 0 <= t < |v.threads| && IsWorker(v.threads[t]) ==> v.threads[t].Exited?)
             && (exists t :: 0 <= t < |v.threads| && IsWorker(v.threads[t])) && JobMade(v, j)
    ensures var v := RunEnd(s, steps); v.queue == [] && v.ran[j] == 1
  {
    RunInv(s, steps);
    var v := RunEnd(s, steps);
    if v.queue != [] {
      QueuedHasWorker(v, 0);
    }
    RanOnce(v, j);
  }

  // ----- getting stuck -----

  /** A step that the pool takes by itself: no new dispatch, no shutdown request. */
  predicate Move(step: Step) {
    !step.Submit? && !step.Stop?
  }

  ghost predicate CanMove(s: Pool) {
    exists step :: Move(step) && Enabled(s, step)
  }

  predicate Unreturned(s: Pool, d: nat) {
    d < |s.dispatches| && !s.dispatches[d].returned
  }

  /** The worker is waiting, inside a body, for a dispatch of its own. */
  predicate NestedWait(x: Thread) {
    x.InBody? && x.control.Blocked?
  }

  lemma {:induction false} GreatestUnreturned(s: Pool, n: nat) returns (d: nat)
    requires n <= |s.dispatches| && exists e: nat :: e < n && Unreturned(s, e)
    ensures d < n && Unreturned(s, d) && forall e: nat :: d < e < n ==> !Unreturned(s, e)
  {
    if Unreturned(s, n - 1) {
      d := n - 1;
    } else {
      d := GreatestUnreturned(s, n - 1);
    }
  }

  lemma LockedMoves(s: Pool, t: nat)
    requires t < |s.threads| && s.threads[t].Locked?
    ensures CanMove(s)
  {
    assert Enabled(s, Unlock(t)) && Move(Unlock(t));
  }

  lemma StuckThread(s: Pool, t: nat)
    requires Inv(s) && !CanMove(s) && t < |s.threads|
    ensures var x := s.threads[t];
            (x.AtLoop? && s.queue == [] && !s.stop) || x.Exited? || x.External? || NestedWait(x)
  {
    var x := s.threads[t];
    if x.AtLoop? {
      assert !Enabled(s, Take(t)) && !Enabled(s, Exit(t));
    } else if x.InBody? {
      assert !Enabled(s, FinishBody(t));
    } else if x.Ran? {
      assert Sound(s, t) && DispatchSound(s, x.job.d);
      assert !Enabled(s, Lock(t));
      var h :| LockedBy(s, h, x.job.d);
      assert Enabled(s, Unlock(h)) && Move(Unlock(h));
      assert false;
    } else if x.Locked? {
      LockedMoves(s, t);
    }
  }

  /** If nothing can move, the jobs of the newest dispatch are queued and no worker is free. */
  lemma StuckQueue(s: Pool, d: nat)
    requires Inv(s) && !CanMove(s) && Unreturned(s, d) && forall e: nat :: d < e < |s.dispatches| ==> !Unreturned(s, e)
    ensures s.queue != []
  {
    assert DispatchSound(s, d) && s.dispatches[d].count == Outstanding(s, d);
    var t := s.dispatches[d].owner;
    assert !s.dispatches[d].locked by {
      if s.dispatches[d].locked {
        var h :| LockedBy(s, h, d);
        assert Enabled(s, Unlock(h)) && Move(Unlock(h));
        assert false;
      }
    }
    assert s.dispatches[d].count > 0 by {
      assert Move(Return(t));
      assert !Enabled(s, Return(t));
    }
    forall u | 0 <= u < |s.threads| ensures !Owes(d)(s.threads[u]) {
      StuckThread(s, u);
      assert Sound(s, u);
      var x := s.threads[u];
      assert NestedWait(x) ==> Unreturned(s, x.control.d) && x.job.d < x.control.d;
    }
    CountZero(s.threads, Owes(d));
  }

  predicate ReadyToReturn(s: Pool, d: nat) {
    Unreturned(s, d) && s.dispatches[d].count == 0
  }

  /** While a dispatch is pending, the pool is stuck exactly when no pending dispatch has finished
      and every worker has left or waits inside a body for a dispatch of its own. */
  lemma StuckExactly(s: Pool, steps: seq<Step>)
    requires Initial(s) && IsRun(s, steps) && exists d: nat :: Unreturned(RunEnd(s, steps), d)
    ensures var v := RunEnd(s, steps);
            !CanMove(v) <==>
            && (forall t :: 0 <= t < |v.threads| && IsWorker(v.threads[t]) ==>
                v.threads[t].Exited? || NestedWait(v.threads[t]))
            && (forall d: nat :: d < |v.dispatches| ==> !ReadyToReturn(v, d))
  {
    RunInv(s, steps);
    var v := RunEnd(s, steps);
    if CanMove(v) {
      var step :| Move(step) && Enabled(v, step);
      if step.Return? {
        assert Sound(v, step.t);
        assert ReadyToReturn(v, v.threads[step.t].control.d);
      }
    } else {
      var d := GreatestUnreturned(v, |v.dispatches|);
      StuckQueue(v, d);
      forall t | 0 <= t < |v.threads| && IsWorker(v.threads[t])
        ensures v.threads[t].Exited? || NestedWait(v.threads[t])
      {
        StuckThread(v, t);
      }
      forall e: nat | e < |v.dispatches| ensures !ReadyToReturn(v, e) {
        StuckNotReady(v, e);
      }
    }
  }

  lemma StuckNotReady(s: Pool, d: nat)
    requires Inv(s) && !CanMove(s) && d < |s.dispatches|
    ensures !ReadyToReturn(s, d)
  {
    if ReadyToReturn(s, d) {
      assert DispatchSound(s, d);
      var t := s.dispatches[d].owner;
      if s.dispatches[d].locked {
        var h :| LockedBy(s, h, d);
        assert Enabled(s, Unlock(h)) && Move(Unlock(h));
      } else {
        assert Enabled(s, Return(t)) && Move(Return(t));
      }
      assert false;
    }
  }

  // ----- runs that never get stuck -----

  /** The worker is neither gone nor waiting inside a body. */
  predicate Free(x: Thread) {
    IsWorker(x) && !x.Exited? && !NestedWait(x)
  }

  ghost predicate SomeFree(s: Pool) {
    exists u :: 0 <= u < |s.threads| && Free(s.threads[u])
  }

  ghost predicate SomeExited(s: Pool) {
    exists u :: 0 <= u < |s.threads| && s.threads[u].Exited?
  }

  /** Whoever dispatches from inside a body leaves another worker free. */
  ghost predicate LeavesFree(s: Pool, step: Step) {
    step.Submit? && step.t < |s.threads| && s.threads[step.t].InBody? ==>
      exists u :: 0 <= u < |s.threads| && u != step.t && Free(s.threads[u])
  }

  ghost predicate Spared(s: Pool, steps: seq<Step>) {
    forall k :: 0 <= k < |steps| ==> LeavesFree(RunEnd(s, steps[..k]), steps[k])
  }

  /** As long as something is queued a worker is free to take it. */
  ghost predicate Served(s: Pool) {
    s.dispatches == [] || SomeFree(s) || (s.queue == [] && SomeExited(s))
  }

  lemma NotExited(s: Pool)
    requires Inv(s) && !s.stop
    ensures !SomeExited(s)
  {
  }

  /** A thread outside the pool that dispatches finds a free worker. */
  lemma FreeForExternal(s: Pool, t: nat, n: nat)
    requires Inv(s) && Served(s) && Enabled(s, Submit(t, n)) && s.threads[t].External?
    ensures exists u :: 0 <= u < |s.threads| && u != t && Free(s.threads[u])
  {
    NotExited(s);
    if s.dispatches == [] {
      CountZero(s.threads, AWorker());
      var u :| 0 <= u < |s.threads| && AWorker()(s.threads[u]);
      assert Sound(s, u);
    }
  }

  lemma ServedStep(s: Pool, step: Step)
    requires Inv(s) && Served(s) && Enabled(s, step) && LeavesFree(s, step)
    ensures Served(After(s, step))
  {
    var v := After(s, step);
    match step
    case Submit(t, n) =>
      if s.threads[t].External? {
        FreeForExternal(s, t, n);
      }
      var u :| 0 <= u < |s.threads| && u != t && Free(s.threads[u]);
      assert Free(v.threads[u]);
    case Exit(t) =>
      assert v.threads[t].Exited?;
    case Return(t) =>
      ServedReturn(s, t);
    case Stop =>
      assert v.threads == s.threads;
    case _ =>
      assert Free(v.threads[step.t]);
  }

  lemma ServedReturn(s: Pool, t: nat)
    requires Inv(s) && Served(s) && Enabled(s, Return(t))
    ensures Served(After(s, Return(t)))
  {
    var v := After(s, Return(t));
    if s.threads[t].InBody? {
      assert Free(v.threads[t]);
    } else if SomeFree(s) {
      var u :| 0 <= u < |s.threads| && Free(s.threads[u]);
      assert Free(v.threads[u]);
    } else {
      var u :| 0 <= u < |s.threads| && s.threads[u].Exited?;
      assert v.threads[u].Exited?;
    }
  }

  lemma {:induction false} RunServed(s: Pool, steps: seq<Step>)
    requires Initial(s) && IsRun(s, steps) && Spared(s, steps)
    ensures Served(RunEnd(s, steps))
  {
    if steps != [] {
      var front := steps[..|steps| - 1];
      forall k | 0 <= k < |front| ensures LeavesFree(RunEnd(s, front[..k]), front[k]) {
        assert front[..k] == steps[..k];
      }
      RunServed(s, front);
      RunInv(s, front);
      ServedStep(RunEnd(s, front), steps[|steps| - 1]);
    }
  }

  /** If every dispatch from inside a body is made while another worker is neither gone nor waiting
      in a nested dispatch, the pool is never stuck while anything is pending, even during shutdown. */
  lemma SparedNeverStuck(s: Pool, steps: seq<Step>)
    requires Initial(s) && IsRun(s, steps) && Spared(s, steps) && exists d: nat :: Unreturned(RunEnd(s, steps), d)
    ensures CanMove(RunEnd(s, steps))
  {
    var v := RunEnd(s, steps);
    RunInv(s, steps);
    RunServed(s, steps);
    if !CanMove(v) {
      StuckExactly(s, steps);
      var d := GreatestUnreturned(v, |v.dispatches|);
      StuckQueue(v, d);
    }
  }

  /** No body dispatches. */
  ghost predicate Flat(s: Pool, steps: seq<Step>) {
    forall k :: 0 <= k < |steps| ==> FromOutside(RunEnd(s, steps[..k]), steps[k])
  }

  predicate FromOutside(s: Pool, step: Step) {
    step.Submit? ==> step.t < |s.threads| && s.threads[step.t].External?
  }

  /** As long as bodies do not dispatch, the pool is never stuck while anything is pending. */
  lemma FlatNeverStuck(s: Pool, steps: seq<Step>)
    requires Initial(s) && IsRun(s, steps) && Flat(s, steps) && exists d: nat :: Unreturned(RunEnd(s, steps), d)
    ensures CanMove(RunEnd(s, steps))
  {
    forall k | 0 <= k < |steps| ensures LeavesFree(RunEnd(s, steps[..k]), steps[k]) {
      assert FromOutside(RunEnd(s, steps[..k]), steps[k]);
    }
    SparedNeverStuck(s, steps);
  }

  // ----- moves run out -----

  function Work(x: Thread): nat {
    match x
    case InBody(_, _) => 4
    case Ran(_) => 3
    case Locked(_) => 2
    case AtLoop => 1
    case _ => 0
  }

  function TotalWork(threads: seq<Thread>): nat {
    if threads == [] then 0 else TotalWork(threads[..|threads| - 1]) + Work(threads[|threads| - 1])
  }

  lemma {:induction false} WorkUpdate(threads: seq<Thread>, t: nat, x: Thread)
    requires t < |threads|
    ensures TotalWork(threads[t := x]) + Work(threads[t]) == TotalWork(threads) + Work(x)
  {
    var n := |threads| - 1;
    if t < n {
      WorkUpdate(threads[..n], t, x);
      assert threads[t := x][..n] == threads[..n][t := x];
    } else {
      assert threads[t := x][..n] == threads[..n];
    }
  }

  function IsOpen(): Dispatch -> bool {
    (x: Dispatch) => !x.returned
  }

  /** What is left to do without further dispatches. */
  function Remaining(s: Pool): nat {
    5 * |s.queue| + TotalWork(s.threads) + Count(s.dispatches, IsOpen())
  }

  /** Locking and unlocking open or close no dispatch. */
  lemma MutexKeepsOpen(s: Pool, step: Step)
    requires Inv(s) && (step.Lock? || step.Unlock?) && Enabled(s, step)
    ensures Count(After(s, step).dispatches, IsOpen()) == Count(s.dispatches, IsOpen())
  {
    assert Sound(s, step.t);
    var d := s.threads[step.t].job.d;
    CountUpdate(s.dispatches, d, After(s, step).dispatches[d], IsOpen());
  }

  lemma ReturnCloses(s: Pool, t: nat)
    requires Inv(s) && Enabled(s, Return(t))
    ensures Count(After(s, Return(t)).dispatches, IsOpen()) == Count(s.dispatches, IsOpen()) - 1
  {
    assert Sound(s, t);
    var d := s.threads[t].control.d;
    CountUpdate(s.dispatches, d, After(s, Return(t)).dispatches[d], IsOpen());
  }

  /** Every move but a return uses up work. */
  lemma MoveWorks(s: Pool, step: Step)
    requires Move(step) && Enabled(s, step)
    ensures 5 * |After(s, step).queue| + TotalWork(After(s, step).threads) + (if step.Return? then 0 else 1) <=
            5 * |s.queue| + TotalWork(s.threads)
  {
    WorkUpdate(s.threads, step.t, After(s, step).threads[step.t]);
  }

  lemma MoveDecreases(s: Pool, step: Step)
    requires Inv(s) && Move(step) && Enabled(s, step)
    ensures Remaining(After(s, step)) < Remaining(s)
  {
    MoveWorks(s, step);
    if step.Lock? || step.Unlock? {
      MutexKeepsOpen(s, step);
    } else if step.Return? {
      ReturnCloses(s, step.t);
    }
  }

  lemma OneMoveLess(s: Pool, front: seq<Step>, step: Step)
    requires Initial(s) && IsRun(s, front + [step]) && Move(step)
    ensures IsRun(s, front) && Remaining(RunEnd(s, front + [step])) < Remaining(RunEnd(s, front))
  {
    assert (front + [step])[..|front|] == front;
    RunInv(s, front);
    MoveDecreases(RunEnd(s, front), step);
  }

  /** From a reachable state the pool takes only so many steps by itself; with FlatNeverStuck, a
      run without nesting that keeps moving ends with every dispatch returned. */
  lemma {:induction false} MovesBounded(s: Pool, steps: seq<Step>, more: seq<Step>)
    requires Initial(s) && IsRun(s, steps + more) && forall k :: 0 <= k < |more| ==> Move(more[k])
    ensures IsRun(s, steps) && Remaining(RunEnd(s, steps + more)) + |more| <= Remaining(RunEnd(s, steps))
  {
    if more == [] {
      assert steps + more == steps;
    } else {
      var front, last := more[..|more| - 1], more[|more| - 1];
      assert steps + more == (steps + front) + [last];
      OneMoveLess(s, steps + front, last);
      MovesBounded(s, steps, front);
    }
  }

  // ----- how many nested waits are safe -----

  function Waiting(): Thread -> bool {
    (x: Thread) => NestedWait(x)
  }

  /** How many workers wait inside a body at once. */
  function Waits(s: Pool): nat {
    Count(s.threads, Waiting())
  }

  predicate NoStop(steps: seq<Step>) {
    forall k :: 0 <= k < |steps| ==> !steps[k].Stop?
  }

  /** Never more than k workers wait in nested dispatches at once. */
  ghost predicate WaitsBounded(s: Pool, steps: seq<Step>, k: nat) {
    forall i :: 0 <= i <= |steps| ==> Waits(RunEnd(s, steps[..i])) <= k
  }

  ghost predicate Pending(s: Pool) {
    exists d: nat :: Unreturned(s, d)
  }

  /** A run of a pool of w workers, before shutdown, with at most k nested waits at once. */
  ghost predicate BoundedRun(s: Pool, steps: seq<Step>, w: nat, k: nat) {
    Initial(s) && Workers(s) == w && IsRun(s, steps) && NoStop(steps) && WaitsBounded(s, steps, k)
  }

  /** No such run is ever stuck with a dispatch pending. */
  ghost predicate SafeBound(w: nat, k: nat) {
    forall s, steps :: BoundedRun(s, steps, w, k) && Pending(RunEnd(s, steps)) ==> CanMove(RunEnd(s, steps))
  }

  lemma {:induction false} CountLe<T>(s: seq<T>, p: T -> bool, q: T -> bool)
    requires forall i :: 0 <= i < |s| && p(s[i]) ==> q(s[i])
    ensures Count(s, p) <= Count(s, q)
  {
    if s != [] {
      CountLe(s[..|s| - 1], p, q);
    }
  }

  lemma {:induction false} RunWorkers(s: Pool, steps: seq<Step>)
    requires Initial(s) && IsRun(s, steps)
    ensures Workers(RunEnd(s, steps)) == Workers(s)
    ensures NoStop(steps) ==> !RunEnd(s, steps).stop
  {
    if steps != [] {
      var front, step := steps[..|steps| - 1], steps[|steps| - 1];
      RunWorkers(s, front);
      var u, v := RunEnd(s, front), RunEnd(s, steps);
      if !step.Stop? {
        CountUpdate(u.threads, step.t, v.threads[step.t], AWorker());
      }
    }
  }

  lemma BoundIsSafe(s: Pool, steps: seq<Step>, w: nat, k: nat)
    requires BoundedRun(s, steps, w, k) && k < w && Pending(RunEnd(s, steps))
    ensures CanMove(RunEnd(s, steps))
  {
    var v := RunEnd(s, steps);
    RunInv(s, steps);
    RunWorkers(s, steps);
    NotExited(v);
    assert steps[..|steps|] == steps;
    assert Waits(v) <= k;
    if !CanMove(v) {
      StuckExactly(s, steps);
      CountLe(v.threads, AWorker(), Waiting());
    }
  }

  // The stuck run: w slices, every worker in one of them, each dispatching two slices more.

  function Start(w: nat): Pool {
    Pool([], false, [External(Code)] + seq(w, _ => AtLoop), [], multiset{})
  }

  /** m workers have taken a slice. */
  function Busy(w: nat, m: nat): Pool
    requires m <= w
  {
    Pool(Slices(0, w)[..w - m], false,
         [External(Blocked(0))] + seq(w, i requires 0 <= i < w => if i < m
                                      then InBody(Job(0, w - 1 - i), Code) else AtLoop),
         [Dispatch(0, w, w, false, false)], multiset{})
  }

  function Inner(m: nat): seq<Job> {
    if m == 0 then [] else Inner(m - 1) + Slices(m, 2)
  }

  /** m of them have dispatched again. */
  function Nesting(w: nat, m: nat): Pool
    requires m <= w
  {
    Pool(Inner(m), false,
         [External(Blocked(0))] +
           seq(w, i requires 0 <= i < w => InBody(Job(0, w - 1 - i), if i < m then Blocked(i + 1) else Code)),
         [Dispatch(0, w, w, false, false)] + seq(m, i requires 0 <= i < m => Dispatch(i + 1, 2, 2, false, false)),
           multiset{})
  }

  lemma {:induction false} CountAll<T>(s: seq<T>, p: T -> bool)
    requires forall i :: 0 <= i < |s| ==> p(s[i])
    ensures Count(s, p) == |s|
  {
    if s != [] {
      CountAll(s[..|s| - 1], p);
    }
  }

  /** One thread outside and w workers. */
  lemma CrewOf(s: Pool, w: nat)
    requires |s.threads| == w + 1 && s.threads[0].External? && forall t :: 1 <= t <= w ==> IsWorker(s.threads[t])
    ensures Workers(s) == w
  {
    var rest := s.threads[1..];
    assert s.threads == [s.threads[0]] + rest;
    CountConcat([s.threads[0]], rest, AWorker());
    CountSnoc([], s.threads[0], AWorker());
    assert [] + [s.threads[0]] == [s.threads[0]];
    CountAll(rest, AWorker());
  }

  lemma RunSnoc(s: Pool, steps: seq<Step>, step: Step)
    requires IsRun(s, steps) && Enabled(RunEnd(s, steps), step)
    ensures IsRun(s, steps + [step]) && RunEnd(s, steps + [step]) == After(RunEnd(s, steps), step)
  {
    assert (steps + [step])[..|steps|] == steps;
  }

  /** The steps lead from s to v, without a shutdown. */
  ghost predicate Leads(s: Pool, steps: seq<Step>, v: Pool) {
    IsRun(s, steps) && RunEnd(s, steps) == v && NoStop(steps)
  }

  ghost predicate StepsTo(u: Pool, step: Step, v: Pool) {
    Enabled(u, step) && After(u, step) == v && !step.Stop?
  }

  lemma OneMore(s: Pool, before: seq<Step>, u: Pool, step: Step, v: Pool) returns (steps: seq<Step>)
    requires Leads(s, before, u) && StepsTo(u, step, v)
    ensures Leads(s, steps, v)
  {
    steps := before + [step];
    RunSnoc(s, before, step);
  }

  lemma SamePool(a: Pool, b: Pool)
    requires a.queue == b.queue && a.stop == b.stop && a.threads == b.threads && a.dispatches == b.dispatches
             && a.ran == b.ran
    ensures a == b
  {
  }

  lemma FirstSubmit(w: nat)
    requires w >= 2
    ensures StepsTo(Start(w), Submit(0, w), Busy(w, 0))
  {
    CrewOf(Start(w), w);
    var v := After(Start(w), Submit(0, w));
    assert Slices(0, w)[..w] == Slices(0, w);
    assert v.threads == Busy(w, 0).threads;
    SamePool(v, Busy(w, 0));
  }

  lemma NextTake(w: nat, m: nat)
    requires m < w
    ensures StepsTo(Busy(w, m), Take(m + 1), Busy(w, m + 1))
  {
    var u := Busy(w, m);
    var v := After(u, Take(m + 1));
    assert u.queue[w - m - 1] == Job(0, w - m - 1);
    assert v.queue == Busy(w, m + 1).queue;
    assert v.threads == Busy(w, m + 1).threads;
    SamePool(v, Busy(w, m + 1));
  }

  lemma AllBusy(w: nat)
    ensures Busy(w, w) == Nesting(w, 0)
  {
    assert Busy(w, w).threads == Nesting(w, 0).threads;
    SamePool(Busy(w, w), Nesting(w, 0));
  }

  lemma NextNesting(w: nat, m: nat)
    requires m < w && w >= 2
    ensures StepsTo(Nesting(w, m), Submit(m + 1, 2), Nesting(w, m + 1))
  {
    CrewOf(Nesting(w, m), w);
    var v := After(Nesting(w, m), Submit(m + 1, 2));
    assert v.threads == Nesting(w, m + 1).threads;
    assert v.dispatches == Nesting(w, m + 1).dispatches;
    SamePool(v, Nesting(w, m + 1));
  }

  lemma {:induction false} ReachBusy(w: nat, m: nat) returns (steps: seq<Step>)
    requires w >= 2 && m <= w
    ensures Leads(Start(w), steps, Busy(w, m))
  {
    if m == 0 {
      FirstSubmit(w);
      steps := OneMore(Start(w), [], Start(w), Submit(0, w), Busy(w, 0));
    } else {
      var before := ReachBusy(w, m - 1);
      NextTake(w, m - 1);
      steps := OneMore(Start(w), before, Busy(w, m - 1), Take(m), Busy(w, m));
    }
  }

  lemma NestOneMore(w: nat, m: nat, n: nat, before: seq<Step>) returns (steps: seq<Step>)
    requires w >= 2 && n == m + 1 <= w && Leads(Start(w), before, Nesting(w, m))
    ensures Leads(Start(w), steps, Nesting(w, n))
  {
    NextNesting(w, m);
    steps := OneMore(Start(w), before, Nesting(w, m), Submit(n, 2), Nesting(w, n));
  }

  lemma {:induction false} ReachNesting(w: nat, m: nat) returns (steps: seq<Step>)
    requires w >= 2 && m <= w
    ensures Leads(Start(w), steps, Nesting(w, m))
  {
    if m == 0 {
      AllBusy(w);
      steps := ReachBusy(w, w);
    } else {
      var before := ReachNesting(w, m - 1);
      steps := NestOneMore(w, m - 1, m, before);
    }
  }

  lemma AllNested(w: nat)
    requires w >= 2
    ensures var v := Nesting(w, w);
            && (forall t :: 0 <= t < |v.threads| && IsWorker(v.threads[t]) ==> NestedWait(v.threads[t]))
            && (forall d: nat :: d < |v.dispatches| ==> !ReadyToReturn(v, d)) && Unreturned(v, 0)
  {
  }

  /** For every w >= 2, w bodies that all dispatch again leave a pool of w workers stuck, with the
      inner slices queued and not one slice run. */
  lemma NestingWorkersStuck(w: nat) returns (steps: seq<Step>)
    requires w >= 2
    ensures Initial(Start(w)) && Workers(Start(w)) == w && IsRun(Start(w), steps) && NoStop(steps)
    ensures var v := RunEnd(Start(w), steps); Pending(v) && v.ran == multiset{} && |v.queue| == 2 * w && !CanMove(v)
  {
    steps := ReachNesting(w, w);
    CrewOf(Start(w), w);
    AllNested(w);
    StuckExactly(Start(w), steps);
    InnerLength(w);
  }

  lemma {:induction false} InnerLength(m: nat)
    ensures |Inner(m)| == 2 * m
  {
    if m > 0 {
      InnerLength(m - 1);
    }
  }

  lemma WorkersWait(s: Pool, steps: seq<Step>, w: nat, k: nat)
    requires Initial(s) && Workers(s) == w && IsRun(s, steps) && w <= k
    ensures WaitsBounded(s, steps, k)
  {
    forall i | 0 <= i <= |steps| ensures Waits(RunEnd(s, steps[..i])) <= k {
      RunPrefix(s, steps, i);
      RunWorkers(s, steps[..i]);
      CountLe(RunEnd(s, steps[..i]).threads, Waiting(), AWorker());
    }
  }

  lemma {:induction false} RunPrefix(s: Pool, steps: seq<Step>, i: nat)
    requires IsRun(s, steps) && i <= |steps|
    ensures IsRun(s, steps[..i])
  {
    if i < |steps| {
      RunPrefix(s, steps[..|steps| - 1], i);
      assert steps[..|steps| - 1][..i] == steps[..i];
    } else {
      assert steps[..i] == steps;
    }
  }

  /** On a pool of w workers, k nested waits at once are safe if and only if k < w: bodies may
      dispatch, as long as never all workers do so at once. */
  lemma SafeNestingExactly(w: nat, k: nat)
    requires w >= 2
    ensures SafeBound(w, k) <==> k < w
  {
    if k < w {
      forall s, steps | BoundedRun(s, steps, w, k) && Pending(RunEnd(s, steps)) ensures CanMove(RunEnd(s, steps)) {
        BoundIsSafe(s, steps, w, k);
      }
    } else {
      var steps := NestingWorkersStuck(w);
      WorkersWait(Start(w), steps, w, k);
      assert BoundedRun(Start(w), steps, w, k);
    }
  }
}
