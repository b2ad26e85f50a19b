/** The worker pool as a step machine.  Every step is one critical section (or the end of a job
    body) of one thread; a run is any interleaving of such steps by any number of workers and of
    other threads, with dispatches that overlap and nest in any way. */
module ThreadPool {

  /** Slice idx of the d-th dispatch ever made. */
  datatype Job = Job(d: nat, idx: nat)

  datatype Control = Code | Blocked(d: nat)

  /** External: a thread that uses the pool.  The others are workers: at the top of their loop,
      gone, inside a job's body, past the body, or inside the critical section that has just
      decremented the dispatch's counter. */
  datatype Thread =
    | External(control: Control)
    | AtLoop
    | Exited
    | InBody(job: Job, control: Control)
    | Ran(job: Job)
    | Locked(job: Job)

  /** A DoneState on its owner's stack; it is gone once the dispatch has returned. */
  datatype Dispatch = Dispatch(owner: nat, total: nat, count: nat, locked: bool, returned: bool)

  datatype Pool = Pool(queue: seq<Job>, stop: bool, threads: seq<Thread>, dispatches: seq<Dispatch>, ran: multiset<Job>)

  datatype Step =
    | Submit(t: nat, n: nat)
    | Take(t: nat)
    | Exit(t: nat)
    | FinishBody(t: nat)
    | Lock(t: nat)
    | Unlock(t: nat)
    | Return(t: nat)
    | Stop

  predicate InCode(x: Thread) {
    (x.External? || x.InBody?) && x.control.Code?
  }

  predicate BlockedOn(x: Thread, d: nat) {
    (x.External? || x.InBody?) && x.control == Blocked(d)
  }

  function Slices(d: nat, n: nat): (js: seq<Job>)
    ensures |js| == n
  {
    seq(n, i requires 0 <= i < n => Job(d, i))
  }

  predicate IsWorker(x: Thread) {
    !x.External?
  }

  function AWorker(): Thread -> bool {
    (x: Thread) => IsWorker(x)
  }

  function Workers(s: Pool): nat {
    Count(s.threads, AWorker())
  }

  /** A dispatch of one slice, or on a pool of one worker, runs in the caller and is no step of the
      pool.  Only a thread that has begun a dispatch before shutdown, or a body, may dispatch after it. */
  predicate Enabled(s: Pool, step: Step) {
    match step
    case Submit(t, n) => t < |s.threads| && InCode(s.threads[t]) && n >= 2 && Workers(s) >= 2
      && (s.stop ==> s.threads[t].InBody?)
    case Take(t) => t < |s.threads| && s.threads[t].AtLoop? && s.queue != []
    case Exit(t) => t < |s.threads| && s.threads[t].AtLoop? && s.stop && s.queue == []
    case FinishBody(t) => t < |s.threads| && s.threads[t].InBody? && s.threads[t].control.Code?
    case Lock(t) =>
      t < |s.threads| && s.threads[t].Ran? && s.threads[t].job.d < |s.dispatches|
        && !s.dispatches[s.threads[t].job.d].locked
    case Unlock(t) => t < |s.threads| && s.threads[t].Locked?
    case Return(t) =>
      && t < |s.threads| && (s.threads[t].External? || s.threads[t].InBody?) && s.threads[t].control.Blocked?
      && var d := s.threads[t].control.d;
         d < |s.dispatches| && !s.dispatches[d].locked && s.dispatches[d].count == 0
    case Stop => true
  }

  function Decrement(x: Dispatch): Dispatch {
    x.(count := if x.count > 0 then x.count - 1 else 0, locked := true)
  }

  function After(s: Pool, step: Step): Pool
    requires Enabled(s, step)
  {
    match step
    case Submit(t, n) =>
      var d := |s.dispatches|;
      s.(queue := s.queue + Slices(d, n),
         dispatches := s.dispatches + [Dispatch(t, n, n, false, false)],
         threads := s.threads[t := s.threads[t].(control := Blocked(d))])
    case Take(t) =>
      var last := |s.queue| - 1;
      s.(queue := s.queue[..last], threads := s.threads[t := InBody(s.queue[last], Code)])
    case Exit(t) => s.(threads := s.threads[t := Exited])
    case FinishBody(t) =>
      s.(threads := s.threads[t := Ran(s.threads[t].job)], ran := s.ran + multiset{s.threads[t].job})
    case Lock(t) =>
      var j := s.threads[t].job;
      s.(threads := s.threads[t := Locked(j)], dispatches := s.dispatches[j.d := Decrement(s.dispatches[j.d])])
    case Unlock(t) =>
      var j := s.threads[t].job;
      s.(threads := s.threads[t := AtLoop],
         dispatches := if j.d < |s.dispatches|
           then s.dispatches[j.d := s.dispatches[j.d].(locked := false)] else s.dispatches)
    case Return(t) =>
      var d := s.threads[t].control.d;
      s.(threads := s.threads[t := s.threads[t].(control := Code)],
         dispatches := s.dispatches[d := s.dispatches[d].(returned := true)])
    case Stop => s.(stop := true)
  }

  /** Before the first step: workers at their loop, other threads running their own code. */
  predicate Initial(s: Pool) {
    && s.queue == [] && !s.stop && s.dispatches == [] && s.ran == multiset{}
    && forall t :: 0 <= t < |s.threads| ==> s.threads[t] == AtLoop || s.threads[t] == External(Code)
  }

  predicate IsRun(s: Pool, steps: seq<Step>) {
    steps == [] || (IsRun(s, steps[..|steps| - 1]) && Enabled(RunEnd(s, steps[..|steps| - 1]), steps[|steps| - 1]))
  }

  function RunEnd(s: Pool, steps: seq<Step>): Pool {
    if steps == [] then s
    else
      var before := RunEnd(s, steps[..|steps| - 1]);
      if Enabled(before, steps[|steps| - 1]) then After(before, steps[|steps| - 1]) else before
  }

  // ----- counting -----

  function Count<T>(s: seq<T>, p: T -> bool): nat {
    if s == [] then 0 else Count(s[..|s| - 1], p) + if p(s[|s| - 1]) then 1 else 0
  }

  lemma CountSnoc<T>(s: seq<T>, x: T, p: T -> bool)
    ensures Count(s + [x], p) == Count(s, p) + if p(x) then 1 else 0
  {
    assert (s + [x])[..|s|] == s;
  }

  lemma {:induction false} CountConcat<T>(a: seq<T>, b: seq<T>, p: T -> bool)
    ensures Count(a + b, p) == Count(a, p) + Count(b, p)
  {
    if b == [] {
      assert a + b == a;
    } else {
      var front, x := b[..|b| - 1], b[|b| - 1];
      CountConcat(a, front, p);
      CountSnoc(front, x, p);
      CountSnoc(a + front, x, p);
      assert b == front + [x] && a + b == a + front + [x];
    }
  }

  lemma {:induction false} CountUpdate<T>(s: seq<T>, i: nat, x: T, p: T -> bool)
    requires i < |s|
    ensures Count(s[i := x], p) + (if p(s[i]) then 1 else 0) == Count(s, p) + if p(x) then 1 else 0
  {
    var n := |s| - 1;
    if i < n {
      CountUpdate(s[..n], i, x, p);
      assert s[i := x][..n] == s[..n][i := x];
    } else {
      assert s[i := x][..n] == s[..n];
    }
  }

  lemma {:induction false} CountZero<T>(s: seq<T>, p: T -> bool)
    ensures Count(s, p) == 0 <==> forall i :: 0 <= i < |s| ==> !p(s[i])
  {
    if s != [] {
      CountZero(s[..|s| - 1], p);
      if Count(s, p) == 0 {
        forall i | 0 <= i < |s| ensures !p(s[i]) {
          assert i < |s| - 1 ==> s[i] == s[..|s| - 1][i];
        }
      }
    }
  }

  // ----- what is counted -----

  function OfDispatch(d: nat): Job -> bool {
    (j: Job) => j.d == d
  }

  /** The thread holds a job of d that it has not accounted for yet. */
  function Owes(d: nat): Thread -> bool {
    (x: Thread) => (x.InBody? || x.Ran?) && x.job.d == d
  }

  function Is(j: Job): Job -> bool {
    (k: Job) => k == j
  }

  function Runs(j: Job): Thread -> bool {
    (x: Thread) => x.InBody? && x.job == j
  }

  /** Queued plus in-flight jobs of a dispatch. */
  function Outstanding(s: Pool, d: nat): nat {
    Count(s.queue, OfDispatch(d)) + Count(s.threads, Owes(d))
  }

  /** How often the job has run, runs, or waits to run. */
  function Occurrences(s: Pool, j: Job): nat {
    Count(s.queue, Is(j)) + Count(s.threads, Runs(j)) + s.ran[j]
  }

  predicate JobMade(s: Pool, j: Job) {
    j.d < |s.dispatches| && j.idx < s.dispatches[j.d].total
  }

  // ----- the invariant -----

  ghost predicate CountersExact(s: Pool) {
    forall d: nat :: d < |s.dispatches| ==> s.dispatches[d].count == Outstanding(s, d)
  }

  ghost predicate ExactlyOnce(s: Pool) {
    forall j :: Occurrences(s, j) == if JobMade(s, j) then 1 else 0
  }

  /** What a thread refers to exists and has not returned. */
  ghost predicate Sound(s: Pool, t: nat)
    requires t < |s.threads|
  {
    match s.threads[t]
    case External(c) => ControlSound(s, t, c)
    case InBody(j, c) => JobMade(s, j) && !s.dispatches[j.d].returned && ControlSound(s, t, c)
      && (c.Blocked? ==> j.d < c.d)
    case Ran(j) => JobMade(s, j) && !s.dispatches[j.d].returned
    case Locked(j) => JobMade(s, j) && !s.dispatches[j.d].returned && s.dispatches[j.d].locked
    case _ => true
  }

  ghost predicate ControlSound(s: Pool, t: nat, c: Control) {
    c.Blocked? ==> c.d < |s.dispatches| && s.dispatches[c.d].owner == t && !s.dispatches[c.d].returned
  }

  /** A held mutex has exactly one holder, and until a dispatch returns its owner waits for it. */
  ghost predicate DispatchSound(s: Pool, d: nat)
    requires d < |s.dispatches|
  {
    var x := s.dispatches[d];
    && (x.locked ==> exists t :: LockedBy(s, t, d))
    && (forall t, u :: LockedBy(s, t, d) && LockedBy(s, u, d) ==> t == u)
    && (!x.returned ==> x.owner < |s.threads| && BlockedOn(s.threads[x.owner], d))
    && (x.returned ==> x.count == 0 && !x.locked)
  }

  predicate LockedBy(s: Pool, t: nat, d: nat) {
    t < |s.threads| && s.threads[t].Locked? && s.threads[t].job.d == d
  }

  /** Once a worker has left, whatever is queued was queued by a worker. */
  ghost predicate NothingDropped(s: Pool) {
    (exists t :: 0 <= t < |s.threads| && s.threads[t].Exited?) ==>
      s.stop && forall k :: 0 <= k < |s.queue| ==> FromWorker(s, s.queue[k])
  }

  predicate FromWorker(s: Pool, j: Job) {
    && j.d < |s.dispatches| && s.dispatches[j.d].owner < |s.threads| && s.threads[s.dispatches[j.d].owner].InBody?
  }

  ghost predicate Inv(s: Pool) {
    && CountersExact(s) && ExactlyOnce(s)
    && (forall t: nat :: t < |s.threads| ==> Sound(s, t))
    && (forall d: nat :: d < |s.dispatches| ==> DispatchSound(s, d))
    && NothingDropped(s)
  }

  lemma InitialInv(s: Pool)
    requires Initial(s)
    ensures Inv(s)
  {
    forall j ensures Occurrences(s, j) == 0 {
      CountZero(s.threads, Runs(j));
    }
  }

  // ----- every step keeps it -----

  lemma {:induction false} SlicesOf(d: nat, n: nat, e: nat)
    ensures Count(Slices(d, n), OfDispatch(e)) == if e == d then n else 0
  {
    if n > 0 {
      SlicesOf(d, n - 1, e);
      assert Slices(d, n)[..n - 1] == Slices(d, n - 1);
    }
  }

  lemma {:induction false} SlicesOnce(d: nat, n: nat, j: Job)
    ensures Count(Slices(d, n), Is(j)) == if j.d == d && j.idx < n then 1 else 0
  {
    if n > 0 {
      SlicesOnce(d, n - 1, j);
      assert Slices(d, n)[..n - 1] == Slices(d, n - 1);
    }
  }

  /** No job names a dispatch that does not exist yet. */
  lemma NoneOutstanding(s: Pool, d: nat)
    requires Inv(s) && d >= |s.dispatches|
    ensures Outstanding(s, d) == 0
  {
    forall k | 0 <= k < |s.queue| ensures !OfDispatch(d)(s.queue[k]) {
      QueuedMade(s, k);
    }
    CountZero(s.queue, OfDispatch(d));
    forall t | 0 <= t < |s.threads| ensures !Owes(d)(s.threads[t]) {
      assert Sound(s, t);
    }
    CountZero(s.threads, Owes(d));
  }

  /** A queued job belongs to a dispatch that has not returned. */
  lemma QueuedMade(s: Pool, k: nat)
    requires Inv(s) && k < |s.queue|
    ensures JobMade(s, s.queue[k]) && !s.dispatches[s.queue[k].d].returned
  {
    var j := s.queue[k];
    CountZero(s.queue, Is(j));
    assert Is(j)(j);
    assert Occurrences(s, j) > 0;
    CountZero(s.queue, OfDispatch(j.d));
    assert OfDispatch(j.d)(j);
    assert s.dispatches[j.d].count == Outstanding(s, j.d) && DispatchSound(s, j.d);
  }

  lemma SubmitCounters(s: Pool, t: nat, n: nat, d: nat)
    requires Inv(s) && Enabled(s, Submit(t, n)) && d <= |s.dispatches|
    ensures var v := After(s, Submit(t, n)); v.dispatches[d].count == Outstanding(v, d)
  {
    var v := After(s, Submit(t, n));
    CountConcat(s.queue, Slices(|s.dispatches|, n), OfDispatch(d));
    SlicesOf(|s.dispatches|, n, d);
    CountUpdate(s.threads, t, v.threads[t], Owes(d));
    NoneOutstanding(s, |s.dispatches|);
    assert d < |s.dispatches| ==> s.dispatches[d].count == Outstanding(s, d);
  }

  lemma LockCounters(s: Pool, t: nat, d: nat)
    requires Inv(s) && Enabled(s, Lock(t)) && d < |s.dispatches|
    ensures var v := After(s, Lock(t)); v.dispatches[d].count == Outstanding(v, d)
  {
    var v := After(s, Lock(t));
    CountUpdate(s.threads, t, v.threads[t], Owes(d));
    CountZero(s.threads, Owes(d));
    assert d == s.threads[t].job.d ==> Owes(d)(s.threads[t]);
    assert s.dispatches[d].count == Outstanding(s, d);
  }

  lemma OtherCounters(s: Pool, step: Step, d: nat)
    requires Inv(s) && Enabled(s, step) && !step.Submit? && !step.Lock? && d < |s.dispatches|
    ensures After(s, step).dispatches[d].count == Outstanding(After(s, step), d)
  {
    assert s.dispatches[d].count == Outstanding(s, d);
    if !step.Stop? {
      CountUpdate(s.threads, step.t, After(s, step).threads[step.t], Owes(d));
    }
  }

  lemma CountersStep(s: Pool, step: Step)
    requires Inv(s) && Enabled(s, step)
    ensures CountersExact(After(s, step))
  {
    var v := After(s, step);
    forall d: nat | d < |v.dispatches| ensures v.dispatches[d].count == Outstanding(v, d) {
      if step.Submit? {
        SubmitCounters(s, step.t, step.n, d);
      } else if step.Lock? {
        LockCounters(s, step.t, d);
      } else {
        OtherCounters(s, step, d);
      }
    }
  }

  lemma SubmitOnce(s: Pool, t: nat, n: nat, j: Job)
    requires Inv(s) && Enabled(s, Submit(t, n))
    ensures var v := After(s, Submit(t, n)); Occurrences(v, j) == if JobMade(v, j) then 1 else 0
  {
    var v := After(s, Submit(t, n));
    assert Occurrences(s, j) == if JobMade(s, j) then 1 else 0;
    CountConcat(s.queue, Slices(|s.dispatches|, n), Is(j));
    SlicesOnce(|s.dispatches|, n, j);
    CountUpdate(s.threads, t, v.threads[t], Runs(j));
  }

  lemma SameJobsMade(s: Pool, step: Step, j: Job)
    requires Enabled(s, step) && !step.Submit?
    ensures JobMade(After(s, step), j) == JobMade(s, j)
  {
  }

  lemma OtherOnce(s: Pool, step: Step, j: Job)
    requires Inv(s) && Enabled(s, step) && !step.Submit?
    ensures Occurrences(After(s, step), j) == Occurrences(s, j)
  {
    if !step.Stop? {
      CountUpdate(s.threads, step.t, After(s, step).threads[step.t], Runs(j));
    }
  }

  lemma OnceStep(s: Pool, step: Step)
    requires Inv(s) && Enabled(s, step)
    ensures ExactlyOnce(After(s, step))
  {
    var v := After(s, step);
    forall j ensures Occurrences(v, j) == if JobMade(v, j) then 1 else 0 {
      if step.Submit? {
        SubmitOnce(s, step.t, step.n, j);
      } else {
        assert Occurrences(s, j) == if JobMade(s, j) then 1 else 0;
        SameJobsMade(s, step, j);
        OtherOnce(s, step, j);
      }
    }
  }

  /** Before a dispatch can return, no job of it is queued or held by any worker. */
  lemma ReturnFree(s: Pool, t: nat, u: nat)
    requires Inv(s) && Enabled(s, Return(t)) && u < |s.threads|
    ensures var x, d := s.threads[u], s.threads[t].control.d;
            (x.InBody? || x.Ran? || x.Locked?) ==> x.job.d != d
  {
    var x, d := s.threads[u], s.threads[t].control.d;
    assert s.dispatches[d].count == Outstanding(s, d);
    CountZero(s.threads, Owes(d));
    assert !Owes(d)(x);
    assert Sound(s, u);
  }

  /** Two threads never hold the same dispatch's mutex. */
  lemma UnlockFree(s: Pool, t: nat, u: nat)
    requires Inv(s) && Enabled(s, Unlock(t)) && u < |s.threads| && u != t && s.threads[u].Locked?
    ensures s.threads[u].job.d != s.threads[t].job.d
  {
    assert Sound(s, t);
    var d := s.threads[t].job.d;
    assert DispatchSound(s, d) && LockedBy(s, t, d);
    assert !LockedBy(s, u, d);
  }

  lemma OtherAfterReturn(s: Pool, t: nat, u: nat)
    requires Inv(s) && Enabled(s, Return(t)) && u < |s.threads| && u != t
    ensures Sound(After(s, Return(t)), u)
  {
    assert Sound(s, u) && Sound(s, t);
    ReturnFree(s, t, u);
  }

  lemma OtherAfterUnlock(s: Pool, t: nat, u: nat)
    requires Inv(s) && Enabled(s, Unlock(t)) && u < |s.threads| && u != t
    ensures Sound(After(s, Unlock(t)), u)
  {
    assert Sound(s, u);
    if s.threads[u].Locked? {
      UnlockFree(s, t, u);
    }
  }

  lemma OtherAfterSubmit(s: Pool, t: nat, n: nat, u: nat)
    requires Inv(s) && Enabled(s, Submit(t, n)) && u < |s.threads| && u != t
    ensures Sound(After(s, Submit(t, n)), u)
  {
    assert Sound(s, u);
  }

  lemma OtherAfterLock(s: Pool, t: nat, u: nat)
    requires Inv(s) && Enabled(s, Lock(t)) && u < |s.threads| && u != t
    ensures Sound(After(s, Lock(t)), u)
  {
    assert Sound(s, u);
  }

  lemma OtherSound(s: Pool, step: Step, u: nat)
    requires Inv(s) && Enabled(s, step) && u < |s.threads| && (step.Stop? || u != step.t)
    ensures Sound(After(s, step), u)
  {
    match step
    case Submit(t, n) => OtherAfterSubmit(s, t, n, u);
    case Lock(t) => OtherAfterLock(s, t, u);
    case Unlock(t) => OtherAfterUnlock(s, t, u);
    case Return(t) => OtherAfterReturn(s, t, u);
    case _ => assert Sound(s, u);
  }

  lemma MoverSound(s: Pool, step: Step)
    requires Inv(s) && Enabled(s, step) && !step.Stop?
    ensures Sound(After(s, step), step.t)
  {
    assert Sound(s, step.t);
    if step.Take? {
      QueuedMade(s, |s.queue| - 1);
    } else if step.Return? {
      ReturnFree(s, step.t, step.t);
    }
  }

  lemma SoundStep(s: Pool, step: Step)
    requires Inv(s) && Enabled(s, step)
    ensures forall t: nat :: t < |s.threads| ==> Sound(After(s, step), t)
  {
    forall u: nat | u < |s.threads| ensures Sound(After(s, step), u) {
      if step.Stop? || u != step.t {
        OtherSound(s, step, u);
      } else {
        MoverSound(s, step);
      }
    }
  }

  // ----- the dispatch records -----

  lemma LockersStep(s: Pool, step: Step, d: nat, t: nat)
    requires Inv(s) && Enabled(s, step) && LockedBy(After(s, step), t, d)
    ensures LockedBy(s, t, d) || (step == Lock(t) && s.threads[t].job.d == d && !s.dispatches[d].locked)
  {
  }

  lemma OneLocker(s: Pool, step: Step, d: nat, t: nat, u: nat)
    requires Inv(s) && Enabled(s, step) && LockedBy(After(s, step), t, d) && LockedBy(After(s, step), u, d)
    ensures t == u
  {
    LockersStep(s, step, d, t);
    LockersStep(s, step, d, u);
    assert t < |s.threads| && u < |s.threads| && Sound(s, t) && Sound(s, u);
    assert LockedBy(s, t, d) ==> d < |s.dispatches| && DispatchSound(s, d);
  }

  lemma HolderStays(s: Pool, step: Step, d: nat)
    requires Inv(s) && Enabled(s, step) && d < |After(s, step).dispatches| && After(s, step).dispatches[d].locked
    ensures exists t :: LockedBy(After(s, step), t, d)
  {
    var v := After(s, step);
    if step.Lock? && s.threads[step.t].job.d == d {
      assert LockedBy(v, step.t, d);
    } else {
      assert DispatchSound(s, d);
      var h :| LockedBy(s, h, d);
      assert LockedBy(v, h, d);
    }
  }

  lemma OwnerWaits(s: Pool, step: Step, d: nat)
    requires Inv(s) && Enabled(s, step) && d < |After(s, step).dispatches| && !After(s, step).dispatches[d].returned
    ensures var v := After(s, step);
            v.dispatches[d].owner < |v.threads| && BlockedOn(v.threads[v.dispatches[d].owner], d)
  {
    if d < |s.dispatches| {
      assert DispatchSound(s, d);
    }
  }

  lemma ReturnedDone(s: Pool, step: Step, d: nat)
    requires Inv(s) && Enabled(s, step) && d < |After(s, step).dispatches| && After(s, step).dispatches[d].returned
    ensures var x := After(s, step).dispatches[d]; x.count == 0 && !x.locked
  {
    assert DispatchSound(s, d);
    if step.Lock? {
      assert Sound(s, step.t);
    }
  }

  lemma DispatchStep(s: Pool, step: Step, d: nat)
    requires Inv(s) && Enabled(s, step) && d < |After(s, step).dispatches|
    ensures DispatchSound(After(s, step), d)
  {
    var v := After(s, step);
    if v.dispatches[d].locked {
      HolderStays(s, step, d);
    }
    if v.dispatches[d].returned {
      ReturnedDone(s, step, d);
    } else {
      OwnerWaits(s, step, d);
    }
    forall t, u | LockedBy(v, t, d) && LockedBy(v, u, d) ensures t == u {
      OneLocker(s, step, d, t, u);
    }
  }

  // ----- shutdown -----

  lemma DroppedStep(s: Pool, step: Step)
    requires Inv(s) && Enabled(s, step)
    ensures NothingDropped(After(s, step))
  {
    var v := After(s, step);
    if t :| 0 <= t < |v.threads| && v.threads[t].Exited? {
      if step.Exit? {
        assert v.queue == [];
      } else {
        assert s.threads[t].Exited?;
        forall k | 0 <= k < |v.queue| ensures FromWorker(v, v.queue[k]) {
          QueuedByWorker(s, step, k);
        }
      }
    }
  }

  lemma QueuedByWorker(s: Pool, step: Step, k: nat)
    requires Inv(s) && Enabled(s, step) && !step.Exit? && k < |After(s, step).queue|
    requires s.stop && forall k :: 0 <= k < |s.queue| ==> FromWorker(s, s.queue[k])
    ensures FromWorker(After(s, step), After(s, step).queue[k])
  {
    var j := After(s, step).queue[k];
    if k < |s.queue| {
      assert j == s.queue[k] && FromWorker(s, s.queue[k]);
      QueuedMade(s, k);
      assert DispatchSound(s, j.d);
    }
  }

  lemma StepInv(s: Pool, step: Step)
    requires Inv(s) && Enabled(s, step)
    ensures Inv(After(s, step))
  {
    CountersStep(s, step);
    OnceStep(s, step);
    SoundStep(s, step);
    forall d: nat | d < |After(s, step).dispatches| ensures DispatchSound(After(s, step), d) {
      DispatchStep(s, step, d);
    }
    DroppedStep(s, step);
  }

  lemma {:induction false} RunInv(s: Pool, steps: seq<Step>)
    requires Initial(s) && IsRun(s, steps)
    ensures Inv(RunEnd(s, steps))
  {
    if steps == [] {
      InitialInv(s);
    } else {
      RunInv(s, steps[..|steps| - 1]);
      StepInv(RunEnd(s, steps[..|steps| - 1]), steps[|steps| - 1]);
    }
  }
}
