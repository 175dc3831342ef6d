/**
 * The protocol that keeps pipeline runs, step runs and update jobs apart:
 * request handlers, worker threads and the update job's done-callback, all
 * interleaved, over `_operation_lock`, the orchestrator's `is_running` and the
 * job manager's `_busy`.
 */
module OperationExclusion {
  import opened Text

  /** Where a request, the worker it starts, or an update job stands. */
  datatype Pc =
    | RunWaiting      // pipeline or step request, before the operation lock
    | RunLocked       // lock held, nothing checked yet
    | RunChecked      // saw no update running
    | RunClaimed      // claimed the orchestrator, lock still held
    | RunAccepted     // lock released, worker thread not started yet
    | ClaimLost       // the worker thread could not be started
    | WorkerReady     // worker thread, before the generator marks the run started
    | WorkerRunning   // the steps are executing
    | WorkerAborted   // starting the run raised before its own release was armed
    | WorkerBetween   // released by the generator, not yet by the worker
    | UpdateWaiting   // update request, before the operation lock
    | UpdateLocked
    | UpdateChecked   // saw no pipeline running
    | UpdateClaimed   // `_busy` set, job not submitted yet
    | UpdateSubmitted // job submitted, lock still held
    | Refused         // lock held, about to answer with a refusal
    | JobQueued
    | JobRunning
    | JobEnded        // outcome known, `_busy` not cleared yet
    | Finished

  datatype State = State(lock: Option<nat>, running: bool, busy: bool, threads: seq<Pc>)

  const INIT := State(None, false, false, [])

  datatype Action =
    | ArriveRun
    | ArriveUpdate
    | Acquire(i: nat)
    | CheckUpdates(i: nat)
    | Claim(i: nat)
    | Unlock(i: nat)
    | StartWorker(i: nat, ok: bool)
    | Begin(i: nat, ok: bool)
    | GeneratorRelease(i: nat)
    | WorkerRelease(i: nat)
    | CheckPipeline(i: nat)
    | TakeBusy(i: nat)
    | Submit(i: nat, ok: bool)
    | StartJob(i: nat)
    | EndJob(i: nat)
    | SetIdle(i: nat)

  predicate Enabled(s: State, a: Action) {
    match a
    case ArriveRun => true
    case ArriveUpdate => true
    case Acquire(i) => i < |s.threads| && (s.threads[i].RunWaiting? || s.threads[i].UpdateWaiting?) && s.lock.None?
    case CheckUpdates(i) => i < |s.threads| && (s.threads[i].RunLocked?)
    case Claim(i) => i < |s.threads| && (s.threads[i].RunChecked?)
    case Unlock(i) => i < |s.threads| &&
      (s.threads[i].RunClaimed? || s.threads[i].UpdateSubmitted? || s.threads[i].Refused?)
    case StartWorker(i, _) => i < |s.threads| && (s.threads[i].RunAccepted?)
    case Begin(i, _) => i < |s.threads| && (s.threads[i].WorkerReady?)
    case GeneratorRelease(i) => i < |s.threads| && (s.threads[i].WorkerRunning?)
    case WorkerRelease(i) => i < |s.threads| && (s.threads[i].WorkerBetween? || s.threads[i].WorkerAborted?)
    case CheckPipeline(i) => i < |s.threads| && (s.threads[i].UpdateLocked?)
    case TakeBusy(i) => i < |s.threads| && (s.threads[i].UpdateChecked?)
    case Submit(i, _) => i < |s.threads| && (s.threads[i].UpdateClaimed?)
    case StartJob(i) => i < |s.threads| && (s.threads[i].JobQueued?)
    case EndJob(i) => i < |s.threads| && (s.threads[i].JobRunning?)
    case SetIdle(i) => i < |s.threads| && (s.threads[i].JobEnded?)
  }

  function Move(s: State, i: nat, pc: Pc): State
    requires i < |s.threads|
  {
    s.(threads := s.threads[i := pc])
  }

  function Step(s: State, a: Action): State
    requires Enabled(s, a)
  {
    match a
    case ArriveRun => s.(threads := s.threads + [RunWaiting])
    case ArriveUpdate => s.(threads := s.threads + [UpdateWaiting])
    case Acquire(i) =>
      Move(s, i, if s.threads[i] == RunWaiting then RunLocked else UpdateLocked).(lock := Some(i))
    case CheckUpdates(i) => Move(s, i, if s.busy then Refused else RunChecked)
    case Claim(i) => if s.running then Move(s, i, Refused) else Move(s, i, RunClaimed).(running := true)
    case Unlock(i) =>
      Move(s, i, if s.threads[i] == RunClaimed then RunAccepted else Finished).(lock := None)
    case StartWorker(i, ok) => Move(s, i, if ok then WorkerReady else ClaimLost)
    case Begin(i, ok) => Move(s, i, if ok then WorkerRunning else WorkerAborted).(running := true)
    case GeneratorRelease(i) => Move(s, i, WorkerBetween).(running := false)
    case WorkerRelease(i) => Move(s, i, Finished).(running := false)
    case CheckPipeline(i) => Move(s, i, if s.running then Refused else UpdateChecked)
    case TakeBusy(i) => if s.busy then Move(s, i, Refused) else Move(s, i, UpdateClaimed).(busy := true)
    case Submit(i, ok) =>
      if ok then s.(threads := s.threads[i := UpdateSubmitted] + [JobQueued])
      else Move(s, i, Refused).(busy := false)
    case StartJob(i) => Move(s, i, JobRunning)
    case EndJob(i) => Move(s, i, JobEnded)
    case SetIdle(i) => Move(s, i, Finished).(busy := false)
  }

  /** The actions of a run can all be taken, one after the other. */
  ghost predicate Legal(actions: seq<Action>)
    decreases |actions|, 0
  {
    actions == [] ||
    (Legal(actions[..|actions| - 1]) && Enabled(After(actions[..|actions| - 1]), actions[|actions| - 1]))
  }

  ghost function After(actions: seq<Action>): State
    requires Legal(actions)
    decreases |actions|, 1
  {
    if actions == [] then INIT else Step(After(actions[..|actions| - 1]), actions[|actions| - 1])
  }

  // -------------------------------------------------------------- invariants

  predicate HoldsLock(pc: Pc) {
    || pc.RunLocked? || pc.RunChecked? || pc.RunClaimed? || pc.Refused?
    || pc.UpdateLocked? || pc.UpdateChecked? || pc.UpdateClaimed? || pc.UpdateSubmitted?
  }

  /** Holds the orchestrator claim (a run that executes is one of these). */
  predicate OwnsRun(pc: Pc) {
    || pc.RunClaimed? || pc.RunAccepted? || pc.ClaimLost?
    || pc.WorkerReady? || pc.WorkerRunning? || pc.WorkerAborted?
  }

  /** Holds the job manager. */
  predicate OwnsJob(pc: Pc) {
    pc.UpdateClaimed? || pc.JobQueued? || pc.JobRunning? || pc.JobEnded?
  }

  /** `flag` tells exactly whether some thread is an owner, and there is at most one. */
  ghost predicate Tells(flag: bool, threads: seq<Pc>, owns: Pc -> bool) {
    && (forall i :: 0 <= i < |threads| && owns(threads[i]) ==> flag)
    && (flag ==> exists i :: 0 <= i < |threads| && owns(threads[i]))
    && (forall i, j :: 0 <= i < |threads| && 0 <= j < |threads| && owns(threads[i]) && owns(threads[j]) ==> i == j)
  }

  ghost predicate LockExact(s: State) {
    && (s.lock.Some? ==> s.lock.value < |s.threads|)
    && forall i :: 0 <= i < |s.threads| ==> (HoldsLock(s.threads[i]) <==> s.lock == Some(i))
  }

  /** What holds in every interleaving: the update job is exclusive and `_busy` is exact. */
  ghost predicate JobsExclusive(s: State) {
    && LockExact(s)
    && Tells(s.busy, s.threads, OwnsJob)
    && forall i :: 0 <= i < |s.threads| && s.threads[i] == RunChecked ==> !s.busy
  }

  /** One operation at a time, and both flags tell the truth. */
  ghost predicate Exclusive(s: State) {
    && JobsExclusive(s)
    && Tells(s.running, s.threads, OwnsRun)
    && (forall i :: 0 <= i < |s.threads| && s.threads[i] == UpdateChecked ==> !s.running)
    && !(s.running && s.busy)
  }

  /** A worker's own release while another run already holds the claim. */
  predicate StrayRelease(s: State, a: Action) {
    a.WorkerRelease? && a.i < |s.threads| && s.threads[a.i].WorkerBetween? && s.running
  }

  /** Replacing one thread keeps the flag exact if the owner count changes with the flag. */
  lemma TellsMove(flag: bool, threads: seq<Pc>, i: nat, pc: Pc, flag': bool, owns: Pc -> bool)
    requires i < |threads| && Tells(flag, threads, owns)
    requires flag' == if owns(threads[i]) then owns(pc) else flag || owns(pc)
    requires owns(pc) && !owns(threads[i]) ==> !flag
    ensures Tells(flag', threads[i := pc], owns)
  {
    var next := threads[i := pc];
    if owns(pc) {
      assert owns(next[i]);
    } else if flag' {
      var k :| 0 <= k < |threads| && owns(threads[k]);
      assert next[k] == threads[k];
    }
  }

  lemma TellsAppend(flag: bool, threads: seq<Pc>, pc: Pc, owns: Pc -> bool)
    requires Tells(flag, threads, owns)
    requires owns(pc) ==> !flag
    ensures Tells(flag || owns(pc), threads + [pc], owns)
  {
    var next := threads + [pc];
    if owns(pc) {
      assert next[|threads|] == pc;
    } else if flag {
      var k :| 0 <= k < |threads| && owns(threads[k]);
      assert next[k] == threads[k];
    }
  }

  predicate MovesOne(a: Action) {
    !a.ArriveRun? && !a.ArriveUpdate? && !a.Submit?
  }

  /** A flag follows the owner that moves from `before` to `after`. */
  predicate Follows(flag: bool, before: bool, after: bool, flag': bool) {
    && flag' == (if before then after else flag || after)
    && (after && !before ==> !flag)
  }

  lemma BusyFollows(s: State, a: Action)
    requires Enabled(s, a) && MovesOne(a)
    requires OwnsJob(s.threads[a.i]) ==> s.busy
    ensures var t := Step(s, a);
      && t.threads == s.threads[a.i := t.threads[a.i]]
      && Follows(s.busy, OwnsJob(s.threads[a.i]), OwnsJob(t.threads[a.i]), t.busy)
  {
  }

  lemma RunningFollows(s: State, a: Action)
    requires Enabled(s, a) && MovesOne(a) && !StrayRelease(s, a)
    requires OwnsRun(s.threads[a.i]) ==> s.running
    ensures var t := Step(s, a);
      Follows(s.running, OwnsRun(s.threads[a.i]), OwnsRun(t.threads[a.i]), t.running)
  {
  }

  /** One thread moves: it holds the lock afterwards exactly if the lock is its. */
  lemma LockMove(s: State, i: nat, pc: Pc, t: State)
    requires LockExact(s) && i < |s.threads|
    requires t.threads == s.threads[i := pc] && (HoldsLock(pc) <==> t.lock == Some(i))
    requires t.lock == s.lock || (t.lock == Some(i) && s.lock.None?) || (t.lock.None? && s.lock == Some(i))
    ensures LockExact(t)
  {
  }

  lemma LockStep(s: State, a: Action)
    requires LockExact(s) && Enabled(s, a)
    ensures LockExact(Step(s, a))
  {
    if MovesOne(a) {
      LockMove(s, a.i, Step(s, a).threads[a.i], Step(s, a));
    }
  }

  lemma JobTells(s: State, a: Action)
    requires Tells(s.busy, s.threads, OwnsJob) && Enabled(s, a)
    ensures Tells(Step(s, a).busy, Step(s, a).threads, OwnsJob)
  {
    if a.ArriveRun? || a.ArriveUpdate? {
      TellsAppend(s.busy, s.threads, if a.ArriveRun? then RunWaiting else UpdateWaiting, OwnsJob);
    } else if a.Submit? {
      TellsMove(s.busy, s.threads, a.i, if a.ok then UpdateSubmitted else Refused, false, OwnsJob);
      if a.ok { TellsAppend(false, s.threads[a.i := UpdateSubmitted], JobQueued, OwnsJob); }
    } else {
      BusyFollows(s, a);
      TellsMove(s.busy, s.threads, a.i, Step(s, a).threads[a.i], Step(s, a).busy, OwnsJob);
    }
  }

  lemma RunTells(s: State, a: Action)
    requires Tells(s.running, s.threads, OwnsRun) && Enabled(s, a) && !StrayRelease(s, a)
    ensures Tells(Step(s, a).running, Step(s, a).threads, OwnsRun)
  {
    if a.ArriveRun? || a.ArriveUpdate? {
      TellsAppend(s.running, s.threads, if a.ArriveRun? then RunWaiting else UpdateWaiting, OwnsRun);
    } else if a.Submit? {
      TellsMove(s.running, s.threads, a.i, if a.ok then UpdateSubmitted else Refused, s.running, OwnsRun);
      if a.ok { TellsAppend(s.running, s.threads[a.i := UpdateSubmitted], JobQueued, OwnsRun); }
    } else {
      BusyFollowsThreads(s, a);
      RunningFollows(s, a);
      TellsMove(s.running, s.threads, a.i, Step(s, a).threads[a.i], Step(s, a).running, OwnsRun);
    }
  }

  lemma BusyFollowsThreads(s: State, a: Action)
    requires Enabled(s, a) && MovesOne(a)
    ensures Step(s, a).threads == s.threads[a.i := Step(s, a).threads[a.i]]
  {
  }

  lemma JobsStep(s: State, a: Action)
    requires JobsExclusive(s) && Enabled(s, a)
    ensures JobsExclusive(Step(s, a))
  {
    LockStep(s, a);
    JobTells(s, a);
  }

  lemma ExclusiveStep(s: State, a: Action)
    requires Exclusive(s) && Enabled(s, a) && !StrayRelease(s, a)
    ensures Exclusive(Step(s, a))
  {
    JobsStep(s, a);
    RunTells(s, a);
  }

  /** In every interleaving at most one update job is live and `_busy` says so. */
  lemma {:induction false} UpdateJobsAlwaysExclusive(actions: seq<Action>)
    requires Legal(actions)
    ensures JobsExclusive(After(actions))
  {
    if actions != [] {
      UpdateJobsAlwaysExclusive(actions[..|actions| - 1]);
      JobsStep(After(actions[..|actions| - 1]), actions[|actions| - 1]);
    }
  }

  ghost predicate HasStrayRelease(actions: seq<Action>)
    requires Legal(actions)
  {
    actions != [] &&
    (HasStrayRelease(actions[..|actions| - 1]) ||
     StrayRelease(After(actions[..|actions| - 1]), actions[|actions| - 1]))
  }

  /** Every state along the run, from the empty one to the last, is exclusive. */
  ghost predicate ExclusiveThroughout(actions: seq<Action>)
    requires Legal(actions)
  {
    Exclusive(After(actions)) && (actions != [] ==> ExclusiveThroughout(actions[..|actions| - 1]))
  }

  /** A run is exclusive with truthful flags throughout exactly if it has no stray release. */
  lemma {:induction false} ExclusiveExactly(actions: seq<Action>)
    requires Legal(actions)
    ensures ExclusiveThroughout(actions) <==> !HasStrayRelease(actions)
  {
    if actions != [] {
      var init, last := actions[..|actions| - 1], actions[|actions| - 1];
      ExclusiveExactly(init);
      if ExclusiveThroughout(init) {
        var s := After(init);
        if StrayRelease(s, last) {
          var k :| 0 <= k < |s.threads| && OwnsRun(s.threads[k]);
          assert After(actions).threads[k] == s.threads[k];
        } else {
          ExclusiveStep(s, last);
        }
      }
    }
  }

  // ------------------------------------------------------ who is let through

  ghost predicate SomeJob(s: State) {
    exists k :: 0 <= k < |s.threads| &&
      (s.threads[k].UpdateClaimed? || s.threads[k].JobQueued? || s.threads[k].JobRunning? || s.threads[k].JobEnded?)
  }

  ghost predicate SomeRun(s: State) {
    exists k :: 0 <= k < |s.threads| &&
      (s.threads[k].RunClaimed? || s.threads[k].RunAccepted? || s.threads[k].ClaimLost? ||
       s.threads[k].WorkerReady? || s.threads[k].WorkerRunning? || s.threads[k].WorkerAborted?)
  }

  lemma FlagsSpelledOut(s: State)
    ensures JobsExclusive(s) ==> (s.busy <==> SomeJob(s))
    ensures Exclusive(s) ==> (s.running <==> SomeRun(s))
  {
    if JobsExclusive(s) && s.busy {
      var k :| 0 <= k < |s.threads| && OwnsJob(s.threads[k]);
    }
    if Exclusive(s) && s.running {
      var k :| 0 <= k < |s.threads| && OwnsRun(s.threads[k]);
    }
  }

  /**
   * In every interleaving a run request is refused for an update, and an
   * update request for another one, exactly if an update job is under way.
   */
  lemma UpdateRefusesExactly(actions: seq<Action>, i: nat)
    requires Legal(actions) && i < |After(actions).threads|
    ensures var s := After(actions);
      && (s.threads[i] == RunLocked ==>
            Step(s, CheckUpdates(i)).threads[i] == if SomeJob(s) then Refused else RunChecked)
      && (s.threads[i] == UpdateChecked ==>
            Step(s, TakeBusy(i)).threads[i] == if SomeJob(s) then Refused else UpdateClaimed)
  {
    UpdateJobsAlwaysExclusive(actions);
    FlagsSpelledOut(After(actions));
  }

  /**
   * Without a stray release a run request is refused for another run, and an
   * update request for a run, exactly if a run is under way.
   */
  lemma RunRefusesExactly(actions: seq<Action>, i: nat)
    requires Legal(actions) && !HasStrayRelease(actions) && i < |After(actions).threads|
    ensures var s := After(actions);
      && (s.threads[i] == RunChecked ==>
            Step(s, Claim(i)).threads[i] == if SomeRun(s) then Refused else RunClaimed)
      && (s.threads[i] == UpdateLocked ==>
            Step(s, CheckPipeline(i)).threads[i] == if SomeRun(s) then Refused else UpdateChecked)
  {
    ExclusiveExactly(actions);
    FlagsSpelledOut(After(actions));
  }

  // ------------------------------------------- claims between the two releases

  /** Some worker is between its two releases. */
  ghost predicate Releasing(s: State) {
    exists i :: 0 <= i < |s.threads| && s.threads[i] == WorkerBetween
  }

  /** No claim of the orchestrator succeeds while a worker is between its two releases. */
  ghost predicate ClaimsWait(actions: seq<Action>)
    requires Legal(actions)
  {
    actions != [] ==>
      ClaimsWait(actions[..|actions| - 1]) &&
      var s := After(actions[..|actions| - 1]);
      !(actions[|actions| - 1].Claim? && !s.running && Releasing(s))
  }

  lemma ReleasingStep(s: State, a: Action)
    requires Exclusive(s) && Enabled(s, a)
    requires Releasing(s) ==> !s.running && !a.Claim?
    ensures !StrayRelease(s, a)
    ensures Releasing(Step(s, a)) ==> !Step(s, a).running
  {
    var t := Step(s, a);
    if Releasing(t) && !a.GeneratorRelease? {
      var k :| 0 <= k < |t.threads| && t.threads[k] == WorkerBetween;
      assert k < |s.threads| && s.threads[k] == WorkerBetween;
    }
  }

  /** If claims wait for both releases, exclusion holds in every interleaving. */
  lemma {:induction false} WaitingClaimsKeepExclusion(actions: seq<Action>)
    requires Legal(actions) && ClaimsWait(actions)
    ensures ExclusiveThroughout(actions)
    ensures Releasing(After(actions)) ==> !After(actions).running
  {
    if actions != [] {
      var init, last := actions[..|actions| - 1], actions[|actions| - 1];
      WaitingClaimsKeepExclusion(init);
      ReleasingStep(After(init), last);
      ExclusiveStep(After(init), last);
    }
  }

  // ---------------------------------------------------------- the broken trace

  lemma Extend(actions: seq<Action>, a: Action) returns (more: seq<Action>)
    requires Legal(actions) && Enabled(After(actions), a)
    ensures more == actions + [a] && Legal(more) && After(more) == Step(After(actions), a)
  {
    more := actions + [a];
    assert more[..|more| - 1] == actions;
  }

  /** From an idle state a new request can pass its checks. */
  lemma StartChecks(actions: seq<Action>) returns (more: seq<Action>)
    requires Legal(actions)
    requires After(actions).lock.None? && !After(actions).running && !After(actions).busy
    ensures Legal(more)
    ensures After(more) == State(Some(|After(actions).threads|), false, false, After(actions).threads + [RunChecked])
  {
    var t := After(actions).threads;
    more := Extend(actions, ArriveRun);
    more := Extend(more, Acquire(|t|));
    more := Extend(more, CheckUpdates(|t|));
  }

  /** From an idle state a new request can become an executing run. */
  lemma StartRun(actions: seq<Action>) returns (more: seq<Action>)
    requires Legal(actions)
    requires After(actions).lock.None? && !After(actions).running && !After(actions).busy
    ensures Legal(more)
    ensures After(more) == State(None, true, false, After(actions).threads + [WorkerRunning])
  {
    var t := After(actions).threads;
    more := StartChecks(actions);
    more := Extend(more, Claim(|t|));
    more := Extend(more, Unlock(|t|));
    assert After(more) == State(None, true, false, t + [RunAccepted]);
    more := Extend(more, StartWorker(|t|, true));
    more := Extend(more, Begin(|t|, true));
  }

  lemma Take(actions: seq<Action>, s: State, a: Action, t: State) returns (more: seq<Action>)
    requires Legal(actions) && After(actions) == s && Enabled(s, a) && Step(s, a) == t
    ensures Legal(more) && After(more) == t
  {
    more := Extend(actions, a);
  }

  /** From an idle state an update request can claim the job manager. */
  lemma ClaimUpdate(actions: seq<Action>, ts: seq<Pc>) returns (more: seq<Action>)
    requires Legal(actions) && After(actions) == State(None, false, false, ts)
    ensures Legal(more) && After(more) == State(Some(|ts|), false, true, ts + [UpdateClaimed])
  {
    more := Take(actions, After(actions), ArriveUpdate, State(None, false, false, ts + [UpdateWaiting]));
    more := Take(more, State(None, false, false, ts + [UpdateWaiting]), Acquire(|ts|),
      State(Some(|ts|), false, false, ts + [UpdateLocked]));
    more := Take(more, State(Some(|ts|), false, false, ts + [UpdateLocked]), CheckPipeline(|ts|),
      State(Some(|ts|), false, false, ts + [UpdateChecked]));
    more := Take(more, State(Some(|ts|), false, false, ts + [UpdateChecked]), TakeBusy(|ts|),
      State(Some(|ts|), false, true, ts + [UpdateClaimed]));
  }

  lemma QueueUpdate(actions: seq<Action>, ts: seq<Pc>) returns (more: seq<Action>)
    requires Legal(actions) && After(actions) == State(None, false, false, ts)
    ensures Legal(more) && After(more) == State(None, false, true, ts + [Finished, JobQueued])
  {
    more := ClaimUpdate(actions, ts);
    var queued := State(Some(|ts|), false, true, ts + [UpdateSubmitted, JobQueued]);
    more := Take(more, State(Some(|ts|), false, true, ts + [UpdateClaimed]), Submit(|ts|, true), queued);
    more := Take(more, queued, Unlock(|ts|), State(None, false, true, ts + [Finished, JobQueued]));
  }

  /** From an idle state an update request can become an executing job, which frees everything when it ends. */
  lemma RunUpdate(actions: seq<Action>, ts: seq<Pc>) returns (executing: seq<Action>, ended: seq<Action>)
    requires Legal(actions) && After(actions) == State(None, false, false, ts)
    ensures Legal(executing) && After(executing) == State(None, false, true, ts + [Finished, JobRunning])
    ensures Legal(ended) && After(ended) == State(None, false, false, ts + [Finished, Finished])
  {
    var queued := QueueUpdate(actions, ts);
    var running := State(None, false, true, ts + [Finished, JobRunning]);
    executing := Take(queued, State(None, false, true, ts + [Finished, JobQueued]), StartJob(|ts| + 1), running);
    var over := State(None, false, true, ts + [Finished, JobEnded]);
    ended := Take(executing, running, EndJob(|ts| + 1), over);
    ended := Take(ended, over, SetIdle(|ts| + 1), State(None, false, false, ts + [Finished, Finished]));
  }

  /**
   * Without that restriction exclusion fails: a second run claims between the
   * first one's two releases, the late release wipes the claim out, and a third
   * run starts beside the second.
   */
  lemma LateReleaseBreaksExclusion() returns (actions: seq<Action>)
    ensures Legal(actions) && HasStrayRelease(actions)
    ensures After(actions).threads == [Finished, WorkerRunning, WorkerRunning]
  {
    actions := StartRun([]);
    actions := Extend(actions, GeneratorRelease(0));
    assert After(actions) == State(None, false, false, [WorkerBetween]);
    actions := StartRun(actions);
    assert After(actions) == State(None, true, false, [WorkerBetween, WorkerRunning]);
    var stray := Extend(actions, WorkerRelease(0));
    assert stray[..|stray| - 1] == actions && HasStrayRelease(stray);
    assert After(stray) == State(None, false, false, [Finished, WorkerRunning]);
    var last := StartRun(stray);
    assert After(last).threads == [Finished, WorkerRunning, WorkerRunning];
    actions := last;
    ExclusiveExactly(actions);
    var s := After(actions);
    assert OwnsRun(s.threads[1]) && OwnsRun(s.threads[2]);
  }
}
