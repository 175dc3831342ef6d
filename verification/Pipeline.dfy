/** The orchestrator's run state over a full pipeline run and over a single step. */
module Pipeline {
  import opened Text

  const TOTAL_STEPS := 7

  /** How a step ends: with a status and perhaps the health report, or by raising. */
  datatype StepEnd = Done(status: string, report: bool) | Raised

  /** A step emits some events and ends. */
  datatype Step = Step(events: nat, end: StepEnd)

  /** The seven steps of a run; only the last one, the health matrix, may return a report. */
  ghost predicate IsPipeline(steps: seq<Step>) {
    && |steps| == TOTAL_STEPS
    && forall i :: 0 <= i < TOTAL_STEPS - 1 ==> steps[i].end.Done? ==> !steps[i].end.report
  }

  function Repeat(n: nat, times: nat): (r: seq<nat>)
    ensures |r| == times && forall i :: 0 <= i < times ==> r[i] == n
  {
    seq(times, _ => n)
  }

  /** Step numbers of the events published from step `i` (counted from 0) on. */
  function PublishedFrom(steps: seq<Step>, i: nat): seq<nat>
    requires i <= |steps| == TOTAL_STEPS
    decreases |steps| - i
  {
    if i == |steps| then (if Report(steps) then [] else [0])
    else Repeat(i + 1, steps[i].events) + (if steps[i].end.Raised? then [0] else PublishedFrom(steps, i + 1))
  }

  /** The event step numbers of an uninterrupted run; 0 is the final error event. */
  function Published(steps: seq<Step>): seq<nat>
    requires |steps| == TOTAL_STEPS
  {
    PublishedFrom(steps, 0)
  }

  /** The health matrix step returned its report. */
  predicate Report(steps: seq<Step>)
    requires |steps| == TOTAL_STEPS
  {
    steps[TOTAL_STEPS - 1].end.Done? && steps[TOTAL_STEPS - 1].end.report
  }

  /** Index of the first step that raises; `TOTAL_STEPS` if none does. */
  function FirstRaise(steps: seq<Step>, i: nat): (f: nat)
    requires i <= |steps| == TOTAL_STEPS
    ensures i <= f <= TOTAL_STEPS && (f < TOTAL_STEPS ==> steps[f].end.Raised?)
    decreases |steps| - i
  {
    if i == |steps| || steps[i].end.Raised? then i else FirstRaise(steps, i + 1)
  }

  /** Non-decreasing step numbers 1 to 7, then at most one step-0 error. */
  predicate WellOrdered(trace: seq<nat>) {
    && (forall i, j :: 0 <= i < j < |trace| && trace[j] != 0 ==> 1 <= trace[i] <= trace[j])
    && (forall i :: 0 <= i < |trace| ==> trace[i] <= TOTAL_STEPS)
    && (forall i :: 0 <= i < |trace| - 1 ==> trace[i] != 0)
  }

  /** The last non-zero number of `trace`, or `start`. */
  function LastStep(trace: seq<nat>, start: int): int {
    if trace == [] then start
    else if trace[|trace| - 1] != 0 then trace[|trace| - 1]
    else LastStep(trace[..|trace| - 1], start)
  }

  /** Every number of `trace` is 0 or at least `n`. */
  ghost predicate AtLeastOrError(trace: seq<nat>, n: nat) {
    forall k :: 0 <= k < |trace| ==> trace[k] == 0 || n <= trace[k]
  }

  lemma StepsInFront(n: nat, times: nat, rest: seq<nat>)
    requires 1 <= n <= TOTAL_STEPS && WellOrdered(rest) && AtLeastOrError(rest, n)
    ensures WellOrdered(Repeat(n, times) + rest) && AtLeastOrError(Repeat(n, times) + rest, n)
  {
    var trace := Repeat(n, times) + rest;
    forall i, j | 0 <= i < j < |trace| && trace[j] != 0
      ensures 1 <= trace[i] <= trace[j]
    {
      if i >= times {
        assert trace[i] == rest[i - times] && trace[j] == rest[j - times];
      }
    }
  }

  lemma {:induction false} PublishedIsWellOrdered(steps: seq<Step>, i: nat)
    requires i <= |steps| == TOTAL_STEPS
    ensures WellOrdered(PublishedFrom(steps, i)) && AtLeastOrError(PublishedFrom(steps, i), i + 1)
    decreases |steps| - i
  {
    if i < |steps| {
      if steps[i].end.Raised? {
        StepsInFront(i + 1, steps[i].events, [0]);
      } else {
        PublishedIsWellOrdered(steps, i + 1);
        StepsInFront(i + 1, steps[i].events, PublishedFrom(steps, i + 1));
      }
    }
  }

  /** A run that is closed early published a prefix, which is well-ordered too. */
  lemma EveryRunIsWellOrdered(steps: seq<Step>, taken: nat)
    requires |steps| == TOTAL_STEPS && taken <= |Published(steps)|
    ensures WellOrdered(Published(steps)[..taken])
  {
    PublishedIsWellOrdered(steps, 0);
  }

  /** A run crashes exactly if a step raises or no report comes back, and then ends with the error event. */
  lemma {:induction false} CrashesExactly(steps: seq<Step>, i: nat)
    requires i <= |steps| == TOTAL_STEPS
    ensures 0 in PublishedFrom(steps, i) <==> FirstRaise(steps, i) < TOTAL_STEPS || !Report(steps)
    ensures 0 in PublishedFrom(steps, i) ==> PublishedFrom(steps, i)[|PublishedFrom(steps, i)| - 1] == 0
    decreases |steps| - i
  {
    if i < |steps| && !steps[i].end.Raised? {
      CrashesExactly(steps, i + 1);
      assert forall x ::
        x in PublishedFrom(steps, i) <==> x in Repeat(i + 1, steps[i].events) || x in PublishedFrom(steps, i + 1);
      assert 0 !in Repeat(i + 1, steps[i].events);
    }
  }

  lemma {:induction false} CountOfRepeat(n: nat, times: nat, m: nat)
    ensures multiset(Repeat(n, times))[m] == if m == n then times else 0
  {
    if times > 0 {
      CountOfRepeat(n, times - 1, m);
      assert Repeat(n, times) == Repeat(n, times - 1) + [n];
    }
  }

  /** No step from `i` up to the `n`-th raises. */
  ghost predicate Reaches(steps: seq<Step>, i: nat, n: nat)
    requires n <= |steps|
  {
    forall k :: i <= k < n ==> !steps[k].end.Raised?
  }

  /** How often `n` is published from step `i` on. */
  ghost function Occurrences(steps: seq<Step>, i: nat, n: nat): nat
    requires |steps| == TOTAL_STEPS
  {
    if n == 0 then (if Reaches(steps, i, TOTAL_STEPS) && Report(steps) then 0 else 1)
    else if i < n <= TOTAL_STEPS && Reaches(steps, i, n - 1) then steps[n - 1].events
    else 0
  }

  lemma OccurrencesNext(steps: seq<Step>, i: nat, n: nat)
    requires i < |steps| == TOTAL_STEPS
    ensures Occurrences(steps, i, n) == (if n == i + 1 then steps[i].events else 0) +
      if steps[i].end.Raised? then (if n == 0 then 1 else 0) else Occurrences(steps, i + 1, n)
  {
    if steps[i].end.Raised? {
      assert !Reaches(steps, i, TOTAL_STEPS);
      assert i + 1 < n <= TOTAL_STEPS ==> !Reaches(steps, i, n - 1);
    }
  }

  lemma {:induction false} CountsExactly(steps: seq<Step>, i: nat, n: nat)
    requires i <= |steps| == TOTAL_STEPS
    ensures multiset(PublishedFrom(steps, i))[n] == Occurrences(steps, i, n)
    decreases |steps| - i
  {
    if i < |steps| {
      var own := Repeat(i + 1, steps[i].events);
      var rest := if steps[i].end.Raised? then [0] else PublishedFrom(steps, i + 1);
      CountOfRepeat(i + 1, steps[i].events, n);
      OccurrencesNext(steps, i, n);
      assert multiset(own + rest) == multiset(own) + multiset(rest);
      if steps[i].end.Raised? {
        assert multiset(rest) == multiset{0};
      } else {
        CountsExactly(steps, i + 1, n);
      }
    } else {
      var none: seq<nat> := [];
      assert PublishedFrom(steps, i) == if Report(steps) then none else [0];
    }
  }

  /**
   * An uninterrupted run publishes the events of step `n` exactly if no
   * earlier step raised, all of them, and one error event exactly if some step
   * raised or the health matrix brought no report. With their order
   * (`PublishedIsWellOrdered`) that is the whole run.
   */
  lemma PublishedExactly(steps: seq<Step>, n: nat)
    requires |steps| == TOTAL_STEPS
    ensures TOTAL_STEPS == 7
    ensures 1 <= n <= 7 && (exists k :: 0 <= k < n - 1 && steps[k].end.Raised?) ==> n !in Published(steps)
    ensures 1 <= n <= 7 && !(exists k :: 0 <= k < n - 1 && steps[k].end.Raised?) ==>
      multiset(Published(steps))[n] == steps[n - 1].events
    ensures n > 7 ==> n !in Published(steps)
    ensures multiset(Published(steps))[0] ==
      if (exists k :: 0 <= k < 7 && steps[k].end.Raised?) || !steps[6].end.Done? || !steps[6].end.report then 1 else 0
  {
    CountsExactly(steps, 0, n);
    CountsExactly(steps, 0, 0);
    assert n in Published(steps) <==> multiset(Published(steps))[n] > 0;
  }

  lemma {:induction false} LastStepOfConcat(a: seq<nat>, b: seq<nat>, start: int)
    ensures LastStep(a + b, start) == LastStep(b, LastStep(a, start))
  {
    if b == [] {
      assert a + b == a;
    } else {
      assert (a + b)[..|a + b| - 1] == a + b[..|b| - 1];
      LastStepOfConcat(a, b[..|b| - 1], start);
    }
  }

  /** After a crash `current_step` is the failing step, if that step published anything. */
  lemma {:induction false} CrashLeavesFailingStep(steps: seq<Step>, i: nat, start: int)
    requires i <= |steps| == TOTAL_STEPS
    requires FirstRaise(steps, i) < TOTAL_STEPS && steps[FirstRaise(steps, i)].events > 0
    ensures LastStep(PublishedFrom(steps, i), start) == FirstRaise(steps, i) + 1
    decreases |steps| - i
  {
    var own := Repeat(i + 1, steps[i].events);
    if steps[i].end.Raised? {
      LastStepOfConcat(own, [0], start);
      assert [0][..0] == [];
    } else {
      LastStepOfConcat(own, PublishedFrom(steps, i + 1), start);
      CrashLeavesFailingStep(steps, i + 1, LastStep(own, start));
    }
  }

  datatype Ending = Returned | Crashed | Closed

  /** How a run with `budget` (events the consumer takes before closing it) ends. */
  function EndingOf(steps: seq<Step>, budget: Option<nat>): Ending
    requires |steps| == TOTAL_STEPS
  {
    if budget.Some? && budget.value <= |Published(steps)| then Closed
    else if 0 in Published(steps) then Crashed else Returned
  }

  function TraceOf(steps: seq<Step>, budget: Option<nat>): seq<nat>
    requires |steps| == TOTAL_STEPS
  {
    if EndingOf(steps, budget) == Closed then Published(steps)[..budget.value] else Published(steps)
  }

  /** A run is closed exactly if it is consumed so far; otherwise it crashes exactly with its error event. */
  lemma EndingExactly(steps: seq<Step>, budget: Option<nat>)
    requires |steps| == TOTAL_STEPS
    ensures EndingOf(steps, budget) == Closed <==> budget.Some? && budget.value <= |Published(steps)|
    ensures EndingOf(steps, budget) == Crashed <==>
      (budget.Some? ==> budget.value > |Published(steps)|) && multiset(Published(steps))[0] == 1
    ensures TraceOf(steps, budget) <= Published(steps)
    ensures budget.Some? && EndingOf(steps, budget) == Closed ==> |TraceOf(steps, budget)| == budget.value
    ensures EndingOf(steps, budget) != Closed ==> TraceOf(steps, budget) == Published(steps)
  {
    CountsExactly(steps, 0, 0);
    assert 0 in Published(steps) <==> multiset(Published(steps))[0] > 0;
  }

  /** `current_step` is the number of the last event that belongs to a step. */
  lemma {:induction false} LastStepExactly(trace: seq<nat>, start: int)
    ensures (forall i :: 0 <= i < |trace| ==> trace[i] == 0) ==> LastStep(trace, start) == start
    ensures forall i :: 0 <= i < |trace| && trace[i] != 0 && (forall j :: i < j < |trace| ==> trace[j] == 0) ==>
      LastStep(trace, start) == trace[i]
  {
    if trace != [] && trace[|trace| - 1] == 0 {
      var init := trace[..|trace| - 1];
      LastStepExactly(init, start);
      forall i | 0 <= i < |trace| && trace[i] != 0 && (forall j :: i < j < |trace| ==> trace[j] == 0)
        ensures LastStep(trace, start) == trace[i]
      {
        assert init[i] == trace[i];
      }
    }
  }

  /** A full run has published `trace` and is about to run step `i`, or step `i` has raised. */
  ghost predicate Underway(steps: seq<Step>, budget: Option<nat>, i: nat, raised: bool, trace: seq<nat>)
    requires i <= |steps| == TOTAL_STEPS
  {
    && Published(steps) == trace + (if raised then [0] else PublishedFrom(steps, i))
    && 0 !in trace
    && (budget.Some? ==> |trace| < budget.value)
  }

  /** The report has not come back yet. */
  ghost predicate Undecided(steps: seq<Step>, i: nat, raised: bool)
    requires |steps| == TOTAL_STEPS
  {
    raised || i < TOTAL_STEPS || !Report(steps)
  }

  /** The orchestrator's status and report before step `i`: set by the last step alone. */
  ghost predicate Noted(steps: seq<Step>, i: nat, raised: bool, status0: string, report0: bool, status: string,
      report: bool)
    requires |steps| == TOTAL_STEPS
  {
    if Undecided(steps, i, raised) then status == status0 && report == report0
    else status == steps[TOTAL_STEPS - 1].end.status && report
  }

  lemma NothingNotedYet(steps: seq<Step>, i: nat, status0: string, report0: bool, status: string, report: bool)
    requires IsPipeline(steps) && i < TOTAL_STEPS && Noted(steps, i, false, status0, report0, status, report)
    ensures status == status0 && report == report0
    ensures i + 1 < TOTAL_STEPS && steps[i].end.Done? ==> !steps[i].end.report
  {
  }

  lemma UnderwayAtStart(steps: seq<Step>, budget: Option<nat>)
    requires |steps| == TOTAL_STEPS && (budget.Some? ==> budget.value >= 1)
    ensures Underway(steps, budget, 0, false, [])
  {
    assert [] + PublishedFrom(steps, 0) == PublishedFrom(steps, 0);
  }

  lemma RaisedIsFinal(steps: seq<Step>, budget: Option<nat>, i: nat, trace: seq<nat>)
    requires i <= |steps| == TOTAL_STEPS && Underway(steps, budget, i, true, trace)
    ensures Underway(steps, budget, TOTAL_STEPS, true, trace)
  {
  }

  lemma UnderwayNext(steps: seq<Step>, budget: Option<nat>, i: nat, before: seq<nat>)
    requires i < |steps| == TOTAL_STEPS && Underway(steps, budget, i, false, before)
    requires budget.Some? ==> |before| + steps[i].events < budget.value
    ensures var trace := before + Repeat(i + 1, steps[i].events);
      if steps[i].end.Raised? then Underway(steps, budget, i, true, trace)
      else Underway(steps, budget, i + 1, false, trace)
  {
    var own := Repeat(i + 1, steps[i].events);
    var rest := if steps[i].end.Raised? then [0] else PublishedFrom(steps, i + 1);
    assert before + (own + rest) == before + own + rest;
  }

  lemma ClosedInStep(steps: seq<Step>, budget: Option<nat>, i: nat, before: seq<nat>, trace: seq<nat>)
    requires i < |steps| == TOTAL_STEPS && Underway(steps, budget, i, false, before)
    requires |before| < |trace| <= |before| + steps[i].events
    requires trace == before + Repeat(i + 1, |trace| - |before|) && budget == Some(|trace|)
    ensures EndingOf(steps, budget) == Closed && TraceOf(steps, budget) == trace
    ensures trace[|trace| - 1] != 0
  {
    assert trace == Published(steps)[..|trace|];
  }

  lemma UnderwayEnds(steps: seq<Step>, budget: Option<nat>, i: nat, raised: bool, trace: seq<nat>)
    requires i <= |steps| == TOTAL_STEPS && Underway(steps, budget, i, raised, trace)
    requires raised || i == TOTAL_STEPS
    ensures raised || !Report(steps) ==>
      Published(steps) == trace + [0] &&
        EndingOf(steps, budget) == if budget == Some(|trace| + 1) then Closed else Crashed
    ensures !raised && Report(steps) ==> Published(steps) == trace && EndingOf(steps, budget) == Returned
  {
    assert trace + [] == trace;
    assert raised || !Report(steps) ==> Published(steps)[|trace|] == 0;
  }

  lemma LastStepOfRepeat(before: seq<nat>, n: nat, k: nat, start: int)
    requires n > 0
    ensures LastStep(before + Repeat(n, k), start) == if k == 0 then LastStep(before, start) else n
  {
    assert k == 0 ==> before + Repeat(n, k) == before;
  }

  predicate IsStep(number: int) { 1 <= number <= TOTAL_STEPS }

  /** The event step numbers of an uninterrupted single step. */
  function SinglePublished(number: int, step: Step): seq<int> {
    if IsStep(number) then seq(step.events + (if step.end.Raised? then 1 else 0), _ => number) else [0]
  }

  /** How a single step with `budget` ends. */
  function SingleEnding(number: int, step: Step, budget: Option<nat>): Ending {
    if budget.Some? && budget.value <= |SinglePublished(number, step)| then Closed
    else if IsStep(number) && step.end.Raised? then Crashed else Returned
  }

  class PipelineOrchestrator {
    var currentStep: int
    var isRunning: bool
    var lastStatus: string
    var hasReport: bool

    constructor ()
      ensures currentStep == 0 && !isRunning && lastStatus == "idle" && !hasReport
    {
      currentStep, isRunning, lastStatus, hasReport := 0, false, "idle", false;
    }

    /** Claim the orchestrator if it is idle. */
    method TryClaim() returns (claimed: bool)
      modifies this`isRunning
      ensures claimed == !old(isRunning) && isRunning
    {
      claimed := !isRunning;
      isRunning := true;
    }

    method Release()
      modifies this`isRunning
      ensures !isRunning
    {
      isRunning := false;
    }

    method SetCurrentStep(n: nat)
      modifies this`currentStep
      ensures currentStep == if 1 <= n <= TOTAL_STEPS then n else old(currentStep)
    {
      if 1 <= n <= TOTAL_STEPS {
        currentStep := n;
      }
    }

    /** Publish the events of one step; `closed` if the consumer closes the run at one of them. */
    method PublishStep(number: nat, events: nat, budget: Option<nat>, before: seq<nat>)
      returns (trace: seq<nat>, closed: bool)
      requires 1 <= number <= TOTAL_STEPS
      requires budget.Some? ==> |before| < budget.value
      modifies this`currentStep
      ensures |before| <= |trace| <= |before| + events
      ensures trace == before + Repeat(number, |trace| - |before|)
      ensures currentStep == if trace == before then old(currentStep) else number
      ensures closed ==> budget == Some(|trace|) && trace != before
      ensures !closed ==> |trace| == |before| + events && (budget.Some? ==> |trace| < budget.value)
    {
      trace := before;
      closed := false;
      while |trace| < |before| + events && !closed
        invariant |before| <= |trace| <= |before| + events
        invariant trace == before + Repeat(number, |trace| - |before|)
        invariant currentStep == if trace == before then old(currentStep) else number
        invariant closed ==> budget == Some(|trace|) && trace != before
        invariant !closed && budget.Some? ==> |trace| < budget.value
        decreases |before| + events - |trace|
      {
        SetCurrentStep(number);
        trace := trace + [number];
        closed := budget == Some(|trace|);
      }
    }

    /** One step of a full run: publish its events, then note its report if it returns one. */
    method RunStep(steps: seq<Step>, i: nat, budget: Option<nat>, before: seq<nat>, ghost start: int)
      returns (trace: seq<nat>, closed: bool)
      requires i < |steps| == TOTAL_STEPS && Underway(steps, budget, i, false, before)
      requires currentStep == LastStep(before, start)
      modifies this`currentStep, this`lastStatus, this`hasReport
      ensures currentStep == LastStep(trace, start)
      ensures closed ==> EndingOf(steps, budget) == Closed && TraceOf(steps, budget) == trace
      ensures closed ==> trace != [] && trace[|trace| - 1] != 0
      ensures !closed && steps[i].end.Raised? ==> Underway(steps, budget, i, true, trace)
      ensures !closed && steps[i].end.Done? ==> Underway(steps, budget, i + 1, false, trace)
      ensures closed || steps[i].end.Raised? || !steps[i].end.report ==>
        lastStatus == old(lastStatus) && hasReport == old(hasReport)
      ensures !closed && steps[i].end.Done? && steps[i].end.report ==> lastStatus == steps[i].end.status && hasReport
    {
      trace, closed := PublishStep(i + 1, steps[i].events, budget, before);
      LastStepOfRepeat(before, i + 1, |trace| - |before|, start);
      if closed {
        ClosedInStep(steps, budget, i, before, trace);
        return;
      }
      UnderwayNext(steps, budget, i, before);
      if steps[i].end.Done? && steps[i].end.report {
        hasReport, lastStatus := true, steps[i].end.status;
      }
    }

    /** The loop over the steps: it ends after the last one, at one that raises, or where the consumer closes it. */
    method RunSteps(steps: seq<Step>, budget: Option<nat>) returns (trace: seq<nat>, raised: bool, closed: bool)
      requires IsPipeline(steps)
      requires budget.Some? ==> budget.value >= 1
      modifies this`currentStep, this`lastStatus, this`hasReport
      ensures currentStep == LastStep(trace, old(currentStep))
      ensures closed ==> EndingOf(steps, budget) == Closed && TraceOf(steps, budget) == trace
      ensures closed ==> trace != [] && trace[|trace| - 1] != 0
      ensures !closed ==> Underway(steps, budget, TOTAL_STEPS, raised, trace)
      ensures closed || raised || !Report(steps) ==> lastStatus == old(lastStatus) && hasReport == old(hasReport)
      ensures !closed && !raised && Report(steps) ==> lastStatus == steps[TOTAL_STEPS - 1].end.status && hasReport
    {
      trace, raised, closed := [], false, false;
      var i := 0;
      UnderwayAtStart(steps, budget);
      while i < TOTAL_STEPS && !raised
        invariant 0 <= i <= TOTAL_STEPS
        invariant Underway(steps, budget, i, raised, trace)
        invariant currentStep == LastStep(trace, old(currentStep))
        invariant Noted(steps, i, raised, old(lastStatus), old(hasReport), lastStatus, hasReport)
        decreases TOTAL_STEPS - i, !raised
      {
        NothingNotedYet(steps, i, old(lastStatus), old(hasReport), lastStatus, hasReport);
        trace, closed := RunStep(steps, i, budget, trace, old(currentStep));
        if closed {
          return;
        }
        if steps[i].end.Raised? {
          raised := true;
        } else {
          i := i + 1;
        }
      }
      if raised {
        RaisedIsFinal(steps, budget, i, trace);
      }
    }

    /**
     * One full run, consumed to its end or closed after `budget` events (at
     * least one, as an untouched generator runs nothing).
     */
    method RunCleanInstall(steps: seq<Step>, budget: Option<nat>) returns (trace: seq<nat>, ending: Ending)
      requires IsPipeline(steps)
      requires budget.Some? ==> budget.value >= 1
      modifies this
      ensures trace == TraceOf(steps, budget) && ending == EndingOf(steps, budget)
      ensures currentStep == LastStep(trace, old(currentStep))
      ensures !isRunning
      ensures ending == Returned ==>
        steps[TOTAL_STEPS - 1].end.Done? && lastStatus == steps[TOTAL_STEPS - 1].end.status && hasReport
      ensures ending == Crashed ==> lastStatus == "failed"
      ensures ending == Closed ==> trace != [] && lastStatus == if trace[|trace| - 1] == 0 then "failed" else "running"
      ensures ending != Returned ==> hasReport == old(hasReport)
    {
      isRunning, lastStatus := true, "running";
      var raised, closed;
      trace, raised, closed := RunSteps(steps, budget);
      if closed {
        ending := Closed;
      } else {
        UnderwayEnds(steps, budget, TOTAL_STEPS, raised, trace);
        if raised || !Report(steps) {
          lastStatus := "failed";
          LastStepOfConcat(trace, [0], old(currentStep));
          assert [0][..0] == [];
          SetCurrentStep(0);
          trace := trace + [0];
          ending := if budget == Some(|trace|) then Closed else Crashed;
        } else {
          ending := Returned;
        }
      }
      Release();
    }

    /**
     * One step in isolation, consumed to its end or closed after `budget`
     * events; an unknown number only yields a step-0 error.
     */
    method RunSingleStep(number: int, step: Step, budget: Option<nat>) returns (trace: seq<int>, ending: Ending)
      requires budget.Some? ==> budget.value >= 1
      modifies this
      ensures currentStep == number && !isRunning
      ensures ending == SingleEnding(number, step, budget)
      ensures trace == if ending == Closed then SinglePublished(number, step)[..budget.value]
                       else SinglePublished(number, step)
      ensures lastStatus ==
        if ending == Closed then (if IsStep(number) && |trace| > step.events then "failed" else "running")
        else if ending == Crashed then "failed"
        else if IsStep(number) then step.end.status else "error"
      ensures hasReport == (old(hasReport) || (ending == Returned && IsStep(number) && step.end.report))
      ensures !(1 <= number <= 7) ==> trace == [0] && ending != Crashed
      ensures 1 <= number <= 7 ==> forall n :: n in trace ==> n == number
      ensures 1 <= number <= 7 && ending == Returned ==> step.end.Done? && |trace| == step.events
      ensures 1 <= number <= 7 && ending == Crashed ==> step.end.Raised? && |trace| == step.events + 1
      ensures ending == Closed ==> budget == Some(|trace|) && |trace| <= step.events + 1
      ensures ending != Closed && budget.Some? ==> |trace| < budget.value
    {
      isRunning, lastStatus := true, "running";
      currentStep := number;
      trace := [];
      if !(1 <= number <= TOTAL_STEPS) {
        trace := [0];
        if budget == Some(1) {
          ending := Closed;
        } else {
          lastStatus := "error";
          ending := Returned;
        }
        Release();
        return;
      }
      while |trace| < step.events
        invariant |trace| <= step.events
        invariant trace == SinglePublished(number, step)[..|trace|]
        invariant currentStep == number && lastStatus == "running" && hasReport == old(hasReport)
        invariant budget.Some? ==> |trace| < budget.value
      {
        trace := trace + [number];
        if budget == Some(|trace|) {
          Release();
          return trace, Closed;
        }
      }
      match step.end {
        case Done(status, report) =>
          if report {
            hasReport := true;
          }
          lastStatus := status;
          ending := Returned;
        case Raised =>
          lastStatus := "failed";
          trace := trace + [number];
          ending := if budget == Some(|trace|) then Closed else Crashed;
      }
      Release();
    }
  }
}
