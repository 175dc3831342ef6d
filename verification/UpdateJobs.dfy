/**
 * The background update job: at most one at a time, its published history,
 * and what an idle manager shows.
 */
module UpdateJobs {
  import opened Text

  // ------------------------------------------------- the manager as a machine

  datatype Kind = Info | Error | Warning | Success

  datatype Message = Lifecycle(kind: Kind, jobStatus: string) | Progress(event: string)

  datatype Outcome = Returned(status: string) | Raised(error: string)

  const TERMINAL: set<string> := {"up_to_date", "success", "partial", "failed"}

  /** How far a job got. `Rejected` means the executor was shut down. */
  datatype Phase = Claimed | Submitted | Rejected | Executing | Ended(outcome: Outcome) | Recorded | Announced | Closed

  /** A job, what its sink was given, and whether every publish so far went through. */
  datatype Job = Job(
    id: nat, project: Option<string>, status: string, error: Option<string>, finishedAt: Option<nat>,
    events: seq<string>, published: seq<Message>, delivered: bool, phase: Phase)

  /** Every job that got the run flag, in order; the last one is the current job. */
  datatype Manager = Manager(busy: bool, jobs: seq<Job>)

  const INIT := Manager(false, [])

  datatype Action =
    | Start(id: nat, project: Option<string>)
    | Submit(k: nat, accepted: bool)
    | Begin(k: nat, ok: bool)
    | Emit(k: nat, event: string, ok: bool)
    | End(k: nat, outcome: Outcome)
    | Record(k: nat, now: nat)
    | Announce(k: nat, ok: bool)
    | Idle(k: nat)

  predicate Enabled(m: Manager, a: Action) {
    a.Start? ||
    (a.k < |m.jobs| &&
      match a
      case Submit(k, _) => m.jobs[k].phase.Claimed?
      case Begin(k, _) => m.jobs[k].phase.Submitted?
      case Emit(k, _, _) => m.jobs[k].phase.Executing?
      case End(k, o) => m.jobs[k].phase.Executing? && (o.Returned? ==> o.status in TERMINAL)
      case Record(k, _) => m.jobs[k].phase.Ended?
      case Announce(k, _) => m.jobs[k].phase.Recorded?
      case Idle(k) => m.jobs[k].phase.Announced?
      case Start(_, _) => true)
  }

  /** The actions that clear `_busy`. */
  predicate FreesFlag(a: Action) {
    a.Idle? || (a.Submit? && !a.accepted)
  }

  function FinalStatus(o: Outcome): string {
    if o.Returned? then o.status else "failed"
  }

  function TerminalMessage(status: string): Message {
    Lifecycle(if status == "failed" then Error else if status == "partial" then Warning else Success, status)
  }

  function WithMessage(j: Job, msg: Message, ok: bool): Job {
    if ok then j.(published := j.published + [msg]) else j.(delivered := false)
  }

  /** The job after one of its own actions. */
  function JobStep(j: Job, a: Action): Job
    requires !a.Start?
    requires a.Record? ==> j.phase.Ended?
  {
    match a
    case Submit(_, accepted) => j.(phase := if accepted then Submitted else Rejected)
    case Begin(_, ok) =>
      // A start message that raises ends the runner before it ran.
      WithMessage(j, Lifecycle(Info, j.status), ok).(phase := if ok then Executing else Ended(Raised("publish")))
    case Emit(_, ev, ok) => WithMessage(j.(events := j.events + [ev]), Progress(ev), ok)
    case End(_, o) => j.(phase := Ended(o))
    case Record(_, now) =>
      j.(status := FinalStatus(j.phase.outcome),
         error := if j.phase.outcome.Raised? then Some(j.phase.outcome.error) else None,
         finishedAt := Some(now), phase := Recorded)
    case Announce(_, ok) => WithMessage(j, TerminalMessage(j.status), ok).(phase := Announced)
    case Idle(_) => j.(phase := Closed)
  }

  function NewJob(id: nat, project: Option<string>): Job {
    Job(id, project, "running", None, None, [], [], true, Claimed)
  }

  function Step(m: Manager, a: Action): Manager
    requires Enabled(m, a)
  {
    match a
    case Start(id, project) =>
      if m.busy then m else Manager(true, m.jobs + [NewJob(id, project)])
    case _ =>
      Manager(
        m.busy && !FreesFlag(a),
        m.jobs[a.k := JobStep(m.jobs[a.k], a)])
  }

  ghost predicate Legal(m: Manager, actions: seq<Action>)
    decreases |actions|, 0
  {
    actions == [] ||
    (Legal(m, actions[..|actions| - 1]) && Enabled(Perform(m, actions[..|actions| - 1]), actions[|actions| - 1]))
  }

  ghost function Perform(m: Manager, actions: seq<Action>): Manager
    requires Legal(m, actions)
    decreases |actions|, 1
  {
    if actions == [] then m else Step(Perform(m, actions[..|actions| - 1]), actions[|actions| - 1])
  }

  // --------------------------------------------------------------- invariant

  predicate Live(p: Phase) {
    !p.Rejected? && !p.Closed?
  }

  function Started(): seq<Message> { [Lifecycle(Info, "running")] }

  function Progresses(events: seq<string>): (r: seq<Message>)
    ensures |r| == |events| && forall i :: 0 <= i < |events| ==> r[i] == Progress(events[i])
  {
    seq(|events|, i requires 0 <= i < |events| => Progress(events[i]))
  }

  /** The messages of a job whose sink never raised. */
  function History(j: Job): seq<Message> {
    match j.phase
    case Claimed => [] case Submitted => [] case Rejected => []
    case Executing => Started() + Progresses(j.events)
    case Ended(_) => Started() + Progresses(j.events)
    case Recorded => Started() + Progresses(j.events)
    case Announced => Started() + Progresses(j.events) + [TerminalMessage(j.status)]
    case Closed => Started() + Progresses(j.events) + [TerminalMessage(j.status)]
  }

  predicate Finished(p: Phase) {
    p.Recorded? || p.Announced? || p.Closed?
  }

  ghost predicate JobInv(j: Job) {
    && (j.delivered ==> j.published == History(j))
    && (j.finishedAt.Some? <==> Finished(j.phase))
    && (Finished(j.phase) ==> j.status in TERMINAL)
    && (!Finished(j.phase) ==> j.status == "running" && j.error.None?)
    && (j.error.Some? ==> j.status == "failed")
    && (j.phase.Ended? && j.phase.outcome.Returned? ==> j.phase.outcome.status in TERMINAL)
    && (j.phase.Claimed? || j.phase.Submitted? || j.phase.Rejected? ==> j.events == [])
  }

  ghost predicate Inv(m: Manager) {
    && (forall k :: 0 <= k < |m.jobs| ==> JobInv(m.jobs[k]))
    && (forall k :: 0 <= k < |m.jobs| - 1 ==> !Live(m.jobs[k].phase))
    && (m.busy <==> m.jobs != [] && Live(m.jobs[|m.jobs| - 1].phase))
  }

  lemma JobStepKeepsInv(m: Manager, a: Action)
    requires Enabled(m, a) && !a.Start? && JobInv(m.jobs[a.k])
    ensures JobInv(JobStep(m.jobs[a.k], a))
  {
    var j := m.jobs[a.k];
    if a.Emit? {
      assert Progresses(j.events + [a.event]) == Progresses(j.events) + [Progress(a.event)];
    }
  }

  lemma StepKeepsInv(m: Manager, a: Action)
    requires Inv(m) && Enabled(m, a)
    ensures Inv(Step(m, a))
  {
    if !a.Start? {
      JobStepKeepsInv(m, a);
    }
  }

  lemma {:induction false} InvAlways(actions: seq<Action>)
    requires Legal(INIT, actions)
    ensures Inv(Perform(INIT, actions))
  {
    if actions != [] {
      InvAlways(actions[..|actions| - 1]);
      StepKeepsInv(Perform(INIT, actions[..|actions| - 1]), actions[|actions| - 1]);
    }
  }

  // ----------------------------------------------------------- what it means

  /**
   * In every interleaving: only the newest job can be live, `_busy` tells
   * exactly whether it is, and while the manager is idle the newest job is
   * over; it shows a terminal status and a finish time exactly unless the
   * executor rejected it.
   */
  lemma IdleManagerShowsResult(actions: seq<Action>)
    requires Legal(INIT, actions)
    ensures var m := Perform(INIT, actions);
      && (forall k :: 0 <= k < |m.jobs| && Live(m.jobs[k].phase) ==> m.busy && k == |m.jobs| - 1)
      && (!m.busy && m.jobs != [] ==>
          var last := m.jobs[|m.jobs| - 1];
          && (last.phase.Closed? || last.phase.Rejected?)
          && (last.phase.Closed? <==> last.status in TERMINAL)
          && (last.phase.Closed? <==> last.finishedAt.Some?)
          && (last.phase.Rejected? <==> last.status == "running"))
  {
    InvAlways(actions);
  }

  /** A run that ends idle with a job that says `running` for good. */
  lemma RejectedJobSaysRunning(id: nat, project: Option<string>) returns (actions: seq<Action>)
    ensures Legal(INIT, actions) && actions == [Start(id, project), Submit(0, false)]
    ensures Perform(INIT, actions) == Manager(false, [NewJob(id, project).(phase := Rejected)])
    ensures Perform(INIT, actions).jobs[0].status == "running" && !Live(Perform(INIT, actions).jobs[0].phase)
  {
    var start := [Start(id, project)];
    assert start[..0] == [];
    assert Legal(INIT, []) && Perform(INIT, []) == INIT && Enabled(INIT, start[0]);
    assert Legal(INIT, start);
    assert Perform(INIT, start) == Manager(true, [NewJob(id, project)]);
    actions := start + [Submit(0, false)];
    assert actions[..1] == start && Enabled(Perform(INIT, start), actions[1]);
    assert Legal(INIT, actions);
  }

  /** The terminal message for each of the four statuses a job can end with. */
  predicate Announces(msg: Message, status: string) {
    || (status == "failed" && msg == Lifecycle(Error, "failed"))
    || (status == "partial" && msg == Lifecycle(Warning, "partial"))
    || (status == "success" && msg == Lifecycle(Success, "success"))
    || (status == "up_to_date" && msg == Lifecycle(Success, "up_to_date"))
  }

  /** A closed job was told exactly: started, its recorded events in order, one terminal message. */
  lemma ClosedJobHistory(actions: seq<Action>, k: nat)
    requires Legal(INIT, actions) && k < |Perform(INIT, actions).jobs|
    requires var j := Perform(INIT, actions).jobs[k]; j.phase.Closed? && j.delivered
    ensures var j := Perform(INIT, actions).jobs[k];
      && |j.published| == |j.events| + 2
      && j.published[0] == Lifecycle(Info, "running")
      && (forall i :: 0 <= i < |j.events| ==> j.published[i + 1] == Progress(j.events[i]))
      && Announces(j.published[|j.events| + 1], j.status)
  {
    InvAlways(actions);
    ClosedHistoryShape(Perform(INIT, actions).jobs[k]);
  }

  lemma ClosedHistoryShape(j: Job)
    requires JobInv(j) && j.phase.Closed? && j.delivered
    ensures j.published == Started() + Progresses(j.events) + [TerminalMessage(j.status)]
    ensures |j.published| == |j.events| + 2
    ensures j.published[0] == Lifecycle(Info, "running")
    ensures forall i :: 0 <= i < |j.events| ==> j.published[i + 1] == Progress(j.events[i])
    ensures j.published[|j.events| + 1] == TerminalMessage(j.status)
  {
    var told := Progresses(j.events);
    assert j.published == Started() + told + [TerminalMessage(j.status)];
    forall i | 0 <= i < |j.events|
      ensures j.published[i + 1] == Progress(j.events[i])
    {
      assert (Started() + told)[i + 1] == told[i];
    }
  }

  /** The action ends the runner of job `k` with `o`: it returned or raised, or the start message raised. */
  predicate Ends(a: Action, k: nat, o: Outcome) {
    a == End(k, o) || (a == Begin(k, false) && o == Raised("publish"))
  }

  /** The job is about to record `o`, or shows it: a returned status as it is, an error as `failed`. */
  predicate Shows(j: Job, o: Outcome) {
    || j.phase == Ended(o)
    || ((j.phase.Recorded? || j.phase.Announced? || j.phase.Closed?) &&
        match o
        case Returned(status) => j.status == status && j.error == None
        case Raised(error) => j.status == "failed" && j.error == Some(error))
  }

  /** Once a runner has ended, its job shows exactly that outcome, whatever else happens. */
  lemma {:induction false} OutcomeIsShown(actions: seq<Action>, i: nat, k: nat, o: Outcome)
    requires Legal(INIT, actions) && i < |actions| && Ends(actions[i], k, o)
    ensures k < |Perform(INIT, actions).jobs| && Shows(Perform(INIT, actions).jobs[k], o)
  {
    var init, last := actions[..|actions| - 1], actions[|actions| - 1];
    if i < |init| {
      assert init[i] == actions[i];
      OutcomeIsShown(init, i, k, o);
      ShownStays(Perform(INIT, init), last, k, o);
    }
  }

  lemma ShownStays(m: Manager, a: Action, k: nat, o: Outcome)
    requires Enabled(m, a) && k < |m.jobs| && Shows(m.jobs[k], o)
    ensures k < |Step(m, a).jobs| && Shows(Step(m, a).jobs[k], o)
  {
  }

  /** So a closed job ends with its runner's status and announces that, if every publish went through. */
  lemma OutcomeIsAnnounced(actions: seq<Action>, i: nat, k: nat, o: Outcome)
    requires Legal(INIT, actions) && i < |actions| && Ends(actions[i], k, o)
    requires Perform(INIT, actions).jobs != [] && k < |Perform(INIT, actions).jobs|
    requires Perform(INIT, actions).jobs[k].phase.Closed? && Perform(INIT, actions).jobs[k].delivered
    ensures var published := Perform(INIT, actions).jobs[k].published;
      published != [] && Announces(published[|published| - 1], if o.Returned? then o.status else "failed")
  {
    OutcomeIsShown(actions, i, k, o);
    ClosedJobHistory(actions, k);
  }

  /** The events the runner of job `k` emitted, in order. */
  function EmittedBy(actions: seq<Action>, k: nat): seq<string> {
    if actions == [] then []
    else
      var last := actions[|actions| - 1];
      EmittedBy(actions[..|actions| - 1], k) + if last.Emit? && last.k == k then [last.event] else []
  }

  /** A job has recorded exactly what its runner emitted. */
  lemma {:induction false} EventsAreRecorded(actions: seq<Action>, k: nat)
    requires Legal(INIT, actions)
    ensures k < |Perform(INIT, actions).jobs| ==> Perform(INIT, actions).jobs[k].events == EmittedBy(actions, k)
    ensures k >= |Perform(INIT, actions).jobs| ==> EmittedBy(actions, k) == []
  {
    if actions != [] {
      EventsAreRecorded(actions[..|actions| - 1], k);
    }
  }

  /** A job belongs to the start that created it. */
  lemma {:induction false} JobsWereStarted(actions: seq<Action>, k: nat)
    requires Legal(INIT, actions)
    ensures k < |Perform(INIT, actions).jobs| ==>
      exists i :: 0 <= i < |actions| &&
        actions[i] == Start(Perform(INIT, actions).jobs[k].id, Perform(INIT, actions).jobs[k].project)
  {
    if actions != [] {
      var init, last := actions[..|actions| - 1], actions[|actions| - 1];
      JobsWereStarted(init, k);
      var before, after := Perform(INIT, init), Perform(INIT, actions);
      if k < |before.jobs| {
        assert after.jobs[k].id == before.jobs[k].id && after.jobs[k].project == before.jobs[k].project;
        var i :| 0 <= i < |init| && init[i] == Start(before.jobs[k].id, before.jobs[k].project);
        assert actions[i] == init[i];
      } else if k < |after.jobs| {
        assert actions[|actions| - 1] == Start(after.jobs[k].id, after.jobs[k].project);
      }
    }
  }

  /** A job that is over is frozen: whatever happens later leaves it as it is. */
  lemma {:induction false} FinishedJobsAreFrozen(m: Manager, actions: seq<Action>, k: nat)
    requires Inv(m) && Legal(m, actions)
    requires k < |m.jobs| && !Live(m.jobs[k].phase)
    ensures k < |Perform(m, actions).jobs| && Perform(m, actions).jobs[k] == m.jobs[k]
  {
    if actions != [] {
      FinishedJobsAreFrozen(m, actions[..|actions| - 1], k);
    }
  }

  /**
   * In every interleaving a start is refused exactly while some job is live,
   * which can only be the newest; a refusal changes nothing, and a start that
   * is let through comes when every earlier job is over.
   */
  lemma StartRefusedExactlyWhileLive(actions: seq<Action>, id: nat, project: Option<string>)
    requires Legal(INIT, actions)
    ensures var m := Perform(INIT, actions); var started := Step(m, Start(id, project));
      && (started == m <==> exists k :: 0 <= k < |m.jobs| && Live(m.jobs[k].phase))
      && (started == m <==> m.jobs != [] && Live(m.jobs[|m.jobs| - 1].phase))
      && (started != m ==> started == Manager(true, m.jobs + [NewJob(id, project)]))
  {
    InvAlways(actions);
    var m := Perform(INIT, actions);
    assert m.busy ==> Live(m.jobs[|m.jobs| - 1].phase);
  }

  // ------------------------------------------------------------- the objects

  /** A job object; `published` and `phase` record what its sink saw and how far it got. */
  class UpdateJob {
    const id: nat
    const project: Option<string>
    var status: string
    var error: Option<string>
    var finishedAt: Option<nat>
    var events: seq<string>
    ghost var published: seq<Message>
    ghost var delivered: bool
    ghost var phase: Phase

    constructor (id: nat, project: Option<string>)
      ensures View() == NewJob(id, project)
    {
      this.id, this.project, status := id, project, "running";
      error, finishedAt, events := None, None, [];
      published, delivered, phase := [], true, Claimed;
    }

    ghost function View(): Job
      reads this
    {
      Job(id, project, status, error, finishedAt, events, published, delivered, phase)
    }
  }

  /** One progress event of a runner and whether publishing it went through. */
  datatype Report = Report(event: string, ok: bool)

  /** What a runner does: the events it emits and how it ends. */
  datatype Script = Script(startOk: bool, reports: seq<Report>, outcome: Outcome) {
    predicate Valid() {
      outcome.Returned? ==> outcome.status in TERMINAL
    }
  }

  /** The actions of `_run` for the job at `k`. */
  function EmitActions(k: nat, reports: seq<Report>): (r: seq<Action>)
    ensures |r| == |reports| && forall i :: 0 <= i < |r| ==> r[i] == Emit(k, reports[i].event, reports[i].ok)
  {
    seq(|reports|, i requires 0 <= i < |reports| => Emit(k, reports[i].event, reports[i].ok))
  }

  lemma {:induction false} EmitsAreLegal(m: Manager, k: nat, reports: seq<Report>)
    requires k < |m.jobs| && m.jobs[k].phase.Executing?
    ensures Legal(m, EmitActions(k, reports))
    ensures var t := Perform(m, EmitActions(k, reports)); k < |t.jobs| && t.jobs[k].phase.Executing?
  {
    if reports != [] {
      var init := reports[..|reports| - 1];
      EmitsAreLegal(m, k, init);
      assert EmitActions(k, reports)[..|reports| - 1] == EmitActions(k, init);
    }
  }

  class UpdateJobManager {
    var busy: bool
    var job: UpdateJob?
    ghost var past: seq<Job>

    constructor ()
      ensures job == null && View() == INIT
    {
      busy, job, past := false, null, [];
    }

    ghost function View(): Manager
      reads this, job
    {
      Manager(busy, if job == null then past else past + [job.View()])
    }

    ghost function Index(): nat
      reads this
    {
      |past|
    }

    /** Claim the run flag and hand the job to the executor; None is a refusal. */
    method Start(id: nat, project: Option<string>, executorUp: bool) returns (started: UpdateJob?, accepted: bool)
      modifies this
      ensures old(busy) ==> started == null && !accepted && View() == old(View())
      ensures !old(busy) ==> started != null && fresh(started) && job == started && accepted == executorUp
      ensures !old(busy) ==> Index() == |old(View()).jobs|
      ensures !old(busy) ==>
        && started.id == id && started.project == project && started.status == "running" && started.error == None
        && started.finishedAt == None && started.events == [] && busy == executorUp
      ensures !old(busy) ==> View() == Step(Step(old(View()), Action.Start(id, project)), Submit(Index(), executorUp))
    {
      if busy {
        return null, false;
      }
      if job != null {
        past := past + [job.View()];
      }
      started := new UpdateJob(id, project);
      busy, job := true, started;
      if !executorUp {
        SetIdle();
        started.phase := Rejected;
        return started, false;
      }
      started.phase := Submitted;
      return started, true;
    }

    /** The manager's view follows its current job. */
    lemma FollowsJob(before: Manager, a: Action)
      requires !a.Start? && job != null && |before.jobs| == |past| + 1 && past <= before.jobs && a.k == |past| &&
        Enabled(before, a)
      requires job.View() == JobStep(before.jobs[|past|], a) && busy == (before.busy && !FreesFlag(a))
      ensures View() == Step(before, a)
    {
    }

    method Publish(j: UpdateJob, msg: Message, ok: bool)
      modifies j`published, j`delivered
      ensures j.View() == WithMessage(old(j.View()), msg, ok)
    {
      if ok {
        j.published := j.published + [msg];
      } else {
        j.delivered := false;
      }
    }

    /** The sink handed to the runner: record the event, then publish it. */
    method EmitEvent(j: UpdateJob, r: Report)
      requires j == job && j.phase == Executing
      modifies j
      ensures View() == Step(old(View()), Emit(Index(), r.event, r.ok))
      ensures j.phase == Executing
      ensures j.events == old(j.events) + [r.event]
      ensures r.ok ==> j.published == old(j.published) + [Progress(r.event)]
    {
      ghost var before := View();
      j.events := j.events + [r.event];
      Publish(j, Progress(r.event), r.ok);
      FollowsJob(before, Emit(Index(), r.event, r.ok));
    }

    /** The worker body: start message, then the runner's events. Its outcome goes to the future. */
    method Run(j: UpdateJob, script: Script) returns (outcome: Outcome)
      requires j == job && j.phase == Submitted && script.Valid()
      modifies j
      ensures job == j && j.phase == Ended(outcome)
      ensures var began := Step(old(View()), Begin(Index(), script.startOk));
        if !script.startOk then View() == began
        else
          && Legal(began, EmitActions(Index(), script.reports))
          && View() == Step(Perform(began, EmitActions(Index(), script.reports)), End(Index(), script.outcome))
    {
      ghost var start := View();
      Publish(j, Lifecycle(Info, j.status), script.startOk);
      if !script.startOk {
        outcome := Raised("publish");
        j.phase := Ended(outcome);
        FollowsJob(start, Begin(Index(), false));
        return;
      }
      j.phase := Executing;
      FollowsJob(start, Begin(Index(), true));
      EmitAll(j, script.reports);
      ghost var before := View();
      outcome := script.outcome;
      j.phase := Ended(outcome);
      FollowsJob(before, End(Index(), outcome));
    }

    /** The runner's events, one after the other. */
    method EmitAll(j: UpdateJob, reports: seq<Report>)
      requires j == job && j.phase == Executing
      modifies j
      ensures j.phase == Executing
      ensures Legal(old(View()), EmitActions(Index(), reports))
      ensures View() == Perform(old(View()), EmitActions(Index(), reports))
    {
      ghost var began := View();
      for i := 0 to |reports|
        invariant j.phase == Executing
        invariant Legal(began, EmitActions(Index(), reports[..i]))
        invariant View() == Perform(began, EmitActions(Index(), reports[..i]))
      {
        EmitEvent(j, reports[i]);
        EmitsAreLegal(began, Index(), reports[..i + 1]);
        assert EmitActions(Index(), reports[..i + 1])[..i] == EmitActions(Index(), reports[..i]);
      }
      assert reports[..|reports|] == reports;
    }

    /** The done-callback: record the outcome, announce it, free the run flag. */
    method Finish(j: UpdateJob, outcome: Outcome, now: nat, publishOk: bool)
      requires j == job && j.phase == Ended(outcome)
      modifies this, j
      ensures job == j
      ensures View() ==
        Step(Step(Step(old(View()), Record(old(Index()), now)), Announce(old(Index()), publishOk)), Idle(old(Index())))
      ensures !busy && j.finishedAt == Some(now) && Shows(j.View(), outcome)
      ensures publishOk && (outcome.Returned? ==> outcome.status in TERMINAL) ==>
        |j.published| == |old(j.published)| + 1 && Announces(j.published[|old(j.published)|], j.status)
    {
      RecordOutcome(j, outcome, now);
      AnnounceOutcome(j, publishOk);
      ghost var before := View();
      SetIdle();
      j.phase := Closed;
      FollowsJob(before, Idle(Index()));
    }

    method RecordOutcome(j: UpdateJob, outcome: Outcome, now: nat)
      requires j == job && j.phase == Ended(outcome)
      modifies j
      ensures View() == Step(old(View()), Record(Index(), now)) && j.phase == Recorded
      ensures j.finishedAt == Some(now) && Shows(j.View(), outcome) && j.published == old(j.published)
    {
      ghost var before := View();
      match outcome {
        case Returned(status) => j.status, j.error := status, None;
        case Raised(error) => j.status, j.error := "failed", Some(error);
      }
      j.finishedAt, j.phase := Some(now), Recorded;
      FollowsJob(before, Record(Index(), now));
    }

    method AnnounceOutcome(j: UpdateJob, publishOk: bool)
      requires j == job && j.phase == Recorded
      modifies j
      ensures View() == Step(old(View()), Announce(Index(), publishOk)) && j.phase == Announced
      ensures j.status == old(j.status) && j.error == old(j.error) && j.finishedAt == old(j.finishedAt)
      ensures publishOk && j.status in TERMINAL ==>
        |j.published| == |old(j.published)| + 1 && Announces(j.published[|old(j.published)|], j.status)
    {
      ghost var before := View();
      var kind := Success;
      if j.status == "failed" {
        kind := Error;
      } else if j.status == "partial" {
        kind := Warning;
      }
      Publish(j, Lifecycle(kind, j.status), publishOk);
      j.phase := Announced;
      FollowsJob(before, Announce(Index(), publishOk));
    }

    method SetIdle()
      modifies this`busy
      ensures !busy
    {
      busy := false;
    }
  }
}
