/** Applying an upgrade plan: pinned installs, pip check, freeze snapshots and rollback. */
module UpgradeApply {
  import opened Text
  import opened Resolver
  import opened UpgradePlan

  datatype Status = Upgraded | Skipped | Verified | Blocked | Failed

  /** A package's own event, or one about a project as a whole. */
  datatype Event =
    | Package(project: string, package: string, oldVersion: string, newVersion: string, status: Status)
    | Summary(project: string, about: string, status: Status)

  /** What happened, in order, and the project's environment right after it. */
  datatype Entry =
    | Frozen(project: string, ok: bool, env: State)
    | Installed(project: string, pins: seq<Outdated>, cuda: bool, ok: bool, env: State)
    | Checked(project: string, ok: bool, env: State)
    | Restored(project: string, ok: bool, env: State)
    | Emitted(event: Event, env: State)

  function ProjectOf(e: Entry): string {
    if e.Emitted? then e.event.project else e.project
  }

  /**
   * What pip means: `meets(installed, wanted)` for a `==` pin, `consistent`
   * for an environment `pip check` accepts, `listed` for a name `pip freeze` shows.
   */
  datatype Rules = Rules(meets: (string, string) -> bool, consistent: State -> bool, listed: string -> bool)

  /** `pin` is installed at the version it asks for. */
  predicate Holds(rules: Rules, env: State, pin: Outdated) {
    Key(pin) in env && rules.meets(env[Key(pin)], pin.latest)
  }

  predicate AllHold(rules: Rules, env: State, pins: seq<Outdated>) {
    forall pin :: pin in pins ==> Holds(rules, env, pin)
  }

  /** The part of `env` a freeze records. */
  function Listed(rules: Rules, env: State): State {
    map n | n in env && rules.listed(n) :: env[n]
  }

  /** Everything listed in `before` is at the same version in `after`. */
  predicate KeepsListed(rules: Rules, before: State, after: State) {
    forall n :: n in before && rules.listed(n) ==> n in after && after[n] == before[n]
  }

  /** A restore that rewrites exactly the snapshot's names leaves the rest of `broken` in place. */
  lemma RestoreIsExact(rules: Rules, before: State, broken: State)
    ensures KeepsListed(rules, before, broken + Listed(rules, before))
    ensures broken + Listed(rules, before) == before <==>
      forall n :: !(n in before && rules.listed(n)) ==>
        (n in broken <==> n in before) && (n in broken ==> broken[n] == before[n])
  {
    var after := broken + Listed(rules, before);
    if after == before {
      forall n | !(n in before && rules.listed(n))
        ensures (n in broken <==> n in before) && (n in broken ==> broken[n] == before[n])
      {
        assert n in after <==> n in broken;
        assert n in broken ==> after[n] == broken[n];
      }
    }
    if forall n :: !(n in before && rules.listed(n)) ==>
      (n in broken <==> n in before) && (n in broken ==> broken[n] == before[n])
    {
      forall n
        ensures (n in after <==> n in before) && (n in after ==> after[n] == before[n])
      {
      }
    }
  }

  function EnvIn(venvs: map<string, State>, project: string): State {
    if project in venvs then venvs[project] else map[]
  }

  /** Only the environment of `project` may differ. */
  ghost predicate OnlyVenv(before: map<string, State>, after: map<string, State>, project: string) {
    forall other :: other != project ==> EnvIn(before, other) == EnvIn(after, other)
  }

  // Properties of a history

  /** Every `upgraded` event of a package was yielded with its pin in place in an environment pip check accepts. */
  ghost predicate Honest(rules: Rules, trace: seq<Entry>) {
    forall i :: 0 <= i < |trace| ==> HonestEntry(rules, trace[i])
  }

  ghost predicate HonestEntry(rules: Rules, e: Entry) {
    e.Emitted? && e.event.Package? && e.event.status == Upgraded ==>
      && Normalize(e.event.package) in e.env
      && rules.meets(e.env[Normalize(e.event.package)], e.event.newVersion)
      && rules.consistent(e.env)
  }

  /** After a successful restore nothing more is installed in that project. */
  ghost predicate QuietAfterRestore(trace: seq<Entry>) {
    forall i, j :: 0 <= i < j < |trace| && trace[i].Restored? && trace[i].ok && trace[j].Installed? ==>
      trace[i].project != trace[j].project
  }

  ghost predicate SuccessfulRestore(trace: seq<Entry>) {
    exists i :: 0 <= i < |trace| && trace[i].Restored? && trace[i].ok
  }

  ghost predicate InstallsNothing(trace: seq<Entry>) {
    forall i :: 0 <= i < |trace| ==> !trace[i].Installed?
  }

  /** `trace` concerns `project` alone, installs exactly `regular`, or `torch` from the CUDA index, and is honest. */
  ghost predicate Good(rules: Rules, project: string, regular: seq<Outdated>, torch: seq<Outdated>, trace: seq<Entry>) {
    && Honest(rules, trace)
    && (forall i :: 0 <= i < |trace| ==> ProjectOf(trace[i]) == project)
    && (forall i :: 0 <= i < |trace| && trace[i].Installed? ==>
      trace[i].pins == if trace[i].cuda then torch else regular)
  }

  lemma GoodConcat(rules: Rules, project: string, regular: seq<Outdated>, torch: seq<Outdated>, a: seq<Entry>,
      b: seq<Entry>)
    requires Good(rules, project, regular, torch, a) && Good(rules, project, regular, torch, b)
    ensures Good(rules, project, regular, torch, a + b)
  {
  }

  lemma QuietConcat(a: seq<Entry>, b: seq<Entry>)
    requires QuietAfterRestore(a) && QuietAfterRestore(b)
    requires !SuccessfulRestore(a) || InstallsNothing(b)
    ensures QuietAfterRestore(a + b)
  {
  }

  lemma RestoreConcat(a: seq<Entry>, b: seq<Entry>)
    ensures SuccessfulRestore(a + b) <==> SuccessfulRestore(a) || SuccessfulRestore(b)
  {
    var c := a + b;
    if i :| 0 <= i < |c| && c[i].Restored? && c[i].ok {
      assert i < |a| ==> a[i] == c[i];
      assert i >= |a| ==> b[i - |a|] == c[i];
    }
    if i :| 0 <= i < |a| && a[i].Restored? && a[i].ok {
      assert c[i] == a[i];
    }
    if i :| 0 <= i < |b| && b[i].Restored? && b[i].ok {
      assert c[|a| + i] == b[i];
    }
  }

  predicate OkStatus(s: Status) {
    s.Upgraded? || s.Skipped?
  }

  /** The events yielded in a history. */
  function EventsOf(trace: seq<Entry>): seq<Event> {
    if trace == [] then []
    else
      var last := trace[|trace| - 1];
      EventsOf(trace[..|trace| - 1]) + if last.Emitted? then [last.event] else []
  }

  lemma {:induction false} EventsOfConcat(a: seq<Entry>, b: seq<Entry>)
    ensures EventsOf(a + b) == EventsOf(a) + EventsOf(b)
  {
    if b == [] {
      assert a + b == a;
    } else {
      assert (a + b)[..|a + b| - 1] == a + b[..|b| - 1];
      EventsOfConcat(a, b[..|b| - 1]);
    }
  }

  lemma {:induction false} NoEvents(trace: seq<Entry>)
    requires forall i :: 0 <= i < |trace| ==> !trace[i].Emitted?
    ensures EventsOf(trace) == []
  {
    if trace != [] {
      NoEvents(trace[..|trace| - 1]);
    }
  }

  function UpgradedEntries(project: string, packages: seq<Outdated>, env: State): (entries: seq<Entry>)
    ensures |entries| == |packages| && UpgradesFrom(entries, 0, project, packages, env)
  {
    seq(|packages|, i requires 0 <= i < |packages| =>
      Emitted(Package(project, packages[i].name, packages[i].current, packages[i].latest, Upgraded), env))
  }

  /** From `m` on, one `upgraded` event per package, in order, each from its old version to its new one. */
  ghost predicate UpgradesFrom(trace: seq<Entry>, m: nat, project: string, packages: seq<Outdated>, env: State) {
    && m + |packages| <= |trace|
    && forall i :: m <= i < m + |packages| ==>
        var pkg := packages[i - m];
        trace[i] == Emitted(Package(project, pkg.name, pkg.current, pkg.latest, Upgraded), env)
  }

  /** The install at `g` worked and passed pip check. */
  ghost predicate Succeeds(trace: seq<Entry>, g: nat) {
    && g + 1 < |trace| && trace[g].Installed? && trace[g].ok
    && trace[g + 1].Checked? && trace[g + 1].ok
  }

  /** The first event after the install at `g` says that its batch failed. */
  ghost predicate FailureAt(trace: seq<Entry>, g: nat, m: nat, project: string)
    requires g < |trace| && trace[g].Installed?
  {
    && g < m < |trace| && (forall k :: g < k < m ==> !trace[k].Emitted?)
    && trace[m].Emitted?
    && trace[m].event == Summary(project, if trace[g].cuda then "torch-family" else "(batch)", Failed)
  }

  /** What is yielded about the install at `g`. */
  ghost predicate ReportedAt(trace: seq<Entry>, g: nat, project: string)
    requires g < |trace| && trace[g].Installed?
  {
    if Succeeds(trace, g) then UpgradesFrom(trace, g + 2, project, trace[g].pins, trace[g].env)
    else exists m: nat :: FailureAt(trace, g, m, project)
  }

  predicate UpgradedEvent(e: Entry) {
    e.Emitted? && e.event.Package? && e.event.status == Upgraded
  }

  ghost predicate UpgradesNothing(trace: seq<Entry>) {
    forall m :: 0 <= m < |trace| ==> !UpgradedEvent(trace[m])
  }

  /** The event at `m` belongs to the successful install at `g`. */
  ghost predicate BelongsTo(trace: seq<Entry>, m: nat, g: nat) {
    Succeeds(trace, g) && g + 2 <= m < g + 2 + |trace[g].pins|
  }

  /** Every install is reported, and no package is reported as upgraded but after a successful install. */
  ghost predicate Reports(trace: seq<Entry>, project: string) {
    && (forall g: nat {:trigger ReportedAt(trace, g, project)} ::
          g < |trace| && trace[g].Installed? ==> ReportedAt(trace, g, project))
    && (forall m: nat {:trigger UpgradedEvent(trace[m])} ::
          m < |trace| && UpgradedEvent(trace[m]) ==> exists g: nat :: BelongsTo(trace, m, g))
  }

  lemma ReportsNothing(trace: seq<Entry>, project: string)
    requires InstallsNothing(trace) && UpgradesNothing(trace)
    ensures Reports(trace, project)
  {
  }

  lemma ReportedLeft(a: seq<Entry>, b: seq<Entry>, g: nat, project: string)
    requires g < |a| && a[g].Installed? && ReportedAt(a, g, project)
    ensures ReportedAt(a + b, g, project)
  {
    if !Succeeds(a, g) {
      var m: nat :| FailureAt(a, g, m, project);
      assert FailureAt(a + b, g, m, project);
    }
  }

  lemma ReportedRight(a: seq<Entry>, b: seq<Entry>, g: nat, project: string)
    requires g < |b| && b[g].Installed? && ReportedAt(b, g, project)
    ensures ReportedAt(a + b, |a| + g, project)
  {
    var c := a + b;
    assert forall i :: 0 <= i < |b| ==> c[|a| + i] == b[i];
    if !Succeeds(b, g) {
      var m: nat :| FailureAt(b, g, m, project);
      assert forall k :: |a| + g < k < |a| + m ==> c[k] == b[k - |a|];
      assert FailureAt(c, |a| + g, |a| + m, project);
    } else {
      assert Succeeds(c, |a| + g);
      assert forall i :: |a| + g + 2 <= i < |a| + |b| ==> c[i] == b[i - |a|];
    }
  }

  lemma ReportsConcat(a: seq<Entry>, b: seq<Entry>, project: string)
    requires Reports(a, project) && Reports(b, project)
    ensures Reports(a + b, project)
  {
    var c := a + b;
    forall g: nat | g < |c| && c[g].Installed?
      ensures ReportedAt(c, g, project)
    {
      if g < |a| {
        assert ReportedAt(a, g, project);
        ReportedLeft(a, b, g, project);
      } else {
        assert ReportedAt(b, g - |a|, project);
        ReportedRight(a, b, g - |a|, project);
      }
    }
    forall m: nat | m < |c| && UpgradedEvent(c[m])
      ensures exists g: nat :: BelongsTo(c, m, g)
    {
      if m < |a| {
        assert UpgradedEvent(a[m]);
        var g: nat :| BelongsTo(a, m, g);
        assert BelongsTo(c, m, g);
      } else {
        assert UpgradedEvent(b[m - |a|]);
        var g: nat :| BelongsTo(b, m - |a|, g);
        assert BelongsTo(c, m, |a| + g);
      }
    }
  }

  /**
   * What one batch does: freeze, install, check if the install succeeded, and
   * if either failed restore the snapshot if one was taken.
   */
  ghost predicate BatchTrace(project: string, pins: seq<Outdated>, cuda: bool, ok: bool, rolledBack: bool,
      trace: seq<Entry>)
  {
    && |trace| >= 2 && trace[0].Frozen? && trace[1].Installed?
    && trace == BatchEntries(project, pins, cuda, trace[0], trace[1], ok, rolledBack, trace[|trace| - 1].env)
    && (ok ==> trace[1].ok)
    && (rolledBack ==> !ok && trace[0].ok)
  }

  function BatchEntries(project: string, pins: seq<Outdated>, cuda: bool, freeze: Entry, install: Entry, ok: bool,
      rolledBack: bool, after: State): seq<Entry>
    requires freeze.Frozen? && install.Installed?
  {
    [Frozen(project, freeze.ok, freeze.env), Installed(project, pins, cuda, install.ok, install.env)]
    + (if install.ok then [Checked(project, ok, install.env)] else [])
    + (if !ok && freeze.ok then [Restored(project, rolledBack, after)] else [])
  }

  /** What is yielded about a batch: one event per package, or one failure. */
  function OutcomeEntries(project: string, packages: seq<Outdated>, ok: bool, about: string, env: State): seq<Entry> {
    if ok then UpgradedEntries(project, packages, env) else [Emitted(Summary(project, about, Failed), env)]
  }

  /** `trace` is one batch followed by its outcome. */
  ghost predicate ReportedBatch(project: string, pins: seq<Outdated>, cuda: bool, about: string,
      ok: bool, rolledBack: bool, env: State, trace: seq<Entry>)
  {
    exists batch :: BatchTrace(project, pins, cuda, ok, rolledBack, batch) &&
      trace == batch + OutcomeEntries(project, pins, ok, about, env)
  }

  lemma BatchIsGood(rules: Rules, project: string, regular: seq<Outdated>, torch: seq<Outdated>,
      cuda: bool, ok: bool, rolledBack: bool, trace: seq<Entry>)
    requires BatchTrace(project, if cuda then torch else regular, cuda, ok, rolledBack, trace)
    ensures Good(rules, project, regular, torch, trace)
    ensures QuietAfterRestore(trace) && (SuccessfulRestore(trace) <==> rolledBack)
  {
    if rolledBack {
      assert trace[|trace| - 1] == Restored(project, true, trace[|trace| - 1].env);
    }
  }

  lemma UpgradedIsGood(rules: Rules, project: string, regular: seq<Outdated>, torch: seq<Outdated>,
      packages: seq<Outdated>, env: State)
    requires AllHold(rules, env, packages) && rules.consistent(env)
    ensures Good(rules, project, regular, torch, UpgradedEntries(project, packages, env))
  {
    var entries := UpgradedEntries(project, packages, env);
    forall i | 0 <= i < |entries|
      ensures HonestEntry(rules, entries[i])
    {
      assert packages[i] in packages;
    }
  }

  /** `trace` starts with a successful install of `pins` that passed pip check. */
  ghost predicate BatchSucceeded(trace: seq<Entry>, project: string, pins: seq<Outdated>, cuda: bool) {
    && |trace| >= 3 && trace[1] == Installed(project, pins, cuda, true, trace[1].env)
    && trace[2] == Checked(project, true, trace[1].env)
  }

  /** The CUDA index was used. */
  ghost predicate CudaTried(trace: seq<Entry>) {
    exists i :: 0 <= i < |trace| && trace[i].Installed? && trace[i].cuda
  }

  /** How a batch's part of the history starts. */
  ghost predicate StartsWithBatch(trace: seq<Entry>, project: string, pins: seq<Outdated>, cuda: bool, ok: bool) {
    && |trace| >= 3 && trace[0].Frozen? && trace[1].Installed? && trace[1].cuda == cuda
    && (forall i :: 0 <= i < |trace| && trace[i].Installed? ==> i == 1)
    && (ok <==> BatchSucceeded(trace, project, pins, cuda))
    && (CudaTried(trace) <==> cuda)
  }

  lemma BatchStart(project: string, pins: seq<Outdated>, cuda: bool, ok: bool, rolledBack: bool,
      batch: seq<Entry>, outcome: seq<Entry>)
    requires BatchTrace(project, pins, cuda, ok, rolledBack, batch) && InstallsNothing(outcome)
    requires !ok ==> outcome != [] && outcome[0].Emitted?
    ensures StartsWithBatch(batch + outcome, project, pins, cuda, ok)
  {
    var trace := batch + outcome;
    assert trace[1] == batch[1] == Installed(project, pins, cuda, batch[1].ok, batch[1].env);
    assert forall i :: 2 <= i < |batch| ==> !batch[i].Installed?;
    assert forall i :: |batch| <= i < |trace| ==> trace[i] == outcome[i - |batch|];
    if |batch| == 2 {
      assert trace[2] == outcome[0];
    } else {
      assert trace[2] == batch[2];
    }
  }

  /** A batch and its outcome report the batch. */
  lemma BatchReports(project: string, pins: seq<Outdated>, cuda: bool, ok: bool, rolledBack: bool, batch: seq<Entry>,
      env: State)
    requires BatchTrace(project, pins, cuda, ok, rolledBack, batch) && (ok ==> env == batch[1].env)
    ensures Reports(batch + OutcomeEntries(project, pins, ok, if cuda then "torch-family" else "(batch)", env), project)
  {
    var outcome := OutcomeEntries(project, pins, ok, if cuda then "torch-family" else "(batch)", env);
    var trace := batch + outcome;
    assert forall i :: 0 <= i < |outcome| ==> trace[|batch| + i] == outcome[i];
    assert Succeeds(trace, 1) <==> ok;
    if ok {
      assert |batch| == 3 && UpgradesFrom(trace, 3, project, pins, env);
      forall m: nat | m < |trace| && UpgradedEvent(trace[m])
        ensures exists g: nat :: BelongsTo(trace, m, g)
      {
        assert BelongsTo(trace, m, 1);
      }
    } else {
      assert FailureAt(trace, 1, |batch|, project);
    }
    assert ReportedAt(trace, 1, project);
  }

  lemma NoEventsInBatch(project: string, pins: seq<Outdated>, cuda: bool, ok: bool, rolledBack: bool, batch: seq<Entry>)
    requires BatchTrace(project, pins, cuda, ok, rolledBack, batch)
    ensures EventsOf(batch) == []
  {
    NoEvents(batch);
  }

  /** A batch and its outcome together. */
  lemma BatchReport(rules: Rules, project: string, regular: seq<Outdated>, torch: seq<Outdated>,
      cuda: bool, ok: bool, rolledBack: bool, batch: seq<Entry>, outcome: seq<Entry>)
    requires BatchTrace(project, if cuda then torch else regular, cuda, ok, rolledBack, batch)
    requires Good(rules, project, regular, torch, outcome) && InstallsNothing(outcome) && !SuccessfulRestore(outcome)
    ensures Good(rules, project, regular, torch, batch + outcome) && QuietAfterRestore(batch + outcome)
    ensures SuccessfulRestore(batch + outcome) <==> rolledBack
  {
    BatchIsGood(rules, project, regular, torch, cuda, ok, rolledBack, batch);
    GoodConcat(rules, project, regular, torch, batch, outcome);
    QuietConcat(batch, outcome);
    RestoreConcat(batch, outcome);
  }

  // The environment along a project's own history

  /** The environment before the `i`-th entry, if it was `before` at the start. */
  function EnvBefore(before: State, own: seq<Entry>, i: nat): State
    requires i <= |own|
  {
    if i == 0 then before else own[i - 1].env
  }

  /** Where the snapshot of a restore at `r` is taken: just before the install that failed, or failed its check. */
  function SnapshotAt(own: seq<Entry>, r: nat): int
    requires r < |own|
  {
    if r > 0 && own[r - 1].Checked? then r - 3 else r - 2
  }

  /**
   * The restore at `r` answers a failure after a freeze that worked. If it
   * works it rewrites the names frozen and leaves the rest as the install did.
   */
  ghost predicate RestoresSnapshot(rules: Rules, own: seq<Entry>, r: nat)
    requires r < |own| && own[r].Restored?
  {
    var f := SnapshotAt(own, r);
    && f >= 0 && own[f].Frozen? && own[f].ok && own[f + 1].Installed? && !own[r - 1].ok
    && (own[r].ok ==> own[r].env == own[f + 1].env + Listed(rules, own[f].env))
  }

  /** What the `i`-th entry does to the environment; only installs and restores change it. */
  ghost predicate Moves(rules: Rules, before: State, own: seq<Entry>, i: nat)
    requires i < |own|
  {
    match own[i]
    case Frozen(_, _, env) => env == EnvBefore(before, own, i)
    case Installed(_, pins, _, ok, env) => ok ==> AllHold(rules, env, pins)
    case Checked(_, ok, env) => env == EnvBefore(before, own, i) && (ok ==> rules.consistent(env))
    case Restored(_, _, _) => RestoresSnapshot(rules, own, i)
    case Emitted(_, env) => env == EnvBefore(before, own, i)
  }

  /** `own` tells everything that happened to the environment on its way from `before` to `after`. */
  ghost predicate Follows(rules: Rules, before: State, own: seq<Entry>, after: State) {
    && (forall i :: 0 <= i < |own| ==> Moves(rules, before, own, i))
    && after == EnvBefore(before, own, |own|)
  }

  lemma FollowsConcat(rules: Rules, e0: State, a: seq<Entry>, e1: State, b: seq<Entry>, e2: State)
    requires Follows(rules, e0, a, e1) && Follows(rules, e1, b, e2)
    ensures Follows(rules, e0, a + b, e2)
  {
    forall i | 0 <= i < |a + b|
      ensures Moves(rules, e0, a + b, i)
    {
      if i < |a| {
        MovesLeft(rules, e0, a, b, i);
      } else {
        MovesRight(rules, e0, a, e1, b, i - |a|);
      }
    }
  }

  lemma MovesLeft(rules: Rules, e0: State, a: seq<Entry>, b: seq<Entry>, i: nat)
    requires i < |a| && Moves(rules, e0, a, i)
    ensures Moves(rules, e0, a + b, i)
  {
  }

  lemma MovesRight(rules: Rules, e0: State, a: seq<Entry>, e1: State, b: seq<Entry>, i: nat)
    requires i < |b| && Moves(rules, e1, b, i) && e1 == EnvBefore(e0, a, |a|)
    ensures Moves(rules, e0, a + b, |a| + i)
  {
    assert (a + b)[|a| + i] == b[i];
    if b[i].Restored? {
      assert SnapshotAt(a + b, |a| + i) == |a| + SnapshotAt(b, i);
    }
  }

  /** Nothing moves the environment before the first install. */
  lemma {:induction false} UntouchedBefore(rules: Rules, before: State, own: seq<Entry>, after: State, n: nat)
    requires Follows(rules, before, own, after) && n <= |own|
    requires forall i :: 0 <= i < n ==> !own[i].Installed?
    ensures EnvBefore(before, own, n) == before
  {
    if n > 0 {
      UntouchedBefore(rules, before, own, after, n - 1);
      assert Moves(rules, before, own, n - 1);
    }
  }

  /** Nothing moves the environment after a restore that worked. */
  lemma {:induction false} StaysAfterRestore(rules: Rules, before: State, own: seq<Entry>, after: State, r: nat, n: nat)
    requires Follows(rules, before, own, after) && r <= n < |own|
    requires own[r].Restored? && (forall i :: r < i <= n ==> !own[i].Installed?)
    ensures own[n].env == own[r].env
  {
    if n > r {
      StaysAfterRestore(rules, before, own, after, r, n - 1);
      assert Moves(rules, before, own, n);
    }
  }

  /**
   * A batch that was rolled back is the last thing that touches the
   * environment, and leaves it as its install did with the names frozen
   * before it rewritten.
   */
  lemma RestoreIsFinal(rules: Rules, project: string, before: State, own: seq<Entry>, after: State, r: nat)
    requires Follows(rules, before, own, after) && QuietAfterRestore(own)
    requires forall i :: 0 <= i < |own| ==> ProjectOf(own[i]) == project
    requires r < |own| && own[r].Restored? && own[r].ok
    ensures var f := SnapshotAt(own, r);
      && f >= 0 && own[f].Frozen? && own[f + 1].Installed?
      && own[f].env == EnvBefore(before, own, f)
      && after == own[f + 1].env + Listed(rules, own[f].env)
  {
    assert Moves(rules, before, own, r);
    assert Moves(rules, before, own, SnapshotAt(own, r));
    StaysAfterRestore(rules, before, own, after, r, |own| - 1);
  }

  /** At `g` the regular batch was installed and passed pip check. */
  ghost predicate RegularSucceeds(trace: seq<Entry>, g: nat, project: string) {
    && g + 1 < |trace| && trace[g].Installed? && !trace[g].cuda && trace[g].ok && trace[g].project == project
    && trace[g + 1].Checked? && trace[g + 1].ok && trace[g + 1].project == project
  }

  lemma CudaOnce(own: seq<Entry>, installs: bool, i: nat, j: nat)
    requires InstalledOnceEach(own, installs) && i < |own| && j < |own| && FromCuda(own[i])
    ensures FromCuda(own[j]) ==> i == j
  {
  }

  /** From a regular batch that succeeded to the freeze before the torch-family batch nothing moves. */
  lemma {:induction false} StaysAfterRegular(rules: Rules, project: string, before: State, own: seq<Entry>,
      after: State, installs: bool, f: nat, n: nat)
    requires Follows(rules, before, own, after) && InstalledOnceEach(own, installs)
    requires RegularSucceeds(own, 1, project) && f + 1 < |own| && FromCuda(own[f + 1]) && 1 <= n <= f
    ensures own[n].env == own[1].env
  {
    if n > 1 {
      StaysAfterRegular(rules, project, before, own, after, installs, f, n - 1);
      assert Moves(rules, before, own, n);
      CudaOnce(own, installs, f + 1, n);
      if own[n].Restored? {
        assert false;
      }
    }
  }

  lemma BatchFollows(rules: Rules, project: string, pins: seq<Outdated>, cuda: bool, ok: bool, rolledBack: bool,
      before: State, trace: seq<Entry>, after: State)
    requires BatchTrace(project, pins, cuda, ok, rolledBack, trace)
    requires trace[0].env == before && after == trace[|trace| - 1].env
    requires (trace[1].ok ==> AllHold(rules, trace[1].env, pins)) && (ok ==> rules.consistent(trace[1].env))
    requires rolledBack ==> after == trace[1].env + Listed(rules, before)
    ensures Follows(rules, before, trace, after)
  {
  }

  /** One install at most, at the start of the history and not from the CUDA index. */
  ghost predicate InstalledOnceAtStart(trace: seq<Entry>, installs: bool) {
    forall i :: 0 <= i < |trace| && trace[i].Installed? ==> installs && i == 1 && !trace[i].cuda
  }

  /** One install at most, from the CUDA index. */
  ghost predicate InstalledOnceFromCuda(trace: seq<Entry>) {
    && (forall i :: 0 <= i < |trace| && trace[i].Installed? ==> trace[i].cuda)
    && (forall i, j :: 0 <= i < |trace| && 0 <= j < |trace| && trace[i].Installed? && trace[j].Installed? ==> i == j)
  }

  lemma OnceThenNone(a: seq<Entry>, b: seq<Entry>)
    requires InstalledOnceFromCuda(a) && InstallsNothing(b)
    ensures InstalledOnceFromCuda(a + b)
  {
  }

  /** The regular batch, if there is one, is installed at the start, and then at most one from the CUDA index. */
  ghost predicate InstalledOnceEach(trace: seq<Entry>, installs: bool) {
    && (forall i :: 0 <= i < |trace| && trace[i].Installed? && !trace[i].cuda ==> installs && i == 1)
    && (forall i, j :: 0 <= i < |trace| && 0 <= j < |trace| && FromCuda(trace[i]) && FromCuda(trace[j]) ==> i == j)
  }

  predicate FromCuda(e: Entry) {
    e.Installed? && e.cuda
  }

  lemma OnceEach(a: seq<Entry>, b: seq<Entry>, installs: bool)
    requires InstalledOnceAtStart(a, installs) && InstalledOnceFromCuda(b)
    ensures InstalledOnceEach(a + b, installs)
  {
  }

  class Host {
    const rules: Rules
    var venvs: map<string, State>
    var events: seq<Event>
    ghost var history: seq<Entry>

    constructor (rules: Rules, venvs: map<string, State>)
      ensures this.rules == rules && this.venvs == venvs && events == [] && history == []
    {
      this.rules, this.venvs, events, history := rules, venvs, [], [];
    }

    function EnvOf(project: string): State
      reads this`venvs
    {
      EnvIn(venvs, project)
    }

    /** pip install of exact pins: on success they hold, on failure the venv is in any state. */
    method PipInstall(project: string, pins: seq<Outdated>, ghost cuda: bool) returns (ok: bool)
      modifies this`venvs, this`history
      ensures OnlyVenv(old(venvs), venvs, project)
      ensures ok ==> AllHold(rules, EnvOf(project), pins)
      ensures history == old(history) + [Installed(project, pins, cuda, ok, EnvOf(project))]
    {
      var after: State := *;
      ok := *;
      ok := ok && AllHold(rules, after, pins);
      venvs := venvs[project := after];
      history := history + [Installed(project, pins, cuda, ok, after)];
    }

    /** pip check may fail for any reason; it passes only on a consistent environment. */
    method PipCheck(project: string) returns (ok: bool)
      modifies this`history
      ensures ok ==> rules.consistent(EnvOf(project))
      ensures history == old(history) + [Checked(project, ok, EnvOf(project))]
    {
      ok := *;
      ok := ok && rules.consistent(EnvOf(project));
      history := history + [Checked(project, ok, EnvOf(project))];
    }

    /** The freeze may fail, and an empty one counts as failed. */
    method SnapshotFreeze(project: string) returns (snapshot: Option<State>)
      modifies this`history
      ensures snapshot.Some? ==> snapshot.value == Listed(rules, EnvOf(project))
      ensures history == old(history) + [Frozen(project, snapshot.Some?, EnvOf(project))]
    {
      var works := *;
      var listed := Listed(rules, EnvOf(project));
      snapshot := if works && listed != map[] then Some(listed) else None;
      history := history + [Frozen(project, snapshot.Some?, EnvOf(project))];
    }

    /** A successful restore rewrites exactly the snapshot's names; a failed one leaves any state. */
    method RestoreFreeze(project: string, snapshot: State) returns (ok: bool)
      modifies this`venvs, this`history
      ensures OnlyVenv(old(venvs), venvs, project)
      ensures ok ==> EnvOf(project) == old(EnvOf(project)) + snapshot
      ensures history == old(history) + [Restored(project, ok, EnvOf(project))]
    {
      ok := *;
      var after: State := *;
      venvs := venvs[project := if ok then EnvOf(project) + snapshot else after];
      history := history + [Restored(project, ok, EnvOf(project))];
    }

    method Emit(event: Event)
      modifies this`events, this`history
      ensures events == old(events) + [event]
      ensures history == old(history) + [Emitted(event, EnvOf(event.project))]
    {
      events := events + [event];
      history := history + [Emitted(event, EnvOf(event.project))];
    }

    /** Restore the snapshot, if there is one, after a failed batch. */
    method Rollback(project: string, snapshot: Option<State>) returns (rolledBack: bool)
      modifies this`venvs, this`history
      ensures OnlyVenv(old(venvs), venvs, project)
      ensures rolledBack ==> snapshot.Some? && EnvOf(project) == old(EnvOf(project)) + snapshot.value
      ensures snapshot.None? ==> venvs == old(venvs)
      ensures history == old(history) + if snapshot.None? then [] else [Restored(project, rolledBack, EnvOf(project))]
    {
      rolledBack := false;
      if snapshot.Some? {
        rolledBack := RestoreFreeze(project, snapshot.value);
      }
    }

    /**
     * Install the pins; roll back if the install or pip check fails. After a
     * success they hold in a consistent venv; after a rollback every listed
     * package is back at its version and what the failed install added stays.
     */
    method ApplyBatchWithRollback(project: string, pins: seq<Outdated>, ghost cuda: bool)
      returns (ok: bool, rolledBack: bool, ghost trace: seq<Entry>)
      modifies this`venvs, this`history
      ensures OnlyVenv(old(venvs), venvs, project)
      ensures ok ==> AllHold(rules, EnvOf(project), pins) && rules.consistent(EnvOf(project)) && !rolledBack
      ensures history == old(history) + trace && BatchTrace(project, pins, cuda, ok, rolledBack, trace)
      ensures rolledBack ==> EnvOf(project) == trace[1].env + Listed(rules, old(EnvOf(project)))
      ensures Follows(rules, old(EnvOf(project)), trace, EnvOf(project))
    {
      var snapshot := SnapshotFreeze(project);
      ghost var frozen := EnvOf(project);
      ok := PipInstall(project, pins, cuda);
      rolledBack := false;
      trace := [Frozen(project, snapshot.Some?, frozen), Installed(project, pins, cuda, ok, EnvOf(project))];
      if ok {
        ok := PipCheck(project);
        trace := trace + [Checked(project, ok, EnvOf(project))];
      }
      if !ok {
        rolledBack := Rollback(project, snapshot);
        trace := trace + if snapshot.None? then [] else [Restored(project, rolledBack, EnvOf(project))];
      }
      BatchFollows(rules, project, pins, cuda, ok, rolledBack, frozen, trace, EnvOf(project));
    }

    /** One `upgraded` event per applied package. */
    method EmitUpgraded(project: string, packages: seq<Outdated>)
      modifies this`events, this`history
      ensures events == old(events) + EventsOf(UpgradedEntries(project, packages, EnvOf(project)))
      ensures history == old(history) + UpgradedEntries(project, packages, EnvOf(project))
    {
      ghost var entries := UpgradedEntries(project, packages, EnvOf(project));
      for i := 0 to |packages|
        invariant events == old(events) + EventsOf(entries[..i])
        invariant history == old(history) + entries[..i]
      {
        Emit(Package(project, packages[i].name, packages[i].current, packages[i].latest, Upgraded));
        assert entries[..i + 1][..i] == entries[..i];
      }
      assert entries[..|packages|] == entries;
    }

    /** Emit the outcome of an applied batch: one event per package, or one failure. */
    method EmitOutcome(project: string, packages: seq<Outdated>, ok: bool, about: string,
        ghost regular: seq<Outdated>, ghost torch: seq<Outdated>)
      returns (ghost trace: seq<Entry>)
      requires ok ==> AllHold(rules, EnvOf(project), packages) && rules.consistent(EnvOf(project))
      modifies this`events, this`history
      ensures Recorded(old(history), old(events), history, events, trace)
      ensures Good(rules, project, regular, torch, trace) && InstallsNothing(trace) && !SuccessfulRestore(trace)
      ensures trace == OutcomeEntries(project, packages, ok, about, EnvOf(project))
      ensures Follows(rules, EnvOf(project), trace, EnvOf(project))
    {
      if ok {
        trace := UpgradedEntries(project, packages, EnvOf(project));
        EmitUpgraded(project, packages);
        UpgradedIsGood(rules, project, regular, torch, packages, EnvOf(project));
      } else {
        trace := [Emitted(Summary(project, about, Failed), EnvOf(project))];
        Emit(Summary(project, about, Failed));
        assert trace[..0] == [];
      }
    }

    /** Apply one batch and yield its outcome. */
    method ApplyAndReport(project: string, pins: seq<Outdated>, cuda: bool,
        ghost regular: seq<Outdated>, ghost torch: seq<Outdated>)
      returns (ok: bool, rolledBack: bool, ghost trace: seq<Entry>)
      requires pins == if cuda then torch else regular
      modifies this
      ensures OnlyVenv(old(venvs), venvs, project)
      ensures Recorded(old(history), old(events), history, events, trace)
      ensures Good(rules, project, regular, torch, trace) && QuietAfterRestore(trace)
      ensures SuccessfulRestore(trace) <==> rolledBack
      ensures ok ==> AllHold(rules, EnvOf(project), pins) && rules.consistent(EnvOf(project)) && !rolledBack
      ensures StartsWithBatch(trace, project, pins, cuda, ok)
      ensures rolledBack ==> KeepsListed(rules, old(EnvOf(project)), EnvOf(project))
      ensures ReportedBatch(project, pins, cuda, if cuda then "torch-family" else "(batch)", ok, rolledBack,
        EnvOf(project), trace)
      ensures !ok ==>
        Emitted(Summary(project, if cuda then "torch-family" else "(batch)", Failed), EnvOf(project)) in trace
      ensures Follows(rules, old(EnvOf(project)), trace, EnvOf(project))
      ensures Reports(trace, project)
    {
      var about := if cuda then "torch-family" else "(batch)";
      ghost var batch, outcome;
      ok, rolledBack, batch := ApplyBatchWithRollback(project, pins, cuda);
      RestoreIsExact(rules, old(EnvOf(project)), batch[1].env);
      ghost var before, yielded := history, events;
      outcome := EmitOutcome(project, pins, ok, about, regular, torch);
      NoEventsInBatch(project, pins, cuda, ok, rolledBack, batch);
      RecordedNext(old(history), old(events), before, yielded, history, events, batch, outcome);
      BatchReport(rules, project, regular, torch, cuda, ok, rolledBack, batch, outcome);
      BatchStart(project, pins, cuda, ok, rolledBack, batch, outcome);
      FollowsConcat(rules, old(EnvOf(project)), batch, EnvOf(project), outcome, EnvOf(project));
      BatchReports(project, pins, cuda, ok, rolledBack, batch, EnvOf(project));
      trace := batch + outcome;
    }

    /** The regular batch; `stop` if it was rolled back. */
    method ApplyRegular(project: string, regular: seq<Outdated>, torch: seq<Outdated>, hasUpdates: bool)
      returns (stop: bool, ghost trace: seq<Entry>)
      modifies this
      ensures OnlyVenv(old(venvs), venvs, project)
      ensures Recorded(old(history), old(events), history, events, trace)
      ensures Good(rules, project, regular, torch, trace) && QuietAfterRestore(trace)
      ensures (SuccessfulRestore(trace) <==> stop) && !CudaTried(trace)
      ensures stop ==> KeepsListed(rules, old(EnvOf(project)), EnvOf(project)) && !AllOk(EventsOf(trace))
      ensures stop ==> !BatchSucceeded(trace, project, regular, false) && EndsIn(trace, EnvOf(project))
      ensures BatchSucceeded(trace, project, regular, false) ==>
        AllHold(rules, EnvOf(project), regular) && rules.consistent(EnvOf(project))
      ensures regular != [] ==> |trace| >= 3 && trace[0].Frozen? && trace[1].Installed? && !trace[1].cuda
      ensures stop ==> regular != []
      ensures regular == [] ==> venvs == old(venvs)
      ensures regular != [] ==> ReportedBatch(project, regular, false, "(batch)",
        BatchSucceeded(trace, project, regular, false), stop, EnvOf(project), trace)
      ensures regular == [] ==>
        trace ==
          if torch == [] && !hasUpdates then [Emitted(Summary(project, "(all)", Skipped), EnvOf(project))] else []
      ensures Follows(rules, old(EnvOf(project)), trace, EnvOf(project))
      ensures InstalledOnceAtStart(trace, regular != []) && Reports(trace, project)
    {
      stop, trace := false, [];
      if regular != [] {
        var ok;
        ok, stop, trace := ApplyAndReport(project, regular, false, regular, torch);
        FailureIsReported(trace, project, "(batch)", EnvOf(project));
        FailureEndsIn(project, regular, false, "(batch)", ok, stop, EnvOf(project), trace);
      } else if torch == [] && !hasUpdates {
        trace := [Emitted(Summary(project, "(all)", Skipped), EnvOf(project))];
        Emit(Summary(project, "(all)", Skipped));
        assert trace[..0] == [];
      }
    }

    /** The torch-family batch from the CUDA index. */
    method ApplyTorchCandidates(project: string, regular: seq<Outdated>, torch: seq<Outdated>)
      returns (ghost trace: seq<Entry>)
      modifies this
      ensures OnlyVenv(old(venvs), venvs, project)
      ensures Recorded(old(history), old(events), history, events, trace)
      ensures Good(rules, project, regular, torch, trace) && QuietAfterRestore(trace) && CudaTried(trace)
      ensures CudaSucceeded(trace, project, torch) ==>
        AllHold(rules, EnvOf(project), torch) && rules.consistent(EnvOf(project))
      ensures |trace| >= 3 && trace[0].Frozen? && forall i :: 0 <= i < |trace| && trace[i].Installed? ==> i == 1
      ensures SuccessfulRestore(trace) ==> KeepsListed(rules, old(EnvOf(project)), EnvOf(project))
      ensures ReportedBatch(project, torch, true, "torch-family",
        BatchSucceeded(trace, project, torch, true), SuccessfulRestore(trace), EnvOf(project), trace)
      ensures Follows(rules, old(EnvOf(project)), trace, EnvOf(project)) && InstalledOnceFromCuda(trace)
      ensures Reports(trace, project)
    {
      var ok, rolledBack;
      ok, rolledBack, trace := ApplyAndReport(project, torch, true, regular, torch);
    }

    /** Yield whether a check of the project passed. */
    method ReportCheck(project: string, about: string, ok: bool, ghost regular: seq<Outdated>,
        ghost torch: seq<Outdated>)
      returns (ghost trace: seq<Entry>)
      modifies this`events, this`history
      ensures Recorded(old(history), old(events), history, events, trace)
      ensures Good(rules, project, regular, torch, trace) && InstallsNothing(trace) && !SuccessfulRestore(trace)
      ensures !AllOk(EventsOf(trace))
      ensures trace == [Emitted(Summary(project, about, if ok then Verified else Failed), EnvOf(project))]
      ensures Follows(rules, EnvOf(project), trace, EnvOf(project))
    {
      var event := Summary(project, about, if ok then Verified else Failed);
      Emit(event);
      trace := [Emitted(event, EnvOf(project))];
      assert trace[..0] == [];
      assert EventsOf(trace)[0] == event;
    }

    /** pip check and its event. */
    method CheckProject(project: string, ghost regular: seq<Outdated>, ghost torch: seq<Outdated>)
      returns (ghost trace: seq<Entry>)
      modifies this`events, this`history
      ensures Recorded(old(history), old(events), history, events, trace)
      ensures Good(rules, project, regular, torch, trace) && InstallsNothing(trace) && !SuccessfulRestore(trace)
      ensures !AllOk(EventsOf(trace)) && |trace| == 2 && trace[0].Checked?
      ensures EndsVerified(project, None, EnvOf(project), trace) && UpgradesNothing(trace)
      ensures Follows(rules, EnvOf(project), trace, EnvOf(project))
    {
      ghost var start, yielded := history, events;
      var ok := PipCheck(project);
      ghost var checked, middle := [Checked(project, ok, EnvOf(project))], history;
      NoEvents(checked);
      ghost var reported := ReportCheck(project, "(pip check)", ok, regular, torch);
      RecordedNext(start, yielded, middle, yielded, history, events, checked, reported);
      VerifyParts(rules, project, regular, torch, checked, reported);
      FollowsConcat(rules, EnvOf(project), checked, EnvOf(project), reported, EnvOf(project));
      trace := checked + reported;
    }

    /** pip check, then on a GPU host the torch runtime check; neither touches the venv. */
    method VerifyProject(project: string, cudaIndex: Option<string>, ghost regular: seq<Outdated>,
        ghost torch: seq<Outdated>)
      returns (ghost trace: seq<Entry>)
      modifies this`events, this`history
      ensures Recorded(old(history), old(events), history, events, trace)
      ensures Good(rules, project, regular, torch, trace) && InstallsNothing(trace) && !SuccessfulRestore(trace)
      ensures !AllOk(EventsOf(trace)) && trace != [] && trace[0].Checked?
      ensures EndsVerified(project, cudaIndex, EnvOf(project), trace) && |trace| <= 3 && UpgradesNothing(trace)
      ensures Follows(rules, EnvOf(project), trace, EnvOf(project))
    {
      trace := CheckProject(project, regular, torch);
      if cudaIndex.Some? && "torch" in EnvOf(project) {
        var works := *;
        ghost var before, sent := history, events;
        ghost var runtime := ReportCheck(project, "torch-cuda-verify", works, regular, torch);
        RecordedNext(old(history), old(events), before, sent, history, events, trace, runtime);
        VerifyParts(rules, project, regular, torch, trace, runtime);
        FollowsConcat(rules, EnvOf(project), trace, EnvOf(project), runtime, EnvOf(project));
        trace := trace + runtime;
      }
    }

    /** The torch-family batch, if there is one, then verification. */
    method ApplyTorchAndVerify(project: string, regular: seq<Outdated>, torch: seq<Outdated>, cudaIndex: Option<string>)
      returns (ghost trace: seq<Entry>)
      modifies this
      ensures OnlyVenv(old(venvs), venvs, project)
      ensures Recorded(old(history), old(events), history, events, trace)
      ensures Good(rules, project, regular, torch, trace) && QuietAfterRestore(trace) && !AllOk(EventsOf(trace))
      ensures SuccessfulRestore(trace) ==> CudaTried(trace) && KeepsListed(rules, old(EnvOf(project)), EnvOf(project))
      ensures CudaTried(trace) <==> cudaIndex.Some? && torch != []
      ensures CudaSucceeded(trace, project, torch) ==>
        AllHold(rules, EnvOf(project), torch) && rules.consistent(EnvOf(project))
      ensures !CudaTried(trace) ==> EnvOf(project) == old(EnvOf(project))
      ensures EndsVerified(project, cudaIndex, EnvOf(project), trace) && !trace[0].Emitted?
      ensures Follows(rules, old(EnvOf(project)), trace, EnvOf(project)) && InstalledOnceFromCuda(trace)
      ensures Reports(trace, project)
    {
      trace := [];
      if cudaIndex.Some? && torch != [] {
        trace := ApplyTorchCandidates(project, regular, torch);
      }
      ghost var before, yielded := history, events;
      ghost var last := VerifyProject(project, cudaIndex, regular, torch);
      RecordedNext(old(history), old(events), before, yielded, history, events, trace, last);
      PartsTogether(rules, project, regular, torch, trace, last);
      CudaConcat(trace, last);
      SuccessBeforeQuiet(trace, last, project, torch);
      VerifiedEnd(project, cudaIndex, EnvOf(project), trace, last);
      FollowsConcat(rules, old(EnvOf(project)), trace, EnvOf(project), last, EnvOf(project));
      OnceThenNone(trace, last);
      ReportsNothing(last, project);
      ReportsConcat(trace, last, project);
      trace := trace + last;
    }

    /**
     * One Python project: the regular batch, then the torch-family batch from
     * the CUDA index, then verification. A rolled-back regular batch ends it.
     */
    method ApplyPythonProject(plan: ProjectPlan, cudaIndex: Option<string>)
      returns (rolledBack: bool, ghost trace: seq<Entry>)
      modifies this
      ensures OnlyVenv(old(venvs), venvs, plan.name)
      ensures Recorded(old(history), old(events), history, events, trace)
      ensures rolledBack <==> RolledBack(trace)
      ensures PythonOutcome(rules, plan, cudaIndex, old(EnvOf(plan.name)), EnvOf(plan.name), trace)
    {
      var (regular, torch) := SplitTorch(plan.safe, cudaIndex);
      rolledBack, trace := ApplyRegular(plan.name, regular, torch, plan.HasUpdates());
      if !rolledBack {
        ghost var first, middle := trace, EnvOf(plan.name);
        ghost var before, yielded := history, events;
        ghost var rest := ApplyTorchAndVerify(plan.name, regular, torch, cudaIndex);
        RecordedNext(old(history), old(events), before, yielded, history, events, first, rest);
        FollowsConcat(rules, old(EnvOf(plan.name)), first, middle, rest, EnvOf(plan.name));
        PythonParts(rules, plan, cudaIndex, first, rest, old(EnvOf(plan.name)), middle, EnvOf(plan.name));
        trace := first + rest;
      } else {
        RegularStopped(rules, plan, cudaIndex, trace, old(EnvOf(plan.name)), EnvOf(plan.name));
      }
    }

    /** `npm update` when the plan found outdated npm packages. */
    method ApplyNodeProject(plan: ProjectPlan, npmOk: string -> bool) returns (ghost trace: seq<Entry>)
      modifies this`events, this`history
      ensures trace == [Emitted(NodeEvent(plan, npmOk), EnvOf(plan.name))]
      ensures history == old(history) + trace && events == old(events) + [NodeEvent(plan, npmOk)]
    {
      var event := if plan.safe == [] then Summary(plan.name, "(all)", Skipped)
        else Summary(plan.name, "(npm packages)", if npmOk(plan.name) then Upgraded else Failed);
      Emit(event);
      trace := [Emitted(event, EnvOf(plan.name))];
    }

    /** One `blocked` event per blocked package. */
    method EmitBlocked(plan: ProjectPlan) returns (ghost trace: seq<Entry>)
      modifies this`events, this`history
      ensures trace == BlockedEntries(plan, EnvOf(plan.name))
      ensures Recorded(old(history), old(events), history, events, trace)
    {
      trace := BlockedEntries(plan, EnvOf(plan.name));
      for i := 0 to |plan.blocked|
        invariant events == old(events) + EventsOf(trace[..i])
        invariant history == old(history) + trace[..i]
      {
        var pkg := plan.blocked[i].pkg;
        Emit(Package(plan.name, pkg.name, pkg.current, pkg.latest, Status.Blocked));
        assert trace[..i + 1][..i] == trace[..i];
      }
      assert trace[..|plan.blocked|] == trace;
    }

    /** Report a project's blocked packages, then apply it. */
    method ApplyProject(plan: ProjectPlan, cudaIndex: Option<string>, npmOk: string -> bool)
      returns (ghost trace: seq<Entry>)
      modifies this
      ensures OnlyVenv(old(venvs), venvs, plan.name)
      ensures Recorded(old(history), old(events), history, events, trace)
      ensures ProjectTrace(rules, plan, cudaIndex, npmOk, trace)
      ensures ProjectOutcome(rules, plan, cudaIndex, old(EnvOf(plan.name)), EnvOf(plan.name), trace)
    {
      ghost var blocked := EmitBlocked(plan);
      BlockedIsGood(rules, plan, cudaIndex, EnvOf(plan.name));
      ghost var before, yielded := history, events;
      ghost var own;
      if plan.isNode {
        own := ApplyNodeProject(plan, npmOk);
        NodeIsGood(rules, plan, cudaIndex, npmOk, EnvOf(plan.name));
      } else {
        var rolledBack;
        rolledBack, own := ApplyPythonProject(plan, cudaIndex);
      }
      RecordedNext(old(history), old(events), before, yielded, history, events, blocked, own);
      ProjectParts(rules, plan, cudaIndex, npmOk, blocked, own);
      assert (blocked + own)[|plan.blocked|..] == own;
      trace := blocked + own;
    }

    /** The next project of the plan. */
    method ApplyNext(projects: seq<ProjectPlan>, i: nat, cudaIndex: Option<string>, npmOk: string -> bool,
        ghost start: Book, ghost trace: seq<Entry>)
      returns (ghost more: seq<Entry>)
      requires i < |projects|
      requires Progress(rules, projects, i, cudaIndex, npmOk, start, Book(venvs, history, events), trace)
      modifies this
      ensures Progress(rules, projects, i + 1, cudaIndex, npmOk, start, Book(venvs, history, events), more)
    {
      ghost var before := Book(venvs, history, events);
      ghost var own := ApplyProject(projects[i], cudaIndex, npmOk);
      ProgressStep(rules, projects, i, cudaIndex, npmOk, start, before, Book(venvs, history, events), trace, own);
      more := trace + own;
    }

    /** Apply every project in plan order. */
    method ApplyProjects(projects: seq<ProjectPlan>, cudaIndex: Option<string>, npmOk: string -> bool)
      returns (ghost trace: seq<Entry>)
      modifies this
      ensures Progress(rules, projects, |projects|, cudaIndex, npmOk, Book(old(venvs), old(history), old(events)),
        Book(venvs, history, events), trace)
    {
      trace := [];
      ghost var start := Book(venvs, history, events);
      NothingDone(rules, projects, cudaIndex, npmOk, start);
      for i := 0 to |projects|
        invariant Progress(rules, projects, i, cudaIndex, npmOk, start, Book(venvs, history, events), trace)
      {
        trace := ApplyNext(projects, i, cudaIndex, npmOk, start, trace);
      }
    }

    /** One event per project whose manifest the final sync rewrote or failed to. */
    method EmitSync(syncs: seq<(string, bool)>) returns (ghost trace: seq<Entry>)
      modifies this`events, this`history
      ensures Recorded(old(history), old(events), history, events, trace)
      ensures Neutral(rules, trace) && (AllOk(EventsOf(trace)) <==> forall i :: 0 <= i < |syncs| ==> syncs[i].1)
      ensures EndsWithSyncs(syncs, trace)
    {
      trace := [];
      for i := 0 to |syncs|
        invariant Recorded(old(history), old(events), history, events, trace)
        invariant SyncsSoFar(syncs, i, trace)
      {
        var event := Summary(syncs[i].0, "(manifest sync)", if syncs[i].1 then Upgraded else Failed);
        ghost var entry, before, yielded := Emitted(event, EnvOf(syncs[i].0)), history, events;
        Emit(event);
        OneEvent(entry);
        RecordedNext(old(history), old(events), before, yielded, history, events, trace, [entry]);
        SyncsSoFarNext(syncs, i, trace, entry);
        trace := trace + [entry];
      }
      SyncsAreAll(rules, syncs, trace);
    }

    /** Apply the plan project by project, then sync the manifests. */
    method ApplyUpgradePlan(plan: EcosystemPlan, npmOk: string -> bool, syncs: seq<(string, bool)>)
      returns (ghost trace: seq<Entry>)
      modifies this
      ensures Recorded(old(history), old(events), history, events, trace)
      ensures PlanApplied(rules, plan, old(venvs), venvs, trace)
      ensures AllOk(EventsOf(trace)) <==> PlanOk(plan, npmOk, syncs)
      ensures EndsWithSyncs(syncs, trace)
    {
      trace := ApplyProjects(plan.projects, plan.cudaIndex, npmOk);
      assert plan.projects[..|plan.projects|] == plan.projects;
      ghost var before, yielded := history, events;
      ghost var sync := EmitSync(syncs);
      RecordedNext(old(history), old(events), before, yielded, history, events, trace, sync);
      PlanThenSyncs(rules, plan, npmOk, syncs, old(venvs), venvs, trace, sync);
      trace := trace + sync;
    }

    /** Pass on the events from `first` on, noting whether all are `upgraded` or `skipped`. */
    method PassOn(first: nat) returns (emitted: seq<Event>, allOk: bool)
      requires first <= |events|
      ensures emitted == events[first..]
      ensures allOk <==> AllOk(emitted)
    {
      emitted := [];
      allOk := true;
      var all := events;
      for i := first to |all|
        invariant emitted == all[first..i]
        invariant allOk <==> AllOk(emitted)
      {
        var event := all[i];
        if event.status != Upgraded && event.status != Skipped {
          allOk := false;
        }
        NotOkConcat(emitted, [event]);
        assert AllOk([event]) <==> OkStatus([event][0].status);
        emitted := emitted + [event];
      }
      assert all[first..|all|] == all[first..];
    }

    /** Apply the plan if it has updates; `success` exactly if every event yielded is `upgraded` or `skipped`. */
    method RunSafeUpdate(plan: EcosystemPlan, npmOk: string -> bool, syncs: seq<(string, bool)>)
      returns (status: RunStatus, emitted: seq<Event>, ghost trace: seq<Entry>)
      modifies this
      ensures status.UpToDate? <==> forall k :: 0 <= k < |plan.projects| ==> plan.projects[k].outdated == []
      ensures status.UpToDate? ==> emitted == [] && venvs == old(venvs) && history == old(history)
      ensures !status.UpToDate? ==> emitted == EventsOf(trace) && (status.Success? <==> PlanOk(plan, npmOk, syncs))
      ensures !status.UpToDate? ==> PlanApplied(rules, plan, old(venvs), venvs, trace) && EndsWithSyncs(syncs, trace)
      ensures status.Success? ==> forall k :: 0 <= k < |plan.projects| ==> plan.projects[k].isNode
    {
      if !HasAnyUpdates(plan.projects) {
        return UpToDate, [], [];
      }
      var first := |events|;
      trace := ApplyUpgradePlan(plan, npmOk, syncs);
      var allOk;
      emitted, allOk := PassOn(first);
      status := if allOk then Success else Partial;
    }
  }

  /**
   * What applying a plan guarantees: honest events, no install in a project
   * after a restore in it, only planned installs, no environment outside the
   * plan touched, and every project settled.
   */
  ghost predicate PlanApplied(rules: Rules, plan: EcosystemPlan, before: map<string, State>,
      after: map<string, State>, trace: seq<Entry>)
  {
    && Honest(rules, trace)
    && (forall i :: 0 <= i < |trace| && trace[i].Installed? ==>
          InstalledByPlan(trace[i], plan.projects, plan.cudaIndex))
    && OthersKept(before, after, plan.projects)
    && (DistinctProjects(plan.projects) ==>
          && QuietAfterRestore(trace)
          && AllSettled(rules, plan.projects, |plan.projects|, plan.cudaIndex, before, after, trace))
  }

  lemma PlanThenSyncs(rules: Rules, plan: EcosystemPlan, npmOk: string -> bool, syncs: seq<(string, bool)>,
      before: map<string, State>, after: map<string, State>, trace: seq<Entry>, sync: seq<Entry>)
    requires PlanTrace(rules, plan.projects, plan.cudaIndex, npmOk, trace)
    requires OthersKept(before, after, plan.projects)
    requires DistinctProjects(plan.projects) ==>
      AllSettled(rules, plan.projects, |plan.projects|, plan.cudaIndex, before, after, trace)
    requires Neutral(rules, sync) && EndsWithSyncs(syncs, sync)
    requires AllOk(EventsOf(sync)) <==> forall i :: 0 <= i < |syncs| ==> syncs[i].1
    ensures PlanApplied(rules, plan, before, after, trace + sync) && EndsWithSyncs(syncs, trace + sync)
    ensures AllOk(EventsOf(trace + sync)) <==> PlanOk(plan, npmOk, syncs)
  {
    AppendNeutral(rules, plan, npmOk, trace, sync);
    if DistinctProjects(plan.projects) {
      AllSettledNeutral(rules, plan, before, after, trace, sync);
    }
    NotOkConcat(EventsOf(trace), EventsOf(sync));
    EventsOfConcat(trace, sync);
    SyncsStayLast(syncs, trace, sync);
  }

  /** The events of the first `i` syncs, and nothing else. */
  ghost predicate SyncsSoFar(syncs: seq<(string, bool)>, i: nat, trace: seq<Entry>) {
    && i <= |syncs| && |trace| == i
    && (forall k :: 0 <= k < i ==> SyncEvent(trace[k], syncs[k]))
    && (AllOk(EventsOf(trace)) <==> forall k :: 0 <= k < i ==> syncs[k].1)
  }

  lemma OneEvent(e: Entry)
    requires e.Emitted?
    ensures EventsOf([e]) == [e.event]
  {
    assert [e][..0] == [];
  }

  lemma SyncsSoFarNext(syncs: seq<(string, bool)>, i: nat, trace: seq<Entry>, e: Entry)
    requires SyncsSoFar(syncs, i, trace) && i < |syncs| && SyncEvent(e, syncs[i])
    ensures SyncsSoFar(syncs, i + 1, trace + [e])
  {
    OneEvent(e);
    EventsOfConcat(trace, [e]);
    NotOkConcat(EventsOf(trace), [e.event]);
    assert AllOk([e.event]) <==> OkStatus([e.event][0].status);
  }

  lemma SyncsAreAll(rules: Rules, syncs: seq<(string, bool)>, trace: seq<Entry>)
    requires SyncsSoFar(syncs, |syncs|, trace)
    ensures Neutral(rules, trace) && EndsWithSyncs(syncs, trace)
    ensures AllOk(EventsOf(trace)) <==> forall i :: 0 <= i < |syncs| ==> syncs[i].1
  {
    assert forall k :: 0 <= k < |trace| ==> SyncEvent(trace[k], syncs[k]);
  }

  lemma SyncsStayLast(syncs: seq<(string, bool)>, a: seq<Entry>, b: seq<Entry>)
    requires EndsWithSyncs(syncs, b)
    ensures EndsWithSyncs(syncs, a + b)
  {
    forall i {:trigger syncs[i]} | 0 <= i < |syncs|
      ensures SyncEvent((a + b)[|a + b| - |syncs| + i], syncs[i])
    {
      assert (a + b)[|a| + (|b| - |syncs| + i)] == b[|b| - |syncs| + i];
    }
  }

  datatype EcosystemPlan = EcosystemPlan(projects: seq<ProjectPlan>, cudaIndex: Option<string>)

  datatype RunStatus = UpToDate | Success | Partial

  /** No Python project, nothing blocked, and every npm update and manifest sync succeeds. */
  ghost predicate PlanOk(plan: EcosystemPlan, npmOk: string -> bool, syncs: seq<(string, bool)>) {
    && (forall k :: 0 <= k < |plan.projects| ==> ProjectOk(plan.projects[k], npmOk))
    && (forall i :: 0 <= i < |syncs| ==> syncs[i].1)
  }

  /** Entries that install nothing, restore nothing and upgrade no package. */
  ghost predicate Neutral(rules: Rules, trace: seq<Entry>) {
    forall i :: 0 <= i < |trace| ==> trace[i].Emitted? && HonestEntry(rules, trace[i]) && !UpgradedEvent(trace[i])
  }

  lemma AppendNeutral(rules: Rules, plan: EcosystemPlan, npmOk: string -> bool, trace: seq<Entry>, sync: seq<Entry>)
    requires PlanTrace(rules, plan.projects, plan.cudaIndex, npmOk, trace) && Neutral(rules, sync)
    ensures Honest(rules, trace + sync)
    ensures DistinctProjects(plan.projects) ==> QuietAfterRestore(trace + sync)
    ensures forall i :: 0 <= i < |trace + sync| && (trace + sync)[i].Installed? ==>
      InstalledByPlan((trace + sync)[i], plan.projects, plan.cudaIndex)
  {
  }

  /** Blocked packages are never passed to an install in their project. */
  lemma BlockedAreNeverInstalled(plan: EcosystemPlan, e: Entry, k: nat, pin: Outdated, b: Outdated)
    requires DistinctProjects(plan.projects) && k < |plan.projects|
    requires NoKeyInBoth(plan.projects[k].safe, Packages(plan.projects[k].blocked))
    requires InstalledByPlan(e, plan.projects, plan.cudaIndex) && e.project == plan.projects[k].name
    requires pin in e.pins && b in Packages(plan.projects[k].blocked)
    ensures Key(pin) != Key(b) && pin in plan.projects[k].safe
  {
    var safe := plan.projects[k].safe;
    var j :| 0 <= j < |plan.projects| && InstallOf(e, plan.projects[j], plan.cudaIndex);
    assert j == k;
    SelectExactly(safe, InTorchFamily, false, pin);
    SelectExactly(safe, InTorchFamily, true, pin);
  }

  function BlockedEntries(plan: ProjectPlan, env: State): (entries: seq<Entry>)
    ensures |entries| == |plan.blocked|
  {
    seq(|plan.blocked|, i requires 0 <= i < |plan.blocked| =>
      var pkg := plan.blocked[i].pkg;
      Emitted(Package(plan.name, pkg.name, pkg.current, pkg.latest, Status.Blocked), env))
  }

  /** The project yields no event that counts as a failure. */
  predicate ProjectOk(plan: ProjectPlan, npmOk: string -> bool) {
    plan.isNode && plan.blocked == [] && (plan.safe == [] || npmOk(plan.name))
  }

  /** The history starts by reporting the blocked packages. */
  ghost predicate BlockedFirst(plan: ProjectPlan, trace: seq<Entry>) {
    && |trace| >= |plan.blocked|
    && forall i :: 0 <= i < |plan.blocked| ==>
        var pkg := plan.blocked[i].pkg;
        trace[i].Emitted? && trace[i].event == Package(plan.name, pkg.name, pkg.current, pkg.latest, Status.Blocked)
  }

  /** What one project adds to the history. */
  ghost predicate ProjectTrace(rules: Rules, plan: ProjectPlan, cudaIndex: Option<string>, npmOk: string -> bool,
      trace: seq<Entry>)
  {
    && Good(rules, plan.name, SplitTorch(plan.safe, cudaIndex).0, SplitTorch(plan.safe, cudaIndex).1, trace)
    && QuietAfterRestore(trace)
    && (plan.isNode ==> InstallsNothing(trace))
    && BlockedFirst(plan, trace)
    && (AllOk(EventsOf(trace)) <==> ProjectOk(plan, npmOk))
  }

  lemma BlockedIsGood(rules: Rules, plan: ProjectPlan, cudaIndex: Option<string>, env: State)
    ensures var blocked, split := BlockedEntries(plan, env), SplitTorch(plan.safe, cudaIndex);
            && Good(rules, plan.name, split.0, split.1, blocked)
            && InstallsNothing(blocked) && !SuccessfulRestore(blocked)
            && BlockedFirst(plan, blocked) && (AllOk(EventsOf(blocked)) <==> plan.blocked == [])
  {
    var blocked := BlockedEntries(plan, env);
    assert Honest(rules, blocked);
    if plan.blocked != [] {
      assert blocked == [blocked[0]] + blocked[1..];
      EventsOfConcat([blocked[0]], blocked[1..]);
      assert [blocked[0]][..0] == [];
      assert EventsOf(blocked)[0] == blocked[0].event;
    }
  }

  lemma NodeIsGood(rules: Rules, plan: ProjectPlan, cudaIndex: Option<string>, npmOk: string -> bool, env: State)
    ensures var own, split := [Emitted(NodeEvent(plan, npmOk), env)], SplitTorch(plan.safe, cudaIndex);
            && Good(rules, plan.name, split.0, split.1, own) && InstallsNothing(own) && QuietAfterRestore(own)
            && EventsOf(own) == [NodeEvent(plan, npmOk)]
            && (AllOk(EventsOf(own)) <==> plan.safe == [] || npmOk(plan.name))
  {
    var own := [Emitted(NodeEvent(plan, npmOk), env)];
    assert own[..0] == [];
    assert EventsOf(own) == [NodeEvent(plan, npmOk)];
    assert AllOk(EventsOf(own)) ==> OkStatus(EventsOf(own)[0].status);
  }

  lemma ProjectParts(rules: Rules, plan: ProjectPlan, cudaIndex: Option<string>, npmOk: string -> bool,
      blocked: seq<Entry>, own: seq<Entry>)
    requires var split := SplitTorch(plan.safe, cudaIndex);
             && Good(rules, plan.name, split.0, split.1, blocked)
             && InstallsNothing(blocked) && !SuccessfulRestore(blocked)
             && Good(rules, plan.name, split.0, split.1, own) && QuietAfterRestore(own)
    requires BlockedFirst(plan, blocked) && |blocked| == |plan.blocked|
    requires AllOk(EventsOf(blocked)) <==> plan.blocked == []
    requires plan.isNode ==> InstallsNothing(own) && (AllOk(EventsOf(own)) <==> plan.safe == [] || npmOk(plan.name))
    requires !plan.isNode ==> !AllOk(EventsOf(own))
    ensures ProjectTrace(rules, plan, cudaIndex, npmOk, blocked + own)
  {
    var split := SplitTorch(plan.safe, cudaIndex);
    GoodConcat(rules, plan.name, split.0, split.1, blocked, own);
    QuietConcat(blocked, own);
    EventsOfConcat(blocked, own);
    NotOkConcat(EventsOf(blocked), EventsOf(own));
  }

  ghost predicate DistinctProjects(projects: seq<ProjectPlan>) {
    forall i, j :: 0 <= i < j < |projects| ==> projects[i].name != projects[j].name
  }

  /** The install `e` is one of `plan`'s: its regular candidates, or its torch-family ones from the CUDA index. */
  ghost predicate InstallOf(e: Entry, plan: ProjectPlan, cudaIndex: Option<string>) {
    && e.Installed? && !plan.isNode && e.project == plan.name
    && e.pins == if e.cuda then SplitTorch(plan.safe, cudaIndex).1 else SplitTorch(plan.safe, cudaIndex).0
  }

  ghost predicate InstalledByPlan(e: Entry, projects: seq<ProjectPlan>, cudaIndex: Option<string>) {
    exists k :: 0 <= k < |projects| && InstallOf(e, projects[k], cudaIndex)
  }

  ghost predicate Planned(name: string, projects: seq<ProjectPlan>) {
    exists k :: 0 <= k < |projects| && projects[k].name == name
  }

  /** What applying `projects` adds to the history. */
  ghost predicate PlanTrace(rules: Rules, projects: seq<ProjectPlan>, cudaIndex: Option<string>,
      npmOk: string -> bool, trace: seq<Entry>)
  {
    && Honest(rules, trace)
    && (forall i :: 0 <= i < |trace| ==> Planned(ProjectOf(trace[i]), projects))
    && (forall i :: 0 <= i < |trace| && trace[i].Installed? ==> InstalledByPlan(trace[i], projects, cudaIndex))
    && (DistinctProjects(projects) ==> QuietAfterRestore(trace))
    && (AllOk(EventsOf(trace)) <==> forall k :: 0 <= k < |projects| ==> ProjectOk(projects[k], npmOk))
  }

  lemma PlannedNext(name: string, projects: seq<ProjectPlan>, plan: ProjectPlan)
    ensures Planned(name, projects) || name == plan.name ==> Planned(name, projects + [plan])
  {
    if k :| 0 <= k < |projects| && projects[k].name == name {
      assert (projects + [plan])[k].name == name;
    }
    assert (projects + [plan])[|projects|] == plan;
  }

  lemma InstalledNext(e: Entry, projects: seq<ProjectPlan>, plan: ProjectPlan, cudaIndex: Option<string>)
    ensures InstalledByPlan(e, projects, cudaIndex) || InstallOf(e, plan, cudaIndex) ==>
      InstalledByPlan(e, projects + [plan], cudaIndex)
  {
    if k :| 0 <= k < |projects| && InstallOf(e, projects[k], cudaIndex) {
      assert (projects + [plan])[k] == projects[k];
    }
    assert (projects + [plan])[|projects|] == plan;
  }

  lemma QuietNext(rules: Rules, projects: seq<ProjectPlan>, plan: ProjectPlan, cudaIndex: Option<string>,
      npmOk: string -> bool,
      trace: seq<Entry>, own: seq<Entry>)
    requires PlanTrace(rules, projects, cudaIndex, npmOk, trace) && ProjectTrace(rules, plan, cudaIndex, npmOk, own)
    requires DistinctProjects(projects + [plan])
    ensures QuietAfterRestore(trace + own)
  {
    assert DistinctProjects(projects) by {
      assert forall i :: 0 <= i < |projects| ==> (projects + [plan])[i] == projects[i];
    }
    assert (projects + [plan])[|projects|] == plan;
    forall i | 0 <= i < |trace|
      ensures ProjectOf(trace[i]) != plan.name
    {
      var k :| 0 <= k < |projects| && projects[k].name == ProjectOf(trace[i]);
      assert (projects + [plan])[k] == projects[k];
    }
    assert forall j :: 0 <= j < |own| ==> ProjectOf(own[j]) == plan.name;
  }

  lemma PlanTraceNext(rules: Rules, projects: seq<ProjectPlan>, plan: ProjectPlan, cudaIndex: Option<string>,
      npmOk: string -> bool,
      trace: seq<Entry>, own: seq<Entry>)
    requires PlanTrace(rules, projects, cudaIndex, npmOk, trace) && ProjectTrace(rules, plan, cudaIndex, npmOk, own)
    ensures PlanTrace(rules, projects + [plan], cudaIndex, npmOk, trace + own)
  {
    var all, both := projects + [plan], trace + own;
    forall i | 0 <= i < |both|
      ensures HonestEntry(rules, both[i]) && Planned(ProjectOf(both[i]), all)
      ensures both[i].Installed? ==> InstalledByPlan(both[i], all, cudaIndex)
    {
      assert both[i] == if i < |trace| then trace[i] else own[i - |trace|];
      PlannedNext(ProjectOf(both[i]), projects, plan);
      InstalledNext(both[i], projects, plan, cudaIndex);
    }
    if DistinctProjects(all) {
      QuietNext(rules, projects, plan, cudaIndex, npmOk, trace, own);
    }
    EventsOfConcat(trace, own);
    NotOkConcat(EventsOf(trace), EventsOf(own));
    assert all[|projects|] == plan && forall k :: 0 <= k < |projects| ==> all[k] == projects[k];
  }

  function NodeEvent(plan: ProjectPlan, npmOk: string -> bool): Event {
    if plan.safe == [] then Summary(plan.name, "(all)", Skipped)
    else Summary(plan.name, "(npm packages)", if npmOk(plan.name) then Upgraded else Failed)
  }

  /** What a Python project adds to the history. */
  ghost predicate PythonTrace(rules: Rules, plan: ProjectPlan, cudaIndex: Option<string>, trace: seq<Entry>) {
    && Good(rules, plan.name, SplitTorch(plan.safe, cudaIndex).0, SplitTorch(plan.safe, cudaIndex).1, trace)
    && QuietAfterRestore(trace)
    && !AllOk(EventsOf(trace))
  }

  /** The listed packages of `pins` hold. */
  ghost predicate ListedHold(rules: Rules, env: State, pins: seq<Outdated>) {
    forall pin :: pin in pins && rules.listed(Key(pin)) ==> Holds(rules, env, pin)
  }

  lemma ListedStillHold(rules: Rules, before: State, after: State, pins: seq<Outdated>)
    ensures AllHold(rules, before, pins) && KeepsListed(rules, before, after) ==> ListedHold(rules, after, pins)
  {
  }

  /** The history's last entry is an event yielded in the environment `env`. */
  ghost predicate EndsIn(trace: seq<Entry>, env: State) {
    trace != [] && trace[|trace| - 1].Emitted? && trace[|trace| - 1].env == env
  }

  /** The regular batch was rolled back: a restore worked and the CUDA index was not reached. */
  ghost predicate RolledBack(trace: seq<Entry>) {
    SuccessfulRestore(trace) && !CudaTried(trace)
  }

  /** The torch-family batch from the CUDA index succeeded. */
  ghost predicate CudaSucceeded(trace: seq<Entry>, project: string, torch: seq<Outdated>) {
    exists i :: 0 <= i < |trace| - 1 && SucceedsAt(trace, i, project, torch)
  }

  ghost predicate SucceedsAt(trace: seq<Entry>, i: int, project: string, torch: seq<Outdated>) {
    && 0 <= i < |trace| - 1 && trace[i] == Installed(project, torch, true, true, trace[i].env)
    && trace[i + 1] == Checked(project, true, trace[i].env)
  }

  /**
   * What a Python project's own history `own` says about its environment
   * before and after: it tells everything that moved it, so a batch that was
   * rolled back, regular or torch-family, leaves what `RestoreIsFinal` says. A
   * Every batch is reported: one `upgraded` event per package right after a
   * check that passed, one failure otherwise, and a single `skipped` event
   * instead when there is nothing to do. A
   * rolled-back regular batch leaves every listed package as it was; a
   * restored torch failure keeps the regular pins; a batch that succeeded last
   * has its pins in place in a consistent environment; and without a rollback
   * the project ends with its verification.
   */
  ghost predicate PythonOutcome(rules: Rules, plan: ProjectPlan, cudaIndex: Option<string>, before: State,
      after: State, own: seq<Entry>)
  {
    var (regular, torch) := SplitTorch(plan.safe, cudaIndex);
    && PythonTrace(rules, plan, cudaIndex, own)
    && EndsIn(own, after)
    && Follows(rules, before, own, after)
    && InstalledOnceEach(own, regular != [])
    && Reports(own, plan.name)
    && (own[0] == Emitted(Summary(plan.name, "(all)", Skipped), before) <==>
          regular == [] && torch == [] && plan.outdated == [])
    && (RolledBack(own) ==> KeepsListed(rules, before, after))
    && (SuccessfulRestore(own) && BatchSucceeded(own, plan.name, regular, false) ==> ListedHold(rules, after, regular))
    && (regular != [] && BatchSucceeded(own, plan.name, regular, false) && !CudaTried(own) ==>
          AllHold(rules, after, regular) && rules.consistent(after))
    && (CudaSucceeded(own, plan.name, torch) ==> AllHold(rules, after, torch) && rules.consistent(after))
    && (!RolledBack(own) ==> (CudaTried(own) <==> cudaIndex.Some? && torch != []))
    && (!RolledBack(own) ==> EndsVerified(plan.name, cudaIndex, after, own))
    && (regular != [] ==> |own| >= 3 && own[1].Installed? && !own[1].cuda)
  }

  lemma FailureEndsIn(project: string, pins: seq<Outdated>, cuda: bool, about: string, ok: bool, rolledBack: bool,
      env: State, trace: seq<Entry>)
    requires ReportedBatch(project, pins, cuda, about, ok, rolledBack, env, trace)
    ensures !ok ==> EndsIn(trace, env)
  {
  }

  lemma NoCudaSuccess(trace: seq<Entry>, project: string, torch: seq<Outdated>)
    requires !CudaTried(trace)
    ensures !CudaSucceeded(trace, project, torch)
  {
  }

  lemma SuccessBeforeQuiet(a: seq<Entry>, b: seq<Entry>, project: string, torch: seq<Outdated>)
    requires InstallsNothing(b) && (a == [] || (|a| >= 3 && forall i :: 0 <= i < |a| && a[i].Installed? ==> i == 1))
    ensures CudaSucceeded(a + b, project, torch) ==> CudaSucceeded(a, project, torch)
  {
    if i :| SucceedsAt(a + b, i, project, torch) {
      assert SucceedsAt(a, i, project, torch);
    }
  }

  lemma SuccessAfterNoCuda(a: seq<Entry>, b: seq<Entry>, project: string, torch: seq<Outdated>)
    requires !CudaTried(a)
    ensures CudaSucceeded(a + b, project, torch) ==> CudaSucceeded(b, project, torch)
  {
    if i :| SucceedsAt(a + b, i, project, torch) {
      assert SucceedsAt(b, i - |a|, project, torch);
    }
  }

  lemma PythonParts(rules: Rules, plan: ProjectPlan, cudaIndex: Option<string>, first: seq<Entry>, rest: seq<Entry>,
      before: State, middle: State, after: State)
    requires var (regular, torch) := SplitTorch(plan.safe, cudaIndex);
             && Good(rules, plan.name, regular, torch, first) && QuietAfterRestore(first)
             && !SuccessfulRestore(first) && !CudaTried(first)
             && Good(rules, plan.name, regular, torch, rest) && QuietAfterRestore(rest) && !AllOk(EventsOf(rest))
             && (BatchSucceeded(first, plan.name, regular, false) ==>
                   AllHold(rules, middle, regular) && rules.consistent(middle))
             && (regular != [] ==> |first| >= 3 && first[1].Installed? && !first[1].cuda)
             && (CudaTried(rest) <==> cudaIndex.Some? && torch != [])
             && (CudaSucceeded(rest, plan.name, torch) ==> AllHold(rules, after, torch) && rules.consistent(after))
    requires SuccessfulRestore(rest) ==> CudaTried(rest) && KeepsListed(rules, middle, after)
    requires !CudaTried(rest) ==> after == middle
    requires EndsVerified(plan.name, cudaIndex, after, rest)
    requires Follows(rules, before, first + rest, after) && InstalledOnceFromCuda(rest)
    requires InstalledOnceAtStart(first, SplitTorch(plan.safe, cudaIndex).0 != [])
    requires Reports(first, plan.name) && Reports(rest, plan.name) && !rest[0].Emitted?
    requires var (regular, torch) := SplitTorch(plan.safe, cudaIndex);
      regular == [] ==> first == if torch == [] && plan.outdated == []
        then [Emitted(Summary(plan.name, "(all)", Skipped), before)] else []
    requires SplitTorch(plan.safe, cudaIndex).0 != [] ==> first[0].Frozen?
    ensures !RolledBack(first + rest)
    ensures PythonOutcome(rules, plan, cudaIndex, before, after, first + rest)
  {
    var (regular, torch) := SplitTorch(plan.safe, cudaIndex);
    PartsTogether(rules, plan.name, regular, torch, first, rest);
    CudaConcat(first, rest);
    SuccessAfterNoCuda(first, rest, plan.name, torch);
    BatchOfFirst(plan.name, regular, first, rest);
    ListedStillHold(rules, middle, after, regular);
    VerifiedEnd(plan.name, cudaIndex, after, first, rest);
    OnceEach(first, rest, regular != []);
    ReportsConcat(first, rest, plan.name);
  }

  /** A rolled-back regular batch is all there is of the project. */
  lemma RegularStopped(rules: Rules, plan: ProjectPlan, cudaIndex: Option<string>, own: seq<Entry>, before: State,
      after: State)
    requires var (regular, torch) := SplitTorch(plan.safe, cudaIndex);
             && Good(rules, plan.name, regular, torch, own) && QuietAfterRestore(own) && !AllOk(EventsOf(own))
             && !BatchSucceeded(own, plan.name, regular, false) && InstalledOnceAtStart(own, regular != [])
             && (regular != [] ==> |own| >= 3 && own[1].Installed? && !own[1].cuda)
    requires SuccessfulRestore(own) && !CudaTried(own) && KeepsListed(rules, before, after)
    requires EndsIn(own, after) && Follows(rules, before, own, after)
    requires Reports(own, plan.name) && SplitTorch(plan.safe, cudaIndex).0 != [] && own[0].Frozen?
    ensures RolledBack(own) && PythonOutcome(rules, plan, cudaIndex, before, after, own)
  {
    var (regular, torch) := SplitTorch(plan.safe, cudaIndex);
    NoCudaSuccess(own, plan.name, torch);
    var none: seq<Entry> := [];
    OnceEach(own, none, regular != []);
    assert own + none == own;
  }

  lemma VerifiedEnd(project: string, cudaIndex: Option<string>, env: State, a: seq<Entry>, b: seq<Entry>)
    requires EndsVerified(project, cudaIndex, env, b)
    ensures EndsVerified(project, cudaIndex, env, a + b) && EndsIn(a + b, env)
  {
  }

  /**
   * The history ends with the verification of the project: one pip check and
   * its event, and on a GPU host with torch installed the event of the
   * runtime check.
   */
  ghost predicate EndsVerified(project: string, cudaIndex: Option<string>, env: State, trace: seq<Entry>) {
    var n := |trace| - if cudaIndex.Some? && "torch" in env then 3 else 2;
    && n >= 0
    && trace[n].Checked?
    && trace[n + 1] == Emitted(Summary(project, "(pip check)", if trace[n].ok then Verified else Failed), env)
    && (n + 3 == |trace| ==> RuntimeEvent(trace[n + 2], env))
  }

  predicate RuntimeEvent(e: Entry, env: State) {
    && e.Emitted? && e.event.Summary? && e.event.about == "torch-cuda-verify" && e.env == env
    && (e.event.status == Verified || e.event.status == Failed)
  }

  lemma PartsTogether(rules: Rules, project: string, regular: seq<Outdated>, torch: seq<Outdated>, a: seq<Entry>,
      b: seq<Entry>)
    requires Good(rules, project, regular, torch, a) && QuietAfterRestore(a)
    requires Good(rules, project, regular, torch, b) && QuietAfterRestore(b) && !AllOk(EventsOf(b))
    requires !SuccessfulRestore(a) || InstallsNothing(b)
    ensures Good(rules, project, regular, torch, a + b) && QuietAfterRestore(a + b)
    ensures EventsOf(a + b) == EventsOf(a) + EventsOf(b) && !AllOk(EventsOf(a + b))
    ensures SuccessfulRestore(a + b) <==> SuccessfulRestore(a) || SuccessfulRestore(b)
  {
    GoodConcat(rules, project, regular, torch, a, b);
    RestoreConcat(a, b);
    QuietConcat(a, b);
    EventsOfConcat(a, b);
    NotOkConcat(EventsOf(a), EventsOf(b));
  }

  lemma VerifyParts(rules: Rules, project: string, regular: seq<Outdated>, torch: seq<Outdated>, a: seq<Entry>,
      b: seq<Entry>)
    requires Good(rules, project, regular, torch, a) && InstallsNothing(a) && !SuccessfulRestore(a)
    requires Good(rules, project, regular, torch, b) && InstallsNothing(b) && !SuccessfulRestore(b) &&
      !AllOk(EventsOf(b))
    ensures Good(rules, project, regular, torch, a + b) && InstallsNothing(a + b) && !SuccessfulRestore(a + b)
    ensures !AllOk(EventsOf(a + b))
  {
    PartsTogether(rules, project, regular, torch, a, b);
  }

  /** Only the regular batch can have succeeded at the start of the history. */
  lemma BatchOfFirst(project: string, regular: seq<Outdated>, a: seq<Entry>, b: seq<Entry>)
    requires regular != [] ==> |a| >= 3
    ensures regular != [] && BatchSucceeded(a + b, project, regular, false) ==>
      BatchSucceeded(a, project, regular, false)
  {
  }

  lemma CudaConcat(a: seq<Entry>, b: seq<Entry>)
    ensures CudaTried(a + b) <==> CudaTried(a) || CudaTried(b)
  {
    var c := a + b;
    if i :| 0 <= i < |c| && c[i].Installed? && c[i].cuda {
      assert i < |a| ==> a[i] == c[i];
      assert i >= |a| ==> b[i - |a|] == c[i];
    }
    if i :| 0 <= i < |a| && a[i].Installed? && a[i].cuda {
      assert c[i] == a[i];
    }
    if i :| 0 <= i < |b| && b[i].Installed? && b[i].cuda {
      assert c[|a| + i] == b[i];
    }
  }

  lemma NotOkConcat(a: seq<Event>, b: seq<Event>)
    ensures AllOk(a + b) <==> AllOk(a) && AllOk(b)
  {
    if AllOk(a + b) {
      assert forall i :: 0 <= i < |a| ==> (a + b)[i] == a[i];
      assert forall i :: 0 <= i < |b| ==> (a + b)[|a| + i] == b[i];
    }
  }

  ghost predicate AllOk(events: seq<Event>) {
    forall i :: 0 <= i < |events| ==> OkStatus(events[i].status)
  }

  lemma {:induction false} FailureIsReported(trace: seq<Entry>, project: string, about: string, env: State)
    ensures Emitted(Summary(project, about, Failed), env) in trace ==> !AllOk(EventsOf(trace))
  {
    if trace != [] {
      var n := |trace| - 1;
      FailureIsReported(trace[..n], project, about, env);
      assert trace == trace[..n] + [trace[n]];
      var init := EventsOf(trace[..n]);
      if !AllOk(init) {
        var i :| 0 <= i < |init| && !OkStatus(init[i].status);
        assert EventsOf(trace)[i] == init[i];
      } else if trace[n] == Emitted(Summary(project, about, Failed), env) {
        assert EventsOf(trace)[|init|] == trace[n].event;
      }
    }
  }

  /** No environment outside the plan is touched. */
  ghost predicate OthersKept(before: map<string, State>, after: map<string, State>, projects: seq<ProjectPlan>) {
    forall other :: !Planned(other, projects) ==> EnvIn(after, other) == EnvIn(before, other)
  }

  lemma OthersKeptStep(v0: map<string, State>, v1: map<string, State>, v2: map<string, State>,
      projects: seq<ProjectPlan>, i: nat)
    requires i < |projects| && OthersKept(v0, v1, projects[..i]) && OnlyVenv(v1, v2, projects[i].name)
    ensures OthersKept(v0, v2, projects[..i + 1])
  {
    forall other | !Planned(other, projects[..i + 1])
      ensures EnvIn(v2, other) == EnvIn(v0, other)
    {
      assert projects[..i + 1] == projects[..i] + [projects[i]];
      PlannedNext(other, projects[..i], projects[i]);
    }
  }

  lemma PlanTraceStep(rules: Rules, projects: seq<ProjectPlan>, i: nat, cudaIndex: Option<string>,
      npmOk: string -> bool,
      trace: seq<Entry>, own: seq<Entry>)
    requires i < |projects|
    requires PlanTrace(rules, projects[..i], cudaIndex, npmOk, trace) &&
      ProjectTrace(rules, projects[i], cudaIndex, npmOk, own)
    ensures PlanTrace(rules, projects[..i + 1], cudaIndex, npmOk, trace + own)
  {
    PlanTraceNext(rules, projects[..i], projects[i], cudaIndex, npmOk, trace, own);
    assert projects[..i + 1] == projects[..i] + [projects[i]];
  }

  /** `trace` is what was added to the history and its events to the events. */
  ghost predicate Recorded(before: seq<Entry>, yielded: seq<Event>, history: seq<Entry>, events: seq<Event>,
      trace: seq<Entry>)
  {
    history == before + trace && events == yielded + EventsOf(trace)
  }

  lemma RecordedNext(h0: seq<Entry>, e0: seq<Event>, h1: seq<Entry>, e1: seq<Event>, h2: seq<Entry>, e2: seq<Event>,
      trace: seq<Entry>, own: seq<Entry>)
    requires Recorded(h0, e0, h1, e1, trace) && Recorded(h1, e1, h2, e2, own)
    ensures Recorded(h0, e0, h2, e2, trace + own)
  {
    EventsOfConcat(trace, own);
  }

  /** A Node project yields one event: nothing to do, or how `npm update` went. */
  ghost predicate NodeOutcome(plan: ProjectPlan, env: State, own: seq<Entry>) {
    && |own| == 1 && own[0].Emitted? && own[0].env == env
    && (plan.safe == [] <==> own[0].event == Summary(plan.name, "(all)", Skipped))
    && (plan.safe != [] ==>
          || own[0].event == Summary(plan.name, "(npm packages)", Upgraded)
          || own[0].event == Summary(plan.name, "(npm packages)", Failed))
  }

  /** The history ends with one event per synced manifest. */
  ghost predicate EndsWithSyncs(syncs: seq<(string, bool)>, trace: seq<Entry>) {
    && |trace| >= |syncs|
    && forall i {:trigger syncs[i]} :: 0 <= i < |syncs| ==> SyncEvent(trace[|trace| - |syncs| + i], syncs[i])
  }

  predicate SyncEvent(e: Entry, sync: (string, bool)) {
    e.Emitted? && e.event == Summary(sync.0, "(manifest sync)", if sync.1 then Upgraded else Failed)
  }

  // Environments over the whole plan

  /** What a project's own history says about its environment; a Node project leaves its environment alone. */
  ghost predicate ProjectOutcome(rules: Rules, plan: ProjectPlan, cudaIndex: Option<string>, before: State,
      after: State, trace: seq<Entry>)
  {
    && BlockedFirst(plan, trace)
    && if plan.isNode then after == before && NodeOutcome(plan, before, trace[|plan.blocked|..])
       else PythonOutcome(rules, plan, cudaIndex, before, after, trace[|plan.blocked|..])
  }

  /** `e` is something pip was asked to do in `project`, or a package reported as upgraded there. */
  predicate PipAction(e: Entry, project: string) {
    (!e.Emitted? || UpgradedEvent(e)) && ProjectOf(e) == project
  }

  /** A stretch of the history holds everything done in the project and says what became of its environment. */
  ghost predicate Settled(rules: Rules, plan: ProjectPlan, cudaIndex: Option<string>, before: State, after: State,
      trace: seq<Entry>)
  {
    exists i, j :: SettledIn(rules, plan, cudaIndex, before, after, trace, i, j)
  }

  ghost predicate SettledIn(rules: Rules, plan: ProjectPlan, cudaIndex: Option<string>, before: State,
      after: State, trace: seq<Entry>, i: int, j: int)
  {
    && 0 <= i <= j <= |trace|
    && ProjectOutcome(rules, plan, cudaIndex, before, after, trace[i..j])
    && ActionsWithin(trace, plan.name, i, j)
  }

  ghost predicate ActionsWithin(trace: seq<Entry>, project: string, i: int, j: int) {
    forall k :: 0 <= k < |trace| && PipAction(trace[k], project) ==> i <= k < j
  }

  /** Each of the first `n` projects, from its environment before the plan to the one after it. */
  ghost predicate AllSettled(rules: Rules, projects: seq<ProjectPlan>, n: nat, cudaIndex: Option<string>,
      before: map<string, State>, after: map<string, State>, trace: seq<Entry>)
    requires n <= |projects|
  {
    forall k {:trigger ProjectSettled(rules, projects[k], cudaIndex, before, after, trace)} :: 0 <= k < n ==>
      ProjectSettled(rules, projects[k], cudaIndex, before, after, trace)
  }

  ghost predicate ProjectSettled(rules: Rules, plan: ProjectPlan, cudaIndex: Option<string>,
      before: map<string, State>, after: map<string, State>, trace: seq<Entry>)
  {
    Settled(rules, plan, cudaIndex, EnvIn(before, plan.name), EnvIn(after, plan.name), trace)
  }

  /** What is done in other projects settles nothing anew. */
  lemma SettledLater(rules: Rules, plan: ProjectPlan, cudaIndex: Option<string>, before: State, after: State,
      trace: seq<Entry>, more: seq<Entry>)
    requires Settled(rules, plan, cudaIndex, before, after, trace)
    requires NoPipAction(more, plan.name)
    ensures Settled(rules, plan, cudaIndex, before, after, trace + more)
  {
    var i, j :| SettledIn(rules, plan, cudaIndex, before, after, trace, i, j);
    SameStretch(trace, more, i, j);
    ActionsStay(trace, more, plan.name, i, j);
    assert SettledIn(rules, plan, cudaIndex, before, after, trace + more, i, j);
  }

  ghost predicate NoPipAction(trace: seq<Entry>, project: string) {
    forall k :: 0 <= k < |trace| ==> !PipAction(trace[k], project)
  }

  lemma SameStretch(trace: seq<Entry>, more: seq<Entry>, i: int, j: int)
    requires 0 <= i <= j <= |trace|
    ensures (trace + more)[i..j] == trace[i..j]
  {
  }

  lemma ActionsStay(trace: seq<Entry>, more: seq<Entry>, project: string, i: int, j: int)
    requires ActionsWithin(trace, project, i, j) && NoPipAction(more, project)
    ensures ActionsWithin(trace + more, project, i, j)
  {
  }

  lemma SettledNow(rules: Rules, plan: ProjectPlan, cudaIndex: Option<string>, before: State, after: State,
      trace: seq<Entry>, own: seq<Entry>)
    requires ProjectOutcome(rules, plan, cudaIndex, before, after, own)
    requires NoPipAction(trace, plan.name)
    ensures Settled(rules, plan, cudaIndex, before, after, trace + own)
  {
    var i, j := |trace|, |trace| + |own|;
    assert (trace + own)[i..j] == own;
    assert SettledIn(rules, plan, cudaIndex, before, after, trace + own, i, j);
  }

  /** With distinct names the projects applied so far are not those still to come. */
  lemma NotPlannedYet(projects: seq<ProjectPlan>, i: nat, k: nat)
    requires DistinctProjects(projects) && k <= i < |projects|
    ensures !Planned(projects[i].name, projects[..i])
    ensures k < i ==> projects[k].name != projects[i].name
  {
  }

  /** The entries of a plan without the project ask pip for nothing in it. */
  lemma UnplannedIsQuiet(rules: Rules, projects: seq<ProjectPlan>, cudaIndex: Option<string>, npmOk: string -> bool,
      trace: seq<Entry>, project: string)
    requires PlanTrace(rules, projects, cudaIndex, npmOk, trace) && !Planned(project, projects)
    ensures NoPipAction(trace, project)
  {
  }

  lemma OtherIsQuiet(rules: Rules, plan: ProjectPlan, cudaIndex: Option<string>, npmOk: string -> bool,
      own: seq<Entry>, project: string)
    requires ProjectTrace(rules, plan, cudaIndex, npmOk, own) && project != plan.name
    ensures NoPipAction(own, project)
  {
  }

  lemma EarlierSettled(rules: Rules, plan: ProjectPlan, other: string, cudaIndex: Option<string>,
      v0: map<string, State>, v1: map<string, State>, v2: map<string, State>, trace: seq<Entry>, own: seq<Entry>)
    requires ProjectSettled(rules, plan, cudaIndex, v0, v1, trace)
    requires OnlyVenv(v1, v2, other) && plan.name != other && NoPipAction(own, plan.name)
    ensures ProjectSettled(rules, plan, cudaIndex, v0, v2, trace + own)
  {
    SettledLater(rules, plan, cudaIndex, EnvIn(v0, plan.name), EnvIn(v1, plan.name), trace, own);
  }

  lemma NewlySettled(rules: Rules, plan: ProjectPlan, cudaIndex: Option<string>, v0: map<string, State>,
      v1: map<string, State>, v2: map<string, State>, trace: seq<Entry>, own: seq<Entry>)
    requires EnvIn(v0, plan.name) == EnvIn(v1, plan.name) && NoPipAction(trace, plan.name)
    requires ProjectOutcome(rules, plan, cudaIndex, EnvIn(v1, plan.name), EnvIn(v2, plan.name), own)
    ensures ProjectSettled(rules, plan, cudaIndex, v0, v2, trace + own)
  {
    SettledNow(rules, plan, cudaIndex, EnvIn(v0, plan.name), EnvIn(v2, plan.name), trace, own);
  }

  /** The environments, the history and the events at one moment. */
  datatype Book = Book(venvs: map<string, State>, history: seq<Entry>, events: seq<Event>)

  /** The projects before the i-th have been applied since `start`, adding `trace`. */
  ghost predicate Progress(rules: Rules, projects: seq<ProjectPlan>, i: nat, cudaIndex: Option<string>,
      npmOk: string -> bool, start: Book, now: Book, trace: seq<Entry>)
    requires i <= |projects|
  {
    && Recorded(start.history, start.events, now.history, now.events, trace)
    && PlanTrace(rules, projects[..i], cudaIndex, npmOk, trace)
    && OthersKept(start.venvs, now.venvs, projects[..i])
    && (DistinctProjects(projects) ==> AllSettled(rules, projects, i, cudaIndex, start.venvs, now.venvs, trace))
  }

  lemma NothingDone(rules: Rules, projects: seq<ProjectPlan>, cudaIndex: Option<string>, npmOk: string -> bool, b: Book)
    ensures Progress(rules, projects, 0, cudaIndex, npmOk, b, b, [])
  {
    assert EventsOf([]) == [];
  }

  lemma ProgressStep(rules: Rules, projects: seq<ProjectPlan>, i: nat, cudaIndex: Option<string>,
      npmOk: string -> bool, start: Book, before: Book, now: Book, trace: seq<Entry>, own: seq<Entry>)
    requires i < |projects| && Progress(rules, projects, i, cudaIndex, npmOk, start, before, trace)
    requires Recorded(before.history, before.events, now.history, now.events, own)
    requires ProjectTrace(rules, projects[i], cudaIndex, npmOk, own)
    requires OnlyVenv(before.venvs, now.venvs, projects[i].name)
    requires ProjectOutcome(rules, projects[i], cudaIndex, EnvIn(before.venvs, projects[i].name),
      EnvIn(now.venvs, projects[i].name), own)
    ensures Progress(rules, projects, i + 1, cudaIndex, npmOk, start, now, trace + own)
  {
    RecordedNext(start.history, start.events, before.history, before.events, now.history, now.events, trace, own);
    PlanTraceStep(rules, projects, i, cudaIndex, npmOk, trace, own);
    OthersKeptStep(start.venvs, before.venvs, now.venvs, projects, i);
    if DistinctProjects(projects) {
      SettledStep(rules, projects, i, cudaIndex, npmOk, start, before, now, trace, own);
    }
  }

  lemma StaysSettled(rules: Rules, projects: seq<ProjectPlan>, i: nat, k: nat, cudaIndex: Option<string>,
      npmOk: string -> bool, v0: map<string, State>, v1: map<string, State>, v2: map<string, State>,
      trace: seq<Entry>, own: seq<Entry>)
    requires k < i < |projects| && DistinctProjects(projects)
    requires ProjectSettled(rules, projects[k], cudaIndex, v0, v1, trace)
    requires ProjectTrace(rules, projects[i], cudaIndex, npmOk, own) && OnlyVenv(v1, v2, projects[i].name)
    ensures ProjectSettled(rules, projects[k], cudaIndex, v0, v2, trace + own)
  {
    NotPlannedYet(projects, i, k);
    OtherIsQuiet(rules, projects[i], cudaIndex, npmOk, own, projects[k].name);
    EarlierSettled(rules, projects[k], projects[i].name, cudaIndex, v0, v1, v2, trace, own);
  }

  lemma EarlierStaySettled(rules: Rules, projects: seq<ProjectPlan>, i: nat, cudaIndex: Option<string>,
      npmOk: string -> bool, v0: map<string, State>, v1: map<string, State>, v2: map<string, State>,
      trace: seq<Entry>, own: seq<Entry>)
    requires i < |projects| && DistinctProjects(projects) && AllSettled(rules, projects, i, cudaIndex, v0, v1, trace)
    requires ProjectTrace(rules, projects[i], cudaIndex, npmOk, own) && OnlyVenv(v1, v2, projects[i].name)
    ensures AllSettled(rules, projects, i, cudaIndex, v0, v2, trace + own)
  {
    forall k | 0 <= k < i
      ensures ProjectSettled(rules, projects[k], cudaIndex, v0, v2, trace + own)
    {
      assert ProjectSettled(rules, projects[k], cudaIndex, v0, v1, trace);
      StaysSettled(rules, projects, i, k, cudaIndex, npmOk, v0, v1, v2, trace, own);
    }
  }

  lemma NextSettled(rules: Rules, projects: seq<ProjectPlan>, i: nat, cudaIndex: Option<string>,
      npmOk: string -> bool, start: Book, before: Book, now: Book, trace: seq<Entry>, own: seq<Entry>)
    requires i < |projects| && DistinctProjects(projects)
    requires PlanTrace(rules, projects[..i], cudaIndex, npmOk, trace)
    requires OthersKept(start.venvs, before.venvs, projects[..i])
    requires ProjectOutcome(rules, projects[i], cudaIndex, EnvIn(before.venvs, projects[i].name),
      EnvIn(now.venvs, projects[i].name), own)
    ensures ProjectSettled(rules, projects[i], cudaIndex, start.venvs, now.venvs, trace + own)
  {
    NotPlannedYet(projects, i, i);
    UnplannedIsQuiet(rules, projects[..i], cudaIndex, npmOk, trace, projects[i].name);
    NewlySettled(rules, projects[i], cudaIndex, start.venvs, before.venvs, now.venvs, trace, own);
  }

  lemma SettledStep(rules: Rules, projects: seq<ProjectPlan>, i: nat, cudaIndex: Option<string>,
      npmOk: string -> bool, start: Book, before: Book, now: Book, trace: seq<Entry>, own: seq<Entry>)
    requires i < |projects| && DistinctProjects(projects)
    requires AllSettled(rules, projects, i, cudaIndex, start.venvs, before.venvs, trace)
    requires PlanTrace(rules, projects[..i], cudaIndex, npmOk, trace)
    requires OthersKept(start.venvs, before.venvs, projects[..i])
    requires ProjectTrace(rules, projects[i], cudaIndex, npmOk, own)
    requires OnlyVenv(before.venvs, now.venvs, projects[i].name)
    requires ProjectOutcome(rules, projects[i], cudaIndex, EnvIn(before.venvs, projects[i].name),
      EnvIn(now.venvs, projects[i].name), own)
    ensures AllSettled(rules, projects, i + 1, cudaIndex, start.venvs, now.venvs, trace + own)
  {
    NextSettled(rules, projects, i, cudaIndex, npmOk, start, before, now, trace, own);
    EarlierStaySettled(rules, projects, i, cudaIndex, npmOk, start.venvs, before.venvs, now.venvs, trace, own);
  }

  lemma AllSettledNeutral(rules: Rules, plan: EcosystemPlan, before: map<string, State>, after: map<string, State>,
      trace: seq<Entry>, sync: seq<Entry>)
    requires AllSettled(rules, plan.projects, |plan.projects|, plan.cudaIndex, before, after, trace) &&
      Neutral(rules, sync)
    ensures AllSettled(rules, plan.projects, |plan.projects|, plan.cudaIndex, before, after, trace + sync)
  {
    forall k | 0 <= k < |plan.projects|
      ensures ProjectSettled(rules, plan.projects[k], plan.cudaIndex, before, after, trace + sync)
    {
      assert ProjectSettled(rules, plan.projects[k], plan.cudaIndex, before, after, trace);
      var name := plan.projects[k].name;
      SettledLater(rules, plan.projects[k], plan.cudaIndex, EnvIn(before, name), EnvIn(after, name), trace, sync);
    }
  }

  /** Over a whole plan, every batch of a project is reported right after it. */
  lemma BatchesAreReported(rules: Rules, plan: EcosystemPlan, before: map<string, State>, after: map<string, State>,
      trace: seq<Entry>, k: nat, g: nat)
    requires PlanApplied(rules, plan, before, after, trace) && DistinctProjects(plan.projects)
    requires k < |plan.projects| && !plan.projects[k].isNode
    requires g < |trace| && trace[g].Installed? && trace[g].project == plan.projects[k].name
    ensures ReportedAt(trace, g, plan.projects[k].name)
  {
    var p := plan.projects[k];
    assert ProjectSettled(rules, p, plan.cudaIndex, before, after, trace);
    var i, j :| SettledIn(rules, p, plan.cudaIndex, EnvIn(before, p.name), EnvIn(after, p.name), trace, i, j);
    SettledReport(rules, p, plan.cudaIndex, EnvIn(before, p.name), EnvIn(after, p.name), trace, i, j, g);
  }

  lemma SettledReport(rules: Rules, p: ProjectPlan, cudaIndex: Option<string>, before: State, after: State,
      trace: seq<Entry>, i: int, j: int, g: nat)
    requires SettledIn(rules, p, cudaIndex, before, after, trace, i, j) && !p.isNode
    requires g < |trace| && trace[g].Installed? && trace[g].project == p.name
    ensures ReportedAt(trace, g, p.name)
  {
    StretchHolds(rules, p, cudaIndex, before, after, trace, i, j, g);
    StretchReports(rules, p, cudaIndex, before, after, trace, i, j);
    ReportInStretch(trace, i + |p.blocked|, j, p.name, g);
  }

  /** Over a whole plan, a package is reported as upgraded only right after a successful install in its project. */
  lemma UpgradesAreEarned(rules: Rules, plan: EcosystemPlan, before: map<string, State>, after: map<string, State>,
      trace: seq<Entry>, k: nat, m: nat)
    requires PlanApplied(rules, plan, before, after, trace) && DistinctProjects(plan.projects)
    requires k < |plan.projects| && !plan.projects[k].isNode
    requires m < |trace| && UpgradedEvent(trace[m]) && trace[m].event.project == plan.projects[k].name
    ensures exists g: nat :: BelongsTo(trace, m, g)
  {
    var p := plan.projects[k];
    assert ProjectSettled(rules, p, plan.cudaIndex, before, after, trace);
    var i, j :| SettledIn(rules, p, plan.cudaIndex, EnvIn(before, p.name), EnvIn(after, p.name), trace, i, j);
    SettledUpgrade(rules, p, plan.cudaIndex, EnvIn(before, p.name), EnvIn(after, p.name), trace, i, j, m);
  }

  lemma SettledUpgrade(rules: Rules, p: ProjectPlan, cudaIndex: Option<string>, before: State, after: State,
      trace: seq<Entry>, i: int, j: int, m: nat)
    requires SettledIn(rules, p, cudaIndex, before, after, trace, i, j) && !p.isNode
    requires m < |trace| && UpgradedEvent(trace[m]) && trace[m].event.project == p.name
    ensures exists g: nat :: BelongsTo(trace, m, g)
  {
    InStretch(trace, p, i, j, m);
    StretchReports(rules, p, cudaIndex, before, after, trace, i, j);
    UpgradeInStretch(trace, i + |p.blocked|, j, p.name, m);
  }

  lemma StretchReports(rules: Rules, p: ProjectPlan, cudaIndex: Option<string>, before: State, after: State,
      trace: seq<Entry>, i: int, j: int)
    requires SettledIn(rules, p, cudaIndex, before, after, trace, i, j) && !p.isNode
    ensures i + |p.blocked| <= j && Reports(trace[i + |p.blocked|..j], p.name)
  {
    StretchSlice(trace, i, j, |p.blocked|);
  }

  lemma ReportInStretch(trace: seq<Entry>, first: int, j: int, project: string, g: nat)
    requires 0 <= first <= g < j <= |trace| && Reports(trace[first..j], project) && trace[g].Installed?
    ensures ReportedAt(trace, g, project)
  {
    var own := trace[first..j];
    assert own[g - first] == trace[g] && ReportedAt(own, g - first, project);
    ReportedRight(trace[..first], own, g - first, project);
    ReportedLeft(trace[..first] + own, trace[j..], g, project);
    ThreePieces(trace, first, j);
  }

  lemma ThreePieces(trace: seq<Entry>, first: int, j: int)
    requires 0 <= first <= j <= |trace|
    ensures trace[..first] + trace[first..j] + trace[j..] == trace
  {
    assert trace[..first] + trace[first..j] == trace[..j];
  }

  lemma UpgradeInStretch(trace: seq<Entry>, first: int, j: int, project: string, m: nat)
    requires 0 <= first <= m < j <= |trace| && Reports(trace[first..j], project) && UpgradedEvent(trace[m])
    ensures exists g: nat :: BelongsTo(trace, m, g)
  {
    var own := trace[first..j];
    assert own[m - first] == trace[m];
    var g: nat :| BelongsTo(own, m - first, g);
    assert own[g] == trace[first + g] && own[g + 1] == trace[first + g + 1];
    assert BelongsTo(trace, m, first + g);
  }

  ghost predicate RestoredIn(trace: seq<Entry>, project: string) {
    exists i :: 0 <= i < |trace| && trace[i].Restored? && trace[i].ok && trace[i].project == project
  }

  ghost predicate CudaTriedIn(trace: seq<Entry>, project: string) {
    exists i :: 0 <= i < |trace| && trace[i].Installed? && trace[i].cuda && trace[i].project == project
  }

  /**
   * Over a whole plan, a batch that was rolled back, regular or torch-family,
   * leaves the project as its install left it with every name listed before it
   * rewritten. The snapshot is of the environment before the plan, unless a
   * regular batch came before a torch-family one.
   */
  lemma RestoredBatchIsUndone(rules: Rules, plan: EcosystemPlan, before: map<string, State>,
      after: map<string, State>, trace: seq<Entry>, k: nat, r: nat)
    requires PlanApplied(rules, plan, before, after, trace) && DistinctProjects(plan.projects)
    requires k < |plan.projects| && !plan.projects[k].isNode
    requires r < |trace| && trace[r].Restored? && trace[r].ok && trace[r].project == plan.projects[k].name
    ensures var p, f := plan.projects[k], SnapshotAt(trace, r);
      && f >= 0 && trace[f].Frozen? && trace[f + 1].Installed? && trace[f + 1].project == p.name
      && EnvIn(after, p.name) == trace[f + 1].env + Listed(rules, trace[f].env)
      && (!trace[f + 1].cuda || SplitTorch(p.safe, plan.cudaIndex).0 == [] ==> trace[f].env == EnvIn(before, p.name))
  {
    var p := plan.projects[k];
    assert ProjectSettled(rules, p, plan.cudaIndex, before, after, trace);
    var i, j :| SettledIn(rules, p, plan.cudaIndex, EnvIn(before, p.name), EnvIn(after, p.name), trace, i, j);
    SettledRestore(rules, p, plan.cudaIndex, EnvIn(before, p.name), EnvIn(after, p.name), trace, i, j, r);
  }

  lemma SettledRestore(rules: Rules, p: ProjectPlan, cudaIndex: Option<string>, before: State, after: State,
      trace: seq<Entry>, i: int, j: int, r: nat)
    requires SettledIn(rules, p, cudaIndex, before, after, trace, i, j) && !p.isNode
    requires r < |trace| && trace[r].Restored? && trace[r].ok && trace[r].project == p.name
    ensures RestoreLeft(rules, p, cudaIndex, before, after, trace, r)
  {
    StretchHolds(rules, p, cudaIndex, before, after, trace, i, j, r);
    StretchRestores(rules, p, cudaIndex, before, after, trace, i, j);
    OwnRestore(rules, p, cudaIndex, before, after, trace, i + |p.blocked|, j, r);
  }

  lemma StretchHolds(rules: Rules, p: ProjectPlan, cudaIndex: Option<string>, before: State, after: State,
      trace: seq<Entry>, i: int, j: int, r: nat)
    requires SettledIn(rules, p, cudaIndex, before, after, trace, i, j)
    requires r < |trace| && PipAction(trace[r], p.name)
    ensures i + |p.blocked| <= r < j
  {
    InStretch(trace, p, i, j, r);
  }

  lemma StretchRestores(rules: Rules, p: ProjectPlan, cudaIndex: Option<string>, before: State, after: State,
      trace: seq<Entry>, i: int, j: int)
    requires SettledIn(rules, p, cudaIndex, before, after, trace, i, j) && !p.isNode
    ensures i + |p.blocked| <= j && RestoresLeft(rules, p, cudaIndex, before, after, trace[i + |p.blocked|..j])
  {
    OutcomeOfRestores(rules, p, cudaIndex, before, after, trace[i..j][|p.blocked|..]);
    StretchSlice(trace, i, j, |p.blocked|);
  }

  lemma OwnRestore(rules: Rules, p: ProjectPlan, cudaIndex: Option<string>, before: State, after: State,
      trace: seq<Entry>, first: int, j: int, r: nat)
    requires 0 <= first <= r < j <= |trace| && RestoresLeft(rules, p, cudaIndex, before, after, trace[first..j])
    requires trace[r].Restored? && trace[r].ok
    ensures RestoreLeft(rules, p, cudaIndex, before, after, trace, r)
  {
    var own := trace[first..j];
    assert own[r - first] == trace[r];
    assert RestoreLeft(rules, p, cudaIndex, before, after, own, r - first);
    RestoreInStretch(rules, p, cudaIndex, before, after, trace, own, first, r);
  }

  /**
   * The snapshot of a torch-family batch is the environment that a successful
   * regular batch left, so rolling it back keeps every listed package at the
   * version it has there.
   */
  lemma TorchRollbackKeepsRegular(rules: Rules, plan: EcosystemPlan, before: map<string, State>,
      after: map<string, State>, trace: seq<Entry>, k: nat, r: nat, g: nat)
    requires PlanApplied(rules, plan, before, after, trace) && DistinctProjects(plan.projects)
    requires k < |plan.projects| && !plan.projects[k].isNode
    requires r < |trace| && trace[r].Restored? && trace[r].ok && trace[r].project == plan.projects[k].name
    requires SnapshotAt(trace, r) >= 0 && TorchFreeze(trace, SnapshotAt(trace, r), plan.projects[k].name)
    requires RegularSucceeds(trace, g, plan.projects[k].name)
    ensures trace[SnapshotAt(trace, r)].env == trace[g].env
    ensures KeepsListed(rules, trace[g].env, EnvIn(after, plan.projects[k].name))
  {
    var p, f := plan.projects[k], SnapshotAt(trace, r);
    RestoredBatchIsUndone(rules, plan, before, after, trace, k, r);
    assert ProjectSettled(rules, p, plan.cudaIndex, before, after, trace);
    var i, j :| SettledIn(rules, p, plan.cudaIndex, EnvIn(before, p.name), EnvIn(after, p.name), trace, i, j);
    SettledSnapshot(rules, p, plan.cudaIndex, EnvIn(before, p.name), EnvIn(after, p.name), trace, i, j, f, g);
    RollbackIsExact(rules, plan, before, after, trace, k, r);
  }

  /** At `f` a torch-family batch starts with its freeze. */
  ghost predicate TorchFreeze(trace: seq<Entry>, f: nat, project: string) {
    && f + 1 < |trace| && trace[f].Frozen? && trace[f].project == project
    && FromCuda(trace[f + 1]) && trace[f + 1].project == project
  }

  /** That freeze finds what a regular batch that succeeded left. */
  ghost predicate SnapshotsKept(own: seq<Entry>, project: string) {
    forall f: nat, g: nat :: TorchFreeze(own, f, project) && RegularSucceeds(own, g, project) ==>
      own[f].env == own[g].env
  }

  lemma SettledSnapshot(rules: Rules, p: ProjectPlan, cudaIndex: Option<string>, before: State, after: State,
      trace: seq<Entry>, i: int, j: int, f: nat, g: nat)
    requires SettledIn(rules, p, cudaIndex, before, after, trace, i, j) && !p.isNode
    requires TorchFreeze(trace, f, p.name) && RegularSucceeds(trace, g, p.name)
    ensures trace[f].env == trace[g].env
  {
    var own := trace[i..j][|p.blocked|..];
    OwnSnapshots(rules, p, cudaIndex, before, after, own);
    PairsInStretch(trace, p, i, j, f, g);
    StretchSlice(trace, i, j, |p.blocked|);
    SnapshotInStretch(trace, i + |p.blocked|, j, p.name, f, g);
  }

  lemma PairsInStretch(trace: seq<Entry>, p: ProjectPlan, i: int, j: int, f: nat, g: nat)
    requires 0 <= i <= j <= |trace| && ActionsWithin(trace, p.name, i, j) && BlockedFirst(p, trace[i..j])
    requires TorchFreeze(trace, f, p.name) && RegularSucceeds(trace, g, p.name)
    ensures i + |p.blocked| <= f && f + 1 < j && i + |p.blocked| <= g && g + 1 < j
  {
    InStretch(trace, p, i, j, f);
    InStretch(trace, p, i, j, f + 1);
    InStretch(trace, p, i, j, g);
    InStretch(trace, p, i, j, g + 1);
  }

  lemma SnapshotInStretch(trace: seq<Entry>, first: int, j: int, project: string, f: nat, g: nat)
    requires 0 <= first <= j <= |trace| && SnapshotsKept(trace[first..j], project)
    requires first <= f && f + 1 < j && first <= g && g + 1 < j
    requires TorchFreeze(trace, f, project) && RegularSucceeds(trace, g, project)
    ensures trace[f].env == trace[g].env
  {
    var own := trace[first..j];
    assert own[f - first] == trace[f] && own[f - first + 1] == trace[f + 1];
    assert own[g - first] == trace[g] && own[g - first + 1] == trace[g + 1];
    assert TorchFreeze(own, f - first, project) && RegularSucceeds(own, g - first, project);
  }

  lemma OwnSnapshots(rules: Rules, p: ProjectPlan, cudaIndex: Option<string>, before: State, after: State,
      own: seq<Entry>)
    requires PythonOutcome(rules, p, cudaIndex, before, after, own)
    ensures SnapshotsKept(own, p.name)
  {
    var installs := SplitTorch(p.safe, cudaIndex).0 != [];
    forall f: nat, g: nat | TorchFreeze(own, f, p.name) && RegularSucceeds(own, g, p.name)
      ensures own[f].env == own[g].env
    {
      assert g == 1;
      StaysAfterRegular(rules, p.name, before, own, after, installs, f, f);
    }
  }

  /** What the restore at `r` of the history left of a project's environment. */
  ghost predicate RestoreLeft(rules: Rules, p: ProjectPlan, cudaIndex: Option<string>, before: State, after: State,
      trace: seq<Entry>, r: nat)
    requires r < |trace|
  {
    var f := SnapshotAt(trace, r);
    && f >= 0 && f + 1 < r && trace[f].Frozen? && trace[f + 1].Installed? && trace[f + 1].project == p.name
    && after == trace[f + 1].env + Listed(rules, trace[f].env)
    && (!trace[f + 1].cuda || SplitTorch(p.safe, cudaIndex).0 == [] ==> trace[f].env == before)
  }

  ghost predicate RestoresLeft(rules: Rules, p: ProjectPlan, cudaIndex: Option<string>, before: State, after: State,
      own: seq<Entry>)
  {
    forall r: nat {:trigger RestoreLeft(rules, p, cudaIndex, before, after, own, r)} ::
      r < |own| && own[r].Restored? && own[r].ok ==> RestoreLeft(rules, p, cudaIndex, before, after, own, r)
  }

  lemma OutcomeOfRestores(rules: Rules, p: ProjectPlan, cudaIndex: Option<string>, before: State, after: State,
      own: seq<Entry>)
    requires PythonOutcome(rules, p, cudaIndex, before, after, own)
    ensures RestoresLeft(rules, p, cudaIndex, before, after, own)
  {
    forall r: nat | r < |own| && own[r].Restored? && own[r].ok
      ensures RestoreLeft(rules, p, cudaIndex, before, after, own, r)
    {
      OutcomeOfRestore(rules, p, cudaIndex, before, after, own, r);
    }
  }

  lemma RestoreInStretch(rules: Rules, p: ProjectPlan, cudaIndex: Option<string>, before: State, after: State,
      trace: seq<Entry>, own: seq<Entry>, first: int, r: nat)
    requires 0 <= first <= r < |trace| && first + |own| <= |trace| && r - first < |own|
    requires forall n :: 0 <= n < |own| ==> own[n] == trace[first + n]
    requires RestoreLeft(rules, p, cudaIndex, before, after, own, r - first)
    ensures RestoreLeft(rules, p, cudaIndex, before, after, trace, r)
  {
    assert own[r - first - 1] == trace[r - 1];
    assert SnapshotAt(trace, r) == first + SnapshotAt(own, r - first);
  }

  lemma OutcomeOfRestore(rules: Rules, p: ProjectPlan, cudaIndex: Option<string>, before: State, after: State,
      own: seq<Entry>, r: nat)
    requires Follows(rules, before, own, after) && QuietAfterRestore(own)
    requires InstalledOnceEach(own, SplitTorch(p.safe, cudaIndex).0 != [])
    requires forall i :: 0 <= i < |own| ==> ProjectOf(own[i]) == p.name
    requires r < |own| && own[r].Restored? && own[r].ok
    ensures RestoreLeft(rules, p, cudaIndex, before, after, own, r)
  {
    RestoreIsFinal(rules, p.name, before, own, after, r);
    var f := SnapshotAt(own, r);
    if !own[f + 1].cuda || SplitTorch(p.safe, cudaIndex).0 == [] {
      FirstSnapshot(rules, before, own, after, SplitTorch(p.safe, cudaIndex).0 != [], f);
    }
  }

  /** A freeze before the first install finds the environment of the start. */
  lemma FirstSnapshot(rules: Rules, before: State, own: seq<Entry>, after: State, installs: bool, f: nat)
    requires Follows(rules, before, own, after) && InstalledOnceEach(own, installs)
    requires f + 1 < |own| && own[f].Frozen? && own[f + 1].Installed? && (!own[f + 1].cuda || !installs)
    ensures own[f].env == before
  {
    forall i | 0 <= i < f
      ensures !own[i].Installed?
    {
      if FromCuda(own[f + 1]) {
        CudaOnce(own, installs, f + 1, i);
      }
    }
    UntouchedBefore(rules, before, own, after, f);
    assert Moves(rules, before, own, f);
  }

  /** Everything done in the project is in its own stretch, behind the blocked packages. */
  lemma InStretch(trace: seq<Entry>, p: ProjectPlan, i: int, j: int, r: nat)
    requires 0 <= i <= j <= |trace| && ActionsWithin(trace, p.name, i, j) && BlockedFirst(p, trace[i..j])
    requires r < |trace| && PipAction(trace[r], p.name)
    ensures i + |p.blocked| <= r < j
  {
    assert trace[i..j][r - i] == trace[r];
  }

  lemma StretchSlice(trace: seq<Entry>, i: int, j: int, blocked: nat)
    requires 0 <= i <= j <= |trace| && blocked <= j - i
    ensures trace[i..j][blocked..] == trace[i + blocked..j]
  {
  }

  /**
   * So the listed packages are at the versions they had when the snapshot was
   * taken, and the environment is what it was then if and only if the failed
   * install left everything else alone.
   */
  lemma RollbackIsExact(rules: Rules, plan: EcosystemPlan, before: map<string, State>, after: map<string, State>,
      trace: seq<Entry>, k: nat, r: nat)
    requires PlanApplied(rules, plan, before, after, trace) && DistinctProjects(plan.projects)
    requires k < |plan.projects| && !plan.projects[k].isNode
    requires r < |trace| && trace[r].Restored? && trace[r].ok && trace[r].project == plan.projects[k].name
    ensures var f := SnapshotAt(trace, r);
      && f >= 0
      && var was, broken, now := trace[f].env, trace[f + 1].env, EnvIn(after, plan.projects[k].name);
      && KeepsListed(rules, was, now)
      && (now == was <==> forall n :: !(n in was && rules.listed(n)) ==>
            (n in broken <==> n in was) && (n in broken ==> broken[n] == was[n]))
  {
    RestoredBatchIsUndone(rules, plan, before, after, trace, k, r);
    var f := SnapshotAt(trace, r);
    RestoreIsExact(rules, trace[f].env, trace[f + 1].env);
  }

  /**
   * A Python project whose first batch was rolled back, the regular one or a
   * torch-family batch alone, has every listed package at the version it had
   * before the plan.
   */
  lemma RolledBackProjectIsKept(rules: Rules, plan: EcosystemPlan, before: map<string, State>,
      after: map<string, State>, trace: seq<Entry>, k: nat)
    requires PlanApplied(rules, plan, before, after, trace) && DistinctProjects(plan.projects)
    requires k < |plan.projects| && !plan.projects[k].isNode
    requires RestoredIn(trace, plan.projects[k].name)
    requires !CudaTriedIn(trace, plan.projects[k].name) || SplitTorch(plan.projects[k].safe, plan.cudaIndex).0 == []
    ensures KeepsListed(rules, EnvIn(before, plan.projects[k].name), EnvIn(after, plan.projects[k].name))
  {
    var name := plan.projects[k].name;
    var r :| 0 <= r < |trace| && trace[r].Restored? && trace[r].ok && trace[r].project == name;
    RestoredBatchIsUndone(rules, plan, before, after, trace, k, r);
    RollbackIsExact(rules, plan, before, after, trace, k, r);
  }

  // From the plan to the installs

  /**
   * With torch installed on a GPU host, every install from the CUDA index in
   * the history of a plan that holds the project's plan pins exactly what the
   * CUDA dry-run resolved.
   */
  lemma CudaInstallsAreResolved(x: PlanInput, pip: Pip, n: nat, torch: seq<Outdated>, plan: EcosystemPlan, k: nat,
      e: Entry, pin: Outdated)
    requires k < |plan.projects| && DistinctProjects(plan.projects) && plan.cudaIndex == x.cudaIndex
    requires PlanFrom(x, pip, n, plan.projects[k], torch) && x.UsesCuda()
    requires InstalledByPlan(e, plan.projects, plan.cudaIndex) && e.project == plan.projects[k].name && e.cuda
    ensures pin in e.pins <==> CudaResolved(x.current, CudaRunOf(x, pip, n), pin)
  {
    CudaPartIsResolved(x, pip, n, torch, plan.projects[k], pin);
    var j :| 0 <= j < |plan.projects| && InstallOf(e, plan.projects[j], plan.cudaIndex);
    assert j == k;
  }

  lemma CudaPartIsResolved(x: PlanInput, pip: Pip, n: nat, torch: seq<Outdated>, plan: ProjectPlan, pin: Outdated)
    requires PlanFrom(x, pip, n, plan, torch) && x.UsesCuda()
    ensures pin in SplitTorch(plan.safe, x.cudaIndex).1 <==> CudaResolved(x.current, CudaRunOf(x, pip, n), pin)
  {
    PlanParts(x, pip, n, plan, torch);
  }

  /** The install `e` pins only packages that are safe in `plan`; with distinct candidates none is blocked. */
  ghost predicate InstallsSafe(x: PlanInput, plan: ProjectPlan, e: Entry) {
    e.Installed? ==> forall pin :: pin in e.pins ==> PlannedSafe(x, plan, pin)
  }

  ghost predicate PlannedSafe(x: PlanInput, plan: ProjectPlan, pin: Outdated) {
    pin in plan.safe && (DistinctKeys(x.raw) ==> forall b :: b in Packages(plan.blocked) ==> Key(pin) != Key(b))
  }

  /** An install from the CUDA index pins exactly what the CUDA dry-run resolved. */
  ghost predicate InstallsResolved(x: PlanInput, pip: Pip, n: nat, e: Entry) {
    e.Installed? && e.cuda ==> forall pin :: pin in e.pins <==> CudaResolved(x.current, CudaRunOf(x, pip, n), pin)
  }

  ghost predicate HistoryAsPlanned(x: PlanInput, pip: Pip, n: nat, plan: ProjectPlan, trace: seq<Entry>) {
    forall i :: 0 <= i < |trace| ==>
      InstallsSafe(x, plan, trace[i]) && (x.UsesCuda() ==> InstallsResolved(x, pip, n, trace[i]))
  }

  lemma EntryAsPlanned(x: PlanInput, pip: Pip, n: nat, torch: seq<Outdated>, plan: ProjectPlan, e: Entry)
    requires PlanFrom(x, pip, n, plan, torch)
    requires e.Installed? ==> InstallOf(e, plan, x.cudaIndex)
    ensures InstallsSafe(x, plan, e) && (x.UsesCuda() ==> InstallsResolved(x, pip, n, e))
  {
    PlanParts(x, pip, n, plan, torch);
    if e.Installed? {
      forall pin | pin in e.pins
        ensures PlannedSafe(x, plan, pin)
      {
        SelectExactly(plan.safe, InTorchFamily, false, pin);
        SelectExactly(plan.safe, InTorchFamily, true, pin);
      }
    }
  }

  lemma OneProjectInstalls(x: PlanInput, pip: Pip, n: nat, torch: seq<Outdated>, plan: ProjectPlan, trace: seq<Entry>)
    requires PlanFrom(x, pip, n, plan, torch)
    requires forall i :: 0 <= i < |trace| && trace[i].Installed? ==> InstalledByPlan(trace[i], [plan], x.cudaIndex)
    ensures HistoryAsPlanned(x, pip, n, plan, trace)
  {
    forall i | 0 <= i < |trace|
      ensures InstallsSafe(x, plan, trace[i]) && (x.UsesCuda() ==> InstallsResolved(x, pip, n, trace[i]))
    {
      EntryAsPlanned(x, pip, n, torch, plan, trace[i]);
    }
  }

  /**
   * Update one Python project, from its outdated packages to the installs.
   * Every install pins packages that are safe and not blocked, and what is
   * installed from the CUDA index with torch present is exactly what its
   * dry-run resolved.
   */
  method UpdateOneProject(x: PlanInput, pip: Pip, host: Host, name: string, syncs: seq<(string, bool)>)
    returns (status: RunStatus, plan: ProjectPlan, ghost torch: seq<Outdated>, ghost trace: seq<Entry>)
    modifies pip, host
    ensures PlanFrom(x, pip, old(pip.asked), plan, torch) && plan.name == name
    ensures !status.Success? && (status.UpToDate? <==> plan.outdated == [])
    ensures status.UpToDate? ==> host.venvs == old(host.venvs)
    ensures status.Partial? ==>
      && PlanApplied(host.rules, EcosystemPlan([plan], x.cudaIndex), old(host.venvs), host.venvs, trace)
      && HistoryAsPlanned(x, pip, old(pip.asked), plan, trace)
  {
    plan, torch := PlanPythonProject(x, pip, name);
    status, trace := RunOne(x, pip, old(pip.asked), plan, torch, host, syncs);
  }

  method RunOne(x: PlanInput, pip: Pip, ghost n: nat, plan: ProjectPlan, ghost torch: seq<Outdated>, host: Host,
      syncs: seq<(string, bool)>)
    returns (status: RunStatus, ghost trace: seq<Entry>)
    requires PlanFrom(x, pip, n, plan, torch)
    modifies host
    ensures !status.Success? && (status.UpToDate? <==> plan.outdated == [])
    ensures status.UpToDate? ==> host.venvs == old(host.venvs)
    ensures status.Partial? ==>
      && PlanApplied(host.rules, EcosystemPlan([plan], x.cudaIndex), old(host.venvs), host.venvs, trace)
      && HistoryAsPlanned(x, pip, n, plan, trace)
  {
    var all := EcosystemPlan([plan], x.cudaIndex);
    assert all.projects[0] == plan;
    var emitted;
    status, emitted, trace := host.RunSafeUpdate(all, _ => true, syncs);
    if !status.UpToDate? {
      OneProjectInstalls(x, pip, n, torch, plan, trace);
    }
  }
}
