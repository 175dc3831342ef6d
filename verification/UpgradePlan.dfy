/** Building a project's upgrade plan, with the torch family vetted against the CUDA index. */
module UpgradePlan {
  import opened Text
  import opened Resolver

  function Key(c: Outdated): string {
    Normalize(c.name)
  }

  /** No two packages share a normalized name. */
  ghost predicate DistinctKeys(cs: seq<Outdated>) {
    forall i, j :: 0 <= i < j < |cs| ==> Key(cs[i]) != Key(cs[j])
  }

  ghost predicate HasKey(cs: seq<Outdated>, key: string) {
    exists i :: 0 <= i < |cs| && Key(cs[i]) == key
  }

  /** `c` is the first package of `cs` with its key. */
  ghost predicate FirstOfKey(cs: seq<Outdated>, c: Outdated) {
    exists i :: 0 <= i < |cs| && cs[i] == c && !HasKey(cs[..i], Key(c))
  }

  /**
   * Drop later duplicates of a key: what remains are exactly the first
   * packages of their keys, in their order.
   */
  method Dedupe(packages: seq<Outdated>) returns (deduped: seq<Outdated>)
    ensures DistinctKeys(deduped)
    ensures forall key :: HasKey(deduped, key) <==> HasKey(packages, key)
    ensures forall c :: c in deduped <==> FirstOfKey(packages, c)
    ensures InOrderOf(deduped, packages)
  {
    var seen: set<string> := {};
    deduped := [];
    ghost var at: seq<nat> := [];
    for i := 0 to |packages|
      invariant Deduped(packages, i, seen, deduped, at)
    {
      var key := Normalize(packages[i].name);
      DedupedNext(packages, i, seen, deduped, at);
      if key !in seen {
        seen := seen + {key};
        deduped := deduped + [packages[i]];
        at := at + [i];
      }
    }
    DedupedAll(packages, seen, deduped, at);
  }

  /** `sub` takes its packages from `cs` at increasing positions. */
  ghost predicate InOrderOf(sub: seq<Outdated>, cs: seq<Outdated>) {
    exists at: seq<nat> :: TakenAt(sub, cs, at)
  }

  ghost predicate TakenAt(sub: seq<Outdated>, cs: seq<Outdated>, at: seq<nat>) {
    && |at| == |sub|
    && (forall i :: 0 <= i < |at| ==> at[i] < |cs| && sub[i] == cs[at[i]])
    && (forall i, j :: 0 <= i < j < |at| ==> at[i] < at[j])
  }

  /** The loop of `Dedupe` before package `i`; `at` are the positions kept. */
  ghost predicate Deduped(packages: seq<Outdated>, i: nat, seen: set<string>, deduped: seq<Outdated>, at: seq<nat>) {
    && i <= |packages|
    && (forall key :: key in seen <==> HasKey(packages[..i], key))
    && TakenAt(deduped, packages, at)
    && (forall k :: 0 <= k < |at| ==> at[k] < i && !HasKey(packages[..at[k]], Key(packages[at[k]])))
    && (forall j :: 0 <= j < i && !HasKey(packages[..j], Key(packages[j])) ==> j in at)
  }

  lemma HasKeyNext(cs: seq<Outdated>, i: nat, key: string)
    requires i < |cs|
    ensures HasKey(cs[..i + 1], key) <==> HasKey(cs[..i], key) || Key(cs[i]) == key
  {
    assert forall k :: 0 <= k < i ==> cs[..i][k] == cs[k];
    assert forall k :: 0 <= k <= i ==> cs[..i + 1][k] == cs[k];
    if k :| 0 <= k < i && Key(cs[..i][k]) == key {
      assert Key(cs[..i + 1][k]) == key;
    }
    if Key(cs[i]) == key {
      assert Key(cs[..i + 1][i]) == key;
    }
  }

  lemma DedupedNext(packages: seq<Outdated>, i: nat, seen: set<string>, deduped: seq<Outdated>, at: seq<nat>)
    requires i < |packages| && Deduped(packages, i, seen, deduped, at)
    ensures var key := Key(packages[i]);
            if key in seen then Deduped(packages, i + 1, seen, deduped, at)
            else Deduped(packages, i + 1, seen + {key}, deduped + [packages[i]], at + [i])
  {
    forall key
      ensures HasKey(packages[..i + 1], key) <==> HasKey(packages[..i], key) || Key(packages[i]) == key
    {
      HasKeyNext(packages, i, key);
    }
    assert forall j :: j in at + [i] <==> j in at || j == i;
  }

  lemma DedupedAll(packages: seq<Outdated>, seen: set<string>, deduped: seq<Outdated>, at: seq<nat>)
    requires Deduped(packages, |packages|, seen, deduped, at)
    ensures DistinctKeys(deduped)
    ensures forall key :: HasKey(deduped, key) <==> HasKey(packages, key)
    ensures forall c :: c in deduped <==> FirstOfKey(packages, c)
  {
    forall i, j | 0 <= i < j < |deduped|
      ensures Key(deduped[i]) != Key(deduped[j])
    {
      assert packages[..at[j]][at[i]] == packages[at[i]];
    }
    forall c
      ensures c in deduped <==> FirstOfKey(packages, c)
    {
      if c in deduped {
        var k :| 0 <= k < |deduped| && deduped[k] == c;
        assert packages[at[k]] == c;
      }
      if FirstOfKey(packages, c) {
        var i :| 0 <= i < |packages| && packages[i] == c && !HasKey(packages[..i], Key(c));
        var k :| 0 <= k < |at| && at[k] == i;
        assert deduped[k] == c;
      }
    }
    forall key
      ensures HasKey(deduped, key) <==> HasKey(packages, key)
    {
      if HasKey(deduped, key) {
        var k :| 0 <= k < |deduped| && Key(deduped[k]) == key;
        assert Key(packages[at[k]]) == key;
      }
      if HasKey(packages, key) {
        FirstExists(packages, key);
        var c :| FirstOfKey(packages, c) && Key(c) == key;
        assert c in deduped;
      }
    }
  }

  lemma {:induction false} FirstExists(cs: seq<Outdated>, key: string)
    requires HasKey(cs, key)
    ensures exists c :: FirstOfKey(cs, c) && Key(c) == key
    decreases |cs|
  {
    var k :| 0 <= k < |cs| && Key(cs[k]) == key;
    if HasKey(cs[..k], key) {
      FirstExists(cs[..k], key);
      var c :| FirstOfKey(cs[..k], c) && Key(c) == key;
      var i :| 0 <= i < k && cs[..k][i] == c && !HasKey(cs[..k][..i], Key(c));
      assert cs[..k][..i] == cs[..i];
      assert FirstOfKey(cs, c);
    } else {
      assert FirstOfKey(cs, cs[k]);
    }
  }

  // The torch family and the CUDA index

  predicate InTorchFamily(c: Outdated) {
    Normalize(c.name) in TORCH_KEYS
  }

  /** The torch-family names installed in `current`, in family order. */
  function InstalledTorch(current: State, names: seq<string>): seq<string> {
    if names == [] then []
    else
      var last := names[|names| - 1];
      InstalledTorch(current, names[..|names| - 1]) + (if last in current then [last] else [])
  }

  /** What the CUDA dry-run of the installed torch-family packages resolves. */
  function CudaRun(current: State, pip: Pip, n: nat): DryRun {
    Outcome(pip.answers(n), InstalledTorch(current, TORCH_FAMILY), Known(Some(current), None))
  }

  /** `c` upgrades an installed torch-family package to the version the CUDA dry-run resolved for it. */
  ghost predicate CudaResolved(current: State, run: DryRun, c: Outdated) {
    && c.name in TORCH_FAMILY && c.name in current && current[c.name] != ""
    && run.ok && c.name in run.changed
    && c == Outdated(c.name, current[c.name], run.changed[c.name], CUDA_WHEEL)
  }

  lemma TorchNamesAreKeys(name: string)
    requires name in TORCH_FAMILY
    ensures Normalize(name) == name && name in TORCH_KEYS
  {
    assert Normalize("torch") == "torch" && Normalize("torchvision") == "torchvision" &&
      Normalize("torchaudio") == "torchaudio";
  }

  lemma {:induction false} InstalledTorchExactly(current: State, names: seq<string>, name: string)
    ensures name in InstalledTorch(current, names) <==> name in names && name in current
  {
    if names != [] {
      InstalledTorchExactly(current, names[..|names| - 1], name);
      assert names == names[..|names| - 1] + [names[|names| - 1]];
    }
  }

  ghost predicate Distinct(names: seq<string>) {
    forall i, j :: 0 <= i < j < |names| ==> names[i] != names[j]
  }

  lemma {:induction false} InstalledTorchDistinct(current: State, names: seq<string>)
    requires Distinct(names)
    ensures Distinct(InstalledTorch(current, names))
  {
    if names != [] {
      var init := names[..|names| - 1];
      InstalledTorchDistinct(current, init);
      InstalledTorchExactly(current, init, names[|names| - 1]);
    }
  }

  /**
   * Spelled out: `c` is an installed package of the family, from its version
   * to another one, which the last usable item of the report for it has.
   */
  lemma CudaResolvedExactly(current: State, pip: Pip, n: nat, c: Outdated)
    ensures CudaResolved(current, CudaRun(current, pip, n), c) <==>
      && IsTorch(c.name) && c.name in current && current[c.name] == c.current != ""
      && c.kind == "wheel-cuda" && c.latest != c.current && pip.answers(n).Report?
      && exists i :: LastItemFor(pip.answers(n).items, i, c.name) && pip.answers(n).items[i].version == c.latest
  {
    var run, answer := CudaRun(current, pip, n), pip.answers(n);
    InstalledTorchExactly(current, TORCH_FAMILY, c.name);
    assert c.name in TORCH_FAMILY <==> IsTorch(c.name);
    if answer.Report? {
      InstallsExactly(answer.items, c.name, c.latest);
    }
  }

  /** The candidates among `names` that the dry-run `run` would change. */
  method TorchCandidates(names: seq<string>, current: State, run: DryRun) returns (candidates: seq<Outdated>)
    requires run.ok && Distinct(names)
    requires forall name :: name in names ==> name in TORCH_FAMILY && name in current
    requires forall name :: name in run.changed && name in current ==> run.changed[name] != current[name]
    ensures forall c :: c in candidates <==> c.name in names && CudaResolved(current, run, c)
    ensures DistinctKeys(candidates)
  {
    candidates := [];
    for i := 0 to |names|
      invariant forall c :: c in candidates <==> c.name in names[..i] && CudaResolved(current, run, c)
      invariant DistinctKeys(candidates)
    {
      var key := names[i];
      TorchNamesAreKeys(key);
      assert names[..i + 1] == names[..i] + [key];
      if Normalize(key) in run.changed && current[key] != "" && current[key] != run.changed[key] {
        var c := Outdated(key, current[key], run.changed[key], CUDA_WHEEL);
        NewKey(candidates, names, i, c);
        candidates := candidates + [c];
      }
    }
    assert names[..|names|] == names;
  }

  lemma ChangedDiffers(state: State, a: Answer, targets: seq<string>)
    ensures var run := Outcome(a, targets, Known(Some(state), None));
            forall name :: name in run.changed && name in state ==> run.changed[name] != state[name]
  {
  }

  /** One candidate per installed torch-family package whose version the CUDA dry-run would change, and no other. */
  method CheckTorchCudaUpgrades(pip: Pip, index: string, current: State) returns (candidates: seq<Outdated>)
    modifies pip
    ensures forall c :: c in candidates <==> CudaResolved(current, CudaRun(current, pip, old(pip.asked)), c)
    ensures DistinctKeys(candidates)
    ensures var names := InstalledTorch(current, TORCH_FAMILY);
      && pip.asked == old(pip.asked) + (if names == [] then 0 else 1)
      && pip.calls ==
        old(pip.calls) + CallsOf(pip.answers(old(pip.asked)), names, Known(Some(current), None), Some(index), None)
  {
    var names := InstalledTorch(current, TORCH_FAMILY);
    forall name
      ensures name in names <==> name in TORCH_FAMILY && name in current
    {
      InstalledTorchExactly(current, TORCH_FAMILY, name);
    }
    if names == [] {
      return [];
    }
    var run := pip.ConstraintPreservingDryRun(names, Some(current), None, Some(index), None);
    if !run.ok {
      return [];
    }
    InstalledTorchDistinct(current, TORCH_FAMILY);
    ChangedDiffers(current, pip.answers(old(pip.asked)), names);
    candidates := TorchCandidates(names, current, run);
  }

  lemma NewKey(candidates: seq<Outdated>, names: seq<string>, i: nat, c: Outdated)
    requires DistinctKeys(candidates) && Distinct(names) && i < |names| && c.name == names[i]
    requires forall name :: name in names ==> name in TORCH_FAMILY
    requires forall x :: x in candidates ==> x.name in names[..i]
    ensures DistinctKeys(candidates + [c])
  {
    assert c.name in names;
    TorchNamesAreKeys(c.name);
    forall j | 0 <= j < |candidates|
      ensures Key(candidates[j]) != Key(c)
    {
      var x := candidates[j];
      assert x in candidates;
      var k :| 0 <= k < i && names[k] == x.name;
      TorchNamesAreKeys(x.name);
    }
  }

  // The plan

  /** A project's plan; `cudaPackages` are the torch-family candidates the CUDA dry-run resolved. */
  datatype ProjectPlan = ProjectPlan(
    name: string, isNode: bool, outdated: seq<Outdated>, safe: seq<Outdated>, blocked: seq<Blocked>,
    cudaPackages: seq<Outdated>) {
    predicate HasUpdates() {
      outdated != []
    }
  }

  predicate HasAnyUpdates(projects: seq<ProjectPlan>) {
    exists i :: 0 <= i < |projects| && projects[i].HasUpdates()
  }

  /** The regular and the torch-family candidates; all are regular without a CUDA index. */
  function SplitTorch(safe: seq<Outdated>, cudaIndex: Option<string>): (seq<Outdated>, seq<Outdated>) {
    if cudaIndex.None? then (safe, []) else (Select(safe, InTorchFamily, false), Select(safe, InTorchFamily, true))
  }

  lemma {:induction false} SelectDistinct(cs: seq<Outdated>, wanted: bool)
    requires DistinctKeys(cs)
    ensures DistinctKeys(Select(cs, InTorchFamily, wanted))
  {
    if cs != [] {
      var init, last := cs[..|cs| - 1], cs[|cs| - 1];
      SelectDistinct(init, wanted);
      forall c | c in Select(init, InTorchFamily, wanted)
        ensures Key(c) != Key(last)
      {
        SelectExactly(init, InTorchFamily, wanted, c);
      }
    }
  }

  lemma {:induction false} DistinctOnce(cs: seq<Outdated>, c: Outdated)
    requires DistinctKeys(cs)
    ensures multiset(cs)[c] <= 1
  {
    if cs != [] {
      var init, last := cs[..|cs| - 1], cs[|cs| - 1];
      DistinctOnce(init, c);
      assert cs == init + [last];
      assert c == last ==> c !in init;
    }
  }

  /** A partition of distinctly named candidates has no key on both sides. */
  lemma PartitionIsDisjoint(cs: seq<Outdated>, a: seq<Outdated>, b: seq<Outdated>, x: Outdated, y: Outdated)
    requires DistinctKeys(cs) && multiset(a) + multiset(b) == multiset(cs)
    requires x in a && y in b
    ensures x in cs && y in cs && Key(x) != Key(y)
  {
    assert x in multiset(a) && y in multiset(b);
    assert x in multiset(cs) && y in multiset(cs);
    DistinctOnce(cs, x);
    assert x == y ==> (multiset(a) + multiset(b))[x] >= 2;
    var i :| 0 <= i < |cs| && cs[i] == x;
    var j :| 0 <= j < |cs| && cs[j] == y;
  }

  /**
   * What planning a Python project starts from: its outdated packages, the
   * venv's package map, what the venv answers when each of the two
   * classifications starts, and the GPU host's CUDA index.
   */
  datatype PlanInput = PlanInput(packaging: Packaging, raw: seq<Outdated>, current: State, first: Inventory,
    second: Inventory, cudaIndex: Option<string>)
  {
    function Others(): seq<Outdated> {
      Select(raw, InTorchFamily, false)
    }

    function TorchRaw(): seq<Outdated> {
      Select(raw, InTorchFamily, true)
    }

    /** The half of the outdated packages that `c` is vetted with. */
    function VettedWith(c: Outdated): seq<Outdated> {
      if InTorchFamily(c) then TorchRaw() else Others()
    }

    /** The torch family goes through the CUDA index. */
    predicate UsesCuda() {
      cudaIndex.Some? && "torch" in current
    }
  }

  /** The classification of the other packages, whose first dry-run attempt is number `n`. */
  function RegularTally(x: PlanInput, pip: Pip, n: nat): Tally {
    Classified(x.packaging, pip, x.first, x.Others(), x.cudaIndex, n)
  }

  /** The classification of the torch family on the package index, after that of the others. */
  function TorchTally(x: PlanInput, pip: Pip, n: nat): Tally {
    Classified(x.packaging, pip, x.second, x.TorchRaw(), None, RegularTally(x, pip, n).asked)
  }

  /** What the CUDA dry-run resolves, after the classification of the others. */
  function CudaRunOf(x: PlanInput, pip: Pip, n: nat): DryRun {
    CudaRun(x.current, pip, RegularTally(x, pip, n).asked)
  }

  /**
   * `plan` is the plan of `x`: its regular part is what the classification of
   * the others declares safe; its torch part is exactly what the CUDA dry-run
   * resolved, or else what the classification of the torch family declares
   * safe; everything else is blocked.
   */
  ghost predicate PlanFrom(x: PlanInput, pip: Pip, n: nat, plan: ProjectPlan, torch: seq<Outdated>) {
    var others, family := RegularTally(x, pip, n), TorchTally(x, pip, n);
    && !plan.isNode
    && plan.safe == others.safe + torch
    && (if x.UsesCuda() then
          && torch == plan.cudaPackages && DistinctKeys(torch) && plan.blocked == others.blocked
          && forall c :: c in torch <==> CudaResolved(x.current, CudaRunOf(x, pip, n), c)
        else
          torch == family.safe && plan.cudaPackages == [] && plan.blocked == others.blocked + family.blocked)
    && DistinctKeys(plan.outdated)
    && forall c :: c in plan.outdated <==> FirstOfKey(plan.safe + Packages(plan.blocked), c)
  }

  /** Both classifications of a plan are vetted. */
  lemma PlanIsVetted(x: PlanInput, pip: Pip, n: nat)
    ensures var others, family := RegularTally(x, pip, n), TorchTally(x, pip, n);
      && Vetted(x.packaging, pip, x.first, x.Others(), n, others.asked, others.safe, others.blocked)
      && Vetted(x.packaging, pip, x.second, x.TorchRaw(), others.asked, family.asked, family.safe, family.blocked)
  {
    ClassifiedIsVetted(x.packaging, pip, x.first, x.Others(), x.cudaIndex, n);
    ClassifiedIsVetted(x.packaging, pip, x.second, x.TorchRaw(), None, RegularTally(x, pip, n).asked);
  }

  /** Nothing is lost or doubled; with the CUDA index the torch-family candidates give way to what it resolves. */
  lemma PlanLosesNothing(x: PlanInput, pip: Pip, n: nat, plan: ProjectPlan, torch: seq<Outdated>)
    requires PlanFrom(x, pip, n, plan, torch)
    ensures x.UsesCuda() ==>
      multiset(RegularTally(x, pip, n).safe) + multiset(Packages(plan.blocked)) == multiset(x.Others())
    ensures !x.UsesCuda() ==> multiset(plan.safe) + multiset(Packages(plan.blocked)) == multiset(x.raw)
  {
    PlanIsVetted(x, pip, n);
    SelectPartition(x.raw, InTorchFamily);
    PackagesOfConcat(RegularTally(x, pip, n).blocked, TorchTally(x, pip, n).blocked);
  }

  /** The two parts of a plan by family, and no normalized name both safe and blocked. */
  lemma PlanParts(x: PlanInput, pip: Pip, n: nat, plan: ProjectPlan, torch: seq<Outdated>)
    requires PlanFrom(x, pip, n, plan, torch)
    ensures forall c :: c in RegularTally(x, pip, n).safe ==> !InTorchFamily(c)
    ensures forall c :: c in torch ==> InTorchFamily(c)
    ensures DistinctKeys(x.raw) ==> NoKeyInBoth(plan.safe, Packages(plan.blocked))
    ensures x.cudaIndex.Some? ==> SplitTorch(plan.safe, x.cudaIndex) == (RegularTally(x, pip, n).safe, torch)
  {
    var others, family := RegularTally(x, pip, n), TorchTally(x, pip, n);
    PlanIsVetted(x, pip, n);
    InFamily(x.raw, false, others.safe, Packages(others.blocked));
    InFamily(x.raw, true, family.safe, Packages(family.blocked));
    if x.UsesCuda() {
      CudaIsTorch(x.current, CudaRunOf(x, pip, n), torch);
      CudaIsDisjoint(x.raw, others.safe, torch, Packages(plan.blocked));
    } else {
      PlanLosesNothing(x, pip, n, plan, torch);
      IsDisjoint(x.raw, plan.safe, Packages(plan.blocked));
    }
    SplitOfPlan(others.safe, torch, x.cudaIndex);
  }

  /**
   * On a GPU host the versions pinned from the CUDA index are those the CUDA
   * dry-run resolved if and only if torch is installed or the package index
   * has nothing safe of the family.
   */
  lemma CudaPinsAreResolvedExactly(x: PlanInput, pip: Pip, n: nat, plan: ProjectPlan, torch: seq<Outdated>)
    requires PlanFrom(x, pip, n, plan, torch) && x.cudaIndex.Some?
    ensures SplitTorch(plan.safe, x.cudaIndex).1 == plan.cudaPackages <==>
      "torch" in x.current || TorchTally(x, pip, n).safe == []
    ensures x.TorchRaw() == [] ==> TorchTally(x, pip, n).safe == []
  {
    PlanParts(x, pip, n, plan, torch);
  }

  /**
   * What the CUDA dry-run, attempt number `m`, sends to pip: the installed torch family,
   * asked of the CUDA index alone.
   */
  function CudaCalls(x: PlanInput, pip: Pip, m: nat): seq<Call> {
    CallsOf(pip.answers(m), InstalledTorch(x.current, TORCH_FAMILY), Known(Some(x.current), None), x.cudaIndex, None)
  }

  /** What the torch family asks pip from attempt `m` on: the CUDA index, or like any other packages. */
  function FamilyCalls(x: PlanInput, pip: Pip, m: nat): seq<Call> {
    if x.UsesCuda() then CudaCalls(x, pip, m)
    else ClassifiedCalls(x.packaging, pip, x.second, x.TorchRaw(), None, m)
  }

  /** Every dry-run sent while planning pinned all that one of the queries said is installed, but its targets. */
  ghost predicate PlanCallsPinned(x: PlanInput, calls: seq<Call>, from: nat) {
    forall i :: from <= i < |calls| ==> PlannedCall(x, calls[i])
  }

  ghost predicate PlannedCall(x: PlanInput, call: Call) {
    || (x.first.Readable() && call.constraints == Pins(x.first.installed.value, call.targets))
    || (x.second.Readable() && call.constraints == Pins(x.second.installed.value, call.targets))
    || (x.UsesCuda() && call.index == x.cudaIndex && call.constraints == Pins(x.current, call.targets))
  }

  /** The attempts and calls that planning makes, from attempt `n` and after the calls `before`. */
  ghost predicate PlanAsked(x: PlanInput, pip: Pip, n: nat, before: seq<Call>, asked: nat, calls: seq<Call>) {
    var m := RegularTally(x, pip, n).asked;
    && |before| <= |calls| && PlanCallsPinned(x, calls, |before|)
    && calls == before + ClassifiedCalls(x.packaging, pip, x.first, x.Others(), x.cudaIndex, n) + FamilyCalls(x, pip, m)
    && n <= m <= asked
    && (x.UsesCuda() ==> m < asked)
    && (!x.UsesCuda() ==> asked == TorchTally(x, pip, n).asked)
  }

  /** The torch family: through the CUDA index, or vetted like any other package. */
  method VetTorchFamily(x: PlanInput, pip: Pip) returns (torch: seq<Outdated>, blocked: seq<Blocked>)
    modifies pip
    ensures x.UsesCuda() ==>
      && blocked == [] && DistinctKeys(torch) && old(pip.asked) < pip.asked
      && (forall c :: c in torch <==> CudaResolved(x.current, CudaRun(x.current, pip, old(pip.asked)), c))
    ensures pip.calls == old(pip.calls) + FamilyCalls(x, pip, old(pip.asked))
    ensures !x.UsesCuda() ==>
      && Tally(torch, blocked, pip.asked) == Classified(x.packaging, pip, x.second, x.TorchRaw(), None, old(pip.asked))
      && (x.second.Readable() ==> SentPinned(x.second.installed.value, old(pip.calls), pip.calls))
  {
    torch, blocked := [], [];
    if x.cudaIndex.Some? && "torch" in x.current {
      torch := CheckTorchCudaUpgrades(pip, x.cudaIndex.value, x.current);
      InstalledTorchExactly(x.current, TORCH_FAMILY, "torch");
    } else if x.TorchRaw() != [] {
      torch, blocked := Classify(x.packaging, pip, x.second, x.TorchRaw(), None);
    }
  }

  /** What each part of planning sent to pip, together. */
  lemma AskedTogether(x: PlanInput, pip: Pip, n: nat, before: seq<Call>, middle: seq<Call>, asked: nat,
      calls: seq<Call>)
    requires x.first.Readable() ==> SentPinned(x.first.installed.value, before, middle)
    requires middle == before + ClassifiedCalls(x.packaging, pip, x.first, x.Others(), x.cudaIndex, n)
    requires var m := RegularTally(x, pip, n).asked;
      && n <= m <= asked && calls == middle + FamilyCalls(x, pip, m)
      && (x.UsesCuda() ==> m < asked)
      && (!x.UsesCuda() ==> asked == TorchTally(x, pip, n).asked)
    requires !x.UsesCuda() && x.second.Readable() ==> SentPinned(x.second.installed.value, middle, calls)
    ensures PlanAsked(x, pip, n, before, asked, calls)
  {
    forall i | |before| <= i < |calls|
      ensures PlannedCall(x, calls[i])
    {
      if i >= |middle| && x.UsesCuda() {
        assert calls[i] == FamilyCalls(x, pip, RegularTally(x, pip, n).asked)[i - |middle|];
      }
    }
  }

  /** Vet a project's outdated packages; the torch family goes via the CUDA index on a GPU host with torch installed. */
  method PlanPythonProject(x: PlanInput, pip: Pip, name: string) returns (plan: ProjectPlan, ghost torch: seq<Outdated>)
    modifies pip
    ensures plan.name == name && PlanFrom(x, pip, old(pip.asked), plan, torch)
    ensures PlanAsked(x, pip, old(pip.asked), old(pip.calls), pip.asked, pip.calls)
    ensures DistinctKeys(x.raw) ==> NoKeyInBoth(plan.safe, Packages(plan.blocked))
  {
    var safe, blocked := Classify(x.packaging, pip, x.first, x.Others(), x.cudaIndex);
    ghost var middle := pip.calls;
    var family, held := VetTorchFamily(x, pip);
    PlanIsVetted(x, pip, old(pip.asked));
    AskedTogether(x, pip, old(pip.asked), old(pip.calls), middle, pip.asked, pip.calls);
    torch, safe, blocked := family, safe + family, blocked + held;
    var deduped := Dedupe(safe + Packages(blocked));
    plan := ProjectPlan(name, false, deduped, safe, blocked, if x.UsesCuda() then family else []);
    PlanParts(x, pip, old(pip.asked), plan, torch);
  }

  ghost predicate NoKeyInBoth(safe: seq<Outdated>, blocked: seq<Outdated>) {
    forall x, y :: x in safe && y in blocked ==> Key(x) != Key(y)
  }

  /** A partition of one half of `raw` stays in that half. */
  lemma InFamily(raw: seq<Outdated>, torch: bool, safe: seq<Outdated>, blocked: seq<Outdated>)
    requires multiset(safe) + multiset(blocked) == multiset(Select(raw, InTorchFamily, torch))
    ensures forall c :: c in safe || c in blocked ==> c in raw && InTorchFamily(c) == torch
  {
    forall c | c in safe || c in blocked
      ensures c in raw && InTorchFamily(c) == torch
    {
      assert c in multiset(safe) + multiset(blocked);
      SelectExactly(raw, InTorchFamily, torch, c);
    }
  }

  lemma CudaIsTorch(current: State, run: DryRun, cudaPackages: seq<Outdated>)
    requires forall c :: c in cudaPackages <==> CudaResolved(current, run, c)
    ensures forall c :: c in cudaPackages ==> InTorchFamily(c)
  {
    forall c | c in cudaPackages
      ensures InTorchFamily(c)
    {
      TorchNamesAreKeys(c.name);
    }
  }

  lemma IsDisjoint(raw: seq<Outdated>, safe: seq<Outdated>, blocked: seq<Outdated>)
    requires multiset(safe) + multiset(blocked) == multiset(raw)
    ensures DistinctKeys(raw) ==> NoKeyInBoth(safe, blocked)
  {
    if DistinctKeys(raw) {
      forall x, y | x in safe && y in blocked
        ensures Key(x) != Key(y)
      {
        PartitionIsDisjoint(raw, safe, blocked, x, y);
      }
    }
  }

  lemma CudaIsDisjoint(raw: seq<Outdated>, regular: seq<Outdated>, torch: seq<Outdated>, blocked: seq<Outdated>)
    requires multiset(regular) + multiset(blocked) == multiset(Select(raw, InTorchFamily, false))
    requires forall c :: c in torch ==> InTorchFamily(c)
    requires forall c :: c in blocked ==> !InTorchFamily(c)
    ensures DistinctKeys(raw) ==> NoKeyInBoth(regular + torch, blocked)
  {
    if DistinctKeys(raw) {
      SelectDistinct(raw, false);
      IsDisjoint(Select(raw, InTorchFamily, false), regular, blocked);
    }
  }

  lemma {:induction false} SelectEverything(before: seq<Outdated>, cs: seq<Outdated>, wanted: bool)
    requires forall c :: c in cs ==> InTorchFamily(c) == wanted
    ensures Select(before + cs, InTorchFamily, wanted) == Select(before, InTorchFamily, wanted) + cs
  {
    if cs == [] {
      assert before + cs == before;
    } else {
      var n := |cs| - 1;
      assert (before + cs)[..|before + cs| - 1] == before + cs[..n];
      SelectEverything(before, cs[..n], wanted);
      assert cs == cs[..n] + [cs[n]];
    }
  }

  lemma {:induction false} SelectOthers(before: seq<Outdated>, cs: seq<Outdated>, wanted: bool)
    requires forall c :: c in cs ==> InTorchFamily(c) != wanted
    ensures Select(before + cs, InTorchFamily, wanted) == Select(before, InTorchFamily, wanted)
  {
    if cs == [] {
      assert before + cs == before;
    } else {
      var n := |cs| - 1;
      assert (before + cs)[..|before + cs| - 1] == before + cs[..n];
      SelectOthers(before, cs[..n], wanted);
    }
  }

  /** On a GPU host the plan splits into its regular part and its torch part again. */
  lemma SplitOfPlan(regular: seq<Outdated>, torch: seq<Outdated>, cudaIndex: Option<string>)
    requires forall c :: c in regular ==> !InTorchFamily(c)
    requires forall c :: c in torch ==> InTorchFamily(c)
    ensures cudaIndex.Some? ==> SplitTorch(regular + torch, cudaIndex) == (regular, torch)
    ensures cudaIndex.None? ==> SplitTorch(regular + torch, cudaIndex) == (regular + torch, [])
  {
    var none: seq<Outdated> := [];
    assert none + regular == regular;
    SelectOthers(regular, torch, false);
    SelectEverything(none, regular, false);
    SelectOthers(none, regular, true);
    SelectEverything(regular, torch, true);
    assert Select(none, InTorchFamily, true) == none && Select(none, InTorchFamily, false) == none;
    assert none + torch == torch;
  }

  lemma OneReported(name: string, version: string)
    requires name != "" && version != ""
    ensures Installs([ReportItem(name, version)]) == map[Normalize(name) := version]
  {
    assert [ReportItem(name, version)][..0] == [];
  }

  lemma SelectOne(c: Outdated, p: Outdated -> bool, wanted: bool)
    ensures Select([c], p, wanted) == if p(c) == wanted then [c] else []
  {
    var none: seq<Outdated> := [];
    assert [c][..0] == none && none + [c] == [c] && none + none == none;
  }

  lemma OneNormal(c: Outdated)
    requires c.kind != CUDA_WHEEL
    ensures OfKind([c], false) == [c]
  {
    SelectOne(c, IsCudaWheel, false);
  }

  lemma SafeIsPinnedFromCuda(x: PlanInput, pip: Pip, plan: ProjectPlan, torch: seq<Outdated>, c: Outdated)
    requires PlanFrom(x, pip, 0, plan, torch) && x.cudaIndex.Some? && "torch" !in x.current
    requires TorchTally(x, pip, 0).safe == [c]
    ensures SplitTorch(plan.safe, x.cudaIndex).1 == [c] && plan.cudaPackages == []
  {
    PlanParts(x, pip, 0, plan, torch);
  }

  /**
   * With torchvision installed but not torch, a version resolved on the
   * package index is what every plan pins from the CUDA index of a GPU host.
   */
  lemma PackageIndexVersionReachesCudaIndex(x: PlanInput, pip: Pip, c: Outdated)
    requires c == Outdated("torchvision", "0.16", "0.17", "wheel") && x.raw == [c]
    requires x.cudaIndex.Some? && x.current == map["torchvision" := "0.16"]
    requires x.second == Inventory(true, Some(x.current), Some([])) && x.packaging.validVersion("0.17")
    requires pip.answers(0) == Report([ReportItem("torchvision", "0.17")])
    ensures TorchTally(x, pip, 0).safe == [c]
    ensures forall plan, torch :: PlanFrom(x, pip, 0, plan, torch) ==>
      SplitTorch(plan.safe, x.cudaIndex).1 == [c] && plan.cudaPackages == []
  {
    TorchNamesAreKeys("torchvision");
    OneTorch(c);
    OneNormal(c);
    OnePassed(c);
    var ctx := ContextOf(x.packaging, x.second, None);
    OneSurvivor(ctx, c);
    OneVetted(ctx, pip, c);
    SafeWithoutCuda(ctx, pip, 0, [c], [c]);
    forall plan, torch | PlanFrom(x, pip, 0, plan, torch)
      ensures SplitTorch(plan.safe, x.cudaIndex).1 == [c] && plan.cudaPackages == []
    {
      SafeIsPinnedFromCuda(x, pip, plan, torch, c);
    }
  }

  lemma OneTorch(c: Outdated)
    requires InTorchFamily(c)
    ensures Select([c], InTorchFamily, true) == [c] && Select([c], InTorchFamily, false) == []
  {
    SelectOne(c, InTorchFamily, true);
    SelectOne(c, InTorchFamily, false);
  }

  lemma OneSurvivor(ctx: Context, c: Outdated)
    requires c.latest == "0.17" && ctx.reverse == map[] && ctx.packaging.validVersion("0.17")
    ensures SurvivorVerdicts(ctx, [c]) == [None]
  {
    assert Public("0.17") == "0.17";
  }

  lemma OneVetted(ctx: Context, pip: Pip, c: Outdated)
    requires c.name == "torchvision" && ctx.state == map["torchvision" := "0.16"]
    requires pip.answers(0) == Report([ReportItem("torchvision", "0.17")])
    ensures BatchVerdicts(ctx, pip, 0, [c]) == [None]
  {
    TorchNamesAreKeys("torchvision");
    OneReported("torchvision", "0.17");
    var run := Attempt(ctx.state, pip, 0, Names([c]));
    assert "torchvision" in ctx.state && run.ok && "torchvision" in run.changed;
  }

  // What a plan means for the environment

  /**
   * From a consistent environment, installing a whole plan breaks a
   * requirement of a package that is not upgraded exactly if its specifier
   * forbids the planned version of its dependency, and that version comes
   * from the CUDA dry-run, which checks no requirement, or the requirer is
   * one of those that do not count.
   */
  lemma PlannedUpgradesBreakExactly(x: PlanInput, pip: Pip, n: nat, plan: ProjectPlan, torch: seq<Outdated>,
      edges: seq<Edge>, env: State, e: Edge)
    requires PlanFrom(x, pip, n, plan, torch) && x.first.Readable()
    requires edges == Edges(x.packaging, x.first.inspected.value)
    requires x.second.Readable() ==> Edges(x.packaging, x.second.inspected.value) == edges
    requires Consistent(x.packaging, edges, env) && e in edges && e.from.name !in Keys(Names(plan.safe))
    ensures var last := LatestOf(plan.safe, e.dep);
      !Met(x.packaging, SetToLatest(env, plan.safe), e) <==>
        last.Some? && Forbids(x.packaging, e, last.value) && Unchecked(x, last.value, e.from.name)
  {
    PlanIsVetted(x, pip, n);
    PlanParts(x, pip, n, plan, torch);
    var last := LatestOf(plan.safe, e.dep);
    var exclude := if last.None? || (InTorchFamily(last.value) && x.UsesCuda()) then None
                   else Some(ExcludedFor(last.value, x.VettedWith(last.value)));
    if last.Some? {
      KeyInFamily(last.value);
      KeysOfNames(plan.safe, e.from.name);
      ExcusedExactly(last.value, x.VettedWith(last.value), e.from.name);
    }
    if exclude.Some? {
      SafeIsAllowed(x, pip, n, plan, torch, edges, last.value);
    }
    UpgradesBreakExactly(x.packaging, edges, env, plan.safe, e, exclude);
  }

  predicate IsTorch(key: string) {
    key == "torch" || key == "torchvision" || key == "torchaudio"
  }

  /** The two halves that are vetted apart. */
  lemma HalvesExactly(x: PlanInput, c: Outdated)
    ensures c in x.TorchRaw() <==> c in x.raw && IsTorch(Normalize(c.name))
    ensures c in x.Others() <==> c in x.raw && !IsTorch(Normalize(c.name))
  {
    KeyInFamily(c);
    SelectExactly(x.raw, InTorchFamily, true, c);
    SelectExactly(x.raw, InTorchFamily, false, c);
  }

  lemma KeyInFamily(c: Outdated)
    ensures InTorchFamily(c) <==> IsTorch(Normalize(c.name))
  {
  }

  /**
   * Nothing checked what `requirer` requires of the planned package `c`: it
   * comes from the CUDA dry-run, or the requirer is excused in the
   * classification of its half of the candidates.
   */
  ghost predicate Unchecked(x: PlanInput, c: Outdated, requirer: string) {
    || (IsTorch(Normalize(c.name)) && x.cudaIndex.Some? && "torch" in x.current)
    || Excused(c, x.VettedWith(c), requirer)
  }

  lemma SafeIsAllowed(x: PlanInput, pip: Pip, n: nat, plan: ProjectPlan, torch: seq<Outdated>, edges: seq<Edge>,
      c: Outdated)
    requires PlanFrom(x, pip, n, plan, torch) && x.first.Readable()
    requires edges == Edges(x.packaging, x.first.inspected.value)
    requires x.second.Readable() ==> Edges(x.packaging, x.second.inspected.value) == edges
    requires c in plan.safe && !(InTorchFamily(c) && x.UsesCuda())
    ensures RequirementsAllow(x.packaging, edges, ExcludedFor(c, x.VettedWith(c)), c)
  {
    var others, family := RegularTally(x, pip, n), TorchTally(x, pip, n);
    PlanIsVetted(x, pip, n);
    PlanParts(x, pip, n, plan, torch);
    if InTorchFamily(c) {
      assert c in family.safe;
      assert Proven(x.packaging, edges, x.second.installed.value, pip, others.asked, family.asked, x.TorchRaw(), c);
    } else {
      assert c in others.safe;
      assert Proven(x.packaging, edges, x.first.installed.value, pip, n, others.asked, x.Others(), c);
    }
  }
}
