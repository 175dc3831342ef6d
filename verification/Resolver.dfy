/** Vetting upgrade candidates: reverse dependencies first, then a pip dry-run that pins everything else. */
module Resolver {
  import opened Text

  /** An outdated package; `kind` is "wheel", "sdist" or "wheel-cuda". */
  datatype Outdated = Outdated(name: string, current: string, latest: string, kind: string)

  const CUDA_WHEEL := "wheel-cuda"
  const TORCH_FAMILY := ["torch", "torchvision", "torchaudio"]
  const TORCH_KEYS := {"torch", "torchvision", "torchaudio"}

  /** Packages that are upgraded in lockstep. */
  const CO_DEPENDENT_PAIRS: map<string, set<string>> := map[
    "pydantic" := {"pydantic-core", "pydantic_core"},
    "pydantic-core" := {"pydantic"},
    "pydantic_core" := {"pydantic"}
  ]

  function NormalizeChar(c: char): char {
    if c == '-' || c == '.' then '_' else LowerChar(c)
  }

  /** The key package names are compared by. */
  function Normalize(name: string): string {
    seq(|name|, i requires 0 <= i < |name| => NormalizeChar(name[i]))
  }

  lemma NormalizeTwice(name: string)
    ensures Normalize(Normalize(name)) == Normalize(name)
  {
    assert forall c :: NormalizeChar(NormalizeChar(c)) == NormalizeChar(c);
  }

  /** Names have the same key exactly if they differ only in letter case and in which of `-`, `_`, `.` they use. */
  lemma SameKeyExactly(a: string, b: string)
    ensures Normalize(a) == Normalize(b) <==>
      |a| == |b| && forall i :: 0 <= i < |a| ==>
        if a[i] in "-_." then b[i] in "-_." else LowerChar(a[i]) == LowerChar(b[i])
  {
    if Normalize(a) == Normalize(b) {
      assert |Normalize(a)| == |a| && |Normalize(b)| == |b|;
      forall i | 0 <= i < |a|
        ensures if a[i] in "-_." then b[i] in "-_." else LowerChar(a[i]) == LowerChar(b[i])
      {
        assert Normalize(a)[i] == NormalizeChar(a[i]) && Normalize(b)[i] == NormalizeChar(b[i]);
      }
    }
    if |a| == |b| && forall i :: 0 <= i < |a| ==>
      if a[i] in "-_." then b[i] in "-_." else LowerChar(a[i]) == LowerChar(b[i])
    {
      assert forall i :: 0 <= i < |a| ==> NormalizeChar(a[i]) == NormalizeChar(b[i]);
    }
  }

  /** A version without its local part. */
  function Public(version: string): string {
    version[..IndexOf(version, '+')]
  }

  /** A version is its public part, or that and a `+` and a local label. */
  lemma PublicExactly(version: string)
    ensures '+' !in Public(version)
    ensures Public(version) == version || exists local :: version == Public(version) + "+" + local
  {
    var i := IndexOf(version, '+');
    if i < |version| {
      assert version == Public(version) + "+" + version[i + 1..];
    } else {
      assert Public(version) == version;
    }
  }

  datatype Marker = Marker(text: string, holds: Option<bool>)

  datatype Requirement = Requirement(name: string, spec: string, marker: Option<Marker>)

  /** What the `packaging` library decides; `fits(spec, version)` is specifier containment. */
  datatype Packaging = Packaging(
    requirement: string -> Option<Requirement>,
    validVersion: string -> bool,
    validSpec: string -> bool,
    fits: (string, string) -> bool)

  // Reverse dependencies

  datatype Meta = Meta(name: string, requires_: seq<string>)

  datatype Requirer = Requirer(name: string, spec: string)

  datatype Edge = Edge(dep: string, from: Requirer)

  type ReverseDeps = map<string, seq<Requirer>>

  /** The requirement constrains a standard install in this environment. */
  predicate Active(r: Requirement) {
    r.marker.Some? ==> !Contains(r.marker.value.text, "extra") && r.marker.value.holds == Some(true)
  }

  /** The edge one Requires-Dist line contributes, if any. */
  function EdgeOf(p: Packaging, owner: string, raw: string): Option<Edge> {
    var parsed := p.requirement(raw);
    if parsed.Some? && Active(parsed.value)
    then Some(Edge(Normalize(parsed.value.name), Requirer(owner, parsed.value.spec)))
    else None
  }

  function OwnEdges(p: Packaging, owner: string, raws: seq<string>): seq<Edge> {
    if raws == [] then []
    else
      var last := EdgeOf(p, owner, raws[|raws| - 1]);
      OwnEdges(p, owner, raws[..|raws| - 1]) + if last.Some? then [last.value] else []
  }

  /** Every requirement edge of the inspected packages, in order. */
  function Edges(p: Packaging, inspected: seq<Meta>): seq<Edge> {
    if inspected == [] then []
    else
      var last := inspected[|inspected| - 1];
      Edges(p, inspected[..|inspected| - 1]) +
        (if last.name == "" then [] else OwnEdges(p, Normalize(last.name), last.requires_))
  }

  /** Who requires `dep`, in edge order. */
  function RequirersOf(edges: seq<Edge>, dep: string): seq<Requirer> {
    if edges == [] then []
    else
      var last := edges[|edges| - 1];
      RequirersOf(edges[..|edges| - 1], dep) + if last.dep == dep then [last.from] else []
  }

  function Lookup(reverse: ReverseDeps, dep: string): seq<Requirer> {
    if dep in reverse then reverse[dep] else []
  }

  /** `reverse` indexes exactly `edges`. */
  ghost predicate Indexes(reverse: ReverseDeps, edges: seq<Edge>) {
    && (forall dep :: Lookup(reverse, dep) == RequirersOf(edges, dep))
    && (forall dep :: dep in reverse ==> reverse[dep] != [])
  }

  /** One more edge, appended to the requirers of its dependency. */
  lemma IndexesNext(reverse: ReverseDeps, edges: seq<Edge>, e: Edge)
    requires Indexes(reverse, edges)
    ensures Indexes(reverse[e.dep := Lookup(reverse, e.dep) + [e.from]], edges + [e])
  {
    var next := reverse[e.dep := Lookup(reverse, e.dep) + [e.from]];
    forall dep
      ensures Lookup(next, dep) == RequirersOf(edges + [e], dep)
    {
      RequirersNext(edges, e, dep);
    }
  }

  lemma RequirersNext(edges: seq<Edge>, e: Edge, dep: string)
    ensures RequirersOf(edges + [e], dep) == RequirersOf(edges, dep) + if e.dep == dep then [e.from] else []
  {
    assert (edges + [e])[..|edges|] == edges;
  }

  /** The index of `edges`; there is only one. */
  function ReverseOf(edges: seq<Edge>): ReverseDeps {
    if edges == [] then map[]
    else
      var init, last := ReverseOf(edges[..|edges| - 1]), edges[|edges| - 1];
      init[last.dep := Lookup(init, last.dep) + [last.from]]
  }

  lemma {:induction false} ReverseIndexes(edges: seq<Edge>)
    ensures Indexes(ReverseOf(edges), edges)
  {
    if edges != [] {
      var init, last := edges[..|edges| - 1], edges[|edges| - 1];
      ReverseIndexes(init);
      IndexesNext(ReverseOf(init), init, last);
      assert edges == init + [last];
    }
  }

  lemma IndexIsUnique(reverse: ReverseDeps, edges: seq<Edge>)
    requires Indexes(reverse, edges)
    ensures reverse == ReverseOf(edges)
  {
    ReverseIndexes(edges);
    var other := ReverseOf(edges);
    forall dep
      ensures dep in reverse <==> dep in other
      ensures dep in reverse ==> reverse[dep] == other[dep]
    {
      assert Lookup(reverse, dep) == Lookup(other, dep);
    }
  }

  lemma OwnEdgesNext(p: Packaging, owner: string, raws: seq<string>, k: nat)
    requires k < |raws|
    ensures OwnEdges(p, owner, raws[..k + 1]) == OwnEdges(p, owner, raws[..k]) +
      if EdgeOf(p, owner, raws[k]).Some? then [EdgeOf(p, owner, raws[k]).value] else []
  {
    assert raws[..k + 1][..k] == raws[..k];
  }

  lemma EdgesNext(p: Packaging, inspected: seq<Meta>, i: nat)
    requires i < |inspected|
    ensures Edges(p, inspected[..i + 1]) == Edges(p, inspected[..i]) +
      if inspected[i].name == "" then [] else OwnEdges(p, Normalize(inspected[i].name), inspected[i].requires_)
  {
    assert inspected[..i + 1][..i] == inspected[..i];
  }

  method AddRequirements(p: Packaging, owner: string, raws: seq<string>, reverse0: ReverseDeps, ghost edges: seq<Edge>)
    returns (reverse: ReverseDeps)
    requires Indexes(reverse0, edges)
    ensures Indexes(reverse, edges + OwnEdges(p, owner, raws))
  {
    reverse := reverse0;
    assert edges + [] == edges;
    for k := 0 to |raws|
      invariant Indexes(reverse, edges + OwnEdges(p, owner, raws[..k]))
    {
      var e := EdgeOf(p, owner, raws[k]);
      ghost var known := edges + OwnEdges(p, owner, raws[..k]);
      OwnEdgesNext(p, owner, raws, k);
      if e.Some? {
        IndexesNext(reverse, known, e.value);
        reverse := reverse[e.value.dep := Lookup(reverse, e.value.dep) + [e.value.from]];
      }
      assert edges + OwnEdges(p, owner, raws[..k + 1]) == known + if e.Some? then [e.value] else [];
      assert known + [] == known;
    }
    assert raws[..|raws|] == raws;
  }

  method GetReverseDependencies(p: Packaging, inspected: seq<Meta>) returns (reverse: ReverseDeps)
    ensures Indexes(reverse, Edges(p, inspected))
  {
    reverse := map[];
    for i := 0 to |inspected|
      invariant Indexes(reverse, Edges(p, inspected[..i]))
    {
      EdgesNext(p, inspected, i);
      assert Edges(p, inspected[..i]) + [] == Edges(p, inspected[..i]);
      if inspected[i].name != "" {
        reverse := AddRequirements(p, Normalize(inspected[i].name), inspected[i].requires_, reverse,
          Edges(p, inspected[..i]));
      }
    }
    assert inspected[..|inspected|] == inspected;
  }

  /**
   * The Requires-Dist line `raw` of `m` parses as `req`, which is not tied to
   * an extra, applies here, and asks for `from.spec` of `dep`.
   */
  ghost predicate Says(p: Packaging, m: Meta, raw: string, req: Requirement, dep: string, from: Requirer) {
    && p.requirement(raw) == Some(req)
    && (req.marker == None || (!Contains(req.marker.value.text, "extra") && req.marker.value.holds == Some(true)))
    && dep == Normalize(req.name) && from == Requirer(Normalize(m.name), req.spec)
  }

  /** A package is listed as a requirer of `dep` exactly if one of its active requirements says so. */
  lemma {:induction false} RequirersExactly(p: Packaging, inspected: seq<Meta>, dep: string, from: Requirer)
    ensures from in RequirersOf(Edges(p, inspected), dep) <==>
      exists m :: m in inspected && m.name != "" && Declares(p, m, dep, from)
  {
    RequirersAreEdges(Edges(p, inspected), dep, from);
    if inspected != [] {
      var init, last := inspected[..|inspected| - 1], inspected[|inspected| - 1];
      RequirersExactly(p, init, dep, from);
      RequirersAreEdges(Edges(p, init), dep, from);
      OwnEdgesExactly(p, Normalize(last.name), last.requires_, Edge(dep, from));
      DeclaresExactly(p, last, dep, from);
      assert forall m :: m in inspected <==> m in init || m == last;
    }
  }

  ghost predicate Declares(p: Packaging, m: Meta, dep: string, from: Requirer) {
    exists raw, req :: raw in m.requires_ && Says(p, m, raw, req, dep, from)
  }

  lemma DeclaresExactly(p: Packaging, m: Meta, dep: string, from: Requirer)
    ensures Declares(p, m, dep, from) <==>
      exists raw :: raw in m.requires_ && EdgeOf(p, Normalize(m.name), raw) == Some(Edge(dep, from))
  {
    forall raw
      ensures EdgeOf(p, Normalize(m.name), raw) == Some(Edge(dep, from)) <==>
        exists req :: Says(p, m, raw, req, dep, from)
    {
      if EdgeOf(p, Normalize(m.name), raw) == Some(Edge(dep, from)) {
        assert Says(p, m, raw, p.requirement(raw).value, dep, from);
      }
    }
  }

  lemma {:induction false} RequirersAreEdges(edges: seq<Edge>, dep: string, from: Requirer)
    ensures from in RequirersOf(edges, dep) <==> Edge(dep, from) in edges
  {
    if edges != [] {
      var init, last := edges[..|edges| - 1], edges[|edges| - 1];
      RequirersAreEdges(init, dep, from);
      assert edges == init + [last];
    }
  }

  lemma {:induction false} OwnEdgesExactly(p: Packaging, owner: string, raws: seq<string>, e: Edge)
    ensures e in OwnEdges(p, owner, raws) <==> exists raw :: raw in raws && EdgeOf(p, owner, raw) == Some(e)
  {
    if raws != [] {
      var init, last := raws[..|raws| - 1], raws[|raws| - 1];
      OwnEdgesExactly(p, owner, init, e);
      assert forall raw :: raw in raws <==> raw in init || raw == last;
    }
  }

  /** Why a candidate is blocked. */
  datatype Reason =
    | InvalidVenv | StateUnavailable | BadVersion | Required(from: Requirer)
    | KeptPinned | BothFailed | NoResolution | CudaUnchanged | CudaFailed

  /** `version` breaks what `r` requires of `key`, and `r` counts. */
  predicate Violates(p: Packaging, r: Requirer, key: string, exclude: set<string>, version: string) {
    r.name != key && r.name !in exclude && r.spec != "" && p.validSpec(r.spec) && !p.fits(r.spec, version)
  }

  method CheckReverseDeps(p: Packaging, name: string, latest: string, reverse: ReverseDeps, exclude: set<string>)
    returns (reason: Option<Reason>)
    ensures reason == ReverseReason(p, name, latest, reverse, exclude)
  {
    if !p.validVersion(Public(latest)) {
      return Some(BadVersion);
    }
    var rs := Lookup(reverse, Normalize(name));
    for i := 0 to |rs|
      invariant FirstViolation(p, rs, Normalize(name), exclude, Public(latest)) ==
        FirstViolation(p, rs[i..], Normalize(name), exclude, Public(latest))
    {
      var r := rs[i];
      assert rs[i..][1..] == rs[i + 1..];
      if r.name == Normalize(name) || r.name in exclude || r.spec == "" || !p.validSpec(r.spec) {
        continue;
      }
      if !p.fits(r.spec, Public(latest)) {
        return Some(Required(r));
      }
    }
    return None;
  }

  function FirstViolation(p: Packaging, rs: seq<Requirer>, key: string, exclude: set<string>,
      version: string): (r: Option<Requirer>)
    ensures r.None? <==> forall x :: x in rs ==> !Violates(p, x, key, exclude, version)
    ensures r.Some? ==> r.value in rs && Violates(p, r.value, key, exclude, version)
  {
    if rs == [] then None
    else if Violates(p, rs[0], key, exclude, version) then Some(rs[0])
    else FirstViolation(p, rs[1..], key, exclude, version)
  }

  /** None exactly if the public version parses and breaks no requirement that counts. */
  function ReverseReason(p: Packaging, name: string, latest: string, reverse: ReverseDeps,
      exclude: set<string>): Option<Reason>
  {
    if !p.validVersion(Public(latest)) then Some(BadVersion)
    else
      var r := FirstViolation(p, Lookup(reverse, Normalize(name)), Normalize(name), exclude, Public(latest));
      if r.Some? then Some(Required(r.value)) else None
  }

  // The constraint-preserving dry-run

  datatype ReportItem = ReportItem(name: string, version: string)

  /** How one dry-run attempt goes outside our control; a missing name or version reads as "". */
  datatype Answer = VenvGone | NoConstraintsFile | PipFailed | Unparsable | Report(items: seq<ReportItem>)

  type State = map<string, string>

  datatype Call = Call(targets: seq<string>, constraints: State, index: Option<string>, extraIndex: Option<string>)

  datatype DryRun = DryRun(ok: bool, changed: State)

  predicate Usable(item: ReportItem) {
    item.name != "" && item.version != ""
  }

  /** What the report would install; a later item of the same key wins. */
  function Installs(items: seq<ReportItem>): State {
    if items == [] then map[]
    else
      var init, last := Installs(items[..|items| - 1]), items[|items| - 1];
      if Usable(last) then init[Normalize(last.name) := last.version] else init
  }

  method WouldInstallFromReport(items: seq<ReportItem>) returns (result: State)
    ensures result == Installs(items)
  {
    result := map[];
    for i := 0 to |items|
      invariant result == Installs(items[..i])
    {
      assert items[..i + 1][..i] == items[..i];
      if items[i].name != "" && items[i].version != "" {
        result := result[Normalize(items[i].name) := items[i].version];
      }
    }
    assert items[..|items|] == items;
  }

  predicate Fetches(item: ReportItem, key: string) {
    item.name != "" && item.version != "" && Normalize(item.name) == key
  }

  ghost predicate LastItemFor(items: seq<ReportItem>, i: int, key: string) {
    && 0 <= i < |items| && Fetches(items[i], key)
    && forall j :: i < j < |items| ==> !Fetches(items[j], key)
  }

  /** A key is installed exactly at the version of its last item with both a name and a version. */
  lemma {:induction false} InstallsExactly(items: seq<ReportItem>, key: string, version: string)
    ensures (key in Installs(items) && Installs(items)[key] == version) <==>
      exists i :: LastItemFor(items, i, key) && items[i].version == version
  {
    if items != [] {
      var n := |items| - 1;
      InstallsExactly(items[..n], key, version);
      if Fetches(items[n], key) {
        assert LastItemFor(items, n, key);
      } else {
        forall i
          ensures LastItemFor(items, i, key) <==> LastItemFor(items[..n], i, key)
        {
          LastItemStays(items, i, key);
        }
      }
    }
  }

  lemma LastItemStays(items: seq<ReportItem>, i: int, key: string)
    requires items != [] && !Fetches(items[|items| - 1], key)
    ensures LastItemFor(items, i, key) <==> LastItemFor(items[..|items| - 1], i, key)
  {
    var init := items[..|items| - 1];
    assert forall j :: 0 <= j < |init| ==> init[j] == items[j];
  }

  /** The installed packages `pip list` reports; the names are normalized. */
  function InstalledVersions(items: seq<ReportItem>): (state: State)
    ensures forall n :: n in state ==> Normalize(n) == n
  {
    if items == [] then map[]
    else
      var last := items[|items| - 1];
      NormalizeTwice(last.name);
      InstalledVersions(items[..|items| - 1])[Normalize(last.name) := last.version]
  }

  function Keys(names: seq<string>): set<string> {
    set n | n in names :: Normalize(n)
  }

  /** Everything installed except the targets. */
  function Pins(state: State, targets: seq<string>): State {
    map n | n in state && n !in Keys(targets) :: state[n]
  }

  function Changed(state: State, installs: State): State {
    map n | n in installs && !(n in state && state[n] == installs[n]) :: installs[n]
  }

  /** The installed state to protect: the caller's, else the queried one; None if unknown or empty. */
  function Known(state: Option<State>, queried: Option<State>): Option<State> {
    var s := if state.Some? then state else queried;
    if s.Some? && s.value != map[] then s else None
  }

  function Outcome(a: Answer, targets: seq<string>, known: Option<State>): DryRun {
    if a.VenvGone? || targets == [] then DryRun(true, map[])
    else if known.None? || !a.Report? then DryRun(false, map[])
    else DryRun(true, Changed(known.value, Installs(a.items)))
  }

  /**
   * What an attempt sends to pip: nothing without targets or a known state, else
   * everything installed but the targets pinned.
   */
  function CallsOf(a: Answer, targets: seq<string>, known: Option<State>, index: Option<string>,
      extraIndex: Option<string>): seq<Call>
  {
    if targets == [] || known.None? || a.VenvGone? || a.NoConstraintsFile? then []
    else [Call(targets, Pins(known.value, targets), index, extraIndex)]
  }

  /** pip, which answers the n-th attempt with `answers(n)`, and the calls that reached it. */
  class Pip {
    const answers: nat -> Answer
    var asked: nat
    var calls: seq<Call>

    constructor (answers: nat -> Answer)
      ensures this.answers == answers && asked == 0 && calls == []
    {
      this.answers, asked, calls := answers, 0, [];
    }

    /** Dry-run upgrading `targets` with everything else pinned; no pip call without a known state. */
    method ConstraintPreservingDryRun(
        targets: seq<string>, state: Option<State>, queried: Option<State>, index: Option<string>,
        extraIndex: Option<string>)
      returns (run: DryRun)
      modifies this
      ensures asked == old(asked) + 1
      ensures run == Outcome(answers(old(asked)), targets, Known(state, queried))
      ensures calls == old(calls) + CallsOf(answers(old(asked)), targets, Known(state, queried), index, extraIndex)
    {
      var answer := answers(asked);
      asked := asked + 1;
      if answer.VenvGone? || targets == [] {
        return DryRun(true, map[]);
      }
      var current := if state.Some? then state else queried;
      if current.None? || current.value == map[] {
        return DryRun(false, map[]);
      }
      var pins := map n | n in current.value && n !in Keys(targets) :: current.value[n];
      if answer.NoConstraintsFile? {
        return DryRun(false, map[]);
      }
      assert Known(state, queried) == Some(current.value);
      calls := calls + [Call(targets, pins, index, extraIndex)];
      if !answer.Report? {
        return DryRun(false, map[]);
      }
      var installs := WouldInstallFromReport(answer.items);
      run := DryRun(true,
        map n | n in installs && !(n in current.value && current.value[n] == installs[n]) :: installs[n]);
    }
  }

  /** pip reports every pinned package, if at all, at its pinned version. */
  ghost predicate Honours(items: seq<ReportItem>, pins: State) {
    forall item :: item in items && item.name != "" && item.version != "" && Normalize(item.name) in pins ==>
      item.version == pins[Normalize(item.name)]
  }

  /** No installed package outside the targets is reported as changed. */
  ghost predicate FrameKept(state: State, installs: State, targets: seq<string>) {
    forall n :: n in state && Normalize(n) in Changed(state, installs) ==> n in Keys(targets)
  }

  /**
   * With normalized installed names the frame is kept exactly if every pinned
   * package is reported, if at all, at its pinned version in the end; so it is
   * kept if pip honours the constraints.
   */
  lemma ConstraintFrame(items: seq<ReportItem>, targets: seq<string>, state: State)
    requires forall n :: n in state ==> Normalize(n) == n
    ensures var installs, pins := Installs(items), Pins(state, targets);
      FrameKept(state, installs, targets) <==> forall n :: n in pins && n in installs ==> installs[n] == pins[n]
    ensures Honours(items, Pins(state, targets)) ==> FrameKept(state, Installs(items), targets)
  {
    var installs, pins := Installs(items), Pins(state, targets);
    if FrameKept(state, installs, targets) {
      forall n | n in pins && n in installs
        ensures installs[n] == pins[n]
      {
        assert n !in Keys(targets) && n !in Changed(state, installs);
      }
    }
    if Honours(items, pins) {
      forall n | n in pins && n in installs
        ensures installs[n] == pins[n]
      {
        InstallsExactly(items, n, installs[n]);
        var i :| LastItemFor(items, i, n) && items[i].version == installs[n];
        assert items[i] in items;
      }
    }
  }

  // Safe and blocked

  datatype Blocked = Blocked(pkg: Outdated, reason: Reason)

  datatype Context = Context(packaging: Packaging, state: State, reverse: ReverseDeps, cudaIndex: Option<string>)

  class Verdicts {
    var safe: seq<Outdated>
    var blocked: seq<Blocked>

    constructor ()
      ensures safe == [] && blocked == []
    {
      safe, blocked := [], [];
    }
  }

  function Packages(blocked: seq<Blocked>): (r: seq<Outdated>)
    ensures |r| == |blocked| && forall i :: 0 <= i < |r| ==> r[i] == blocked[i].pkg
  {
    seq(|blocked|, i requires 0 <= i < |blocked| => blocked[i].pkg)
  }

  /** The candidates whose verdict is None. */
  function Passed(cs: seq<Outdated>, verdicts: seq<Option<Reason>>): seq<Outdated>
    requires |cs| == |verdicts|
  {
    if cs == [] then []
    else
      var n := |cs| - 1;
      Passed(cs[..n], verdicts[..n]) + if verdicts[n].None? then [cs[n]] else []
  }

  /** The other candidates with their reasons. */
  function Held(cs: seq<Outdated>, verdicts: seq<Option<Reason>>): seq<Blocked>
    requires |cs| == |verdicts|
  {
    if cs == [] then []
    else
      var n := |cs| - 1;
      Held(cs[..n], verdicts[..n]) + if verdicts[n].None? then [] else [Blocked(cs[n], verdicts[n].value)]
  }

  lemma {:induction false} SplitIsExact(cs: seq<Outdated>, verdicts: seq<Option<Reason>>)
    requires |cs| == |verdicts|
    ensures multiset(Passed(cs, verdicts)) + multiset(Packages(Held(cs, verdicts))) == multiset(cs)
  {
    if cs != [] {
      var n := |cs| - 1;
      SplitIsExact(cs[..n], verdicts[..n]);
      assert cs == cs[..n] + [cs[n]];
      var held := Held(cs[..n], verdicts[..n]);
      if verdicts[n].Some? {
        var b := Blocked(cs[n], verdicts[n].value);
        assert Packages(held + [b]) == Packages(held) + [cs[n]];
      } else {
        assert held + [] == held;
      }
    }
  }

  lemma {:induction false} PassedExactly(cs: seq<Outdated>, verdicts: seq<Option<Reason>>, c: Outdated)
    requires |cs| == |verdicts|
    ensures c in Passed(cs, verdicts) <==> exists i :: 0 <= i < |cs| && cs[i] == c && verdicts[i].None?
  {
    if cs != [] {
      var n := |cs| - 1;
      PassedExactly(cs[..n], verdicts[..n], c);
      if i :| 0 <= i < n && cs[..n][i] == c && verdicts[..n][i].None? {
        assert cs[i] == c && verdicts[i].None?;
      }
      if i :| 0 <= i < |cs| && cs[i] == c && verdicts[i].None? {
        assert i < n ==> cs[..n][i] == c && verdicts[..n][i].None?;
      }
    }
  }

  // Vetting

  /** Requirers that do not count for `key`: itself, and its co-dependent twins that are candidates too. */
  function LockstepRequirers(key: string, candidates: set<string>): set<string> {
    {key} + set twin | key in CO_DEPENDENT_PAIRS && twin in CO_DEPENDENT_PAIRS[key] &&
      Normalize(twin) in candidates :: Normalize(twin)
  }

  function Names(cs: seq<Outdated>): (names: seq<string>)
    ensures |names| == |cs| && forall i :: 0 <= i < |cs| ==> names[i] == cs[i].name
  {
    seq(|cs|, i requires 0 <= i < |cs| => cs[i].name)
  }

  function SurvivorVerdict(ctx: Context, candidates: seq<Outdated>, c: Outdated): Option<Reason> {
    ReverseReason(ctx.packaging, c.name, c.latest, ctx.reverse,
      LockstepRequirers(Normalize(c.name), Keys(Names(candidates))))
  }

  function SurvivorVerdicts(ctx: Context, cs: seq<Outdated>): (v: seq<Option<Reason>>)
    ensures |v| == |cs|
  {
    seq(|cs|, i requires 0 <= i < |cs| => SurvivorVerdict(ctx, cs, cs[i]))
  }

  /** The verdict on one package from a dry-run it was a target of. */
  function RunVerdict(run: DryRun, c: Outdated, failed: Reason): Option<Reason> {
    if !run.ok then Some(failed)
    else if Normalize(c.name) in run.changed then None
    else Some(KeptPinned)
  }

  /** The outcome of attempt `n` for `targets` in the installed `state`. */
  function Attempt(state: State, pip: Pip, n: nat, targets: seq<string>): DryRun {
    Outcome(pip.answers(n), targets, Known(Some(state), None))
  }

  /** `answer` is a report whose last usable item for `key` is not what is installed. */
  ghost predicate ReportChanges(state: State, answer: Answer, key: string) {
    && answer.Report? && state != map[]
    && exists i :: LastItemFor(answer.items, i, key) && !(key in state && state[key] == answer.items[i].version)
  }

  /** A run of some targets changes `key` exactly if its report does; it fails exactly without a report. */
  lemma AttemptChanges(state: State, pip: Pip, n: nat, targets: seq<string>, key: string)
    requires targets != []
    ensures var run, answer := Attempt(state, pip, n, targets), pip.answers(n);
      && (run.ok <==> answer.VenvGone? || (answer.Report? && state != map[]))
      && (run.ok && key in run.changed <==> ReportChanges(state, answer, key))
  {
    var answer := pip.answers(n);
    if answer.Report? && state != map[] {
      var installs := Installs(answer.items);
      if key in installs {
        InstallsExactly(answer.items, key, installs[key]);
      }
      forall i | LastItemFor(answer.items, i, key)
        ensures key in installs && installs[key] == answer.items[i].version
      {
        InstallsExactly(answer.items, key, answer.items[i].version);
      }
    }
  }

  /** One batch attempt, or one attempt per survivor when the batch fails. */
  function BatchVerdicts(ctx: Context, pip: Pip, first: nat, cs: seq<Outdated>): (v: seq<Option<Reason>>)
    ensures |v| == |cs|
  {
    var batch := Attempt(ctx.state, pip, first, Names(cs));
    seq(|cs|, i requires 0 <= i < |cs| =>
      if batch.ok then RunVerdict(batch, cs[i], BothFailed)
      else RunVerdict(Attempt(ctx.state, pip, first + 1 + i, [cs[i].name]), cs[i], BothFailed))
  }

  function TorchVerdict(ctx: Context, pip: Pip, n: nat, c: Outdated): Option<Reason> {
    var reason := ReverseReason(ctx.packaging, c.name, c.latest, ctx.reverse, TORCH_KEYS);
    if reason.Some? then reason
    else
      var run := Attempt(ctx.state, pip, n, [c.name]);
      if run.ok && Normalize(c.name) in run.changed then None
      else Some(if ctx.cudaIndex.GetOr("") == "" then NoResolution else if run.ok then CudaUnchanged else CudaFailed)
  }

  method ReverseDepSurvivors(ctx: Context, candidates: seq<Outdated>, out: Verdicts) returns (survivors: seq<Outdated>)
    modifies out
    ensures survivors == Passed(candidates, SurvivorVerdicts(ctx, candidates))
    ensures out.safe == old(out.safe)
    ensures out.blocked == old(out.blocked) + Held(candidates, SurvivorVerdicts(ctx, candidates))
  {
    var names := Keys(Names(candidates));
    survivors := [];
    ghost var v := SurvivorVerdicts(ctx, candidates);
    for i := 0 to |candidates|
      invariant survivors == Passed(candidates[..i], v[..i])
      invariant out.safe == old(out.safe)
      invariant out.blocked == old(out.blocked) + Held(candidates[..i], v[..i])
    {
      var c := candidates[i];
      var reason := CheckReverseDeps(ctx.packaging, c.name, c.latest, ctx.reverse,
        LockstepRequirers(Normalize(c.name), names));
      SplitNext(candidates, v, i);
      if reason.None? {
        survivors := survivors + [c];
      } else {
        out.blocked := out.blocked + [Blocked(c, reason.value)];
      }
    }
    assert candidates[..|candidates|] == candidates && v[..|candidates|] == v;
  }

  lemma SplitNext(cs: seq<Outdated>, v: seq<Option<Reason>>, i: nat)
    requires i < |cs| == |v|
    ensures v[i].None? ==> Passed(cs[..i + 1], v[..i + 1]) == Passed(cs[..i], v[..i]) + [cs[i]]
    ensures v[i].None? ==> Held(cs[..i + 1], v[..i + 1]) == Held(cs[..i], v[..i])
    ensures v[i].Some? ==> Passed(cs[..i + 1], v[..i + 1]) == Passed(cs[..i], v[..i])
    ensures v[i].Some? ==> Held(cs[..i + 1], v[..i + 1]) == Held(cs[..i], v[..i]) + [Blocked(cs[i], v[i].value)]
  {
    assert cs[..i + 1][..i] == cs[..i] && v[..i + 1][..i] == v[..i];
    assert Passed(cs[..i], v[..i]) + [] == Passed(cs[..i], v[..i]);
    assert Held(cs[..i], v[..i]) + [] == Held(cs[..i], v[..i]);
  }

  /** Every dry-run sent to pip after `before` pins everything installed but its targets. */
  ghost predicate SentPinned(state: State, before: seq<Call>, after: seq<Call>) {
    && |before| <= |after|
    && (forall i :: 0 <= i < |before| ==> after[i] == before[i])
    && (forall i :: |before| <= i < |after| ==> after[i].constraints == Pins(state, after[i].targets))
  }

  /** The calls of one dry-run each for `cs`, from attempt `first` on. */
  function SingleCalls(ctx: Context, pip: Pip, first: nat, cs: seq<Outdated>): seq<Call> {
    if cs == [] then []
    else
      var n := |cs| - 1;
      SingleCalls(ctx, pip, first, cs[..n]) +
      CallsOf(pip.answers(first + n), [cs[n].name], Known(Some(ctx.state), None), None, ctx.cudaIndex)
  }

  /** The calls that vetting the survivors makes: the batch, then each alone if the batch fails. */
  function NormalCalls(ctx: Context, pip: Pip, first: nat, survivors: seq<Outdated>): seq<Call> {
    if survivors == [] then []
    else
      CallsOf(pip.answers(first), Names(survivors), Known(Some(ctx.state), None), None, ctx.cudaIndex) +
      (if Attempt(ctx.state, pip, first, Names(survivors)).ok then [] else SingleCalls(ctx, pip, first + 1, survivors))
  }

  /** Attempts that vetting `cs` as a batch takes. */
  function Attempts(ctx: Context, pip: Pip, first: nat, cs: seq<Outdated>): nat {
    if cs == [] then 0 else if Attempt(ctx.state, pip, first, Names(cs)).ok then 1 else 1 + |cs|
  }

  method VetNormal(ctx: Context, pip: Pip, candidates: seq<Outdated>, out: Verdicts) returns (survivors: seq<Outdated>)
    modifies pip, out
    ensures survivors == Passed(candidates, SurvivorVerdicts(ctx, candidates))
    ensures out.safe == old(out.safe) + Passed(survivors, BatchVerdicts(ctx, pip, old(pip.asked), survivors))
    ensures out.blocked == old(out.blocked) + Held(candidates, SurvivorVerdicts(ctx, candidates)) +
      Held(survivors, BatchVerdicts(ctx, pip, old(pip.asked), survivors))
    ensures pip.asked == old(pip.asked) + Attempts(ctx, pip, old(pip.asked), survivors)
    ensures pip.calls == old(pip.calls) + NormalCalls(ctx, pip, old(pip.asked), survivors)
    ensures SentPinned(ctx.state, old(pip.calls), pip.calls)
  {
    survivors := ReverseDepSurvivors(ctx, candidates, out);
    if survivors != [] {
      DryRunSurvivors(ctx, pip, survivors, out);
    }
  }

  /** One batch dry-run; one dry-run per survivor if that fails. */
  method DryRunSurvivors(ctx: Context, pip: Pip, survivors: seq<Outdated>, out: Verdicts)
    requires survivors != []
    modifies pip, out
    ensures out.safe == old(out.safe) + Passed(survivors, BatchVerdicts(ctx, pip, old(pip.asked), survivors))
    ensures out.blocked == old(out.blocked) + Held(survivors, BatchVerdicts(ctx, pip, old(pip.asked), survivors))
    ensures pip.asked == old(pip.asked) + Attempts(ctx, pip, old(pip.asked), survivors)
    ensures pip.calls == old(pip.calls) + NormalCalls(ctx, pip, old(pip.asked), survivors)
    ensures SentPinned(ctx.state, old(pip.calls), pip.calls)
  {
    ghost var first, before := pip.asked, pip.calls;
    var run := AskForAll(ctx, pip, survivors);
    ghost var middle := pip.calls;
    if run.ok {
      TakeBatch(run, survivors, out, BatchVerdicts(ctx, pip, first, survivors));
    } else {
      FallBack(ctx, pip, survivors, out, first);
      FailedBatchCalls(ctx, pip, first, survivors, before);
      SentPinnedChain(ctx.state, before, middle, pip.calls);
    }
  }

  lemma FailedBatchCalls(ctx: Context, pip: Pip, first: nat, survivors: seq<Outdated>, before: seq<Call>)
    requires survivors != [] && !Attempt(ctx.state, pip, first, Names(survivors)).ok
    ensures before + NormalCalls(ctx, pip, first, survivors) ==
      before + CallsOf(pip.answers(first), Names(survivors), Known(Some(ctx.state), None), None, ctx.cudaIndex) +
        SingleCalls(ctx, pip, first + 1, survivors)
  {
  }

  /** The batch was attempt `first` and failed. */
  method FallBack(ctx: Context, pip: Pip, survivors: seq<Outdated>, out: Verdicts, ghost first: nat)
    requires pip.asked == first + 1 && !Attempt(ctx.state, pip, first, Names(survivors)).ok
    modifies pip, out
    ensures out.safe == old(out.safe) + Passed(survivors, BatchVerdicts(ctx, pip, first, survivors))
    ensures out.blocked == old(out.blocked) + Held(survivors, BatchVerdicts(ctx, pip, first, survivors))
    ensures pip.asked == first + 1 + |survivors|
    ensures pip.calls == old(pip.calls) + SingleCalls(ctx, pip, first + 1, survivors)
    ensures SentPinned(ctx.state, old(pip.calls), pip.calls)
  {
    TakeOneByOne(ctx, pip, survivors, out, BatchVerdicts(ctx, pip, first, survivors));
  }

  lemma SentPinnedChain(state: State, a: seq<Call>, b: seq<Call>, c: seq<Call>)
    requires SentPinned(state, a, b) && SentPinned(state, b, c)
    ensures SentPinned(state, a, c)
  {
  }

  /** The batch dry-run itself. */
  method AskForAll(ctx: Context, pip: Pip, survivors: seq<Outdated>) returns (run: DryRun)
    modifies pip
    ensures run == Attempt(ctx.state, pip, old(pip.asked), Names(survivors)) && pip.asked == old(pip.asked) + 1
    ensures pip.calls == old(pip.calls) +
      CallsOf(pip.answers(old(pip.asked)), Names(survivors), Known(Some(ctx.state), None), None, ctx.cudaIndex)
    ensures SentPinned(ctx.state, old(pip.calls), pip.calls)
  {
    run := pip.ConstraintPreservingDryRun(Names(survivors), Some(ctx.state), None, None, ctx.cudaIndex);
  }

  /** A survivor's own dry-run: it is safe exactly if the run succeeds and changes it. */
  method TakeOne(ctx: Context, pip: Pip, c: Outdated, out: Verdicts, ghost verdict: Option<Reason>)
    requires verdict == RunVerdict(Attempt(ctx.state, pip, pip.asked, [c.name]), c, BothFailed)
    modifies pip, out
    ensures out.safe == old(out.safe) + if verdict.None? then [c] else []
    ensures out.blocked == old(out.blocked) + if verdict.None? then [] else [Blocked(c, verdict.value)]
    ensures pip.asked == old(pip.asked) + 1
    ensures pip.calls == old(pip.calls) +
      CallsOf(pip.answers(old(pip.asked)), [c.name], Known(Some(ctx.state), None), None, ctx.cudaIndex)
    ensures SentPinned(ctx.state, old(pip.calls), pip.calls)
  {
    var one := pip.ConstraintPreservingDryRun([c.name], Some(ctx.state), None, None, ctx.cudaIndex);
    if one.ok && Normalize(c.name) in one.changed {
      out.safe := out.safe + [c];
    } else if !one.ok {
      out.blocked := out.blocked + [Blocked(c, BothFailed)];
    } else {
      out.blocked := out.blocked + [Blocked(c, KeptPinned)];
    }
  }

  lemma SingleCallsNext(ctx: Context, pip: Pip, first: nat, cs: seq<Outdated>, i: nat)
    requires i < |cs|
    ensures SingleCalls(ctx, pip, first, cs[..i + 1]) == SingleCalls(ctx, pip, first, cs[..i]) +
      CallsOf(pip.answers(first + i), [cs[i].name], Known(Some(ctx.state), None), None, ctx.cudaIndex)
  {
    assert cs[..i + 1][..i] == cs[..i];
  }

  /** What has been decided, attempted and called at one moment. */
  datatype Desk = Desk(safe: seq<Outdated>, blocked: seq<Blocked>, asked: nat, calls: seq<Call>)

  /** The survivors before the `i`-th have each had their own dry-run since `start`. */
  ghost predicate TakenAlone(ctx: Context, pip: Pip, survivors: seq<Outdated>, verdicts: seq<Option<Reason>>, i: nat,
      start: Desk, now: Desk)
    requires |survivors| == |verdicts| && i <= |survivors|
  {
    && now.safe == start.safe + Passed(survivors[..i], verdicts[..i])
    && now.blocked == start.blocked + Held(survivors[..i], verdicts[..i])
    && now.asked == start.asked + i
    && now.calls == start.calls + SingleCalls(ctx, pip, start.asked, survivors[..i])
    && SentPinned(ctx.state, start.calls, now.calls)
  }

  lemma TakenAloneNext(ctx: Context, pip: Pip, survivors: seq<Outdated>, verdicts: seq<Option<Reason>>, i: nat,
      start: Desk, before: Desk, now: Desk)
    requires |survivors| == |verdicts| && i < |survivors|
    requires TakenAlone(ctx, pip, survivors, verdicts, i, start, before)
    requires now.safe == before.safe + if verdicts[i].None? then [survivors[i]] else []
    requires now.blocked ==
      before.blocked + if verdicts[i].None? then [] else [Blocked(survivors[i], verdicts[i].value)]
    requires now.asked == before.asked + 1
    requires now.calls == before.calls +
      CallsOf(pip.answers(before.asked), [survivors[i].name], Known(Some(ctx.state), None), None, ctx.cudaIndex)
    requires SentPinned(ctx.state, before.calls, now.calls)
    ensures TakenAlone(ctx, pip, survivors, verdicts, i + 1, start, now)
  {
    SplitNext(survivors, verdicts, i);
    SingleCallsNext(ctx, pip, start.asked, survivors, i);
  }

  /** The batch dry-run failed: each survivor is decided by its own. */
  method TakeOneByOne(ctx: Context, pip: Pip, survivors: seq<Outdated>, out: Verdicts,
      ghost verdicts: seq<Option<Reason>>)
    requires |verdicts| == |survivors|
    requires forall i :: 0 <= i < |survivors| ==>
      verdicts[i] == RunVerdict(Attempt(ctx.state, pip, pip.asked + i, [survivors[i].name]), survivors[i], BothFailed)
    modifies pip, out
    ensures out.safe == old(out.safe) + Passed(survivors, verdicts)
    ensures out.blocked == old(out.blocked) + Held(survivors, verdicts)
    ensures pip.asked == old(pip.asked) + |survivors|
    ensures pip.calls == old(pip.calls) + SingleCalls(ctx, pip, old(pip.asked), survivors)
    ensures SentPinned(ctx.state, old(pip.calls), pip.calls)
  {
    ghost var start := Desk(out.safe, out.blocked, pip.asked, pip.calls);
    for i := 0 to |survivors|
      invariant TakenAlone(ctx, pip, survivors, verdicts, i, start, Desk(out.safe, out.blocked, pip.asked, pip.calls))
    {
      ghost var before := Desk(out.safe, out.blocked, pip.asked, pip.calls);
      TakeOne(ctx, pip, survivors[i], out, verdicts[i]);
      TakenAloneNext(ctx, pip, survivors, verdicts, i, start, before,
        Desk(out.safe, out.blocked, pip.asked, pip.calls));
    }
    assert survivors[..|survivors|] == survivors && verdicts[..|survivors|] == verdicts;
  }

  /** The batch dry-run succeeded: a survivor is safe exactly if the run changes it. */
  method TakeBatch(run: DryRun, survivors: seq<Outdated>, out: Verdicts, ghost verdicts: seq<Option<Reason>>)
    requires run.ok && |verdicts| == |survivors|
    requires forall i :: 0 <= i < |survivors| ==> verdicts[i] == RunVerdict(run, survivors[i], BothFailed)
    modifies out
    ensures out.safe == old(out.safe) + Passed(survivors, verdicts)
    ensures out.blocked == old(out.blocked) + Held(survivors, verdicts)
  {
    for i := 0 to |survivors|
      invariant out.safe == old(out.safe) + Passed(survivors[..i], verdicts[..i])
      invariant out.blocked == old(out.blocked) + Held(survivors[..i], verdicts[..i])
    {
      SplitNext(survivors, verdicts, i);
      if Normalize(survivors[i].name) in run.changed {
        out.safe := out.safe + [survivors[i]];
      } else {
        out.blocked := out.blocked + [Blocked(survivors[i], KeptPinned)];
      }
    }
    assert survivors[..|survivors|] == survivors && verdicts[..|survivors|] == verdicts;
  }

  /** The packages decided so far and the attempts made. */
  datatype Tally = Tally(safe: seq<Outdated>, blocked: seq<Blocked>, asked: nat)

  function TorchStep(ctx: Context, pip: Pip, t: Tally, c: Outdated): Tally {
    var verdict := TorchVerdict(ctx, pip, t.asked, c);
    var vetted := ReverseReason(ctx.packaging, c.name, c.latest, ctx.reverse, TORCH_KEYS).None?;
    Tally(
      if verdict.None? then t.safe + [c] else t.safe,
      if verdict.None? then t.blocked else t.blocked + [Blocked(c, verdict.value)],
      if vetted then t.asked + 1 else t.asked)
  }

  /** The call that vetting one CUDA wheel makes, if the requirements let it come to that. */
  function WheelCall(ctx: Context, pip: Pip, n: nat, c: Outdated): seq<Call> {
    if ReverseReason(ctx.packaging, c.name, c.latest, ctx.reverse, TORCH_KEYS).Some? then []
    else CallsOf(pip.answers(n), [c.name], Known(Some(ctx.state), None), ctx.cudaIndex, None)
  }

  method VetTorch(ctx: Context, pip: Pip, c: Outdated, out: Verdicts)
    modifies pip, out
    ensures Tally(out.safe, out.blocked, pip.asked) ==
      TorchStep(ctx, pip, Tally(old(out.safe), old(out.blocked), old(pip.asked)), c)
    ensures pip.calls == old(pip.calls) + WheelCall(ctx, pip, old(pip.asked), c)
    ensures SentPinned(ctx.state, old(pip.calls), pip.calls)
  {
    var reason := CheckReverseDeps(ctx.packaging, c.name, c.latest, ctx.reverse, TORCH_KEYS);
    if reason.Some? {
      out.blocked := out.blocked + [Blocked(c, reason.value)];
      return;
    }
    var run := pip.ConstraintPreservingDryRun([c.name], Some(ctx.state), None, ctx.cudaIndex, None);
    if run.ok && Normalize(c.name) in run.changed {
      out.safe := out.safe + [c];
    } else if ctx.cudaIndex.GetOr("") == "" {
      out.blocked := out.blocked + [Blocked(c, NoResolution)];
    } else if run.ok {
      out.blocked := out.blocked + [Blocked(c, CudaUnchanged)];
    } else {
      out.blocked := out.blocked + [Blocked(c, CudaFailed)];
    }
  }

  /** The candidates for which `test` answers `wanted`, in order. */
  function Select(cs: seq<Outdated>, test: Outdated -> bool, wanted: bool): seq<Outdated> {
    if cs == [] then []
    else
      var last := cs[|cs| - 1];
      Select(cs[..|cs| - 1], test, wanted) + if test(last) == wanted then [last] else []
  }

  lemma SelectNext(cs: seq<Outdated>, c: Outdated, test: Outdated -> bool, wanted: bool)
    ensures Select(cs + [c], test, wanted) == Select(cs, test, wanted) + if test(c) == wanted then [c] else []
  {
    assert (cs + [c])[..|cs|] == cs;
  }

  lemma {:induction false} SelectPartition(cs: seq<Outdated>, test: Outdated -> bool)
    ensures multiset(Select(cs, test, false)) + multiset(Select(cs, test, true)) == multiset(cs)
  {
    if cs != [] {
      var init, last := cs[..|cs| - 1], cs[|cs| - 1];
      SelectPartition(init, test);
      assert cs == init + [last];
      SelectNext(init, last, test, test(last));
      SelectNext(init, last, test, !test(last));
      assert Select(cs, test, !test(last)) == Select(init, test, !test(last));
    }
  }

  lemma {:induction false} SelectExactly(cs: seq<Outdated>, test: Outdated -> bool, wanted: bool, c: Outdated)
    ensures c in Select(cs, test, wanted) <==> c in cs && test(c) == wanted
  {
    if cs != [] {
      var init, last := cs[..|cs| - 1], cs[|cs| - 1];
      SelectExactly(init, test, wanted, c);
      assert cs == init + [last];
    }
  }

  predicate IsCudaWheel(c: Outdated) {
    c.kind == CUDA_WHEEL
  }

  /** The candidates that are CUDA wheels, or those that are not. */
  function OfKind(cs: seq<Outdated>, cuda: bool): seq<Outdated> {
    Select(cs, IsCudaWheel, cuda)
  }

  /** The requirers whose requirements do not count against `c`. */
  function ExcludedFor(c: Outdated, candidates: seq<Outdated>): set<string> {
    if c.kind == CUDA_WHEEL then TORCH_KEYS
    else LockstepRequirers(Normalize(c.name), Keys(Names(OfKind(candidates, false))))
  }

  /** The keys of the two packages that are upgraded in lockstep. */
  predicate Twins(key: string, other: string) {
    || (key == "pydantic" && other == "pydantic_core")
    || (key == "pydantic_core" && other == "pydantic")
  }

  /**
   * What `requirer` requires does not count against `c`: it is `c` itself; for
   * a CUDA wheel, a torch-family package; for any other candidate, its twin
   * that is such a candidate too.
   */
  ghost predicate Excused(c: Outdated, candidates: seq<Outdated>, requirer: string) {
    || requirer == Normalize(c.name)
    || (c.kind == "wheel-cuda" && (requirer == "torch" || requirer == "torchvision" || requirer == "torchaudio"))
    || (c.kind != "wheel-cuda" && Twins(Normalize(c.name), requirer) && NormalCandidate(candidates, requirer))
  }

  ghost predicate NormalCandidate(candidates: seq<Outdated>, key: string) {
    exists x :: x in candidates && x.kind != "wheel-cuda" && Normalize(x.name) == key
  }

  lemma LockstepExactly(key: string, candidates: set<string>, requirer: string)
    requires Normalize(key) == key
    ensures requirer in LockstepRequirers(key, candidates) <==>
      requirer == key || (Twins(key, requirer) && requirer in candidates)
  {
    assert Normalize("pydantic") == "pydantic";
    assert Normalize("pydantic-core") == "pydantic_core" && Normalize("pydantic_core") == "pydantic_core";
    assert key != "pydantic-core" by { assert Normalize("pydantic-core")[8] == '_'; }
    if Twins(key, requirer) && requirer in candidates {
      assert requirer in CO_DEPENDENT_PAIRS[key];
    }
  }

  lemma NormalKeys(candidates: seq<Outdated>, key: string)
    ensures key in Keys(Names(OfKind(candidates, false))) <==> NormalCandidate(candidates, key)
  {
    var normal := OfKind(candidates, false);
    KeysOfNames(normal, key);
    forall x
      ensures x in normal <==> x in candidates && x.kind != "wheel-cuda"
    {
      SelectExactly(candidates, IsCudaWheel, false, x);
    }
    if NormalCandidate(candidates, key) {
      var x :| x in candidates && x.kind != "wheel-cuda" && Normalize(x.name) == key;
      var k :| 0 <= k < |normal| && normal[k] == x;
      assert Normalize(normal[k].name) == key;
    }
  }

  lemma ExcusedExactly(c: Outdated, candidates: seq<Outdated>, requirer: string)
    ensures Excused(c, candidates, requirer) <==>
      requirer == Normalize(c.name) || requirer in ExcludedFor(c, candidates)
  {
    if c.kind != "wheel-cuda" {
      NormalizeTwice(c.name);
      LockstepExactly(Normalize(c.name), Keys(Names(OfKind(candidates, false))), requirer);
      NormalKeys(candidates, requirer);
    }
  }

  /** The latest version of `c` parses and no edge whose requirer counts forbids it. */
  ghost predicate Allowed(p: Packaging, edges: seq<Edge>, candidates: seq<Outdated>, c: Outdated) {
    && p.validVersion(Public(c.latest))
    && forall e :: e in edges && e.dep == Normalize(c.name) && Forbids(p, e, c) ==>
        Excused(c, candidates, e.from.name)
  }

  lemma AllowedExactly(p: Packaging, edges: seq<Edge>, candidates: seq<Outdated>, c: Outdated)
    ensures RequirementsAllow(p, edges, ExcludedFor(c, candidates), c) <==> Allowed(p, edges, candidates, c)
  {
    var key, exclude := Normalize(c.name), ExcludedFor(c, candidates);
    forall e: Edge | e.dep == key
      ensures e in edges <==> e.from in RequirersOf(edges, key)
      ensures Violates(p, e.from, key, exclude, Public(c.latest)) <==>
        Forbids(p, e, c) && !Excused(c, candidates, e.from.name)
    {
      RequirersAreEdges(edges, key, e.from);
      ExcusedExactly(c, candidates, e.from.name);
    }
    if Allowed(p, edges, candidates, c) {
      forall r | r in RequirersOf(edges, key)
        ensures !Violates(p, r, key, exclude, Public(c.latest))
      {
        var e := Edge(key, r);
        assert e.from == r && e in edges;
      }
    }
    if RequirementsAllow(p, edges, exclude, c) {
      forall e | e in edges && e.dep == key && Forbids(p, e, c)
        ensures Excused(c, candidates, e.from.name)
      {
        assert e.from in RequirersOf(edges, key);
      }
    }
  }

  /** No requirement that counts forbids the public part of `c`'s latest version. */
  ghost predicate RequirementsAllow(p: Packaging, edges: seq<Edge>, exclude: set<string>, c: Outdated) {
    && p.validVersion(Public(c.latest))
    && forall r :: r in RequirersOf(edges, Normalize(c.name)) ==>
      !Violates(p, r, Normalize(c.name), exclude, Public(c.latest))
  }

  /** One of the attempts `lo` to `hi` had `c` among its targets, succeeded, and would change it. */
  ghost predicate Endorsed(state: State, pip: Pip, lo: nat, hi: nat, c: Outdated) {
    exists n: nat, targets :: lo <= n < hi && Endorses(state, pip, n, targets, c)
  }

  ghost predicate Endorses(state: State, pip: Pip, n: nat, targets: seq<string>, c: Outdated) {
    var run := Attempt(state, pip, n, targets);
    c.name in targets && run.ok && Normalize(c.name) in run.changed
  }

  ghost predicate Proven(p: Packaging, edges: seq<Edge>, state: State, pip: Pip, lo: nat, hi: nat,
      candidates: seq<Outdated>, c: Outdated)
  {
    RequirementsAllow(p, edges, ExcludedFor(c, candidates), c) && Endorsed(state, pip, lo, hi, c)
  }

  lemma NoReasonAllows(ctx: Context, edges: seq<Edge>, exclude: set<string>, c: Outdated)
    requires Indexes(ctx.reverse, edges)
    requires ReverseReason(ctx.packaging, c.name, c.latest, ctx.reverse, exclude).None?
    ensures RequirementsAllow(ctx.packaging, edges, exclude, c)
  {
    assert Lookup(ctx.reverse, Normalize(c.name)) == RequirersOf(edges, Normalize(c.name));
  }

  lemma SurvivorIsAllowed(ctx: Context, edges: seq<Edge>, candidates: seq<Outdated>, c: Outdated)
    requires Indexes(ctx.reverse, edges)
    requires c in Passed(OfKind(candidates, false), SurvivorVerdicts(ctx, OfKind(candidates, false)))
    ensures RequirementsAllow(ctx.packaging, edges, ExcludedFor(c, candidates), c)
  {
    var cs := OfKind(candidates, false);
    PassedExactly(cs, SurvivorVerdicts(ctx, cs), c);
    SelectExactly(candidates, IsCudaWheel, false, c);
    NoReasonAllows(ctx, edges, ExcludedFor(c, candidates), c);
  }

  lemma VerdictEndorses(ctx: Context, pip: Pip, first: nat, survivors: seq<Outdated>, i: nat)
    requires i < |survivors| && BatchVerdicts(ctx, pip, first, survivors)[i].None?
    ensures Endorsed(ctx.state, pip, first, first + Attempts(ctx, pip, first, survivors), survivors[i])
  {
    var c := survivors[i];
    assert Names(survivors)[i] == c.name;
    assert Endorses(ctx.state, pip, first, Names(survivors), c) || Endorses(ctx.state, pip, first + 1 + i, [c.name], c);
  }

  lemma BatchIsEndorsed(ctx: Context, pip: Pip, first: nat, survivors: seq<Outdated>, c: Outdated)
    requires c in Passed(survivors, BatchVerdicts(ctx, pip, first, survivors))
    ensures c in survivors
    ensures Endorsed(ctx.state, pip, first, first + Attempts(ctx, pip, first, survivors), c)
  {
    var verdicts := BatchVerdicts(ctx, pip, first, survivors);
    PassedExactly(survivors, verdicts, c);
    var i :| 0 <= i < |survivors| && survivors[i] == c && verdicts[i].None?;
    VerdictEndorses(ctx, pip, first, survivors, i);
  }

  /** Every package of `safe` is proven by the attempts `lo` to `hi`. */
  ghost predicate AllProven(
      p: Packaging, edges: seq<Edge>, state: State, pip: Pip, lo: nat, hi: nat, candidates: seq<Outdated>,
      safe: seq<Outdated>)
  {
    forall c :: c in safe ==> Proven(p, edges, state, pip, lo, hi, candidates, c)
  }

  lemma NormalIsProven(ctx: Context, edges: seq<Edge>, pip: Pip, first: nat, candidates: seq<Outdated>,
      survivors: seq<Outdated>)
    requires Indexes(ctx.reverse, edges)
    requires survivors == Passed(OfKind(candidates, false), SurvivorVerdicts(ctx, OfKind(candidates, false)))
    ensures AllProven(ctx.packaging, edges, ctx.state, pip, first,
      first + Attempts(ctx, pip, first, survivors), candidates,
      Passed(survivors, BatchVerdicts(ctx, pip, first, survivors)))
  {
    forall c | c in Passed(survivors, BatchVerdicts(ctx, pip, first, survivors))
      ensures Proven(ctx.packaging, edges, ctx.state, pip, first,
        first + Attempts(ctx, pip, first, survivors), candidates, c)
    {
      BatchIsEndorsed(ctx, pip, first, survivors, c);
      SurvivorIsAllowed(ctx, edges, candidates, c);
    }
  }

  lemma NormalIsConserved(normal: seq<Outdated>, refusals: seq<Option<Reason>>, survivors: seq<Outdated>,
      verdicts: seq<Option<Reason>>)
    requires |normal| == |refusals| && survivors == Passed(normal, refusals) && |survivors| == |verdicts|
    ensures multiset(Passed(survivors, verdicts)) +
      multiset(Packages(Held(normal, refusals) + Held(survivors, verdicts))) == multiset(normal)
  {
    SplitIsExact(normal, refusals);
    SplitIsExact(survivors, verdicts);
    PackagesOfConcat(Held(normal, refusals), Held(survivors, verdicts));
  }

  /** Block every candidate for the same reason. */
  function BlockAll(cs: seq<Outdated>, reason: Reason): (blocked: seq<Blocked>)
    ensures |blocked| == |cs| && Packages(blocked) == cs
  {
    seq(|cs|, i requires 0 <= i < |cs| => Blocked(cs[i], reason))
  }

  lemma PackagesOfConcat(a: seq<Blocked>, b: seq<Blocked>)
    ensures Packages(a + b) == Packages(a) + Packages(b)
  {
  }

  /** The candidates that are no CUDA wheels and that the requirements allow, in order. */
  function Survivors(ctx: Context, candidates: seq<Outdated>): seq<Outdated> {
    var normal := OfKind(candidates, false);
    Passed(normal, SurvivorVerdicts(ctx, normal))
  }

  function AfterNormal(ctx: Context, pip: Pip, first: nat, candidates: seq<Outdated>): Tally {
    var normal := OfKind(candidates, false);
    var survivors := Passed(normal, SurvivorVerdicts(ctx, normal));
    var verdicts := BatchVerdicts(ctx, pip, first, survivors);
    Tally(
      Passed(survivors, verdicts),
      Held(normal, SurvivorVerdicts(ctx, normal)) + Held(survivors, verdicts),
      first + Attempts(ctx, pip, first, survivors))
  }

  /** The CUDA wheels of `cs`, each in its turn. */
  function AfterTorch(ctx: Context, pip: Pip, t: Tally, cs: seq<Outdated>): Tally {
    if cs == [] then t
    else
      var init := AfterTorch(ctx, pip, t, cs[..|cs| - 1]);
      if cs[|cs| - 1].kind == CUDA_WHEEL then TorchStep(ctx, pip, init, cs[|cs| - 1]) else init
  }

  /** The calls of the CUDA wheels of `cs`, each in its turn. */
  function WheelCalls(ctx: Context, pip: Pip, t: Tally, cs: seq<Outdated>): seq<Call> {
    if cs == [] then []
    else
      var init, c := cs[..|cs| - 1], cs[|cs| - 1];
      WheelCalls(ctx, pip, t, init) +
      (if c.kind == CUDA_WHEEL then WheelCall(ctx, pip, AfterTorch(ctx, pip, t, init).asked, c) else [])
  }

  lemma WheelCallsNext(ctx: Context, pip: Pip, t: Tally, cs: seq<Outdated>, i: nat)
    requires i < |cs|
    ensures WheelCalls(ctx, pip, t, cs[..i + 1]) == WheelCalls(ctx, pip, t, cs[..i]) +
      if cs[i].kind == CUDA_WHEEL then WheelCall(ctx, pip, AfterTorch(ctx, pip, t, cs[..i]).asked, cs[i]) else []
  {
    assert cs[..i + 1][..i] == cs[..i];
  }

  /** The calls of a whole vetting, in order. */
  function VettingCalls(ctx: Context, pip: Pip, first: nat, candidates: seq<Outdated>): seq<Call> {
    NormalCalls(ctx, pip, first, Survivors(ctx, candidates)) +
    WheelCalls(ctx, pip, AfterNormal(ctx, pip, first, candidates), candidates)
  }

  function TallyOf(ctx: Context, pip: Pip, first: nat, candidates: seq<Outdated>): Tally {
    AfterTorch(ctx, pip, AfterNormal(ctx, pip, first, candidates), candidates)
  }

  function Decided(t: Tally): multiset<Outdated> {
    multiset(t.safe) + multiset(Packages(t.blocked))
  }

  lemma TorchStepDecides(ctx: Context, pip: Pip, t: Tally, c: Outdated)
    ensures Decided(TorchStep(ctx, pip, t, c)) == Decided(t) + multiset{c}
  {
    var verdict := TorchVerdict(ctx, pip, t.asked, c);
    if verdict.Some? {
      assert Packages(t.blocked + [Blocked(c, verdict.value)]) == Packages(t.blocked) + [c];
    }
  }

  lemma {:induction false} TorchDecides(ctx: Context, pip: Pip, t: Tally, cs: seq<Outdated>)
    ensures Decided(AfterTorch(ctx, pip, t, cs)) == Decided(t) + multiset(OfKind(cs, true))
  {
    if cs != [] {
      TorchDecides(ctx, pip, t, cs[..|cs| - 1]);
      if cs[|cs| - 1].kind == CUDA_WHEEL {
        TorchStepDecides(ctx, pip, AfterTorch(ctx, pip, t, cs[..|cs| - 1]), cs[|cs| - 1]);
      }
    }
  }

  /** Safe plus blocked is a permutation of the candidates. */
  lemma TallyIsExact(ctx: Context, pip: Pip, first: nat, candidates: seq<Outdated>)
    ensures Decided(TallyOf(ctx, pip, first, candidates)) == multiset(candidates)
  {
    var normal := OfKind(candidates, false);
    var survivors := Passed(normal, SurvivorVerdicts(ctx, normal));
    NormalIsConserved(normal, SurvivorVerdicts(ctx, normal), survivors, BatchVerdicts(ctx, pip, first, survivors));
    TorchDecides(ctx, pip, AfterNormal(ctx, pip, first, candidates), candidates);
    SelectPartition(candidates, IsCudaWheel);
  }

  lemma ProvenLater(p: Packaging, edges: seq<Edge>, state: State, pip: Pip, lo: nat, mid: nat, hi: nat,
      candidates: seq<Outdated>, safe: seq<Outdated>)
    requires mid <= hi && AllProven(p, edges, state, pip, lo, mid, candidates, safe)
    ensures AllProven(p, edges, state, pip, lo, hi, candidates, safe)
  {
    forall c | c in safe
      ensures Proven(p, edges, state, pip, lo, hi, candidates, c)
    {
      assert Proven(p, edges, state, pip, lo, mid, candidates, c);
    }
  }

  lemma TorchIsProven(ctx: Context, edges: seq<Edge>, pip: Pip, lo: nat, n: nat, candidates: seq<Outdated>, c: Outdated)
    requires Indexes(ctx.reverse, edges) && c.kind == CUDA_WHEEL && lo <= n
    requires TorchVerdict(ctx, pip, n, c).None?
    ensures Proven(ctx.packaging, edges, ctx.state, pip, lo, n + 1, candidates, c)
  {
    NoReasonAllows(ctx, edges, TORCH_KEYS, c);
    assert Endorses(ctx.state, pip, n, [c.name], c);
  }

  lemma {:induction false} TorchKeepsProven(
      ctx: Context, edges: seq<Edge>, pip: Pip, lo: nat, t: Tally, cs: seq<Outdated>, candidates: seq<Outdated>)
    requires Indexes(ctx.reverse, edges) && lo <= t.asked
    requires AllProven(ctx.packaging, edges, ctx.state, pip, lo, t.asked, candidates, t.safe)
    ensures AfterTorch(ctx, pip, t, cs).asked >= t.asked
    ensures AllProven(ctx.packaging, edges, ctx.state, pip, lo, AfterTorch(ctx, pip, t, cs).asked, candidates,
      AfterTorch(ctx, pip, t, cs).safe)
  {
    if cs != [] {
      var init, c := AfterTorch(ctx, pip, t, cs[..|cs| - 1]), cs[|cs| - 1];
      TorchKeepsProven(ctx, edges, pip, lo, t, cs[..|cs| - 1], candidates);
      if c.kind == CUDA_WHEEL {
        ProvenLater(ctx.packaging, edges, ctx.state, pip, lo, init.asked, TorchStep(ctx, pip, init, c).asked,
          candidates, init.safe);
        if TorchVerdict(ctx, pip, init.asked, c).None? {
          TorchIsProven(ctx, edges, pip, lo, init.asked, candidates, c);
        }
      }
    }
  }

  /** Every safe package is allowed by the requirements that count and changed by a successful dry-run. */
  lemma TallyIsProven(ctx: Context, edges: seq<Edge>, pip: Pip, first: nat, candidates: seq<Outdated>)
    requires Indexes(ctx.reverse, edges)
    ensures var t := TallyOf(ctx, pip, first, candidates);
            t.asked >= first && AllProven(ctx.packaging, edges, ctx.state, pip, first, t.asked, candidates, t.safe)
  {
    var normal := OfKind(candidates, false);
    NormalIsProven(ctx, edges, pip, first, candidates, Passed(normal, SurvivorVerdicts(ctx, normal)));
    TorchKeepsProven(ctx, edges, pip, first, AfterNormal(ctx, pip, first, candidates), candidates, candidates);
  }

  /** What the venv answers when a classification starts; None where pip's JSON is unreadable. */
  datatype Inventory = Inventory(valid: bool, installed: Option<State>, inspected: Option<seq<Meta>>) {
    predicate Readable() {
      valid && installed.Some? && inspected.Some?
    }
  }

  function ContextOf(p: Packaging, inventory: Inventory, cudaIndex: Option<string>): Context
    requires inventory.Readable()
  {
    Context(p, inventory.installed.value, ReverseOf(Edges(p, inventory.inspected.value)), cudaIndex)
  }

  /** The outcome of a classification whose first dry-run attempt is number `n`. */
  function Classified(p: Packaging, pip: Pip, inventory: Inventory, candidates: seq<Outdated>,
      cudaIndex: Option<string>, n: nat): Tally
  {
    if candidates == [] || !inventory.valid then Tally([], BlockAll(candidates, InvalidVenv), n)
    else if !inventory.Readable() then Tally([], BlockAll(candidates, StateUnavailable), n)
    else TallyOf(ContextOf(p, inventory, cudaIndex), pip, n, candidates)
  }

  /** The calls of a classification, in order. */
  function ClassifiedCalls(p: Packaging, pip: Pip, inventory: Inventory, candidates: seq<Outdated>,
      cudaIndex: Option<string>, n: nat): seq<Call>
  {
    if candidates == [] || !inventory.Readable() then []
    else VettingCalls(ContextOf(p, inventory, cudaIndex), pip, n, candidates)
  }

  /**
   * `safe` and `blocked` are an exact partition of the candidates; nothing is
   * safe unless the venv could be read, and every safe candidate is allowed by
   * the requirements that count and changed by a successful dry-run among the
   * attempts `lo` to `hi`.
   */
  ghost predicate Vetted(p: Packaging, pip: Pip, inventory: Inventory, candidates: seq<Outdated>, lo: nat, hi: nat,
      safe: seq<Outdated>, blocked: seq<Blocked>)
  {
    && lo <= hi
    && multiset(safe) + multiset(Packages(blocked)) == multiset(candidates)
    && (!inventory.Readable() ==> safe == [])
    && (inventory.Readable() ==>
          AllProven(p, Edges(p, inventory.inspected.value), inventory.installed.value, pip, lo, hi, candidates, safe))
  }

  lemma ClassifiedIsVetted(p: Packaging, pip: Pip, inventory: Inventory, candidates: seq<Outdated>,
      cudaIndex: Option<string>, n: nat)
    ensures var t := Classified(p, pip, inventory, candidates, cudaIndex, n);
      Vetted(p, pip, inventory, candidates, n, t.asked, t.safe, t.blocked)
  {
    if candidates != [] && inventory.Readable() {
      var ctx := ContextOf(p, inventory, cudaIndex);
      ReverseIndexes(Edges(p, inventory.inspected.value));
      TallyIsExact(ctx, pip, n, candidates);
      TallyIsProven(ctx, Edges(p, inventory.inspected.value), pip, n, candidates);
    }
  }

  /**
   * Split the candidates into safe and blocked: an exact partition on every
   * path, with nothing safe unless the venv could be read, and every safe
   * candidate allowed by the requirements that count and changed by a
   * successful dry-run that pinned everything else.
   */
  method Classify(p: Packaging, pip: Pip, inventory: Inventory, candidates: seq<Outdated>, cudaIndex: Option<string>)
    returns (safe: seq<Outdated>, blocked: seq<Blocked>)
    modifies pip
    ensures Tally(safe, blocked, pip.asked) == Classified(p, pip, inventory, candidates, cudaIndex, old(pip.asked))
    ensures Vetted(p, pip, inventory, candidates, old(pip.asked), pip.asked, safe, blocked)
    ensures pip.calls == old(pip.calls) +
      ClassifiedCalls(p, pip, inventory, candidates, cudaIndex, old(pip.asked))
    ensures inventory.Readable() ==> SentPinned(inventory.installed.value, old(pip.calls), pip.calls)
  {
    ClassifiedIsVetted(p, pip, inventory, candidates, cudaIndex, pip.asked);
    if candidates == [] || !inventory.valid {
      return [], BlockAll(candidates, InvalidVenv);
    }
    if inventory.installed.None? || inventory.inspected.None? {
      return [], BlockAll(candidates, StateUnavailable);
    }
    var reverse := GetReverseDependencies(p, inventory.inspected.value);
    IndexIsUnique(reverse, Edges(p, inventory.inspected.value));
    var ctx := Context(p, inventory.installed.value, reverse, cudaIndex);
    var out := new Verdicts();
    VetAll(ctx, pip, candidates, out);
    safe, blocked := out.safe, out.blocked;
  }

  method VetNormalFirst(ctx: Context, pip: Pip, candidates: seq<Outdated>, out: Verdicts)
    requires out.safe == [] && out.blocked == []
    modifies pip, out
    ensures Tally(out.safe, out.blocked, pip.asked) == AfterNormal(ctx, pip, old(pip.asked), candidates)
    ensures pip.calls == old(pip.calls) + NormalCalls(ctx, pip, old(pip.asked), Survivors(ctx, candidates))
    ensures SentPinned(ctx.state, old(pip.calls), pip.calls)
  {
    var normal := OfKind(candidates, false);
    var survivors := VetNormal(ctx, pip, normal, out);
    ghost var refused := Held(normal, SurvivorVerdicts(ctx, normal));
    ghost var verdicts := BatchVerdicts(ctx, pip, old(pip.asked), survivors);
    NothingBefore(out.safe, Passed(survivors, verdicts), out.blocked, refused, Held(survivors, verdicts));
  }

  lemma NothingBefore(safe: seq<Outdated>, passed: seq<Outdated>, blocked: seq<Blocked>, refused: seq<Blocked>,
      held: seq<Blocked>)
    requires safe == [] + passed && blocked == [] + refused + held
    ensures safe == passed && blocked == refused + held
  {
  }

  method VetAll(ctx: Context, pip: Pip, candidates: seq<Outdated>, out: Verdicts)
    requires out.safe == [] && out.blocked == []
    modifies pip, out
    ensures Tally(out.safe, out.blocked, pip.asked) == TallyOf(ctx, pip, old(pip.asked), candidates)
    ensures pip.calls == old(pip.calls) + VettingCalls(ctx, pip, old(pip.asked), candidates)
    ensures SentPinned(ctx.state, old(pip.calls), pip.calls)
  {
    ghost var before := pip.calls;
    VetNormalFirst(ctx, pip, candidates, out);
    ghost var middle := pip.calls;
    VetCudaWheels(ctx, pip, candidates, out);
    SentPinnedChain(ctx.state, before, middle, pip.calls);
    Chained(before, NormalCalls(ctx, pip, old(pip.asked), Survivors(ctx, candidates)),
      WheelCalls(ctx, pip, AfterNormal(ctx, pip, old(pip.asked), candidates), candidates));
  }

  lemma Chained<T>(a: seq<T>, b: seq<T>, c: seq<T>)
    ensures a + b + c == a + (b + c)
  {
  }

  method VetCudaWheels(ctx: Context, pip: Pip, candidates: seq<Outdated>, out: Verdicts)
    modifies pip, out
    ensures Tally(out.safe, out.blocked, pip.asked) ==
      AfterTorch(ctx, pip, Tally(old(out.safe), old(out.blocked), old(pip.asked)), candidates)
    ensures pip.calls == old(pip.calls) +
      WheelCalls(ctx, pip, Tally(old(out.safe), old(out.blocked), old(pip.asked)), candidates)
    ensures SentPinned(ctx.state, old(pip.calls), pip.calls)
  {
    ghost var t := Tally(out.safe, out.blocked, pip.asked);
    for i := 0 to |candidates|
      invariant Tally(out.safe, out.blocked, pip.asked) == AfterTorch(ctx, pip, t, candidates[..i])
      invariant pip.calls == old(pip.calls) + WheelCalls(ctx, pip, t, candidates[..i])
      invariant SentPinned(ctx.state, old(pip.calls), pip.calls)
    {
      assert candidates[..i + 1][..i] == candidates[..i];
      WheelCallsNext(ctx, pip, t, candidates, i);
      if candidates[i].kind == CUDA_WHEEL {
        VetTorch(ctx, pip, candidates[i], out);
      }
    }
    assert candidates[..|candidates|] == candidates;
  }

  // What the safe set means for the environment

  /** The environment after setting every package of `safe` to its latest version, in order. */
  function SetToLatest(env: State, safe: seq<Outdated>): State {
    if safe == [] then env
    else SetToLatest(env, safe[..|safe| - 1])[Normalize(safe[|safe| - 1].name) := safe[|safe| - 1].latest]
  }

  /** The last package of `safe` with this key. */
  function LatestOf(safe: seq<Outdated>, key: string): (c: Option<Outdated>)
    ensures c.Some? ==> c.value in safe && Normalize(c.value.name) == key
    ensures c.None? ==> forall x :: x in safe ==> Normalize(x.name) != key
  {
    if safe == [] then None
    else if Normalize(safe[|safe| - 1].name) == key then Some(safe[|safe| - 1])
    else LatestOf(safe[..|safe| - 1], key)
  }

  lemma {:induction false} SetToLatestExactly(env: State, safe: seq<Outdated>, key: string)
    ensures key in SetToLatest(env, safe) <==> key in env || LatestOf(safe, key).Some?
    ensures key in SetToLatest(env, safe) ==>
      SetToLatest(env, safe)[key] == if LatestOf(safe, key).Some? then LatestOf(safe, key).value.latest else env[key]
  {
    if safe != [] {
      SetToLatestExactly(env, safe[..|safe| - 1], key);
    }
  }

  lemma KeysOfNames(cs: seq<Outdated>, key: string)
    ensures key in Keys(Names(cs)) <==> exists k :: 0 <= k < |cs| && Normalize(cs[k].name) == key
  {
    if k :| 0 <= k < |cs| && Normalize(cs[k].name) == key {
      assert Names(cs)[k] in Names(cs);
    }
    if key in Keys(Names(cs)) {
      var name :| name in Names(cs) && Normalize(name) == key;
      var k :| 0 <= k < |Names(cs)| && Names(cs)[k] == name;
      assert Normalize(cs[k].name) == key;
    }
  }

  /** `e` is satisfied in `env`; an empty or unparsable specifier asks for presence only. */
  predicate Met(p: Packaging, env: State, e: Edge) {
    e.dep in env && (e.from.spec == "" || !p.validSpec(e.from.spec) || p.fits(e.from.spec, Public(env[e.dep])))
  }

  ghost predicate Consistent(p: Packaging, edges: seq<Edge>, env: State) {
    forall e :: e in edges ==> Met(p, env, e)
  }

  /** The specifier of `e` forbids the latest version of `c`. */
  predicate Forbids(p: Packaging, e: Edge, c: Outdated) {
    e.from.spec != "" && p.validSpec(e.from.spec) && !p.fits(e.from.spec, Public(c.latest))
  }

  /**
   * From a consistent environment, setting packages to their latest versions
   * breaks the requirement `e` of a package that is not upgraded exactly if
   * its specifier forbids the version of the last one set. If the
   * requirements were checked, its requirer is one of those that do not count.
   */
  lemma UpgradesBreakExactly(p: Packaging, edges: seq<Edge>, env: State, safe: seq<Outdated>, e: Edge,
      exclude: Option<set<string>>)
    requires Consistent(p, edges, env)
    requires e in edges && e.from.name !in Keys(Names(safe))
    requires LatestOf(safe, e.dep).Some? && exclude.Some? ==>
      RequirementsAllow(p, edges, exclude.value, LatestOf(safe, e.dep).value)
    ensures !Met(p, SetToLatest(env, safe), e) <==>
      && LatestOf(safe, e.dep).Some? && Forbids(p, e, LatestOf(safe, e.dep).value)
      && (exclude.Some? ==> e.from.name in exclude.value)
  {
    SetToLatestExactly(env, safe, e.dep);
    assert Met(p, env, e);
    if LatestOf(safe, e.dep).Some? && exclude.Some? {
      var c := LatestOf(safe, e.dep).value;
      KeysOfNames(safe, e.from.name);
      RequirersAreEdges(edges, e.dep, e.from);
      assert !Violates(p, e.from, e.dep, exclude.value, Public(c.latest));
    }
  }

  // What a classification decides, from its inputs alone

  /** A candidate whose new version a package that counts forbids, or cannot parse, is never safe. */
  lemma ForbiddenIsNeverSafe(p: Packaging, pip: Pip, inventory: Inventory, candidates: seq<Outdated>,
      cudaIndex: Option<string>, n: nat, c: Outdated)
    requires inventory.Readable() && !Allowed(p, Edges(p, inventory.inspected.value), candidates, c)
    ensures c !in Classified(p, pip, inventory, candidates, cudaIndex, n).safe
  {
    ClassifiedIsVetted(p, pip, inventory, candidates, cudaIndex, n);
    var t, edges := Classified(p, pip, inventory, candidates, cudaIndex, n), Edges(p, inventory.inspected.value);
    if c in t.safe {
      assert Proven(p, edges, inventory.installed.value, pip, n, t.asked, candidates, c);
      AllowedExactly(p, edges, candidates, c);
    }
  }

  /**
   * From a consistent environment, setting every package a classification
   * calls safe to its latest version breaks a requirement of a package that is
   * not upgraded exactly if its specifier forbids that version and its
   * requirer is excused.
   */
  lemma SafeUpgradesBreakExactly(p: Packaging, pip: Pip, inventory: Inventory, candidates: seq<Outdated>,
      cudaIndex: Option<string>, n: nat, env: State, e: Edge)
    requires inventory.Readable()
    requires var edges := Edges(p, inventory.inspected.value); e in edges && Consistent(p, edges, env)
    requires e.from.name !in Keys(Names(Classified(p, pip, inventory, candidates, cudaIndex, n).safe))
    ensures var safe := Classified(p, pip, inventory, candidates, cudaIndex, n).safe;
      var last := LatestOf(safe, e.dep);
      !Met(p, SetToLatest(env, safe), e) <==>
        last.Some? && Forbids(p, e, last.value) && Excused(last.value, candidates, e.from.name)
  {
    var edges := Edges(p, inventory.inspected.value);
    var safe := Classified(p, pip, inventory, candidates, cudaIndex, n).safe;
    var last := LatestOf(safe, e.dep);
    if last.Some? {
      if !Allowed(p, edges, candidates, last.value) {
        ForbiddenIsNeverSafe(p, pip, inventory, candidates, cudaIndex, n, last.value);
      }
      AllowedExactly(p, edges, candidates, last.value);
      ExcusedExactly(last.value, candidates, e.from.name);
      KeysOfNames(safe, e.from.name);
    }
    UpgradesBreakExactly(p, edges, env, safe, e,
      if last.Some? then Some(ExcludedFor(last.value, candidates)) else None);
  }

  lemma SurvivesExactly(ctx: Context, edges: seq<Edge>, candidates: seq<Outdated>, c: Outdated)
    requires Indexes(ctx.reverse, edges)
    ensures c in Survivors(ctx, candidates) <==>
      c in candidates && c.kind != "wheel-cuda" && Allowed(ctx.packaging, edges, candidates, c)
  {
    var normal := OfKind(candidates, false);
    var verdicts := SurvivorVerdicts(ctx, normal);
    PassedExactly(normal, verdicts, c);
    SelectExactly(candidates, IsCudaWheel, false, c);
    AllowedExactly(ctx.packaging, edges, candidates, c);
    assert Lookup(ctx.reverse, Normalize(c.name)) == RequirersOf(edges, Normalize(c.name));
    if c in normal {
      var i :| 0 <= i < |normal| && normal[i] == c;
      assert verdicts[i].None? <==> RequirementsAllow(ctx.packaging, edges, ExcludedFor(c, candidates), c);
    }
  }

  /** Which report decides the `i`-th survivor: the batch's, or its own when the batch has none. */
  function DecidedBy(state: State, pip: Pip, n: nat, i: nat): Answer {
    var batch := pip.answers(n);
    if batch.VenvGone? || (batch.Report? && state != map[]) then batch else pip.answers(n + 1 + i)
  }

  lemma BatchDecides(ctx: Context, pip: Pip, n: nat, survivors: seq<Outdated>, i: nat)
    requires i < |survivors|
    ensures BatchVerdicts(ctx, pip, n, survivors)[i].None? <==>
      ReportChanges(ctx.state, DecidedBy(ctx.state, pip, n, i), Normalize(survivors[i].name))
  {
    AttemptChanges(ctx.state, pip, n, Names(survivors), Normalize(survivors[i].name));
    AttemptChanges(ctx.state, pip, n + 1 + i, [survivors[i].name], Normalize(survivors[i].name));
  }

  /**
   * A candidate that is no CUDA wheel is safe exactly if the requirements
   * allow it and the report that decides it changes it.
   */
  lemma SafeExactly(p: Packaging, pip: Pip, inventory: Inventory, candidates: seq<Outdated>,
      cudaIndex: Option<string>, n: nat, c: Outdated)
    requires inventory.Readable() && c.kind != "wheel-cuda"
    ensures var ctx := ContextOf(p, inventory, cudaIndex);
      var survivors := Survivors(ctx, candidates);
      && (c in survivors <==> c in candidates && Allowed(p, Edges(p, inventory.inspected.value), candidates, c))
      && (c in Classified(p, pip, inventory, candidates, cudaIndex, n).safe <==>
          exists i :: 0 <= i < |survivors| && survivors[i] == c &&
            ReportChanges(inventory.installed.value, DecidedBy(inventory.installed.value, pip, n, i),
              Normalize(c.name)))
  {
    var ctx := ContextOf(p, inventory, cudaIndex);
    var survivors := Survivors(ctx, candidates);
    ReverseIndexes(Edges(p, inventory.inspected.value));
    SurvivesExactly(ctx, Edges(p, inventory.inspected.value), candidates, c);
    if candidates == [] {
      assert OfKind(candidates, false) == [];
    } else {
      var verdicts := BatchVerdicts(ctx, pip, n, survivors);
      TorchAddsOnlyWheels(ctx, pip, AfterNormal(ctx, pip, n, candidates), candidates, c);
      PassedExactly(survivors, verdicts, c);
      forall i | 0 <= i < |survivors|
        ensures verdicts[i].None? <==>
          ReportChanges(ctx.state, DecidedBy(ctx.state, pip, n, i), Normalize(survivors[i].name))
      {
        BatchDecides(ctx, pip, n, survivors, i);
      }
    }
  }

  lemma {:induction false} TorchAddsOnlyWheels(ctx: Context, pip: Pip, t: Tally, cs: seq<Outdated>, c: Outdated)
    requires c.kind != "wheel-cuda"
    ensures c in AfterTorch(ctx, pip, t, cs).safe <==> c in t.safe
  {
    if cs != [] {
      TorchAddsOnlyWheels(ctx, pip, t, cs[..|cs| - 1], c);
    }
  }

  lemma {:induction false} HeldExactly(cs: seq<Outdated>, verdicts: seq<Option<Reason>>, b: Blocked)
    requires |cs| == |verdicts|
    ensures b in Held(cs, verdicts) <==>
      exists i :: 0 <= i < |cs| && cs[i] == b.pkg && verdicts[i] == Some(b.reason)
  {
    if cs != [] {
      var n := |cs| - 1;
      HeldExactly(cs[..n], verdicts[..n], b);
      if i :| 0 <= i < n && cs[..n][i] == b.pkg && verdicts[..n][i] == Some(b.reason) {
        assert cs[i] == b.pkg && verdicts[i] == Some(b.reason);
      }
      if i :| 0 <= i < |cs| && cs[i] == b.pkg && verdicts[i] == Some(b.reason) {
        assert i < n ==> cs[..n][i] == b.pkg && verdicts[..n][i] == Some(b.reason);
      }
    }
  }

  /** `from` counts against `c` and forbids its latest version. */
  ghost predicate Opposes(p: Packaging, edges: seq<Edge>, candidates: seq<Outdated>, c: Outdated, from: Requirer) {
    var e := Edge(Normalize(c.name), from);
    e in edges && Forbids(p, e, c) && !Excused(c, candidates, from.name)
  }

  /** Why a CUDA wheel is blocked. */
  lemma WheelSaysWhy(ctx: Context, edges: seq<Edge>, pip: Pip, n: nat, candidates: seq<Outdated>, c: Outdated)
    requires Indexes(ctx.reverse, edges) && c.kind == "wheel-cuda" && TorchVerdict(ctx, pip, n, c).Some?
    ensures var ran := pip.answers(n).VenvGone? || (pip.answers(n).Report? && ctx.state != map[]);
      var noIndex := ctx.cudaIndex == None || ctx.cudaIndex == Some("");
      match TorchVerdict(ctx, pip, n, c).value
      case BadVersion => !ctx.packaging.validVersion(Public(c.latest))
      case Required(from) => Opposes(ctx.packaging, edges, candidates, c, from)
      case NoResolution => noIndex
      case CudaUnchanged => !noIndex && ran
      case CudaFailed => !noIndex && !ran
      case _ => false
  {
    RefusalSaysWhy(ctx, edges, candidates, c);
    AttemptChanges(ctx.state, pip, n, [c.name], Normalize(c.name));
  }

  /** Without a readable venv every candidate is blocked, in order, and the reason says what is missing. */
  lemma UnreadableSaysWhy(p: Packaging, pip: Pip, inventory: Inventory, candidates: seq<Outdated>,
      cudaIndex: Option<string>, n: nat)
    requires !inventory.Readable()
    ensures var t := Classified(p, pip, inventory, candidates, cudaIndex, n);
      && t.safe == [] && |t.blocked| == |candidates| && t.asked == n
      && forall i :: 0 <= i < |candidates| ==>
          t.blocked[i] == Blocked(candidates[i], if inventory.valid then StateUnavailable else InvalidVenv)
  {
  }

  /** What a refusal before any dry-run says is so. */
  lemma RefusalSaysWhy(ctx: Context, edges: seq<Edge>, candidates: seq<Outdated>, c: Outdated)
    requires Indexes(ctx.reverse, edges)
    ensures var reason := ReverseReason(ctx.packaging, c.name, c.latest, ctx.reverse, ExcludedFor(c, candidates));
      && (reason == Some(BadVersion) <==> !ctx.packaging.validVersion(Public(c.latest)))
      && (reason.None? || reason == Some(BadVersion) ||
          (reason.value.Required? && Opposes(ctx.packaging, edges, candidates, c, reason.value.from)))
  {
    var key := Normalize(c.name);
    assert Lookup(ctx.reverse, key) == RequirersOf(edges, key);
    var reason := ReverseReason(ctx.packaging, c.name, c.latest, ctx.reverse, ExcludedFor(c, candidates));
    if reason.Some? && reason.value.Required? {
      RequirersAreEdges(edges, key, reason.value.from);
      ExcusedExactly(c, candidates, reason.value.from.name);
    }
  }

  /**
   * Why a candidate that is no CUDA wheel is blocked: its version does not
   * parse, a package that counts opposes it, or the report that decides it
   * leaves it alone, or there is no such report.
   */
  lemma BlockedSaysWhy(ctx: Context, edges: seq<Edge>, pip: Pip, n: nat, candidates: seq<Outdated>, b: Blocked)
    requires Indexes(ctx.reverse, edges) && b.pkg.kind != "wheel-cuda"
    requires b in TallyOf(ctx, pip, n, candidates).blocked
    ensures match b.reason
      case BadVersion => !ctx.packaging.validVersion(Public(b.pkg.latest))
      case Required(from) => Opposes(ctx.packaging, edges, candidates, b.pkg, from)
      case KeptPinned => Allowed(ctx.packaging, edges, candidates, b.pkg)
      case BothFailed =>
        && Allowed(ctx.packaging, edges, candidates, b.pkg)
        && (ctx.state == map[] || (!pip.answers(n).Report? && !pip.answers(n).VenvGone?))
      case _ => false
  {
    WheelsBlockOnlyWheels(ctx, pip, AfterNormal(ctx, pip, n, candidates), candidates, b);
    if b in Held(OfKind(candidates, false), SurvivorVerdicts(ctx, OfKind(candidates, false))) {
      RefusedSaysWhy(ctx, edges, candidates, b);
    } else {
      LeftSaysWhy(ctx, edges, pip, n, candidates, b);
    }
  }

  lemma RefusedSaysWhy(ctx: Context, edges: seq<Edge>, candidates: seq<Outdated>, b: Blocked)
    requires Indexes(ctx.reverse, edges) && b.pkg.kind != "wheel-cuda"
    requires b in Held(OfKind(candidates, false), SurvivorVerdicts(ctx, OfKind(candidates, false)))
    ensures (b.reason == BadVersion && !ctx.packaging.validVersion(Public(b.pkg.latest))) ||
      (b.reason.Required? && Opposes(ctx.packaging, edges, candidates, b.pkg, b.reason.from))
  {
    HeldExactly(OfKind(candidates, false), SurvivorVerdicts(ctx, OfKind(candidates, false)), b);
    RefusalSaysWhy(ctx, edges, candidates, b.pkg);
  }

  lemma LeftSaysWhy(ctx: Context, edges: seq<Edge>, pip: Pip, n: nat, candidates: seq<Outdated>, b: Blocked)
    requires Indexes(ctx.reverse, edges)
    requires var survivors := Survivors(ctx, candidates); b in Held(survivors, BatchVerdicts(ctx, pip, n, survivors))
    ensures Allowed(ctx.packaging, edges, candidates, b.pkg)
    ensures b.reason == KeptPinned || (b.reason == BothFailed &&
      (ctx.state == map[] || (!pip.answers(n).Report? && !pip.answers(n).VenvGone?)))
  {
    var survivors := Survivors(ctx, candidates);
    LeftReason(ctx, pip, n, survivors, b);
    SurvivesExactly(ctx, edges, candidates, b.pkg);
  }

  lemma LeftReason(ctx: Context, pip: Pip, n: nat, survivors: seq<Outdated>, b: Blocked)
    requires b in Held(survivors, BatchVerdicts(ctx, pip, n, survivors))
    ensures b.pkg in survivors
    ensures b.reason == KeptPinned || (b.reason == BothFailed &&
      (ctx.state == map[] || (!pip.answers(n).Report? && !pip.answers(n).VenvGone?)))
  {
    HeldExactly(survivors, BatchVerdicts(ctx, pip, n, survivors), b);
    AttemptChanges(ctx.state, pip, n, Names(survivors), Normalize(b.pkg.name));
  }

  lemma {:induction false} WheelsBlockOnlyWheels(ctx: Context, pip: Pip, t: Tally, cs: seq<Outdated>, b: Blocked)
    requires b.pkg.kind != "wheel-cuda"
    ensures b in AfterTorch(ctx, pip, t, cs).blocked <==> b in t.blocked
  {
    if cs != [] {
      WheelsBlockOnlyWheels(ctx, pip, t, cs[..|cs| - 1], b);
    }
  }

  /** A call pins exactly what is installed and not asked for, at the installed versions. */
  ghost predicate PinsTheRest(state: State, call: Call) {
    && (forall key :: key in call.constraints <==>
      key in state && forall t :: t in call.targets ==> Normalize(t) != key)
    && (forall key :: key in call.constraints ==> call.constraints[key] == state[key])
  }

  lemma CallPins(a: Answer, targets: seq<string>, state: State, index: Option<string>, extraIndex: Option<string>)
    ensures var calls := CallsOf(a, targets, Known(Some(state), None), index, extraIndex);
      && (calls == [] <==> targets == [] || state == map[] || a.VenvGone? || a.NoConstraintsFile?)
      && (calls != [] ==>
            && |calls| == 1 && calls[0].targets == targets && PinsTheRest(state, calls[0])
            && calls[0].index == index && calls[0].extraIndex == extraIndex)
  {
    var calls := CallsOf(a, targets, Known(Some(state), None), index, extraIndex);
    if calls != [] {
      forall key
        ensures key in calls[0].constraints <==> key in state && forall t :: t in targets ==> Normalize(t) != key
      {
        if key in Keys(targets) {
          var t :| t in targets && Normalize(t) == key;
        }
      }
    }
  }

  /** A call of the vetting of normal candidates: all survivors or one, on the package index plus the CUDA one. */
  ghost predicate AsksForSurvivors(ctx: Context, survivors: seq<Outdated>, call: Call) {
    && call.index == None && call.extraIndex == ctx.cudaIndex && PinsTheRest(ctx.state, call)
    && (call.targets == Names(survivors) || exists c :: c in survivors && call.targets == [c.name])
  }

  /** A call of the vetting of one CUDA wheel, on the CUDA index alone. */
  ghost predicate AsksForWheel(ctx: Context, candidates: seq<Outdated>, call: Call) {
    && call.index == ctx.cudaIndex && call.extraIndex == None && PinsTheRest(ctx.state, call)
    && exists c :: c in candidates && c.kind == "wheel-cuda" && call.targets == [c.name]
  }

  lemma {:induction false} SingleCallsAsk(ctx: Context, pip: Pip, first: nat, cs: seq<Outdated>,
      survivors: seq<Outdated>, call: Call)
    requires (forall c :: c in cs ==> c in survivors) && call in SingleCalls(ctx, pip, first, cs)
    ensures AsksForSurvivors(ctx, survivors, call)
  {
    var n := |cs| - 1;
    CallPins(pip.answers(first + n), [cs[n].name], ctx.state, None, ctx.cudaIndex);
    assert cs[n] in survivors;
    if call in SingleCalls(ctx, pip, first, cs[..n]) {
      SingleCallsAsk(ctx, pip, first, cs[..n], survivors, call);
    }
  }

  lemma {:induction false} WheelCallsAsk(ctx: Context, pip: Pip, t: Tally, cs: seq<Outdated>,
      candidates: seq<Outdated>, call: Call)
    requires (forall c :: c in cs ==> c in candidates) && call in WheelCalls(ctx, pip, t, cs)
    ensures AsksForWheel(ctx, candidates, call)
  {
    var n := |cs| - 1;
    CallPins(pip.answers(AfterTorch(ctx, pip, t, cs[..n]).asked), [cs[n].name], ctx.state, ctx.cudaIndex, None);
    assert cs[n] in candidates;
    if call in WheelCalls(ctx, pip, t, cs[..n]) {
      WheelCallsAsk(ctx, pip, t, cs[..n], candidates, call);
    }
  }

  /**
   * What a classification asks pip: first, unless it cannot be asked, all
   * survivors at once; and no call but of the two kinds above.
   */
  lemma CallsExactly(ctx: Context, pip: Pip, n: nat, candidates: seq<Outdated>)
    ensures var calls, survivors := VettingCalls(ctx, pip, n, candidates), Survivors(ctx, candidates);
      && (forall call :: call in calls ==>
            AsksForSurvivors(ctx, survivors, call) || AsksForWheel(ctx, candidates, call))
      && (survivors != [] && ctx.state != map[] && !pip.answers(n).VenvGone? && !pip.answers(n).NoConstraintsFile? ==>
            calls != [] && calls[0].targets == Names(survivors) && AsksForSurvivors(ctx, survivors, calls[0]))
  {
    var calls, survivors := VettingCalls(ctx, pip, n, candidates), Survivors(ctx, candidates);
    CallPins(pip.answers(n), Names(survivors), ctx.state, None, ctx.cudaIndex);
    forall call | call in calls
      ensures AsksForSurvivors(ctx, survivors, call) || AsksForWheel(ctx, candidates, call)
    {
      if call in SingleCalls(ctx, pip, n + 1, survivors) {
        SingleCallsAsk(ctx, pip, n + 1, survivors, survivors, call);
      } else if call in WheelCalls(ctx, pip, AfterNormal(ctx, pip, n, candidates), candidates) {
        WheelCallsAsk(ctx, pip, AfterNormal(ctx, pip, n, candidates), candidates, candidates, call);
      }
    }
  }

  /** One CUDA wheel: allowed by the requirements, and changed by the run asked for it. */
  lemma WheelIsSafeExactly(ctx: Context, edges: seq<Edge>, pip: Pip, n: nat, candidates: seq<Outdated>, c: Outdated)
    requires Indexes(ctx.reverse, edges) && c.kind == "wheel-cuda"
    ensures TorchVerdict(ctx, pip, n, c).None? <==>
      Allowed(ctx.packaging, edges, candidates, c) && ReportChanges(ctx.state, pip.answers(n), Normalize(c.name))
  {
    AllowedExactly(ctx.packaging, edges, candidates, c);
    assert Lookup(ctx.reverse, Normalize(c.name)) == RequirersOf(edges, Normalize(c.name));
    AttemptChanges(ctx.state, pip, n, [c.name], Normalize(c.name));
  }

  // A twin that is not upgraded

  /** Every version but "2" fits "<2", the only specifier around. */
  function TwinPackaging(): Packaging {
    Packaging(
      raw => if raw == "pydantic-core<2" then Some(Requirement("pydantic-core", "<2", None))
             else if raw == "pydantic<2" then Some(Requirement("pydantic", "<2", None)) else None,
      _ => true, _ => true, (spec: string, version: string) => version != "2")
  }

  /** An application keeps pydantic below 2, and pydantic its core. */
  function TwinInventory(): Inventory {
    Inventory(true,
      Some(map["app" := "1", "pydantic" := "1", "pydantic_core" := "1"]),
      Some([Meta("app", ["pydantic<2"]), Meta("pydantic", ["pydantic-core<2"])]))
  }

  const TWIN := Outdated("pydantic", "1", "2", "wheel")
  const CORE := Outdated("pydantic-core", "1", "2", "wheel")
  const APP_NEEDS := Edge("pydantic", Requirer("app", "<2"))
  const TWIN_NEEDS := Edge("pydantic_core", Requirer("pydantic", "<2"))

  lemma TwinNames()
    ensures Normalize("app") == "app" && Normalize("pydantic") == "pydantic"
    ensures Normalize("pydantic-core") == "pydantic_core" && Normalize("pydantic_core") == "pydantic_core"
  {
  }

  lemma TwinEdges()
    ensures Edges(TwinPackaging(), TwinInventory().inspected.value) == [APP_NEEDS, TWIN_NEEDS]
  {
    TwinNames();
    var p, inspected := TwinPackaging(), TwinInventory().inspected.value;
    assert inspected[..1] == [Meta("app", ["pydantic<2"])] && inspected[..1][..0] == [];
    OneOwnEdge(p, "app", "pydantic<2", APP_NEEDS);
    OneOwnEdge(p, "pydantic", "pydantic-core<2", TWIN_NEEDS);
    assert Edges(p, inspected[..1]) == [APP_NEEDS];
  }

  lemma OneOwnEdge(p: Packaging, owner: string, raw: string, e: Edge)
    requires EdgeOf(p, owner, raw) == Some(e)
    ensures OwnEdges(p, owner, [raw]) == [e]
  {
    assert [raw][..0] == [];
  }

  lemma TwinRequirers()
    ensures RequirersOf([APP_NEEDS, TWIN_NEEDS], "pydantic") == [APP_NEEDS.from]
    ensures RequirersOf([APP_NEEDS, TWIN_NEEDS], "pydantic_core") == [TWIN_NEEDS.from]
  {
    var edges := [APP_NEEDS, TWIN_NEEDS];
    assert edges[..1] == [APP_NEEDS] && [APP_NEEDS][..0] == [];
    assert RequirersOf([APP_NEEDS], "pydantic") == [APP_NEEDS.from] && RequirersOf([APP_NEEDS], "pydantic_core") == [];
  }

  lemma TwinVerdicts(ctx: Context)
    requires ctx == ContextOf(TwinPackaging(), TwinInventory(), None)
    ensures SurvivorVerdict(ctx, [TWIN, CORE], TWIN).Some?
    ensures SurvivorVerdict(ctx, [TWIN, CORE], CORE).None?
  {
    TwinNames();
    TwinEdges();
    TwinRequirers();
    ReverseIndexes([APP_NEEDS, TWIN_NEEDS]);
    assert Lookup(ctx.reverse, "pydantic") == [APP_NEEDS.from] &&
      Lookup(ctx.reverse, "pydantic_core") == [TWIN_NEEDS.from];
    assert Public("2") == "2";
    var names := Keys(Names([TWIN, CORE]));
    KeysOfNames([TWIN, CORE], "pydantic");
    assert [TWIN, CORE][0].name == "pydantic";
    assert "app" !in LockstepRequirers("pydantic", names);
    assert "pydantic" in CO_DEPENDENT_PAIRS["pydantic_core"] && "pydantic" in LockstepRequirers("pydantic_core", names);
    assert Violates(ctx.packaging, APP_NEEDS.from, "pydantic", LockstepRequirers("pydantic", names), "2");
  }

  lemma TwinIsHeld(ctx: Context)
    requires ctx == ContextOf(TwinPackaging(), TwinInventory(), None)
    ensures Passed([TWIN, CORE], SurvivorVerdicts(ctx, [TWIN, CORE])) == [CORE]
  {
    TwinVerdicts(ctx);
    var cs, v := [TWIN, CORE], SurvivorVerdicts(ctx, [TWIN, CORE]);
    assert cs[..1] == [TWIN] && v[..1] == [v[0]] && cs[..1][..0] == [] && v[..1][..0] == [];
    assert Passed([TWIN], [v[0]]) == [];
  }

  lemma TwinsAreNormal()
    ensures OfKind([TWIN, CORE], false) == [TWIN, CORE]
  {
    var cs, none := [TWIN, CORE], [];
    assert cs[..1] == [TWIN] && [TWIN][..0] == none;
    assert Select([TWIN], IsCudaWheel, false) == none + [TWIN];
  }

  lemma CoreChanges(ctx: Context, pip: Pip)
    requires ctx == ContextOf(TwinPackaging(), TwinInventory(), None)
    requires pip.answers(0) == Report([ReportItem("pydantic-core", "1.5")])
    ensures BatchVerdicts(ctx, pip, 0, [CORE]) == [None]
  {
    TwinNames();
    assert [ReportItem("pydantic-core", "1.5")][..0] == [];
    var run := Attempt(ctx.state, pip, 0, Names([CORE]));
    assert "pydantic_core" in ctx.state && run.ok && "pydantic_core" in run.changed;
  }

  lemma OnePassed(c: Outdated)
    ensures Passed([c], [None]) == [c]
  {
    assert [c][..0] == [];
  }

  lemma {:induction false} NoCudaWheels(ctx: Context, pip: Pip, t: Tally, cs: seq<Outdated>)
    requires forall c :: c in cs ==> c.kind != CUDA_WHEEL
    ensures AfterTorch(ctx, pip, t, cs) == t
  {
    if cs != [] {
      NoCudaWheels(ctx, pip, t, cs[..|cs| - 1]);
    }
  }

  /** Without CUDA wheels safe are the survivors the attempts from `n` on let pass. */
  lemma SafeWithoutCuda(ctx: Context, pip: Pip, n: nat, cs: seq<Outdated>, survivors: seq<Outdated>)
    requires OfKind(cs, false) == cs && survivors == Passed(cs, SurvivorVerdicts(ctx, cs))
    ensures TallyOf(ctx, pip, n, cs).safe == Passed(survivors, BatchVerdicts(ctx, pip, n, survivors))
  {
    forall c | c in cs
      ensures c.kind != CUDA_WHEEL
    {
      SelectExactly(cs, IsCudaWheel, false, c);
    }
    NoCudaWheels(ctx, pip, AfterNormal(ctx, pip, n, cs), cs);
  }

  lemma CoreIsSafe(pip: Pip)
    requires pip.answers(0) == Report([ReportItem("pydantic-core", "1.5")])
    ensures Classified(TwinPackaging(), pip, TwinInventory(), [TWIN, CORE], None, 0).safe == [CORE]
  {
    var ctx := ContextOf(TwinPackaging(), TwinInventory(), None);
    TwinsAreNormal();
    TwinIsHeld(ctx);
    CoreChanges(ctx, pip);
    OnePassed(CORE);
    SafeWithoutCuda(ctx, pip, 0, [TWIN, CORE], [CORE]);
  }

  lemma TwinsAreConsistent()
    ensures Consistent(TwinPackaging(), [APP_NEEDS, TWIN_NEEDS], TwinInventory().installed.value)
  {
    assert Public("1") == "1";
  }

  lemma CoreBreaksTwin()
    ensures !Met(TwinPackaging(), SetToLatest(TwinInventory().installed.value, [CORE]), TWIN_NEEDS)
    ensures TWIN_NEEDS.from.name !in Keys(Names([CORE]))
  {
    TwinNames();
    var env := TwinInventory().installed.value;
    var none: seq<Outdated> := [];
    assert [CORE][..0] == none && SetToLatest(env, [CORE]) == SetToLatest(env, none)["pydantic_core" := "2"];
    assert Public("2") == "2";
    KeysOfNames([CORE], "pydantic");
  }

  lemma CoreIsTarget(items: seq<ReportItem>, env: State)
    requires items == [ReportItem("pydantic-core", "1.5")]
    ensures Honours(items, Pins(env, ["pydantic-core"]))
  {
    assert "pydantic-core" in ["pydantic-core"];
  }

  /**
   * The exclusion of a twin that stays matters. pydantic is blocked, and the
   * dry-run moves its core to 1.5, which pydantic allows; but only the name
   * is looked up, the latest version 2 is what gets pinned, and pydantic does
   * not count as a requirer of its core. pip kept every constraint.
   */
  lemma BlockedTwinIsBroken(pip: Pip)
    requires pip.answers(0) == Report([ReportItem("pydantic-core", "1.5")])
    ensures var p, inventory := TwinPackaging(), TwinInventory();
      var edges, env := Edges(p, inventory.inspected.value), inventory.installed.value;
      var safe := Classified(p, pip, inventory, [TWIN, CORE], None, 0).safe;
      && Honours(pip.answers(0).items, Pins(env, ["pydantic-core"]))
      && safe == [CORE] && Consistent(p, edges, env)
      && TWIN_NEEDS in edges && TWIN_NEEDS.from.name !in Keys(Names(safe))
      && !Met(p, SetToLatest(env, safe), TWIN_NEEDS)
  {
    TwinEdges();
    CoreIsSafe(pip);
    TwinsAreConsistent();
    CoreBreaksTwin();
    CoreIsTarget(pip.answers(0).items, TwinInventory().installed.value);
  }
}
