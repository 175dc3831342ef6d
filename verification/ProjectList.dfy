/** Finding lists of project folders: groups of nearby lines that mention enough of them. */
module ProjectList {
  import opened Text

  /** A line number and the project folders the line names. */
  datatype Line = Line(number: int, names: set<string>)

  datatype Group = Group(start: int, names: set<string>)

  /** The lines that mention a folder, in order. */
  function Mentions(lines: seq<Line>): (r: seq<Line>)
    ensures forall m :: m in r <==> m in lines && m.names != {}
  {
    if lines == [] then [] else
      var last := lines[|lines| - 1];
      assert forall m :: m in lines <==> m in lines[..|lines| - 1] || m == last;
      Mentions(lines[..|lines| - 1]) + (if last.names == {} then [] else [last])
  }

  /** Mentions are taken line by line. */
  lemma MentionsExactly(lines: seq<Line>, x: Line)
    ensures Mentions([]) == []
    ensures Mentions(lines + [x]) == Mentions(lines) + if x.names == {} then [] else [x]
  {
    assert (lines + [x])[..|lines|] == lines;
  }

  function Union(lines: seq<Line>): (r: set<string>)
    ensures forall n :: n in r <==> exists m :: m in lines && n in m.names
  {
    if lines == [] then {} else
      var last := lines[|lines| - 1];
      assert forall m :: m in lines <==> m in lines[..|lines| - 1] || m == last;
      Union(lines[..|lines| - 1]) + last.names
  }

  function Flatten(runs: seq<seq<Line>>): seq<Line> {
    if runs == [] then [] else Flatten(runs[..|runs| - 1]) + runs[|runs| - 1]
  }

  /** Neighbouring lines of a run are at most `gap` apart. */
  ghost predicate Near(run: seq<Line>, gap: int) {
    run != [] && forall i :: 1 <= i < |run| ==> run[i].number - run[i - 1].number <= gap
  }

  /** `runs` cuts `ms` exactly where two neighbours are more than `gap` apart. */
  ghost predicate MaximalRuns(ms: seq<Line>, gap: int, runs: seq<seq<Line>>) {
    && Flatten(runs) == ms
    && (forall run :: run in runs ==> Near(run, gap))
    && forall i :: 1 <= i < |runs| ==> Apart(runs[i - 1], runs[i], gap)
  }

  predicate Apart(a: seq<Line>, b: seq<Line>, gap: int) {
    a != [] && b != [] && b[0].number - a[|a| - 1].number > gap
  }

  /** A run's first line number and every folder it names. */
  function Described(run: seq<Line>): Group
    requires run != []
  {
    Group(run[0].number, Union(run))
  }

  /** The maximal runs of nearby mentions, each with every folder it names. */
  ghost predicate IsGrouping(lines: seq<Line>, gap: int, groups: seq<Group>) {
    exists runs :: MaximalRuns(Mentions(lines), gap, runs) && Describe(runs, groups)
  }

  ghost predicate Describe(runs: seq<seq<Line>>, groups: seq<Group>) {
    |groups| == |runs| && forall i :: 0 <= i < |runs| ==> runs[i] != [] && groups[i] == Described(runs[i])
  }

  lemma LastMention(ms: seq<Line>, gap: int, runs: seq<seq<Line>>)
    requires MaximalRuns(ms, gap, runs) && ms != []
    ensures runs != [] && var last := runs[|runs| - 1];
      last != [] && last[|last| - 1] == ms[|ms| - 1]
  {
    assert runs[|runs| - 1] in runs;
  }

  /** A mention close to the last one joins its run. */
  lemma ExtendRun(ms: seq<Line>, x: Line, gap: int, runs: seq<seq<Line>>)
    requires ms != [] && MaximalRuns(ms, gap, runs) && x.number - ms[|ms| - 1].number <= gap
    ensures runs != [] && runs[|runs| - 1] != []
    ensures MaximalRuns(ms + [x], gap, runs[..|runs| - 1] + [runs[|runs| - 1] + [x]])
    ensures Described(runs[|runs| - 1] + [x]) == Group(runs[|runs| - 1][0].number, Union(runs[|runs| - 1]) + x.names)
  {
    LastMention(ms, gap, runs);
    var init, last := runs[..|runs| - 1], runs[|runs| - 1];
    var more := init + [last + [x]];
    assert last in runs && Near(last, gap);
    assert more[..|more| - 1] == init;
    assert Flatten(more) == Flatten(init) + (last + [x]) == (Flatten(init) + last) + [x];
    forall run | run in more
      ensures Near(run, gap)
    {
      assert run in init ==> run in runs;
    }
    forall i | 1 <= i < |more|
      ensures Apart(more[i - 1], more[i], gap)
    {
      assert Apart(runs[i - 1], runs[i], gap);
    }
    assert (last + [x])[..|last|] == last;
  }

  /** A mention further away starts a new run. */
  lemma StartRun(ms: seq<Line>, x: Line, gap: int, runs: seq<seq<Line>>)
    requires MaximalRuns(ms, gap, runs) && (ms != [] ==> x.number - ms[|ms| - 1].number > gap)
    ensures MaximalRuns(ms + [x], gap, runs + [[x]])
    ensures Described([x]) == Group(x.number, x.names)
  {
    var more := runs + [[x]];
    assert more[..|runs|] == runs;
    if runs != [] {
      assert runs[|runs| - 1] in runs;
      LastMention(ms, gap, runs);
    }
    forall i | 1 <= i < |more|
      ensures Apart(more[i - 1], more[i], gap)
    {
      assert i < |runs| ==> Apart(runs[i - 1], runs[i], gap);
    }
    assert [x][..0] == [];
  }

  /** The state of the grouping loop after the mentions `ms`. */
  ghost predicate Grouped(ms: seq<Line>, gap: int, runs: seq<seq<Line>>, groups: seq<Group>, last: Option<int>) {
    && MaximalRuns(ms, gap, runs) && Describe(runs, groups)
    && last == if ms == [] then None else Some(ms[|ms| - 1].number)
  }

  lemma GroupStep(ms: seq<Line>, gap: int, runs: seq<seq<Line>>, groups: seq<Group>, last: Option<int>, x: Line)
    returns (runs': seq<seq<Line>>)
    requires Grouped(ms, gap, runs, groups, last)
    ensures last.Some? && x.number - last.value <= gap ==> groups != []
    ensures var begun := if last.None? || x.number - last.value > gap then groups + [Group(x.number, {})] else groups;
      var current := begun[|begun| - 1];
      Grouped(ms + [x], gap, runs',
        begun[..|begun| - 1] + [Group(current.start, current.names + x.names)], Some(x.number))
  {
    if last.None? || x.number - last.value > gap {
      StartRun(ms, x, gap, runs);
      runs' := runs + [[x]];
    } else {
      ExtendRun(ms, x, gap, runs);
      runs' := runs[..|runs| - 1] + [runs[|runs| - 1] + [x]];
    }
  }

  lemma MentionsNext(lines: seq<Line>, i: nat)
    requires i < |lines|
    ensures Mentions(lines[..i + 1]) ==
      if lines[i].names == {} then Mentions(lines[..i]) else Mentions(lines[..i]) + [lines[i]]
  {
    assert lines[..i + 1][..i] == lines[..i];
  }

  /** Split folder mentions into groups separated by more than `gap` lines. */
  method Groups(lines: seq<Line>, gap: int) returns (groups: seq<Group>)
    ensures IsGrouping(lines, gap, groups)
  {
    groups := [];
    var last: Option<int> := None;
    ghost var runs: seq<seq<Line>> := [];
    for i := 0 to |lines|
      invariant Grouped(Mentions(lines[..i]), gap, runs, groups, last)
    {
      MentionsNext(lines, i);
      var x := lines[i];
      if x.names == {} {
        continue;
      }
      runs := GroupStep(Mentions(lines[..i]), gap, runs, groups, last, x);
      if last.None? || x.number - last.value > gap {
        groups := groups + [Group(x.number, {})];
      }
      var current := groups[|groups| - 1];
      groups := groups[..|groups| - 1] + [Group(current.start, current.names + x.names)];
      last := Some(x.number);
    }
    assert lines[..|lines|] == lines;
  }

  /** Inside the last run the neighbours are near; before it, if anything is, they are not. */
  lemma LastRunBoundary(ms: seq<Line>, gap: int, runs: seq<seq<Line>>)
    requires MaximalRuns(ms, gap, runs) && runs != []
    ensures var n := |runs[|runs| - 1]|;
      && 0 < n <= |ms|
      && (forall i :: |ms| - n < i < |ms| ==> ms[i].number - ms[i - 1].number <= gap)
      && (n < |ms| ==> ms[|ms| - n].number - ms[|ms| - n - 1].number > gap)
  {
    var a := runs[|runs| - 1];
    var rest := Flatten(runs[..|runs| - 1]);
    assert a in runs && Near(a, gap);
    assert ms == rest + a;
    forall i | |ms| - |a| < i < |ms|
      ensures ms[i].number - ms[i - 1].number <= gap
    {
      assert ms[i] == a[i - |rest|] && ms[i - 1] == a[i - 1 - |rest|];
    }
    if rest != [] {
      var before := runs[|runs| - 2];
      assert runs[..|runs| - 1][|runs| - 2] == before;
      assert Apart(runs[|runs| - 2], runs[|runs| - 1], gap);
      assert rest[|rest| - 1] == before[|before| - 1];
    }
  }

  /** There is only one way to cut the mentions into maximal runs. */
  lemma {:induction false} MaximalRunsAreUnique(ms: seq<Line>, gap: int, p: seq<seq<Line>>, q: seq<seq<Line>>)
    requires MaximalRuns(ms, gap, p) && MaximalRuns(ms, gap, q)
    ensures p == q
    decreases |p|
  {
    if p != [] && q != [] {
      LastRunBoundary(ms, gap, p);
      LastRunBoundary(ms, gap, q);
      var p', q' := p[..|p| - 1], q[..|q| - 1];
      var a, b := p[|p| - 1], q[|q| - 1];
      assert ms == Flatten(p') + a == Flatten(q') + b;
      assert a == ms[|ms| - |a|..] == b;
      assert Flatten(p') == ms[..|ms| - |a|] == Flatten(q');
      InitRuns(ms, gap, p);
      InitRuns(ms, gap, q);
      MaximalRunsAreUnique(Flatten(p'), gap, p', q');
      assert p == p' + [a] && q == q' + [b];
    } else {
      RunsOfNothing(ms, gap, p);
      RunsOfNothing(ms, gap, q);
    }
  }

  lemma RunsOfNothing(ms: seq<Line>, gap: int, runs: seq<seq<Line>>)
    requires MaximalRuns(ms, gap, runs)
    ensures runs == [] <==> ms == []
  {
    if runs != [] {
      assert runs[|runs| - 1] in runs;
    }
  }

  lemma InitRuns(ms: seq<Line>, gap: int, runs: seq<seq<Line>>)
    requires MaximalRuns(ms, gap, runs) && runs != []
    ensures MaximalRuns(Flatten(runs[..|runs| - 1]), gap, runs[..|runs| - 1])
  {
    var init := runs[..|runs| - 1];
    forall i | 1 <= i < |init|
      ensures Apart(init[i - 1], init[i], gap)
    {
      assert Apart(runs[i - 1], runs[i], gap);
    }
  }

  lemma GroupingIsUnique(lines: seq<Line>, gap: int, a: seq<Group>, b: seq<Group>)
    requires IsGrouping(lines, gap, a) && IsGrouping(lines, gap, b)
    ensures a == b
  {
    var ms := Mentions(lines);
    var p :| MaximalRuns(ms, gap, p) && Describe(p, a);
    var q :| MaximalRuns(ms, gap, q) && Describe(q, b);
    MaximalRunsAreUnique(ms, gap, p, q);
  }

  datatype Violation = Violation(line: int, folders: set<string>)

  function Reported(groups: seq<Group>, minimum: nat): seq<Violation> {
    if groups == [] then [] else
      var last := groups[|groups| - 1];
      Reported(groups[..|groups| - 1], minimum) +
      (if |last.names| >= minimum then [Violation(last.start, last.names)] else [])
  }

  /** The positions of the groups that are reported. */
  ghost predicate ReportsAt(groups: seq<Group>, minimum: nat, found: seq<Violation>, at: seq<nat>) {
    && |at| == |found|
    && (forall i, j :: 0 <= i < j < |at| ==> at[i] < at[j])
    && (forall i :: 0 <= i < |at| ==> at[i] < |groups| && ReportedAs(groups[at[i]], minimum, found[i]))
    && (forall k :: 0 <= k < |groups| && |groups[k].names| >= minimum ==> k in at)
  }

  predicate ReportedAs(group: Group, minimum: nat, v: Violation) {
    |group.names| >= minimum && v.line == group.start && v.folders == group.names
  }

  lemma ReportsNext(groups: seq<Group>, x: Group, minimum: nat, found: seq<Violation>, at: seq<nat>)
    requires ReportsAt(groups, minimum, found, at)
    ensures |x.names| < minimum ==> ReportsAt(groups + [x], minimum, found, at)
    ensures |x.names| >= minimum ==>
      ReportsAt(groups + [x], minimum, found + [Violation(x.start, x.names)], at + [|groups|])
  {
    var more := groups + [x];
    assert forall k :: 0 <= k < |more| ==> more[k] == if k < |groups| then groups[k] else x;
    assert forall k :: k in at + [|groups|] <==> k in at || k == |groups|;
  }

  /** Reported is each group that names enough folders, once, in order, with its first line and its folders. */
  lemma {:induction false} ReportedExactly(groups: seq<Group>, minimum: nat) returns (at: seq<nat>)
    ensures ReportsAt(groups, minimum, Reported(groups, minimum), at)
  {
    at := [];
    if groups != [] {
      var n := |groups| - 1;
      at := ReportedExactly(groups[..n], minimum);
      ReportsNext(groups[..n], groups[n], minimum, Reported(groups[..n], minimum), at);
      assert groups == groups[..n] + [groups[n]];
      if |groups[n].names| >= minimum {
        at := at + [n];
      }
    }
  }

  /** One violation per group that names at least `minimum` folders, in order. */
  method Scan(lines: seq<Line>, gap: int, minimum: nat) returns (found: seq<Violation>)
    ensures exists groups, at :: IsGrouping(lines, gap, groups) && ReportsAt(groups, minimum, found, at)
  {
    var groups := Groups(lines, gap);
    found := [];
    for i := 0 to |groups|
      invariant found == Reported(groups[..i], minimum)
    {
      assert groups[..i + 1][..i] == groups[..i];
      if |groups[i].names| >= minimum {
        found := found + [Violation(groups[i].start, groups[i].names)];
      }
    }
    assert groups[..|groups|] == groups;
    ghost var at := ReportedExactly(groups, minimum);
    assert IsGrouping(lines, gap, groups) && ReportsAt(groups, minimum, found, at);
  }
}
