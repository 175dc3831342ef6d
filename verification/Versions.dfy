/**
 * Version ordering and specifiers as PEP 440 defines them ("Public version
 * identifiers", "Version specifiers"), and the lower bound the downgrade guard
 * takes from a specifier set.
 */
module Versions {
  import opened Text

  datatype PreKind = Alpha | Beta | Candidate

  datatype Pre = Pre(kind: PreKind, number: nat)

  /**
   * A parsed version. `local` holds the ordered segments of a local label as
   * integers; no label is the empty sequence.
   */
  datatype Version = Version(
    epoch: nat,
    release: seq<nat>,
    pre: Option<Pre>,
    post: Option<nat>,
    dev: Option<nat>,
    local: seq<int>)

  /** PEP 440, "Final releases": nothing but an epoch and a release segment. */
  predicate IsFinal(v: Version) {
    v.pre.None? && v.post.None? && v.dev.None? && v.local == []
  }

  function Public(v: Version): Version {
    v.(local := [])
  }

  // ---------------------------------------------------------------- ordering

  /** Lexicographic order; a proper prefix comes first. */
  predicate LexLt(a: seq<int>, b: seq<int>) {
    b != [] && (a == [] || a[0] < b[0] || (a[0] == b[0] && LexLt(a[1..], b[1..])))
  }

  /** The release segment without trailing zeros ("1.0" and "1" are one release). */
  function Trim(r: seq<nat>): (t: seq<nat>) {
    if r == [] then [] else
      var rest := Trim(r[1..]);
      if rest == [] && r[0] == 0 then [] else [r[0]] + rest
  }

  /** A version with only a dev segment sorts before every pre-release. */
  function PreRank(v: Version): (int, int) {
    match v.pre
    case Some(Pre(Alpha, n)) => (1, n)
    case Some(Pre(Beta, n)) => (2, n)
    case Some(Pre(Candidate, n)) => (3, n)
    case None => if v.post.None? && v.dev.Some? then (0, 0) else (4, 0)
  }

  /** What decides between two versions of the same release. */
  function Suffix(v: Version): seq<int> {
    var pre := PreRank(v);
    [pre.0, pre.1,
     if v.post.Some? then v.post.value else -1,
     if v.dev.None? then 1 else 0, if v.dev.Some? then v.dev.value else 0]
    + v.local
  }

  /** The sort key: -1 ends the release so that a shorter one sorts first. */
  function Key(v: Version): seq<int> {
    [v.epoch] + Trim(v.release) + [-1] + Suffix(v)
  }

  predicate Less(a: Version, b: Version) {
    LexLt(Key(a), Key(b))
  }

  predicate AtLeast(a: Version, b: Version) {
    !Less(a, b)
  }

  predicate Same(a: Version, b: Version) {
    Key(a) == Key(b)
  }

  lemma {:induction false} LexTotal(a: seq<int>, b: seq<int>)
    ensures LexLt(a, b) || LexLt(b, a) || a == b
    ensures !(LexLt(a, b) && LexLt(b, a))
    ensures !LexLt(a, a)
  {
    if a != [] && b != [] && a[0] == b[0] {
      LexTotal(a[1..], b[1..]);
      assert a == [a[0]] + a[1..] && b == [b[0]] + b[1..];
    }
    if a != [] {
      LexTotal(a[1..], a[1..]);
    }
  }

  lemma {:induction false} LexTransitive(a: seq<int>, b: seq<int>, c: seq<int>)
    requires LexLt(a, b) && LexLt(b, c)
    ensures LexLt(a, c)
  {
    if a != [] && a[0] == b[0] && b[0] == c[0] {
      LexTransitive(a[1..], b[1..], c[1..]);
    }
  }

  /** Version comparison is a total preorder whose ties are equal keys. */
  lemma AtLeastIsTotalPreorder(a: Version, b: Version, c: Version)
    ensures AtLeast(a, a)
    ensures AtLeast(a, b) || AtLeast(b, a)
    ensures AtLeast(a, b) && AtLeast(b, a) <==> Same(a, b)
    ensures AtLeast(a, b) && AtLeast(b, c) ==> AtLeast(a, c)
  {
    LexTotal(Key(a), Key(a));
    LexTotal(Key(a), Key(b));
    LexTotal(Key(b), Key(c));
    if AtLeast(a, b) && AtLeast(b, c) && Less(a, c) {
      if Same(b, a) {
      } else if Same(b, c) {
      } else {
        LexTransitive(Key(b), Key(a), Key(c));
      }
    }
  }

  // ------------------------------------------------------------ zero padding

  function Segment(r: seq<nat>, i: nat): nat {
    if i < |r| then r[i] else 0
  }

  /** Release comparison as PEP 440 words it: pad the shorter one with zeros. */
  function ComparePadded(a: seq<nat>, b: seq<nat>): (order: int)
    decreases |a| + |b|
  {
    if a == [] && b == [] then 0
    else if Segment(a, 0) < Segment(b, 0) then -1
    else if Segment(a, 0) > Segment(b, 0) then 1
    else ComparePadded(if a == [] then [] else a[1..], if b == [] then [] else b[1..])
  }

  function Tail(r: seq<nat>): seq<nat> {
    if r == [] then [] else r[1..]
  }

  /** Stripping trailing zeros and comparing keys is zero-padded comparison. */
  lemma {:induction false} TrimComparesPadded(a: seq<nat>, b: seq<nat>, x: seq<int>, y: seq<int>)
    ensures LexLt(Trim(a) + [-1] + x, Trim(b) + [-1] + y)
       <==> ComparePadded(a, b) < 0 || (ComparePadded(a, b) == 0 && LexLt(x, y))
    ensures ComparePadded(a, b) == 0 <==> Trim(a) == Trim(b)
    decreases |a| + |b|
  {
    var u, w := Trim(a) + [-1] + x, Trim(b) + [-1] + y;
    if a == [] && b == [] {
      assert u[1..] == x && w[1..] == y;
    } else {
      TrimComparesPadded(Tail(a), Tail(b), x, y);
      if a == [] || Trim(a) == [] {
        assert u[0] == -1 && u[1..] == x;
      } else {
        assert u[1..] == Trim(a[1..]) + [-1] + x;
      }
      if b == [] || Trim(b) == [] {
        assert w[0] == -1 && w[1..] == y;
      } else {
        assert w[1..] == Trim(b[1..]) + [-1] + y;
      }
      TrimHead(a);
      TrimHead(b);
      assert Segment(a, 0) == Segment(b, 0) && Trim(Tail(a)) == Trim(Tail(b)) && Trim(a) != [] && Trim(b) != [] ==>
        Trim(a) == [Trim(a)[0]] + Trim(a)[1..] && Trim(b) == [Trim(b)[0]] + Trim(b)[1..];
    }
  }

  lemma TrimHead(r: seq<nat>)
    ensures Trim(r) != [] ==> Trim(r)[0] == Segment(r, 0) && Trim(r)[1..] == Trim(Tail(r))
    ensures Trim(r) == [] <==> Segment(r, 0) == 0 && Trim(Tail(r)) == []
  {
  }

  lemma {:induction false} LexCommonPrefix(p: seq<int>, x: seq<int>, y: seq<int>)
    ensures LexLt(p + x, p + y) <==> LexLt(x, y)
  {
    if p == [] {
      assert p + x == x && p + y == y;
    } else {
      assert (p + x)[1..] == p[1..] + x && (p + y)[1..] == p[1..] + y;
      LexCommonPrefix(p[1..], x, y);
    }
  }

  /** Comparing versions: epoch, then zero-padded release, then the suffix. */
  lemma LessByParts(a: Version, b: Version)
    ensures Less(a, b) <==>
      a.epoch < b.epoch || (a.epoch == b.epoch &&
        (ComparePadded(a.release, b.release) < 0 ||
         (ComparePadded(a.release, b.release) == 0 && LexLt(Suffix(a), Suffix(b)))))
  {
    TrimComparesPadded(a.release, b.release, Suffix(a), Suffix(b));
    assert Key(a)[1..] == Trim(a.release) + [-1] + Suffix(a);
    assert Key(b)[1..] == Trim(b.release) + [-1] + Suffix(b);
  }

  lemma {:induction false} ComparesEqual(r: seq<nat>)
    ensures ComparePadded(r, r) == 0
  {
    if r != [] {
      ComparesEqual(r[1..]);
    }
  }

  /** Of two versions of one release the one with the lower suffix is lower. */
  lemma BySuffix(a: Version, b: Version, same: nat)
    requires a.epoch == b.epoch && a.release == b.release
    requires same < 5 && Suffix(a)[..same] == Suffix(b)[..same] && Suffix(a)[same] < Suffix(b)[same]
    ensures Less(a, b)
  {
    ComparesEqual(a.release);
    LessByParts(a, b);
    var s, t := Suffix(a), Suffix(b);
    assert s == s[..same] + s[same..] && t == t[..same] + t[same..];
    LexCommonPrefix(s[..same], s[same..], t[same..]);
  }

  /**
   * PEP 440, "Summary of permitted suffixes and relative ordering": a release
   * goes through development, alpha, beta, candidate, final and post releases,
   * whatever their numbers; within each the numbers decide, and a development
   * release of any of them comes before it (`NumbersDecide`).
   */
  lemma PhasesInOrder(v: Version, n: nat, m: nat, post: Option<nat>, dev: Option<nat>)
    requires IsFinal(v)
    ensures Less(v.(dev := Some(n)), v.(pre := Some(Pre(Alpha, m)), post := post, dev := dev))
    ensures Less(v.(pre := Some(Pre(Alpha, n)), post := post, dev := dev), v.(pre := Some(Pre(Beta, m))))
    ensures Less(v.(pre := Some(Pre(Beta, n)), post := post, dev := dev), v.(pre := Some(Pre(Candidate, m))))
    ensures Less(v.(pre := Some(Pre(Candidate, n)), post := post, dev := dev), v)
    ensures Less(v, v.(post := Some(m), dev := dev))
  {
    BySuffix(v.(dev := Some(n)), v.(pre := Some(Pre(Alpha, m)), post := post, dev := dev), 0);
    BySuffix(v.(pre := Some(Pre(Alpha, n)), post := post, dev := dev), v.(pre := Some(Pre(Beta, m))), 0);
    BySuffix(v.(pre := Some(Pre(Beta, n)), post := post, dev := dev), v.(pre := Some(Pre(Candidate, m))), 0);
    BySuffix(v.(pre := Some(Pre(Candidate, n)), post := post, dev := dev), v, 0);
    BySuffix(v, v.(post := Some(m), dev := dev), 2);
  }

  lemma NumbersDecide(v: Version, kind: PreKind, n: nat, m: nat, post: Option<nat>, dev: Option<nat>)
    requires IsFinal(v)
    ensures n < m ==> Less(v.(dev := Some(n)), v.(dev := Some(m)))
    ensures n < m ==> Less(v.(pre := Some(Pre(kind, n)), post := post, dev := dev), v.(pre := Some(Pre(kind, m))))
    ensures n < m ==> Less(v.(post := Some(n), dev := dev), v.(post := Some(m)))
    ensures Less(v.(post := Some(n), dev := Some(m)), v.(post := Some(n)))
    ensures Less(v.(pre := Some(Pre(kind, n)), dev := Some(m)), v.(pre := Some(Pre(kind, n))))
  {
    if n < m {
      BySuffix(v.(dev := Some(n)), v.(dev := Some(m)), 4);
      BySuffix(v.(pre := Some(Pre(kind, n)), post := post, dev := dev), v.(pre := Some(Pre(kind, m))), 1);
      BySuffix(v.(post := Some(n), dev := dev), v.(post := Some(m)), 2);
    }
    BySuffix(v.(post := Some(n), dev := Some(m)), v.(post := Some(n)), 3);
    BySuffix(v.(pre := Some(Pre(kind, n)), dev := Some(m)), v.(pre := Some(Pre(kind, n))), 3);
  }

  // -------------------------------------------------------------- specifiers

  datatype Operator = Equal | Differ | Below | AtMost | AtLeastOp | Above | Compatible | Arbitrary

  /**
   * One clause of a specifier set. `wildcard` marks a trailing `.*`, whose
   * version is a bare release prefix. Only `===` may carry text that is no version.
   */
  datatype Clause = Clause(op: Operator, version: Option<Version>, wildcard: bool) {
    predicate WellFormed() {
      && (op != Arbitrary ==> version.Some?)
      && (wildcard ==> op in {Equal, Differ} && version.Some? && IsFinal(version.value))
      && (op == Compatible ==> |version.value.release| >= 2)
    }
  }

  /** PEP 440, "Version matching": zero-padded release prefix in the same epoch. */
  predicate PrefixMatch(v: Version, prefix: Version) {
    v.epoch == prefix.epoch &&
    forall i :: 0 <= i < |prefix.release| ==> Segment(v.release, i) == prefix.release[i]
  }

  predicate IsPreRelease(v: Version) {
    v.pre.Some? || v.dev.Some?
  }

  predicate SameBase(a: Version, b: Version) {
    a.epoch == b.epoch && Trim(a.release) == Trim(b.release)
  }

  /** Whether `v` meets one clause (PEP 440, "Version specifiers"). */
  predicate Admits(c: Clause, v: Version)
    requires c.WellFormed()
  {
    match c.op
    case Equal => if c.wildcard then PrefixMatch(v, c.version.value) else MatchesExactly(v, c.version.value)
    case Differ => if c.wildcard then !PrefixMatch(v, c.version.value) else !MatchesExactly(v, c.version.value)
    case AtMost => AtLeast(c.version.value, Public(v))
    case AtLeastOp => AtLeast(Public(v), c.version.value)
    case Below =>
      Less(v, c.version.value) &&
      (IsPreRelease(v) && SameBase(v, c.version.value) ==> IsPreRelease(c.version.value))
    case Above =>
      Less(c.version.value, v) &&
      (v.post.Some? && SameBase(v, c.version.value) ==> c.version.value.post.Some?) &&
      (v.local != [] ==> !SameBase(v, c.version.value))
    case Compatible =>
      AtLeast(Public(v), c.version.value) &&
      PrefixMatch(v, c.version.value.(release := c.version.value.release[..|c.version.value.release| - 1]))
    case Arbitrary => c.version == Some(v)
  }

  /** A local label is ignored unless the specifier names one. */
  predicate MatchesExactly(v: Version, wanted: Version) {
    Same(if wanted.local == [] then Public(v) else v, wanted)
  }

  predicate AdmitsAll(clauses: seq<Clause>, v: Version)
    requires forall c :: c in clauses ==> c.WellFormed()
  {
    forall c :: c in clauses ==> Admits(c, v)
  }

  // ------------------------------------------------------------- lower bound

  const FLOOR_OPERATORS := {Equal, Arbitrary, AtLeastOp, Compatible, Above}

  predicate IsFloorClause(c: Clause) {
    c.op in FLOOR_OPERATORS && c.version.Some?
  }

  /** The largest floor among `clauses`; the fold the guard's `max` computes. */
  function Floor(clauses: seq<Clause>): (floor: Option<Version>)
    ensures floor.None? <==> forall c :: c in clauses ==> !IsFloorClause(c)
    ensures floor.Some? ==> exists c :: c in clauses && IsFloorClause(c) && c.version == floor
    ensures floor.Some? ==>
      forall c :: c in clauses && IsFloorClause(c) ==> AtLeast(floor.value, c.version.value)
  {
    if clauses == [] then None else
      var last := clauses[|clauses| - 1];
      var rest := Floor(clauses[..|clauses| - 1]);
      assert forall c :: c in clauses <==> c in clauses[..|clauses| - 1] || c == last;
      if !IsFloorClause(last) then rest
      else if rest.None? then
        AtLeastIsTotalPreorder(last.version.value, last.version.value, last.version.value);
        last.version
      else
        FloorStep(clauses[..|clauses| - 1], rest.value, last.version.value);
        if AtLeast(rest.value, last.version.value) then rest else last.version
  }

  /** `v` is the version of a clause with one of the five operators. */
  ghost predicate FloorVersion(clauses: seq<Clause>, v: Version) {
    exists c :: c in clauses && c.version == Some(v) &&
      (c.op.Equal? || c.op.Arbitrary? || c.op.AtLeastOp? || c.op.Compatible? || c.op.Above?)
  }

  /** There is a floor exactly if some clause gives one, and then it is the largest given. */
  lemma FloorExactly(clauses: seq<Clause>)
    ensures Floor(clauses).Some? <==> exists v :: FloorVersion(clauses, v)
    ensures Floor(clauses).Some? ==> FloorVersion(clauses, Floor(clauses).value)
    ensures Floor(clauses).Some? ==> forall v :: FloorVersion(clauses, v) ==> AtLeast(Floor(clauses).value, v)
  {
    forall c | c in clauses && IsFloorClause(c)
      ensures FloorVersion(clauses, c.version.value)
    {
    }
    forall v | FloorVersion(clauses, v)
      ensures exists c :: c in clauses && IsFloorClause(c) && c.version == Some(v)
    {
      var c :| c in clauses && c.version == Some(v) &&
        (c.op.Equal? || c.op.Arbitrary? || c.op.AtLeastOp? || c.op.Compatible? || c.op.Above?);
      assert IsFloorClause(c);
    }
  }

  lemma FloorStep(clauses: seq<Clause>, rest: Version, last: Version)
    requires forall c :: c in clauses && IsFloorClause(c) ==> AtLeast(rest, c.version.value)
    ensures AtLeast(last, last)
    ensures !AtLeast(rest, last) ==>
      forall c :: c in clauses && IsFloorClause(c) ==> AtLeast(last, c.version.value)
  {
    AtLeastIsTotalPreorder(last, rest, last);
    if !AtLeast(rest, last) {
      forall c | c in clauses && IsFloorClause(c)
        ensures AtLeast(last, c.version.value)
      {
        AtLeastIsTotalPreorder(last, rest, c.version.value);
      }
    }
  }

  /** The loop of `_spec_floor` over a parsed specifier set. */
  method SpecFloor(clauses: seq<Clause>) returns (floor: Option<Version>)
    ensures floor == Floor(clauses)
  {
    floor := None;
    var i := 0;
    while i < |clauses|
      invariant 0 <= i <= |clauses|
      invariant floor == Floor(clauses[..i])
    {
      var c := clauses[i];
      assert clauses[..i + 1][..i] == clauses[..i];
      if IsFloorClause(c) && (floor.None? || !AtLeast(floor.value, c.version.value)) {
        floor := c.version;
      }
      i := i + 1;
    }
    assert clauses[..i] == clauses;
  }

  // ------------------------------------------------------ the floor is a floor

  lemma {:induction false} LexPrefix(a: seq<int>, extra: seq<int>)
    ensures !LexLt(a + extra, a)
  {
    if a != [] {
      assert (a + extra)[1..] == a[1..] + extra;
      LexPrefix(a[1..], extra);
    }
  }

  /** A local label only raises a version. */
  lemma PublicIsBelow(v: Version)
    ensures AtLeast(v, Public(v))
  {
    assert Key(v) == Key(Public(v)) + v.local;
    LexPrefix(Key(Public(v)), v.local);
  }

  lemma {:induction false} PrefixComparesPadded(r: seq<nat>, prefix: seq<nat>)
    requires forall i :: 0 <= i < |prefix| ==> Segment(r, i) == prefix[i]
    ensures ComparePadded(r, prefix) >= 0
    decreases |r| + |prefix|
  {
    if prefix == [] {
      if r != [] { PrefixComparesPadded(r[1..], []); }
    } else {
      assert Segment(r, 0) == prefix[0];
      assert forall i :: 0 <= i < |prefix| - 1 ==> Segment(Tail(r), i) == Segment(r, i + 1);
      PrefixComparesPadded(Tail(r), prefix[1..]);
    }
  }

  /** The versions of a release that come before the release itself. */
  predicate PrecedesItsRelease(v: Version) {
    v.pre.Some? || (v.dev.Some? && v.post.None?)
  }

  lemma SuffixOfFinal(v: Version, final: Version)
    requires IsFinal(final)
    ensures LexLt(Suffix(v), Suffix(final)) <==> PrecedesItsRelease(v)
  {
    var s, f := Suffix(v), Suffix(final);
    assert f == [4, 0, -1, 1, 0];
    if !PrecedesItsRelease(v) {
      if v.post.None? {
        assert s == f + v.local;
        LexPrefix(f, v.local);
      } else {
        assert s == [4, 0] + s[2..] && f == [4, 0] + f[2..];
        LexCommonPrefix([4, 0], s[2..], f[2..]);
      }
    }
  }

  /** A version admitted by `==x.*` is below `x` exactly when it is a pre-release of `x` itself. */
  lemma WildcardFloorExact(v: Version, prefix: Version)
    requires IsFinal(prefix) && PrefixMatch(v, prefix)
    ensures Less(v, prefix) <==> SameBase(v, prefix) && PrecedesItsRelease(v)
  {
    LessByParts(v, prefix);
    PrefixComparesPadded(v.release, prefix.release);
    TrimComparesPadded(v.release, prefix.release, [], []);
    SuffixOfFinal(v, prefix);
  }

  /** Every floor clause bounds what it admits, except a `.*` clause on pre-releases. */
  lemma ClauseFloorSound(c: Clause, v: Version)
    requires c.WellFormed() && IsFloorClause(c) && Admits(c, v)
    ensures AtLeast(v, c.version.value) <==>
      !(c.op == Equal && c.wildcard && SameBase(v, c.version.value) && PrecedesItsRelease(v))
  {
    var f := c.version.value;
    PublicIsBelow(v);
    AtLeastIsTotalPreorder(v, Public(v), f);
    AtLeastIsTotalPreorder(v, f, v);
    AtLeastIsTotalPreorder(Public(v), f, v);
    if c.op == Equal && c.wildcard {
      WildcardFloorExact(v, f);
    }
  }

  /** A clause with `op` may admit a final release below its version. */
  ghost predicate AdmitsBelow(op: Operator, c: Clause, v: Version) {
    && c.op == op && c.WellFormed() && c.version.Some?
    && IsFinal(v) && Admits(c, v) && Less(v, c.version.value)
  }

  /** An operator is one of the five that give a floor exactly if it admits no final release below its version. */
  lemma FloorOperatorsExactly(op: Operator)
    ensures (op.Equal? || op.Arbitrary? || op.AtLeastOp? || op.Compatible? || op.Above?) <==> op in FLOOR_OPERATORS
    ensures op in FLOOR_OPERATORS <==> !exists c, v :: AdmitsBelow(op, c, v)
  {
    if op in FLOOR_OPERATORS {
      forall c, v
        ensures !AdmitsBelow(op, c, v)
      {
        if AdmitsBelow(op, c, v) {
          ClauseFloorSound(c, v);
        }
      }
    } else {
      OneAdmittedBelowTwo(op);
    }
  }

  const ONE := Version(0, [1], None, None, None, [])

  const TWO := Version(0, [2], None, None, None, [])

  lemma OneBelowTwo()
    ensures Less(ONE, TWO)
  {
    LessByParts(ONE, TWO);
  }

  lemma OneAdmittedBelowTwo(op: Operator)
    requires op.Differ? || op.Below? || op.AtMost?
    ensures AdmitsBelow(op, Clause(op, Some(TWO), false), ONE)
  {
    OneBelowTwo();
    AtLeastIsTotalPreorder(TWO, ONE, TWO);
    assert Public(ONE) == ONE && Trim([1]) == [1] && Trim([2]) == [2];
    LessByParts(TWO, ONE);
  }

  /** `v` is a pre-release of a wildcard clause that stands at `floor`. */
  ghost predicate Undercuts(clauses: seq<Clause>, floor: Version, v: Version) {
    exists c :: c in clauses && c.op == Equal && c.wildcard && c.version.Some? && Same(c.version.value, floor)
      && SameBase(v, c.version.value) && PrecedesItsRelease(v)
  }

  /**
   * The floor is a true lower bound of an admitted version exactly unless that
   * version is a pre-release of a wildcard clause standing at the floor.
   */
  lemma FloorSound(clauses: seq<Clause>, v: Version)
    requires forall c :: c in clauses ==> c.WellFormed()
    requires AdmitsAll(clauses, v) && Floor(clauses).Some?
    ensures AtLeast(v, Floor(clauses).value) <==> !Undercuts(clauses, Floor(clauses).value, v)
    ensures IsFinal(v) ==> AtLeast(v, Floor(clauses).value)
  {
    var floor := Floor(clauses).value;
    var top :| top in clauses && IsFloorClause(top) && top.version.value == floor;
    ClauseFloorSound(top, v);
    AtLeastIsTotalPreorder(floor, floor, floor);
    if Undercuts(clauses, floor, v) {
      var c :| c in clauses && c.op == Equal && c.wildcard && c.version.Some? && Same(c.version.value, floor)
         && SameBase(v, c.version.value) && PrecedesItsRelease(v);
      ClauseFloorSound(c, v);
    }
  }
}
