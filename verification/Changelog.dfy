/** Skipping the changelog sections of a README. */
module Changelog {
  import opened Text

  datatype Heading = Heading(level: nat, changelog: bool)

  function Hashes(s: string): (n: nat)
    ensures n <= |s|
  {
    if s != "" && s[0] == '#' then 1 + Hashes(s[1..]) else 0
  }

  /** A Markdown heading: one to six `#`, white space, a title. */
  function HeadingOf(line: string): (h: Option<Heading>)
    ensures h.Some? ==> h.value.level >= 1
  {
    var n := Hashes(line);
    if 1 <= n <= 6 && n < |line| && IsSpace(line[n])
    then Some(Heading(n, Contains(Lower(line[n..]), "changelog")))
    else None
  }

  lemma {:induction false} HashesExactly(s: string)
    ensures forall i :: 0 <= i < Hashes(s) ==> s[i] == '#'
    ensures Hashes(s) < |s| ==> s[Hashes(s)] != '#'
  {
    if s != "" && s[0] == '#' {
      HashesExactly(s[1..]);
    }
  }

  /** `line` is `n` hashes, white space and the rest. */
  ghost predicate IsHeading(line: string, n: nat) {
    1 <= n <= 6 && n < |line| && IsSpace(line[n]) && forall i :: 0 <= i < n ==> line[i] == '#'
  }

  /** The rest of `line` behind `n` says "changelog" at `at`, in whatever case. */
  ghost predicate SaysChangelog(line: string, n: nat, at: nat) {
    n <= at && at + 9 <= |line| && forall k :: 0 <= k < 9 ==> LowerChar(line[at + k]) == "changelog"[k]
  }

  /** A line is a heading of level `n` exactly if it looks like one, and a changelog one exactly if it says so. */
  lemma HeadingExactly(line: string)
    ensures forall n :: IsHeading(line, n) <==> HeadingOf(line).Some? && HeadingOf(line).value.level == n
    ensures HeadingOf(line).Some? ==>
      (HeadingOf(line).value.changelog <==> exists at: nat :: SaysChangelog(line, HeadingOf(line).value.level, at))
  {
    HashesExactly(line);
    assert !IsSpace('#');
    if HeadingOf(line).Some? {
      var n := HeadingOf(line).value.level;
      var title := Lower(line[n..]);
      ContainsExactly(title, "changelog");
      forall at: nat | n <= at <= |line|
        ensures "changelog" <= title[at - n..] <==> SaysChangelog(line, n, at)
      {
        SaysAt(line, n, at);
      }
      if i :| 0 <= i <= |title| && "changelog" <= title[i..] {
        assert SaysChangelog(line, n, n + i);
      }
      if at: nat :| SaysChangelog(line, n, at) {
        assert "changelog" <= title[at - n..];
      }
    }
  }

  lemma SaysAt(line: string, n: nat, at: nat)
    requires n <= at <= |line|
    ensures "changelog" <= Lower(line[n..])[at - n..] <==> SaysChangelog(line, n, at)
  {
    var rest := Lower(line[n..])[at - n..];
    assert |rest| == |line| - at && forall k :: 0 <= k < |rest| ==> rest[k] == LowerChar(line[at + k]);
    if SaysChangelog(line, n, at) {
      assert forall k :: 0 <= k < 9 ==> rest[k] == "changelog"[k];
    }
    if "changelog" <= rest {
      assert forall k :: 0 <= k < 9 ==> rest[k] == "changelog"[k];
    }
  }

  /** The section opened by the heading at `h` reaches line `i`. */
  ghost predicate Covers(lines: seq<string>, h: nat, i: nat)
    requires i < |lines|
  {
    && h <= i && HeadingOf(lines[h]).Some?
    && forall k :: h < k <= i && HeadingOf(lines[k]).Some? ==>
        HeadingOf(lines[k]).value.level > HeadingOf(lines[h]).value.level
  }

  /** Line `i` lies in the section of a changelog heading. */
  ghost predicate Hidden(lines: seq<string>, i: nat)
    requires i < |lines|
  {
    exists h :: 0 <= h <= i && Covers(lines, h, i) && HeadingOf(lines[h]).value.changelog
  }

  /** What the skip level says about the changelog sections that reach line `i`. */
  ghost predicate SkipsAt(lines: seq<string>, i: nat, skip: nat)
    requires i < |lines|
  {
    && (skip == 0 <==> !Hidden(lines, i))
    && (skip > 0 ==> exists h :: 0 <= h <= i && Covers(lines, h, i) && HeadingOf(lines[h]).value == Heading(skip, true))
    && (forall h :: 0 <= h <= i && Covers(lines, h, i) && HeadingOf(lines[h]).value.changelog ==>
        HeadingOf(lines[h]).value.level >= skip)
  }

  /** One step of the skip-level machine. */
  function NextSkip(skip: nat, heading: Option<Heading>): nat {
    if heading.None? then skip
    else
      var kept := if skip != 0 && heading.value.level <= skip then 0 else skip;
      if kept == 0 && heading.value.changelog then heading.value.level else kept
  }

  /** A step of the machine keeps the meaning of the skip level. */
  lemma SkipStep(lines: seq<string>, i: nat, skip: nat)
    requires i < |lines|
    requires if i == 0 then skip == 0 else SkipsAt(lines, i - 1, skip)
    ensures SkipsAt(lines, i, NextSkip(skip, HeadingOf(lines[i])))
  {
  }

  /** `out` is what is scanned of the first `n` lines: the visible ones, numbered, in order. */
  ghost predicate IsScanOf(lines: seq<string>, readme: bool, n: nat, out: seq<(nat, string)>)
    requires n <= |lines|
  {
    && (forall i :: 0 <= i < n ==> ((i + 1, lines[i]) in out <==> !(readme && Hidden(lines, i))))
    && (forall a :: 0 <= a < |out| ==> 1 <= out[a].0 <= n && out[a].1 == lines[out[a].0 - 1])
    && (forall a, b :: 0 <= a < b < |out| ==> out[a].0 < out[b].0)
  }

  lemma ScanStep(lines: seq<string>, readme: bool, n: nat, out: seq<(nat, string)>)
    requires n < |lines| && IsScanOf(lines, readme, n, out)
    ensures IsScanOf(lines, readme, n + 1, if readme && Hidden(lines, n) then out else out + [(n + 1, lines[n])])
  {
    assert (n + 1, lines[n]) !in out by { assert forall a :: 0 <= a < |out| ==> out[a].0 <= n; }
    if !(readme && Hidden(lines, n)) {
      ScanKeeps(lines, readme, n, out, (n + 1, lines[n]));
    }
  }

  lemma ScanKeeps(lines: seq<string>, readme: bool, n: nat, out: seq<(nat, string)>, x: (nat, string))
    requires n < |lines| && IsScanOf(lines, readme, n, out)
    requires x == (n + 1, lines[n]) && !(readme && Hidden(lines, n))
    ensures IsScanOf(lines, readme, n + 1, out + [x])
  {
    var longer := out + [x];
    forall i | 0 <= i <= n
      ensures (i + 1, lines[i]) in longer <==> !(readme && Hidden(lines, i))
    {
      StillVisible(out, x, (i + 1, lines[i]));
      if i == n {
        assert (i + 1, lines[i]) == x;
      }
    }
    assert forall a :: 0 <= a < |longer| ==> longer[a] == if a < |out| then out[a] else x;
  }

  lemma StillVisible(out: seq<(nat, string)>, x: (nat, string), y: (nat, string))
    ensures y in out + [x] <==> y in out || y == x
  {
  }

  /** The loop state after `n` lines: the skip level and what was yielded. */
  ghost predicate Scanned(lines: seq<string>, readme: bool, n: nat, skip: nat, out: seq<(nat, string)>)
    requires n <= |lines|
  {
    && (if readme && n > 0 then SkipsAt(lines, n - 1, skip) else skip == 0)
    && IsScanOf(lines, readme, n, out)
  }

  lemma ScannedNext(lines: seq<string>, readme: bool, n: nat, skip: nat, out: seq<(nat, string)>)
    requires n < |lines| && Scanned(lines, readme, n, skip, out)
    ensures var next := if readme then NextSkip(skip, HeadingOf(lines[n])) else skip;
      Scanned(lines, readme, n + 1, next, if next == 0 then out + [(n + 1, lines[n])] else out)
  {
    if readme {
      SkipStep(lines, n, skip);
    }
    ScanStep(lines, readme, n, out);
  }

  /** The two tests at a line: a heading may end the section being skipped and start another. */
  method AtHeading(before: nat, heading: Option<Heading>) returns (skip: nat)
    ensures skip == NextSkip(before, heading)
  {
    skip := before;
    if heading.Some? {
      var level := heading.value.level;
      if skip != 0 && level <= skip {
        skip := 0;
      }
      if skip == 0 && heading.value.changelog {
        skip := level;
      }
    }
  }

  /** One line of the scan. */
  method ScanLine(lines: seq<string>, readme: bool, i: nat, before: nat, yielded: seq<(nat, string)>)
    returns (skip: nat, out: seq<(nat, string)>)
    requires i < |lines| && Scanned(lines, readme, i, before, yielded)
    ensures Scanned(lines, readme, i + 1, skip, out)
  {
    var heading := if readme then HeadingOf(lines[i]) else None;
    skip := AtHeading(before, heading);
    out := if skip == 0 then yielded + [(i + 1, lines[i])] else yielded;
    ScannedNext(lines, readme, i, before, yielded);
  }

  /**
   * The lines to scan, in order and with their numbers: all of them, or for a
   * README exactly those outside every changelog section.
   */
  method ScannableLines(lines: seq<string>, readme: bool) returns (out: seq<(nat, string)>)
    ensures IsScanOf(lines, readme, |lines|, out)
  {
    out := [];
    var skip: nat := 0;
    for i := 0 to |lines|
      invariant Scanned(lines, readme, i, skip, out)
    {
      skip, out := ScanLine(lines, readme, i, skip, out);
    }
  }

  /** The scan is determined: no other list has the visible lines in order. */
  lemma ScanIsUnique(lines: seq<string>, readme: bool, a: seq<(nat, string)>, b: seq<(nat, string)>)
    requires IsScanOf(lines, readme, |lines|, a) && IsScanOf(lines, readme, |lines|, b)
    ensures a == b
  {
    SameNumbers(lines, readme, a, b);
    SameNumbers(lines, readme, b, a);
    OrderedAlike(a, b);
  }

  lemma SameNumbers(lines: seq<string>, readme: bool, a: seq<(nat, string)>, b: seq<(nat, string)>)
    requires IsScanOf(lines, readme, |lines|, a) && IsScanOf(lines, readme, |lines|, b)
    ensures forall x :: x in a ==> x in b
  {
    forall x | x in a
      ensures x in b
    {
      assert (x.0 - 1 + 1, lines[x.0 - 1]) == x;
    }
  }

  lemma {:induction false} OrderedAlike(a: seq<(nat, string)>, b: seq<(nat, string)>)
    requires forall i, j :: 0 <= i < j < |a| ==> a[i].0 < a[j].0
    requires forall i, j :: 0 <= i < j < |b| ==> b[i].0 < b[j].0
    requires forall x :: x in a <==> x in b
    ensures a == b
  {
    if a == [] {
      assert forall i :: 0 <= i < |b| ==> b[i] in b;
    } else {
      var x := a[|a| - 1];
      assert x in a && x in b;
      var y := b[|b| - 1];
      assert y in b && y in a;
      assert x == y;
      var a', b' := a[..|a| - 1], b[..|b| - 1];
      assert a == a' + [x] && b == b' + [x];
      assert x !in a' && x !in b';
      forall z ensures z in a' <==> z in b' {
        assert z in a <==> z in a' || z == x;
        assert z in b <==> z in b' || z == x;
      }
      OrderedAlike(a', b');
    }
  }
}
