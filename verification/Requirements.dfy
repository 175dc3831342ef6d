/**
 * Requirement manifests: parsing, the downgrade guard and the guarded one-way
 * sync of a central manifest into a sibling project.
 */
module Requirements {
  import opened Text
  import opened Versions

  datatype Entry = Entry(name: string, specifier: string, marker: Option<string>, editable: bool, indexUrl: bool)

  /**
   * The requirement grammar of PEP 508 as a parameter. `recognise` reads a
   * requirement from its trimmed head and, after the first `;`, its trimmed
   * marker; `clauses` reads a specifier set. URL requirements, where white
   * space before `;` matters, have no place in this shape.
   */
  datatype Grammar = Grammar(
    recognise: (string, Option<string>) -> Option<Entry>,
    clauses: string -> Option<seq<Clause>>)
  {
    ghost predicate Valid() {
      forall text, c :: clauses(text).Some? && c in clauses(text).value ==> c.WellFormed()
    }
  }

  // ----------------------------------------------------------------- parsing

  /** The text before the first `;` and, if there is one, the text after it, trimmed. */
  function Parts(s: string): (string, Option<string>) {
    var i := IndexOf(s, ';');
    (Strip(s[..i]), if i < |s| then Some(Strip(s[i + 1..])) else None)
  }

  /** `s.replace(part, "")`. */
  function Without(s: string, part: string): string
    requires part != ""
  {
    if s == "" then ""
    else if StartsWith(s, part) then Without(s[|part|..], part)
    else [s[0]] + Without(s[1..], part)
  }

  function ParseLine(g: Grammar, line: string): Option<Entry> {
    var s := Strip(line);
    if s == "" || StartsWith(s, "#") then None
    else if StartsWith(s, "--extra-index-url") || StartsWith(s, "-i ") then
      Some(Entry("__index_url__", s, None, false, true))
    else if StartsWith(s, "-e ") then
      Some(Entry(Strip(Without(s, "-e ")), "", None, true, false))
    else
      var (head, marker) := Parts(s);
      match g.recognise(head, marker)
      case Some(e) => Some(Entry(Lower(e.name), e.specifier, e.marker, false, false))
      case None => Some(Entry(Lower(s), "", None, false, false))
  }

  function ParseLines(g: Grammar, lines: seq<string>): seq<Entry> {
    if lines == [] then [] else
      ParseLines(g, lines[..|lines| - 1]) +
      (match ParseLine(g, lines[|lines| - 1]) case Some(e) => [e] case None => [])
  }

  method ParseRequirementsFile(g: Grammar, file: Option<seq<string>>) returns (results: seq<Entry>)
    ensures results == if file.None? then [] else ParseLines(g, file.value)
  {
    results := [];
    if file.None? { return; }
    var lines := file.value;
    for i := 0 to |lines|
      invariant results == ParseLines(g, lines[..i])
    {
      assert lines[..i + 1][..i] == lines[..i];
      var parsed := ParseLine(g, lines[i]);
      if parsed.Some? {
        results := results + [parsed.value];
      }
    }
    assert lines[..|lines|] == lines;
  }

  // ------------------------------------------------------------------- index

  datatype Slot = Slot(name: string, marker: string)

  /** PEP 503, "Normalized Names": runs of `-`, `_` and `.` become one `-`, in lower case. */
  function Canonical(name: string): string {
    if name == [] then []
    else if name[0] in "-_." then
      (if |name| > 1 && name[1] in "-_." then [] else ['-']) + Canonical(name[1..])
    else [LowerChar(name[0])] + Canonical(name[1..])
  }

  function SlotOf(e: Entry): Slot {
    Slot(Canonical(e.name[..IndexOf(e.name, '[')]), if e.marker.Some? then e.marker.value else "")
  }

  predicate Separators(s: string) {
    forall c :: c in s ==> c == '-' || c == '_' || c == '.'
  }

  lemma {:induction false} CanonicalRun(run: string, rest: string)
    requires run != "" && Separators(run) && (rest != "" ==> rest[0] !in "-_.")
    ensures Canonical(run + rest) == "-" + Canonical(rest)
  {
    var s := run + rest;
    assert run[0] in run;
    if |run| == 1 {
      assert s[1..] == rest;
    } else {
      assert run[1] in run && forall c :: c in run[1..] ==> c in run;
      CanonicalRun(run[1..], rest);
      assert s[1..] == run[1..] + rest;
    }
  }

  /** PEP 503: any other character is lowered, and a whole run of separators becomes one `-`. */
  lemma CanonicalExactly(c: char, run: string, rest: string)
    requires c != '-' && c != '_' && c != '.' && Separators(run) && (rest != "" ==> rest[0] !in "-_.")
    ensures Canonical("") == "" && Canonical([c] + rest) == [LowerChar(c)] + Canonical(rest)
    ensures run != "" ==> Canonical(run + rest) == "-" + Canonical(rest)
  {
    assert ([c] + rest)[1..] == rest;
    if run != "" {
      CanonicalRun(run, rest);
    }
  }

  /** Entries share a key exactly if their names, without extras, are the same to PEP 503 and their markers agree. */
  lemma SlotExactly(a: Entry, b: Entry, name: string, extras: string)
    ensures '[' !in name && a.name == name + extras && (extras == "" || extras[0] == '[') ==>
      (SlotOf(a) == SlotOf(b) <==>
        && SlotOf(b).name == Canonical(name)
        && (a.marker == b.marker || (a.marker.GetOr("") == "" && b.marker.GetOr("") == "")))
  {
    if '[' !in name && a.name == name + extras && (extras == "" || extras[0] == '[') {
      if extras == "" {
        assert a.name == name && IndexOf(a.name, '[') == |name|;
      } else {
        assert a.name == name + ['['] + extras[1..];
        IndexOfSplit(name, '[', extras[1..]);
      }
      assert a.name[..IndexOf(a.name, '[')] == name;
    }
  }

  function Index(entries: seq<Entry>): map<Slot, Entry> {
    if entries == [] then map[] else
      var last := entries[|entries| - 1];
      var rest := Index(entries[..|entries| - 1]);
      if last.indexUrl || last.editable then rest else rest[SlotOf(last) := last]
  }

  method RequirementIndex(entries: seq<Entry>) returns (index: map<Slot, Entry>, order: seq<Slot>)
    ensures index == Index(entries)
    ensures forall k :: k in order <==> k in index
    ensures forall i, j :: 0 <= i < j < |order| ==> order[i] != order[j]
  {
    index, order := map[], [];
    for i := 0 to |entries|
      invariant index == Index(entries[..i])
      invariant forall k :: k in order <==> k in index
      invariant forall i, j :: 0 <= i < j < |order| ==> order[i] != order[j]
    {
      assert entries[..i + 1][..i] == entries[..i];
      var e := entries[i];
      if !e.indexUrl && !e.editable {
        if SlotOf(e) !in index {
          order := order + [SlotOf(e)];
        }
        index := index[SlotOf(e) := e];
      }
    }
    assert entries[..|entries|] == entries;
  }

  // ------------------------------------------------------------------- drift

  /** The floor of a specifier text; none if it is empty, unreadable or has no floor clause. */
  function FloorOf(g: Grammar, specifier: string): Option<Version> {
    if specifier == "" || g.clauses(specifier).None? then None else Floor(g.clauses(specifier).value)
  }

  function EntryFloor(g: Grammar, e: Entry): Option<Version> {
    FloorOf(g, e.specifier)
  }

  /** Copying `central` over `sibling` would take `k` away or lower its floor. */
  predicate Drifts(g: Grammar, central: map<Slot, Entry>, sibling: map<Slot, Entry>, k: Slot) {
    k in sibling &&
    (k !in central ||
     (var kept := EntryFloor(g, sibling[k]);
      var offered := EntryFloor(g, central[k]);
      kept.Some? && (offered.None? || Less(offered.value, kept.value))))
  }

  ghost predicate NoDrift(g: Grammar, central: map<Slot, Entry>, sibling: map<Slot, Entry>) {
    forall k :: k in sibling ==> !Drifts(g, central, sibling, k)
  }

  method FindRequirementDrift(g: Grammar, central: Option<seq<string>>, sibling: Option<seq<string>>)
    returns (drift: seq<Slot>)
    ensures forall k :: k in drift <==> Drifts(g, FileIndex(g, central), FileIndex(g, sibling), k)
    ensures forall i, j :: 0 <= i < j < |drift| ==> drift[i] != drift[j]
    ensures drift == [] <==> NoDrift(g, FileIndex(g, central), FileIndex(g, sibling))
  {
    var centralEntries := ParseRequirementsFile(g, central);
    var siblingEntries := ParseRequirementsFile(g, sibling);
    var cen, _ := RequirementIndex(centralEntries);
    var sib, order := RequirementIndex(siblingEntries);
    drift := CollectDrift(g, cen, sib, order);
    assert drift != [] ==> drift[0] in drift;
  }

  /** The keys of `order` that drift, in order. */
  method CollectDrift(g: Grammar, cen: map<Slot, Entry>, sib: map<Slot, Entry>,
      order: seq<Slot>) returns (drift: seq<Slot>)
    requires forall i, j :: 0 <= i < j < |order| ==> order[i] != order[j]
    ensures forall k :: k in drift <==> k in order && Drifts(g, cen, sib, k)
    ensures forall i, j :: 0 <= i < j < |drift| ==> drift[i] != drift[j]
  {
    drift := [];
    for i := 0 to |order|
      invariant forall k :: k in drift <==> k in order[..i] && Drifts(g, cen, sib, k)
      invariant forall i, j :: 0 <= i < j < |drift| ==> drift[i] != drift[j]
    {
      assert order[..i + 1] == order[..i] + [order[i]];
      if Drifts(g, cen, sib, order[i]) {
        drift := drift + [order[i]];
      }
    }
    assert order[..|order|] == order;
  }

  function FileIndex(g: Grammar, file: Option<seq<string>>): map<Slot, Entry> {
    if file.None? then map[] else Index(ParseLines(g, file.value))
  }

  /** The specifier is readable and one of its clauses, with one of the five operators, stands at `v`. */
  ghost predicate Bounds(g: Grammar, specifier: string, v: Version) {
    specifier != "" && g.clauses(specifier).Some? && FloorVersion(g.clauses(specifier).value, v)
  }

  /**
   * A key drifts exactly if the central manifest lacks it, or some version
   * bounds the sibling from below and none that bounds the central one is as
   * high.
   */
  lemma DriftsExactly(g: Grammar, central: map<Slot, Entry>, sibling: map<Slot, Entry>, k: Slot)
    ensures Drifts(g, central, sibling, k) <==>
      k in sibling && (k !in central || Undercut(g, central[k].specifier, sibling[k].specifier))
  {
    if k in sibling && k in central {
      LowersExactly(g, central[k].specifier, sibling[k].specifier);
    }
  }

  /** Something bounds `kept` that is above everything that bounds `offered`. */
  ghost predicate Undercut(g: Grammar, offered: string, kept: string) {
    exists v :: Bounds(g, kept, v) && AboveAll(g, offered, v)
  }

  ghost predicate AboveAll(g: Grammar, offered: string, v: Version) {
    forall w :: Bounds(g, offered, w) ==> Less(w, v)
  }

  lemma LowersExactly(g: Grammar, offered: string, kept: string)
    ensures Lowers(g, offered, kept) <==> Undercut(g, offered, kept)
  {
    HighestBound(g, offered);
    HighestBound(g, kept);
    var low, high := FloorOf(g, offered), FloorOf(g, kept);
    if Lowers(g, offered, kept) {
      forall w | Bounds(g, offered, w)
        ensures Less(w, high.value)
      {
        AtLeastIsTotalPreorder(w, low.value, high.value);
        AtLeastIsTotalPreorder(low.value, w, high.value);
      }
      assert Bounds(g, kept, high.value) && AboveAll(g, offered, high.value);
    }
    if v :| Bounds(g, kept, v) && AboveAll(g, offered, v) {
      if low.Some? {
        assert Less(low.value, v);
        AtLeastIsTotalPreorder(low.value, high.value, v);
      }
    }
  }

  /** A specifier has a floor exactly if something bounds it, and then the floor is the highest bound. */
  lemma HighestBound(g: Grammar, specifier: string)
    ensures FloorOf(g, specifier).Some? <==> exists v :: Bounds(g, specifier, v)
    ensures FloorOf(g, specifier).Some? ==> Bounds(g, specifier, FloorOf(g, specifier).value)
    ensures FloorOf(g, specifier).Some? ==>
      forall v :: Bounds(g, specifier, v) ==> AtLeast(FloorOf(g, specifier).value, v)
  {
    if specifier != "" && g.clauses(specifier).Some? {
      var clauses := g.clauses(specifier).value;
      FloorExactly(clauses);
      if v :| FloorVersion(clauses, v) {
        assert Bounds(g, specifier, v);
      }
    }
  }

  /** "No drift" is a preorder on parsed manifests. */
  lemma NoDriftIsPreorder(g: Grammar, a: map<Slot, Entry>, b: map<Slot, Entry>, c: map<Slot, Entry>)
    ensures NoDrift(g, a, a)
    ensures NoDrift(g, c, b) && NoDrift(g, b, a) ==> NoDrift(g, c, a)
  {
    forall k | k in a
      ensures !Drifts(g, a, a, k)
      ensures NoDrift(g, c, b) && NoDrift(g, b, a) ==> !Drifts(g, c, a, k)
    {
      var kept := EntryFloor(g, a[k]);
      if kept.Some? {
        AtLeastIsTotalPreorder(kept.value, kept.value, kept.value);
      }
      if NoDrift(g, c, b) && NoDrift(g, b, a) && kept.Some? {
        assert !Drifts(g, b, a, k) && !Drifts(g, c, b, k);
        AtLeastIsTotalPreorder(EntryFloor(g, c[k]).value, EntryFloor(g, b[k]).value, kept.value);
      }
    }
  }

  /** `e` admits `v`: no specifier, or every clause of a readable one is met. */
  predicate EntryAdmits(g: Grammar, e: Entry, v: Version)
    requires g.Valid()
  {
    e.specifier == "" || (g.clauses(e.specifier).Some? && AdmitsAll(g.clauses(e.specifier).value, v))
  }

  /**
   * What the guard means: with no drift, no final release the central entry
   * admits is below a floor the sibling had.
   */
  lemma GuardKeepsFloors(g: Grammar, central: map<Slot, Entry>, sibling: map<Slot, Entry>, k: Slot, v: Version)
    requires g.Valid() && NoDrift(g, central, sibling)
    requires k in sibling && EntryFloor(g, sibling[k]).Some?
    ensures k in central
    ensures EntryAdmits(g, central[k], v) ==>
      AtLeast(v, EntryFloor(g, sibling[k]).value) ||
      Undercuts(g.clauses(central[k].specifier).value, EntryFloor(g, central[k]).value, v)
    ensures EntryAdmits(g, central[k], v) && IsFinal(v) ==> AtLeast(v, EntryFloor(g, sibling[k]).value)
  {
    assert !Drifts(g, central, sibling, k);
    if EntryAdmits(g, central[k], v) {
      var floor := EntryFloor(g, central[k]).value;
      FloorSound(g.clauses(central[k].specifier).value, v);
      AtLeastIsTotalPreorder(v, floor, EntryFloor(g, sibling[k]).value);
    }
  }

  // ---------------------------------------------------------------- sanitise

  /** Trim a line and normalise "spec;marker" to "spec; marker"; blank lines go. */
  function SanitiseLine(line: string): Option<string> {
    var s := Strip(line);
    if s == "" then None
    else if ';' in s then Some(Parts(s).0 + "; " + Parts(s).1.value)
    else Some(s)
  }

  function Sanitise(lines: seq<string>): seq<string> {
    if lines == [] then [] else
      Sanitise(lines[..|lines| - 1]) +
      (match SanitiseLine(lines[|lines| - 1]) case Some(s) => [s] case None => [])
  }

  /**
   * Blank lines go, a line without `;` is trimmed, and what stands before and
   * behind the first `;` is trimmed and put back with `; ` between.
   */
  lemma SanitiseExactly(line: string, head: string, tail: string)
    ensures SanitiseLine(line) == None <==> Strip(line) == ""
    ensures Strip(line) != "" && ';' !in Strip(line) ==> SanitiseLine(line) == Some(Strip(line))
    ensures Strip(line) == head + ";" + tail && ';' !in head ==>
      SanitiseLine(line) == Some(Strip(head) + "; " + Strip(tail))
  {
    var s := Strip(line);
    if s == head + ";" + tail && ';' !in head {
      assert s == head + [';'] + tail;
      IndexOfSplit(head, ';', tail);
      assert s[|head|] == ';' && s[..|head|] == head && s[|head| + 1..] == tail;
    }
  }

  /** Whole files are sanitised line by line. */
  lemma SanitiseLineByLine(lines: seq<string>, line: string)
    ensures Sanitise([]) == []
    ensures Sanitise(lines + [line]) ==
      Sanitise(lines) + if SanitiseLine(line).Some? then [SanitiseLine(line).value] else []
  {
    assert (lines + [line])[..|lines|] == lines;
  }

  lemma SanitiseNext(lines: seq<string>, i: nat)
    requires i < |lines|
    ensures Sanitise(lines[..i + 1]) ==
      Sanitise(lines[..i]) + (match SanitiseLine(lines[i]) case Some(s) => [s] case None => [])
  {
    assert lines[..i + 1][..i] == lines[..i];
  }

  /** What is read back from `"\n".join(clean) + "\n"`. */
  function Written(clean: seq<string>): seq<string> {
    if clean == [] then [""] else clean
  }

  /** What a line contributes to the index. */
  function IndexSlot(g: Grammar, line: string): Option<(Slot, string)> {
    match ParseLine(g, line)
    case None => None
    case Some(e) => if e.indexUrl || e.editable then None else Some((SlotOf(e), e.specifier))
  }

  /** Sanitising does not change what the line contributes to the index. */
  predicate Steady(g: Grammar, line: string) {
    SanitiseLine(line).Some? ==> IndexSlot(g, SanitiseLine(line).value) == IndexSlot(g, line)
  }

  /** `h; m` written back, as the parser sees it after trimming. */
  function Joined(h: string, m: string): string {
    h + ";" + (if m == "" then "" else " " + m)
  }

  lemma StripOfJoined(h: string, m: string)
    requires Stripped(h) && Stripped(m)
    ensures Strip(h + "; " + m) == Joined(h, m)
  {
    var t := Joined(h, m);
    assert Stripped(t) by {
      assert t[0] == if h == "" then ';' else h[0];
      assert t[|t| - 1] == if m == "" then ';' else m[|m| - 1];
    }
    if m == "" {
      assert h + "; " + m == t + " ";
      StripTrailingSpace(t);
    } else {
      assert h + "; " + m == t;
      StripOfStripped(t);
    }
  }

  lemma PartsOfJoined(h: string, m: string)
    requires Stripped(h) && Stripped(m) && ';' !in h
    ensures Parts(Joined(h, m)) == (h, Some(m)) && ';' in Joined(h, m)
  {
    var t := Joined(h, m);
    var after := if m == "" then "" else " " + m;
    assert t == h + [';'] + after;
    IndexOfSplit(h, ';', after);
    assert t[..|h|] == h && t[|h| + 1..] == after && t[|h|] == ';';
    StripOfStripped(h);
    StripOfStripped(m);
    assert after != "" ==> after[1..] == m && LStrip(after) == LStrip(m);
  }

  lemma PartsAreTrimmed(s: string)
    requires ';' in s
    ensures var (h, m) := Parts(s); Stripped(h) && ';' !in h && m.Some? && Stripped(m.value)
  {
    var i := IndexOf(s, ';');
    assert forall c :: c in s[..i] ==> c != ';';
  }

  /** The sanitised line has the same two parts, and sanitising it again changes nothing. */
  lemma SanitiseKeepsParts(line: string)
    requires ';' in Strip(line)
    ensures var s, clean := Strip(line), SanitiseLine(line).value;
      && ';' in Strip(clean) && Parts(Strip(clean)) == Parts(s)
      && Strip(clean) == Joined(Parts(s).0, Parts(s).1.value)
      && SanitiseLine(clean) == Some(clean)
  {
    PartsAreTrimmed(Strip(line));
    StripOfJoined(Parts(Strip(line)).0, Parts(Strip(line)).1.value);
    PartsOfJoined(Parts(Strip(line)).0, Parts(Strip(line)).1.value);
  }

  /** Sanitising is idempotent on whole files. */
  lemma {:induction false} SanitiseTwice(lines: seq<string>)
    ensures Sanitise(Sanitise(lines)) == Sanitise(lines)
  {
    if lines != [] {
      var init, last := lines[..|lines| - 1], lines[|lines| - 1];
      SanitiseTwice(init);
      match SanitiseLine(last) {
        case None => assert Sanitise(lines) == Sanitise(init);
        case Some(t) =>
          if ';' in Strip(last) { SanitiseKeepsParts(last); } else { StripOfStripped(Strip(last)); }
          assert Sanitise(lines) == Sanitise(init) + [t];
          assert Sanitise(lines)[..|Sanitise(lines)| - 1] == Sanitise(init);
      }
    }
  }

  // ------------------------------------------------- sanitising keeps meaning

  function NameKey(s: string): string {
    Canonical(Lower(s)[..IndexOf(Lower(s), '[')])
  }

  /**
   * The lines sanitising changes for the parser: an index or editable option
   * that is nothing but its flag before the `;`, or text no requirement parser
   * reads whose spacing at the `;` is part of its name.
   */
  predicate LosesMeaning(g: Grammar, line: string) {
    var s := Strip(line);
    ';' in s && !StartsWith(s, "#") && !StartsWith(s, "--extra-index-url") &&
    var (head, marker) := Parts(s);
    if StartsWith(s, "-i ") then head == "-i"
    else if StartsWith(s, "-e ") then head == "-e"
    else g.recognise(head, marker).None? && NameKey(s) != NameKey(Joined(head, marker.value))
  }

  /** The head of a trimmed line is its beginning, less white space before the `;`. */
  lemma HeadIsPrefix(s: string)
    requires Stripped(s) && ';' in s
    ensures var h, i := Parts(s).0, IndexOf(s, ';');
      && |h| <= i < |s| && h <= s
      && forall k :: 0 <= k < i && !IsSpace(s[k]) ==> k < |h|
  {
    var i := IndexOf(s, ';');
    assert LStrip(s[..i]) == s[..i];
    RStripIsPrefix(s[..i]);
    forall k | 0 <= k < i && !IsSpace(s[k])
      ensures k < |Parts(s).0|
    {
      RStripKeeps(s[..i], k);
    }
  }

  /** The sanitised line starts with what the line starts with, as far as the head goes. */
  lemma PrefixSurvives(s: string, h: string, m: string, prefix: string)
    requires h <= s && ';' !in prefix
    ensures prefix <= Joined(h, m) <==> prefix <= s && |prefix| <= |h|
  {
    var t := Joined(h, m);
    assert t[|h|] == ';' && forall k :: 0 <= k < |h| ==> t[k] == h[k] == s[k];
    assert prefix <= t ==> forall k :: 0 <= k < |prefix| ==> prefix[k] == t[k];
  }

  /** The head goes beyond every character of a prefix that is not white space. */
  lemma HeadCovers(s: string, prefix: string, k: nat)
    requires Stripped(s) && ';' in s && ';' !in prefix && prefix <= s
    requires k < |prefix| && !IsSpace(prefix[k])
    ensures k < |Parts(s).0|
  {
    HeadIsPrefix(s);
    var i := IndexOf(s, ';');
    assert forall j :: 0 <= j < |prefix| ==> s[j] == prefix[j] && s[j] != ';';
  }

  /** A two-letter flag and a space: lost exactly when the flag is the whole head. */
  lemma FlagSurvives(s: string, flag: string, m: string)
    requires Stripped(s) && ';' in s && |flag| == 3 && ';' !in flag && !IsSpace(flag[1])
    ensures var h := Parts(s).0;
      flag <= Joined(h, m) <==> flag <= s && h != flag[..2]
  {
    var h := Parts(s).0;
    HeadIsPrefix(s);
    PrefixSurvives(s, h, m, flag);
    if flag <= s {
      HeadCovers(s, flag, 1);
      assert s[..2] == flag[..2];
    }
  }

  lemma OptionsSurvive(s: string)
    requires Stripped(s) && ';' in s
    ensures var h, t := Parts(s).0, Joined(Parts(s).0, Parts(s).1.value);
      && (StartsWith(t, "#") <==> StartsWith(s, "#"))
      && (StartsWith(t, "--extra-index-url") <==> StartsWith(s, "--extra-index-url"))
      && (StartsWith(t, "-i ") <==> StartsWith(s, "-i ") && h != "-i")
      && (StartsWith(t, "-e ") <==> StartsWith(s, "-e ") && h != "-e")
  {
    var (h, m) := Parts(s);
    HeadIsPrefix(s);
    PrefixSurvives(s, h, m.value, "#");
    if StartsWith(s, "#") { HeadCovers(s, "#", 0); }
    PrefixSurvives(s, h, m.value, "--extra-index-url");
    if StartsWith(s, "--extra-index-url") { HeadCovers(s, "--extra-index-url", 16); }
    FlagSurvives(s, "-i ", m.value);
    FlagSurvives(s, "-e ", m.value);
    assert "-i "[..2] == "-i" && "-e "[..2] == "-e";
  }

  /** A trimmed line as the parser reads it: the slot, or nothing for comments and options. */
  lemma SlotOfTrimmed(g: Grammar, line: string)
    ensures var s := Strip(line);
      IndexSlot(g, line) == if s == "" || StartsWith(s, "#") || StartsWith(s, "--extra-index-url") ||
        StartsWith(s, "-i ") || StartsWith(s, "-e ")
      then None
      else match g.recognise(Parts(s).0, Parts(s).1)
        case Some(e) => Some((SlotOf(Entry(Lower(e.name), e.specifier, e.marker, false, false)), e.specifier))
        case None => Some((Slot(NameKey(s), ""), ""))
  {
  }

  /** Exactly the lines of `LosesMeaning` contribute something else once sanitised. */
  lemma SteadyExactly(g: Grammar, line: string)
    ensures Steady(g, line) <==> !LosesMeaning(g, line)
  {
    var s := Strip(line);
    SlotOfTrimmed(g, line);
    if ';' !in s {
      StripOfStripped(s);
      SlotOfTrimmed(g, s);
    } else {
      SanitiseKeepsParts(line);
      OptionsSurvive(s);
      SlotOfTrimmed(g, SanitiseLine(line).value);
    }
  }

  /** The same keys with the same specifiers. */
  ghost predicate Agree(a: map<Slot, Entry>, b: map<Slot, Entry>) {
    a.Keys == b.Keys && forall k :: k in a ==> a[k].specifier == b[k].specifier
  }

  lemma ParseAppend(g: Grammar, lines: seq<string>, line: string)
    ensures var rest, slot := Index(ParseLines(g, lines)), IndexSlot(g, line);
      Agree(Index(ParseLines(g, lines + [line])),
            if slot.None? then rest else rest[slot.value.0 := Entry("", slot.value.1, None, false, false)])
  {
    var all, rest := ParseLines(g, lines + [line]), ParseLines(g, lines);
    assert (lines + [line])[..|lines|] == lines;
    match ParseLine(g, line) {
      case None => assert all == rest;
      case Some(e) =>
        assert all == rest + [e];
        assert all[..|all| - 1] == rest;
    }
  }

  // ---------------------------------------- the last line that contributes a key

  /** What a line contributes to an index, if anything: its slot and specifier. */
  type Contribution = Option<(Slot, string)>

  function Contributions(g: Grammar, lines: seq<string>): (r: seq<Contribution>)
    ensures |r| == |lines| && forall i :: 0 <= i < |r| ==> r[i] == IndexSlot(g, lines[i])
  {
    seq(|lines|, i requires 0 <= i < |lines| => IndexSlot(g, lines[i]))
  }

  /** What the line contributes once it is sanitised. */
  function SanitisedSlot(g: Grammar, line: string): Contribution {
    if SanitiseLine(line).None? then None else IndexSlot(g, SanitiseLine(line).value)
  }

  function SanitisedContributions(g: Grammar, lines: seq<string>): (r: seq<Contribution>)
    ensures |r| == |lines| && forall i :: 0 <= i < |r| ==> r[i] == SanitisedSlot(g, lines[i])
  {
    seq(|lines|, i requires 0 <= i < |lines| => SanitisedSlot(g, lines[i]))
  }

  predicate Gives(c: Contribution, k: Slot) {
    c.Some? && c.value.0 == k
  }

  /** Position of the last contributor of `k`. */
  function LastOf(cs: seq<Contribution>, k: Slot): (last: Option<nat>)
    ensures last.Some? ==> last.value < |cs| && Gives(cs[last.value], k)
    ensures last.Some? ==> forall j :: last.value < j < |cs| ==> !Gives(cs[j], k)
    ensures last.None? ==> forall j :: 0 <= j < |cs| ==> !Gives(cs[j], k)
  {
    if cs == [] then None
    else if Gives(cs[|cs| - 1], k) then Some(|cs| - 1)
    else LastOf(cs[..|cs| - 1], k)
  }

  /** The specifier of the last contributor of `k`. */
  function SpecOf(cs: seq<Contribution>, k: Slot): string
    requires LastOf(cs, k).Some?
  {
    cs[LastOf(cs, k).value].value.1
  }

  /** `index` holds under `k` what the last contributor of `k` gives. */
  predicate Indexed(index: map<Slot, Entry>, cs: seq<Contribution>, k: Slot) {
    && (k in index <==> LastOf(cs, k).Some?)
    && (k in index ==> index[k].specifier == SpecOf(cs, k))
  }

  lemma IndexedNext(before: map<Slot, Entry>, after: map<Slot, Entry>, cs: seq<Contribution>, c: Contribution, k: Slot)
    requires Indexed(before, cs, k)
    requires Agree(after, if c.None? then before else before[c.value.0 := Entry("", c.value.1, None, false, false)])
    ensures Indexed(after, cs + [c], k)
  {
    assert (cs + [c])[..|cs|] == cs;
  }

  lemma ContributionsNext(g: Grammar, init: seq<string>, last: string)
    ensures Contributions(g, init + [last]) == Contributions(g, init) + [IndexSlot(g, last)]
  {
  }

  /** A parsed file holds under a key what the last line contributing that key gives. */
  lemma {:induction false} IndexIsLast(g: Grammar, lines: seq<string>, k: Slot)
    ensures Indexed(Index(ParseLines(g, lines)), Contributions(g, lines), k)
  {
    if lines != [] {
      var init, last := lines[..|lines| - 1], lines[|lines| - 1];
      IndexIsLast(g, init, k);
      ParseAppend(g, init, last);
      ContributionsNext(g, init, last);
      assert lines == init + [last];
      IndexedNext(Index(ParseLines(g, init)), Index(ParseLines(g, lines)), Contributions(g, init),
        IndexSlot(g, last), k);
    }
  }

  /** So does the parsed sanitised file, in terms of the original lines. */
  lemma {:induction false} SanitisedIndexIsLast(g: Grammar, lines: seq<string>, k: Slot)
    ensures Indexed(Index(ParseLines(g, Sanitise(lines))), SanitisedContributions(g, lines), k)
  {
    if lines != [] {
      var init, last := lines[..|lines| - 1], lines[|lines| - 1];
      SanitisedIndexIsLast(g, init, k);
      var before, after := Index(ParseLines(g, Sanitise(init))), Index(ParseLines(g, Sanitise(lines)));
      assert SanitisedContributions(g, lines) == SanitisedContributions(g, init) + [SanitisedSlot(g, last)];
      match SanitiseLine(last) {
        case None => assert Sanitise(lines) == Sanitise(init);
        case Some(clean) =>
          assert Sanitise(lines) == Sanitise(init) + [clean];
          ParseAppend(g, Sanitise(init), clean);
      }
      IndexedNext(before, after, SanitisedContributions(g, init), SanitisedSlot(g, last), k);
    }
  }

  /** The offered specifier has no floor, or a lower one than the kept specifier. */
  predicate Lowers(g: Grammar, offered: string, kept: string) {
    FloorOf(g, kept).Some? && (FloorOf(g, offered).None? || Less(FloorOf(g, offered).value, FloorOf(g, kept).value))
  }

  /**
   * `k` drifts from `b` to `a`: it has a last contributor in `b`, and none in
   * `a` or one that lowers its floor.
   */
  predicate DriftsAt(g: Grammar, a: seq<Contribution>, b: seq<Contribution>, k: Slot) {
    LastOf(b, k).Some? && (LastOf(a, k).None? || Lowers(g, SpecOf(a, k), SpecOf(b, k)))
  }

  lemma {:induction false} SameLast(a: seq<Contribution>, b: seq<Contribution>, k: Slot)
    requires |a| == |b| && forall i :: 0 <= i < |a| ==> (Gives(a[i], k) <==> Gives(b[i], k))
    ensures LastOf(a, k) == LastOf(b, k)
  {
    if a != [] {
      SameLast(a[..|a| - 1], b[..|b| - 1], k);
    }
  }

  lemma DriftIsLast(g: Grammar, x: map<Slot, Entry>, y: map<Slot, Entry>, a: seq<Contribution>, b: seq<Contribution>,
      k: Slot)
    requires Indexed(x, a, k) && Indexed(y, b, k)
    ensures Drifts(g, x, y, k) <==> DriftsAt(g, a, b, k)
  {
  }

  lemma LowersIsIrreflexive(g: Grammar, specifier: string)
    ensures !Lowers(g, specifier, specifier)
  {
    if FloorOf(g, specifier).Some? {
      var f := FloorOf(g, specifier).value;
      AtLeastIsTotalPreorder(f, f, f);
    }
  }

  /**
   * The line at `i` does no harm from `b` to `a`: if it is the last contributor
   * of its key in `b`, that key still has one in `a`, with no lower floor; and
   * if it is the last contributor of its key in `a`, it lowers no floor that
   * key has in `b`.
   */
  ghost predicate Harmless(g: Grammar, a: seq<Contribution>, b: seq<Contribution>, i: nat)
    requires i < |a| == |b|
  {
    && (b[i].Some? && LastOf(b, b[i].value.0) == Some(i) ==>
          LastOf(a, b[i].value.0).Some? && !Lowers(g, SpecOf(a, b[i].value.0), b[i].value.1))
    && (a[i].Some? && LastOf(a, a[i].value.0) == Some(i) && LastOf(b, a[i].value.0).Some? ==>
          !Lowers(g, a[i].value.1, SpecOf(b, a[i].value.0)))
  }

  lemma NoDriftWhereHarmless(g: Grammar, a: seq<Contribution>, b: seq<Contribution>, k: Slot)
    requires |a| == |b| && forall i :: 0 <= i < |a| && a[i] != b[i] ==> Harmless(g, a, b, i)
    ensures !DriftsAt(g, a, b, k)
  {
    if LastOf(b, k).Some? {
      var i := LastOf(b, k).value;
      if a[i] == b[i] {
        var j := LastOf(a, k).value;
        if a[j] == b[j] {
          assert i == j;
          LowersIsIrreflexive(g, SpecOf(a, k));
        } else {
          assert Harmless(g, a, b, j);
        }
      } else {
        assert Harmless(g, a, b, i);
      }
    }
  }

  /** Between two versions of a file nothing drifts if and only if every changed line is harmless. */
  lemma HarmlessExactly(g: Grammar, a: seq<Contribution>, b: seq<Contribution>)
    requires |a| == |b|
    ensures (forall k :: !DriftsAt(g, a, b, k)) <==>
      forall i :: 0 <= i < |a| && a[i] != b[i] ==> Harmless(g, a, b, i)
  {
    if forall i :: 0 <= i < |a| && a[i] != b[i] ==> Harmless(g, a, b, i) {
      forall k
        ensures !DriftsAt(g, a, b, k)
      {
        NoDriftWhereHarmless(g, a, b, k);
      }
    }
    if forall k :: !DriftsAt(g, a, b, k) {
      forall i | 0 <= i < |a| && a[i] != b[i]
        ensures Harmless(g, a, b, i)
      {
        assert b[i].Some? ==> !DriftsAt(g, a, b, b[i].value.0);
        assert a[i].Some? ==> !DriftsAt(g, a, b, a[i].value.0);
      }
    }
  }

  /** A line changes its contribution exactly if it loses its meaning. */
  lemma ChangesExactly(g: Grammar, line: string)
    ensures SanitisedSlot(g, line) != IndexSlot(g, line) <==> LosesMeaning(g, line)
  {
    SteadyExactly(g, line);
    SlotOfTrimmed(g, line);
  }

  /**
   * Copying the sanitised file over the file itself would take nothing away:
   * every line that loses its meaning is harmless. The key such a line had,
   * if it was its last contributor, has another one after sanitising; and the
   * key it gets lowers no floor.
   */
  ghost predicate Lossless(g: Grammar, lines: seq<string>) {
    forall i :: 0 <= i < |lines| && LosesMeaning(g, lines[i]) ==>
      Harmless(g, SanitisedContributions(g, lines), Contributions(g, lines), i)
  }

  /**
   * Copying the file over its sanitised copy would take nothing away: the key
   * a losing line gets, if it is its last contributor, is a key of the file,
   * and a key it had hides no floor that the sanitised copy brings back.
   */
  ghost predicate Settles(g: Grammar, lines: seq<string>) {
    forall i :: 0 <= i < |lines| && LosesMeaning(g, lines[i]) ==>
      Harmless(g, Contributions(g, lines), SanitisedContributions(g, lines), i)
  }

  lemma LosslessExactly(g: Grammar, lines: seq<string>)
    ensures Lossless(g, lines) <==> NoDrift(g, Index(ParseLines(g, Sanitise(lines))), Index(ParseLines(g, lines)))
  {
    var raw, clean := Contributions(g, lines), SanitisedContributions(g, lines);
    var x, y := Index(ParseLines(g, Sanitise(lines))), Index(ParseLines(g, lines));
    forall k
      ensures Drifts(g, x, y, k) <==> DriftsAt(g, clean, raw, k)
    {
      IndexIsLast(g, lines, k);
      SanitisedIndexIsLast(g, lines, k);
      DriftIsLast(g, x, y, clean, raw, k);
    }
    forall i | 0 <= i < |lines|
      ensures clean[i] != raw[i] <==> LosesMeaning(g, lines[i])
    {
      ChangesExactly(g, lines[i]);
    }
    HarmlessExactly(g, clean, raw);
  }

  lemma SettlesExactly(g: Grammar, lines: seq<string>)
    ensures Settles(g, lines) <==> NoDrift(g, Index(ParseLines(g, lines)), Index(ParseLines(g, Sanitise(lines))))
  {
    var raw, clean := Contributions(g, lines), SanitisedContributions(g, lines);
    var x, y := Index(ParseLines(g, lines)), Index(ParseLines(g, Sanitise(lines)));
    forall k
      ensures Drifts(g, x, y, k) <==> DriftsAt(g, raw, clean, k)
    {
      IndexIsLast(g, lines, k);
      SanitisedIndexIsLast(g, lines, k);
      DriftIsLast(g, x, y, raw, clean, k);
    }
    forall i | 0 <= i < |lines|
      ensures clean[i] != raw[i] <==> LosesMeaning(g, lines[i])
    {
      ChangesExactly(g, lines[i]);
    }
    HarmlessExactly(g, raw, clean);
  }

  /** Both files give the key of the line at `i` the same specifier, or none. */
  ghost predicate SameAt(a: seq<Contribution>, b: seq<Contribution>, c: Contribution, i: nat) {
    c.Some? && (LastOf(a, c.value.0) == Some(i) || LastOf(b, c.value.0) == Some(i)) ==>
      && LastOf(a, c.value.0).Some? && LastOf(b, c.value.0).Some?
      && SpecOf(a, c.value.0) == SpecOf(b, c.value.0)
  }

  /**
   * Sanitising keeps the index: for every line that loses its meaning, the key
   * it had and the key it gets, if it is the last contributor of that key, have
   * last contributors before and after that give the same specifier.
   */
  ghost predicate KeepsIndex(g: Grammar, lines: seq<string>) {
    var raw, clean := Contributions(g, lines), SanitisedContributions(g, lines);
    forall i :: 0 <= i < |lines| && LosesMeaning(g, lines[i]) ==>
      SameAt(raw, clean, raw[i], i) && SameAt(raw, clean, clean[i], i)
  }

  /** Both files give `k` the same specifier, or neither has it. */
  predicate SpecsAgree(a: seq<Contribution>, b: seq<Contribution>, k: Slot) {
    && (LastOf(a, k).Some? <==> LastOf(b, k).Some?)
    && (LastOf(a, k).Some? && LastOf(b, k).Some? ==> SpecOf(a, k) == SpecOf(b, k))
  }

  lemma AgreeIsLast(x: map<Slot, Entry>, y: map<Slot, Entry>, a: seq<Contribution>, b: seq<Contribution>)
    requires forall k :: Indexed(x, a, k) && Indexed(y, b, k)
    ensures Agree(x, y) <==> forall k :: SpecsAgree(a, b, k)
  {
    if Agree(x, y) {
      forall k
        ensures SpecsAgree(a, b, k)
      {
        assert Indexed(x, a, k) && Indexed(y, b, k);
        assert k in x <==> k in y;
      }
    }
    if forall k :: SpecsAgree(a, b, k) {
      forall k
        ensures (k in x <==> k in y) && (k in x ==> x[k].specifier == y[k].specifier)
      {
        assert SpecsAgree(a, b, k) && Indexed(x, a, k) && Indexed(y, b, k);
      }
    }
  }

  lemma AgreeWhereSame(a: seq<Contribution>, b: seq<Contribution>, k: Slot)
    requires |a| == |b|
    requires forall i :: 0 <= i < |a| && a[i] != b[i] ==> SameAt(a, b, a[i], i) && SameAt(a, b, b[i], i)
    ensures SpecsAgree(a, b, k)
  {
    if LastOf(a, k).Some? {
      var i := LastOf(a, k).value;
      assert a[i] != b[i] ==> SameAt(a, b, a[i], i);
      assert a[i] == b[i] ==> Gives(b[i], k);
    }
    if LastOf(b, k).Some? {
      var i := LastOf(b, k).value;
      assert a[i] != b[i] ==> SameAt(a, b, b[i], i);
      assert a[i] == b[i] ==> Gives(a[i], k);
    }
  }

  lemma SameExactly(a: seq<Contribution>, b: seq<Contribution>)
    requires |a| == |b|
    ensures (forall k :: SpecsAgree(a, b, k)) <==>
      forall i :: 0 <= i < |a| && a[i] != b[i] ==> SameAt(a, b, a[i], i) && SameAt(a, b, b[i], i)
  {
    if forall i :: 0 <= i < |a| && a[i] != b[i] ==> SameAt(a, b, a[i], i) && SameAt(a, b, b[i], i) {
      forall k
        ensures SpecsAgree(a, b, k)
      {
        AgreeWhereSame(a, b, k);
      }
    }
    if forall k :: SpecsAgree(a, b, k) {
      forall i | 0 <= i < |a| && a[i] != b[i]
        ensures SameAt(a, b, a[i], i) && SameAt(a, b, b[i], i)
      {
        assert a[i].Some? ==> SpecsAgree(a, b, a[i].value.0);
        assert b[i].Some? ==> SpecsAgree(a, b, b[i].value.0);
      }
    }
  }

  /**
   * Sanitising a file keeps its parsed index if and only if its losing lines
   * are the last contributors of nothing that differs.
   */
  lemma SanitiseKeepsIndexExactly(g: Grammar, lines: seq<string>)
    ensures Agree(Index(ParseLines(g, lines)), Index(ParseLines(g, Sanitise(lines)))) <==> KeepsIndex(g, lines)
  {
    var raw, clean := Contributions(g, lines), SanitisedContributions(g, lines);
    forall k
      ensures Indexed(Index(ParseLines(g, lines)), raw, k) && Indexed(Index(ParseLines(g, Sanitise(lines))), clean, k)
    {
      IndexIsLast(g, lines, k);
      SanitisedIndexIsLast(g, lines, k);
    }
    forall i | 0 <= i < |lines|
      ensures raw[i] != clean[i] <==> LosesMeaning(g, lines[i])
    {
      ChangesExactly(g, lines[i]);
    }
    AgreeIsLast(Index(ParseLines(g, lines)), Index(ParseLines(g, Sanitise(lines))), raw, clean);
    SameExactly(raw, clean);
  }

  // ------------------------------------------------------------ guarded sync

  datatype Outcome = NoManifest | Refused | Synchronized | WriteFailed

  /** The central manifest (or none), and whether the target can be written. */
  datatype Request = Request(central: Option<seq<string>>, writable: bool)

  /** One guarded sync: the sibling's file afterwards and what is reported. */
  ghost function GuardedSync(g: Grammar, r: Request, sibling: Option<seq<string>>): (Option<seq<string>>, Outcome) {
    if r.central.None? then (sibling, NoManifest)
    else if sibling.Some? && !NoDrift(g, FileIndex(g, r.central), FileIndex(g, sibling)) then (sibling, Refused)
    else if !r.writable then (sibling, WriteFailed)
    else (Some(Written(Sanitise(r.central.value))), Synchronized)
  }

  /**
   * When each report is given: refused exactly if the central manifest would
   * drop a key of the sibling or undercut a bound, and nothing is written but
   * on success.
   */
  lemma SyncOutcomeExactly(g: Grammar, r: Request, sibling: Option<seq<string>>)
    ensures var (after, outcome) := GuardedSync(g, r, sibling);
      && (outcome == NoManifest <==> r.central.None?)
      && (outcome == Refused <==> r.central.Some? && sibling.Some? && TakesAway(g, r.central.value, sibling.value))
      && (outcome == WriteFailed <==> outcome != NoManifest && outcome != Refused && !r.writable)
      && (outcome == Synchronized <==> after != sibling || (outcome != Refused && r.central.Some? && r.writable))
      && (outcome == Synchronized && Sanitise(r.central.value) != [] ==> after == Some(Sanitise(r.central.value)))
      && (outcome == Synchronized && Sanitise(r.central.value) == [] ==> after == Some([""]))
  {
    if r.central.Some? && sibling.Some? {
      var cen, sib := FileIndex(g, r.central), FileIndex(g, sibling);
      forall k
        ensures Drifts(g, cen, sib, k) <==>
          k in sib && (k !in cen || Undercut(g, cen[k].specifier, sib[k].specifier))
      {
        DriftsExactly(g, cen, sib, k);
      }
    }
  }

  /** Some key of `lines` is no key of `central`, or is bounded lower there. */
  ghost predicate TakesAway(g: Grammar, central: seq<string>, lines: seq<string>) {
    var cen, sib := Index(ParseLines(g, central)), Index(ParseLines(g, lines));
    exists k :: k in sib && (k !in cen || Undercut(g, cen[k].specifier, sib[k].specifier))
  }

  /** A sibling project directory, as far as its generated requirements file goes. */
  class SiblingProject {
    var requirements: Option<seq<string>>

    constructor (requirements: Option<seq<string>>)
      ensures this.requirements == requirements
    {
      this.requirements := requirements;
    }

    static method CleanLines(content: seq<string>) returns (clean: seq<string>)
      ensures clean == Sanitise(content)
    {
      clean := [];
      for i := 0 to |content|
        invariant clean == Sanitise(content[..i])
      {
        SanitiseNext(content, i);
        var s := Strip(content[i]);
        if s != "" {
          if ';' in s {
            var (head, marker) := Parts(s);
            clean := clean + [head + "; " + marker.value];
          } else {
            clean := clean + [s];
          }
        }
      }
      assert content[..|content|] == content;
    }

    method SyncManifest(g: Grammar, r: Request) returns (outcome: Outcome)
      modifies this
      ensures (requirements, outcome) == GuardedSync(g, r, old(requirements))
    {
      if r.central.None? {
        return NoManifest;
      }
      if requirements.Some? {
        var drift := FindRequirementDrift(g, r.central, requirements);
        if drift != [] {
          return Refused;
        }
      }
      var clean := CleanLines(r.central.value);
      if !r.writable {
        return WriteFailed;
      }
      requirements := Some(Written(clean));
      return Synchronized;
    }
  }

  lemma WrittenKeepsIndex(g: Grammar, clean: seq<string>)
    ensures Index(ParseLines(g, Written(clean))) == Index(ParseLines(g, clean))
  {
    if clean == [] {
      assert Strip("") == "" && [""][..0] == [];
      assert ParseLine(g, "") == None && ParseLines(g, []) == [];
      assert ParseLines(g, [""]) == [];
    }
  }

  /** A successful sync leaves the sibling with the index of the central manifest exactly if sanitising keeps it. */
  lemma SyncCopiesIndex(g: Grammar, r: Request, sibling: Option<seq<string>>)
    requires GuardedSync(g, r, sibling).1 == Synchronized
    ensures Agree(FileIndex(g, GuardedSync(g, r, sibling).0), FileIndex(g, r.central)) <==>
      KeepsIndex(g, r.central.value)
  {
    WrittenKeepsIndex(g, Sanitise(r.central.value));
    SanitiseKeepsIndexExactly(g, r.central.value);
  }

  /**
   * A sync that succeeded is a fixed point, let through again to the same
   * lines, if and only if its manifest settles; syncing the copy itself always
   * is one.
   */
  lemma SyncIsFixedPointExactly(g: Grammar, r: Request, sibling: Option<seq<string>>)
    requires GuardedSync(g, r, sibling).1 == Synchronized
    ensures var after := GuardedSync(g, r, sibling).0;
      && (GuardedSync(g, r, after) == (after, Synchronized) <==> Settles(g, r.central.value))
      && GuardedSync(g, Request(after, true), after) == (after, Synchronized)
  {
    WrittenKeepsIndex(g, Sanitise(r.central.value));
    SettlesExactly(g, r.central.value);
    CopySyncs(g, r.central.value);
  }

  /** A sanitised copy syncs to itself. */
  lemma CopySyncs(g: Grammar, lines: seq<string>)
    ensures var after := Some(Written(Sanitise(lines)));
      GuardedSync(g, Request(after, true), after) == (after, Synchronized)
  {
    NoDriftIsPreorder(g, FileIndex(g, Some(Written(Sanitise(lines)))), map[], map[]);
    SanitiseTwice(lines);
    if Sanitise(lines) == [] {
      assert Sanitise([""]) == [];
    }
  }

  /** A successful sync of a lossless manifest takes nothing away from the sibling. */
  lemma LosslessSyncKeeps(g: Grammar, r: Request, sibling: Option<seq<string>>)
    requires r.central.Some? && Lossless(g, r.central.value)
    ensures GuardedSync(g, r, sibling).1 == Synchronized ==>
      NoDrift(g, FileIndex(g, GuardedSync(g, r, sibling).0), FileIndex(g, sibling))
  {
    WrittenKeepsIndex(g, Sanitise(r.central.value));
    LosslessExactly(g, r.central.value);
    NoDriftIsPreorder(g, FileIndex(g, sibling), FileIndex(g, r.central),
      Index(ParseLines(g, Sanitise(r.central.value))));
  }

  /** A manifest that is not lossless takes something away from its own copy, although the guard sees no drift. */
  lemma OtherwiseItsOwnCopyLoses(g: Grammar, lines: seq<string>)
    requires !Lossless(g, lines)
    ensures var r := Request(Some(lines), true);
      && GuardedSync(g, r, Some(lines)).1 == Synchronized
      && !NoDrift(g, FileIndex(g, GuardedSync(g, r, Some(lines)).0), FileIndex(g, Some(lines)))
  {
    WrittenKeepsIndex(g, Sanitise(lines));
    LosslessExactly(g, lines);
    NoDriftIsPreorder(g, FileIndex(g, Some(lines)), map[], map[]);
  }

  /** Any sequence of guarded syncs, with arbitrary central manifests in between. */
  ghost function RunSyncs(g: Grammar, sibling: Option<seq<string>>, rs: seq<Request>): Option<seq<string>> {
    if rs == [] then sibling
    else GuardedSync(g, rs[|rs| - 1], RunSyncs(g, sibling, rs[..|rs| - 1])).0
  }

  /** The syncs of `rs` use only manifests of `centrals`. */
  ghost predicate Uses(rs: seq<Request>, centrals: set<seq<string>>) {
    forall r :: r in rs && r.central.Some? ==> r.central.value in centrals
  }

  /** No key the sibling had at the start is gone or has a lower floor. */
  ghost predicate NothingTaken(g: Grammar, start: seq<string>, rs: seq<Request>) {
    && RunSyncs(g, Some(start), rs).Some?
    && NoDrift(g, FileIndex(g, RunSyncs(g, Some(start), rs)), FileIndex(g, Some(start)))
  }

  lemma {:induction false} LosslessSyncsTakeNothing(g: Grammar, start: seq<string>, rs: seq<Request>)
    requires forall r :: r in rs && r.central.Some? ==> Lossless(g, r.central.value)
    ensures NothingTaken(g, start, rs)
  {
    var first := FileIndex(g, Some(start));
    if rs == [] {
      NoDriftIsPreorder(g, first, first, first);
    } else {
      var r, before := rs[|rs| - 1], RunSyncs(g, Some(start), rs[..|rs| - 1]);
      LosslessSyncsTakeNothing(g, start, rs[..|rs| - 1]);
      if GuardedSync(g, r, before).1 == Synchronized {
        LosslessSyncKeeps(g, r, before);
        NoDriftIsPreorder(g, first, FileIndex(g, before), FileIndex(g, RunSyncs(g, Some(start), rs)));
      }
    }
  }

  /** No sequence of guarded syncs of any sibling with these central manifests takes anything away. */
  ghost predicate NeverTakesAway(g: Grammar, centrals: set<seq<string>>) {
    forall start, rs :: Uses(rs, centrals) ==> NothingTaken(g, start, rs)
  }

  lemma LosslessIsEnough(g: Grammar, centrals: set<seq<string>>)
    requires forall lines :: lines in centrals ==> Lossless(g, lines)
    ensures NeverTakesAway(g, centrals)
  {
    forall start, rs: seq<Request> | Uses(rs, centrals)
      ensures NothingTaken(g, start, rs)
    {
      assert forall r :: r in rs && r.central.Some? ==> Lossless(g, r.central.value);
      LosslessSyncsTakeNothing(g, start, rs);
    }
  }

  lemma LosslessIsNeeded(g: Grammar, centrals: set<seq<string>>, lines: seq<string>)
    requires lines in centrals && !Lossless(g, lines)
    ensures !NeverTakesAway(g, centrals)
  {
    var r := Request(Some(lines), true);
    OneSyncTakes(g, lines, r);
    assert Uses([r], centrals);
  }

  /**
   * Sync never takes anything away: over every sequence of guarded syncs of
   * any sibling with these central manifests no key disappears and no floor
   * falls, if and only if every one of the manifests is lossless.
   */
  lemma SyncsNeverTakeAwayExactly(g: Grammar, centrals: set<seq<string>>)
    ensures NeverTakesAway(g, centrals) <==> forall lines :: lines in centrals ==> Lossless(g, lines)
  {
    if forall lines :: lines in centrals ==> Lossless(g, lines) {
      LosslessIsEnough(g, centrals);
    } else {
      var lines :| lines in centrals && !Lossless(g, lines);
      LosslessIsNeeded(g, centrals, lines);
    }
  }

  lemma OneSyncTakes(g: Grammar, lines: seq<string>, r: Request)
    requires !Lossless(g, lines) && r == Request(Some(lines), true)
    ensures !NothingTaken(g, lines, [r])
  {
    OtherwiseItsOwnCopyLoses(g, lines);
    assert [r][..0] == [] && RunSyncs(g, Some(lines), []) == Some(lines);
  }

  /** After any such sequence no final release below an original floor is admitted. */
  lemma SyncsKeepFloors(g: Grammar, start: seq<string>, rs: seq<Request>, k: Slot, v: Version)
    requires g.Valid() && forall r :: r in rs && r.central.Some? ==> Lossless(g, r.central.value)
    requires k in FileIndex(g, Some(start)) && EntryFloor(g, FileIndex(g, Some(start))[k]).Some?
    ensures var after := FileIndex(g, RunSyncs(g, Some(start), rs));
      k in after && (IsFinal(v) && EntryAdmits(g, after[k], v) ==>
        AtLeast(v, EntryFloor(g, FileIndex(g, Some(start))[k]).value))
  {
    LosslessSyncsTakeNothing(g, start, rs);
    GuardKeepsFloors(g, FileIndex(g, RunSyncs(g, Some(start), rs)), FileIndex(g, Some(start)), k, v);
  }

  lemma {:induction false} CanonicalOfPlain(s: string)
    requires forall c :: c in s ==> c !in "-_."
    ensures |Canonical(s)| == |s|
  {
    if s != [] {
      CanonicalOfPlain(s[1..]);
    }
  }

  lemma NameKeyOfPlain(s: string)
    requires forall c :: c in s ==> c !in "-_.["
    ensures |NameKey(s)| == |s|
  {
    var l := Lower(s);
    assert forall c :: c in s ==> LowerChar(c) !in "-_.[";
    assert forall c :: c in l ==> c !in "-_.[";
    assert l[..IndexOf(l, '[')] == l;
    CanonicalOfPlain(l);
  }

  lemma UnreadableLoses(g: Grammar, s: string, head: string, m: string)
    requires Stripped(s) && ';' in s && s[0] != '#' && s[0] != '-'
    requires Parts(s) == (head, Some(m)) && g.recognise(head, Some(m)).None?
    requires |NameKey(s)| != |NameKey(Joined(head, m))|
    ensures LosesMeaning(g, s)
  {
    StripOfStripped(s);
  }

  lemma UnreadableKeys()
    ensures |NameKey("a b;c")| == 5 && |NameKey(Joined("a b", "c"))| == 6
  {
    NameKeyOfPlain("a b;c");
    NameKeyOfPlain(Joined("a b", "c"));
  }

  /** A concrete line that loses its meaning whenever no parser reads it. */
  lemma UnreadableLineLosesMeaning(g: Grammar)
    requires g.recognise("a b", Some("c")).None?
    ensures LosesMeaning(g, "a b;c")
  {
    PartsOfUnreadable();
    UnreadableKeys();
    UnreadableLoses(g, "a b;c", "a b", "c");
  }

  /** A manifest of that line takes something away from its own copy, and syncing it twice is no fixed point. */
  lemma UnreadableManifest(g: Grammar)
    requires g.recognise("a b", Some("c")).None?
    ensures !Lossless(g, ["a b;c"]) && !Settles(g, ["a b;c"]) && !KeepsIndex(g, ["a b;c"])
  {
    var lines := ["a b;c"];
    UnreadableLineLosesMeaning(g);
    UnreadableSlots(g);
    OtherKeyHarms(g, Contributions(g, lines), SanitisedContributions(g, lines));
    assert LosesMeaning(g, lines[0]);
  }

  lemma UnreadableSlots(g: Grammar)
    requires g.recognise("a b", Some("c")).None?
    ensures var raw, clean := IndexSlot(g, "a b;c"), SanitisedSlot(g, "a b;c");
      raw.Some? && clean.Some? && raw.value.0 != clean.value.0
  {
    PartsOfUnreadable();
    UnreadableKeys();
    UnreadableSlotsOf(g, "a b;c", "a b", "c");
  }

  lemma UnreadableSlotsOf(g: Grammar, s: string, head: string, m: string)
    requires Stripped(s) && ';' in s && s[0] == 'a' && head != "" && head[0] == 'a'
    requires Parts(s) == (head, Some(m)) && g.recognise(head, Some(m)).None?
    requires |NameKey(s)| != |NameKey(Joined(head, m))|
    ensures var raw, clean := IndexSlot(g, s), SanitisedSlot(g, s);
      raw.Some? && clean.Some? && raw.value.0 != clean.value.0
  {
    StripOfStripped(s);
    SanitiseKeepsParts(s);
    UnreadableSlot(g, s);
    UnreadableSlot(g, SanitiseLine(s).value);
  }

  lemma UnreadableSlot(g: Grammar, line: string)
    requires Strip(line) != "" && Strip(line)[0] == 'a'
    requires g.recognise(Parts(Strip(line)).0, Parts(Strip(line)).1).None?
    ensures IndexSlot(g, line) == Some((Slot(NameKey(Strip(line)), ""), ""))
  {
    SlotOfTrimmed(g, line);
  }

  /** A single line that gives another key than before keeps neither. */
  lemma OtherKeyHarms(g: Grammar, a: seq<Contribution>, b: seq<Contribution>)
    requires |a| == |b| == 1 && a[0].Some? && b[0].Some? && a[0].value.0 != b[0].value.0
    ensures !Harmless(g, a, b, 0) && !Harmless(g, b, a, 0) && !SameAt(a, b, a[0], 0)
  {
    assert LastOf(a, a[0].value.0) == Some(0) && LastOf(b, b[0].value.0) == Some(0);
  }

  lemma PartsOfUnreadable()
    ensures Parts("a b;c") == ("a b", Some("c"))
  {
    assert "a b;c" == "a b" + [';'] + "c";
    IndexOfSplit("a b", ';', "c");
    assert "a b;c"[..3] == "a b" && "a b;c"[4..] == "c";
    StripOfStripped("a b");
    StripOfStripped("c");
  }
}
