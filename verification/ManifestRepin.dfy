/** Writing the versions installed in a venv back into a requirements manifest. */
module ManifestRepin {
  import opened Text
  import opened Versions
  import opened Requirements

  const PROTECTED: set<string> := {"ruff", "pydantic", "pydantic-core", "pydantic_core"}

  predicate IsNameChar(c: char) {
    'A' <= c <= 'Z' || 'a' <= c <= 'z' || '0' <= c <= '9' || c in "_-."
  }

  /** Length of the longest run of name characters at the start. */
  function NameRun(s: string): (n: nat)
    ensures n <= |s| && (forall i :: 0 <= i < n ==> IsNameChar(s[i])) && (n < |s| ==> !IsNameChar(s[n]))
  {
    if s != "" && IsNameChar(s[0]) then 1 + NameRun(s[1..]) else 0
  }

  predicate PassesThrough(s: string) {
    s == "" || StartsWith(s, "#") || StartsWith(s, "--extra-index-url") || StartsWith(s, "--index-url") ||
      StartsWith(s, "-i ")
  }

  function Dashed(name: string): string {
    seq(|name|, i requires 0 <= i < |name| =>
      if name[i] == '_' || name[i] == '.' then '-' else LowerChar(name[i]))
  }

  function RawName(s: string): string {
    s[..NameRun(s)]
  }

  /** The installed version a line is pinned to, or "" when it is left alone. */
  function PinFor(s: string, installed: map<string, string>): string {
    var raw := RawName(s);
    if raw == "" || Dashed(raw) in PROTECTED then ""
    else if Dashed(raw) in installed && installed[Dashed(raw)] != "" then installed[Dashed(raw)]
    else if Lower(raw) in installed then installed[Lower(raw)]
    else ""
  }

  function MarkerSuffix(s: string): string {
    var i := IndexOf(s, ';');
    if i + 1 < |s| then "; " + Strip(s[i + 1..]) else ""
  }

  /** The line re-pinned to the installed version, or unchanged. */
  function SyncedLine(line: string, installed: map<string, string>): string {
    var s := Strip(line);
    if PassesThrough(s) || PinFor(s, installed) == "" then line
    else RawName(s) + "==" + PinFor(s, installed) + MarkerSuffix(s)
  }

  function Repin(lines: seq<string>, installed: map<string, string>): (r: seq<string>)
    ensures |r| == |lines| && forall i :: 0 <= i < |lines| ==> r[i] == SyncedLine(lines[i], installed)
  {
    seq(|lines|, i requires 0 <= i < |lines| => SyncedLine(lines[i], installed))
  }

  /** Version texts without white space or `;`, as pip prints them. */
  predicate PlainVersions(installed: map<string, string>) {
    forall name :: name in installed ==> forall c :: c in installed[name] ==> c != ';' && !IsSpace(c)
  }

  /** A marker, if any, is non-empty, trimmed and follows "; ". */
  lemma MarkerSuffixShape(s: string)
    requires Stripped(s)
    ensures var m := MarkerSuffix(s);
      m == "" || (|m| > 2 && m[..2] == "; " && Stripped(m[2..]))
  {
    var i := IndexOf(s, ';');
    if i + 1 < |s| {
      var rest := s[i + 1..];
      var k := |rest| - 1;
      assert rest[k] == s[|s| - 1];
      LStripIsSuffix(rest);
      LStripKeepsLast(rest);
      RStripKeeps(LStrip(rest), |LStrip(rest)| - 1);
      assert MarkerSuffix(s)[2..] == Strip(rest);
    }
  }

  lemma {:induction false} LStripKeepsLast(s: string)
    requires s != "" && !IsSpace(s[|s| - 1])
    ensures LStrip(s) != "" && LStrip(s)[|LStrip(s)| - 1] == s[|s| - 1]
  {
    if IsSpace(s[0]) { LStripKeepsLast(s[1..]); }
  }

  /** A pinned line reads back as itself: same name, same marker, not an option. */
  lemma PinReadsBack(raw: string, version: string, suffix: string)
    requires raw != "" && (forall c :: c in raw ==> IsNameChar(c)) && !PassesThrough(raw)
    requires version != "" && forall c :: c in version ==> c != ';' && !IsSpace(c)
    requires suffix == "" || (|suffix| > 2 && suffix[..2] == "; " && Stripped(suffix[2..]))
    ensures var out := raw + "==" + version + suffix;
      Strip(out) == out && RawName(out) == raw && MarkerSuffix(out) == suffix && !PassesThrough(out)
  {
    var pin := raw + "==" + version;
    assert pin[0] == raw[0] && raw[0] in raw && pin[|pin| - 1] == version[|version| - 1];
    MarkerReadsBack(pin, suffix);
    NameReadsBack(raw, version, suffix);
  }

  lemma NameReadsBack(raw: string, version: string, suffix: string)
    requires raw != "" && (forall c :: c in raw ==> IsNameChar(c)) && !PassesThrough(raw)
    ensures var out := raw + "==" + version + suffix; RawName(out) == raw && !PassesThrough(out)
  {
    var out := raw + "==" + version + suffix;
    assert out == raw + ("==" + version + suffix);
    NameRunStops(raw, "==" + version + suffix);
    OptionsNeedNames(raw, out);
  }

  lemma MarkerReadsBack(pin: string, suffix: string)
    requires pin != "" && Stripped(pin) && ';' !in pin
    requires suffix == "" || (|suffix| > 2 && suffix[..2] == "; " && Stripped(suffix[2..]))
    ensures Strip(pin + suffix) == pin + suffix && MarkerSuffix(pin + suffix) == suffix
  {
    if suffix == "" {
      assert pin + suffix == pin;
      StripOfStripped(pin);
    } else {
      assert suffix == "; " + suffix[2..] by { assert suffix == suffix[..2] + suffix[2..]; }
      MarkedPinReadsBack(pin, suffix[2..]);
    }
  }

  lemma MarkedPinReadsBack(pin: string, m: string)
    requires pin != "" && Stripped(pin) && ';' !in pin && m != "" && Stripped(m)
    ensures Strip(pin + ("; " + m)) == pin + ("; " + m) && MarkerSuffix(pin + ("; " + m)) == "; " + m
  {
    var out := pin + ("; " + m);
    assert out == pin + [';'] + (" " + m);
    assert out[0] == pin[0] && out[|out| - 1] == m[|m| - 1];
    StripOfStripped(out);
    IndexOfSplit(pin, ';', " " + m);
    assert out[|pin| + 1..] == " " + m;
    SpacedStrip(m);
  }

  lemma SpacedStrip(m: string)
    requires Stripped(m)
    ensures Strip(" " + m) == m
  {
    assert (" " + m)[1..] == m;
    StripOfStripped(m);
  }

  lemma {:induction false} NameRunStops(raw: string, rest: string)
    requires (forall c :: c in raw ==> IsNameChar(c)) && rest != "" && !IsNameChar(rest[0])
    ensures RawName(raw + rest) == raw
  {
    var s := raw + rest;
    assert forall i :: 0 <= i < |raw| ==> s[i] in raw;
    assert s[|raw|] == rest[0];
    assert NameRun(s) == |raw|;
  }

  /** A pinned line is an option only if its name already was. */
  lemma OptionsNeedNames(raw: string, out: string)
    requires raw != "" && (forall c :: c in raw ==> IsNameChar(c)) && !PassesThrough(raw)
    requires raw + "==" <= out
    ensures !PassesThrough(out)
  {
    assert forall i :: 0 <= i < |raw| ==> out[i] == raw[i] && raw[i] in raw;
    assert out[|raw|] == '=';
    NameOption(raw, out, "--extra-index-url");
    NameOption(raw, out, "--index-url");
  }

  lemma NameOption(raw: string, out: string, option: string)
    requires raw < out && out[|raw|] == '='
    requires '=' !in option
    ensures option <= out ==> option <= raw
  {
    assert option <= out ==> forall i :: 0 <= i < |option| ==> out[i] == option[i] && option[i] in option;
  }

  lemma RawOfOptionFree(s: string)
    requires !PassesThrough(s) && RawName(s) != ""
    ensures !PassesThrough(RawName(s)) && forall c :: c in RawName(s) ==> IsNameChar(c)
  {
    assert RawName(s) <= s;
  }

  /** Re-pinning twice is re-pinning once. */
  lemma SyncedLineIsIdempotent(line: string, installed: map<string, string>)
    requires PlainVersions(installed)
    ensures SyncedLine(SyncedLine(line, installed), installed) == SyncedLine(line, installed)
  {
    var s := Strip(line);
    if !PassesThrough(s) && PinFor(s, installed) != "" {
      PinnedLineReadsBack(s, installed);
    }
  }

  /** `out` pins `raw` to what is installed under `name`. */
  predicate PinnedTo(raw: string, name: string, installed: map<string, string>, out: string) {
    (name == Dashed(raw) || name == Lower(raw)) && name in installed && raw + "==" + installed[name] <= out
  }

  /**
   * A protected, unknown or option line is kept as it is; any other line keeps
   * its name and marker and is pinned to the installed version.
   */
  lemma RepinKeepsNameAndMarker(line: string, installed: map<string, string>)
    requires PlainVersions(installed)
    ensures var s, raw, out := Strip(line), RawName(Strip(line)), SyncedLine(line, installed);
      && (PassesThrough(s) || Dashed(raw) in PROTECTED ==> out == line)
      && (Dashed(raw) !in installed && Lower(raw) !in installed ==> out == line)
      && (out != line ==> RawName(out) == raw && MarkerSuffix(out) == MarkerSuffix(s))
      && (out != line ==> exists name :: PinnedTo(raw, name, installed, out))
  {
    var s := Strip(line);
    if !PassesThrough(s) && PinFor(s, installed) != "" {
      PinnedLineReadsBack(s, installed);
      PinIsInstalled(s, installed);
    }
  }

  /** `dashed` is `name` in lower case with `-` for `_` and `.`. */
  ghost predicate SpelledDashed(dashed: string, name: string) {
    |dashed| == |name| && forall i :: 0 <= i < |name| ==>
      dashed[i] == if name[i] == '_' || name[i] == '.' then '-' else LowerChar(name[i])
  }

  ghost predicate SpelledLower(lower: string, name: string) {
    |lower| == |name| && forall i :: 0 <= i < |name| ==> lower[i] == LowerChar(name[i])
  }

  /** Index options and the packages no re-pin touches. */
  predicate Untouched(s: string, dashed: string) {
    || StartsWith(s, "--extra-index-url") || StartsWith(s, "--index-url") || StartsWith(s, "-i ")
    || dashed == "ruff" || dashed == "pydantic" || dashed == "pydantic-core"
  }

  /** The marker put back: what follows the first `;`, trimmed, if anything does. */
  ghost predicate MarkerOf(s: string, suffix: string) {
    if ';' !in s then suffix == ""
    else exists head, tail :: MarkedAs(s, head, tail, suffix)
  }

  ghost predicate MarkedAs(s: string, head: string, tail: string, suffix: string) {
    s == head + ";" + tail && ';' !in head && suffix == if tail == "" then "" else "; " + Strip(tail)
  }

  lemma MarkerExactly(s: string)
    ensures MarkerOf(s, MarkerSuffix(s))
  {
    var i := IndexOf(s, ';');
    if i < |s| {
      var head, tail := s[..i], s[i + 1..];
      assert s == head + ";" + tail && ';' !in head;
      assert i + 1 < |s| <==> tail != "";
      assert MarkedAs(s, head, tail, MarkerSuffix(s));
    }
  }

  /**
   * Which lines are re-pinned, and to what: a line that starts with a name is
   * pinned to the version installed under the dashed name, else under the
   * lower-case one, unless it is untouched or no such version is known.
   */
  lemma RepinnedExactly(line: string, name: string, rest: string, dashed: string, lower: string,
      installed: map<string, string>)
    requires Strip(line) == name + rest && name != "" && (forall c :: c in name ==> IsNameChar(c))
    requires rest != "" ==> !IsNameChar(rest[0])
    requires SpelledDashed(dashed, name) && SpelledLower(lower, name)
    ensures var out, suffix := SyncedLine(line, installed), MarkerSuffix(Strip(line));
      && MarkerOf(Strip(line), suffix)
      && (Untouched(Strip(line), dashed) ==> out == line)
      && (!Untouched(Strip(line), dashed) ==>
            if dashed in installed && installed[dashed] != "" then out == name + "==" + installed[dashed] + suffix
            else if lower in installed && installed[lower] != "" then out == name + "==" + installed[lower] + suffix
            else out == line)
  {
    var s := Strip(line);
    MarkerExactly(s);
    if rest == "" {
      assert s == name;
      WholeName(name);
    } else {
      NameRunStops(name, rest);
    }
    assert Dashed(name) == dashed && Lower(name) == lower;
    assert s[0] == name[0] && name[0] in name;
    NoUnderscore(dashed, name);
    PinExactly(s, name, dashed, lower, installed);
  }

  lemma PinExactly(s: string, name: string, dashed: string, lower: string, installed: map<string, string>)
    requires s != "" && IsNameChar(s[0]) && RawName(s) == name != "" && Dashed(name) == dashed && Lower(name) == lower
    requires dashed != "pydantic_core"
    ensures PassesThrough(s) || dashed in PROTECTED <==> Untouched(s, dashed)
    ensures dashed !in PROTECTED && dashed in installed && installed[dashed] != "" ==>
      PinFor(s, installed) == installed[dashed]
    ensures dashed !in PROTECTED && !(dashed in installed && installed[dashed] != "") ==>
      PinFor(s, installed) == if lower in installed then installed[lower] else ""
    ensures dashed in PROTECTED ==> PinFor(s, installed) == ""
  {
  }

  lemma WholeName(name: string)
    requires forall c :: c in name ==> IsNameChar(c)
    ensures RawName(name) == name
  {
    assert forall i :: 0 <= i < |name| ==> name[i] in name;
    assert NameRun(name) == |name|;
  }

  lemma NoUnderscore(dashed: string, name: string)
    requires SpelledDashed(dashed, name)
    ensures dashed != "pydantic_core"
  {
    assert forall i :: 0 <= i < |dashed| ==> dashed[i] != '_';
    assert "pydantic_core"[8] == '_';
  }

  /** Blank lines, comments and lines that start with no name stay as they are. */
  lemma NamelessStays(line: string, installed: map<string, string>)
    ensures Strip(line) == "" || !IsNameChar(Strip(line)[0]) ==> SyncedLine(line, installed) == line
  {
  }

  lemma PinnedLineReadsBack(s: string, installed: map<string, string>)
    requires PlainVersions(installed) && Stripped(s) && !PassesThrough(s) && PinFor(s, installed) != ""
    ensures var out := RawName(s) + "==" + PinFor(s, installed) + MarkerSuffix(s);
      Strip(out) == out && RawName(out) == RawName(s) && MarkerSuffix(out) == MarkerSuffix(s) && !PassesThrough(out)
  {
    RawOfOptionFree(s);
    MarkerSuffixShape(s);
    PinReadsBack(RawName(s), PinFor(s, installed), MarkerSuffix(s));
  }

  lemma PinIsInstalled(s: string, installed: map<string, string>)
    requires PinFor(s, installed) != ""
    ensures exists name ::
      PinnedTo(RawName(s), name, installed, RawName(s) + "==" + PinFor(s, installed) + MarkerSuffix(s))
  {
    var raw, pinned := RawName(s), RawName(s) + "==" + PinFor(s, installed);
    assert pinned <= pinned + MarkerSuffix(s);
    assert PinnedTo(raw, Dashed(raw), installed, pinned + MarkerSuffix(s)) ||
      PinnedTo(raw, Lower(raw), installed, pinned + MarkerSuffix(s));
  }

  /** Re-pinning a whole manifest twice is re-pinning it once. */
  lemma RepinIsIdempotent(lines: seq<string>, installed: map<string, string>)
    requires PlainVersions(installed)
    ensures Repin(Repin(lines, installed), installed) == Repin(lines, installed)
  {
    forall i | 0 <= i < |lines| {
      SyncedLineIsIdempotent(lines[i], installed);
    }
  }

  // ------------------------------------------------------------ project sync

  datatype Report = NoProject | NoVenv | NoPackages | Failed | Updated

  /** What the venv query and the two writes would do. */
  datatype Surroundings = Surroundings(
    projectExists: bool, venvValid: bool, installed: map<string, string>, manifestWritable: bool, copyWorks: bool)

  class PinnedProject {
    var manifest: Option<seq<string>>
    var requirements: Option<seq<string>>

    /**
     * Re-pin the manifest from the venv and copy it into the project, without
     * the guard, which then finds no drift between the two.
     */
    method SyncProject(env: Surroundings, ghost g: Grammar) returns (report: Report)
      modifies this
      ensures report == Updated <==>
        env.projectExists && env.venvValid && env.installed != map[] && env.manifestWritable && env.copyWorks
      ensures report == Updated ==>
        requirements == manifest && NoDrift(g, FileIndex(g, manifest), FileIndex(g, requirements))
      ensures report == Updated ==>
        manifest == Some(Written(Repin(if old(manifest).Some? then old(manifest).value else [], env.installed)))
      ensures report == NoProject <==> !env.projectExists
      ensures report == NoVenv <==> env.projectExists && !env.venvValid
      ensures report == NoPackages <==> env.projectExists && env.venvValid && env.installed == map[]
      ensures report == Failed && !env.manifestWritable ==> manifest == old(manifest)
      ensures report != Updated ==> requirements == old(requirements)
      ensures report !in {Updated, Failed} ==> manifest == old(manifest)
    {
      if !env.projectExists { return NoProject; }
      if !env.venvValid { return NoVenv; }
      if env.installed == map[] { return NoPackages; }
      var lines := if manifest.Some? then manifest.value else [];
      if !env.manifestWritable { return Failed; }
      manifest := Some(Written(Repin(lines, env.installed)));
      if !env.copyWorks { return Failed; }
      requirements := manifest;
      NoDriftIsPreorder(g, FileIndex(g, manifest), map[], map[]);
      return Updated;
    }
  }

  /** What the lines contribute once re-pinned. */
  function PinnedContributions(g: Grammar, lines: seq<string>, installed: map<string, string>): seq<Contribution> {
    Contributions(g, Repin(lines, installed))
  }

  /**
   * Re-pinning bypasses the guard. Under a key of a manifest it lowers what
   * the guard protects exactly if the last line that contributes the key
   * before has a floor the last line that contributes it after is below, or
   * no line contributes it after.
   */
  lemma RepinDriftsExactly(g: Grammar, lines: seq<string>, installed: map<string, string>, k: Slot)
    ensures Drifts(g, FileIndex(g, Some(Written(Repin(lines, installed)))), FileIndex(g, Some(lines)), k) <==>
      DriftsAt(g, PinnedContributions(g, lines, installed), Contributions(g, lines), k)
  {
    WrittenKeepsIndex(g, Repin(lines, installed));
    IndexIsLast(g, Repin(lines, installed), k);
    IndexIsLast(g, lines, k);
    DriftIsLast(g, FileIndex(g, Some(Written(Repin(lines, installed)))), FileIndex(g, Some(lines)),
      PinnedContributions(g, lines, installed), Contributions(g, lines), k);
  }

  /** Re-pinning a manifest takes nothing away if and only if every line it changes is harmless. */
  lemma RepinKeepsExactly(g: Grammar, lines: seq<string>, installed: map<string, string>)
    ensures NoDrift(g, FileIndex(g, Some(Written(Repin(lines, installed)))), FileIndex(g, Some(lines))) <==>
      forall i :: 0 <= i < |lines| && IndexSlot(g, SyncedLine(lines[i], installed)) != IndexSlot(g, lines[i]) ==>
        Harmless(g, PinnedContributions(g, lines, installed), Contributions(g, lines), i)
  {
    var pinned, raw := PinnedContributions(g, lines, installed), Contributions(g, lines);
    forall k
      ensures Drifts(g, FileIndex(g, Some(Written(Repin(lines, installed)))), FileIndex(g, Some(lines)), k) <==>
        DriftsAt(g, pinned, raw, k)
    {
      RepinDriftsExactly(g, lines, installed, k);
    }
    assert forall i :: 0 <= i < |lines| ==> pinned[i] == IndexSlot(g, SyncedLine(lines[i], installed));
    HarmlessExactly(g, pinned, raw);
  }

  /** The version a line is pinned to by re-pinning, as the parser reads the pin. */
  predicate ReadsPin(g: Grammar, line: string, installed: map<string, string>, v: Version) {
    var out := IndexSlot(g, SyncedLine(line, installed));
    && out.Some? && IndexSlot(g, line).Some? && out.value.0 == IndexSlot(g, line).value.0
    && out.value.1 != "" && g.clauses(out.value.1) == Some([Clause(Equal, Some(v), false)])
  }

  /**
   * The parser reads every line that changes as a pin of the key the line
   * had, or the line gives no key before and after.
   */
  ghost predicate ReadsPins(g: Grammar, lines: seq<string>, installed: map<string, string>) {
    forall line :: line in lines && SyncedLine(line, installed) != line ==>
      || (exists v :: ReadsPin(g, line, installed, v))
      || (IndexSlot(g, line).None? && IndexSlot(g, SyncedLine(line, installed)).None?)
  }

  /** The last line contributing `k` is pinned below the floor it had. */
  ghost predicate PinnedBelow(g: Grammar, lines: seq<string>, installed: map<string, string>, k: Slot) {
    var last := LastOf(Contributions(g, lines), k);
    && last.Some? && SyncedLine(lines[last.value], installed) != lines[last.value]
    && var floor := FloorOf(g, SpecOf(Contributions(g, lines), k));
       floor.Some? && exists v :: ReadsPin(g, lines[last.value], installed, v) && Less(v, floor.value)
  }

  /** The line gives the same key re-pinned as before, or none either way. */
  ghost predicate KeepsKey(g: Grammar, line: string, installed: map<string, string>) {
    var raw, pinned := IndexSlot(g, line), IndexSlot(g, SyncedLine(line, installed));
    (raw.None? <==> pinned.None?) && (raw.Some? ==> pinned.value.0 == raw.value.0)
  }

  lemma PinKeepsKey(g: Grammar, lines: seq<string>, installed: map<string, string>, line: string)
    requires ReadsPins(g, lines, installed) && line in lines
    ensures KeepsKey(g, line, installed)
  {
    if SyncedLine(line, installed) != line && exists v :: ReadsPin(g, line, installed, v) {
      var v :| ReadsPin(g, line, installed, v);
    }
  }

  lemma SameGivers(g: Grammar, lines: seq<string>, installed: map<string, string>, k: Slot)
    requires forall line :: line in lines ==> KeepsKey(g, line, installed)
    ensures LastOf(PinnedContributions(g, lines, installed), k) == LastOf(Contributions(g, lines), k)
  {
    var pinned, raw := PinnedContributions(g, lines, installed), Contributions(g, lines);
    forall i | 0 <= i < |lines|
      ensures Gives(pinned[i], k) <==> Gives(raw[i], k)
    {
      assert KeepsKey(g, lines[i], installed);
    }
    SameLast(pinned, raw, k);
  }

  lemma FloorOfPin(g: Grammar, line: string, installed: map<string, string>, v: Version)
    requires ReadsPin(g, line, installed, v)
    ensures FloorOf(g, IndexSlot(g, SyncedLine(line, installed)).value.1) == Some(v)
  {
    var pin := Clause(Equal, Some(v), false);
    assert [pin][..0] == [];
    assert Floor([]) == None;
    assert Floor([pin]) == Some(v);
  }

  /**
   * Where the parser reads the pins back, the keys of a whole manifest that
   * fall are exactly those whose last line is pinned to an installed version
   * below the floor it had.
   */
  lemma RepinLowersExactly(g: Grammar, lines: seq<string>, installed: map<string, string>, k: Slot)
    requires ReadsPins(g, lines, installed)
    ensures Drifts(g, FileIndex(g, Some(Written(Repin(lines, installed)))), FileIndex(g, Some(lines)), k) <==>
      PinnedBelow(g, lines, installed, k)
  {
    RepinDriftsExactly(g, lines, installed, k);
    forall line | line in lines
      ensures KeepsKey(g, line, installed)
    {
      PinKeepsKey(g, lines, installed, line);
    }
    SameGivers(g, lines, installed, k);
    var raw := Contributions(g, lines);
    if LastOf(raw, k).Some? {
      LastPinExactly(g, lines, installed, k, LastOf(raw, k).value);
    }
  }

  lemma LastPinExactly(g: Grammar, lines: seq<string>, installed: map<string, string>, k: Slot, i: nat)
    requires ReadsPins(g, lines, installed) && LastOf(Contributions(g, lines), k) == Some(i)
    requires LastOf(PinnedContributions(g, lines, installed), k) == Some(i)
    ensures Lowers(g, SpecOf(PinnedContributions(g, lines, installed), k), SpecOf(Contributions(g, lines), k)) <==>
      PinnedBelow(g, lines, installed, k)
  {
    var line := lines[i];
    assert line in lines;
    if SyncedLine(line, installed) == line {
      LowersIsIrreflexive(g, SpecOf(Contributions(g, lines), k));
    } else {
      var v :| ReadsPin(g, line, installed, v);
      FloorOfPin(g, line, installed, v);
      assert forall w :: ReadsPin(g, line, installed, w) ==> w == v;
    }
  }

  /** The parser reads `a>=2` and `a==1` as what they say. */
  ghost predicate ReadsWitness(g: Grammar) {
    && g.recognise("a>=2", None) == Some(Entry("a", ">=2", None, false, false))
    && g.recognise("a==1", None) == Some(Entry("a", "==1", None, false, false))
    && g.clauses(">=2") == Some([Clause(AtLeastOp, Some(TWO), false)])
    && g.clauses("==1") == Some([Clause(Equal, Some(ONE), false)])
  }

  lemma PlainLine(g: Grammar, s: string, spec: string)
    requires s != "" && Stripped(s) && ';' !in s && s[0] == 'a'
    requires g.recognise(s, None) == Some(Entry("a", spec, None, false, false))
    ensures IndexSlot(g, s) == Some((Slot("a", ""), spec))
  {
    StripOfStripped(s);
    assert s[..IndexOf(s, ';')] == s;
    SlotOfTrimmed(g, s);
    assert Lower("a") == "a" && "a"[..IndexOf("a", '[')] == "a" && "a"[1..] == "";
    assert Canonical("a") == "a";
  }

  lemma WitnessLine()
    ensures SyncedLine("a>=2", map["a" := "1"]) == "a==1"
  {
    var s := "a>=2";
    var installed := map["a" := "1"];
    StripOfStripped(s);
    assert s == "a" + ">=2";
    NameRunStops("a", ">=2");
    assert RawName(s) == "a" && Dashed("a") == "a";
    assert PinFor(s, installed) == "1";
    assert IndexOf(s, ';') == |s|;
    assert MarkerSuffix(s) == "";
    assert "a" + "==" + "1" + "" == "a==1";
  }

  lemma WitnessFloors(g: Grammar)
    requires ReadsWitness(g)
    ensures Lowers(g, "==1", ">=2")
  {
    var one, two := Clause(Equal, Some(ONE), false), Clause(AtLeastOp, Some(TWO), false);
    assert [one][..0] == [] && [two][..0] == [];
    assert Floor([]) == None && Floor([one]) == Some(ONE) && Floor([two]) == Some(TWO);
    OneBelowTwo();
  }

  /** A manifest that asks for `a>=2` over a venv that has `a` 1 is lowered to `a==1`, which the guard would refuse. */
  lemma RepinLowersOldPin(g: Grammar)
    requires ReadsWitness(g)
    ensures Repin(["a>=2"], map["a" := "1"]) == ["a==1"]
    ensures Drifts(g, FileIndex(g, Some(Written(["a==1"]))), FileIndex(g, Some(["a>=2"])), Slot("a", ""))
  {
    WitnessLine();
    PlainLine(g, "a>=2", ">=2");
    PlainLine(g, "a==1", "==1");
    WitnessFloors(g);
    assert Repin(["a>=2"], map["a" := "1"]) == ["a==1"];
    OnlyLineFalls(g, "a>=2", map["a" := "1"], Slot("a", ""), "==1", ">=2");
  }

  lemma OnlyLineFalls(g: Grammar, line: string, installed: map<string, string>, k: Slot, now: string, was: string)
    requires IndexSlot(g, line) == Some((k, was)) && IndexSlot(g, SyncedLine(line, installed)) == Some((k, now))
    requires Lowers(g, now, was)
    ensures Drifts(g, FileIndex(g, Some(Written(Repin([line], installed)))), FileIndex(g, Some([line])), k)
  {
    RepinDriftsExactly(g, [line], installed, k);
    OnlyLineDrifts(g, PinnedContributions(g, [line], installed), Contributions(g, [line]), k);
  }

  lemma OnlyLineDrifts(g: Grammar, a: seq<Contribution>, b: seq<Contribution>, k: Slot)
    requires |a| == |b| == 1 && a[0].Some? && b[0].Some? && a[0].value.0 == b[0].value.0 == k
    requires Lowers(g, a[0].value.1, b[0].value.1)
    ensures DriftsAt(g, a, b, k)
  {
    assert LastOf(a, k) == Some(0) && LastOf(b, k) == Some(0);
  }
}
