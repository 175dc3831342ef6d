/**
 * package.json: version floors of npm ranges, the drift guard, the merge that
 * keeps the project's own release version, the guarded sync and the parity check it
 * must satisfy.
 */
module NpmManifest {
  import opened Text
  import opened Versions

  const RELEASE_KEYS: set<string> := {"version"}

  const SECTIONS: seq<string> := ["dependencies", "devDependencies", "peerDependencies", "optionalDependencies"]

  /** A JSON value: null, an object of strings in file order, or anything else as its canonical text. */
  datatype Value = Null | Object(order: seq<string>, members: map<string, string>) | Other(text: string)

  /** A JSON object in file order. */
  datatype Manifest = Manifest(keys: seq<string>, values: map<string, Value>) {
    ghost predicate Valid() {
      && Distinct(keys)
      && forall k :: k in keys <==> k in values
    }
  }

  ghost predicate Distinct<T>(s: seq<T>) {
    forall i, j :: 0 <= i < j < |s| ==> s[i] != s[j]
  }

  // ------------------------------------------------------------------ floors

  predicate IsDigit(c: char) { '0' <= c <= '9' }

  function SkipSpace(s: string): string {
    if s != "" && IsSpace(s[0]) then SkipSpace(s[1..]) else s
  }

  function SkipRange(s: string): string {
    if s != "" && s[0] in "^~>=v" then SkipRange(s[1..]) else s
  }

  /** The number at the start of `s`, continued from `n`, and the text behind it. */
  function ReadNumber(s: string, n: nat): (r: (nat, string))
    ensures |r.1| <= |s| && (s != "" && IsDigit(s[0]) ==> |r.1| < |s|)
  {
    if s != "" && IsDigit(s[0]) then ReadNumber(s[1..], 10 * n + (s[0] as int - '0' as int)) else (n, s)
  }

  function ReadRelease(s: string): seq<nat>
    requires s != "" && IsDigit(s[0])
    decreases |s|
  {
    var (n, rest) := ReadNumber(s, 0);
    if |rest| >= 2 && rest[0] == '.' && IsDigit(rest[1]) then [n] + ReadRelease(rest[1..]) else [n]
  }

  /** The base version of an npm range such as `^8.71.2`. */
  function NpmFloor(spec: string): Option<Version> {
    var s := SkipSpace(SkipRange(SkipSpace(spec)));
    if s != "" && IsDigit(s[0]) then Some(Version(0, ReadRelease(s), None, None, None, [])) else None
  }

  /** `n` in decimal digits. */
  function Decimal(n: nat): (s: string)
    ensures s != "" && IsDigit(s[0])
  {
    (if n < 10 then "" else Decimal(n / 10)) + [('0' as int + n % 10) as char]
  }

  /** Numbers with dots between them. */
  function Dotted(r: seq<nat>): (s: string)
    requires r != []
    ensures s != "" && IsDigit(s[0])
  {
    if |r| == 1 then Decimal(r[0]) else Decimal(r[0]) + "." + Dotted(r[1..])
  }

  lemma {:induction false} ReadsDecimal(n: nat, rest: string)
    ensures ReadNumber(Decimal(n) + rest, 0) == ReadNumber(rest, n)
  {
    var d := [('0' as int + n % 10) as char];
    assert (d + rest)[1..] == rest;
    if n < 10 {
      assert Decimal(n) + rest == d + rest;
    } else {
      ReadsDecimal(n / 10, d + rest);
      assert Decimal(n) + rest == Decimal(n / 10) + (d + rest);
    }
  }

  /** `rest` neither goes on with a digit nor with a dot and a digit. */
  predicate EndsRelease(rest: string) {
    rest == "" || (!IsDigit(rest[0]) && (rest[0] == '.' && |rest| >= 2 ==> !IsDigit(rest[1])))
  }

  lemma {:induction false} ReadsRelease(r: seq<nat>, rest: string)
    requires r != [] && EndsRelease(rest)
    ensures var s := Dotted(r) + rest; IsDigit(s[0]) && ReadRelease(s) == r
  {
    if |r| == 1 {
      ReadsLast(r[0], rest);
      assert r == [r[0]];
    } else {
      var more := Dotted(r[1..]) + rest;
      ReadsRelease(r[1..], rest);
      assert more[0] == Dotted(r[1..])[0];
      ReadsFirst(r[0], more);
      assert Dotted(r) + rest == Decimal(r[0]) + ("." + more);
      assert r == [r[0]] + r[1..];
    }
  }

  lemma ReadsLast(n: nat, rest: string)
    requires EndsRelease(rest)
    ensures var s := Decimal(n) + rest; IsDigit(s[0]) && ReadRelease(s) == [n]
  {
    var s := Decimal(n) + rest;
    assert s[0] == Decimal(n)[0];
    ReadsDecimal(n, rest);
    assert ReadNumber(rest, n) == (n, rest);
  }

  lemma ReadsFirst(n: nat, more: string)
    requires more != "" && IsDigit(more[0])
    ensures var s := Decimal(n) + ("." + more); IsDigit(s[0]) && ReadRelease(s) == [n] + ReadRelease(more)
  {
    var s := Decimal(n) + ("." + more);
    assert s[0] == Decimal(n)[0];
    ReadsDecimal(n, "." + more);
    assert ("." + more)[1..] == more && ReadNumber("." + more, n) == (n, "." + more);
  }

  lemma {:induction false} SkipsSpace(a: string, s: string)
    requires (forall c :: c in a ==> IsSpace(c)) && (s != "" ==> !IsSpace(s[0]))
    ensures SkipSpace(a + s) == s
  {
    if a == "" {
      assert a + s == s;
    } else {
      assert a[0] in a && (a + s)[1..] == a[1..] + s;
      SkipsSpace(a[1..], s);
    }
  }

  lemma {:induction false} SkipsRange(b: string, s: string)
    requires (forall c :: c in b ==> c in "^~>=v") && (s != "" ==> s[0] !in "^~>=v")
    ensures SkipRange(b + s) == s
  {
    if b == "" {
      assert b + s == s;
    } else {
      assert b[0] in b && (b + s)[1..] == b[1..] + s;
      SkipsRange(b[1..], s);
    }
  }

  /** White space, range characters and white space before `s` are skipped. */
  lemma SkipsToNumber(a: string, b: string, c: string, s: string)
    requires (forall x :: x in a ==> IsSpace(x)) && (forall x :: x in c ==> IsSpace(x))
    requires forall x :: x in b ==> x in "^~>=v"
    requires s != "" ==> !IsSpace(s[0]) && s[0] !in "^~>=v"
    ensures SkipSpace(SkipRange(SkipSpace(a + b + c + s))) == s
  {
    if b == "" {
      assert a + b + c + s == (a + c) + s;
      SkipsSpace(a + c, s);
      SkipsRange("", s);
      SkipsSpace("", s);
      assert "" + s == s;
    } else {
      assert b[0] in b && a + b + c + s == a + (b + c + s);
      SkipsSpace(a, b + c + s);
      assert c != "" ==> c[0] in c;
      assert b + c + s == b + (c + s);
      SkipsRange(b, c + s);
      SkipsSpace(c, s);
    }
  }

  /** The base version of a range is every number it starts with; a range that starts with none has no floor. */
  lemma NpmFloorExactly(a: string, b: string, c: string, r: seq<nat>, rest: string)
    requires (forall x :: x in a ==> IsSpace(x)) && (forall x :: x in c ==> IsSpace(x))
    requires forall x :: x in b ==> x in "^~>=v"
    ensures r != [] && EndsRelease(rest) ==>
      NpmFloor(a + b + c + (Dotted(r) + rest)) == Some(Version(0, r, None, None, None, []))
    ensures (rest != "" ==> !IsDigit(rest[0]) && !IsSpace(rest[0]) && rest[0] !in "^~>=v") ==>
      NpmFloor(a + b + c + rest) == None
  {
    if r != [] && EndsRelease(rest) {
      var s := Dotted(r) + rest;
      assert s[0] == Dotted(r)[0];
      SkipsToNumber(a, b, c, s);
      ReadsRelease(r, rest);
    }
    if rest != "" ==> !IsDigit(rest[0]) && !IsSpace(rest[0]) && rest[0] !in "^~>=v" {
      SkipsToNumber(a, b, c, rest);
    }
  }

  // ------------------------------------------------------------------- drift

  /** `manifest.get(section) or {}`. */
  function Section(m: Manifest, section: string): map<string, string> {
    if section in m.values && m.values[section].Object? then m.values[section].members else map[]
  }

  predicate Drifts(central: Manifest, sibling: Manifest, section: string, name: string) {
    name in Section(sibling, section) &&
    (name !in Section(central, section) ||
     (var held := NpmFloor(Section(sibling, section)[name]);
      var offered := NpmFloor(Section(central, section)[name]);
      held.Some? && (offered.None? || Less(offered.value, held.value))))
  }

  ghost predicate NoDrift(central: Manifest, sibling: Manifest) {
    forall section, name :: section in SECTIONS ==> !Drifts(central, sibling, section, name)
  }

  method FindPackageJsonDrift(central: Manifest, sibling: Manifest) returns (drift: seq<(string, string)>)
    ensures forall d :: d in drift <==> d.0 in SECTIONS && Drifts(central, sibling, d.0, d.1)
    ensures drift == [] <==> NoDrift(central, sibling)
  {
    drift := [];
    for i := 0 to |SECTIONS|
      invariant forall d :: d in drift <==> d.0 in SECTIONS[..i] && Drifts(central, sibling, d.0, d.1)
    {
      var section := SECTIONS[i];
      assert SECTIONS[..i + 1] == SECTIONS[..i] + [section];
      ghost var before := drift;
      var names := Section(sibling, section).Keys;
      while names != {}
        invariant names <= Section(sibling, section).Keys
        invariant forall d ::
          d in drift <==>
            (d in before || (d.0 == section && d.1 !in names && Drifts(central, sibling, section, d.1)))
      {
        var name :| name in names;
        names := names - {name};
        if Drifts(central, sibling, section, name) {
          drift := drift + [(section, name)];
        }
      }
    }
    assert SECTIONS[..|SECTIONS|] == SECTIONS;
    assert drift != [] ==> drift[0] in drift;
    assert forall section, name ::
      section in SECTIONS && Drifts(central, sibling, section, name) ==> (section, name) in drift;
  }

  lemma NoDriftIsPreorder(a: Manifest, b: Manifest, c: Manifest)
    ensures NoDrift(a, a)
    ensures NoDrift(c, b) && NoDrift(b, a) ==> NoDrift(c, a)
  {
    forall section, name | section in SECTIONS && name in Section(a, section)
      ensures !Drifts(a, a, section, name)
      ensures NoDrift(c, b) && NoDrift(b, a) ==> !Drifts(c, a, section, name)
    {
      var held := NpmFloor(Section(a, section)[name]);
      if held.Some? {
        AtLeastIsTotalPreorder(held.value, held.value, held.value);
      }
      assert NoDrift(c, b) && NoDrift(b, a) ==> !Drifts(b, a, section, name) && !Drifts(c, b, section, name);
      if NoDrift(c, b) && NoDrift(b, a) && held.Some? {
        var between := NpmFloor(Section(b, section)[name]).value;
        AtLeastIsTotalPreorder(NpmFloor(Section(c, section)[name]).value, between, held.value);
      }
    }
  }

  /** A dependency of one of the four sections that the central manifest lacks or holds lower. */
  ghost predicate Lost(central: Manifest, sibling: Manifest, section: string, name: string) {
    && (section == "dependencies" || section == "devDependencies"
        || section == "peerDependencies" || section == "optionalDependencies")
    && Depends(sibling, section, name)
    && (Depends(central, section, name) ==>
          var held := NpmFloor(sibling.values[section].members[name]);
          var offered := NpmFloor(central.values[section].members[name]);
          held.Some? && (offered.Some? ==> ComparePadded(offered.value.release, held.value.release) < 0))
  }

  predicate Depends(m: Manifest, section: string, name: string) {
    section in m.values && m.values[section].Object? && name in m.values[section].members
  }

  ghost predicate LosesSome(central: Manifest, sibling: Manifest) {
    exists section, name :: Lost(central, sibling, section, name)
  }

  /** The guard finds drift exactly if some dependency is lost. */
  lemma DriftExactly(central: Manifest, sibling: Manifest)
    ensures NoDrift(central, sibling) <==> !LosesSome(central, sibling)
  {
    forall section, name
      ensures Lost(central, sibling, section, name) <==>
        section in SECTIONS && Drifts(central, sibling, section, name)
    {
      if Depends(sibling, section, name) && Depends(central, section, name) {
        var x, y := central.values[section].members[name], sibling.values[section].members[name];
        if NpmFloor(x).Some? && NpmFloor(y).Some? {
          FloorsComparePadded(x, y);
        }
      }
    }
  }

  /** npm floors compare by zero-padded numbers: a total preorder whose ties are equal padded releases. */
  lemma FloorsComparePadded(x: string, y: string)
    requires NpmFloor(x).Some? && NpmFloor(y).Some?
    ensures var a, b := NpmFloor(x).value, NpmFloor(y).value;
      && (Less(a, b) <==> ComparePadded(a.release, b.release) < 0)
      && (AtLeast(a, b) || AtLeast(b, a))
      && (Same(a, b) <==> ComparePadded(a.release, b.release) == 0)
  {
    var a, b := NpmFloor(x).value, NpmFloor(y).value;
    LessByParts(a, b);
    LessByParts(b, a);
    LexTotal(Suffix(a), Suffix(b));
    AtLeastIsTotalPreorder(a, b, a);
    TrimComparesPadded(a.release, b.release, [], []);
    if Same(a, b) {
      assert |Trim(a.release)| == |Trim(b.release)|;
      assert Trim(a.release) == Key(a)[1..1 + |Trim(a.release)|];
      assert Trim(b.release) == Key(b)[1..1 + |Trim(b.release)|];
    }
  }

  // ------------------------------------------------------------------- merge

  predicate Wanted(central: Manifest, sibling: Manifest, key: string) {
    key in (if key in RELEASE_KEYS then sibling.values else central.values)
  }

  function Keep(keys: seq<string>, p: string -> bool): (r: seq<string>)
    ensures forall k :: k in r <==> k in keys && p(k)
  {
    if keys == [] then [] else
      (if p(keys[0]) then [keys[0]] else []) + Keep(keys[1..], p)
  }

  function MergedKeys(central: Manifest, sibling: Manifest): seq<string> {
    Keep(sibling.keys, k => Wanted(central, sibling, k)) +
    Keep(central.keys, k => k !in sibling.values && Wanted(central, sibling, k))
  }

  /** The central manifest with the sibling's own release fields, in the sibling's key order. */
  function Merge(central: Manifest, sibling: Manifest): Manifest {
    Manifest(MergedKeys(central, sibling),
      map k | k in MergedKeys(central, sibling) && Wanted(central, sibling, k) ::
        if k in RELEASE_KEYS then sibling.values[k] else central.values[k])
  }

  lemma {:induction false} KeepDistinct(keys: seq<string>, p: string -> bool)
    requires Distinct(keys)
    ensures Distinct(Keep(keys, p))
  {
    if keys != [] {
      assert forall k :: k in keys[1..] ==> k != keys[0];
      KeepDistinct(keys[1..], p);
      assert forall k :: k in Keep(keys[1..], p) ==> k in keys[1..];
    }
  }

  lemma {:induction false} KeepAll(keys: seq<string>, p: string -> bool)
    requires forall k :: k in keys ==> p(k)
    ensures Keep(keys, p) == keys
  {
    if keys != [] { KeepAll(keys[1..], p); }
  }

  lemma {:induction false} KeepNone(keys: seq<string>, p: string -> bool)
    requires forall k :: k in keys ==> !p(k)
    ensures Keep(keys, p) == []
  {
    if keys != [] { KeepNone(keys[1..], p); }
  }

  /** The merge holds exactly the central fields and the sibling's release fields. */
  lemma MergeContents(central: Manifest, sibling: Manifest)
    requires central.Valid() && sibling.Valid()
    ensures Merge(central, sibling).Valid()
    ensures forall k :: k !in RELEASE_KEYS ==>
      (k in Merge(central, sibling).values <==> k in central.values) &&
      (k in central.values ==> Merge(central, sibling).values[k] == central.values[k])
    ensures forall k :: k in RELEASE_KEYS ==>
      (k in Merge(central, sibling).values <==> k in sibling.values) &&
      (k in sibling.values ==> Merge(central, sibling).values[k] == sibling.values[k])
  {
    var m := Merge(central, sibling);
    var p := k => Wanted(central, sibling, k);
    var q := k => k !in sibling.values && Wanted(central, sibling, k);
    KeepDistinct(sibling.keys, p);
    KeepDistinct(central.keys, q);
    var a, b := Keep(sibling.keys, p), Keep(central.keys, q);
    assert m.keys == a + b;
    assert forall k :: k in a ==> k in sibling.values;
    forall k ensures k in m.keys <==> Wanted(central, sibling, k) { }
    forall i, j | 0 <= i < j < |m.keys| ensures m.keys[i] != m.keys[j] {
      if i < |a| <= j {
        assert m.keys[i] in a && m.keys[j] in b;
      }
    }
  }

  ghost predicate Before(s: seq<string>, x: string, y: string) {
    exists i, j :: 0 <= i < j < |s| && s[i] == x && s[j] == y
  }

  lemma {:induction false} KeepOrder(keys: seq<string>, p: string -> bool, x: string, y: string)
    requires Before(keys, x, y) && p(x) && p(y)
    ensures Before(Keep(keys, p), x, y)
  {
    var i, j :| 0 <= i < j < |keys| && keys[i] == x && keys[j] == y;
    var kept, rest := Keep(keys, p), Keep(keys[1..], p);
    if i == 0 {
      assert keys[1..][j - 1] == y && y in rest;
      var b :| 0 <= b < |rest| && rest[b] == y;
      assert kept[0] == x && kept[b + 1] == y;
    } else {
      assert keys[1..][i - 1] == x && keys[1..][j - 1] == y;
      KeepOrder(keys[1..], p, x, y);
      var a, b :| 0 <= a < b < |rest| && rest[a] == x && rest[b] == y;
      var shift := |kept| - |rest|;
      assert kept[a + shift] == x && kept[b + shift] == y;
    }
  }

  lemma BeforeInConcat(a: seq<string>, b: seq<string>, x: string, y: string)
    ensures Before(a, x, y) || Before(b, x, y) || (x in a && y in b) ==> Before(a + b, x, y)
  {
    if Before(a, x, y) {
      var i, j :| 0 <= i < j < |a| && a[i] == x && a[j] == y;
      assert (a + b)[i] == x && (a + b)[j] == y;
    } else if Before(b, x, y) {
      var i, j :| 0 <= i < j < |b| && b[i] == x && b[j] == y;
      assert (a + b)[|a| + i] == x && (a + b)[|a| + j] == y;
    } else if x in a && y in b {
      var i, j :| 0 <= i < |a| && a[i] == x && 0 <= j < |b| && b[j] == y;
      assert (a + b)[i] == x && (a + b)[|a| + j] == y;
    }
  }

  /** Kept keys stay in the sibling's order; keys only the central manifest has follow in its order. */
  lemma MergeKeepsOrder(central: Manifest, sibling: Manifest, x: string, y: string)
    requires central.Valid() && sibling.Valid()
    requires x in Merge(central, sibling).values && y in Merge(central, sibling).values
    ensures x in sibling.values && y !in sibling.values ==> Before(Merge(central, sibling).keys, x, y)
    ensures Before(sibling.keys, x, y) ==> Before(Merge(central, sibling).keys, x, y)
    ensures x !in sibling.values && y !in sibling.values && Before(central.keys, x, y) ==>
      Before(Merge(central, sibling).keys, x, y)
  {
    MergeContents(central, sibling);
    var p := k => Wanted(central, sibling, k);
    var q := k => k !in sibling.values && Wanted(central, sibling, k);
    BeforeInConcat(Keep(sibling.keys, p), Keep(central.keys, q), x, y);
    assert Merge(central, sibling).keys == Keep(sibling.keys, p) + Keep(central.keys, q);
    if Before(sibling.keys, x, y) {
      KeepOrder(sibling.keys, p, x, y);
    }
    if Before(central.keys, x, y) && q(x) && q(y) {
      KeepOrder(central.keys, q, x, y);
    }
  }

  /** A manifest that already agrees with the central one is its own merge. */
  lemma MergeOfAgreeing(central: Manifest, m: Manifest)
    requires central.Valid() && m.Valid()
    requires forall k :: k !in RELEASE_KEYS ==> (k in m.values <==> k in central.values)
    requires forall k :: k in m.values && k !in RELEASE_KEYS ==> m.values[k] == central.values[k]
    ensures Merge(central, m) == m
  {
    KeepAll(m.keys, k => Wanted(central, m, k));
    KeepNone(central.keys, k => k !in m.values && Wanted(central, m, k));
    assert MergedKeys(central, m) == m.keys;
    assert Merge(central, m).values == m.values;
  }

  /** Merging again changes neither a value nor the key order. */
  lemma MergeIsIdempotent(central: Manifest, sibling: Manifest)
    requires central.Valid() && sibling.Valid()
    ensures Merge(central, Merge(central, sibling)) == Merge(central, sibling)
  {
    MergeContents(central, sibling);
    MergeOfAgreeing(central, Merge(central, sibling));
  }

  /** `manifest.get(key)`: an absent key and JSON null look the same. */
  function Get(m: Manifest, key: string): Value {
    if key in m.values then m.values[key] else Null
  }

  /** JSON equality: the order of an object's members does not matter. */
  predicate SameValue(v: Value, w: Value) {
    v == w || (v.Object? && w.Object? && v.members == w.members)
  }

  /** The keys the GUI parity check would report. */
  function DifferingKeys(central: Manifest, sibling: Manifest): set<string> {
    set k | k in central.values.Keys + sibling.values.Keys && k !in RELEASE_KEYS
      && !SameValue(Get(central, k), Get(sibling, k))
  }

  /** The values of a key differ: neither both absent or null, nor equal, nor objects with equal members. */
  predicate Differs(central: Manifest, sibling: Manifest, key: string) {
    var v := if key in central.values then central.values[key] else Null;
    var w := if key in sibling.values then sibling.values[key] else Null;
    v != w && !(v.Object? && w.Object? && v.members == w.members)
  }

  /** The parity check reports exactly the keys but `version` whose values differ. */
  lemma DifferingExactly(central: Manifest, sibling: Manifest, key: string)
    ensures key in DifferingKeys(central, sibling) <==> key != "version" && Differs(central, sibling, key)
  {
  }

  /** A merged manifest passes the drift guard and the parity check and keeps the project's version. */
  lemma MergePassesChecks(central: Manifest, sibling: Manifest)
    requires central.Valid() && sibling.Valid()
    ensures NoDrift(central, Merge(central, sibling)) && NoDrift(Merge(central, sibling), central)
    ensures DifferingKeys(central, Merge(central, sibling)) == {}
  {
    MergeContents(central, sibling);
    NoDriftIsPreorder(central, central, central);
    var m := Merge(central, sibling);
    forall section | section in SECTIONS
      ensures Section(m, section) == Section(central, section)
    {
      assert section !in RELEASE_KEYS;
    }
    forall section, name | section in SECTIONS
      ensures !Drifts(central, m, section, name) && !Drifts(m, central, section, name)
    {
      assert !Drifts(central, central, section, name);
    }
  }

  // ------------------------------------------------------------ guarded sync

  /**
   * The JSON codec as a parameter: `parse` reads a text (None unless it is an
   * object), `dump` writes a manifest with LF or CRLF line ends.
   */
  datatype Codec = Codec(parse: string -> Option<Manifest>, dump: (Manifest, bool) -> string) {
    ghost predicate Carries(text: string, key: string, v: Value) {
      parse(text).Some? && key in parse(text).value.values && parse(text).value.values[key] == v
    }

    /** A manifest put together from values that occur in parsed texts. */
    ghost predicate Encodable(m: Manifest) {
      && m.Valid()
      && forall k :: k in m.values ==> exists text, key :: Carries(text, key, m.values[k])
    }

    /** Dumping such a manifest and parsing the text gives it back, with the line ends asked for. */
    ghost predicate Valid() {
      && (forall text :: parse(text).Some? ==> parse(text).value.Valid())
      && (forall m: Manifest, crlf :: Encodable(m) ==> parse(dump(m, crlf)) == Some(m))
      && (forall m: Manifest, crlf :: Encodable(m) ==> (Contains(dump(m, crlf), "\r\n") <==> crlf))
    }
  }

  lemma ParsedIsEncodable(codec: Codec, text: string)
    requires codec.Valid() && codec.parse(text).Some?
    ensures codec.Encodable(codec.parse(text).value)
  {
    var m := codec.parse(text).value;
    forall k | k in m.values
      ensures exists text, key :: codec.Carries(text, key, m.values[k])
    {
      assert codec.Carries(text, k, m.values[k]);
    }
  }

  /** What a sync writes is made of what it read. */
  lemma MergeIsEncodable(codec: Codec, central: Manifest, sibling: Manifest)
    requires codec.Encodable(central) && codec.Encodable(sibling)
    ensures codec.Encodable(Merge(central, sibling))
  {
    MergeContents(central, sibling);
    var m := Merge(central, sibling);
    forall k | k in m.values
      ensures exists text, key :: codec.Carries(text, key, m.values[k])
    {
      assert m.values[k] == (if k in RELEASE_KEYS then sibling.values[k] else central.values[k]);
    }
  }

  datatype Outcome = Unreadable | Refused | Synchronized(touched: bool) | WriteFailed

  const EMPTY := Manifest([], map[])

  function Read(codec: Codec, file: Option<string>): Option<Manifest> {
    if file.None? then Some(EMPTY) else codec.parse(file.value)
  }

  function Target(codec: Codec, central: Manifest, sibling: Manifest, file: Option<string>): string {
    codec.dump(Merge(central, sibling), file.Some? && Contains(file.value, "\r\n"))
  }

  /** The sibling's package.json after one guarded sync, and the report. */
  ghost function GuardedSync(codec: Codec, manifest: string, writable: bool,
      file: Option<string>): (Option<string>, Outcome)
  {
    var central, sibling := codec.parse(manifest), Read(codec, file);
    if central.None? || sibling.None? then (file, Unreadable)
    else if !NoDrift(central.value, sibling.value) then (file, Refused)
    else
      var text := Target(codec, central.value, sibling.value, file);
      if file == Some(text) then (file, Synchronized(false))
      else if !writable then (file, WriteFailed)
      else (Some(text), Synchronized(true))
  }

  /** When each report is given, and that nothing is written but on a success that changes the text. */
  lemma GuardedSyncExactly(codec: Codec, manifest: string, writable: bool, file: Option<string>)
    ensures var (after, outcome) := GuardedSync(codec, manifest, writable, file);
      var central, sibling := codec.parse(manifest), if file.None? then Some(EMPTY) else codec.parse(file.value);
      && (outcome == Unreadable <==> central.None? || sibling.None?)
      && (outcome == Refused <==> central.Some? && sibling.Some? && LosesSome(central.value, sibling.value))
      && (outcome == WriteFailed ==> !writable)
      && (outcome == Synchronized(true) <==> after != file)
      && (outcome.Synchronized? ==>
            after == Some(codec.dump(Merge(central.value, sibling.value), file.Some? && Contains(file.value, "\r\n"))))
  {
    var central, sibling := codec.parse(manifest), Read(codec, file);
    if central.Some? && sibling.Some? {
      DriftExactly(central.value, sibling.value);
    }
  }

  class NpmProject {
    var packageJson: Option<string>

    method SyncNpmManifest(codec: Codec, manifest: string, writable: bool) returns (outcome: Outcome)
      modifies this
      ensures (packageJson, outcome) == GuardedSync(codec, manifest, writable, old(packageJson))
    {
      var central := codec.parse(manifest);
      var sibling := if packageJson.Some? then codec.parse(packageJson.value) else Some(EMPTY);
      if central.None? || sibling.None? {
        return Unreadable;
      }
      var drift := FindPackageJsonDrift(central.value, sibling.value);
      if drift != [] {
        return Refused;
      }
      var text := Target(codec, central.value, sibling.value, packageJson);
      if packageJson == Some(text) {
        return Synchronized(false);
      }
      if !writable {
        return WriteFailed;
      }
      packageJson := Some(text);
      return Synchronized(true);
    }
  }

  /**
   * After a successful npm sync the guard reports nothing, the parity check
   * finds no differing key, the project's own `version` is what it was, and
   * syncing again touches nothing.
   */
  lemma SyncSettles(codec: Codec, manifest: string, writable: bool, file: Option<string>)
    requires codec.Valid() && GuardedSync(codec, manifest, writable, file).1.Synchronized?
    ensures var after := GuardedSync(codec, manifest, writable, file).0;
      var central, sibling, synced := codec.parse(manifest).value, Read(codec, file).value, Read(codec, after);
      && synced.Some? && NoDrift(central, synced.value)
      && DifferingKeys(central, synced.value) == {}
      && ("version" in synced.value.values <==> "version" in sibling.values)
      && ("version" in sibling.values ==> synced.value.values["version"] == sibling.values["version"])
      && GuardedSync(codec, manifest, writable, after) == (after, Synchronized(false))
  {
    var central, sibling := codec.parse(manifest).value, Read(codec, file).value;
    ParsedIsEncodable(codec, manifest);
    if file.Some? {
      ParsedIsEncodable(codec, file.value);
    }
    MergeIsEncodable(codec, central, sibling);
    MergeContents(central, sibling);
    MergePassesChecks(central, sibling);
    MergeIsIdempotent(central, sibling);
    assert "version" in RELEASE_KEYS;
  }

  /** One attempted sync: the central text then current, and whether the file can be written. */
  datatype Request = Request(manifest: string, writable: bool)

  ghost function RunSyncs(codec: Codec, file: Option<string>, rs: seq<Request>): Option<string> {
    if rs == [] then file
    else
      var r := rs[|rs| - 1];
      GuardedSync(codec, r.manifest, r.writable, RunSyncs(codec, file, rs[..|rs| - 1])).0
  }

  /** `after` still has every dependency of `before`, no floor fell, and its `version` is the same. */
  ghost predicate Keeps(before: Manifest, after: Manifest) {
    && NoDrift(after, before)
    && ("version" in after.values <==> "version" in before.values)
    && ("version" in before.values ==> after.values["version"] == before.values["version"])
  }

  lemma KeepsIsPreorder(a: Manifest, b: Manifest, c: Manifest)
    ensures Keeps(a, a)
    ensures Keeps(a, b) && Keeps(b, c) ==> Keeps(a, c)
  {
    NoDriftIsPreorder(a, b, c);
  }

  lemma OneSyncKeeps(codec: Codec, r: Request, file: string)
    requires codec.Valid() && codec.parse(file).Some?
    ensures var after := GuardedSync(codec, r.manifest, r.writable, Some(file)).0;
      && after.Some? && codec.parse(after.value).Some?
      && Keeps(codec.parse(file).value, codec.parse(after.value).value)
  {
    var held := codec.parse(file).value;
    KeepsIsPreorder(held, held, held);
    if GuardedSync(codec, r.manifest, r.writable, Some(file)).1.Synchronized? {
      var central := codec.parse(r.manifest).value;
      SyncSettles(codec, r.manifest, r.writable, Some(file));
      ParsedIsEncodable(codec, r.manifest);
      ParsedIsEncodable(codec, file);
      MergeIsEncodable(codec, central, held);
      MergePassesChecks(central, held);
      NoDriftIsPreorder(held, central, Merge(central, held));
    }
  }

  /** Over any sequence of guarded npm syncs no dependency disappears, no floor falls, the version stays. */
  lemma {:induction false} SyncsNeverTakeAway(codec: Codec, start: string, rs: seq<Request>)
    requires codec.Valid() && codec.parse(start).Some?
    ensures var after := RunSyncs(codec, Some(start), rs);
      && after.Some? && codec.parse(after.value).Some?
      && Keeps(codec.parse(start).value, codec.parse(after.value).value)
  {
    var first := codec.parse(start).value;
    if rs == [] {
      KeepsIsPreorder(first, first, first);
    } else {
      var r, before := rs[|rs| - 1], RunSyncs(codec, Some(start), rs[..|rs| - 1]);
      SyncsNeverTakeAway(codec, start, rs[..|rs| - 1]);
      OneSyncKeeps(codec, r, before.value);
      var after := RunSyncs(codec, Some(start), rs).value;
      KeepsIsPreorder(first, codec.parse(before.value).value, codec.parse(after).value);
    }
  }
}
