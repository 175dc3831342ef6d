/** The write-only secrets vault: blank values keep what is stored. */
module SecretsVault {
  import opened Text

  const KAGGLE := "kaggle"

  /** A secret as a client sends it; `rest` stands for the fields copied as they are. */
  datatype Item = Item(id: string, service: string, secret: Option<string>, rest: string)

  datatype Record = Record(id: string, service: string, value: string, rest: string)

  /** The trimmed value an item sends; "" when it is left out or blank. */
  function Sent(item: Item): string {
    if item.secret.Some? then Strip(item.secret.value) else ""
  }

  predicate HasId(records: seq<Record>, id: string) {
    exists i :: 0 <= i < |records| && records[i].id == id
  }

  /** `{id: record}`; a later record of the same id wins. */
  function Stored(records: seq<Record>): map<string, Record> {
    if records == [] then map[]
    else Stored(records[..|records| - 1])[records[|records| - 1].id := records[|records| - 1]]
  }

  lemma {:induction false} StoredKeys(records: seq<Record>, id: string)
    ensures id in Stored(records) <==> HasId(records, id)
  {
    if records != [] {
      var init := records[..|records| - 1];
      StoredKeys(init, id);
      if HasId(init, id) {
        var i :| 0 <= i < |init| && init[i].id == id;
        assert records[i].id == id;
      }
      if HasId(records, id) && id != records[|records| - 1].id {
        var i :| 0 <= i < |records| && records[i].id == id;
        assert init[i].id == id;
      }
    }
  }

  function Merged(stored: map<string, Record>, item: Item): Record {
    Record(item.id, item.service,
      if Sent(item) != "" then Sent(item) else if item.id in stored then Strip(stored[item.id].value) else "",
      item.rest)
  }

  function Merge(stored: map<string, Record>, items: seq<Item>): (r: seq<Record>)
    ensures |r| == |items| && forall i :: 0 <= i < |items| ==> r[i] == Merged(stored, items[i])
  {
    seq(|items|, i requires 0 <= i < |items| => Merged(stored, items[i]))
  }

  predicate HasKaggleValue(records: seq<Record>) {
    exists i :: 0 <= i < |records| && Lower(records[i].service) == KAGGLE && records[i].value != ""
  }

  /** Each record is the item sent, but for a blank value, which is what was stored. */
  ghost predicate MergedFrom(stored: map<string, Record>, item: Item, r: Record) {
    && r.id == item.id && r.service == item.service && r.rest == item.rest
    && (item.secret.Some? && Strip(item.secret.value) != "" ==> r.value == Strip(item.secret.value))
    && ((item.secret.None? || Strip(item.secret.value) == "") && item.id in stored ==>
          r.value == Strip(stored[item.id].value))
    && ((item.secret.None? || Strip(item.secret.value) == "") && item.id !in stored ==> r.value == "")
  }

  datatype Outcome = Saved | Rejected | StorageFailed

  datatype Request = Request(items: seq<Item>, writable: bool)

  /** What the vault holds: the file once it exists, the legacy seeds before. */
  datatype Vault = Vault(seeds: seq<Record>, file: Option<seq<Record>>) {
    function Records(): seq<Record> {
      if file.Some? then file.value else seeds
    }
  }

  function Save(v: Vault, r: Request): (Vault, Outcome) {
    var records := Merge(Stored(v.Records()), r.items);
    if !HasKaggleValue(records) then (v, Rejected)
    else if !r.writable then (v, StorageFailed)
    else (v.(file := Some(records)), Saved)
  }

  /** No item of the Kaggle service, in whatever case, sends a value or has one stored. */
  ghost predicate NoKaggleValue(stored: map<string, Record>, items: seq<Item>) {
    forall i :: 0 <= i < |items| && Lower(items[i].service) == "kaggle" ==>
      && (items[i].secret.None? || Strip(items[i].secret.value) == "")
      && (items[i].id in stored ==> Strip(stored[items[i].id].value) == "")
  }

  /** A save is rejected exactly if it would leave no Kaggle value. */
  lemma RejectedExactly(v: Vault, r: Request)
    ensures Save(v, r).1 == Rejected <==> NoKaggleValue(Stored(v.Records()), r.items)
  {
    var stored := Stored(v.Records());
    var records := Merge(stored, r.items);
    forall i | 0 <= i < |r.items|
      ensures Lower(records[i].service) == "kaggle" && records[i].value != "" <==>
        Lower(r.items[i].service) == "kaggle" && !NoKaggleValue(stored, [r.items[i]])
    {
      assert MergedFrom(stored, r.items[i], records[i]);
      assert [r.items[i]][0] == r.items[i];
    }
    if !NoKaggleValue(stored, r.items) {
      var i :| 0 <= i < |r.items| && Lower(r.items[i].service) == "kaggle" &&
        !((r.items[i].secret.None? || Strip(r.items[i].secret.value) == "") &&
          (r.items[i].id in stored ==> Strip(stored[r.items[i].id].value) == ""));
      assert [r.items[i]][0] == r.items[i] && !NoKaggleValue(stored, [r.items[i]]);
      assert Lower(records[i].service) == KAGGLE && records[i].value != "";
    }
  }

  ghost predicate LastOf(records: seq<Record>, i: int, id: string) {
    0 <= i < |records| && records[i].id == id && forall j :: i < j < |records| ==> records[j].id != id
  }

  /** The records stored under their ids: the last one of each. */
  lemma {:induction false} StoredExactly(records: seq<Record>, id: string)
    ensures id !in Stored(records) <==> forall i :: 0 <= i < |records| ==> records[i].id != id
    ensures forall i :: LastOf(records, i, id) ==> id in Stored(records) && Stored(records)[id] == records[i]
  {
    StoredKeys(records, id);
    if records != [] && records[|records| - 1].id != id {
      var init := records[..|records| - 1];
      StoredExactly(init, id);
      forall i | LastOf(records, i, id)
        ensures id in Stored(records) && Stored(records)[id] == records[i]
      {
        assert LastOf(init, i, id) && init[i] == records[i];
      }
    }
  }

  class SecretsVault {
    const seeds: seq<Record>
    var file: Option<seq<Record>>

    constructor (seeds: seq<Record>, file: Option<seq<Record>>)
      ensures this.seeds == seeds && this.file == file
    {
      this.seeds, this.file := seeds, file;
    }

    function View(): Vault
      reads this
    {
      Vault(seeds, file)
    }

    method LoadRecords() returns (records: seq<Record>)
      ensures records == View().Records()
    {
      records := if file.Some? then file.value else seeds;
    }

    static method IndexById(records: seq<Record>) returns (stored: map<string, Record>)
      ensures stored == Stored(records)
    {
      stored := map[];
      for i := 0 to |records|
        invariant stored == Stored(records[..i])
      {
        assert records[..i + 1][..i] == records[..i];
        stored := stored[records[i].id := records[i]];
      }
      assert records[..|records|] == records;
    }

    method MergeItems(items: seq<Item>) returns (merged: seq<Record>)
      ensures merged == Merge(Stored(View().Records()), items)
      ensures |merged| == |items| && forall i :: 0 <= i < |items| ==>
        MergedFrom(Stored(if file.Some? then file.value else seeds), items[i], merged[i])
    {
      var records := LoadRecords();
      var stored := IndexById(records);
      merged := [];
      for i := 0 to |items|
        invariant merged == Merge(stored, items[..i])
      {
        var item := items[i];
        var value := if item.secret.Some? then Strip(item.secret.value) else "";
        if value == "" && item.id in stored {
          value := Strip(stored[item.id].value);
        }
        merged := merged + [Record(item.id, item.service, value, item.rest)];
      }
      assert items[..|items|] == items;
    }

    /** Merge, validate and persist; a rejected or failed save leaves the file as it is. */
    method SaveItems(r: Request) returns (outcome: Outcome)
      modifies this
      ensures (View(), outcome) == Save(old(View()), r)
      ensures outcome.Rejected? <==> NoKaggleValue(Stored(old(View()).Records()), r.items)
      ensures outcome.StorageFailed? <==> !outcome.Rejected? && !r.writable
      ensures outcome.Saved? <==> !outcome.Rejected? && r.writable
      ensures !outcome.Saved? ==> file == old(file)
    {
      RejectedExactly(View(), r);
      var records := MergeItems(r.items);
      var kaggle := false;
      for i := 0 to |records|
        invariant kaggle <==> exists k :: 0 <= k < i && Lower(records[k].service) == KAGGLE && records[k].value != ""
      {
        if Lower(records[i].service) == KAGGLE && records[i].value != "" {
          kaggle := true;
        }
      }
      if !kaggle {
        return Rejected;
      }
      if !r.writable {
        return StorageFailed;
      }
      file := Some(records);
      return Saved;
    }
  }

  // ----------------------------------------------------------------- history

  function Run(v: Vault, rs: seq<Request>): Vault {
    if rs == [] then v else Save(Run(v, rs[..|rs| - 1]), rs[|rs| - 1]).0
  }

  /** The `j`-th request of the run was saved. */
  predicate Accepted(v: Vault, rs: seq<Request>, j: nat)
    requires j < |rs|
  {
    Save(Run(v, rs[..j]), rs[j]).1 == Saved
  }

  predicate DistinctIds(items: seq<Item>) {
    forall i, j :: 0 <= i < j < |items| ==> items[i].id != items[j].id
  }

  /** The value stored under `id`, if it is stored at all. */
  function ValueOf(v: Vault, id: string): Option<string> {
    var stored := Stored(v.Records());
    if id in stored then Some(Strip(stored[id].value)) else None
  }

  predicate Mentions(items: seq<Item>, id: string) {
    exists i :: 0 <= i < |items| && items[i].id == id
  }

  /** `id` is sent with the non-blank value `value`. */
  predicate Sends(items: seq<Item>, id: string, value: string) {
    value != "" && exists i :: 0 <= i < |items| && items[i].id == id && Sent(items[i]) == value
  }

  /** `id` is sent, without a value. */
  predicate SendsBlank(items: seq<Item>, id: string) {
    exists i :: 0 <= i < |items| && items[i].id == id && Sent(items[i]) == ""
  }

  lemma {:induction false} StoredIsRecord(records: seq<Record>, i: nat)
    requires i < |records| && forall a, b :: 0 <= a < b < |records| ==> records[a].id != records[b].id
    ensures records[i].id in Stored(records) && Stored(records)[records[i].id] == records[i]
  {
    if i < |records| - 1 {
      StoredIsRecord(records[..|records| - 1], i);
    }
  }

  lemma MergedValue(v: Vault, r: Request, id: string, i: nat)
    requires DistinctIds(r.items) && i < |r.items| && r.items[i].id == id && Save(v, r).1 == Saved
    ensures ValueOf(Save(v, r).0, id) ==
      Some(if Sent(r.items[i]) != "" then Sent(r.items[i]) else ValueOf(v, id).GetOr(""))
  {
    var merged := Merge(Stored(v.Records()), r.items);
    StoredIsRecord(merged, i);
    assert HasId(merged, id) by { assert merged[i].id == id; }
    StoredKeys(merged, id);
    StripOfStripped(merged[i].value);
  }

  /** What one save does to the value of one id. */
  lemma SaveEffect(v: Vault, r: Request, id: string)
    requires DistinctIds(r.items) && Save(v, r).1 == Saved
    ensures !Mentions(r.items, id) <==> ValueOf(Save(v, r).0, id).None?
    ensures forall value :: Sends(r.items, id, value) ==> ValueOf(Save(v, r).0, id) == Some(value)
    ensures SendsBlank(r.items, id) ==> ValueOf(Save(v, r).0, id) == Some(ValueOf(v, id).GetOr(""))
  {
    var merged := Merge(Stored(v.Records()), r.items);
    forall i | 0 <= i < |r.items| && r.items[i].id == id
      ensures ValueOf(Save(v, r).0, id) ==
        Some(if Sent(r.items[i]) != "" then Sent(r.items[i]) else ValueOf(v, id).GetOr(""))
    {
      MergedValue(v, r, id, i);
    }
    assert forall i :: 0 <= i < |merged| ==> merged[i].id == r.items[i].id;
    StoredKeys(merged, id);
    if HasId(merged, id) {
      var i :| 0 <= i < |merged| && merged[i].id == id;
      assert r.items[i].id == id;
    }
    if Mentions(r.items, id) {
      var i :| 0 <= i < |r.items| && r.items[i].id == id;
      assert merged[i].id == id;
    }
  }

  /** From request `k` on, no save was accepted that did not send `id` blank. */
  ghost predicate BlankSince(v: Vault, rs: seq<Request>, k: nat, id: string) {
    forall j :: k <= j < |rs| && Accepted(v, rs, j) ==> SendsBlank(rs[j].items, id)
  }

  /** The last accepted save that was not blank for `id` is the `k`-th, and it sent `value`. */
  ghost predicate LastSent(v: Vault, rs: seq<Request>, k: nat, id: string, value: string) {
    k < |rs| && Accepted(v, rs, k) && Sends(rs[k].items, id, value) && BlankSince(v, rs, k + 1, id)
  }

  /** The last accepted save that was not blank for `id` is the `k`-th, and it left the id out. */
  ghost predicate LastOmitted(v: Vault, rs: seq<Request>, k: nat, id: string) {
    k < |rs| && Accepted(v, rs, k) && !Mentions(rs[k].items, id) && BlankSince(v, rs, k + 1, id)
  }

  lemma BlankSinceInit(v: Vault, rs: seq<Request>, k: nat, id: string)
    requires k < |rs| && BlankSince(v, rs, k, id)
    ensures BlankSince(v, rs[..|rs| - 1], k, id)
    ensures Accepted(v, rs, |rs| - 1) ==> SendsBlank(rs[|rs| - 1].items, id)
  {
    var init := rs[..|rs| - 1];
    forall j: nat | k <= j < |init|
      ensures Accepted(v, init, j) == Accepted(v, rs, j)
    {
      AcceptedInit(v, rs, j);
    }
  }

  lemma AcceptedInit(v: Vault, rs: seq<Request>, j: nat)
    requires j < |rs| - 1
    ensures Accepted(v, rs[..|rs| - 1], j) == Accepted(v, rs, j)
  {
    assert rs[..|rs| - 1][..j] == rs[..j];
  }

  /** One more request that is blank for `id`, or was not accepted, changes its value only from none to "". */
  lemma BlankRequestKeeps(v: Vault, rs: seq<Request>, id: string)
    requires rs != [] && DistinctIds(rs[|rs| - 1].items)
    requires Accepted(v, rs, |rs| - 1) ==> SendsBlank(rs[|rs| - 1].items, id)
    ensures var was, now := ValueOf(Run(v, rs[..|rs| - 1]), id), ValueOf(Run(v, rs), id);
      now == was || now == Some(was.GetOr(""))
  {
    if Accepted(v, rs, |rs| - 1) {
      SaveEffect(Run(v, rs[..|rs| - 1]), rs[|rs| - 1], id);
    }
  }

  /**
   * The write-only contract over any history of saves, accepted or not: the
   * value of an id is the last non-blank one sent since an accepted save last
   * left the id out.
   */
  lemma {:induction false} LastSentValueIsStored(v: Vault, rs: seq<Request>, k: nat, id: string, value: string)
    requires (forall r :: r in rs ==> DistinctIds(r.items)) && LastSent(v, rs, k, id, value)
    ensures ValueOf(Run(v, rs), id) == Some(value)
  {
    var n := |rs| - 1;
    if k == n {
      SaveEffect(Run(v, rs[..n]), rs[n], id);
    } else {
      BlankSinceInit(v, rs, k + 1, id);
      AcceptedInit(v, rs, k);
      LastSentValueIsStored(v, rs[..n], k, id, value);
      BlankRequestKeeps(v, rs, id);
    }
  }

  /** An id that was left out and came back blank, or not at all, has no value. */
  lemma {:induction false} OmittedValueIsGone(v: Vault, rs: seq<Request>, k: nat, id: string)
    requires (forall r :: r in rs ==> DistinctIds(r.items)) && LastOmitted(v, rs, k, id)
    ensures ValueOf(Run(v, rs), id).GetOr("") == ""
  {
    var n := |rs| - 1;
    if k == n {
      SaveEffect(Run(v, rs[..n]), rs[n], id);
    } else {
      BlankSinceInit(v, rs, k + 1, id);
      AcceptedInit(v, rs, k);
      OmittedValueIsGone(v, rs[..n], k, id);
      BlankRequestKeeps(v, rs, id);
    }
  }

  /** An id that every accepted save confirmed without a value keeps its seed. */
  lemma {:induction false} ConfirmedSeedIsKept(v: Vault, rs: seq<Request>, id: string)
    requires (forall r :: r in rs ==> DistinctIds(r.items)) && BlankSince(v, rs, 0, id)
    ensures ValueOf(Run(v, rs), id).GetOr("") == ValueOf(v, id).GetOr("")
  {
    if rs != [] {
      BlankSinceInit(v, rs, 0, id);
      ConfirmedSeedIsKept(v, rs[..|rs| - 1], id);
      BlankRequestKeeps(v, rs, id);
    }
  }

  lemma BlankOneBack(v: Vault, rs: seq<Request>, k: nat, id: string)
    requires 0 < k <= |rs| && BlankSince(v, rs, k, id)
    requires Accepted(v, rs, k - 1) ==> SendsBlank(rs[k - 1].items, id)
    ensures BlankSince(v, rs, k - 1, id)
  {
  }

  lemma NotBlankIsSent(items: seq<Item>, id: string) returns (value: string)
    requires Mentions(items, id) && !SendsBlank(items, id)
    ensures Sends(items, id, value)
  {
    var i :| 0 <= i < |items| && items[i].id == id;
    value := Sent(items[i]);
  }

  /** Going back from request `k`, the history ends at the seed, at an omission or at a value. */
  lemma {:induction false} CasesFrom(v: Vault, rs: seq<Request>, k: nat, id: string)
    requires k <= |rs| && BlankSince(v, rs, k, id)
    ensures BlankSince(v, rs, 0, id)
      || (exists j :: LastOmitted(v, rs, j, id))
      || (exists j, value :: LastSent(v, rs, j, id, value))
  {
    if k == 0 {
    } else if Accepted(v, rs, k - 1) ==> SendsBlank(rs[k - 1].items, id) {
      BlankOneBack(v, rs, k, id);
      CasesFrom(v, rs, k - 1, id);
    } else if Mentions(rs[k - 1].items, id) {
      var value := NotBlankIsSent(rs[k - 1].items, id);
      assert LastSent(v, rs, k - 1, id, value);
    } else {
      assert LastOmitted(v, rs, k - 1, id);
    }
  }

  /** The three cases cover every history. */
  lemma HistoryCases(v: Vault, rs: seq<Request>, id: string)
    ensures BlankSince(v, rs, 0, id)
      || (exists k :: LastOmitted(v, rs, k, id))
      || (exists k, value :: LastSent(v, rs, k, id, value))
  {
    CasesFrom(v, rs, |rs|, id);
  }

  /**
   * What is loaded after any history: what the last accepted save (the one
   * before request `k`) made of what was loaded before it; what was there from
   * the start only as long as no save was accepted.
   */
  lemma {:induction false} RecordsAreLastSaved(v: Vault, rs: seq<Request>, k: nat)
    requires k <= |rs| && forall j :: k <= j < |rs| ==> !Accepted(v, rs, j)
    ensures k == 0 ==> Run(v, rs).Records() == v.Records()
    ensures k > 0 && Accepted(v, rs, k - 1) ==>
      Run(v, rs).Records() == Merge(Stored(Run(v, rs[..k - 1]).Records()), rs[k - 1].items)
  {
    var n := |rs| - 1;
    if k == |rs| {
    } else {
      forall j: nat | j < n
        ensures Accepted(v, rs[..n], j) == Accepted(v, rs, j)
      {
        AcceptedInit(v, rs, j);
      }
      RecordsAreLastSaved(v, rs[..n], k);
      assert !Accepted(v, rs, n);
      assert k > 0 ==> rs[..n][..k - 1] == rs[..k - 1];
    }
  }

  /** A save that is not accepted changes nothing; an accepted one writes a Kaggle value. */
  lemma SaveKeepsKaggle(v: Vault, r: Request)
    ensures Save(v, r).1 != Saved ==> Save(v, r).0 == v
    ensures Save(v, r).1 == Saved ==> Save(v, r).0.file.Some? && HasKaggleValue(Save(v, r).0.file.value)
  {
  }

  /** Whatever was sent, every vault file that a save wrote has a Kaggle value. */
  lemma {:induction false} SavedVaultHasKaggle(v: Vault, rs: seq<Request>)
    ensures Run(v, rs) == v || (Run(v, rs).file.Some? && HasKaggleValue(Run(v, rs).file.value))
    ensures (forall j :: 0 <= j < |rs| ==> !Accepted(v, rs, j)) ==> Run(v, rs) == v
  {
    if rs != [] {
      var init := rs[..|rs| - 1];
      SavedVaultHasKaggle(v, init);
      SaveKeepsKaggle(Run(v, init), rs[|rs| - 1]);
      forall j: nat | j < |init|
        ensures Accepted(v, init, j) == Accepted(v, rs, j)
      {
        AcceptedInit(v, rs, j);
      }
      assert Accepted(v, rs, |init|) <==> Save(Run(v, init), rs[|rs| - 1]).1 == Saved;
    }
  }
}
