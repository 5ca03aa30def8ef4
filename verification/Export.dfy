/** The evidence package: the ledger's rows selected by filters, written one per line, and checked away from the database. */
module Export {
  import opened Wrappers
  import opened CanonicalJson
  import opened Ordering
  import opened Ledger

  // ---- selecting rows -----------------------------------------------------------

  datatype Filters = Filters(task: Option<string>, kind: Option<string>, actor: Option<string>, since: Option<string>, until: Option<string>)

  predicate Admits(f: Filters, e: Event) {
    && (f.task.Some? ==> e.task == f.task)
    && (f.kind.Some? ==> e.kind == f.kind.value)
    && (f.actor.Some? ==> e.actor == f.actor.value)
    && (f.since.Some? ==> TextLe(f.since.value, e.createdAt))
    && (f.until.Some? ==> TextLe(e.createdAt, f.until.value))
  }

  /** The rows the filters admit, in ledger order. */
  function Selected(rows: seq<Row>, f: Filters): (selected: seq<Row>)
    ensures |selected| <= |rows|
  {
    if rows == [] then []
    else
      var n := |rows| - 1;
      Selected(rows[..n], f) + if Admits(f, rows[n].event) then [rows[n]] else []
  }

  function Smaller(a: nat, b: nat): nat {
    if a <= b then a else b
  }

  /** One page of the selection. */
  function Page(selected: seq<Row>, offset: nat, chunk: nat): seq<Row>
    requires offset <= |selected|
  {
    selected[offset..Smaller(offset + chunk, |selected|)]
  }

  /** Reading page by page gives the whole selection, once, in order, whatever the page size. */
  method Scan(rows: seq<Row>, f: Filters, chunk: nat) returns (found: seq<Row>)
    ensures found == if chunk == 0 then [] else Selected(rows, f)
  {
    var offset, page := 0, Page(Selected(rows, f), 0, chunk);
    found := [];
    while page != []
      invariant offset <= |Selected(rows, f)| && found == Selected(rows, f)[..offset]
      invariant page == Page(Selected(rows, f), offset, chunk)
      invariant chunk == 0 ==> offset == 0
      decreases |Selected(rows, f)| - offset
    {
      found := found + page;
      offset := offset + |page|;
      page := Page(Selected(rows, f), offset, chunk);
    }
  }

  // ---- what an export holds -----------------------------------------------------

  /** One exported event as read from a file: a field the hash needs, the number or a hash may be missing. */
  datatype Entry = Entry(number: Option<int>, content: Option<Event>, prevHash: Option<string>, hash: Option<string>)

  function EntryOf(row: Row): Entry {
    Entry(Some(row.number), Some(row.event), Some(row.prevHash), Some(row.hash))
  }

  function EntriesOf(rows: seq<Row>): (entries: seq<Entry>)
    ensures |entries| == |rows|
  {
    seq(|rows|, i requires 0 <= i < |rows| => EntryOf(rows[i]))
  }

  datatype Manifest = Manifest(events: int, first: Option<int>, last: Option<int>, contiguous: bool, fromGenesis: bool,
                               ledgerHead: Option<string>)

  /** The numbers of the entries that have one. */
  function Numbers(entries: seq<Entry>): (numbers: seq<int>)
    ensures |numbers| <= |entries|
  {
    if entries == [] then []
    else
      var n := |entries| - 1;
      Numbers(entries[..n]) + if entries[n].number.Some? then [entries[n].number.value] else []
  }

  predicate Contiguous(numbers: seq<int>) {
    numbers != [] && forall i :: 0 <= i < |numbers| ==> numbers[i] == numbers[0] + i
  }

  predicate FromGenesis(entries: seq<Entry>) {
    entries != [] && entries[0].prevHash == Some(Genesis())
  }

  function BuildManifest(entries: seq<Entry>, head: Option<string>): Manifest {
    var numbers := Numbers(entries);
    Manifest(|entries|, if numbers == [] then None else Some(numbers[0]), if numbers == [] then None else Some(numbers[|numbers| - 1]),
             Contiguous(numbers), FromGenesis(entries), head)
  }

  // ---- checking an export -------------------------------------------------------

  datatype Reason = Unhashable | HashMismatch | Linkage | ManifestCount

  datatype Finding = Finding(index: int, reason: Reason)

  /** Any value that counts as false in place of a payload is taken as the empty one. */
  function OrEmpty(payload: Json): Json {
    if payload == Null || payload == Bool(false) || payload == Num(0) || payload == Str("") || payload == Arr([]) then Obj([]) else payload
  }

  function OrNothing(hash: Option<string>): string {
    if hash.Some? then hash.value else ""
  }

  function Hashed(d: Digest, entry: Entry): string
    requires entry.content.Some?
  {
    var e := entry.content.value;
    ChainHash(d, OrNothing(entry.prevHash), e.(payload := OrEmpty(e.payload)))
  }

  /** What is wrong with the entry at `k`, if anything. */
  function Fault(d: Digest, entries: seq<Entry>, contiguous: bool, k: nat): Option<Reason>
    requires k < |entries|
  {
    var entry := entries[k];
    if entry.content.None? then Some(Unhashable)
    else if entry.hash != Some(Hashed(d, entry)) then Some(HashMismatch)
    else if contiguous && k > 0 && entry.prevHash != entries[k - 1].hash then Some(Linkage)
    else None
  }

  function Faults(d: Digest, entries: seq<Entry>, contiguous: bool, n: nat): seq<Finding>
    requires n <= |entries|
  {
    if n == 0 then []
    else
      var fault := Fault(d, entries, contiguous, n - 1);
      Faults(d, entries, contiguous, n - 1) + if fault.Some? then [Finding(n - 1, fault.value)] else []
  }

  datatype Verdict = Verdict(valid: bool, complete: bool, contiguous: bool, fromGenesis: bool, broken: seq<Finding>)

  function Judge(d: Digest, m: Manifest, entries: seq<Entry>): Verdict {
    var contiguous := Contiguous(Numbers(entries));
    var broken := Faults(d, entries, contiguous, |entries|) + if m.events == |entries| then [] else [Finding(-1, ManifestCount)];
    Verdict(broken == [],
            broken == [] && entries != [] && contiguous && FromGenesis(entries) && entries[|entries| - 1].hash == m.ledgerHead,
            contiguous, FromGenesis(entries), broken)
  }

  method VerifyExport(d: Digest, m: Manifest, entries: seq<Entry>) returns (verdict: Verdict)
    ensures verdict == Judge(d, m, entries)
  {
    var numbers := [];
    for i := 0 to |entries|
      invariant numbers == Numbers(entries[..i])
    {
      assert entries[..i + 1][..i] == entries[..i];
      if entries[i].number.Some? { numbers := numbers + [entries[i].number.value]; }
    }
    assert entries[..|entries|] == entries;
    var contiguous := Contiguous(numbers);
    var broken: seq<Finding> := [];
    for i := 0 to |entries|
      invariant broken == Faults(d, entries, contiguous, i)
    {
      var entry := entries[i];
      if entry.content.None? {
        broken := broken + [Finding(i, Unhashable)];
      } else if entry.hash != Some(Hashed(d, entry)) {
        broken := broken + [Finding(i, HashMismatch)];
      } else if contiguous && i > 0 && entry.prevHash != entries[i - 1].hash {
        broken := broken + [Finding(i, Linkage)];
      }
    }
    if m.events != |entries| { broken := broken + [Finding(-1, ManifestCount)]; }
    var complete := broken == [] && entries != [] && contiguous && FromGenesis(entries) && entries[|entries| - 1].hash == m.ledgerHead;
    verdict := Verdict(broken == [], complete, contiguous, FromGenesis(entries), broken);
  }

  lemma {:induction false} NoFaultsIff(d: Digest, entries: seq<Entry>, contiguous: bool, n: nat)
    requires n <= |entries|
    ensures Faults(d, entries, contiguous, n) == [] <==> forall k :: 0 <= k < n ==> Fault(d, entries, contiguous, k) == None
  {
    if n > 0 { NoFaultsIff(d, entries, contiguous, n - 1); }
  }

  // ---- a complete export is the ledger ------------------------------------------

  /** Nothing the hash needs is missing. */
  predicate Readable(entry: Entry) {
    entry.content.Some? && entry.prevHash.Some? && entry.hash.Some?
  }

  ghost predicate AllReadable(entries: seq<Entry>) {
    forall k :: 0 <= k < |entries| ==> Readable(entries[k])
  }

  /** The entry as the ledger row it claims to be. */
  function RowOf(entry: Entry): Row {
    if entry.content.None? then Row(0, Event("", "", "", None, None, "", Null, ""), "", "")
    else
      var e := entry.content.value;
      Row(0, e.(payload := OrEmpty(e.payload)), OrNothing(entry.prevHash), OrNothing(entry.hash))
  }

  function RowsOf(entries: seq<Entry>): (rows: seq<Row>)
    ensures |rows| == |entries|
  {
    seq(|entries|, i requires 0 <= i < |entries| => RowOf(entries[i]))
  }

  lemma FaultlessIsLinked(d: Digest, entries: seq<Entry>, k: nat)
    requires CollisionFree(d) && k < |entries| && Fault(d, entries, true, k) == None
    requires k == 0 ==> entries[0].prevHash == Some(Genesis())
    requires k > 0 ==> Fault(d, entries, true, k - 1) == None
    ensures Linked(d, if k == 0 then Genesis() else OrNothing(entries[k - 1].hash), RowOf(entries[k]))
    ensures Readable(entries[k]) && entries[k].hash != Some("")
  {
  }

  ghost predicate Faultless(d: Digest, entries: seq<Entry>) {
    forall i :: 0 <= i < |entries| ==> Fault(d, entries, true, i) == None
  }

  lemma FaultlessIsLinkedAt(d: Digest, entries: seq<Entry>, k: nat)
    requires CollisionFree(d) && k < |entries| && FromGenesis(entries) && Faultless(d, entries)
    ensures LinkedAt(d, RowsOf(entries), k) && Readable(entries[k]) && entries[k].hash != Some("")
  {
    FaultlessIsLinked(d, entries, k);
    if k > 0 {
      FaultlessIsLinked(d, entries, k - 1);
      assert RowsOf(entries)[..k][k - 1] == RowOf(entries[k - 1]);
    }
  }

  lemma FaultlessIsChained(d: Digest, entries: seq<Entry>)
    requires CollisionFree(d) && FromGenesis(entries) && Faultless(d, entries)
    ensures AllReadable(entries) && Valid(d, RowsOf(entries)) && entries[|entries| - 1].hash == Some(Head(RowsOf(entries)))
  {
    FaultlessIsValid(d, entries);
    forall k | 0 <= k < |entries| ensures Readable(entries[k]) { FaultlessIsLinkedAt(d, entries, k); }
    FaultlessIsLinkedAt(d, entries, |entries| - 1);
  }

  lemma FaultlessIsValid(d: Digest, entries: seq<Entry>)
    requires CollisionFree(d) && FromGenesis(entries) && Faultless(d, entries)
    ensures Valid(d, RowsOf(entries))
  {
    forall k | 0 <= k < |entries| ensures LinkedAt(d, RowsOf(entries), k) { FaultlessIsLinkedAt(d, entries, k); }
    ValidIff(d, RowsOf(entries));
  }

  lemma CompleteIsChained(d: Digest, m: Manifest, entries: seq<Entry>)
    requires CollisionFree(d) && Judge(d, m, entries).complete
    ensures AllReadable(entries) && Valid(d, RowsOf(entries)) && m.ledgerHead == Some(Head(RowsOf(entries)))
  {
    NoFaultsIff(d, entries, true, |entries|);
    FaultlessIsChained(d, entries);
  }

  /** A file judged complete, whose head is the head of a valid ledger, holds that ledger's events: all of them,
      unchanged, in order, and no others. */
  lemma CompleteExportIsTheLedger(d: Digest, m: Manifest, entries: seq<Entry>, rows: seq<Row>)
    requires CollisionFree(d) && Valid(d, rows)
    requires Judge(d, m, entries).complete && m.ledgerHead == Some(Head(rows))
    ensures AllReadable(entries) && SameSaid(RowsOf(entries), rows)
  {
    CompleteIsChained(d, m, entries);
    HeadFixesEvents(d, RowsOf(entries), rows);
  }

  // ---- an export of a valid ledger ----------------------------------------------

  /** Where the selected rows stand in the ledger. */
  lemma {:induction false} SelectedAt(rows: seq<Row>, f: Filters) returns (at: seq<nat>)
    ensures |at| == |Selected(rows, f)|
    ensures forall i :: 0 <= i < |at| ==> at[i] < |rows| && Selected(rows, f)[i] == rows[at[i]]
    ensures forall i, j :: 0 <= i < j < |at| ==> at[i] < at[j]
  {
    if rows == [] { return []; }
    var n := |rows| - 1;
    at := SelectedAt(rows[..n], f);
    if Admits(f, rows[n].event) { at := at + [n]; }
  }

  /** Row numbers grow along the ledger; numbers may be skipped. */
  ghost predicate Numbered(rows: seq<Row>) {
    forall i, j :: 0 <= i < j < |rows| ==> rows[i].number < rows[j].number
  }

  /** Payloads are objects, as `record` makes them. */
  ghost predicate ObjectPayloads(rows: seq<Row>) {
    forall i :: 0 <= i < |rows| ==> rows[i].event.payload.Obj?
  }

  lemma {:induction false} NumbersOfRows(rows: seq<Row>)
    ensures |Numbers(EntriesOf(rows))| == |rows|
    ensures forall i :: 0 <= i < |rows| ==> Numbers(EntriesOf(rows))[i] == rows[i].number
  {
    if rows != [] {
      var n := |rows| - 1;
      NumbersOfRows(rows[..n]);
      assert EntriesOf(rows)[..n] == EntriesOf(rows[..n]);
    }
  }

  lemma {:induction false} NumbersKeepPace(rows: seq<Row>, i: nat, j: nat)
    requires Numbered(rows) && i <= j < |rows|
    ensures rows[j].number - rows[i].number >= j - i
    decreases j
  {
    if i < j { NumbersKeepPace(rows, i, j - 1); }
  }

  /** Consecutive numbers in the selection come from consecutive rows of the ledger. */
  lemma ConsecutiveRows(rows: seq<Row>, f: Filters, k: nat) returns (at: nat)
    requires Numbered(rows) && 0 < k < |Selected(rows, f)|
    requires Selected(rows, f)[k].number == Selected(rows, f)[k - 1].number + 1
    ensures 0 < at < |rows| && Selected(rows, f)[k] == rows[at] && Selected(rows, f)[k - 1] == rows[at - 1]
  {
    var all := SelectedAt(rows, f);
    at := all[k];
    NumbersKeepPace(rows, all[k - 1], at);
  }

  lemma LinkedRowHashes(d: Digest, row: Row, previous: string)
    requires CollisionFree(d) && Linked(d, previous, row) && row.event.payload.Obj? && previous != ""
    ensures Hashed(d, EntryOf(row)) == row.hash && row.hash != ""
  {
  }

  /** In a valid ledger a row carries the hash of the row before it. */
  lemma CarriesPrevious(d: Digest, rows: seq<Row>, k: nat)
    requires CollisionFree(d) && Valid(d, rows) && 0 < k < |rows|
    ensures rows[k].prevHash == rows[k - 1].hash
  {
    ValidIff(d, rows);
    assert LinkedAt(d, rows, k);
    assert LinkedAt(d, rows, k - 1);
    assert rows[..k][k - 1] == rows[k - 1];
  }

  lemma SelectedRowHashes(d: Digest, rows: seq<Row>, f: Filters, k: nat)
    requires CollisionFree(d) && Valid(d, rows) && ObjectPayloads(rows) && k < |Selected(rows, f)|
    ensures Hashed(d, EntryOf(Selected(rows, f)[k])) == Selected(rows, f)[k].hash
  {
    var at := SelectedAt(rows, f);
    ValidIff(d, rows);
    assert LinkedAt(d, rows, at[k]);
    LinkedRowHashes(d, rows[at[k]], Head(rows[..at[k]]));
  }

  lemma SelectedCarriesPrevious(d: Digest, rows: seq<Row>, f: Filters, k: nat)
    requires CollisionFree(d) && Valid(d, rows) && Numbered(rows) && 0 < k < |Selected(rows, f)|
    requires Contiguous(Numbers(EntriesOf(Selected(rows, f))))
    ensures Selected(rows, f)[k].prevHash == Selected(rows, f)[k - 1].hash
  {
    ContiguousSelection(Selected(rows, f), k);
    var at := ConsecutiveRows(rows, f, k);
    CarriesPrevious(d, rows, at);
  }

  lemma ContiguousSelection(selected: seq<Row>, k: nat)
    requires 0 < k < |selected| && Contiguous(Numbers(EntriesOf(selected)))
    ensures selected[k].number == selected[k - 1].number + 1
  {
    NumbersOfRows(selected);
    var numbers := Numbers(EntriesOf(selected));
    assert numbers[k] == numbers[0] + k && numbers[k - 1] == numbers[0] + (k - 1);
  }

  lemma FaultlessRow(d: Digest, selected: seq<Row>, contiguous: bool, k: nat)
    requires k < |selected| && Hashed(d, EntryOf(selected[k])) == selected[k].hash
    requires contiguous && k > 0 ==> selected[k].prevHash == selected[k - 1].hash
    ensures Fault(d, EntriesOf(selected), contiguous, k) == None
  {
  }

  lemma SelectedHasNoFault(d: Digest, rows: seq<Row>, f: Filters, k: nat)
    requires CollisionFree(d) && Valid(d, rows) && Numbered(rows) && ObjectPayloads(rows) && k < |Selected(rows, f)|
    ensures var entries := EntriesOf(Selected(rows, f)); Fault(d, entries, Contiguous(Numbers(entries)), k) == None
  {
    var contiguous := Contiguous(Numbers(EntriesOf(Selected(rows, f))));
    SelectedRowHashes(d, rows, f, k);
    if contiguous && k > 0 { SelectedCarriesPrevious(d, rows, f, k); }
    FaultlessRow(d, Selected(rows, f), contiguous, k);
  }

  /** Any selection from a valid ledger, with its own manifest, is judged valid. */
  lemma SelectionIsJudgedValid(d: Digest, rows: seq<Row>, f: Filters, head: Option<string>)
    requires CollisionFree(d) && Valid(d, rows) && Numbered(rows) && ObjectPayloads(rows)
    ensures var entries := EntriesOf(Selected(rows, f)); Judge(d, BuildManifest(entries, head), entries).valid
  {
    var entries := EntriesOf(Selected(rows, f));
    forall k | 0 <= k < |entries| ensures Fault(d, entries, Contiguous(Numbers(entries)), k) == None {
      SelectedHasNoFault(d, rows, f, k);
    }
    NoFaultsIff(d, entries, Contiguous(Numbers(entries)), |entries|);
  }

  /** Row numbers leave no gap. */
  ghost predicate Gapless(rows: seq<Row>) {
    forall i :: 0 <= i < |rows| ==> rows[i].number == rows[0].number + i
  }

  lemma {:induction false} AllAdmittedIff(rows: seq<Row>, f: Filters)
    ensures Selected(rows, f) == rows <==> forall i :: 0 <= i < |rows| ==> Admits(f, rows[i].event)
    ensures |Selected(rows, f)| == |rows| ==> Selected(rows, f) == rows
  {
    if rows != [] { AllAdmittedIff(rows[..|rows| - 1], f); }
  }

  /** The selection of a valid ledger is judged complete exactly when the ledger is not empty, has no gap in its
      numbers, and the filters left nothing out. */
  lemma SelectionIsCompleteIff(d: Digest, rows: seq<Row>, f: Filters)
    requires CollisionFree(d) && Valid(d, rows) && Numbered(rows) && ObjectPayloads(rows)
    ensures
      var entries := EntriesOf(Selected(rows, f));
      Judge(d, BuildManifest(entries, Some(Head(rows))), entries).complete <==>
        rows != [] && Gapless(rows) && forall i :: 0 <= i < |rows| ==> Admits(f, rows[i].event)
  {
    var entries := EntriesOf(Selected(rows, f));
    var m := BuildManifest(entries, Some(Head(rows)));
    AllAdmittedIff(rows, f);
    NumbersOfRows(Selected(rows, f));
    SelectionIsJudgedValid(d, rows, f, Some(Head(rows)));
    if Judge(d, m, entries).complete {
      CompleteExportIsTheLedger(d, m, entries, rows);
      GaplessNumbers(rows);
    } else if rows != [] && Gapless(rows) && Selected(rows, f) == rows {
      WholeLedgerIsComplete(d, rows, m);
    }
  }

  lemma GaplessNumbers(rows: seq<Row>)
    ensures Contiguous(Numbers(EntriesOf(rows))) <==> rows != [] && Gapless(rows)
  {
    NumbersOfRows(rows);
    var numbers := Numbers(EntriesOf(rows));
    if Contiguous(numbers) {
      forall i | 0 <= i < |rows| ensures rows[i].number == rows[0].number + i {
        assert numbers[i] == numbers[0] + i;
      }
    }
  }

  lemma WholeLedgerIsComplete(d: Digest, rows: seq<Row>, m: Manifest)
    requires CollisionFree(d) && Valid(d, rows) && rows != [] && Gapless(rows)
    requires m.ledgerHead == Some(Head(rows)) && Judge(d, m, EntriesOf(rows)).valid
    ensures Judge(d, m, EntriesOf(rows)).complete
  {
    GaplessNumbers(rows);
    ValidIff(d, rows);
    assert LinkedAt(d, rows, 0);
    assert LinkedAt(d, rows, |rows| - 1);
  }
}
