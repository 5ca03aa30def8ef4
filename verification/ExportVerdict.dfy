/** What the offline check of an export finds, entry by entry, and that it finds a changed entry whatever was selected. */
module ExportVerdict {
  import opened Wrappers
  import opened CanonicalJson
  import opened Ordering
  import opened Ledger
  import opened Export

  // ---- rows that are exported ---------------------------------------------------

  /** The filters that are set admit the event: the same task, type and actor, and a time neither before nor after. */
  ghost predicate Wanted(f: Filters, e: Event) {
    && (f.task == None || f.task == e.task)
    && (f.kind == None || f.kind == Some(e.kind))
    && (f.actor == None || f.actor == Some(e.actor))
    && (f.since == None || f.since.value == e.createdAt || !TextLe(e.createdAt, f.since.value))
    && (f.until == None || f.until.value == e.createdAt || !TextLe(f.until.value, e.createdAt))
  }

  lemma AdmitsIffWanted(f: Filters, e: Event)
    ensures Admits(f, e) <==> Wanted(f, e)
  {
    if f.since.Some? {
      TextLeIsTotal(f.since.value, e.createdAt);
      if TextLe(f.since.value, e.createdAt) && TextLe(e.createdAt, f.since.value) { TextLeIsAntisymmetric(f.since.value, e.createdAt); }
    }
    if f.until.Some? {
      TextLeIsTotal(f.until.value, e.createdAt);
      if TextLe(f.until.value, e.createdAt) && TextLe(e.createdAt, f.until.value) { TextLeIsAntisymmetric(f.until.value, e.createdAt); }
    }
  }

  /** Exported are exactly the rows the filters want, in ledger order, each once. */
  lemma {:induction false} ExportedAreTheWanted(rows: seq<Row>, f: Filters) returns (at: seq<nat>)
    ensures |at| == |Selected(rows, f)| && forall i :: 0 <= i < |at| ==> at[i] < |rows| && Selected(rows, f)[i] == rows[at[i]]
    ensures forall i, j :: 0 <= i < j < |at| ==> at[i] < at[j]
    ensures forall k: nat :: k in at <==> k < |rows| && Wanted(f, rows[k].event)
  {
    if rows == [] { return []; }
    var n := |rows| - 1;
    at := ExportedAreTheWanted(rows[..n], f);
    AdmitsIffWanted(f, rows[n].event);
    var before := at;
    if Admits(f, rows[n].event) { at := at + [n]; }
    forall k: nat ensures k in at <==> k < |rows| && Wanted(f, rows[k].event) {
      assert k in before <==> k < n && Wanted(f, rows[..n][k].event);
    }
  }

  // ---- consecutive numbers --------------------------------------------------------

  ghost predicate NoNumberBetween(entries: seq<Entry>, i: nat, j: nat)
    requires i <= j <= |entries|
  {
    forall k :: i < k < j ==> entries[k].number.None?
  }

  /** Some entry has a number, and each number is one more than the number before it. */
  ghost predicate Consecutive(entries: seq<Entry>) {
    && (exists i :: 0 <= i < |entries| && entries[i].number.Some?)
    && forall i, j :: 0 <= i < j < |entries| && entries[i].number.Some? && entries[j].number.Some? && NoNumberBetween(entries, i, j) ==>
         entries[j].number.value == entries[i].number.value + 1
  }

  /** The positions of the entries that have a number. */
  function Places(entries: seq<Entry>): (at: seq<nat>)
    ensures forall i :: 0 <= i < |at| ==> at[i] < |entries|
    ensures forall i, j :: 0 <= i < j < |at| ==> at[i] < at[j]
  {
    if entries == [] then []
    else
      var n := |entries| - 1;
      Places(entries[..n]) + if entries[n].number.Some? then [n] else []
  }

  lemma {:induction false} PlacesOfNumbers(entries: seq<Entry>)
    ensures |Places(entries)| == |Numbers(entries)|
    ensures forall i :: 0 <= i < |Places(entries)| ==> entries[Places(entries)[i]].number == Some(Numbers(entries)[i])
  {
    if entries != [] { PlacesOfNumbers(entries[..|entries| - 1]); }
  }

  lemma {:induction false} EveryNumberHasAPlace(entries: seq<Entry>, k: nat)
    requires k < |entries| && entries[k].number.Some?
    ensures k in Places(entries)
  {
    var n := |entries| - 1;
    if k < n {
      EveryNumberHasAPlace(entries[..n], k);
      assert k in Places(entries[..n]);
    }
  }

  /** These are the numbers, in order, and the places they stand at. */
  ghost predicate Placed(entries: seq<Entry>, at: seq<nat>, numbers: seq<int>) {
    && |at| == |numbers|
    && (forall i :: 0 <= i < |at| ==> at[i] < |entries| && entries[at[i]].number == Some(numbers[i]))
    && (forall i, j :: 0 <= i < j < |at| ==> at[i] < at[j])
    && (forall k :: 0 <= k < |entries| && entries[k].number.Some? ==> k in at)
  }

  lemma NumbersArePlaced(entries: seq<Entry>)
    ensures Placed(entries, Places(entries), Numbers(entries))
  {
    PlacesOfNumbers(entries);
    forall k | 0 <= k < |entries| && entries[k].number.Some? ensures k in Places(entries) { EveryNumberHasAPlace(entries, k); }
  }

  lemma NeighbouringPlaces(entries: seq<Entry>, at: seq<nat>, numbers: seq<int>, i: nat)
    requires Placed(entries, at, numbers) && i + 1 < |at|
    ensures at[i] < at[i + 1] < |entries| && NoNumberBetween(entries, at[i], at[i + 1])
  {
    assert forall j :: 0 <= j < |at| ==> at[j] <= at[i] || at[j] >= at[i + 1];
  }

  lemma {:induction false} ClimbsByOne(numbers: seq<int>, i: nat)
    requires i < |numbers| && forall k :: 0 <= k < |numbers| - 1 ==> numbers[k + 1] == numbers[k] + 1
    ensures numbers[i] == numbers[0] + i
    decreases i
  {
    if i > 0 {
      ClimbsByOne(numbers, i - 1);
      assert numbers[(i - 1) + 1] == numbers[i - 1] + 1;
    }
  }

  lemma ContiguousIffConsecutive(entries: seq<Entry>)
    ensures Contiguous(Numbers(entries)) <==> Consecutive(entries)
  {
    NumbersArePlaced(entries);
    PlacedConsecutiveIff(entries, Places(entries), Numbers(entries));
  }

  lemma PlacedConsecutiveIff(entries: seq<Entry>, at: seq<nat>, numbers: seq<int>)
    requires Placed(entries, at, numbers)
    ensures Contiguous(numbers) <==> Consecutive(entries)
  {
    if Consecutive(entries) {
      forall i | 0 <= i < |numbers| - 1 ensures numbers[i + 1] == numbers[i] + 1 { NeighbouringPlaces(entries, at, numbers, i); }
      forall i | 0 <= i < |numbers| ensures numbers[i] == numbers[0] + i { ClimbsByOne(numbers, i); }
    }
    if Contiguous(numbers) {
      assert entries[at[0]].number.Some?;
      forall i, j | 0 <= i < j < |entries| && entries[i].number.Some? && entries[j].number.Some? && NoNumberBetween(entries, i, j)
        ensures entries[j].number.value == entries[i].number.value + 1
      {
        NextNumber(entries, at, numbers, i, j);
      }
    }
  }

  lemma NextNumber(entries: seq<Entry>, at: seq<nat>, numbers: seq<int>, i: nat, j: nat)
    requires Placed(entries, at, numbers) && Contiguous(numbers) && i < j < |entries| && NoNumberBetween(entries, i, j)
    requires entries[i].number.Some? && entries[j].number.Some?
    ensures entries[j].number.value == entries[i].number.value + 1
  {
    var p :| 0 <= p < |at| && at[p] == i;
    var q :| 0 <= q < |at| && at[q] == j;
    NextInOrder(at, numbers, p, q);
  }

  lemma NextInOrder(at: seq<nat>, numbers: seq<int>, p: nat, q: nat)
    requires |at| == |numbers| && Contiguous(numbers) && p < |at| && q < |at| && at[p] < at[q]
    requires forall i, j :: 0 <= i < j < |at| ==> at[i] < at[j]
    requires forall r :: 0 <= r < |at| ==> at[r] <= at[p] || at[r] >= at[q]
    ensures numbers[q] == numbers[p] + 1
  {
    assert p < q;
    assert at[p + 1] >= at[q];
    assert q == p + 1;
    assert numbers[q] == numbers[0] + q && numbers[p] == numbers[0] + p;
  }

  // ---- one entry ----------------------------------------------------------------------

  /** A payload that counts as nothing. */
  predicate CountsAsNothing(payload: Json) {
    payload in {Null, Bool(false), Num(0), Str(""), Arr([]), Obj([])}
  }

  /** What the hash of an entry is taken over: its own previous hash, or 64 zeros where it has none. */
  ghost predicate TakenOver(entry: Entry, previous: string) {
    if entry.prevHash.Some? && entry.prevHash.value != "" then previous == entry.prevHash.value
    else |previous| == 64 && forall i :: 0 <= i < 64 ==> previous[i] == '0'
  }

  /** The entry carries the digest of what it says. */
  ghost predicate Hashes(d: Digest, entry: Entry) {
    entry.content.Some? && exists previous :: TakenOver(entry, previous) && entry.hash == Some(d(previous, Covered(entry.content.value)))
  }

  /** All the event says, its payload in canonical form. */
  function Covered(e: Event): Event {
    e.(payload := Canon(if CountsAsNothing(e.payload) then Obj([]) else e.payload))
  }

  lemma HashesIff(d: Digest, entry: Entry)
    requires entry.content.Some?
    ensures Hashes(d, entry) <==> entry.hash == Some(Hashed(d, entry))
  {
    assert TakenOver(entry, OrGenesis(OrNothing(entry.prevHash)));
    forall previous | TakenOver(entry, previous) ensures previous == OrGenesis(OrNothing(entry.prevHash)) {}
  }

  /** What is wrong with the entry at `k`. */
  ghost predicate Wrong(d: Digest, entries: seq<Entry>, k: nat, reason: Reason)
    requires k < |entries|
  {
    match reason
    case Unhashable => entries[k].content.None?
    case HashMismatch => entries[k].content.Some? && !Hashes(d, entries[k])
    case Linkage => Hashes(d, entries[k]) && Consecutive(entries) && k > 0 && entries[k].prevHash != entries[k - 1].hash
    case ManifestCount => false
  }

  lemma FaultIff(d: Digest, entries: seq<Entry>, k: nat, reason: Reason)
    requires k < |entries|
    ensures Fault(d, entries, Contiguous(Numbers(entries)), k) == Some(reason) <==> Wrong(d, entries, k, reason)
  {
    ContiguousIffConsecutive(entries);
    if entries[k].content.Some? { HashesIff(d, entries[k]); }
  }

  // ---- the verdict ---------------------------------------------------------------------

  lemma {:induction false} FaultsAre(d: Digest, entries: seq<Entry>, contiguous: bool, n: nat)
    requires n <= |entries|
    ensures forall f :: f in Faults(d, entries, contiguous, n) <==>
      0 <= f.index < n && Fault(d, entries, contiguous, f.index) == Some(f.reason)
  {
    if n > 0 { FaultsAre(d, entries, contiguous, n - 1); }
  }

  /** Findings come in the order of the entries, and the count last. */
  lemma {:induction false} FaultsAreInOrder(d: Digest, entries: seq<Entry>, contiguous: bool, n: nat)
    requires n <= |entries|
    ensures InOrder(Faults(d, entries, contiguous, n), n)
  {
    if n > 0 {
      FaultsAreInOrder(d, entries, contiguous, n - 1);
      OneFindingMore(Faults(d, entries, contiguous, n - 1), n - 1, Fault(d, entries, contiguous, n - 1));
    }
  }

  ghost predicate InOrder(findings: seq<Finding>, n: nat) {
    && (forall i :: 0 <= i < |findings| ==> findings[i].index < n)
    && (forall i, j :: 0 <= i < j < |findings| ==> findings[i].index < findings[j].index)
  }

  lemma OneFindingMore(findings: seq<Finding>, n: nat, fault: Option<Reason>)
    requires InOrder(findings, n)
    ensures InOrder(findings + if fault.Some? then [Finding(n, fault.value)] else [], n + 1)
  {
  }

  /** Reported is exactly what is wrong with each entry, and the count when the manifest gives another one. */
  lemma ReportedIff(d: Digest, m: Manifest, entries: seq<Entry>, f: Finding)
    ensures f in Judge(d, m, entries).broken <==>
      (0 <= f.index < |entries| && Wrong(d, entries, f.index, f.reason)) || (f == Finding(-1, ManifestCount) && m.events != |entries|)
  {
    FaultsAre(d, entries, Contiguous(Numbers(entries)), |entries|);
    if 0 <= f.index < |entries| { FaultIff(d, entries, f.index, f.reason); }
  }

  /** An export is valid exactly when the manifest counts its entries, each hashes to what it says, and, where numbers are
      consecutive, each names the hash of the one before it. */
  lemma ValidIffSound(d: Digest, m: Manifest, entries: seq<Entry>)
    ensures Judge(d, m, entries).valid <==>
      && m.events == |entries|
      && (forall k :: 0 <= k < |entries| ==> Hashes(d, entries[k]))
      && (Consecutive(entries) ==> forall k :: 0 < k < |entries| ==> entries[k].prevHash == entries[k - 1].hash)
  {
    var broken := Judge(d, m, entries).broken;
    if broken == [] {
      forall k | 0 <= k < |entries|
        ensures Hashes(d, entries[k]) && (Consecutive(entries) && k > 0 ==> entries[k].prevHash == entries[k - 1].hash)
      {
        ReportedIff(d, m, entries, Finding(k, Unhashable));
        ReportedIff(d, m, entries, Finding(k, HashMismatch));
        ReportedIff(d, m, entries, Finding(k, Linkage));
      }
    } else {
      assert broken[0] in broken;
      ReportedIff(d, m, entries, broken[0]);
    }
    ReportedIff(d, m, entries, Finding(-1, ManifestCount));
  }

  /** It is complete exactly when it is valid, its numbers are consecutive, the first entry starts the chain with 64 zeros, and
      the last one carries the head on the manifest. */
  lemma CompleteIffWhole(d: Digest, m: Manifest, entries: seq<Entry>)
    ensures Judge(d, m, entries).complete <==>
      && Judge(d, m, entries).valid && Consecutive(entries)
      && (entries[0].prevHash.Some? && |entries[0].prevHash.value| == 64 && forall i :: 0 <= i < 64 ==> entries[0].prevHash.value[i] == '0')
      && entries[|entries| - 1].hash == m.ledgerHead
  {
    ContiguousIffConsecutive(entries);
    if entries != [] && entries[0].prevHash.Some? && |entries[0].prevHash.value| == 64
       && forall i :: 0 <= i < 64 ==> entries[0].prevHash.value[i] == '0'
    {
      assert entries[0].prevHash.value == Genesis();
    }
  }

  // ---- a changed entry -------------------------------------------------------------------

  lemma {:induction false} SingleFault(d: Digest, entries: seq<Entry>, contiguous: bool, n: nat, k: nat)
    requires k < |entries| && n <= |entries|
    requires forall i :: 0 <= i < |entries| && i != k ==> Fault(d, entries, contiguous, i) == None
    requires Fault(d, entries, contiguous, k).Some?
    ensures Faults(d, entries, contiguous, n) == if k < n then [Finding(k, Fault(d, entries, contiguous, k).value)] else []
  {
    if n > 0 { SingleFault(d, entries, contiguous, n - 1, k); }
  }

  /** The entry says something else now. */
  function Changed(entries: seq<Entry>, k: nat, e: Event): seq<Entry>
    requires k < |entries|
  {
    entries[k := entries[k].(content := Some(e))]
  }

  lemma {:induction false} SameNumbers(entries: seq<Entry>, changed: seq<Entry>)
    requires |entries| == |changed| && forall i :: 0 <= i < |entries| ==> entries[i].number == changed[i].number
    ensures Numbers(entries) == Numbers(changed)
  {
    if entries != [] { SameNumbers(entries[..|entries| - 1], changed[..|changed| - 1]); }
  }

  /** Whatever was selected from a valid ledger, consecutive or with gaps: changing what one entry says is found, as the only
      finding, at that entry. */
  lemma ChangedEntryIsFound(d: Digest, rows: seq<Row>, f: Filters, head: Option<string>, k: nat, e: Event)
    requires CollisionFree(d) && Valid(d, rows) && Numbered(rows) && ObjectPayloads(rows) && k < |Selected(rows, f)|
    requires !SaysTheSame(e.(payload := OrEmpty(e.payload)), Selected(rows, f)[k].event)
    ensures
      var entries := EntriesOf(Selected(rows, f));
      Judge(d, BuildManifest(entries, head), Changed(entries, k, e)).broken == [Finding(k, HashMismatch)]
  {
    var entries := EntriesOf(Selected(rows, f));
    var changed, contiguous := Changed(entries, k, e), Contiguous(Numbers(entries));
    SameNumbers(entries, changed);
    forall i | 0 <= i < |changed| && i != k ensures Fault(d, changed, contiguous, i) == None {
      SelectedHasNoFault(d, rows, f, i);
      SameFault(d, entries, changed, contiguous, i);
    }
    assert Fault(d, changed, contiguous, k) == Some(HashMismatch) by {
      SelectedRowHashes(d, rows, f, k);
      SelectedPayloads(rows, f, k);
      ChangedHash(d, entries[k], e);
    }
    SingleFault(d, changed, contiguous, |changed|, k);
    JudgedBy(d, BuildManifest(entries, head), changed, contiguous);
  }

  lemma JudgedBy(d: Digest, m: Manifest, entries: seq<Entry>, contiguous: bool)
    requires contiguous == Contiguous(Numbers(entries)) && m.events == |entries|
    ensures Judge(d, m, entries).broken == Faults(d, entries, contiguous, |entries|)
  {
  }

  lemma SelectedPayloads(rows: seq<Row>, f: Filters, k: nat)
    requires ObjectPayloads(rows) && k < |Selected(rows, f)|
    ensures Selected(rows, f)[k].event.payload.Obj?
  {
    var at := SelectedAt(rows, f);
    assert Selected(rows, f)[k] == rows[at[k]];
  }

  lemma SameFault(d: Digest, entries: seq<Entry>, changed: seq<Entry>, contiguous: bool, i: nat)
    requires |entries| == |changed| && i < |entries| && entries[i] == changed[i]
    requires i > 0 ==> entries[i - 1].hash == changed[i - 1].hash
    ensures Fault(d, changed, contiguous, i) == Fault(d, entries, contiguous, i)
  {
  }

  lemma ChangedHash(d: Digest, entry: Entry, e: Event)
    requires CollisionFree(d) && entry.content.Some? && entry.content.value.payload.Obj? && entry.hash == Some(Hashed(d, entry))
    requires !SaysTheSame(e.(payload := OrEmpty(e.payload)), entry.content.value)
    ensures entry.hash != Some(Hashed(d, entry.(content := Some(e))))
  {
  }
}
