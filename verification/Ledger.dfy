/** The append-only audit ledger: rows chained by hash, written under a lock, verified from the first row. */
module Ledger {
  import opened Wrappers
  import opened CanonicalJson

  /** What is recorded; a stored row adds its number and the two hashes. */
  datatype Event = Event(id: string, kind: string, actor: string, task: Option<string>, agent: Option<string>,
                         environment: string, payload: Json, createdAt: string)

  /** The event as the hash covers it. */
  function Canonical(e: Event): Event {
    e.(payload := Canon(e.payload))
  }

  /** The event as it is read back from its stored text. */
  function Stored(e: Event): Event {
    e.(payload := Reread(e.payload))
  }

  datatype Row = Row(number: int, event: Event, prevHash: string, hash: string)

  function Zeros(n: nat): (zeros: string)
    ensures |zeros| == n && forall i :: 0 <= i < n ==> zeros[i] == '0'
  {
    if n == 0 then "" else Zeros(n - 1) + "0"
  }

  /** What the first row continues: 64 zeros. */
  function Genesis(): string {
    Zeros(64)
  }

  /** SHA-256 of `previous|canonical event`, idealised. */
  type Digest = (string, Event) -> string

  /** A missing previous hash counts as the genesis hash. */
  function OrGenesis(hash: string): string {
    if hash == "" then Genesis() else hash
  }

  function ChainHash(d: Digest, previous: string, e: Event): string {
    d(OrGenesis(previous), Canonical(e))
  }

  /** No two inputs share a digest, and no digest is empty or the genesis value. */
  ghost predicate CollisionFree(d: Digest) {
    && (forall p, q, e, f :: d(p, e) == d(q, f) ==> p == q && e == f)
    && (forall p, e :: d(p, e) != "" && d(p, e) != Genesis())
  }

  // ---- verification -----------------------------------------------------------

  /** The hash the next row must continue. */
  function Head(rows: seq<Row>): string {
    if rows == [] then Genesis() else OrGenesis(rows[|rows| - 1].hash)
  }

  predicate Linked(d: Digest, previous: string, row: Row) {
    ChainHash(d, previous, row.event) == row.hash && row.prevHash == previous
  }

  /** The row at `k` continues the row before it. */
  predicate LinkedAt(d: Digest, rows: seq<Row>, k: nat)
    requires k < |rows|
  {
    Linked(d, Head(rows[..k]), rows[k])
  }

  /** Positions of the rows that do not continue the row before them, in order. */
  function Broken(d: Digest, rows: seq<Row>): seq<nat> {
    if rows == [] then []
    else
      var n := |rows| - 1;
      Broken(d, rows[..n]) + if LinkedAt(d, rows, n) then [] else [n]
  }

  predicate Valid(d: Digest, rows: seq<Row>) {
    Broken(d, rows) == []
  }

  datatype Report = Report(valid: bool, events: nat, broken: seq<nat>, head: string)

  method Verify(d: Digest, rows: seq<Row>) returns (report: Report)
    ensures report == Report(Valid(d, rows), |rows|, Broken(d, rows), Head(rows))
  {
    var broken: seq<nat>, previous := [], Genesis();
    for i := 0 to |rows|
      invariant broken == Broken(d, rows[..i])
      invariant previous == Head(rows[..i])
    {
      assert rows[..i + 1][..i] == rows[..i];
      var expected := ChainHash(d, previous, rows[i].event);
      if expected != rows[i].hash || rows[i].prevHash != previous { broken := broken + [i]; }
      previous := OrGenesis(rows[i].hash);
    }
    assert rows[..|rows|] == rows;
    report := Report(broken == [], |rows|, broken, previous);
  }

  lemma LinkedInPrefix(d: Digest, rows: seq<Row>, n: nat, k: nat)
    requires k < n <= |rows|
    ensures LinkedAt(d, rows[..n], k) <==> LinkedAt(d, rows, k)
  {
    assert rows[..n][..k] == rows[..k];
  }

  ghost predicate ExactlyUnlinked(d: Digest, rows: seq<Row>, reported: seq<nat>) {
    && (forall i :: 0 <= i < |reported| ==> reported[i] < |rows| && !LinkedAt(d, rows, reported[i]))
    && (forall k :: 0 <= k < |rows| && !LinkedAt(d, rows, k) ==> k in reported)
    && (forall i, j :: 0 <= i < j < |reported| ==> reported[i] < reported[j])
  }

  lemma OneRowMore(d: Digest, rows: seq<Row>, before: seq<nat>)
    requires rows != [] && ExactlyUnlinked(d, rows[..|rows| - 1], before)
    ensures ExactlyUnlinked(d, rows, before + if LinkedAt(d, rows, |rows| - 1) then [] else [|rows| - 1])
  {
    var n := |rows| - 1;
    var after := before + if LinkedAt(d, rows, n) then [] else [n];
    forall i | 0 <= i < |after| ensures after[i] < |rows| && !LinkedAt(d, rows, after[i]) {
      if i < |before| { LinkedInPrefix(d, rows, n, before[i]); }
    }
    forall k | 0 <= k < |rows| && !LinkedAt(d, rows, k) ensures k in after {
      if k < n {
        LinkedInPrefix(d, rows, n, k);
        assert k in before;
      }
    }
  }

  /** The report names exactly the rows that do not continue the one before them, each once, in order. */
  lemma {:induction false} BrokenAreTheUnlinked(d: Digest, rows: seq<Row>)
    ensures ExactlyUnlinked(d, rows, Broken(d, rows))
  {
    if rows != [] {
      BrokenAreTheUnlinked(d, rows[..|rows| - 1]);
      OneRowMore(d, rows, Broken(d, rows[..|rows| - 1]));
    }
  }

  /** Nothing is reported exactly when every row continues the one before it. */
  lemma ValidIff(d: Digest, rows: seq<Row>)
    ensures Valid(d, rows) <==> forall k :: 0 <= k < |rows| ==> LinkedAt(d, rows, k)
  {
    BrokenAreTheUnlinked(d, rows);
    var b := Broken(d, rows);
    if b != [] { assert b[0] in b; }
  }

  /** The hash a row has to continue: that of the row before it, or 64 zeros. */
  ghost predicate Continues(rows: seq<Row>, k: nat, previous: string)
    requires k < |rows|
  {
    if k > 0 && rows[k - 1].hash != "" then previous == rows[k - 1].hash
    else |previous| == 64 && forall i :: 0 <= i < 64 ==> previous[i] == '0'
  }

  /** The row names the hash it continues, and carries the digest of that hash and of everything it says. */
  ghost predicate Chained(d: Digest, rows: seq<Row>, k: nat)
    requires k < |rows|
  {
    var row := rows[k];
    Continues(rows, k, row.prevHash) && row.hash == d(row.prevHash, row.event.(payload := Canon(row.event.payload)))
  }

  lemma LinkedIffChained(d: Digest, rows: seq<Row>, k: nat)
    requires k < |rows|
    ensures LinkedAt(d, rows, k) <==> Chained(d, rows, k)
  {
    var previous := Head(rows[..k]);
    assert Continues(rows, k, previous);
    if Continues(rows, k, rows[k].prevHash) { assert rows[k].prevHash == previous; }
    assert OrGenesis(previous) == previous;
  }

  /** Rows verify exactly when each is chained, and otherwise those that are not are reported. */
  lemma VerifiesIffChained(d: Digest, rows: seq<Row>)
    ensures Valid(d, rows) <==> forall k :: 0 <= k < |rows| ==> Chained(d, rows, k)
    ensures forall k: nat :: k in Broken(d, rows) <==> k < |rows| && !Chained(d, rows, k)
  {
    ValidIff(d, rows);
    BrokenAreTheUnlinked(d, rows);
    forall k | 0 <= k < |rows| ensures LinkedAt(d, rows, k) <==> Chained(d, rows, k) { LinkedIffChained(d, rows, k); }
    forall k: nat | k in Broken(d, rows) ensures k < |rows| && !Chained(d, rows, k) {
      var i :| 0 <= i < |Broken(d, rows)| && Broken(d, rows)[i] == k;
    }
  }

  lemma ValidPrefix(d: Digest, rows: seq<Row>, n: nat)
    requires Valid(d, rows) && n <= |rows|
    ensures Valid(d, rows[..n])
  {
    ValidIff(d, rows);
    ValidIff(d, rows[..n]);
    forall k | 0 <= k < n ensures LinkedAt(d, rows[..n], k) {
      LinkedInPrefix(d, rows, n, k);
    }
  }

  // ---- recording ----------------------------------------------------------------

  /** The row for an event, hashed over the event as it is in memory. */
  function NewRow(d: Digest, number: int, previous: string, e: Event): Row {
    Row(number, Stored(e), previous, ChainHash(d, previous, e))
  }

  /** The trail of one process; recording is one step, because the lock spans reading the head and inserting. */
  class AuditLedger {
    const digest: Digest
    var rows: seq<Row>

    constructor (digest: Digest)
      ensures rows == [] && this.digest == digest
    {
      this.digest, rows := digest, [];
    }

    method Record(e: Event) returns (row: Row)
      modifies this
      ensures row == NewRow(digest, |old(rows)| + 1, Head(old(rows)), e)
      ensures rows == old(rows) + [row]
    {
      var previous := if rows == [] || rows[|rows| - 1].hash == "" then Genesis() else rows[|rows| - 1].hash;
      row := Row(|rows| + 1, Stored(e), previous, ChainHash(digest, previous, e));
      rows := rows + [row];
    }
  }

  /** Recording keeps a valid ledger valid exactly when the payload keeps its canonical form in storage. */
  lemma RecordKeepsValidIff(d: Digest, rows: seq<Row>, number: int, e: Event)
    requires CollisionFree(d) && Valid(d, rows)
    ensures Valid(d, rows + [NewRow(d, number, Head(rows), e)]) <==> Survives(e.payload)
  {
    var longer := rows + [NewRow(d, number, Head(rows), e)];
    assert longer[..|rows|] == rows;
  }

  // ---- tamper evidence ----------------------------------------------------------

  /** The two events are the same in every field, their payloads in canonical form. */
  ghost predicate SaysTheSame(e: Event, f: Event) {
    && e.id == f.id && e.kind == f.kind && e.actor == f.actor && e.task == f.task && e.agent == f.agent
    && e.environment == f.environment && e.createdAt == f.createdAt && Canon(e.payload) == Canon(f.payload)
  }

  /** Row by row, the two ledgers say the same. */
  ghost predicate SameSaid(a: seq<Row>, b: seq<Row>) {
    |a| == |b| && forall i :: 0 <= i < |a| ==> SaysTheSame(a[i].event, b[i].event)
  }

  lemma SameEventsSameSaid(a: seq<Row>, b: seq<Row>)
    ensures Events(a) == Events(b) <==> SameSaid(a, b)
  {
    if Events(a) == Events(b) {
      forall i | 0 <= i < |a| ensures SaysTheSame(a[i].event, b[i].event) { assert Events(a)[i] == Events(b)[i]; }
    }
  }

  /** What the rows say, as the hashes cover it. */
  function Events(rows: seq<Row>): seq<Event> {
    seq(|rows|, i requires 0 <= i < |rows| => Canonical(rows[i].event))
  }

  /** The last row of a valid ledger continues a valid ledger. */
  lemma LastLink(d: Digest, rows: seq<Row>)
    requires Valid(d, rows) && rows != []
    ensures var rest, last := rows[..|rows| - 1], rows[|rows| - 1];
      Valid(d, rest) && Linked(d, Head(rest), last) && Events(rows) == Events(rest) + [Canonical(last.event)]
  {
    ValidIff(d, rows);
    assert LinkedAt(d, rows, |rows| - 1);
    ValidPrefix(d, rows, |rows| - 1);
  }

  /** The head of a valid ledger fixes its whole content: same head, same events, same number, same order. */
  lemma HeadFixesEvents(d: Digest, a: seq<Row>, b: seq<Row>)
    requires CollisionFree(d) && Valid(d, a) && Valid(d, b) && Head(a) == Head(b)
    ensures SameSaid(a, b)
  {
    SameHeadSameEvents(d, a, b);
    SameEventsSameSaid(a, b);
  }

  lemma {:induction false} SameHeadSameEvents(d: Digest, a: seq<Row>, b: seq<Row>)
    requires CollisionFree(d) && Valid(d, a) && Valid(d, b) && Head(a) == Head(b)
    ensures Events(a) == Events(b)
  {
    if a != [] { LastLink(d, a); }
    if b != [] { LastLink(d, b); }
    if a != [] && b != [] {
      SameHeadSameEvents(d, a[..|a| - 1], b[..|b| - 1]);
    }
  }

  /** Nothing but `k` and `l` is reported. */
  ghost predicate ReportsOnly(reported: seq<nat>, k: nat, l: nat) {
    forall i :: 0 <= i < |reported| ==> reported[i] == k || reported[i] == l
  }

  lemma LinksAfterReplacing(d: Digest, rows: seq<Row>, k: nat, row: Row, j: nat)
    requires k < |rows| && j < |rows|
    ensures
      LinkedAt(d, rows[k := row], j) <==>
        if j == k then Linked(d, Head(rows[..k]), row)
        else if j == k + 1 then Linked(d, OrGenesis(row.hash), rows[j])
        else LinkedAt(d, rows, j)
  {
    var changed := rows[k := row];
    if j <= k { assert changed[..j] == rows[..j]; }
    else if j > k + 1 { assert Head(changed[..j]) == Head(rows[..j]); }
  }

  /** Replacing one row of a valid ledger: nothing before it and nothing from two rows on is reported; the row itself
      is unless it is chained again, and the next one is unless the row's hash survived. */
  lemma ReplacedRow(d: Digest, rows: seq<Row>, k: nat, row: Row)
    requires Valid(d, rows) && k < |rows|
    ensures ReportsOnly(Broken(d, rows[k := row]), k, k + 1)
    ensures k in Broken(d, rows[k := row]) <==> !Linked(d, Head(rows[..k]), row)
    ensures k + 1 in Broken(d, rows[k := row]) <==> k + 1 < |rows| && OrGenesis(row.hash) != OrGenesis(rows[k].hash)
  {
    ValidIff(d, rows);
    var changed := rows[k := row];
    BrokenAreTheUnlinked(d, changed);
    forall j | 0 <= j < |rows| && j != k && j != k + 1 ensures LinkedAt(d, changed, j) {
      LinksAfterReplacing(d, rows, k, row, j);
    }
    LinksAfterReplacing(d, rows, k, row, k);
    if k + 1 < |rows| {
      LinksAfterReplacing(d, rows, k, row, k + 1);
      assert LinkedAt(d, rows, k + 1);
    }
  }

  /** Changing what a row says, and nothing else, reports exactly that row. */
  lemma ChangedEventIsReported(d: Digest, rows: seq<Row>, k: nat, e: Event)
    requires CollisionFree(d) && Valid(d, rows) && k < |rows| && !SaysTheSame(e, rows[k].event)
    ensures Broken(d, rows[k := rows[k].(event := e)]) == [k]
  {
    var row := rows[k].(event := e);
    ReplacedRow(d, rows, k, row);
    ValidIff(d, rows);
    assert LinkedAt(d, rows, k);
    OnlyOne(d, rows[k := row], k);
  }

  lemma OnlyOne(d: Digest, rows: seq<Row>, k: nat)
    requires k in Broken(d, rows) && ReportsOnly(Broken(d, rows), k, k)
    ensures Broken(d, rows) == [k]
  {
    BrokenAreTheUnlinked(d, rows);
    var b := Broken(d, rows);
    if |b| > 1 { FirstTwoDiffer(d, rows, b); }
  }

  lemma FirstTwoDiffer(d: Digest, rows: seq<Row>, reported: seq<nat>)
    requires ExactlyUnlinked(d, rows, reported) && |reported| > 1
    ensures reported[0] != reported[1]
  {
  }

  /** A replacement of a row that is not the last goes unreported exactly when it says and hashes the same. */
  lemma UnreportedReplacementIff(d: Digest, rows: seq<Row>, k: nat, row: Row)
    requires CollisionFree(d) && Valid(d, rows) && k + 1 < |rows|
    ensures Valid(d, rows[k := row]) <==> 
      SaysTheSame(row.event, rows[k].event) && row.prevHash == rows[k].prevHash && row.hash == rows[k].hash
  {
    ReplacedRow(d, rows, k, row);
    ValidIff(d, rows);
    assert LinkedAt(d, rows, k);
    var b := Broken(d, rows[k := row]);
    if b != [] { assert b[0] in b; }
  }

  /** Deleting a row that is not the last reports exactly the row that closed the gap. */
  lemma DeletedRowIsReported(d: Digest, rows: seq<Row>, k: nat)
    requires CollisionFree(d) && Valid(d, rows) && k + 1 < |rows|
    ensures Broken(d, rows[..k] + rows[k + 1..]) == [k]
  {
    var left := rows[..k] + rows[k + 1..];
    BrokenAreTheUnlinked(d, left);
    forall j | 0 <= j < |left| ensures LinkedAt(d, left, j) <==> j != k {
      LinksAfterDeleting(d, rows, k, j);
    }
    OnlyOne(d, left, k);
  }

  lemma LinksAfterDeleting(d: Digest, rows: seq<Row>, k: nat, j: nat)
    requires CollisionFree(d) && Valid(d, rows) && k + 1 < |rows| && j + 1 < |rows|
    ensures LinkedAt(d, rows[..k] + rows[k + 1..], j) <==> j != k
  {
    ValidIff(d, rows);
    ChainNeverRepeats(d, rows, k);
    RowBeforeGap(rows, k, j);
    if j < k { assert LinkedAt(d, rows, j); } else { assert LinkedAt(d, rows, j + 1); }
  }

  /** What row `j` of the shortened ledger is, and what it has to continue. */
  lemma RowBeforeGap(rows: seq<Row>, k: nat, j: nat)
    requires k + 1 < |rows| && j + 1 < |rows|
    ensures
      var left := rows[..k] + rows[k + 1..];
      && left[j] == (if j < k then rows[j] else rows[j + 1])
      && Head(left[..j]) == if j <= k then Head(rows[..j]) else Head(rows[..j + 1])
  {
    var left := rows[..k] + rows[k + 1..];
    if j <= k { assert left[..j] == rows[..j]; }
  }

  /** Deleting the last row is not reported; it moves the head back, so only a head kept elsewhere shows it. */
  lemma DeletedLastRowMovesTheHead(d: Digest, rows: seq<Row>)
    requires CollisionFree(d) && Valid(d, rows) && rows != []
    ensures Valid(d, rows[..|rows| - 1])
    ensures Head(rows[..|rows| - 1]) == rows[|rows| - 1].prevHash && Head(rows[..|rows| - 1]) != Head(rows)
  {
    ValidPrefix(d, rows, |rows| - 1);
    ValidIff(d, rows);
    assert LinkedAt(d, rows, |rows| - 1);
    ChainNeverRepeats(d, rows, |rows| - 1);
  }

  /** In a valid ledger a row never hashes to what it continues. */
  lemma ChainNeverRepeats(d: Digest, rows: seq<Row>, k: nat)
    requires CollisionFree(d) && Valid(d, rows) && k < |rows|
    ensures OrGenesis(rows[k].hash) != Head(rows[..k])
    decreases k
  {
    ValidIff(d, rows);
    assert LinkedAt(d, rows, k);
    if k > 0 {
      ChainNeverRepeats(d, rows, k - 1);
      assert LinkedAt(d, rows, k - 1);
    }
  }
}
