/** Workspace files and the snapshots taken of them. An artifact's history is the list of its snapshots;
    the snapshot `kind:name@revision` is the one at position `revision - 1`. */
module Versions {
  import opened Wrappers
  import opened Texts
  import EnvironmentLine

  datatype Kind = Agent | Tool | Workflow | Policy

  datatype Artifact = Artifact(kind: Kind, name: string)

  datatype Environment = Development | Staging | Production

  /** Position on the ladder; nobody skips a rung. */
  function Rank(e: Environment): nat {
    match e case Development => 0 case Staging => 1 case Production => 2
  }

  function EnvironmentName(e: Environment): string {
    match e case Development => "development" case Staging => "staging" case Production => "production"
  }

  datatype Snapshot = Snapshot(revision: nat, version: string, content: string, fingerprint: string)

  /** Reading the text of an artifact: its fingerprint, and the version and environment it declares. */
  datatype Reader = Reader(
    fingerprint: string -> string,
    version: (Kind, string) -> string,
    environment: (Kind, string) -> Environment)

  datatype Store = Store(files: map<Artifact, string>, history: map<Artifact, seq<Snapshot>>)

  function History(s: Store, a: Artifact): seq<Snapshot> {
    if a in s.history then s.history[a] else []
  }

  /** A declared version, or `r<revision>` for an artifact that declares none. */
  function VersionLabel(declared: string, revision: nat): string {
    if declared != "" then declared else "r" + Digits(revision)
  }

  function NewSnapshot(s: Store, a: Artifact, rd: Reader): Snapshot
    requires a in s.files
  {
    var content, revision := s.files[a], |History(s, a)| + 1;
    Snapshot(revision, VersionLabel(if a.kind == Tool then "" else rd.version(a.kind, content), revision), content, rd.fingerprint(content))
  }

  /** Keep the current content, unless the last snapshot already has its fingerprint. */
  function Take(s: Store, a: Artifact, rd: Reader): Store
    requires a in s.files
  {
    var past := History(s, a);
    if past != [] && past[|past| - 1].fingerprint == rd.fingerprint(s.files[a]) then s
    else s.(history := s.history[a := past + [NewSnapshot(s, a, rd)]])
  }

  function Latest(s: Store, a: Artifact): Option<Snapshot> {
    var past := History(s, a);
    if past == [] then None else Some(past[|past| - 1])
  }

  function Find(s: Store, a: Artifact, revision: nat): Option<Snapshot> {
    if 1 <= revision <= |History(s, a)| then Some(History(s, a)[revision - 1]) else None
  }

  function Write(s: Store, a: Artifact, content: string): Store {
    s.(files := s.files[a := content])
  }

  /** Tools declare no environment in their text. */
  function WithEnvironment(a: Artifact, content: string, e: Environment): string {
    if a.kind == Tool then content else EnvironmentLine.SetLine(content, EnvironmentName(e))
  }

  function SetEnvironment(s: Store, a: Artifact, e: Environment): Store
    requires a in s.files
  {
    Write(s, a, WithEnvironment(a, s.files[a], e))
  }

  // ---- what every operation keeps -------------------------------------------

  /** Revisions count up from one, each snapshot fingerprints its own content, and neighbours differ. */
  ghost predicate WellFormed(s: Store, rd: Reader) {
    forall a <- s.history :: HistoryOk(s.history[a], rd)
  }

  ghost predicate HistoryOk(past: seq<Snapshot>, rd: Reader) {
    && (forall i :: 0 <= i < |past| ==> past[i].revision == i + 1 && past[i].fingerprint == rd.fingerprint(past[i].content))
    && (forall i :: 0 < i < |past| ==> past[i - 1].fingerprint != past[i].fingerprint)
  }

  /** History only grows: what an id names never changes. */
  ghost predicate Keeps(s: Store, t: Store) {
    forall a :: History(s, a) <= History(t, a)
  }

  lemma TakeKeeps(s: Store, a: Artifact, rd: Reader)
    requires a in s.files && WellFormed(s, rd)
    ensures var t := Take(s, a, rd);
      && WellFormed(t, rd) && Keeps(s, t) && t.files == s.files
      && Latest(t, a).Some? && Latest(t, a).value.fingerprint == rd.fingerprint(s.files[a])
      && Latest(t, a).value.revision == |History(t, a)|
      && forall b :: b != a ==> History(t, b) == History(s, b)
  {
    var t := Take(s, a, rd);
    if a in s.history { assert HistoryOk(s.history[a], rd); }
    forall b | b in t.history ensures HistoryOk(t.history[b], rd) {
      if b != a { assert HistoryOk(s.history[b], rd); }
    }
  }

  /** The snapshot is of what is on disk, with the next revision, and the version the text declares, or the revision; a tool's
      text declares none. */
  ghost predicate SnapshotOf(snap: Snapshot, revision: nat, a: Artifact, content: string, rd: Reader) {
    && snap.revision == revision && snap.content == content && snap.fingerprint == rd.fingerprint(content)
    && snap.version == if a.kind != Tool && rd.version(a.kind, content) != "" then rd.version(a.kind, content) else "r" + Digits(revision)
  }

  /** Nothing is taken when the newest snapshot has the fingerprint of what is on disk; otherwise one more snapshot is, of that
      artifact only. */
  lemma TakeMeans(s: Store, a: Artifact, rd: Reader)
    requires a in s.files
    ensures
      var past, t := History(s, a), Take(s, a, rd);
      if past != [] && past[|past| - 1].fingerprint == rd.fingerprint(s.files[a]) then t == s
      else && |History(t, a)| == |past| + 1 && History(t, a)[..|past|] == past
           && SnapshotOf(History(t, a)[|past|], |past| + 1, a, s.files[a], rd)
           && t.files == s.files && forall b :: b != a ==> History(t, b) == History(s, b)
  {
  }

  /** Named by a revision is the snapshot at its place; nothing is named by another number. */
  lemma FoundIff(s: Store, a: Artifact, revision: nat)
    ensures Find(s, a, revision).Some? <==> 0 < revision <= |History(s, a)|
    ensures Find(s, a, revision).Some? ==> Find(s, a, revision).value == History(s, a)[revision - 1]
  {
  }

  lemma FoundStaysFound(s: Store, t: Store, a: Artifact, revision: nat)
    requires Keeps(s, t) && Find(s, a, revision).Some?
    ensures Find(t, a, revision) == Find(s, a, revision)
  {
    assert History(s, a) <= History(t, a);
  }

  /** The line names the environment by its word. */
  lemma EnvironmentIsWritten(a: Artifact, content: string)
    requires a.kind != Tool
    ensures WithEnvironment(a, content, Development) == EnvironmentLine.SetLine(content, "development")
    ensures WithEnvironment(a, content, Staging) == EnvironmentLine.SetLine(content, "staging")
    ensures WithEnvironment(a, content, Production) == EnvironmentLine.SetLine(content, "production")
  {
  }

  /** Every environment name stays on its line, so the line written last is the one that counts. */
  lemma LastEnvironmentWins(a: Artifact, content: string, first: Environment, second: Environment)
    ensures WithEnvironment(a, WithEnvironment(a, content, first), second) == WithEnvironment(a, content, second)
  {
    EnvironmentLine.LastWriteWins(content, EnvironmentName(first), EnvironmentName(second));
  }
}
