/** What becomes of a file that someone edited after its installation wrote it. */
module PackEdits {
  import opened Wrappers
  import opened Ordering
  import opened Packs

  /** This version ships the file. */
  predicate Ships(pack: Pack, path: string) {
    path in Paths(pack.artifacts) || path in Paths(pack.documents)
  }

  /** The update knows the file as edited and is not to overwrite it. */
  predicate Protected(update: Option<Update>, path: string) {
    update.Some? && path in update.value.plan.conflict && path !in update.value.overwrite
  }

  // ---- writing leaves it alone ----------------------------------------------------------

  /** How far the writing of some documents is, seen from one protected file. */
  ghost predicate Untouched(before: Progress, after: Progress, path: string, shipped: bool) {
    && path in before.files && path in after.files && after.files[path] == before.files[path]
    && path !in after.written && path !in after.checksums
    && (path in after.preserved <==> path in before.preserved || shipped)
  }

  lemma WriteOneLeaves(h: Fingerprint, update: Option<Update>, p: Progress, doc: Doc, path: string)
    requires Protected(update, path) && path in p.files && path !in p.written && path !in p.checksums
    ensures Untouched(p, WriteOne(h, update, p, doc), path, doc.path == path)
  {
  }

  lemma {:induction false} WriteAllLeaves(h: Fingerprint, update: Option<Update>, p: Progress, docs: seq<Doc>, path: string)
    requires Protected(update, path) && path in p.files && path !in p.written && path !in p.checksums
    ensures Untouched(p, WriteAll(h, update, p, docs), path, path in Paths(docs))
  {
    if docs != [] {
      var before, doc := docs[..|docs| - 1], docs[|docs| - 1];
      WriteAllLeaves(h, update, p, before, path);
      WriteOneLeaves(h, update, WriteAll(h, update, p, before), doc, path);
      assert Paths(docs) == Paths(before) + [doc.path];
    }
  }

  lemma WrittenLeaves(h: Fingerprint, files: map<string, File>, pack: Pack, update: Option<Update>, path: string)
    requires Protected(update, path) && path in files && path != pack.manifest.path
    ensures var p := Written(h, files, pack, update);
      && path in p.files && p.files[path] == files[path] && path !in p.written && path !in p.checksums
      && (path in p.preserved <==> Ships(pack, path))
  {
    var start := Progress(files[pack.manifest.path := Readable(pack.manifest.text)], [], map[], []);
    WriteAllLeaves(h, update, start, pack.artifacts, path);
    var artifacts := WriteAll(h, update, start, pack.artifacts);
    WriteAllLeaves(h, update, CountManifest(h, update, artifacts, pack.manifest), pack.documents, path);
  }

  /** Its record, and whether it is accounted for, after the preserved files' records were taken over. */
  lemma {:induction false} KeepRecordsOf(previous: Installed, p: Progress, preserved: seq<string>, path: string)
    requires path !in p.written && path !in p.checksums
    ensures var kept := KeepRecords(previous, p, preserved);
      && kept.files == p.files && (path in kept.written <==> path in preserved)
      && (if path in preserved && path in previous.checksums then path in kept.checksums && kept.checksums[path] == previous.checksums[path]
          else path !in kept.checksums)
  {
    if preserved != [] {
      KeepRecordsOf(previous, p, preserved[..|preserved| - 1], path);
      assert preserved == preserved[..|preserved| - 1] + [preserved[|preserved| - 1]];
    }
  }

  lemma {:induction false} InsertHolds(x: string, s: seq<string>)
    ensures forall y :: y in Insert(x, s, TextLe) <==> y == x || y in s
  {
    if s != [] && !TextLe(x, s[0]) { InsertHolds(x, s[1..]); }
  }

  lemma {:induction false} SortHolds(s: seq<string>)
    ensures forall y :: y in Sort(s, TextLe) <==> y in s
  {
    if s != [] {
      SortHolds(s[1..]);
      InsertHolds(s[0], Sort(s[1..], TextLe));
    }
  }

  /** Applying an update with the file protected: its content stays; it is accounted for exactly when the version ships
      it, and keeps its record, if it had one, exactly then. */
  lemma MaterializedLeaves(h: Fingerprint, w: World, pack: Pack, update: Option<Update>, path: string)
    requires w.installed.Some? && Protected(update, path) && path in w.files && path != pack.manifest.path
    ensures var after := Materialized(h, w, pack, update);
      && path in after.files && after.files[path] == w.files[path] && after.installed.Some?
      && (path in after.installed.value.files <==> Ships(pack, path))
      && Recorded(after.installed.value, path) == if Ships(pack, path) then Recorded(w.installed.value, path) else None
  {
    var p := Written(h, w.files, pack, update);
    WrittenLeaves(h, w.files, pack, update, path);
    KeepRecordsOf(w.installed.value, p, p.preserved, path);
    SortHolds(KeepRecords(w.installed.value, p, p.preserved).written);
  }

  /** Two states of the writing agree on a path. */
  ghost predicate SameAt(before: Progress, after: Progress, path: string) {
    && (path in after.files <==> path in before.files) && (path in before.files ==> after.files[path] == before.files[path])
    && (path in after.checksums <==> path in before.checksums) && (path in before.checksums ==> after.checksums[path] == before.checksums[path])
    && (path in after.written <==> path in before.written) && (path in after.preserved <==> path in before.preserved)
  }

  lemma {:induction false} WriteAllElsewhere(h: Fingerprint, update: Option<Update>, p: Progress, docs: seq<Doc>, path: string)
    requires path !in Paths(docs)
    ensures SameAt(p, WriteAll(h, update, p, docs), path)
  {
    if docs != [] {
      var before, doc := docs[..|docs| - 1], docs[|docs| - 1];
      assert Paths(docs) == Paths(before) + [doc.path];
      assert Paths(docs)[|before|] == doc.path;
      WriteAllElsewhere(h, update, p, before, path);
    }
  }

  lemma NotPlannedNotWritten(h: Fingerprint, w: World, pack: Pack, update: Option<Update>, path: string)
    requires w.installed.Some? && path in w.files && path != pack.manifest.path && !Ships(pack, path)
    ensures var after := Materialized(h, w, pack, update);
      && path in after.files && after.files[path] == w.files[path] && after.installed.Some?
      && path !in after.installed.value.files && Recorded(after.installed.value, path) == None
  {
    var start := Progress(w.files[pack.manifest.path := Readable(pack.manifest.text)], [], map[], []);
    WriteAllElsewhere(h, update, start, pack.artifacts, path);
    var artifacts := WriteAll(h, update, start, pack.artifacts);
    WriteAllElsewhere(h, update, CountManifest(h, update, artifacts, pack.manifest), pack.documents, path);
    var p := Written(h, w.files, pack, update);
    KeepRecordsOf(w.installed.value, p, p.preserved, path);
    SortHolds(KeepRecords(w.installed.value, p, p.preserved).written);
  }

  // ---- what is not protected is replaced --------------------------------------------------

  /** Nothing keeps the update from writing the file. */
  predicate Free(update: Option<Update>, path: string) {
    update.Some? ==> path in update.value.overwrite || path !in update.value.plan.conflict
  }

  /** The file holds the document, is accounted for, and its record is the document's fingerprint. */
  ghost predicate Holds(h: Fingerprint, p: Progress, doc: Doc) {
    && doc.path in p.files && p.files[doc.path] == Readable(doc.text)
    && doc.path in p.checksums && p.checksums[doc.path] == h(doc.text) && doc.path in p.written && doc.path !in p.preserved
  }

  lemma {:induction false} WriteAllWrites(h: Fingerprint, update: Option<Update>, p: Progress, docs: seq<Doc>, doc: Doc)
    requires Free(update, doc.path) && doc in docs && (forall d <- docs :: d.path == doc.path ==> d == doc) && doc.path !in p.preserved
    ensures Holds(h, WriteAll(h, update, p, docs), doc)
  {
    var before, last := docs[..|docs| - 1], docs[|docs| - 1];
    assert docs == before + [last];
    if doc in before {
      WriteAllWrites(h, update, p, before, doc);
    } else {
      forall i | 0 <= i < |before| ensures Paths(before)[i] != doc.path { assert before[i] in docs && before[i] in before; }
      WriteAllElsewhere(h, update, p, before, doc.path);
    }
  }

  lemma {:induction false} KeepRecordsElsewhere(previous: Installed, p: Progress, preserved: seq<string>, path: string)
    requires path !in preserved
    ensures SameAt(p, KeepRecords(previous, p, preserved), path)
  {
    if preserved != [] {
      assert preserved[|preserved| - 1] != path;
      KeepRecordsElsewhere(previous, p, preserved[..|preserved| - 1], path);
    }
  }

  /** Of all the version ships, only this document goes to its path. */
  ghost predicate OnlyAt(pack: Pack, doc: Doc) {
    && doc in pack.artifacts + pack.documents && doc.path != pack.manifest.path
    && forall d <- pack.artifacts + pack.documents :: d.path == doc.path ==> d == doc
  }

  lemma WrittenHolds(h: Fingerprint, files: map<string, File>, pack: Pack, update: Option<Update>, doc: Doc)
    requires Free(update, doc.path) && OnlyAt(pack, doc)
    ensures Holds(h, Written(h, files, pack, update), doc)
  {
    var start := Progress(files[pack.manifest.path := Readable(pack.manifest.text)], [], map[], []);
    var artifacts := WriteAll(h, update, start, pack.artifacts);
    var counted := CountManifest(h, update, artifacts, pack.manifest);
    if doc in pack.artifacts {
      WriteAllWrites(h, update, start, pack.artifacts, doc);
    } else {
      NotShippedThere(pack.artifacts, pack, doc);
      WriteAllElsewhere(h, update, start, pack.artifacts, doc.path);
    }
    if doc in pack.documents {
      WriteAllWrites(h, update, counted, pack.documents, doc);
    } else {
      NotShippedThere(pack.documents, pack, doc);
      WriteAllElsewhere(h, update, counted, pack.documents, doc.path);
    }
  }

  lemma NotShippedThere(docs: seq<Doc>, pack: Pack, doc: Doc)
    requires OnlyAt(pack, doc) && doc !in docs && (forall d <- docs :: d in pack.artifacts + pack.documents)
    ensures doc.path !in Paths(docs)
  {
    forall i | 0 <= i < |docs| ensures Paths(docs)[i] != doc.path { assert docs[i] in docs; }
  }

  /** The update is refused: nothing is installed, or nothing would be added, nothing conflicts, and the version stays. */
  predicate Refused(h: Fingerprint, w: World, pack: Pack) {
    w.installed.None? || Planned(h, w.files, w.installed.value, pack).identical
  }

  /** An installed pack's update is refused exactly when it keeps the version number and every file it ships is there and
      unedited, whatever text it ships. */
  lemma RefusedIff(h: Fingerprint, w: World, pack: Pack)
    requires w.installed.Some?
    ensures Refused(h, w, pack) <==>
      && pack.version == w.installed.value.version
      && forall path <- PlannedPaths(pack) :: path in w.files && !Edited(h, w.files, w.installed.value, pack.manifest.path, path)
    ensures Refused(h, w, pack) ==> Updated(h, w, pack, false) == w && Updated(h, w, pack, true) == w
  {
    var plan, paths := Planned(h, w.files, w.installed.value, pack), PlannedPaths(pack);
    forall path
      ensures path in plan.added <==> path in paths && path !in w.files
      ensures path in plan.conflict <==> path in paths && Edited(h, w.files, w.installed.value, pack.manifest.path, path)
    {
      PlanPartitions(h, w.files, w.installed.value, pack, path);
    }
    if plan.added != [] { assert plan.added[0] in plan.added; }
    if plan.conflict != [] { assert plan.conflict[0] in plan.conflict; }
  }

  /** An update that is not refused brings every shipped file that was not edited, or, with overwriting, every shipped
      file, to the shipped text, and records its fingerprint. */
  lemma UpdateReplaces(h: Fingerprint, w: World, pack: Pack, overwrite: bool, doc: Doc)
    requires !Refused(h, w, pack) && OnlyAt(pack, doc)
    requires overwrite || !Edited(h, w.files, w.installed.value, pack.manifest.path, doc.path)
    ensures var after := Updated(h, w, pack, overwrite);
      && doc.path in after.files && after.files[doc.path] == Readable(doc.text)
      && after.installed.Some? && doc.path in after.installed.value.files && Recorded(after.installed.value, doc.path) == Some(h(doc.text))
  {
    var plan := Planned(h, w.files, w.installed.value, pack);
    PlanPartitions(h, w.files, w.installed.value, pack, doc.path);
    var update := Some(Update(plan, if overwrite then plan.conflict else []));
    WrittenHolds(h, w.files, pack, update, doc);
    var p := Written(h, w.files, pack, update);
    KeepRecordsElsewhere(w.installed.value, p, p.preserved, doc.path);
    SortHolds(KeepRecords(w.installed.value, p, p.preserved).written);
  }

  // ---- updates ----------------------------------------------------------------------------

  /** The installed pack's file, edited since. */
  ghost predicate EditedIn(h: Fingerprint, w: World, manifest: string, path: string) {
    w.installed.Some? && Edited(h, w.files, w.installed.value, manifest, path)
  }

  /** An update that does not overwrite leaves an edited file as it is, and edited. Unless it is refused, the file is then
      accounted for, and keeps its record if it had one, exactly when the version ships it. */
  lemma UpdateLeavesEdited(h: Fingerprint, w: World, pack: Pack, path: string)
    requires EditedIn(h, w, pack.manifest.path, path)
    ensures var after := Updated(h, w, pack, false);
      && EditedIn(h, after, pack.manifest.path, path) && after.files[path] == w.files[path]
      && (Refused(h, w, pack) ==> after == w)
      && (!Refused(h, w, pack) ==>
            && after.installed.value.version == pack.version && (path in after.installed.value.files <==> Ships(pack, path))
            && Recorded(after.installed.value, path) == if Ships(pack, path) then Recorded(w.installed.value, path) else None)
  {
    var plan := Planned(h, w.files, w.installed.value, pack);
    PlanPartitions(h, w.files, w.installed.value, pack, path);
    var update := Some(Update(plan, []));
    if Ships(pack, path) {
      assert path in PlannedPaths(pack);
      MaterializedLeaves(h, w, pack, update, path);
    } else {
      NotPlannedNotWritten(h, w, pack, update, path);
    }
  }

  function UpdatedBy(h: Fingerprint, w: World, packs: seq<Pack>): World {
    if packs == [] then w else Updated(h, UpdatedBy(h, w, packs[..|packs| - 1]), packs[|packs| - 1], false)
  }

  /** The versions whose update was not refused. */
  function Applied(h: Fingerprint, w: World, packs: seq<Pack>): seq<Pack> {
    if packs == [] then []
    else
      var before, last := packs[..|packs| - 1], packs[|packs| - 1];
      Applied(h, w, before) + if Refused(h, UpdatedBy(h, w, before), last) then [] else [last]
  }

  /** All have this manifest: they are versions of one pack. */
  ghost predicate OfPack(packs: seq<Pack>, manifest: string) {
    forall pack <- packs :: pack.manifest.path == manifest
  }

  /** After the versions that were applied the installation accounts for the file. */
  predicate Accounted(w: World, applied: seq<Pack>, path: string)
    requires w.installed.Some?
  {
    if applied == [] then path in w.installed.value.files else Ships(applied[|applied| - 1], path)
  }

  predicate AllShip(packs: seq<Pack>, path: string) {
    forall pack <- packs :: Ships(pack, path)
  }

  lemma AllShipMore(packs: seq<Pack>, pack: Pack, path: string)
    ensures AllShip(packs + [pack], path) <==> AllShip(packs, path) && Ships(pack, path)
  {
    if AllShip(packs + [pack], path) {
      assert pack in packs + [pack];
      forall p | p in packs ensures Ships(p, path) { assert p in packs + [pack]; }
    }
  }

  /** What the applied updates leave of an edited file: its content; whether it is accounted for; and its record, exactly
      when every one of them shipped it. */
  ghost predicate Left(h: Fingerprint, w: World, after: World, applied: seq<Pack>, manifest: string, path: string)
    requires EditedIn(h, w, manifest, path)
  {
    && EditedIn(h, after, manifest, path) && after.files[path] == w.files[path]
    && (path in after.installed.value.files <==> Accounted(w, applied, path))
    && Recorded(after.installed.value, path) == if AllShip(applied, path) then Recorded(w.installed.value, path) else None
  }

  lemma OneMoreUpdate(h: Fingerprint, w: World, after: World, applied: seq<Pack>, last: Pack, path: string)
    requires EditedIn(h, w, last.manifest.path, path) && Left(h, w, after, applied, last.manifest.path, path)
    ensures Left(h, w, Updated(h, after, last, false), applied + if Refused(h, after, last) then [] else [last], last.manifest.path, path)
  {
    UpdateLeavesEdited(h, after, last, path);
    if Refused(h, after, last) { assert applied + [] == applied; } else { AllShipMore(applied, last, path); }
  }

  /** After any number of updates without overwriting, an edited file has its content; its record is left exactly when
      every version that was applied shipped it. */
  lemma {:induction false} UpdatesLeaveEdited(h: Fingerprint, w: World, packs: seq<Pack>, manifest: string, path: string)
    requires EditedIn(h, w, manifest, path) && OfPack(packs, manifest)
    ensures Left(h, w, UpdatedBy(h, w, packs), Applied(h, w, packs), manifest, path)
  {
    if packs != [] {
      var before, last := packs[..|packs| - 1], packs[|packs| - 1];
      UpdatesLeaveEdited(h, w, before, manifest, path);
      assert last in packs;
      OneMoreUpdate(h, w, UpdatedBy(h, w, before), Applied(h, w, before), last, path);
    }
  }

  // ---- removal ------------------------------------------------------------------------------

  /** The file has no record, or is what its record says. */
  predicate AsRecorded(h: Fingerprint, installed: Installed, file: File, path: string) {
    Recorded(installed, path).Some? ==> file.Readable? && Recorded(installed, path).value == h(file.text)
  }

  /** What is left has its content; a removal that is not stopped takes exactly what is accounted for and as recorded. */
  lemma {:induction false} RemoveAllLeaves(h: Fingerprint, installed: Installed, files: map<string, File>, paths: seq<string>, path: string)
    requires path in files
    ensures var r := RemoveAll(h, installed, files, paths);
      && (path in r.files ==> r.files[path] == files[path])
      && (!r.failed ==> (path in r.files <==> !(path in paths && AsRecorded(h, installed, files[path], path))))
      && (!r.failed && path in paths ==> files[path].Readable?)
  {
    if paths != [] {
      RemoveAllLeaves(h, installed, files, paths[..|paths| - 1], path);
      assert paths == paths[..|paths| - 1] + [paths[|paths| - 1]];
    }
  }

  function Removed(h: Fingerprint, w: World): Removal
    requires w.installed.Some?
  {
    RemoveAll(h, w.installed.value, w.files, w.installed.value.files)
  }

  /** A file edited since it was installed, any number of updates without overwriting, refused ones among them, then a
      removal that is not stopped: the file is there as edited exactly when the installation no longer accounts for it, or
      it had a record and every version applied shipped it. A version that drops the file loses its record, and a later
      one that ships it again then lets the removal take it. */
  lemma EditSurvivesIff(h: Fingerprint, w: World, packs: seq<Pack>, manifest: string, path: string)
    requires EditedIn(h, w, manifest, path) && OfPack(packs, manifest)
    ensures
      var before, applied := UpdatedBy(h, w, packs), Applied(h, w, packs);
      && before.installed.Some? && path in before.files && before.files[path] == w.files[path]
      && var after := Removed(h, before);
         !after.failed ==>
           ((path in after.files && after.files[path] == w.files[path]) <==>
              !Accounted(w, applied, path) || (Recorded(w.installed.value, path).Some? && AllShip(applied, path)))
  {
    var before := UpdatedBy(h, w, packs);
    UpdatesLeaveEdited(h, w, packs, manifest, path);
    RemoveAllLeaves(h, before.installed.value, before.files, before.installed.value.files, path);
  }

  // ---- a file dropped and shipped again ---------------------------------------------------------

  ghost predicate AllText(files: map<string, File>) {
    forall path <- files :: files[path].Readable?
  }

  lemma {:induction false} WritingTextStaysText(h: Fingerprint, update: Option<Update>, p: Progress, docs: seq<Doc>)
    requires AllText(p.files)
    ensures AllText(WriteAll(h, update, p, docs).files)
  {
    if docs != [] { WritingTextStaysText(h, update, p, docs[..|docs| - 1]); }
  }

  lemma {:induction false} KeepingRecordsKeepsFiles(previous: Installed, p: Progress, preserved: seq<string>)
    ensures KeepRecords(previous, p, preserved).files == p.files
  {
    if preserved != [] { KeepingRecordsKeepsFiles(previous, p, preserved[..|preserved| - 1]); }
  }

  lemma {:induction false} UpdatesOfTextStayText(h: Fingerprint, w: World, packs: seq<Pack>)
    requires AllText(w.files)
    ensures AllText(UpdatedBy(h, w, packs).files)
  {
    if packs != [] {
      var before, pack := UpdatedBy(h, w, packs[..|packs| - 1]), packs[|packs| - 1];
      UpdatesOfTextStayText(h, w, packs[..|packs| - 1]);
      if before.installed.Some? {
        var update := Some(Update(Planned(h, before.files, before.installed.value, pack), []));
        var start := Progress(before.files[pack.manifest.path := Readable(pack.manifest.text)], [], map[], []);
        WritingTextStaysText(h, update, start, pack.artifacts);
        WritingTextStaysText(h, update, CountManifest(h, update, WriteAll(h, update, start, pack.artifacts), pack.manifest), pack.documents);
        var p := Written(h, before.files, pack, update);
        KeepingRecordsKeepsFiles(before.installed.value, p, p.preserved);
      }
    }
  }

  /** Where every file is text a removal is not stopped. */
  lemma {:induction false} RemovalOfTextIsNotStopped(h: Fingerprint, installed: Installed, files: map<string, File>, paths: seq<string>)
    requires AllText(files)
    ensures var r := RemoveAll(h, installed, files, paths); !r.failed && AllText(r.files)
  {
    if paths != [] { RemovalOfTextIsNotStopped(h, installed, files, paths[..|paths| - 1]); }
  }

  const GUIDE := Doc("documents/guide.md", "shipped")

  /** A fingerprint that is the text itself. */
  function WholeText(): Fingerprint {
    text => text
  }

  /** One file, recorded as it was shipped and edited since. */
  function EditedWorld(): World {
    World(map["documents/guide.md" := Readable("edited")], Some(Installed("1", ["documents/guide.md"], map["documents/guide.md" := "shipped"])))
  }

  /** Version 2 drops the file, version 3 ships it again: the removal takes the edit. */
  lemma EditIsLostWhenDroppedAndShippedAgain()
    ensures
      var h := WholeText();
      var packs := [Pack("2", [], [], Doc("packs/p.yaml", "two")), Pack("3", [], [GUIDE], Doc("packs/p.yaml", "three"))];
      var before := UpdatedBy(h, EditedWorld(), packs);
      && GUIDE.path in before.files && before.files[GUIDE.path] == Readable("edited") && before.installed.Some?
      && !Removed(h, before).failed && GUIDE.path !in Removed(h, before).files
  {
    var second, third := Pack("2", [], [], Doc("packs/p.yaml", "two")), Pack("3", [], [GUIDE], Doc("packs/p.yaml", "three"));
    assert Paths([GUIDE])[0] == GUIDE.path;
    LostWhenDroppedAndShippedAgain(WholeText(), EditedWorld(), second, third, "packs/p.yaml", GUIDE.path);
  }

  lemma LostWhenDroppedAndShippedAgain(h: Fingerprint, w: World, second: Pack, third: Pack, manifest: string, path: string)
    requires EditedIn(h, w, manifest, path) && AllText(w.files) && OfPack([second, third], manifest)
    requires second.version != w.installed.value.version && third.version != second.version && !Ships(second, path) && Ships(third, path)
    ensures
      var before := UpdatedBy(h, w, [second, third]);
      && path in before.files && before.files[path] == w.files[path] && before.installed.Some?
      && !Removed(h, before).failed && path !in Removed(h, before).files
  {
    var packs := [second, third];
    assert packs[..1] == [second] && [second][..0] == [];
    assert second in packs && third in packs;
    assert UpdatedBy(h, w, [second]) == Updated(h, w, second, false);
    UpdateLeavesEdited(h, w, second, path);
    assert Applied(h, w, [second]) == [second];
    assert Applied(h, w, packs) == [second, third];
    assert !AllShip([second, third], path) by { assert second in [second, third]; }
    EditSurvivesIff(h, w, packs, manifest, path);
    UpdatesOfTextStayText(h, w, packs);
    var before := UpdatedBy(h, w, packs);
    RemovalOfTextIsNotStopped(h, before.installed.value, before.files, before.installed.value.files);
    RemoveAllLeaves(h, before.installed.value, before.files, before.installed.value.files, path);
  }
}
