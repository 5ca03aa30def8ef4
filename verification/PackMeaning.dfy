/** What an installation accounts for, and what installing and removing do to every file. */
module PackMeaning {
  import opened Wrappers
  import opened Ordering
  import opened Packs
  import opened PackEdits

  // ---- what is accounted for ----------------------------------------------------------

  predicate Counted(p: Progress, path: string) {
    path in p.written || path in p.preserved
  }

  lemma {:induction false} WriteAllCounts(h: Fingerprint, update: Option<Update>, p: Progress, docs: seq<Doc>, path: string)
    ensures Counted(WriteAll(h, update, p, docs), path) <==> Counted(p, path) || path in Paths(docs)
  {
    if docs != [] {
      var before, doc := docs[..|docs| - 1], docs[|docs| - 1];
      WriteAllCounts(h, update, p, before, path);
      assert Paths(docs) == Paths(before) + [doc.path];
    }
  }

  lemma WrittenCounts(h: Fingerprint, files: map<string, File>, pack: Pack, update: Option<Update>, path: string)
    ensures Counted(Written(h, files, pack, update), path) <==> path == pack.manifest.path || Ships(pack, path)
  {
    var start := Progress(files[pack.manifest.path := Readable(pack.manifest.text)], [], map[], []);
    var artifacts := WriteAll(h, update, start, pack.artifacts);
    WriteAllCounts(h, update, start, pack.artifacts, path);
    WriteAllCounts(h, update, CountManifest(h, update, artifacts, pack.manifest), pack.documents, path);
  }

  lemma {:induction false} KeepRecordsCounts(previous: Installed, p: Progress, preserved: seq<string>, path: string)
    ensures path in KeepRecords(previous, p, preserved).written <==> path in p.written || path in preserved
  {
    if preserved != [] {
      KeepRecordsCounts(previous, p, preserved[..|preserved| - 1], path);
      assert preserved == preserved[..|preserved| - 1] + [preserved[|preserved| - 1]];
    }
  }

  /** Without an update nothing is held back. */
  lemma {:induction false} InstallPreservesNothing(h: Fingerprint, p: Progress, docs: seq<Doc>)
    ensures WriteAll(h, None, p, docs).preserved == p.preserved
  {
    if docs != [] { InstallPreservesNothing(h, p, docs[..|docs| - 1]); }
  }

  lemma FreshInstallPreservesNothing(h: Fingerprint, files: map<string, File>, pack: Pack)
    ensures Written(h, files, pack, None).preserved == []
  {
    var start := Progress(files[pack.manifest.path := Readable(pack.manifest.text)], [], map[], []);
    var artifacts := WriteAll(h, None, start, pack.artifacts);
    InstallPreservesNothing(h, start, pack.artifacts);
    InstallPreservesNothing(h, CountManifest(h, None, artifacts, pack.manifest), pack.documents);
  }

  /** After an installation or an update: the version is the pack's, and accounted for are exactly its manifest and what it
      ships, written or preserved. */
  lemma AccountsForWhatItShips(h: Fingerprint, w: World, pack: Pack, update: Option<Update>, path: string)
    requires w.installed.Some? || update.None?
    ensures var after := Materialized(h, w, pack, update);
      && after.installed.Some? && after.installed.value.version == pack.version
      && (path in after.installed.value.files <==> path == pack.manifest.path || Ships(pack, path))
  {
    var p := Written(h, w.files, pack, update);
    WrittenCounts(h, w.files, pack, update, path);
    if w.installed.Some? {
      KeepRecordsCounts(w.installed.value, p, p.preserved, path);
      SortHolds(KeepRecords(w.installed.value, p, p.preserved).written);
    } else {
      FreshInstallPreservesNothing(h, w.files, pack);
      SortHolds(p.written);
    }
  }

  /** No file is touched but the manifest and what is shipped. */
  lemma OthersAreUntouched(h: Fingerprint, w: World, pack: Pack, update: Option<Update>, path: string)
    requires path != pack.manifest.path && !Ships(pack, path)
    ensures var after := Materialized(h, w, pack, update);
      (path in after.files <==> path in w.files) && (path in w.files ==> after.files[path] == w.files[path])
  {
    var start := Progress(w.files[pack.manifest.path := Readable(pack.manifest.text)], [], map[], []);
    WriteAllElsewhere(h, update, start, pack.artifacts, path);
    var artifacts := WriteAll(h, update, start, pack.artifacts);
    WriteAllElsewhere(h, update, CountManifest(h, update, artifacts, pack.manifest), pack.documents, path);
    if w.installed.Some? { KeepingRecordsKeepsFiles(w.installed.value, Written(h, w.files, pack, update), Written(h, w.files, pack, update).preserved); }
  }

  /** A fresh installation writes its manifest and every file it ships, whatever was there, and records their fingerprints. */
  lemma InstallWrites(h: Fingerprint, w: World, pack: Pack, doc: Doc)
    requires OnlyAt(pack, doc)
    ensures var after := Materialized(h, World(w.files, None), pack, None);
      && after.installed.Some? && doc.path in after.files && after.files[doc.path] == Readable(doc.text)
      && doc.path in after.installed.value.files && Recorded(after.installed.value, doc.path) == Some(h(doc.text))
  {
    WrittenHolds(h, w.files, pack, None, doc);
    SortHolds(Written(h, w.files, pack, None).written);
  }

  /** The pack's manifest is written and accounted for whenever nothing else it ships has its path; its fingerprint is recorded
      unless it was in conflict. */
  lemma ManifestIsWritten(h: Fingerprint, w: World, pack: Pack, update: Option<Update>)
    requires !Ships(pack, pack.manifest.path) && (w.installed.Some? || update.None?)
    ensures var after := Materialized(h, w, pack, update);
      && after.installed.Some? && pack.manifest.path in after.files && after.files[pack.manifest.path] == Readable(pack.manifest.text)
      && (Free(update, pack.manifest.path) ==> Recorded(after.installed.value, pack.manifest.path) == Some(h(pack.manifest.text)))
  {
    var path := pack.manifest.path;
    var start := Progress(w.files[path := Readable(pack.manifest.text)], [], map[], []);
    WriteAllElsewhere(h, update, start, pack.artifacts, path);
    var artifacts := WriteAll(h, update, start, pack.artifacts);
    var counted := CountManifest(h, update, artifacts, pack.manifest);
    WriteAllElsewhere(h, update, counted, pack.documents, path);
    var p := Written(h, w.files, pack, update);
    if w.installed.Some? {
      KeepingRecordsKeepsFiles(w.installed.value, p, p.preserved);
      if Free(update, path) { KeepRecordsElsewhere(w.installed.value, p, p.preserved, path); }
    }
  }

  // ---- removal ------------------------------------------------------------------------

  /** A file that exists and is accounted for, and is not known to have been changed, goes. */
  ghost predicate Goes(h: Fingerprint, installed: Installed, files: map<string, File>, paths: seq<string>, path: string) {
    && path in paths && path in files
    && (path in installed.checksums ==> files[path].Readable? && h(files[path].text) == installed.checksums[path])
  }

  /** A removal is stopped exactly by a file accounted for that cannot be read. */
  lemma {:induction false} RemovalIsStoppedIff(h: Fingerprint, installed: Installed, files: map<string, File>, paths: seq<string>)
    ensures RemoveAll(h, installed, files, paths).failed <==> exists path :: path in paths && path in files && files[path] == Unreadable
  {
    if paths != [] {
      var before, last := paths[..|paths| - 1], paths[|paths| - 1];
      RemovalIsStoppedIff(h, installed, files, before);
      assert paths == before + [last];
      if last in files { RemoveAllLeaves(h, installed, files, before, last); } else { RemovalAddsNothing(h, installed, files, before, last); }
    }
  }

  lemma {:induction false} RemovalAddsNothing(h: Fingerprint, installed: Installed, files: map<string, File>, paths: seq<string>, path: string)
    requires path !in files
    ensures path !in RemoveAll(h, installed, files, paths).files
  {
    if paths != [] { RemovalAddsNothing(h, installed, files, paths[..|paths| - 1], path); }
  }

  /** Otherwise exactly the files accounted for go that were not changed since they were recorded; those that were are kept and
      listed, and everything else stays as it is. */
  lemma RemovalTakes(h: Fingerprint, installed: Installed, files: map<string, File>, paths: seq<string>, path: string)
    requires !RemoveAll(h, installed, files, paths).failed
    ensures var r := RemoveAll(h, installed, files, paths);
      && (path in r.files <==> path in files && !Goes(h, installed, files, paths, path))
      && (path in r.files ==> r.files[path] == files[path])
      && (path in r.removed <==> Goes(h, installed, files, paths, path))
      && (path in r.kept <==> path in paths && path in files && !Goes(h, installed, files, paths, path))
  {
    RemovalIsStoppedIff(h, installed, files, paths);
    if path in files { RemoveAllLeaves(h, installed, files, paths, path); } else { RemovalAddsNothing(h, installed, files, paths, path); }
    ListedAs(h, installed, files, paths, path);
  }

  /** The path is listed as what became of it. */
  ghost predicate Listed(h: Fingerprint, installed: Installed, files: map<string, File>, paths: seq<string>, r: Removal, path: string) {
    && (path in r.removed <==> Goes(h, installed, files, paths, path))
    && (path in r.kept <==> path in paths && path in files && !Goes(h, installed, files, paths, path))
  }

  lemma OneMoreListed(h: Fingerprint, installed: Installed, files: map<string, File>, before: seq<string>, last: string, r: Removal, path: string)
    requires Listed(h, installed, files, before, r, path) && !r.failed && !RemoveOne(h, installed, r, last).failed
    requires path in r.files ==> path in files && r.files[path] == files[path]
    requires path in files && path !in r.files ==> Goes(h, installed, files, before, path)
    ensures Listed(h, installed, files, before + [last], RemoveOne(h, installed, r, last), path)
  {
  }

  lemma {:induction false} ListedAs(h: Fingerprint, installed: Installed, files: map<string, File>, paths: seq<string>, path: string)
    requires !RemoveAll(h, installed, files, paths).failed
    ensures Listed(h, installed, files, paths, RemoveAll(h, installed, files, paths), path)
  {
    if paths != [] {
      var before, last := paths[..|paths| - 1], paths[|paths| - 1];
      var r := RemoveAll(h, installed, files, before);
      assert paths == before + [last];
      ListedAs(h, installed, files, before, path);
      if path in files { RemoveAllLeaves(h, installed, files, before, path); } else { RemovalAddsNothing(h, installed, files, before, path); }
      OneMoreListed(h, installed, files, before, last, r, path);
    }
  }
}
