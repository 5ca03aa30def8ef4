/** Installing, updating and removing a pack of files, with a fingerprint of each file as it was written. */
module Packs {
  import opened Wrappers
  import opened Ordering

  /** A file's content, or bytes that are not text. */
  datatype File = Readable(text: string) | Unreadable

  datatype Doc = Doc(path: string, text: string)

  /** What a version ships: artifacts, then documents, and the manifest that describes them. */
  datatype Pack = Pack(version: string, artifacts: seq<Doc>, documents: seq<Doc>, manifest: Doc)

  /** What the installation recorded: the files it accounts for, and the fingerprints of what it wrote. */
  datatype Installed = Installed(version: string, files: seq<string>, checksums: map<string, string>)

  type Fingerprint = string -> string

  function Recorded(installed: Installed, path: string): Option<string> {
    if path in installed.checksums then Some(installed.checksums[path]) else None
  }

  // ---- planning an update -------------------------------------------------------------

  datatype Kind = Added | Updatable | Conflict

  function Classify(h: Fingerprint, files: map<string, File>, installed: Installed, manifest: string, path: string): Kind {
    if path !in files then Added
    else if path == manifest then Updatable
    else if files[path].Readable? && Recorded(installed, path) == Some(h(files[path].text)) then Updatable
    else Conflict
  }

  function Paths(docs: seq<Doc>): (paths: seq<string>)
    ensures |paths| == |docs|
  {
    seq(|docs|, i requires 0 <= i < |docs| => docs[i].path)
  }

  function PlannedPaths(pack: Pack): seq<string> {
    [pack.manifest.path] + Paths(pack.artifacts) + Paths(pack.documents)
  }

  function OfKind(h: Fingerprint, files: map<string, File>, installed: Installed, manifest: string, paths: seq<string>, kind: Kind): seq<string> {
    if paths == [] then []
    else
      OfKind(h, files, installed, manifest, paths[..|paths| - 1], kind)
      + if Classify(h, files, installed, manifest, paths[|paths| - 1]) == kind then [paths[|paths| - 1]] else []
  }

  datatype Plan = Plan(added: seq<string>, updatable: seq<string>, conflict: seq<string>, identical: bool)

  function Planned(h: Fingerprint, files: map<string, File>, installed: Installed, pack: Pack): Plan {
    var added := OfKind(h, files, installed, pack.manifest.path, PlannedPaths(pack), Added);
    var updatable := OfKind(h, files, installed, pack.manifest.path, PlannedPaths(pack), Updatable);
    var conflict := OfKind(h, files, installed, pack.manifest.path, PlannedPaths(pack), Conflict);
    Plan(added, updatable, conflict, installed.version == pack.version && added == [] && conflict == [])
  }

  // ---- writing ------------------------------------------------------------------------

  /** The plan of an update and the files it may overwrite. */
  datatype Update = Update(plan: Plan, overwrite: seq<string>)

  predicate MayWrite(update: Option<Update>, files: map<string, File>, path: string) {
    update.Some? ==> path in update.value.overwrite || !(path in files && path in update.value.plan.conflict)
  }

  datatype Progress = Progress(files: map<string, File>, written: seq<string>, checksums: map<string, string>, preserved: seq<string>)

  function WriteOne(h: Fingerprint, update: Option<Update>, p: Progress, doc: Doc): Progress {
    if MayWrite(update, p.files, doc.path)
      then Progress(p.files[doc.path := Readable(doc.text)], p.written + [doc.path], p.checksums[doc.path := h(doc.text)], p.preserved)
      else p.(preserved := p.preserved + [doc.path])
  }

  function WriteAll(h: Fingerprint, update: Option<Update>, p: Progress, docs: seq<Doc>): Progress {
    if docs == [] then p else WriteOne(h, update, WriteAll(h, update, p, docs[..|docs| - 1]), docs[|docs| - 1])
  }

  /** The manifest is already in place; it is accounted for. */
  function CountManifest(h: Fingerprint, update: Option<Update>, p: Progress, manifest: Doc): Progress {
    if MayWrite(update, p.files, manifest.path)
      then p.(written := p.written + [manifest.path], checksums := p.checksums[manifest.path := h(manifest.text)])
      else p.(preserved := p.preserved + [manifest.path])
  }

  /** What was preserved stays accounted for, with the fingerprint it had. */
  function KeepRecord(previous: Installed, p: Progress, path: string): Progress {
    var recorded := Recorded(previous, path);
    p.(checksums := if recorded.Some? then p.checksums[path := recorded.value] else p.checksums,
       written := if path in p.written then p.written else p.written + [path])
  }

  function KeepRecords(previous: Installed, p: Progress, preserved: seq<string>): Progress {
    if preserved == [] then p
    else KeepRecord(previous, KeepRecords(previous, p, preserved[..|preserved| - 1]), preserved[|preserved| - 1])
  }

  datatype World = World(files: map<string, File>, installed: Option<Installed>)

  function Written(h: Fingerprint, files: map<string, File>, pack: Pack, update: Option<Update>): Progress {
    var artifacts := WriteAll(h, update, Progress(files[pack.manifest.path := Readable(pack.manifest.text)], [], map[], []), pack.artifacts);
    WriteAll(h, update, CountManifest(h, update, artifacts, pack.manifest), pack.documents)
  }

  /** An approved pack: the manifest is written, then the files, then the record. */
  function Materialized(h: Fingerprint, w: World, pack: Pack, update: Option<Update>): World {
    var p := Written(h, w.files, pack, update);
    var kept := if w.installed.Some? then KeepRecords(w.installed.value, p, p.preserved) else p;
    World(kept.files, Some(Installed(pack.version, Sort(kept.written, TextLe), kept.checksums)))
  }

  /** Planning and applying one version; an update that would change nothing is refused, as is one of nothing. */
  function Updated(h: Fingerprint, w: World, pack: Pack, overwrite: bool): World {
    if w.installed.None? then w
    else
      var plan := Planned(h, w.files, w.installed.value, pack);
      if plan.identical then w else Materialized(h, w, pack, Some(Update(plan, if overwrite then plan.conflict else [])))
  }

  // ---- removing -----------------------------------------------------------------------

  datatype Removal = Removal(files: map<string, File>, removed: seq<string>, kept: seq<string>, failed: bool)

  /** Only what is as it was recorded goes, or was never recorded; a file that cannot be read stops everything. */
  function RemoveOne(h: Fingerprint, installed: Installed, r: Removal, path: string): Removal {
    if r.failed || path !in r.files then r
    else
      match r.files[path]
      case Unreadable => r.(failed := true)
      case Readable(text) =>
        var recorded := Recorded(installed, path);
        if recorded.Some? && recorded.value != h(text) then r.(kept := r.kept + [path])
        else r.(files := r.files - {path}, removed := r.removed + [path])
  }

  function RemoveAll(h: Fingerprint, installed: Installed, files: map<string, File>, paths: seq<string>): Removal {
    if paths == [] then Removal(files, [], [], false)
    else RemoveOne(h, installed, RemoveAll(h, installed, files, paths[..|paths| - 1]), paths[|paths| - 1])
  }

  class PackService {
    const h: Fingerprint
    var files: map<string, File>
    var installed: Option<Installed>

    constructor (h: Fingerprint, files: map<string, File>)
      ensures this.h == h && this.files == files && installed == None
    {
      this.h, this.files, installed := h, files, None;
    }

    function Current(): World
      reads this
    {
      World(files, installed)
    }

    method UpdatePlan(installed: Installed, pack: Pack) returns (plan: Plan)
      ensures plan == Planned(h, files, installed, pack)
    {
      var added, updatable, conflict := [], [], [];
      var paths, manifest := PlannedPaths(pack), pack.manifest.path;
      for i := 0 to |paths|
        invariant added == OfKind(h, files, installed, manifest, paths[..i], Added)
        invariant updatable == OfKind(h, files, installed, manifest, paths[..i], Updatable)
        invariant conflict == OfKind(h, files, installed, manifest, paths[..i], Conflict)
      {
        assert paths[..i + 1][..i] == paths[..i];
        match Classify(h, files, installed, manifest, paths[i])
        case Added => added := added + [paths[i]];
        case Updatable => updatable := updatable + [paths[i]];
        case Conflict => conflict := conflict + [paths[i]];
      }
      assert paths[..|paths|] == paths;
      plan := Plan(added, updatable, conflict, installed.version == pack.version && added == [] && conflict == []);
    }

    method Write(update: Option<Update>, so: Progress, docs: seq<Doc>) returns (p: Progress)
      ensures p == WriteAll(h, update, so, docs)
    {
      p := so;
      for i := 0 to |docs|
        invariant p == WriteAll(h, update, so, docs[..i])
      {
        assert docs[..i + 1][..i] == docs[..i];
        p := WriteOne(h, update, p, docs[i]);
      }
      assert docs[..|docs|] == docs;
    }

    method Materialize(pack: Pack, update: Option<Update>)
      modifies this
      ensures Current() == Materialized(h, old(Current()), pack, update)
    {
      var p := Write(update, Progress(files[pack.manifest.path := Readable(pack.manifest.text)], [], map[], []), pack.artifacts);
      p := CountManifest(h, update, p, pack.manifest);
      p := Write(update, p, pack.documents);
      var preserved := p.preserved;
      if installed.Some? {
        var wrote := p;
        for i := 0 to |preserved|
          invariant p == KeepRecords(installed.value, wrote, preserved[..i])
        {
          assert preserved[..i + 1][..i] == preserved[..i];
          p := KeepRecord(installed.value, p, preserved[i]);
        }
        assert preserved[..|preserved|] == preserved;
      }
      files, installed := p.files, Some(Installed(pack.version, Sort(p.written, TextLe), p.checksums));
    }

    method ApplyUpdate(pack: Pack, overwrite: bool)
      modifies this
      ensures Current() == Updated(h, old(Current()), pack, overwrite)
    {
      if installed.Some? {
        var plan := UpdatePlan(installed.value, pack);
        if !plan.identical { Materialize(pack, Some(Update(plan, if overwrite then plan.conflict else []))); }
      }
    }

    /** After a file that cannot be read the record stays; otherwise the installation is forgotten. */
    method Remove() returns (result: Option<Removal>)
      modifies this
      ensures old(installed).None? ==> result == None && Current() == old(Current())
      ensures old(installed).Some? ==>
        var r := RemoveAll(h, old(installed).value, old(files), old(installed).value.files);
        result == Some(r) && files == r.files && installed == if r.failed then old(installed) else None
    {
      if installed.None? { return None; }
      var paths := installed.value.files;
      var r := Removal(files, [], [], false);
      for i := 0 to |paths|
        invariant r == RemoveAll(h, old(installed).value, old(files), paths[..i])
        invariant files == if i == 0 then old(files) else r.files
        invariant installed == old(installed)
      {
        assert paths[..i + 1][..i] == paths[..i];
        r := RemoveOne(h, installed.value, r, paths[i]);
        files := r.files;
      }
      assert paths[..|paths|] == paths;
      if !r.failed { installed := None; }
      result := Some(r);
    }
  }

  // ---- the plan is a partition ----------------------------------------------------------

  lemma {:induction false} OfKindAre(h: Fingerprint, files: map<string, File>, installed: Installed, manifest: string, paths: seq<string>, kind: Kind)
    ensures forall path :: path in OfKind(h, files, installed, manifest, paths, kind) <==> path in paths && Classify(h, files, installed, manifest, path) == kind
  {
    if paths != [] {
      OfKindAre(h, files, installed, manifest, paths[..|paths| - 1], kind);
      assert paths == paths[..|paths| - 1] + [paths[|paths| - 1]];
    }
  }

  lemma {:induction false} KindsAddUp(h: Fingerprint, files: map<string, File>, installed: Installed, manifest: string, paths: seq<string>)
    ensures |OfKind(h, files, installed, manifest, paths, Added)| + |OfKind(h, files, installed, manifest, paths, Updatable)|
      + |OfKind(h, files, installed, manifest, paths, Conflict)| == |paths|
  {
    if paths != [] { KindsAddUp(h, files, installed, manifest, paths[..|paths| - 1]); }
  }

  /** The file exists, is not the manifest, and is not as recorded. */
  predicate Edited(h: Fingerprint, files: map<string, File>, installed: Installed, manifest: string, path: string) {
    path in files && path != manifest && (files[path] == Unreadable || Recorded(installed, path) != Some(h(files[path].text)))
  }

  /** Every planned path is in one list and only one. An added one does not exist yet; one in conflict
      was edited. */
  lemma PlanPartitions(h: Fingerprint, files: map<string, File>, installed: Installed, pack: Pack, path: string)
    ensures var plan := Planned(h, files, installed, pack);
      && |plan.added| + |plan.updatable| + |plan.conflict| == |PlannedPaths(pack)|
      && (path in plan.added <==> path in PlannedPaths(pack) && path !in files)
      && (path in plan.conflict <==> path in PlannedPaths(pack) && Edited(h, files, installed, pack.manifest.path, path))
      && (path in plan.updatable <==> path in PlannedPaths(pack) && path !in plan.added && path !in plan.conflict)
  {
    KindsAddUp(h, files, installed, pack.manifest.path, PlannedPaths(pack));
    OfKindAre(h, files, installed, pack.manifest.path, PlannedPaths(pack), Added);
    OfKindAre(h, files, installed, pack.manifest.path, PlannedPaths(pack), Updatable);
    OfKindAre(h, files, installed, pack.manifest.path, PlannedPaths(pack), Conflict);
  }
}
