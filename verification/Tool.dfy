/** lvtclp/ct_lvtclp_filesystemscanner.cpp and the uncancelled control flow of
    lvtclp/ct_lvtclp_tool.cpp, proved against the functions of IncrementalUpdates.
    The files on disk do not change while a run is under way. */
module Tools {
  import opened PathAlgebra
  import opened CompilationDatabases
  import opened IncrementalUpdates
  import opened ObjectStores
  import opened Digraph

  datatype IncrementalResult =
    IncrementalResult(newFiles: seq<File>, modifiedFiles: seq<File>, deletedFiles: seq<File>)

  /** What the scan looks at besides the store: the disk, for each unit the header
      paths to try, in order, and the ignored files. */
  datatype Source = Source(disk: Disk, headers: map<Names, seq<Names>>, ignored: set<Names>)

  function Candidates(source: Source, unit: Names): seq<Names> {
    if unit in source.headers then source.headers[unit] else []
  }

  function FirstPresent(prefix: Names, disk: Disk, paths: seq<Names>): seq<Names> {
    if paths == [] then []
    else if Normalise(paths[0], prefix) in disk then [paths[0]]
    else FirstPresent(prefix, disk, paths[1..])
  }

  function PathFound(prefix: Names, source: Source, p: Names): seq<File> {
    if p !in source.ignored && Normalise(p, prefix) in source.disk then [Normalise(p, prefix)] else []
  }

  /** The first header that exists is taken, even if it then turns out to be ignored. */
  function HeaderFound(prefix: Names, source: Source, unit: Names): seq<File> {
    var first := FirstPresent(prefix, source.disk, Candidates(source, unit));
    if first == [] then [] else PathFound(prefix, source, first[0])
  }

  function AllFound(prefix: Names, source: Source, units: seq<Names>): seq<File>
    decreases units
  {
    if units == [] then []
    else
      var last := units[|units| - 1];
      AllFound(prefix, source, units[..|units| - 1])
      + PathFound(prefix, source, last) + HeaderFound(prefix, source, last)
  }

  lemma AllFoundNext(prefix: Names, source: Source, units: seq<Names>, i: nat)
    requires i < |units|
    ensures AllFound(prefix, source, units[..i + 1])
            == AllFound(prefix, source, units[..i]) + PathFound(prefix, source, units[i])
                + HeaderFound(prefix, source, units[i])
  {
    assert units[..i + 1][..i] == units[..i];
  }

  /** The files the scan finds: the units, and for each the first header that exists,
      unless they are ignored. */
  ghost function Found(project: Project, source: Source): set<File> {
    Elems(AllFound(project.prefix, source, project.paths))
  }

  /** The file h is the header of the unit: a candidate on disk with none on disk before. */
  ghost predicate HeaderOf(prefix: Names, source: Source, unit: Names, h: Names) {
    unit in source.headers &&
    exists k | 0 <= k < |source.headers[unit]| ::
      && source.headers[unit][k] == h && Normalise(h, prefix) in source.disk
      && forall j | 0 <= j < k :: Normalise(source.headers[unit][j], prefix) !in source.disk
  }

  ghost predicate FoundAt(prefix: Names, source: Source, u: Names, f: File) {
    || (u !in source.ignored && f == Normalise(u, prefix) && f in source.disk)
    || (exists h :: HeaderOf(prefix, source, u, h) && h !in source.ignored && f == Normalise(h, prefix))
  }

  /** The scan must find just the units and their headers, as far as they are on disk and
      not ignored. */
  ghost predicate IsFound(prefix: Names, source: Source, units: seq<Names>, f: File) {
    exists u | u in units :: FoundAt(prefix, source, u, f)
  }

  /** There is at most one such header, the one that the scan comes to first. */
  lemma FirstIsHeader(prefix: Names, source: Source, unit: Names, h: Names)
    ensures HeaderOf(prefix, source, unit, h) <==>
            FirstPresent(prefix, source.disk, Candidates(source, unit)) == [h]
  {
    var paths := Candidates(source, unit);
    var first := FirstPresent(prefix, source.disk, paths);
    FirstPresentListed(prefix, source.disk, paths);
    if HeaderOf(prefix, source, unit, h) {
      var k :| 0 <= k < |paths| && paths[k] == h && Normalise(h, prefix) in source.disk
               && forall j | 0 <= j < k :: Normalise(paths[j], prefix) !in source.disk;
      FirstPresentAt(prefix, source.disk, paths, k);
    }
  }

  lemma {:induction false} FirstPresentAt(prefix: Names, disk: Disk, paths: seq<Names>, k: nat)
    requires k < |paths| && Normalise(paths[k], prefix) in disk
    requires forall j | 0 <= j < k :: Normalise(paths[j], prefix) !in disk
    ensures FirstPresent(prefix, disk, paths) == [paths[k]]
    decreases k
  {
    if k > 0 {
      assert Normalise(paths[0], prefix) !in disk;
      FirstPresentAt(prefix, disk, paths[1..], k - 1);
    }
  }

  lemma HeaderFoundIs(prefix: Names, source: Source, unit: Names, f: File)
    ensures f in HeaderFound(prefix, source, unit) <==>
            exists h :: HeaderOf(prefix, source, unit, h) && h !in source.ignored && f == Normalise(h, prefix)
  {
    var first := FirstPresent(prefix, source.disk, Candidates(source, unit));
    FirstPresentListed(prefix, source.disk, Candidates(source, unit));
    if f in HeaderFound(prefix, source, unit) {
      assert first == [first[0]];
      FirstIsHeader(prefix, source, unit, first[0]);
    }
    if h :| HeaderOf(prefix, source, unit, h) && h !in source.ignored && f == Normalise(h, prefix) {
      FirstIsHeader(prefix, source, unit, h);
    }
  }

  lemma {:induction false} FoundExactly(prefix: Names, source: Source, units: seq<Names>, f: File)
    ensures f in AllFound(prefix, source, units) <==> IsFound(prefix, source, units, f)
    decreases units
  {
    if units != [] {
      var n := |units| - 1;
      FoundExactly(prefix, source, units[..n], f);
      HeaderFoundIs(prefix, source, units[n], f);
      IsFoundNext(prefix, source, units, f);
    }
  }

  lemma IsFoundNext(prefix: Names, source: Source, units: seq<Names>, f: File)
    requires units != []
    ensures var n := |units| - 1;
            IsFound(prefix, source, units, f) <==>
              IsFound(prefix, source, units[..n], f) || FoundAt(prefix, source, units[n], f)
  {
    assert units == units[..|units| - 1] + [units[|units| - 1]];
  }

  lemma FoundFacts(prefix: Names, source: Source, units: seq<Names>)
    requires Canonical(prefix) && AllCanonical(units)
    requires forall u, h | u in source.headers && h in source.headers[u] :: Canonical(h)
    ensures forall f | f in AllFound(prefix, source, units) :: f in source.disk && WellNamed(prefix, f)
    ensures forall u | u in units && u !in source.ignored && Normalise(u, prefix) in source.disk ::
              Normalise(u, prefix) in AllFound(prefix, source, units)
  {
    forall f | f in AllFound(prefix, source, units) ensures f in source.disk && WellNamed(prefix, f) {
      FoundExactly(prefix, source, units, f);
      var u :| u in units && FoundAt(prefix, source, u, f);
      FoundAtFacts(prefix, source, u, f);
    }
    forall u | u in units && u !in source.ignored && Normalise(u, prefix) in source.disk
      ensures Normalise(u, prefix) in AllFound(prefix, source, units)
    {
      assert FoundAt(prefix, source, u, Normalise(u, prefix));
      FoundExactly(prefix, source, units, Normalise(u, prefix));
    }
  }

  lemma FoundAtFacts(prefix: Names, source: Source, u: Names, f: File)
    requires Canonical(prefix) && Canonical(u) && FoundAt(prefix, source, u, f)
    requires forall u, h | u in source.headers && h in source.headers[u] :: Canonical(h)
    ensures f in source.disk && WellNamed(prefix, f)
  {
    NormaliseIsWellNamed(prefix, u);
    if h :| HeaderOf(prefix, source, u, h) && f == Normalise(h, prefix) {
      NormaliseIsWellNamed(prefix, h);
    }
  }

  /** The first path on disk, if any is. */
  lemma {:induction false} FirstPresentListed(prefix: Names, disk: Disk, paths: seq<Names>)
    ensures var first := FirstPresent(prefix, disk, paths);
            if first == [] then forall p | p in paths :: Normalise(p, prefix) !in disk
            else
              && |first| == 1 && Normalise(first[0], prefix) in disk
              && exists k :: 0 <= k < |paths| && paths[k] == first[0]
                             && forall j | 0 <= j < k :: Normalise(paths[j], prefix) !in disk
    decreases paths
  {
    if paths != [] && Normalise(paths[0], prefix) !in disk {
      FirstPresentListed(prefix, disk, paths[1..]);
      var first := FirstPresent(prefix, disk, paths);
      if first != [] {
        var k :| 0 <= k < |paths[1..]| && paths[1..][k] == first[0]
                 && forall j | 0 <= j < k :: Normalise(paths[1..][j], prefix) !in disk;
        forall j | 0 <= j < k + 1 ensures Normalise(paths[j], prefix) !in disk {
          if j > 0 { assert paths[j] == paths[1..][j - 1]; }
        }
        assert paths[k + 1] == first[0];
      } else {
        assert paths == [paths[0]] + paths[1..];
      }
    }
  }

  /** A name that `normalisePath` can have produced. */
  ghost predicate WellNamed(prefix: Names, f: File) {
    Canonical(Join(prefix, f)) && Normalise(Join(prefix, f), prefix) == f
  }

  lemma NormaliseIsWellNamed(prefix: Names, p: Names)
    requires Canonical(prefix) && Canonical(p)
    ensures WellNamed(prefix, Normalise(p, prefix))
  {
    var f := Normalise(p, prefix);
    if !f.absolute {
      assert Canonical(prefix + f.names);
      ComponentPrefixStartsWith(prefix, prefix + f.names);
      CommonRunIs(prefix, prefix + f.names, |prefix|);
    }
  }

  lemma TargetedByName(prefix: Names, wanted: seq<File>, p: Names)
    requires Canonical(prefix) && Canonical(p) && !Sibling(prefix, p)
    requires forall f | f in wanted :: WellNamed(prefix, f)
    ensures p in Targets(prefix, wanted) <==> Normalise(p, prefix) in wanted
  {
    RoundTripExactlyWhen(prefix, p);
  }

  /** What one more found file adds to the scan. */
  lemma NewFilesNext(store: Store, seen: set<File>, f: File)
    ensures NewFiles(store, seen + {f})
            == NewFiles(store, seen) + if f !in store && Recognised(f.names) then {f} else {}
  {
  }

  lemma ModifiedFilesNext(store: Store, seen: set<File>, f: File, disk: Disk)
    ensures ModifiedFiles(store, seen + {f}, disk)
            == ModifiedFiles(store, seen, disk) + if f in store && store[f].hash != HashOf(disk, f) then {f} else {}
  {
  }

  function Noted(store: Store, scanned: Store, f: File, disk: Disk): Store {
    if f in store then scanned[f := store[f].(hash := HashOf(disk, f))]
    else if Recognised(f.names) then scanned[f := FileObject(HashOf(disk, f), {}, {})]
    else scanned
  }

  lemma ScannedNext(store: Store, seen: set<File>, f: File, disk: Disk)
    ensures Scanned(store, seen + {f}, disk) == Noted(store, Scanned(store, seen, disk), f, disk)
  {
    NewFilesNext(store, seen, f);
    var a, b := Scanned(store, seen + {f}, disk), Noted(store, Scanned(store, seen, disk), f, disk);
    assert a.Keys == b.Keys;
    forall g | g in a ensures a[g] == b[g] {}
  }

  /** New are the found files with the name of a header or a source that were not stored,
      modified those stored with another hash, and deleted the stored ones that share
      directory and stem with a unit and were not found. Hashes are brought up to date, new
      files are stored without contents, and nothing else changes. */
  ghost predicate ScansRight(prefix: Names, units: seq<Names>, source: Source, before: Store,
                             res: IncrementalResult, after: Store)
  {
    && (forall f :: f in res.newFiles <==>
          IsFound(prefix, source, units, f) && f !in before && Recognised(f.names))
    && (forall f :: f in res.modifiedFiles <==>
          IsFound(prefix, source, units, f) && f in before && before[f].hash != Md5(source.disk[f]))
    && (forall f :: f in res.deletedFiles <==>
          && f in before && !IsFound(prefix, source, units, f)
          && Recognised(f.names) && exists u :: u in units && Stripped(u) == Stripped(Join(prefix, f)))
    && (forall f :: f in after <==> f in before || f in res.newFiles)
    && (forall f | f in res.newFiles :: after[f] == FileObject(Md5(source.disk[f]), {}, {}))
    && (forall f | f in before && IsFound(prefix, source, units, f) ::
          after[f] == before[f].(hash := Md5(source.disk[f])))
    && (forall f | f in before && !IsFound(prefix, source, units, f) :: after[f] == before[f])
  }

  lemma FoundIsOnDisk(prefix: Names, source: Source, units: seq<Names>, f: File)
    requires IsFound(prefix, source, units, f)
    ensures f in source.disk
  {
  }

  lemma ListedIn(list: seq<File>, members: set<File>)
    requires Lists(list, members)
    ensures forall f :: f in list <==> f in members
  {
    forall f ensures f in list <==> f in Elems(list) {}
  }

  /** The same with a set of found files. */
  ghost predicate ScansRightFor(project: Project, found: set<File>, disk: Disk, before: Store,
                                res: IncrementalResult, after: Store)
  {
    && (forall f :: f in res.newFiles <==> f in found && f !in before && Recognised(f.names))
    && (forall f :: f in res.modifiedFiles <==> f in found && f in before && before[f].hash != HashOf(disk, f))
    && (forall f :: f in res.deletedFiles <==>
          && f in before && f !in found
          && Recognised(f.names) && exists u :: u in project.paths && Stripped(u) == Stripped(Join(project.prefix, f)))
    && (forall f :: f in after <==> f in before || f in res.newFiles)
    && (forall f | f in res.newFiles :: after[f] == FileObject(HashOf(disk, f), {}, {}))
    && (forall f | f in before && f in found :: after[f] == before[f].(hash := HashOf(disk, f)))
    && (forall f | f in before && f !in found :: after[f] == before[f])
  }

  lemma ScanIsRightFor(project: Project, found: set<File>, disk: Disk, before: Store, res: IncrementalResult)
    requires ReportsScan(res, before, found, disk, project)
    ensures ScansRightFor(project, found, disk, before, res, Scanned(before, found, disk))
  {
    ListedIn(res.newFiles, NewFiles(before, found));
    ListedIn(res.modifiedFiles, ModifiedFiles(before, found, disk));
    ListedIn(res.deletedFiles, DeletedFiles(before, found, project));
    forall f ensures f in DeletedFiles(before, found, project) <==>
        && f in before && f !in found
        && Recognised(f.names)
        && exists u :: u in project.paths && Stripped(u) == Stripped(Join(project.prefix, f))
    {
      DeletedIs(project, found, before, f);
    }
    ScannedIs(before, found, disk);
  }

  lemma DeletedIs(project: Project, found: set<File>, before: Store, f: File)
    ensures f in DeletedFiles(before, found, project) <==>
            && f in before && f !in found
            && Recognised(f.names)
            && exists u :: u in project.paths && Stripped(u) == Stripped(Join(project.prefix, f))
  {
  }

  lemma ScannedIs(before: Store, found: set<File>, disk: Disk)
    ensures var after := Scanned(before, found, disk);
            && (forall f :: f in after <==> f in before || f in NewFiles(before, found))
            && (forall f | f in NewFiles(before, found) :: after[f] == FileObject(HashOf(disk, f), {}, {}))
            && (forall f | f in before && f in found :: after[f] == before[f].(hash := HashOf(disk, f)))
            && (forall f | f in before && f !in found :: after[f] == before[f])
  {
  }

  lemma ScanIsRight(project: Project, source: Source, before: Store, res: IncrementalResult)
    requires ReportsScan(res, before, Found(project, source), source.disk, project)
    ensures ScansRight(project.prefix, project.paths, source, before, res,
                       Scanned(before, Found(project, source), source.disk))
  {
    var found := Found(project, source);
    forall f ensures f in found <==> IsFound(project.prefix, source, project.paths, f) {
      FoundExactly(project.prefix, source, project.paths, f);
    }
    forall f | f in found ensures HashOf(source.disk, f) == Md5(source.disk[f]) {
      FoundIsOnDisk(project.prefix, source, project.paths, f);
    }
    ScanIsRightFor(project, found, source.disk, before, res);
  }

  class FilesystemScanner {
    const memDb: ObjectStore
    const cdb: CompilationDatabase
    var foundFiles: seq<File>

    constructor (memDb: ObjectStore, cdb: CompilationDatabase)
      ensures this.memDb == memDb && this.cdb == cdb && foundFiles == []
    {
      this.memDb, this.cdb, foundFiles := memDb, cdb, [];
    }

    method ScanPath(path: Names, source: Source)
      modifies this
      ensures foundFiles == old(foundFiles) + PathFound(cdb.prefix, source, path)
    {
      var file := Normalise(path, cdb.prefix);
      if file !in source.disk {
        return;
      }
      if path in source.ignored {
        return;
      }
      foundFiles := foundFiles + [file];
    }

    method ScanHeader(unit: Names, source: Source)
      modifies this
      ensures foundFiles == old(foundFiles) + HeaderFound(cdb.prefix, source, unit)
    {
      var paths := Candidates(source, unit);
      for i := 0 to |paths|
        invariant foundFiles == old(foundFiles)
        invariant FirstPresent(cdb.prefix, source.disk, paths) == FirstPresent(cdb.prefix, source.disk, paths[i..])
      {
        if Normalise(paths[i], cdb.prefix) in source.disk {
          ScanPath(paths[i], source);
          return;
        }
      }
    }

    method ScanPaths(source: Source)
      requires foundFiles == []
      modifies this
      ensures foundFiles == AllFound(cdb.prefix, source, cdb.paths)
    {
      var paths := cdb.paths;
      for i := 0 to |paths|
        invariant foundFiles == AllFound(cdb.prefix, source, paths[..i])
      {
        AllFoundNext(cdb.prefix, source, paths, i);
        ScanPath(paths[i], source);
        ScanHeader(paths[i], source);
      }
      assert paths[..|paths|] == paths;
    }

    method ScanCompilationDb(source: Source) returns (res: IncrementalResult)
      requires cdb.Valid() && memDb.Valid() && foundFiles == []
      requires forall f | f in memDb.files :: WellNamed(cdb.prefix, f)
      modifies this, memDb`files, memDb`links
      ensures memDb.Valid() && memDb.Stale() == old(memDb.Stale())
      ensures var project := Project(cdb.prefix, cdb.paths);
              ReportsScan(res, old(memDb.files), Found(project, source), source.disk, project)
              && memDb.files == Scanned(old(memDb.files), Found(project, source), source.disk)
      ensures ScansRight(cdb.prefix, cdb.paths, source, old(memDb.files), res, memDb.files)
    {
      ScanPaths(source);
      res := AddToDatabase(source.disk);
      ScanIsRight(Project(cdb.prefix, cdb.paths), source, old(memDb.files), res);
    }

    method AddToDatabase(disk: Disk) returns (res: IncrementalResult)
      requires cdb.Valid() && memDb.Valid()
      requires forall f | f in memDb.files :: WellNamed(cdb.prefix, f)
      modifies this, memDb`files, memDb`links
      ensures memDb.Valid() && memDb.Stale() == old(memDb.Stale())
      ensures ReportsScan(res, old(memDb.files), Elems(old(foundFiles)), disk, Project(cdb.prefix, cdb.paths))
      ensures memDb.files == Scanned(old(memDb.files), Elems(old(foundFiles)), disk)
      ensures foundFiles == []
    {
      var allDbFiles := memDb.files.Keys;
      ghost var store, found := memDb.files, Elems(foundFiles);
      var newFiles, modifiedFiles, existingFiles := AddFiles(disk);
      var deletedFiles := ReportDeleted(allDbFiles, existingFiles);
      MissingIsDeleted(Project(cdb.prefix, cdb.paths), store, found, existingFiles);
      res := IncrementalResult(newFiles, modifiedFiles, deletedFiles);
      foundFiles := [];
    }

    method AddFiles(disk: Disk) returns (newFiles: seq<File>, modifiedFiles: seq<File>, existingFiles: set<File>)
      requires memDb.Valid()
      modifies memDb`files, memDb`links
      ensures memDb.Valid() && memDb.Stale() == old(memDb.Stale())
      ensures memDb.files == Scanned(old(memDb.files), Elems(foundFiles), disk)
      ensures Lists(newFiles, NewFiles(old(memDb.files), Elems(foundFiles)))
      ensures Lists(modifiedFiles, ModifiedFiles(old(memDb.files), Elems(foundFiles), disk))
      ensures forall f | f in old(memDb.files) :: f in existingFiles <==> f in Elems(foundFiles)
    {
      newFiles, modifiedFiles, existingFiles := [], [], {};
      ghost var store := memDb.files;
      for i := 0 to |foundFiles|
        invariant memDb.Valid() && memDb.Stale() == old(memDb.Stale())
        invariant memDb.files == Scanned(store, Elems(foundFiles[..i]), disk)
        invariant Lists(newFiles, NewFiles(store, Elems(foundFiles[..i])))
        invariant Lists(modifiedFiles, ModifiedFiles(store, Elems(foundFiles[..i]), disk))
        invariant forall f | f in store :: f in existingFiles <==> f in Elems(foundFiles[..i])
      {
        assert foundFiles[..i + 1] == foundFiles[..i] + [foundFiles[i]];
        assert Elems(foundFiles[..i + 1]) == Elems(foundFiles[..i]) + {foundFiles[i]};
        if foundFiles[i] in memDb.files {
          existingFiles := existingFiles + {foundFiles[i]};
        }
        newFiles, modifiedFiles := AddFile(foundFiles[i], disk, newFiles, modifiedFiles, store, Elems(foundFiles[..i]));
      }
      assert foundFiles[..|foundFiles|] == foundFiles;
    }

    /** Adds a found file, or compares its hash. A file found again is left alone. */
    method AddFile(f: File, disk: Disk, newFiles: seq<File>, modifiedFiles: seq<File>,
                   ghost store: Store, ghost seen: set<File>)
      returns (newFiles': seq<File>, modifiedFiles': seq<File>)
      requires memDb.Valid() && memDb.files == Scanned(store, seen, disk)
      requires Lists(newFiles, NewFiles(store, seen)) && Lists(modifiedFiles, ModifiedFiles(store, seen, disk))
      modifies memDb`files, memDb`links
      ensures memDb.Valid() && memDb.Stale() == old(memDb.Stale())
      ensures memDb.files == Scanned(store, seen + {f}, disk)
      ensures Lists(newFiles', NewFiles(store, seen + {f}))
      ensures Lists(modifiedFiles', ModifiedFiles(store, seen + {f}, disk))
    {
      newFiles', modifiedFiles' := newFiles, modifiedFiles;
      var hash := HashOf(disk, f);
      NewFilesNext(store, seen, f);
      ModifiedFilesNext(store, seen, f, disk);
      ScannedNext(store, seen, f, disk);
      if f !in memDb.files {
        if Categorise(f.names) == Header || Categorise(f.names) == CompilationDatabases.Source {
          memDb.WriteSourceFile(f, disk);
          ListsSnoc(newFiles, NewFiles(store, seen), f);
          newFiles' := newFiles + [f];
        }
      } else if hash != memDb.files[f].hash {
        ListsSnoc(modifiedFiles, ModifiedFiles(store, seen, disk), f);
        modifiedFiles' := modifiedFiles + [f];
        memDb.SetHash(f, hash);
      }
    }

    method ReportDeleted(allDbFiles: set<File>, existingFiles: set<File>) returns (deleted: seq<File>)
      requires cdb.Valid() && forall f | f in allDbFiles :: WellNamed(cdb.prefix, f)
      ensures Lists(deleted, Missing(Project(cdb.prefix, cdb.paths), allDbFiles, existingFiles))
    {
      deleted := [];
      var todo := allDbFiles;
      ghost var project := Project(cdb.prefix, cdb.paths);
      while todo != {}
        invariant todo <= allDbFiles
        invariant Lists(deleted, Missing(project, allDbFiles - todo, existingFiles))
      {
        var f :| f in todo;
        assert WellNamed(cdb.prefix, f) && Canonical(f.names) by { NamesCanonical(cdb.prefix, f); }
        var inCdb := cdb.ContainsFile(f);
        MissingStep(project, allDbFiles, todo, f, existingFiles);
        ListsSnoc(deleted, Missing(project, allDbFiles - todo, existingFiles), f);
        if inCdb && f !in existingFiles {
          deleted := deleted + [f];
        }
        todo := todo - {f};
      }
      assert allDbFiles - {} == allDbFiles;
    }
  }

  lemma NamesCanonical(prefix: Names, f: File)
    requires WellNamed(prefix, f)
    ensures Canonical(f.names)
  {
    forall name | name in f.names ensures ValidName(name) { assert name in Join(prefix, f); }
  }

  ghost function Missing(project: Project, files: set<File>, existing: set<File>): set<File> {
    set f | f in files && project.Lists(f) && f !in existing
  }

  lemma MissingIsDeleted(project: Project, store: Store, found: set<File>, existing: set<File>)
    requires forall f | f in store :: f in existing <==> f in found
    ensures Missing(project, store.Keys, existing) == DeletedFiles(store, found, project)
  {
  }

  lemma MissingStep(project: Project, all: set<File>, todo: set<File>, f: File, existing: set<File>)
    requires todo <= all && f in todo
    ensures f !in Missing(project, all - todo, existing)
    ensures Missing(project, all - (todo - {f}), existing)
            == Missing(project, all - todo, existing) + if project.Lists(f) && f !in existing then {f} else {}
  {
  }

  /** s lists the members of a set, each once. */
  ghost predicate Lists(s: seq<File>, members: set<File>) {
    Distinct(s) && Elems(s) == members
  }

  lemma ListsSnoc(s: seq<File>, members: set<File>, f: File)
    requires Lists(s, members)
    ensures f !in members ==> Lists(s + [f], members + {f})
  {
    if f !in members { DistinctAppend(s, [f]); }
  }

  /** The scan's three lists, each without duplicates, and no file in two of them. */
  ghost predicate ReportsScan(res: IncrementalResult, store: Store, found: set<File>, disk: Disk, project: Project) {
    && Lists(res.newFiles, NewFiles(store, found))
    && Lists(res.modifiedFiles, ModifiedFiles(store, found, disk))
    && Lists(res.deletedFiles, DeletedFiles(store, found, project))
  }

  // ------------------------------------------------------------------
  // Deleting changed files and their includers
  // ------------------------------------------------------------------

  /** The removals so far: everything marked reaches one of the roots, everything that
      includes a marked file is marked, and all stored roots are; none of it points to an
      object erased before. */
  ghost predicate RemovedFor(start: Store, before: Links, roots: set<File>, marked: set<File>) {
    && marked <= start.Keys && roots * start.Keys <= marked
    && (forall g | g in marked :: Includers(start, g) <= marked)
    && (forall g | g in marked :: g in Gone(start, roots) && g !in before.Stale())
  }

  lemma RemovedForNext(start: Store, before: Links, roots: set<File>, f: File, marked: set<File>, after: set<File>)
    requires RemovedFor(start, before, roots, marked)
    requires f in start ==> (if f in marked then after == marked else MarksIncluders(start, before, f, marked, after))
    requires f !in start ==> after == marked
    ensures RemovedFor(start, before, roots + {f}, after)
  {
    forall g | g in after
      ensures g in Gone(start, roots + {f}) && Includers(start, g) <= after && g !in before.Stale()
    {
      if g in marked {
        var c :| c in roots && c in start && Reaches(IncludeGraph(start), g, c);
        assert c in roots + {f};
      } else {
        assert MarkedFor(start, before, f, after, g);
      }
    }
  }

  lemma RemovedIsGone(start: Store, before: Links, roots: set<File>, marked: set<File>)
    requires RemovedFor(start, before, roots, marked)
    ensures marked == Gone(start, roots) && Gone(start, roots) !! before.Stale()
  {
    forall g | g in Gone(start, roots) ensures g in marked {
      var c :| c in roots && c in start && Reaches(IncludeGraph(start), g, c);
      var p :| WalkFromTo(IncludeGraph(start), p, g, c);
      forall x, y | y in marked && y in Image(IncludeGraph(start), x) ensures x in marked {
        assert x in Includers(start, y);
      }
      PredecessorsHoldReach(IncludeGraph(start), marked, p);
    }
  }

  /** A removal that meets an erased object is one that should not be made. */
  lemma MeetsMeansStale(start: Store, before: Links, roots: set<File>, f: File)
    requires f in start && f in roots && f in before.births && MeetsErased(start, before, before.Current(f))
    ensures !(Gone(start, roots) !! before.Stale())
  {
    var g :| g in start && g in before.Stale() && Reaches(IncludeGraph(start), g, f);
    assert g in Gone(start, roots);
  }

  lemma StoredIsUnmarked(start: Store, before: Links, files: Store, links: Links, marked: set<Object>, f: File)
    requires Linked(start, before) && Removing(start, before, files, links, marked)
    requires files == start - NamesOf(marked) && f in files
    ensures f in start && f in links.births && f in before.births && f !in NamesOf(marked)
    ensures links.Current(f) == before.Current(f) && links.Current(f) !in marked
  {
  }

  lemma StepRemoved(start: Store, marked: set<File>, after: set<File>, more: seq<File>, removed: seq<File>)
    requires Elems(more) == after - marked && Elems(removed) == marked && marked <= after
    ensures Elems(removed + more) == after && start - marked - Elems(more) == start - after
  {
    assert marked + Elems(more) == after;
    assert start - marked - Elems(more) == start - (marked + Elems(more));
  }

  lemma GoneGrows(start: Store, a: set<File>, b: set<File>)
    requires a <= b
    ensures Gone(start, a) <= Gone(start, b)
  {
  }

  lemma GoneIsClosed(start: Store, roots: set<File>, g: File)
    requires g in Gone(start, roots)
    ensures Includers(start, g) <= Gone(start, roots)
  {
    var c :| c in roots && c in start && Reaches(IncludeGraph(start), g, c);
    forall f | f in Includers(start, g) ensures f in Gone(start, roots) {
      IncluderReaches(start, f, g);
      ReachesTrans(IncludeGraph(start), f, g, c);
    }
  }

  lemma ElemsConcat(a: seq<File>, b: seq<File>)
    ensures Elems(a + b) == Elems(a) + Elems(b)
  {
  }

  lemma ElemsNext(names: seq<File>, i: nat)
    requires i < |names|
    ensures Elems(names[..i + 1]) == Elems(names[..i]) + {names[i]} && Elems(names[..i + 1]) <= Elems(names)
  {
    assert names[..i + 1] == names[..i] + [names[i]];
  }

  lemma AllErased(start: Store, before: Links, roots: set<File>, files: Store, links: Links, marked: set<Object>)
    requires Linked(start, before) && Removing(start, before, files, links, marked)
    requires NamesOf(marked) == Gone(start, roots) && files == start - NamesOf(marked)
    ensures Linked(files, links) && links.Stale() == StaleAfter(start, before.Stale(), Gone(start, roots))
  {
    var gone := Gone(start, roots);
    forall g | g in gone ensures Includers(start, g) <= gone { GoneIsClosed(start, roots, g); }
    EraseKeepsLinked(start, before, gone);
    assert start.Keys - files.Keys == gone;
  }

  lemma NothingGone(files: Store, links: Links)
    requires Linked(files, links)
    ensures Gone(files, {}) == {} && files - {} == files && StaleAfter(files, links.Stale(), {}) == links.Stale()
  {
  }

  ghost function ToParse(removed: set<File>, res: IncrementalResult): set<File> {
    (removed - Elems(res.deletedFiles)) + Elems(res.newFiles) + Elems(res.modifiedFiles)
  }

  class Tool {
    const memDb: ObjectStore
    const compilationDb: CompilationDatabase
    var incrementalCdb: seq<Names>
    var lastRunMadeChanges: bool

    /** The source directory has no unit beside it in a directory whose name extends
        its own: then each unit has a qualified name of its own. */
    ghost predicate Valid()
      reads compilationDb, memDb
    {
      && compilationDb.Valid() && (forall p | p in compilationDb.paths :: !Sibling(compilationDb.prefix, p))
      && memDb.Valid()
    }

    constructor (memDb: ObjectStore, compilationDb: CompilationDatabase)
      ensures this.memDb == memDb && this.compilationDb == compilationDb
    {
      this.memDb, this.compilationDb := memDb, compilationDb;
      incrementalCdb, lastRunMadeChanges := [], false;
    }

    ghost function TheRun(source: Source): Run
      reads compilationDb, memDb
    {
      var project := Project(compilationDb.prefix, compilationDb.paths);
      Run(memDb.files, memDb.Stale(), Found(project, source), source.disk, project)
    }

    /** All stored names are ones that `normalisePath` makes of canonical paths. */
    ghost predicate Named()
      reads this, memDb
    {
      forall f | f in memDb.files :: WellNamed(compilationDb.prefix, f)
    }

    ghost predicate ScanInput(source: Source)
      reads this, memDb
    {
      Named() && forall u, h | u in source.headers && h in source.headers[u] :: Canonical(h)
    }

    method DeleteFile(name: File, removedFiles: seq<File>, marked: set<Object>, ghost start: Store,
        ghost before: Links, ghost roots: set<File>)
      returns (removedFiles': seq<File>, marked': set<Object>, fault: bool)
      requires Linked(start, before) && RemovedFor(start, before, roots, NamesOf(marked))
          && Lists(removedFiles, NamesOf(marked))
      requires Removing(start, before, memDb.files, memDb.links, marked) && memDb.files == start - NamesOf(marked)
      modifies memDb`files, memDb`links
      ensures fault ==> !(Gone(start, roots + {name}) !! before.Stale())
      ensures !fault ==> RemovedFor(start, before, roots + {name}, NamesOf(marked'))
      ensures !fault ==> Lists(removedFiles', NamesOf(marked'))
      ensures !fault ==> Removing(start, before, memDb.files, memDb.links, marked')
      ensures !fault ==> memDb.files == start - NamesOf(marked')
    {
      removedFiles', marked', fault := removedFiles, marked, false;
      if name !in removedFiles && name in memDb.files {
        var more;
        StoredIsUnmarked(start, before, memDb.files, memDb.links, marked, name);
        more, marked', fault := memDb.RemoveFile(memDb.links.Current(name), marked, start, before);
        if fault {
          MeetsMeansStale(start, before, roots + {name}, name);
          return;
        }
        DistinctAppend(removedFiles, more);
        removedFiles' := removedFiles + more;
        StepRemoved(start, NamesOf(marked), NamesOf(marked'), more, removedFiles);
      }
      RemovedForNext(start, before, roots, name, NamesOf(marked), NamesOf(marked'));
    }

    /** A fault arises exactly if some file to be removed has a reverse include to a file
        object that was erased by an earlier call. */
    method DeleteFiles(names: seq<File>) returns (removedFiles: seq<File>, fault: bool)
      requires memDb.Valid()
      modifies memDb`files, memDb`links
      ensures fault <==> !(Gone(old(memDb.files), Elems(names)) !! old(memDb.Stale()))
      ensures !fault ==> Lists(removedFiles, Gone(old(memDb.files), Elems(names)))
      ensures !fault ==> memDb.files == old(memDb.files) - Gone(old(memDb.files), Elems(names))
      ensures !fault ==> memDb.Valid()
      ensures !fault ==>
                memDb.Stale() == StaleAfter(old(memDb.files), old(memDb.Stale()), Gone(old(memDb.files), Elems(names)))
    {
      ghost var start, before := memDb.files, memDb.links;
      var marked: set<Object> := {};
      removedFiles, fault := [], false;
      for i := 0 to |names|
        invariant RemovedFor(start, before, Elems(names[..i]), NamesOf(marked)) && Lists(removedFiles, NamesOf(marked))
        invariant Removing(start, before, memDb.files, memDb.links, marked) && memDb.files == start - NamesOf(marked)
      {
        ElemsNext(names, i);
        removedFiles, marked, fault := DeleteFile(names[i], removedFiles, marked, start, before, Elems(names[..i]));
        if fault {
          GoneGrows(start, Elems(names[..i + 1]), Elems(names));
          return;
        }
      }
      assert names[..|names|] == names;
      RemovedIsGone(start, before, Elems(names), NamesOf(marked));
      AllErased(start, before, Elems(names), memDb.files, memDb.links, marked);
    }

    /** Deletes what changed or includes what changed, and picks the units to parse. */
    method SetupIncrementalUpdate(res: IncrementalResult, doIncremental: bool) returns (fault: bool)
      requires Valid()
      requires forall f | f in memDb.files || f in res.newFiles || f in res.modifiedFiles ::
          WellNamed(compilationDb.prefix, f)
      modifies this, memDb`files, memDb`links
      ensures lastRunMadeChanges <==> res.newFiles + res.modifiedFiles + res.deletedFiles != []
      ensures var gone := Gone(old(memDb.files), Elems(res.modifiedFiles) + Elems(res.deletedFiles));
              && (fault <==> !(gone !! old(memDb.Stale())))
              && (!fault ==>
                    && Valid() && memDb.files == old(memDb.files) - gone
                    && memDb.Stale() == StaleAfter(old(memDb.files), old(memDb.Stale()), gone)
                    && Distinct(incrementalCdb)
                    && (forall p :: p in incrementalCdb <==>
                          && p in compilationDb.paths
                          && (!doIncremental || Normalise(p, compilationDb.prefix) in ToParse(gone, res))))
    {
      fault := false;
      ElemsConcat(res.modifiedFiles, res.deletedFiles);
      lastRunMadeChanges := res.newFiles != [] || res.modifiedFiles != [] || res.deletedFiles != [];
      if !lastRunMadeChanges {
        incrementalCdb := if doIncremental then [] else compilationDb.paths;
        NothingGone(memDb.files, memDb.links);
        assert Elems(res.modifiedFiles) + Elems(res.deletedFiles) == {} == ToParse({}, res);
        return;
      }
      var removedFiles;
      removedFiles, fault := DeleteFiles(res.modifiedFiles + res.deletedFiles);
      if fault {
        return;
      }
      if doIncremental {
        assert forall f | f in removedFiles :: f in Elems(removedFiles);
        incrementalCdb := PickUnits(removedFiles, res);
      } else {
        incrementalCdb := compilationDb.paths;
      }
    }

    /** Files that were removed because of what they include, and not because they are
        gone, are parsed again, like the new and the modified ones. */
    method PickUnits(removedFiles: seq<File>, res: IncrementalResult) returns (picked: seq<Names>)
      requires Valid()
      requires forall f | f in removedFiles || f in res.newFiles || f in res.modifiedFiles ::
          WellNamed(compilationDb.prefix, f)
      ensures Distinct(picked)
      ensures forall p :: p in picked <==>
                p in compilationDb.paths && Normalise(p, compilationDb.prefix) in ToParse(Elems(removedFiles), res)
    {
      var wanted := Without(removedFiles, res.deletedFiles);
      wanted := wanted + res.newFiles + res.modifiedFiles;
      forall f | f in wanted ensures Canonical(f.names) {
        NamesCanonical(compilationDb.prefix, f);
      }
      picked := Subset(compilationDb, wanted);
      forall p | p in compilationDb.paths {
        TargetedByName(compilationDb.prefix, wanted, p);
      }
    }

    /** The changed state shows that there are no dependencies yet. */
    method FindPhysicalEntities(source: Source, wantIncremental: bool) returns (ok: bool, fault: bool)
      requires Valid() && ScanInput(source)
      modifies this, memDb
      ensures ok && (fault <==> !old(TheRun(source)).Safe())
      ensures var r, state := old(TheRun(source)), old(memDb.state);
              var doIncremental :=
                wantIncremental && (state == PhysicalReady || state == AllReady || state == LogicalError);
              !fault ==>
                && Valid() && memDb.files == r.Kept() && memDb.Stale() == r.NextStale()
                && Distinct(incrementalCdb)
                && UnitsOf(incrementalCdb) == (if doIncremental then Selected(r.store, r.found, r.disk, r.project)
                    else r.project.Units())
                && memDb.state == (if r.FindsChange() || state == State.Error || state == PhysicalError
                    then NoneReady else state)
    {
      var doIncremental := wantIncremental;
      var dbErrorState := memDb.state == State.Error || memDb.state == PhysicalError;
      if dbErrorState {
        doIncremental := false;
      }
      if memDb.state != PhysicalReady && memDb.state != AllReady && memDb.state != LogicalError {
        doIncremental := false;
      }
      ghost var r := TheRun(source);
      var res := ScanAll(source);
      ok := true;
      fault := SetupIncrementalUpdate(res, doIncremental);
      if fault {
        return;
      }
      PickedIsSelected(r, res, incrementalCdb, doIncremental);
      if lastRunMadeChanges || dbErrorState {
        memDb.state := NoneReady;
      }
    }

    /** The scan that `findPhysicalEntities` begins with. */
    method ScanAll(source: Source) returns (res: IncrementalResult)
      requires Valid() && ScanInput(source)
      modifies memDb`files, memDb`links
      ensures Valid() && memDb.Stale() == old(memDb.Stale())
      ensures var r := old(TheRun(source));
              && memDb.files == Scanned(r.store, r.found, r.disk)
              && ReportsScan(res, r.store, r.found, r.disk, r.project)
              && (r.FindsChange() <==> res.newFiles + res.modifiedFiles + res.deletedFiles != [])
      ensures forall f | f in memDb.files || f in res.newFiles || f in res.modifiedFiles ::
          WellNamed(compilationDb.prefix, f)
    {
      ghost var r := TheRun(source);
      var scanner := new FilesystemScanner(memDb, compilationDb);
      FoundFacts(compilationDb.prefix, source, compilationDb.paths);
      res := scanner.ScanCompilationDb(source);
      ScannedNames(compilationDb.prefix, r, res);
      ReportedChange(r, res);
    }

    /** Whatever its outcome, a pass that was not cancelled leaves no other state. */
    method RunPhysical(source: Source) returns (ok: bool)
      requires memDb.Valid()
      modifies memDb
      ensures ok && memDb.Valid() && memDb.Stale() == old(memDb.Stale())
      ensures memDb.files
              == Visited(old(memDb.files), source.disk, ReachSet(source.disk, UnitsOf(incrementalCdb)), Physical)
      ensures memDb.state == if UnitsOf(incrementalCdb) <= source.disk.Keys then PhysicalReady else PhysicalError
    {
      var units := set p | p in incrementalCdb :: Normalise(p, compilationDb.prefix);
      var failed := memDb.RunPass(units, source.disk, Physical);
      if failed {
        memDb.state := PhysicalError;
        return true;
      }
      if memDb.state != AllReady || memDb.state != LogicalError {
        memDb.state := PhysicalReady;
      }
      ok := true;
    }

    /** Started from AllReady, the run parses what the scan's changes call for; started
        from any other state, all units. There is a fault exactly if its deletion meets an
        erased file object. If the store was in order for the files disk0 and the scan
        tells of all edits since, it is in order again afterwards; started from another
        state, it is so even if it merely held nothing but what disk0 had. */
    method RunFull(source: Source, postprocessed: bool, ghost disk0: Disk) returns (ok: bool, fault: bool)
      requires Valid() && ScanInput(source)
      modifies this, memDb
      ensures fault <==> !old(TheRun(source)).Safe()
      ensures !fault ==> Valid() && memDb.Stale() == old(TheRun(source)).NextStale()
      ensures !fault ==> memDb.files == FullRun(old(TheRun(source)), old(memDb.state) == AllReady)
      ensures !fault ==> memDb.state == if UnitsOf(incrementalCdb) <= source.disk.Keys then AllReady else LogicalError
      ensures !fault ==> (ok <==> postprocessed || memDb.state == LogicalError)
      ensures !fault && (forall f | f in source.disk :: WellNamed(compilationDb.prefix, f)) ==> Named()
      ensures !fault && Repairable(old(TheRun(source)), old(memDb.state) == AllReady, disk0) ==>
                Good(memDb.files, source.disk, old(TheRun(source)).project.Units())
    {
      ghost var r := TheRun(source);
      var oldState := memDb.state;
      ok, fault := FindPhysicalEntities(source, oldState == AllReady);
      if fault || !ok {
        return;
      }
      ok := RunPhysical(source);
      if !ok {
        return;
      }
      if oldState != AllReady {
        incrementalCdb := compilationDb.paths;
      }
      ok := RunLogical(source, postprocessed);
      FoundFacts(compilationDb.prefix, source, compilationDb.paths);
      if forall f | f in source.disk :: WellNamed(compilationDb.prefix, f) {
        FullRunNames(compilationDb.prefix, r, oldState == AllReady);
      }
      if Repairable(r, oldState == AllReady, disk0) {
        RepairableIsGood(r, oldState == AllReady, disk0);
      }
    }

    /** The second half of `runFull`. */
    method RunLogical(source: Source, postprocessed: bool) returns (ok: bool)
      requires memDb.Valid()
      modifies memDb
      ensures memDb.Valid() && memDb.Stale() == old(memDb.Stale())
      ensures memDb.files
              == Visited(old(memDb.files), source.disk, ReachSet(source.disk, UnitsOf(incrementalCdb)), Logical)
      ensures memDb.state == if UnitsOf(incrementalCdb) <= source.disk.Keys then AllReady else LogicalError
      ensures ok <==> postprocessed || memDb.state == LogicalError
    {
      var units := set p | p in incrementalCdb :: Normalise(p, compilationDb.prefix);
      var failed := memDb.RunPass(units, source.disk, Logical);
      if failed {
        memDb.state := LogicalError;
        return true;
      }
      memDb.state := AllReady;
      ok := postprocessed;
    }

    ghost function UnitsOf(paths: seq<Names>): set<File> {
      set p | p in paths :: Normalise(p, compilationDb.prefix)
    }
  }

  lemma ScannedNames(prefix: Names, r: Run, res: IncrementalResult)
    requires ReportsScan(res, r.store, r.found, r.disk, r.project)
    requires forall f | f in r.store || f in r.found :: WellNamed(prefix, f)
    ensures forall f | f in Scanned(r.store, r.found, r.disk) || f in res.newFiles || f in res.modifiedFiles ::
        WellNamed(prefix, f)
  {
    assert forall f | f in res.newFiles :: f in Elems(res.newFiles);
    assert forall f | f in res.modifiedFiles :: f in Elems(res.modifiedFiles);
  }

  /** The unit paths picked are those of the selected files. */
  lemma PickedIsSelected(r: Run, res: IncrementalResult, picked: seq<Names>, doIncremental: bool)
    requires ReportsScan(res, r.store, r.found, r.disk, r.project)
    requires forall p :: p in picked <==>
               p in r.project.paths && (!doIncremental || Normalise(p, r.project.prefix) in ToParse(r.Gone(), res))
    ensures (set p | p in picked :: Normalise(p, r.project.prefix))
            == if doIncremental then Selected(r.store, r.found, r.disk, r.project) else r.project.Units()
  {
  }

  lemma ReportedChange(r: Run, res: IncrementalResult)
    requires ReportsScan(res, r.store, r.found, r.disk, r.project)
    ensures r.FindsChange() <==> res.newFiles + res.modifiedFiles + res.deletedFiles != []
  {
    if r.FindsChange() {
      var f :| f in NewFiles(r.store, r.found) || f in Changed(r.store, r.found, r.disk, r.project);
      assert f in Elems(res.newFiles) || f in Elems(res.modifiedFiles) || f in Elems(res.deletedFiles);
    }
    if res.newFiles != [] { assert res.newFiles[0] in Elems(res.newFiles); }
    if res.modifiedFiles != [] { assert res.modifiedFiles[0] in Elems(res.modifiedFiles); }
    if res.deletedFiles != [] { assert res.deletedFiles[0] in Elems(res.deletedFiles); }
  }

  /** The scan tells of all edits; and the store was in order for the old files, or the
      run parses all units and the store held nothing but what the old files had. */
  ghost predicate Repairable(r: Run, incremental: bool, disk0: Disk) {
    && r.Sound() && Detected(r) && Grounded(r.store, disk0)
    && (incremental ==> Fresh(r.store, disk0, r.project.Units()) && Settled(r, disk0))
  }

  lemma RepairableIsGood(r: Run, incremental: bool, disk0: Disk)
    requires Repairable(r, incremental, disk0)
    ensures Good(FullRun(r, incremental), r.disk, r.project.Units())
  {
    if incremental { ResultIsGood(r, disk0); } else { FullRunIsGood(r, disk0); }
  }

  lemma FullRunNames(prefix: Names, r: Run, incremental: bool)
    requires forall f | f in r.store || f in r.found || f in r.disk :: WellNamed(prefix, f)
    ensures forall f | f in FullRun(r, incremental) :: WellNamed(prefix, f)
  {
  }

  /** Scans are sound, if no unit is ignored and units have the names of source files or
      are stored. */
  lemma ScansAreSound(source: Source, r: Run)
    requires Canonical(r.project.prefix) && AllCanonical(r.project.paths)
    requires forall u, h | u in source.headers && h in source.headers[u] :: Canonical(h)
    requires r.found == Found(r.project, source) && r.disk == source.disk
    requires forall p | p in r.project.paths :: p !in source.ignored
    requires forall u | u in r.project.Units() :: u in r.store || Recognised(u.names)
    ensures r.Sound()
  {
    FoundFacts(r.project.prefix, source, r.project.paths);
  }

  /** What `runFull` does, without cancellation, from the given state. */
  ghost function FullRun(r: Run, incremental: bool): Store {
    if incremental then r.Result() else r.FullResult()
  }

  method Without(files: seq<File>, dropped: seq<File>) returns (rest: seq<File>)
    ensures forall f :: f in rest <==> f in files && f !in dropped
  {
    rest := [];
    for i := 0 to |files|
      invariant forall f :: f in rest <==> f in files[..i] && f !in dropped
    {
      if files[i] !in dropped {
        rest := rest + [files[i]];
      }
    }
    assert files[..|files|] == files;
  }
}
