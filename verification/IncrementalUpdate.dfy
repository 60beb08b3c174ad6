/** What an incremental re-parse must achieve: the scan of
    lvtclp/ct_lvtclp_filesystemscanner.cpp, the deletion and selection of
    `Tool::setupIncrementalUpdate`, and the passes over the selected units, as
    functions on store contents, with the theorems about them. */
module IncrementalUpdates {
  import opened Options
  import opened Digraph
  import opened PathAlgebra
  import opened CompilationDatabases

  /** A file is known by its qualified name: its normalised path. */
  type File = Path
  type Entity = string

  /** All a parse can see in a file: the targets its include directives name, and
      the entities it declares. Hashes are injective, so a file's content is its hash. */
  datatype Content = Content(directives: set<File>, entities: set<Entity>)
  type Disk = map<File, Content>
  datatype Hash = NoHash | Md5(content: Content)

  datatype FileObject = FileObject(hash: Hash, includes: set<File>, entities: set<Entity>)
  type Store = map<File, FileObject>

  /** The unit paths of the compilation database and the common parent directory. */
  datatype Project = Project(prefix: Names, paths: seq<Names>) {
    ghost function Units(): set<File> {
      set p | p in paths :: Normalise(p, prefix)
    }

    ghost predicate Lists(f: File) {
      Recognised(f.names) && ListsFile(paths, Join(prefix, f))
    }
  }

  function HashOf(disk: Disk, f: File): Hash {
    if f in disk then Md5(disk[f]) else NoHash
  }

  /** The includes of f that resolve; a file's include of itself is not recorded. */
  function Resolved(disk: Disk, f: File): set<File> {
    if f in disk then disk[f].directives * disk.Keys - {f} else {}
  }

  function DiskGraph(disk: Disk): Graph<File> {
    map f | f in disk :: Resolved(disk, f)
  }

  function IncludeGraph(store: Store): Graph<File> {
    map f | f in store :: store[f].includes
  }

  /** All files a parse of the given units enters. */
  ghost function ReachSet(disk: Disk, units: set<File>): set<File> {
    set f | f in disk && exists u :: u in units && u in disk && Reaches(DiskGraph(disk), u, f)
  }

  // ------------------------------------------------------------------
  // The scan
  // ------------------------------------------------------------------

  function NewFiles(store: Store, found: set<File>): set<File> {
    set f | f in found && f !in store && Recognised(f.names)
  }

  function ModifiedFiles(store: Store, found: set<File>, disk: Disk): set<File> {
    set f | f in found && f in store && store[f].hash != HashOf(disk, f)
  }

  ghost function DeletedFiles(store: Store, found: set<File>, project: Project): set<File> {
    set f | f in store && project.Lists(f) && f !in found
  }

  /** The store after the scan: new files without contents, and current hashes. */
  function Scanned(store: Store, found: set<File>, disk: Disk): Store {
    map f | f in store.Keys + NewFiles(store, found) ::
      if f !in store then FileObject(HashOf(disk, f), {}, {})
      else if f in found then store[f].(hash := HashOf(disk, f))
      else store[f]
  }

  // ------------------------------------------------------------------
  // Deletion and selection
  // ------------------------------------------------------------------

  /** The stored files that include a changed one, directly or not, or are one. */
  ghost function Gone(store: Store, changed: set<File>): set<File> {
    set f | f in store && exists c :: c in changed && c in store && Reaches(IncludeGraph(store), f, c)
  }

  ghost function Changed(store: Store, found: set<File>, disk: Disk, project: Project): set<File> {
    ModifiedFiles(store, found, disk) + DeletedFiles(store, found, project)
  }

  ghost function GoneFrom(store: Store, found: set<File>, disk: Disk, project: Project): set<File> {
    Gone(Scanned(store, found, disk), Changed(store, found, disk, project))
  }

  ghost function KeptFrom(store: Store, found: set<File>, disk: Disk, project: Project): Store {
    Scanned(store, found, disk) - GoneFrom(store, found, disk, project)
  }

  /** The units re-parsed in incremental mode. */
  ghost function Selected(store: Store, found: set<File>, disk: Disk, project: Project): set<File> {
    set f | f in project.Units() &&
      (|| f in NewFiles(store, found)
       || f in ModifiedFiles(store, found, disk)
       || (f in GoneFrom(store, found, disk, project) && f !in DeletedFiles(store, found, project)))
  }

  // ------------------------------------------------------------------
  // The passes
  // ------------------------------------------------------------------

  datatype Pass = Physical | Logical

  function Entry(store: Store, disk: Disk, f: File): FileObject {
    if f in store then store[f] else FileObject(HashOf(disk, f), {}, {})
  }

  /** What a pass records about a file it enters. */
  function Contribute(o: FileObject, disk: Disk, f: File, pass: Pass): FileObject {
    match pass
    case Physical => o.(includes := o.includes + Resolved(disk, f))
    case Logical => o.(entities := o.entities + if f in disk then disk[f].entities else {})
  }

  /** The store after a pass entered the given files. */
  function Visited(store: Store, disk: Disk, entered: set<File>, pass: Pass): Store {
    map f | f in store.Keys + entered ::
      if f in entered then Contribute(Entry(store, disk, f), disk, f, pass) else store[f]
  }

  /** Parsing units one after the other, in any grouping, is parsing them together. */
  lemma VisitedTwice(store: Store, disk: Disk, a: set<File>, b: set<File>, pass: Pass)
    ensures Visited(Visited(store, disk, a, pass), disk, b, pass) == Visited(store, disk, a + b, pass)
  {
    var one, two := Visited(store, disk, a, pass), Visited(store, disk, a + b, pass);
    var both := Visited(one, disk, b, pass);
    assert both.Keys == two.Keys;
    forall f | f in both.Keys ensures both[f] == two[f] {
      if f in a && f in b {
        assert one[f] == Contribute(Entry(store, disk, f), disk, f, pass);
        assert Contribute(one[f], disk, f, pass) == one[f];
      }
    }
  }

  lemma ReachSetUnion(disk: Disk, a: set<File>, b: set<File>)
    ensures ReachSet(disk, a + b) == ReachSet(disk, a) + ReachSet(disk, b)
  {
  }

  /** An uncancelled, error-free `runFull` from AllReady. */
  ghost function IncrementalRun(store: Store, found: set<File>, disk: Disk, project: Project): Store {
    BothPasses(KeptFrom(store, found, disk, project), disk, ReachSet(disk, Selected(store, found, disk, project)))
  }

  ghost function BothPasses(store: Store, disk: Disk, entered: set<File>): Store {
    Visited(Visited(store, disk, entered, Physical), disk, entered, Logical)
  }

  // ------------------------------------------------------------------
  // From scratch
  // ------------------------------------------------------------------

  /** What a parse into an empty store records about f. */
  function FromScratch(disk: Disk, f: File): FileObject {
    FileObject(HashOf(disk, f), Resolved(disk, f), if f in disk then disk[f].entities else {})
  }

  /** Every file reachable from a unit on disk is stored as if parsed from scratch. */
  ghost predicate Fresh(store: Store, disk: Disk, units: set<File>) {
    forall f | f in ReachSet(disk, units) :: f in store && store[f] == FromScratch(disk, f)
  }

  /** Nothing is stored that the file does not contain, for files on disk only, and
      included files are stored too. */
  ghost predicate Grounded(store: Store, disk: Disk) {
    forall f | f in store :: GroundedAt(store, disk, f)
  }

  ghost predicate GroundedAt(store: Store, disk: Disk, f: File)
    requires f in store
  {
    && f in disk && store[f].hash == Md5(disk[f])
    && store[f].includes <= Resolved(disk, f) * store.Keys
    && store[f].entities <= disk[f].entities
  }

  ghost predicate Good(store: Store, disk: Disk, units: set<File>) {
    Grounded(store, disk) && Fresh(store, disk, units)
  }

  /** The scan looks at every unit that is on disk. */
  ghost predicate ScanSound(store: Store, found: set<File>, disk: Disk, project: Project) {
    && found <= disk.Keys
    && (forall u | u in project.Units() && u in disk :: u in found && (u in store || Recognised(u.names)))
  }

  lemma ReachSetStep(disk: Disk, units: set<File>, f: File, g: File)
    requires f in ReachSet(disk, units) && g in Resolved(disk, f)
    ensures g in ReachSet(disk, units)
  {
    var u :| u in units && u in disk && Reaches(DiskGraph(disk), u, f);
    ReachesStep(DiskGraph(disk), f, g);
    ReachesTrans(DiskGraph(disk), u, f, g);
  }

  lemma ReachSetUnit(disk: Disk, units: set<File>, u: File)
    requires u in units && u in disk
    ensures u in ReachSet(disk, units)
  {
    ReachesSelf(DiskGraph(disk), u);
  }

  // ------------------------------------------------------------------
  // What a pass must record
  // ------------------------------------------------------------------

  /** Files on disk, each named by an include directive of the one before, from a unit. */
  ghost predicate IncludePath(disk: Disk, units: set<File>, p: seq<File>) {
    && p != [] && p[0] in units && (forall f | f in p :: f in disk)
    && forall i | 0 <= i < |p| - 1 :: Directs(disk, p[i], p[i + 1])
  }

  ghost predicate Directs(disk: Disk, f: File, g: File) {
    f in disk && g in disk[f].directives
  }

  ghost predicate IncludedFrom(disk: Disk, units: set<File>, f: File) {
    exists p :: IncludePath(disk, units, p) && p[|p| - 1] == f
  }

  /** What a pass does to the entry of a file that it enters: the physical pass adds the
      files on disk that its directives name, but for itself, and the logical pass what it
      declares; a file not stored before is stored with its hash. */
  ghost predicate RecordsFile(before: Store, disk: Disk, pass: Pass, f: File, o: FileObject) {
    && f in disk && o.hash == (if f in before then before[f].hash else Md5(disk[f]))
    && (forall g :: g in o.includes <==>
          || (f in before && g in before[f].includes)
          || (pass == Physical && g in disk[f].directives && g in disk && g != f))
    && (forall e :: e in o.entities <==>
          || (f in before && e in before[f].entities)
          || (pass == Logical && e in disk[f].entities))
  }

  /** A pass over some units enters just what they include, directly or not. */
  ghost predicate RecordsPass(before: Store, disk: Disk, units: set<File>, pass: Pass, after: Store) {
    && (forall f :: f in after <==> f in before || IncludedFrom(disk, units, f))
    && (forall f | f in after && !IncludedFrom(disk, units, f) :: after[f] == before[f])
    && (forall f | IncludedFrom(disk, units, f) :: RecordsFile(before, disk, pass, f, after[f]))
  }

  lemma {:induction false} PathReaches(disk: Disk, units: set<File>, p: seq<File>)
    requires IncludePath(disk, units, p)
    ensures p[|p| - 1] in ReachSet(disk, units)
    decreases |p|
  {
    var n := |p| - 1;
    if n == 0 {
      assert p[0] in p;
      ReachSetUnit(disk, units, p[0]);
    } else {
      PathReaches(disk, units, p[..n]);
      assert Directs(disk, p[n - 1], p[n - 1 + 1]) && p[n] in p;
      if p[n] != p[n - 1] { ReachSetStep(disk, units, p[n - 1], p[n]); }
    }
  }

  lemma WalkIsPath(disk: Disk, units: set<File>, p: seq<File>)
    requires IsWalk(DiskGraph(disk), p) && p[0] in units && p[0] in disk
    ensures IncludePath(disk, units, p)
  {
    forall i | 0 <= i < |p| - 1 ensures Directs(disk, p[i], p[i + 1]) {
      assert p[i + 1] in Image(DiskGraph(disk), p[i]);
    }
    forall f | f in p ensures f in disk {
      var i :| 0 <= i < |p| && p[i] == f;
      if i > 0 { assert p[i - 1 + 1] in Image(DiskGraph(disk), p[i - 1]); }
    }
  }

  /** The files a parse enters are those that include directives lead to. */
  lemma ReachSetIs(disk: Disk, units: set<File>, f: File)
    ensures f in ReachSet(disk, units) <==> IncludedFrom(disk, units, f)
  {
    if f in ReachSet(disk, units) {
      var u :| u in units && u in disk && Reaches(DiskGraph(disk), u, f);
      var p :| WalkFromTo(DiskGraph(disk), p, u, f);
      WalkIsPath(disk, units, p);
    }
    if IncludedFrom(disk, units, f) {
      var p :| IncludePath(disk, units, p) && p[|p| - 1] == f;
      PathReaches(disk, units, p);
    }
  }

  /** Units on disk are entered, and whatever on disk an entered file's directives name. */
  lemma DirectivesAreEntered(disk: Disk, units: set<File>, f: File)
    ensures f in units && f in disk ==> IncludedFrom(disk, units, f)
    ensures forall g | IncludedFrom(disk, units, f) && g in disk && f in disk && g in disk[f].directives ::
              IncludedFrom(disk, units, g)
  {
    if f in units && f in disk { assert IncludePath(disk, units, [f]); }
    forall g | IncludedFrom(disk, units, f) && g in disk && f in disk && g in disk[f].directives
      ensures IncludedFrom(disk, units, g)
    {
      var p :| IncludePath(disk, units, p) && p[|p| - 1] == f;
      var q := p + [g];
      forall i | 0 <= i < |q| - 1 ensures Directs(disk, q[i], q[i + 1]) {
        if i < |p| - 1 { assert Directs(disk, p[i], p[i + 1]); }
      }
      assert IncludePath(disk, units, q) && q[|q| - 1] == g;
    }
  }

  lemma VisitedRecords(before: Store, disk: Disk, units: set<File>, pass: Pass)
    ensures RecordsPass(before, disk, units, pass, Visited(before, disk, ReachSet(disk, units), pass))
  {
    forall f ensures f in ReachSet(disk, units) <==> IncludedFrom(disk, units, f) { ReachSetIs(disk, units, f); }
    var after := Visited(before, disk, ReachSet(disk, units), pass);
    forall f | IncludedFrom(disk, units, f) ensures RecordsFile(before, disk, pass, f, after[f]) {
      assert f in ReachSet(disk, units);
      ContributeRecords(before, disk, pass, f);
    }
  }

  lemma ContributeRecords(before: Store, disk: Disk, pass: Pass, f: File)
    requires f in disk
    ensures RecordsFile(before, disk, pass, f, Contribute(Entry(before, disk, f), disk, f, pass))
  {
  }

  /** The yardstick: what both passes record about a file in an empty store. */
  lemma FromScratchIsParse(disk: Disk, units: set<File>, mid: Store, after: Store, f: File)
    requires RecordsPass(map[], disk, units, Physical, mid) && RecordsPass(mid, disk, units, Logical, after)
    requires IncludedFrom(disk, units, f)
    ensures f in after && after[f] == FromScratch(disk, f)
  {
    assert RecordsFile(map[], disk, Physical, f, mid[f]) && RecordsFile(mid, disk, Logical, f, after[f]);
    assert after[f].includes == FromScratch(disk, f).includes;
    assert after[f].entities == FromScratch(disk, f).entities;
  }

  /** Keeping a file means keeping all it includes. */
  lemma KeptIsClosed(store: Store, changed: set<File>, f: File, g: File)
    requires f in store && f !in Gone(store, changed) && g in store[f].includes && g in store
    ensures g !in Gone(store, changed)
  {
    if g in Gone(store, changed) {
      var c :| c in changed && c in store && Reaches(IncludeGraph(store), g, c);
      ReachesStep(IncludeGraph(store), f, g);
      ReachesTrans(IncludeGraph(store), f, g, c);
    }
  }

  /** The kept files that are left with a reverse include of an erased file object: a
      removal does not unlink a file from the files it includes. A file that is erased
      and stored again starts with none. */
  ghost function StaleAfter(store: Store, stale: set<File>, gone: set<File>): set<File> {
    set g | g in store && g !in gone && (g in stale || exists f :: f in gone && f in store && g in store[f].includes)
  }

  /** What the store is like between runs: its contents, and the files whose reverse
      includes dangle. */
  datatype Memory = Memory(store: Store, stale: set<File>)

  /** The files of one run: what it started from and what the scan found. */
  datatype Run = Run(store: Store, stale: set<File>, found: set<File>, disk: Disk, project: Project) {
    ghost function Gone(): set<File> { GoneFrom(store, found, disk, project) }
    ghost function Kept(): Store { KeptFrom(store, found, disk, project) }
    ghost function Entered(): set<File> { ReachSet(disk, Selected(store, found, disk, project)) }
    ghost function Reachable(): set<File> { ReachSet(disk, project.Units()) }
    ghost function Result(): Store { IncrementalRun(store, found, disk, project) }
    ghost predicate FindsChange() { NewFiles(store, found) + Changed(store, found, disk, project) != {} }
    ghost function NextStale(): set<File> { StaleAfter(Scanned(store, found, disk), stale, Gone()) }
    ghost predicate Sound() { ScanSound(store, found, disk, project) }

    /** The deletion follows no reverse include to an erased object. */
    ghost predicate Safe() { Gone() !! stale }

    /** What the run leaves, as far as erased file objects go: if the deletion follows a
        pointer to one, the source's behaviour is undefined. The types and namespaces of
        a deleted file are another matter. */
    ghost function Outcome(): Option<Memory> {
      if Safe() then Some(Memory(Result(), NextStale())) else None
    }

    /** What the run leaves if it is not incremental. */
    ghost function FullResult(): Store { BothPasses(Kept(), disk, Reachable()) }

    /** f survives the deletion, and what is stored about it still holds: its content
        is unchanged, its recorded includes are still on disk, and any other include
        that resolves now belongs to a file that is entered again. */
    ghost predicate StillValid(f: File) {
      && f in store
      && store[f].hash == HashOf(disk, f)
      && store[f].includes <= disk.Keys
      && (f in Entered() || Resolved(disk, f) <= store[f].includes)
    }

    ghost predicate Harmless() {
      forall f | f in Reachable() && f in store && f !in Gone() :: StillValid(f)
    }
  }

  lemma KeptEntry(r: Run, f: File)
    ensures f in r.store && f !in r.Gone() ==> f in r.Kept() && r.Kept()[f] == r.store[f]
    ensures f in r.Kept() && f !in r.store ==> r.Kept()[f] == FileObject(HashOf(r.disk, f), {}, {})
    ensures f in r.Kept() ==> f in r.store || f in NewFiles(r.store, r.found)
  {
    if f in r.store && f !in r.Gone() {
      ReachesSelf(IncludeGraph(Scanned(r.store, r.found, r.disk)), f);
    }
  }

  /** What the run leaves for a file, in terms of what it kept. */
  lemma ResultEntry(r: Run, f: File)
    requires f in r.Kept() || f in r.Entered()
    ensures f in r.Result()
    ensures var o := Entry(r.Kept(), r.disk, f);
            r.Result()[f] == if f in r.Entered()
              then FileObject(o.hash, o.includes + Resolved(r.disk, f), o.entities + r.disk[f].entities)
              else o
  {
  }

  /** A unit that is not selected was stored and is kept. */
  lemma UnselectedUnit(r: Run, u: File)
    requires r.Sound() && u in r.project.Units() && u in r.disk
    requires u !in Selected(r.store, r.found, r.disk, r.project)
    ensures u in r.store && u !in r.Gone()
  {
  }

  lemma KeptStep(r: Run, f: File, g: File)
    requires f in r.store && f !in r.Gone() && g in r.store[f].includes && g in r.store
    ensures g !in r.Gone()
  {
    var s := Scanned(r.store, r.found, r.disk);
    KeptIsClosed(s, Changed(r.store, r.found, r.disk, r.project), f, g);
  }

  /** Kept files that are not entered again include nothing they did not. */
  ghost predicate NoNewIncludes(r: Run, disk0: Disk) {
    forall f | f in ReachSet(disk0, r.project.Units()) && f in r.store && f !in r.Gone()
               && f in r.Reachable() && f !in r.Entered() ::
      Resolved(r.disk, f) <= r.store[f].includes
  }

  /** A walk over the new disk that ends outside the entered files runs over kept
      ones, and is a walk over the old disk too. */
  lemma {:induction false} KeptAlong(r: Run, disk0: Disk, p: seq<File>)
    requires Good(r.store, disk0, r.project.Units()) && r.Sound() && NoNewIncludes(r, disk0)
    requires IsWalk(DiskGraph(r.disk), p) && p[0] in r.project.Units() && p[0] in r.disk
    requires p[|p| - 1] in r.Reachable() && p[|p| - 1] !in r.Entered()
    ensures p[|p| - 1] in r.store && p[|p| - 1] !in r.Gone()
    ensures p[|p| - 1] in ReachSet(disk0, r.project.Units())
    decreases |p|
  {
    var units, n := r.project.Units(), |p| - 1;
    if n == 0 {
      if p[0] in Selected(r.store, r.found, r.disk, r.project) {
        ReachSetUnit(r.disk, Selected(r.store, r.found, r.disk, r.project), p[0]);
      }
      UnselectedUnit(r, p[0]);
      ReachSetUnit(disk0, units, p[0]);
    } else {
      var f, g := p[n - 1], p[n];
      assert g in Resolved(r.disk, f);
      assert WalkFromTo(DiskGraph(r.disk), p[..n], p[0], f);
      assert f in r.Reachable();
      if f in r.Entered() {
        ReachSetStep(r.disk, Selected(r.store, r.found, r.disk, r.project), f, g);
      }
      KeptAlong(r, disk0, p[..n]);
      KeptStep(r, f, g);
      ReachSetStep(disk0, units, f, g);
    }
  }

  /** A reachable file that is not entered again was kept, and stored as a parse of
      the old disk would. */
  lemma UnenteredIsKept(r: Run, disk0: Disk, f: File)
    requires Good(r.store, disk0, r.project.Units()) && r.Sound() && NoNewIncludes(r, disk0)
    requires f in r.Reachable() && f !in r.Entered()
    ensures f in r.store && f !in r.Gone() && r.store[f] == FromScratch(disk0, f)
  {
    var u :| u in r.project.Units() && u in r.disk && Reaches(DiskGraph(r.disk), u, f);
    var p :| WalkFromTo(DiskGraph(r.disk), p, u, f);
    KeptAlong(r, disk0, p);
  }

  lemma HarmlessAddsNoIncludes(r: Run, disk0: Disk)
    requires r.Harmless()
    ensures NoNewIncludes(r, disk0)
  {
    forall g | g in r.store && g !in r.Gone() && g in r.Reachable() && g !in r.Entered()
      ensures Resolved(r.disk, g) <= r.store[g].includes
    {
      assert r.StillValid(g);
    }
  }

  /** A kept file that is still valid has nothing in it that its content has not. */
  lemma ValidWithin(r: Run, disk0: Disk, f: File)
    requires Grounded(r.store, disk0) && f in r.disk && r.StillValid(f)
    ensures r.store[f].hash == Md5(r.disk[f])
    ensures r.store[f].includes <= Resolved(r.disk, f) && r.store[f].entities <= r.disk[f].entities
  {
    assert GroundedAt(r.store, disk0, f);
  }

  /** o holds nothing that f has not. */
  ghost predicate Within(o: FileObject, disk: Disk, f: File) {
    f in disk && o.hash == Md5(disk[f]) && o.includes <= Resolved(disk, f) && o.entities <= disk[f].entities
  }

  lemma EntryWithin(r: Run, disk0: Disk, f: File)
    requires Grounded(r.store, disk0) && r.Harmless() && f in r.Reachable()
    ensures Within(Entry(r.Kept(), r.disk, f), r.disk, f)
  {
    KeptEntry(r, f);
    if f in r.store && f !in r.Gone() {
      assert r.StillValid(f);
      ValidWithin(r, disk0, f);
    }
  }

  lemma EnteredFresh(r: Run, f: File)
    requires f in r.Entered() && Within(Entry(r.Kept(), r.disk, f), r.disk, f)
    ensures f in r.Result() && r.Result()[f] == FromScratch(r.disk, f)
  {
    ResultEntry(r, f);
    CompletedWithin(Entry(r.Kept(), r.disk, f), r.disk, f);
  }

  lemma CompletedWithin(o: FileObject, disk: Disk, f: File)
    requires Within(o, disk, f)
    ensures FileObject(o.hash, o.includes + Resolved(disk, f), o.entities + disk[f].entities) == FromScratch(disk, f)
  {
  }

  lemma UnenteredFresh(r: Run, disk0: Disk, f: File)
    requires Good(r.store, disk0, r.project.Units()) && r.Sound() && r.Harmless()
    requires f in r.Reachable() && f !in r.Entered()
    ensures f in r.Kept() && r.Kept()[f] == FromScratch(r.disk, f)
  {
    HarmlessAddsNoIncludes(r, disk0);
    UnenteredIsKept(r, disk0, f);
    KeptEntry(r, f);
    assert r.StillValid(f);
    ValidWithin(r, disk0, f);
  }

  lemma UnenteredResult(r: Run, f: File)
    requires f in r.Kept() && f !in r.Entered()
    ensures f in r.Result() && r.Result()[f] == r.Kept()[f]
  {
    ResultEntry(r, f);
  }

  lemma HarmlessIsFresh(r: Run, disk0: Disk, f: File)
    requires Good(r.store, disk0, r.project.Units()) && r.Sound() && r.Harmless()
    requires f in r.Reachable()
    ensures f in r.Result() && r.Result()[f] == FromScratch(r.disk, f)
  {
    if f in r.Entered() {
      EntryWithin(r, disk0, f);
      EnteredFresh(r, f);
    } else {
      UnenteredFresh(r, disk0, f);
      UnenteredResult(r, f);
    }
  }

  lemma FreshIsHarmless(r: Run, disk0: Disk, f: File)
    requires Good(r.store, disk0, r.project.Units())
    requires f in r.Reachable() && f in r.store && f !in r.Gone()
    requires f in r.Result() && r.Result()[f] == FromScratch(r.disk, f)
    ensures r.StillValid(f)
  {
    KeptEntry(r, f);
    ResultEntry(r, f);
  }

  /** The central result. A run that started from a store in order meets no erased file
      object and leaves all that is reachable from a unit on disk stored as a parse from
      scratch would, exactly when no kept reachable file changed without the scan telling
      and no deleted file has a dangling reverse include. */
  lemma IncrementalExactlyWhen(r: Run, disk0: Disk)
    requires Good(r.store, disk0, r.project.Units()) && r.Sound()
    ensures r.Outcome().Some? && Fresh(r.Outcome().value.store, r.disk, r.project.Units()) <==> r.Safe() && r.Harmless()
  {
    ContentsExactlyWhen(r, disk0);
  }

  lemma ContentsExactlyWhen(r: Run, disk0: Disk)
    requires Good(r.store, disk0, r.project.Units()) && r.Sound()
    ensures Fresh(r.Result(), r.disk, r.project.Units()) <==> r.Harmless()
  {
    if r.Harmless() {
      forall f | f in r.Reachable() ensures f in r.Result() && r.Result()[f] == FromScratch(r.disk, f) {
        HarmlessIsFresh(r, disk0, f);
      }
    }
    if Fresh(r.Result(), r.disk, r.project.Units()) {
      forall f | f in r.Reachable() && f in r.store && f !in r.Gone() ensures r.StillValid(f) {
        FreshIsHarmless(r, disk0, f);
      }
    }
  }

  // ------------------------------------------------------------------
  // Runs that detect all changes
  // ------------------------------------------------------------------

  /** Every stored file is as it was, or the scan reports it. */
  ghost predicate Detected(r: Run) {
    forall f | f in r.store ::
      r.store[f].hash == HashOf(r.disk, f) || f in Changed(r.store, r.found, r.disk, r.project)
  }

  /** No include of an unchanged file resolves now that did not before. */
  ghost predicate Settled(r: Run, disk0: Disk) {
    forall f | f in r.store && r.store[f].hash == HashOf(r.disk, f) :: Resolved(r.disk, f) <= Resolved(disk0, f)
  }

  lemma KeptIsUnchanged(r: Run, disk0: Disk, f: File)
    requires Grounded(r.store, disk0) && Detected(r) && f in r.store && f !in r.Gone()
    ensures r.store[f].hash == HashOf(r.disk, f) && f in r.disk
    ensures r.store[f].includes <= Resolved(r.disk, f) * r.Kept().Keys
  {
    UnchangedStays(r, disk0, f);
    forall g | g in r.store[f].includes ensures g in r.disk && g in r.Kept() {
      KeptStep(r, f, g);
      UnchangedStays(r, disk0, g);
      KeptEntry(r, g);
    }
  }

  lemma UnchangedStays(r: Run, disk0: Disk, f: File)
    requires Grounded(r.store, disk0) && Detected(r) && f in r.store && f !in r.Gone()
    ensures r.store[f].hash == HashOf(r.disk, f) && f in r.disk
  {
    ReachesSelf(IncludeGraph(Scanned(r.store, r.found, r.disk)), f);
    assert f in Scanned(r.store, r.found, r.disk);
    assert f !in Changed(r.store, r.found, r.disk, r.project);
  }

  lemma DetectedIsHarmless(r: Run, disk0: Disk)
    requires Good(r.store, disk0, r.project.Units()) && r.Sound()
    requires Detected(r) && Settled(r, disk0)
    ensures r.Harmless()
  {
    assert NoNewIncludes(r, disk0) by {
      forall f | f in ReachSet(disk0, r.project.Units()) && f in r.store && f !in r.Gone()
        ensures Resolved(r.disk, f) <= r.store[f].includes
      {
        KeptIsUnchanged(r, disk0, f);
      }
    }
    forall f | f in r.Reachable() && f in r.store && f !in r.Gone() ensures r.StillValid(f) {
      KeptIsUnchanged(r, disk0, f);
      if f !in r.Entered() {
        UnenteredIsKept(r, disk0, f);
      }
    }
  }

  /** A run that detects all changes leaves the store in order for the next one, if it
      meets no erased file object; it does if a deleted file has a dangling reverse
      include, and not otherwise. */
  lemma RunKeepsGood(r: Run, disk0: Disk)
    requires Good(r.store, disk0, r.project.Units()) && r.Sound()
    requires Detected(r) && Settled(r, disk0)
    ensures r.Outcome().Some? <==> r.Safe()
    ensures r.Outcome().Some? ==> Good(r.Outcome().value.store, r.disk, r.project.Units())
  {
    ResultIsGood(r, disk0);
  }

  lemma ResultIsGood(r: Run, disk0: Disk)
    requires Good(r.store, disk0, r.project.Units()) && r.Sound()
    requires Detected(r) && Settled(r, disk0)
    ensures Good(r.Result(), r.disk, r.project.Units())
  {
    DetectedIsHarmless(r, disk0);
    ContentsExactlyWhen(r, disk0);
    GroundedAgain(r, disk0, Selected(r.store, r.found, r.disk, r.project));
  }

  lemma GroundedAgain(r: Run, disk0: Disk, units: set<File>)
    requires Grounded(r.store, disk0) && r.found <= r.disk.Keys && Detected(r)
    ensures Grounded(BothPasses(r.Kept(), r.disk, ReachSet(r.disk, units)), r.disk)
  {
    var entered, result := ReachSet(r.disk, units), BothPasses(r.Kept(), r.disk, ReachSet(r.disk, units));
    assert result.Keys == r.Kept().Keys + entered;
    forall f | f in result ensures GroundedAt(result, r.disk, f) {
      KeptWithin(r, disk0, f);
      if f in entered {
        forall g | g in Resolved(r.disk, f) ensures g in entered { ReachSetStep(r.disk, units, f, g); }
      }
    }
  }

  /** Whatever is kept of a file, if anything, its content has in it. */
  lemma KeptWithin(r: Run, disk0: Disk, f: File)
    requires Grounded(r.store, disk0) && r.found <= r.disk.Keys && Detected(r)
    ensures f in r.Kept() ==>
              && Within(r.Kept()[f], r.disk, f) && r.Kept()[f].includes <= r.Kept().Keys
  {
    KeptEntry(r, f);
    if f in r.store && f !in r.Gone() {
      KeptIsUnchanged(r, disk0, f);
      assert GroundedAt(r.store, disk0, f);
    }
  }

  /** A run that is not incremental repairs any store that holds nothing but what some
      disk had, provided it detects all changes: after an error or a cut pass the
      store is in order again. */
  lemma FullRunIsGood(r: Run, disk0: Disk)
    requires Grounded(r.store, disk0) && r.found <= r.disk.Keys && Detected(r)
    ensures Good(r.FullResult(), r.disk, r.project.Units())
  {
    GroundedAgain(r, disk0, r.project.Units());
    forall f | f in r.Reachable() ensures f in r.FullResult() && r.FullResult()[f] == FromScratch(r.disk, f) {
      KeptWithin(r, disk0, f);
      CompletedWithin(Entry(r.Kept(), r.disk, f), r.disk, f);
    }
  }

  /** The store of a parse of all files. */
  ghost function Parsed(disk: Disk): Store {
    map f | f in disk :: FromScratch(disk, f)
  }

  lemma ParsedIsGood(disk: Disk, units: set<File>)
    ensures Good(Parsed(disk), disk, units)
  {
    forall f | f in Parsed(disk) ensures GroundedAt(Parsed(disk), disk, f) {}
  }
}
