/** Changes that a later run never sees: because a run was cancelled after its scan, or
    because the scan does not look at the changed file
    (lvtclp/ct_lvtclp_tool.cpp, lvtclp/ct_lvtclp_filesystemscanner.cpp). */
module MissedChanges {
  import opened Options
  import opened Digraph
  import opened PathAlgebra
  import opened CompilationDatabases
  import opened IncrementalUpdates

  /** A second scan of the same files reports nothing new or modified, and the same
      deletions. */
  lemma RescanIsQuiet(store: Store, found: set<File>, disk: Disk, project: Project)
    ensures var again := Scanned(store, found, disk);
            && NewFiles(again, found) == {} && ModifiedFiles(again, found, disk) == {}
            && DeletedFiles(again, found, project) == DeletedFiles(store, found, project)
  {
  }

  ghost predicate Blank(disk: Disk, f: File) {
    f in disk && Resolved(disk, f) == {} && disk[f].entities == {}
  }

  lemma NewIsKept(n: Run, f: File)
    requires f in NewFiles(n.store, n.found)
    ensures f !in n.Gone() && f in n.Kept() && n.Kept()[f] == FileObject(HashOf(n.disk, f), {}, {})
  {
    var scanned := Scanned(n.store, n.found, n.disk);
    assert scanned[f].includes == {};
    if f in n.Gone() {
      var c :| c in Changed(n.store, n.found, n.disk, n.project) && c in scanned
               && Reaches(IncludeGraph(scanned), f, c);
      assert Closed(IncludeGraph(scanned), {f});
      ClosedHoldsReach(IncludeGraph(scanned), {f}, f, c);
    }
  }

  // ------------------------------------------------------------------
  // Runs from a store whose hashes run ahead of its contents
  // ------------------------------------------------------------------

  ghost predicate SameContents(o: FileObject, p: FileObject) {
    o.includes == p.includes && o.entities == p.entities
  }

  ghost predicate NoMoreThan(o: FileObject, p: FileObject) {
    o.includes <= p.includes && o.entities <= p.entities
  }

  /** Whatever the hashes say, what is recorded was on the old disk; and all of it is
      recorded for the stored files that could be reached there. */
  ghost predicate Recorded(store: Store, disk0: Disk, units: set<File>) {
    && (forall f | f in store :: NoMoreThan(store[f], FromScratch(disk0, f)))
    && (forall f | f in store && f in ReachSet(disk0, units) :: SameContents(store[f], FromScratch(disk0, f)))
  }

  /** f is not parsed again, and that does no harm: its hash is current, and what was
      recorded of it on the old disk is so on the new one. Or it is new, and there is
      nothing in it. */
  ghost predicate LeftAlone(n: Run, disk0: Disk, f: File) {
    || (f in NewFiles(n.store, n.found) && Blank(n.disk, f))
    || (&& f in n.store && f !in n.Gone()
        && SameContents(FromScratch(n.disk, f), FromScratch(disk0, f))
        && (f in n.found || n.store[f].hash == HashOf(n.disk, f)))
  }

  /** f is parsed again, over what is recorded of it already. */
  ghost predicate ParsedOver(n: Run, f: File) {
    f in n.store && f !in n.Gone() ==>
      && NoMoreThan(n.store[f], FromScratch(n.disk, f))
      && (f in n.found || n.store[f].hash == HashOf(n.disk, f))
  }

  ghost predicate NotLost(n: Run, disk0: Disk, f: File) {
    if f in n.Entered() then ParsedOver(n, f) else LeftAlone(n, disk0, f)
  }

  ghost predicate NothingLost(n: Run, disk0: Disk) {
    forall f | f in n.Reachable() :: NotLost(n, disk0, f)
  }

  lemma EntersOnward(n: Run, f: File, g: File)
    requires f in n.Entered() && g in Resolved(n.disk, f)
    ensures g in n.Entered()
  {
    ReachSetStep(n.disk, Selected(n.store, n.found, n.disk, n.project), f, g);
  }

  /** Over files that are not parsed again and include nothing they did not include on
      the old disk, reachability is that of the old disk. */
  ghost predicate NoNewReach(n: Run, disk0: Disk) {
    forall f | f in n.Reachable() && f !in n.Entered() :: Resolved(n.disk, f) <= Resolved(disk0, f)
  }

  lemma {:induction false} ReachedBefore(n: Run, disk0: Disk, p: seq<File>)
    requires NoNewReach(n, disk0)
    requires IsWalk(DiskGraph(n.disk), p) && p[0] in n.project.Units() && p[0] in n.disk
    requires p[|p| - 1] in disk0 && p[|p| - 1] !in n.Entered()
    ensures p[|p| - 1] in ReachSet(disk0, n.project.Units())
    decreases |p|
  {
    var k := |p| - 1;
    if k == 0 {
      ReachSetUnit(disk0, n.project.Units(), p[0]);
    } else {
      var f, g := p[k - 1], p[k];
      assert g in Resolved(n.disk, f);
      assert WalkFromTo(DiskGraph(n.disk), p[..k], p[0], f);
      if f in n.Entered() { EntersOnward(n, f, g); }
      assert f in n.Reachable();
      ReachedBefore(n, disk0, p[..k]);
      ReachSetStep(disk0, n.project.Units(), f, g);
    }
  }

  lemma WasReachable(n: Run, disk0: Disk, f: File)
    requires NoNewReach(n, disk0) && f in n.Reachable() && f !in n.Entered() && f in disk0
    ensures f in ReachSet(disk0, n.project.Units())
  {
    var u :| u in n.project.Units() && u in n.disk && Reaches(DiskGraph(n.disk), u, f);
    var p :| WalkFromTo(DiskGraph(n.disk), p, u, f);
    ReachedBefore(n, disk0, p);
  }

  /** So a stored file that is not parsed again is recorded as on the old disk. */
  lemma RecordedBefore(n: Run, disk0: Disk, f: File)
    requires Recorded(n.store, disk0, n.project.Units()) && NoNewReach(n, disk0)
    requires f in n.Reachable() && f !in n.Entered() && f in n.store
    ensures SameContents(n.store[f], FromScratch(disk0, f))
  {
    assert NoMoreThan(n.store[f], FromScratch(disk0, f));
    if f in disk0 { WasReachable(n, disk0, f); }
  }

  ghost predicate FreshAt(store: Store, disk: Disk, f: File) {
    f in store && store[f] == FromScratch(disk, f)
  }

  lemma KeptExactly(n: Run, f: File)
    ensures f in n.Kept() <==> f !in n.Gone() && (f in n.store || f in NewFiles(n.store, n.found))
    ensures f in n.Kept() && f in n.store ==>
              n.Kept()[f] == n.store[f].(hash := if f in n.found then HashOf(n.disk, f) else n.store[f].hash)
    ensures f in n.Kept() && f !in n.store ==> n.Kept()[f] == FileObject(HashOf(n.disk, f), {}, {})
  {
  }

  lemma ParsedOverIsFresh(n: Run, f: File)
    requires f in n.Entered()
    ensures FreshAt(n.Result(), n.disk, f) <==> ParsedOver(n, f)
  {
    ResultEntry(n, f);
    KeptExactly(n, f);
    var o := Entry(n.Kept(), n.disk, f);
    UnionIs(o.includes, Resolved(n.disk, f));
    UnionIs(o.entities, n.disk[f].entities);
    if f in NewFiles(n.store, n.found) { NewIsKept(n, f); }
  }

  lemma UnionIs<T>(a: set<T>, b: set<T>)
    ensures a + b == b <==> a <= b
  {
    if a + b == b {
      assert forall x | x in a :: x in a + b;
    }
  }

  lemma LeftAloneIsFresh(n: Run, disk0: Disk, f: File)
    requires Recorded(n.store, disk0, n.project.Units()) && NoNewReach(n, disk0)
    requires f in n.Reachable() && f !in n.Entered()
    ensures FreshAt(n.Result(), n.disk, f) <==> LeftAlone(n, disk0, f)
  {
    KeptExactly(n, f);
    if f in n.Kept() { ResultEntry(n, f); }
    if f in n.store {
      RecordedBefore(n, disk0, f);
    } else if f in NewFiles(n.store, n.found) {
      NewIsKept(n, f);
    }
  }

  ghost predicate AllFreshAt(store: Store, disk: Disk, units: set<File>) {
    forall f | f in ReachSet(disk, units) :: FreshAt(store, disk, f)
  }

  lemma FreshEverywhere(store: Store, disk: Disk, units: set<File>)
    ensures Fresh(store, disk, units) <==> AllFreshAt(store, disk, units)
  {
    if Fresh(store, disk, units) {
      forall f | f in ReachSet(disk, units) ensures FreshAt(store, disk, f) {}
    }
    if AllFreshAt(store, disk, units) {
      forall f | f in ReachSet(disk, units) ensures f in store && store[f] == FromScratch(disk, f) {
        assert FreshAt(store, disk, f);
      }
    }
  }

  lemma FreshAddsNoReach(n: Run, disk0: Disk)
    requires Recorded(n.store, disk0, n.project.Units()) && AllFreshAt(n.Result(), n.disk, n.project.Units())
    ensures NoNewReach(n, disk0)
  {
    forall f | f in n.Reachable() && f !in n.Entered() ensures Resolved(n.disk, f) <= Resolved(disk0, f) {
      assert FreshAt(n.Result(), n.disk, f);
      KeptExactly(n, f);
      ResultEntry(n, f);
      if f in n.store { assert NoMoreThan(n.store[f], FromScratch(disk0, f)); }
    }
  }

  lemma NothingLostAddsNoReach(n: Run, disk0: Disk)
    requires NothingLost(n, disk0)
    ensures NoNewReach(n, disk0)
  {
    forall f | f in n.Reachable() && f !in n.Entered() ensures Resolved(n.disk, f) <= Resolved(disk0, f) {
      assert NotLost(n, disk0, f);
    }
  }

  lemma NotLostIsFresh(n: Run, disk0: Disk, f: File)
    requires Recorded(n.store, disk0, n.project.Units()) && NoNewReach(n, disk0) && f in n.Reachable()
    ensures FreshAt(n.Result(), n.disk, f) <==> NotLost(n, disk0, f)
  {
    if f in n.Entered() { ParsedOverIsFresh(n, f); } else { LeftAloneIsFresh(n, disk0, f); }
  }

  lemma FreshPerFile(n: Run, disk0: Disk)
    requires Recorded(n.store, disk0, n.project.Units()) && NoNewReach(n, disk0)
    ensures AllFreshAt(n.Result(), n.disk, n.project.Units()) <==> NothingLost(n, disk0)
  {
    forall f | f in n.Reachable() ensures FreshAt(n.Result(), n.disk, f) <==> NotLost(n, disk0, f) {
      NotLostIsFresh(n, disk0, f);
    }
  }

  lemma RecordedContents(n: Run, disk0: Disk)
    requires Recorded(n.store, disk0, n.project.Units())
    ensures Fresh(n.Result(), n.disk, n.project.Units()) <==> NothingLost(n, disk0)
  {
    FreshEverywhere(n.Result(), n.disk, n.project.Units());
    if AllFreshAt(n.Result(), n.disk, n.project.Units()) {
      FreshAddsNoReach(n, disk0);
      FreshPerFile(n, disk0);
    } else if NothingLost(n, disk0) {
      NothingLostAddsNoReach(n, disk0);
      FreshPerFile(n, disk0);
    }
  }

  // ------------------------------------------------------------------
  // Cancelled between the scan and the set-up
  // ------------------------------------------------------------------

  /** The run n follows one that was cancelled there, after any further edits: the hashes
      are those of the cut scan, nothing was deleted, and the state is still AllReady. */
  ghost predicate FollowsCutScan(r: Run, n: Run) {
    n.store == Scanned(r.store, r.found, r.disk) && n.stale == r.stale && n.project == r.project
  }

  lemma CutScanKeepsRecords(r: Run, disk0: Disk)
    requires Good(r.store, disk0, r.project.Units())
    ensures Recorded(Scanned(r.store, r.found, r.disk), disk0, r.project.Units())
  {
    forall f | f in r.store ensures NoMoreThan(r.store[f], FromScratch(disk0, f)) {
      assert GroundedAt(r.store, disk0, f);
    }
  }

  /** Where it leaves everything fresh: each reachable file that it does not parse has on
      the new disk the includes and the entities it had before the cut run (or is new and
      blank), each that it parses has lost none, and what it does not scan kept its hash.
      The edits that the cut scan saw do not matter to what is parsed. */
  lemma CutScanExactlyWhen(r: Run, disk0: Disk, n: Run)
    requires Good(r.store, disk0, r.project.Units()) && FollowsCutScan(r, n)
    ensures var o := n.Outcome();
            o.Some? && Fresh(o.value.store, n.disk, n.project.Units()) <==> n.Safe() && NothingLost(n, disk0)
  {
    CutScanKeepsRecords(r, disk0);
    RecordedContents(n, disk0);
  }

  ghost function DeletedOnly(r: Run): set<File> {
    Gone(Scanned(r.store, r.found, r.disk), DeletedFiles(r.store, r.found, r.project))
  }

  /** Without further edits, all that it knows of are deleted files. */
  lemma AfterScanSees(r: Run, n: Run)
    requires FollowsCutScan(r, n) && n.found == r.found && n.disk == r.disk
    ensures n.Gone() == DeletedOnly(r) && n.Kept() == n.store - n.Gone()
    ensures Selected(n.store, n.found, n.disk, n.project)
            == (set f | f in r.project.Units() && f in DeletedOnly(r)
                        && f !in DeletedFiles(r.store, r.found, r.project))
  {
    RescanIsQuiet(r.store, r.found, r.disk, r.project);
    assert Scanned(n.store, n.found, n.disk) == n.store;
  }

  /** An edit seen by the cut scan alone is lost: a file that is not edited again, nor
      parsed for another reason, is stale if what it includes or declares has changed. */
  lemma CutScanLosesEdits(r: Run, disk0: Disk, n: Run, f: File)
    requires Good(r.store, disk0, r.project.Units()) && FollowsCutScan(r, n)
    requires f in r.store && f in r.found && f in r.disk && f in n.disk && n.disk[f] == r.disk[f]
    requires f in n.Reachable() && f !in n.Entered()
    requires !SameContents(FromScratch(n.disk, f), FromScratch(disk0, f))
    ensures f !in ModifiedFiles(n.store, n.found, n.disk)
    ensures !Fresh(n.Result(), n.disk, n.project.Units())
  {
    CutScanKeepsRecords(r, disk0);
    RecordedContents(n, disk0);
    assert !NotLost(n, disk0, f);
  }

  /** In particular, if nothing was deleted nor edited since, nothing is parsed at all. */
  lemma NoDeletionNoParse(r: Run, n: Run)
    requires FollowsCutScan(r, n) && n.found == r.found && n.disk == r.disk
    requires DeletedFiles(r.store, r.found, r.project) == {}
    ensures n.Safe() && n.Entered() == {} && n.Result() == n.store
  {
    AfterScanSees(r, n);
    assert DeletedOnly(r) == {};
    assert n.Entered() == {};
    assert n.Kept() == n.store;
  }

  // ------------------------------------------------------------------
  // Cancelled after the set-up
  // ------------------------------------------------------------------

  /** The run that follows: what changed, and all that includes it, is erased, and the
      state is still AllReady. */
  ghost function AfterSetup(r: Run): Run {
    r.(store := r.Kept(), stale := r.NextStale())
  }

  lemma KeptIsSettled(r: Run, f: File)
    requires f in r.Kept()
    ensures f in r.found ==> r.Kept()[f].hash == HashOf(r.disk, f)
    ensures f !in DeletedFiles(r.store, r.found, r.project)
    ensures f in r.store && r.project.Lists(f) ==> f in r.found
    ensures f in r.store ==> f !in r.Gone()
  {
    var scanned := Scanned(r.store, r.found, r.disk);
    if f in Changed(r.store, r.found, r.disk, r.project) {
      ReachesSelf(IncludeGraph(scanned), f);
    }
  }

  lemma AfterSetupIsQuiet(r: Run)
    ensures var n := AfterSetup(r);
            && ModifiedFiles(n.store, n.found, n.disk) == {} && DeletedFiles(n.store, n.found, n.project) == {}
            && n.Gone() == {}
  {
    var n := AfterSetup(r);
    forall f | f in n.store
      ensures f !in ModifiedFiles(n.store, n.found, n.disk) && f !in DeletedFiles(n.store, n.found, n.project)
    {
      KeptIsSettled(r, f);
    }
    assert Changed(n.store, n.found, n.disk, n.project) == {};
  }

  /** It sees what was erased and is still there as new, and nothing else. */
  lemma AfterSetupSees(r: Run)
    ensures var n := AfterSetup(r);
            && n.Gone() == {} && n.Kept() == Scanned(r.Kept(), r.found, r.disk)
            && Selected(n.store, n.found, n.disk, n.project)
               == (set f | f in r.project.Units() && f in r.found && f !in r.Kept() && Recognised(f.names))
  {
    var n := AfterSetup(r);
    AfterSetupIsQuiet(r);
    WithoutNone(Scanned(n.store, n.found, n.disk), n.Gone());
    assert n.Kept() == Scanned(n.store, n.found, n.disk);
    SelectsNew(n);
  }

  lemma WithoutNone(store: Store, gone: set<File>)
    requires gone == {}
    ensures store - gone == store
  {
  }

  lemma SelectsNew(n: Run)
    requires n.Gone() == {} && ModifiedFiles(n.store, n.found, n.disk) == {}
    ensures Selected(n.store, n.found, n.disk, n.project)
            == (set f | f in n.project.Units() && f in n.found && f !in n.store && Recognised(f.names))
  {
  }

  /** A file that the cut scan found new is not seen as new again: nothing of it is
      stored but its hash. */
  ghost predicate SeenOrBlank(r: Run, f: File) {
    f in AfterSetup(r).Entered() || Blank(r.disk, f)
  }

  /** All new files are blank or are parsed for another reason, and no unit was erased
      that the scan would not report as new. */
  ghost predicate NewOnesBlank(r: Run) {
    && (forall f | f in NewFiles(r.store, r.found) && f in r.Reachable() :: SeenOrBlank(r, f))
    && (forall u | u in r.project.Units() && u in r.disk && u in r.Gone() ::
        Recognised(u.names) || u in AfterSetup(r).Entered())
  }

  lemma UnitAfterSetup(r: Run, disk0: Disk, u: File)
    requires Good(r.store, disk0, r.project.Units()) && r.Sound() && NewOnesBlank(r)
    requires u in r.project.Units() && u in r.disk && u !in AfterSetup(r).Entered()
    ensures (u in NewFiles(r.store, r.found) && Blank(r.disk, u)) || (u in r.store && u !in r.Gone() && u in disk0)
  {
    var n := AfterSetup(r);
    AfterSetupSees(r);
    ReachSetUnit(r.disk, r.project.Units(), u);
    if u in Selected(n.store, n.found, n.disk, n.project) {
      ReachSetUnit(n.disk, Selected(n.store, n.found, n.disk, n.project), u);
    }
    if u in r.store {
      assert GroundedAt(r.store, disk0, u);
    } else {
      assert u in NewFiles(r.store, r.found);
      assert SeenOrBlank(r, u);
    }
  }

  /** A blank new file, or one that was kept and could be reached on the old disk. */
  ghost predicate BlankOrKept(r: Run, disk0: Disk, f: File) {
    || (f in NewFiles(r.store, r.found) && Blank(r.disk, f))
    || (f in r.store && f !in r.Gone() && f in ReachSet(disk0, r.project.Units()))
  }

  lemma UnitIsBlankOrKept(r: Run, disk0: Disk, u: File)
    requires Good(r.store, disk0, r.project.Units()) && r.Sound() && NewOnesBlank(r)
    requires u in r.project.Units() && u in r.disk && u !in AfterSetup(r).Entered()
    ensures BlankOrKept(r, disk0, u)
  {
    UnitAfterSetup(r, disk0, u);
    if u in disk0 { ReachSetUnit(disk0, r.project.Units(), u); }
  }

  lemma IncludeIsKept(r: Run, disk0: Disk, f: File, g: File)
    requires Good(r.store, disk0, r.project.Units()) && Detected(r) && Settled(r, disk0)
    requires BlankOrKept(r, disk0, f) && g in Resolved(r.disk, f)
    ensures BlankOrKept(r, disk0, g)
  {
    KeptIncludesKept(r, disk0, f, g);
  }

  /** So are all files not parsed again. */
  lemma {:induction false} KeptAfterSetup(r: Run, disk0: Disk, p: seq<File>)
    requires Good(r.store, disk0, r.project.Units()) && r.Sound() && Detected(r) && Settled(r, disk0) && NewOnesBlank(r)
    requires IsWalk(DiskGraph(r.disk), p) && p[0] in r.project.Units() && p[0] in r.disk
    requires p[|p| - 1] !in AfterSetup(r).Entered()
    ensures BlankOrKept(r, disk0, p[|p| - 1])
    decreases |p|
  {
    var k := |p| - 1;
    if k == 0 {
      UnitIsBlankOrKept(r, disk0, p[0]);
    } else {
      WalkInit(DiskGraph(r.disk), p);
      StepNotEntered(r, p[k - 1], p[k]);
      KeptAfterSetup(r, disk0, p[..k]);
      IncludeIsKept(r, disk0, p[k - 1], p[k]);
    }
  }

  lemma StepNotEntered(r: Run, f: File, g: File)
    requires g in Image(DiskGraph(r.disk), f) && g !in AfterSetup(r).Entered()
    ensures f !in AfterSetup(r).Entered() && g in Resolved(r.disk, f)
  {
    if f in AfterSetup(r).Entered() { EntersOnward(AfterSetup(r), f, g); }
  }

  lemma KeptIncludesKept(r: Run, disk0: Disk, f: File, g: File)
    requires Good(r.store, disk0, r.project.Units()) && Detected(r) && Settled(r, disk0)
    requires f in r.store && f !in r.Gone() && f in ReachSet(disk0, r.project.Units()) && g in Resolved(r.disk, f)
    ensures g in r.store && g !in r.Gone() && g in ReachSet(disk0, r.project.Units())
  {
    KeptIsUnchanged(r, disk0, f);
    ReachSetStep(disk0, r.project.Units(), f, g);
    KeptStep(r, f, g);
  }

  lemma AfterSetupEntry(r: Run, f: File)
    ensures var n := AfterSetup(r);
            && (f in r.Kept() ==> f in n.Kept() && n.Kept()[f] == r.Kept()[f])
            && (f in n.Kept() && f !in r.Kept() ==> n.Kept()[f] == FileObject(HashOf(r.disk, f), {}, {}))
  {
    AfterSetupSees(r);
    if f in r.Kept() { KeptIsSettled(r, f); }
  }

  lemma EnteredAfterSetup(r: Run, disk0: Disk, f: File)
    requires Good(r.store, disk0, r.project.Units()) && r.Sound() && Detected(r) && f in AfterSetup(r).Entered()
    ensures FreshAt(AfterSetup(r).Result(), r.disk, f)
  {
    var n := AfterSetup(r);
    ResultEntry(n, f);
    AfterSetupEntry(r, f);
    KeptWithin(r, disk0, f);
    CompletedWithin(Entry(n.Kept(), r.disk, f), r.disk, f);
  }

  lemma BlankOrKeptIsFresh(r: Run, disk0: Disk, f: File)
    requires Good(r.store, disk0, r.project.Units()) && Detected(r) && Settled(r, disk0) && BlankOrKept(r, disk0, f)
    ensures FreshAt(r.Kept(), r.disk, f)
  {
    KeptEntry(r, f);
    if f in r.store {
      KeptIsUnchanged(r, disk0, f);
      assert GroundedAt(r.store, disk0, f);
    } else {
      NewIsKept(r, f);
    }
  }

  lemma UnenteredAfterSetup(r: Run, disk0: Disk, f: File)
    requires Good(r.store, disk0, r.project.Units()) && r.Sound() && Detected(r) && Settled(r, disk0) && NewOnesBlank(r)
    requires f in r.Reachable() && f !in AfterSetup(r).Entered()
    ensures FreshAt(AfterSetup(r).Result(), r.disk, f)
  {
    var n := AfterSetup(r);
    var u :| u in r.project.Units() && u in r.disk && Reaches(DiskGraph(r.disk), u, f);
    var p :| WalkFromTo(DiskGraph(r.disk), p, u, f);
    KeptAfterSetup(r, disk0, p);
    BlankOrKeptIsFresh(r, disk0, f);
    AfterSetupEntry(r, f);
    ResultEntry(n, f);
  }

  lemma FreshIsBlank(r: Run, disk0: Disk)
    requires Good(r.store, disk0, r.project.Units())
    requires AllFreshAt(AfterSetup(r).Result(), r.disk, r.project.Units())
    ensures NewOnesBlank(r)
  {
    var n := AfterSetup(r);
    AfterSetupSees(r);
    forall f | f in NewFiles(r.store, r.found) && f in r.Reachable() ensures SeenOrBlank(r, f) {
      assert FreshAt(n.Result(), r.disk, f);
      NewIsKept(r, f);
      KeptEntry(r, f);
      AfterSetupEntry(r, f);
      ResultEntry(n, f);
    }
    forall u | u in r.project.Units() && u in r.disk && u in r.Gone() ensures Recognised(u.names) || u in n.Entered() {
      ReachSetUnit(r.disk, r.project.Units(), u);
      assert FreshAt(n.Result(), r.disk, u);
      assert u !in r.Kept();
    }
  }

  /** A cancel after the set-up loses less: the run that follows finds the erased units
      again. What is not parsed is what was new, so everything is fresh exactly if each
      new reachable file is blank or gets parsed with another file. */
  lemma CutSetupExactlyWhen(r: Run, disk0: Disk)
    requires Good(r.store, disk0, r.project.Units()) && r.Sound() && Detected(r) && Settled(r, disk0)
    ensures var o := AfterSetup(r).Outcome();
            o.Some? && (Fresh(o.value.store, r.disk, r.project.Units()) <==> NewOnesBlank(r))
  {
    AfterSetupSees(r);
    CutSetupContents(r, disk0);
  }

  lemma CutSetupContents(r: Run, disk0: Disk)
    requires Good(r.store, disk0, r.project.Units()) && r.Sound() && Detected(r) && Settled(r, disk0)
    ensures Fresh(AfterSetup(r).Result(), r.disk, r.project.Units()) <==> NewOnesBlank(r)
  {
    FreshEverywhere(AfterSetup(r).Result(), r.disk, r.project.Units());
    if Fresh(AfterSetup(r).Result(), r.disk, r.project.Units()) {
      FreshIsBlank(r, disk0);
    }
    if NewOnesBlank(r) {
      forall f | f in r.Reachable() ensures FreshAt(AfterSetup(r).Result(), r.disk, f) {
        if f in AfterSetup(r).Entered() { EnteredAfterSetup(r, disk0, f); } else { UnenteredAfterSetup(r, disk0, f); }
      }
    }
  }

  /** With further edits, the exact condition is the one that holds after a cut scan. */
  lemma CutSetupThenEditsExactlyWhen(r: Run, disk0: Disk, n: Run)
    requires Good(r.store, disk0, r.project.Units())
    requires n.store == r.Kept() && n.stale == r.NextStale() && n.project == r.project
    ensures var o := n.Outcome();
            o.Some? && Fresh(o.value.store, n.disk, n.project.Units()) <==> n.Safe() && NothingLost(n, disk0)
  {
    CutScanKeepsRecords(r, disk0);
    RecordedContents(n, disk0);
  }

  // ------------------------------------------------------------------
  // A physical pass that was cut
  // ------------------------------------------------------------------

  ghost function Picked(r: Run, incremental: bool): set<File> {
    if incremental then Selected(r.store, r.found, r.disk, r.project) else r.project.Units()
  }

  /** The physical pass parsed only some of the units that were picked, the logical pass
      all of them. */
  ghost function AfterCutPass(r: Run, incremental: bool, parsed: set<File>): Store {
    Visited(Visited(r.Kept(), r.disk, ReachSet(r.disk, parsed), Physical),
            r.disk, ReachSet(r.disk, Picked(r, incremental)), Logical)
  }

  lemma AfterCutPassEntry(r: Run, incremental: bool, parsed: set<File>, f: File)
    requires parsed <= Picked(r, incremental)
    requires f in r.Kept() || f in ReachSet(r.disk, Picked(r, incremental))
    ensures f in AfterCutPass(r, incremental, parsed)
    ensures var o := Entry(r.Kept(), r.disk, f);
            AfterCutPass(r, incremental, parsed)[f]
            == FileObject(o.hash,
                          o.includes + if f in ReachSet(r.disk, parsed) then Resolved(r.disk, f) else {},
                          o.entities + if f in ReachSet(r.disk, Picked(r, incremental)) then r.disk[f].entities else {})
  {
  }

  /** A file that the cut pass did not get to has no include recorded but old ones. */
  ghost predicate IncludesKnown(r: Run, f: File) {
    Resolved(r.disk, f) <= Entry(r.Kept(), r.disk, f).includes
  }

  lemma PickedAfterCut(r: Run, incremental: bool, parsed: set<File>, disk0: Disk, f: File)
    requires Grounded(r.store, disk0) && r.found <= r.disk.Keys && Detected(r) && parsed <= Picked(r, incremental)
    requires f in ReachSet(r.disk, Picked(r, incremental))
    ensures FreshAt(AfterCutPass(r, incremental, parsed), r.disk, f) <==>
            f in ReachSet(r.disk, parsed) || IncludesKnown(r, f)
  {
    AfterCutPassEntry(r, incremental, parsed, f);
    KeptWithin(r, disk0, f);
    var o := Entry(r.Kept(), r.disk, f);
    assert o.entities + r.disk[f].entities == r.disk[f].entities;
    assert o.includes + Resolved(r.disk, f) == Resolved(r.disk, f);
    assert o.includes + {} == o.includes;
  }

  lemma UnpickedAfterCut(r: Run, parsed: set<File>, disk0: Disk, f: File)
    requires Good(r.store, disk0, r.project.Units()) && r.Sound() && Detected(r) && Settled(r, disk0)
    requires parsed <= Picked(r, true) && f in r.Reachable() && f !in r.Entered()
    ensures FreshAt(AfterCutPass(r, true, parsed), r.disk, f)
  {
    DetectedIsHarmless(r, disk0);
    UnenteredFresh(r, disk0, f);
    AfterCutPassEntry(r, true, parsed, f);
  }

  ghost predicate CutDoesNoHarm(r: Run, incremental: bool, parsed: set<File>) {
    forall f | f in ReachSet(r.disk, Picked(r, incremental)) ::
      f in ReachSet(r.disk, parsed) || IncludesKnown(r, f)
  }

  /** The run ends in AllReady, but the store is fresh only if each file that the cut
      pass did not get to includes nothing that was not recorded before. */
  lemma CutPassExactlyWhen(r: Run, incremental: bool, parsed: set<File>, disk0: Disk)
    requires Grounded(r.store, disk0) && r.found <= r.disk.Keys && Detected(r) && parsed <= Picked(r, incremental)
    requires incremental ==> Good(r.store, disk0, r.project.Units()) && r.Sound() && Settled(r, disk0)
    ensures Fresh(AfterCutPass(r, incremental, parsed), r.disk, r.project.Units()) <==>
            CutDoesNoHarm(r, incremental, parsed)
  {
    var after, picked := AfterCutPass(r, incremental, parsed), ReachSet(r.disk, Picked(r, incremental));
    FreshEverywhere(after, r.disk, r.project.Units());
    forall f | f in picked
      ensures FreshAt(after, r.disk, f) <==> f in ReachSet(r.disk, parsed) || IncludesKnown(r, f)
    {
      PickedAfterCut(r, incremental, parsed, disk0, f);
    }
    forall f | f in r.Reachable() && f !in picked ensures FreshAt(after, r.disk, f) {
      UnpickedAfterCut(r, parsed, disk0, f);
    }
    assert picked <= r.Reachable();
  }

  /** No later run repairs it: one that finds no change parses nothing. */
  lemma QuietRunChangesNothing(n: Run, f: File)
    requires !n.FindsChange() && f in n.store
    ensures n.Safe() && n.Entered() == {} && f in n.Result() && n.Result()[f] == n.store[f]
  {
    assert NewFiles(n.store, n.found) == {} && Changed(n.store, n.found, n.disk, n.project) == {};
    assert n.Gone() == {};
    assert n.Entered() == {};
    KeptExactly(n, f);
    ResultEntry(n, f);
  }

  lemma CutPassStays(r: Run, incremental: bool, parsed: set<File>, disk0: Disk, n: Run)
    requires Grounded(r.store, disk0) && r.found <= r.disk.Keys && Detected(r) && parsed <= Picked(r, incremental)
    requires incremental ==> Good(r.store, disk0, r.project.Units()) && r.Sound() && Settled(r, disk0)
    requires n.store == AfterCutPass(r, incremental, parsed) && n.disk == r.disk && n.project == r.project
    requires !n.FindsChange()
    ensures Fresh(n.Result(), n.disk, n.project.Units()) <==> CutDoesNoHarm(r, incremental, parsed)
  {
    CutPassExactlyWhen(r, incremental, parsed, disk0);
    var after := AfterCutPass(r, incremental, parsed);
    FreshEverywhere(after, r.disk, r.project.Units());
    FreshEverywhere(n.Result(), n.disk, n.project.Units());
    forall f | f in r.Reachable() ensures FreshAt(n.Result(), n.disk, f) <==> FreshAt(after, r.disk, f) {
      if f in ReachSet(r.disk, Picked(r, incremental)) {
        AfterCutPassEntry(r, incremental, parsed, f);
      } else {
        UnpickedAfterCut(r, parsed, disk0, f);
      }
      QuietRunChangesNothing(n, f);
    }
  }

  // ------------------------------------------------------------------
  // Files the scan does not look at
  // ------------------------------------------------------------------

  /** A kept reachable file that changed without the scan telling is stale after the run,
      whatever else the scan tells. */
  lemma UnreportedChangeIsStale(r: Run, disk0: Disk, f: File)
    requires Good(r.store, disk0, r.project.Units()) && r.Sound()
    requires f in r.Reachable() && f in r.store && f !in r.Gone() && r.store[f].hash != HashOf(r.disk, f)
    ensures !Fresh(r.Result(), r.disk, r.project.Units())
  {
    ContentsExactlyWhen(r, disk0);
    assert !r.StillValid(f);
  }

  /** The disk with another version of one file. */
  function Edited(disk: Disk, f: File, content: Content): Disk {
    disk[f := content]
  }

  /** In any project and over any files: if a unit includes a header that is neither a
      unit nor listed, every edit of the header goes unnoticed by a scan that finds all
      other files, and leaves it stale. */
  lemma UnlistedHeaderGoesStale(project: Project, disk0: Disk, unit: File, header: File, content: Content)
      returns (r: Run)
    requires unit in project.Units() && unit in disk0 && header in Resolved(disk0, unit)
    requires header !in project.Units() && !project.Lists(header)
    requires content != disk0[header]
    ensures r == Run(Parsed(disk0), {}, disk0.Keys - {header}, Edited(disk0, header, content), project)
    ensures Good(r.store, disk0, project.Units()) && r.Sound()
    ensures Changed(r.store, r.found, r.disk, r.project) == {} && !Fresh(r.Result(), r.disk, project.Units())
  {
    var disk := Edited(disk0, header, content);
    r := Run(Parsed(disk0), {}, disk0.Keys - {header}, disk, project);
    ParsedIsGood(disk0, project.Units());
    assert Resolved(disk, unit) == Resolved(disk0, unit);
    ReachSetUnit(disk, project.Units(), unit);
    ReachSetStep(disk, project.Units(), unit, header);
    assert Changed(r.store, r.found, r.disk, r.project) == {};
    assert r.Gone() == {};
    UnreportedChangeIsStale(r, disk0, header);
  }
}
