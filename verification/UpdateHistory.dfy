/** Incremental runs one after the other: what every history of edits keeps, and where
    erased file objects come back to haunt a deletion. */
module UpdateHistories {
  import opened Options
  import opened Digraph
  import opened PathAlgebra
  import opened CompilationDatabases
  import opened IncrementalUpdates

  // ------------------------------------------------------------------
  // Histories
  // ------------------------------------------------------------------

  /** The next run starts from what the run leaves if it meets no erased file object. */
  ghost predicate Follows(r: Run, next: Run) {
    next.store == r.Result() && next.stale == r.NextStale() && next.project == r.project
  }

  /** Any number of runs, each after some edits of the files on disk. */
  ghost predicate History(runs: seq<Run>) {
    runs != [] && forall i | 0 <= i < |runs| - 1 :: FollowsAt(runs, i)
  }

  ghost predicate FollowsAt(runs: seq<Run>, n: nat)
    requires n + 1 < |runs|
  {
    Follows(runs[n], runs[n + 1])
  }

  /** The files that the store was last brought in line with. */
  function DiskBefore(runs: seq<Run>, disk0: Disk, n: nat): Disk
    requires n <= |runs|
  {
    if n == 0 then disk0 else runs[n - 1].disk
  }

  ghost predicate DetectedAt(runs: seq<Run>, disk0: Disk, n: nat)
    requires n < |runs|
  {
    runs[n].Sound() && Detected(runs[n]) && Settled(runs[n], DiskBefore(runs, disk0, n))
  }

  ghost predicate AllDetected(runs: seq<Run>, disk0: Disk) {
    forall n | 0 <= n < |runs| :: DetectedAt(runs, disk0, n)
  }

  ghost predicate NoneMeetsErasedFile(runs: seq<Run>) {
    forall n | 0 <= n < |runs| :: runs[n].Outcome().Some?
  }

  lemma GoodStep(r: Run, next: Run, disk0: Disk)
    requires Good(r.store, disk0, r.project.Units()) && r.Sound() && Detected(r) && Settled(r, disk0)
        && Follows(r, next)
    ensures Good(next.store, r.disk, next.project.Units())
  {
    ResultIsGood(r, disk0);
  }

  ghost predicate GoodAt(runs: seq<Run>, disk0: Disk, n: nat)
    requires n < |runs|
  {
    Good(runs[n].store, DiskBefore(runs, disk0, n), runs[n].project.Units())
  }

  lemma StaysGoodStep(runs: seq<Run>, disk0: Disk, n: nat)
    requires n + 1 < |runs| && FollowsAt(runs, n) && DetectedAt(runs, disk0, n) && GoodAt(runs, disk0, n)
    ensures GoodAt(runs, disk0, n + 1)
  {
    GoodStep(runs[n], runs[n + 1], DiskBefore(runs, disk0, n));
  }

  ghost predicate KeepsGood(runs: seq<Run>, disk0: Disk, n: nat)
    requires n + 1 < |runs|
  {
    GoodAt(runs, disk0, n) ==> GoodAt(runs, disk0, n + 1)
  }

  lemma {:induction false} GoodOnward(runs: seq<Run>, disk0: Disk, n: nat)
    requires runs != [] && GoodAt(runs, disk0, 0) && n < |runs|
    requires forall k | 0 <= k < |runs| - 1 :: KeepsGood(runs, disk0, k)
    ensures GoodAt(runs, disk0, n)
    decreases n
  {
    if n > 0 {
      GoodOnward(runs, disk0, n - 1);
      assert KeepsGood(runs, disk0, n - 1);
    }
  }

  lemma StaysGood(runs: seq<Run>, disk0: Disk, n: nat)
    requires History(runs) && AllDetected(runs, disk0) && GoodAt(runs, disk0, 0) && n < |runs|
    ensures GoodAt(runs, disk0, n)
  {
    forall k | 0 <= k < |runs| - 1 ensures KeepsGood(runs, disk0, k) {
      if GoodAt(runs, disk0, k) {
        assert FollowsAt(runs, k) && DetectedAt(runs, disk0, k);
        StaysGoodStep(runs, disk0, k);
      }
    }
    GoodOnward(runs, disk0, n);
  }

  // ------------------------------------------------------------------
  // Erased objects
  // ------------------------------------------------------------------

  ghost predicate Erases(r: Run, g: File) {
    g in r.Gone()
  }

  /** The run erases a file that includes g, and keeps g. */
  ghost predicate LosesIncluder(r: Run, g: File) {
    var scanned := Scanned(r.store, r.found, r.disk);
    g in scanned && !Erases(r, g) && exists f :: f in r.Gone() && f in scanned && g in scanned[f].includes
  }

  /** In which runs g loses an includer, and in which it is erased. */
  ghost function Losses(runs: seq<Run>, g: File): (r: seq<bool>)
    ensures |r| == |runs|
  {
    seq(|runs|, i requires 0 <= i < |runs| => LosesIncluder(runs[i], g))
  }

  ghost function Erasures(runs: seq<Run>, g: File): (r: seq<bool>)
    ensures |r| == |runs|
  {
    seq(|runs|, i requires 0 <= i < |runs| => Erases(runs[i], g))
  }

  /** Before which runs g has a dangling reverse include. */
  ghost function Danglings(runs: seq<Run>, g: File): (r: seq<bool>)
    ensures |r| == |runs|
  {
    seq(|runs|, i requires 0 <= i < |runs| => g in runs[i].stale)
  }

  /** Something was set before time n, and not cleared then or up to n. */
  ghost predicate Stands(marks: seq<bool>, clears: seq<bool>, n: nat)
    requires n <= |marks| == |clears|
  {
    exists j | 0 <= j < n :: marks[j] && forall k | j <= k < n :: !clears[k]
  }

  /** Some run before run n erased an includer of g, and none from then on erased g. */
  ghost predicate Lost(runs: seq<Run>, n: nat, g: File)
    requires n <= |runs|
  {
    Stands(Losses(runs, g), Erasures(runs, g), n)
  }

  lemma StandsStep(marks: seq<bool>, clears: seq<bool>, n: nat)
    requires n < |marks| == |clears| && (marks[n] ==> !clears[n])
    ensures Stands(marks, clears, n + 1) <==> marks[n] || (Stands(marks, clears, n) && !clears[n])
  {
    if Stands(marks, clears, n) && !clears[n] {
      var j :| 0 <= j < n && marks[j] && forall k | j <= k < n :: !clears[k];
      assert forall k | j <= k < n + 1 :: !clears[k];
    }
  }

  lemma {:induction false} Latched(up: seq<bool>, marks: seq<bool>, clears: seq<bool>, n: nat)
    requires n < |up| == |marks| == |clears| && !up[0]
    requires forall i | 0 <= i < n :: up[i + 1] == (marks[i] || (up[i] && !clears[i]))
    requires forall i | 0 <= i < n :: marks[i] ==> !clears[i]
    ensures up[n] <==> Stands(marks, clears, n)
    decreases n
  {
    if n > 0 {
      Latched(up, marks, clears, n - 1);
      StandsStep(marks, clears, n - 1);
      assert up[n - 1 + 1] == (marks[n - 1] || (up[n - 1] && !clears[n - 1]));
    }
  }

  lemma StaleIsStored(r: Run, next: Run)
    requires Follows(r, next)
    ensures next.stale <= next.store.Keys
  {
    assert r.Kept().Keys == Scanned(r.store, r.found, r.disk).Keys - r.Gone();
  }

  lemma StaleStep(r: Run, next: Run, g: File)
    requires Follows(r, next) && r.stale <= r.store.Keys
    ensures g in next.stale <==> LosesIncluder(r, g) || (g in r.stale && !Erases(r, g))
    ensures LosesIncluder(r, g) ==> !Erases(r, g)
  {
  }

  lemma DanglingStep(runs: seq<Run>, g: File, i: nat)
    requires History(runs) && runs[0].stale == {} && i < |runs| - 1
    ensures Danglings(runs, g)[i + 1] == (Losses(runs, g)[i] || (Danglings(runs, g)[i] && !Erasures(runs, g)[i]))
    ensures Losses(runs, g)[i] ==> !Erasures(runs, g)[i]
  {
    assert FollowsAt(runs, i);
    if i > 0 {
      assert FollowsAt(runs, i - 1);
      StaleIsStored(runs[i - 1], runs[i]);
    }
    StaleStep(runs[i], runs[i + 1], g);
  }

  /** A stored file has a dangling reverse include exactly if some run erased one of its
      includers and the file itself was never erased since. */
  lemma StaleExactlyWhen(runs: seq<Run>, n: nat, g: File)
    requires History(runs) && runs[0].stale == {} && n < |runs|
    ensures g in runs[n].stale <==> Lost(runs, n, g)
  {
    var up, marks, clears := Danglings(runs, g), Losses(runs, g), Erasures(runs, g);
    forall i | 0 <= i < n ensures up[i + 1] == (marks[i] || (up[i] && !clears[i])) && (marks[i] ==> !clears[i]) {
      DanglingStep(runs, g, i);
    }
    Latched(up, marks, clears, n);
  }

  /** Run n erases a file whose includer an earlier run erased without it. */
  ghost predicate TouchesErasedFile(runs: seq<Run>, n: nat)
    requires n < |runs|
  {
    exists g :: Lost(runs, n, g) && Erases(runs[n], g)
  }

  lemma MeetsErasedExactlyWhen(runs: seq<Run>, n: nat)
    requires History(runs) && runs[0].stale == {} && n < |runs|
    ensures runs[n].Outcome().Some? <==> !TouchesErasedFile(runs, n)
  {
    var r := runs[n];
    if !r.Safe() {
      var g :| g in r.Gone() && g in r.stale;
      StaleExactlyWhen(runs, n, g);
      assert Erases(r, g);
    }
    if g :| Lost(runs, n, g) && Erases(r, g) {
      StaleExactlyWhen(runs, n, g);
      assert g in r.Gone() && g in r.stale;
    }
  }

  ghost predicate NeverTouchesErasedFile(runs: seq<Run>) {
    forall n | 0 <= n < |runs| :: !TouchesErasedFile(runs, n)
  }

  /** However files are edited and runs repeated, as long as every scan detects the
      changes: the store tells what a parse of the latest files from scratch would,
      unless some run erases a file whose includer an earlier run erased without it.
      Then, and as far as file objects go only then, an erased object is touched; for
      type objects see TypeRemovals. */
  lemma RunsStayFresh(runs: seq<Run>, disk0: Disk)
    requires History(runs) && AllDetected(runs, disk0)
    requires Good(runs[0].store, disk0, runs[0].project.Units()) && runs[0].stale == {}
    ensures NoneMeetsErasedFile(runs) <==> NeverTouchesErasedFile(runs)
    ensures var last := runs[|runs| - 1];
            last.Outcome().Some? ==> Fresh(last.Outcome().value.store, last.disk, last.project.Units())
  {
    forall n | 0 <= n < |runs| ensures runs[n].Outcome().Some? <==> !TouchesErasedFile(runs, n) {
      MeetsErasedExactlyWhen(runs, n);
    }
    LastIsGood(runs, disk0);
  }

  lemma LastIsGood(runs: seq<Run>, disk0: Disk)
    requires History(runs) && AllDetected(runs, disk0) && GoodAt(runs, disk0, 0)
    ensures var last := runs[|runs| - 1];
            last.Outcome().Some? ==> Fresh(last.Outcome().value.store, last.disk, last.project.Units())
  {
    var n := |runs| - 1;
    StaysGood(runs, disk0, n);
    assert DetectedAt(runs, disk0, n) && GoodAt(runs, disk0, n);
    RunKeepsGood(runs[n], DiskBefore(runs, disk0, n));
  }

  lemma NothingToErase(r: Run)
    requires r.store == map[]
    ensures r.Gone() == {} && r.Kept() == Scanned(map[], r.found, r.disk) && r.NextStale() == r.stale * r.Kept().Keys
  {
    assert Changed(r.store, r.found, r.disk, r.project) == {};
    assert r.Gone() == {};
    var scanned := Scanned(r.store, r.found, r.disk);
    assert scanned - {} == scanned;
  }

  /** The first run, on an empty store, parses all units, puts the store in order, and
      leaves no dangling reverse include; so the first update meets no erased file. */
  lemma FirstRunIsGood(found: set<File>, disk: Disk, project: Project)
    requires found <= disk.Keys
    ensures var r := Run(map[], {}, found, disk, project);
            && r.Safe() && r.NextStale() == {} && Good(r.FullResult(), disk, project.Units())
  {
    var r := Run(map[], {}, found, disk, project);
    NothingToErase(r);
    FullRunIsGood(r, disk);
  }

  // ------------------------------------------------------------------
  // A unit is edited, then a file it includes
  // ------------------------------------------------------------------

  lemma GoneModified(r: Run, f: File)
    requires f in ModifiedFiles(r.store, r.found, r.disk)
    ensures f in r.Gone()
  {
    ReachesSelf(IncludeGraph(Scanned(r.store, r.found, r.disk)), f);
  }

  /** In any project: first some files are edited, of which one includes g while g does
      not reach any of them; then g is. The second run touches an erased object. */
  lemma IncluderThenIncluded(r: Run, next: Run, f: File, g: File)
    requires r.stale == {} && Follows(r, next)
    requires f in ModifiedFiles(r.store, r.found, r.disk) && g in r.store[f].includes && g in r.store && g !in r.Gone()
    requires g in ModifiedFiles(next.store, next.found, next.disk)
    ensures next.Outcome() == None
  {
    GoneModified(r, f);
    GoneModified(next, g);
    assert LosesIncluder(r, g);
    StaleStep(r, next, g);
  }

  ghost function TwoFiles(unit: File, header: File, a: set<Entity>, b: set<Entity>): Disk {
    map[unit := Content({header}, a), header := Content({}, b)]
  }

  /** Both files are scanned, so every edit of their entities is detected. */
  lemma EditIsDetected(r: Run, disk0: Disk, unit: File, header: File)
    requires unit != header && disk0.Keys == r.disk.Keys == {unit, header} && r.found == {unit, header}
    requires forall f | f in disk0 :: Resolved(r.disk, f) == Resolved(disk0, f)
    requires Grounded(r.store, disk0) && r.store.Keys == {unit, header}
    ensures r.Sound() && Detected(r) && Settled(r, disk0)
    ensures forall f | f in disk0 :: f in ModifiedFiles(r.store, r.found, r.disk) <==> r.disk[f] != disk0[f]
  {
    forall f | f in r.store ensures r.store[f].hash == Md5(disk0[f]) {
      assert GroundedAt(r.store, disk0, f);
    }
  }

  lemma TwoFilesResolved(unit: File, header: File, a: set<Entity>, b: set<Entity>)
    requires unit != header
    ensures var disk := TwoFiles(unit, header, a, b);
            disk.Keys == {unit, header} && Resolved(disk, unit) == {header} && Resolved(disk, header) == {}
  {
  }

  lemma HeaderStays(r: Run, unit: File, header: File)
    requires unit != header && r.store.Keys == {unit, header} && r.store[header].includes == {}
    requires Changed(r.store, r.found, r.disk, r.project) == {unit}
    ensures header !in r.Gone()
  {
    var scanned := Scanned(r.store, r.found, r.disk);
    assert Closed(IncludeGraph(scanned), {header});
    if header in r.Gone() {
      ClosedHoldsReach(IncludeGraph(scanned), {header}, header, unit);
    }
  }

  lemma BothStayStored(r: Run, unit: File, header: File)
    requires r.store.Keys == r.disk.Keys == r.found == {unit, header}
    requires unit in r.project.Units() && header in Resolved(r.disk, unit)
    requires Good(r.Result(), r.disk, r.project.Units())
    ensures r.Result().Keys == {unit, header}
  {
    ReachSetUnit(r.disk, r.project.Units(), unit);
    ReachSetStep(r.disk, r.project.Units(), unit, header);
    forall f | f in r.Result() ensures f in r.disk {
      assert GroundedAt(r.Result(), r.disk, f);
    }
  }

  /** The first update: the unit is parsed again, and the header stays. */
  lemma UnitIsEdited(r: Run, unit: File, header: File, disk0: Disk, x: Entity)
    requires unit in r.project.Units() && unit != header
    requires disk0 == TwoFiles(unit, header, {}, {}) && r.disk == TwoFiles(unit, header, {x}, {})
    requires r.store == Parsed(disk0) && r.found == {unit, header}
    ensures r.Sound() && Detected(r) && Settled(r, disk0)
    ensures unit in ModifiedFiles(r.store, r.found, r.disk) && header !in r.Gone()
    ensures Good(r.Result(), r.disk, r.project.Units()) && r.Result().Keys == {unit, header}
  {
    TwoFilesResolved(unit, header, {}, {});
    TwoFilesResolved(unit, header, {x}, {});
    ParsedIsGood(disk0, r.project.Units());
    EditIsDetected(r, disk0, unit, header);
    assert DeletedFiles(r.store, r.found, r.project) == {};
    assert Changed(r.store, r.found, r.disk, r.project) == {unit};
    HeaderStays(r, unit, header);
    ResultIsGood(r, disk0);
    BothStayStored(r, unit, header);
  }

  /** The second update: the header is found modified. */
  lemma HeaderIsEdited(r: Run, unit: File, header: File, disk1: Disk, x: Entity)
    requires unit in r.project.Units() && unit != header
    requires disk1 == TwoFiles(unit, header, {x}, {}) && r.disk == TwoFiles(unit, header, {x}, {x})
    requires Good(r.store, disk1, r.project.Units()) && r.store.Keys == {unit, header} && r.found == {unit, header}
    ensures r.Sound() && Detected(r) && Settled(r, disk1)
    ensures header in ModifiedFiles(r.store, r.found, r.disk)
  {
    TwoFilesResolved(unit, header, {x}, {});
    TwoFilesResolved(unit, header, {x}, {x});
    EditIsDetected(r, disk1, unit, header);
  }

  lemma UnitThenHeaderRuns(project: Project, unit: File, header: File, x: Entity) returns (r: Run, s: Run, disk0: Disk)
    requires unit in project.Units() && unit != header
    ensures Follows(r, s) && r.project == project && r.stale == {} && Good(r.store, disk0, project.Units())
    ensures r.Sound() && Detected(r) && Settled(r, disk0)
    ensures s.Sound() && Detected(s) && Settled(s, r.disk)
    ensures s.Outcome() == None
  {
    disk0 := TwoFiles(unit, header, {}, {});
    r := Run(Parsed(disk0), {}, {unit, header}, TwoFiles(unit, header, {x}, {}), project);
    s := Run(r.Result(), r.NextStale(), {unit, header}, TwoFiles(unit, header, {x}, {x}), project);
    ParsedIsGood(disk0, project.Units());
    TwoFilesResolved(unit, header, {}, {});
    UnitIsEdited(r, unit, header, disk0, x);
    HeaderIsEdited(s, unit, header, r.disk, x);
    IncluderThenIncluded(r, s, unit, header);
  }

  /** A unit and a header that it includes are parsed; then the unit is edited, and then
      the header. All edits are detected, and yet the last run meets an erased file. */
  lemma UnitThenHeader(project: Project, unit: File, header: File, x: Entity) returns (runs: seq<Run>, disk0: Disk)
    requires unit in project.Units() && unit != header
    ensures History(runs) && |runs| == 2 && runs[0].stale == {} && Good(runs[0].store, disk0, project.Units())
    ensures AllDetected(runs, disk0) && runs[0].project == project && runs[1].Outcome() == None
  {
    var r, s;
    r, s, disk0 := UnitThenHeaderRuns(project, unit, header, x);
    runs := [r, s];
    BothDetected(r, s, disk0);
  }

  lemma BothDetected(r: Run, s: Run, disk0: Disk)
    requires r.Sound() && Detected(r) && Settled(r, disk0)
    requires s.Sound() && Detected(s) && Settled(s, r.disk)
    ensures AllDetected([r, s], disk0)
  {
    assert DetectedAt([r, s], disk0, 0) && DetectedAt([r, s], disk0, 1);
  }
}
