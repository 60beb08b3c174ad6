/** How lvtclp/ct_lvtclp_filesystemscanner.cpp collects packages and package groups
    while it scans paths, and adds them to the store. No semantic packing rules. */
module PackageScans {
  import opened Options

  type Name = string // the normalised path of a directory; empty for the prefix itself
  const NON_LAKOSIAN_GROUP: Name := "non-lakosian group"

  /** What the file name tells: `isComponentOnStandalonePackage`,
      `isComponentOnPackageGroup`, or neither. */
  datatype Kind = Standalone | InGroup | Other

  /** A scanned file, the directory it is in and the one above, and whether either was
      flagged as non-lakosian. */
  datatype Scanned = Scanned(file: string, kind: Kind, dir: Name, upper: Name, dirFlagged: bool, upperFlagged: bool)

  datatype FoundPackage = FoundPackage(parent: Name, name: Name)

  /** foundPkgGrps, foundPkgs, foundPkgNames, foundFiles. */
  datatype Found = Found(groups: set<Name>, packages: seq<FoundPackage>, names: set<Name>, files: seq<(string, Name)>)

  const NOTHING := Found({}, [], {}, [])

  // ------------------------------------------------------------------
  // Scanning
  // ------------------------------------------------------------------

  function AddSourcePackage(s: Found, dir: Name, inParent: Name, standalone: bool, flagged: bool): Found {
    if dir == "" then s
    else
      var s1 := if flagged then s.(groups := s.groups + {NON_LAKOSIAN_GROUP}) else s;
      var parent := if flagged then NON_LAKOSIAN_GROUP else inParent;
      if !standalone && parent == "" then
        if dir in s1.names then s1 else s1.(groups := s1.groups + {dir})
      else
        s1.(groups := s1.groups - {dir}, packages := s1.packages + [FoundPackage(parent, dir)],
            names := s1.names + {dir})
  }

  function ScanPath(s: Found, p: Scanned): Found {
    match p.kind
    case Standalone =>
      var s1 := AddSourcePackage(s, p.dir, "", true, p.dirFlagged);
      s1.(files := s1.files + [(p.file, p.dir)])
    case InGroup =>
      var s1 := AddSourcePackage(s, p.upper, "", false, p.upperFlagged);
      var s2 := AddSourcePackage(s1, p.dir, p.upper, false, p.dirFlagged);
      s2.(files := s2.files + [(p.file, p.dir)])
    case Other =>
      var s1 := s.(groups := s.groups + {NON_LAKOSIAN_GROUP});
      var s2 := AddSourcePackage(s1, p.dir, NON_LAKOSIAN_GROUP, false, p.dirFlagged);
      s2.(files := s2.files + [(p.file, if p.dir == "" then NON_LAKOSIAN_GROUP else p.dir)])
  }

  function ScanAll(paths: seq<Scanned>): Found
    decreases paths
  {
    if paths == [] then NOTHING else ScanPath(ScanAll(paths[..|paths| - 1]), paths[|paths| - 1])
  }

  /** A name the scan has recorded, as a group or as a package. */
  predicate Recorded(s: Found, name: Name) {
    name in s.groups || name in s.names
  }

  ghost predicate Inv(s: Found) {
    && s.names == (set p | p in s.packages :: p.name)
    && s.groups * s.names <= {NON_LAKOSIAN_GROUP}
    && (forall p | p in s.packages :: p.parent == "" || Recorded(s, p.parent))
    && (forall f | f in s.files :: f.1 == "" || Recorded(s, f.1))
  }

  lemma AddKeepsInv(s: Found, dir: Name, inParent: Name, standalone: bool, flagged: bool)
    requires Inv(s) && (inParent == "" || Recorded(s, inParent))
    ensures var t := AddSourcePackage(s, dir, inParent, standalone, flagged);
            && Inv(t) && (dir != "" ==> Recorded(t, dir))
            && (forall name :: Recorded(s, name) ==> Recorded(t, name))
            && (dir != NON_LAKOSIAN_GROUP && NON_LAKOSIAN_GROUP !in s.names ==> NON_LAKOSIAN_GROUP !in t.names)
  {
    var t := AddSourcePackage(s, dir, inParent, standalone, flagged);
    if t.packages != s.packages {
      assert forall p :: p in t.packages <==> p in s.packages || p == t.packages[|s.packages|];
    }
  }

  /** Neither directory is called like the group that is made up for non-lakosian code. */
  predicate Plain(p: Scanned) {
    p.dir != NON_LAKOSIAN_GROUP && p.upper != NON_LAKOSIAN_GROUP
  }

  lemma ScanKeepsInv(s: Found, p: Scanned)
    requires Inv(s)
    ensures Inv(ScanPath(s, p))
    ensures Plain(p) && NON_LAKOSIAN_GROUP !in s.names ==> NON_LAKOSIAN_GROUP !in ScanPath(s, p).names
  {
    match p.kind
    case Standalone => AddKeepsInv(s, p.dir, "", true, p.dirFlagged);
    case InGroup =>
      AddKeepsInv(s, p.upper, "", false, p.upperFlagged);
      AddKeepsInv(AddSourcePackage(s, p.upper, "", false, p.upperFlagged), p.dir, p.upper, false, p.dirFlagged);
    case Other =>
      AddKeepsInv(s.(groups := s.groups + {NON_LAKOSIAN_GROUP}), p.dir, NON_LAKOSIAN_GROUP, false, p.dirFlagged);
  }

  /** After any sequence of scanned paths a name is a group or a package but not both,
      unless it is the name of the non-lakosian group; and that only if a directory is
      called so. Files have a recorded package, or lie in the prefix itself. */
  lemma {:induction false} ScansSeparate(paths: seq<Scanned>)
    ensures Inv(ScanAll(paths))
    ensures (forall p | p in paths :: Plain(p)) ==> ScanAll(paths).groups !! ScanAll(paths).names
    ensures (forall p | p in paths :: Plain(p)) ==> NON_LAKOSIAN_GROUP !in ScanAll(paths).names
    decreases paths
  {
    if paths != [] {
      var n := |paths| - 1;
      ScansSeparate(paths[..n]);
      ScanKeepsInv(ScanAll(paths[..n]), paths[n]);
      assert paths == paths[..n] + [paths[n]];
    }
  }

  // ------------------------------------------------------------------
  // What a path is recorded as
  // ------------------------------------------------------------------

  /** The package a file is filed under is its own directory; only a file of no component
      in the prefix itself goes to the group. */
  function PackageOf(p: Scanned): Name {
    if p.kind.Other? && p.dir == "" then NON_LAKOSIAN_GROUP else p.dir
  }

  /** The path makes the package q: of its directory, or of the one above if it is flagged. */
  predicate MakesPackage(p: Scanned, q: FoundPackage) {
    q.name != "" &&
    ((q.name == p.dir &&
      if p.dirFlagged || p.kind.Other? then q.parent == NON_LAKOSIAN_GROUP
      else if p.kind.Standalone? then q.parent == ""
      else p.upper != "" && q.parent == p.upper)
     || (q.name == p.upper && p.kind.InGroup? && p.upperFlagged && q.parent == NON_LAKOSIAN_GROUP))
  }

  predicate MakesGroup(p: Scanned, group: Name) {
    || (group == NON_LAKOSIAN_GROUP &&
          (p.kind.Other? || (p.dirFlagged && p.dir != "")
           || (p.kind.InGroup? && p.upperFlagged && p.upper != "")))
    || (p.kind.InGroup? && group != "" &&
          ((group == p.upper && !p.upperFlagged) || (group == p.dir && !p.dirFlagged && p.upper == "")))
  }

  /** What one path adds, and that nothing else is touched but groups that are packages. */
  ghost predicate Adds(s: Found, p: Scanned, t: Found) {
    && t.files == s.files + [(p.file, PackageOf(p))]
    && s.packages <= t.packages
    && (forall q :: q in t.packages <==> q in s.packages || MakesPackage(p, q))
    && (forall g :: g !in t.names ==> (g in t.groups <==> g in s.groups || MakesGroup(p, g)))
  }

  lemma AddSourceAdds(s: Found, dir: Name, inParent: Name, standalone: bool, flagged: bool)
    requires Inv(s)
    ensures var t, q := AddSourcePackage(s, dir, inParent, standalone, flagged),
                        FoundPackage(if flagged then NON_LAKOSIAN_GROUP else inParent, dir);
            var isPackage := dir != "" && (flagged || standalone || inParent != "");
            && t.files == s.files && t.packages == (if isPackage then s.packages + [q] else s.packages)
            && t.names == (if isPackage then s.names + {dir} else s.names)
            && (forall g :: g !in t.names ==>
                  (g in t.groups <==> || g in s.groups || (flagged && dir != "" && g == NON_LAKOSIAN_GROUP)
                                      || (!isPackage && dir != "" && g == dir)))
  {
  }

  lemma ScanAdds(s: Found, p: Scanned)
    requires Inv(s)
    ensures Adds(s, p, ScanPath(s, p))
  {
    match p.kind
    case Standalone => AddSourceAdds(s, p.dir, "", true, p.dirFlagged);
    case InGroup =>
      var u := AddSourcePackage(s, p.upper, "", false, p.upperFlagged);
      AddSourceAdds(s, p.upper, "", false, p.upperFlagged);
      AddKeepsInv(s, p.upper, "", false, p.upperFlagged);
      AddSourceAdds(u, p.dir, p.upper, false, p.dirFlagged);
    case Other =>
      AddSourceAdds(s.(groups := s.groups + {NON_LAKOSIAN_GROUP}), p.dir, NON_LAKOSIAN_GROUP, false, p.dirFlagged);
  }

  lemma FilesOne(s: Found, p: Scanned)
    ensures ScanPath(s, p).files == s.files + [(p.file, PackageOf(p))]
  {
  }

  lemma {:induction false} FiledAt(paths: seq<Scanned>, i: nat)
    ensures |ScanAll(paths).files| == |paths|
    ensures i < |paths| ==> ScanAll(paths).files[i] == (paths[i].file, PackageOf(paths[i]))
    decreases paths
  {
    if paths != [] {
      var n := |paths| - 1;
      FiledAt(paths[..n], i);
      FilesOne(ScanAll(paths[..n]), paths[n]);
    }
  }

  /** Each file is filed, in order, under its own package. */
  lemma FiledUnderOwnPackage(paths: seq<Scanned>)
    ensures |ScanAll(paths).files| == |paths|
    ensures forall i | 0 <= i < |paths| ::
              ScanAll(paths).files[i].0 == paths[i].file
              && ScanAll(paths).files[i].1
                 == if paths[i].kind.Other? && paths[i].dir == "" then NON_LAKOSIAN_GROUP else paths[i].dir
  {
    FiledAt(paths, 0);
    forall i | 0 <= i < |paths| ensures ScanAll(paths).files[i] == (paths[i].file, PackageOf(paths[i])) {
      FiledAt(paths, i);
    }
  }

  /** The packages are those that some path makes, with the parent it gives. */
  lemma {:induction false} PackagesByKind(paths: seq<Scanned>)
    ensures forall q :: q in ScanAll(paths).packages <==> exists p :: p in paths && MakesPackage(p, q)
    decreases paths
  {
    if paths != [] {
      var n := |paths| - 1;
      var s, t := ScanAll(paths[..n]), ScanAll(paths);
      PackagesByKind(paths[..n]);
      ScansSeparate(paths[..n]);
      ScanAdds(s, paths[n]);
      assert paths == paths[..n] + [paths[n]];
      forall q ensures q in t.packages <==> exists p :: p in paths && MakesPackage(p, q) {
        assert q in t.packages <==> q in s.packages || MakesPackage(paths[n], q);
      }
    }
  }

  /** What is no package is a group exactly if some path makes it one; and a package is no
      group, whatever the order of the paths, but for the made-up name. */
  lemma {:induction false} GroupsByKind(paths: seq<Scanned>)
    ensures forall g :: g !in ScanAll(paths).names ==>
              (g in ScanAll(paths).groups <==> exists p :: p in paths && MakesGroup(p, g))
    ensures ScanAll(paths).groups * ScanAll(paths).names <= {NON_LAKOSIAN_GROUP}
    decreases paths
  {
    ScansSeparate(paths);
    if paths != [] {
      var n := |paths| - 1;
      var s, t := ScanAll(paths[..n]), ScanAll(paths);
      GroupsByKind(paths[..n]);
      ScansSeparate(paths[..n]);
      ScanAdds(s, paths[n]);
      assert paths == paths[..n] + [paths[n]];
      forall g | g !in t.names ensures g in t.groups <==> exists p :: p in paths && MakesGroup(p, g) {
        NamesStay(s, t, g);
        assert g in t.groups <==> g in s.groups || MakesGroup(paths[n], g);
      }
    }
  }

  lemma NamesStay(s: Found, t: Found, name: Name)
    requires Inv(s) && Inv(t) && s.packages <= t.packages
    ensures name in s.names ==> name in t.names
  {
    if name in s.names {
      var q :| q in s.packages && q.name == name;
      assert q in t.packages;
    }
  }

  // ------------------------------------------------------------------
  // When the made-up name is a group and a package
  // ------------------------------------------------------------------

  /** What a directory does to the record of the made-up name: it needs the group, or
      is called so and is recorded as a group if it is no package, or as a package. */
  datatype Touch = Need | AsGroup | AsPackage

  function DirTouches(dir: Name, inParent: Name, standalone: bool, flagged: bool): seq<Touch> {
    if dir == "" then []
    else
      (if flagged then [Need] else [])
      + (if dir != NON_LAKOSIAN_GROUP then []
         else if standalone || flagged || inParent != "" then [AsPackage] else [AsGroup])
  }

  function PathTouches(p: Scanned): seq<Touch> {
    match p.kind
    case Standalone => DirTouches(p.dir, "", true, p.dirFlagged)
    case InGroup => DirTouches(p.upper, "", false, p.upperFlagged) + DirTouches(p.dir, p.upper, false, p.dirFlagged)
    case Other => [Need] + DirTouches(p.dir, NON_LAKOSIAN_GROUP, false, p.dirFlagged)
  }

  function Touches(paths: seq<Scanned>): seq<Touch>
    decreases paths
  {
    if paths == [] then [] else Touches(paths[..|paths| - 1]) + PathTouches(paths[|paths| - 1])
  }

  /** The group is needed after the name was last recorded as a package. */
  ghost predicate NeededLast(e: seq<Touch>) {
    exists j :: 0 <= j < |e| && e[j] == Need && forall k | j < k < |e| :: e[k] != AsPackage
  }

  ghost predicate Tracks(s: Found, e: seq<Touch>) {
    && (NON_LAKOSIAN_GROUP in s.names <==> AsPackage in e)
    && (AsPackage in e ==> (NON_LAKOSIAN_GROUP in s.groups <==> NeededLast(e)))
  }

  lemma NeededLastNext(e: seq<Touch>, x: Touch)
    ensures NeededLast(e + [x]) <==> x == Need || (x == AsGroup && NeededLast(e))
  {
    var f := e + [x];
    if x == Need {
      assert f[|e|] == Need;
    } else if NeededLast(f) {
      var j :| 0 <= j < |f| && f[j] == Need && forall k | j < k < |f| :: f[k] != AsPackage;
      assert f[|e|] == x && j < |e| && e[j] == Need;
      assert forall k | j < k < |e| :: e[k] == f[k];
    }
    if x == AsGroup && NeededLast(e) {
      var j :| 0 <= j < |e| && e[j] == Need && forall k | j < k < |e| :: e[k] != AsPackage;
      assert f[j] == Need && forall k | j < k < |f| :: f[k] != AsPackage;
    }
  }

  lemma AddKeepsTracks(s: Found, e: seq<Touch>, dir: Name, inParent: Name, standalone: bool, flagged: bool)
    requires Tracks(s, e)
    ensures Tracks(AddSourcePackage(s, dir, inParent, standalone, flagged),
        e + DirTouches(dir, inParent, standalone, flagged))
  {
    var more := DirTouches(dir, inParent, standalone, flagged);
    if more == [] {
      assert e + more == e;
    } else if |more| == 1 {
      NeededLastNext(e, more[0]);
      assert e + more == e + [more[0]];
    } else {
      NeededLastNext(e, Need);
      NeededLastNext(e + [Need], AsPackage);
      assert e + more == e + [Need] + [AsPackage];
    }
  }

  lemma ScanKeepsTracks(s: Found, e: seq<Touch>, p: Scanned)
    requires Tracks(s, e)
    ensures Tracks(ScanPath(s, p), e + PathTouches(p))
  {
    match p.kind
    case Standalone => AddKeepsTracks(s, e, p.dir, "", true, p.dirFlagged);
    case InGroup =>
      var up := DirTouches(p.upper, "", false, p.upperFlagged);
      AddKeepsTracks(s, e, p.upper, "", false, p.upperFlagged);
      AddKeepsTracks(AddSourcePackage(s, p.upper, "", false, p.upperFlagged), e + up, p.dir, p.upper, false,
          p.dirFlagged);
      assert e + PathTouches(p) == e + up + DirTouches(p.dir, p.upper, false, p.dirFlagged);
    case Other =>
      NeededLastNext(e, Need);
      AddKeepsTracks(s.(groups := s.groups + {NON_LAKOSIAN_GROUP}), e + [Need], p.dir, NON_LAKOSIAN_GROUP, false,
          p.dirFlagged);
      assert e + PathTouches(p) == e + [Need] + DirTouches(p.dir, NON_LAKOSIAN_GROUP, false, p.dirFlagged);
  }

  lemma {:induction false} ScansTrack(paths: seq<Scanned>)
    ensures Tracks(ScanAll(paths), Touches(paths))
    decreases paths
  {
    if paths != [] {
      var n := |paths| - 1;
      ScansTrack(paths[..n]);
      ScanKeepsTracks(ScanAll(paths[..n]), Touches(paths[..n]), paths[n]);
    }
  }

  /** Groups and packages are separate, except exactly when a directory with the
      made-up name was recorded as a package and the group was needed after that. */
  lemma SeparateExactlyWhen(paths: seq<Scanned>)
    ensures ScanAll(paths).groups !! ScanAll(paths).names <==>
            !(AsPackage in Touches(paths) && NeededLast(Touches(paths)))
  {
    ScansSeparate(paths);
    ScansTrack(paths);
  }

  /** Such a directory does put the name on both sides. */
  lemma NonLakosianDirectoryIsBoth()
    ensures var paths := [Scanned("a.cpp", Standalone, NON_LAKOSIAN_GROUP, "", false, false),
                          Scanned("b.cpp", Other, "dir", "", false, false)];
            NON_LAKOSIAN_GROUP in ScanAll(paths).groups * ScanAll(paths).names
  {
    var a := Scanned("a.cpp", Standalone, NON_LAKOSIAN_GROUP, "", false, false);
    var b := Scanned("b.cpp", Other, "dir", "", false, false);
    assert [a, b][..1] == [a] && [a][..0] == [];
    assert ScanAll([a]) == ScanPath(NOTHING, a);
    assert ScanAll([a, b]) == ScanPath(ScanAll([a]), b);
  }

  // ------------------------------------------------------------------
  // The parents that are stored
  // ------------------------------------------------------------------

  /** Whether the name is stored once the groups and the first n packages are added. */
  ghost predicate Stored(s: Found, before: set<Name>, n: nat, name: Name)
    requires n <= |s.packages|
  {
    if n == 0 then name in before || name in s.groups
    else
      var q := s.packages[n - 1];
      || Stored(s, before, n - 1, name) || name == q.name
      || (name == q.parent && name != "" && !Stored(s, before, n - 1, q.name))
  }

  /** The first record of the name has the parent, and comes before any other need of it. */
  ghost predicate FirstWithParent(s: Found, before: set<Name>, n: nat, name: Name, parent: Name)
    requires n <= |s.packages|
  {
    exists i :: 0 <= i < n && s.packages[i] == FoundPackage(parent, name) && parent != "" && parent != name
                && !Stored(s, before, i, name)
  }

  /** No package before it asks for the name as its parent, no group and no stored package
      is called so: then the first record is the one that is stored. */
  lemma {:induction false} FirstRecordIsStored(s: Found, before: set<Name>, n: nat, name: Name)
    requires n <= |s.packages| && name !in before && name !in s.groups && name != ""
    requires forall j | 0 <= j < n :: s.packages[j].name != name && s.packages[j].parent != name
    ensures !Stored(s, before, n, name)
  {
    if n > 0 {
      FirstRecordIsStored(s, before, n - 1, name);
    }
  }

  /** A package group whose directory holds a file of no component becomes a package in the
      made-up group; but it is stored without that parent if a package of its own is found
      before, for then it is added as the parent of that one. */
  lemma EarlierNeedLosesParent()
    ensures var s := ScanAll([Scanned("grpa_a.cpp", InGroup, "grp/grpa", "grp", false, false),
                              Scanned("main.cpp", Other, "grp", "", false, false)]);
            && s.packages == [FoundPackage("grp", "grp/grpa"), FoundPackage(NON_LAKOSIAN_GROUP, "grp")]
            && Stored(s, {}, 1, "grp") && !FirstWithParent(s, {}, 2, "grp", NON_LAKOSIAN_GROUP)
  {
    var a := Scanned("grpa_a.cpp", InGroup, "grp/grpa", "grp", false, false);
    var b := Scanned("main.cpp", Other, "grp", "", false, false);
    assert [a, b][..1] == [a] && [a][..0] == [];
    assert ScanAll([a]) == ScanPath(NOTHING, a);
    var s := ScanAll([a, b]);
    assert s == ScanPath(ScanAll([a]), b);
    assert s.packages == [FoundPackage("grp", "grp/grpa"), FoundPackage(NON_LAKOSIAN_GROUP, "grp")];
    assert s.groups == {NON_LAKOSIAN_GROUP};
    assert !Stored(s, {}, 0, "grp/grpa") && !Stored(s, {}, 0, "grp");
    assert Stored(s, {}, 1, "grp");
  }

  // ------------------------------------------------------------------
  // The scanner
  // ------------------------------------------------------------------

  class PackageScanner {
    var found: Found
    var memDb: map<Name, Option<Name>> // the stored packages and their parents

    constructor (memDb: map<Name, Option<Name>>)
      ensures this.memDb == memDb && found == NOTHING
    {
      this.memDb, found := memDb, NOTHING;
    }

    method Scan(paths: seq<Scanned>)
      requires found == NOTHING
      modifies this
      ensures found == ScanAll(paths) && memDb == old(memDb)
    {
      for i := 0 to |paths|
        invariant found == ScanAll(paths[..i]) && memDb == old(memDb)
      {
        assert paths[..i + 1][..i] == paths[..i];
        ScanOne(paths[i]);
      }
      assert paths[..|paths|] == paths;
    }

    method ScanOne(p: Scanned)
      modifies this
      ensures found == ScanPath(old(found), p) && memDb == old(memDb)
    {
      match p.kind {
        case Standalone =>
          var pkg := AddSource(p.dir, "", true, p.dirFlagged);
          AddSourceFile(p.file, pkg);
        case InGroup =>
          var grp := AddSource(p.upper, "", false, p.upperFlagged);
          var pkg := AddSource(p.dir, grp, false, p.dirFlagged);
          AddSourceFile(p.file, pkg);
        case Other =>
          if NON_LAKOSIAN_GROUP !in found.groups {
            found := found.(groups := found.groups + {NON_LAKOSIAN_GROUP});
          }
          assert found.groups == old(found).groups + {NON_LAKOSIAN_GROUP};
          var pkg := AddSource(p.dir, NON_LAKOSIAN_GROUP, false, p.dirFlagged);
          AddSourceFile(p.file, if pkg != "" then pkg else NON_LAKOSIAN_GROUP);
      }
    }

    method AddSource(dir: Name, inParent: Name, isStandalone: bool, flagged: bool) returns (name: Name)
      modifies this
      ensures found == AddSourcePackage(old(found), dir, inParent, isStandalone, flagged) && memDb == old(memDb)
      ensures name == dir
    {
      if dir == "" {
        return "";
      }
      var parent := inParent;
      if flagged {
        found := found.(groups := found.groups + {NON_LAKOSIAN_GROUP});
        parent := NON_LAKOSIAN_GROUP;
      }
      if !isStandalone && parent == "" {
        if dir !in found.names {
          found := found.(groups := found.groups + {dir});
        }
      } else {
        if dir in found.groups {
          found := found.(groups := found.groups - {dir});
        }
        found := found.(packages := found.packages + [FoundPackage(parent, dir)]);
        found := found.(names := found.names + {dir});
      }
      name := dir;
    }

    method AddSourceFile(file: string, package: Name)
      modifies this
      ensures found == old(found).(files := old(found).files + [(file, package)]) && memDb == old(memDb)
    {
      found := found.(files := found.files + [(file, package)]);
    }

    /** A stored package is left as it is. A missing parent is added first, as a group. */
    method AddPackage(name: Name, parentName: Name) returns (added: seq<Name>)
      modifies this`memDb
      ensures name in memDb && (parentName == "" || name in old(memDb) || parentName in memDb)
      ensures AddsOne(FoundPackage(parentName, name), old(memDb), memDb)
      ensures Extends(old(memDb), memDb) && ListsNew(old(memDb), memDb, added)
      decreases parentName != ""
    {
      if name in memDb {
        return [];
      }
      added := [];
      if parentName != "" && parentName !in memDb {
        added := AddPackage(parentName, "");
      }
      added := added + [name];
      if name !in memDb {
        memDb := memDb[name := if parentName == "" then None else Some(parentName)];
      }
    }

    /** After it, each file found outside the prefix itself has a stored package. A group
        has no parent; a package has the one of its first record, unless a package added
        before asked for it as a parent. */
    method AddToDatabase() returns (added: seq<Name>)
      requires Inv(found)
      modifies this`memDb
      ensures Extends(old(memDb), memDb) && ListsNew(old(memDb), memDb, added)
      ensures forall name :: Recorded(found, name) ==> name in memDb
      ensures forall f | f in found.files && f.1 != "" :: f.1 in memDb
      ensures Placed(found, old(memDb), |found.packages|, memDb)
    {
      added := [];
      var todo := found.groups;
      while todo != {}
        invariant todo <= found.groups && memDb.Keys == old(memDb).Keys + (found.groups - todo)
        invariant forall name | name in memDb && name !in old(memDb) :: memDb[name] == None
        invariant Extends(old(memDb), memDb) && ListsNew(old(memDb), memDb, added)
      {
        var name :| name in todo;
        ghost var before := memDb;
        var more := AddPackage(name, "");
        ListsMore(old(memDb), before, memDb, added, more);
        added := added + more;
        todo := todo - {name};
      }
      GroupsPlaced(found, old(memDb), memDb);
      for i := 0 to |found.packages|
        invariant Extends(old(memDb), memDb) && ListsNew(old(memDb), memDb, added)
        invariant Placed(found, old(memDb), i, memDb)
      {
        ghost var before := memDb;
        var more := AddPackage(found.packages[i].name, found.packages[i].parent);
        ListsMore(old(memDb), before, memDb, added, more);
        PlacedNext(found, old(memDb), i, before, memDb);
        added := added + more;
      }
      RecordedIsStored(found, old(memDb).Keys);
    }
  }

  ghost predicate Placed(s: Found, start: map<Name, Option<Name>>, n: nat, memDb: map<Name, Option<Name>>)
    requires n <= |s.packages|
  {
    && (forall name :: name in memDb <==> Stored(s, start.Keys, n, name))
    && (forall name, parent | name in memDb && name !in start ::
          memDb[name] == Some(parent) <==> FirstWithParent(s, start.Keys, n, name, parent))
  }

  lemma GroupsPlaced(s: Found, start: map<Name, Option<Name>>, memDb: map<Name, Option<Name>>)
    requires Extends(start, memDb) && memDb.Keys == start.Keys + s.groups
    requires forall name | name in memDb && name !in start :: memDb[name] == None
    ensures Placed(s, start, 0, memDb)
  {
  }

  lemma {:induction false} StoredStays(s: Found, before: set<Name>, m: nat, n: nat, name: Name)
    requires m <= n <= |s.packages| && Stored(s, before, m, name)
    ensures Stored(s, before, n, name)
  {
    if m < n { StoredStays(s, before, m, n - 1, name); }
  }

  lemma RecordedIsStored(s: Found, before: set<Name>)
    requires Inv(s)
    ensures forall name | Recorded(s, name) :: Stored(s, before, |s.packages|, name)
  {
    forall name | Recorded(s, name) ensures Stored(s, before, |s.packages|, name) {
      if name in s.groups {
        StoredStays(s, before, 0, |s.packages|, name);
      } else {
        var i :| 0 <= i < |s.packages| && s.packages[i].name == name;
        StoredStays(s, before, i + 1, |s.packages|, name);
      }
    }
  }

  /** What adding one package does: the parent, if it is missing too, gets none itself. */
  predicate AddsOne(q: FoundPackage, before: map<Name, Option<Name>>, after: map<Name, Option<Name>>) {
    var needed := if q.name in before || q.parent == "" then {} else {q.parent};
    && after.Keys == before.Keys + {q.name} + needed
    && (q.name !in before ==>
          && after[q.name] == (if q.parent == "" || q.parent == q.name then None else Some(q.parent))
          && (q.parent != "" && q.parent !in before ==> after[q.parent] == None))
  }

  lemma PlacedNext(s: Found, start: map<Name, Option<Name>>, n: nat, memDb: map<Name, Option<Name>>,
                   after: map<Name, Option<Name>>)
    requires n < |s.packages| && Placed(s, start, n, memDb) && Extends(memDb, after)
    requires AddsOne(s.packages[n], memDb, after)
    ensures Placed(s, start, n + 1, after)
  {
    var q := s.packages[n];
    forall name, parent | name in after && name !in start
      ensures after[name] == Some(parent) <==> FirstWithParent(s, start.Keys, n + 1, name, parent)
    {
      FirstWithParentNext(s, start.Keys, n, name, parent);
      if name !in memDb {
        NeverBefore(s, start.Keys, n, name, parent);
      }
    }
  }

  lemma FirstWithParentNext(s: Found, before: set<Name>, n: nat, name: Name, parent: Name)
    requires n < |s.packages|
    ensures FirstWithParent(s, before, n + 1, name, parent) <==>
            || FirstWithParent(s, before, n, name, parent)
            || (s.packages[n] == FoundPackage(parent, name) && parent != "" && parent != name
                && !Stored(s, before, n, name))
  {
  }

  lemma {:induction false} NeverBefore(s: Found, before: set<Name>, n: nat, name: Name, parent: Name)
    requires n <= |s.packages| && !Stored(s, before, n, name)
    ensures !FirstWithParent(s, before, n, name, parent)
  {
    if n > 0 {
      NeverBefore(s, before, n - 1, name, parent);
      FirstWithParentNext(s, before, n - 1, name, parent);
    }
  }

  /** Stored packages stay, with the parents they have. */
  ghost predicate Extends(before: map<Name, Option<Name>>, after: map<Name, Option<Name>>) {
    forall name | name in before :: name in after && after[name] == before[name]
  }

  /** The new packages; one that is recorded as its own parent is listed twice. */
  ghost predicate ListsNew(before: map<Name, Option<Name>>, after: map<Name, Option<Name>>, added: seq<Name>) {
    forall name :: name in added <==> name in after && name !in before
  }

  lemma ListsMore(start: map<Name, Option<Name>>, before: map<Name, Option<Name>>, after: map<Name, Option<Name>>,
                  added: seq<Name>, more: seq<Name>)
    requires Extends(start, before) && ListsNew(start, before, added)
    requires Extends(before, after) && ListsNew(before, after, more)
    ensures Extends(start, after) && ListsNew(start, after, added + more)
  {
  }
}
