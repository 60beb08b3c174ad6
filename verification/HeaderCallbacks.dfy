/** lvtclp/ct_lvtclp_headercallbacks.cpp: while files are preprocessed, component and
    package dependencies are kept as projections of the include relation. */
module HeaderCallbackGraphs {
  import opened Options
  import opened Digraph
  import opened PathAlgebra
  import opened CompilationDatabases

  type FileName = Path // a normalised path; no names, no file
  type Component = string
  type Package = string

  /** Files read from an old database may lack a component or a package. */
  datatype FileObject = FileObject(component: Option<Component>, package: Option<Package>)
  type Files = map<FileName, FileObject>
  type Parents = map<Package, Option<Package>>

  // ------------------------------------------------------------------
  // Where a file goes
  // ------------------------------------------------------------------

  /** What is known of a directory that is not a stored package itself: it is a
      standalone package, or it belongs to a top-level one (a package group, the group of
      non-lakosian code, or a mapped third-party name), or a packing rule took it. */
  datatype Rule =
    | Standalone
    | TopLevel(group: Package)
    | Packed(package: Package, parent: Option<Package>)

  function Text(p: Path): string {
    if p.absolute then Render(p.names) else if p.names == [] then "" else Segments(p.names)[1..]
  }

  function Directory(name: FileName): Path {
    Path(name.absolute, Parent(name.names))
  }

  function LastName(p: Path): string {
    if p.names == [] then "" else p.names[|p.names| - 1]
  }

  predicate Contains(text: string, part: string) {
    part <= text || (text != "" && Contains(text[1..], part))
  }

  function RulePackage(rule: Rule, dirName: string): Package {
    match rule
    case Standalone => "standalones/" + dirName
    case TopLevel(group) => group + "/" + dirName
    case Packed(package, _) => package
  }

  function RuleGroup(rule: Rule): Option<Package> {
    match rule
    case Standalone => None
    case TopLevel(group) => if group == "" then None else Some(group)
    case Packed(_, parent) => parent
  }

  /** `getPackageForPath`: the directory, if it is a stored package. */
  function PackageFor(parents: Parents, name: FileName, rule: Rule): Package {
    var dir := Directory(name);
    if Text(dir) in parents then Text(dir) else RulePackage(rule, LastName(dir))
  }

  /** The name `ComponentUtil::addComponent` gives to the file's component. */
  function ComponentFor(package: Package, name: FileName): Component {
    var stem := Stem(LastName(name));
    if Contains(package, "standalone/") || Contains(package, "groups/") then package + "/" + stem
    else Text(Path(name.absolute, Parent(name.names) + [stem]))
  }

  function NewFile(parents: Parents, name: FileName, rule: Rule): FileObject {
    var package := PackageFor(parents, name, rule);
    FileObject(Some(ComponentFor(package, name)), Some(package))
  }

  // ------------------------------------------------------------------
  // The projections
  // ------------------------------------------------------------------

  function Edge<T(==)>(source: Option<T>, target: Option<T>): set<(T, T)> {
    if source.Some? && target.Some? && source != target then {(source.value, target.value)} else {}
  }

  function ComponentEdge(files: Files, a: FileName, b: FileName): set<(Component, Component)> {
    if a in files && b in files then Edge(files[a].component, files[b].component) else {}
  }

  function ParentOf(parents: Parents, p: Package): Option<Package> {
    if p in parents then parents[p] else None
  }

  /** A dependency between a standalone package and one in a group is also registered
      for the group. */
  function Lifted(parents: Parents, p: Package, q: Package): set<(Package, Package)> {
    var source, target := ParentOf(parents, p), ParentOf(parents, q);
    (if source.None? then Edge(Some(p), target) else {}) + (if target.None? then Edge(source, Some(q)) else {})
  }

  function PackageEdge(files: Files, parents: Parents, a: FileName, b: FileName): set<(Package, Package)> {
    if a in files && b in files then
      var p, q := files[a].package, files[b].package;
      if p.Some? && q.Some? && p != q then {(p.value, q.value)} + Lifted(parents, p.value, q.value) else {}
    else {}
  }

  ghost function ComponentEdges(files: Files, includes: set<(FileName, FileName)>): set<(Component, Component)> {
    set i, e | i in includes && e in ComponentEdge(files, i.0, i.1) :: e
  }

  ghost function PackageEdges(files: Files, parents: Parents, includes: set<(FileName, FileName)>)
    : set<(Package, Package)>
  {
    set i, e | i in includes && e in PackageEdge(files, parents, i.0, i.1) :: e
  }

  /** All names a file or a package refers to are stored. */
  ghost predicate Placed(files: Files, parents: Parents, includes: set<(FileName, FileName)>) {
    && (forall i | i in includes :: i.0 in files && i.1 in files && i.0 != i.1)
    && (forall f | f in files && files[f].package.Some? :: files[f].package.value in parents)
  }

  /** A parent is stored, and no two packages are each other's parent. */
  ghost predicate WellParented(parents: Parents) {
    forall p | p in parents && parents[p].Some? ::
      var q := parents[p].value;
      q in parents && q != p && parents[q] != Some(p)
  }

  /** Adding a file and its package changes no existing projection. */
  lemma EdgesStable(files: Files, parents: Parents, includes: set<(FileName, FileName)>, files': Files,
      parents': Parents)
    requires Placed(files, parents, includes)
    requires forall f | f in files :: f in files' && files'[f] == files[f]
    requires forall p | p in parents :: p in parents' && parents'[p] == parents[p]
    ensures ComponentEdges(files', includes) == ComponentEdges(files, includes)
    ensures PackageEdges(files', parents', includes) == PackageEdges(files, parents, includes)
  {
    forall i | i in includes
      ensures ComponentEdge(files', i.0, i.1) == ComponentEdge(files, i.0, i.1)
      ensures PackageEdge(files', parents', i.0, i.1) == PackageEdge(files, parents, i.0, i.1)
    {
    }
  }

  lemma EdgesAdd(files: Files, parents: Parents, includes: set<(FileName, FileName)>, a: FileName, b: FileName)
    ensures ComponentEdges(files, includes + {(a, b)}) == ComponentEdges(files, includes) + ComponentEdge(files, a, b)
    ensures PackageEdges(files, parents, includes + {(a, b)})
            == PackageEdges(files, parents, includes) + PackageEdge(files, parents, a, b)
  {
  }

  // ------------------------------------------------------------------
  // What writing a file must do
  // ------------------------------------------------------------------

  /** Two paths of the same text are the same path. */
  lemma TextInjective(p: Path, q: Path)
    requires Canonical(p.names) && Canonical(q.names) && Text(p) == Text(q)
    ensures p == q
  {
    if p.absolute && q.absolute {
      RenderInjective(p.names, q.names);
    } else if p.absolute != q.absolute {
      RelativeText(if p.absolute then q else p);
    } else if p.names == [] || q.names == [] {
      if p.names != [] { RelativeText(p); }
      if q.names != [] { RelativeText(q); }
    } else {
      assert Segments(p.names) == [SEPARATOR] + Text(p) && Segments(q.names) == [SEPARATOR] + Text(q);
      RenderInjective(p.names, q.names);
    }
  }

  lemma RelativeText(p: Path)
    requires Canonical(p.names) && !p.absolute
    ensures p.names == [] <==> Text(p) == ""
    ensures p.names != [] ==> Text(p)[0] != SEPARATOR
  {
    if p.names != [] {
      assert ValidName(p.names[0]) && p.names[0][0] in p.names[0];
    }
  }

  ghost predicate Holds(text: string, part: string) {
    exists k | 0 <= k <= |text| :: part <= text[k..]
  }

  lemma {:induction false} ContainsHolds(text: string, part: string)
    ensures Contains(text, part) <==> Holds(text, part)
    decreases |text|
  {
    assert text[0..] == text;
    if text != "" {
      ContainsHolds(text[1..], part);
      forall k | 0 < k <= |text| ensures text[k..] == text[1..][k - 1..] {}
      if Holds(text[1..], part) {
        var k :| 0 <= k <= |text[1..]| && part <= text[1..][k..];
        assert part <= text[k + 1..];
      }
    }
  }

  /** A package inside one of the marked directories names its components itself. */
  ghost predicate NamedComponent(package: Package, name: FileName, component: Component) {
    var stem := Stem(LastName(name));
    if Holds(package, "standalone/") || Holds(package, "groups/") then component == package + "/" + stem
    else component == Text(Path(name.absolute, Parent(name.names) + [stem]))
  }

  /** The package and its group are added, if there is one; each that is new gets its
      parent, and nothing else changes. */
  ghost predicate AddsPackage(parents: Parents, group: Option<Package>, package: Package, parents': Parents) {
    && (forall p :: p in parents' <==> p in parents || p == package || group == Some(p))
    && (forall p | p in parents :: parents'[p] == parents[p])
    && (group.Some? && group.value !in parents ==> parents'[group.value] == None)
    && (package !in parents && group != Some(package) ==> parents'[package] == group)
  }

  /** A directory that is a stored package is the file's package, and no package is added.
      If not, the rule says which package and which group it is. */
  ghost predicate AddsFor(parents: Parents, dir: Path, rule: Rule, package: Package, parents': Parents) {
    if Text(dir) in parents then package == Text(dir) && parents' == parents
    else
      match rule
      case Standalone => package == "standalones/" + LastName(dir) && AddsPackage(parents, None, package, parents')
      case TopLevel(group) =>
        && package == group + "/" + LastName(dir)
        && AddsPackage(parents, if group == "" then None else Some(group), package, parents')
      case Packed(packed, parent) => package == packed && AddsPackage(parents, parent, package, parents')
  }

  /** A new file gets its package and its component; a known one is left alone. */
  ghost predicate Written(files: Files, parents: Parents, name: FileName, rule: Rule, files': Files,
                          parents': Parents)
  {
    if name.names == [] || name in files then files' == files && parents' == parents
    else
      && name in files' && files' == files[name := files'[name]]
      && files'[name].package.Some? && files'[name].component.Some?
      && NamedComponent(files'[name].package.value, name, files'[name].component.value)
      && AddsFor(parents, Directory(name), rule, files'[name].package.value, parents')
  }

  lemma PlacementIsRight(parents: Parents, name: FileName, rule: Rule)
    ensures NamedComponent(PackageFor(parents, name, rule), name, ComponentFor(PackageFor(parents, name, rule), name))
  {
    ContainsHolds(PackageFor(parents, name, rule), "standalone/");
    ContainsHolds(PackageFor(parents, name, rule), "groups/");
  }

  lemma WrittenKeeps(files: Files, parents: Parents, name: FileName, rule: Rule, files': Files, parents': Parents)
    requires Written(files, parents, name, rule, files', parents')
    ensures forall f | f in files :: f in files' && files'[f] == files[f]
    ensures forall p | p in parents :: p in parents' && parents'[p] == parents[p]
  {
  }

  /** So from an empty store: a file of a standalone package, and one of a package in a
      group, whichever includes the other, give an edge between the first package and the
      group, besides the one between the packages. */
  lemma StandaloneAndGroup(a: FileName, b: FileName, group: Package, files1: Files, parents1: Parents,
                           files2: Files, parents2: Parents)
    requires a != b && a.names != [] && b.names != [] && group != ""
    requires Written(map[], map[], a, Standalone, files1, parents1)
    requires Written(files1, parents1, b, TopLevel(group), files2, parents2)
    requires Text(Directory(b)) !in parents1
    requires files2[b].package != files2[a].package && files2[a].package != Some(group)
    ensures files2[a].package == Some("standalones/" + LastName(Directory(a)))
    ensures var p, q := files2[a].package.value, files2[b].package.value;
            && PackageEdges(files2, parents2, {(a, b)}) == {(p, q), (p, group)}
            && PackageEdges(files2, parents2, {(b, a)}) == {(q, p), (group, p)}
  {
    WrittenKeeps(files1, parents1, b, TopLevel(group), files2, parents2);
    var p, q := files2[a].package.value, files2[b].package.value;
    assert |q| == |group| + 1 + |LastName(Directory(b))|;
    assert parents2[p] == None && parents2[q] == Some(group);
    var i, j := (a, b), (b, a);
    assert PackageEdge(files2, parents2, i.0, i.1) == {(p, q), (p, group)};
    assert PackageEdge(files2, parents2, j.0, j.1) == {(q, p), (group, p)};
    assert {} + {i} == {i} && {} + {j} == {j};
    EdgesAdd(files2, parents2, {}, a, b);
    EdgesAdd(files2, parents2, {}, b, a);
  }

  // ------------------------------------------------------------------
  // The store and the callbacks
  // ------------------------------------------------------------------

  class PhysicalStore {
    var files: Files
    var parents: Parents
    var includes: set<(FileName, FileName)>
    var componentDeps: set<(Component, Component)>
    var packageDeps: set<(Package, Package)>

    ghost predicate Valid()
      reads this
    {
      && Placed(files, parents, includes) && WellParented(parents)
      && componentDeps == ComponentEdges(files, includes)
      && packageDeps == PackageEdges(files, parents, includes)
    }

    constructor ()
      ensures Valid() && files == map[] && includes == {}
    {
      files, parents, includes, componentDeps, packageDeps := map[], map[], {}, {}, {};
    }

    /** `getOrAddPackage`: an existing package keeps its parent. */
    method GetOrAddPackage(package: Package, parent: Option<Package>)
      requires WellParented(parents) && (parent.Some? ==> parent.value in parents)
      modifies this`parents
      ensures parents == if package in old(parents) then old(parents) else old(parents)[package := parent]
      ensures WellParented(parents)
    {
      if package !in parents {
        parents := parents[package := parent];
      }
    }

    /** `ClpUtil::writeSourceFile`: a known file is left as it is; no name, no file. */
    method WriteSourceFile(name: FileName, rule: Rule) returns (file: Option<FileName>)
      requires Valid()
      modifies this`files, this`parents
      ensures Valid() && file == if name.names == [] then None else Some(name)
      ensures Written(old(files), old(parents), name, rule, files, parents)
    {
      if name.names == [] {
        return None;
      }
      if name in files {
        return Some(name);
      }
      var package := PackageFor(parents, name, rule);
      if Text(Directory(name)) !in parents {
        var group := RuleGroup(rule);
        if group.Some? {
          GetOrAddPackage(group.value, None);
        }
        GetOrAddPackage(package, group);
      }
      files := files[name := FileObject(Some(ComponentFor(package, name)), Some(package))];
      PlacementIsRight(old(parents), name, rule);
      EdgesStable(old(files), old(parents), includes, files, parents);
      file := Some(name);
    }

    /** `addPeerRelationship` ignores an object's relation to itself. */
    method AddComponentDependency(source: Component, target: Component)
      modifies this`componentDeps
      ensures componentDeps == old(componentDeps) + Edge(Some(source), Some(target))
    {
      if source != target {
        componentDeps := componentDeps + {(source, target)};
      }
    }

    method AddPackageDependency(source: Package, target: Package)
      modifies this`packageDeps
      ensures packageDeps == old(packageDeps) + Edge(Some(source), Some(target))
    {
      if source != target {
        packageDeps := packageDeps + {(source, target)};
      }
    }

    method AddPackageDependencies(source: Package, target: Package)
      requires source != target && source in parents && target in parents
      modifies this`packageDeps
      ensures packageDeps == old(packageDeps) + {(source, target)} + Lifted(parents, source, target)
    {
      AddPackageDependency(source, target);
      var sourceParent, targetParent := parents[source], parents[target];
      if sourceParent.None? {
        if targetParent.Some? {
          AddPackageDependency(source, targetParent.value);
        }
      }
      if targetParent.None? {
        if sourceParent.Some? {
          AddPackageDependency(sourceParent.value, target);
        }
      }
    }

    method AddInclude(source: FileName, target: FileName)
      requires Valid() && source in files && target in files && source != target
      modifies this`includes, this`componentDeps, this`packageDeps
      ensures Valid() && includes == old(includes) + {(source, target)}
    {
      includes := includes + {(source, target)};
      var sourceComp, targetComp := files[source].component, files[target].component;
      if sourceComp.Some? && targetComp.Some? && sourceComp != targetComp {
        AddComponentDependency(sourceComp.value, targetComp.value);
      }
      var sourcePkg, targetPkg := files[source].package, files[target].package;
      if sourcePkg.Some? && targetPkg.Some? && sourcePkg != targetPkg {
        AddPackageDependencies(sourcePkg.value, targetPkg.value);
      }
      EdgesAdd(files, parents, old(includes), source, target);
    }
  }

  /** One per translation unit; they may share a store. */
  class HeaderCallbacks {
    const memDb: PhysicalStore
    var sourceFile: Option<FileName>

    ghost predicate Valid()
      reads this, memDb
    {
      memDb.Valid() && (sourceFile.Some? ==> sourceFile.value in memDb.files)
    }

    constructor (memDb: PhysicalStore)
      requires memDb.Valid()
      ensures Valid() && this.memDb == memDb && sourceFile == None
    {
      this.memDb := memDb;
      sourceFile := None;
    }

    method FileChanged(realPath: FileName, ignored: bool, rule: Rule)
      requires Valid()
      modifies this, memDb
      ensures Valid() && memDb.includes == old(memDb.includes)
      ensures sourceFile == if ignored || realPath.names == [] then None else Some(realPath)
      ensures if ignored then memDb.files == old(memDb.files) && memDb.parents == old(memDb.parents)
              else Written(old(memDb.files), old(memDb.parents), realPath, rule, memDb.files, memDb.parents)
    {
      if ignored {
        sourceFile := None;
        return;
      }
      sourceFile := memDb.WriteSourceFile(realPath, rule);
    }

    /** The include is recorded between the file being processed and the one found, if
        there is one of each, they differ, and the latter is not ignored. */
    method InclusionDirective(file: Option<FileName>, ignored: bool, rule: Rule)
      requires Valid() && (file.Some? ==> file.value.names != [])
      modifies memDb
      ensures Valid()
      ensures memDb.includes == old(memDb.includes) +
                if file.Some? && !ignored then Edge(sourceFile, file) else {}
      ensures if file.Some? && sourceFile.Some? && !ignored
              then Written(old(memDb.files), old(memDb.parents), file.value, rule, memDb.files, memDb.parents)
              else memDb.files == old(memDb.files) && memDb.parents == old(memDb.parents)
    {
      if file.None? || sourceFile.None? {
        return;
      }
      if ignored {
        return;
      }
      var filePtr := memDb.WriteSourceFile(file.value, rule);
      if filePtr == sourceFile {
        return;
      }
      memDb.AddInclude(sourceFile.value, filePtr.value);
    }
  }

  // ------------------------------------------------------------------
  // What the projections are good for
  // ------------------------------------------------------------------

  ghost function GraphOf<T(!new)>(edges: set<(T, T)>): Graph<T> {
    map x | x in Sources(edges) :: Targets(edges, x)
  }

  ghost function Sources<T(!new)>(edges: set<(T, T)>): set<T> {
    set e | e in edges :: e.0
  }

  ghost function Targets<T(!new)>(edges: set<(T, T)>, x: T): set<T> {
    set e | e in edges && e.0 == x :: e.1
  }

  lemma GraphEdge<T(!new)>(edges: set<(T, T)>, x: T, y: T)
    ensures y in Image(GraphOf(edges), x) <==> (x, y) in edges
  {
    if (x, y) in edges {
      assert (x, y).0 == x && (x, y).1 == y;
    }
  }

  /** Component dependencies are the includes between files of different components. */
  lemma ComponentEdgesExactly(files: Files, includes: set<(FileName, FileName)>, c: Component, d: Component)
    ensures (c, d) in ComponentEdges(files, includes) <==>
            c != d && exists a, b :: (a, b) in includes && a in files && b in files
                                     && files[a].component == Some(c) && files[b].component == Some(d)
  {
    if a, b :| (a, b) in includes && a in files && b in files
               && files[a].component == Some(c) && files[b].component == Some(d) && c != d {
      assert (c, d) in ComponentEdge(files, (a, b).0, (a, b).1);
    }
  }

  /** p depends on q directly, or one of them is a standalone package and the other the
      group of a package that it depends on or that depends on it. */
  ghost predicate PackageLink(parents: Parents, from: Package, to: Package, p: Package, q: Package) {
    || (p == from && q == to)
    || (p == from && ParentOf(parents, from) == None && ParentOf(parents, to) == Some(q))
    || (q == to && ParentOf(parents, to) == None && ParentOf(parents, from) == Some(p))
  }

  /** Package dependencies are the includes between files of different packages, and
      those that link standalone packages with groups; none links one with itself. */
  lemma PackageEdgesExactly(files: Files, parents: Parents, includes: set<(FileName, FileName)>, p: Package, q: Package)
    ensures (p, q) in PackageEdges(files, parents, includes) <==>
            p != q && exists a, b :: (a, b) in includes && IncludeLinks(files, parents, a, b, p, q)
  {
    forall a, b ensures (p, q) in PackageEdge(files, parents, a, b) <==>
        p != q && IncludeLinks(files, parents, a, b, p, q) {}
    if (p, q) in PackageEdges(files, parents, includes) {
      var i :| i in includes && (p, q) in PackageEdge(files, parents, i.0, i.1);
      assert (i.0, i.1) in includes;
    }
    if a, b :| (a, b) in includes && IncludeLinks(files, parents, a, b, p, q) && p != q {
      assert (p, q) in PackageEdge(files, parents, (a, b).0, (a, b).1);
    }
  }

  ghost predicate IncludeLinks(files: Files, parents: Parents, a: FileName, b: FileName, p: Package, q: Package) {
    && a in files && b in files && files[a].package.Some? && files[b].package.Some?
    && files[a].package != files[b].package
    && PackageLink(parents, files[a].package.value, files[b].package.value, p, q)
  }

  /** Every file has a component and a package: so do all files written here. */
  ghost predicate Complete(files: Files) {
    forall f | f in files :: files[f].component.Some? && files[f].package.Some?
  }

  /** A transitive include runs along component dependencies, and along package
      dependencies, pausing where both files are in the same one. */
  lemma {:induction false} IncludesProject(files: Files, parents: Parents, includes: set<(FileName, FileName)>,
      p: seq<FileName>)
    requires Placed(files, parents, includes) && Complete(files)
    requires IsWalk(GraphOf(includes), p) && p[0] in files
    ensures p[|p| - 1] in files
    ensures Reaches(GraphOf(ComponentEdges(files, includes)), files[p[0]].component.value,
                    files[p[|p| - 1]].component.value)
    ensures Reaches(GraphOf(PackageEdges(files, parents, includes)), files[p[0]].package.value,
                    files[p[|p| - 1]].package.value)
    decreases |p|
  {
    var cg, pg := GraphOf(ComponentEdges(files, includes)), GraphOf(PackageEdges(files, parents, includes));
    var a := p[0];
    ReachesSelf(cg, files[a].component.value);
    ReachesSelf(pg, files[a].package.value);
    if |p| > 1 {
      var b, z := p[1], p[|p| - 1];
      GraphEdge(includes, a, b);
      IncludesProject(files, parents, includes, p[1..]);
      IncludeStep(files, parents, includes, a, b);
      ReachesTrans(cg, files[a].component.value, files[b].component.value, files[z].component.value);
      ReachesTrans(pg, files[a].package.value, files[b].package.value, files[z].package.value);
    }
  }

  lemma IncludeStep(files: Files, parents: Parents, includes: set<(FileName, FileName)>, a: FileName, b: FileName)
    requires Placed(files, parents, includes) && Complete(files) && (a, b) in includes
    ensures Reaches(GraphOf(ComponentEdges(files, includes)), files[a].component.value, files[b].component.value)
    ensures Reaches(GraphOf(PackageEdges(files, parents, includes)), files[a].package.value, files[b].package.value)
  {
    var ce, pe := ComponentEdges(files, includes), PackageEdges(files, parents, includes);
    var c, d := files[a].component.value, files[b].component.value;
    var p, q := files[a].package.value, files[b].package.value;
    ReachesSelf(GraphOf(ce), c);
    ReachesSelf(GraphOf(pe), p);
    if c != d {
      assert (c, d) in ComponentEdge(files, (a, b).0, (a, b).1);
      GraphEdge(ce, c, d);
      ReachesStep(GraphOf(ce), c, d);
    }
    if p != q {
      assert (p, q) in PackageEdge(files, parents, (a, b).0, (a, b).1);
      GraphEdge(pe, p, q);
      ReachesStep(GraphOf(pe), p, q);
    }
  }

  /** All files of a component are in the same package. */
  ghost predicate Consistent(files: Files) {
    forall f, g | f in files && g in files && files[f].component == files[g].component ::
      files[f].package == files[g].package
  }

  /** Then dependencies between components become dependencies between the packages
      of any of their files. */
  lemma {:induction false} ComponentWalkProjects(files: Files, parents: Parents, includes: set<(FileName, FileName)>,
                                                 p: seq<Component>, f: FileName, g: FileName)
    requires Placed(files, parents, includes) && Complete(files) && Consistent(files)
    requires IsWalk(GraphOf(ComponentEdges(files, includes)), p)
    requires f in files && files[f].component == Some(p[0])
    requires g in files && files[g].component == Some(p[|p| - 1])
    ensures Reaches(GraphOf(PackageEdges(files, parents, includes)), files[f].package.value, files[g].package.value)
    decreases |p|
  {
    var pg := GraphOf(PackageEdges(files, parents, includes));
    ReachesSelf(pg, files[f].package.value);
    if |p| > 1 {
      GraphEdge(ComponentEdges(files, includes), p[0], p[1]);
      var i :| i in includes && (p[0], p[1]) in ComponentEdge(files, i.0, i.1);
      IncludeStep(files, parents, includes, i.0, i.1);
      ComponentWalkProjects(files, parents, includes, p[1..], i.1, g);
      ReachesTrans(pg, files[i.0].package.value, files[i.1].package.value, files[g].package.value);
    }
  }

  /** Components of two packages that depend on each other force the packages to
      depend on each other. */
  lemma CyclesProject(files: Files, parents: Parents, includes: set<(FileName, FileName)>, f: FileName, g: FileName)
    requires Placed(files, parents, includes) && Complete(files) && Consistent(files)
    requires f in files && g in files && files[f].package != files[g].package
    requires Reaches(GraphOf(ComponentEdges(files, includes)), files[f].component.value, files[g].component.value)
    requires Reaches(GraphOf(ComponentEdges(files, includes)), files[g].component.value, files[f].component.value)
    ensures OnCycle(GraphOf(PackageEdges(files, parents, includes)), files[f].package.value)
    ensures Reaches(GraphOf(PackageEdges(files, parents, includes)), files[f].package.value, files[g].package.value)
  {
    var cg, pg := GraphOf(ComponentEdges(files, includes)), GraphOf(PackageEdges(files, parents, includes));
    var c, d := files[f].component.value, files[g].component.value;
    var x, y := files[f].package.value, files[g].package.value;
    var p :| WalkFromTo(cg, p, c, d);
    ComponentWalkProjects(files, parents, includes, p, f, g);
    var q :| WalkFromTo(cg, q, d, c);
    ComponentWalkProjects(files, parents, includes, q, g, f);
    var z := ReachesFirst(pg, x, y);
    ReachesTrans(pg, z, y, x);
  }

  /** f and g belong to different components, and that of f depends on that of g. */
  ghost predicate DependsOn(files: Files, includes: set<(FileName, FileName)>, f: FileName, g: FileName)
    requires Complete(files) && f in files && g in files
  {
    && files[f].component != files[g].component
    && Reaches(GraphOf(ComponentEdges(files, includes)), files[f].component.value, files[g].component.value)
  }

  /** Dependencies between components are dependencies between their files' packages. */
  ghost predicate DependenciesCarryOver(files: Files, parents: Parents, includes: set<(FileName, FileName)>)
    requires Complete(files)
  {
    forall f, g | f in files && g in files && DependsOn(files, includes, f, g) ::
      Reaches(GraphOf(PackageEdges(files, parents, includes)), files[f].package.value, files[g].package.value)
  }

  /** Components that depend on each other and have files in different packages put
      those packages on package cycles. */
  ghost predicate CyclesCarryOver(files: Files, parents: Parents, includes: set<(FileName, FileName)>)
    requires Complete(files)
  {
    forall f, g | f in files && g in files && files[f].package != files[g].package
                  && DependsOn(files, includes, f, g) && DependsOn(files, includes, g, f) ::
      OnCycle(GraphOf(PackageEdges(files, parents, includes)), files[f].package.value)
  }

  ghost predicate OneComponent(files: Files) {
    forall f, g | f in files && g in files :: files[f].component == files[g].component
  }

  lemma UnsplitCarriesOver(files: Files, parents: Parents, includes: set<(FileName, FileName)>)
    requires Placed(files, parents, includes) && Complete(files) && (Consistent(files) || OneComponent(files))
    ensures DependenciesCarryOver(files, parents, includes) && CyclesCarryOver(files, parents, includes)
  {
    forall f, g | f in files && g in files && DependsOn(files, includes, f, g)
      ensures Reaches(GraphOf(PackageEdges(files, parents, includes)), files[f].package.value, files[g].package.value)
    {
      var p :| WalkFromTo(GraphOf(ComponentEdges(files, includes)), p, files[f].component.value,
          files[g].component.value);
      ComponentWalkProjects(files, parents, includes, p, f, g);
    }
    forall f, g | f in files && g in files && files[f].package != files[g].package
                  && DependsOn(files, includes, f, g) && DependsOn(files, includes, g, f)
      ensures OnCycle(GraphOf(PackageEdges(files, parents, includes)), files[f].package.value)
    {
      CyclesProject(files, parents, includes, f, g);
    }
  }

  /** b depends on h both ways through a file a of its component, while no include
      leads out of b's package. */
  ghost predicate Breaks(files: Files, parents: Parents, includes: set<(FileName, FileName)>, b: FileName, h: FileName)
    requires Complete(files) && b in files && h in files
  {
    var pg, p := GraphOf(PackageEdges(files, parents, includes)), files[b].package.value;
    && files[b].package != files[h].package
    && DependsOn(files, includes, b, h) && DependsOn(files, includes, h, b)
    && !OnCycle(pg, p) && !Reaches(pg, p, files[h].package.value)
  }

  /** Neither is b's package the group of one of the packages of a and h, while the
      other one is a standalone package. */
  ghost predicate NoLift(files: Files, parents: Parents, a: FileName, b: FileName, h: FileName)
    requires Complete(files) && a in files && b in files && h in files
  {
    var p, q, r := files[a].package.value, files[b].package.value, files[h].package.value;
    && !(ParentOf(parents, p) == Some(q) && ParentOf(parents, r) == None)
    && !(ParentOf(parents, r) == Some(q) && ParentOf(parents, p) == None)
  }

  lemma BothWays(files: Files, includes: set<(FileName, FileName)>, a: FileName, b: FileName, h: FileName)
    requires Complete(files) && a in files && b in files && h in files && includes == {(a, h), (h, a)}
    requires files[a].component == files[b].component != files[h].component
    ensures DependsOn(files, includes, b, h) && DependsOn(files, includes, h, b)
  {
    var c, d := files[a].component.value, files[h].component.value;
    ComponentEdgesExactly(files, includes, c, d);
    ComponentEdgesExactly(files, includes, d, c);
    GraphEdge(ComponentEdges(files, includes), c, d);
    GraphEdge(ComponentEdges(files, includes), d, c);
    ReachesStep(GraphOf(ComponentEdges(files, includes)), c, d);
    ReachesStep(GraphOf(ComponentEdges(files, includes)), d, c);
  }

  lemma BreaksWithout(files: Files, parents: Parents, a: FileName, b: FileName, h: FileName)
    requires Complete(files) && a in files && b in files && h in files
    requires files[a].component == files[b].component != files[h].component
    requires files[a].package != files[b].package && files[b].package != files[h].package
    requires NoLift(files, parents, a, b, h)
    ensures Breaks(files, parents, {(a, h), (h, a)}, b, h)
  {
    var includes := {(a, h), (h, a)};
    BothWays(files, includes, a, b, h);
    var pg, p := GraphOf(PackageEdges(files, parents, includes)), files[b].package.value;
    forall q ensures q !in Image(pg, p) {
      GraphEdge(PackageEdges(files, parents, includes), p, q);
      PackageEdgesExactly(files, parents, includes, p, q);
    }
    assert Closed(pg, {p});
    if Reaches(pg, p, files[h].package.value) {
      ClosedHoldsReach(pg, {p}, p, files[h].package.value);
    }
  }

  /** Wherever a component is split, some includes break the correspondence. */
  lemma SplitBreaks(files: Files, parents: Parents)
    returns (includes: set<(FileName, FileName)>, b: FileName, h: FileName)
    requires Complete(files) && WellParented(parents) && Placed(files, parents, {})
    requires !Consistent(files) && !OneComponent(files)
    ensures b in files && h in files && Placed(files, parents, includes) && Breaks(files, parents, includes, b, h)
  {
    var f, g :| f in files && g in files && files[f].component == files[g].component
        && files[f].package != files[g].package;
    var u, v :| u in files && v in files && files[u].component != files[v].component;
    h := if files[u].component != files[f].component then u else v;
    var y := if files[f].package != files[h].package then f else g;
    var x := if y == f then g else f;
    if NoLift(files, parents, x, y, h) {
      BreaksWithout(files, parents, x, y, h);
      includes, b := {(x, h), (h, x)}, y;
    } else {
      BreaksWithout(files, parents, y, x, h);
      includes, b := {(y, h), (h, y)}, x;
    }
  }

  /** Dependencies between components are dependencies between packages, whatever the
      files include, exactly when no component is split between packages, or there is
      but one component and so no dependency. */
  lemma DependenciesCarryOverExactlyWhen(files: Files, parents: Parents)
    requires Placed(files, parents, {}) && WellParented(parents) && Complete(files)
    ensures Consistent(files) || OneComponent(files) <==>
            forall includes | Placed(files, parents, includes) :: DependenciesCarryOver(files, parents, includes)
  {
    if Consistent(files) || OneComponent(files) {
      forall includes | Placed(files, parents, includes) ensures DependenciesCarryOver(files, parents, includes) {
        UnsplitCarriesOver(files, parents, includes);
      }
    } else {
      var includes, b, h := SplitBreaks(files, parents);
      assert !DependenciesCarryOver(files, parents, includes);
    }
  }

  /** The same holds for cycles. */
  lemma CyclesCarryOverExactlyWhen(files: Files, parents: Parents)
    requires Placed(files, parents, {}) && WellParented(parents) && Complete(files)
    ensures Consistent(files) || OneComponent(files) <==>
            forall includes | Placed(files, parents, includes) :: CyclesCarryOver(files, parents, includes)
  {
    if Consistent(files) || OneComponent(files) {
      forall includes | Placed(files, parents, includes) ensures CyclesCarryOver(files, parents, includes) {
        UnsplitCarriesOver(files, parents, includes);
      }
    } else {
      var includes, b, h := SplitBreaks(files, parents);
      assert !CyclesCarryOver(files, parents, includes);
    }
  }

  // ------------------------------------------------------------------
  // A split component
  // ------------------------------------------------------------------

  const C_H := Path(false, ["lib", "c.h"])
  const C_CPP := Path(false, ["lib", "c.cpp"])
  const D_H := Path(false, ["dep", "d.h"])

  const BEFORE: Parents := map["ext" := None, "ext/lib" := Some("ext"), "ext/dep" := Some("ext")]
  const AFTER: Parents := BEFORE["non-lakosian group" := None]["lib" := Some("non-lakosian group")]
  const SPLIT_FILES: Files :=
    map[C_H := FileObject(Some("lib/c"), Some("ext/lib")), C_CPP := FileObject(Some("lib/c"), Some("lib")),
        D_H := FileObject(Some("dep/d"), Some("ext/dep"))]
  const SPLIT_INCLUDES := {(C_CPP, D_H), (D_H, C_H)}

  /** The naming rules do split components: lib/c.h is met through an include while
      lib is no package, and lib/c.cpp after a scan found a unit there and stored lib in
      the group of non-lakosian code. */
  lemma NamingSplits()
    ensures SPLIT_FILES[C_H] == NewFile(map[], C_H, TopLevel("ext"))
    ensures SPLIT_FILES[D_H] == NewFile(BEFORE, D_H, TopLevel("ext"))
    ensures SPLIT_FILES[C_CPP] == NewFile(AFTER, C_CPP, TopLevel("ext"))
  {
    HeaderNamed();
    OtherHeaderNamed();
    UnitNamed();
  }

  lemma HeaderNamed()
    ensures NewFile(map[], C_H, TopLevel("ext")) == FileObject(Some("lib/c"), Some("ext/lib"))
  {
    StemOf();
    assert "ext" + "/" + "lib" == "ext/lib" && "lib" + "/" + "c" == "lib/c";
    NewFileIn(map[], "lib", "c.h", "ext/lib");
  }

  lemma OtherHeaderNamed()
    ensures NewFile(BEFORE, D_H, TopLevel("ext")) == FileObject(Some("dep/d"), Some("ext/dep"))
  {
    StemOf();
    assert "ext" + "/" + "dep" == "ext/dep" && "dep" + "/" + "d" == "dep/d";
    NewFileIn(BEFORE, "dep", "d.h", "ext/dep");
  }

  lemma UnitNamed()
    ensures NewFile(AFTER, C_CPP, TopLevel("ext")) == FileObject(Some("lib/c"), Some("lib"))
  {
    StemOf();
    assert "lib" + "/" + "c" == "lib/c";
    NewFileIn(AFTER, "lib", "c.cpp", "lib");
  }

  lemma NewFileIn(parents: Parents, dir: string, last: string, package: Package)
    requires package == "lib" || package == "ext/lib" || package == "ext/dep"
    requires package == if dir in parents then dir else "ext" + "/" + dir
    ensures NewFile(parents, Path(false, [dir, last]), TopLevel("ext"))
            == FileObject(Some(dir + "/" + Stem(last)), Some(package))
  {
    var name := Path(false, [dir, last]);
    Unmarked(package);
    assert Parent(name.names) == [dir] && [dir] + [Stem(last)] == [dir, Stem(last)];
    TextOf([dir], dir);
    TextOfTwo(dir, Stem(last));
    assert PackageFor(parents, name, TopLevel("ext")) == package;
  }

  lemma TextOf(p: Names, name: string)
    requires p == [name]
    ensures Text(Path(false, p)) == name
  {
    assert p[1..] == [];
    assert Segments(p) == "/" + name + "";
  }

  lemma TextOfTwo(dir: string, name: string)
    ensures Text(Path(false, [dir, name])) == dir + "/" + name
  {
    assert [dir, name][1..] == [name] && [name][1..] == [];
    assert Segments([name]) == "/" + name + "";
    assert Segments([dir, name]) == "/" + dir + Segments([name]);
    assert Segments([dir, name])[1..] == dir + ("/" + name);
  }

  lemma StemOf()
    ensures Stem("c.h") == "c" && Stem("d.h") == "d" && Stem("c.cpp") == "c"
  {
    assert "c.h"[..2] == "c." && "d.h"[..2] == "d.";
    assert "c.cpp"[..4] == "c.cp" && "c.cp"[..3] == "c.c" && "c.c"[..2] == "c.";
    assert LastDot("c.") == 1 && LastDot("d.") == 1;
    assert LastDot("c.c") == 1;
    assert LastDot("c.cp") == 1;
    assert LastDot("c.h") == 1 && LastDot("d.h") == 1 && LastDot("c.cpp") == 1;
    assert "c.h"[..1] == "c" && "d.h"[..1] == "d" && "c.cpp"[..1] == "c";
  }

  lemma ShorterLacks(text: string, part: string)
    requires |text| < |part|
    ensures !Contains(text, part)
  {
  }

  lemma Unmarked(package: Package)
    requires package == "lib" || package == "ext/lib" || package == "ext/dep"
    ensures !Contains(package, "standalone/") && !Contains(package, "groups/")
  {
    ShorterLacks(package, "standalone/");
    ShorterLacks(package[1..], "groups/");
    assert package[0] != "groups/"[0];
  }

  lemma SplitPackageEdges(p: Package, q: Package)
    ensures (p, q) in PackageEdges(SPLIT_FILES, AFTER, SPLIT_INCLUDES) <==>
            (p, q) in {("lib", "ext/dep"), ("ext/dep", "ext/lib")}
  {
    PackageEdgesExactly(SPLIT_FILES, AFTER, SPLIT_INCLUDES, p, q);
    assert AFTER["lib"] == Some("non-lakosian group") && AFTER["ext/dep"] == Some("ext")
        && AFTER["ext/lib"] == Some("ext");
    assert IncludeLinks(SPLIT_FILES, AFTER, C_CPP, D_H, p, q) <==> p == "lib" && q == "ext/dep";
    assert IncludeLinks(SPLIT_FILES, AFTER, D_H, C_H, p, q) <==> p == "ext/dep" && q == "ext/lib";
  }

  lemma SplitComponentCycle()
    ensures OnCycle(GraphOf(ComponentEdges(SPLIT_FILES, SPLIT_INCLUDES)), "lib/c")
  {
    var ce := ComponentEdges(SPLIT_FILES, SPLIT_INCLUDES);
    ComponentEdgesExactly(SPLIT_FILES, SPLIT_INCLUDES, "lib/c", "dep/d");
    ComponentEdgesExactly(SPLIT_FILES, SPLIT_INCLUDES, "dep/d", "lib/c");
    GraphEdge(ce, "lib/c", "dep/d");
    GraphEdge(ce, "dep/d", "lib/c");
    ReachesStep(GraphOf(ce), "dep/d", "lib/c");
  }

  lemma SplitImages(p: Package)
    ensures Image(GraphOf(PackageEdges(SPLIT_FILES, AFTER, SPLIT_INCLUDES)), p)
            == if p == "lib" then {"ext/dep"} else if p == "ext/dep" then {"ext/lib"} else {}
  {
    var edges := PackageEdges(SPLIT_FILES, AFTER, SPLIT_INCLUDES);
    forall q ensures q in Image(GraphOf(edges), p) <==> (p, q) in {("lib", "ext/dep"), ("ext/dep", "ext/lib")} {
      GraphEdge(edges, p, q);
      SplitPackageEdges(p, q);
    }
  }

  lemma SplitNoCycle(p: Package)
    ensures !OnCycle(GraphOf(PackageEdges(SPLIT_FILES, AFTER, SPLIT_INCLUDES)), p)
  {
    var graph := GraphOf(PackageEdges(SPLIT_FILES, AFTER, SPLIT_INCLUDES));
    SplitImages(p);
    SplitImages("ext/dep");
    SplitImages("ext/lib");
    var ahead := if p == "lib" then {"ext/dep", "ext/lib"} else {"ext/lib"};
    assert Closed(graph, ahead);
    forall y | y in Image(graph, p) ensures !Reaches(graph, y, p) {
      NoneBackFrom(graph, ahead, p, y);
    }
  }

  lemma NoneBackFrom(graph: Graph<Package>, ahead: set<Package>, p: Package, y: Package)
    requires Closed(graph, ahead) && y in ahead && p !in ahead
    ensures !Reaches(graph, y, p)
  {
    if Reaches(graph, y, p) { ClosedHoldsReach(graph, ahead, y, p); }
  }

  /** Then a component cycle over two packages need not show in the package graph at
      all: c.cpp includes d.h, which includes c.h. */
  lemma SplitComponentHidesCycle(p: Package)
    ensures Placed(SPLIT_FILES, AFTER, SPLIT_INCLUDES) && Complete(SPLIT_FILES)
    ensures OnCycle(GraphOf(ComponentEdges(SPLIT_FILES, SPLIT_INCLUDES)), "lib/c")
    ensures !OnCycle(GraphOf(PackageEdges(SPLIT_FILES, AFTER, SPLIT_INCLUDES)), p)
  {
    SplitComponentCycle();
    SplitNoCycle(p);
  }
}
