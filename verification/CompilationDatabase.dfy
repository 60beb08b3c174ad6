/** The compilation databases of lvtclp/ct_lvtclp_tool.cpp: a list of units with
    hashed look-ups of files and packages, and the subset picked for an update. */
module CompilationDatabases {
  import opened PathAlgebra

  datatype FileType = Header | Source | KnownUnknown | UnknownUnknown

  /** The position of the last dot of a name, or 0 if there is none. A leading dot
      does not start an extension. */
  function LastDot(name: string): (i: nat)
    ensures i < |name| || i == 0
  {
    if |name| <= 1 then 0
    else if name[|name| - 1] == '.' then |name| - 1
    else LastDot(name[..|name| - 1])
  }

  function Extension(name: string): string {
    var i := LastDot(name);
    if i == 0 then "" else name[i..]
  }

  function Stem(name: string): string {
    var i := LastDot(name);
    if i == 0 then name else name[..i]
  }

  /** `replace_extension()` on the last component. */
  function Stripped(p: Names): Names {
    if p == [] then p else p[..|p| - 1] + [Stem(p[|p| - 1])]
  }

  /** What follows the last dot has no dot, unless that is the first character. */
  lemma {:induction false} LastDotIsLast(name: string)
    ensures var i := LastDot(name); (i > 0 ==> name[i] == '.') && forall j | i < j < |name| :: name[j] != '.'
  {
    if |name| > 1 && name[|name| - 1] != '.' {
      var rest := name[..|name| - 1];
      LastDotIsLast(rest);
      forall j | LastDot(rest) < j < |name| ensures name[j] != '.' {
        assert j < |rest| ==> name[j] == rest[j];
      }
    }
  }

  lemma Splits(name: string)
    ensures name == Stem(name) + Extension(name)
  {
  }

  lemma {:induction false} LastDotAt(name: string, i: nat)
    requires 0 < i < |name| && name[i] == '.' && forall j | i < j < |name| :: name[j] != '.'
    ensures LastDot(name) == i
  {
    if i < |name| - 1 { LastDotAt(name[..|name| - 1], i); }
  }

  /** What comes after a last dot is the extension, unless nothing comes before it; a
      name with no other dot has none. */
  lemma ExtensionIs(stem: string, ext: string)
    requires stem != "" && '.' !in ext
    ensures Stem(stem + "." + ext) == stem && Extension(stem + "." + ext) == "." + ext
  {
    var name := stem + "." + ext;
    forall j | |stem| < j < |name| ensures name[j] != '.' {
      assert name[j] == ext[j - |stem| - 1];
    }
    LastDotAt(name, |stem|);
  }

  lemma {:induction false} NoExtension(name: string)
    requires forall i | 0 < i < |name| :: name[i] != '.'
    ensures Stem(name) == name && Extension(name) == ""
  {
    LastDotIsLast(name);
  }

  /** The names of headers and of sources, in any directory. */
  lemma CategoryOf(dir: Names, stem: string, ext: string)
    requires stem != "" && '.' !in ext
    ensures var c := Categorise(dir + [stem + "." + ext]);
            && (c == Header <==> ext == "h" || ext == "hh" || ext == "h++" || ext == "hpp")
            && (c == Source <==>
                  ext == "cpp" || ext == "c" || ext == "C" || ext == "c++" || ext == "cc" || ext == "cxx")
  {
    var p := dir + [stem + "." + ext];
    ExtensionIs(stem, ext);
    assert p[|p| - 1] == stem + "." + ext;
    SourceExtensions(ext);
    HeaderExtensions(ext);
  }

  lemma HeaderExtensions(ext: string)
    ensures "." + ext in {".h", ".hh", ".h++", ".hpp"} <==> ext == "h" || ext == "hh" || ext == "h++" || ext == "hpp"
  {
    assert ("." + ext)[1..] == ext;
    assert "." + "h" == ".h" && "." + "hh" == ".hh" && "." + "h++" == ".h++" && "." + "hpp" == ".hpp";
  }

  lemma SourceExtensions(ext: string)
    ensures "." + ext in {".cpp", ".c", ".C", ".c++", ".cc", ".cxx", ".t.cpp"} && '.' !in ext <==>
            ext == "cpp" || ext == "c" || ext == "C" || ext == "c++" || ext == "cc" || ext == "cxx"
  {
    assert ("." + ext)[1..] == ext;
    assert "." + "cpp" == ".cpp" && "." + "c" == ".c" && "." + "C" == ".C";
    assert "." + "c++" == ".c++" && "." + "cc" == ".cc" && "." + "cxx" == ".cxx";
    assert ".t.cpp"[2] == '.';
  }

  lemma CategoryOfOthers(dir: Names, name: string)
    requires forall i | 0 < i < |name| :: name[i] != '.'
    ensures !Recognised(dir + [name])
  {
    var p := dir + [name];
    NoExtension(name);
    assert p[|p| - 1] == name;
  }

  /** One text followed by their extensions gives both names. */
  ghost predicate SameStem(a: string, b: string) {
    exists n | 0 <= n <= |a| && n <= |b| :: a[..n] == b[..n] && a[n..] == Extension(a) && b[n..] == Extension(b)
  }

  lemma SameStemMeans(a: string, b: string)
    ensures Stem(a) == Stem(b) <==> SameStem(a, b)
  {
    Splits(a);
    Splits(b);
    if Stem(a) == Stem(b) {
      var n := |Stem(a)|;
      assert a[..n] == b[..n] && a[n..] == Extension(a) && b[n..] == Extension(b);
    }
    if SameStem(a, b) {
      var n :| 0 <= n <= |a| && n <= |b| && a[..n] == b[..n] && a[n..] == Extension(a) && b[n..] == Extension(b);
      assert Stem(a) == a[..n] && Stem(b) == b[..n];
    }
  }

  /** So files that differ in their extensions only, and these alone, are stripped to
      the same path. */
  lemma StrippedTogether(p: Names, q: Names)
    requires p != [] && q != []
    ensures Stripped(p) == Stripped(q) <==> p[..|p| - 1] == q[..|q| - 1] && SameStem(p[|p| - 1], q[|q| - 1])
  {
    SameStemMeans(p[|p| - 1], q[|q| - 1]);
    if Stripped(p) == Stripped(q) {
      assert Stripped(p)[..|p| - 1] == p[..|p| - 1] && Stripped(q)[..|q| - 1] == q[..|q| - 1];
      assert Stripped(p)[|p| - 1] == Stripped(q)[|q| - 1];
    }
  }

  /** `parent_path()`; the root is its own parent. */
  function Parent(p: Names): Names {
    if p == [] then p else p[..|p| - 1]
  }

  /** `ClpUtil::categorisePath`. */
  function Categorise(p: Names): FileType {
    var ext := if p == [] then "" else Extension(p[|p| - 1]);
    if ext in {".h", ".hh", ".h++", ".hpp"} then Header
    else if ext in {".cpp", ".c", ".C", ".c++", ".cc", ".cxx", ".t.cpp"} then Source
    else if ext in {".dep", ".mem", ".o", ".swp", ".md", ".txt", ""} then UnknownUnknown
    else KnownUnknown
  }

  predicate Recognised(p: Names) {
    Categorise(p) == Header || Categorise(p) == Source
  }

  lemma StrippedCanonical(p: Names)
    requires Canonical(p)
    ensures Canonical(Stripped(p))
  {
    if p != [] {
      assert ValidName(p[|p| - 1]);
      forall name | name in Stripped(p) ensures ValidName(name) {
        if name !in p[..|p| - 1] {
          assert name <= p[|p| - 1] && name != "";
          assert forall c | c in name :: c in p[|p| - 1];
        }
      }
    }
  }

  lemma StrippedByText(p: Names, q: Names)
    requires Canonical(p) && Canonical(q)
    ensures Render(Stripped(p)) == Render(q) <==> Stripped(p) == q
  {
    StrippedCanonical(p);
    if Render(Stripped(p)) == Render(q) { RenderInjective(Stripped(p), q); }
  }

  // ------------------------------------------------------------------
  // What the database answers, as a linear scan of its paths
  // ------------------------------------------------------------------

  ghost predicate ListsFile(paths: seq<Names>, file: Names) {
    Recognised(file) && exists p | p in paths :: Stripped(p) == Stripped(file)
  }

  ghost predicate ListsPackage(paths: seq<Names>, pkg: Names) {
    exists p | p in paths :: Parent(p) == pkg || Parent(Parent(p)) == pkg
  }

  /** A package is listed if a path lies in it or in a directory of it; the root also if
      a path lies no deeper than in it. */
  lemma ListsPackageExactly(paths: seq<Names>, pkg: Names)
    ensures ListsPackage(paths, pkg) <==>
            exists p | p in paths ::
              || (|p| == |pkg| + 1 && p[..|pkg|] == pkg)
              || (|p| == |pkg| + 2 && p[..|pkg|] == pkg)
              || (p == pkg == [])
  {
    forall p | p in paths
      ensures Parent(p) == pkg || Parent(Parent(p)) == pkg <==>
              || (|p| == |pkg| + 1 && p[..|pkg|] == pkg)
              || (|p| == |pkg| + 2 && p[..|pkg|] == pkg)
              || (p == pkg == [])
    {
      if |p| >= 2 { assert p[..|p| - 1][..|p| - 2] == p[..|p| - 2]; }
    }
  }

  ghost predicate Distinct<T>(s: seq<T>) {
    forall i, j | 0 <= i < j < |s| :: s[i] != s[j]
  }

  ghost predicate AllCanonical(paths: seq<Names>) {
    forall p | p in paths :: Canonical(p)
  }

  function RenderAll(paths: seq<Names>): seq<string> {
    seq(|paths|, i requires 0 <= i < |paths| => Render(paths[i]))
  }

  function ComponentKey(p: Names): string { Render(Stripped(p)) }
  function PackageKey(p: Names): string { Render(Parent(p)) }
  function GroupKey(p: Names): string { Render(Parent(Parent(p))) }

  ghost function Keys<A(!new), B(!new)>(s: seq<A>, key: A -> B): set<B> {
    set p | p in s :: key(p)
  }

  lemma KeysSnoc<A(!new), B(!new)>(s: seq<A>, x: A, key: A -> B)
    ensures Keys(s + [x], key) == Keys(s, key) + {key(x)}
  {
    assert forall p :: p in s + [x] <==> p in s || p == x;
  }

  lemma RenderAllSnoc(paths: seq<Names>, path: Names)
    ensures RenderAll(paths + [path]) == RenderAll(paths) + [Render(path)]
  {
    var a, b := RenderAll(paths + [path]), RenderAll(paths) + [Render(path)];
    assert |a| == |b|;
    forall i | 0 <= i < |a| ensures a[i] == b[i] {}
  }

  /** The three look-up structures agree with the paths. */
  ghost predicate Indexes(paths: seq<Names>, files: seq<string>, components: set<string>, pkgs: set<string>) {
    && files == RenderAll(paths)
    && components == Keys(paths, ComponentKey)
    && pkgs == Keys(paths, PackageKey) + Keys(paths, GroupKey)
  }

  lemma IndexesSnoc(paths: seq<Names>, files: seq<string>, components: set<string>, pkgs: set<string>, p: Names)
    requires Indexes(paths, files, components, pkgs)
    ensures Indexes(paths + [p], files + [Render(p)], components + {ComponentKey(p)},
        pkgs + {PackageKey(p)} + {GroupKey(p)})
  {
    RenderAllSnoc(paths, p);
    KeysSnoc(paths, p, ComponentKey);
    KeysSnoc(paths, p, PackageKey);
    KeysSnoc(paths, p, GroupKey);
  }

  lemma AllCanonicalSnoc(paths: seq<Names>, p: Names)
    requires AllCanonical(paths) && Canonical(p)
    ensures AllCanonical(paths + [p])
  {
    forall q | q in paths + [p] ensures Canonical(q) {
      assert q in paths || q == p;
    }
  }

  lemma TakeSnoc<T>(s: seq<T>, i: nat)
    requires i < |s|
    ensures s[..i + 1] == s[..i] + [s[i]]
  {
  }

  lemma DistinctSnoc<T>(s: seq<T>, x: T)
    requires Distinct(s) && x !in s
    ensures Distinct(s + [x])
  {
  }

  lemma RenderedMember(paths: seq<Names>, path: Names)
    requires AllCanonical(paths) && Canonical(path)
    ensures Render(path) in RenderAll(paths) <==> path in paths
  {
    if Render(path) in RenderAll(paths) {
      var i :| 0 <= i < |paths| && RenderAll(paths)[i] == Render(path);
      RenderInjective(paths[i], path);
    }
    if path in paths {
      var i :| 0 <= i < |paths| && paths[i] == path;
      assert RenderAll(paths)[i] == Render(path);
    }
  }

  ghost function Targets(prefix: Names, wanted: seq<Path>): set<Names> {
    set q | q in wanted :: Join(prefix, q)
  }

  lemma TargetsSnoc(prefix: Names, wanted: seq<Path>, q: Path)
    ensures Targets(prefix, wanted + [q]) == Targets(prefix, wanted) + {Join(prefix, q)}
  {
    assert forall r :: r in wanted + [q] <==> r in wanted || r == q;
  }

  class CompilationDatabase {
    var files: seq<string>
    var paths: seq<Names>
    var components: set<string>
    var pkgs: set<string>
    const prefix: Names

    ghost predicate Valid()
      reads this
    {
      && Canonical(prefix) && AllCanonical(paths) && Distinct(paths)
      && Indexes(paths, files, components, pkgs)
    }

    constructor (prefix: Names)
      requires Canonical(prefix)
      ensures Valid() && paths == [] && this.prefix == prefix
    {
      this.prefix := prefix;
      files, paths, components, pkgs := [], [], {}, {};
    }

    method AddPath(path: Names)
      requires Valid() && Canonical(path)
      modifies this
      ensures Valid()
      ensures paths == if path in old(paths) then old(paths) else old(paths) + [path]
    {
      if path in paths {
        return;
      }
      IndexesSnoc(paths, files, components, pkgs, path);
      DistinctSnoc(paths, path);
      AllCanonicalSnoc(paths, path);
      paths := paths + [path];
      files := files + [Render(path)];
      components := components + {ComponentKey(path)};
      pkgs := pkgs + {PackageKey(path)};
      pkgs := pkgs + {GroupKey(path)};
    }

    /** `setup` adds the files of all commands that are not ignored. */
    method Setup(commandFiles: seq<Names>, ignored: set<Names>)
      requires Valid() && forall p | p in commandFiles :: Canonical(p)
      modifies this
      ensures Valid()
      ensures forall p :: p in paths <==> p in old(paths) || (p in commandFiles && p !in ignored)
    {
      for i := 0 to |commandFiles|
        invariant Valid()
        invariant forall p :: p in paths <==> p in old(paths) || (p in commandFiles[..i] && p !in ignored)
      {
        AddUnlessIgnored(commandFiles[i], ignored);
        TakeSnoc(commandFiles, i);
      }
      assert commandFiles[..|commandFiles|] == commandFiles;
    }

    method AddUnlessIgnored(file: Names, ignored: set<Names>)
      requires Valid() && Canonical(file)
      modifies this
      ensures Valid()
      ensures forall p :: p in paths <==> p in old(paths) || (p == file && p !in ignored)
    {
      if file !in ignored {
        AddPath(file);
      }
    }

    method ContainsFile(file: Path) returns (found: bool)
      requires Valid() && Canonical(file.names)
      ensures found <==> Recognised(file.names) && ListsFile(paths, Join(prefix, file))
    {
      if Categorise(file.names) != Source && Categorise(file.names) != Header {
        return false;
      }
      var filePath := Stripped(Join(prefix, file));
      found := Render(filePath) in components;
      StrippedCanonical(Join(prefix, file));
      forall p | p in paths ensures Render(Stripped(p)) == Render(filePath) <==> Stripped(p) == filePath {
        StrippedByText(p, filePath);
      }
    }

    method ContainsPackage(pkg: Path) returns (found: bool)
      requires Valid() && Canonical(pkg.names)
      ensures found <==> ListsPackage(paths, Join(prefix, pkg))
    {
      var pkgPath := Join(prefix, pkg);
      found := Render(pkgPath) in pkgs;
      forall p | p in paths
        ensures Render(Parent(p)) == Render(pkgPath) <==> Parent(p) == pkgPath
        ensures Render(Parent(Parent(p))) == Render(pkgPath) <==> Parent(Parent(p)) == pkgPath
      {
        if Render(Parent(p)) == Render(pkgPath) { RenderInjective(Parent(p), pkgPath); }
        if Render(Parent(Parent(p))) == Render(pkgPath) { RenderInjective(Parent(Parent(p)), pkgPath); }
      }
    }

    /** The loop of the `SubsetCompilationDatabase` constructor. */
    method AddWanted(wanted: seq<Path>)
      requires Valid() && paths == [] && forall q | q in wanted :: Canonical(q.names)
      modifies this
      ensures Valid() && (set p | p in paths) == Targets(prefix, wanted)
      ensures forall p :: p in paths <==> exists q | q in wanted :: p == Join(prefix, q)
    {
      for i := 0 to |wanted|
        invariant Valid() && (set p | p in paths) == Targets(prefix, wanted[..i])
      {
        AddWantedPath(wanted[i]);
        TargetsSnoc(prefix, wanted[..i], wanted[i]);
        TakeSnoc(wanted, i);
      }
      assert wanted[..|wanted|] == wanted;
      assert forall p :: p in paths <==> p in Targets(prefix, wanted);
    }

    method AddWantedPath(q: Path)
      requires Valid() && Canonical(q.names)
      modifies this
      ensures Valid() && (set p | p in paths) == (set p | p in old(paths)) + {Join(prefix, q)}
    {
      AddPath(Join(prefix, q));
    }

    /** `SubsetCompilationDatabase::getAllFiles`: the files this subset and its parent
        both list. */
    method FilesIn(parent: CompilationDatabase) returns (out: seq<Names>)
      requires Valid() && parent.Valid()
      ensures Distinct(out) && forall p :: p in out <==> p in paths && p in parent.paths
    {
      out := [];
      for i := 0 to |paths|
        invariant Distinct(out) && forall p :: p in out <==> p in paths[..i] && p in parent.paths
      {
        RenderedMember(parent.paths, paths[i]);
        assert paths[..i + 1] == paths[..i] + [paths[i]];
        assert paths[i] !in paths[..i];
        if files[i] in parent.files {
          DistinctSnoc(out, paths[i]);
          out := out + [paths[i]];
        }
      }
      assert paths[..|paths|] == paths;
    }
  }

  /** The units to re-parse: what is asked for, as far as the full database has it,
      each once. */
  method Subset(parent: CompilationDatabase, wanted: seq<Path>) returns (out: seq<Names>)
    requires parent.Valid() && forall q | q in wanted :: Canonical(q.names)
    ensures Distinct(out)
    ensures forall p :: p in out <==> p in parent.paths && exists q | q in wanted :: p == Join(parent.prefix, q)
  {
    var cdb := new CompilationDatabase(parent.prefix);
    cdb.AddWanted(wanted);
    assert forall p :: p in cdb.paths <==> p in (set p | p in cdb.paths);
    out := cdb.FilesIn(parent);
  }
}
