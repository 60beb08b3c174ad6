/** lvtclp/ct_lvtclp_fileutil.cpp and `ClpUtil::normalisePath`.

    A canonical absolute path is the sequence of its component names; the root is
    the empty sequence. `pathStartsWith` compares the rendered strings, while
    `nonPrefixPart` compares components, and the two do not always agree. */
module PathAlgebra {

  type Names = seq<string>

  const SEPARATOR := '/'

  predicate ValidName(name: string) {
    name != "" && SEPARATOR !in name
  }

  /** What `weakly_canonical` yields, as far as prefixes are concerned. */
  ghost predicate Canonical(p: Names) {
    forall name | name in p :: ValidName(name)
  }

  /** A path as the library iterates over it: relative paths have no root. */
  datatype Path = Path(absolute: bool, names: Names)

  /** Each component preceded by a separator. */
  function Segments(p: Names): string {
    if p == [] then "" else [SEPARATOR] + p[0] + Segments(p[1..])
  }

  function Render(p: Names): string {
    if p == [] then [SEPARATOR] else Segments(p)
  }

  // ------------------------------------------------------------------
  // Rendering
  // ------------------------------------------------------------------

  /** Where two rendered paths split into a name and the rest is fixed by the text. */
  lemma NamesSplit(a: string, restA: Names, b: string, restB: Names)
    requires ValidName(a) && ValidName(b)
    requires a + Segments(restA) <= b + Segments(restB)
    ensures a == b || (restA == [] && a <= b)
    ensures a == b ==> Segments(restA) <= Segments(restB)
  {
    var s, t := a + Segments(restA), b + Segments(restB);
    assert forall i | 0 <= i < |a| :: a[i] in a && a[i] == s[i];
    assert forall i | 0 <= i < |b| :: b[i] in b && b[i] == t[i];
    assert forall i | 0 <= i < |s| :: s[i] == t[i];
    assert restA != [] ==> |s| > |a| && s[|a|] == SEPARATOR;
    assert restB != [] ==> |t| > |b| && t[|b|] == SEPARATOR;
    if |a| == |b| {
      assert a == s[..|a|] == t[..|a|] == b;
      assert Segments(restA) == s[|a|..] && Segments(restB) == t[|a|..];
    }
  }

  /** p without its last component leads q, and p's last name begins q's next. */
  ghost predicate LeadsByText(p: Names, q: Names) {
    && 0 < |p| <= |q|
    && p[..|p| - 1] == q[..|p| - 1]
    && p[|p| - 1] <= q[|p| - 1]
  }

  lemma {:induction false} SegmentsPrefix(p: Names, q: Names)
    requires Canonical(p) && Canonical(q) && p != []
    ensures Segments(p) <= Segments(q) <==> LeadsByText(p, q)
    decreases |p|
  {
    if q != [] {
      SegmentsCons(p);
      SegmentsCons(q);
      assert p[0] in p && q[0] in q;
      FirstNames(p[0], p[1..], Segments(p), q[0], q[1..], Segments(q));
      if |p| > 1 {
        SegmentsPrefix(p[1..], q[1..]);
        LeadsByTextTail(p, q);
      }
    }
  }

  /** Comparing two rendered paths one name at a time. */
  lemma FirstNames(a: string, restA: Names, textA: string, b: string, restB: Names, textB: string)
    requires ValidName(a) && ValidName(b)
    requires textA == [SEPARATOR] + (a + Segments(restA)) && textB == [SEPARATOR] + (b + Segments(restB))
    ensures textA <= textB <==> if restA == [] then a <= b else a == b && Segments(restA) <= Segments(restB)
  {
    AfterSeparator(a + Segments(restA), b + Segments(restB));
    SplitExactly(a, restA, b, restB);
  }

  lemma SegmentsCons(p: Names)
    requires p != []
    ensures Segments(p) == [SEPARATOR] + (p[0] + Segments(p[1..]))
  {
  }

  lemma SplitExactly(a: string, restA: Names, b: string, restB: Names)
    requires ValidName(a) && ValidName(b)
    ensures a + Segments(restA) <= b + Segments(restB) <==>
            if restA == [] then a <= b else a == b && Segments(restA) <= Segments(restB)
  {
    if a + Segments(restA) <= b + Segments(restB) {
      NamesSplit(a, restA, b, restB);
    }
    if restA == [] {
      assert a + Segments(restA) == a;
    }
  }

  lemma AfterSeparator(a: string, b: string)
    ensures [SEPARATOR] + a <= [SEPARATOR] + b <==> a <= b
  {
    assert ([SEPARATOR] + a)[1..] == a && ([SEPARATOR] + b)[1..] == b;
    if [SEPARATOR] + a <= [SEPARATOR] + b {
      assert forall i | 0 <= i < |a| :: a[i] == ([SEPARATOR] + a)[i + 1] == ([SEPARATOR] + b)[i + 1] == b[i];
    }
  }

  lemma LeadsByTextTail(p: Names, q: Names)
    requires |p| > 1 && q != []
    ensures LeadsByText(p, q) <==> p[0] == q[0] && LeadsByText(p[1..], q[1..])
  {
    if |p| <= |q| {
      var n, a, b := |p| - 1, p[1..], q[1..];
      assert p[..n] == [p[0]] + a[..n - 1] && q[..n] == [q[0]] + b[..n - 1];
      assert p[..n][0] == p[0] && q[..n][0] == q[0];
      assert p[..n][1..] == a[..n - 1] && q[..n][1..] == b[..n - 1];
      assert p[n] == a[n - 1] && q[n] == b[n - 1] && |a| - 1 == n - 1;
    }
  }

  /** What the text comparison of `pathStartsWith` amounts to. */
  lemma RenderPrefix(p: Names, q: Names)
    requires Canonical(p) && Canonical(q)
    ensures Render(p) <= Render(q) <==> p == [] || LeadsByText(p, q)
  {
    if p != [] {
      SegmentsPrefix(p, q);
      assert p[0] in p;
      assert Render(p)[..1] == Render([]) && |Render(p)| >= 2;
    }
  }

  lemma RenderInjective(p: Names, q: Names)
    requires Canonical(p) && Canonical(q) && Render(p) == Render(q)
    ensures p == q
  {
    RenderPrefix(p, q);
    RenderPrefix(q, p);
    if p == [] {
    } else if q == [] {
    } else {
      assert |p| == |q| && p[|p| - 1] == q[|q| - 1];
      assert p == p[..|p| - 1] + [p[|p| - 1]] && q == q[..|q| - 1] + [q[|q| - 1]];
    }
  }

  // ------------------------------------------------------------------
  // pathStartsWith, nonPrefixPart, normalisePath
  // ------------------------------------------------------------------

  /** `pathStartsWith`. */
  predicate StartsWith(prefix: Names, path: Names) {
    Render(prefix) <= Render(path)
  }

  /** The number of leading components two paths share. */
  function CommonRun(p: Names, q: Names): (k: nat)
    ensures k <= |p| && k <= |q| && p[..k] == q[..k]
    ensures k < |p| && k < |q| ==> p[k] != q[k]
  {
    if p != [] && q != [] && p[0] == q[0] then 1 + CommonRun(p[1..], q[1..]) else 0
  }

  lemma CommonRunIs(p: Names, q: Names, k: nat)
    requires k <= |p| && k <= |q| && p[..k] == q[..k]
    requires k < |p| && k < |q| ==> p[k] != q[k]
    ensures CommonRun(p, q) == k
  {
    var c := CommonRun(p, q);
    assert forall i | 0 <= i < k :: p[i] == p[..k][i] == q[..k][i] == q[i];
    assert forall i | 0 <= i < c :: p[i] == p[..c][i] == q[..c][i] == q[i];
  }

  /** Both paths are absolute, so the roots always match. */
  method NonPrefixPart(prefix: Names, path: Names) returns (ret: Path)
    ensures ret == Path(false, path[CommonRun(prefix, path)..])
  {
    var at := 0;
    while at < |prefix| && at < |path| && prefix[at] == path[at]
      invariant at <= |prefix| && at <= |path| && prefix[..at] == path[..at]
    {
      at := at + 1;
    }
    CommonRunIs(prefix, path, at);
    ret := Path(false, []);
    var i := at;
    while i < |path|
      invariant at <= i <= |path| && ret == Path(false, path[at..i])
    {
      ret := Path(false, ret.names + [path[i]]);
      i := i + 1;
    }
  }

  function Normalise(path: Names, prefix: Names): Path {
    if StartsWith(prefix, path) then Path(false, path[CommonRun(prefix, path)..]) else Path(true, path)
  }

  method NormalisePath(path: Names, prefix: Names) returns (r: Path)
    ensures r == Normalise(path, prefix)
  {
    r := Path(true, path);
    if StartsWith(prefix, path) {
      r := NonPrefixPart(prefix, path);
    }
  }

  /** `operator/`: an absolute right-hand side replaces the left one. */
  function Join(base: Names, p: Path): Names {
    if p.absolute then p.names else base + p.names
  }

  /** Being a component prefix implies the text test ... */
  lemma ComponentPrefixStartsWith(prefix: Names, path: Names)
    requires Canonical(prefix) && Canonical(path) && prefix <= path
    ensures StartsWith(prefix, path)
  {
    RenderPrefix(prefix, path);
    if prefix != [] {
      assert path[|prefix| - 1] == prefix[|prefix| - 1];
    }
  }

  /** ... but a sibling whose name extends the prefix's last name passes it too. */
  predicate Sibling(prefix: Names, path: Names) {
    StartsWith(prefix, path) && !(prefix <= path)
  }

  lemma SiblingShape(prefix: Names, path: Names)
    requires Canonical(prefix) && Canonical(path) && Sibling(prefix, path)
    ensures prefix != [] && |prefix| <= |path| && CommonRun(prefix, path) == |prefix| - 1
    ensures prefix[|prefix| - 1] < path[|prefix| - 1]
  {
    RenderPrefix(prefix, path);
    var k := |prefix| - 1;
    LastNameDiffers(prefix, path);
    CommonRunIs(prefix, path, k);
  }

  lemma LastNameDiffers(prefix: Names, path: Names)
    requires LeadsByText(prefix, path) && !(prefix <= path)
    ensures prefix[|prefix| - 1] != path[|prefix| - 1]
  {
    var k := |prefix| - 1;
    assert prefix == prefix[..k] + [prefix[k]] && path[..k + 1] == path[..k] + [path[k]];
  }

  lemma SiblingsExist()
    ensures Sibling(["src"], ["srcgen", "x"]) && !Sibling(["src"], ["src", "x"])
  {
    assert Segments(["src"]) == "/src" + Segments([]) == "/src";
    assert Segments(["srcgen", "x"]) == "/srcgen" + Segments(["x"]);
    assert Render(["srcgen", "x"])[..4] == "/src";
  }

  /** Joining the prefix back gives the path, except for siblings. */
  lemma RoundTripExactlyWhen(prefix: Names, path: Names)
    requires Canonical(prefix) && Canonical(path)
    ensures Join(prefix, Normalise(path, prefix)) == path <==> !Sibling(prefix, path)
  {
    if Sibling(prefix, path) {
      SiblingShape(prefix, path);
      assert |Join(prefix, Normalise(path, prefix))| == |path| + 1;
    } else if StartsWith(prefix, path) {
      CommonRunIs(prefix, path, |prefix|);
      assert path == prefix + path[|prefix|..];
    }
  }

  /** So two files other than siblings never share a qualified name ... */
  lemma NormaliseInjective(prefix: Names, p: Names, q: Names)
    requires Canonical(prefix) && Canonical(p) && Canonical(q)
    requires !Sibling(prefix, p) && !Sibling(prefix, q)
    requires Normalise(p, prefix) == Normalise(q, prefix)
    ensures p == q
  {
    RoundTripExactlyWhen(prefix, p);
    RoundTripExactlyWhen(prefix, q);
  }

  /** ... while a sibling always shares its name with a path below the prefix. */
  lemma SiblingCollides(prefix: Names, path: Names)
    requires Canonical(prefix) && Canonical(path) && Sibling(prefix, path)
    ensures 0 < |prefix| <= |path|
    ensures var other := prefix + path[|prefix| - 1..];
            other != path && Canonical(other) && Normalise(other, prefix) == Normalise(path, prefix)
  {
    SiblingShape(prefix, path);
    var other := prefix + path[|prefix| - 1..];
    ComponentPrefixStartsWith(prefix, other);
    CommonRunIs(prefix, other, |prefix|);
  }

  // ------------------------------------------------------------------
  // commonParent
  // ------------------------------------------------------------------

  predicate AllStartWith(prefix: Names, paths: seq<Names>) {
    forall path | path in paths :: StartsWith(prefix, path)
  }

  /** The longest leading run of the first path whose text all others start with,
      looking no further back than k. */
  function RunFrom(first: Names, others: seq<Names>, k: nat): (r: nat)
    requires k <= |first|
    ensures k <= r <= |first|
    decreases |first| - k
  {
    if k < |first| && AllStartWith(first[..k + 1], others) then RunFrom(first, others, k + 1) else k
  }

  lemma StartsWithShorter(prefix: Names, k: nat, path: Names)
    requires Canonical(prefix) && Canonical(path) && k <= |prefix| && StartsWith(prefix, path)
    ensures StartsWith(prefix[..k], path)
  {
    RenderPrefix(prefix, path);
    RenderPrefix(prefix[..k], path);
    if 0 < k < |prefix| {
      assert prefix[..|prefix| - 1][..k] == path[..|prefix| - 1][..k];
      assert prefix[..k][..k - 1] == prefix[..|prefix| - 1][..k - 1];
      assert prefix[..k][k - 1] == prefix[..|prefix| - 1][k - 1] == path[..|prefix| - 1][k - 1];
    } else if k == |prefix| {
      assert prefix[..k] == prefix;
    }
  }

  lemma AllStartWithShorter(first: Names, j: nat, i: nat, others: seq<Names>)
    requires Canonical(first) && (forall path | path in others :: Canonical(path))
    requires i <= j <= |first| && AllStartWith(first[..j], others)
    ensures AllStartWith(first[..i], others)
  {
    assert first[..j][..i] == first[..i];
    forall path | path in others ensures StartsWith(first[..i], path) {
      StartsWithShorter(first[..j], i, path);
    }
  }

  /** The others start with a leading run of the first path iff it is no longer
      than RunFrom. */
  lemma {:induction false} RunIsLongest(first: Names, others: seq<Names>, k: nat, j: nat)
    requires k <= |first| && j <= |first|
    requires Canonical(first) && (forall path | path in others :: Canonical(path))
    requires AllStartWith(first[..k], others)
    ensures AllStartWith(first[..j], others) <==> j <= RunFrom(first, others, k)
    decreases |first| - k
  {
    if j <= k {
      AllStartWithShorter(first, k, j, others);
    } else if k < |first| && AllStartWith(first[..k + 1], others) {
      RunIsLongest(first, others, k + 1, j);
    } else if AllStartWith(first[..j], others) {
      AllStartWithShorter(first, j, k + 1, others);
    }
  }

  function CommonParentSpec(paths: seq<Names>): Path {
    if paths == [] then Path(false, [])
    else
      var first, k := paths[0], RunFrom(paths[0], paths[1..], 0);
      if 0 < k < |first| && |first[k - 1]| == 3 then Path(true, first[..k - 1])
      else Path(true, first[..k])
  }

  /** The root is the first component; it starts every absolute path. */
  method CommonParent(paths: seq<Names>) returns (r: Path)
    ensures r == CommonParentSpec(paths)
    ensures paths == [] ==> r == Path(false, [])
  {
    if paths == [] {
      return Path(false, []);
    }
    var first := paths[0];
    var oldPrefix: Names := [];
    for k := 0 to |first|
      invariant oldPrefix == first[..k] && RunFrom(first, paths[1..], 0) == RunFrom(first, paths[1..], k)
    {
      var prefix := oldPrefix + [first[k]];
      assert prefix == first[..k + 1];
      if !AllStartWith(prefix, paths[1..]) {
        if oldPrefix != [] && |oldPrefix[|oldPrefix| - 1]| == 3 {
          return Path(true, oldPrefix[..|oldPrefix| - 1]);
        }
        return Path(true, oldPrefix);
      }
      oldPrefix := prefix;
    }
    r := Path(true, oldPrefix);
  }

  /** The longest leading run of the first path that all others start with is the
      result; a last name of three letters is dropped, once, if more names follow. */
  lemma CommonParentExactly(paths: seq<Names>) returns (k: nat)
    requires paths != [] && forall p | p in paths :: Canonical(p)
    ensures k <= |paths[0]|
    ensures forall j | 0 <= j <= |paths[0]| :: AllStartWith(paths[0][..j], paths[1..]) <==> j <= k
    ensures var drop := 0 < k < |paths[0]| && |paths[0][k - 1]| == 3;
            CommonParentSpec(paths) == Path(true, paths[0][..if drop then k - 1 else k])
  {
    var first, others := paths[0], paths[1..];
    k := RunFrom(first, others, 0);
    AllStartWithRoot(first, others);
    forall j | 0 <= j <= |first| ensures AllStartWith(first[..j], others) <==> j <= k {
      RunIsLongest(first, others, 0, j);
    }
  }

  lemma AllStartWithRoot(first: Names, others: seq<Names>)
    requires forall p | p in others :: Canonical(p)
    ensures AllStartWith(first[..0], others)
  {
    forall p | p in others ensures StartsWith(first[..0], p) {
      RenderPrefix(first[..0], p);
    }
  }

  lemma CommonParentStarts(paths: seq<Names>, path: Names)
    requires forall p | p in paths :: Canonical(p)
    requires path in paths
    ensures Canonical(CommonParentSpec(paths).names) && StartsWith(CommonParentSpec(paths).names, path)
  {
    var first, parent := paths[0], CommonParentSpec(paths).names;
    assert parent == first[..|parent|];
    assert Canonical(first);
    if path == first {
      ComponentPrefixStartsWith(parent, first);
    } else {
      AllStartWithRoot(first, paths[1..]);
      RunIsLongest(first, paths[1..], 0, |parent|);
    }
  }

  /** The result is an ancestor of a path (or the path itself) exactly when the path
      is no sibling of it; one component less is an ancestor of every path. */
  lemma CommonParentIsAncestor(paths: seq<Names>, path: Names)
    requires forall p | p in paths :: Canonical(p)
    requires path in paths
    ensures var parent := CommonParentSpec(paths).names;
            && (parent <= path <==> !Sibling(parent, path))
            && (parent != [] ==> parent[..|parent| - 1] <= path)
  {
    CommonParentStarts(paths, path);
    RenderPrefix(CommonParentSpec(paths).names, path);
  }
}
