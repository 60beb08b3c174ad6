/** Finite directed graphs given by successor sets, and reachability over them.
    The include graph, the function call graph and the component and package
    graphs are all graphs of this kind. */
module Digraph {

  type Graph<T> = map<T, set<T>>

  /** The set a map of sets holds for x: empty when x is no key. This is what
      `operator[]` of an `unordered_map` of sets yields. */
  function Image<T, U>(m: map<T, set<U>>, x: T): set<U> {
    if x in m then m[x] else {}
  }

  ghost predicate IsWalk<T>(g: Graph<T>, p: seq<T>) {
    p != [] && forall i | 0 <= i < |p| - 1 :: p[i + 1] in Image(g, p[i])
  }

  ghost predicate WalkFromTo<T>(g: Graph<T>, p: seq<T>, x: T, y: T) {
    IsWalk(g, p) && p[0] == x && p[|p| - 1] == y
  }

  /** y can be reached from x in zero or more steps. */
  ghost predicate Reaches<T(!new)>(g: Graph<T>, x: T, y: T) {
    exists p :: WalkFromTo(g, p, x, y)
  }

  /** x lies on a cycle. */
  ghost predicate OnCycle<T(!new)>(g: Graph<T>, x: T) {
    exists y :: y in Image(g, x) && Reaches(g, y, x)
  }

  /** No step leads out of s. */
  ghost predicate Closed<T>(g: Graph<T>, s: set<T>) {
    forall x | x in s :: Image(g, x) <= s
  }

  lemma ReachesSelf<T(!new)>(g: Graph<T>, x: T)
    ensures Reaches(g, x, x)
  {
    assert WalkFromTo(g, [x], x, x);
  }

  lemma ReachesTrans<T(!new)>(g: Graph<T>, x: T, y: T, z: T)
    requires Reaches(g, x, y) && Reaches(g, y, z)
    ensures Reaches(g, x, z)
  {
    var p :| WalkFromTo(g, p, x, y);
    var q :| WalkFromTo(g, q, y, z);
    var r := p + q[1..];
    assert forall i | |p| <= i < |r| :: r[i] == q[i - |p| + 1];
    forall i | 0 <= i < |r| - 1 ensures r[i + 1] in Image(g, r[i]) {
      if i >= |p| - 1 {
        assert r[i + 1] == q[i - |p| + 2] && r[i] == q[i - |p| + 1];
      }
    }
    assert WalkFromTo(g, r, x, z);
  }

  lemma ReachesStep<T(!new)>(g: Graph<T>, x: T, y: T)
    requires y in Image(g, x)
    ensures Reaches(g, x, y)
  {
    assert WalkFromTo(g, [x, y], x, y);
  }

  /** A path of at least one step begins with one. */
  lemma ReachesFirst<T(!new)>(g: Graph<T>, x: T, y: T) returns (z: T)
    requires Reaches(g, x, y) && x != y
    ensures z in Image(g, x) && Reaches(g, z, y)
  {
    var p :| WalkFromTo(g, p, x, y);
    z := p[1];
    assert WalkFromTo(g, p[1..], z, y);
  }

  lemma WalkInit<T>(g: Graph<T>, p: seq<T>)
    requires IsWalk(g, p) && |p| > 1
    ensures var q := p[..|p| - 1];
            IsWalk(g, q) && q[0] == p[0] && q[|q| - 1] == p[|p| - 2] && p[|p| - 1] in Image(g, p[|p| - 2])
  {
    assert p[|p| - 2 + 1] in Image(g, p[|p| - 2]);
  }

  /** The graph without the members of s. */
  ghost function Avoiding<T>(g: Graph<T>, s: set<T>): Graph<T> {
    map x | x in g && x !in s :: g[x] - s
  }

  /** A graph with fewer edges reaches less. */
  lemma SubgraphReaches<T(!new)>(g: Graph<T>, h: Graph<T>, x: T, y: T)
    requires Reaches(g, x, y) && forall z :: Image(g, z) <= Image(h, z)
    ensures Reaches(h, x, y)
  {
    var p :| WalkFromTo(g, p, x, y);
    forall i | 0 <= i < |p| - 1 ensures p[i + 1] in Image(h, p[i]) {
      assert p[i + 1] in Image(g, p[i]);
    }
    assert WalkFromTo(h, p, x, y);
  }

  /** A walk that starts in s either stays in s or leaves it by some edge (a, h),
      and the rest of the walk runs from h. */
  lemma {:induction false} LeavesAt<T(!new)>(g: Graph<T>, s: set<T>, p: seq<T>) returns (a: T, h: T)
    requires IsWalk(g, p) && p[0] in s && p[|p| - 1] !in s
    ensures a in s && h !in s && h in Image(g, a)
    ensures Reaches(g, p[0], a) && Reaches(g, h, p[|p| - 1])
    decreases |p|
  {
    if p[1] !in s {
      a, h := p[0], p[1];
      ReachesSelf(g, a);
      assert WalkFromTo(g, p[1..], h, p[|p| - 1]);
    } else {
      assert IsWalk(g, p[1..]);
      a, h := LeavesAt(g, s, p[1..]);
      ReachesStep(g, p[0], p[1]);
      ReachesTrans(g, p[0], p[1], a);
    }
  }

  /** A closed set holds all that can be reached from its members. */
  lemma ClosedHoldsReach<T(!new)>(g: Graph<T>, s: set<T>, x: T, y: T)
    requires Closed(g, s) && x in s && Reaches(g, x, y)
    ensures y in s
  {
    var p :| WalkFromTo(g, p, x, y);
    if y !in s {
      var a, h := LeavesAt(g, s, p);
    }
  }

  /** If every predecessor of a member of s is in s, so is all that reaches s. */
  lemma {:induction false} PredecessorsHoldReach<T(!new)>(g: Graph<T>, s: set<T>, p: seq<T>)
    requires IsWalk(g, p) && p[|p| - 1] in s
    requires forall x, y | y in s && y in Image(g, x) :: x in s
    ensures p[0] in s
    decreases |p|
  {
    if |p| > 1 {
      PredecessorsHoldReach(g, s, p[1..]);
    }
  }
}
