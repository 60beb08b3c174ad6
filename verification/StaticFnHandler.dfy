/** lvtclp/ct_lvtclp_staticfnhandler.cpp: per-file bookkeeping of which types are
    used through which static functions, flattened into type-to-type edges.

    The source keeps unordered containers, whose iteration order is unspecified.
    Here each function's callees form a sequence, and so do the functions that
    `writeOutToDb` walks over; every theorem holds for all such sequences. */
module StaticFnHandlers {
  import opened Options
  import opened Digraph
  import opened Enumerations

  type FnId = nat
  type Udt = nat // the address of a type object; NULL_UDT is the null pointer
  const NULL_UDT: Udt := 0

  type Calls = map<FnId, seq<FnId>>
  type Types = map<FnId, set<Udt>>

  function Callees(calls: Calls, f: FnId): seq<FnId> {
    if f in calls then calls[f] else []
  }

  function Elements(s: seq<FnId>): set<FnId> {
    set x | x in s
  }

  /** The call graph. */
  ghost function CallGraph(calls: Calls): Graph<FnId> {
    map f | f in calls :: Elements(calls[f])
  }

  function Functions(calls: Calls): set<FnId> {
    calls.Keys + set f, g | f in calls && g in calls[f] :: g
  }

  // ------------------------------------------------------------------
  // Flattening, as a function of the iteration order
  // ------------------------------------------------------------------

  datatype Flat = Flat(visited: set<FnId>, types: Types)

  /** Copies the types of `from` into `into`. Looking up `from` gives it an entry;
      `into` gets one with the first type that is inserted. */
  function Merge(types: Types, into: FnId, from: FnId): Types {
    var looked := types[from := Image(types, from)];
    if looked[from] == {} then looked else looked[into := Image(looked, into) + looked[from]]
  }

  function FlattenFrom(calls: Calls, s: Flat, f: FnId): (r: Flat)
    requires f in Functions(calls)
    ensures s.visited <= r.visited
    decreases Functions(calls) - s.visited, 0
  {
    if f in s.visited then s
    else
      assert f in Functions(calls) - s.visited;
      FlattenCallees(calls, s.(visited := s.visited + {f}), f, Callees(calls, f))
  }

  function FlattenCallees(calls: Calls, s: Flat, f: FnId, todo: seq<FnId>): (r: Flat)
    requires forall g | g in todo :: g in Functions(calls)
    ensures s.visited <= r.visited
    decreases Functions(calls) - s.visited, |todo|
  {
    if todo == [] then s
    else if todo[0] == f then FlattenCallees(calls, s, f, todo[1..])
    else
      var s1 := FlattenFrom(calls, s, todo[0]);
      assert Functions(calls) - s1.visited <= Functions(calls) - s.visited;
      FlattenCallees(calls, s1.(types := Merge(s1.types, f, todo[0])), f, todo[1..])
  }

  function FlattenAll(calls: Calls, s: Flat, roots: seq<FnId>): Flat
    requires forall f | f in roots :: f in Functions(calls)
    decreases roots
  {
    if roots == [] then s
    else FlattenFrom(calls, FlattenAll(calls, s, roots[..|roots| - 1]), roots[|roots| - 1])
  }

  // ------------------------------------------------------------------
  // What flattening is for
  // ------------------------------------------------------------------

  /** Some function that f calls, directly or not, or f itself, uses type t. */
  ghost predicate UsesVia(calls: Calls, direct: Types, f: FnId, t: Udt) {
    exists g :: Reaches(CallGraph(calls), f, g) && t in Image(direct, g)
  }

  /** f holds every type it uses through calls. */
  ghost predicate Complete(calls: Calls, direct: Types, types: Types, f: FnId) {
    forall t :: UsesVia(calls, direct, f, t) ==> t in Image(types, f)
  }

  /** No function holds a type that it does not use through calls, and each one
      holds its direct types. */
  ghost predicate Between(calls: Calls, direct: Types, types: Types) {
    && (forall f, t | t in Image(types, f) :: UsesVia(calls, direct, f, t))
    && (forall f :: Image(direct, f) <= Image(types, f))
  }

  ghost predicate Grows(before: Types, after: Types) {
    forall f :: Image(before, f) <= Image(after, f)
  }

  /** No function reachable from f calls itself through others. */
  ghost predicate CycleFree(calls: Calls, f: FnId) {
    forall g | Reaches(CallGraph(calls), f, g) :: !OnCycle(CallGraph(calls), g)
  }

  /** ... nor is it one of those in stale. */
  ghost predicate Orderly(calls: Calls, stale: set<FnId>, f: FnId) {
    CycleFree(calls, f) && forall g | g in stale :: !Reaches(CallGraph(calls), f, g)
  }

  /** The state kept while the functions in open are being flattened: each orderly
      function that was visited and is finished is complete. */
  ghost predicate Progress(calls: Calls, direct: Types, s: Flat, open: set<FnId>, stale: set<FnId>) {
    && Between(calls, direct, s.types)
    && (forall f | f in s.visited - open && Orderly(calls, stale, f) :: Complete(calls, direct, s.types, f))
  }

  /** What the functions that one call on f newly visits contribute to f. */
  ghost predicate Collected(calls: Calls, s: Flat, f: FnId, r: Flat, x: FnId) {
    && Image(s.types, x) <= Image(r.types, f)
    && (forall h | h in Image(CallGraph(calls), x) && h in s.visited :: Image(s.types, h) <= Image(r.types, f))
  }

  /** What x can pass on to its callers when it is first visited in state s: its own
      types, and those its already visited callees hold by then. */
  ghost predicate Offers(calls: Calls, s: Flat, x: FnId, t: Udt) {
    || t in Image(s.types, x)
    || exists h :: h in Image(CallGraph(calls), x) && h in s.visited && t in Image(s.types, h)
  }

  /** x can be reached from f without passing a visited function. */
  ghost predicate Newly(calls: Calls, visited: set<FnId>, f: FnId, x: FnId) {
    Reaches(Avoiding(CallGraph(calls), visited), f, x)
  }

  /** What the functions that a first call on f will newly visit have on offer. */
  ghost predicate Offered(calls: Calls, s: Flat, f: FnId, t: Udt) {
    exists x :: Newly(calls, s.visited, f, x) && Offers(calls, s, x, t)
  }

  ghost predicate OfferedByNew(calls: Calls, s: Flat, r: Flat, t: Udt) {
    exists x :: x in r.visited - s.visited && Offers(calls, s, x, t)
  }

  /** The effect of a first call on f, in any graph. */
  ghost predicate FirstCall(calls: Calls, s: Flat, f: FnId, r: Flat) {
    && f in r.visited
    && (forall x | x in r.visited - s.visited ::
          Newly(calls, s.visited, f, x) && Image(CallGraph(calls), x) <= r.visited)
    && (forall x | x in r.visited - s.visited :: Collected(calls, s, f, r, x))
    && (forall x, t | x in r.visited - s.visited && t in Image(r.types, x) :: OfferedByNew(calls, s, r, t))
    && (forall x | x !in r.visited - s.visited :: Image(r.types, x) == Image(s.types, x))
  }

  lemma MergeImages(types: Types, into: FnId, from: FnId)
    ensures forall x :: Image(Merge(types, into, from), x)
                        == if x == into then Image(types, into) + Image(types, from) else Image(types, x)
  {
  }

  lemma MergeKeepsBetween(calls: Calls, direct: Types, types: Types, f: FnId, g: FnId)
    requires Between(calls, direct, types)
    requires g in Image(CallGraph(calls), f)
    ensures Between(calls, direct, Merge(types, f, g))
  {
    var merged := Merge(types, f, g);
    MergeImages(types, f, g);
    ReachesStep(CallGraph(calls), f, g);
    forall x, t | t in Image(merged, x) ensures UsesVia(calls, direct, x, t) {
      if t in Image(types, x) {
        assert UsesVia(calls, direct, x, t);
      } else {
        assert x == f && t in Image(types, g);
        UsesViaInherits(calls, direct, f, g, t);
      }
    }
    forall x ensures Image(direct, x) <= Image(merged, x) {
      assert Image(direct, x) <= Image(types, x) <= Image(merged, x);
    }
  }

  lemma MergeKeepsProgress(calls: Calls, direct: Types, s: Flat, f: FnId, g: FnId, open: set<FnId>, stale: set<FnId>)
    requires Progress(calls, direct, s, open, stale) && g in Image(CallGraph(calls), f)
    ensures Progress(calls, direct, s.(types := Merge(s.types, f, g)), open, stale)
  {
    MergeKeepsBetween(calls, direct, s.types, f, g);
    MergeImages(s.types, f, g);
  }

  lemma UsesViaInherits(calls: Calls, direct: Types, f: FnId, h: FnId, t: Udt)
    requires Reaches(CallGraph(calls), f, h) && UsesVia(calls, direct, h, t)
    ensures UsesVia(calls, direct, f, t)
  {
    var g :| Reaches(CallGraph(calls), h, g) && t in Image(direct, g);
    ReachesTrans(CallGraph(calls), f, h, g);
  }

  /** A path from f to a function not newly visited passes through a callee of a
      newly visited function that had been visited before. */
  lemma Exit(calls: Calls, s: Flat, f: FnId, r: Flat, g: FnId) returns (a: FnId, h: FnId)
    requires FirstCall(calls, s, f, r) && f !in s.visited
    requires Reaches(CallGraph(calls), f, g) && g !in r.visited - s.visited
    ensures a in r.visited - s.visited && h in Image(CallGraph(calls), a) && h in s.visited
    ensures Reaches(CallGraph(calls), f, h) && Reaches(CallGraph(calls), h, g)
  {
    var cg := CallGraph(calls);
    var p :| WalkFromTo(cg, p, f, g);
    a, h := LeavesAt(cg, r.visited - s.visited, p);
    ReachesStep(cg, a, h);
    ReachesTrans(cg, f, a, h);
  }

  lemma OfferedIsHeld(calls: Calls, s: Flat, f: FnId, r: Flat, t: Udt)
    requires FirstCall(calls, s, f, r) && OfferedByNew(calls, s, r, t)
    ensures t in Image(r.types, f)
  {
    var x :| x in r.visited - s.visited && Offers(calls, s, x, t);
    assert Collected(calls, s, f, r, x);
  }

  /** A first call leaves f complete whenever the newly visited functions offer
      what the functions visited before and reached by f use. */
  lemma FirstCallCompletes(calls: Calls, direct: Types, s: Flat, f: FnId, r: Flat)
    requires FirstCall(calls, s, f, r) && f !in s.visited
    requires forall g :: Image(direct, g) <= Image(s.types, g)
    requires forall h, t | h in s.visited && Reaches(CallGraph(calls), f, h) && UsesVia(calls, direct, h, t) ::
               OfferedByNew(calls, s, r, t)
    ensures Complete(calls, direct, r.types, f)
  {
    forall t | UsesVia(calls, direct, f, t) ensures t in Image(r.types, f) {
      var g :| Reaches(CallGraph(calls), f, g) && t in Image(direct, g);
      if g in r.visited - s.visited {
        assert Offers(calls, s, g, t);
      } else {
        var a, h := Exit(calls, s, f, r, g);
        assert UsesVia(calls, direct, h, t);
      }
      OfferedIsHeld(calls, s, f, r, t);
    }
  }

  /** ... which they do when those functions were complete. */
  lemma FirstCallComplete(calls: Calls, direct: Types, s: Flat, f: FnId, r: Flat)
    requires FirstCall(calls, s, f, r) && f !in s.visited
    requires forall g :: Image(direct, g) <= Image(s.types, g)
    requires forall h | h in s.visited && Reaches(CallGraph(calls), f, h) :: Complete(calls, direct, s.types, h)
    ensures Complete(calls, direct, r.types, f)
  {
    forall g, t | g in s.visited && Reaches(CallGraph(calls), f, g) && UsesVia(calls, direct, g, t)
      ensures OfferedByNew(calls, s, r, t)
    {
      var a, h := Exit(calls, s, f, r, g);
      UsesViaInherits(calls, direct, h, g, t);
      assert Offers(calls, s, a, t);
    }
    FirstCallCompletes(calls, direct, s, f, r);
  }

  /** Each function in open reaches f, or is out of its reach, or is stale. */
  ghost predicate Behind(calls: Calls, open: set<FnId>, stale: set<FnId>, f: FnId) {
    forall o | o in open - stale :: Reaches(CallGraph(calls), o, f) || !Reaches(CallGraph(calls), f, o)
  }

  lemma BehindStep(calls: Calls, open: set<FnId>, stale: set<FnId>, f: FnId, g: FnId)
    requires Behind(calls, open, stale, f) && g in Image(CallGraph(calls), f)
    ensures Behind(calls, open + {f}, stale, g)
  {
    var cg := CallGraph(calls);
    ReachesStep(cg, f, g);
    forall o | o in open - stale ensures Reaches(cg, o, g) || !Reaches(cg, g, o) {
      if Reaches(cg, o, f) { ReachesTrans(cg, o, f, g); }
      else if Reaches(cg, g, o) { ReachesTrans(cg, f, g, o); }
    }
  }

  /** An orderly function cannot reach one that is still being flattened. */
  lemma OrderlyAvoidsOpen(calls: Calls, open: set<FnId>, stale: set<FnId>, f: FnId, o: FnId)
    requires Orderly(calls, stale, f) && Behind(calls, open, stale, f) && o in open && o != f
    ensures !Reaches(CallGraph(calls), f, o)
  {
    var cg := CallGraph(calls);
    if Reaches(cg, f, o) {
      var z := ReachesFirst(cg, f, o);
      ReachesTrans(cg, z, o, f);
      ReachesSelf(cg, f);
      assert false;
    }
  }

  lemma OrderlyInherits(calls: Calls, stale: set<FnId>, f: FnId, h: FnId)
    requires Orderly(calls, stale, f) && Reaches(CallGraph(calls), f, h)
    ensures Orderly(calls, stale, h)
  {
    var cg := CallGraph(calls);
    forall g | Reaches(cg, h, g) ensures !OnCycle(cg, g) && g !in stale { ReachesTrans(cg, f, h, g); }
  }

  // ------------------------------------------------------------------
  // One call
  // ------------------------------------------------------------------

  /** The loop of the first call on f, entered in state s0, has come to state s
      with the callees in todo still to do. */
  ghost predicate Halfway(calls: Calls, s0: Flat, f: FnId, s: Flat, todo: seq<FnId>) {
    && f in s.visited - s0.visited && s0.visited <= s.visited
    && Grows(s0.types, s.types)
    && f !in s0.visited && (forall x | x in s.visited - s0.visited :: Newly(calls, s0.visited, f, x))
    && (forall x | x in s.visited - s0.visited && x != f ::
          Image(CallGraph(calls), x) <= s.visited && Collected(calls, s0, f, s, x))
    && (forall x, t | x in s.visited - s0.visited && t in Image(s.types, x) :: OfferedByNew(calls, s0, s, t))
    && (forall x | x !in s.visited - s0.visited :: Image(s.types, x) == Image(s0.types, x))
    && (forall g | g in Image(CallGraph(calls), f) && g !in todo :: CalleeDone(s0, f, s, g))
  }

  ghost predicate CalleeDone(s0: Flat, f: FnId, s: Flat, g: FnId) {
    g in s.visited && (g in s0.visited ==> Image(s0.types, g) <= Image(s.types, f))
  }

  /** Whatever g and the functions first visited with it hold was on offer already
      when f was first visited. */
  lemma OffersCarryBack(calls: Calls, s0: Flat, f: FnId, s: Flat, todo: seq<FnId>, s1: Flat, x: FnId, t: Udt)
    requires Halfway(calls, s0, f, s, todo)
    requires todo != [] && todo[0] in Image(CallGraph(calls), f)
    requires s.visited <= s1.visited
    requires if todo[0] in s.visited then s1 == s else FirstCall(calls, s, todo[0], s1)
    requires t in Image(s1.types, x) && (x in s1.visited - s0.visited || x == todo[0])
    ensures OfferedByNew(calls, s0, s1, t)
  {
    if x in s1.visited - s.visited {
      assert OfferedByNew(calls, s, s1, t);
      var y :| y in s1.visited - s.visited && Offers(calls, s, y, t);
      if t in Image(s.types, y) {
        assert Offers(calls, s0, y, t);
      } else {
        var h :| h in Image(CallGraph(calls), y) && h in s.visited && t in Image(s.types, h);
        if h in s0.visited {
          assert Offers(calls, s0, y, t);
        } else {
          assert OfferedByNew(calls, s0, s, t);
        }
      }
    } else if x in s0.visited {
      assert Offers(calls, s0, f, t);
    } else {
      assert OfferedByNew(calls, s0, s, t);
    }
  }

  lemma NewlyStep(calls: Calls, visited: set<FnId>, f: FnId, visited': set<FnId>, g: FnId, x: FnId)
    requires visited <= visited' && f !in visited && g !in visited'
    requires g in Image(CallGraph(calls), f) && Newly(calls, visited', g, x)
    ensures Newly(calls, visited, f, x)
  {
    var less, more := Avoiding(CallGraph(calls), visited'), Avoiding(CallGraph(calls), visited);
    SubgraphReaches(less, more, g, x);
    ReachesStep(more, f, g);
    ReachesTrans(more, f, g, x);
  }

  lemma HalfwayStep(calls: Calls, s0: Flat, f: FnId, s: Flat, todo: seq<FnId>, s1: Flat)
    requires Halfway(calls, s0, f, s, todo)
    requires todo != [] && todo[0] != f && todo[0] in Image(CallGraph(calls), f)
    requires Grows(s.types, s1.types) && s.visited <= s1.visited
    requires if todo[0] in s.visited then s1 == s else FirstCall(calls, s, todo[0], s1)
    ensures Halfway(calls, s0, f, s1.(types := Merge(s1.types, f, todo[0])), todo[1..])
  {
    var cg, g := CallGraph(calls), todo[0];
    var s2 := s1.(types := Merge(s1.types, f, g));
    MergeImages(s1.types, f, g);
    forall x | x in s2.visited - s0.visited
      ensures Newly(calls, s0.visited, f, x)
      ensures x != f ==> Image(cg, x) <= s2.visited && Collected(calls, s0, f, s2, x)
    {
      if x in s.visited {
        assert x != f ==> Collected(calls, s0, f, s, x);
      } else {
        NewlyStep(calls, s0.visited, f, s.visited, g, x);
        assert Collected(calls, s, g, s1, x);
      }
    }
    forall x, t | x in s2.visited - s0.visited && t in Image(s2.types, x) ensures OfferedByNew(calls, s0, s2, t) {
      var from := if t in Image(s1.types, x) then x else g;
      OffersCarryBack(calls, s0, f, s, todo, s1, from, t);
      var y :| y in s1.visited - s0.visited && Offers(calls, s0, y, t);
    }
    forall x | x in Image(cg, f) && x !in todo[1..] ensures CalleeDone(s0, f, s2, x) {
      assert x == g || x !in todo;
    }
  }

  /** Flattening f keeps Progress, and a first call has the effect FirstCall. */
  lemma {:induction false} FlattenFnFacts(calls: Calls, direct: Types, s: Flat, f: FnId, open: set<FnId>,
      stale: set<FnId>)
    requires f in Functions(calls) && open <= s.visited
    requires Behind(calls, open, stale, f)
    requires Progress(calls, direct, s, open, stale)
    ensures var r := FlattenFrom(calls, s, f);
            && Progress(calls, direct, r, open, stale) && Grows(s.types, r.types)
            && (f !in s.visited ==> FirstCall(calls, s, f, r))
    decreases Functions(calls) - s.visited, 0
  {
    if f !in s.visited {
      assert f in Functions(calls) - s.visited;
      HalfwayStart(calls, direct, s, f, open, stale);
      FlattenCalleesFacts(calls, direct, s, f, open, stale, s.(visited := s.visited + {f}), Callees(calls, f));
      HalfwayEnd(calls, direct, s, f, open, stale, FlattenFrom(calls, s, f));
    }
  }

  lemma HalfwayStart(calls: Calls, direct: Types, s: Flat, f: FnId, open: set<FnId>, stale: set<FnId>)
    requires Progress(calls, direct, s, open, stale) && f !in s.visited
    ensures var s1 := s.(visited := s.visited + {f});
            && Progress(calls, direct, s1, open + {f}, stale)
            && Halfway(calls, s, f, s1, Callees(calls, f))
  {
    ReachesSelf(Avoiding(CallGraph(calls), s.visited), f);
  }

  lemma HalfwayEnd(calls: Calls, direct: Types, s: Flat, f: FnId, open: set<FnId>, stale: set<FnId>, r: Flat)
    requires Progress(calls, direct, s, open, stale) && f !in s.visited
    requires Behind(calls, open, stale, f)
    requires Halfway(calls, s, f, r, []) && Progress(calls, direct, r, open + {f}, stale)
    ensures FirstCall(calls, s, f, r) && Progress(calls, direct, r, open, stale)
  {
    var cg := CallGraph(calls);
    assert Collected(calls, s, f, r, f) by {
      forall h | h in Image(cg, f) && h in s.visited ensures Image(s.types, h) <= Image(r.types, f) {
        assert CalleeDone(s, f, r, h);
      }
    }
    assert Image(cg, f) <= r.visited by {
      forall h | h in Image(cg, f) ensures h in r.visited { assert CalleeDone(s, f, r, h); }
    }
    if Orderly(calls, stale, f) {
      forall h | h in s.visited && Reaches(cg, f, h) ensures Complete(calls, direct, s.types, h) {
        if h in open { OrderlyAvoidsOpen(calls, open, stale, f, h); }
        OrderlyInherits(calls, stale, f, h);
      }
      FirstCallComplete(calls, direct, s, f, r);
    }
  }

  lemma {:induction false} FlattenCalleesFacts(calls: Calls, direct: Types, s0: Flat, f: FnId, open: set<FnId>,
      stale: set<FnId>, s: Flat, todo: seq<FnId>)
    requires forall g | g in todo :: g in Functions(calls) && g in Image(CallGraph(calls), f)
    requires open <= s0.visited
    requires Behind(calls, open, stale, f)
    requires Progress(calls, direct, s, open + {f}, stale)
    requires Halfway(calls, s0, f, s, todo)
    ensures var r := FlattenCallees(calls, s, f, todo);
            && Progress(calls, direct, r, open + {f}, stale) && Halfway(calls, s0, f, r, [])
    decreases Functions(calls) - s.visited, |todo|
  {
    if todo == [] {
    } else if todo[0] == f {
      assert forall x | x in Image(CallGraph(calls), f) && x !in todo[1..] :: x == f || x !in todo;
      FlattenCalleesFacts(calls, direct, s0, f, open, stale, s, todo[1..]);
    } else {
      var cg, g := CallGraph(calls), todo[0];
      BehindStep(calls, open, stale, f, g);
      FlattenFnFacts(calls, direct, s, g, open + {f}, stale);
      var s1 := FlattenFrom(calls, s, g);
      var s2 := s1.(types := Merge(s1.types, f, g));
      HalfwayStep(calls, s0, f, s, todo, s1);
      MergeKeepsProgress(calls, direct, s1, f, g, open + {f}, stale);
      assert Functions(calls) - s1.visited <= Functions(calls) - s.visited;
      FlattenCalleesFacts(calls, direct, s0, f, open, stale, s2, todo[1..]);
    }
  }

  // ------------------------------------------------------------------
  // The whole of writeOutToDb
  // ------------------------------------------------------------------

  type Edge = (Udt, Udt)

  /** Edges between two distinct objects: what `addUsesInImpl` lets through. */
  predicate Proper(source: Udt, target: Udt) {
    source != NULL_UDT && target != NULL_UDT && source != target
  }

  ghost function Edges(udtDepFn: map<Udt, set<FnId>>, types: Types): set<Edge> {
    set source, f, target | source in udtDepFn && f in udtDepFn[source] && target in Image(types, f)
      && Proper(source, target) :: (source, target)
  }

  ghost function EdgesVia(source: Udt, fns: set<FnId>, types: Types): set<Edge> {
    set f, target | f in fns && target in Image(types, f) && Proper(source, target) :: (source, target)
  }

  /** The type `source` uses some function that uses `target`, directly or through
      other functions. */
  ghost predicate Implied(calls: Calls, direct: Types, udtDepFn: map<Udt, set<FnId>>, source: Udt, target: Udt) {
    Proper(source, target) && exists f :: f in Image(udtDepFn, source) && UsesVia(calls, direct, f, target)
  }

  lemma DirectBetween(calls: Calls, direct: Types)
    ensures Between(calls, direct, direct)
  {
    forall f, t | t in Image(direct, f) ensures UsesVia(calls, direct, f, t) {
      ReachesSelf(CallGraph(calls), f);
    }
  }

  /** Whatever order the functions are taken in, flattening all of them adds no
      type that is not used through calls, and completes each cycle-free one. */
  lemma {:induction false} FlattenAllProgress(calls: Calls, direct: Types, roots: seq<FnId>)
    requires forall f | f in roots :: f in Functions(calls)
    ensures var r := FlattenAll(calls, Flat({}, direct), roots);
            Progress(calls, direct, r, {}, {}) && forall f | f in roots :: f in r.visited
  {
    if roots == [] {
      DirectBetween(calls, direct);
    } else {
      FlattenAllProgress(calls, direct, roots[..|roots| - 1]);
      var s := FlattenAll(calls, Flat({}, direct), roots[..|roots| - 1]);
      FlattenFnFacts(calls, direct, s, roots[|roots| - 1], {}, {});
    }
  }

  lemma FlattenAllCompletes(calls: Calls, direct: Types, roots: seq<FnId>, f: FnId)
    requires Elements(roots) == calls.Keys && CycleFree(calls, f)
    ensures Complete(calls, direct, FlattenAll(calls, Flat({}, direct), roots).types, f)
  {
    FlattenAllProgress(calls, direct, roots);
    var r := FlattenAll(calls, Flat({}, direct), roots);
    if f !in r.visited {
      assert f !in calls.Keys;
      LeafIsComplete(calls, direct, r.types, f);
    }
  }

  lemma LeafIsComplete(calls: Calls, direct: Types, types: Types, f: FnId)
    requires Between(calls, direct, types) && f !in calls
    ensures Complete(calls, direct, types, f)
  {
    forall g | Reaches(CallGraph(calls), f, g) ensures g == f {
      ClosedHoldsReach(CallGraph(calls), {f}, f, g);
    }
    assert Image(direct, f) <= Image(types, f);
  }

  /** The edges written are implied ones ... */
  lemma WrittenIsImplied(calls: Calls, direct: Types, udtDepFn: map<Udt, set<FnId>>, roots: seq<FnId>, source: Udt,
      target: Udt)
    requires Elements(roots) == calls.Keys
    requires (source, target) in Edges(udtDepFn, FlattenAll(calls, Flat({}, direct), roots).types)
    ensures Implied(calls, direct, udtDepFn, source, target)
  {
    FlattenAllProgress(calls, direct, roots);
    var types := FlattenAll(calls, Flat({}, direct), roots).types;
    var f :| f in Image(udtDepFn, source) && target in Image(types, f);
    assert UsesVia(calls, direct, f, target);
  }

  /** `source` uses a cycle-free function that uses `target` through calls. */
  ghost predicate ImpliedOrderly(calls: Calls, direct: Types, udtDepFn: map<Udt, set<FnId>>, source: Udt, target: Udt) {
    && Proper(source, target)
    && exists f :: f in Image(udtDepFn, source) && CycleFree(calls, f) && UsesVia(calls, direct, f, target)
  }

  /** ... and an edge implied by a cycle-free function is always written. So with no
      cycles at all the edges written are exactly the implied ones, in every iteration
      order. */
  lemma ImpliedIsWritten(calls: Calls, direct: Types, udtDepFn: map<Udt, set<FnId>>, roots: seq<FnId>, source: Udt,
      target: Udt)
    requires Elements(roots) == calls.Keys
    requires ImpliedOrderly(calls, direct, udtDepFn, source, target)
    ensures (source, target) in Edges(udtDepFn, FlattenAll(calls, Flat({}, direct), roots).types)
  {
    var f :| f in Image(udtDepFn, source) && CycleFree(calls, f) && UsesVia(calls, direct, f, target);
    FlattenAllCompletes(calls, direct, roots, f);
  }

  /** In any graph, cycles included: a first call on f makes f exact if no function
      that f reaches was visited before. */
  lemma UnvisitedRootIsExact(calls: Calls, direct: Types, s: Flat, f: FnId, t: Udt)
    requires f in Functions(calls) && Between(calls, direct, s.types)
    requires forall g | Reaches(CallGraph(calls), f, g) :: g !in s.visited
    ensures t in Image(FlattenFrom(calls, s, f).types, f) <==> UsesVia(calls, direct, f, t)
  {
    ReachesSelf(CallGraph(calls), f);
    FlattenFnFacts(calls, direct, s, f, s.visited, s.visited);
    FirstCallComplete(calls, direct, s, f, FlattenFrom(calls, s, f));
  }

  /** A first call visits exactly the functions that f reaches without passing one
      that was visited before. */
  lemma NewlyVisited(calls: Calls, s: Flat, f: FnId, x: FnId)
    requires f in Functions(calls) && f !in s.visited
    ensures FirstCall(calls, s, f, FlattenFrom(calls, s, f))
    ensures x in FlattenFrom(calls, s, f).visited - s.visited <==> Newly(calls, s.visited, f, x)
  {
    DirectBetween(calls, s.types);
    FlattenFnFacts(calls, s.types, s, f, s.visited, s.visited);
    var r := FlattenFrom(calls, s, f);
    if Newly(calls, s.visited, f, x) {
      ClosedHoldsReach(Avoiding(CallGraph(calls), s.visited), r.visited - s.visited, f, x);
    }
  }

  lemma OfferedBefore(calls: Calls, s: Flat, f: FnId, t: Udt)
    requires f in Functions(calls) && f !in s.visited
    ensures OfferedByNew(calls, s, FlattenFrom(calls, s, f), t) <==> Offered(calls, s, f, t)
  {
    var r := FlattenFrom(calls, s, f);
    if OfferedByNew(calls, s, r, t) {
      var x :| x in r.visited - s.visited && Offers(calls, s, x, t);
      NewlyVisited(calls, s, f, x);
    }
    if Offered(calls, s, f, t) {
      var x :| Newly(calls, s.visited, f, x) && Offers(calls, s, x, t);
      NewlyVisited(calls, s, f, x);
    }
  }

  /** In any graph, cycles included, a first call on f leaves f with exactly what the
      functions reached without passing visited ones have on offer beforehand. */
  lemma FirstCallHolds(calls: Calls, s: Flat, f: FnId, t: Udt)
    requires f in Functions(calls) && f !in s.visited
    ensures t in Image(FlattenFrom(calls, s, f).types, f) <==> Offered(calls, s, f, t)
  {
    NewlyVisited(calls, s, f, f);
    OfferedBefore(calls, s, f, t);
    if Offered(calls, s, f, t) {
      OfferedIsHeld(calls, s, f, FlattenFrom(calls, s, f), t);
    }
  }

  /** So f is complete if and only if they offer each type that is used through a
      visited function in f's reach. */
  lemma FirstCallExactlyWhen(calls: Calls, direct: Types, s: Flat, f: FnId)
    requires f in Functions(calls) && f !in s.visited && Between(calls, direct, s.types)
    ensures Complete(calls, direct, FlattenFrom(calls, s, f).types, f) <==>
            forall h, t | h in s.visited && Reaches(CallGraph(calls), f, h) && UsesVia(calls, direct, h, t) ::
              Offered(calls, s, f, t)
  {
    var cg, r := CallGraph(calls), FlattenFrom(calls, s, f);
    if Complete(calls, direct, r.types, f) {
      forall h, t | h in s.visited && Reaches(cg, f, h) && UsesVia(calls, direct, h, t)
        ensures Offered(calls, s, f, t)
      {
        UsesViaInherits(calls, direct, f, h, t);
        FirstCallHolds(calls, s, f, t);
      }
    }
    if forall h, t | h in s.visited && Reaches(cg, f, h) && UsesVia(calls, direct, h, t) :: Offered(calls, s, f, t) {
      forall h, t | h in s.visited && Reaches(cg, f, h) && UsesVia(calls, direct, h, t)
        ensures OfferedByNew(calls, s, r, t)
      {
        OfferedBefore(calls, s, f, t);
      }
      NewlyVisited(calls, s, f, f);
      FirstCallCompletes(calls, direct, s, f, r);
    }
  }

  lemma CyclesCanLoseTypes()
    ensures var calls: Calls, direct: Types := map[0 := [1, 2], 1 := [0]], map[2 := {7}];
            && UsesVia(calls, direct, 1, 7)
            && 7 !in Image(FlattenAll(calls, Flat({}, direct), [0, 1]).types, 1)
  {
    var direct: Types := map[2 := {7}];
    var calls: Calls := map[0 := [1, 2], 1 := [0]];
    assert UsesVia(calls, direct, 1, 7) by {
      ReachesStep(CallGraph(calls), 1, 0);
      ReachesStep(CallGraph(calls), 0, 2);
      ReachesTrans(CallGraph(calls), 1, 0, 2);
    }
    assert 2 in calls[0] && 0 in Functions(calls) && 1 in Functions(calls) && 2 in Functions(calls);
    var s1 := Flat({0, 1}, Merge(direct, 1, 0));
    assert FlattenFrom(calls, Flat({0}, direct), 1) == s1 by {
      assert FlattenFrom(calls, Flat({0, 1}, direct), 0) == Flat({0, 1}, direct);
      assert FlattenCallees(calls, Flat({0, 1}, direct), 1, [0]) == FlattenCallees(calls, s1, 1, []);
    }
    var s2 := Flat({0, 1}, Merge(s1.types, 0, 1));
    var s3 := Flat({0, 1, 2}, Merge(s2.types, 0, 2));
    assert FlattenFrom(calls, s2, 2) == FlattenCallees(calls, Flat({0, 1, 2}, s2.types), 2, []);
    assert FlattenCallees(calls, s2, 0, [2]) == FlattenCallees(calls, s3, 0, []) == s3;
    assert FlattenCallees(calls, Flat({0}, direct), 0, [1, 2]) == FlattenCallees(calls, s2, 0, [2]);
    assert Flat({}, direct).visited + {0} == {0} && Callees(calls, 0) == [1, 2];
    assert FlattenFrom(calls, Flat({}, direct), 0) == FlattenCallees(calls, Flat({0}, direct), 0, Callees(calls, 0));
    RootsInTurn(calls, direct, s3);
  }

  /** With cycles edges can be lost: 0 calls 1 and 2, 1 calls 0, and 2 uses the type
      7. Taken in this order, 1 is flattened while 0 has not heard of 7 yet; so the
      type 5, which uses 1, is not linked with 7. */
  lemma CyclesCanLoseEdges()
    ensures var calls: Calls, direct: Types := map[0 := [1, 2], 1 := [0]], map[2 := {7}];
            var udtDepFn: map<Udt, set<FnId>> := map[5 := {1}];
            && Elements([0, 1]) == calls.Keys && Implied(calls, direct, udtDepFn, 5, 7)
            && (5, 7) !in Edges(udtDepFn, FlattenAll(calls, Flat({}, direct), [0, 1]).types)
  {
    CyclesCanLoseTypes();
    var udtDepFn: map<Udt, set<FnId>> := map[5 := {1}];
    assert 1 in Image(udtDepFn, 5);
  }

  lemma RootsInTurn(calls: Calls, direct: Types, s: Flat)
    requires calls.Keys == {0, 1} && 1 in s.visited
    requires FlattenFrom(calls, Flat({}, direct), 0) == s
    ensures FlattenAll(calls, Flat({}, direct), [0, 1]) == s
  {
    assert [0, 1][..1] == [0] && [0][..0] == [];
    assert FlattenAll(calls, Flat({}, direct), [0]) == s;
  }

  // ------------------------------------------------------------------
  // Complete in every order
  // ------------------------------------------------------------------

  ghost predicate SimplePath(g: Graph<FnId>, p: seq<FnId>) {
    IsWalk(g, p) && forall i, j | 0 <= i < j < |p| :: p[i] != p[j]
  }

  /** While the functions in open are being flattened, a first call on f still comes to
      g: past none of them, or it is one of them and called by a function come to. */
  ghost predicate StillReached(graph: Graph<FnId>, open: set<FnId>, f: FnId, g: FnId) {
    exists z :: Reaches(Avoiding(graph, open), f, z) && (g == z || (g in open && g in Image(graph, z)))
  }

  ghost predicate Harmless(graph: Graph<FnId>, p: seq<FnId>)
    requires p != []
  {
    var n := |p| - 1;
    forall g | Reaches(graph, p[n], g) :: StillReached(graph, Elements(p[..n]), p[n], g)
  }

  /** Coming along any path, a first call on its last function misses nothing. */
  ghost predicate HarmlessPaths(graph: Graph<FnId>) {
    forall p | SimplePath(graph, p) :: Harmless(graph, p)
  }

  ghost predicate AllDone(calls: Calls, direct: Types, s: Flat, open: set<FnId>) {
    && Between(calls, direct, s.types)
    && (forall f | f in s.visited - open :: Complete(calls, direct, s.types, f))
  }

  /** What uses the type t offers it, or passes it on from a finished function. */
  lemma StillOffered(calls: Calls, direct: Types, s: Flat, f: FnId, open: set<FnId>, r: Flat, g: FnId, t: Udt)
    requires FirstCall(calls, s, f, r) && f !in s.visited && open <= s.visited && AllDone(calls, direct, s, open)
    requires StillReached(CallGraph(calls), open, f, g) && t in Image(direct, g)
    ensures OfferedByNew(calls, s, r, t)
  {
    var cg := CallGraph(calls);
    var z :| Reaches(Avoiding(cg, open), f, z) && (g == z || (g in open && g in Image(cg, z)));
    if z in r.visited - s.visited {
      assert Offers(calls, s, z, t);
    } else {
      var p :| WalkFromTo(Avoiding(cg, open), p, f, z);
      var a, h := LeavesAt(Avoiding(cg, open), r.visited - s.visited, p);
      assert h in Image(cg, a) && h in s.visited - open;
      SubgraphReaches(Avoiding(cg, open), cg, h, z);
      if g != z {
        ReachesStep(cg, z, g);
        ReachesTrans(cg, h, z, g);
      }
      assert UsesVia(calls, direct, h, t);
      assert Offers(calls, s, a, t);
    }
  }

  lemma PathCompletes(calls: Calls, direct: Types, s: Flat, f: FnId, stack: seq<FnId>, r: Flat)
    requires FirstCall(calls, s, f, r) && f !in s.visited && Elements(stack) <= s.visited
    requires AllDone(calls, direct, s, Elements(stack)) && Harmless(CallGraph(calls), stack + [f])
    ensures Complete(calls, direct, r.types, f)
  {
    forall h, t | h in s.visited && Reaches(CallGraph(calls), f, h) && UsesVia(calls, direct, h, t)
      ensures OfferedByNew(calls, s, r, t)
    {
      OfferedAlong(calls, direct, s, f, stack, r, h, t);
    }
    FirstCallCompletes(calls, direct, s, f, r);
  }

  lemma OfferedAlong(calls: Calls, direct: Types, s: Flat, f: FnId, stack: seq<FnId>, r: Flat, h: FnId, t: Udt)
    requires FirstCall(calls, s, f, r) && f !in s.visited && Elements(stack) <= s.visited
    requires AllDone(calls, direct, s, Elements(stack)) && Harmless(CallGraph(calls), stack + [f])
    requires Reaches(CallGraph(calls), f, h) && UsesVia(calls, direct, h, t)
    ensures OfferedByNew(calls, s, r, t)
  {
    var p := stack + [f];
    assert p[..|stack|] == stack && p[|p| - 1] == f;
    var g :| Reaches(CallGraph(calls), h, g) && t in Image(direct, g);
    ReachesTrans(CallGraph(calls), f, h, g);
    StillOffered(calls, direct, s, f, Elements(stack), r, g, t);
  }

  lemma PathOnward(graph: Graph<FnId>, stack: seq<FnId>, f: FnId, g: FnId)
    requires SimplePath(graph, stack) && stack[|stack| - 1] == f && g in Image(graph, f) && g !in Elements(stack)
    ensures SimplePath(graph, stack + [g])
  {
    forall i | 0 <= i < |stack| ensures stack[i] in Elements(stack) {}
  }

  lemma {:induction false} FlattenDone(calls: Calls, direct: Types, s: Flat, f: FnId, stack: seq<FnId>)
    requires HarmlessPaths(CallGraph(calls)) && f in Functions(calls)
    requires f !in s.visited ==> SimplePath(CallGraph(calls), stack + [f])
    requires Elements(stack) <= s.visited && AllDone(calls, direct, s, Elements(stack))
    ensures AllDone(calls, direct, FlattenFrom(calls, s, f), Elements(stack))
    decreases Functions(calls) - s.visited, 0
  {
    if f !in s.visited {
      assert f in Functions(calls) - s.visited;
      var s1, r := s.(visited := s.visited + {f}), FlattenFrom(calls, s, f);
      assert Elements(stack + [f]) == Elements(stack) + {f};
      CalleesDone(calls, direct, s1, f, Callees(calls, f), stack + [f]);
      NewlyVisited(calls, s, f, f);
      PathCompletes(calls, direct, s, f, stack, r);
    }
  }

  lemma {:induction false} CalleesDone(calls: Calls, direct: Types, s: Flat, f: FnId, todo: seq<FnId>, stack: seq<FnId>)
    requires HarmlessPaths(CallGraph(calls))
    requires SimplePath(CallGraph(calls), stack) && stack[|stack| - 1] == f
    requires forall g | g in todo :: g in Functions(calls) && g in Image(CallGraph(calls), f)
    requires Elements(stack) <= s.visited && AllDone(calls, direct, s, Elements(stack))
    ensures AllDone(calls, direct, FlattenCallees(calls, s, f, todo), Elements(stack))
    decreases Functions(calls) - s.visited, |todo|
  {
    if todo == [] {
    } else if todo[0] == f {
      CalleesDone(calls, direct, s, f, todo[1..], stack);
    } else {
      var g := todo[0];
      if g !in s.visited { PathOnward(CallGraph(calls), stack, f, g); }
      FlattenDone(calls, direct, s, g, stack);
      var s1 := FlattenFrom(calls, s, g);
      MergeDone(calls, direct, s1, f, g, Elements(stack));
      assert Functions(calls) - s1.visited <= Functions(calls) - s.visited;
      CalleesDone(calls, direct, s1.(types := Merge(s1.types, f, g)), f, todo[1..], stack);
    }
  }

  lemma MergeDone(calls: Calls, direct: Types, s: Flat, f: FnId, g: FnId, open: set<FnId>)
    requires AllDone(calls, direct, s, open) && f in open && g in Image(CallGraph(calls), f)
    ensures AllDone(calls, direct, s.(types := Merge(s.types, f, g)), open)
  {
    MergeKeepsBetween(calls, direct, s.types, f, g);
    MergeImages(s.types, f, g);
  }

  lemma {:induction false} AllRootsDone(calls: Calls, direct: Types, roots: seq<FnId>)
    requires HarmlessPaths(CallGraph(calls)) && forall f | f in roots :: f in Functions(calls)
    ensures AllDone(calls, direct, FlattenAll(calls, Flat({}, direct), roots), {})
  {
    if roots == [] {
      DirectBetween(calls, direct);
    } else {
      var n := |roots| - 1;
      AllRootsDone(calls, direct, roots[..n]);
      assert SimplePath(CallGraph(calls), [] + [roots[n]]);
      assert Elements([]) == {};
      FlattenDone(calls, direct, FlattenAll(calls, Flat({}, direct), roots[..n]), roots[n], []);
    }
  }

  lemma HarmlessCompletes(calls: Calls, direct: Types, roots: seq<FnId>, f: FnId)
    requires HarmlessPaths(CallGraph(calls)) && Elements(roots) == calls.Keys
    ensures Complete(calls, direct, FlattenAll(calls, Flat({}, direct), roots).types, f)
  {
    AllRootsDone(calls, direct, roots);
    FlattenAllProgress(calls, direct, roots);
    var r := FlattenAll(calls, Flat({}, direct), roots);
    if f in calls { assert f in roots; } else { LeafIsComplete(calls, direct, r.types, f); }
  }

  // What was visited keeps its types.

  lemma ImagesStay(calls: Calls, s: Flat, f: FnId, x: FnId)
    requires f in Functions(calls) && x in s.visited
    ensures Image(FlattenFrom(calls, s, f).types, x) == Image(s.types, x)
  {
    if f !in s.visited { NewlyVisited(calls, s, f, x); }
  }

  lemma {:induction false} CalleesStay(calls: Calls, s: Flat, f: FnId, todo: seq<FnId>, x: FnId)
    requires (forall g | g in todo :: g in Functions(calls)) && x in s.visited && x != f
    ensures Image(FlattenCallees(calls, s, f, todo).types, x) == Image(s.types, x)
    decreases |todo|
  {
    if todo == [] {
    } else if todo[0] == f {
      CalleesStay(calls, s, f, todo[1..], x);
    } else {
      var s1 := FlattenFrom(calls, s, todo[0]);
      ImagesStay(calls, s, todo[0], x);
      MergeImages(s1.types, f, todo[0]);
      CalleesStay(calls, s1.(types := Merge(s1.types, f, todo[0])), f, todo[1..], x);
    }
  }

  lemma {:induction false} RootsStay(calls: Calls, s: Flat, roots: seq<FnId>, n: nat, x: FnId)
    requires (forall f | f in roots :: f in Functions(calls)) && n <= |roots|
    requires x in FlattenAll(calls, s, roots[..n]).visited
    ensures Image(FlattenAll(calls, s, roots).types, x) == Image(FlattenAll(calls, s, roots[..n]).types, x)
    ensures x in FlattenAll(calls, s, roots).visited
    decreases |roots|
  {
    if n == |roots| {
      assert roots[..n] == roots;
    } else {
      var k := |roots| - 1;
      assert roots[..k][..n] == roots[..n];
      RootsStay(calls, s, roots[..k], n, x);
      ImagesStay(calls, FlattenAll(calls, s, roots[..k]), roots[k], x);
    }
  }

  /** Each function of the path but the last calls its successor first. */
  ghost predicate Straight(calls: Calls, p: seq<FnId>) {
    forall i | 0 <= i < |p| - 1 :: p[i] in calls && calls[p[i]] != [] && calls[p[i]][0] == p[i + 1]
  }

  function Opened(direct: Types, p: seq<FnId>, i: nat): Flat
    requires i <= |p|
  {
    Flat(Elements(p[..i]), direct)
  }

  lemma OpenedNext(direct: Types, p: seq<FnId>, i: nat)
    requires i < |p|
    ensures Opened(direct, p, i + 1) == Opened(direct, p, i).(visited := Opened(direct, p, i).visited + {p[i]})
  {
    assert p[..i + 1] == p[..i] + [p[i]];
  }

  ghost predicate Walked(calls: Calls, p: seq<FnId>) {
    && SimplePath(CallGraph(calls), p) && Straight(calls, p)
    && forall f | f in p :: f in Functions(calls)
  }

  /** Flattening straight along a path, the last function is called while just the others
      have been visited, and holds in the end what it holds after that call. */
  lemma {:induction false} AlongPath(calls: Calls, direct: Types, p: seq<FnId>, i: nat)
    requires Walked(calls, p) && i < |p|
    ensures var n, r := |p| - 1, FlattenFrom(calls, Opened(direct, p, i), p[i]);
            && p[n] in r.visited
            && Image(r.types, p[n]) == Image(FlattenFrom(calls, Opened(direct, p, n), p[n]).types, p[n])
    decreases |p| - i
  {
    var n, s := |p| - 1, Opened(direct, p, i);
    assert p[i] !in s.visited;
    NewlyVisited(calls, s, p[i], p[i]);
    if i < n {
      AlongPath(calls, direct, p, i + 1);
      OpenedNext(direct, p, i);
      StepAlong(calls, Opened(direct, p, i + 1), p[i], p[i + 1], p[n]);
    }
  }

  /** The callees after the first change nothing for a function visited with that. */
  lemma StepAlong(calls: Calls, s: Flat, f: FnId, g: FnId, x: FnId)
    requires f in calls && calls[f] != [] && calls[f][0] == g && f != g && x != f && g in Functions(calls)
    requires f in Functions(calls) && x in FlattenFrom(calls, s, g).visited
    ensures var r := FlattenCallees(calls, s, f, Callees(calls, f));
            x in r.visited && Image(r.types, x) == Image(FlattenFrom(calls, s, g).types, x)
  {
    var todo, s1 := Callees(calls, f), FlattenFrom(calls, s, g);
    MergeImages(s1.types, f, g);
    forall h | h in todo[1..] ensures h in Functions(calls) { assert h in calls[f]; }
    CalleesStay(calls, s1.(types := Merge(s1.types, f, g)), f, todo[1..], x);
  }

  // Any graph comes in an order that goes straight along a given path.

  lemma SeqOfElements(s: set<FnId>)
    ensures Elements(SeqOf(s)) == s
  {
    SeqOfLists(s);
  }

  ghost function Successor(p: seq<FnId>, f: FnId): Option<FnId> {
    if exists i :: 0 <= i < |p| - 1 && p[i] == f then
      var i :| 0 <= i < |p| - 1 && p[i] == f; Some(p[i + 1])
    else None
  }

  ghost function CalleesInOrder(callees: set<FnId>, first: Option<FnId>): seq<FnId> {
    if first.Some? && first.value in callees then [first.value] + SeqOf(callees - {first.value}) else SeqOf(callees)
  }

  ghost function InOrder(graph: Graph<FnId>, p: seq<FnId>): Calls {
    map f | f in graph :: CalleesInOrder(graph[f], Successor(p, f))
  }

  lemma InOrderIsGraph(graph: Graph<FnId>, p: seq<FnId>)
    ensures CallGraph(InOrder(graph, p)) == graph
  {
    forall f | f in graph ensures Elements(InOrder(graph, p)[f]) == graph[f] {
      var first := Successor(p, f);
      SeqOfElements(graph[f]);
      if first.Some? && first.value in graph[f] {
        SeqOfElements(graph[f] - {first.value});
        assert Elements(InOrder(graph, p)[f]) == {first.value} + Elements(SeqOf(graph[f] - {first.value}));
      }
    }
  }

  lemma InOrderIsStraight(graph: Graph<FnId>, p: seq<FnId>)
    requires SimplePath(graph, p) && |p| > 1
    ensures Walked(InOrder(graph, p), p)
  {
    InOrderIsGraph(graph, p);
    var calls := InOrder(graph, p);
    forall i | 0 <= i < |p| - 1 ensures p[i] in calls && calls[p[i]] != [] && calls[p[i]][0] == p[i + 1] {
      assert p[i + 1] in Image(graph, p[i]);
      assert Successor(p, p[i]) == Some(p[i + 1]);
    }
    forall f | f in p ensures f in Functions(calls) {
      var i :| 0 <= i < |p| && p[i] == f;
      if i == |p| - 1 { assert p[i] in Image(graph, p[i - 1]) && p[i] in Elements(calls[p[i - 1]]); }
    }
  }

  /** In every order of functions and callees, and for all types used directly and all
      uses of functions, each implied edge is written. */
  ghost predicate AlwaysComplete(graph: Graph<FnId>) {
    forall calls, direct, udtDepFn, roots, source: Udt, target: Udt |
      CallGraph(calls) == graph && Elements(roots) == calls.Keys && Implied(calls, direct, udtDepFn, source, target) ::
      (source, target) in Edges(udtDepFn, FlattenAll(calls, Flat({}, direct), roots).types)
  }

  lemma HarmfulLosesType(calls: Calls, p: seq<FnId>, g: FnId, t: Udt)
    requires Walked(calls, p) && Reaches(CallGraph(calls), p[|p| - 1], g)
    requires !StillReached(CallGraph(calls), Elements(p[..|p| - 1]), p[|p| - 1], g)
    ensures UsesVia(calls, map[g := {t}], p[|p| - 1], t)
    ensures var r := FlattenFrom(calls, Flat({}, map[g := {t}]), p[0]);
            p[|p| - 1] in r.visited && t !in Image(r.types, p[|p| - 1])
  {
    var n, direct: Types := |p| - 1, map[g := {t}];
    AlongPath(calls, direct, p, 0);
    assert Opened(direct, p, 0) == Flat({}, direct);
    var s := Opened(direct, p, n);
    assert p[n] !in s.visited;
    FirstCallHolds(calls, s, p[n], t);
  }

  lemma StraightLosesEdge(calls: Calls, p: seq<FnId>, g: FnId)
    requires Walked(calls, p) && |p| > 1 && Reaches(CallGraph(calls), p[|p| - 1], g)
    requires !StillReached(CallGraph(calls), Elements(p[..|p| - 1]), p[|p| - 1], g)
    ensures !AlwaysComplete(CallGraph(calls))
  {
    var direct: Types, f := map[g := {1}], p[|p| - 1];
    var roots := [p[0]] + SeqOf(calls.Keys - {p[0]});
    HarmfulLosesType(calls, p, g, 1);
    RootsAre(calls.Keys, p[0]);
    RootsFrom(calls, direct, p[0], SeqOf(calls.Keys - {p[0]}), f);
    LostEdge(calls, direct, roots, f);
  }

  /** A type that a function misses is missed by the types that use the function. */
  lemma LostEdge(calls: Calls, direct: Types, roots: seq<FnId>, f: FnId)
    requires Elements(roots) == calls.Keys && UsesVia(calls, direct, f, 1)
    requires 1 !in Image(FlattenAll(calls, Flat({}, direct), roots).types, f)
    ensures !AlwaysComplete(CallGraph(calls))
  {
    var udtDepFn: map<Udt, set<FnId>> := map[2 := {f}];
    assert f in Image(udtDepFn, 2) && Implied(calls, direct, udtDepFn, 2, 1);
    assert (2, 1) !in Edges(udtDepFn, FlattenAll(calls, Flat({}, direct), roots).types);
  }

  lemma RootsAre(keys: set<FnId>, first: FnId)
    requires first in keys
    ensures Elements([first] + SeqOf(keys - {first})) == keys
  {
    SeqOfElements(keys - {first});
    assert Elements([first] + SeqOf(keys - {first})) == {first} + Elements(SeqOf(keys - {first}));
  }

  lemma OneRoot(calls: Calls, s: Flat, first: FnId)
    requires first in Functions(calls)
    ensures FlattenAll(calls, s, [first]) == FlattenFrom(calls, s, first)
  {
    assert [first][..0] == [];
  }

  /** Flattening the others afterwards changes nothing for a function visited first. */
  lemma RootsFrom(calls: Calls, direct: Types, first: FnId, others: seq<FnId>, f: FnId)
    requires first in Functions(calls) && forall g | g in others :: g in Functions(calls)
    requires f in FlattenFrom(calls, Flat({}, direct), first).visited
    ensures Image(FlattenAll(calls, Flat({}, direct), [first] + others).types, f)
            == Image(FlattenFrom(calls, Flat({}, direct), first).types, f)
  {
    assert ([first] + others)[..1] == [first];
    OneRoot(calls, Flat({}, direct), first);
    RootsStay(calls, Flat({}, direct), [first] + others, 1, f);
  }

  lemma HarmfulLosesEdge(graph: Graph<FnId>, p: seq<FnId>, g: FnId)
    requires SimplePath(graph, p) && Reaches(graph, p[|p| - 1], g)
    requires !StillReached(graph, Elements(p[..|p| - 1]), p[|p| - 1], g)
    ensures !AlwaysComplete(graph)
  {
    if |p| == 1 {
      assert Elements(p[..0]) == {};
      SubgraphReaches(graph, Avoiding(graph, {}), p[0], g);
    } else {
      var calls := InOrder(graph, p);
      InOrderIsGraph(graph, p);
      InOrderIsStraight(graph, p);
      StraightLosesEdge(calls, p, g);
    }
  }

  /** The graphs for which no edge is ever lost, whatever the order, are exactly those in
      which a first call misses nothing along any path. */
  lemma AlwaysCompleteExactlyWhen(graph: Graph<FnId>)
    ensures AlwaysComplete(graph) <==> HarmlessPaths(graph)
  {
    if HarmlessPaths(graph) {
      forall calls, direct, udtDepFn, roots, source: Udt, target: Udt |
        CallGraph(calls) == graph && Elements(roots) == calls.Keys && Implied(calls, direct, udtDepFn, source, target)
        ensures (source, target) in Edges(udtDepFn, FlattenAll(calls, Flat({}, direct), roots).types)
      {
        HarmlessIsWritten(calls, direct, udtDepFn, roots, source, target);
      }
    } else {
      var p :| SimplePath(graph, p) && !Harmless(graph, p);
      var g :| Reaches(graph, p[|p| - 1], g) && !StillReached(graph, Elements(p[..|p| - 1]), p[|p| - 1], g);
      HarmfulLosesEdge(graph, p, g);
    }
  }

  lemma HarmlessIsWritten(calls: Calls, direct: Types, udtDepFn: map<Udt, set<FnId>>, roots: seq<FnId>, source: Udt,
      target: Udt)
    requires HarmlessPaths(CallGraph(calls)) && Elements(roots) == calls.Keys
    requires Implied(calls, direct, udtDepFn, source, target)
    ensures (source, target) in Edges(udtDepFn, FlattenAll(calls, Flat({}, direct), roots).types)
  {
    var f :| f in Image(udtDepFn, source) && UsesVia(calls, direct, f, target);
    HarmlessCompletes(calls, direct, roots, f);
  }

  // ------------------------------------------------------------------
  // The class
  // ------------------------------------------------------------------

  /** The part of the object store that is written here. */
  class TypeStore {
    var usesInImpl: set<Edge>

    constructor ()
      ensures usesInImpl == {}
    {
      usesInImpl := {};
    }

    /** `ClpUtil::addUsesInImpl`. */
    method AddUsesInImpl(source: Udt, target: Udt)
      modifies this
      ensures usesInImpl == old(usesInImpl) +
                if source != target && source != 0 && target != 0 then {(source, target)} else {}
    {
      if source == NULL_UDT || target == NULL_UDT || source == target {
        return;
      }
      usesInImpl := usesInImpl + {(source, target)};
    }
  }

  /** What an edge stands for: a type uses a static function, from which calls lead to one
      that uses another type. The null pointer is no type. */
  ghost predicate UsesThrough(calls: Calls, direct: Types, udtDepFn: map<Udt, set<FnId>>, source: Udt, target: Udt) {
    && source != target && source != 0 && target != 0 && source in udtDepFn
    && exists p :: CallPath(calls, p) && p[0] in udtDepFn[source]
                   && p[|p| - 1] in direct && target in direct[p[|p| - 1]]
  }

  ghost predicate CallPath(calls: Calls, p: seq<FnId>) {
    p != [] && forall i | 0 <= i < |p| - 1 :: CallsOne(calls, p[i], p[i + 1])
  }

  ghost predicate CallsOne(calls: Calls, f: FnId, g: FnId) {
    f in calls && g in calls[f]
  }

  lemma CallPathIsWalk(calls: Calls, p: seq<FnId>)
    ensures CallPath(calls, p) <==> IsWalk(CallGraph(calls), p)
  {
    forall i | 0 <= i < |p| - 1
      ensures CallsOne(calls, p[i], p[i + 1]) <==> p[i + 1] in Image(CallGraph(calls), p[i]) {}
    if CallPath(calls, p) {
      forall i | 0 <= i < |p| - 1 ensures p[i + 1] in Image(CallGraph(calls), p[i]) {
        assert CallsOne(calls, p[i], p[i + 1]);
      }
    }
  }

  /** This is what being implied means. */
  lemma ImpliedIs(calls: Calls, direct: Types, udtDepFn: map<Udt, set<FnId>>, source: Udt, target: Udt)
    ensures Implied(calls, direct, udtDepFn, source, target) <==> UsesThrough(calls, direct, udtDepFn, source, target)
  {
    if Implied(calls, direct, udtDepFn, source, target) {
      var f :| f in Image(udtDepFn, source) && UsesVia(calls, direct, f, target);
      var g :| Reaches(CallGraph(calls), f, g) && target in Image(direct, g);
      var p :| WalkFromTo(CallGraph(calls), p, f, g);
      CallPathIsWalk(calls, p);
    }
    if UsesThrough(calls, direct, udtDepFn, source, target) {
      var p :| CallPath(calls, p) && p[0] in udtDepFn[source]
               && p[|p| - 1] in direct && target in direct[p[|p| - 1]];
      CallPathIsWalk(calls, p);
      assert WalkFromTo(CallGraph(calls), p, p[0], p[|p| - 1]);
      assert Reaches(CallGraph(calls), p[0], p[|p| - 1]) && target in Image(direct, p[|p| - 1]);
      assert UsesVia(calls, direct, p[0], target);
    }
  }

  /** In a graph without cycles no path does harm. */
  lemma AcyclicIsHarmless(graph: Graph<FnId>)
    requires forall f :: !OnCycle(graph, f)
    ensures HarmlessPaths(graph)
  {
    forall p | SimplePath(graph, p) ensures Harmless(graph, p) {
      var open, last := Elements(p[..|p| - 1]), p[|p| - 1];
      forall g | Reaches(graph, last, g) ensures StillReached(graph, open, last, g) {
        NeverBack(graph, p, g);
      }
    }
  }

  lemma NeverBack(graph: Graph<FnId>, p: seq<FnId>, g: FnId)
    requires (forall f :: !OnCycle(graph, f)) && SimplePath(graph, p) && Reaches(graph, p[|p| - 1], g)
    ensures StillReached(graph, Elements(p[..|p| - 1]), p[|p| - 1], g)
  {
    var n := |p| - 1;
    var w :| WalkFromTo(graph, w, p[n], g);
    forall i | 0 <= i < |w| ensures w[i] !in Elements(p[..n]) {
      WalkPart(graph, w, 0, i);
      if w[i] in Elements(p[..n]) { BackIsCycle(graph, p, w[i]); }
    }
    var avoiding := Avoiding(graph, Elements(p[..n]));
    forall i | 0 <= i < |w| - 1 ensures w[i + 1] in Image(avoiding, w[i]) {
      assert w[i + 1] in Image(graph, w[i]);
    }
    assert WalkFromTo(avoiding, w, p[n], g);
    assert Reaches(avoiding, p[n], g);
  }

  lemma BackIsCycle(graph: Graph<FnId>, p: seq<FnId>, x: FnId)
    requires SimplePath(graph, p) && x in Elements(p[..|p| - 1]) && Reaches(graph, p[|p| - 1], x)
    ensures OnCycle(graph, x)
  {
    var n := |p| - 1;
    var j :| 0 <= j < n && p[j] == x;
    WalkPart(graph, p, j, n);
    var z := ReachesFirst(graph, p[j], p[n]);
    ReachesTrans(graph, z, p[n], x);
  }

  lemma WalkPart(graph: Graph<FnId>, p: seq<FnId>, i: nat, j: nat)
    requires IsWalk(graph, p) && i <= j < |p|
    ensures Reaches(graph, p[i], p[j])
  {
    var q := p[i..j + 1];
    forall k | 0 <= k < |q| - 1 ensures q[k + 1] in Image(graph, q[k]) {
      assert p[i + k + 1] in Image(graph, p[i + k]);
    }
    assert WalkFromTo(graph, q, p[i], p[j]);
  }

  class StaticFnHandler {
    const memDb: TypeStore
    var fnDepUdt: Types
    var fnDepFn: Calls
    var udtDepFn: map<Udt, set<FnId>>
    var visited: set<FnId>

    constructor (memDb: TypeStore)
      ensures this.memDb == memDb
      ensures fnDepUdt == map[] && fnDepFn == map[] && udtDepFn == map[] && visited == {}
    {
      this.memDb := memDb;
      fnDepUdt, fnDepFn, udtDepFn, visited := map[], map[], map[], {};
    }

    method AddFnUsesUdt(fn: FnId, udt: Udt)
      modifies this`fnDepUdt
      ensures forall f :: Image(fnDepUdt, f) == Image(old(fnDepUdt), f) + if f == fn then {udt} else {}
    {
      fnDepUdt := fnDepUdt[fn := Image(fnDepUdt, fn) + {udt}];
    }

    /** Direct self-calls are not recorded. */
    method AddFnUsesFn(fn: FnId, dep: FnId)
      modifies this`fnDepFn
      ensures forall f :: Elements(Callees(fnDepFn, f))
                          == Elements(Callees(old(fnDepFn), f)) + if f == fn != dep then {dep} else {}
    {
      if fn != dep {
        var deps := Callees(fnDepFn, fn);
        fnDepFn := fnDepFn[fn := if dep in deps then deps else deps + [dep]];
        assert Elements(deps + [dep]) == Elements(deps) + {dep};
      }
    }

    method AddUdtUses(udt: Udt, fn: FnId)
      modifies this`udtDepFn
      ensures forall u :: Image(udtDepFn, u) == Image(old(udtDepFn), u) + if u == udt then {fn} else {}
    {
      udtDepFn := udtDepFn[udt := Image(udtDepFn, udt) + {fn}];
    }

    /** Lookups in fnDepFn leave empty entries behind; they change no callee. */
    ghost predicate Same(calls: Calls)
      reads this`fnDepFn
    {
      forall f :: Callees(fnDepFn, f) == Callees(calls, f)
    }

    method FlattenFn(sourceFn: FnId, ghost calls: Calls)
      requires Same(calls) && sourceFn in Functions(calls)
      modifies this`visited, this`fnDepUdt, this`fnDepFn
      ensures Same(calls)
      ensures Flat(visited, fnDepUdt) == FlattenFrom(calls, Flat(old(visited), old(fnDepUdt)), sourceFn)
      decreases Functions(calls) - visited
    {
      if sourceFn in visited {
        return;
      }
      assert sourceFn in Functions(calls) - visited;
      visited := visited + {sourceFn};
      fnDepFn := fnDepFn[sourceFn := Callees(fnDepFn, sourceFn)];
      var deps := fnDepFn[sourceFn];
      ghost var entered := Flat(visited, fnDepUdt);
      ghost var done := FlattenCallees(calls, entered, sourceFn, deps);
      for i := 0 to |deps|
        invariant Same(calls) && entered.visited <= visited
        invariant done == FlattenCallees(calls, Flat(visited, fnDepUdt), sourceFn, deps[i..])
      {
        assert deps[i..][0] == deps[i] && deps[i..][1..] == deps[i + 1..];
        var fnDep := deps[i];
        if fnDep == sourceFn {
          continue;
        }
        FlattenFn(fnDep, calls);
        fnDepUdt := fnDepUdt[fnDep := Image(fnDepUdt, fnDep)];
        if fnDepUdt[fnDep] != {} {
          fnDepUdt := fnDepUdt[sourceFn := Image(fnDepUdt, sourceFn) + fnDepUdt[fnDep]];
        }
      }
    }

    /** Any graph: only implied edges are added, all of them between different types. An
        edge implied by a cycle-free function is always added; and all are, if no path does
        harm. */
    method WriteOutToDb()
      requires visited == {}
      modifies this, memDb
      ensures old(memDb.usesInImpl) <= memDb.usesInImpl
      ensures forall source: Udt, target: Udt :: (source, target) in memDb.usesInImpl - old(memDb.usesInImpl) ==>
                Implied(old(fnDepFn), old(fnDepUdt), old(udtDepFn), source, target)
      ensures forall source: Udt, target: Udt |
                ImpliedOrderly(old(fnDepFn), old(fnDepUdt), old(udtDepFn), source, target) ::
                (source, target) in memDb.usesInImpl
      ensures HarmlessPaths(CallGraph(old(fnDepFn))) ==>
                forall source: Udt, target: Udt :: (source, target) in memDb.usesInImpl <==>
                  || (source, target) in old(memDb.usesInImpl)
                  || UsesThrough(old(fnDepFn), old(fnDepUdt), old(udtDepFn), source, target)
      ensures forall source: Udt, target: Udt | (source, target) in memDb.usesInImpl - old(memDb.usesInImpl) ::
                source != target && source != 0 && target != 0
    {
      if udtDepFn == map[] || fnDepUdt == map[] {
        return;
      }
      ghost var calls, direct := fnDepFn, fnDepUdt;
      ghost var roots: seq<FnId> := [];
      var todo := fnDepFn.Keys;
      while todo != {}
        invariant Same(calls) && todo <= calls.Keys && Elements(roots) == calls.Keys - todo
        invariant udtDepFn == old(udtDepFn) && memDb.usesInImpl == old(memDb.usesInImpl)
        invariant forall f | f in roots :: f in Functions(calls)
        invariant Flat(visited, fnDepUdt) == FlattenAll(calls, Flat({}, direct), roots)
      {
        var sourceFn :| sourceFn in todo;
        assert (roots + [sourceFn])[..|roots|] == roots;
        FlattenFn(sourceFn, calls);
        assert Elements(roots + [sourceFn]) == Elements(roots) + {sourceFn};
        roots := roots + [sourceFn];
        todo := todo - {sourceFn};
      }
      WriteEdges();
      forall source: Udt, target: Udt
        ensures Implied(calls, direct, udtDepFn, source, target) <==>
                UsesThrough(calls, direct, udtDepFn, source, target)
      {
        ImpliedIs(calls, direct, udtDepFn, source, target);
      }
      ghost var types := FlattenAll(calls, Flat({}, direct), roots).types;
      forall source: Udt, target: Udt | (source, target) in Edges(udtDepFn, types)
        ensures Implied(calls, direct, udtDepFn, source, target)
      {
        WrittenIsImplied(calls, direct, udtDepFn, roots, source, target);
      }
      if HarmlessPaths(CallGraph(calls)) {
        forall source: Udt, target: Udt | Implied(calls, direct, udtDepFn, source, target)
          ensures (source, target) in Edges(udtDepFn, types)
        {
          HarmlessIsWritten(calls, direct, udtDepFn, roots, source, target);
        }
      }
      forall source: Udt, target: Udt | ImpliedOrderly(calls, direct, udtDepFn, source, target)
        ensures (source, target) in Edges(udtDepFn, types)
      {
        ImpliedIsWritten(calls, direct, udtDepFn, roots, source, target);
      }
    }

    /** The two nested loops over the types' functions and those functions' types. */
    method WriteEdges()
      modifies this`fnDepUdt, memDb
      ensures memDb.usesInImpl == old(memDb.usesInImpl) + Edges(udtDepFn, old(fnDepUdt))
    {
      ghost var flat := fnDepUdt;
      var sources := udtDepFn.Keys;
      while sources != {}
        invariant sources <= udtDepFn.Keys && forall f :: Image(fnDepUdt, f) == Image(flat, f)
        invariant memDb.usesInImpl == old(memDb.usesInImpl) + Edges(udtDepFn - sources, flat)
      {
        var source :| source in sources;
        WriteEdgesOf(source);
        sources := sources - {source};
        EdgesSplit(udtDepFn, sources, source, flat);
      }
      assert udtDepFn - {} == udtDepFn;
    }

    method WriteEdgesOf(source: Udt)
      requires source in udtDepFn
      modifies this`fnDepUdt, memDb
      ensures forall f :: Image(fnDepUdt, f) == Image(old(fnDepUdt), f)
      ensures memDb.usesInImpl == old(memDb.usesInImpl) + EdgesVia(source, udtDepFn[source], old(fnDepUdt))
    {
      ghost var flat := fnDepUdt;
      var fns := udtDepFn[source];
      while fns != {}
        invariant fns <= udtDepFn[source] && forall f :: Image(fnDepUdt, f) == Image(flat, f)
        invariant memDb.usesInImpl == old(memDb.usesInImpl) + EdgesVia(source, udtDepFn[source] - fns, flat)
      {
        var fn :| fn in fns;
        WriteEdgesVia(source, fn);
        fns := fns - {fn};
        EdgesAdd(source, udtDepFn[source] - fns, fn, flat);
      }
    }

    method WriteEdgesVia(source: Udt, fn: FnId)
      modifies this`fnDepUdt, memDb
      ensures forall f :: Image(fnDepUdt, f) == Image(old(fnDepUdt), f)
      ensures memDb.usesInImpl == old(memDb.usesInImpl) + EdgesVia(source, {fn}, old(fnDepUdt))
    {
      fnDepUdt := fnDepUdt[fn := Image(fnDepUdt, fn)];
      var targets := fnDepUdt[fn];
      while targets != {}
        invariant targets <= fnDepUdt[fn]
        modifies memDb
        invariant memDb.usesInImpl == old(memDb.usesInImpl)
          + set t | t in fnDepUdt[fn] - targets && Proper(source, t) :: (source, t)
      {
        var target :| target in targets;
        memDb.AddUsesInImpl(source, target);
        targets := targets - {target};
      }
    }

    method Reset()
      modifies this
      ensures fnDepUdt == map[] && fnDepFn == map[] && udtDepFn == map[] && visited == {}
    {
      fnDepUdt, fnDepFn, udtDepFn, visited := map[], map[], map[], {};
    }
  }

  lemma EdgesSplit(udtDepFn: map<Udt, set<FnId>>, left: set<Udt>, source: Udt, types: Types)
    requires source in udtDepFn && source !in left
    ensures Edges(udtDepFn - left, types)
            == Edges(udtDepFn - (left + {source}), types) + EdgesVia(source, udtDepFn[source], types)
  {
  }

  lemma EdgesAdd(source: Udt, fns: set<FnId>, fn: FnId, types: Types)
    requires fn in fns
    ensures EdgesVia(source, fns, types) == EdgesVia(source, fns - {fn}, types) + EdgesVia(source, {fn}, types)
  {
  }
}
