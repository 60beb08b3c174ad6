/** Type objects and their removal (lvtmdb/ct_lvtmdb_objectstore.cpp, `removeType` and the
    loop over a file's types in `removeFile`). A type that loses its last file is erased
    together with the types nested in it; but neither the types it is nested in nor the
    files that mention nested types are told. Here it is settled when an erased type
    object is touched. */
module TypeRemovals {
  import opened Options
  import opened Digraph
  import opened IncrementalUpdates

  /** Type objects are numbered as they are made; no address is used twice. */
  type TypeId = nat
  type Outers = seq<Option<TypeId>> // what each type is nested in

  /** What happens to type objects: the visitor makes them and notes the files that
      mention them; post-processing may leave a type just one file; removing a file goes
      through the types that it lists. */
  datatype Op =
    | Make(outer: Option<TypeId>)
    | Mention(t: TypeId, f: File)
    | SetUnique(t: TypeId, f: File)
    | Drop(f: File, t: TypeId)

  /** The types made so far, and the files of those that still exist. */
  datatype Objects = Objects(outers: Outers, files: map<TypeId, set<File>>)

  /** t is outer, or nested in it, directly or not. */
  predicate Under(outers: Outers, outer: TypeId, t: TypeId)
    decreases t
  {
    t == outer
    || (t < |outers| && outers[t].Some? && outers[t].value < t && Under(outers, outer, outers[t].value))
  }

  function Subtree(outers: Outers, t: TypeId): set<TypeId> {
    set d: nat | d < |outers| && Under(outers, t, d)
  }

  /** One operation; None if it touches an erased object. */
  function Apply(o: Objects, op: Op): Option<Objects> {
    match op
    case Make(outer) =>
      if outer.Some? && outer.value !in o.files then None
      else Some(Objects(o.outers + [outer], o.files[|o.outers| := {}]))
    case Mention(t, f) =>
      if t !in o.files then None else Some(o.(files := o.files[t := o.files[t] + {f}]))
    case SetUnique(t, f) =>
      if t !in o.files then None else Some(o.(files := o.files[t := {f}]))
    case Drop(f, t) =>
      if t !in o.files then None
      else if o.files[t] - {f} != {} then Some(o.(files := o.files[t := o.files[t] - {f}]))
      else if Subtree(o.outers, t) <= o.files.Keys then Some(o.(files := o.files - Subtree(o.outers, t)))
      else None
  }

  /** The first n operations. */
  function ApplyAll(o: Objects, ops: seq<Op>, n: nat): Option<Objects>
    requires n <= |ops|
  {
    if n == 0 then Some(o)
    else
      match ApplyAll(o, ops, n - 1)
      case None => None
      case Some(before) => Apply(before, ops[n - 1])
  }

  // ------------------------------------------------------------------
  // What the operations alone tell
  // ------------------------------------------------------------------

  function OutersAt(o: Objects, ops: seq<Op>, n: nat): Outers
    requires n <= |ops|
  {
    if n == 0 then o.outers
    else OutersAt(o, ops, n - 1) + if ops[n - 1].Make? then [ops[n - 1].outer] else []
  }

  /** The files of t after n operations, erased or not. */
  function FilesAt(o: Objects, ops: seq<Op>, n: nat, t: TypeId): set<File>
    requires n <= |ops|
  {
    if n == 0 then Image(o.files, t)
    else
      var before := FilesAt(o, ops, n - 1, t);
      match ops[n - 1]
      case Make(_) => if t == |OutersAt(o, ops, n - 1)| then {} else before
      case Mention(t', f) => if t' == t then before + {f} else before
      case SetUnique(t', f) => if t' == t then {f} else before
      case Drop(f, t') => if t' == t then before - {f} else before
  }

  /** Operation i takes the last file from a type. */
  predicate EmptiesAt(o: Objects, ops: seq<Op>, i: nat)
    requires i < |ops|
  {
    ops[i].Drop? && FilesAt(o, ops, i, ops[i].t) - {ops[i].f} == {}
  }

  /** ... namely from one that d is or is nested in, and d exists by then. */
  predicate EmptiesAround(o: Objects, ops: seq<Op>, i: nat, d: TypeId)
    requires i < |ops|
  {
    EmptiesAt(o, ops, i) && d < |OutersAt(o, ops, i)| && Under(OutersAt(o, ops, i), ops[i].t, d)
  }

  /** Operation i has to do with d: it is about it, or it empties a type around it. */
  predicate TouchesAt(o: Objects, ops: seq<Op>, i: nat, d: TypeId)
    requires i < |ops|
  {
    match ops[i]
    case Make(outer) => outer == Some(d)
    case Mention(t, _) => t == d
    case SetUnique(t, _) => t == d
    case Drop(_, t) => t == d || EmptiesAround(o, ops, i, d)
  }

  /** d did not exist to begin with, or a type around it was emptied before. */
  ghost predicate ErasedBefore(o: Objects, ops: seq<Op>, n: nat, d: TypeId)
    requires n <= |ops|
  {
    || (d < |o.outers| && d !in o.files)
    || exists i | 0 <= i < n :: EmptiesAround(o, ops, i, d)
  }

  /** Numbers are given in order, and operations are about types that were made. */
  ghost predicate Numbered(o: Objects) {
    && (forall t | t in o.files :: t < |o.outers|)
    && (forall t | 0 <= t < |o.outers| && o.outers[t].Some? :: o.outers[t].value < t)
  }

  predicate NumberedOp(outers: Outers, op: Op) {
    match op
    case Make(outer) => outer.Some? ==> outer.value < |outers|
    case Mention(t, _) => t < |outers|
    case SetUnique(t, _) => t < |outers|
    case Drop(_, t) => t < |outers|
  }

  ghost predicate NumberedOps(o: Objects, ops: seq<Op>) {
    Numbered(o) && forall i | 0 <= i < |ops| :: NumberedOp(OutersAt(o, ops, i), ops[i])
  }

  // ------------------------------------------------------------------
  // When an erased type is touched
  // ------------------------------------------------------------------

  lemma {:induction false} OutersGrow(o: Objects, ops: seq<Op>, i: nat, n: nat)
    requires i <= n <= |ops|
    ensures OutersAt(o, ops, i) <= OutersAt(o, ops, n)
    decreases n
  {
    if i < n { OutersGrow(o, ops, i, n - 1); }
  }

  ghost predicate IsErasedAt(o: Objects, ops: seq<Op>, n: nat, d: TypeId)
    requires n <= |ops|
  {
    d < |OutersAt(o, ops, n)| && ErasedBefore(o, ops, n, d)
  }

  lemma ErasedNext(o: Objects, ops: seq<Op>, n: nat, d: TypeId)
    requires n < |ops|
    ensures IsErasedAt(o, ops, n + 1, d) <==> IsErasedAt(o, ops, n, d) || EmptiesAround(o, ops, n, d)
  {
    OutersGrow(o, ops, n, n + 1);
    if IsErasedAt(o, ops, n + 1, d) {
      OutersGrow(o, ops, 0, n);
      if !(d < |o.outers| && d !in o.files) {
        var i :| 0 <= i < n + 1 && EmptiesAround(o, ops, i, d);
        OutersGrow(o, ops, i, n);
      }
    }
  }

  ghost predicate ExistsAt(o: Objects, ops: seq<Op>, n: nat, d: TypeId)
    requires n <= |ops|
  {
    d < |OutersAt(o, ops, n)| && !ErasedBefore(o, ops, n, d)
  }

  /** The state after n operations, none of which touched an erased type. */
  ghost predicate StateIs(o: Objects, ops: seq<Op>, n: nat, s: Objects)
    requires n <= |ops|
  {
    && s.outers == OutersAt(o, ops, n)
    && (forall d: TypeId :: d in s.files <==> ExistsAt(o, ops, n, d))
    && (forall d | d in s.files :: s.files[d] == FilesAt(o, ops, n, d))
  }

  ghost predicate TouchesErasedAt(o: Objects, ops: seq<Op>, j: nat)
    requires j < |ops|
  {
    exists d :: TouchesAt(o, ops, j, d) && ErasedBefore(o, ops, j, d)
  }

  lemma StepIs(o: Objects, ops: seq<Op>, n: nat, s: Objects)
    requires n < |ops| && StateIs(o, ops, n, s) && NumberedOp(OutersAt(o, ops, n), ops[n])
    ensures Apply(s, ops[n]).Some? <==> !TouchesErasedAt(o, ops, n)
    ensures Apply(s, ops[n]).Some? ==> StateIs(o, ops, n + 1, Apply(s, ops[n]).value)
  {
    StepFails(o, ops, n, s);
    if Apply(s, ops[n]).Some? { StepGoesOn(o, ops, n, s); }
  }

  lemma StepFails(o: Objects, ops: seq<Op>, n: nat, s: Objects)
    requires n < |ops| && StateIs(o, ops, n, s) && NumberedOp(OutersAt(o, ops, n), ops[n])
    ensures Apply(s, ops[n]).Some? <==> !TouchesErasedAt(o, ops, n)
  {
    var outers := OutersAt(o, ops, n);
    forall d: TypeId | d < |outers| ensures d in s.files <==> !ErasedBefore(o, ops, n, d) {
      assert d in s.files <==> ExistsAt(o, ops, n, d);
    }
    match ops[n]
    case Make(outer) =>
      if outer.Some? { assert TouchesAt(o, ops, n, outer.value); }
    case Mention(t, f) => assert TouchesAt(o, ops, n, t);
    case SetUnique(t, f) => assert TouchesAt(o, ops, n, t);
    case Drop(f, t) =>
      assert TouchesAt(o, ops, n, t);
      if t in s.files && EmptiesAt(o, ops, n) {
        forall d | d in Subtree(outers, t) ensures TouchesAt(o, ops, n, d) && d < |outers| {}
        assert Apply(s, ops[n]).Some? <==> Subtree(outers, t) <= s.files.Keys;
      }
  }

  lemma StepGoesOn(o: Objects, ops: seq<Op>, n: nat, s: Objects)
    requires n < |ops| && StateIs(o, ops, n, s) && NumberedOp(OutersAt(o, ops, n), ops[n])
    requires Apply(s, ops[n]).Some?
    ensures StateIs(o, ops, n + 1, Apply(s, ops[n]).value)
  {
    var s', outers := Apply(s, ops[n]).value, OutersAt(o, ops, n);
    forall d: TypeId ensures d in s'.files <==> ExistsAt(o, ops, n + 1, d) {
      ErasedNext(o, ops, n, d);
      NewIsNotErased(o, ops, n);
    }
  }

  lemma NewIsNotErased(o: Objects, ops: seq<Op>, n: nat)
    requires n <= |ops|
    ensures !ErasedBefore(o, ops, n, |OutersAt(o, ops, n)|)
  {
    var d := |OutersAt(o, ops, n)|;
    OutersGrow(o, ops, 0, n);
    forall i | 0 <= i < n ensures !EmptiesAround(o, ops, i, d) { OutersGrow(o, ops, i, n); }
  }

  ghost predicate NoneTouched(o: Objects, ops: seq<Op>, n: nat)
    requires n <= |ops|
  {
    forall j | 0 <= j < n :: !TouchesErasedAt(o, ops, j)
  }

  lemma NoneTouchedNext(o: Objects, ops: seq<Op>, n: nat)
    requires n < |ops|
    ensures NoneTouched(o, ops, n + 1) <==> NoneTouched(o, ops, n) && !TouchesErasedAt(o, ops, n)
  {
  }

  ghost predicate Reached(o: Objects, ops: seq<Op>, n: nat)
    requires n <= |ops|
  {
    var s := ApplyAll(o, ops, n);
    (s.Some? <==> NoneTouched(o, ops, n)) && (s.Some? ==> StateIs(o, ops, n, s.value))
  }

  lemma ReachedFirst(o: Objects, ops: seq<Op>)
    requires Numbered(o)
    ensures Reached(o, ops, 0)
  {
  }

  lemma ReachedNext(o: Objects, ops: seq<Op>, n: nat)
    requires NumberedOps(o, ops) && n < |ops| && Reached(o, ops, n)
    ensures Reached(o, ops, n + 1)
  {
    NoneTouchedNext(o, ops, n);
    var s := ApplyAll(o, ops, n);
    if s.Some? {
      assert NumberedOp(OutersAt(o, ops, n), ops[n]);
      StepIs(o, ops, n, s.value);
    }
  }

  lemma {:induction false} StateAfter(o: Objects, ops: seq<Op>, n: nat)
    requires NumberedOps(o, ops) && n <= |ops|
    ensures Reached(o, ops, n)
    decreases n
  {
    if n == 0 {
      ReachedFirst(o, ops);
    } else {
      StateAfter(o, ops, n - 1);
      ReachedNext(o, ops, n - 1);
    }
  }

  /** Over any history, in any order, from any state: an erased type object is touched if
      and only if some operation is about a type, or empties a type around it, after the
      type or one around it had lost its last file, or if it was erased to begin with. */
  lemma TouchesErasedExactlyWhen(o: Objects, ops: seq<Op>)
    requires NumberedOps(o, ops)
    ensures ApplyAll(o, ops, |ops|) == None <==>
            exists j, d :: 0 <= j < |ops| && TouchesAt(o, ops, j, d) && ErasedBefore(o, ops, j, d)
  {
    StateAfter(o, ops, |ops|);
    if ApplyAll(o, ops, |ops|) == None {
      var j :| 0 <= j < |ops| && TouchesErasedAt(o, ops, j);
    } else if j, d :| 0 <= j < |ops| && TouchesAt(o, ops, j, d) && ErasedBefore(o, ops, j, d) {
      assert TouchesErasedAt(o, ops, j);
    }
  }

  /** So no history survives in which a type and one nested in it both lose their last
      file while both exist, whichever comes first. */
  lemma OuterAndNestedLost(o: Objects, ops: seq<Op>, i: nat, j: nat)
    requires NumberedOps(o, ops) && i < |ops| && j < |ops| && i != j
    requires EmptiesAt(o, ops, i) && EmptiesAround(o, ops, j, ops[i].t)
    requires ops[i].t < |OutersAt(o, ops, i)|
    requires EmptiesAround(o, ops, i, ops[i].t)
    ensures ApplyAll(o, ops, |ops|) == None
  {
    var d := ops[i].t;
    TouchesErasedExactlyWhen(o, ops);
    if i < j {
      assert TouchesAt(o, ops, j, d) && ErasedBefore(o, ops, j, d);
    } else {
      assert TouchesAt(o, ops, i, d) && ErasedBefore(o, ops, i, d);
    }
  }

  /** Of two types around the same one, one is around the other. */
  lemma {:induction false} UnderLinear(outers: Outers, a: TypeId, b: TypeId, d: TypeId)
    requires Under(outers, a, d) && Under(outers, b, d)
    ensures Under(outers, a, b) || Under(outers, b, a)
    decreases d
  {
    if d != a && d != b { UnderLinear(outers, a, b, outers[d].value); }
  }

  // ------------------------------------------------------------------
  // The store of type objects
  // ------------------------------------------------------------------

  /** `d_files` and `d_children`; the latter is never shortened. */
  datatype TypeObject = TypeObject(files: set<File>, children: seq<TypeId>)

  predicate ChildOf(outers: Outers, t: TypeId, c: TypeId) {
    c < |outers| && outers[c] == Some(t)
  }

  ghost predicate ListsChildren(outers: Outers, t: TypeId, children: seq<TypeId>) {
    && (forall c :: c in children <==> ChildOf(outers, t, c))
    && (forall i, j | 0 <= i < j < |children| :: children[i] != children[j])
  }

  /** What is nested in the first k of some types. */
  function Subtrees(outers: Outers, children: seq<TypeId>, k: nat): set<TypeId>
    requires k <= |children|
  {
    if k == 0 then {} else Subtrees(outers, children, k - 1) + Subtree(outers, children[k - 1])
  }

  lemma {:induction false} SubtreesHold(outers: Outers, children: seq<TypeId>, k: nat, d: TypeId)
    requires k <= |children|
    ensures d in Subtrees(outers, children, k) <==> exists i :: 0 <= i < k && d in Subtree(outers, children[i])
    decreases k
  {
    if k > 0 { SubtreesHold(outers, children, k - 1, d); }
  }

  lemma {:induction false} UnderIsLater(outers: Outers, t: TypeId, d: TypeId)
    requires Under(outers, t, d)
    ensures t <= d
    decreases d
  {
    if d != t { UnderIsLater(outers, t, outers[d].value); }
  }

  /** Types next to each other have nothing nested in both. */
  lemma ChildrenApart(outers: Outers, t: TypeId, a: TypeId, b: TypeId, d: TypeId)
    requires ChildOf(outers, t, a) && ChildOf(outers, t, b) && a != b && t < a && t < b
    ensures !(Under(outers, a, d) && Under(outers, b, d))
  {
    if Under(outers, a, d) && Under(outers, b, d) {
      UnderLinear(outers, a, b, d);
      UnderIsLater(outers, if Under(outers, a, b) then a else b, t);
    }
  }

  lemma {:induction false} UnderChild(outers: Outers, t: TypeId, d: TypeId) returns (c: TypeId)
    requires Under(outers, t, d) && d != t
    ensures ChildOf(outers, t, c) && Under(outers, c, d)
    decreases d
  {
    c := d;
    if outers[d].value != t { c := UnderChild(outers, t, outers[d].value); }
  }

  lemma {:induction false} UnderThrough(outers: Outers, t: TypeId, c: TypeId, d: TypeId)
    requires ChildOf(outers, t, c) && t < c && Under(outers, c, d)
    ensures Under(outers, t, d)
    decreases d
  {
    if d != c { UnderThrough(outers, t, c, outers[d].value); }
  }

  /** A type's subtree is the type and those of its children. */
  lemma SubtreeSplits(outers: Outers, t: TypeId, children: seq<TypeId>)
    requires t < |outers| && ListsChildren(outers, t, children) && forall c | c in children :: t < c
    ensures Subtree(outers, t) == {t} + Subtrees(outers, children, |children|)
  {
    forall d ensures d in Subtree(outers, t) <==> d == t || d in Subtrees(outers, children, |children|) {
      SubtreesHold(outers, children, |children|, d);
      if d in Subtree(outers, t) && d != t {
        var c := UnderChild(outers, t, d);
        var i :| 0 <= i < |children| && children[i] == c;
        assert d in Subtree(outers, children[i]);
      }
      if d in Subtrees(outers, children, |children|) {
        var i :| 0 <= i < |children| && d in Subtree(outers, children[i]);
        UnderThrough(outers, t, children[i], d);
      }
    }
  }

  lemma SubtreesApart(outers: Outers, t: TypeId, children: seq<TypeId>, k: nat)
    requires ListsChildren(outers, t, children) && k < |children| && forall c | c in children :: t < c
    ensures Subtree(outers, children[k]) !! Subtrees(outers, children, k)
  {
    forall d | d in Subtree(outers, children[k]) ensures d !in Subtrees(outers, children, k) {
      SubtreesHold(outers, children, k, d);
      forall i | 0 <= i < k ensures d !in Subtree(outers, children[i]) {
        assert children[i] in children && children[k] in children;
        ChildrenApart(outers, t, children[i], children[k], d);
      }
    }
  }

  lemma {:induction false} SubtreesUpTo(outers: Outers, children: seq<TypeId>, k: nat, n: nat)
    requires k <= n <= |children|
    ensures Subtrees(outers, children, k) <= Subtrees(outers, children, n)
    decreases n
  {
    if k < n { SubtreesUpTo(outers, children, k, n - 1); }
  }

  function Drops(f: File, types: seq<TypeId>): seq<Op> {
    seq(|types|, i requires 0 <= i < |types| => Drop(f, types[i]))
  }

  /** The objects without their lists of children. */
  function ValueOf(outers: Outers, types: map<TypeId, TypeObject>): Objects {
    Objects(outers, map t | t in types :: types[t].files)
  }

  lemma ValueUpdate(outers: Outers, types: map<TypeId, TypeObject>, t: TypeId, x: TypeObject)
    ensures ValueOf(outers, types[t := x])
        == ValueOf(outers, types).(files := ValueOf(outers, types).files[t := x.files])
  {
    assert types[t := x].Keys == types.Keys + {t};
  }

  lemma ValueWithout(outers: Outers, types: map<TypeId, TypeObject>, gone: set<TypeId>)
    ensures ValueOf(outers, types - gone) == ValueOf(outers, types).(files := ValueOf(outers, types).files - gone)
  {
  }

  ghost predicate Sound(outers: Outers, types: map<TypeId, TypeObject>) {
    && (forall t | 0 <= t < |outers| && outers[t].Some? :: outers[t].value < t)
    && (forall t | t in types :: t < |outers| && ListsChildren(outers, t, types[t].children))
  }

  function WithChild(types: map<TypeId, TypeObject>, outer: Option<TypeId>, t: TypeId): map<TypeId, TypeObject>
    requires outer.Some? ==> outer.value in types
  {
    if outer.None? then types
    else types[outer.value := types[outer.value].(children := types[outer.value].children + [t])]
  }

  lemma NewTypeSound(outers: Outers, types: map<TypeId, TypeObject>, outer: Option<TypeId>)
    requires Sound(outers, types) && (outer.Some? ==> outer.value in types)
    ensures var listed := WithChild(types, outer, |outers|);
            && Sound(outers + [outer], listed[|outers| := TypeObject({}, [])])
            && ValueOf(outers, listed) == ValueOf(outers, types)
  {
    var id, listed := |outers|, WithChild(types, outer, |outers|);
    forall t | t in listed ensures ListsChildren(outers + [outer], t, listed[t].children) {
      assert ListsChildren(outers, t, types[t].children);
      forall c ensures ChildOf(outers + [outer], t, c) <==> ChildOf(outers, t, c) || (c == id && outer == Some(t)) {}
      if outer == Some(t) {
        assert id !in types[t].children by { assert !ChildOf(outers, t, id); }
        assert forall c :: c in listed[t].children <==> c in types[t].children || c == id;
      }
    }
    forall c ensures !ChildOf(outers + [outer], id, c) {}
    assert listed.Keys == types.Keys;
  }

  lemma WithoutUpdated(files: map<TypeId, set<File>>, gone: set<TypeId>, t: TypeId)
    requires t in gone
    ensures files[t := {}] - gone == files - gone
  {
  }

  class TypeStore {
    var outers: Outers
    var types: map<TypeId, TypeObject>

    ghost predicate Valid()
      reads this
    {
      Sound(outers, types)
    }

    ghost function Value(): Objects
      reads this
    {
      ValueOf(outers, types)
    }

    constructor ()
      ensures Valid() && Value() == Objects([], map[])
    {
      outers, types := [], map[];
    }

    /** `removeType`: goes down to the nested types first. */
    method RemoveType(t: TypeId) returns (fault: bool)
      requires Valid() && t < |outers|
      modifies this`types
      ensures fault <==> !(Subtree(outers, t) <= old(types).Keys)
      ensures !fault ==> Valid() && types == old(types) - Subtree(outers, t)
      decreases |outers| - t
    {
      if t !in types {
        assert Under(outers, t, t);
        return true;
      }
      var children := types[t].children;
      ChildrenAreLater(t);
      SubtreeSplits(outers, t, children);
      fault := false;
      for k := 0 to |children|
        invariant Valid() && !fault && types == old(types) - Subtrees(outers, children, k)
        invariant Subtrees(outers, children, k) <= old(types).Keys
      {
        SubtreesApart(outers, t, children, k);
        SubtreesUpTo(outers, children, k + 1, |children|);
        assert children[k] in children;
        fault := RemoveType(children[k]);
        if fault {
          return;
        }
        assert types == old(types) - Subtrees(outers, children, k + 1);
      }
      types := types - {t};
      assert types == old(types) - Subtree(outers, t);
    }

    lemma ChildrenAreLater(t: TypeId)
      requires Valid() && t in types
      ensures forall c | c in types[t].children :: t < c < |outers|
    {
      forall c | c in types[t].children ensures t < c < |outers| {
        assert ChildOf(outers, t, c);
      }
    }

    /** One turn of the loop over the types that a removed file lists. */
    method DropFrom(f: File, t: TypeId) returns (fault: bool)
      requires Valid() && t < |outers|
      modifies this`types
      ensures fault <==> Apply(old(Value()), Drop(f, t)) == None
      ensures !fault ==> Valid() && Apply(old(Value()), Drop(f, t)) == Some(Value()) && outers == old(outers)
      ensures !fault ==> t in old(types)
      ensures !fault ==> types == if old(types[t].files) <= {f} then old(types) - Subtree(outers, t)
                            else old(types)[t := TypeObject(old(types[t].files) - {f}, old(types[t].children))]
    {
      if t !in types {
        return true;
      }
      ValueUpdate(outers, types, t, types[t].(files := types[t].files - {f}));
      types := types[t := types[t].(files := types[t].files - {f})];
      assert types.Keys == old(types).Keys;
      fault := false;
      if types[t].files == {} {
        ValueWithout(outers, types, Subtree(outers, t));
        WithoutUpdated(old(Value()).files, Subtree(outers, t), t);
        fault := RemoveType(t);
      }
    }

    /** The loop itself. */
    method DropFile(f: File, listed: seq<TypeId>) returns (fault: bool)
      requires Valid() && forall t | t in listed :: t < |outers|
      modifies this`types
      ensures fault <==> ApplyAll(old(Value()), Drops(f, listed), |listed|) == None
      ensures !fault ==> Valid() && ApplyAll(old(Value()), Drops(f, listed), |listed|) == Some(Value())
    {
      fault := false;
      for k := 0 to |listed|
        invariant Valid() && !fault && outers == old(outers)
        invariant ApplyAll(old(Value()), Drops(f, listed), k) == Some(Value())
      {
        assert listed[k] in listed;
        fault := DropFrom(f, listed[k]);
        if fault {
          FaultStays(old(Value()), Drops(f, listed), k + 1, |listed|);
          return;
        }
      }
    }

    /** `addUDT` makes a type with the outer one looked up by name. */
    method MakeType(outer: Option<TypeId>) returns (t: TypeId, fault: bool)
      requires Valid() && (outer.Some? ==> outer.value < |outers|)
      modifies this
      ensures fault <==> Apply(old(Value()), Make(outer)) == None
      ensures !fault ==> Valid() && t == |old(outers)| && Apply(old(Value()), Make(outer)) == Some(Value())
    {
      t, fault := |outers|, outer.Some? && outer.value !in types;
      if fault {
        return;
      }
      NewTypeSound(outers, types, outer);
      if outer.Some? {
        types := types[outer.value := types[outer.value].(children := types[outer.value].children + [t])];
      }
      ValueUpdate(outers, types, t, TypeObject({}, []));
      types := types[t := TypeObject({}, [])];
      outers := outers + [outer];
    }

    method AddFile(t: TypeId, f: File) returns (fault: bool)
      requires Valid() && t < |outers|
      modifies this`types
      ensures fault <==> Apply(old(Value()), Mention(t, f)) == None
      ensures !fault ==> Valid() && Apply(old(Value()), Mention(t, f)) == Some(Value())
      ensures !fault ==> t in old(types)
      ensures !fault ==> types == old(types)[t := TypeObject(old(types[t].files) + {f}, old(types[t].children))]
    {
      fault := t !in types;
      if !fault {
        ValueUpdate(outers, types, t, types[t].(files := types[t].files + {f}));
        types := types[t := types[t].(files := types[t].files + {f})];
      }
    }

    /** `setUniqueFile`, in post-processing; the other files go on listing the type. */
    method SetUniqueFile(t: TypeId, f: File) returns (fault: bool)
      requires Valid() && t < |outers|
      modifies this`types
      ensures fault <==> Apply(old(Value()), SetUnique(t, f)) == None
      ensures !fault ==> Valid() && Apply(old(Value()), SetUnique(t, f)) == Some(Value())
      ensures !fault ==> t in old(types)
      ensures !fault ==> types == old(types)[t := TypeObject({f}, old(types[t].children))]
    {
      fault := t !in types;
      if !fault {
        ValueUpdate(outers, types, t, types[t].(files := {f}));
        types := types[t := types[t].(files := {f})];
      }
    }
  }

  lemma {:induction false} FaultStays(o: Objects, ops: seq<Op>, k: nat, n: nat)
    requires k <= n <= |ops| && ApplyAll(o, ops, k) == None
    ensures ApplyAll(o, ops, n) == None
    decreases n
  {
    if k < n { FaultStays(o, ops, k, n - 1); }
  }
}
