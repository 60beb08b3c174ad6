/** The type objects in the deletion of one update (lvtmdb/ct_lvtmdb_objectstore.cpp,
    `removeFile`). Each file goes through the types that it lists. Post-processing may cut
    a type's own list of files, but never a file's list of types, so the two need not be
    each other's converse. */
module TypeDeletions {
  import opened Options
  import opened Digraph
  import opened Enumerations
  import opened IncrementalUpdates
  import opened TypeRemovals

  /** `d_types` of each file. */
  type Listings = map<File, set<TypeId>>

  /** A type's files list it; and one that some file lists has a file. */
  ghost predicate InStep(o: Objects, listed: Listings) {
    && (forall t, f | t in o.files && f in o.files[t] :: t in Image(listed, f))
    && (forall t, f | t in o.files && t in Image(listed, f) :: o.files[t] != {})
  }

  ghost predicate NumberedLists(o: Objects, listed: Listings) {
    Numbered(o) && forall f: File, t: TypeId | t in Image(listed, f) :: t < |o.outers|
  }

  /** The operations of a deletion of the files in gone: each of them is dropped from each
      type it lists, once, in any order at all. */
  ghost predicate DropsAll(listed: Listings, gone: set<File>, ops: seq<Op>) {
    && NoRepeats(ops) && (forall op | op in ops :: op.Drop?)
    && (forall f, t :: Drop(f, t) in ops <==> f in gone && t in Image(listed, f))
  }

  /** All files of a type are deleted. */
  predicate Emptied(o: Objects, gone: set<File>, t: TypeId) {
    t in o.files && o.files[t] != {} && o.files[t] <= gone
  }

  ghost predicate Dropped(listed: Listings, gone: set<File>, t: TypeId) {
    exists f :: f in gone && t in Image(listed, f)
  }

  // ------------------------------------------------------------------
  // When types are emptied
  // ------------------------------------------------------------------

  lemma {:induction false} NoneMade(o: Objects, ops: seq<Op>, n: nat)
    requires n <= |ops| && forall op | op in ops :: op.Drop?
    ensures OutersAt(o, ops, n) == o.outers
    decreases n
  {
    if n > 0 {
      assert ops[n - 1] in ops;
      NoneMade(o, ops, n - 1);
    }
  }

  lemma {:induction false} FilesLeft(o: Objects, ops: seq<Op>, n: nat, t: TypeId, f: File)
    requires n <= |ops| && forall op | op in ops :: op.Drop?
    ensures f in FilesAt(o, ops, n, t) <==> f in Image(o.files, t) && forall i | 0 <= i < n :: ops[i] != Drop(f, t)
    decreases n
  {
    if n > 0 {
      assert ops[n - 1] in ops;
      FilesLeft(o, ops, n - 1, t, f);
    }
  }

  /** Somewhere on the way from some files to none the last one is dropped. */
  lemma {:induction false} LastFileDropped(o: Objects, ops: seq<Op>, n: nat, t: TypeId) returns (i: nat)
    requires n <= |ops| && forall op | op in ops :: op.Drop?
    requires Image(o.files, t) != {} && FilesAt(o, ops, n, t) == {}
    ensures i < n && EmptiesAt(o, ops, i) && ops[i].t == t
    decreases n
  {
    assert ops[n - 1] in ops;
    if FilesAt(o, ops, n - 1, t) != {} {
      i := n - 1;
    } else {
      i := LastFileDropped(o, ops, n - 1, t);
    }
  }

  lemma EmptiedSomewhere(o: Objects, listed: Listings, gone: set<File>, ops: seq<Op>, n: nat, t: TypeId)
    returns (i: nat)
    requires InStep(o, listed) && DropsAll(listed, gone, ops) && Emptied(o, gone, t) && n <= |ops|
    requires forall f, k | f in o.files[t] && n <= k < |ops| :: ops[k] != Drop(f, t)
    ensures i < n && EmptiesAt(o, ops, i) && ops[i].t == t
  {
    forall f ensures f !in FilesAt(o, ops, n, t) {
      FilesLeft(o, ops, n, t, f);
      if f in o.files[t] {
        assert Drop(f, t) in ops;
        var k :| 0 <= k < |ops| && ops[k] == Drop(f, t);
      }
    }
    i := LastFileDropped(o, ops, n, t);
  }

  /** A type that is emptied has dropped all its files by then. */
  lemma EmptiedBy(o: Objects, listed: Listings, gone: set<File>, ops: seq<Op>, i: nat)
    requires InStep(o, listed) && DropsAll(listed, gone, ops)
    requires i < |ops| && EmptiesAt(o, ops, i) && ops[i].t in o.files
    ensures Emptied(o, gone, ops[i].t)
    ensures forall f | f in o.files[ops[i].t] :: exists k :: 0 <= k <= i && ops[k] == Drop(f, ops[i].t)
  {
    var t := ops[i].t;
    assert ops[i] in ops && Drop(ops[i].f, t) in ops;
    forall f | f in o.files[t] ensures exists k :: 0 <= k <= i && ops[k] == Drop(f, t) {
      if f == ops[i].f {
        assert ops[i] == Drop(f, t);
      } else {
        assert f !in FilesAt(o, ops, i, t) - {ops[i].f};
        FilesLeft(o, ops, i, t, f);
      }
    }
    forall f | f in o.files[t] ensures f in gone {
      var k :| 0 <= k <= i && ops[k] == Drop(f, t);
      assert Drop(f, t) in ops;
    }
  }

  lemma DropsAreNumbered(o: Objects, listed: Listings, gone: set<File>, ops: seq<Op>)
    requires NumberedLists(o, listed) && DropsAll(listed, gone, ops)
    ensures NumberedOps(o, ops)
    ensures forall i | 0 <= i < |ops| :: ops[i].Drop? && ops[i].f in gone && ops[i].t in Image(listed, ops[i].f)
  {
    forall i | 0 <= i < |ops|
      ensures ops[i].Drop? && ops[i].f in gone && ops[i].t in Image(listed, ops[i].f)
      ensures NumberedOp(OutersAt(o, ops, i), ops[i])
    {
      NoneMade(o, ops, i);
      assert ops[i] in ops;
      IsListed(o, listed, gone, ops, ops[i].f, ops[i].t);
    }
  }

  lemma IsListed(o: Objects, listed: Listings, gone: set<File>, ops: seq<Op>, f: File, t: TypeId)
    requires NumberedLists(o, listed) && DropsAll(listed, gone, ops) && Drop(f, t) in ops
    ensures f in gone && t in Image(listed, f) && t < |o.outers|
  {
  }

  lemma IndexOf(listed: Listings, gone: set<File>, ops: seq<Op>, t: TypeId) returns (j: nat)
    requires DropsAll(listed, gone, ops) && Dropped(listed, gone, t)
    ensures j < |ops| && ops[j].Drop? && ops[j].t == t
  {
    var f :| f in gone && t in Image(listed, f);
    assert Drop(f, t) in ops;
    j :| 0 <= j < |ops| && ops[j] == Drop(f, t);
  }

  // ------------------------------------------------------------------
  // One order
  // ------------------------------------------------------------------

  /** A deleted file lists a type that was erased before. */
  ghost predicate DeadListed(o: Objects, listed: Listings, gone: set<File>, t: TypeId) {
    Dropped(listed, gone, t) && t !in o.files
  }

  /** A type that loses its files has one nested in it that was erased before. */
  ghost predicate DeadNested(o: Objects, gone: set<File>, t: TypeId, d: TypeId) {
    Emptied(o, gone, t) && d < |o.outers| && Under(o.outers, t, d) && d !in o.files
  }

  /** Operation i empties a type, and j is about it or one nested in it: later, or also
      emptying. */
  predicate Clash(o: Objects, ops: seq<Op>, i: nat, j: nat)
    requires i < |ops| && j < |ops| && ops[i].Drop? && ops[j].Drop?
  {
    i != j && EmptiesAt(o, ops, i) && Under(o.outers, ops[i].t, ops[j].t) && (i < j || EmptiesAt(o, ops, j))
  }

  ghost predicate SomeClash(o: Objects, ops: seq<Op>) {
    exists i, j :: 0 <= i < |ops| && 0 <= j < |ops| && ops[i].Drop? && ops[j].Drop? && Clash(o, ops, i, j)
  }

  ghost predicate BadStart(o: Objects, listed: Listings, gone: set<File>) {
    (exists t :: DeadListed(o, listed, gone, t)) || (exists t, d :: DeadNested(o, gone, t, d))
  }

  lemma ClashTouches(o: Objects, listed: Listings, gone: set<File>, ops: seq<Op>, i: nat, j: nat)
    requires NumberedLists(o, listed) && DropsAll(listed, gone, ops) && i < |ops| && j < |ops|
    requires ops[i].Drop? && ops[j].Drop? && Clash(o, ops, i, j)
    ensures ApplyAll(o, ops, |ops|) == None
  {
    DropsAreNumbered(o, listed, gone, ops);
    TouchesErasedExactlyWhen(o, ops);
    NoneMade(o, ops, i);
    NoneMade(o, ops, j);
    var d := ops[j].t;
    assert EmptiesAround(o, ops, i, d);
    if i < j {
      assert TouchesAt(o, ops, j, d) && ErasedBefore(o, ops, j, d);
    } else {
      assert EmptiesAround(o, ops, j, d);
      assert TouchesAt(o, ops, i, d) && ErasedBefore(o, ops, i, d);
    }
  }

  lemma DeadListedTouches(o: Objects, listed: Listings, gone: set<File>, ops: seq<Op>, t: TypeId)
    requires NumberedLists(o, listed) && DropsAll(listed, gone, ops) && DeadListed(o, listed, gone, t)
    ensures ApplyAll(o, ops, |ops|) == None
  {
    DropsAreNumbered(o, listed, gone, ops);
    TouchesErasedExactlyWhen(o, ops);
    var j := IndexOf(listed, gone, ops, t);
    assert ops[j] in ops;
    IsListed(o, listed, gone, ops, ops[j].f, t);
    assert TouchesAt(o, ops, j, t) && ErasedBefore(o, ops, j, t);
  }

  lemma DeadNestedTouches(o: Objects, listed: Listings, gone: set<File>, ops: seq<Op>, t: TypeId, d: TypeId)
    requires NumberedLists(o, listed) && InStep(o, listed) && DropsAll(listed, gone, ops)
    requires DeadNested(o, gone, t, d)
    ensures ApplyAll(o, ops, |ops|) == None
  {
    DropsAreNumbered(o, listed, gone, ops);
    TouchesErasedExactlyWhen(o, ops);
    var j := EmptiedSomewhere(o, listed, gone, ops, |ops|, t);
    NoneMade(o, ops, j);
    assert EmptiesAround(o, ops, j, d);
    assert TouchesAt(o, ops, j, d) && ErasedBefore(o, ops, j, d);
  }

  lemma BadStartTouches(o: Objects, listed: Listings, gone: set<File>, ops: seq<Op>)
    requires NumberedLists(o, listed) && InStep(o, listed) && DropsAll(listed, gone, ops)
    requires BadStart(o, listed, gone)
    ensures ApplyAll(o, ops, |ops|) == None
  {
    if t :| DeadListed(o, listed, gone, t) {
      DeadListedTouches(o, listed, gone, ops, t);
    } else {
      var t, d :| DeadNested(o, gone, t, d);
      DeadNestedTouches(o, listed, gone, ops, t, d);
    }
  }

  lemma TouchedIsClash(o: Objects, listed: Listings, gone: set<File>, ops: seq<Op>, j: nat, x: TypeId)
    requires NumberedLists(o, listed) && InStep(o, listed) && DropsAll(listed, gone, ops)
    requires j < |ops| && TouchesAt(o, ops, j, x) && ErasedBefore(o, ops, j, x) && !BadStart(o, listed, gone)
    ensures SomeClash(o, ops)
  {
    DropsAreNumbered(o, listed, gone, ops);
    NoneMade(o, ops, j);
    assert !DeadListed(o, listed, gone, ops[j].t);
    if x < |o.outers| && x !in o.files {
      assert x != ops[j].t;
      EmptiedBy(o, listed, gone, ops, j);
      assert DeadNested(o, gone, ops[j].t, x);
    } else {
      var i :| 0 <= i < j && EmptiesAround(o, ops, i, x);
      NoneMade(o, ops, i);
      if ops[j].t == x {
        assert Clash(o, ops, i, j);
      } else {
        UnderLinear(o.outers, ops[i].t, ops[j].t, x);
        assert Clash(o, ops, i, j) || Clash(o, ops, j, i);
      }
    }
  }

  /** In one given order, from any state: an erased type object is touched exactly if a
      type that matters was erased before, or a type is emptied and it or one nested in it
      is dropped from later or emptied too. */
  lemma DeletionTouchesExactlyWhen(o: Objects, listed: Listings, gone: set<File>, ops: seq<Op>)
    requires NumberedLists(o, listed) && InStep(o, listed) && DropsAll(listed, gone, ops)
    ensures ApplyAll(o, ops, |ops|) == None <==> BadStart(o, listed, gone) || SomeClash(o, ops)
  {
    DropsAreNumbered(o, listed, gone, ops);
    TouchesErasedExactlyWhen(o, ops);
    if ApplyAll(o, ops, |ops|) == None && !BadStart(o, listed, gone) {
      var j, x :| 0 <= j < |ops| && TouchesAt(o, ops, j, x) && ErasedBefore(o, ops, j, x);
      TouchedIsClash(o, listed, gone, ops, j, x);
    }
    if BadStart(o, listed, gone) { BadStartTouches(o, listed, gone, ops); }
    if SomeClash(o, ops) {
      var i, j :| 0 <= i < |ops| && 0 <= j < |ops| && ops[i].Drop? && ops[j].Drop? && Clash(o, ops, i, j);
      ClashTouches(o, listed, gone, ops, i, j);
    }
  }

  // ------------------------------------------------------------------
  // Every order
  // ------------------------------------------------------------------

  /** A type that loses its files has one nested in it that a deleted file lists. */
  ghost predicate LosesNested(o: Objects, listed: Listings, gone: set<File>, t: TypeId, d: TypeId) {
    d != t && Emptied(o, gone, t) && Under(o.outers, t, d) && Dropped(listed, gone, d)
  }

  /** ... or another deleted file lists it, besides its own. */
  ghost predicate ListedElsewhere(o: Objects, listed: Listings, gone: set<File>, t: TypeId) {
    Emptied(o, gone, t) && exists f :: f in gone && t in Image(listed, f) && f !in o.files[t]
  }

  ghost predicate EveryOrderSafe(o: Objects, listed: Listings, gone: set<File>) {
    forall ops | DropsAll(listed, gone, ops) :: ApplyAll(o, ops, |ops|).Some?
  }

  ghost function AllDrops(listed: Listings, gone: set<File>): set<Op> {
    set f, t | f in gone && t in Image(listed, f) :: Drop(f, t)
  }

  /** There is an order that has any given operation last. */
  lemma OrderWithLast(listed: Listings, gone: set<File>, f: File, t: TypeId) returns (ops: seq<Op>)
    requires f in gone && t in Image(listed, f)
    ensures DropsAll(listed, gone, ops) && |ops| > 0 && ops[|ops| - 1] == Drop(f, t)
  {
    var last := Drop(f, t);
    var rest := AllDrops(listed, gone) - {last};
    SeqOfLists(rest);
    ops := SeqOf(rest) + [last];
    forall op ensures op in ops <==> op in AllDrops(listed, gone) {}
  }

  lemma SomeOrder(listed: Listings, gone: set<File>) returns (ops: seq<Op>)
    ensures DropsAll(listed, gone, ops)
  {
    SeqOfLists(AllDrops(listed, gone));
    ops := SeqOf(AllDrops(listed, gone));
  }

  lemma NestedLast(o: Objects, listed: Listings, gone: set<File>, t: TypeId, d: TypeId)
    requires NumberedLists(o, listed) && InStep(o, listed) && LosesNested(o, listed, gone, t, d)
    ensures !EveryOrderSafe(o, listed, gone)
  {
    var f :| f in gone && d in Image(listed, f);
    var ops := OrderWithLast(listed, gone, f, d);
    var i := EmptiedSomewhere(o, listed, gone, ops, |ops| - 1, t);
    ClashTouches(o, listed, gone, ops, i, |ops| - 1);
  }

  lemma ElsewhereLast(o: Objects, listed: Listings, gone: set<File>, t: TypeId)
    requires NumberedLists(o, listed) && InStep(o, listed) && ListedElsewhere(o, listed, gone, t)
    ensures !EveryOrderSafe(o, listed, gone)
  {
    var f :| f in gone && t in Image(listed, f) && f !in o.files[t];
    var ops := OrderWithLast(listed, gone, f, t);
    var i := EmptiedSomewhere(o, listed, gone, ops, |ops| - 1, t);
    ClashTouches(o, listed, gone, ops, i, |ops| - 1);
  }

  /** A type is not dropped from after it was emptied, if its own files are all that list
      it. */
  lemma OnlyOwnFiles(o: Objects, listed: Listings, gone: set<File>, ops: seq<Op>, i: nat, j: nat)
    requires InStep(o, listed) && DropsAll(listed, gone, ops) && i < j < |ops| && ops[i].Drop? && ops[j].Drop?
    requires EmptiesAt(o, ops, i) && ops[i].t in o.files && !ListedElsewhere(o, listed, gone, ops[i].t)
    ensures ops[j].t != ops[i].t
  {
    var t := ops[i].t;
    EmptiedBy(o, listed, gone, ops, i);
    assert ops[j] in ops;
  }

  lemma ClashIsForeseen(o: Objects, listed: Listings, gone: set<File>, ops: seq<Op>, i: nat, j: nat)
    requires NumberedLists(o, listed) && InStep(o, listed) && DropsAll(listed, gone, ops)
    requires i < |ops| && j < |ops| && ops[i].Drop? && ops[j].Drop? && Clash(o, ops, i, j)
    requires !BadStart(o, listed, gone) && !ListedElsewhere(o, listed, gone, ops[i].t)
    ensures LosesNested(o, listed, gone, ops[i].t, ops[j].t)
  {
    DropsAreNumbered(o, listed, gone, ops);
    assert !DeadListed(o, listed, gone, ops[i].t);
    EmptiedBy(o, listed, gone, ops, i);
    if ops[i].t == ops[j].t {
      if i < j { OnlyOwnFiles(o, listed, gone, ops, i, j); } else { OnlyOwnFiles(o, listed, gone, ops, j, i); }
    }
    assert Dropped(listed, gone, ops[j].t);
  }

  lemma ForeseenIsSafe(o: Objects, listed: Listings, gone: set<File>, ops: seq<Op>)
    requires NumberedLists(o, listed) && InStep(o, listed) && DropsAll(listed, gone, ops)
    requires !BadStart(o, listed, gone)
    requires forall t, d :: !LosesNested(o, listed, gone, t, d)
    requires forall t :: !ListedElsewhere(o, listed, gone, t)
    ensures ApplyAll(o, ops, |ops|).Some?
  {
    DeletionTouchesExactlyWhen(o, listed, gone, ops);
    if SomeClash(o, ops) {
      var i, j :| 0 <= i < |ops| && 0 <= j < |ops| && ops[i].Drop? && ops[j].Drop? && Clash(o, ops, i, j);
      ClashIsForeseen(o, listed, gone, ops, i, j);
      assert false;
    }
  }

  /** The deletion of some files is safe in every order exactly if no type that matters
      was erased before, no type that loses all its files has one nested in it that a
      deleted file lists, and none is listed by a deleted file besides its own. */
  lemma EveryOrderSafeExactlyWhen(o: Objects, listed: Listings, gone: set<File>)
    requires NumberedLists(o, listed) && InStep(o, listed)
    ensures EveryOrderSafe(o, listed, gone) <==>
            && !BadStart(o, listed, gone)
            && (forall t, d :: !LosesNested(o, listed, gone, t, d))
            && (forall t :: !ListedElsewhere(o, listed, gone, t))
  {
    if t, d :| LosesNested(o, listed, gone, t, d) { NestedLast(o, listed, gone, t, d); }
    if t :| ListedElsewhere(o, listed, gone, t) { ElsewhereLast(o, listed, gone, t); }
    if BadStart(o, listed, gone) {
      var ops := SomeOrder(listed, gone);
      BadStartTouches(o, listed, gone, ops);
      assert !EveryOrderSafe(o, listed, gone);
    } else if (forall t, d :: !LosesNested(o, listed, gone, t, d))
        && (forall t :: !ListedElsewhere(o, listed, gone, t)) {
      forall ops: seq<Op> | DropsAll(listed, gone, ops) ensures ApplyAll(o, ops, |ops|).Some? {
        ForeseenIsSafe(o, listed, gone, ops);
      }
    }
  }

  // ------------------------------------------------------------------
  // The deletion of an update
  // ------------------------------------------------------------------

  /** Where all files of a type are deleted, so are those of the types nested in it. */
  ghost predicate NestedGoToo(o: Objects, gone: set<File>) {
    forall t, d | Emptied(o, gone, t) && d in o.files && Under(o.outers, t, d) :: o.files[d] <= gone
  }

  /** A type is emptied before the last deleted file that lists it is dealt with. */
  ghost predicate DroppedAgain(o: Objects, ops: seq<Op>) {
    exists i, j :: 0 <= i < j < |ops| && ops[i].Drop? && ops[j].Drop? && EmptiesAt(o, ops, i) && ops[j].t == ops[i].t
  }

  lemma LosesNestedClashes(o: Objects, listed: Listings, gone: set<File>, ops: seq<Op>, t: TypeId, d: TypeId)
    requires NumberedLists(o, listed) && InStep(o, listed) && DropsAll(listed, gone, ops)
    requires NestedGoToo(o, gone) && !BadStart(o, listed, gone) && LosesNested(o, listed, gone, t, d)
    ensures SomeClash(o, ops)
  {
    assert !DeadListed(o, listed, gone, d);
    var i := EmptiedSomewhere(o, listed, gone, ops, |ops|, t);
    var j := EmptiedSomewhere(o, listed, gone, ops, |ops|, d);
    assert Clash(o, ops, i, j);
  }

  lemma ClashLosesNested(o: Objects, listed: Listings, gone: set<File>, ops: seq<Op>)
    requires NumberedLists(o, listed) && InStep(o, listed) && DropsAll(listed, gone, ops)
    requires !BadStart(o, listed, gone) && SomeClash(o, ops)
    ensures (exists t, d :: LosesNested(o, listed, gone, t, d)) || DroppedAgain(o, ops)
  {
    DropsAreNumbered(o, listed, gone, ops);
    var i, j :| 0 <= i < |ops| && 0 <= j < |ops| && ops[i].Drop? && ops[j].Drop? && Clash(o, ops, i, j);
    assert !DeadListed(o, listed, gone, ops[i].t);
    EmptiedBy(o, listed, gone, ops, i);
    if ops[i].t != ops[j].t {
      assert Dropped(listed, gone, ops[j].t);
      assert LosesNested(o, listed, gone, ops[i].t, ops[j].t);
    }
  }

  /** In one given order, where nested types go with the outer ones: an erased type object
      is touched exactly if one that matters was erased before, or a type that loses all
      its files has one nested in it that a deleted file lists, or a type is emptied before
      the last deleted file that lists it is dealt with. */
  lemma UpdateTouchesErasedExactlyWhen(o: Objects, listed: Listings, gone: set<File>, ops: seq<Op>)
    requires NumberedLists(o, listed) && InStep(o, listed) && DropsAll(listed, gone, ops) && NestedGoToo(o, gone)
    ensures ApplyAll(o, ops, |ops|) == None <==>
            || BadStart(o, listed, gone)
            || (exists t, d :: LosesNested(o, listed, gone, t, d))
            || DroppedAgain(o, ops)
  {
    DeletionTouchesExactlyWhen(o, listed, gone, ops);
    if !BadStart(o, listed, gone) {
      if SomeClash(o, ops) { ClashLosesNested(o, listed, gone, ops); }
      if t, d :| LosesNested(o, listed, gone, t, d) { LosesNestedClashes(o, listed, gone, ops, t, d); }
      if DroppedAgain(o, ops) {
        var i, j :| 0 <= i < j < |ops| && ops[i].Drop? && ops[j].Drop?
                    && EmptiesAt(o, ops, i) && ops[j].t == ops[i].t;
        assert Clash(o, ops, i, j);
      }
    }
  }

  ghost predicate Sees(store: Store, f: File, files: set<File>) {
    exists g :: g in files && Reaches(IncludeGraph(store), f, g)
  }

  /** A file of a nested type reaches, by includes, one of the outer type's. */
  ghost predicate SeesOuter(o: Objects, store: Store) {
    forall t, d, f | t in o.files && d in o.files && Under(o.outers, t, d) && f in o.files[d] ::
      f in store && Sees(store, f, o.files[t])
  }

  lemma SeesGone(store: Store, changed: set<File>, f: File, files: set<File>)
    requires f in store && Sees(store, f, files) && files <= Gone(store, changed)
    ensures f in Gone(store, changed)
  {
    var g :| g in files && Reaches(IncludeGraph(store), f, g);
    var c :| c in changed && c in store && Reaches(IncludeGraph(store), g, c);
    ReachesTrans(IncludeGraph(store), f, g, c);
  }

  /** Then nested types go with the outer ones in every deletion of changed files and of
      all that includes them. */
  lemma DeletionsTakeNested(o: Objects, store: Store, changed: set<File>)
    requires SeesOuter(o, store)
    ensures NestedGoToo(o, Gone(store, changed))
  {
    forall t, d, f |
      Emptied(o, Gone(store, changed), t) && d in o.files && Under(o.outers, t, d) && f in o.files[d]
      ensures f in Gone(store, changed)
    {
      SeesGone(store, changed, f, o.files[t]);
    }
  }

  // ------------------------------------------------------------------
  // File by file
  // ------------------------------------------------------------------

  /** Each file in turn goes through its list. */
  function FileByFile(order: seq<File>, lists: map<File, seq<TypeId>>, k: nat): seq<Op>
    requires k <= |order|
  {
    if k == 0 then []
    else
      var f := order[k - 1];
      FileByFile(order, lists, k - 1) + Drops(f, if f in lists then lists[f] else [])
  }

  ghost function Listed(lists: map<File, seq<TypeId>>): Listings {
    map f | f in lists :: set t | t in lists[f]
  }

  ghost function Files(order: seq<File>): set<File> {
    set f | f in order
  }

  lemma {:induction false} FileByFileDropsAll(order: seq<File>, lists: map<File, seq<TypeId>>, k: nat)
    requires k <= |order| && NoRepeats(order) && forall f | f in lists :: NoRepeats(lists[f])
    ensures DropsAll(Listed(lists), Files(order[..k]), FileByFile(order, lists, k))
    decreases k
  {
    if k > 0 {
      FileByFileDropsAll(order, lists, k - 1);
      var f := order[k - 1];
      var mine := Drops(f, if f in lists then lists[f] else []);
      assert order[..k] == order[..k - 1] + [f];
      assert f !in order[..k - 1];
      forall g, t ensures Drop(g, t) in mine <==> g == f && t in Image(Listed(lists), f) {
        DropsAre(f, if f in lists then lists[f] else [], g, t);
      }
      Joined(FileByFile(order, lists, k - 1), mine);
    }
  }

  lemma DropsAre(f: File, types: seq<TypeId>, g: File, t: TypeId)
    ensures Drop(g, t) in Drops(f, types) <==> g == f && t in types
  {
    if t in types {
      var i :| 0 <= i < |types| && types[i] == t;
      assert Drops(f, types)[i] == Drop(f, t);
    }
  }

  lemma Joined(a: seq<Op>, b: seq<Op>)
    requires NoRepeats(a) && NoRepeats(b) && forall op | op in a :: op !in b
    ensures NoRepeats(a + b)
  {
    forall i, j | 0 <= i < j < |a + b| ensures (a + b)[i] != (a + b)[j] {
      if i < |a| <= j { assert a[i] in a && b[j - |a|] in b; }
    }
  }

  /** The deletion of an update, file by file in any order, from any state that earlier
      runs and their post-processing can have left. */
  lemma RunTouchesErasedExactlyWhen(r: Run, o: Objects, lists: map<File, seq<TypeId>>, order: seq<File>)
    requires NumberedLists(o, Listed(lists)) && InStep(o, Listed(lists)) && forall f | f in lists :: NoRepeats(lists[f])
    requires NoRepeats(order) && Files(order) == r.Gone()
    requires SeesOuter(o, Scanned(r.store, r.found, r.disk))
    ensures var ops := FileByFile(order, lists, |order|);
            ApplyAll(o, ops, |ops|) == None <==>
              || BadStart(o, Listed(lists), r.Gone())
              || (exists t, d :: LosesNested(o, Listed(lists), r.Gone(), t, d))
              || DroppedAgain(o, ops)
  {
    var scanned := Scanned(r.store, r.found, r.disk);
    assert order[..|order|] == order;
    FileByFileDropsAll(order, lists, |order|);
    DeletionsTakeNested(o, scanned, Changed(r.store, r.found, r.disk, r.project));
    UpdateTouchesErasedExactlyWhen(o, Listed(lists), r.Gone(), FileByFile(order, lists, |order|));
  }

  // ------------------------------------------------------------------
  // Namespaces
  // ------------------------------------------------------------------

  type Space = string

  /** `removeNamespace` holds the namespace's lock, shared, while `removeType` asks for it
      exclusively: the removal is stuck if the namespace still has a type. */
  ghost predicate Stuck(s: Objects, homes: map<TypeId, Space>, n: Space) {
    exists t :: t in s.files && t in homes && homes[t] == n
  }

  /** The k-th file is the last one, in this order, that opens the namespace. */
  ghost predicate ClosesAt(order: seq<File>, openers: set<File>, k: nat)
    requires k < |order|
  {
    order[k] in openers && openers <= Files(order[..k + 1])
  }

  /** A file's namespaces come before its types: at the k-th file the namespace meets the
      types as the files before have left them. */
  ghost predicate GetsStuck(o: Objects, lists: map<File, seq<TypeId>>, homes: map<TypeId, Space>, n: Space,
                            openers: set<File>, order: seq<File>, k: nat)
    requires k < |order|
  {
    var ops := FileByFile(order, lists, k);
    var s := ApplyAll(o, ops, |ops|);
    ClosesAt(order, openers, k) && s.Some? && Stuck(s.value, homes, n)
  }

  /** t exists, and neither it nor a type around it has lost all its files. */
  ghost predicate Spared(o: Objects, gone: set<File>, t: TypeId) {
    t in o.files && forall u | Under(o.outers, u, t) :: !Emptied(o, gone, u)
  }

  lemma ErasedUnlessSpared(o: Objects, listed: Listings, gone: set<File>, ops: seq<Op>, t: TypeId)
    requires NumberedLists(o, listed) && InStep(o, listed) && DropsAll(listed, gone, ops)
    requires !BadStart(o, listed, gone) && t in o.files
    ensures ErasedBefore(o, ops, |ops|, t) <==> !Spared(o, gone, t)
  {
    DropsAreNumbered(o, listed, gone, ops);
    if ErasedBefore(o, ops, |ops|, t) {
      var i :| 0 <= i < |ops| && EmptiesAround(o, ops, i, t);
      NoneMade(o, ops, i);
      assert !DeadListed(o, listed, gone, ops[i].t);
      EmptiedBy(o, listed, gone, ops, i);
    }
    if u :| Under(o.outers, u, t) && Emptied(o, gone, u) {
      var i := EmptiedSomewhere(o, listed, gone, ops, |ops|, u);
      NoneMade(o, ops, i);
      assert EmptiesAround(o, ops, i, t);
    }
  }

  lemma LeftAreSpared(o: Objects, listed: Listings, gone: set<File>, ops: seq<Op>, t: TypeId)
    requires NumberedLists(o, listed) && InStep(o, listed) && DropsAll(listed, gone, ops)
    requires ApplyAll(o, ops, |ops|).Some?
    ensures t in ApplyAll(o, ops, |ops|).value.files <==> Spared(o, gone, t)
  {
    DropsAreNumbered(o, listed, gone, ops);
    DeletionTouchesExactlyWhen(o, listed, gone, ops);
    StateAfter(o, ops, |ops|);
    NoneMade(o, ops, |ops|);
    assert t in ApplyAll(o, ops, |ops|).value.files <==> ExistsAt(o, ops, |ops|, t);
    if t in o.files {
      ErasedUnlessSpared(o, listed, gone, ops, t);
    }
  }

  /** As long as no erased type object is touched, a namespace gets the removal stuck
      exactly at the last file that opens it, if it has a type that the files before
      have spared. */
  lemma NamespaceStuckExactlyWhen(o: Objects, lists: map<File, seq<TypeId>>, homes: map<TypeId, Space>, n: Space,
                                  openers: set<File>, order: seq<File>, k: nat)
    requires NumberedLists(o, Listed(lists)) && InStep(o, Listed(lists)) && forall f | f in lists :: NoRepeats(lists[f])
    requires NoRepeats(order) && k < |order|
    requires var ops := FileByFile(order, lists, k); ApplyAll(o, ops, |ops|).Some?
    ensures GetsStuck(o, lists, homes, n, openers, order, k) <==>
            && ClosesAt(order, openers, k)
            && exists t :: t in homes && homes[t] == n && Spared(o, Files(order[..k]), t)
  {
    var ops := FileByFile(order, lists, k);
    FileByFileDropsAll(order, lists, k);
    forall t: TypeId ensures t in ApplyAll(o, ops, |ops|).value.files <==> Spared(o, Files(order[..k]), t) {
      LeftAreSpared(o, Listed(lists), Files(order[..k]), ops, t);
    }
  }

  // ------------------------------------------------------------------
  // Every history stays in step
  // ------------------------------------------------------------------

  const NO_TYPES := Objects([], map[])

  /** Post-processing picks one of the files the type has. */
  ghost predicate PicksOwn(ops: seq<Op>) {
    forall i | 0 <= i < |ops| && ops[i].SetUnique? :: ops[i].f in FilesAt(NO_TYPES, ops, i, ops[i].t)
  }

  /** The file has mentioned the type and was not removed since. */
  ghost predicate ListedBy(ops: seq<Op>, n: nat, f: File, t: TypeId)
    requires n <= |ops|
  {
    exists i | 0 <= i < n :: ops[i] == Mention(t, f) && forall k | i < k < n :: ops[k] != Drop(f, t)
  }

  lemma ListedNext(ops: seq<Op>, n: nat, f: File, t: TypeId)
    requires n < |ops|
    ensures ListedBy(ops, n + 1, f, t) <==> ops[n] == Mention(t, f) || (ListedBy(ops, n, f, t) && ops[n] != Drop(f, t))
  {
    if ListedBy(ops, n, f, t) && ops[n] != Drop(f, t) {
      var i :| 0 <= i < n && ops[i] == Mention(t, f) && forall k | i < k < n :: ops[k] != Drop(f, t);
      assert forall k | i < k < n + 1 :: ops[k] != Drop(f, t);
    }
  }

  lemma {:induction false} FilesListIt(ops: seq<Op>, n: nat, f: File, t: TypeId)
    requires PicksOwn(ops) && n <= |ops| && f in FilesAt(NO_TYPES, ops, n, t)
    ensures ListedBy(ops, n, f, t)
    decreases n
  {
    if n > 0 {
      ListedNext(ops, n - 1, f, t);
      if ops[n - 1] != Mention(t, f) { FilesListIt(ops, n - 1, f, t); }
    }
  }

  ghost predicate Mentioned(ops: seq<Op>, n: nat, t: TypeId)
    requires n <= |ops|
  {
    exists i | 0 <= i < n :: ops[i].Mention? && ops[i].t == t
  }

  lemma MentionedIsMade(ops: seq<Op>, n: nat, t: TypeId)
    requires NumberedOps(NO_TYPES, ops) && n <= |ops| && Mentioned(ops, n, t)
    ensures t < |OutersAt(NO_TYPES, ops, n)|
  {
    var i :| 0 <= i < n && ops[i].Mention? && ops[i].t == t;
    assert NumberedOp(OutersAt(NO_TYPES, ops, i), ops[i]);
    OutersGrow(NO_TYPES, ops, i, n);
  }

  /** The only way to lose all files is to be erased. */
  lemma KeepsFiles(ops: seq<Op>, n: nat, t: TypeId)
    requires n < |ops| && t < |OutersAt(NO_TYPES, ops, n)| && ExistsAt(NO_TYPES, ops, n + 1, t)
    requires FilesAt(NO_TYPES, ops, n, t) != {}
    ensures FilesAt(NO_TYPES, ops, n + 1, t) != {}
  {
    if ops[n].Drop? && ops[n].t == t && EmptiesAt(NO_TYPES, ops, n) {
      assert EmptiesAround(NO_TYPES, ops, n, t);
    }
  }

  lemma ExistedBefore(ops: seq<Op>, n: nat, t: TypeId)
    requires n < |ops| && t < |OutersAt(NO_TYPES, ops, n)| && ExistsAt(NO_TYPES, ops, n + 1, t)
    ensures ExistsAt(NO_TYPES, ops, n, t)
  {
    ErasedNext(NO_TYPES, ops, n, t);
  }

  /** A type that was ever mentioned has a file as long as it exists. */
  lemma {:induction false} MentionedHasFile(ops: seq<Op>, n: nat, t: TypeId)
    requires NumberedOps(NO_TYPES, ops) && n <= |ops|
    requires Mentioned(ops, n, t) && ExistsAt(NO_TYPES, ops, n, t)
    ensures FilesAt(NO_TYPES, ops, n, t) != {}
    decreases n
  {
    var last := ops[n - 1];
    if last.Mention? && last.t == t {
      assert last.f in FilesAt(NO_TYPES, ops, n, t);
    } else {
      assert Mentioned(ops, n - 1, t);
      MentionedIsMade(ops, n - 1, t);
      ExistedBefore(ops, n - 1, t);
      MentionedHasFile(ops, n - 1, t);
      KeepsFiles(ops, n - 1, t);
    }
  }

  ghost predicate Descends(outers: Outers) {
    forall t | 0 <= t < |outers| && outers[t].Some? :: outers[t].value < t
  }

  lemma {:induction false} OutersDescend(ops: seq<Op>, n: nat)
    requires NumberedOps(NO_TYPES, ops) && n <= |ops|
    ensures Descends(OutersAt(NO_TYPES, ops, n))
    decreases n
  {
    if n > 0 {
      var before, outers := OutersAt(NO_TYPES, ops, n - 1), OutersAt(NO_TYPES, ops, n);
      OutersDescend(ops, n - 1);
      assert NumberedOp(before, ops[n - 1]);
      forall t | 0 <= t < |outers| && outers[t].Some? ensures outers[t].value < t {
        if t < |before| {
          assert outers[t] == before[t];
        } else {
          assert ops[n - 1].Make? && t == |before| && outers[t] == ops[n - 1].outer;
        }
      }
    }
  }

  /** Whatever is made, mentioned, post-processed and dropped: as long as no erased type is
      touched, the lists of types and of files are in step as the theorems on deletions
      ask. So these hold for every state that runs can leave. */
  lemma HistoriesStayInStep(ops: seq<Op>, listed: Listings)
    requires NumberedOps(NO_TYPES, ops) && PicksOwn(ops) && ApplyAll(NO_TYPES, ops, |ops|).Some?
    requires ListsAre(ops, listed)
    ensures var o := ApplyAll(NO_TYPES, ops, |ops|).value; InStep(o, listed) && NumberedLists(o, listed)
  {
    StateAfter(NO_TYPES, ops, |ops|);
    InStepFrom(ops, ApplyAll(NO_TYPES, ops, |ops|).value, listed);
  }

  /** The lists are those that the operations have left. */
  ghost predicate ListsAre(ops: seq<Op>, listed: Listings) {
    forall f: File, t: TypeId :: IsListedAs(ops, listed, f, t)
  }

  ghost predicate IsListedAs(ops: seq<Op>, listed: Listings, f: File, t: TypeId) {
    t in Image(listed, f) <==> ListedBy(ops, |ops|, f, t)
  }

  lemma InStepFrom(ops: seq<Op>, o: Objects, listed: Listings)
    requires NumberedOps(NO_TYPES, ops) && PicksOwn(ops) && StateIs(NO_TYPES, ops, |ops|, o) && ListsAre(ops, listed)
    ensures InStep(o, listed) && NumberedLists(o, listed)
  {
    NumberedFrom(ops, o);
    forall t: TypeId, f: File | t in o.files && f in o.files[t] ensures t in Image(listed, f) {
      PairInStep(ops, o, listed, t, f);
    }
    forall t: TypeId, f: File | t in o.files && t in Image(listed, f) ensures o.files[t] != {} {
      PairInStep(ops, o, listed, t, f);
    }
    forall f: File, t: TypeId | t in Image(listed, f) ensures t < |o.outers| {
      PairInStep(ops, o, listed, t, f);
    }
  }

  lemma NumberedFrom(ops: seq<Op>, o: Objects)
    requires NumberedOps(NO_TYPES, ops) && StateIs(NO_TYPES, ops, |ops|, o)
    ensures Numbered(o)
  {
    OutersDescend(ops, |ops|);
    assert Descends(o.outers);
    forall t | t in o.files ensures t < |o.outers| { StateHolds(ops, o, t); }
  }

  lemma PairInStep(ops: seq<Op>, o: Objects, listed: Listings, t: TypeId, f: File)
    requires NumberedOps(NO_TYPES, ops) && PicksOwn(ops) && StateIs(NO_TYPES, ops, |ops|, o) && ListsAre(ops, listed)
    ensures t in o.files && f in o.files[t] ==> t in Image(listed, f)
    ensures t in Image(listed, f) ==> t < |o.outers| && (t in o.files ==> o.files[t] != {})
  {
    assert IsListedAs(ops, listed, f, t);
    if t in o.files && f in o.files[t] { FileIsListed(ops, o, t, f); }
    if t in Image(listed, f) { ListedHasFile(ops, o, t, f); }
  }

  lemma FileIsListed(ops: seq<Op>, o: Objects, t: TypeId, f: File)
    requires StateIs(NO_TYPES, ops, |ops|, o) && PicksOwn(ops) && t in o.files && f in o.files[t]
    ensures ListedBy(ops, |ops|, f, t)
  {
    StateHolds(ops, o, t);
    FilesListIt(ops, |ops|, f, t);
  }

  lemma ListedHasFile(ops: seq<Op>, o: Objects, t: TypeId, f: File)
    requires StateIs(NO_TYPES, ops, |ops|, o) && NumberedOps(NO_TYPES, ops) && ListedBy(ops, |ops|, f, t)
    ensures t < |o.outers| && (t in o.files ==> o.files[t] != {})
  {
    ListedIsMentioned(ops, f, t);
    MentionedIsMade(ops, |ops|, t);
    if t in o.files {
      StateHolds(ops, o, t);
      MentionedHasFile(ops, |ops|, t);
    }
  }

  lemma StateHolds(ops: seq<Op>, o: Objects, t: TypeId)
    requires StateIs(NO_TYPES, ops, |ops|, o) && t in o.files
    ensures ExistsAt(NO_TYPES, ops, |ops|, t) && o.files[t] == FilesAt(NO_TYPES, ops, |ops|, t) && t < |o.outers|
  {
    assert t in o.files <==> ExistsAt(NO_TYPES, ops, |ops|, t);
  }

  lemma ListedIsMentioned(ops: seq<Op>, f: File, t: TypeId)
    requires ListedBy(ops, |ops|, f, t)
    ensures Mentioned(ops, |ops|, t)
  {
    var i :| 0 <= i < |ops| && ops[i] == Mention(t, f);
  }

  // ------------------------------------------------------------------
  // Edits that fail
  // ------------------------------------------------------------------

  /** A file that holds a class and a class nested in it is enough: edit it, and the
      deletion touches an erased object, whichever type the file lists first. */
  lemma EditingNestedTypes(f: File, outerFirst: bool)
    ensures var drops := if outerFirst then [Drop(f, 0), Drop(f, 1)] else [Drop(f, 1), Drop(f, 0)];
            ApplyAll(NO_TYPES, [Make(None), Mention(0, f), Make(Some(0)), Mention(1, f)] + drops, 6) == None
  {
    var drops := if outerFirst then [Drop(f, 0), Drop(f, 1)] else [Drop(f, 1), Drop(f, 0)];
    var o, ops := NO_TYPES, [Make(None), Mention(0, f), Make(Some(0)), Mention(1, f)] + drops;
    FirstType(ops, f);
    var both := Objects([None, Some(0)], map[0 := {f}, 1 := {f}]);
    assert [None] + [Some(0)] == both.outers;
    Onward(o, ops, 2, Objects([None], map[0 := {f}]), Objects(both.outers, map[0 := {f}, 1 := {}]));
    var half: map<TypeId, set<File>> := map[0 := {f}, 1 := {}];
    MentionAdds(half, 1, {}, f);
    assert half[1 := {f} + {}] == both.files;
    Onward(o, ops, 3, Objects(both.outers, half), both);
    SubtreesOfTwo(both.outers);
    if drops[0].t == 0 {
      Onward(o, ops, 4, both, Objects(both.outers, map[]));
    } else {
      assert both.files - {1} == map[0 := {f}] && {f} - {f} == {};
      Onward(o, ops, 4, both, Objects(both.outers, map[0 := {f}]));
    }
  }

  lemma SubtreesOfTwo(outers: Outers)
    requires outers == [None, Some(0)]
    ensures Subtree(outers, 0) == {0, 1} && Subtree(outers, 1) == {1}
  {
    assert Under(outers, 0, 0) && Under(outers, 0, 1) && Under(outers, 1, 1) && !Under(outers, 1, 0);
  }

  lemma Onward(o: Objects, ops: seq<Op>, n: nat, before: Objects, after: Objects)
    requires n < |ops| && ApplyAll(o, ops, n) == Some(before) && Apply(before, ops[n]) == Some(after)
    ensures ApplyAll(o, ops, n + 1) == Some(after)
  {
  }

  lemma MentionAdds(files: map<TypeId, set<File>>, t: TypeId, before: set<File>, f: File)
    requires t in files && files[t] == before
    ensures files[t := files[t] + {f}] == files[t := {f} + before]
  {
    assert before + {f} == {f} + before;
  }

  /** A first type, and the file that mentions it. */
  lemma FirstType(ops: seq<Op>, f: File)
    requires |ops| >= 2 && ops[0] == Make(None) && ops[1] == Mention(0, f)
    ensures ApplyAll(NO_TYPES, ops, 2) == Some(Objects([None], map[0 := {f}]))
  {
    var o, made := NO_TYPES, Objects([None], map[0 := {}]);
    var files: map<TypeId, set<File>> := map[];
    assert [] + [ops[0].outer] == made.outers && files[0 := {}] == made.files;
    Onward(o, ops, 0, o, made);
    MentionAdds(made.files, 0, {}, f);
    var none: set<File> := {};
    assert {f} + none == {f};
    assert made.files[0 := {f} + none] == map[0 := {f}];
    Onward(o, ops, 1, made, Objects([None], map[0 := {f}]));
  }

  /** No nesting is needed: header holds a class, unit includes it and declares the class
      again. Both list the class, and post-processing leaves it the header alone. Edit the
      header: the class is erased with it, and the unit, removed next, still lists it. */
  lemma EditingSharedType(header: File, unit: File)
    requires header != unit
    ensures ApplyAll(NO_TYPES, [Make(None), Mention(0, header), Mention(0, unit), SetUnique(0, header),
                                          Drop(header, 0), Drop(unit, 0)], 6) == None
    ensures var o, listed := Objects([None], map[0 := {header}]), map[header := {0}, unit := {0}];
            && InStep(o, listed) && NumberedLists(o, listed) && !BadStart(o, listed, {header, unit})
            && ListedElsewhere(o, listed, {header, unit}, 0)
  {
    var o := NO_TYPES;
    var ops := [Make(None), Mention(0, header), Mention(0, unit), SetUnique(0, header), Drop(header, 0), Drop(unit, 0)];
    var h := Objects([None], map[0 := {header}]);
    FirstType(ops, header);
    var two: map<TypeId, set<File>> := map[0 := {header, unit}];
    assert {header} + {unit} == {header, unit};
    assert h.files[0 := h.files[0] + {unit}] == two && two[0 := {header}] == h.files;
    Onward(o, ops, 2, h, Objects([None], two));
    Onward(o, ops, 3, Objects([None], two), h);
    assert Subtree([None], 0) == {0};
    Onward(o, ops, 4, h, Objects([None], map[]));
    var listed := map[header := {0}, unit := {0}];
    assert unit in {header, unit} && 0 in Image(listed, unit);
  }

  /** Editing the one file that opens a namespace and declares a class in it is enough to
      get the removal stuck. */
  lemma EditingNamespace(f: File, n: Space)
    ensures GetsStuck(Objects([None], map[0 := {f}]), map[f := [0]], map[0 := n], n, {f}, [f], 0)
  {
    var o := Objects([None], map[0 := {f}]);
    assert 0 in o.files;
    assert [f][..1] == [f];
    assert ApplyAll(o, FileByFile([f], map[f := [0]], 0), 0) == Some(o);
  }
}
