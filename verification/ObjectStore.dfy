/** The files of lvtmdb/ct_lvtmdb_objectstore.cpp: removal of a file together with
    all that includes it, and what a parse of a unit adds. */
module ObjectStores {
  import opened Digraph
  import opened CompilationDatabases
  import opened IncrementalUpdates

  datatype State =
    | Error | ManuallyStopped | NoneReady | PhysicalReady | PhysicalError | AllReady | LogicalError

  ghost function Includers(store: Store, f: File): set<File> {
    set g | g in store && f in store[g].includes
  }

  ghost function Elems(s: seq<File>): set<File> {
    set f | f in s
  }

  // ------------------------------------------------------------------
  // File objects and the pointers between them
  // ------------------------------------------------------------------

  /** Which object a pointer means: the file, and how many objects were made before.
      Addresses are never used twice. */
  datatype Object = Object(file: File, birth: nat)

  /** The objects that exist, each one's reverse includes, and the number of objects made
      so far. Erasing an object leaves the pointers to it where they are. */
  datatype Links = Links(births: map<File, nat>, reverse: map<File, set<Object>>, made: nat) {
    predicate Live(o: Object) {
      o.file in births && births[o.file] == o.birth
    }

    function Current(f: File): Object
      requires f in births
    {
      Object(f, births[f])
    }

    ghost function Stale(): set<File> {
      set g | g in reverse && exists o :: o in reverse[g] && !Live(o)
    }

    function Made(f: File): Links {
      Links(births[f := made], reverse[f := {}], made + 1)
    }

    function Linking(f: File, g: File): Links
      requires f in births && g in reverse
    {
      this.(reverse := reverse[g := reverse[g] + {Current(f)}])
    }

    function Erased(gone: set<File>): Links {
      this.(births := births - gone, reverse := reverse - gone)
    }
  }

  const NO_LINKS := Links(map[], map[], 0)

  /** Each stored file has an object, and among objects that exist reverse includes are
      the converse of includes. */
  ghost predicate Linked(files: Store, l: Links) {
    && l.births.Keys == l.reverse.Keys == files.Keys
    && forall g {:trigger LinkedAt(files, l, g)} | g in files :: LinkedAt(files, l, g)
  }

  ghost predicate LinkedAt(files: Store, l: Links, g: File)
    requires l.births.Keys == l.reverse.Keys == files.Keys && g in files
  {
    && l.births[g] < l.made && files[g].includes <= files.Keys
    && (forall o | o in l.reverse[g] :: o.birth < l.made)
    && (forall f | f in files :: l.Current(f) in l.reverse[g] <==> g in files[f].includes)
  }

  lemma MakeKeepsLinked(files: Store, l: Links, f: File, hash: Hash)
    requires Linked(files, l) && f !in files
    ensures Linked(files[f := FileObject(hash, {}, {})], l.Made(f)) && l.Made(f).Stale() == l.Stale()
  {
    var files', k := files[f := FileObject(hash, {}, {})], l.Made(f);
    forall g | g in files' ensures LinkedAt(files', k, g) {
      if g == f {
        forall h | h in files ensures f !in files[h].includes { assert LinkedAt(files, l, h); }
      } else {
        assert LinkedAt(files, l, g);
      }
    }
    forall g, o | g in files && o in l.reverse[g] ensures k.Live(o) <==> l.Live(o) { assert LinkedAt(files, l, g); }
  }

  lemma LinkKeepsLinked(files: Store, l: Links, f: File, g: File)
    requires Linked(files, l) && f in files && g in files
    ensures Linked(files[f := files[f].(includes := files[f].includes + {g})], l.Linking(f, g))
    ensures l.Linking(f, g).Stale() == l.Stale()
  {
    var files', k := files[f := files[f].(includes := files[f].includes + {g})], l.Linking(f, g);
    assert LinkedAt(files, l, f);
    forall h | h in files' ensures LinkedAt(files', k, h) {
      assert LinkedAt(files, l, h);
      forall x | x in files' ensures k.Current(x) in k.reverse[h] <==> h in files'[x].includes {
        assert k.Current(x) == l.Current(x) && (k.Current(x) == l.Current(f) <==> x == f);
      }
    }
    LinkingKeepsStale(l, f, g);
  }

  lemma LinkingKeepsStale(l: Links, f: File, g: File)
    requires f in l.births && g in l.reverse
    ensures l.Linking(f, g).Stale() == l.Stale()
  {
    var k := l.Linking(f, g);
    forall h | h in l.reverse ensures h in k.Stale() <==> h in l.Stale() {
      if o :| o in l.reverse[h] && !l.Live(o) { assert o in k.reverse[h] && !k.Live(o); }
      if o :| o in k.reverse[h] && !k.Live(o) { assert o in l.reverse[h] && !l.Live(o); }
    }
  }

  lemma SameIncludesLinked(files: Store, l: Links, files': Store)
    requires Linked(files, l) && files'.Keys == files.Keys
    requires forall f | f in files :: files'[f].includes == files[f].includes
    ensures Linked(files', l)
  {
    forall g | g in files' ensures LinkedAt(files', l, g) { assert LinkedAt(files, l, g); }
  }

  /** Erasing files with all their includers leaves the pointers in order, but for those
      from files that stay to what is gone. */
  lemma EraseKeepsLinked(files: Store, l: Links, gone: set<File>)
    requires Linked(files, l) && forall g | g in gone :: Includers(files, g) <= gone
    ensures Linked(files - gone, l.Erased(gone))
    ensures l.Erased(gone).Stale() == StaleAfter(files, l.Stale(), gone)
  {
    var rest, k := files - gone, l.Erased(gone);
    forall g | g in rest ensures LinkedAt(rest, k, g) {
      assert LinkedAt(files, l, g);
      forall h | h in files[g].includes ensures h in rest {
        assert h in gone ==> g in Includers(files, h);
      }
    }
    forall g | g in rest ensures g in k.Stale() <==> g in StaleAfter(files, l.Stale(), gone) {
      ErasedPointers(files, l, gone, g);
    }
  }

  lemma ErasedPointers(files: Store, l: Links, gone: set<File>, g: File)
    requires Linked(files, l) && g in files && g !in gone
    ensures g in l.Erased(gone).Stale() <==>
        g in l.Stale() || exists f :: f in gone && f in files && g in files[f].includes
  {
    var k := l.Erased(gone);
    assert LinkedAt(files, l, g) && g in k.reverse && k.reverse[g] == l.reverse[g];
    if o :| o in l.reverse[g] && l.Live(o) && !k.Live(o) {
      assert o.file in gone && l.Current(o.file) == o && o.file in files && g in files[o.file].includes;
    }
    if f :| f in gone && f in files && g in files[f].includes {
      assert l.Current(f) in k.reverse[g] && !k.Live(l.Current(f));
    }
    if o :| o in l.reverse[g] && !l.Live(o) {
      assert o in k.reverse[g] && !k.Live(o);
    }
  }

  // ------------------------------------------------------------------
  // Removal
  // ------------------------------------------------------------------

  ghost function NamesOf(objects: set<Object>): set<File> {
    set o | o in objects :: o.file
  }

  /** A removal that began with the files `start` may be under way: what is no longer
      stored was marked, and the rest is as it was. */
  ghost predicate PartlyRemoved(start: Store, files: Store, marked: set<File>) {
    && files.Keys <= start.Keys && start.Keys - files.Keys <= marked
    && (forall f | f in files :: files[f] == start[f])
  }

  /** ... and likewise for the pointers; only objects that existed were marked. */
  ghost predicate Removing(start: Store, before: Links, files: Store, links: Links, marked: set<Object>) {
    && PartlyRemoved(start, files, NamesOf(marked))
    && links == before.Erased(start.Keys - files.Keys)
    && (forall o | o in marked :: before.Live(o))
  }

  lemma MarkedByName(before: Links, marked: set<Object>, o: Object)
    requires before.Live(o) && forall m | m in marked :: before.Live(m)
    ensures o in marked <==> o.file in NamesOf(marked)
  {
    if o.file in NamesOf(marked) {
      var m :| m in marked && m.file == o.file;
      assert m == o;
    }
  }

  /** A removal of o meets an erased object: o, or one that a file which includes o's
      file points to. */
  ghost predicate MeetsErased(start: Store, before: Links, o: Object) {
    || !before.Live(o)
    || exists g :: g in start && g in before.Stale() && Reaches(IncludeGraph(start), g, o.file)
  }

  lemma DeadBefore(start: Store, before: Links, files: Store, links: Links, marked: set<Object>, o: Object)
    requires Linked(start, before) && Removing(start, before, files, links, marked)
    requires o !in marked && !links.Live(o)
    ensures !before.Live(o)
  {
    if before.Live(o) { MarkedByName(before, marked, o); }
  }

  /** What a pointer of `file` meets, the removal of `file` meets. */
  lemma MeetsOnward(start: Store, before: Links, file: File, o: Object)
    requires Linked(start, before) && file in start && o in before.reverse[file] && MeetsErased(start, before, o)
    ensures MeetsErased(start, before, before.Current(file))
  {
    var cg := IncludeGraph(start);
    if !before.Live(o) {
      ReachesSelf(cg, file);
      assert file in before.Stale();
    } else {
      var g :| g in start && g in before.Stale() && Reaches(cg, g, o.file);
      assert before.Current(o.file) == o && LinkedAt(start, before, file);
      IncluderReaches(start, o.file, file);
      ReachesTrans(cg, g, o.file, file);
    }
  }

  /** One removal of f marks f, all includers of what it marks, and nothing else; none
      of these has a pointer to an object erased before. */
  ghost predicate MarksIncluders(start: Store, before: Links, f: File, marked: set<File>, after: set<File>) {
    && marked <= after && f in after && after - marked <= start.Keys
    && (forall g | g in after - marked :: MarkedFor(start, before, f, after, g))
  }

  ghost predicate MarkedFor(start: Store, before: Links, f: File, after: set<File>, g: File) {
    Reaches(IncludeGraph(start), g, f) && Includers(start, g) <= after && g !in before.Stale()
  }

  /** The loop over the includers of f has come this far. */
  ghost predicate MarkingIncluders(start: Store, before: Links, f: File, marked: set<File>, after: set<File>) {
    && marked + {f} <= after && after - marked <= start.Keys
    && (forall g | g in after - marked ::
        Reaches(IncludeGraph(start), g, f) && (g != f ==> MarkedFor(start, before, f, after, g)))
  }

  lemma MarksMore(start: Store, before: Links, f: File, marked: set<File>, mid: set<File>, g: File, after: set<File>)
    requires MarkingIncluders(start, before, f, marked, mid) && MarksIncluders(start, before, g, mid, after)
    requires g in start && f in start[g].includes
    ensures MarkingIncluders(start, before, f, marked, after)
  {
    IncluderReaches(start, g, f);
    forall h | h in after - marked
      ensures Reaches(IncludeGraph(start), h, f) && (h != f ==> MarkedFor(start, before, f, after, h))
    {
      if h in mid {
        assert h != f ==> MarkedFor(start, before, f, mid, h);
      } else {
        assert MarkedFor(start, before, g, after, h);
        ReachesTrans(IncludeGraph(start), h, g, f);
      }
    }
  }

  /** ... and is through with them. */
  lemma MarksAll(start: Store, before: Links, f: File, marked: set<File>, after: set<Object>)
    requires Linked(start, before) && f in start && MarkingIncluders(start, before, f, marked, NamesOf(after))
    requires before.reverse[f] <= after && forall o | o in after :: before.Live(o)
    ensures MarksIncluders(start, before, f, marked, NamesOf(after))
  {
    assert LinkedAt(start, before, f);
    forall g | g in Includers(start, f) ensures g in NamesOf(after) {
      assert before.Current(g) in before.reverse[f];
    }
    forall g | g in NamesOf(after) - marked ensures MarkedFor(start, before, f, NamesOf(after), g) {
    }
  }

  lemma DistinctAppend(a: seq<File>, b: seq<File>)
    requires Distinct(a) && Distinct(b) && Elems(a) !! Elems(b)
    ensures Distinct(a + b) && Elems(a + b) == Elems(a) + Elems(b)
  {
    forall i, j | 0 <= i < j < |a + b| ensures (a + b)[i] != (a + b)[j] {
      if i < |a| <= j { assert a[i] in Elems(a) && b[j - |a|] in Elems(b); }
    }
  }

  lemma MarkFirst(start: Store, before: Links, files: Store, links: Links, marked: set<Object>, o: Object)
    requires Linked(start, before) && Removing(start, before, files, links, marked) && o !in marked && links.Live(o)
    ensures Removing(start, before, files, links, marked + {o}) && before.Live(o) && o.file !in NamesOf(marked)
    ensures NamesOf(marked + {o}) == NamesOf(marked) + {o.file} && o.file in files
    ensures start.Keys - NamesOf(marked + {o}) < start.Keys - NamesOf(marked)
    ensures MarkingIncluders(start, before, o.file, NamesOf(marked), NamesOf(marked + {o}))
  {
    MarkedByName(before, marked, o);
    ReachesSelf(IncludeGraph(start), o.file);
  }

  lemma EraseLast(start: Store, before: Links, files: Store, links: Links, marked: set<Object>, f: File)
    requires Linked(start, before) && Removing(start, before, files, links, marked) && f in files
        && f in NamesOf(marked)
    ensures Removing(start, before, files - {f}, links.Erased({f}), marked)
  {
    assert start.Keys - (files - {f}).Keys == (start.Keys - files.Keys) + {f};
  }

  lemma ListedMore(files: Store, first: set<File>, mid: set<File>, after: set<File>, res: seq<File>, more: seq<File>)
    requires first <= mid <= after && Distinct(res) && Distinct(more)
    requires Elems(res) == mid - first && Elems(more) == after - mid
    ensures Distinct(res + more) && Elems(res + more) == after - first
    ensures files - Elems(res) - Elems(more) == files - Elems(res + more)
  {
    DistinctAppend(res, more);
  }

  lemma MarkedStep(start: Store, before: Links, f: File, marked: set<File>, mid: set<Object>, o: Object,
      after: set<Object>)
    requires Linked(start, before) && f in start && o in before.reverse[f]
    requires MarkingIncluders(start, before, f, marked, NamesOf(mid))
    requires forall m | m in after :: before.Live(m)
    requires o in after && if o in mid then after == mid
        else MarksIncluders(start, before, o.file, NamesOf(mid), NamesOf(after))
    ensures MarkingIncluders(start, before, f, marked, NamesOf(after)) && NamesOf(mid) <= NamesOf(after)
  {
    if o !in mid {
      assert before.Live(o) && before.Current(o.file) == o && LinkedAt(start, before, f);
      MarksMore(start, before, f, marked, NamesOf(mid), o.file, NamesOf(after));
    }
  }

  class ObjectStore {
    var files: Store
    var links: Links
    var state: State

    ghost predicate Valid()
      reads this
    {
      Linked(files, links)
    }

    /** The files with a pointer to an erased object. */
    ghost function Stale(): set<File>
      reads this
    {
      links.Stale()
    }

    constructor ()
      ensures Valid() && files == map[] && Stale() == {} && state == NoneReady
    {
      files, links, state := map[], NO_LINKS, NoneReady;
    }

    /** Marks the object, follows its reverse includes, then erases it. Their order does
        not matter. A pointer to an object erased by an earlier removal ends in a fault. */
    method RemoveFile(o: Object, marked: set<Object>, ghost start: Store, ghost before: Links)
      returns (res: seq<File>, marked': set<Object>, fault: bool)
      requires Linked(start, before) && Removing(start, before, files, links, marked)
      modifies this`files, this`links
      ensures fault ==> o !in marked && MeetsErased(start, before, o)
      ensures !fault ==> Removing(start, before, files, links, marked') && marked + {o} <= marked'
      ensures !fault && o in marked ==> res == [] && marked' == marked && files == old(files)
      ensures !fault && o !in marked ==> MarksIncluders(start, before, o.file, NamesOf(marked), NamesOf(marked'))
      ensures !fault ==> Distinct(res) && Elems(res) == NamesOf(marked') - NamesOf(marked)
      ensures !fault ==> files == old(files) - Elems(res)
      decreases start.Keys - NamesOf(marked), 0
    {
      res, marked', fault := [], marked, false;
      if o in marked {
        return;
      }
      if !links.Live(o) {
        DeadBefore(start, before, files, links, marked, o);
        return [], marked, true;
      }
      MarkFirst(start, before, files, links, marked, o);
      res, marked', fault := RemoveIncluders(o, marked + {o}, start, before, NamesOf(marked));
      if fault {
        return;
      }
      MarksAll(start, before, o.file, NamesOf(marked), marked');
      EraseLast(start, before, files, links, marked', o.file);
      files := files - {o.file};
      links := links.Erased({o.file});
      DistinctAppend(res, [o.file]);
      res := res + [o.file];
    }

    /** The loop over the object's reverse includes. */
    method RemoveIncluders(o: Object, marked: set<Object>, ghost start: Store, ghost before: Links,
        ghost first: set<File>)
      returns (res: seq<File>, marked': set<Object>, fault: bool)
      requires Linked(start, before) && Removing(start, before, files, links, marked)
      requires o in marked && links.Live(o) && MarkingIncluders(start, before, o.file, first, NamesOf(marked))
      modifies this`files, this`links
      ensures fault ==> MeetsErased(start, before, o)
      ensures !fault ==> Removing(start, before, files, links, marked') && marked + before.reverse[o.file] <= marked'
      ensures !fault ==> MarkingIncluders(start, before, o.file, first, NamesOf(marked'))
      ensures !fault ==> Distinct(res) && Elems(res) == NamesOf(marked') - NamesOf(marked)
      ensures !fault ==> files == old(files) - Elems(res)
      decreases start.Keys - NamesOf(marked), 1
    {
      res, marked', fault := [], marked, false;
      var todo := links.reverse[o.file];
      ghost var all := todo;
      while todo != {}
        invariant todo <= all == before.reverse[o.file] && all - todo <= marked' && marked <= marked'
        invariant Removing(start, before, files, links, marked') && NamesOf(marked) <= NamesOf(marked')
        invariant MarkingIncluders(start, before, o.file, first, NamesOf(marked'))
        invariant Distinct(res) && Elems(res) == NamesOf(marked') - NamesOf(marked) && files == old(files) - Elems(res)
      {
        var i :| i in todo;
        ghost var mid := marked';
        var more;
        assert start.Keys - NamesOf(marked') <= start.Keys - NamesOf(marked);
        more, marked', fault := RemoveFile(i, marked', start, before);
        if fault {
          MeetsOnward(start, before, o.file, i);
          return;
        }
        MarkedStep(start, before, o.file, first, mid, i, marked');
        ListedMore(old(files), NamesOf(marked), NamesOf(mid), NamesOf(marked'), res, more);
        todo, res := todo - {i}, res + more;
      }
    }

    method WriteSourceFile(f: File, disk: Disk)
      requires Valid()
      modifies this`files, this`links
      ensures Valid() && Stale() == old(Stale())
      ensures files == old(files)[f := Entry(old(files), disk, f)]
    {
      if f !in files {
        MakeKeepsLinked(files, links, f, HashOf(disk, f));
        files := files[f := FileObject(HashOf(disk, f), {}, {})];
        links := links.Made(f);
      }
    }

    method SetHash(f: File, hash: Hash)
      requires Valid() && f in files
      modifies this`files
      ensures Valid() && Stale() == old(Stale())
      ensures files == old(files)[f := old(files)[f].(hash := hash)]
    {
      files := files[f := files[f].(hash := hash)];
      SameIncludesLinked(old(files), links, files);
    }

    /** What the visitor records. */
    method RecordEntities(f: File, disk: Disk)
      requires Valid() && f in files
      modifies this`files
      ensures Valid() && Stale() == old(Stale())
      ensures files == old(files)[f := Contribute(old(files)[f], disk, f, Logical)]
    {
      files := files[f := Contribute(files[f], disk, f, Logical)];
      SameIncludesLinked(old(files), links, files);
    }

    /** `InclusionDirective`; the logical pass records no includes. */
    method RecordInclude(f: File, g: File, disk: Disk, pass: Pass, ghost start: Store, ghost newly: set<File>)
      requires Valid() && f in files && f != g && Midway(start, files, disk, newly, pass, f)
      modifies this`files, this`links
      ensures Valid() && Stale() == old(Stale())
      ensures Midway(start, files, disk, newly, pass, f)
      ensures files.Keys == old(files).Keys + if pass == Physical then {g} else {}
      ensures files[f] == PartEntry(old(files)[f], disk, f, pass, {g})
    {
      if pass == Physical {
        WriteSourceFile(g, disk);
        LinkKeepsLinked(files, links, f, g);
        files := files[f := files[f].(includes := files[f].includes + {g})];
        links := links.Linking(f, g);
      }
    }

    /** The preprocessor, or the visitor, enters f and then each file it includes that
        was not entered before; include guards keep it from entering one twice. */
    method Enter(f: File, disk: Disk, pass: Pass, entered: set<File>) returns (entered': set<File>)
      requires Valid() && f in disk && f !in entered && entered <= disk.Keys && entered <= files.Keys
      modifies this`files, this`links
      ensures Valid() && Stale() == old(Stale())
      ensures EntersAll(disk, f, entered, entered')
      ensures files == Visited(old(files), disk, entered' - entered, pass)
      decreases disk.Keys - entered, 0
    {
      WriteSourceFile(f, disk);
      entered' := entered + {f};
      ghost var start := old(files);
      if pass == Logical {
        RecordEntities(f, disk);
      }
      ghost var first := files[f];
      var todo := Resolved(disk, f);
      ReachesSelf(DiskGraph(disk), f);
      while todo != {}
        invariant Valid() && Stale() == old(Stale())
        invariant todo <= Resolved(disk, f) && Resolved(disk, f) - todo <= entered'
        invariant EnteredSoFar(disk, f, entered, entered')
        invariant files.Keys == start.Keys + entered'
        invariant Midway(start, files, disk, entered' - entered, pass, f)
        invariant files[f] == PartEntry(first, disk, f, pass, Resolved(disk, f) - todo)
      {
        var g :| g in todo;
        PartStep(first, disk, f, pass, Resolved(disk, f), todo, g);
        entered' := EnterInclude(f, g, disk, pass, entered', start, entered);
        todo := todo - {g};
      }
      assert files.Keys == start.Keys + (entered' - entered);
      MidwayEnd(start, files, disk, entered' - entered, pass, f);
    }

    method EnterInclude(f: File, g: File, disk: Disk, pass: Pass, entered: set<File>, ghost start: Store,
        ghost before: set<File>)
      returns (entered': set<File>)
      requires g in Resolved(disk, f) && EnteredSoFar(disk, f, before, entered)
      requires Valid() && f !in before && Midway(start, files, disk, entered - before, pass, f)
          && files.Keys == start.Keys + entered
      modifies this`files, this`links
      ensures Valid() && Stale() == old(Stale())
      ensures EnteredSoFar(disk, f, before, entered') && entered + {g} <= entered'
      ensures Midway(start, files, disk, entered' - before, pass, f) && files.Keys == start.Keys + entered'
      ensures files[f] == PartEntry(old(files)[f], disk, f, pass, {g})
      decreases disk.Keys - entered, 1
    {
      entered' := entered;
      RecordInclude(f, g, disk, pass, start, entered - before);
      if g !in entered {
        ghost var mid := files;
        entered' := Enter(g, disk, pass, entered);
        IncludeEntered(start, mid, disk, before, entered, entered', pass, f, g, files);
      }
    }

    method ParseUnit(u: File, disk: Disk, pass: Pass) returns (ok: bool)
      requires Valid()
      modifies this`files, this`links
      ensures Valid() && Stale() == old(Stale())
      ensures files == Visited(old(files), disk, ReachSet(disk, {u}), pass)
      ensures RecordsPass(old(files), disk, {u}, pass, files)
      ensures ok <==> u in disk
    {
      ok := u in disk;
      if ok {
        var entered := Enter(u, disk, pass, {});
        EntersReachSet(disk, u, entered);
      } else {
        assert ReachSet(disk, {u}) == ReachSet(disk, {});
        NothingEntered(files, disk, pass);
      }
      VisitedRecords(old(files), disk, {u}, pass);
    }

    /** One pass over some units, in whatever order the workers take them. A unit that
        is missing on disk is an error. */
    method RunPass(units: set<File>, disk: Disk, pass: Pass) returns (failed: bool)
      requires Valid()
      modifies this`files, this`links
      ensures Valid() && Stale() == old(Stale())
      ensures files == Visited(old(files), disk, ReachSet(disk, units), pass)
      ensures RecordsPass(old(files), disk, units, pass, files)
      ensures failed <==> !(units <= disk.Keys)
    {
      failed := false;
      var todo := units;
      NothingEntered(files, disk, pass);
      while todo != {}
        invariant Valid() && Stale() == old(Stale())
        invariant todo <= units && (failed <==> !(units - todo <= disk.Keys))
        invariant files == Visited(old(files), disk, ReachSet(disk, units - todo), pass)
      {
        var u :| u in todo;
        ghost var done := units - todo;
        assert units - (todo - {u}) == done + {u};
        var ok := ParseUnit(u, disk, pass);
        failed := failed || !ok;
        VisitedTwice(old(files), disk, ReachSet(disk, done), ReachSet(disk, {u}), pass);
        ReachSetUnion(disk, done, {u});
        todo := todo - {u};
      }
      assert units - {} == units;
      VisitedRecords(old(files), disk, units, pass);
    }
  }

  /** Entering f enters all that f includes, and nothing else. */
  ghost predicate EntersAll(disk: Disk, f: File, before: set<File>, after: set<File>) {
    && before + {f} <= after <= disk.Keys
    && (forall x | x in after - before :: Reaches(DiskGraph(disk), f, x) && Resolved(disk, x) <= after)
  }

  ghost predicate EnteredSoFar(disk: Disk, f: File, before: set<File>, after: set<File>) {
    && before + {f} <= after <= disk.Keys
    && (forall x | x in after - before :: Reaches(DiskGraph(disk), f, x) && (x != f ==> Resolved(disk, x) <= after))
  }

  lemma EnteredFurther(disk: Disk, f: File, g: File, before: set<File>, mid: set<File>, after: set<File>)
    requires g in Resolved(disk, f) && EnteredSoFar(disk, f, before, mid) && EntersAll(disk, g, mid, after)
    ensures EnteredSoFar(disk, f, before, after)
    ensures (mid - before) + (after - mid) == after - before
  {
    ReachesStep(DiskGraph(disk), f, g);
    forall x | x in after - mid ensures Reaches(DiskGraph(disk), f, x) {
      ReachesTrans(DiskGraph(disk), f, g, x);
    }
  }

  lemma EntersReachSet(disk: Disk, u: File, entered: set<File>)
    requires EntersAll(disk, u, {}, entered)
    ensures entered == ReachSet(disk, {u}) && entered - {} == entered
  {
    forall x | x in ReachSet(disk, {u}) ensures x in entered {
      ClosedHoldsReach(DiskGraph(disk), entered, u, x);
    }
    assert entered - {} == entered;
  }

  /** f's entry when the includes in done were recorded. */
  ghost function PartEntry(o: FileObject, disk: Disk, f: File, pass: Pass, done: set<File>): FileObject {
    match pass
    case Physical => o.(includes := o.includes + done)
    case Logical => o
  }

  lemma PartStep(o: FileObject, disk: Disk, f: File, pass: Pass, all: set<File>, todo: set<File>, g: File)
    requires g in todo && todo <= all
    ensures PartEntry(PartEntry(o, disk, f, pass, all - todo), disk, f, pass, {g})
            == PartEntry(o, disk, f, pass, all - (todo - {g}))
  {
    assert all - todo + {g} == all - (todo - {g});
  }

  /** All newly entered files but f hold what the pass records about them; the others
      are as they were, or were just written. */
  ghost predicate Midway(start: Store, files: Store, disk: Disk, newly: set<File>, pass: Pass, f: File) {
    && f in newly && start.Keys + newly <= files.Keys
    && (forall x | x in files && x != f ::
          files[x] == if x in newly then Contribute(Entry(start, disk, x), disk, x, pass) else Entry(start, disk, x))
  }

  lemma EnterOne(start: Store, mid: Store, disk: Disk, newly: set<File>, more: set<File>, pass: Pass, f: File,
      after: Store)
    requires Midway(start, mid, disk, newly, pass, f) && newly !! more
    requires after == Visited(mid, disk, more, pass)
    ensures Midway(start, after, disk, newly + more, pass, f) && after[f] == mid[f]
  {
    assert forall x | x in more :: Entry(mid, disk, x) == Entry(start, disk, x);
  }

  lemma IncludeEntered(start: Store, mid: Store, disk: Disk, before: set<File>, entered: set<File>, entered': set<File>,
                       pass: Pass, f: File, g: File, after: Store)
    requires g in Resolved(disk, f) && g !in entered && f !in before
    requires EnteredSoFar(disk, f, before, entered) && EntersAll(disk, g, entered, entered')
    requires Midway(start, mid, disk, entered - before, pass, f)
    requires start.Keys + entered <= mid.Keys <= start.Keys + entered + {g}
    requires after == Visited(mid, disk, entered' - entered, pass)
    ensures EnteredSoFar(disk, f, before, entered') && entered + {g} <= entered'
    ensures Midway(start, after, disk, entered' - before, pass, f) && after.Keys == start.Keys + entered'
    ensures after[f] == mid[f]
  {
    EnteredFurther(disk, f, g, before, entered, entered');
    EnterOne(start, mid, disk, entered - before, entered' - entered, pass, f, after);
  }

  lemma MidwayEnd(start: Store, files: Store, disk: Disk, newly: set<File>, pass: Pass, f: File)
    requires Midway(start, files, disk, newly, pass, f) && files.Keys == start.Keys + newly
    requires files[f] == Contribute(Entry(start, disk, f), disk, f, pass)
    ensures files == Visited(start, disk, newly, pass)
  {
  }

  lemma NothingEntered(store: Store, disk: Disk, pass: Pass)
    ensures Visited(store, disk, ReachSet(disk, {}), pass) == store
  {
  }

  lemma IncluderReaches(start: Store, g: File, f: File)
    requires g in start && f in start[g].includes
    ensures Reaches(IncludeGraph(start), g, f)
  {
    ReachesStep(IncludeGraph(start), g, f);
  }
}
