/** Selecting entities for code generation: the check-box tree of
    lvtcgn/ct_lvtcgn_cogedentreemodel.cpp, the default selection of
    lvtcgn/ct_lvtcgn_app_adapter.cpp, and the traversal of
    lvtcgn/ct_lvtcgn_generatecode.cpp that obeys the selection. */
module CodegenTrees {

  /** Entities are numbered as `populateItemAndChildren` comes to them, so a parent
      has a smaller number than its children; -1 stands for no parent. */
  datatype Forest = Forest(parent: seq<int>, kids: seq<seq<nat>>, roots: seq<nat>, names: seq<string>) {
    function Size(): nat { |parent| }

    ghost predicate WellFormed() {
      && |kids| == |names| == |parent|
      && (forall j | 0 <= j < Size() :: -1 <= parent[j] < j)
      && (forall i, c {:trigger c in kids[i]} | 0 <= i < Size() && c in kids[i] :: c < Size() && parent[c] == i)
      && (forall c | 0 <= c < Size() && parent[c] >= 0 :: c in kids[parent[c]])
      && (forall r: nat :: r in roots <==> r < Size() && parent[r] == -1)
      && (forall i | 0 <= i < Size() :: NoRepeats(kids[i]))
      && NoRepeats(roots)
    }

    /** i is j or an ancestor of j. */
    predicate Below(i: int, j: int)
      requires forall k | 0 <= k < Size() :: -1 <= parent[k] < k
      requires j < Size()
      decreases j
    {
      j == i || (j >= 0 && Below(i, parent[j]))
    }
  }

  ghost predicate NoRepeats(s: seq<nat>) {
    forall a, b | 0 <= a < b < |s| :: s[a] != s[b]
  }

  lemma {:induction false} BelowIsLarger(t: Forest, i: nat, j: int)
    requires t.WellFormed() && j < t.Size() && t.Below(i, j)
    ensures i <= j
    decreases j
  {
    if j != i { BelowIsLarger(t, i, t.parent[j]); }
  }

  lemma {:induction false} BelowTrans(t: Forest, i: nat, j: nat, k: int)
    requires t.WellFormed() && j < t.Size() && k < t.Size() && t.Below(i, j) && t.Below(j, k)
    ensures t.Below(i, k)
    decreases k
  {
    if k != j {
      BelowIsLarger(t, j, k);
      BelowTrans(t, i, j, t.parent[k]);
    }
  }

  /** Two ancestors of the same entity: one is above the other. */
  lemma {:induction false} BelowLinear(t: Forest, a: nat, b: nat, j: int)
    requires t.WellFormed() && j < t.Size() && t.Below(a, j) && t.Below(b, j)
    ensures a < t.Size() && b < t.Size() && (t.Below(a, b) || t.Below(b, a))
    decreases j
  {
    BelowIsLarger(t, a, j);
    BelowIsLarger(t, b, j);
    if j != a && j != b { BelowLinear(t, a, b, t.parent[j]); }
  }

  /** Siblings have no descendant in common. */
  lemma SiblingsApart(t: Forest, a: nat, b: nat, j: int)
    requires t.WellFormed() && a < t.Size() && b < t.Size() && j < t.Size()
    requires a != b && t.parent[a] == t.parent[b]
    ensures !(t.Below(a, j) && t.Below(b, j))
  {
    if t.Below(a, j) && t.Below(b, j) {
      BelowLinear(t, a, b, j);
      var low, high := if t.Below(a, b) then a else b, if t.Below(a, b) then b else a;
      BelowIsLarger(t, low, t.parent[high]);
    }
  }

  // ------------------------------------------------------------------
  // Check states
  // ------------------------------------------------------------------

  datatype CheckState = Unchecked | PartiallyChecked | Checked
  type Checks = seq<CheckState>

  predicate Uniform(check: Checks, items: seq<nat>, v: CheckState) {
    forall c | c in items :: c < |check| && check[c] == v
  }

  lemma KidInRange(t: Forest, p: nat, c: nat)
    requires t.WellFormed() && p < t.Size() && c in t.kids[p]
    ensures c < t.Size()
  {
  }

  /** The common state of the children, or PartiallyChecked. */
  function Summary(t: Forest, check: Checks, p: nat): CheckState
    requires t.WellFormed() && |check| == t.Size() && p < t.Size() && t.kids[p] != []
  {
    var first := t.kids[p][0];
    KidInRange(t, p, first);
    if Uniform(check, t.kids[p], check[first]) then check[first] else PartiallyChecked
  }

  predicate ConsistentAt(t: Forest, check: Checks, p: nat)
    requires t.WellFormed() && |check| == t.Size() && p < t.Size()
  {
    t.kids[p] != [] ==> check[p] == Summary(t, check, p)
  }

  ghost predicate Consistent(t: Forest, check: Checks) {
    t.WellFormed() && |check| == t.Size() && forall p: nat | p < t.Size() :: ConsistentAt(t, check, p)
  }

  /** Entities without children are never half selected. */
  ghost predicate Decided(t: Forest, check: Checks) {
    |check| == t.Size() == |t.kids| && forall j | 0 <= j < t.Size() && t.kids[j] == [] :: check[j] != PartiallyChecked
  }

  /** `updateAllChildrenState`. */
  function Down(t: Forest, check: Checks, i: nat): (r: Checks)
    requires t.WellFormed() && |check| == t.Size() && i < t.Size()
    ensures |r| == |check|
  {
    if check[i] == PartiallyChecked then check
    else seq(|check|, j requires 0 <= j < |check| => if t.Below(i, j) then check[i] else check[j])
  }

  /** `updateParentState`. */
  function Up(t: Forest, check: Checks, i: nat): (r: Checks)
    requires t.WellFormed() && |check| == t.Size() && i < t.Size()
    ensures |r| == |check|
    decreases i
  {
    var p := t.parent[i];
    if p < 0 then check else Up(t, check[p := Summary(t, check, p)], p)
  }

  /** The cascade that a change of item i sets off. */
  function Cascade(t: Forest, check: Checks, i: nat): (r: Checks)
    requires t.WellFormed() && |check| == t.Size() && i < t.Size()
    ensures |r| == |check|
  {
    Up(t, Down(t, check, i), i)
  }

  /** Setting the state of an item; setting it to what it is changes nothing. */
  function SetState(t: Forest, check: Checks, i: nat, v: CheckState): (r: Checks)
    requires t.WellFormed() && |check| == t.Size() && i < t.Size()
    ensures |r| == |check|
  {
    if check[i] == v then check else Cascade(t, check[i := v], i)
  }

  // ------------------------------------------------------------------
  // Consistency
  // ------------------------------------------------------------------

  lemma KidBelow(t: Forest, p: nat, c: nat)
    requires t.WellFormed() && p < t.Size() && c in t.kids[p]
    ensures c < t.Size() && p < c && t.parent[c] == p && t.Below(p, c)
  {
    assert t.Below(p, t.parent[c]);
  }

  lemma SummarySame(t: Forest, a: Checks, b: Checks, p: nat)
    requires t.WellFormed() && |a| == |b| == t.Size() && p < t.Size() && t.kids[p] != []
    requires forall c | c in t.kids[p] :: c < t.Size() && a[c] == b[c]
    ensures Summary(t, a, p) == Summary(t, b, p)
  {
    assert t.kids[p][0] in t.kids[p];
  }

  /** Up repairs what only the proper ancestors of i lack, and touches only them. */
  lemma {:induction false} UpRepairs(t: Forest, check: Checks, i: nat)
    requires t.WellFormed() && |check| == t.Size() && i < t.Size()
    requires forall p: nat | p < t.Size() && !t.Below(p, t.parent[i]) :: ConsistentAt(t, check, p)
    ensures Consistent(t, Up(t, check, i))
    ensures forall j: nat | j < t.Size() && !t.Below(j, t.parent[i]) :: Up(t, check, i)[j] == check[j]
    decreases i
  {
    var p := t.parent[i];
    if p < 0 {
      assert forall q: nat :: !t.Below(q, p);
    } else {
      var check' := check[p := Summary(t, check, p)];
      forall q: nat | q < t.Size() && !t.Below(q, t.parent[p]) ensures ConsistentAt(t, check', q) {
        if t.kids[q] != [] {
          forall c | c in t.kids[q] ensures c < t.Size() && check'[c] == check[c] { KidBelow(t, q, c); }
          SummarySame(t, check', check, q);
          if q != p {
            assert !t.Below(q, p);
            assert ConsistentAt(t, check, q);
          }
        }
      }
      UpRepairs(t, check', p);
    }
  }

  /** After Down, only proper ancestors of i can be inconsistent. */
  lemma DownLeavesAncestors(t: Forest, check: Checks, i: nat, v: CheckState, q: nat)
    requires Consistent(t, check) && i < t.Size() && v != PartiallyChecked
    requires q < t.Size() && !t.Below(q, t.parent[i])
    ensures ConsistentAt(t, Down(t, check[i := v], i), q)
  {
    var down := Down(t, check[i := v], i);
    if t.kids[q] != [] {
      if t.Below(i, q) {
        forall c | c in t.kids[q] ensures c < t.Size() && down[c] == v {
          KidBelow(t, q, c);
        }
        assert t.kids[q][0] in t.kids[q];
      } else {
        forall c | c in t.kids[q] ensures c < t.Size() && down[c] == check[c] {
          KidBelow(t, q, c);
          assert c != i;
        }
        SummarySame(t, down, check, q);
        assert ConsistentAt(t, check, q);
      }
    }
  }

  /** Any click on a consistent tree leaves a consistent tree. The leaves below the
      item have the new state, all others the state they had. */
  lemma ClickKeepsConsistent(t: Forest, check: Checks, i: nat, v: CheckState)
    requires Consistent(t, check) && i < t.Size() && v != PartiallyChecked
    ensures Consistent(t, SetState(t, check, i, v))
    ensures forall j: nat | j < t.Size() && !t.Below(j, t.parent[i]) ::
              SetState(t, check, i, v)[j] == if t.Below(i, j) then v else check[j]
  {
    if check[i] == v {
      forall j: nat | j < t.Size() && t.Below(i, j) ensures check[j] == v { SameAsAncestor(t, check, i, j); }
    } else {
      forall q: nat | q < t.Size() && !t.Below(q, t.parent[i]) ensures ConsistentAt(t, Down(t, check[i := v], i), q) {
        DownLeavesAncestors(t, check, i, v, q);
      }
      UpRepairs(t, Down(t, check[i := v], i), i);
    }
  }

  /** In a consistent tree a fully checked or unchecked item stands for all below it. */
  lemma {:induction false} SameAsAncestor(t: Forest, check: Checks, i: nat, j: nat)
    requires Consistent(t, check) && i < t.Size() && j < t.Size() && t.Below(i, j) && check[i] != PartiallyChecked
    ensures check[j] == check[i]
    decreases j
  {
    if j != i {
      var p := t.parent[j];
      BelowIsLarger(t, i, p);
      SameAsAncestor(t, check, i, p);
      assert ConsistentAt(t, check, p) && j in t.kids[p];
    }
  }

  /** Clicks one after the other, each on some item, checking or unchecking it. */
  datatype Click = Click(item: nat, checked: bool)

  function StateOf(checked: bool): CheckState {
    if checked then Checked else Unchecked
  }

  ghost function AfterClicks(t: Forest, check: Checks, clicks: seq<Click>): Checks
    requires t.WellFormed() && |check| == t.Size() && forall c | c in clicks :: c.item < t.Size()
    decreases clicks
  {
    if clicks == [] then check
    else AfterClicks(t, SetState(t, check, clicks[0].item, StateOf(clicks[0].checked)), clicks[1..])
  }

  lemma {:induction false} LeafBelowOnlyItself(t: Forest, j: nat, k: int)
    requires t.WellFormed() && j < t.Size() && k < t.Size() && t.kids[j] == [] && t.Below(j, k)
    ensures k == j
    decreases k
  {
    if k != j {
      assert k in t.kids[t.parent[k]];
      LeafBelowOnlyItself(t, j, t.parent[k]);
    }
  }

  lemma ClickKeepsDecided(t: Forest, check: Checks, i: nat, v: CheckState)
    requires Consistent(t, check) && Decided(t, check) && i < t.Size() && v != PartiallyChecked
    ensures Decided(t, SetState(t, check, i, v))
  {
    ClickKeepsConsistent(t, check, i, v);
    forall j | 0 <= j < t.Size() && t.kids[j] == [] ensures SetState(t, check, i, v)[j] != PartiallyChecked {
      if t.Below(j, t.parent[i]) {
        assert i in t.kids[t.parent[i]];
        LeafBelowOnlyItself(t, j, t.parent[i]);
      }
    }
  }

  /** Every sequence of clicks keeps a consistent tree consistent. */
  lemma {:induction false} ClicksKeepConsistent(t: Forest, check: Checks, clicks: seq<Click>)
    requires Consistent(t, check) && Decided(t, check) && forall c | c in clicks :: c.item < t.Size()
    ensures Consistent(t, AfterClicks(t, check, clicks)) && Decided(t, AfterClicks(t, check, clicks))
    decreases clicks
  {
    if clicks != [] {
      var i, v := clicks[0].item, StateOf(clicks[0].checked);
      ClickKeepsConsistent(t, check, i, v);
      ClickKeepsDecided(t, check, i, v);
      ClicksKeepConsistent(t, SetState(t, check, i, v), clicks[1..]);
    }
  }

  /** A consistent tree is determined by its leaves. So a click has the only
      consistent outcome that has the clicked state below the item and leaves the
      other leaves alone. */
  lemma {:induction false} LeavesDetermine(t: Forest, a: Checks, b: Checks, j: nat)
    requires Consistent(t, a) && Consistent(t, b) && j < t.Size()
    requires forall k | 0 <= k < t.Size() && t.kids[k] == [] :: a[k] == b[k]
    ensures a[j] == b[j]
    decreases t.Size() - j
  {
    if t.kids[j] != [] {
      forall c | c in t.kids[j] ensures c < t.Size() && a[c] == b[c] {
        KidBelow(t, j, c);
        LeavesDetermine(t, a, b, c);
      }
      SummarySame(t, a, b, j);
      assert ConsistentAt(t, a, j) && ConsistentAt(t, b, j);
    }
  }

  /** All leaves at or below the item have that state. */
  ghost predicate AllLeaves(t: Forest, check: Checks, j: nat, v: CheckState)
    requires t.WellFormed() && |check| == t.Size()
  {
    forall k: nat | k < t.Size() && t.kids[k] == [] && t.Below(j, k) :: check[k] == v
  }

  /** What a check box shows on a consistent tree: it is checked if all leaves at or below
      it are, unchecked if none of them is, and half checked otherwise. */
  lemma {:induction false} StatesByLeaves(t: Forest, check: Checks, j: nat, v: CheckState)
    requires Consistent(t, check) && Decided(t, check) && j < t.Size() && v != PartiallyChecked
    ensures check[j] == v <==> AllLeaves(t, check, j, v)
    decreases t.Size() - j
  {
    if t.kids[j] == [] {
      forall k: nat | k < t.Size() && t.Below(j, k) ensures k == j { LeafBelowOnlyItself(t, j, k); }
    } else {
      if check[j] == v {
        forall k: nat | k < t.Size() && t.Below(j, k) ensures check[k] == v { SameAsAncestor(t, check, j, k); }
      }
      if AllLeaves(t, check, j, v) {
        KidsHaveLeaves(t, check, j, v);
        forall c | c in t.kids[j] ensures c < t.Size() && check[c] == v {
          KidBelow(t, j, c);
          StatesByLeaves(t, check, c, v);
        }
        assert ConsistentAt(t, check, j) && t.kids[j][0] in t.kids[j];
      }
    }
  }

  lemma KidsHaveLeaves(t: Forest, check: Checks, j: nat, v: CheckState)
    requires t.WellFormed() && |check| == t.Size() && j < t.Size() && AllLeaves(t, check, j, v)
    ensures forall c | c in t.kids[j] :: AllLeaves(t, check, c, v)
  {
    forall c, k: nat | c in t.kids[j] && k < t.Size() && t.Below(c, k) ensures t.Below(j, k) {
      KidBelow(t, j, c);
      BelowTrans(t, j, c, k);
    }
  }

  // ------------------------------------------------------------------
  // Cascades without a change
  // ------------------------------------------------------------------

  lemma {:induction false} UpIdle(t: Forest, check: Checks, i: nat)
    requires Consistent(t, check) && i < t.Size()
    ensures Up(t, check, i) == check
    decreases i
  {
    var p := t.parent[i];
    if p >= 0 {
      assert i in t.kids[p] && ConsistentAt(t, check, p);
      assert check[p := Summary(t, check, p)] == check;
      UpIdle(t, check, p);
    }
  }

  lemma {:induction false} UpKeepsBelow(t: Forest, check: Checks, i: nat, j: nat)
    requires t.WellFormed() && |check| == t.Size() && i < t.Size() && j < t.Size() && j >= i
    ensures Up(t, check, i)[j] == check[j]
    decreases i
  {
    var p := t.parent[i];
    if p >= 0 { UpKeepsBelow(t, check[p := Summary(t, check, p)], p, j); }
  }

  /** Other changes of an item, such as highlighting it, set off the cascade too. On a
      consistent tree it changes nothing; and on a tree where it never changes
      anything, the tree is consistent. */
  lemma CascadesIdleExactlyWhen(t: Forest, check: Checks)
    requires t.WellFormed() && |check| == t.Size()
    ensures Consistent(t, check) <==> forall i: nat | i < t.Size() :: Cascade(t, check, i) == check
  {
    if Consistent(t, check) {
      forall i: nat | i < t.Size() ensures Cascade(t, check, i) == check {
        forall j: nat | j < t.Size() && t.Below(i, j) && check[i] != PartiallyChecked ensures check[j] == check[i] {
          SameAsAncestor(t, check, i, j);
        }
        assert Down(t, check, i) == check;
        UpIdle(t, check, i);
      }
    }
    if forall i: nat | i < t.Size() :: Cascade(t, check, i) == check {
      forall p: nat | p < t.Size() ensures ConsistentAt(t, check, p) {
        if t.kids[p] != [] {
          KidInRange(t, p, t.kids[p][0]);
          IdleIsConsistentAt(t, check, p, t.kids[p][0]);
        }
      }
    }
  }

  lemma IdleIsConsistentAt(t: Forest, check: Checks, p: nat, i: nat)
    requires t.WellFormed() && |check| == t.Size() && p < t.Size() && i in t.kids[p] && i < t.Size()
    requires Cascade(t, check, i) == check
    ensures ConsistentAt(t, check, p)
  {
    var down := Down(t, check, i);
    KidBelow(t, p, i);
    forall c | c in t.kids[p] ensures c < t.Size() && down[c] == check[c] {
      KidBelow(t, p, c);
      if c != i && t.Below(i, c) { BelowIsLarger(t, i, p); }
    }
    SummarySame(t, down, check, p);
    UpKeepsBelow(t, down[p := Summary(t, down, p)], p, p);
  }

  // ------------------------------------------------------------------
  // The model behind the tree view
  // ------------------------------------------------------------------

  class EntitiesTreeModel {
    const tree: Forest
    var check: Checks
    var selected: seq<bool> // isSelectedForCodegen of each entity
    var cascadeUpdate: bool // itemChangedCascadeUpdate

    ghost predicate Valid()
      reads this
    {
      tree.WellFormed() && |check| == |selected| == tree.Size()
    }

    /** Every entity is selected unless its item is unchecked. */
    ghost predicate Synced()
      reads this
      requires Valid()
    {
      forall j | 0 <= j < tree.Size() :: selected[j] == (check[j] != Unchecked)
    }

    constructor (tree: Forest, selected: seq<bool>)
      requires tree.WellFormed() && |selected| == tree.Size()
      ensures Valid() && Synced() && cascadeUpdate && this.tree == tree && this.selected == selected
      ensures check == InitialChecks(selected)
      ensures forall j | 0 <= j < |selected| :: check[j] == if selected[j] then Checked else Unchecked
    {
      this.tree, this.selected, cascadeUpdate := tree, selected, true;
      check := InitialChecks(selected);
    }

    /** `setCheckState`: the model hears of it only if the state is another. */
    method SetCheckState(i: nat, v: CheckState)
      requires Valid() && Synced() && i < tree.Size()
      modifies this
      ensures Valid() && Synced() && cascadeUpdate == old(cascadeUpdate)
      ensures check == if cascadeUpdate then SetState(tree, old(check), i, v) else old(check)[i := v]
      decreases cascadeUpdate, 1
    {
      if check[i] != v {
        check := check[i := v];
        ItemChanged(i);
      }
    }

    /** The handler of itemChanged. During a cascade it only updates the entity. */
    method ItemChanged(i: nat)
      requires Valid() && i < tree.Size()
      requires forall j | 0 <= j < tree.Size() && j != i :: selected[j] == (check[j] != Unchecked)
      modifies this
      ensures Valid() && Synced() && cascadeUpdate == old(cascadeUpdate)
      ensures check == if cascadeUpdate then Cascade(tree, old(check), i) else old(check)
      decreases cascadeUpdate, 0
    {
      selected := selected[i := check[i] == Checked || check[i] == PartiallyChecked];
      if cascadeUpdate {
        cascadeUpdate := false;
        UpdateAllChildrenState(i);
        UpdateParentState(i);
        cascadeUpdate := true;
      }
    }

    method UpdateAllChildrenState(i: nat)
      requires Valid() && Synced() && i < tree.Size() && !cascadeUpdate
      modifies this
      ensures Valid() && Synced() && !cascadeUpdate && check == Down(tree, old(check), i)
      decreases cascadeUpdate, 2, tree.Size() - i
    {
      if check[i] == PartiallyChecked {
        return;
      }
      ghost var start := check;
      for k := 0 to |tree.kids[i]|
        invariant Valid() && Synced() && !cascadeUpdate && check[i] == start[i]
        invariant check == DownKids(tree, start, i, k)
      {
        var c := tree.kids[i][k];
        KidBelow(tree, i, c);
        SetCheckState(c, check[i]);
        UpdateAllChildrenState(c);
        DownNextKid(tree, start, i, k);
      }
      DownAllKids(tree, start, i);
    }

    method UpdateParentState(i: nat)
      requires Valid() && Synced() && i < tree.Size() && !cascadeUpdate
      modifies this
      ensures Valid() && Synced() && !cascadeUpdate && check == Up(tree, old(check), i)
      decreases cascadeUpdate, 2, i
    {
      if tree.parent[i] < 0 {
        return;
      }
      var parentItem := tree.parent[i];
      assert i in tree.kids[parentItem];
      var summary := ChildrenState(parentItem);
      SetCheckState(parentItem, summary);
      UpdateParentState(parentItem);
    }

    method ChildrenState(p: nat) returns (state: CheckState)
      requires Valid() && p < tree.Size() && tree.kids[p] != []
      ensures state == Summary(tree, check, p)
    {
      var kids := tree.kids[p];
      KidInRange(tree, p, kids[0]);
      var reference := check[kids[0]];
      for k := 0 to |kids|
        invariant Uniform(check, kids[..k], reference)
      {
        KidInRange(tree, p, kids[k]);
        if check[kids[k]] != reference {
          assert !Uniform(check, kids, reference);
          return PartiallyChecked;
        }
      }
      assert kids[..|kids|] == kids;
      state := reference;
    }
  }

  function InitialChecks(selected: seq<bool>): Checks {
    seq(|selected|, j requires 0 <= j < |selected| => StateOf(selected[j]))
  }

  /** The states when the first k children of i have been brought in line. */
  function DownKids(t: Forest, check: Checks, i: nat, k: nat): Checks
    requires t.WellFormed() && |check| == t.Size() && i < t.Size() && k <= |t.kids[i]|
  {
    seq(|check|, j requires 0 <= j < |check| =>
      if BelowSome(t, t.kids[i][..k], j) then check[i] else check[j])
  }

  predicate BelowSome(t: Forest, items: seq<nat>, j: nat)
    requires t.WellFormed() && j < t.Size()
  {
    exists c :: c in items && t.Below(c, j)
  }

  lemma DownNextKid(t: Forest, check: Checks, i: nat, k: nat)
    requires t.WellFormed() && |check| == t.Size() && i < t.Size() && k < |t.kids[i]| && check[i] != PartiallyChecked
    requires t.kids[i][k] < t.Size()
    ensures DownKids(t, check, i, k + 1)
            == Down(t, DownKids(t, check, i, k)[t.kids[i][k] := check[i]], t.kids[i][k])
  {
    var c, before := t.kids[i][k], DownKids(t, check, i, k);
    assert t.kids[i][..k + 1] == t.kids[i][..k] + [c];
    var after, down := DownKids(t, check, i, k + 1), Down(t, before[c := check[i]], c);
    forall j | 0 <= j < t.Size() ensures after[j] == down[j] {
      assert BelowSome(t, t.kids[i][..k + 1], j) <==> BelowSome(t, t.kids[i][..k], j) || t.Below(c, j);
    }
  }

  lemma DownAllKids(t: Forest, check: Checks, i: nat)
    requires t.WellFormed() && |check| == t.Size() && i < t.Size() && check[i] != PartiallyChecked
    ensures DownKids(t, check, i, |t.kids[i]|) == Down(t, check, i)
  {
    assert t.kids[i][..|t.kids[i]|] == t.kids[i];
    forall j | 0 <= j < t.Size() && j != i
      ensures t.Below(i, j) <==> BelowSome(t, t.kids[i], j)
    {
      if t.Below(i, j) {
        var c := KidOnPath(t, i, j);
      } else if BelowSome(t, t.kids[i], j) {
        var c :| c in t.kids[i] && t.Below(c, j);
        KidBelow(t, i, c);
        BelowTrans(t, i, c, j);
      }
    }
  }

  lemma {:induction false} KidOnPath(t: Forest, i: nat, j: nat) returns (c: nat)
    requires t.WellFormed() && i < t.Size() && j < t.Size() && j != i && t.Below(i, j)
    ensures c in t.kids[i] && t.Below(c, j)
    decreases j
  {
    if t.parent[j] == i {
      c := j;
    } else {
      c := KidOnPath(t, i, t.parent[j]);
    }
  }

  // ------------------------------------------------------------------
  // Code generation
  // ------------------------------------------------------------------

  predicate Within(t: Forest, entities: seq<nat>, low: nat) {
    forall k | 0 <= k < |entities| :: low <= entities[k] < t.Size()
  }

  lemma KidsWithin(t: Forest, e: nat)
    requires t.WellFormed() && e < t.Size()
    ensures Within(t, t.kids[e], e + 1)
  {
    forall k | 0 <= k < |t.kids[e]| ensures e + 1 <= t.kids[e][k] < t.Size() { KidBelow(t, e, t.kids[e][k]); }
  }

  /** The entities that are processed, in order: each selected one, then its children. */
  function Build(t: Forest, selected: seq<bool>, entities: seq<nat>, low: nat): seq<nat>
    requires t.WellFormed() && |selected| == t.Size() && Within(t, entities, low)
    decreases t.Size() - low, |entities|
  {
    if entities == [] then []
    else
      var e := entities[0];
      KidsWithin(t, e);
      (if selected[e] then [e] + Build(t, selected, t.kids[e], e + 1) else [])
      + Build(t, selected, entities[1..], low)
  }

  class CodeGeneration {
    const tree: Forest
    const selected: seq<bool>
    var processed: seq<nat> // the entities handed to the script

    constructor (tree: Forest, selected: seq<bool>)
      ensures this.tree == tree && this.selected == selected && processed == []
    {
      this.tree, this.selected, processed := tree, selected, [];
    }

    method RecursiveBuild(entities: seq<nat>, ghost low: nat)
      requires tree.WellFormed() && |selected| == tree.Size() && Within(tree, entities, low)
      modifies this
      ensures processed == old(processed) + Build(tree, selected, entities, low)
      decreases tree.Size() - low
    {
      ghost var all := old(processed) + Build(tree, selected, entities, low);
      for k := 0 to |entities|
        invariant processed + Build(tree, selected, entities[k..], low) == all
      {
        assert entities[k..][0] == entities[k] && entities[k..][1..] == entities[k + 1..];
        var e := entities[k];
        if !selected[e] {
          continue;
        }
        processed := processed + [e];
        KidsWithin(tree, e);
        RecursiveBuild(tree.kids[e], e + 1);
      }
    }
  }

  /** j and everything above it is selected, as far up as e. */
  predicate SelectedUpTo(t: Forest, selected: seq<bool>, e: nat, j: int)
    requires t.WellFormed() && |selected| == t.Size() && j < t.Size()
    decreases j
  {
    j >= 0 && selected[j] && (j == e || SelectedUpTo(t, selected, e, t.parent[j]))
  }

  /** No entity of the list is at or below another. */
  ghost predicate Apart(t: Forest, entities: seq<nat>)
    requires t.WellFormed()
  {
    && Within(t, entities, 0)
    && forall a, b, j | 0 <= a < b < |entities| && 0 <= j < t.Size() ::
        !(t.Below(entities[a], j) && t.Below(entities[b], j))
  }

  lemma SiblingListApart(t: Forest, entities: seq<nat>, p: int)
    requires t.WellFormed() && NoRepeats(entities)
    requires forall e | e in entities :: e < t.Size() && t.parent[e] == p
    ensures Apart(t, entities)
  {
    forall k | 0 <= k < |entities| ensures entities[k] < t.Size() { assert entities[k] in entities; }
    forall a, b, j | 0 <= a < b < |entities| && 0 <= j < t.Size()
      ensures !(t.Below(entities[a], j) && t.Below(entities[b], j))
    {
      assert entities[a] in entities && entities[b] in entities;
      SiblingsApart(t, entities[a], entities[b], j);
    }
  }

  lemma {:induction false} SelectedUpToBelow(t: Forest, selected: seq<bool>, e: nat, j: int)
    requires t.WellFormed() && |selected| == t.Size() && j < t.Size() && SelectedUpTo(t, selected, e, j)
    ensures t.Below(e, j)
    decreases j
  {
    if j != e { SelectedUpToBelow(t, selected, e, t.parent[j]); }
  }

  /** Going down through a selected child. */
  lemma {:induction false} SelectedThroughKid(t: Forest, selected: seq<bool>, e: nat, j: int)
    requires t.WellFormed() && |selected| == t.Size() && e < t.Size() && j < t.Size()
    ensures SelectedUpTo(t, selected, e, j) <==>
            selected[e] && (j == e || exists c :: c in t.kids[e] && SelectedUpTo(t, selected, c, j))
    decreases j
  {
    if j >= 0 && j != e {
      SelectedThroughKid(t, selected, e, t.parent[j]);
      if t.parent[j] == e {
        assert j in t.kids[e];
        forall c | c in t.kids[e] && SelectedUpTo(t, selected, c, j) ensures selected[j] {}
      }
    }
  }

  /** j is processed when the given entities are: it is selected, and so is all above
      it up to one of them. */
  ghost predicate Processed(t: Forest, selected: seq<bool>, entities: seq<nat>, j: int)
    requires t.WellFormed() && |selected| == t.Size() && j < t.Size()
  {
    exists e :: e in entities && SelectedUpTo(t, selected, e, j)
  }

  lemma {:induction false} BuildMembers(t: Forest, selected: seq<bool>, entities: seq<nat>, low: nat, j: nat)
    requires t.WellFormed() && |selected| == t.Size() && Within(t, entities, low) && j < t.Size()
    ensures j in Build(t, selected, entities, low) <==> Processed(t, selected, entities, j)
    decreases t.Size() - low, |entities|
  {
    if entities != [] {
      var e := entities[0];
      KidsWithin(t, e);
      BuildMembers(t, selected, t.kids[e], e + 1, j);
      BuildMembers(t, selected, entities[1..], low, j);
      SelectedThroughKid(t, selected, e, j);
      ProcessedSplit(t, selected, entities, j);
    }
  }

  lemma ProcessedSplit(t: Forest, selected: seq<bool>, entities: seq<nat>, j: int)
    requires t.WellFormed() && |selected| == t.Size() && j < t.Size() && entities != []
    ensures Processed(t, selected, entities, j) <==>
            SelectedUpTo(t, selected, entities[0], j) || Processed(t, selected, entities[1..], j)
  {
    assert entities == [entities[0]] + entities[1..];
  }

  /** Every entity comes once, and after its parent. */
  ghost predicate InOrder(t: Forest, out: seq<nat>, entities: seq<nat>) {
    && NoRepeats(out)
    && forall k | 0 <= k < |out| :: AfterParent(t, out, entities, k)
  }

  ghost predicate AfterParent(t: Forest, out: seq<nat>, entities: seq<nat>, k: nat)
    requires k < |out|
  {
    out[k] < t.Size() && (out[k] in entities || t.parent[out[k]] in out[..k])
  }

  lemma NoRepeatsConcat(a: seq<nat>, b: seq<nat>)
    requires NoRepeats(a) && NoRepeats(b) && forall x | x in a :: x !in b
    ensures NoRepeats(a + b)
  {
    forall i, j | 0 <= i < j < |a + b| ensures (a + b)[i] != (a + b)[j] {
      if i < |a| <= j { assert a[i] in a && b[j - |a|] in b; }
    }
  }

  lemma InOrderFirst(t: Forest, e: nat, inner: seq<nat>)
    requires t.WellFormed() && e < t.Size() && InOrder(t, inner, t.kids[e])
    requires forall x | x in inner :: x < t.Size() && t.Below(e, x) && x != e
    ensures InOrder(t, [e] + inner, [e])
  {
    NoRepeatsConcat([e], inner);
    var out := [e] + inner;
    forall k | 0 <= k < |out| ensures AfterParent(t, out, [e], k) {
      if k > 0 { AfterParentInner(t, e, inner, k - 1); }
    }
  }

  lemma AfterParentInner(t: Forest, e: nat, inner: seq<nat>, k: nat)
    requires t.WellFormed() && e < t.Size() && k < |inner| && AfterParent(t, inner, t.kids[e], k)
    ensures AfterParent(t, [e] + inner, [e], k + 1)
  {
    var out := [e] + inner;
    assert out[k + 1] == inner[k] && out[..k + 1] == [e] + inner[..k];
    if inner[k] in t.kids[e] { KidBelow(t, e, inner[k]); }
  }

  lemma InOrderConcat(t: Forest, a: seq<nat>, b: seq<nat>, entities: seq<nat>)
    requires entities != [] && InOrder(t, a, [entities[0]]) && InOrder(t, b, entities[1..])
    requires forall x | x in a :: x !in b
    ensures InOrder(t, a + b, entities)
  {
    NoRepeatsConcat(a, b);
    var out := a + b;
    forall k | 0 <= k < |out| ensures AfterParent(t, out, entities, k) {
      if k < |a| {
        assert AfterParent(t, a, [entities[0]], k);
        assert out[k] == a[k] && out[..k] == a[..k];
      } else {
        assert AfterParent(t, b, entities[1..], k - |a|);
        assert out[k] == b[k - |a|] && out[..k] == a + b[..k - |a|];
      }
    }
  }

  lemma {:induction false} BuildInOrder(t: Forest, selected: seq<bool>, entities: seq<nat>, low: nat)
    requires t.WellFormed() && |selected| == t.Size() && Within(t, entities, low) && Apart(t, entities)
    ensures InOrder(t, Build(t, selected, entities, low), entities)
    decreases t.Size() - low, |entities|
  {
    if entities != [] {
      var e := entities[0];
      KidsWithin(t, e);
      KidsApart(t, e);
      BuildInOrder(t, selected, t.kids[e], e + 1);
      ApartTail(t, entities);
      BuildInOrder(t, selected, entities[1..], low);
      var inner, rest := Build(t, selected, t.kids[e], e + 1), Build(t, selected, entities[1..], low);
      forall x: nat | x in inner ensures x < t.Size() && t.Below(e, x) && x != e {
        KidBuildBelow(t, selected, e, x);
      }
      InOrderFirst(t, e, inner);
      var first := if selected[e] then [e] + inner else [];
      assert InOrder(t, first, [e]);
      forall x | x in first ensures x !in rest {
        assert x == e || x in inner;
        RestMisses(t, selected, entities, low, x);
      }
      InOrderConcat(t, first, rest, entities);
    }
  }

  lemma KidBuildBelow(t: Forest, selected: seq<bool>, e: nat, x: nat)
    requires t.WellFormed() && |selected| == t.Size() && e < t.Size() && Within(t, t.kids[e], e + 1)
    requires x in Build(t, selected, t.kids[e], e + 1)
    ensures x < t.Size() && t.Below(e, x) && x != e
  {
    BuildBelow(t, selected, t.kids[e], e + 1, x);
    var c :| c in t.kids[e] && t.Below(c, x);
    KidBelow(t, e, c);
    BelowTrans(t, e, c, x);
    BelowIsLarger(t, c, x);
  }

  lemma RestMisses(t: Forest, selected: seq<bool>, entities: seq<nat>, low: nat, x: nat)
    requires t.WellFormed() && |selected| == t.Size() && Within(t, entities, low) && Apart(t, entities)
    requires entities != [] && x < t.Size() && t.Below(entities[0], x)
    ensures x !in Build(t, selected, entities[1..], low)
  {
    forall d | d in entities[1..] ensures d < t.Size() && !t.Below(d, x) {
      ApartFirst(t, entities, d, x);
    }
    if x in Build(t, selected, entities[1..], low) {
      BuildBelow(t, selected, entities[1..], low, x);
    }
  }

  lemma BuildBelow(t: Forest, selected: seq<bool>, entities: seq<nat>, low: nat, x: nat)
    requires t.WellFormed() && |selected| == t.Size() && Within(t, entities, low)
    requires x in Build(t, selected, entities, low)
    ensures x < t.Size() && exists e :: e in entities && t.Below(e, x)
  {
    BuildInRange(t, selected, entities, low, x);
    BuildMembers(t, selected, entities, low, x);
    var e :| e in entities && SelectedUpTo(t, selected, e, x);
    SelectedUpToBelow(t, selected, e, x);
  }

  lemma {:induction false} BuildInRange(t: Forest, selected: seq<bool>, entities: seq<nat>, low: nat, x: nat)
    requires t.WellFormed() && |selected| == t.Size() && Within(t, entities, low)
    requires x in Build(t, selected, entities, low)
    ensures x < t.Size()
    decreases t.Size() - low, |entities|
  {
    if x != entities[0] {
      KidsWithin(t, entities[0]);
      if x in Build(t, selected, entities[1..], low) {
        BuildInRange(t, selected, entities[1..], low, x);
      } else {
        BuildInRange(t, selected, t.kids[entities[0]], entities[0] + 1, x);
      }
    }
  }

  lemma KidsApart(t: Forest, e: nat)
    requires t.WellFormed() && e < t.Size()
    ensures Apart(t, t.kids[e])
  {
    forall c | c in t.kids[e] ensures c < t.Size() && t.parent[c] == e { KidBelow(t, e, c); }
    SiblingListApart(t, t.kids[e], e);
  }

  lemma ApartTail(t: Forest, entities: seq<nat>)
    requires t.WellFormed() && entities != [] && Apart(t, entities)
    ensures Apart(t, entities[1..])
  {
    var tail := entities[1..];
    forall a, b, j | 0 <= a < b < |tail| && 0 <= j < t.Size() ensures !(t.Below(tail[a], j) && t.Below(tail[b], j)) {
      assert tail[a] == entities[a + 1] && tail[b] == entities[b + 1];
    }
  }

  lemma ApartFirst(t: Forest, entities: seq<nat>, d: nat, x: nat)
    requires t.WellFormed() && entities != [] && Apart(t, entities) && d in entities[1..] && x < t.Size()
    ensures d < t.Size() && !(t.Below(entities[0], x) && t.Below(d, x))
  {
    var b :| 0 <= b < |entities[1..]| && entities[1..][b] == d;
    assert entities[b + 1] == d;
  }

  // ------------------------------------------------------------------
  // Selection and traversal together
  // ------------------------------------------------------------------

  /** The flags and the check states agree, as EntitiesTreeModel keeps them. */
  ghost predicate Agree(t: Forest, selected: seq<bool>, check: Checks) {
    |selected| == |check| == t.Size() && forall j | 0 <= j < t.Size() :: selected[j] == (check[j] != Unchecked)
  }

  /** Some leaf at or below j is checked. */
  ghost predicate LeafChecked(t: Forest, check: Checks, j: nat)
    requires t.WellFormed() && |check| == t.Size()
  {
    exists k: nat :: k < t.Size() && t.kids[k] == [] && check[k] == Checked && t.Below(j, k)
  }

  lemma ParentNotUnchecked(t: Forest, check: Checks, j: nat)
    requires Consistent(t, check) && j < t.Size() && t.parent[j] >= 0 && check[j] != Unchecked
    ensures check[t.parent[j]] != Unchecked
  {
    assert j in t.kids[t.parent[j]] && ConsistentAt(t, check, t.parent[j]);
  }

  lemma {:induction false} AboveNotUnchecked(t: Forest, check: Checks, i: nat, j: nat)
    requires Consistent(t, check) && i < t.Size() && j < t.Size() && t.Below(i, j) && check[j] != Unchecked
    ensures check[i] != Unchecked
    decreases j
  {
    if i != j {
      BelowIsLarger(t, i, t.parent[j]);
      ParentNotUnchecked(t, check, j);
      AboveNotUnchecked(t, check, i, t.parent[j]);
    }
  }

  lemma {:induction false} NotUncheckedHasLeaf(t: Forest, check: Checks, j: nat)
    requires Consistent(t, check) && Decided(t, check) && j < t.Size() && check[j] != Unchecked
    ensures LeafChecked(t, check, j)
    decreases t.Size() - j
  {
    if t.kids[j] != [] {
      assert ConsistentAt(t, check, j);
      assert t.kids[j][0] in t.kids[j];
      assert !Uniform(check, t.kids[j], Unchecked);
      var c :| c in t.kids[j] && !(c < |check| && check[c] == Unchecked);
      KidBelow(t, j, c);
      NotUncheckedHasLeaf(t, check, c);
      var k: nat :| k < t.Size() && t.kids[k] == [] && check[k] == Checked && t.Below(c, k);
      BelowTrans(t, j, c, k);
    }
  }

  lemma {:induction false} SelectedFromRoot(t: Forest, selected: seq<bool>, check: Checks, j: nat)
    requires Consistent(t, check) && Agree(t, selected, check) && j < t.Size() && selected[j]
    ensures Processed(t, selected, t.roots, j)
    decreases j
  {
    if t.parent[j] < 0 {
      assert j in t.roots && SelectedUpTo(t, selected, j, j);
    } else {
      ParentNotUnchecked(t, check, j);
      SelectedFromRoot(t, selected, check, t.parent[j]);
      var e :| e in t.roots && SelectedUpTo(t, selected, e, t.parent[j]);
      assert SelectedUpTo(t, selected, e, j);
    }
  }

  lemma RootsApart(t: Forest)
    requires t.WellFormed()
    ensures Within(t, t.roots, 0) && Apart(t, t.roots)
  {
    SiblingListApart(t, t.roots, -1);
  }

  /** On a consistent tree code is generated for exactly the entities that have a
      checked leaf at or below them, once each, and parents come before children. */
  lemma GeneratesWhatIsChecked(t: Forest, selected: seq<bool>, check: Checks, j: nat)
    requires Consistent(t, check) && Decided(t, check) && Agree(t, selected, check) && j < t.Size()
    ensures Within(t, t.roots, 0) && InOrder(t, Build(t, selected, t.roots, 0), t.roots)
    ensures j in Build(t, selected, t.roots, 0) <==> LeafChecked(t, check, j)
  {
    RootsApart(t);
    BuildInOrder(t, selected, t.roots, 0);
    BuildMembers(t, selected, t.roots, 0, j);
    if selected[j] {
      SelectedFromRoot(t, selected, check, j);
      NotUncheckedHasLeaf(t, check, j);
    }
    if LeafChecked(t, check, j) {
      var k: nat :| k < t.Size() && t.kids[k] == [] && check[k] == Checked && t.Below(j, k);
      AboveNotUnchecked(t, check, j, k);
    }
  }

  // ------------------------------------------------------------------
  // The default selection
  // ------------------------------------------------------------------

  const NON_LAKOSIAN_GROUP := "non-lakosian group"

  ghost predicate External(t: Forest, j: int)
    requires t.WellFormed() && j < t.Size()
  {
    exists i: nat :: i < t.Size() && t.names[i] == NON_LAKOSIAN_GROUP && t.Below(i, j)
  }

  lemma ExternalStep(t: Forest, j: nat)
    requires t.WellFormed() && j < t.Size()
    ensures External(t, j) <==> t.names[j] == NON_LAKOSIAN_GROUP || External(t, t.parent[j])
  {
    assert t.Below(j, j);
    if External(t, t.parent[j]) {
      var i: nat :| i < t.Size() && t.names[i] == NON_LAKOSIAN_GROUP && t.Below(i, t.parent[j]);
      assert t.Below(i, j);
    }
  }

  /** `shouldDefaultSelectForCodegen`: not in a group of external dependencies. */
  method ShouldDefaultSelect(t: Forest, node: nat) returns (select: bool)
    requires t.WellFormed() && node < t.Size()
    ensures select <==> !External(t, node)
  {
    ExternalStep(t, node);
    if t.names[node] == NON_LAKOSIAN_GROUP {
      return false;
    }
    var parentNode: int := node;
    while t.parent[parentNode] >= 0
      invariant 0 <= parentNode < t.Size()
      invariant External(t, node) <==> External(t, t.parent[parentNode])
      decreases parentNode
    {
      parentNode := t.parent[parentNode];
      ExternalStep(t, parentNode);
      if t.names[parentNode] == NON_LAKOSIAN_GROUP {
        return false;
      }
    }
    select := true;
  }

  ghost function DefaultSelection(t: Forest): seq<bool>
    requires t.WellFormed()
  {
    seq(t.Size(), j requires 0 <= j < t.Size() => !External(t, j))
  }

  /** The tree starts out consistent exactly when each group of external dependencies
      stands at top level or inside another such group. */
  lemma DefaultConsistentExactlyWhen(t: Forest)
    requires t.WellFormed()
    ensures Consistent(t, InitialChecks(DefaultSelection(t))) <==>
            forall j | 0 <= j < t.Size() && t.names[j] == NON_LAKOSIAN_GROUP ::
                t.parent[j] < 0 || External(t, t.parent[j])
    ensures Decided(t, InitialChecks(DefaultSelection(t)))
    ensures Agree(t, DefaultSelection(t), InitialChecks(DefaultSelection(t)))
  {
    var check := InitialChecks(DefaultSelection(t));
    forall p: nat | p < t.Size() && t.kids[p] != []
      ensures ConsistentAt(t, check, p) <==>
              forall c | c in t.kids[p] :: c < t.Size() && (t.names[c] == NON_LAKOSIAN_GROUP ==> External(t, p))
    {
      assert t.kids[p][0] in t.kids[p];
      forall c | c in t.kids[p]
        ensures c < t.Size() && (External(t, c) <==> t.names[c] == NON_LAKOSIAN_GROUP || External(t, p))
      {
        KidBelow(t, p, c);
        ExternalStep(t, c);
      }
    }
    forall j | 0 <= j < t.Size() && t.parent[j] >= 0 ensures j in t.kids[t.parent[j]] {}
  }
}
