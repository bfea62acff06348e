/** One removal on the pages, from the leaf up to the root. */
module BTreeRemoveSteps {
  import opened Values
  import opened Cells
  import opened BTreeSpec
  import opened BTreeLayout
  import opened BTreeLinks
  import opened BTreeSearch
  import opened BTreeRepair
  import opened BTreeKept
  import opened FreeList
  import Proof = BTreeRemoveProof
  import InsertSteps = BTreeInsertSteps

  /** A removal of k, which is present, from the tree t of height h that lies in P0 beside the free pages f0. */
  datatype Removal = Removal(P0: Store, f0: FreeState, t: Tree, h: nat, k: int, m: nat)

  ghost predicate RemovalOk(w: Removal) {
    Kept(w.P0, w.f0, w.t, w.h, w.m) && Has(Entries(w.t), w.k)
  }

  /** What the subtree at depth d becomes. */
  ghost function SubRem(w: Removal, d: nat): Tree
    requires RemovalOk(w) && d <= w.h
  {
    ShapeDeep(w.t, w.h, w.k, d);
    Rem(SubAt(w.t, w.k, d), w.h - d, w.k, w.m)
  }

  /**
   The pages P hold c, but for its separators, where the subtree at depth d stood; the rest of the tree is as it was
   apart from links, and the pages c does without are free.
   */
  ghost predicate RemStage(w: Removal, P: Store, f: FreeState, d: nat, c: Tree) {
    && d <= w.h && Deep(w.t, w.k, d)
    && var s := SubAt(w.t, w.k, d);
       && c.pg == s.pg && Distinct(c) && Pages(c) <= Pages(s)
       && Skel(P, c) && Linked(P, Graft(w.t, w.k, d, [c]))
       && BodiesSame(w.P0, P, Pages(s)) && RestSame(w.P0, P, Pages(w.t))
       && FreeOk(f) && f.total == w.f0.total && Spare(f) == Spare(w.f0) + (Pages(s) - Pages(c))
  }

  lemma WorldFacts(w: Removal)
    requires RemovalOk(w)
    ensures 2 <= w.m && Shape(w.t, w.h) && Wf(w.t, w.h, 0, w.m, true) && Sorted(Entries(w.t)) && Distinct(w.t)
    ensures Lay(w.P0, w.t) && Linked(w.P0, [w.t]) && FreeOk(w.f0) && Pages(w.t) !! Spare(w.f0)
    ensures 0 !in Pages(w.t)
  {
    if 0 in Pages(w.t) { assert false; }
  }

  // ---------------------------------------------------------------- sizes along the path

  /** The subtree at depth d before and after. */
  ghost predicate SubSizes(w: Removal, d: nat)
    requires RemovalOk(w) && d <= w.h
  {
    && Deep(w.t, w.k, d)
    && var s := SubAt(w.t, w.k, d); var u := SubRem(w, d);
       && Shape(s, w.h - d) && Wf(s, w.h - d, if d == 0 then 0 else w.m, w.m, InsertSteps.RightAt(w.t, w.k, d))
       && Wf(u, w.h - d, if d == 0 then -1 else w.m - 1, w.m, InsertSteps.RightAt(w.t, w.k, d))
       && u.pg == s.pg && SameKind(u, s)
  }

  lemma SubSizesHold(w: Removal, d: nat)
    requires RemovalOk(w) && d <= w.h
    ensures SubSizes(w, d)
  {
    hide Wf, Lay, Linked, Rem, Kept;
    WorldFacts(w);
    InsertSteps.SubWf(w.t, w.h, w.k, w.m, d, 0, true);
    var s := SubAt(w.t, w.k, d);
    Proof.RemWf(s, w.h - d, w.k, w.m, if d == 0 then 0 else w.m, InsertSteps.RightAt(w.t, w.k, d));
  }

  /** The parent of the subtree at depth d, with that subtree replaced by c. */
  ghost function ParentWith(w: Removal, d: nat, c: Tree): (o: Tree)
    requires RemovalOk(w) && 0 < d <= w.h
    ensures o.Inner?
  {
    WorldFacts(w);
    ShapeDeep(w.t, w.h, w.k, d - 1);
    var p := SubAt(w.t, w.k, d - 1);
    Inner(p.pg, p.kids[ChildIndex(p.kids, w.k) := c], p.open)
  }

  ghost function PathIndex(w: Removal, d: nat): nat
    requires RemovalOk(w) && 0 < d <= w.h
  {
    WorldFacts(w);
    ShapeDeep(w.t, w.h, w.k, d - 1);
    ChildIndex(SubAt(w.t, w.k, d - 1).kids, w.k)
  }

  /** How the parent's outcome follows from the child's. */
  lemma ParentRem(w: Removal, d: nat)
    requires RemovalOk(w) && 0 < d <= w.h
    ensures var c := SubRem(w, d); var o := ParentWith(w, d, c);
            && 2 <= |o.kids| && PathIndex(w, d) < |o.kids| && o.kids[PathIndex(w, d)] == c
            && SubRem(w, d - 1) ==
               if Count(c) < w.m then Fix(o.pg, o.kids, o.open, PathIndex(w, d), w.m) else o
  {
    hide Wf, Lay, Linked, Kept, Fix, ChildIndex;
    WorldFacts(w);
    ShapeDeep(w.t, w.h, w.k, d - 1);
    ShapeDeep(w.t, w.h, w.k, d);
    SubStep(w.t, w.k, d - 1);
  }

  /** The children of the parent are of one kind, and only the one on the path may be short. */
  lemma ParentKids(w: Removal, d: nat)
    requires RemovalOk(w) && 0 < d <= w.h
    ensures var c := SubRem(w, d); var o := ParentWith(w, d, c); var i := PathIndex(w, d);
            && OneKind(o.kids) && i < |o.kids|
            && Deep(w.t, w.k, d - 1) && Count(o) == Count(SubAt(w.t, w.k, d - 1))
            && (forall j :: 0 <= j < |o.kids| ==> w.m - 1 <= Count(o.kids[j]))
            && (forall j :: 0 <= j < |o.kids| - 1 ==> Closed(o.kids[j]))
  {
    hide Lay, Linked, Kept, Rem, ChildIndex;
    WorldFacts(w);
    SubSizesHold(w, d - 1);
    SubSizesHold(w, d);
    SubStep(w.t, w.k, d - 1);
    var p := SubAt(w.t, w.k, d - 1);
    var i := PathIndex(w, d);
    var right := InsertSteps.RightAt(w.t, w.k, d - 1);
    InsertSteps.SubWf(w.t, w.h, w.k, w.m, d, 0, true);
    RightStep(w.t, w.k, d - 1);
    Proof.KidsSameKind(p.kids, w.h - d);
    assert Wf(p, w.h - d + 1, if d == 1 then 0 else w.m, w.m, right);
    assert KidsWf(p.kids, w.h - d, w.m, right);
  }

  lemma {:induction false} RightStep(t: Tree, k: int, d: nat)
    requires Deep(t, k, d + 1) && Deep(t, k, d) && SubAt(t, k, d).Inner? && SubAt(t, k, d).kids != []
    ensures var p := SubAt(t, k, d);
            InsertSteps.RightAt(t, k, d + 1) <==> InsertSteps.RightAt(t, k, d) && ChildIndex(p.kids, k) == |p.kids| - 1
    decreases d
  {
    if d > 0 {
      RightStep(t.kids[ChildIndex(t.kids, k)], k, d - 1);
    }
  }

  // ---------------------------------------------------------------- from a child to its parent

  /** The parent's page is still as exact as it was, and the search in it leads to the child on the path. */
  lemma ParentPage(w: Removal, P: Store, f: FreeState, d: nat, c: Tree)
    requires RemovalOk(w) && 0 < d && RemStage(w, P, f, d, c)
    ensures Deep(w.t, w.k, d - 1)
    ensures var p := SubAt(w.t, w.k, d - 1);
            && p.Inner? && p.kids != []
            && p.pg in w.P0 && p.pg in P && Body(P[p.pg]) == Body(w.P0[p.pg])
            && NodeOf(P[p.pg], p) && FindsChild(P[p.pg], w.k, ChildIndex(p.kids, w.k))
            && p.pg !in Pages(SubAt(w.t, w.k, d))
  {
    hide Wf, Lay, Linked, Skel, Distinct, Fix, Entries, Sorted, Max, Rem, SubRem, FreeOk, Exact, Graft, Has, Spare;
    WorldFacts(w);
    PathNode(w.P0, w.t, w.h, w.k, w.m, d - 1);
    PathPages(w.t, w.k, d - 1, d);
    var p := SubAt(w.t, w.k, d - 1);
    PathFinds(w, d - 1);
  }

  /** The search in an inner node on the path of a present key ends at its child on the path. */
  lemma PathFinds(w: Removal, d: nat)
    requires RemovalOk(w) && d < w.h
    ensures Deep(w.t, w.k, d)
    ensures var p := SubAt(w.t, w.k, d);
            p.pg in w.P0 && p.Inner? && p.kids != [] && FindsChild(w.P0[p.pg], w.k, ChildIndex(p.kids, w.k))
  {
    hide Lay, Linked, Distinct, Entries, EntriesF, Sorted;
    WorldFacts(w);
    PathNode(w.P0, w.t, w.h, w.k, w.m, d);
    SubFind(w.t, w.h, w.k, w.m, d, 0, true);
    var p := SubAt(w.t, w.k, d);
    SepRank(w.P0[p.pg], p, w.k);
    BelowMax(p, w.k);
    InsertSteps.SubWf(w.t, w.h, w.k, w.m, d, 0, true);
    LastSep(w.P0[p.pg], p, w.k);
  }

  lemma BelowMax(p: Tree, k: int)
    requires p.Inner? && p.kids != [] && AllNonEmpty(p.kids) && Sorted(Entries(p)) && Has(Entries(p), k)
    ensures k <= Max(p.kids[|p.kids| - 1])
  {
    var n := |p.kids| - 1;
    AtChild(p.kids, n);
    assert p.kids[n + 1..] == [];
    var e, l := Entries(p), Entries(p.kids[n]);
    assert e[|e| - 1] == l[|l| - 1];
    var x :| 0 <= x < |e| && e[x].key == k;
  }

  /** With a separator for every child, no present key lies past the last separator. */
  lemma LastSep(n: Node, p: Tree, k: int)
    requires p.Inner? && p.kids != [] && Exact(n, p) && |n.cells| == Count(p) && k <= Max(p.kids[|p.kids| - 1])
    ensures Rank(n.cells, k) == |n.cells| ==> |n.cells| < |p.kids|
  {
    if |n.cells| == |p.kids| {
      assert n.cells[|n.cells| - 1].key == Max(p.kids[|p.kids| - 1]);
    }
  }

  // ---------------------------------------------------------------- the steps between stages

  function LeafWithout(P: Store, pg: nat, k: int): Store
    requires pg in P
  {
    P[pg := P[pg].(cells := RemoveCell(P[pg].cells, k))]
  }

  /** The leaf loses its cell; it may be one cell short now. */
  lemma LeafRemStage(w: Removal)
    requires RemovalOk(w)
    ensures Deep(w.t, w.k, w.h)
    ensures var s := SubAt(w.t, w.k, w.h);
            && s.Leaf? && s.pg in w.P0 && w.P0[s.pg].cells == s.cells && Sorted(s.cells) && Has(s.cells, w.k)
            && SubRem(w, w.h) == Leaf(s.pg, RemoveCell(s.cells, w.k))
            && RemStage(w, LeafWithout(w.P0, s.pg, w.k), w.f0, w.h, SubRem(w, w.h))
            && AboveAll(w.t, w.k, w.P0, LeafWithout(w.P0, s.pg, w.k), w.h)
  {
    hide Wf, Sorted, Has, RemoveCell, Graft, FreeOk;
    WorldFacts(w);
    PathNode(w.P0, w.t, w.h, w.k, w.m, w.h);
    SubPages(w.t, w.k, w.h);
    var s := SubAt(w.t, w.k, w.h);
    var o := Leaf(s.pg, RemoveCell(s.cells, w.k));
    LeafLinked(w, s, o);
    forall j | 0 <= j < w.h ensures Above(w.t, w.k, w.P0, LeafWithout(w.P0, s.pg, w.k), j) {
      PathPages(w.t, w.k, j, w.h);
      PathNode(w.P0, w.t, w.h, w.k, w.m, j);
    }
  }

  lemma LeafLinked(w: Removal, s: Tree, o: Tree)
    requires RemovalOk(w) && Deep(w.t, w.k, w.h) && s == SubAt(w.t, w.k, w.h) && s.Leaf? && o.Leaf? && o.pg == s.pg
    requires s.pg in w.P0
    ensures Linked(LeafWithout(w.P0, s.pg, w.k), Graft(w.t, w.k, w.h, [o]))
  {
    hide Wf, RemoveCell, Graft, Lay;
    forall e: nat ensures LevelF([o], e) == LevelF([s], e) {
      LevelOne(o, e);
      LevelOne(s, e);
    }
    SameLevels(w.t, w.k, w.h, [s], [o]);
    GraftSelf(w.t, w.k, w.h);
    LinkedSame(w.P0, LeafWithout(w.P0, s.pg, w.k), [w.t], Graft(w.t, w.k, w.h, [o]));
  }

  /** What holds c at depth d holds the parent with c below it. */
  lemma StageUp(w: Removal, P: Store, f: FreeState, d: nat, c: Tree)
    requires RemovalOk(w) && 0 < d && RemStage(w, P, f, d, c) && c == SubRem(w, d)
    ensures RemStage(w, P, f, d - 1, ParentWith(w, d, c))
  {
    hide Wf, Kept, FreeOk, Linked, Distinct, Rem, Graft, Fix, FindsChild, SubRem, Skel, FreeChain, Body, NodeOf, Search, Lay, Entries, Sorted, Has, Max, Exact, Spare;
    WorldFacts(w);
    ParentPage(w, P, f, d, c);
    ShapeDeep(w.t, w.h, w.k, d);
    SubStep(w.t, w.k, d - 1);
    SubPages(w.t, w.k, d - 1);
    var p := SubAt(w.t, w.k, d - 1);
    var i := ChildIndex(p.kids, w.k);
    var o := ParentWith(w, d, c);
    assert o == Splice(p, i, [c]);
    GraftStep(w.t, w.k, d - 1, [c]);
    ReplacePages(p, i, c);
    StageUpSkel(w, P, f, d, c);
  }

  lemma ReplacePages(p: Tree, i: nat, c: Tree)
    requires p.Inner? && Distinct(p) && i < |p.kids| && Pages(c) <= Pages(p.kids[i]) && Distinct(c)
    ensures var o := Inner(p.pg, p.kids[i := c], p.open);
            && Distinct(o) && Pages(o) <= Pages(p) && Pages(p) - Pages(o) == Pages(p.kids[i]) - Pages(c)
            && Pages(p.kids[i]) <= Pages(p)
  {
    hide Entries, EntriesF, PagesF, DistinctF;
    var ks := p.kids[i := c];
    AtChild(p.kids, i);
    AtChild(ks, i);
    assert ks[..i] == p.kids[..i] && ks[i + 1..] == p.kids[i + 1..];
  }

  lemma StageUpSkel(w: Removal, P: Store, f: FreeState, d: nat, c: Tree)
    requires RemovalOk(w) && 0 < d && RemStage(w, P, f, d, c) && c == SubRem(w, d)
    ensures Skel(P, ParentWith(w, d, c))
  {
    hide Wf, Kept, FreeOk, Linked, Graft, Fix, FindsChild, SubRem, DistinctF, Roots, FreeChain, Spare;
    WorldFacts(w);
    ParentPage(w, P, f, d, c);
    ShapeDeep(w.t, w.h, w.k, d);
    SubStep(w.t, w.k, d - 1);
    SubPages(w.t, w.k, d - 1);
    LaySub(w.P0, w.t, w.k, d - 1);
    var p := SubAt(w.t, w.k, d - 1);
    var i := ChildIndex(p.kids, w.k);
    LaySkel(w.P0, p);
    ReplacedSkel(w.P0, P, p, i, c);
  }

  lemma ReplacedSkel(P: Store, Q: Store, p: Tree, i: nat, c: Tree)
    requires p.Inner? && Distinct(p) && i < |p.kids| && c.pg == p.kids[i].pg
    requires Skel(P, p) && p.pg in Q && NodeOf(Q[p.pg], p) && Skel(Q, c) && BodiesSame(P, Q, Pages(p.kids[i]))
    ensures Skel(Q, Inner(p.pg, p.kids[i := c], p.open))
  {
    hide Distinct, Body, Pages, PagesF;
    var ks := p.kids[i := c];
    forall j | 0 <= j < |ks| && j != i ensures Skel(Q, ks[j]) {
      assert Skel(P, p.kids[j]);
      assert DistinctF(p.kids) by { DistinctKids(p); }
      InsertSteps.KidsApart(p.kids, j, i);
      SkelFrame(P, Q, p.kids[j]);
    }
    InsertSteps.RootsSame(p, i, c);
  }

  lemma DistinctKids(p: Tree)
    requires p.Inner? && Distinct(p)
    ensures DistinctF(p.kids)
  {
  }

  lemma StageSite(w: Removal, P: Store, f: FreeState, e: nat, o: Tree, i: nat)
    requires RemovalOk(w) && RemStage(w, P, f, e, o) && o.Inner? && 2 <= |o.kids| && OneKind(o.kids) && i < |o.kids|
    ensures Site(P, w.t, w.k, e, o, i) && PathIn(P, w.t, w.k, e)
  {
    hide Wf, Skel, Linked, Distinct, Kept, FreeOk, Graft, OneKind;
    WorldFacts(w);
    SubPages(w.t, w.k, e);
    forall c | 0 <= c < e ensures Deep(w.t, w.k, c) && SubAt(w.t, w.k, c).pg in P {
      PathPages(w.t, w.k, c, e);
      PathNode(w.P0, w.t, w.h, w.k, w.m, c);
    }
  }

  /** The free pages after the repair of child i: a merge frees the second neighbour. */
  function FreeAfter(f: FreeState, o: Tree, i: nat, m: nat): FreeState
    requires o.Inner? && 2 <= |o.kids| && i < |o.kids|
  {
    var r := RepairOf(o.kids, i, m);
    if r.MergeLeft? || r.MergeRight? then Release(f, o.kids[Pivot(r, i) + 1].pg) else f
  }

  /** A repair leads from one stage to the next. */
  lemma StageMended(w: Removal, P: Store, f: FreeState, e: nat, o: Tree, i: nat, Q: Store)
    requires RemovalOk(w) && RemStage(w, P, f, e, o) && o.Inner? && 2 <= |o.kids| && OneKind(o.kids) && i < |o.kids|
    requires Repaired(P, Q, w.t, w.k, e, o, i, w.m)
    ensures RemStage(w, Q, FreeAfter(f, o, i, w.m), e, Fix(o.pg, o.kids, o.open, i, w.m))
  {
    hide Wf, Skel, Linked, Distinct, Kept, FreeOk, Graft, OneKind, Fix, RepairOf, Body, AboveAll, Release, Has, FreeChain, Entries, Spare, RemovalOk, Pages;
    WorldFacts(w);
    SubPages(w.t, w.k, e);
    FixPages(o, i, w.m);
    FixPg(o, i, w.m);
    var r := RepairOf(o.kids, i, w.m);
    if r.MergeLeft? || r.MergeRight? {
      var y := o.kids[Pivot(r, i) + 1].pg;
      assert y in Pages(w.t);
      assert y !in Spare(f);
      TreePage(w, y);
      ReleaseOk(f, y);
      assert Release(f, y).total == f.total by { ReleaseTotal(f, y); }
    }
  }

  lemma ReleaseTotal(f: FreeState, p: nat)
    ensures Release(f, p).total == f.total
  {
  }

  lemma TreePage(w: Removal, y: nat)
    requires RemovalOk(w) && y in Pages(w.t)
    ensures 0 < y < w.f0.total && y !in Spare(w.f0)
  {
  }

  /** Once a subtree is full enough nothing more happens above it, and the root keeps its height. */
  lemma {:induction false} StageDone(w: Removal, P: Store, f: FreeState, d: nat)
    requires RemovalOk(w) && d <= w.h && RemStage(w, P, f, d, SubRem(w, d))
    requires NotShort(w, d)
    ensures RemStage(w, P, f, 0, SubRem(w, 0)) && Shrink(SubRem(w, 0)) == SubRem(w, 0)
    decreases d
  {
    hide RemStage, RemovalOk, SubRem, PathIndex, Fix, Wf, Shape, SubAt;
    if d > 0 {
      StageUp(w, P, f, d, SubRem(w, d));
      ParentRem(w, d);
      ParentKids(w, d);
      SubSizesHold(w, d - 1);
      FullEnough(SubAt(w.t, w.k, d - 1), w.h - d + 1, if d == 1 then 0 else w.m, w.m, InsertSteps.RightAt(w.t, w.k, d - 1));
      StageDone(w, P, f, d - 1);
    }
  }

  lemma FullEnough(s: Tree, h: nat, lo: int, m: nat, right: bool)
    requires Wf(s, h, lo, m, right)
    ensures lo <= Count(s)
  {
  }

  // ---------------------------------------------------------------- the root

  /** The only child has been copied into the root's page. */
  function DecrStore(P: Store, root: nat, child: nat): Store
    requires root in P && child in P
  {
    var c := P[child];
    P[root := c.(left := 0, right := 0)][child := c.(cells := [], kids := [])]
  }

  /** The pages hold u, but for its separators, as a whole tree with what it does without free. */
  ghost predicate Removed(w: Removal, P: Store, f: FreeState, u: Tree) {
    && u.pg == w.t.pg && Distinct(u) && Pages(u) <= Pages(w.t)
    && Skel(P, u) && Linked(P, [u]) && RestSame(w.P0, P, Pages(w.t))
    && FreeOk(f) && f.total == w.f0.total && Spare(f) == Spare(w.f0) + (Pages(w.t) - Pages(u))
  }

  lemma StageRemoved(w: Removal, P: Store, f: FreeState, u: Tree)
    requires RemStage(w, P, f, 0, u)
    ensures Removed(w, P, f, u)
  {
    hide Skel, Linked, Distinct, FreeOk;
  }

  /** A root that still has two children, or is a leaf, is what the removal makes of it. */
  lemma RootStays(w: Removal, P: Store, f: FreeState)
    requires RemovalOk(w) && RemStage(w, P, f, 0, SubRem(w, 0)) && Shrink(SubRem(w, 0)) == SubRem(w, 0)
    ensures Removed(w, P, f, RemRoot(w.t, w.h, w.k, w.m))
  {
    hide RemStage, Removed, Rem, Kept;
    StageRemoved(w, P, f, SubRem(w, 0));
  }

  /** A root with a single child takes over its contents, and the child's page is free. */
  lemma RootShrinks(w: Removal, P: Store, f: FreeState, u: Tree)
    requires RemovalOk(w) && RemStage(w, P, f, 0, u) && u == SubRem(w, 0) && u.Inner? && |u.kids| == 1
    ensures var c := u.kids[0].pg;
            && u.pg in P && P[u.pg].kids == [c] && c in P && c != u.pg
            && Removed(w, DecrStore(P, u.pg, c), Release(f, c), RemRoot(w.t, w.h, w.k, w.m))
  {
    hide RemStage, Rem, Kept, Skel, Linked, FreeOk, Distinct, Spare, DecrStore;
    StageRemoved(w, P, f, u);
    WorldFacts(w);
    OneKidPages(u);
    var c := u.kids[0];
    TreePage(w, c.pg);
    ReleaseOk(f, c.pg);
    ReleaseTotal(f, c.pg);
    ShrinkSkel(P, u);
    ShrinkLinked(P, u);
    DecrRest(P, u.pg, c.pg);
    assert SubAt(w.t, w.k, 0) == w.t;
  }

  lemma OneKidPages(u: Tree)
    requires u.Inner? && |u.kids| == 1 && Distinct(u)
    ensures var c := u.kids[0]; var v := Repage(c, u.pg);
            && c.pg in Pages(u) && c.pg != u.pg && Shrink(u) == v
            && Distinct(v) && Pages(v) == Pages(u) - {c.pg}
  {
    EntriesOne(u.kids[0]);
    assert u.kids == [u.kids[0]];
  }

  lemma ShrinkSkel(P: Store, u: Tree)
    requires Skel(P, u) && u.Inner? && |u.kids| == 1 && Distinct(u)
    ensures var c := u.kids[0];
            && u.pg in P && c.pg in P && P[u.pg].kids == [c.pg] && Skel(DecrStore(P, u.pg, c.pg), Repage(c, u.pg))
  {
    hide DistinctF;
    var c := u.kids[0];
    assert Skel(P, c);
    EntriesOne(c);
    assert u.kids == [c];
    assert Roots(u.kids) == [c.pg];
    if c.Inner? { SkelFrameF(P, DecrStore(P, u.pg, c.pg), c.kids); }
  }

  lemma ShrinkLinked(P: Store, u: Tree)
    requires Linked(P, [u]) && u.Inner? && |u.kids| == 1 && Distinct(u) && u.pg in P && u.kids[0].pg in P
    ensures Linked(DecrStore(P, u.pg, u.kids[0].pg), [Repage(u.kids[0], u.pg)])
  {
    hide Distinct;
    var c := u.kids[0];
    var v := Repage(c, u.pg);
    EntriesOne(u);
    OneKidPages(u);
    forall e: nat ensures Chain(DecrStore(P, u.pg, c.pg), LevelF([v], e)) {
      ShrunkLevel(u, e);
      if e > 0 { ShrunkChain(P, u, e); }
    }
  }

  lemma ShrunkLevel(u: Tree, e: nat)
    requires u.Inner? && |u.kids| == 1
    ensures LevelF([Repage(u.kids[0], u.pg)], e) == if e == 0 then [u.pg] else LevelF([u], e + 1)
    ensures LevelF([u], 0) == [u.pg] && LevelF([u], 1) == [u.kids[0].pg]
  {
    var c := u.kids[0];
    assert u.kids == [c];
    LevelOne(Repage(c, u.pg), e);
    LevelOne(u, e + 1);
    LevelOne(u, 0);
    LevelOne(u, 1);
    LevelOne(c, 0);
    LevelOne(c, e);
  }

  lemma ShrunkChain(P: Store, u: Tree, e: nat)
    requires 0 < e && Linked(P, [u]) && u.Inner? && |u.kids| == 1 && DistinctF([u]) && u.pg in P && u.kids[0].pg in P
    ensures Chain(DecrStore(P, u.pg, u.kids[0].pg), LevelF([u], e + 1))
  {
    hide DistinctF, LevelF;
    var ps := LevelF([u], e + 1);
    ShrunkLevel(u, 0);
    assert Chain(P, ps);
    forall i | 0 <= i < |ps| ensures LinkedAt(DecrStore(P, u.pg, u.kids[0].pg), ps, i) {
      assert LinkedAt(P, ps, i);
      LevelsApart2([u], e + 1, 0, ps[i]);
      LevelsApart2([u], e + 1, 1, ps[i]);
    }
  }

  lemma DecrRest(P: Store, root: nat, child: nat)
    requires root in P && child in P
    ensures RestSame(P, DecrStore(P, root, child), {root, child})
  {
  }

  // ---------------------------------------------------------------- separators

  /** The two nodes may only differ in the separators of an inner node. */
  predicate SameButKeys(n: Node, n': Node) {
    && n'.isLeaf == n.isLeaf && n'.left == n.left && n'.right == n.right && n'.kids == n.kids
    && |n'.cells| == |n.cells| && (n.isLeaf ==> n'.cells == n.cells)
  }

  ghost predicate Rekeyed(P: Store, Q: Store) {
    P.Keys == Q.Keys && forall p :: p in P ==> SameButKeys(P[p], Q[p])
  }

  lemma {:induction false} SkelRekeyed(P: Store, Q: Store, t: Tree)
    requires Skel(P, t) && Rekeyed(P, Q)
    ensures Skel(Q, t)
    decreases t
  {
    assert SameButKeys(P[t.pg], Q[t.pg]);
    if t.Inner? {
      forall i | 0 <= i < |t.kids| ensures Skel(Q, t.kids[i]) {
        SkelRekeyed(P, Q, t.kids[i]);
      }
    }
  }

  lemma LinkedRekeyed(P: Store, Q: Store, ts: seq<Tree>)
    requires Linked(P, ts) && Rekeyed(P, Q)
    ensures Linked(Q, ts)
  {
    forall e: nat ensures Chain(Q, LevelF(ts, e)) {
      var ps := LevelF(ts, e);
      assert Chain(P, ps);
      forall i | 0 <= i < |ps| ensures LinkedAt(Q, ps, i) {
        assert LinkedAt(P, ps, i);
      }
    }
  }

  lemma RekeyedSelf(P: Store)
    ensures Rekeyed(P, P)
  {
  }

  lemma RekeyedOne(P: Store, pg: nat, n: Node)
    requires pg in P && SameButKeys(P[pg], n)
    ensures Rekeyed(P, P[pg := n])
  {
  }

  lemma RekeyedTrans(P: Store, Q: Store, R: Store)
    requires Rekeyed(P, Q) && Rekeyed(Q, R)
    ensures Rekeyed(P, R)
  {
    forall p | p in P ensures SameButKeys(P[p], R[p]) {
      assert SameButKeys(P[p], Q[p]) && SameButKeys(Q[p], R[p]);
    }
  }

  lemma RemovedRekeyed(w: Removal, P: Store, Q: Store, f: FreeState, u: Tree)
    requires Removed(w, P, f, u) && Rekeyed(P, Q) && RestSame(P, Q, Pages(w.t))
    ensures Removed(w, Q, f, u)
  {
    hide FreeOk, Distinct, Spare, Linked, Skel, Rekeyed;
    SkelRekeyed(P, Q, u);
    LinkedRekeyed(P, Q, [u]);
  }

  // ---------------------------------------------------------------- the end

  /** What a removal leaves behind once the separators are exact again. */
  ghost predicate AfterRemove(w: Removal, Q: Store, g: FreeState) {
    && Shape(w.t, w.h)
    && var u := RemRoot(w.t, w.h, w.k, w.m);
       && Kept(Q, g, u, RemHeight(w.t, w.h, w.k, w.m), w.m)
       && g.total == w.f0.total && Spare(g) == Spare(w.f0) + (Pages(w.t) - Pages(u))
       && Conserved(w.f0, w.t, g, u) && OthersSame(w.P0, Q, w.f0, w.t)
  }

  lemma RemRootFacts(w: Removal)
    requires RemovalOk(w)
    ensures Shape(w.t, w.h)
    ensures var u := RemRoot(w.t, w.h, w.k, w.m); var h := RemHeight(w.t, w.h, w.k, w.m);
            2 <= w.m && Shape(u, h) && WfRoot(u, h, w.m) && Pages(u) <= Pages(w.t)
  {
    hide Lay, Linked, Rem, Shrink, RemHeight, Entries, Wf, FreeOk, Distinct;
    Proof.RemRootCorrect(w.t, w.h, w.k, w.m);
    var u := RemRoot(w.t, w.h, w.k, w.m);
    WfShape(u, RemHeight(w.t, w.h, w.k, w.m), 0, w.m, true);
  }

  lemma RemovedKept(w: Removal, P: Store, f: FreeState, Q: Store)
    requires RemovalOk(w) && Removed(w, P, f, RemRoot(w.t, w.h, w.k, w.m)) && Rekeyed(P, Q)
    requires Lay(Q, RemRoot(w.t, w.h, w.k, w.m)) && RestSame(P, Q, Pages(RemRoot(w.t, w.h, w.k, w.m)))
    ensures AfterRemove(w, Q, f)
  {
    hide Skel, Linked, Lay, Wf, RemRoot, RemHeight, Rekeyed, FreeOk, Distinct, Entries, Shape;
    RemRootFacts(w);
    var u := RemRoot(w.t, w.h, w.k, w.m);
    LinkedRekeyed(P, Q, [u]);
    assert Inside(u, f) by { forall p | p in Pages(u) ensures 0 < p < f.total { TreePage(w, p); } }
  }

  // ---------------------------------------------------------------- what the cursor needs at each repair

  /** Page px can take over page py, its right neighbour. */
  ghost predicate Mergeable(P: Store, px: nat, py: nat, pn: nat) {
    && px in P && py in P && px != py && NextApart(P, px, py, pn) && P[py].cells != []
    && P[px].isLeaf == P[py].isLeaf && (P[px].isLeaf ==> P[px].kids == [] && P[py].kids == [])
  }

  /** The parent's page n on pn, the index i of the short child, and the pages of its siblings. */
  ghost predicate FamilyPages(P: Store, n: Node, pn: nat, i: nat) {
    && i < |n.kids| && 2 <= |n.kids| && n.kids[i] in P && n.kids[i] != pn
    && (i > 0 ==> n.kids[i - 1] in P && n.kids[i - 1] != pn && n.kids[i - 1] != n.kids[i])
    && (i + 1 < |n.kids| ==> n.kids[i + 1] in P && n.kids[i + 1] != pn && n.kids[i + 1] != n.kids[i])
  }

  predicate LeftGives(P: Store, n: Node, i: nat, m: nat)
    requires i < |n.kids| && (i > 0 ==> n.kids[i - 1] in P)
  {
    i > 0 && |P[n.kids[i - 1]].cells| > m
  }

  predicate RightGives(P: Store, n: Node, i: nat, m: nat)
    requires i < |n.kids| && (i + 1 < |n.kids| ==> n.kids[i + 1] in P)
  {
    i + 1 < |n.kids| && |P[n.kids[i + 1]].cells| > m
  }

  /** The counts on the pages choose the repair that the specification chooses. */
  ghost predicate Chosen(P: Store, n: Node, o: Tree, i: nat, m: nat)
    requires o.Inner? && i < |o.kids| && FamilyPages(P, n, o.pg, i)
  {
    var r := RepairOf(o.kids, i, m);
    if LeftGives(P, n, i, m) then r.BorrowLeft? && CanGive(P[n.kids[i - 1]], P[n.kids[i]])
    else if RightGives(P, n, i, m) then r.BorrowRight? && CanGive(P[n.kids[i + 1]], P[n.kids[i]])
    else if i == |n.kids| - 1 then r.MergeLeft? && Mergeable(P, n.kids[i - 1], n.kids[i], o.pg)
    else r.MergeRight? && Mergeable(P, n.kids[i], n.kids[i + 1], o.pg)
  }

  /** Everything known when the child at depth d is short. */
  ghost predicate MendReady(w: Removal, P: Store, f: FreeState, d: nat)
    requires RemovalOk(w) && 0 < d <= w.h
  {
    var o := ParentWith(w, d, SubRem(w, d)); var i := PathIndex(w, d);
    && Deep(w.t, w.k, d - 1) && o.pg == SubAt(w.t, w.k, d - 1).pg
    && RemStage(w, P, f, d - 1, o) && 2 <= |o.kids| && OneKind(o.kids) && i < |o.kids|
    && Site(P, w.t, w.k, d - 1, o, i) && PathIn(P, w.t, w.k, d - 1)
    && o.pg in P && NodeOf(P[o.pg], o) && FindsChild(P[o.pg], w.k, i) && P[o.pg].kids == Roots(o.kids)
    && FamilyPages(P, P[o.pg], o.pg, i)
    && (forall j :: 0 <= j < |o.kids| - 1 ==> Closed(o.kids[j]))
  }

  lemma MendReadyHolds(w: Removal, P: Store, f: FreeState, d: nat)
    requires RemovalOk(w) && 0 < d <= w.h && RemStage(w, P, f, d, SubRem(w, d))
    ensures MendReady(w, P, f, d)
  {
    hide RemStage, RemovalOk, Fix, Wf, Site, PathIn, FindsChild, Skel, Rem;
    var c := SubRem(w, d);
    var o, i := ParentWith(w, d, c), PathIndex(w, d);
    StageUp(w, P, f, d, c);
    ParentRem(w, d);
    ParentKids(w, d);
    ParentPage(w, P, f, d, c);
    StageSite(w, P, f, d - 1, o, i);
    StageParts(w, P, f, d - 1, o);
    if i > 0 { NeighbourPages(P, o, i - 1); }
    if i + 1 < |o.kids| { NeighbourPages(P, o, i); }
  }

  lemma StageParts(w: Removal, P: Store, f: FreeState, d: nat, c: Tree)
    requires RemStage(w, P, f, d, c)
    ensures Skel(P, c) && Distinct(c)
  {
  }

  lemma ChosenHolds(w: Removal, P: Store, f: FreeState, d: nat)
    requires RemovalOk(w) && 0 < d <= w.h && MendReady(w, P, f, d) && Count(SubRem(w, d)) < w.m
    ensures var o := ParentWith(w, d, SubRem(w, d)); Chosen(P, P[o.pg], o, PathIndex(w, d), w.m)
  {
    hide RemStage, RemovalOk, Fix, Wf, FindsChild, Rem, ParentWith, PathIndex, SubRem, CanGive, Linked, Stands, Mergeable;
    var o, i := ParentWith(w, d, SubRem(w, d)), PathIndex(w, d);
    WorldFacts(w);
    ParentKids(w, d);
    ParentRem(w, d);
    if i > 0 { SiblingGives(P, o, i - 1, i, w.m); }
    if i + 1 < |o.kids| { SiblingGives(P, o, i + 1, i, w.m); }
    var r := RepairOf(o.kids, i, w.m);
    if r.MergeLeft? { MergeableHolds(P, w.t, w.k, d - 1, o, i, w.m); }
    if r.MergeRight? { MergeableHolds(P, w.t, w.k, d - 1, o, i, w.m); }
  }

  lemma SiblingGives(P: Store, o: Tree, j: nat, i: nat, m: nat)
    requires o.Inner? && j < |o.kids| && i < |o.kids| && SkelF(P, o.kids) && OneKind(o.kids) && 1 <= m
    ensures o.kids[j].pg in P && o.kids[i].pg in P && |P[o.kids[j].pg].cells| == Count(o.kids[j])
    ensures m < Count(o.kids[j]) ==> CanGive(P[o.kids[j].pg], P[o.kids[i].pg])
  {
    assert Skel(P, o.kids[j]) && Skel(P, o.kids[i]);
    assert SameKind(o.kids[j], o.kids[i]);
  }

  lemma MergeableHolds(P: Store, t: Tree, k: int, e: nat, o: Tree, i: nat, m: nat)
    requires Site(P, t, k, e, o, i) && 2 <= m
    requires forall j :: 0 <= j < |o.kids| ==> m - 1 <= Count(o.kids[j])
    requires var r := RepairOf(o.kids, i, m); r.MergeLeft? || r.MergeRight?
    ensures var j := Pivot(RepairOf(o.kids, i, m), i);
            0 <= j && j + 1 < |o.kids| && Mergeable(P, o.kids[j].pg, o.kids[j + 1].pg, o.pg)
  {
    hide Linked, RepairOf, Fix, NextApart;
    MergeNext(P, t, k, e, o, i, m);
    var j := Pivot(RepairOf(o.kids, i, m), i);
    NeighbourPages(P, o, j);
    assert SameKind(o.kids[j], o.kids[j + 1]);
  }

  /** After a repair, the parent stands where the specification says. */
  lemma MendPost(w: Removal, P: Store, f: FreeState, d: nat, Q: Store)
    requires RemovalOk(w) && 0 < d <= w.h && MendReady(w, P, f, d) && Count(SubRem(w, d)) < w.m
    requires var o := ParentWith(w, d, SubRem(w, d)); Repaired(P, Q, w.t, w.k, d - 1, o, PathIndex(w, d), w.m)
    ensures var o := ParentWith(w, d, SubRem(w, d));
            && RemStage(w, Q, FreeAfter(f, o, PathIndex(w, d), w.m), d - 1, SubRem(w, d - 1))
            && AboveAll(w.t, w.k, P, Q, d - 1)
            && SubRem(w, d - 1).pg == o.pg
  {
    hide RemStage, RemovalOk, Fix, Wf, FindsChild, Rem, ParentWith, PathIndex, SubRem, Linked, Skel, FamilyPages, RepairOf, FreeAfter;
    var o, i := ParentWith(w, d, SubRem(w, d)), PathIndex(w, d);
    StageMended(w, P, f, d - 1, o, i, Q);
    ParentRem(w, d);
    FixPg(o, i, w.m);
  }

  /** A borrow leaves the parent as full as it was. */
  lemma BorrowDone(w: Removal, d: nat)
    requires RemovalOk(w) && 0 < d <= w.h && Count(SubRem(w, d)) < w.m
    requires var o := ParentWith(w, d, SubRem(w, d));
             var r := RepairOf(o.kids, PathIndex(w, d), w.m); r.BorrowLeft? || r.BorrowRight?
    ensures NotShort(w, d - 1)
  {
    hide RemovalOk, Wf, Rem, ParentWith, PathIndex, SubRem, OneKind, RepairOf, Mended;
    ParentRem(w, d);
    ParentKids(w, d);
    SubSizesHold(w, d - 1);
    var o, i := ParentWith(w, d, SubRem(w, d)), PathIndex(w, d);
    FullEnough(SubAt(w.t, w.k, d - 1), w.h - d + 1, if d == 1 then 0 else w.m, w.m, InsertSteps.RightAt(w.t, w.k, d - 1));
    FixRoots(o.pg, o.kids, o.open, i, w.m);
  }

  // ---------------------------------------------------------------- refreshing the separators

  /** The first i children of u have exact separators below them, and maxes are their largest keys. */
  ghost predicate Refreshed(P: Store, Q: Store, u: Tree, maxes: seq<int>, i: nat)
    requires u.Inner?
  {
    && i <= |u.kids| && |maxes| == i
    && Rekeyed(P, Q) && RestSame(P, Q, PagesF(u.kids))
    && LayF(Q, u.kids[..i])
    && AllMax(maxes, u.kids)
  }

  ghost predicate AllMax(maxes: seq<int>, ts: seq<Tree>) {
    forall j :: 0 <= j < |maxes| && j < |ts| ==> maxes[j] == Max(ts[j])
  }

  /** The next child is ready to be refreshed. */
  lemma RefreshNext(P: Store, Q: Store, u: Tree, maxes: seq<int>, i: nat, h: nat, m: nat, right: bool)
    requires u.Inner? && i < |u.kids| && Refreshed(P, Q, u, maxes, i)
    requires Skel(P, u) && Distinct(u) && Shape(u, h) && KidsWf(u.kids, h - 1, m, right) && 1 <= m
    ensures Skel(Q, u.kids[i]) && Distinct(u.kids[i]) && Shape(u.kids[i], h - 1)
    ensures Wf(u.kids[i], h - 1, m, m, right && i == |u.kids| - 1)
    ensures Entries(u.kids[i]) != []
  {
    hide Lay, NodeOf, Rekeyed, RestSame;
    SkelRekeyed(P, Q, u.kids[i]);
    AtChild(u.kids, i);
    WfNonEmpty(u.kids[i], h - 1, m, m, right && i == |u.kids| - 1);
  }

  /** One more child is exact, and the ones before still are. */
  lemma RefreshedOne(P: Store, Q: Store, R: Store, u: Tree, maxes: seq<int>, i: nat)
    requires u.Inner? && i < |u.kids| && Refreshed(P, Q, u, maxes, i) && Distinct(u)
    requires Lay(R, u.kids[i]) && Rekeyed(Q, R) && RestSame(Q, R, Pages(u.kids[i]))
    ensures Refreshed(P, R, u, maxes + [Max(u.kids[i])], i + 1)
  {
    hide Lay, Rekeyed, Distinct, Body;
    RekeyedTrans(P, Q, R);
    KidPages(u.kids, i);
    assert DistinctF(u.kids) by { DistinctKids(u); }
    var first := u.kids[..i + 1];
    forall j | 0 <= j < |first| ensures Lay(R, first[j]) {
      if j < i {
        assert Lay(Q, u.kids[..i][j]);
        InsertSteps.KidsApart(u.kids, j, i);
        LayFrame(Q, R, u.kids[j]);
      }
    }
  }

  /** The node itself is exact once its separators are the largest keys of its children. */
  lemma RefreshedNode(P: Store, Q: Store, n: Node, u: Tree, maxes: seq<int>)
    requires u.Inner? && u.kids != [] && Refreshed(P, Q, u, maxes, |u.kids|) && Skel(P, u) && Distinct(u)
    requires Entries(u.kids[|u.kids| - 1]) != []
    requires SameButKeys(P[u.pg], n)
    requires forall j :: 0 <= j < |n.cells| && j < |maxes| ==> n.cells[j].key == maxes[j]
    ensures var R := Q[u.pg := n];
            Lay(R, u) && Rekeyed(P, R) && RestSame(P, R, Pages(u))
    ensures Entries(u) != [] && maxes[|maxes| - 1] == Max(u)
  {
    hide DistinctF, Lay, Skel, Roots, NodeOf, Exact;
    var R := Q[u.pg := n];
    assert u.kids[..|u.kids|] == u.kids;
    assert LayF(R, u.kids) by { LayFrameF(Q, R, u.kids); }
    RefreshedExact(P, n, u, maxes);
    LayNode(R, u);
    InsertSteps.MaxOfLast(u.kids);
    assert SameButKeys(P[u.pg], R[u.pg]);
  }

  lemma RefreshedExact(P: Store, n: Node, u: Tree, maxes: seq<int>)
    requires u.Inner? && Skel(P, u) && SameButKeys(P[u.pg], n) && |maxes| == |u.kids| && AllMax(maxes, u.kids)
    requires forall j :: 0 <= j < |n.cells| && j < |maxes| ==> n.cells[j].key == maxes[j]
    ensures u.pg in P && NodeOf(n, u) && Exact(n, u)
  {
  }

  lemma LayNode(R: Store, u: Tree)
    requires u.Inner? && u.pg in R && NodeOf(R[u.pg], u) && Exact(R[u.pg], u) && LayF(R, u.kids)
    ensures Lay(R, u)
  {
  }

  // ---------------------------------------------------------------- the repairs, one by one

  /** The store and the free pages after page pn, which held the inner node n, had its child i merged with a sibling. */
  ghost predicate MergedInto(P: Store, f: FreeState, n: Node, i: nat, Q: Store, g: FreeState, pn: nat) {
    i < |n.kids| && |n.cells| <= |n.kids| <= |n.cells| + 1 && 2 <= |n.kids| &&
    if i == |n.kids| - 1 then
      var px, py := n.kids[i - 1], n.kids[i];
      && px in P && py in P && (P[py].right != 0 ==> P[py].right in P) && P[py].cells != []
      && Q == MergeStore(P, pn, MergedLast(n, i, P[py].cells[|P[py].cells| - 1].key), px, py)
      && g == Release(f, py)
    else
      var px, py := n.kids[i], n.kids[i + 1];
      && px in P && py in P && (P[py].right != 0 ==> P[py].right in P) && P[py].cells != []
      && Q == MergeStore(P, pn, MergedNext(n, i, P[py].cells[|P[py].cells| - 1].key), px, py)
      && g == Release(f, py)
  }

  /** No repair is needed above depth d. */
  ghost predicate NotShort(w: Removal, d: nat)
    requires RemovalOk(w) && d <= w.h
  {
    if d == 0 then Shrink(SubRem(w, 0)) == SubRem(w, 0) else w.m <= Count(SubRem(w, d))
  }

  /** The child at depth d is short, and its parent's page tells which repair is due. */
  ghost predicate MendDue(w: Removal, P: Store, f: FreeState, d: nat, o: Tree, i: nat)
    requires RemovalOk(w) && 0 < d <= w.h
  {
    && Count(SubRem(w, d)) < w.m && 1 <= w.m
    && o == ParentWith(w, d, SubRem(w, d)) && i == PathIndex(w, d) && o.Inner?
    && MendReady(w, P, f, d) && Chosen(P, P[o.pg], o, i, w.m)
  }

  /** o is the parent at depth d - 1, and its child i is the node at depth d. */
  ghost predicate ParentAndChild(w: Removal, d: nat, o: Tree, i: nat) {
    && 0 < d && Deep(w.t, w.k, d) && Deep(w.t, w.k, d - 1) && o.Inner? && i < |o.kids|
    && o.pg == SubAt(w.t, w.k, d - 1).pg && o.kids[i].pg == SubAt(w.t, w.k, d).pg
  }

  lemma MendStart(w: Removal, P: Store, f: FreeState, d: nat) returns (o: Tree, i: nat)
    requires RemovalOk(w) && 0 < d <= w.h && RemStage(w, P, f, d, SubRem(w, d)) && Count(SubRem(w, d)) < w.m
    ensures MendDue(w, P, f, d, o, i)
    ensures Distinct(w.t) && ParentAndChild(w, d, o, i)
  {
    hide RemStage, RemovalOk, MendReady, Chosen, ParentWith, PathIndex, SubRem, Wf;
    o, i := ParentWith(w, d, SubRem(w, d)), PathIndex(w, d);
    WorldFacts(w);
    MendReadyHolds(w, P, f, d);
    ChosenHolds(w, P, f, d);
    ParentRem(w, d);
    SubSizesHold(w, d);
    MendPages(w, P, f, d);
  }

  /** What the node operations ask for. */
  lemma MendAsks(w: Removal, P: Store, f: FreeState, d: nat, o: Tree, i: nat)
    requires RemovalOk(w) && 0 < d <= w.h && MendDue(w, P, f, d, o, i)
    ensures o.pg in P && FindsChild(P[o.pg], w.k, i) && FamilyPages(P, P[o.pg], o.pg, i) && i < |o.kids|
    ensures P[o.pg].kids[i] == o.kids[i].pg && 1 <= w.m
    ensures var n := P[o.pg];
            && (LeftGives(P, n, i, w.m) ==> CanGive(P[n.kids[i - 1]], P[n.kids[i]]))
            && (RightGives(P, n, i, w.m) && !LeftGives(P, n, i, w.m) ==> CanGive(P[n.kids[i + 1]], P[n.kids[i]]))
            && (!LeftGives(P, n, i, w.m) && !RightGives(P, n, i, w.m) ==>
                  if i == |n.kids| - 1 then Mergeable(P, n.kids[i - 1], n.kids[i], o.pg) else Mergeable(P, n.kids[i], n.kids[i + 1], o.pg))
  {
    hide RemStage, RemovalOk, ParentWith, PathIndex, SubRem, RepairOf, Site, FindsChild, PathIn, CanGive, Mergeable;
  }

  lemma MendPages(w: Removal, P: Store, f: FreeState, d: nat)
    requires RemovalOk(w) && 0 < d <= w.h && MendReady(w, P, f, d)
    ensures Deep(w.t, w.k, d - 1) && ParentWith(w, d, SubRem(w, d)).pg == SubAt(w.t, w.k, d - 1).pg
  {
    hide RemStage, RemovalOk, ParentWith, SubRem;
  }

  lemma MendLeft(w: Removal, P: Store, f: FreeState, d: nat, o: Tree, i: nat)
    requires RemovalOk(w) && 0 < d <= w.h && MendDue(w, P, f, d, o, i) && LeftGives(P, P[o.pg], i, w.m)
    ensures var Q := BorrowLeftStore(P, o.pg, P[o.pg].kids[i - 1], P[o.pg].kids[i], i);
            && RemStage(w, Q, f, d - 1, SubRem(w, d - 1)) && AboveAll(w.t, w.k, P, Q, d - 1)
            && NotShort(w, d - 1)
  {
    hide RemStage, RemovalOk, ParentWith, PathIndex, SubRem, Repaired, BorrowLeftStore, Site, FindsChild, PathIn, CanGive, Skel;
    BorrowLeftStep(P, w.t, w.k, d - 1, o, i, w.m);
    MendPost(w, P, f, d, BorrowLeftStore(P, o.pg, P[o.pg].kids[i - 1], P[o.pg].kids[i], i));
    BorrowDone(w, d);
  }

  lemma MendRight(w: Removal, P: Store, f: FreeState, d: nat, o: Tree, i: nat)
    requires RemovalOk(w) && 0 < d <= w.h && MendDue(w, P, f, d, o, i)
    requires !LeftGives(P, P[o.pg], i, w.m) && RightGives(P, P[o.pg], i, w.m)
    ensures i < |P[o.pg].cells|
    ensures var Q := BorrowRightStore(P, o.pg, P[o.pg].kids[i], P[o.pg].kids[i + 1], i);
            && RemStage(w, Q, f, d - 1, SubRem(w, d - 1)) && AboveAll(w.t, w.k, P, Q, d - 1)
            && NotShort(w, d - 1)
  {
    hide RemStage, RemovalOk, ParentWith, PathIndex, SubRem, Repaired, BorrowRightStore, Site, FindsChild, PathIn, CanGive, Skel;
    BorrowRightStep(P, w.t, w.k, d - 1, o, i, w.m);
    MendPost(w, P, f, d, BorrowRightStore(P, o.pg, P[o.pg].kids[i], P[o.pg].kids[i + 1], i));
    BorrowDone(w, d);
  }

  lemma MendMerged(w: Removal, P: Store, f: FreeState, d: nat, o: Tree, i: nat, Q: Store, g: FreeState)
    requires RemovalOk(w) && 0 < d <= w.h && MendDue(w, P, f, d, o, i)
    requires !LeftGives(P, P[o.pg], i, w.m) && !RightGives(P, P[o.pg], i, w.m)
    requires MergedInto(P, f, P[o.pg], i, Q, g, o.pg)
    ensures RemStage(w, Q, g, d - 1, SubRem(w, d - 1)) && AboveAll(w.t, w.k, P, Q, d - 1)
  {
    hide RemStage, RemovalOk, ParentWith, PathIndex, SubRem, Repaired, MergeStore, Site, FindsChild, PathIn, CanGive, Skel, Mergeable, Closed;
    if i == |o.kids| - 1 {
      MergeLeftStep(P, w.t, w.k, d - 1, o, i, w.m, P[o.kids[i].pg].cells[|P[o.kids[i].pg].cells| - 1].key);
    } else {
      MergeRightStep(P, w.t, w.k, d - 1, o, i, w.m, P[o.kids[i + 1].pg].cells[|P[o.kids[i + 1].pg].cells| - 1].key);
    }
    MendPost(w, P, f, d, Q);
  }

  /** A leaf that is the root has no parent to repair it and needs none. */
  lemma LeafRoot(w: Removal)
    requires RemovalOk(w) && w.h == 0
    ensures Shrink(SubRem(w, 0)) == SubRem(w, 0)
  {
    hide Kept;
    SubSizesHold(w, 0);
  }

  /** What the page of the root says when it has become short. */
  lemma RootNode(w: Removal, P: Store, f: FreeState)
    requires RemovalOk(w) && 0 < w.h && RemStage(w, P, f, 0, SubRem(w, 0))
    ensures var u := SubRem(w, 0);
            && u.Inner? && u.pg in P && P[u.pg].kids == Roots(u.kids) && u.pg == w.t.pg
            && (|u.kids| != 1 ==> Shrink(u) == u)
  {
    hide Kept, Rem, Linked, Wf, FreeOk;
    SubSizesHold(w, 0);
    WorldFacts(w);
  }

  /** The number of cells on the page is that of the tree. */
  lemma CellsCount(w: Removal, P: Store, f: FreeState, d: nat)
    requires RemovalOk(w) && d <= w.h && RemStage(w, P, f, d, SubRem(w, d))
    ensures Deep(w.t, w.k, d) && SubAt(w.t, w.k, d).pg in P
    ensures |P[SubAt(w.t, w.k, d).pg].cells| == Count(SubRem(w, d))
  {
    hide Kept, Rem, Linked, Wf, FreeOk, Distinct;
  }

  lemma FullNotShort(w: Removal, d: nat)
    requires RemovalOk(w) && d <= w.h && w.m <= Count(SubRem(w, d))
    ensures NotShort(w, d)
  {
    hide Kept, Rem, Wf, SubRem;
    WorldFacts(w);
  }

  lemma RemovalIs(w: Removal)
    requires Kept(w.P0, w.f0, w.t, w.h, w.m) && Has(Entries(w.t), w.k)
    ensures RemovalOk(w)
  {
  }

  /** A leaf that is still full enough needs no repair; a leaf that is the root never does. */
  lemma LeafFull(w: Removal)
    requires RemovalOk(w) && w.m <= Count(SubRem(w, w.h))
    ensures NotShort(w, w.h)
  {
    hide RemovalOk, SubRem;
    FullNotShort(w, w.h);
  }

  lemma RemovedParts(w: Removal, P: Store, f: FreeState, u: Tree)
    requires Removed(w, P, f, u)
    ensures Skel(P, u) && Distinct(u) && u.pg == w.t.pg
  {
  }

  /** An inner page that can be searched. */
  ghost predicate InnerAt(P: Store, t: Tree, k: int, j: nat) {
    Deep(t, k, j) && SubAt(t, k, j).pg in P && Sorted(P[SubAt(t, k, j).pg].cells) && !P[SubAt(t, k, j).pg].isLeaf
  }

  lemma PathInner(w: Removal)
    requires RemovalOk(w)
    ensures forall j :: 0 <= j < w.h ==> InnerAt(w.P0, w.t, w.k, j)
    ensures Distinct(w.t) && Shape(w.t, w.h)
  {
    hide Lay, Wf, Linked;
    WorldFacts(w);
    forall j | 0 <= j < w.h ensures InnerAt(w.P0, w.t, w.k, j) {
      PathNode(w.P0, w.t, w.h, w.k, w.m, j);
    }
  }
}
