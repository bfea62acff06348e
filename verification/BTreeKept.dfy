/** A tree together with the free pages around it, and what one insert makes of both. */
module BTreeKept {
  import opened Values
  import opened Cells
  import opened BTreeSpec
  import opened BTreeLayout
  import opened BTreeSearch
  import opened BTreeScan
  import opened FreeList
  import opened Steps = BTreeInsertSteps
  import Proof = BTreeInsertProof

  /** The tree t of height h lies in P with all its levels linked, and none of its pages is free. */
  ghost predicate Kept(P: Store, f: FreeState, t: Tree, h: nat, m: nat) {
    && Stored(P, t, h, m) && Linked(P, [t])
    && FreeOk(f) && Pages(t) !! Spare(f) && Inside(t, f)
  }

  /** As Kept, but closed nodes may overlook the largest key. */
  ghost predicate KeptBut(P: Store, f: FreeState, t: Tree, h: nat, m: nat, over: Option<int>) {
    && StoredBut(P, t, h, m, over) && Linked(P, [t])
    && FreeOk(f) && Pages(t) !! Spare(f) && Inside(t, f)
  }

  lemma KeptNone(P: Store, f: FreeState, t: Tree, h: nat, m: nat)
    ensures KeptBut(P, f, t, h, m, None) <==> Kept(P, f, t, h, m)
  {
    hide Stored, StoredBut, Linked, FreeOk;
    StoredNone(P, t, h, m);
  }

  ghost predicate Inside(t: Tree, f: FreeState) {
    forall p :: p in Pages(t) ==> 0 < p < f.total
  }

  /** Pages that are neither in t nor free are as they were. */
  ghost predicate OthersSame(P: Store, Q: Store, f: FreeState, t: Tree) {
    forall p :: p !in Pages(t) && p !in Spare(f) && p < f.total ==> (p in Q <==> p in P) && (p in P ==> Q[p] == P[p])
  }

  /** No page is lost: those of the tree and the free ones are the old ones and those the file grew by. */
  ghost predicate Conserved(f: FreeState, t: Tree, g: FreeState, u: Tree) {
    f.total <= g.total && Pages(u) + Spare(g) == Pages(t) + Spare(f) + (Upto(g.total) - Upto(f.total))
  }

  function InsertWorld(P: Store, f: FreeState, t: Tree, h: nat, k: int, v: Record, m: nat): World {
    World(P, t, h, k, v, m, TakeN(f, h + 2))
  }

  lemma InsertWorldOk(P: Store, f: FreeState, t: Tree, h: nat, k: int, v: Record, m: nat)
    requires Kept(P, f, t, h, m) && !Has(Entries(t), k)
    ensures WorldOk(InsertWorld(P, f, t, h, k, v, m))
  {
    hide Wf, Lay, Linked, CanInsert;
    TakeNOk(f, h + 2);
    var a := TakeN(f, h + 2);
    forall p | p in Members(a) ensures p != 0 && p !in Pages(t) {
      assert p in a;
    }
  }

  /** The pages an insert uses are the first ones of the allocation order. */
  lemma TakenPrefix(f: FreeState, n: nat, all: nat)
    requires n <= all
    ensures Proof.Taken(TakeN(f, all), n) == Members(TakeN(f, n))
  {
    AfterAdd(f, n, all - n);
    var a, b := TakeN(f, all), TakeN(f, n);
    assert forall i :: 0 <= i < n ==> a[i] == b[i];
  }

  /** Once the pages hold the new tree, it is kept, and exactly the pages used have left the free ones. */
  lemma InsertKept(P: Store, f: FreeState, t: Tree, h: nat, k: int, v: Record, m: nat, Q: Store)
    requires Kept(P, f, t, h, m) && !Has(Entries(t), k)
    requires var u := InsRoot(t, h, k, v, m, TakeN(f, h + 2)); LayBut(Q, u, Overlooked(t, k)) && Linked(Q, [u])
    ensures var a := TakeN(f, h + 2); var n := Proof.UsedRoot(Ins(t, h, k, v, m, a), h);
            && KeptBut(Q, After(f, n), InsRoot(t, h, k, v, m, a), InsHeight(t, h, k, v, m, a), m, Overlooked(t, k))
            && Pages(InsRoot(t, h, k, v, m, a)) == Pages(t) + Members(TakeN(f, n))
            && Conserved(f, t, After(f, n), InsRoot(t, h, k, v, m, a))
  {
    hide Lay, LayBut, Linked, Wf, Has, Sorted, Distinct, InsRoot, Ins, Entries, Pages, TakeN, FreeOk, Spare, Conserved, After, Overlooked;
    var a := TakeN(f, h + 2);
    TakeNOk(f, h + 2);
    forall p | p in Members(a) ensures p !in Pages(t) { assert p in a; }
    Proof.InsRootCorrect(t, h, k, v, m, a);
    var u := InsRoot(t, h, k, v, m, a);
    InsertShape(t, h, k, v, m, a);
    OverlookedMax(t, h, k, v, m, u);
    var n := Proof.UsedRoot(Ins(t, h, k, v, m, a), h);
    UsedRootBound(t, h, k, v, m, a);
    TakenPrefix(f, n, h + 2);
    TakeNOk(f, n);
    InsertConserved(f, t, u, n);
    InsertApart(f, t, u, n);
  }

  /** If the new key is overlooked, it is the largest one. */
  lemma OverlookedMax(t: Tree, h: nat, k: int, v: Record, m: nat, u: Tree)
    requires 2 <= m && Shape(t, h) && WfRoot(t, h, m) && !Has(Entries(t), k) && Entries(u) == InsertCell(Entries(t), k, v)
    ensures Overlooked(t, k).Some? ==> Entries(u) != [] && Overlooked(t, k).value == Max(u)
  {
    hide CanInsert, Wf;
    if !CanInsert(t, k) {
      NotMax(t, h, k, m);
      RankIs(Entries(t), k, |Entries(t)|);
    }
  }

  lemma InsertApart(f: FreeState, t: Tree, u: Tree, n: nat)
    requires FreeOk(f) && Pages(t) !! Spare(f) && Inside(t, f) && Pages(u) == Pages(t) + Members(TakeN(f, n))
    ensures Pages(u) !! Spare(After(f, n)) && Inside(u, After(f, n))
  {
    hide FreeOk, After, TakeN, Spare, Pages, Upto;
    TakeNOk(f, n);
    forall p | p in Pages(u) ensures p !in Spare(After(f, n)) && 0 < p < After(f, n).total {
      if p in Members(TakeN(f, n)) {
        assert p in TakeN(f, n);
      } else {
        assert p in Pages(t);
        assert p !in Upto(After(f, n).total) - Upto(f.total);
        assert p in Spare(After(f, n)) ==> p in Spare(f) + (Upto(After(f, n).total) - Upto(f.total));
      }
    }
  }

  lemma InsertConserved(f: FreeState, t: Tree, u: Tree, n: nat)
    requires FreeOk(f) && Pages(u) == Pages(t) + Members(TakeN(f, n))
    ensures Conserved(f, t, After(f, n), u)
  {
    hide *;
    TakeNOk(f, n);
    Sum(Spare(After(f, n)), Members(TakeN(f, n)), Spare(f), Upto(After(f, n).total) - Upto(f.total), Pages(t));
    ConservedIs(f, t, After(f, n), u);
  }

  lemma Sum(g: set<nat>, a: set<nat>, f: set<nat>, e: set<nat>, t: set<nat>)
    requires g + a == f + e
    ensures (t + a) + g == t + f + e
  {
  }

  lemma ConservedIs(f: FreeState, t: Tree, g: FreeState, u: Tree)
    requires f.total <= g.total && Pages(u) + Spare(g) == Pages(t) + Spare(f) + (Upto(g.total) - Upto(f.total))
    ensures Conserved(f, t, g, u)
  {
  }

  lemma InsertShape(t: Tree, h: nat, k: int, v: Record, m: nat, a: seq<nat>)
    requires 2 <= m && Shape(t, h) && h + 1 < |a|
    requires Wf(InsRoot(t, h, k, v, m, a), InsHeight(t, h, k, v, m, a), 0, m, true)
    requires InsRoot(t, h, k, v, m, a).Inner? ==> 2 <= |InsRoot(t, h, k, v, m, a).kids|
    ensures Shape(InsRoot(t, h, k, v, m, a), InsHeight(t, h, k, v, m, a))
  {
    hide *;
    WfShape(InsRoot(t, h, k, v, m, a), InsHeight(t, h, k, v, m, a), 0, m, true);
  }

  lemma {:induction false} UsedBound(t: Tree, h: nat, k: int, v: Record, m: nat, a: seq<nat>)
    requires Shape(t, h) && h < |a|
    ensures Proof.Used(Ins(t, h, k, v, m, a), h) <= h + 1
    decreases t
  {
    if t.Inner? {
      UsedBound(t.kids[ChildIndex(t.kids, k)], h - 1, k, v, m, a);
    }
  }

  lemma UsedRootBound(t: Tree, h: nat, k: int, v: Record, m: nat, a: seq<nat>)
    requires Shape(t, h) && h + 1 < |a|
    ensures Proof.UsedRoot(Ins(t, h, k, v, m, a), h) <= h + 2
  {
    UsedBound(t, h, k, v, m, a);
  }

  /** The pages an insert may write are those of the tree and pages that were free or past the end of the file. */
  lemma UntouchedOthers(P: Store, f: FreeState, t: Tree, h: nat, k: int, v: Record, m: nat, Q: Store)
    requires FreeOk(f) && Untouched(InsertWorld(P, f, t, h, k, v, m), Q)
    ensures OthersSame(P, Q, f, t)
  {
    TakeNOk(f, h + 2);
  }

  /** Everything an insert of an absent key leaves behind. */
  ghost predicate AfterInsert(w: World, f: FreeState, Q: Store, g: FreeState) {
    && Shape(w.t, w.h) && |w.alloc| == w.h + 2
    && var u := InsRoot(w.t, w.h, w.k, w.v, w.m, w.alloc);
       && KeptBut(Q, g, u, InsHeight(w.t, w.h, w.k, w.v, w.m, w.alloc), w.m, Over(w))
       && g == After(f, Proof.UsedRoot(Ins(w.t, w.h, w.k, w.v, w.m, w.alloc), w.h))
       && Conserved(f, w.t, g, u) && OthersSame(w.P0, Q, f, w.t)
  }

  lemma AfterInsertHolds(w: World, f: FreeState, Q: Store)
    requires Kept(w.P0, f, w.t, w.h, w.m) && !Has(Entries(w.t), w.k) && w.alloc == TakeN(f, w.h + 2)
    requires LayBut(Q, InsRoot(w.t, w.h, w.k, w.v, w.m, w.alloc), Over(w)) && Linked(Q, [InsRoot(w.t, w.h, w.k, w.v, w.m, w.alloc)])
    requires Untouched(w, Q)
    ensures AfterInsert(w, f, Q, After(f, Proof.UsedRoot(Ins(w.t, w.h, w.k, w.v, w.m, w.alloc), w.h)))
  {
    hide LayBut, Linked, Has, InsRoot, Ins, Conserved, OthersSame, Untouched, InsHeight, WfRoot, Inside, FreeOk;
    InsertKept(w.P0, f, w.t, w.h, w.k, w.v, w.m, Q);
    assert w == InsertWorld(w.P0, f, w.t, w.h, w.k, w.v, w.m);
    UntouchedOthers(w.P0, f, w.t, w.h, w.k, w.v, w.m, Q);
  }

  /** The leaf had room, so the insert is over. */
  lemma LeafDone(w: World, f: FreeState, Q: Store, o: Tree)
    requires WorldOk(w) && Kept(w.P0, f, w.t, w.h, w.m) && w.alloc == TakeN(f, w.h + 2)
    requires Stage(w, Q, w.h, [o]) && SubGrown(w, w.h) == One(o, 0)
    ensures AfterInsert(w, f, Q, f)
  {
    hide LayBut, InsRoot, Kept, AfterInsert, SubGrown;
    InsertOver(w, Q, w.h, o);
    AfterInsertHolds(w, f, Q);
    assert After(f, 0) == f;
  }

  /** The insert is over when the node at depth d was not split. */
  lemma InsertOver(w: World, Q: Store, d: nat, o: Tree)
    requires WorldOk(w) && d <= w.h && Stage(w, Q, d, [o]) && SubGrown(w, d).One? && SubGrown(w, d).t == o
    ensures LayBut(Q, InsRoot(w.t, w.h, w.k, w.v, w.m, w.alloc), Over(w)) && Linked(Q, [InsRoot(w.t, w.h, w.k, w.v, w.m, w.alloc)])
    ensures Proof.UsedRoot(Ins(w.t, w.h, w.k, w.v, w.m, w.alloc), w.h) == SubGrown(w, d).used
  {
    hide LayBut, Linked, Ins, WfRoot, CanInsert, AgreeOn, Untouched;
    FinalLay(w, Q, 0, d, o);
  }

  lemma KeptStored(P: Store, f: FreeState, t: Tree, h: nat, m: nat)
    requires Kept(P, f, t, h, m)
    ensures Stored(P, t, h, m)
  {
  }

  lemma AfterInsertStored(w: World, f: FreeState, Q: Store, g: FreeState)
    requires AfterInsert(w, f, Q, g)
    ensures Shape(w.t, w.h) && |w.alloc| == w.h + 2
    ensures StoredBut(Q, InsRoot(w.t, w.h, w.k, w.v, w.m, w.alloc), InsHeight(w.t, w.h, w.k, w.v, w.m, w.alloc), w.m, Over(w))
    ensures InsRoot(w.t, w.h, w.k, w.v, w.m, w.alloc).pg == w.t.pg
  {
  }

  /** The leaves of a tree that is kept form one chain, which holds its entries in order. */
  lemma HoldsChain(P: Store, f: FreeState, t: Tree, h: nat, m: nat)
    requires Kept(P, f, t, h, m)
    ensures Stored(P, t, h, m) && Sorted(Entries(t))
    ensures var ps := Level(t, h);
            ps != [] && LeafChain(P, ps) && AllIn(P, ps) && CellsOn(P, ps) == Entries(t)
            && (Entries(t) == [] <==> P[ps[0]].cells == [])
  {
    hide Lay, Linked, LeafChain, CellsOn;
    if 0 in Pages(t) { assert false; }
    LeavesChained(P, t, h, m);
    Leaves(P, t, h, m);
    FirstLeaf(P, Level(t, h));
  }

  // ---------------------------------------------------------------- freeing a whole tree

  lemma PagesStart(ts: seq<Tree>)
    ensures PagesF(ts[..0]) == {}
  {
    assert ts[..0] == [];
  }

  /** Child i of t can be freed once the children before it have been. */
  lemma FreeKid(t: Tree, i: nat, f: FreeState, g: FreeState)
    requires t.Inner? && i < |t.kids| && Distinct(t) && Pages(t) !! Spare(f) && Inside(t, f) && g.total == f.total
    requires Spare(g) == Spare(f) + PagesF(t.kids[..i])
    ensures Distinct(t.kids[i]) && Pages(t.kids[i]) !! Spare(g) && Inside(t.kids[i], g) && 0 !in Pages(t.kids[i])
    ensures PagesF(t.kids[..i + 1]) == PagesF(t.kids[..i]) + Pages(t.kids[i])
    ensures t.kids[i].pg != 0
  {
    hide Spare, Pages, PagesF;
    AtChild(t.kids, i);
    KidPages(t.kids, i);
    assert PagesF(t.kids) <= Pages(t) by { PagesBelow(t); }
    assert t.kids[..i + 1] == t.kids[..i] + [t.kids[i]];
    PagesAppend(t.kids[..i], [t.kids[i]]);
    EntriesOne(t.kids[i]);
    RootPage(t.kids[i]);
    assert Inside(t.kids[i], g);
  }

  lemma PagesBelow(t: Tree)
    requires t.Inner?
    ensures PagesF(t.kids) <= Pages(t)
  {
  }

  lemma FreeRoot(t: Tree, f: FreeState, g: FreeState)
    requires Distinct(t) && Pages(t) !! Spare(f) && Inside(t, f) && g.total == f.total
    requires Spare(g) == Spare(f) + (if t.Inner? then PagesF(t.kids) else {})
    ensures t.pg !in Spare(g) && 0 < t.pg < g.total && Spare(g) + {t.pg} == Spare(f) + Pages(t)
  {
    hide Spare;
    assert t.pg in Pages(t);
  }
}
