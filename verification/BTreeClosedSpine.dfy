/**
 Why an insert has to stay below the maximum key or find the right spine open: a left merge closes the spine, and a
 new maximum then leaves the separators of the closed nodes behind, from where later inserts lose keys.
 */
module BTreeClosedSpine {
  import opened Values
  import opened Cells
  import opened BTreeSpec
  import opened BTreeLayout
  import opened BTreeLinks
  import opened BTreeSearch
  import opened BTreeInsertSteps
  import opened BTreeKept
  import opened FreeList
  import Proof = BTreeInsertProof
  import Removing = BTreeRemoveProof

  // ---------------------------------------------------------------- the spine stays closed

  function LastOfForest(g: Grown): Tree {
    match g
    case One(t, _) => t
    case Two(_, r) => r
  }

  lemma SplitStaysClosed(o: Tree, m: nat, newPg: nat, used: nat)
    requires 0 <= Count(o) && o.Inner? && 2 <= m && 2 * m <= |o.kids| + 1
    requires !o.open || !SpineOpen(o.kids[|o.kids| - 1])
    ensures !SpineOpen(LastOfForest(SplitFull(o, m, newPg, used)))
  {
    if Count(o) >= 2 * m {
      var r := RightHalf(o, newPg);
      assert r.kids[|r.kids| - 1] == o.kids[|o.kids| - 1];
    }
  }

  /** A new maximum below a closed spine leaves it closed. */
  lemma {:induction false} StaysClosed(t: Tree, h: nat, k: int, v: Record, m: nat, alloc: seq<nat>, lo: int, right: bool)
    requires 2 <= m && Shape(t, h) && Wf(t, h, lo, m, right) && Sorted(Entries(t)) && h < |alloc|
    requires !SpineOpen(t) && Max(t) < k
    ensures !SpineOpen(LastOfForest(Ins(t, h, k, v, m, alloc)))
    decreases t
  {
    KidsNonEmpty(t.kids, h - 1, m, right);
    AboveMax(t, k);
    var n := |t.kids| - 1;
    var g := Ins(t.kids[n], h - 1, k, v, m, alloc);
    if t.open {
      StaysClosed(t.kids[n], h - 1, k, v, m, alloc, m, right && n == |t.kids| - 1);
    }
    if g.Two? {
      var o := Inner(t.pg, t.kids[..n] + [g.l, g.r] + t.kids[n + 1..], t.open);
      assert o.kids[|o.kids| - 1] == g.r;
      if Count(o) >= 2 * m { SplitStaysClosed(o, m, alloc[h], h); }
    }
  }

  lemma RootStaysClosed(t: Tree, h: nat, k: int, v: Record, m: nat, alloc: seq<nat>)
    requires 2 <= m && Shape(t, h) && WfRoot(t, h, m) && h + 1 < |alloc| && !SpineOpen(t) && Max(t) < k
    ensures !SpineOpen(InsRoot(t, h, k, v, m, alloc))
  {
    StaysClosed(t, h, k, v, m, alloc, 0, true);
  }

  // ---------------------------------------------------------------- a closed node that overlooks a key is not exact

  /** The separator of the last child of a closed spine node is not its maximum. */
  lemma {:induction false} StaleNode(Q: Store, u: Tree, h: nat, k: int, m: nat, lo: int, right: bool)
    requires 2 <= m && Wf(u, h, lo, m, right) && Sorted(Entries(u)) && !SpineOpen(u) && Max(u) == k
    requires LayBut(Q, u, Some(k))
    ensures !Lay(Q, u)
    decreases u
  {
    hide Sorted;
    KidsNonEmpty(u.kids, h - 1, m, right);
    var n := |u.kids| - 1;
    AtChild(u.kids, n);
    assert u.kids[n + 1..] == [];
    SortedParts(EntriesF(u.kids[..n]), Entries(u.kids[n]), []);
    assert EntriesF(u.kids[..n]) + Entries(u.kids[n]) + [] == Entries(u);
    if u.open {
      StaleNode(Q, u.kids[n], h - 1, k, m, m, right && n == |u.kids| - 1);
    } else {
      WfSeveral(u.kids[n], h - 1, m, m, right && n == |u.kids| - 1);
      var e := Entries(u.kids[n]);
      assert e[|e| - 2].key < e[|e| - 1].key;
      assert Q[u.pg].cells[n].key == Sep(u.kids[n], Some(k));
    }
  }

  /** The pages below a root determine the tree. */
  lemma {:induction false} OneTree(P: Store, t: Tree, u: Tree, over: Option<int>)
    requires LayBut(P, t, over) && Lay(P, u) && t.pg == u.pg
    ensures t == u
    decreases t
  {
    if t.Inner? {
      forall i | 0 <= i < |t.kids| ensures t.kids[i] == u.kids[i] {
        assert t.kids[i].pg == Roots(t.kids)[i] == P[t.pg].kids[i] == Roots(u.kids)[i] == u.kids[i].pg;
        OneTree(P, t.kids[i], u.kids[i], over);
      }
    }
  }

  /** A well-formed tree with exact separators is stored at the root page. */
  ghost predicate WellStored(Q: Store, g: FreeState, root: nat, m: nat) {
    exists u: Tree, h: nat :: u.pg == root && Kept(Q, g, u, h, m)
  }

  /**
   For every insert of a new key into a well-formed tree: a well-formed tree is stored at its root afterwards if and
   only if the key is below the maximum or every node of the right spine is open.
   */
  lemma InsertExactIff(w: World, f: FreeState, Q: Store, g: FreeState)
    requires Kept(w.P0, f, w.t, w.h, w.m) && !Has(Entries(w.t), w.k) && AfterInsert(w, f, Q, g)
    ensures WellStored(Q, g, w.t.pg, w.m) <==> CanInsert(w.t, w.k)
  {
    hide Lay, LayBut, Linked, FreeOk, Wf, CanInsert, Conserved, OthersSame, InsRoot, InsHeight;
    var u := InsRoot(w.t, w.h, w.k, w.v, w.m, w.alloc);
    var h := InsHeight(w.t, w.h, w.k, w.v, w.m, w.alloc);
    AfterInsertStored(w, f, Q, g);
    KeptNone(Q, g, u, h, w.m);
    if !CanInsert(w.t, w.k) {
      ClosedAfter(w.t, w.h, w.k, w.v, w.m, w.alloc);
      StaleNode(Q, u, h, w.k, w.m, 0, true);
      forall x: Tree, hx: nat | x.pg == w.t.pg ensures !Kept(Q, g, x, hx, w.m) {
        if Kept(Q, g, x, hx, w.m) { OneTree(Q, u, x, Some(w.k)); }
      }
    }
  }

  lemma ClosedAfter(t: Tree, h: nat, k: int, v: Record, m: nat, alloc: seq<nat>)
    requires 2 <= m && Shape(t, h) && WfRoot(t, h, m) && h + 1 < |alloc| && !Has(Entries(t), k) && !CanInsert(t, k)
    ensures !SpineOpen(InsRoot(t, h, k, v, m, alloc))
  {
    NotMax(t, h, k, m);
    RootStaysClosed(t, h, k, v, m, alloc);
  }

  // ---------------------------------------------------------------- such a tree does arise

  function Plain(pg: nat, a: int, b: int): Tree { Leaf(pg, [Cell(a, []), Cell(b, [])]) }

  function Before(): Tree { Inner(1, [Plain(2, 1, 2), Plain(3, 3, 4), Plain(4, 5, 6)], true) }

  lemma Three(a: Tree, b: Tree, c: Tree)
    ensures EntriesF([a, b, c]) == Entries(a) + Entries(b) + Entries(c)
    ensures PagesF([a, b, c]) == Pages(a) + Pages(b) + Pages(c)
    ensures DistinctF([a, b, c]) <==>
            Distinct(a) && Distinct(b) && Distinct(c) && Pages(a) !! Pages(b) && Pages(a) !! Pages(c) && Pages(b) !! Pages(c)
  {
    assert [a, b, c] == [a] + [b] + [c];
    EntriesOne(a);
    EntriesOne(b);
    EntriesOne(c);
    Entries3([a], [b], [c]);
    Pages3([a], [b], [c]);
    Distinct3([a], [b], [c]);
  }

  lemma BeforeWf()
    ensures Shape(Before(), 1) && WfRoot(Before(), 1, 2) && SpineOpen(Before())
    ensures Entries(Before()) == [Cell(1, []), Cell(2, []), Cell(3, []), Cell(4, []), Cell(5, []), Cell(6, [])]
  {
    hide EntriesF, PagesF, DistinctF;
    var t := Before();
    Three(t.kids[0], t.kids[1], t.kids[2]);
    assert t.kids == [t.kids[0], t.kids[1], t.kids[2]];
  }

  /** What the removal of 6 leaves: the left merge has closed the root. */
  function Merged(): Tree { Inner(1, [Plain(2, 1, 2), Leaf(3, [Cell(3, []), Cell(4, []), Cell(5, [])])], false) }

  lemma MergeCloses()
    ensures Shape(Before(), 1) && RemRoot(Before(), 1, 6, 2) == Merged() && !SpineOpen(Merged())
  {
    hide EntriesF, PagesF, DistinctF, Wf, SpineOpen;
    var t := Before();
    var a, b, c := t.kids[0], t.kids[1], t.kids[2];
    assert ChildIndex(t.kids, 6) == 2 by {
      assert t.kids[1..] == [b, c] && [b, c][1..] == [c];
    }
    RankIs(c.cells, 6, 1);
    var d := Rem(c, 0, 6, 2);
    assert d == Leaf(4, [Cell(5, [])]);
    assert t.kids[2 := d] == [a, b, d];
    assert RepairOf([a, b, d], 2, 2) == MergeLeft;
    assert MergeTrees(b, d) == Leaf(3, [Cell(3, []), Cell(4, []), Cell(5, [])]);
    assert [a, b, d][..1] + [MergeTrees(b, d)] + [a, b, d][3..] == [a, MergeTrees(b, d)];
    assert Fix(1, [a, b, d], true, 2, 2) == Inner(1, [a, MergeTrees(b, d)], false);
    NotOpen(Merged());
  }

  lemma NotOpen(t: Tree)
    requires t.Inner? && !t.open
    ensures !SpineOpen(t)
  {
  }

  /** Removing 6 and inserting 7 leaves no well-formed tree behind. */
  lemma FailingInsert(w: World, f: FreeState, Q: Store, g: FreeState)
    requires w.t == Merged() && w.h == 1 && w.k == 7 && w.m == 2
    requires Kept(w.P0, f, w.t, w.h, w.m) && AfterInsert(w, f, Q, g)
    ensures !WellStored(Q, g, 1, 2)
  {
    hide Kept, AfterInsert, WellStored;
    MergedEntries();
    MergeCloses();
    InsertExactIff(w, f, Q, g);
  }

  lemma MergedEntries()
    ensures Entries(Merged()) == [Cell(1, []), Cell(2, []), Cell(3, []), Cell(4, []), Cell(5, [])]
    ensures !Has(Entries(Merged()), 7) && Max(Merged()) == 5
  {
    var t := Merged();
    assert t.kids == [t.kids[0]] + [t.kids[1]];
    EntriesAppend([t.kids[0]], [t.kids[1]]);
    EntriesOne(t.kids[0]);
    EntriesOne(t.kids[1]);
  }

  // ---------------------------------------------------------------- and keys are lost

  /** The tree after 7 went in: the leaf was split, and its new half x is overlooked by the root. */
  function Seven(x: nat): Tree { Inner(1, [Plain(2, 1, 2), Plain(3, 3, 4), Plain(x, 5, 7)], false) }

  lemma SevenGoesIn(alloc: seq<nat>)
    requires 3 <= |alloc|
    ensures Shape(Merged(), 1) && InsRoot(Merged(), 1, 7, [], 2, alloc) == Seven(alloc[0])
  {
    var t := Merged();
    var a, b := t.kids[0], t.kids[1];
    assert ChildIndex(t.kids, 7) == 1 by { assert t.kids[1..] == [b]; }
    RankIs(b.cells, 7, 3);
    var four := InsertCell(b.cells, 7, []);
    assert four == [Cell(3, []), Cell(4, []), Cell(5, []), Cell(7, [])];
    assert four[..2] == [Cell(3, []), Cell(4, [])] && four[2..] == [Cell(5, []), Cell(7, [])];
    var g := Ins(b, 0, 7, [], 2, alloc);
    assert g == Two(Plain(3, 3, 4), Plain(alloc[0], 5, 7));
    assert t.kids[..1] + [g.l, g.r] + t.kids[2..] == [a, g.l, g.r];
  }

  /** What the pages of that tree say. */
  ghost predicate SevenPages(P: Store, x: nat) {
    && 1 in P && x in P && x != 1
    && !P[1].isLeaf && P[1].kids == [2, 3, x] && P[1].right == 0
    && |P[1].cells| == 3 && P[1].cells[0].key == 2 && P[1].cells[1].key == 4 && P[1].cells[2].key == 5
    && P[x].isLeaf && P[x].kids == [] && P[x].right == 0 && P[x].cells == [Cell(5, []), Cell(7, [])]
  }

  lemma SevenLaid(P: Store, x: nat)
    requires LayBut(P, Seven(x), Some(7)) && Linked(P, [Seven(x)]) && x != 1
    ensures SevenPages(P, x)
  {
    var t := Seven(x);
    assert LayBut(P, t.kids[2], Some(7));
    assert P[1].cells[0].key == Sep(t.kids[0], Some(7)) == 2;
    assert P[1].cells[1].key == Sep(t.kids[1], Some(7)) == 4;
    assert P[1].cells[2].key == Sep(t.kids[2], Some(7)) == 5;
    assert Roots(t.kids) == [2, 3, x];
    LevelOne(t, 0);
    LevelOne(t, 1);
    assert Level(t, 0) == [1];
    Three1(t.kids[0], t.kids[1], t.kids[2]);
    assert Chain(P, LevelF([t], 0)) && Chain(P, LevelF([t], 1));
    assert LinkedAt(P, [1], 0) && LinkedAt(P, [2, 3, x], 2);
  }

  lemma Three1(a: Tree, b: Tree, c: Tree)
    ensures LevelF([a, b, c], 0) == [a.pg, b.pg, c.pg]
  {
    assert [a, b, c] == [a] + [b] + [c];
    LevelOne(a, 0);
    LevelOne(b, 0);
    LevelOne(c, 0);
    Level3([a], [b], [c], 0);
  }

  /** The leaf a search for k reaches d levels below page pg. */
  function Reached(P: Store, pg: nat, k: int, d: nat): Option<nat>
    decreases d
  {
    if pg !in P then None
    else if P[pg].isLeaf || d == 0 then Some(pg)
    else if P[pg].kids == [] then None
    else match Search(P[pg].cells, k)
         case Equal(i) => if i < |P[pg].kids| then Reached(P, P[pg].kids[i], k, d - 1) else None
         case LessThan(i) => if i < |P[pg].kids| then Reached(P, P[pg].kids[i], k, d - 1) else None
         case Right => Reached(P, P[pg].kids[|P[pg].kids| - 1], k, d - 1)
  }

  /** It is the leaf the cursor goes to. */
  lemma {:induction false} ReachedIsPath(P: Store, t: Tree, h: nat, k: int, c: nat)
    requires Descent(P, t, h, k) && c <= h
    ensures Deep(t, k, c) && Deep(t, k, h) && Reached(P, SubAt(t, k, c).pg, k, h - c) == Some(SubAt(t, k, h).pg)
    decreases h - c
  {
    assert OnPath(P, t, h, k, c);
    if c < h { ReachedIsPath(P, t, h, k, c + 1); }
  }

  /** The writes of inserting 8 and then 9: the leaf takes both, is split off to y, and the full root to z and top. */
  function EightAndNine(P: Store, x: nat, y: nat, z: nat, top: nat): Store
    requires SevenPages(P, x) && y != 1 && y != x && z != 1 && z != x && z != y
  {
    var P1 := P[x := P[x].(cells := [Cell(5, []), Cell(7, []), Cell(8, []), Cell(9, [])])];
    var P2 := SplitStore(P1, x, y);
    var P3 := P2[1 := InsertedInternal(P2[1], 7, x, y)];
    KeepRootStore(SplitStore(P3, 1, z), 1, z, top, 4)
  }

  /** The two inserts of the leaf are those of the cursor. */
  lemma LeafTakesBoth(P: Store, x: nat)
    requires SevenPages(P, x)
    ensures LeafStore(LeafStore(P, x, 8, []), x, 9, []) == P[x := P[x].(cells := [Cell(5, []), Cell(7, []), Cell(8, []), Cell(9, [])])]
    ensures Search(P[1].cells, 8) == Right && Search(P[1].cells, 9) == Right
  {
    var c := P[x].cells;
    RankIs(c, 8, 2);
    assert InsertCell(c, 8, []) == [Cell(5, []), Cell(7, []), Cell(8, [])];
    RankIs(InsertCell(c, 8, []), 9, 3);
    assert InsertCell(InsertCell(c, 8, []), 9, []) == [Cell(5, []), Cell(7, []), Cell(8, []), Cell(9, [])];
    RankIs(P[1].cells, 8, 3);
    RankIs(P[1].cells, 9, 3);
  }

  /** Afterwards a search for 7 ends at a leaf without it, although another leaf holds it. */
  lemma KeyLost(P: Store, x: nat, y: nat, z: nat, top: nat)
    requires SevenPages(P, x) && x != y && x != z && x != top && y != z && y != top && z != top
    requires y != 1 && z != 1 && top != 1
    ensures var Q := EightAndNine(P, x, y, z, top);
            && Reached(Q, 1, 7, 2) == Some(y) && Q[y].cells == [Cell(8, []), Cell(9, [])]
            && x in Q && Q[x].cells == [Cell(5, []), Cell(7, [])]
  {
    var n := P[1];
    RankIs(n.cells, 7, 3);
    var n' := InsertedInternal(n, 7, x, y);
    assert n'.kids == [2, 3, x, y];
    var Q := EightAndNine(P, x, y, z, top);
    assert Q[1].cells == [Cell(4, [])] && Q[1].kids == [top, z];
    RankIs(Q[1].cells, 7, 1);
    assert Q[z].kids == [x, y] && |Q[z].cells| == 2 && Q[z].cells[0].key == 5 && Q[z].cells[1].key == 7;
    RankIs(Q[z].cells, 7, 1);
  }
}
