/** Borrowing and merging on pages: what a parent does for a child that is one cell short. */
module BTreeRepair {
  import opened Values
  import opened Cells
  import opened BTreeSpec
  import opened BTreeLayout
  import opened BTreeLinks
  import Remove = BTreeRemoveProof

  // ---------------------------------------------------------------- what the node operations do to the pages

  /** The search for k in the inner node n leads to child i; past the last separator only when the last child has none. */
  ghost predicate FindsChild(n: Node, k: int, i: nat) {
    && Sorted(n.cells) && n.cells != [] && |n.cells| <= |n.kids| <= |n.cells| + 1 && 2 <= |n.kids| && i < |n.kids|
    && match Search(n.cells, k)
       case Equal(x) => x == i
       case LessThan(x) => x == i
       case Right => i == |n.cells| == |n.kids| - 1
  }

  function Reseparated(n: Node, s: nat, key: int): Node
    requires s < |n.cells|
  {
    n.(cells := n.cells[s := n.cells[s].(key := key)])
  }

  /** x has a cell to spare, and children if y has. */
  predicate CanGive(x: Node, y: Node) {
    2 <= |x.cells| && (y.isLeaf || x.kids != [])
  }

  function GaveLast(x: Node, y: Node): Node
    requires CanGive(x, y)
  {
    x.(cells := x.cells[..|x.cells| - 1], kids := if y.isLeaf then x.kids else x.kids[..|x.kids| - 1])
  }

  function TookFirst(x: Node, y: Node): Node
    requires CanGive(x, y)
  {
    y.(cells := [x.cells[|x.cells| - 1]] + y.cells, kids := if y.isLeaf then y.kids else [x.kids[|x.kids| - 1]] + y.kids)
  }

  /** Child i of page pn takes the last cell of its left sibling. */
  function BorrowLeftStore(P: Store, pn: nat, px: nat, py: nat, i: nat): Store
    requires pn in P && px in P && py in P && 0 < i <= |P[pn].cells| && CanGive(P[px], P[py])
  {
    var x := P[px];
    P[pn := Reseparated(P[pn], i - 1, x.cells[|x.cells| - 2].key)][py := TookFirst(x, P[py])][px := GaveLast(x, P[py])]
  }

  function GaveFirst(x: Node, y: Node): Node
    requires CanGive(y, x)
  {
    y.(cells := y.cells[1..], kids := if x.isLeaf then y.kids else y.kids[1..])
  }

  function TookLast(x: Node, y: Node): Node
    requires CanGive(y, x)
  {
    x.(cells := x.cells + [y.cells[0]], kids := if x.isLeaf then x.kids else x.kids + [y.kids[0]])
  }

  /** Child i of page pn takes the first cell of its right sibling. */
  function BorrowRightStore(P: Store, pn: nat, px: nat, py: nat, i: nat): Store
    requires pn in P && px in P && py in P && i < |P[pn].cells| && CanGive(P[py], P[px])
  {
    var y := P[py];
    P[pn := Reseparated(P[pn], i, y.cells[0].key)][px := TookLast(P[px], y)][py := GaveFirst(P[px], y)]
  }

  /** The parent after its last child i has been merged into the one before it. */
  function MergedLast(n: Node, i: nat, key: int): Node
    requires 0 < i == |n.kids| - 1 && i <= |n.cells|
  {
    Reseparated(n.(cells := n.cells[..i], kids := n.kids[..i]), i - 1, key)
  }

  /** The parent after child i + 1 has been merged into child i. */
  function MergedNext(n: Node, i: nat, key: int): Node
    requires i < |n.cells| && i + 1 < |n.kids|
  {
    var cells := n.cells[..i] + n.cells[i + 1..];
    var kids := n.kids[..i + 1] + n.kids[i + 2..];
    if cells == [] then n.(cells := [Cell(key, [])], kids := kids)
    else if i < |cells| then Reseparated(n.(cells := cells, kids := kids), i, key)
    else n.(cells := cells, kids := kids)
  }

  function MergedNode(x: Node, y: Node): Node {
    x.(cells := x.cells + y.cells, kids := x.kids + y.kids, right := y.right)
  }

  /** Page py has been merged into its left neighbour px, and the parent page pn now holds n. */
  function MergeStore(P: Store, pn: nat, n: Node, px: nat, py: nat): Store
    requires px in P && py in P && (P[py].right != 0 ==> P[py].right in P)
  {
    var x, y := P[px], P[py];
    var P' := if y.right != 0 then P[y.right := P[y.right].(left := px)] else P;
    P'[py := Node(y.isLeaf, 0, 0, [], [])][pn := n][px := MergedNode(x, y)]
  }

  // ---------------------------------------------------------------- the nodes hold the mended trees

  lemma RootsCut(ts: seq<Tree>, n: nat)
    requires n <= |ts|
    ensures Roots(ts[..n]) == Roots(ts)[..n] && Roots(ts[n..]) == Roots(ts)[n..]
  {
  }

  lemma RootsAppend(a: seq<Tree>, b: seq<Tree>)
    ensures Roots(a + b) == Roots(a) + Roots(b)
  {
  }

  lemma RootsOne(t: Tree)
    ensures Roots([t]) == [t.pg]
  {
  }

  lemma ShiftRightNodes(x: Node, y: Node, a: Tree, b: Tree)
    requires SameKind(a, b) && NodeOf(x, a) && NodeOf(y, b) && 2 <= Count(a)
    ensures CanGive(x, y)
    ensures NodeOf(GaveLast(x, y), ShiftRight(a, b).0) && NodeOf(TookFirst(x, y), ShiftRight(a, b).1)
  {
    hide Roots;
    if a.Inner? {
      var n := |a.kids| - 1;
      RootsCut(a.kids, n);
      RootsAppend([a.kids[n]], b.kids);
      RootsOne(a.kids[n]);
    }
  }

  lemma ShiftLeftNodes(x: Node, y: Node, a: Tree, b: Tree)
    requires SameKind(a, b) && NodeOf(x, a) && NodeOf(y, b) && 2 <= Count(b)
    ensures CanGive(y, x)
    ensures NodeOf(TookLast(x, y), ShiftLeft(a, b).0) && NodeOf(GaveFirst(x, y), ShiftLeft(a, b).1)
  {
    hide Roots;
    if a.Inner? {
      RootsCut(b.kids, 1);
      RootsAppend(a.kids, [b.kids[0]]);
      RootsOne(b.kids[0]);
    }
  }

  predicate Closed(t: Tree) { t.Inner? ==> !t.open }

  lemma MergeNodes(x: Node, y: Node, a: Tree, b: Tree)
    requires SameKind(a, b) && NodeOf(x, a) && NodeOf(y, b) && Closed(a)
    ensures NodeOf(MergedNode(x, y), MergeTrees(a, b))
  {
    if a.Inner? {
      assert Roots(a.kids + b.kids) == Roots(a.kids) + Roots(b.kids);
    }
  }

  ghost predicate KidsSkel(P: Store, t: Tree) { t.Inner? ==> SkelF(P, t.kids) }

  /** The children of the mended trees are those of the neighbours. */
  lemma MendedKids(P: Store, r: Repair, a: Tree, b: Tree, z: nat)
    requires SameKind(a, b) && KidsSkel(P, a) && KidsSkel(P, b) && z < |Mended(r, a, b)|
    ensures KidsSkel(P, Mended(r, a, b)[z])
  {
    hide Skel;
  }

  // ---------------------------------------------------------------- the parent's own node

  lemma FixRoots(pg: nat, kids: seq<Tree>, open: bool, i: nat, m: nat)
    requires i < |kids| && 2 <= |kids|
    requires OneKind(kids)
    ensures var r := RepairOf(kids, i, m); var j := Pivot(r, i); var u := Fix(pg, kids, open, i, m);
            Roots(u.kids) == if r.BorrowLeft? || r.BorrowRight? then Roots(kids) else Roots(kids)[..j + 1] + Roots(kids)[j + 2..]
  {
    hide Mended, MergeTrees, ShiftRight, ShiftLeft, RepairOf, OpenAfter, SameKind;
    var r := RepairOf(kids, i, m);
    RepairInside(kids, i, m);
    var j := Pivot(r, i);
    var mid := Mended(r, kids[j], kids[j + 1]);
    MendedRoots(r, kids[j], kids[j + 1]);
    RootsAppend(kids[..j], mid);
    RootsAppend(kids[..j] + mid, kids[j + 2..]);
    assert Roots(kids[..j]) == Roots(kids)[..j] && Roots(kids[j + 2..]) == Roots(kids)[j + 2..];
  }

  lemma RepairInside(kids: seq<Tree>, i: nat, m: nat)
    requires i < |kids| && 2 <= |kids|
    ensures 0 <= Pivot(RepairOf(kids, i, m), i) < |kids| - 1
  {
  }

  lemma MendedRoots(r: Repair, a: Tree, b: Tree)
    requires SameKind(a, b)
    ensures Roots(Mended(r, a, b)) == if r.BorrowLeft? || r.BorrowRight? then [a.pg, b.pg] else [a.pg]
  {
  }

  lemma FixNodeBorrow(n: Node, o: Tree, i: nat, m: nat, s: nat, key: int)
    requires o.Inner? && i < |o.kids| && 2 <= |o.kids| && NodeOf(n, o) && s < |n.cells|
    requires OneKind(o.kids)
    requires RepairOf(o.kids, i, m).BorrowLeft? || RepairOf(o.kids, i, m).BorrowRight?
    ensures NodeOf(Reseparated(n, s, key), Fix(o.pg, o.kids, o.open, i, m))
  {
    FixRoots(o.pg, o.kids, o.open, i, m);
  }

  lemma FixNodeLast(n: Node, o: Tree, i: nat, m: nat, key: int)
    requires o.Inner? && i < |o.kids| && 2 <= |o.kids| && NodeOf(n, o)
    requires OneKind(o.kids)
    requires RepairOf(o.kids, i, m).MergeLeft?
    ensures 0 < i == |n.kids| - 1 && i <= |n.cells|
    ensures NodeOf(MergedLast(n, i, key), Fix(o.pg, o.kids, o.open, i, m))
  {
    FixRoots(o.pg, o.kids, o.open, i, m);
    assert Roots(o.kids)[..i] + Roots(o.kids)[i + 1..] == Roots(o.kids)[..i];
  }

  lemma FixNodeNext(n: Node, o: Tree, i: nat, m: nat, key: int)
    requires o.Inner? && i < |o.kids| && 2 <= |o.kids| && NodeOf(n, o)
    requires OneKind(o.kids)
    requires RepairOf(o.kids, i, m).MergeRight?
    ensures i < |n.cells| && i + 1 < |n.kids|
    ensures NodeOf(MergedNext(n, i, key), Fix(o.pg, o.kids, o.open, i, m))
  {
    FixRoots(o.pg, o.kids, o.open, i, m);
  }

  // ---------------------------------------------------------------- the pages hold the repaired parent

  /** The two neighbours of the repair and the children around them have pages of their own. */
  lemma NeighboursApart(o: Tree, j: nat)
    requires o.Inner? && Distinct(o) && j + 1 < |o.kids|
    ensures var a := o.kids[j]; var b := o.kids[j + 1];
            && Distinct(a) && Distinct(b) && Pages(a) !! Pages(b)
            && Pages(a) <= PagesF(o.kids) && Pages(b) <= PagesF(o.kids) && o.pg !in PagesF(o.kids)
            && a.pg in Pages(a) && b.pg in Pages(b)
            && PagesF(o.kids[..j]) <= PagesF(o.kids) - {a.pg, b.pg}
            && PagesF(o.kids[j + 2..]) <= PagesF(o.kids) - {a.pg, b.pg}
            && (a.Inner? ==> PagesF(a.kids) <= PagesF(o.kids) - {a.pg, b.pg})
            && (b.Inner? ==> PagesF(b.kids) <= PagesF(o.kids) - {a.pg, b.pg})
  {
    hide EntriesF, Entries;
    Remove.Split4(o.kids, j);
    Remove.Split4Distinct(o.kids, j);
  }

  ghost predicate Holds(Q: Store, t: Tree) { t.pg in Q && NodeOf(Q[t.pg], t) }

  ghost predicate HoldsAll(Q: Store, ts: seq<Tree>) { forall z :: 0 <= z < |ts| ==> Holds(Q, ts[z]) }

  /** The pages hold the repaired parent once its own node and those of the mended neighbours are in place. */
  lemma FixSkel(P: Store, Q: Store, o: Tree, i: nat, m: nat)
    requires o.Inner? && i < |o.kids| && 2 <= |o.kids| && OneKind(o.kids) && Skel(P, o) && Distinct(o)
    requires Holds(Q, Fix(o.pg, o.kids, o.open, i, m))
    requires var r := RepairOf(o.kids, i, m); var j := Pivot(r, i);
             && 0 <= j && j + 1 < |o.kids|
             && HoldsAll(Q, Mended(r, o.kids[j], o.kids[j + 1]))
             && AgreeOn(P, Q, PagesF(o.kids) - {o.kids[j].pg, o.kids[j + 1].pg})
    ensures Skel(Q, Fix(o.pg, o.kids, o.open, i, m))
  {
    hide Distinct, DistinctF, RepairOf, NodeOf, Mended, AgreeOn;
    var r := RepairOf(o.kids, i, m);
    var j := Pivot(r, i);
    var a, b := o.kids[j], o.kids[j + 1];
    var S := PagesF(o.kids) - {a.pg, b.pg};
    NeighboursApart(o, j);
    SkelAgree(P, Q, o.kids[..j], S);
    SkelAgree(P, Q, o.kids[j + 2..], S);
    assert Skel(P, a) && Skel(P, b);
    if a.Inner? { SkelAgree(P, Q, a.kids, S); }
    if b.Inner? { SkelAgree(P, Q, b.kids, S); }
    var mid := Mended(r, a, b);
    forall z | 0 <= z < |mid| ensures Skel(Q, mid[z]) {
      assert Holds(Q, mid[z]);
      MendedKids(Q, r, a, b, z);
    }
    assert SkelF(Q, o.kids[..j] + mid + o.kids[j + 2..]);
  }

  lemma SkelAgree(P: Store, Q: Store, ts: seq<Tree>, S: set<nat>)
    requires SkelF(P, ts) && AgreeOn(P, Q, S) && PagesF(ts) <= S
    ensures SkelF(Q, ts)
  {
    hide Skel;
    SkelFrameF(P, Q, ts);
  }

  // ---------------------------------------------------------------- levels

  lemma ShiftRightLevels(a: Tree, b: Tree, e: nat)
    requires SameKind(a, b)
    ensures LevelF(Mended(BorrowLeft, a, b), e) == LevelF([a, b], e)
  {
    hide LevelF;
    LevelPair(a, b, e);
    LevelPair(ShiftRight(a, b).0, ShiftRight(a, b).1, e);
    if a.Inner? && a.kids != [] && e > 0 {
      var n := |a.kids| - 1;
      assert a.kids == a.kids[..n] + [a.kids[n]];
      LevelAppend(a.kids[..n], [a.kids[n]], e - 1);
      LevelAppend([a.kids[n]], b.kids, e - 1);
    }
  }

  lemma ShiftLeftLevels(a: Tree, b: Tree, e: nat)
    requires SameKind(a, b)
    ensures LevelF(Mended(BorrowRight, a, b), e) == LevelF([a, b], e)
  {
    hide LevelF;
    LevelPair(a, b, e);
    LevelPair(ShiftLeft(a, b).0, ShiftLeft(a, b).1, e);
    if b.Inner? && b.kids != [] && e > 0 {
      assert b.kids == [b.kids[0]] + b.kids[1..];
      LevelAppend([b.kids[0]], b.kids[1..], e - 1);
      LevelAppend(a.kids, [b.kids[0]], e - 1);
    }
  }

  lemma MergeLevels(a: Tree, b: Tree, e: nat)
    requires SameKind(a, b)
    ensures LevelF([MergeTrees(a, b)], e) == if e == 0 then [a.pg] else LevelF([a, b], e)
  {
    hide LevelF;
    LevelPair(a, b, e);
    LevelOne(MergeTrees(a, b), e);
    if a.Inner? && e > 0 { LevelAppend(a.kids, b.kids, e - 1); }
  }

  /** The levels below two mended neighbours are those before, but that a merge drops the second root. */
  lemma MendedLevels(r: Repair, a: Tree, b: Tree, e: nat)
    requires SameKind(a, b)
    ensures LevelF(Mended(r, a, b), e) ==
            if e == 0 && (r.MergeLeft? || r.MergeRight?) then [a.pg] else LevelF([a, b], e)
  {
    hide LevelF;
    match r
    case BorrowLeft => ShiftRightLevels(a, b, e);
    case BorrowRight => ShiftLeftLevels(a, b, e);
    case _ => MergeLevels(a, b, e);
  }

  lemma LevelPair(a: Tree, b: Tree, e: nat)
    ensures LevelF([a, b], e) == Level(a, e) + Level(b, e)
  {
    assert [a, b] == [a] + [b];
    LevelAppend([a], [b], e);
    LevelOne(a, e);
    LevelOne(b, e);
  }

  /** The level below the repaired parent, around the neighbours. */
  lemma FixLevel(o: Tree, i: nat, m: nat, e: nat)
    requires o.Inner? && i < |o.kids| && 2 <= |o.kids| && OneKind(o.kids)
    ensures var r := RepairOf(o.kids, i, m); var j := Pivot(r, i); var u := Fix(o.pg, o.kids, o.open, i, m);
            && 0 <= j && j + 1 < |o.kids|
            && LevelF(o.kids, e) == LevelF(o.kids[..j], e) + LevelF([o.kids[j], o.kids[j + 1]], e) + LevelF(o.kids[j + 2..], e)
            && LevelF(u.kids, e) == LevelF(o.kids[..j], e)
                                    + (if e == 0 && (r.MergeLeft? || r.MergeRight?) then [o.kids[j].pg] else LevelF([o.kids[j], o.kids[j + 1]], e))
                                    + LevelF(o.kids[j + 2..], e)
  {
    hide RepairOf, Mended, LevelF, Level;
    RepairInside(o.kids, i, m);
    var r := RepairOf(o.kids, i, m);
    var j := Pivot(r, i);
    var a, b := o.kids[j], o.kids[j + 1];
    Remove.Cut4(o.kids, j);
    MendedLevels(r, a, b, e);
    Level3(o.kids[..j], [a, b], o.kids[j + 2..], e);
    Level3(o.kids[..j], Mended(r, a, b), o.kids[j + 2..], e);
  }

  // ---------------------------------------------------------------- one repair inside the whole tree

  /** o stands at depth e of t, laid out in P but for its separators, and its child i is to be repaired. */
  ghost predicate Site(P: Store, t: Tree, k: int, e: nat, o: Tree, i: nat) {
    && Stands(t, k, e, o) && Skel(P, o) && Linked(P, Graft(t, k, e, [o]))
    && o.pg == SubAt(t, k, e).pg
    && o.Inner? && 2 <= |o.kids| && OneKind(o.kids) && i < |o.kids|
  }

  /** What a repair of child i leaves: the mended parent in the pages, and everything else as it was. */
  ghost predicate Repaired(P: Store, Q: Store, t: Tree, k: int, e: nat, o: Tree, i: nat, m: nat)
    requires o.Inner? && 2 <= |o.kids| && i < |o.kids|
  {
    && Deep(t, k, e)
    && Skel(Q, Fix(o.pg, o.kids, o.open, i, m)) && Linked(Q, Graft(t, k, e, [Fix(o.pg, o.kids, o.open, i, m)]))
    && BodiesSame(P, Q, Pages(o)) && RestSame(P, Q, Pages(t) + Pages(o))
    && AboveAll(t, k, P, Q, e)
  }

  /** Outside S, only links may have changed. */
  ghost predicate BodiesSame(P: Store, Q: Store, S: set<nat>) {
    forall p :: p !in S ==> (p in P <==> p in Q) && (p in P ==> Body(Q[p]) == Body(P[p]))
  }

  ghost predicate RestSame(P: Store, Q: Store, S: set<nat>) {
    forall p :: p !in S ==> (p in P <==> p in Q) && (p in P ==> Q[p] == P[p])
  }

  /** Pages on the path above o are not among the pages of o. */
  lemma PathOutside(t: Tree, k: int, e: nat, o: Tree, c: nat)
    requires Stands(t, k, e, o) && c < e
    ensures Deep(t, k, c) && SubAt(t, k, c).pg !in Pages(o) && SubAt(t, k, c).pg in Pages(t)
  {
    hide Distinct;
    PathPages(t, k, c, e);
  }

  /** Every page of the path above is in the store. */
  ghost predicate PathIn(P: Store, t: Tree, k: int, e: nat) {
    forall c :: 0 <= c < e ==> Deep(t, k, c) && SubAt(t, k, c).pg in P
  }

  // ---------------------------------------------------------------- borrowing

  lemma BorrowLevels(o: Tree, i: nat, m: nat, x: nat)
    requires o.Inner? && i < |o.kids| && 2 <= |o.kids| && OneKind(o.kids)
    requires var r := RepairOf(o.kids, i, m); r.BorrowLeft? || r.BorrowRight?
    ensures LevelF([Fix(o.pg, o.kids, o.open, i, m)], x) == LevelF([o], x)
  {
    hide RepairOf, Mended, LevelF;
    var u := Fix(o.pg, o.kids, o.open, i, m);
    LevelOne(u, x);
    LevelOne(o, x);
    if x > 0 { FixLevel(o, i, m, x - 1); }
  }

  lemma BorrowLinked(P: Store, Q: Store, t: Tree, k: int, e: nat, o: Tree, i: nat, m: nat)
    requires Site(P, t, k, e, o, i)
    requires var r := RepairOf(o.kids, i, m); r.BorrowLeft? || r.BorrowRight?
    requires SameLinks(P, Q, PagesF(Graft(t, k, e, [o])))
    ensures Linked(Q, Graft(t, k, e, [Fix(o.pg, o.kids, o.open, i, m)]))
  {
    hide RepairOf, Fix, LevelF, Graft, Skel, Distinct;
    var u := Fix(o.pg, o.kids, o.open, i, m);
    forall x: nat ensures LevelF([u], x) == LevelF([o], x) { BorrowLevels(o, i, m, x); }
    SameLevels(t, k, e, [o], [u]);
    LinkedSame(P, Q, Graft(t, k, e, [o]), Graft(t, k, e, [u]));
  }

  /** Only the bodies of three pages of o change. */
  ghost predicate OnlyBodies(P: Store, Q: Store, pn: nat, px: nat, py: nat) {
    && P.Keys == Q.Keys
    && (forall p :: p in P ==> Q[p].left == P[p].left && Q[p].right == P[p].right)
    && forall p :: p in P && p != pn && p != px && p != py ==> Q[p] == P[p]
  }

  lemma BorrowRepaired(P: Store, Q: Store, t: Tree, k: int, e: nat, o: Tree, i: nat, m: nat)
    requires Site(P, t, k, e, o, i) && PathIn(P, t, k, e)
    requires var r := RepairOf(o.kids, i, m); var j := Pivot(r, i);
             && (r.BorrowLeft? || r.BorrowRight?) && 0 <= j && j + 1 < |o.kids|
             && Holds(Q, Fix(o.pg, o.kids, o.open, i, m))
             && HoldsAll(Q, Mended(r, o.kids[j], o.kids[j + 1]))
             && OnlyBodies(P, Q, o.pg, o.kids[j].pg, o.kids[j + 1].pg)
    ensures Repaired(P, Q, t, k, e, o, i, m)
  {
    hide RepairOf, Fix, Mended, Skel, Linked, Distinct, Graft, Holds, HoldsAll;
    var j := Pivot(RepairOf(o.kids, i, m), i);
    BorrowLinked(P, Q, t, k, e, o, i, m);
    NeighboursApart(o, j);
    FixSkel(P, Q, o, i, m);
    assert o.pg in Pages(o);
    forall c | 0 <= c < e ensures Above(t, k, P, Q, c) { PathOutside(t, k, e, o, c); }
  }

  /** The pages of the two neighbours. */
  lemma NeighbourPages(P: Store, o: Tree, j: nat)
    requires o.Inner? && Skel(P, o) && Distinct(o) && j + 1 < |o.kids|
    ensures var px := o.kids[j].pg; var py := o.kids[j + 1].pg;
            && px in P && py in P && o.pg in P && px != py && px != o.pg && py != o.pg
            && NodeOf(P[o.pg], o) && NodeOf(P[px], o.kids[j]) && NodeOf(P[py], o.kids[j + 1])
            && P[o.pg].kids[j] == px && P[o.pg].kids[j + 1] == py
  {
    hide DistinctF, Distinct;
    NeighboursApart(o, j);
    assert Skel(P, o.kids[j]) && Skel(P, o.kids[j + 1]);
  }

  lemma BorrowLeftStep(P: Store, t: Tree, k: int, e: nat, o: Tree, i: nat, m: nat)
    requires Site(P, t, k, e, o, i) && PathIn(P, t, k, e) && 1 <= m && RepairOf(o.kids, i, m).BorrowLeft?
    ensures 0 < i <= Count(o)
    ensures var px := o.kids[i - 1].pg; var py := o.kids[i].pg;
            && px in P && py in P && o.pg in P && px != py && px != o.pg && py != o.pg
            && i <= |P[o.pg].cells| && CanGive(P[px], P[py])
            && Repaired(P, BorrowLeftStore(P, o.pg, px, py, i), t, k, e, o, i, m)
  {
    hide Repaired, Linked, Fix, NodeOf, Graft, Distinct, Reseparated, TookFirst, GaveLast;
    NeighbourPages(P, o, i - 1);
    var a, b := o.kids[i - 1], o.kids[i];
    var n, x, y := P[o.pg], P[a.pg], P[b.pg];
    NodeCount(n, o);
    ShiftRightNodes(x, y, a, b);
    var Q := BorrowLeftStore(P, o.pg, a.pg, b.pg, i);
    FixNodeBorrow(n, o, i, m, i - 1, x.cells[|x.cells| - 2].key);
    SameLinkNodes(n, i - 1, x.cells[|x.cells| - 2].key, x, y);
    assert Holds(Q, Fix(o.pg, o.kids, o.open, i, m)) by { FixPg(o, i, m); }
    MendedPair(Q, BorrowLeft, a, b);
    BorrowRepaired(P, Q, t, k, e, o, i, m);
  }

  lemma NodeCount(n: Node, t: Tree)
    requires t.Inner? && NodeOf(n, t)
    ensures |n.cells| == Count(t)
  {
  }

  lemma FixPg(o: Tree, i: nat, m: nat)
    requires o.Inner? && i < |o.kids| && 2 <= |o.kids|
    ensures Fix(o.pg, o.kids, o.open, i, m).pg == o.pg
  {
  }

  lemma SameLinkNodes(n: Node, s: nat, key: int, x: Node, y: Node)
    requires s < |n.cells|
    ensures Reseparated(n, s, key).left == n.left && Reseparated(n, s, key).right == n.right
    ensures CanGive(x, y) ==>
              && GaveLast(x, y).left == x.left && GaveLast(x, y).right == x.right
              && TookFirst(x, y).left == y.left && TookFirst(x, y).right == y.right
    ensures CanGive(y, x) ==>
              && TookLast(x, y).left == x.left && TookLast(x, y).right == x.right
              && GaveFirst(x, y).left == y.left && GaveFirst(x, y).right == y.right
  {
  }

  lemma MendedPair(Q: Store, r: Repair, a: Tree, b: Tree)
    requires SameKind(a, b)
    requires r.BorrowLeft? ==> a.pg in Q && b.pg in Q && NodeOf(Q[a.pg], ShiftRight(a, b).0) && NodeOf(Q[b.pg], ShiftRight(a, b).1)
    requires r.BorrowRight? ==> a.pg in Q && b.pg in Q && NodeOf(Q[a.pg], ShiftLeft(a, b).0) && NodeOf(Q[b.pg], ShiftLeft(a, b).1)
    requires r.MergeLeft? || r.MergeRight? ==> a.pg in Q && NodeOf(Q[a.pg], MergeTrees(a, b))
    ensures HoldsAll(Q, Mended(r, a, b))
  {
    hide NodeOf;
    MendedRoots(r, a, b);
  }

  lemma BorrowRightStep(P: Store, t: Tree, k: int, e: nat, o: Tree, i: nat, m: nat)
    requires Site(P, t, k, e, o, i) && PathIn(P, t, k, e) && 1 <= m && RepairOf(o.kids, i, m).BorrowRight?
    ensures i < Count(o) && i + 1 < |o.kids|
    ensures var px := o.kids[i].pg; var py := o.kids[i + 1].pg;
            && px in P && py in P && o.pg in P && px != py && px != o.pg && py != o.pg
            && i < |P[o.pg].cells| && CanGive(P[py], P[px])
            && Repaired(P, BorrowRightStore(P, o.pg, px, py, i), t, k, e, o, i, m)
  {
    hide Repaired, Linked, Fix, NodeOf, Graft, Distinct, Reseparated, TookLast, GaveFirst;
    NeighbourPages(P, o, i);
    var a, b := o.kids[i], o.kids[i + 1];
    var n, x, y := P[o.pg], P[a.pg], P[b.pg];
    NodeCount(n, o);
    ShiftLeftNodes(x, y, a, b);
    var Q := BorrowRightStore(P, o.pg, a.pg, b.pg, i);
    FixNodeBorrow(n, o, i, m, i, y.cells[0].key);
    SameLinkNodes(n, i, y.cells[0].key, x, y);
    assert Holds(Q, Fix(o.pg, o.kids, o.open, i, m)) by { FixPg(o, i, m); }
    MendedPair(Q, BorrowRight, a, b);
    BorrowRepaired(P, Q, t, k, e, o, i, m);
  }

  // ---------------------------------------------------------------- merging

  /** The level of the neighbours in the whole tree, before and after they are merged. */
  lemma MergeLevel(t: Tree, k: int, e: nat, o: Tree, i: nat, m: nat) returns (a: seq<nat>, b: seq<nat>)
    requires Deep(t, k, e) && o.Inner? && i < |o.kids| && 2 <= |o.kids| && OneKind(o.kids)
    requires var r := RepairOf(o.kids, i, m); r.MergeLeft? || r.MergeRight?
    ensures var j := Pivot(RepairOf(o.kids, i, m), i);
            && 0 <= j && j + 1 < |o.kids|
            && LevelF(Graft(t, k, e, [o]), e + 1) == a + [o.kids[j].pg, o.kids[j + 1].pg] + b
            && LevelF(Graft(t, k, e, [Fix(o.pg, o.kids, o.open, i, m)]), e + 1) == a + [o.kids[j].pg] + b
  {
    hide RepairOf, LevelF, Graft, Mended, LevelPre, LevelPost;
    var u := Fix(o.pg, o.kids, o.open, i, m);
    var j := Pivot(RepairOf(o.kids, i, m), i);
    FixLevel(o, i, m, 0);
    LevelPair(o.kids[j], o.kids[j + 1], 0);
    LevelOne(o, 1);
    LevelOne(u, 1);
    LevelGraft(t, k, e, [o], e + 1);
    LevelGraft(t, k, e, [u], e + 1);
    var x, y := LevelPre(t, k, e, e + 1), LevelPost(t, k, e, e + 1);
    var c, d := LevelF(o.kids[..j], 0), LevelF(o.kids[j + 2..], 0);
    a, b := x + c, d + y;
    Nested(x, c, [o.kids[j].pg, o.kids[j + 1].pg], d, y);
    Nested(x, c, [o.kids[j].pg], d, y);
  }

  lemma Nested<T>(x: seq<T>, c: seq<T>, s: seq<T>, d: seq<T>, y: seq<T>)
    ensures x + (c + s + d) + y == (x + c) + s + (d + y)
  {
  }

  lemma MergeOtherLevels(t: Tree, k: int, e: nat, o: Tree, i: nat, m: nat)
    requires Deep(t, k, e) && o.Inner? && i < |o.kids| && 2 <= |o.kids| && OneKind(o.kids)
    ensures OtherLevelsSame(Graft(t, k, e, [o]), Graft(t, k, e, [Fix(o.pg, o.kids, o.open, i, m)]), e + 1)
  {
    hide RepairOf, LevelF, Graft, Mended, LevelPre, LevelPost, OneKind;
    var u := Fix(o.pg, o.kids, o.open, i, m);
    forall x: nat | x != e + 1 ensures LevelF(Graft(t, k, e, [u]), x) == LevelF(Graft(t, k, e, [o]), x) {
      if x < e {
        LevelAbove(t, k, e, [u], x);
        LevelAbove(t, k, e, [o], x);
      } else {
        LevelGraft(t, k, e, [u], x);
        LevelGraft(t, k, e, [o], x);
        LevelOne(u, x - e);
        LevelOne(o, x - e);
        if x > e { FixLevel(o, i, m, x - e - 1); }
      }
    }
  }

  /** The right neighbour of the page that leaves. */
  ghost predicate NextApart(P: Store, px: nat, py: nat, pn: nat)
    requires py in P
  {
    P[py].right != 0 ==> P[py].right in P && P[py].right != px && P[py].right != py && P[py].right != pn
  }

  lemma MergeNext(P: Store, t: Tree, k: int, e: nat, o: Tree, i: nat, m: nat)
    requires Site(P, t, k, e, o, i)
    requires var r := RepairOf(o.kids, i, m); r.MergeLeft? || r.MergeRight?
    ensures var j := Pivot(RepairOf(o.kids, i, m), i);
            && 0 <= j && j + 1 < |o.kids|
            && var px := o.kids[j].pg; var py := o.kids[j + 1].pg;
               && px in P && py in P && P[px].right == py && P[py].left == px && NextApart(P, px, py, o.pg)
               && (P[py].right != 0 ==> P[py].right in LevelF(Graft(t, k, e, [o]), e + 1))
  {
    hide RepairOf, LevelF, Graft, Skel, Distinct, DistinctF, OneKind;
    var a, b := MergeLevel(t, k, e, o, i, m);
    var j := Pivot(RepairOf(o.kids, i, m), i);
    var px, py := o.kids[j].pg, o.kids[j + 1].pg;
    var ts := Graft(t, k, e, [o]);
    EntriesOne(o);
    GraftPages(t, k, e, [o]);
    LevelNoDupF(ts, e + 1);
    assert Chain(P, LevelF(ts, e + 1));
    PairInChain(P, a, px, py, b);
    if b != [] {
      assert b[0] in LevelF(ts, e + 1);
      LevelGraft(t, k, e, [o], e);
      LevelOne(o, 0);
      assert o.pg in LevelF(ts, e) by { hide *; LevelHas(ts, e, LevelPre(t, k, e, e), o, LevelPost(t, k, e, e)); }
      LevelsApartF(ts, e, e + 1, o.pg);
    }
  }

  lemma LevelHas(ts: seq<Tree>, e: nat, a: seq<nat>, o: Tree, b: seq<nat>)
    requires LevelF(ts, e) == a + Level(o, 0) + b
    ensures o.pg in LevelF(ts, e)
  {
    assert (a + Level(o, 0) + b)[|a|] == o.pg;
  }

  lemma PairInChain(P: Store, a: seq<nat>, x: nat, y: nat, b: seq<nat>)
    requires Chain(P, a + [x, y] + b) && NoDup(a + [x, y] + b)
    ensures x in P && y in P && P[x].right == y && P[y].left == x && P[y].right == FirstOr0(b)
    ensures b != [] ==> b[0] in P && b[0] != x && b[0] != y
  {
    var ps := a + [x, y] + b;
    assert LinkedAt(P, ps, |a|) && LinkedAt(P, ps, |a| + 1);
    assert ps[|a|] == x && ps[|a| + 1] == y;
    if b != [] {
      assert ps[|a| + 2] == b[0];
      assert LinkedAt(P, ps, |a| + 2);
    }
  }

  lemma MergeLeaves(P: Store, pn: nat, n: Node, px: nat, py: nat)
    requires px in P && py in P && pn in P && px != py && px != pn && py != pn
    requires P[px].right == py && P[py].left == px && NextApart(P, px, py, pn)
    requires n.left == P[pn].left && n.right == P[pn].right
    ensures LeaveLinks(P, MergeStore(P, pn, n, px, py), px, py)
  {
  }

  lemma MergeLinked(P: Store, t: Tree, k: int, e: nat, o: Tree, i: nat, m: nat, n: Node, px: nat, py: nat)
    requires Site(P, t, k, e, o, i)
    requires var r := RepairOf(o.kids, i, m); var j := Pivot(r, i);
             && (r.MergeLeft? || r.MergeRight?)
             && 0 <= j && j + 1 < |o.kids| && px == o.kids[j].pg && py == o.kids[j + 1].pg
    requires px in P && py in P && o.pg in P && px != py && px != o.pg && py != o.pg && NextApart(P, px, py, o.pg)
    requires P[px].right == py && P[py].left == px
    requires n.left == P[o.pg].left && n.right == P[o.pg].right
    ensures Linked(MergeStore(P, o.pg, n, px, py), Graft(t, k, e, [Fix(o.pg, o.kids, o.open, i, m)]))
  {
    hide RepairOf, LevelF, Graft, Skel, Distinct, DistinctF, OneKind, MergeStore, NextApart, Fix, Pivot, LeaveLinks;
    var a, b := MergeLevel(t, k, e, o, i, m);
    EntriesOne(o);
    GraftPages(t, k, e, [o]);
    MergeLeaves(P, o.pg, n, px, py);
    MergeOtherLevels(t, k, e, o, i, m);
    LinkedLeave(P, MergeStore(P, o.pg, n, px, py), Graft(t, k, e, [o]), Graft(t, k, e, [Fix(o.pg, o.kids, o.open, i, m)]),
                e + 1, a, px, py, b);
  }

  /** What a merge changes, page by page. */
  ghost predicate MergeChanges(P: Store, Q: Store, pn: nat, n: Node, px: nat, py: nat)
    requires px in P && py in P
  {
    && pn in Q && Q[pn] == n && px in Q && Q[px] == MergedNode(P[px], P[py])
    && BodiesSame(P, Q, {pn, px, py})
    && forall p :: p != pn && p != px && p != py && (p != P[py].right || p == 0) ==> (p in P <==> p in Q) && (p in P ==> Q[p] == P[p])
  }

  lemma MergeChanged(P: Store, pn: nat, n: Node, px: nat, py: nat)
    requires px in P && py in P && pn in P && px != py && px != pn && py != pn && NextApart(P, px, py, pn)
    ensures MergeChanges(P, MergeStore(P, pn, n, px, py), pn, n, px, py)
  {
  }

  lemma MergeRepaired(P: Store, t: Tree, k: int, e: nat, o: Tree, i: nat, m: nat, n: Node, px: nat, py: nat)
    requires Site(P, t, k, e, o, i) && PathIn(P, t, k, e)
    requires var r := RepairOf(o.kids, i, m); var j := Pivot(r, i);
             && (r.MergeLeft? || r.MergeRight?)
             && 0 <= j && j + 1 < |o.kids| && px == o.kids[j].pg && py == o.kids[j + 1].pg && Closed(o.kids[j])
    requires o.pg in P && NodeOf(n, Fix(o.pg, o.kids, o.open, i, m))
    requires n.left == P[o.pg].left && n.right == P[o.pg].right
    ensures px in P && py in P && px != py && px != o.pg && py != o.pg && NextApart(P, px, py, o.pg)
    ensures Repaired(P, MergeStore(P, o.pg, n, px, py), t, k, e, o, i, m)
  {
    hide RepairOf, LevelF, Graft, Distinct, DistinctF, MergeStore, Fix, NodeOf, MergedNode, Linked, Skel, AgreeOn;
    var j := Pivot(RepairOf(o.kids, i, m), i);
    var a, b := o.kids[j], o.kids[j + 1];
    NeighbourPages(P, o, j);
    MergeNext(P, t, k, e, o, i, m);
    MergeLinked(P, t, k, e, o, i, m, n, px, py);
    MergeChanged(P, o.pg, n, px, py);
    var Q := MergeStore(P, o.pg, n, px, py);
    MergeNodes(P[px], P[py], a, b);
    MendedPair(Q, RepairOf(o.kids, i, m), a, b);
    FixPg(o, i, m);
    MergeFrame(P, Q, t, k, e, o, j, n);
    FixSkel(P, Q, o, i, m);
  }

  lemma MergeFrame(P: Store, Q: Store, t: Tree, k: int, e: nat, o: Tree, j: nat, n: Node)
    requires Stands(t, k, e, o) && PathIn(P, t, k, e) && Linked(P, Graft(t, k, e, [o]))
    requires o.Inner? && j + 1 < |o.kids| && o.kids[j].pg in P && o.kids[j + 1].pg in P
    requires MergeChanges(P, Q, o.pg, n, o.kids[j].pg, o.kids[j + 1].pg)
    requires var z := P[o.kids[j + 1].pg].right; z != 0 ==> z in LevelF(Graft(t, k, e, [o]), e + 1)
    ensures AgreeOn(P, Q, PagesF(o.kids) - {o.kids[j].pg, o.kids[j + 1].pg})
    ensures BodiesSame(P, Q, Pages(o)) && RestSame(P, Q, Pages(t) + Pages(o)) && AboveAll(t, k, P, Q, e)
  {
    hide Linked, Distinct, DistinctF, Graft, MergedNode, LevelF, Body, PagesF, EntriesF;
    NeighboursApart(o, j);
    var z := P[o.kids[j + 1].pg].right;
    var ts := Graft(t, k, e, [o]);
    EntriesOne(o);
    GraftPages(t, k, e, [o]);
    SubPages(t, k, e);
    if z != 0 { LevelPagesF(ts, e + 1, z); }
    forall c | 0 <= c < e ensures Above(t, k, P, Q, c) {
      PathOutside(t, k, e, o, c);
      PathOnLevel(t, k, c);
      LevelAbove(t, k, e, [o], c);
      LevelsApartF(ts, c, e + 1, SubAt(t, k, c).pg);
    }
  }

  lemma MergeLeftStep(P: Store, t: Tree, k: int, e: nat, o: Tree, i: nat, m: nat, key: int)
    requires Site(P, t, k, e, o, i) && PathIn(P, t, k, e) && RepairOf(o.kids, i, m).MergeLeft?
    requires i > 0 ==> Closed(o.kids[i - 1])
    ensures o.pg in P && 0 < i == |P[o.pg].kids| - 1 && i <= |P[o.pg].cells|
    ensures var px := o.kids[i - 1].pg; var py := o.kids[i].pg;
            && px in P && py in P && px != py && px != o.pg && py != o.pg && NextApart(P, px, py, o.pg)
            && Repaired(P, MergeStore(P, o.pg, MergedLast(P[o.pg], i, key), px, py), t, k, e, o, i, m)
  {
    hide Repaired, Linked, Fix, NodeOf, Graft, Distinct, Reseparated, MergeStore, NextApart;
    NeighbourPages(P, o, i - 1);
    FixNodeLast(P[o.pg], o, i, m, key);
    MergeLinks(P[o.pg], i, key);
    MergeRepaired(P, t, k, e, o, i, m, MergedLast(P[o.pg], i, key), o.kids[i - 1].pg, o.kids[i].pg);
  }

  lemma MergeRightStep(P: Store, t: Tree, k: int, e: nat, o: Tree, i: nat, m: nat, key: int)
    requires Site(P, t, k, e, o, i) && PathIn(P, t, k, e) && RepairOf(o.kids, i, m).MergeRight?
    requires Closed(o.kids[i])
    ensures o.pg in P && i < |P[o.pg].cells| && i + 1 < |P[o.pg].kids| == |o.kids|
    ensures var px := o.kids[i].pg; var py := o.kids[i + 1].pg;
            && px in P && py in P && px != py && px != o.pg && py != o.pg && NextApart(P, px, py, o.pg)
            && Repaired(P, MergeStore(P, o.pg, MergedNext(P[o.pg], i, key), px, py), t, k, e, o, i, m)
  {
    hide Repaired, Linked, Fix, Graft, Distinct, Reseparated, MergeStore, NextApart;
    NeighbourPages(P, o, i);
    FixNodeNext(P[o.pg], o, i, m, key);
    MergeLinks(P[o.pg], i, key);
    MergeRepaired(P, t, k, e, o, i, m, MergedNext(P[o.pg], i, key), o.kids[i].pg, o.kids[i + 1].pg);
  }

  lemma MergeLinks(n: Node, i: nat, key: int)
    ensures 0 < i == |n.kids| - 1 && i <= |n.cells| ==> MergedLast(n, i, key).left == n.left && MergedLast(n, i, key).right == n.right
    ensures i < |n.cells| && i + 1 < |n.kids| ==> MergedNext(n, i, key).left == n.left && MergedNext(n, i, key).right == n.right
  {
  }

  // ---------------------------------------------------------------- the pages of the repaired parent

  /** A merge frees the second neighbour's page; nothing else is lost. */
  lemma FixPages(o: Tree, i: nat, m: nat)
    requires o.Inner? && Distinct(o) && i < |o.kids| && 2 <= |o.kids| && OneKind(o.kids)
    ensures var r := RepairOf(o.kids, i, m); var j := Pivot(r, i); var u := Fix(o.pg, o.kids, o.open, i, m);
            && 0 <= j && j + 1 < |o.kids|
            && Distinct(u)
            && Pages(u) == (if r.MergeLeft? || r.MergeRight? then Pages(o) - {o.kids[j + 1].pg} else Pages(o))
            && o.kids[j + 1].pg in Pages(o)
  {
    hide RepairOf, Mended, DistinctF, Entries, EntriesF;
    RepairInside(o.kids, i, m);
    Remove.FixKeeps(o, i, m);
    var r := RepairOf(o.kids, i, m);
    var j := Pivot(r, i);
    var a, b := o.kids[j], o.kids[j + 1];
    Remove.Split4(o.kids, j);
    NeighboursApart(o, j);
    Remove.Split4Distinct(o.kids, j);
    MendedPages(r, a, b);
    Pages3(o.kids[..j], Mended(r, a, b), o.kids[j + 2..]);
  }

  lemma MendedPages(r: Repair, a: Tree, b: Tree)
    requires SameKind(a, b) && Distinct(a) && Distinct(b) && Pages(a) !! Pages(b)
    ensures PagesF(Mended(r, a, b)) == if r.MergeLeft? || r.MergeRight? then Pages(a) + Pages(b) - {b.pg} else Pages(a) + Pages(b)
  {
    match r
    case BorrowLeft =>
      Remove.Pair(ShiftRight(a, b).0, ShiftRight(a, b).1);
      if a.Inner? && a.kids != [] {
        var n := |a.kids| - 1;
        assert a.kids == a.kids[..n] + [a.kids[n]];
        PagesAppend(a.kids[..n], [a.kids[n]]);
        PagesAppend([a.kids[n]], b.kids);
      }
    case BorrowRight =>
      Remove.Pair(ShiftLeft(a, b).0, ShiftLeft(a, b).1);
      if b.Inner? && b.kids != [] {
        assert b.kids == [b.kids[0]] + b.kids[1..];
        PagesAppend([b.kids[0]], b.kids[1..]);
        PagesAppend(a.kids, [b.kids[0]]);
      }
    case _ =>
      EntriesOne(MergeTrees(a, b));
      if a.Inner? { PagesAppend(a.kids, b.kids); }
  }
}
