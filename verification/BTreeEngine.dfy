/** The B-tree engine: nodes, the page store with its free list, and cursors, all updated in place. */
module BTreeEngine {
  import opened Values
  import opened Cells
  import opened BTreeSpec
  import opened BTreeLayout
  import opened FreeList
  import opened BTreeSearch
  import opened BTreeKept
  import opened BTreeScan
  import opened BTreeLinks
  import opened BTreeRepair
  import opened Steps = BTreeInsertSteps
  import opened BTreeRemoveSteps
  import opened BTreeUpdate
  import Proof = BTreeInsertProof

  datatype InsertResult = Error | NeedSplit(key: int) | Ok

  datatype RemoveResult = NotThere | NeedBalance | Gone

  /** A page loaded into memory; changes reach the store through WriteBuf. */
  class BTreeNode {
    const pgno: nat
    var isLeaf: bool
    var left: nat
    var right: nat
    var kids: seq<nat>
    var cells: seq<Cell>

    constructor (pgno: nat, n: Node)
      ensures this.pgno == pgno && Snap() == n
    {
      this.pgno := pgno;
      isLeaf, left, right, kids, cells := n.isLeaf, n.left, n.right, n.kids, n.cells;
    }

    function Snap(): Node
      reads this
    {
      Node(isLeaf, left, right, cells, kids)
    }

    /** This node agrees with page pg of the store P. */
    ghost predicate OnPage(P: Store, pg: nat)
      reads this
    {
      pgno == pg && pg in P && Snap() == P[pg]
    }

    method WriteBuf(btree: BTree)
      modifies btree`pages
      ensures btree.pages == old(btree.pages)[pgno := Snap()]
    {
      btree.pages := btree.pages[pgno := Node(isLeaf, left, right, cells, kids)];
    }

    /** The index arithmetic is that of the source: `upper` never goes below zero. */
    method BinarySearchCell(key: int) returns (r: SearchResult)
      requires Sorted(cells)
      ensures r == Search(cells, key)
    {
      hide Search, Rank;
      if cells == [] {
        SearchIs(cells, key, 0);
        return LessThan(0);
      }
      var lower, upper := 0, |cells| - 1;
      while true
        invariant 0 <= lower <= upper < |cells|
        invariant forall i :: 0 <= i < lower ==> cells[i].key < key
        invariant forall i :: upper < i < |cells| ==> key < cells[i].key
        decreases upper - lower
      {
        var i := (lower + upper) / 2;
        var midKey := cells[i].key;
        if key == midKey {
          SearchIs(cells, key, i);
          return Equal(i);
        } else if key < midKey {
          if i == 0 {
            SearchIs(cells, key, 0);
            return LessThan(0);
          }
          upper := i - 1;
          if lower > upper {
            SearchIs(cells, key, i);
            return LessThan(i);
          }
        } else {
          lower := i + 1;
          if lower >= |cells| {
            SearchIs(cells, key, |cells|);
            return Right;
          }
          if lower > upper {
            SearchIs(cells, key, i + 1);
            return LessThan(i + 1);
          }
        }
      }
    }

    method ContainsKey(key: int) returns (found: bool)
      requires Sorted(cells)
      ensures found <==> Has(cells, key)
    {
      SearchMeans(cells, key);
      var r := BinarySearchCell(key);
      found := r.Equal?;
    }

    method GetKey(key: int) returns (r: Option<Record>)
      requires Sorted(cells)
      ensures r == if Has(cells, key) then Some(AsMap(cells)[key]) else None
    {
      SearchMeans(cells, key);
      var s := BinarySearchCell(key);
      if s.Equal? { r := Some(cells[s.idx].val); } else { r := None; }
    }

    method InsertLeaf(key: int, val: Record, m: nat, btree: BTree) returns (r: InsertResult)
      requires Sorted(cells) && 1 <= m
      modifies this`cells, btree`pages
      ensures Has(old(cells), key) ==> r == Error && cells == old(cells) && btree.pages == old(btree.pages)
      ensures !Has(old(cells), key) ==>
                && cells == InsertCell(old(cells), key, val)
                && btree.pages == old(btree.pages)[pgno := Snap()]
                && r == (if old(cells) != [] && |cells| >= 2 * m then NeedSplit(cells[|cells| / 2 - 1].key) else Ok)
    {
      SearchMeans(cells, key);
      if cells == [] {
        cells := cells + [Cell(key, val)];
        WriteBuf(btree);
        return Ok;
      }
      var idx := BinarySearchCell(key);
      match idx {
        case Equal(_) => return Error;
        case LessThan(i) => cells := cells[..i] + [Cell(key, val)] + cells[i..];
        case Right => cells := cells + [Cell(key, val)];
      }
      WriteBuf(btree);
      if |cells| >= 2 * m {
        r := NeedSplit(cells[|cells| / 2 - 1].key);
      } else {
        r := Ok;
      }
    }

    method InsertInternal(key: int, lchild: nat, rchild: nat, m: nat, btree: BTree) returns (r: InsertResult)
      requires Sorted(cells) && 1 <= m
      requires |cells| <= |kids| <= |cells| + 1 || (cells == [] && kids == [])
      modifies this`cells, this`kids, btree`pages
      ensures old(cells) != [] && Search(old(cells), key).Equal? ==>
                r == Error && Snap() == old(Snap()) && btree.pages == old(btree.pages)
      ensures old(cells) == [] || !Search(old(cells), key).Equal? ==>
                && Snap() == InsertedInternal(old(Snap()), key, lchild, rchild)
                && btree.pages == old(btree.pages)[pgno := Snap()]
                && r == (if old(cells) != [] && |cells| >= 2 * m then NeedSplit(cells[|cells| / 2 - 1].key) else Ok)
    {
      hide Sorted, Rank;
      if cells == [] {
        cells := cells + [Cell(key, [])];
        kids := kids + [lchild];
        kids := kids + [rchild];
        assert kids == old(kids) + [lchild, rchild];
        WriteBuf(btree);
        return Ok;
      }
      var idx := BinarySearchCell(key);
      match idx {
        case Equal(_) => return Error;
        case LessThan(i) =>
          cells := cells[..i] + [Cell(key, [])] + cells[i..];
          kids := kids[..i] + [lchild] + kids[i..];
          if i == |kids| {
            assert false;  // one child was just added, so this branch of the source is dead
          } else {
            kids := kids[i + 1 := rchild];
          }
          PairAt(old(kids), i, lchild, rchild);
        case Right =>
          cells := cells + [Cell(key, [])];
          kids := kids[|kids| - 1 := lchild];
          kids := kids + [rchild];
          PairLast(old(kids), lchild, rchild);
      }
      WriteBuf(btree);
      if |cells| >= 2 * m {
        r := NeedSplit(cells[|cells| / 2 - 1].key);
      } else {
        r := Ok;
      }
    }

    /** Moves the upper half into the empty node rchild and links it in after this node. */
    method Split(rchild: BTreeNode, btree: BTree)
      requires rchild != this && rchild.pgno != pgno && rchild.isLeaf == isLeaf
      requires rchild.cells == [] && rchild.kids == [] && rchild.right == 0
      requires pgno in btree.pages && btree.pages[pgno] == Snap()
      requires kids == [] || |cells| <= |kids|
      requires right != 0 ==> right in btree.pages && right != pgno && right != rchild.pgno
      modifies this, rchild, btree`pages
      ensures btree.pages == SplitStore(old(btree.pages), pgno, rchild.pgno)
      ensures pgno in btree.pages && Snap() == btree.pages[pgno]
      ensures rchild.pgno in btree.pages && rchild.Snap() == btree.pages[rchild.pgno]
    {
      var split := |cells| / 2;
      ghost var n := Snap();
      rchild.cells := rchild.cells + cells[split..];
      cells := cells[..split];
      if kids != [] {
        rchild.kids := rchild.kids + kids[split..];
        kids := kids[..split];
      }
      assert rchild.cells == n.cells[split..] && rchild.kids == (if n.kids == [] then [] else n.kids[split..]);
      if right != 0 {
        var prevRight := btree.GetNode(right);
        prevRight.left := rchild.pgno;
        rchild.right := right;
        prevRight.WriteBuf(btree);
      }
      right := rchild.pgno;
      rchild.left := pgno;
      WriteBuf(btree);
      rchild.WriteBuf(btree);
    }

    // ---------------------------------------------------------------- remove

    method RemoveLeaf(key: int, m: nat, btree: BTree) returns (r: RemoveResult)
      requires Sorted(cells)
      modifies this`cells, btree`pages
      ensures !Has(old(cells), key) ==> r == NotThere && cells == old(cells) && btree.pages == old(btree.pages)
      ensures Has(old(cells), key) ==>
                && cells == RemoveCell(old(cells), key)
                && btree.pages == old(btree.pages)[pgno := Snap()]
                && r == (if |cells| < m then NeedBalance else Gone)
    {
      SearchMeans(cells, key);
      var s := BinarySearchCell(key);
      match s {
        case Equal(idx) =>
          cells := cells[..idx] + cells[idx + 1..];
          WriteBuf(btree);
          r := if |cells| < m then NeedBalance else Gone;
        case LessThan(_) => r := NotThere;
        case Right => r := NotThere;
      }
    }

    method FindLeftSibling(key: int, ghost i: nat) returns (r: Option<nat>)
      requires FindsChild(Snap(), key, i)
      ensures r == if i == 0 then None else Some(kids[i - 1])
    {
      var s := BinarySearchCell(key);
      match s {
        case Equal(idx) => r := if idx == 0 then None else Some(kids[idx - 1]);
        case LessThan(idx) => r := if idx == 0 then None else Some(kids[idx - 1]);
        case Right => r := Some(kids[|kids| - 2]);
      }
    }

    method FindRightSibling(key: int, ghost i: nat) returns (r: Option<nat>)
      requires FindsChild(Snap(), key, i)
      ensures r == if i == |kids| - 1 then None else Some(kids[i + 1])
    {
      var s := BinarySearchCell(key);
      match s {
        case Equal(idx) => r := if idx == |kids| - 1 then None else Some(kids[idx + 1]);
        case LessThan(idx) => r := if idx == |kids| - 1 then None else Some(kids[idx + 1]);
        case Right => r := None;
      }
    }

    /** This parent, its child i and the siblings of that child lie in the store, each on a page of its own. */
    ghost predicate Family(node: BTreeNode, P: Store, key: int, i: nat)
      reads this, node
    {
      && node != this && FindsChild(Snap(), key, i) && OnPage(P, pgno) && node.OnPage(P, kids[i]) && pgno != node.pgno
      && (i > 0 ==> kids[i - 1] in P && kids[i - 1] != pgno && kids[i - 1] != node.pgno)
      && (i + 1 < |kids| ==> kids[i + 1] in P && kids[i + 1] != pgno && kids[i + 1] != node.pgno)
    }

    /** Sets the separator before child i. */
    method SeparateBefore(key: int, midKey: int, ghost i: nat)
      requires FindsChild(Snap(), key, i) && 0 < i
      modifies this`cells
      ensures i <= |old(cells)| && Snap() == Reseparated(old(Snap()), i - 1, midKey)
    {
      var s := BinarySearchCell(key);
      match s {
        case Equal(idx) => cells := cells[idx - 1 := cells[idx - 1].(key := midKey)];
        case LessThan(idx) => cells := cells[idx - 1 := cells[idx - 1].(key := midKey)];
        case Right => cells := cells[|cells| - 1 := cells[|cells| - 1].(key := midKey)];
      }
    }

    /** Sets the separator of child i. */
    method SeparateAfter(key: int, midKey: int, ghost i: nat)
      requires FindsChild(Snap(), key, i) && i + 1 < |kids|
      modifies this`cells
      ensures i < |old(cells)| && Snap() == Reseparated(old(Snap()), i, midKey)
    {
      var s := BinarySearchCell(key);
      match s {
        case Equal(idx) => cells := cells[idx := cells[idx].(key := midKey)];
        case LessThan(idx) => cells := cells[idx := cells[idx].(key := midKey)];
        case Right => assert false;  // the source panics here; the last child has no right sibling
      }
    }

    method TryBorrowLeft(key: int, node: BTreeNode, btree: BTree, ghost i: nat) returns (ok: bool)
      requires Family(node, btree.pages, key, i) && 1 <= btree.m
      requires i > 0 && |btree.pages[kids[i - 1]].cells| > btree.m ==> CanGive(btree.pages[kids[i - 1]], node.Snap())
      modifies this`cells, node`cells, node`kids, btree`pages
      ensures ok <==> i > 0 && |old(btree.pages)[kids[i - 1]].cells| > btree.m
      ensures !ok ==> btree.pages == old(btree.pages) && Snap() == old(Snap()) && node.Snap() == old(node.Snap())
      ensures ok ==> btree.pages == BorrowLeftStore(old(btree.pages), pgno, kids[i - 1], node.pgno, i) && OnPage(btree.pages, pgno)
    {
      hide Reseparated, Search;
      ghost var x, y := if i > 0 then btree.pages[kids[i - 1]] else Snap(), node.Snap();
      var lsn := FindLeftSibling(key, i);
      if lsn.None? {
        return false;
      }
      var ls := btree.GetNode(lsn.value);
      if |ls.cells| <= btree.m {
        return false;
      }
      var lastCell := ls.cells[|ls.cells| - 1];
      ls.cells := ls.cells[..|ls.cells| - 1];
      node.cells := [lastCell] + node.cells;
      if !node.isLeaf {
        var lastKid := ls.kids[|ls.kids| - 1];
        ls.kids := ls.kids[..|ls.kids| - 1];
        node.kids := [lastKid] + node.kids;
      }
      assert ls.Snap() == GaveLast(x, y) && node.Snap() == TookFirst(x, y);
      var midKey := ls.cells[|ls.cells| - 1].key;
      SeparateBefore(key, midKey, i);
      WriteBuf(btree);
      node.WriteBuf(btree);
      ls.WriteBuf(btree);
      assert btree.pages == old(btree.pages)[pgno := Snap()][node.pgno := node.Snap()][ls.pgno := ls.Snap()];
      ok := true;
    }

    method TryBorrowRight(key: int, node: BTreeNode, btree: BTree, ghost i: nat) returns (ok: bool)
      requires Family(node, btree.pages, key, i) && 1 <= btree.m
      requires i + 1 < |kids| && |btree.pages[kids[i + 1]].cells| > btree.m ==> CanGive(btree.pages[kids[i + 1]], node.Snap())
      modifies this`cells, node`cells, node`kids, btree`pages
      ensures ok <==> i + 1 < |kids| && |old(btree.pages)[kids[i + 1]].cells| > btree.m
      ensures !ok ==> btree.pages == old(btree.pages) && Snap() == old(Snap()) && node.Snap() == old(node.Snap())
      ensures ok ==> btree.pages == BorrowRightStore(old(btree.pages), pgno, node.pgno, kids[i + 1], i) && OnPage(btree.pages, pgno)
    {
      hide Reseparated, Search;
      ghost var x, y := node.Snap(), if i + 1 < |kids| then btree.pages[kids[i + 1]] else Snap();
      var rsn := FindRightSibling(key, i);
      if rsn.None? {
        return false;
      }
      var rs := btree.GetNode(rsn.value);
      if |rs.cells| <= btree.m {
        return false;
      }
      var firstCell := rs.cells[0];
      rs.cells := rs.cells[1..];
      node.cells := node.cells + [firstCell];
      if !node.isLeaf {
        var firstKid := rs.kids[0];
        rs.kids := rs.kids[1..];
        node.kids := node.kids + [firstKid];
      }
      assert node.Snap() == TookLast(x, y) && rs.Snap() == GaveFirst(x, y);
      var midKey := node.cells[|node.cells| - 1].key;
      SeparateAfter(key, midKey, i);
      WriteBuf(btree);
      node.WriteBuf(btree);
      rs.WriteBuf(btree);
      assert btree.pages == old(btree.pages)[pgno := Snap()][node.pgno := node.Snap()][rs.pgno := rs.Snap()];
      ok := true;
    }

    method Clear()
      modifies this`left, this`right, this`cells, this`kids
      ensures Snap() == Node(isLeaf, 0, 0, [], [])
    {
      left := 0;
      right := 0;
      cells := [];
      kids := [];
    }

    /** Gives up the last child i, whose cells went to the child before it. */
    method DropLast(key: int, nodeLast: int, ghost i: nat)
      requires FindsChild(Snap(), key, i) && 0 < i == |kids| - 1
      modifies this`cells, this`kids
      ensures Snap() == MergedLast(old(Snap()), i, nodeLast)
    {
      var s := BinarySearchCell(key);
      match s {
        case Equal(idx) =>
          cells := cells[..idx] + cells[idx + 1..];
          cells := cells[idx - 1 := cells[idx - 1].(key := nodeLast)];
          kids := kids[..idx] + kids[idx + 1..];
        case LessThan(idx) =>
          cells := cells[..idx] + cells[idx + 1..];
          cells := cells[idx - 1 := cells[idx - 1].(key := nodeLast)];
          kids := kids[..idx] + kids[idx + 1..];
        case Right =>
          cells := cells[|cells| - 1 := cells[|cells| - 1].(key := nodeLast)];
          kids := kids[..|kids| - 1];
      }
    }

    /** Gives up the child after child i, whose cells went to child i. */
    method DropNext(key: int, nodeLast: int, ghost i: nat)
      requires FindsChild(Snap(), key, i) && i + 1 < |kids|
      modifies this`cells, this`kids
      ensures Snap() == MergedNext(old(Snap()), i, nodeLast)
    {
      var s := BinarySearchCell(key);
      var idx := 0;
      match s {
        case Equal(x) => idx := x;
        case LessThan(x) => idx := x;
        case Right => assert false;  // the source panics here; the last child has no right sibling
      }
      cells := cells[..idx] + cells[idx + 1..];
      if cells == [] {
        cells := [Cell(nodeLast, [])];
      } else if |cells| > idx {
        cells := cells[idx := cells[idx].(key := nodeLast)];
      }
      kids := kids[..idx + 1] + kids[idx + 2..];
    }

    /** Tells the right neighbour, if there is one, who is now on its left. */
    method LinkBack(btree: BTree)
      requires right != 0 ==> right in btree.pages
      modifies btree`pages
      ensures btree.pages == if right != 0 then old(btree.pages)[right := old(btree.pages)[right].(left := pgno)] else old(btree.pages)
    {
      if right != 0 {
        var rnode := btree.GetNode(right);
        rnode.left := pgno;
        rnode.WriteBuf(btree);
      }
    }

    /** Writes a merge out: `l` has taken the contents of its right neighbour `r`, whose page is freed. */
    method FinishMerge(l: BTreeNode, r: BTreeNode, btree: BTree)
      requires l != this && r != this && l != r && l.pgno != pgno && r.pgno != pgno
      requires Mergeable(btree.pages, l.pgno, r.pgno, pgno) && pgno in btree.pages
      requires l.Snap().(right := 0) == MergedNode(btree.pages[l.pgno], btree.pages[r.pgno]).(right := 0)
      requires r.isLeaf == btree.pages[r.pgno].isLeaf && r.right == btree.pages[r.pgno].right
      modifies l, r, btree`pages, btree`newFree
      ensures btree.pages == MergeStore(old(btree.pages), pgno, Snap(), l.pgno, r.pgno)
      ensures btree.Free() == Release(old(btree.Free()), r.pgno)
    {
      ghost var P := btree.pages;
      l.right := r.right;
      assert l.Snap() == MergedNode(P[l.pgno], P[r.pgno]);
      l.LinkBack(btree);
      r.Clear();
      r.WriteBuf(btree);
      btree.SetPageFree(r.pgno);
      WriteBuf(btree);
      l.WriteBuf(btree);
    }

    /** Merges the last child, `node`, into its left sibling; an inner node takes its children along. */
    method MergeIntoLeft(key: int, node: BTreeNode, lsn: nat, btree: BTree, inner: bool, ghost i: nat)
      requires Family(node, btree.pages, key, i) && i == |kids| - 1 && lsn == kids[i - 1]
      requires Mergeable(btree.pages, lsn, node.pgno, pgno) && (inner || node.isLeaf)
      modifies this`cells, this`kids, node, btree`pages, btree`newFree
      ensures MergedInto(old(btree.pages), old(btree.Free()), old(Snap()), i, btree.pages, btree.Free(), pgno)
      ensures OnPage(btree.pages, pgno)
    {
      hide Search, MergedLast, Release;
      var ls := btree.GetNode(lsn);
      var nodeLast := node.cells[|node.cells| - 1].key;
      ls.cells := ls.cells + node.cells;
      node.cells := [];
      if inner {
        ls.kids := ls.kids + node.kids;
        node.kids := [];
      }
      DropLast(key, nodeLast, i);
      FinishMerge(ls, node, btree);
    }

    /** Merges the right sibling into child i, `node`. */
    method MergeFromRight(key: int, node: BTreeNode, rsn: nat, btree: BTree, inner: bool, ghost i: nat)
      requires Family(node, btree.pages, key, i) && i + 1 < |kids| && rsn == kids[i + 1]
      requires Mergeable(btree.pages, node.pgno, rsn, pgno) && (inner || node.isLeaf)
      modifies this`cells, this`kids, node, btree`pages, btree`newFree
      ensures MergedInto(old(btree.pages), old(btree.Free()), old(Snap()), i, btree.pages, btree.Free(), pgno)
      ensures OnPage(btree.pages, pgno)
    {
      hide Search, MergedNext, Release;
      var rs := btree.GetNode(rsn);
      var nodeLast := rs.cells[|rs.cells| - 1].key;
      node.cells := node.cells + rs.cells;
      rs.cells := [];
      if inner {
        node.kids := node.kids + rs.kids;
        rs.kids := [];
      }
      DropNext(key, nodeLast, i);
      FinishMerge(node, rs, btree);
    }

    /** Merges child i with its right sibling, or with the left one if it is the last child. */
    method MergeLeaf(key: int, node: BTreeNode, btree: BTree, ghost i: nat)
      requires Family(node, btree.pages, key, i)
      requires if i == |kids| - 1 then Mergeable(btree.pages, kids[i - 1], node.pgno, pgno)
               else Mergeable(btree.pages, node.pgno, kids[i + 1], pgno)
      modifies this`cells, this`kids, node, btree`pages, btree`newFree
      ensures MergedInto(old(btree.pages), old(btree.Free()), old(Snap()), i, btree.pages, btree.Free(), pgno)
      ensures OnPage(btree.pages, pgno)
    {
      hide Mergeable, MergedInto;
      if !node.isLeaf {
        MergeInternal(key, node, btree, i);
      } else {
        var lsibling := FindLeftSibling(key, i);
        var rsibling := FindRightSibling(key, i);
        match rsibling {
          case None => MergeIntoLeft(key, node, lsibling.value, btree, false, i);
          case Some(rsn) => MergeFromRight(key, node, rsn, btree, false, i);
        }
      }
    }

    method MergeInternal(key: int, node: BTreeNode, btree: BTree, ghost i: nat)
      requires Family(node, btree.pages, key, i)
      requires if i == |kids| - 1 then Mergeable(btree.pages, kids[i - 1], node.pgno, pgno)
               else Mergeable(btree.pages, node.pgno, kids[i + 1], pgno)
      modifies this`cells, this`kids, node, btree`pages, btree`newFree
      ensures MergedInto(old(btree.pages), old(btree.Free()), old(Snap()), i, btree.pages, btree.Free(), pgno)
      ensures OnPage(btree.pages, pgno)
    {
      hide Mergeable, MergedInto;
      var lsibling := FindLeftSibling(key, i);
      var rsibling := FindRightSibling(key, i);
      match rsibling {
        case None => MergeIntoLeft(key, node, lsibling.value, btree, true, i);
        case Some(rsn) => MergeFromRight(key, node, rsn, btree, true, i);
      }
    }
  }

  /** The page store of one database, with the free-list fields held in memory. */
  class BTree {
    const m: nat
    var pages: Store
    var newFree: seq<nat>
    var freeFirst: nat
    var freeLen: nat
    var freeNext: map<nat, nat>
    var total: nat

    constructor (m: nat)
      ensures this.m == m
    {
      this.m := m;
      pages, newFree, freeFirst, freeLen, freeNext, total := map[], [], 0, 0, map[], 0;
    }

    function Free(): FreeState
      reads this`newFree, this`freeFirst, this`freeLen, this`freeNext, this`total
    {
      FreeState(newFree, freeFirst, freeLen, freeNext, total)
    }

    /** The tree t of height h is stored here, with its levels linked and the free pages apart from it. */
    ghost predicate Holds(t: Tree, h: nat)
      reads this
    {
      Kept(pages, Free(), t, h, m)
    }

    method GetNode(pgno: nat) returns (n: BTreeNode)
      requires pgno in pages
      ensures fresh(n) && n.pgno == pgno && n.Snap() == pages[pgno]
    {
      n := new BTreeNode(pgno, pages[pgno]);
    }

    method AcquireFreePgno() returns (r: Option<nat>)
      modifies this`newFree, this`freeFirst, this`freeLen
      ensures old(newFree) == [] && old(freeLen) == 0 ==> r == None && Free() == old(Free())
      ensures old(newFree) != [] || old(freeLen) != 0 ==> r.Some? && (r.value, Free()) == Take(old(Free()))
    {
      if newFree == [] {
        if freeLen == 0 {
          r := None;
        } else {
          var pgno := freeFirst;
          freeFirst := NextOf(freeNext, pgno);
          freeLen := freeLen - 1;
          r := Some(pgno);
        }
      } else {
        r := Some(newFree[|newFree| - 1]);
        newFree := newFree[..|newFree| - 1];
      }
    }

    method GetNewPage() returns (pgno: nat)
      modifies this`newFree, this`freeFirst, this`freeLen, this`total
      ensures (pgno, Free()) == Take(old(Free()))
    {
      var r := AcquireFreePgno();
      match r {
        case Some(p) => pgno := p;
        case None =>
          pgno := total;
          total := total + 1;
      }
    }

    method NewNode(isLeaf: bool) returns (n: BTreeNode)
      modifies this`newFree, this`freeFirst, this`freeLen, this`total
      ensures (n.pgno, Free()) == Take(old(Free()))
      ensures fresh(n) && n.Snap() == Node(isLeaf, 0, 0, [], [])
    {
      var pgno := GetNewPage();
      n := new BTreeNode(pgno, Node(isLeaf, 0, 0, [], []));
    }

    method SetPageFree(pgno: nat)
      modifies this`newFree
      ensures Free() == Release(old(Free()), pgno)
    {
      newFree := AddSorted(newFree, pgno);
    }

    /** Frees every page of the tree below rootPgno. */
    method FreeTree(rootPgno: nat, ghost t: Tree)
      requires Skel(pages, t) && t.pg == rootPgno && Distinct(t)
      requires FreeOk(Free()) && Pages(t) !! Spare(Free()) && Inside(t, Free())
      modifies this`newFree
      ensures FreeOk(Free()) && Spare(Free()) == old(Spare(Free())) + Pages(t)
      decreases t
    {
      hide FreeOk, Spare, Distinct, DistinctF;
      var node := GetNode(rootPgno);
      if !node.isLeaf {
        PagesStart(t.kids);
        for i := 0 to |node.kids|
          invariant node.Snap() == pages[rootPgno]
          invariant FreeOk(Free()) && i <= |t.kids|
          invariant Spare(Free()) == old(Spare(Free())) + PagesF(t.kids[..i])
        {
          FreeKid(t, i, old(Free()), Free());
          if node.kids[i] != 0 {
            FreeTree(node.kids[i], t.kids[i]);
          }
        }
        assert t.kids[..|t.kids|] == t.kids;
      }
      FreeRoot(t, old(Free()), Free());
      ReleaseOk(Free(), rootPgno);
      SetPageFree(rootPgno);
    }

    /** Writes the freed pages in front of the on-disk chain. */
    method WriteFreePage()
      requires FreeOk(Free())
      modifies this`freeNext, this`freeLen, this`freeFirst
      ensures newFree == old(newFree) && Free().(newFree := []) == Committed(old(Free()))
    {
      if newFree != [] {
        var len := |newFree|;
        for i := 0 to len
          invariant freeNext == Threaded(old(Free()), i) && freeLen == old(freeLen) && freeFirst == old(freeFirst)
        {
          var next := if i < len - 1 then newFree[i + 1] else if freeLen != 0 then freeFirst else 0;
          freeNext := freeNext[newFree[i] := next];
        }
        freeLen := freeLen + len;
        freeFirst := newFree[0];
      }
    }

    method BeginTransactionWrite()
      modifies this`newFree
      ensures Free() == old(Free()).(newFree := [])
    {
      newFree := [];
    }

    /**
     Commits the freed pages and starts the next transaction: every tree is kept and no page is lost; the free
     ones are now all on a chain that is acyclic, ends at 0 and has the recorded length.
     */
    method CommitFree(ghost t: Tree, ghost h: nat)
      requires Holds(t, h)
      modifies this`newFree, this`freeNext, this`freeLen, this`freeFirst
      ensures Holds(t, h) && newFree == [] && Spare(Free()) == old(Spare(Free())) && total == old(total)
      ensures FreeChain(Free()) == old(newFree) + old(FreeChain(Free()))
    {
      hide Stored, Linked, Lay;
      CommittedOk(Free());
      WriteFreePage();
      BeginTransactionWrite();
    }

    /** Makes the separators below page pgno exact; returns the largest key below it. */
    method RefreshSeparatorsInner(pgno: nat, ghost u: Tree, ghost h: nat, ghost lo: int, ghost right: bool) returns (r: Option<int>)
      requires Skel(pages, u) && u.pg == pgno && Distinct(u) && Shape(u, h) && Wf(u, h, lo, m, right) && 1 <= m
      modifies this`pages
      ensures Lay(pages, u)
      ensures Rekeyed(old(pages), pages) && RestSame(old(pages), pages, Pages(u))
      ensures r == if Entries(u) == [] then None else Some(Max(u))
      decreases u
    {
      var node := GetNode(pgno);
      if node.isLeaf {
        return if node.cells == [] then None else Some(node.cells[|node.cells| - 1].key);
      }
      var childMaxes := RefreshChildren(node, u, h, right);
      ghost var P := pages;
      ghost var n := node.Snap();
      var changed := false;
      for idx := 0 to |node.cells|
        invariant pages == P && |node.cells| == |n.cells| && fresh(node)
        invariant SameButKeys(n, node.Snap()) && node.pgno == pgno
        invariant !changed ==> node.Snap() == n
        invariant forall j :: 0 <= j < idx && j < |childMaxes| ==> node.cells[j].key == childMaxes[j]
      {
        if idx < |childMaxes| && node.cells[idx].key != childMaxes[idx] {
          node.cells := node.cells[idx := node.cells[idx].(key := childMaxes[idx])];
          changed := true;
        }
      }
      if changed {
        node.WriteBuf(this);
      }
      assert pages == P[pgno := node.Snap()];
      KidsNonEmpty(u.kids, h - 1, m, right);
      RefreshedNode(old(pages), P, node.Snap(), u, childMaxes);
      r := if childMaxes == [] then None else Some(childMaxes[|childMaxes| - 1]);
    }

    method RefreshSeparators(ghost u: Tree, ghost h: nat)
      requires Skel(pages, u) && u.pg == 1 && Distinct(u) && Shape(u, h) && Wf(u, h, 0, m, true) && 1 <= m
      modifies this`pages
      ensures Lay(pages, u)
      ensures Rekeyed(old(pages), pages) && RestSame(old(pages), pages, Pages(u))
    {
      var _ := RefreshSeparatorsInner(1, u, h, 0, true);
    }

    /** The largest keys of the children of u, whose separators are exact then. */
    method RefreshChildren(node: BTreeNode, ghost u: Tree, ghost h: nat, ghost right: bool) returns (childMaxes: seq<int>)
      requires Skel(pages, u) && Distinct(u) && Shape(u, h) && 1 <= m
      requires u.Inner? && KidsWf(u.kids, h - 1, m, right) && node.OnPage(pages, u.pg)
      modifies this`pages
      ensures Refreshed(old(pages), pages, u, childMaxes, |u.kids|)
      decreases u, 0
    {
      childMaxes := [];
      for i := 0 to |node.kids|
        invariant node.Snap() == old(node.Snap()) && Refreshed(old(pages), pages, u, childMaxes, i)
      {
        ghost var P := pages;
        RefreshNext(old(pages), P, u, childMaxes, i, h, m, right);
        var max := RefreshSeparatorsInner(node.kids[i], u.kids[i], h - 1, m, right && i == |u.kids| - 1);
        RefreshedOne(old(pages), P, pages, u, childMaxes, i);
        match max {
          case None =>
          case Some(k) => childMaxes := childMaxes + [k];
        }
      }
    }
  }

  /** A position in a tree: the current node and the nodes above it. */
  class BTreeCursor {
    const btree: BTree
    var node: BTreeNode
    var path: seq<BTreeNode>
    var cellIdx: nat

    constructor (btree: BTree, rootPgno: nat)
      requires rootPgno in btree.pages
      ensures this.btree == btree && path == [] && cellIdx == 0
      ensures fresh(node) && node.pgno == rootPgno && node.Snap() == btree.pages[rootPgno]
    {
      this.btree := btree;
      var n := btree.GetNode(rootPgno);
      node, path, cellIdx := n, [], 0;
    }

    /** The cursor stands at depth d on the path of k in t, and every node it holds agrees with its page. */
    ghost predicate At(t: Tree, k: int, d: nat)
      reads this, btree`pages, node, path
    {
      && |path| == d && Deep(t, k, d)
      && node.OnPage(btree.pages, SubAt(t, k, d).pg)
      && forall j :: 0 <= j < d ==> Deep(t, k, j) && path[j].OnPage(btree.pages, SubAt(t, k, j).pg)
    }

    method MoveToRoot()
      modifies this`node, this`path
      ensures path == []
      ensures node == if old(path) == [] then old(node) else old(path)[0]
    {
      while path != []
        invariant |path| <= |old(path)| && path == old(path)[..|path|]
        invariant node == if |path| == |old(path)| then old(node) else old(path)[|path|]
        decreases |path|
      {
        var p := path[|path| - 1];
        path := path[..|path| - 1];
        node := p;
      }
    }

    /** Steps down; if the cursor was on the path of k and pgno is the next page of it, it still is. */
    method MoveToChild(pgno: nat, ghost t: Tree, ghost k: int)
      requires pgno in btree.pages
      requires At(t, k, |path|) && Deep(t, k, |path| + 1) && pgno == SubAt(t, k, |path| + 1).pg
      modifies this`node, this`path
      ensures path == old(path) + [old(node)]
      ensures fresh(node) && node.pgno == pgno && node.Snap() == btree.pages[pgno]
      ensures At(t, k, |path|)
    {
      path := path + [node];
      node := btree.GetNode(pgno);
    }

    /** Steps up, along the path of k. */
    method MoveToParent(ghost t: Tree, ghost k: int)
      requires At(t, k, |path|)
      modifies this`node, this`path
      ensures old(path) == [] ==> path == [] && node == old(node)
      ensures old(path) != [] ==> path == old(path)[..|old(path)| - 1] && node == old(path)[|old(path)| - 1]
      ensures At(t, k, |path|)
    {
      if path != [] {
        node := path[|path| - 1];
        path := path[..|path| - 1];
      }
    }

    /** One search on the way down: the page to go to, or at a leaf whether the key is there. */
    method ChildFor(key: int, ghost child: nat) returns (leaf: bool, found: bool, pgno: nat)
      requires Sorted(node.cells)
      requires !node.isLeaf ==> LeadsTo(node.Snap(), key, child)
      ensures leaf == node.isLeaf
      ensures leaf ==> (found <==> Has(node.cells, key))
      ensures !leaf ==> pgno == child
    {
      SearchMeans(node.cells, key);
      var r := node.BinarySearchCell(key);
      leaf, found, pgno := node.isLeaf, false, 0;
      match r {
        case Equal(idx) => if node.isLeaf { found := true; } else { pgno := node.kids[idx]; }
        case LessThan(idx) => if !node.isLeaf { pgno := node.kids[idx]; }
        case Right => if !node.isLeaf { pgno := node.kids[|node.kids| - 1]; }
      }
    }

    /** Descends from the root to the leaf where key belongs. */
    method MoveToTarget(key: int, ghost t: Tree, ghost h: nat) returns (found: bool)
      requires Descent(btree.pages, t, h, key)
      requires At(t, key, 0)
      modifies this`node, this`path
      ensures At(t, key, h)
      ensures found <==> Has(node.cells, key)
      ensures forall j :: 0 <= j < h ==> fresh(path[j]) || path[j] == old(node)
      ensures fresh(node) || node == old(node)
    {
      hide LeadsTo, Search;
      assert OnPath(btree.pages, t, h, key, 0);
      var here := node.ContainsKey(key);
      if here && node.isLeaf {
        return true;
      }
      MoveToRoot();
      ghost var d := 0;
      while true
        invariant d <= h && At(t, key, d)
        invariant forall j :: 0 <= j < d ==> fresh(path[j]) || path[j] == old(node)
        invariant fresh(node) || node == old(node)
        decreases h - d
      {
        assert OnPath(btree.pages, t, h, key, d);
        var leaf, hit, pgno := ChildFor(key, if d < h then SubAt(t, key, d + 1).pg else 0);
        if leaf {
          return hit;
        }
        MoveToChild(pgno, t, key);
        d := d + 1;
      }
    }

    // ---------------------------------------------------------------- insert

    /** The root keeps its page and moves its contents, the left half, to newNode. */
    method KeepRoot(newNode: BTreeNode, rchild: BTreeNode, upkey: int)
      requires newNode != node && newNode != rchild && node != rchild && 1 <= btree.m
      requires node.pgno in btree.pages && node.Snap() == btree.pages[node.pgno]
      requires rchild.pgno in btree.pages && rchild.Snap() == btree.pages[rchild.pgno]
      requires newNode.isLeaf == node.isLeaf
      requires node.pgno != rchild.pgno && newNode.pgno != node.pgno && newNode.pgno != rchild.pgno
      modifies node, newNode, rchild, btree`pages
      ensures btree.pages == KeepRootStore(old(btree.pages), node.pgno, rchild.pgno, newNode.pgno, upkey)
      ensures node.OnPage(btree.pages, node.pgno)
    {
      ghost var n, rn := node.Snap(), rchild.Snap();
      newNode.left := node.left;
      newNode.right := node.right;
      newNode.cells := node.cells;
      newNode.kids := node.kids;
      node.left := 0;
      node.right := 0;
      node.cells := [];
      node.isLeaf := false;
      node.kids := [];
      assert Sorted(node.cells);
      var r := node.InsertInternal(upkey, newNode.pgno, rchild.pgno, btree.m, btree);
      rchild.left := newNode.pgno;
      assert newNode.Snap() == n && rchild.Snap() == rn.(left := newNode.pgno);
      ghost var root := Node(false, 0, 0, [Cell(upkey, [])], [newNode.pgno, rchild.pgno]);
      assert node.Snap() == root;
      node.WriteBuf(btree);
      assert btree.pages == old(btree.pages)[node.pgno := root];
      newNode.WriteBuf(btree);
      rchild.WriteBuf(btree);
    }

    /** What an insert under way has done so far: d levels are left above, fs stands there, n pages were taken. */
    ghost predicate Under(w: World, f: FreeState, n: nat, fs: seq<Tree>)
      reads this, btree, node, path
    {
      && WorldOk(w) && w.m == btree.m && w.alloc == TakeN(f, w.h + 2) && |path| <= w.h
      && Stage(w, btree.pages, |path|, fs)
      && btree.Free() == After(f, n)
      && At(w.t, w.k, |path|)
    }

    /** What a finished insert leaves in the store. */
    ghost predicate InsertDone(w: World, f: FreeState)
      reads this, btree, node
    {
      && Shape(w.t, w.h) && |w.alloc| == w.h + 2
      && LayBut(btree.pages, InsRoot(w.t, w.h, w.k, w.v, w.m, w.alloc), Over(w))
      && Linked(btree.pages, [InsRoot(w.t, w.h, w.k, w.v, w.m, w.alloc)])
      && btree.Free() == After(f, Proof.UsedRoot(Ins(w.t, w.h, w.k, w.v, w.m, w.alloc), w.h))
      && path == [] && node.OnPage(btree.pages, w.t.pg)
      && Untouched(w, btree.pages)
    }

    /** Splits the full node the cursor stands at, and tells its parent. */
    method SplitNode(upkey: int, ghost w: World, ghost f: FreeState, ghost o: Tree)
      requires |path| <= w.h && Under(w, f, w.h - |path|, [o]) && FullDone(w, |path|, o, upkey)
      modifies this`node, this`path, btree, node, path
      ensures InsertDone(w, f)
      decreases |path|, 1
    {
      hide Stage, WorldOk, FullHere;
      var newPage := SplitOff(w, f, o, upkey);
      SplitInner(newPage, upkey, w, f, LeftHalf(o), RightHalf(o, newPage.pgno));
    }

    method SplitOff(ghost w: World, ghost f: FreeState, ghost o: Tree, ghost upkey: int) returns (newPage: BTreeNode)
      requires |path| <= w.h && Under(w, f, w.h - |path|, [o]) && FullDone(w, |path|, o, upkey)
      modifies btree, node
      ensures fresh(newPage) && newPage.OnPage(btree.pages, w.alloc[w.h - |path|])
      ensures Under(w, f, w.h - |path| + 1, [LeftHalf(o), RightHalf(o, newPage.pgno)])
    {
      hide Stage, WorldOk, FullHere, SubGrown, SplitFull, LeftHalf, RightHalf, Count, Max, Deep, SubAt, SplitStore;
      ghost var d := |path|;
      ghost var P, y := btree.pages, w.alloc[w.h - d];
      ghost var Q, fs := SplitOffStep(w, P, d, o);
      NextPage(f, w.alloc, w.h - d);
      newPage := btree.NewNode(node.isLeaf);
      node.Split(newPage, btree);
      assert btree.pages == Q;
      ghost var staged := Stage(w, btree.pages, d, fs);
      assert staged;
      forall j | 0 <= j < d ensures Deep(w.t, w.k, j) && path[j].OnPage(btree.pages, SubAt(w.t, w.k, j).pg) {
        assert Above(w.t, w.k, P, Q, j);
      }
    }

    /** Gives the parent the new separator and child, splitting it in turn when it is full. */
    method SplitInner(rchild: BTreeNode, upkey: int, ghost w: World, ghost f: FreeState, ghost l: Tree, ghost r: Tree)
      requires |path| <= w.h && Under(w, f, w.h - |path| + 1, [l, r]) && SubGrown(w, |path|) == Two(l, r)
      requires rchild.OnPage(btree.pages, r.pg) && upkey == Max(l) && rchild != node
      modifies this`node, this`path, btree, node, rchild, path
      ensures InsertDone(w, f)
      decreases |path|, 0
    {
      hide Stage, FullDone, SubGrown;
      if path == [] {
        SplitRoot(rchild, upkey, w, f, l, r);
      } else {
        var lchild := node;
        HalvesPages(w, |path|, l, r);
        MoveToParent(w.t, w.k);
        TellParent(lchild.pgno, rchild.pgno, upkey, w, f, l, r);
      }
    }

    method TellParent(lchild: nat, rchild: nat, upkey: int, ghost w: World, ghost f: FreeState, ghost l: Tree, ghost r: Tree)
      requires |path| < w.h && HalvesBelow(w, f, l, r)
      requires lchild == l.pg && rchild == r.pg && upkey == Max(l)
      modifies this`node, this`path, btree, node, path
      ensures InsertDone(w, f)
      decreases |path|, 2
    {
      var res := ParentInsert(lchild, rchild, upkey, w, f, l, r);
      ghost var o := SplicedAt(w, |path|, l, r);
      match res {
        case Error => assert false;
        case NeedSplit(upkey2) => SplitNode(upkey2, w, f, o);
        case Ok => FinishInsert(w, f, o);
      }
    }

    /** The cursor stands above the two halves l and r, which its node does not know of yet. */
    ghost predicate HalvesBelow(w: World, f: FreeState, l: Tree, r: Tree)
      requires |path| < w.h
      reads this, btree, node, path
    {
      && WorldOk(w) && w.m == btree.m && w.alloc == TakeN(f, w.h + 2)
      && Stage(w, btree.pages, |path| + 1, [l, r])
      && SubGrown(w, |path| + 1) == Two(l, r)
      && btree.Free() == After(f, w.h - |path|)
      && At(w.t, w.k, |path|)
    }

    method SplitRoot(rchild: BTreeNode, upkey: int, ghost w: World, ghost f: FreeState, ghost l: Tree, ghost r: Tree)
      requires path == [] && Under(w, f, w.h + 1, [l, r]) && SubGrown(w, 0) == Two(l, r)
      requires rchild.OnPage(btree.pages, r.pg) && upkey == Max(l) && rchild != node
      modifies btree, node, rchild
      ensures InsertDone(w, f)
    {
      hide Stage, LayBut, Linked, Untouched, Over;
      RootStage(w, btree.pages, l, r);
      NextPage(f, w.alloc, w.h + 1);
      RootSpace(w, l, r);
      var newRoot := btree.NewNode(node.isLeaf);
      KeepRoot(newRoot, rchild, upkey);
    }

    /** The step of the parent, which never finds the new separator already there. */
    method ParentInsert(lchild: nat, rchild: nat, upkey: int, ghost w: World, ghost f: FreeState, ghost l: Tree, ghost r: Tree)
      returns (res: InsertResult)
      requires |path| < w.h && HalvesBelow(w, f, l, r)
      requires lchild == l.pg && rchild == r.pg && upkey == Max(l)
      modifies node, btree`pages
      ensures Under(w, f, w.h - |path|, [SplicedAt(w, |path|, l, r)])
      ensures !res.Error?
      ensures res.NeedSplit? ==> FullDone(w, |path|, SplicedAt(w, |path|, l, r), res.key)
      ensures res.Ok? ==> SubGrown(w, |path|) == One(SplicedAt(w, |path|, l, r), w.h - |path|)
    {
      hide Stage, WorldOk, FullDone, SubGrown;
      ghost var d := |path|;
      ghost var P := btree.pages;
      ghost var o := SplicedAt(w, d, l, r);
      ParentStep(w, P, d, l, r);
      ghost var Q := ParentStore(P, node.pgno, l, r);
      assert Stage(w, Q, d, [o]);
      PathKept(w, P, Q, d);
      res := node.InsertInternal(upkey, lchild, rchild, btree.m, btree);
      assert btree.pages == Q;
      ghost var staged := Stage(w, btree.pages, d, [o]);
      assert staged;
      forall j | 0 <= j < d ensures Deep(w.t, w.k, j) && path[j].OnPage(btree.pages, SubAt(w.t, w.k, j).pg) {
        assert Above(w.t, w.k, P, Q, j);
      }
    }

    method FinishInsert(ghost w: World, ghost f: FreeState, ghost o: Tree)
      requires |path| <= w.h && Under(w, f, w.h - |path|, [o]) && SubGrown(w, |path|) == One(o, w.h - |path|)
      modifies this`node, this`path
      ensures InsertDone(w, f)
    {
      hide Deep, LayBut, TakeN;
      FinalLay(w, btree.pages, 0, |path|, o);
      MoveToRoot();
    }

    /**
     Inserts below the root the cursor stands at. A key that is present leaves everything alone; otherwise the
     tree becomes InsRoot, and the panic after a failed separator insert is never reached. The separators are exact
     again, but for a new maximum that goes below a closed node: there it is overlooked.
     */
    method Insert(key: int, val: Record, ghost t: Tree, ghost h: nat) returns (ok: bool)
      requires btree.Holds(t, h) && path == [] && node.OnPage(btree.pages, t.pg)
      modifies this`node, this`path, btree, node
      ensures ok <==> !Has(Entries(t), key)
      ensures !ok ==> btree.pages == old(btree.pages) && btree.Free() == old(btree.Free())
      ensures ok ==> AfterInsert(InsertWorld(old(btree.pages), old(btree.Free()), t, h, key, val, btree.m), old(btree.Free()),
                                 btree.pages, btree.Free())
    {
      hide Kept, AfterInsert, Sorted, LeadsTo, Exact;
      ghost var f, P := btree.Free(), btree.pages;
      ghost var w := InsertWorld(P, f, t, h, key, val, btree.m);
      KeptStored(P, f, t, h, btree.m);
      DescentOk(P, t, h, key, btree.m);
      PathNode(P, t, h, key, btree.m, 0);
      PathNode(P, t, h, key, btree.m, h);
      var found := MoveToTarget(key, t, h);
      if found {
        return false;
      }
      InsertWorldOk(P, f, t, h, key, val, btree.m);
      InsertAbsent(key, val, w, f);
      return true;
    }

    method InsertAbsent(key: int, val: Record, ghost w: World, ghost f: FreeState)
      requires WorldOk(w) && w.m == btree.m && w.P0 == btree.pages && f == btree.Free() && w.alloc == TakeN(f, w.h + 2)
      requires Kept(w.P0, f, w.t, w.h, w.m) && key == w.k && val == w.v
      requires At(w.t, w.k, w.h) && Sorted(node.cells) && !Has(node.cells, key) && !Has(Entries(w.t), key)
      modifies this`node, this`path, btree, node, path
      ensures AfterInsert(w, f, btree.pages, btree.Free())
    {
      hide Kept, AfterInsert, WorldOk, Stage, SubGrown, FullDone, Sorted, Has, FreeOk, Entries, InsRoot, InsHeight;
      ghost var o := LeafStep(w);
      ghost var Q := LeafStore(w.P0, node.pgno, key, val);
      var r := node.InsertLeaf(key, val, btree.m, btree);
      assert btree.pages == Q;
      ghost var staged := Stage(w, btree.pages, w.h, [o]);
      assert staged;
      forall j | 0 <= j < w.h ensures Deep(w.t, w.k, j) && path[j].OnPage(btree.pages, SubAt(w.t, w.k, j).pg) {
        assert Above(w.t, w.k, w.P0, Q, j);
      }
      match r {
        case Error => assert false;
        case Ok => LeafDone(w, f, btree.pages, o);
        case NeedSplit(upkey) =>
          SplitNode(upkey, w, f, o);
          SeekInserted(key, w, f);
      }
    }

    /** After a split the cursor goes down again to the key. */
    method SeekInserted(key: int, ghost w: World, ghost f: FreeState)
      requires InsertDone(w, f) && key == w.k && w.m == btree.m && WorldOk(w) && w.alloc == TakeN(f, w.h + 2)
      requires Kept(w.P0, f, w.t, w.h, w.m) && !Has(Entries(w.t), w.k)
      modifies this`node, this`path
      ensures AfterInsert(w, f, btree.pages, btree.Free())
    {
      hide AfterInsert, Kept, WorldOk, Stage, SubGrown, FullDone, Sorted, Has, FreeOk, Entries;
      AfterInsertHolds(w, f, btree.pages);
      ghost var u := InsRoot(w.t, w.h, w.k, w.v, w.m, w.alloc);
      ghost var h := InsHeight(w.t, w.h, w.k, w.v, w.m, w.alloc);
      AfterInsertStored(w, f, btree.pages, btree.Free());
      DescentBut(btree.pages, u, h, key, btree.m, Over(w));
      var _ := MoveToTarget(key, u, h);
    }

    /** Looks a key up; it is found also where closed nodes overlook the largest key. */
    method GetVal(key: int, ghost t: Tree, ghost h: nat, ghost over: Option<int>) returns (r: Option<Record>)
      requires KeptBut(btree.pages, btree.Free(), t, h, btree.m, over) && path == [] && node.OnPage(btree.pages, t.pg)
      modifies this`node, this`path
      ensures Sorted(Entries(t))
      ensures r == if key in AsMap(Entries(t)) then Some(AsMap(Entries(t))[key]) else None
    {
      hide LayBut, Wf, LeadsTo, Linked, FreeOk;
      DescentBut(btree.pages, t, h, key, btree.m, over);
      LeafBinds(btree.pages, t, h, key, btree.m, over);
      var found := MoveToTarget(key, t, h);
      if found { r := node.GetKey(key); } else { r := None; }
    }

    // ---------------------------------------------------------------- remove

    /** A removal is under way: the subtree at the cursor's depth is what the specification makes of it. */
    ghost predicate Removing(w: Removal)
      reads this, btree, node, path
    {
      && RemovalOk(w) && w.m == btree.m && |path| <= w.h
      && RemStage(w, btree.pages, btree.Free(), |path|, SubRem(w, |path|))
      && At(w.t, w.k, |path|)
    }

    /** The parent the cursor stands at repairs the short child `child`, one level down; false means it was a borrow. */
    method Mend(key: int, child: BTreeNode, ghost w: Removal) returns (merged: bool)
      requires RemovalOk(w) && w.m == btree.m && |path| < w.h && key == w.k
      requires RemStage(w, btree.pages, btree.Free(), |path| + 1, SubRem(w, |path| + 1))
      requires Count(SubRem(w, |path| + 1)) < w.m
      requires At(w.t, w.k, |path|) && Deep(w.t, w.k, |path| + 1) && child.OnPage(btree.pages, SubAt(w.t, w.k, |path| + 1).pg)
      modifies node, child, btree`pages, btree`newFree
      ensures Removing(w)
      ensures !merged ==> NotShort(w, |path|)
    {
      hide RemStage, RemovalOk, SubRem, MendDue, MergedInto, NotShort, FindsChild, CanGive, Mergeable, BorrowLeftStore, BorrowRightStore, Distinct;
      ghost var P, f, d := btree.pages, btree.Free(), |path| + 1;
      ghost var o, i := MendStart(w, P, f, d);
      MendAsks(w, P, f, d, o, i);
      PathApart(w.t, w.k, d);
      merged := false;
      var ok := node.TryBorrowLeft(key, child, btree, i);
      if ok {
        MendLeft(w, P, f, d, o, i);
      } else {
        ok := node.TryBorrowRight(key, child, btree, i);
        if ok {
          MendRight(w, P, f, d, o, i);
        } else {
          node.MergeLeaf(key, child, btree, i);
          MendMerged(w, P, f, d, o, i, btree.pages, btree.Free());
          merged := true;
        }
      }
      forall j | 0 <= j < |path| ensures Deep(w.t, w.k, j) && path[j].OnPage(btree.pages, SubAt(w.t, w.k, j).pg) {
        assert Above(w.t, w.k, P, btree.pages, j) && OtherPage(w.t, w.k, j, child.pgno);
      }
    }

    /** Repairs the leaf the cursor stands at, which is one cell short, and whatever becomes short above it. */
    method RemoveBalanceClean(key: int, ghost w: Removal)
      requires Removing(w) && |path| == w.h && key == w.k && Count(SubRem(w, |path|)) < w.m
      modifies this`node, this`path, btree, node, path
      ensures Removed(w, btree.pages, btree.Free(), RemRoot(w.t, w.h, w.k, w.m))
    {
      hide RemStage, RemovalOk, SubRem, Removed, RemRoot, Shrink;
      if path == [] {
        LeafRoot(w);
        RootStays(w, btree.pages, btree.Free());
        return;
      }
      RebalanceUp(key, w);
    }

    /** Repairs the inner node the cursor stands at, or takes a root with a single child away. */
    method BalanceInternalClean(key: int, ghost w: Removal)
      requires Removing(w) && |path| < w.h && key == w.k && Count(SubRem(w, |path|)) < w.m
      modifies this`node, this`path, btree, node, path
      ensures Removed(w, btree.pages, btree.Free(), RemRoot(w.t, w.h, w.k, w.m))
      decreases |path|, 1
    {
      hide RemStage, RemovalOk, SubRem, Removed, RemRoot, Shrink;
      if path == [] {
        ghost var u := SubRem(w, 0);
        RootNode(w, btree.pages, btree.Free());
        if |node.kids| == 1 {
          var child := node.kids[0];
          RootShrinks(w, btree.pages, btree.Free(), u);
          DecrRoot(child);
          btree.SetPageFree(child);
        } else {
          RootStays(w, btree.pages, btree.Free());
        }
        return;
      }
      RebalanceUp(key, w);
    }

    method RebalanceUp(key: int, ghost w: Removal)
      requires Removing(w) && path != [] && key == w.k && Count(SubRem(w, |path|)) < w.m
      modifies this`node, this`path, btree, node, path
      ensures Removed(w, btree.pages, btree.Free(), RemRoot(w.t, w.h, w.k, w.m))
      decreases |path|, 0
    {
      hide RemStage, RemovalOk, SubRem, Removed, RemRoot, NotShort;
      var child := node;
      MoveToParent(w.t, w.k);
      var merged := Mend(key, child, w);
      ghost var d := |path|;
      if merged && |node.cells| < btree.m {
        CellsCount(w, btree.pages, btree.Free(), d);
        BalanceInternalClean(key, w);
      } else {
        if merged {
          CellsCount(w, btree.pages, btree.Free(), d);
          FullNotShort(w, d);
        }
        StageDone(w, btree.pages, btree.Free(), d);
        RootStays(w, btree.pages, btree.Free());
      }
    }

    /** The root takes over the contents of its only child. */
    method DecrRoot(childPgno: nat)
      requires childPgno in btree.pages && node.pgno in btree.pages && node.pgno != childPgno
      modifies node, btree`pages
      ensures btree.pages == DecrStore(old(btree.pages), node.pgno, childPgno)
    {
      var cnode := btree.GetNode(childPgno);
      node.isLeaf := cnode.isLeaf;
      node.left := 0;
      node.right := 0;
      node.cells := cnode.cells;
      node.kids := cnode.kids;
      cnode.cells := [];
      cnode.kids := [];
      node.WriteBuf(btree);
      cnode.WriteBuf(btree);
    }

    /** The first n nodes of the path agree with their pages and can be searched. */
    ghost predicate PathReady(t: Tree, k: int, n: nat)
      reads this, btree`pages, path
    {
      && n <= |path|
      && forall j :: 0 <= j < n ==> ParentReady(path[j], t, k, j)
    }

    ghost predicate ParentReady(p: BTreeNode, t: Tree, k: int, j: nat)
      reads p, btree`pages
    {
      Deep(t, k, j) && p.OnPage(btree.pages, SubAt(t, k, j).pg) && Sorted(p.cells) && !p.isLeaf
    }

    /** Replaces the separator oldKey by newKey wherever it stands on the path. */
    method UpdateParentSeparator(oldKey: int, newKey: int, ghost t: Tree, ghost k: int)
      requires PathReady(t, k, |path|) && Distinct(t)
      modifies path, btree`pages
      ensures Rekeyed(old(btree.pages), btree.pages) && RestSame(old(btree.pages), btree.pages, Pages(t))
    {
      hide SubAt, Deep, Distinct;
      var i := |path|;
      while i > 0
        invariant 0 <= i <= |path| && PathReady(t, k, i)
        invariant Rekeyed(old(btree.pages), btree.pages) && RestSame(old(btree.pages), btree.pages, Pages(t))
      {
        i := i - 1;
        UpdateOne(path[i], oldKey, newKey, t, k, i);
      }
    }

    method UpdateOne(parent: BTreeNode, oldKey: int, newKey: int, ghost t: Tree, ghost k: int, ghost i: nat)
      requires ParentReady(parent, t, k, i) && PathReady(t, k, i) && Distinct(t)
      modifies parent`cells, btree`pages
      ensures PathReady(t, k, i) && Rekeyed(old(btree.pages), btree.pages)
      ensures forall p :: p !in Pages(t) ==> (p in btree.pages <==> p in old(btree.pages)) && (p in btree.pages ==> btree.pages[p] == old(btree.pages)[p])
    {
      hide SubAt, Deep, Distinct, Search, Sorted, Rekeyed, Pages;
      var r := parent.BinarySearchCell(oldKey);
      SearchMeans(parent.cells, oldKey);
      RekeyedSelf(btree.pages);
      if r.Equal? {
        PathApart(t, k, i);
        SubPages(t, k, i);
        RootPage(SubAt(t, k, i));
        parent.cells := parent.cells[r.idx := parent.cells[r.idx].(key := newKey)];
        RekeyedOne(btree.pages, parent.pgno, parent.Snap());
        parent.WriteBuf(btree);
        forall j | 0 <= j < i ensures ParentReady(path[j], t, k, j) {
          assert OtherPage(t, k, j, parent.pgno);
        }
      }
    }

    /**
     Removes below the root on page 1 that the cursor stands at. A key that is not there leaves everything alone;
     otherwise the tree becomes RemRoot, with exact separators, and the pages it does without are free.
     */
    method Remove(key: int, ghost t: Tree, ghost h: nat) returns (ok: bool)
      requires btree.Holds(t, h) && path == [] && node.OnPage(btree.pages, t.pg) && t.pg == 1
      modifies this`node, this`path, btree, node
      ensures ok <==> Has(Entries(t), key)
      ensures !ok ==> btree.pages == old(btree.pages) && btree.Free() == old(btree.Free())
      ensures ok ==> AfterRemove(Removal(old(btree.pages), old(btree.Free()), t, h, key, btree.m), btree.pages, btree.Free())
    {
      hide Kept, AfterRemove, RemovalOk, Sorted, LeadsTo, Exact;
      ghost var w := Removal(btree.pages, btree.Free(), t, h, key, btree.m);
      KeptStored(btree.pages, btree.Free(), t, h, btree.m);
      DescentOk(btree.pages, t, h, key, btree.m);
      PathNode(btree.pages, t, h, key, btree.m, 0);
      PathNode(btree.pages, t, h, key, btree.m, h);
      var found := MoveToTarget(key, t, h);
      if !found {
        return false;
      }
      RemovalIs(w);
      RemovePresent(key, w);
      return true;
    }

    method RemovePresent(key: int, ghost w: Removal)
      requires RemovalOk(w) && w.m == btree.m && w.P0 == btree.pages && w.f0 == btree.Free() && key == w.k && w.t.pg == 1
      requires At(w.t, w.k, w.h) && Sorted(node.cells)
      modifies this`node, this`path, btree, node, path
      ensures AfterRemove(w, btree.pages, btree.Free())
    {
      hide RemStage, RemovalOk, SubRem, RemRoot, Removed, AfterRemove, Rekeyed, Skel, Distinct, Sorted, Wf;
      RemRootFacts(w);
      TakeOut(key, w);
      ghost var P := btree.pages;
      ghost var u := RemRoot(w.t, w.h, w.k, w.m);
      RemovedParts(w, P, btree.Free(), u);
      btree.RefreshSeparators(u, RemHeight(w.t, w.h, w.k, w.m));
      RemovedKept(w, P, btree.Free(), btree.pages);
    }

    /** Takes the cell out and repairs what became short; the separators may be stale afterwards. */
    method TakeOut(key: int, ghost w: Removal)
      requires RemovalOk(w) && w.m == btree.m && w.P0 == btree.pages && w.f0 == btree.Free() && key == w.k
      requires At(w.t, w.k, w.h) && Sorted(node.cells)
      modifies this`node, this`path, btree, node, path
      ensures Removed(w, btree.pages, btree.Free(), RemRoot(w.t, w.h, w.k, w.m))
    {
      hide RemStage, RemovalOk, SubRem, RemRoot, Removed, Rekeyed, RestSame, Distinct, Sorted, RemoveCell;
      LeafRemStage(w);
      PathInner(w);
      ghost var P, pg := btree.pages, node.pgno;
      var removedKeyWasLeafMax := node.cells != [] && node.cells[|node.cells| - 1].key == key;
      var r := node.RemoveLeaf(key, btree.m, btree);
      ghost var Q := LeafWithout(P, pg, w.k);
      assert btree.pages == Q;
      forall j | 0 <= j < w.h ensures ParentReady(path[j], w.t, w.k, j) {
        assert Above(w.t, w.k, P, Q, j) && InnerAt(P, w.t, w.k, j);
      }
      match r {
        case NotThere => assert false;
        case NeedBalance => RemoveBalanceClean(key, w);
        case Gone =>
          LeafFull(w);
          StageDone(w, btree.pages, btree.Free(), w.h);
          RootStays(w, btree.pages, btree.Free());
          if removedKeyWasLeafMax && node.cells != [] {
            UpdateParentSeparator(key, node.cells[|node.cells| - 1].key, w.t, w.k);
            RemovedRekeyed(w, Q, btree.pages, btree.Free(), RemRoot(w.t, w.h, w.k, w.m));
          }
      }
    }

    // ---------------------------------------------------------------- scans

    /** The cursor stands at entry x of the run of cells on the chain ps, on page j of the chain. */
    ghost predicate AtEntry(ps: seq<nat>, j: nat, x: nat)
      reads this, btree`pages, node
    {
      && LeafChain(btree.pages, ps) && j < |ps| && node.OnPage(btree.pages, ps[j]) && cellIdx < |node.cells|
      && AllIn(btree.pages, ps[..j]) && x == |CellsOn(btree.pages, ps[..j])| + cellIdx
    }

    /** The cursor is past the last entry of the chain ps. */
    ghost predicate AtEnd(ps: seq<nat>)
      reads this, btree`pages, node
    {
      LeafChain(btree.pages, ps) && ps != [] && node.OnPage(btree.pages, ps[|ps| - 1]) && cellIdx >= |node.cells|
    }

    method MoveToLeftmost(ghost t: Tree, ghost h: nat)
      requires Stored(btree.pages, t, h, btree.m) && node.OnPage(btree.pages, t.pg)
      modifies this`node, this`cellIdx
      ensures Level(t, h) != [] && node.OnPage(btree.pages, Level(t, h)[0]) && cellIdx == 0
      ensures node == old(node) || fresh(node)
    {
      hide Stored;
      ghost var d := 0;
      SpinePages(btree.pages, t, h, btree.m, 0);
      while !node.isLeaf
        invariant d <= h && LeftDeep(t, d) && node.OnPage(btree.pages, Leftmost(t, d).pg)
        invariant node == old(node) || fresh(node)
        decreases h - d
      {
        SpinePages(btree.pages, t, h, btree.m, d);
        SpinePages(btree.pages, t, h, btree.m, d + 1);
        node := btree.GetNode(node.kids[0]);
        d := d + 1;
      }
      SpinePages(btree.pages, t, h, btree.m, d);
      StoredShape(btree.pages, t, h, btree.m);
      LevelEnds(t, h);
      cellIdx := 0;
    }

    method MoveToRightmost(ghost t: Tree, ghost h: nat)
      requires Stored(btree.pages, t, h, btree.m) && node.OnPage(btree.pages, t.pg)
      modifies this`node, this`cellIdx
      ensures Level(t, h) != [] && node.OnPage(btree.pages, Level(t, h)[|Level(t, h)| - 1]) && cellIdx == |node.cells|
    {
      hide Stored;
      ghost var d := 0;
      SpinePages(btree.pages, t, h, btree.m, 0);
      while !node.isLeaf
        invariant d <= h && RightDeep(t, d) && node.OnPage(btree.pages, Rightmost(t, d).pg)
        decreases h - d
      {
        SpinePages(btree.pages, t, h, btree.m, d);
        SpinePages(btree.pages, t, h, btree.m, d + 1);
        node := btree.GetNode(node.kids[|node.kids| - 1]);
        d := d + 1;
      }
      SpinePages(btree.pages, t, h, btree.m, d);
      StoredShape(btree.pages, t, h, btree.m);
      LevelEnds(t, h);
      cellIdx := |node.cells|;
    }

    method MoveToFirstEntry(ghost t: Tree, ghost h: nat) returns (found: bool)
      requires btree.Holds(t, h) && node.OnPage(btree.pages, t.pg)
      modifies this`node, this`cellIdx
      ensures found <==> Entries(t) != []
      ensures if found then AtEntry(Level(t, h), 0, 0) else AtEnd(Level(t, h))
      ensures node == old(node) || fresh(node)
    {
      hide Stored;
      HoldsChain(btree.pages, btree.Free(), t, h, btree.m);
      MoveToLeftmost(t, h);
      found := node.cells != [];
    }

    /** On to the next entry of the chain; past the last one it stays where it is. */
    method MoveToNextEntry(ghost ps: seq<nat>, ghost j: nat, ghost x: nat) returns (more: bool, ghost j': nat)
      requires AtEntry(ps, j, x) || (AtEnd(ps) && x == |CellsOn(btree.pages, ps)|)
      modifies this`node, this`cellIdx
      ensures more <==> x + 1 < |CellsOn(btree.pages, ps)|
      ensures if more then AtEntry(ps, j', x + 1) else AtEnd(ps)
      ensures node == old(node) || fresh(node)
    {
      hide CellsOn, Chain;
      ghost var here := AtEntry(ps, j, x);
      j' := if here then j else |ps| - 1;
      NextLeaf(btree.pages, ps, j');
      if here { EntryAt(btree.pages, ps, j, cellIdx); }
      if node.cells == [] {
        return false, j';
      }
      if cellIdx + 1 < |node.cells| {
        EntryAt(btree.pages, ps, j, cellIdx + 1);
        cellIdx := cellIdx + 1;
        return true, j;
      }
      if node.right != 0 {
        EntryAt(btree.pages, ps, j + 1, 0);
        node := btree.GetNode(node.right);
        cellIdx := 0;
        return node.cells != [], j + 1;
      }
      LastLeaf(btree.pages, ps, j');
      cellIdx := |node.cells|;
      more := false;
    }

    method CurrentEntry() returns (r: Option<Cell>)
      ensures r == if cellIdx < |node.cells| then Some(node.cells[cellIdx]) else None
    {
      r := if cellIdx < |node.cells| then Some(node.cells[cellIdx]) else None;
    }

    /** A first-entry, next-entry scan: every entry exactly once, in ascending key order. */
    method ListEntries(ghost t: Tree, ghost h: nat) returns (rows: seq<Cell>)
      requires btree.Holds(t, h) && node.OnPage(btree.pages, t.pg)
      modifies this`node, this`cellIdx
      ensures rows == Entries(t) && Sorted(rows)
    {
      hide Stored, LeafChain, Kept;
      rows := [];
      HoldsChain(btree.pages, btree.Free(), t, h, btree.m);
      var found := MoveToFirstEntry(t, h);
      if !found {
        return;
      }
      ghost var ps, j := Level(t, h), 0;
      while true
        invariant AtEntry(ps, j, |rows|) && |rows| < |Entries(t)| && rows == Entries(t)[..|rows|]
        decreases |Entries(t)| - |rows|
      {
        EntryAt(btree.pages, ps, j, cellIdx);
        var current := CurrentEntry();
        var more;
        ghost var j';
        more, j' := MoveToNextEntry(ps, j, |rows|);
        rows := rows + [current.value];
        if !more {
          break;
        }
        j := j';
      }
    }

    /** The cursor stands at entry x of the stored tree t, in the middle of a scan, so without a path; u is the tree on page 1. */
    ghost predicate Scanning(t: Tree, h: nat, u: Tree, hu: nat, j: nat, x: nat)
      reads this, btree, node
    {
      && btree.Holds(t, h) && btree.Holds(u, hu) && u.pg == 1 && Pages(t) !! Pages(u)
      && path == [] && AtEntry(Level(t, h), j, x)
    }

    /**
     Removes the key the scan stands at. Without a path no sibling is asked for cells and no separator is changed;
     only the separators of the tree on page 1 are made exact again, as they were.
     */
    method RemoveHere(key: int, ghost t: Tree, ghost h: nat, ghost u: Tree, ghost hu: nat, ghost j: nat, ghost x: nat) returns (ok: bool)
      requires Scanning(t, h, u, hu, j, x) && key == node.cells[cellIdx].key
      modifies node`cells, btree`pages
      ensures ok && node.cells == RemoveCell(old(node.cells), key)
      ensures btree.Holds(u, hu) && RestSame(old(btree.pages), btree.pages, Pages(u) + {node.pgno})
      ensures node.OnPage(btree.pages, node.pgno)
    {
      hide Stored, Linked, FreeOk, LeafChain, Lay, Sorted, CellsOn, Has;
      ScanPage(btree.pages, btree.Free(), t, h, btree.m, j);
      RemoveThenInsert(node.cells, cellIdx, []);
      ghost var P := btree.pages;
      var found := node.ContainsKey(key);
      if !(found && node.isLeaf) { return false; }
      var r := node.RemoveLeaf(key, btree.m, btree);
      if r == NotThere { return false; }
      ghost var Q := btree.pages;
      KeptFrame(P, Q, btree.Free(), u, hu, btree.m);
      RefreshReady(Q, btree.Free(), u, hu, btree.m);
      btree.RefreshSeparators(u, hu);
      KeptRefreshed(Q, btree.pages, btree.Free(), u, hu, btree.m);
      ok := true;
    }

    /** Puts a key that was just taken out of this leaf back into it; there is room, so nothing splits. */
    method InsertHere(key: int, val: Record) returns (ok: bool)
      requires path == [] && node.isLeaf && Sorted(node.cells) && |node.cells| + 1 < 2 * btree.m && !Has(node.cells, key)
      modifies node`cells, btree`pages
      ensures ok && node.cells == InsertCell(old(node.cells), key, val)
      ensures btree.pages == old(btree.pages)[node.pgno := node.Snap()]
    {
      var found := node.ContainsKey(key);
      if found { return false; }
      var r := node.InsertLeaf(key, val, btree.m, btree);
      ok := r != Error;
    }

    /**
     Replaces the record of the row the scan stands at, by taking it out and putting it in again: afterwards exactly
     that record is new, and the scan stands where it stood.
     */
    method UpdateRow(key: int, val: Record, ghost t: Tree, ghost h: nat, ghost u: Tree, ghost hu: nat, ghost j: nat, ghost x: nat)
        returns (ok: bool, ghost t': Tree)
      requires Scanning(t, h, u, hu, j, x) && key == node.cells[cellIdx].key
      modifies node`cells, btree`pages
      ensures ok && Scanning(t', h, u, hu, j, x) && t'.pg == t.pg
      ensures x < |Entries(t)| && Entries(t)[x].key == key && Entries(t') == PutVal(Entries(t), x, val)
      ensures Pages(t') == Pages(t) && RestSame(old(btree.pages), btree.pages, Pages(t) + Pages(u))
    {
      hide Stored, Linked, FreeOk, LeafChain, Lay, Sorted, CellsOn, Has, SetVal, Pages, Entries, Level, Shape, AllIn, Kept, PutVal, PutPage, SameOn, InsertCell, RemoveCell;
      ghost var P, f, c, pg := btree.pages, btree.Free(), cellIdx, node.pgno;
      ScanPage(P, f, t, h, btree.m, j);
      RemoveThenInsert(node.cells, c, val);
      ok := RemoveHere(key, t, h, u, hu, j, x);
      ghost var Q := btree.pages;
      ok := InsertHere(key, val);
      t' := SetVal(t, pg, c, val);
      PageReplaced(P, Q, pg, node.Snap(), c, val, Pages(t));
      OtherPageReplaced(Q, pg, node.Snap(), Pages(u));
      UpdatedScan(P, btree.pages, f, t, h, btree.m, j, c, val);
      KeptFrame(Q, btree.pages, f, u, hu, btree.m);
    }

    method Prev() returns (r: Option<Cell>)
      requires node.cells != [] && node.left != 0 && cellIdx == 0 ==> node.left in btree.pages && btree.pages[node.left].cells != []
      requires cellIdx <= |node.cells|
      modifies this`node, this`cellIdx
      ensures old(node.cells) == [] || (old(cellIdx) == 0 && old(node.left) == 0) ==> r == None && node == old(node)
      ensures old(node.cells) != [] && old(cellIdx) == 0 && old(node.left) != 0 ==>
                var n := btree.pages[old(node.left)];
                node.OnPage(btree.pages, old(node.left)) && cellIdx == |n.cells| - 1 && r == Some(n.cells[cellIdx])
      ensures old(cellIdx) > 0 && old(node.cells) != [] ==> r == Some(old(node.cells)[old(cellIdx) - 1]) && cellIdx == old(cellIdx) - 1 && node == old(node)
    {
      if node.cells == [] {
        return None;
      }
      if cellIdx == 0 {
        if node.left == 0 {
          return None;
        }
        node := btree.GetNode(node.left);
        cellIdx := |node.cells|;
      }
      cellIdx := cellIdx - 1;
      r := Some(node.cells[cellIdx]);
    }

    /** The key after the largest one, 1 for an empty tree; none when it would not fit in 64 bits. */
    method NextIntegerKey(ghost t: Tree, ghost h: nat) returns (r: Option<int>)
      requires btree.Holds(t, h) && node.OnPage(btree.pages, t.pg)
      requires forall i :: 0 <= i < |Entries(t)| ==> 0 <= Entries(t)[i].key < U64_LIMIT
      modifies this`node, this`cellIdx
      ensures r == if Entries(t) == [] then Some(1) else if Max(t) + 1 < U64_LIMIT then Some(Max(t) + 1) else None
      ensures r.Some? ==> 0 < r.value < U64_LIMIT && Below(Entries(t), r.value)
    {
      hide Stored, LeafChain, Kept, Entries, Level, CellsOn, Sorted, Below;
      HoldsChain(btree.pages, btree.Free(), t, h, btree.m);
      MoveToRightmost(t, h);
      ghost var ps := Level(t, h);
      LastLeafEntry(btree.pages, ps);
      PastLast(Entries(t));
      var last := Prev();
      match last {
        case None => r := Some(1);
        case Some(c) => r := if c.key + 1 < U64_LIMIT then Some(c.key + 1) else None;
      }
    }
  }
}
