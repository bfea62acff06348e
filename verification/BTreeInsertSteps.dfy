/** The page changes of an insert, one at a time, and what each leaves laid out in the store. */
module BTreeInsertSteps {
  import opened Values
  import opened Cells
  import opened BTreeSpec
  import opened BTreeLayout
  import opened BTreeLinks
  import Proof = BTreeInsertProof

  // ---------------------------------------------------------------- what the node operations do to a page

  /** An inner node after a child has been split into l and r with key as the new separator. */
  function InsertedInternal(n: Node, key: int, l: nat, r: nat): Node
    requires |n.cells| <= |n.kids| <= |n.cells| + 1 || (n.cells == [] && n.kids == [])
  {
    if n.cells == [] then n.(cells := [Cell(key, [])], kids := n.kids + [l, r])
    else match Search(n.cells, key)
         case Equal(_) => n
         case LessThan(i) =>
           n.(cells := n.cells[..i] + [Cell(key, [])] + n.cells[i..],
              kids := n.kids[..i] + [l, r] + n.kids[i + 1..])
         case Right =>
           n.(cells := n.cells + [Cell(key, [])], kids := n.kids[..|n.kids| - 1] + [l, r])
  }

  lemma PairAt(kids: seq<nat>, i: nat, l: nat, r: nat)
    requires i < |kids|
    ensures (kids[..i] + [l] + kids[i..])[i + 1 := r] == kids[..i] + [l, r] + kids[i + 1..]
  {
  }

  lemma PairLast(kids: seq<nat>, l: nat, r: nat)
    requires kids != []
    ensures kids[|kids| - 1 := l] + [r] == kids[..|kids| - 1] + [l, r]
  {
  }

  function SplitLeft(n: Node, y: nat): Node
    requires n.kids == [] || |n.cells| <= |n.kids|
  {
    var s := |n.cells| / 2;
    n.(cells := n.cells[..s], kids := if n.kids == [] then [] else n.kids[..s], right := y)
  }

  function SplitRight(n: Node, x: nat): Node
    requires n.kids == [] || |n.cells| <= |n.kids|
  {
    var s := |n.cells| / 2;
    Node(n.isLeaf, x, n.right, n.cells[s..], if n.kids == [] then [] else n.kids[s..])
  }

  /** The store after page x has been split into x and y. */
  function SplitStore(P: Store, x: nat, y: nat): Store
    requires x in P && (P[x].kids == [] || |P[x].cells| <= |P[x].kids|)
    requires P[x].right != 0 ==> P[x].right in P
  {
    var n := P[x];
    var P' := if n.right != 0 then P[n.right := P[n.right].(left := y)] else P;
    P'[x := SplitLeft(n, y)][y := SplitRight(n, x)]
  }

  // ---------------------------------------------------------------- splitting

  lemma HalvesLay(P: Store, o: Tree, y: nat, over: Option<int>)
    requires LayBut(P, o, over) && Distinct(o) && 0 < Count(o) && y !in Pages(o)
    requires P[o.pg].right != 0 ==> P[o.pg].right in P && P[o.pg].right != o.pg
    ensures var Q := SplitStore(P, o.pg, y);
            LayBut(Q, LeftHalf(o), over) && LayBut(Q, RightHalf(o, y), over)
  {
    hide Sep, EntriesF;
    SplitAgrees(P, o.pg, y);
    if o.Inner? {
      LayButFrameF(P, SplitStore(P, o.pg, y), o.kids, over);
      HalvesNodes(P[o.pg], o, y, over);
      assert LayButF(SplitStore(P, o.pg, y), LeftHalf(o).kids, over);
      assert LayButF(SplitStore(P, o.pg, y), RightHalf(o, y).kids, over);
    }
  }

  lemma SplitAgrees(P: Store, x: nat, y: nat)
    requires x in P && (P[x].kids == [] || |P[x].cells| <= |P[x].kids|)
    requires P[x].right != 0 ==> P[x].right in P && P[x].right != x
    ensures forall S: set<nat> :: x !in S && y !in S ==> AgreeOn(P, SplitStore(P, x, y), S)
    ensures forall p :: p != x && p != y && p != P[x].right ==>
              (p in SplitStore(P, x, y) <==> p in P) && (p in P ==> SplitStore(P, x, y)[p] == P[p])
  {
  }

  lemma HalvesNodes(n: Node, o: Tree, y: nat, over: Option<int>)
    requires o.Inner? && NodeOf(n, o) && ExactBut(n, o, over)
    ensures NodeOf(SplitLeft(n, y), LeftHalf(o)) && ExactBut(SplitLeft(n, y), LeftHalf(o), over)
    ensures NodeOf(SplitRight(n, o.pg), RightHalf(o, y)) && ExactBut(SplitRight(n, o.pg), RightHalf(o, y), over)
  {
    var s := Count(o) / 2;
    var l, r := LeftHalf(o), RightHalf(o, y);
    assert Roots(l.kids) == Roots(o.kids)[..s];
    assert Roots(r.kids) == Roots(o.kids)[s..];
  }

  lemma HalvesLevels(o: Tree, y: nat, e: nat)
    requires 0 <= Count(o)
    ensures LevelF([LeftHalf(o), RightHalf(o, y)], e) == if e == 0 then [o.pg, y] else Level(o, e)
  {
    var l, r := LeftHalf(o), RightHalf(o, y);
    assert [l, r] == [l] + [r];
    LevelAppend([l], [r], e);
    LevelOne(l, e);
    LevelOne(r, e);
    if e > 0 && o.Inner? {
      var s := Count(o) / 2;
      assert o.kids == o.kids[..s] + o.kids[s..];
      LevelAppend(o.kids[..s], o.kids[s..], e - 1);
    }
  }

  lemma SplitEnters(P: Store, x: nat, y: nat)
    requires x in P && (P[x].kids == [] || |P[x].cells| <= |P[x].kids|) && x != y
    requires P[x].right != 0 ==> P[x].right in P && P[x].right != x && P[x].right != y
    ensures EnterLinks(P, SplitStore(P, x, y), x, y)
  {
  }

  /** The links after a split are those of the split forest. */
  lemma SplitLinked(P: Store, t: Tree, k: int, d: nat, o: Tree, y: nat)
    requires Stands(t, k, d, o) && 0 <= Count(o) && y !in Pages(t) + Pages(o)
    requires Linked(P, Graft(t, k, d, [o]))
    requires o.pg in P && (P[o.pg].kids == [] || |P[o.pg].cells| <= |P[o.pg].kids|)
    ensures P[o.pg].right != 0 ==>
              && P[o.pg].right in P && P[o.pg].right != o.pg
              && P[o.pg].right in LevelF(Graft(t, k, d, [o]), d)
    ensures Linked(SplitStore(P, o.pg, y), Graft(t, k, d, [LeftHalf(o), RightHalf(o, y)]))
  {
    var ts, us := Graft(t, k, d, [o]), Graft(t, k, d, [LeftHalf(o), RightHalf(o, y)]);
    var a, b := LevelPre(t, k, d, d), LevelPost(t, k, d, d);
    NeighbourOf(P, t, k, d, o);
    if P[o.pg].right != 0 { LevelPagesF(ts, d, P[o.pg].right); }
    SplitEnters(P, o.pg, y);
    LevelGraft(t, k, d, [LeftHalf(o), RightHalf(o, y)], d);
    HalvesLevels(o, y, 0);
    SplitOtherLevels(t, k, d, o, y);
    LinkedEnter(P, SplitStore(P, o.pg, y), ts, us, d, a, o.pg, y, b);
  }

  lemma SplitOtherLevels(t: Tree, k: int, d: nat, o: Tree, y: nat)
    requires Deep(t, k, d) && 0 <= Count(o)
    ensures OtherLevelsSame(Graft(t, k, d, [o]), Graft(t, k, d, [LeftHalf(o), RightHalf(o, y)]), d)
  {
    hide Level, LevelF, LevelPre, LevelPost, Deep, Graft, LeftHalf, RightHalf;
    var fs := [LeftHalf(o), RightHalf(o, y)];
    forall e: nat | e != d ensures LevelF(Graft(t, k, d, fs), e) == LevelF(Graft(t, k, d, [o]), e) {
      if e < d {
        LevelAbove(t, k, d, fs, e);
        LevelAbove(t, k, d, [o], e);
      } else {
        LevelGraft(t, k, d, fs, e);
        LevelGraft(t, k, d, [o], e);
        HalvesLevels(o, y, e - d);
        LevelOne(o, e - d);
      }
    }
  }

  // ---------------------------------------------------------------- a parent takes in two halves

  /** The key is below the maximum of t, or a new maximum can go to t's right spine. */
  ghost predicate CanInsert(t: Tree, k: int) {
    SpineOpen(t) || (Entries(t) != [] && k < Max(t))
  }

  lemma CanInsertDown(p: Tree, k: int)
    requires p.Inner? && p.kids != [] && CanInsert(p, k) && AllNonEmpty(p.kids)
    requires Sorted(Entries(p)) && !Has(Entries(p), k)
    ensures var i := ChildIndex(p.kids, k);
            CanInsert(p.kids[i], k) && (i < Count(p) ==> k < Max(p.kids[i])) && !Has(Entries(p.kids[i]), k)
  {
    var i := ChildIndex(p.kids, k);
    RouteHas(p.kids, k);
    var b := Entries(p.kids[i]);
    if i < |p.kids| - 1 {
      assert b[|b| - 1].key != k;
    } else {
      AtChild(p.kids, i);
      assert p.kids[i + 1..] == [];
      assert Max(p) == Max(p.kids[i]);
    }
  }

  lemma AboveMax(p: Tree, k: int)
    requires p.Inner? && p.kids != [] && AllNonEmpty(p.kids) && Sorted(Entries(p)) && Max(p) < k
    ensures var n := |p.kids| - 1;
            ChildIndex(p.kids, k) == n && Max(p) == Max(p.kids[n]) && Sorted(Entries(p.kids[n])) && Entries(p) != []
  {
    var n := |p.kids| - 1;
    AtChild(p.kids, n);
    assert p.kids[n + 1..] == [];
    SortedParts(EntriesF(p.kids[..n]), Entries(p.kids[n]), []);
    assert EntriesF(p.kids[..n]) + Entries(p.kids[n]) + [] == Entries(p);
    var i := ChildIndex(p.kids, k);
    if i < n { MaxMono(p.kids, i, n); }
  }

  /** What the insert is up to below s: a key it can place, or a new maximum that closed nodes will overlook. */
  ghost predicate Takes(s: Tree, k: int, over: Option<int>) {
    match over
    case None => CanInsert(s, k)
    case Some(x) => x == k && Entries(s) != [] && Max(s) < k
  }

  lemma TakesDown(p: Tree, k: int, over: Option<int>)
    requires p.Inner? && p.kids != [] && Takes(p, k, over) && AllNonEmpty(p.kids)
    requires Sorted(Entries(p)) && !Has(Entries(p), k)
    ensures var i := ChildIndex(p.kids, k);
            && Takes(p.kids[i], k, over) && !Has(Entries(p.kids[i]), k)
            && (over.None? && i < Count(p) ==> k < Max(p.kids[i]))
  {
    if over.None? {
      CanInsertDown(p, k);
    } else {
      RouteHas(p.kids, k);
      AboveMax(p, k);
    }
  }

  /** A run that has taken the key in keeps its separator: the key is not its last, or is overlooked. */
  lemma InsertedSep(s: seq<Cell>, k: int, v: Record, over: Option<int>)
    requires s != [] && Sorted(s) && (over.None? ==> k < s[|s| - 1].key) && (over.Some? ==> over == Some(k) && s[|s| - 1].key < k)
    ensures SepOf(InsertCell(s, k, v), over) == s[|s| - 1].key
  {
    if over.None? {
      InsertBelowMax(s, k, v);
    } else {
      RankIs(s, k, |s|);
    }
  }

  /** Of two halves, the right one has the separator of both, and the left one is not affected. */
  lemma HalvesSep(a: seq<Cell>, b: seq<Cell>, over: Option<int>)
    requires a != [] && 2 <= |b| && Sorted(a + b) && (over.Some? ==> (a + b)[|a| + |b| - 1].key == over.value)
    ensures SepOf(b, over) == SepOf(a + b, over) && SepOf(a, over) == a[|a| - 1].key
  {
    var s := a + b;
    assert s[|a| - 1] == a[|a| - 1] && s[|s| - 1] == b[|b| - 1] && s[|s| - 2] == b[|b| - 2];
  }

  lemma InsertBelowMax(s: seq<Cell>, k: int, v: Record)
    requires s != [] && k < s[|s| - 1].key
    ensures var u := InsertCell(s, k, v); u != [] && u[|u| - 1] == s[|s| - 1]
  {
  }

  ghost predicate Fits(n: Node, p: Tree, i: nat, l: Tree, r: Tree, over: Option<int>) {
    && p.Inner? && 2 <= |p.kids| && i < |p.kids| && NodeOf(n, p) && Exact(n, p)
    && Sorted(n.cells)
    && (forall j :: 0 <= j < i ==> Max(p.kids[j]) < Max(l))
    && (i < Count(p) ==> Max(l) < Max(p.kids[i]) && Sep(r, over) == Max(p.kids[i]))
    && Sep(l, over) == Max(l) && (forall j :: 0 <= j < |p.kids| ==> Sep(p.kids[j], over) == Max(p.kids[j]))
  }

  lemma FitsSearch(n: Node, p: Tree, i: nat, l: Tree, r: Tree, over: Option<int>)
    requires Fits(n, p, i, l, r, over)
    ensures n.cells != []
    ensures Search(n.cells, Max(l)) == (if i < Count(p) then LessThan(i) else Right)
  {
    forall j | 0 <= j < i ensures n.cells[j].key < Max(l) {}
    RankIs(n.cells, Max(l), i);
  }

  /** Replacing the child i of an inner node by l and r in its page. */
  lemma ParentTakes(n: Node, p: Tree, i: nat, l: Tree, r: Tree, over: Option<int>)
    requires Fits(n, p, i, l, r, over)
    ensures var n' := InsertedInternal(n, Max(l), l.pg, r.pg);
            NodeOf(n', Splice(p, i, [l, r])) && ExactBut(n', Splice(p, i, [l, r]), over)
            && n'.left == n.left && n'.right == n.right
  {
    FitsSearch(n, p, i, l, r, over);
    var n' := InsertedInternal(n, Max(l), l.pg, r.pg);
    var q := Splice(p, i, [l, r]);
    assert NodeOf(n', q) by {
      RootsSplice(p, i, [l, r]);
      assert Roots([l, r]) == [l.pg, r.pg];
      assert Roots(p.kids)[i + 1..] == (if i < Count(p) then n.kids[i + 1..] else []);
    }
    TakesExact(n, p, i, l, r, over);
  }

  lemma InsertedCells(n: Node, p: Tree, i: nat, l: Tree, r: Tree, over: Option<int>)
    requires Fits(n, p, i, l, r, over)
    ensures i <= |n.cells| == Count(p)
    ensures InsertedInternal(n, Max(l), l.pg, r.pg).cells == n.cells[..i] + [Cell(Max(l), [])] + n.cells[i..]
  {
    hide Search, Max;
    FitsSearch(n, p, i, l, r, over);
    if i >= Count(p) { assert n.cells[..i] == n.cells && n.cells[i..] == []; }
  }

  lemma TakesExact(n: Node, p: Tree, i: nat, l: Tree, r: Tree, over: Option<int>)
    requires Fits(n, p, i, l, r, over)
    ensures ExactBut(InsertedInternal(n, Max(l), l.pg, r.pg), Splice(p, i, [l, r]), over)
  {
    hide InsertedInternal, Search, Max, Sep;
    InsertedCells(n, p, i, l, r, over);
    var cs := InsertedInternal(n, Max(l), l.pg, r.pg).cells;
    var ks := Splice(p, i, [l, r]).kids;
    forall j | 0 <= j < |cs| && j < |ks| ensures cs[j].key == Sep(ks[j], over) {
      if j < i {
        assert cs[j] == n.cells[j] && ks[j] == p.kids[j];
      } else if j > i {
        assert cs[j] == n.cells[j - 1];
        assert j > i + 1 ==> ks[j] == p.kids[j - 1];
      }
    }
  }

  lemma RootsSplice(p: Tree, i: nat, fs: seq<Tree>)
    requires p.Inner? && i < |p.kids|
    ensures Roots(Splice(p, i, fs).kids) == Roots(p.kids)[..i] + Roots(fs) + Roots(p.kids)[i + 1..]
  {
    var ks := Splice(p, i, fs).kids;
    var rs := Roots(p.kids)[..i] + Roots(fs) + Roots(p.kids)[i + 1..];
    forall j | 0 <= j < |ks| ensures Roots(ks)[j] == rs[j] {}
  }

  /** The pages hold the spliced parent once its own page and the new children are in place. */
  lemma SpliceLay(P: Store, Q: Store, p: Tree, i: nat, fs: seq<Tree>, over: Option<int>)
    requires p.Inner? && i < |p.kids| && LayBut(P, p, over) && Distinct(p)
    requires p.pg in Q && NodeOf(Q[p.pg], Splice(p, i, fs)) && ExactBut(Q[p.pg], Splice(p, i, fs), over)
    requires LayButF(Q, fs, over) && AgreeOn(P, Q, PagesF(p.kids) - Pages(p.kids[i]))
    ensures LayBut(Q, Splice(p, i, fs), over)
  {
    var q := Splice(p, i, fs);
    forall j | 0 <= j < |q.kids| ensures LayBut(Q, q.kids[j], over) {
      if i <= j < i + |fs| {
        assert q.kids[j] == fs[j - i];
      } else {
        var j' := if j < i then j else j - |fs| + 1;
        assert q.kids[j] == p.kids[j'];
        KidPages(p.kids, j');
        KidsApart(p.kids, j', i);
        LayButFrame(P, Q, p.kids[j'], over);
      }
    }
  }

  lemma KidsApart(kids: seq<Tree>, i: nat, j: nat)
    requires DistinctF(kids) && i < |kids| && j < |kids| && i != j
    ensures Pages(kids[i]) !! Pages(kids[j])
  {
    var x, y := if i < j then i else j, if i < j then j else i;
    AtChild(kids, y);
    KidPages(kids[..y], x);
    assert kids[..y][x] == kids[x];
  }

  // ---------------------------------------------------------------- one insert, from the leaf up

  /** An insert of (k, v) into the tree t of height h that lies in P0; the new pages come in the order alloc. */
  datatype World = World(P0: Store, t: Tree, h: nat, k: int, v: Record, m: nat, alloc: seq<nat>)

  ghost predicate WorldOk(w: World) {
    && 2 <= w.m && Shape(w.t, w.h) && WfRoot(w.t, w.h, w.m)
    && Lay(w.P0, w.t) && Linked(w.P0, [w.t])
    && !Has(Entries(w.t), w.k)
    && |w.alloc| == w.h + 2 && NoDup(w.alloc)
    && Pages(w.t) !! Members(w.alloc) && 0 !in Pages(w.t) && 0 !in Members(w.alloc)
  }

  /** The key the separators of closed nodes overlook. */
  ghost function Over(w: World): Option<int> { Overlooked(w.t, w.k) }

  ghost function Overlooked(t: Tree, k: int): Option<int> { if CanInsert(t, k) then None else Some(k) }

  lemma WorldTakes(w: World)
    requires WorldOk(w)
    ensures Takes(w.t, w.k, Over(w))
  {
    if !CanInsert(w.t, w.k) { NotMax(w.t, w.h, w.k, w.m); }
  }

  lemma NotMax(t: Tree, h: nat, k: int, m: nat)
    requires 2 <= m && Shape(t, h) && WfRoot(t, h, m) && !Has(Entries(t), k) && !CanInsert(t, k)
    ensures Entries(t) != [] && Max(t) < k
  {
    WfNonEmpty(t, h, 0, m, true);
    var e := Entries(t);
    assert e[|e| - 1].key != k;
  }

  /** Whether the subtree at depth d on the path of k lies on the right spine. */
  predicate RightAt(t: Tree, k: int, d: nat)
    requires Deep(t, k, d)
  {
    d == 0 || (ChildIndex(t.kids, k) == |t.kids| - 1 && RightAt(t.kids[ChildIndex(t.kids, k)], k, d - 1))
  }

  lemma {:induction false} SubWf(t: Tree, h: nat, k: int, m: nat, d: nat, lo: int, right: bool)
    requires 2 <= m && Shape(t, h) && Wf(t, h, lo, m, right) && d <= h
    ensures Deep(t, k, d) && Shape(SubAt(t, k, d), h - d)
    ensures Wf(SubAt(t, k, d), h - d, if d == 0 then lo else m, m, right && RightAt(t, k, d))
    decreases d
  {
    if d > 0 {
      var i := ChildIndex(t.kids, k);
      SubWf(t.kids[i], h - 1, k, m, d - 1, m, right && i == |t.kids| - 1);
    }
  }

  lemma {:induction false} SubTakes(t: Tree, h: nat, k: int, m: nat, d: nat, lo: int, right: bool, over: Option<int>)
    requires 2 <= m && Shape(t, h) && Wf(t, h, lo, m, right) && d <= h
    requires Sorted(Entries(t)) && !Has(Entries(t), k) && Takes(t, k, over)
    ensures Deep(t, k, d)
    ensures var s := SubAt(t, k, d); Sorted(Entries(s)) && !Has(Entries(s), k) && Takes(s, k, over)
    decreases d
  {
    hide Sorted;
    if d > 0 {
      var i := ChildIndex(t.kids, k);
      KidsNonEmpty(t.kids, h - 1, m, right);
      TakesDown(t, k, over);
      Route(t.kids, k);
      SubTakes(t.kids[i], h - 1, k, m, d - 1, m, right && i == |t.kids| - 1, over);
    }
  }

  ghost function SubGrown(w: World, d: nat): Grown
    requires WorldOk(w) && d <= w.h
  {
    ShapeDeep(w.t, w.h, w.k, d);
    Ins(SubAt(w.t, w.k, d), w.h - d, w.k, w.v, w.m, w.alloc)
  }

  /** The order of keys around the subtree at depth d. */
  ghost predicate SubOrder(w: World, d: nat)
    requires WorldOk(w) && d <= w.h
  {
    && Deep(w.t, w.k, d)
    && var s := SubAt(w.t, w.k, d); var g := SubGrown(w, d);
       && Sorted(Entries(s)) && !Has(Entries(s), w.k) && Takes(s, w.k, Over(w))
       && (s.Inner? ==> AllNonEmpty(s.kids))
       && EntriesF(Forest(g)) == InsertCell(Entries(s), w.k, w.v)
       && (g.Two? ==> Entries(g.l) != [] && 2 <= |Entries(g.r)|)
  }

  /** The pages of the subtree at depth d and of what it grows into. */
  ghost predicate SubSpace(w: World, d: nat)
    requires WorldOk(w) && d <= w.h
  {
    && Deep(w.t, w.k, d)
    && var s := SubAt(w.t, w.k, d); var g := SubGrown(w, d);
       && Shape(s, w.h - d) && Distinct(s) && Pages(s) <= Pages(w.t)
       && Proof.Used(g, w.h - d) <= w.h - d + 1
       && PagesF(Forest(g)) == Pages(s) + Proof.Taken(w.alloc, Proof.Used(g, w.h - d))
       && DistinctF(Forest(g))
       && Forest(g)[0].pg == s.pg && (g.Two? ==> g.r.pg == w.alloc[w.h - d])
  }

  lemma SubOrderHolds(w: World, d: nat)
    requires WorldOk(w) && d <= w.h
    ensures SubOrder(w, d)
  {
    hide Ins, Distinct, Linked, Lay, EntriesF, InsertCell;
    SubWf(w.t, w.h, w.k, w.m, d, 0, true);
    WorldTakes(w);
    SubTakes(w.t, w.h, w.k, w.m, d, 0, true, Over(w));
    var s := SubAt(w.t, w.k, d);
    var lo := if d == 0 then 0 else w.m;
    var right := RightAt(w.t, w.k, d);
    Proof.InsEntries(s, w.h - d, w.k, w.v, w.m, w.alloc, lo, right);
    if s.Inner? { KidsNonEmpty(s.kids, w.h - d - 1, w.m, right); }
    SubTwoNonEmpty(w, d, lo, right);
  }

  lemma SubSpaceHolds(w: World, d: nat)
    requires WorldOk(w) && d <= w.h
    ensures SubSpace(w, d)
  {
    hide Lay, Linked, Wf, Sorted, Has, CanInsert, Ins, Entries;
    ShapeDeep(w.t, w.h, w.k, d);
    SubPages(w.t, w.k, d);
    var s := SubAt(w.t, w.k, d);
    Proof.InsPages(s, w.h - d, w.k, w.v, w.m, w.alloc);
    Proof.InsPg(s, w.h - d, w.k, w.v, w.m, w.alloc);
  }

  /** Below a node with two cells or more there are two entries or more. */
  lemma {:induction false} WfSeveral(t: Tree, h: nat, lo: int, m: nat, right: bool)
    requires Wf(t, h, lo, m, right) && 2 <= lo && 2 <= m
    ensures 2 <= |Entries(t)|
    decreases t
  {
    if t.Inner? {
      WfSeveral(t.kids[0], h - 1, m, m, right && 0 == |t.kids| - 1);
      AtChild(t.kids, 0);
    }
  }

  lemma SubTwoNonEmpty(w: World, d: nat, lo: int, right: bool)
    requires WorldOk(w) && d <= w.h && Deep(w.t, w.k, d)
    requires Shape(SubAt(w.t, w.k, d), w.h - d) && Wf(SubAt(w.t, w.k, d), w.h - d, lo, w.m, right)
    ensures var g := SubGrown(w, d); g.Two? ==> Entries(g.l) != [] && 2 <= |Entries(g.r)|
  {
    hide Lay, Linked, Sorted, Has, CanInsert, Ins, Entries, Distinct, Pages, Shape, Wf;
    Proof.InsWf(SubAt(w.t, w.k, d), w.h - d, w.k, w.v, w.m, w.alloc, lo, right);
    var g := SubGrown(w, d);
    if g.Two? {
      WfNonEmpty(g.l, w.h - d, w.m, w.m, false);
      WfSeveral(g.r, w.h - d, w.m, w.m, right);
    }
  }

  /** The pages P hold the rest of the tree as it was, and fs where the subtree at depth d stood. */
  ghost predicate Stage(w: World, P: Store, d: nat, fs: seq<Tree>) {
    && d <= w.h && Deep(w.t, w.k, d)
    && LayButF(P, fs, Over(w))
    && AgreeOn(w.P0, P, Pages(w.t) - Pages(SubAt(w.t, w.k, d)))
    && Linked(P, Graft(w.t, w.k, d, fs))
    && Untouched(w, P)
  }

  /** Pages outside the tree and the allocation order are as they were. */
  ghost predicate Untouched(w: World, P: Store) {
    forall p :: p !in Pages(w.t) && p !in w.alloc ==> (p in P <==> p in w.P0) && (p in w.P0 ==> P[p] == w.P0[p])
  }

  // ---------------------------------------------------------------- the steps between stages

  lemma InsertedKeys(s: seq<Cell>, k: int, v: Record, low: int, j: nat)
    requires low < k && j <= |s| && forall i :: 0 <= i < |s| ==> low < s[i].key
    ensures low < InsertCell(s, k, v)[j].key
  {
    InsertCellAt(s, k, v, j);
  }

  ghost predicate HalvesOf(p: Tree, k: int, v: Record, l: Tree, r: Tree, over: Option<int>) {
    && p.Inner? && p.kids != [] && AllNonEmpty(p.kids) && Sorted(Entries(p)) && !Has(Entries(p), k)
    && Takes(p, k, over) && Entries(l) != [] && 2 <= |Entries(r)|
    && EntriesF([l, r]) == InsertCell(Entries(p.kids[ChildIndex(p.kids, k)]), k, v)
  }

  lemma LeftHalfAbove(p: Tree, k: int, v: Record, l: Tree, r: Tree, j: nat, over: Option<int>)
    requires HalvesOf(p, k, v, l, r, over) && j < ChildIndex(p.kids, k)
    ensures Max(p.kids[j]) < Max(l)
  {
    var i := ChildIndex(p.kids, k);
    var e := Entries(p.kids[i]);
    Proof.PairPages(l, r);
    assert InsertCell(e, k, v)[|Entries(l)| - 1] == Entries(l)[|Entries(l)| - 1];
    forall x | 0 <= x < |e| ensures Max(p.kids[j]) < e[x].key { MaxBelow(p.kids, j, i, x); }
    InsertedKeys(e, k, v, Max(p.kids[j]), |Entries(l)| - 1);
  }

  /** When the child has a separator, the right half keeps it. */
  lemma RightHalfMax(p: Tree, k: int, v: Record, l: Tree, r: Tree, over: Option<int>)
    requires HalvesOf(p, k, v, l, r, over)
    ensures Sep(l, over) == Max(l)
    ensures var i := ChildIndex(p.kids, k);
            i < Count(p) ==> Max(l) < Max(p.kids[i]) && Sep(r, over) == Max(p.kids[i])
  {
    hide Count, Has;
    var i := ChildIndex(p.kids, k);
    var e := Entries(p.kids[i]);
    TakesDown(p, k, over);
    Route(p.kids, k);
    InsertCellSorted(e, k, v);
    Proof.PairPages(l, r);
    var s := Entries(l) + Entries(r);
    if over.Some? { RankIs(e, k, |e|); }
    HalvesSep(Entries(l), Entries(r), over);
    if i < Count(p) {
      InsertedSep(e, k, v, over);
      assert s[|Entries(l)| - 1] == Entries(l)[|Entries(l)| - 1];
      assert s[|Entries(l)| - 1].key < s[|s| - 2].key < s[|s| - 1].key;
    }
  }

  /** Where the separator of the left half goes in the parent. */
  lemma HalvesFit(p: Tree, k: int, v: Record, l: Tree, r: Tree, over: Option<int>)
    requires HalvesOf(p, k, v, l, r, over)
    ensures var i := ChildIndex(p.kids, k);
            && (forall j :: 0 <= j < i ==> Max(p.kids[j]) < Max(l))
            && (i < Count(p) ==> Max(l) < Max(p.kids[i]) && Sep(r, over) == Max(p.kids[i]))
            && Sep(l, over) == Max(l) && (forall j :: 0 <= j < |p.kids| ==> Sep(p.kids[j], over) == Max(p.kids[j]))
  {
    var i := ChildIndex(p.kids, k);
    forall j | 0 <= j < i ensures Max(p.kids[j]) < Max(l) { LeftHalfAbove(p, k, v, l, r, j, over); }
    RightHalfMax(p, k, v, l, r, over);
    OldSeps(p, k, over);
  }

  /** No separator of the old parent overlooks anything. */
  lemma OldSeps(p: Tree, k: int, over: Option<int>)
    requires p.Inner? && !Has(Entries(p), k) && (over.Some? ==> over.value == k)
    ensures forall j :: 0 <= j < |p.kids| ==> Sep(p.kids[j], over) == Max(p.kids[j])
  {
    forall j | 0 <= j < |p.kids| ensures Sep(p.kids[j], over) == Max(p.kids[j]) {
      AtChild(p.kids, j);
      HasInPart(EntriesF(p.kids[..j]), Entries(p.kids[j]), EntriesF(p.kids[j + 1..]), k);
      SepPlain(Entries(p.kids[j]), over);
    }
  }

  lemma LastBefore2(a: seq<Cell>, b: seq<Cell>)
    requires Sorted(a + b) && a != [] && b != []
    ensures a[|a| - 1].key < b[|b| - 1].key
  {
    var s := a + b;
    assert s[|a| - 1] == a[|a| - 1];
    assert s[|s| - 1] == b[|b| - 1];
  }

  /** The parent's page still holds the parent as it was. */
  lemma ParentNode(w: World, P: Store, d: nat, fs: seq<Tree>)
    requires WorldOk(w) && 0 < d && Stage(w, P, d, fs)
    ensures Deep(w.t, w.k, d - 1)
    ensures var p := SubAt(w.t, w.k, d - 1);
            && p.Inner? && 2 <= |p.kids| && SubAt(w.t, w.k, d) == p.kids[ChildIndex(p.kids, w.k)]
            && Lay(w.P0, p) && p.pg in P && Body(P[p.pg]) == Body(w.P0[p.pg])
            && NodeOf(P[p.pg], p) && Exact(P[p.pg], p)
            && p.pg in Pages(w.t) && p.pg !in Pages(SubAt(w.t, w.k, d))
  {
    hide Linked, Wf, SubGrown, CanInsert, Sorted, Has, Entries, Max, Graft;
    SubStep(w.t, w.k, d - 1);
    ShapeDeep(w.t, w.h, w.k, d - 1);
    LaySub(w.P0, w.t, w.k, d - 1);
    PathPages(w.t, w.k, d - 1, d);
  }

  /** The separators of the parent are sorted, and the halves of its child fit in. */
  lemma ParentFits(w: World, P: Store, d: nat, l: Tree, r: Tree)
    requires WorldOk(w) && 0 < d && Stage(w, P, d, [l, r]) && SubGrown(w, d) == Two(l, r)
    ensures Deep(w.t, w.k, d - 1)
    ensures var p := SubAt(w.t, w.k, d - 1);
            && p.Inner? && p.kids != [] && p.pg in P
            && Fits(P[p.pg], p, ChildIndex(p.kids, w.k), l, r, Over(w))
            && P[p.pg].cells != [] && Sorted(P[p.pg].cells) && !Search(P[p.pg].cells, Max(l)).Equal?
  {
    ParentNode(w, P, d, [l, r]);
    ParentHalves(w, d, l, r);
    var p := SubAt(w.t, w.k, d - 1);
    SepsSorted(P[p.pg], p);
    HalvesFit(p, w.k, w.v, l, r, Over(w));
    FitsSearch(P[p.pg], p, ChildIndex(p.kids, w.k), l, r, Over(w));
  }

  lemma ParentHalves(w: World, d: nat, l: Tree, r: Tree)
    requires WorldOk(w) && 0 < d <= w.h && SubGrown(w, d) == Two(l, r)
    requires Deep(w.t, w.k, d - 1)
    ensures HalvesOf(SubAt(w.t, w.k, d - 1), w.k, w.v, l, r, Over(w))
  {
    hide Stage, Lay, Linked, Ins, Wf, Distinct, Sorted, Has, CanInsert, Entries, EntriesF;
    SubOrderHolds(w, d);
    SubOrderHolds(w, d - 1);
    SubStep(w.t, w.k, d - 1);
  }

  lemma ParentGrows(w: World, d: nat)
    requires WorldOk(w) && 0 < d <= w.h && SubGrown(w, d).Two?
    ensures Deep(w.t, w.k, d - 1)
    ensures var p := SubAt(w.t, w.k, d - 1); var g := SubGrown(w, d);
            && p.Inner? && 2 <= |p.kids|
            && SubGrown(w, d - 1) == SplitFull(Splice(p, ChildIndex(p.kids, w.k), [g.l, g.r]), w.m, w.alloc[w.h - d + 1], w.h - d + 1)
  {
    ShapeDeep(w.t, w.h, w.k, d);
    ShapeDeep(w.t, w.h, w.k, d - 1);
    SubStep(w.t, w.k, d - 1);
  }

  function ParentStore(P: Store, pg: nat, l: Tree, r: Tree): Store
    requires pg in P && (|P[pg].cells| <= |P[pg].kids| <= |P[pg].cells| + 1)
  {
    P[pg := InsertedInternal(P[pg], Max(l), l.pg, r.pg)]
  }

  /** Writing the separator of the left half and the new child into the parent. */
  lemma UpStage(w: World, P: Store, d: nat, l: Tree, r: Tree)
    requires WorldOk(w) && 0 < d && Stage(w, P, d, [l, r]) && SubGrown(w, d) == Two(l, r)
    ensures Deep(w.t, w.k, d - 1) && 2 <= w.m
    ensures var p := SubAt(w.t, w.k, d - 1);
            && p.Inner? && p.kids != [] && p.pg in P && (|P[p.pg].cells| <= |P[p.pg].kids| <= |P[p.pg].cells| + 1)
            && Stage(w, ParentStore(P, p.pg, l, r), d - 1, [Splice(p, ChildIndex(p.kids, w.k), [l, r])])
            && |ParentStore(P, p.pg, l, r)[p.pg].cells| == Count(Splice(p, ChildIndex(p.kids, w.k), [l, r]))
  {
    hide InsertedInternal, Fits, SubGrown, Lay, LayF, Exact, WfRoot, Wf, Linked;
    ParentNode(w, P, d, [l, r]);
    ParentFits(w, P, d, l, r);
    var p := SubAt(w.t, w.k, d - 1);
    var i := ChildIndex(p.kids, w.k);
    var Q := ParentStore(P, p.pg, l, r);
    ParentTakes(P[p.pg], p, i, l, r, Over(w));
    UpStageLay(w, P, d, l, r);
    UpStageFrame(w, P, d, l, r);
    GraftStep(w.t, w.k, d - 1, [l, r]);
    LinkedSame(P, Q, Graft(w.t, w.k, d, [l, r]), Graft(w.t, w.k, d - 1, [Splice(p, i, [l, r])]));
  }

  lemma UpStageLay(w: World, P: Store, d: nat, l: Tree, r: Tree)
    requires WorldOk(w) && 0 < d && Stage(w, P, d, [l, r]) && SubGrown(w, d) == Two(l, r)
    requires Deep(w.t, w.k, d - 1)
    requires var p := SubAt(w.t, w.k, d - 1);
             && p.Inner? && p.kids != [] && p.pg in P && Fits(P[p.pg], p, ChildIndex(p.kids, w.k), l, r, Over(w))
    ensures var p := SubAt(w.t, w.k, d - 1);
            LayButF(ParentStore(P, p.pg, l, r), [Splice(p, ChildIndex(p.kids, w.k), [l, r])], Over(w))
  {
    hide Wf, Linked, SubGrown, Fits, CanInsert, InsertedInternal, Exact, WorldOk, Deep;
    ParentNode(w, P, d, [l, r]);
    SubPages(w.t, w.k, d - 1);
    var p := SubAt(w.t, w.k, d - 1);
    var i := ChildIndex(p.kids, w.k);
    var Q := ParentStore(P, p.pg, l, r);
    ParentTakes(P[p.pg], p, i, l, r, Over(w));
    ParentNotBelow(w, d, l, r);
    LayButFrameF(P, Q, [l, r], Over(w));
    KidPages(p.kids, i);
    OldLay(w, d - 1);
    SpliceLay(w.P0, Q, p, i, [l, r], Over(w));
  }

  /** The old subtrees are laid out as they were, whatever key is overlooked. */
  lemma OldLay(w: World, d: nat)
    requires WorldOk(w) && d <= w.h && Deep(w.t, w.k, d)
    ensures LayBut(w.P0, SubAt(w.t, w.k, d), Over(w)) && Distinct(SubAt(w.t, w.k, d))
  {
    hide Wf, Linked, CanInsert, Lay, LayBut;
    LaySub(w.P0, w.t, w.k, d);
    SubOrderHolds(w, d);
    SubPages(w.t, w.k, d);
    LayButSame(w.P0, SubAt(w.t, w.k, d), Over(w));
  }

  lemma ParentNotBelow(w: World, d: nat, l: Tree, r: Tree)
    requires WorldOk(w) && 0 < d <= w.h && SubGrown(w, d) == Two(l, r)
    requires Deep(w.t, w.k, d - 1)
    ensures SubAt(w.t, w.k, d - 1).pg !in PagesF([l, r])
  {
    SubSpaceHolds(w, d);
    PathPages(w.t, w.k, d - 1, d);
    Proof.TakenMono(w.alloc, w.h - d + 1, w.h - d + 1);
  }

  lemma UpStageFrame(w: World, P: Store, d: nat, l: Tree, r: Tree)
    requires WorldOk(w) && 0 < d && Stage(w, P, d, [l, r])
    requires Deep(w.t, w.k, d - 1)
    requires var p := SubAt(w.t, w.k, d - 1);
             && p.Inner? && p.kids != [] && p.pg in P && (|P[p.pg].cells| <= |P[p.pg].kids| <= |P[p.pg].cells| + 1)
    ensures var p := SubAt(w.t, w.k, d - 1); var Q := ParentStore(P, p.pg, l, r);
            && AgreeOn(w.P0, Q, Pages(w.t) - Pages(p))
            && Untouched(w, Q)
            && SameLinks(P, Q, PagesF(Graft(w.t, w.k, d, [l, r])))
  {
    hide Fits, SubGrown, Linked, Wf, Shape, SubAt, CanInsert, Max, Lay, Exact, NodeOf, Sorted, Entries, Distinct, Has;
    ParentNode(w, P, d, [l, r]);
    var p := SubAt(w.t, w.k, d - 1);
    KidPages(p.kids, ChildIndex(p.kids, w.k));
    assert Pages(SubAt(w.t, w.k, d)) <= Pages(p);
  }

  /** o stands at depth d on the pages of the old subtree and the pages taken below it. */
  ghost predicate FullHere(w: World, d: nat, o: Tree)
    requires WorldOk(w) && d <= w.h
  {
    && Deep(w.t, w.k, d) && Distinct(o) && 0 < Count(o)
    && o.pg == SubAt(w.t, w.k, d).pg
    && Pages(o) == Pages(SubAt(w.t, w.k, d)) + Proof.Taken(w.alloc, w.h - d)
  }

  lemma FullStands(w: World, d: nat, o: Tree)
    requires WorldOk(w) && d <= w.h && FullHere(w, d, o)
    ensures Stands(w.t, w.k, d, o)
    ensures w.alloc[w.h - d] !in Pages(w.t) + Pages(o)
  {
    SubPages(w.t, w.k, d);
    Proof.TakenMono(w.alloc, w.h - d, w.h - d);
    Proof.TakenFacts(w.alloc, w.h - d);
    assert w.alloc[w.h - d] in Members(w.alloc);
  }

  /** Splitting a full node at depth d; the nodes above keep their pages untouched. */
  lemma SplitStage(w: World, P: Store, d: nat, o: Tree)
    requires WorldOk(w) && d <= w.h && FullHere(w, d, o) && Stage(w, P, d, [o])
    ensures var y := w.alloc[w.h - d];
            && o.pg in P && (P[o.pg].kids == [] || |P[o.pg].cells| <= |P[o.pg].kids|) && P[o.pg].right != y
            && (P[o.pg].right != 0 ==> P[o.pg].right in P && P[o.pg].right != o.pg)
            && Stage(w, SplitStore(P, o.pg, y), d, [LeftHalf(o), RightHalf(o, y)])
            && AboveAll(w.t, w.k, P, SplitStore(P, o.pg, y), d)
  {
    hide Wf, CanInsert, LeftHalf, RightHalf, Shape, SubAt, Graft, Level, LevelF, SplitStore, Pages, Linked, LevelPost, DistinctF;
    var y := w.alloc[w.h - d];
    FullStands(w, d, o);
    NeighbourOf(P, w.t, w.k, d, o);
    assert LayBut(P, o, Over(w)) by { assert LayBut(P, [o][0], Over(w)); }
    if P[o.pg].right != 0 { LevelPagesF(Graft(w.t, w.k, d, [o]), d, P[o.pg].right); }
    SplitLinked(P, w.t, w.k, d, o, y);
    HalvesLay(P, o, y, Over(w));
    SplitStageFrame(w, P, d, o);
    forall j | 0 <= j < d ensures Above(w.t, w.k, P, SplitStore(P, o.pg, y), j) {
      SplitAbove(w, P, d, o, j);
    }
  }

  lemma SplitAbove(w: World, P: Store, d: nat, o: Tree, j: nat)
    requires WorldOk(w) && j < d <= w.h && FullHere(w, d, o) && Stage(w, P, d, [o])
    requires o.pg in P && (P[o.pg].kids == [] || |P[o.pg].cells| <= |P[o.pg].kids|)
    requires P[o.pg].right != 0 ==> P[o.pg].right in P && P[o.pg].right != o.pg
    ensures Above(w.t, w.k, P, SplitStore(P, o.pg, w.alloc[w.h - d]), j)
  {
    var ts := Graft(w.t, w.k, d, [o]);
    FullStands(w, d, o);
    NeighbourOf(P, w.t, w.k, d, o);
    PathPages(w.t, w.k, j, d);
    PathOnLevel(w.t, w.k, j);
    LevelAbove(w.t, w.k, d, [o], j);
    var q := SubAt(w.t, w.k, j).pg;
    assert o.pg in LevelF(ts, d);
    LevelsApartF(ts, j, d, q);
    assert Chain(P, LevelF(ts, j));
    var x :| 0 <= x < |LevelF(ts, j)| && LevelF(ts, j)[x] == q;
    assert LinkedAt(P, LevelF(ts, j), x);
    SplitAgrees(P, o.pg, w.alloc[w.h - d]);
  }

  lemma SplitStageFrame(w: World, P: Store, d: nat, o: Tree)
    requires WorldOk(w) && d <= w.h && FullHere(w, d, o) && Stage(w, P, d, [o])
    requires o.pg in P && (P[o.pg].kids == [] || |P[o.pg].cells| <= |P[o.pg].kids|)
    requires P[o.pg].right != 0 ==> P[o.pg].right in P && P[o.pg].right != o.pg && P[o.pg].right in Pages(w.t) + Pages(o)
    ensures var Q := SplitStore(P, o.pg, w.alloc[w.h - d]);
            && AgreeOn(w.P0, Q, Pages(w.t) - Pages(SubAt(w.t, w.k, d)))
            && Untouched(w, Q)
  {
    var y := w.alloc[w.h - d];
    FullStands(w, d, o);
    SubPages(w.t, w.k, d);
    RootPage(SubAt(w.t, w.k, d));
    SplitAgrees(P, o.pg, y);
    var S := Pages(w.t) - Pages(SubAt(w.t, w.k, d));
    assert AgreeOn(P, SplitStore(P, o.pg, y), S);
    Proof.TakenMono(w.alloc, w.h - d, w.h - d);
    forall p | p !in Pages(w.t) && p !in w.alloc
      ensures p != o.pg && p != y && (P[o.pg].right != 0 ==> p != P[o.pg].right) {
      assert p !in Members(w.alloc);
    }
  }

  /** The insert is over when the subtree at depth d did not split: the pages hold the new tree. */
  lemma {:induction false} FinalLay(w: World, P: Store, c: nat, d: nat, x: Tree)
    requires WorldOk(w) && c <= d <= w.h && Stage(w, P, d, [x])
    requires SubGrown(w, d).One? && SubGrown(w, d).t == x
    ensures SubGrown(w, c).One? && SubGrown(w, c).used == SubGrown(w, d).used
    ensures Deep(w.t, w.k, c) && LayBut(P, SubGrown(w, c).t, Over(w))
    ensures Graft(w.t, w.k, d, [x]) == Graft(w.t, w.k, c, [SubGrown(w, c).t])
    decreases d - c
  {
    if c == d {
      assert LayBut(P, [x][0], Over(w));
    } else {
      FinalLay(w, P, c + 1, d, x);
      FinalLayStep(w, P, c, d, x, SubGrown(w, c + 1).t);
    }
  }

  lemma FinalLayStep(w: World, P: Store, c: nat, d: nat, x: Tree, y: Tree)
    requires WorldOk(w) && c < d <= w.h && Stage(w, P, d, [x])
    requires SubGrown(w, c + 1).One? && SubGrown(w, c + 1).t == y
    requires Deep(w.t, w.k, c + 1) && LayBut(P, y, Over(w))
    ensures Deep(w.t, w.k, c)
    ensures SubGrown(w, c).One? && SubGrown(w, c).used == SubGrown(w, c + 1).used
    ensures LayBut(P, SubGrown(w, c).t, Over(w))
    ensures Graft(w.t, w.k, c + 1, [y]) == Graft(w.t, w.k, c, [SubGrown(w, c).t])
  {
    hide Linked, Wf, Ins, CanInsert, Graft, Untouched, SubGrown;
    GrownAbove(w, c, y);
    var p := SubAt(w.t, w.k, c);
    var i := ChildIndex(p.kids, w.k);
    GraftStep(w.t, w.k, c, [y]);
    KeepsMax(w, c, y);
    LaySub(w.P0, w.t, w.k, c);
    SubPages(w.t, w.k, c);
    PathPages(w.t, w.k, c, d);
    SubBelow(w.t, w.k, c + 1, d);
    assert p.pg in w.P0 && Body(P[p.pg]) == Body(w.P0[p.pg]);
    KidsOutside(w, c);
    OldLay(w, c);
    OldSepsAt(w, c);
    SpliceSame(w.P0, P, p, i, y, Over(w));
  }

  lemma OldSepsAt(w: World, c: nat)
    requires WorldOk(w) && c < w.h && Deep(w.t, w.k, c)
    ensures SubAt(w.t, w.k, c).Inner? ==>
              forall j :: 0 <= j < |SubAt(w.t, w.k, c).kids| ==> Sep(SubAt(w.t, w.k, c).kids[j], Over(w)) == Max(SubAt(w.t, w.k, c).kids[j])
  {
    hide Wf, Linked, CanInsert, Lay;
    SubOrderHolds(w, c);
    if SubAt(w.t, w.k, c).Inner? { OldSeps(SubAt(w.t, w.k, c), w.k, Over(w)); }
  }

  /** A node whose child did not split keeps all its other children. */
  lemma GrownAbove(w: World, c: nat, y: Tree)
    requires WorldOk(w) && c < w.h && SubGrown(w, c + 1).One? && SubGrown(w, c + 1).t == y
    ensures Deep(w.t, w.k, c)
    ensures var p := SubAt(w.t, w.k, c);
            && p.Inner? && p.kids != [] && p.kids[ChildIndex(p.kids, w.k)].pg == y.pg
            && SubGrown(w, c) == One(Splice(p, ChildIndex(p.kids, w.k), [y]), SubGrown(w, c + 1).used)
  {
    hide WfRoot, Linked, Lay, CanInsert, Pages, Entries, Max;
    ShapeDeep(w.t, w.h, w.k, c);
    ShapeDeep(w.t, w.h, w.k, c + 1);
    SubStep(w.t, w.k, c);
    var p := SubAt(w.t, w.k, c);
    var i := ChildIndex(p.kids, w.k);
    assert p.kids[..i] + [y] + p.kids[i + 1..] == p.kids[i := y];
    Proof.InsPg(SubAt(w.t, w.k, c + 1), w.h - c - 1, w.k, w.v, w.m, w.alloc);
  }

  lemma RootsSame(p: Tree, i: nat, y: Tree)
    requires p.Inner? && i < |p.kids| && y.pg == p.kids[i].pg
    ensures Roots(p.kids[i := y]) == Roots(p.kids)
  {
  }

  /** A page that has not changed still holds its node when a child has grown in place. */
  lemma SpliceSame(P: Store, Q: Store, p: Tree, i: nat, y: Tree, over: Option<int>)
    requires p.Inner? && i < |p.kids| && LayBut(P, p, over) && Distinct(p) && y.pg == p.kids[i].pg
    requires p.pg in Q && Body(Q[p.pg]) == Body(P[p.pg])
    requires i < Count(p) ==> Sep(y, over) == Sep(p.kids[i], over)
    requires LayBut(Q, y, over) && AgreeOn(P, Q, PagesF(p.kids) - Pages(p.kids[i]))
    ensures LayBut(Q, Splice(p, i, [y]), over)
  {
    assert Splice(p, i, [y]).kids == p.kids[i := y];
    RootsSame(p, i, y);
    SpliceLay(P, Q, p, i, [y], over);
  }

  /** A subtree further down the path has fewer pages. */
  lemma {:induction false} SubBelow(t: Tree, k: int, c: nat, d: nat)
    requires Deep(t, k, d) && c <= d
    ensures Deep(t, k, c) && Pages(SubAt(t, k, d)) <= Pages(SubAt(t, k, c))
    decreases c
  {
    if c == 0 {
      SubPages(t, k, d);
    } else {
      SubBelow(t.kids[ChildIndex(t.kids, k)], k, c - 1, d - 1);
    }
  }

  lemma KidsOutside(w: World, c: nat)
    requires WorldOk(w) && c < w.h && Deep(w.t, w.k, c) && Deep(w.t, w.k, c + 1)
    ensures var p := SubAt(w.t, w.k, c);
            p.Inner? && p.kids != [] &&
            PagesF(p.kids) - Pages(p.kids[ChildIndex(p.kids, w.k)]) <= Pages(w.t) - Pages(SubAt(w.t, w.k, c + 1))
  {
    SubStep(w.t, w.k, c);
    SubPages(w.t, w.k, c);
  }

  /** A child with a separator keeps it. */
  lemma KeepsMax(w: World, c: nat, y: Tree)
    requires WorldOk(w) && c < w.h && Deep(w.t, w.k, c) && Deep(w.t, w.k, c + 1)
    requires SubGrown(w, c + 1).One? && SubGrown(w, c + 1).t == y
    ensures var p := SubAt(w.t, w.k, c);
            && p.Inner? && p.kids != []
            && (ChildIndex(p.kids, w.k) < Count(p) ==> Sep(y, Over(w)) == Max(p.kids[ChildIndex(p.kids, w.k)]))
  {
    hide Lay, Linked, Wf, Distinct, Ins, Pages, WfRoot, Shape, Splice, Graft;
    SubStep(w.t, w.k, c);
    SubOrderHolds(w, c);
    SubOrderHolds(w, c + 1);
    var p := SubAt(w.t, w.k, c);
    var i := ChildIndex(p.kids, w.k);
    EntriesOne(y);
    if i < Count(p) {
      TakesDown(p, w.k, Over(w));
      InsertedSep(Entries(p.kids[i]), w.k, w.v, Over(w));
    }
  }

  // ---------------------------------------------------------------- the first and the last step

  function LeafStore(P: Store, pg: nat, k: int, v: Record): Store
    requires pg in P
  {
    P[pg := P[pg].(cells := InsertCell(P[pg].cells, k, v))]
  }

  /** The leaf takes the new cell; it may be full now. */
  lemma LeafStage(w: World)
    requires WorldOk(w)
    ensures Deep(w.t, w.k, w.h)
    ensures var s := SubAt(w.t, w.k, w.h);
            && s.Leaf? && s.pg in w.P0 && w.P0[s.pg].cells == s.cells
            && var o := Leaf(s.pg, InsertCell(s.cells, w.k, w.v));
               && Stage(w, LeafStore(w.P0, s.pg, w.k, w.v), w.h, [o])
               && FullHere(w, w.h, o)
               && SubGrown(w, w.h) == SplitFull(o, w.m, w.alloc[0], 0)
  {
    ShapeDeep(w.t, w.h, w.k, w.h);
    LaySub(w.P0, w.t, w.k, w.h);
    SubPages(w.t, w.k, w.h);
    var s := SubAt(w.t, w.k, w.h);
    var o := Leaf(s.pg, InsertCell(s.cells, w.k, w.v));
    var Q := LeafStore(w.P0, s.pg, w.k, w.v);
    forall e: nat ensures LevelF([o], e) == LevelF([s], e) {
      LevelOne(o, e);
      LevelOne(s, e);
    }
    SameLevels(w.t, w.k, w.h, [s], [o]);
    GraftSelf(w.t, w.k, w.h);
    LinkedSame(w.P0, Q, [w.t], Graft(w.t, w.k, w.h, [o]));
  }

  /** A parent with the two halves of its child stands on its old pages and the pages taken so far. */
  lemma SplicedFull(w: World, d: nat, l: Tree, r: Tree)
    requires WorldOk(w) && 0 < d <= w.h && SubGrown(w, d) == Two(l, r)
    ensures Deep(w.t, w.k, d - 1)
    ensures var p := SubAt(w.t, w.k, d - 1);
            && p.Inner? && p.kids != []
            && FullHere(w, d - 1, Splice(p, ChildIndex(p.kids, w.k), [l, r]))
  {
    hide Wf, Linked, Lay, CanInsert, Ins, SplitFull, Sorted, Has;
    var extra := Proof.Taken(w.alloc, w.h - d + 1);
    ParentGrows(w, d);
    ShapeDeep(w.t, w.h, w.k, d);
    SubStep(w.t, w.k, d - 1);
    var p := SubAt(w.t, w.k, d - 1);
    var i := ChildIndex(p.kids, w.k);
    assert DistinctF([l, r]) && PagesF([l, r]) == Pages(p.kids[i]) + extra by { SubSpaceHolds(w, d); }
    assert Distinct(p) && Pages(p) <= Pages(w.t) by { SubPages(w.t, w.k, d - 1); }
    assert extra !! Pages(w.t) by { Proof.TakenMono(w.alloc, w.h - d + 1, w.h - d + 1); }
    SplicedPages(p, i, [l, r], extra);
  }

  lemma SplicedPages(p: Tree, i: nat, fs: seq<Tree>, extra: set<nat>)
    requires p.Inner? && i < |p.kids| && Distinct(p) && DistinctF(fs)
    requires PagesF(fs) == Pages(p.kids[i]) + extra && extra !! Pages(p)
    ensures Distinct(Splice(p, i, fs)) && Pages(Splice(p, i, fs)) == Pages(p) + extra
  {
    Proof.SplicePages(p.kids, i, fs, extra);
  }

  /** The store after the root, whose right half is page r, has moved its left half to the page top. */
  function KeepRootStore(P: Store, root: nat, r: nat, top: nat, key: int): Store
    requires root in P && r in P
  {
    P[root := Node(false, 0, 0, [Cell(key, [])], [top, r])][top := P[root]][r := P[r].(left := top)]
  }

  lemma RootStage(w: World, P: Store, l: Tree, r: Tree)
    requires WorldOk(w) && Stage(w, P, 0, [l, r]) && SubGrown(w, 0) == Two(l, r)
    ensures l.pg == w.t.pg && l.pg in P && r.pg in P && P[l.pg].right == r.pg
    ensures var top := w.alloc[w.h + 1]; var Q := KeepRootStore(P, l.pg, r.pg, top, Max(l));
            && InsRoot(w.t, w.h, w.k, w.v, w.m, w.alloc) == Inner(w.t.pg, [Repage(l, top), r], true)
            && LayBut(Q, Inner(w.t.pg, [Repage(l, top), r], true), Over(w))
            && Linked(Q, [Inner(w.t.pg, [Repage(l, top), r], true)])
            && Untouched(w, Q)
  {
    var top := w.alloc[w.h + 1];
    assert LayBut(P, [l, r][0], Over(w)) && LayBut(P, [l, r][1], Over(w));
    var Q := KeepRootStore(P, l.pg, r.pg, top, Max(l));
    SubSpaceHolds(w, 0);
    Proof.PairPages(l, r);
    Proof.TakenFacts(w.alloc, w.h + 1);
    Proof.TakenFacts(w.alloc, w.h);
    assert Graft(w.t, w.k, 0, [l, r]) == [l, r];
    RootChain(P, l, r);
    assert top in Members(w.alloc);
    RootSep(w, l, r);
    RootLay(P, l, r, top, Over(w));
    RootLinked(P, w.t.pg, l, r, top);
  }

  lemma RootLevels(l: Tree, r: Tree, e: nat)
    ensures LevelF([l, r], e) == Level(l, e) + Level(r, e)
  {
    assert [l, r] == [l] + [r];
    LevelAppend([l], [r], e);
    LevelOne(l, e);
    LevelOne(r, e);
  }

  lemma RootChain(P: Store, l: Tree, r: Tree)
    requires Linked(P, [l, r])
    ensures LevelF([l, r], 0) == [l.pg, r.pg]
    ensures LinkedAt(P, [l.pg, r.pg], 0) && LinkedAt(P, [l.pg, r.pg], 1)
  {
    RootLevels(l, r, 0);
    assert Level(l, 0) + Level(r, 0) == [l.pg, r.pg];
    assert Chain(P, LevelF([l, r], 0));
  }

  /** The separator of the new root. */
  lemma RootSep(w: World, l: Tree, r: Tree)
    requires WorldOk(w) && SubGrown(w, 0) == Two(l, r)
    ensures Sep(l, Over(w)) == Max(l)
  {
    hide Lay, Linked, Wf, CanInsert, Ins;
    SubOrderHolds(w, 0);
    var e := Entries(w.t);
    InsertCellSorted(e, w.k, w.v);
    Proof.PairPages(l, r);
    if Over(w).Some? { RankIs(e, w.k, |e|); }
    HalvesSep(Entries(l), Entries(r), Over(w));
  }

  lemma RootLay(P: Store, l: Tree, r: Tree, top: nat, over: Option<int>)
    requires LayBut(P, l, over) && LayBut(P, r, over) && Distinct(l) && Distinct(r) && Pages(l) !! Pages(r)
    requires top !in Pages(l) + Pages(r) && Sep(l, over) == Max(l)
    ensures LayBut(KeepRootStore(P, l.pg, r.pg, top, Max(l)), Inner(l.pg, [Repage(l, top), r], true), over)
  {
    var Q := KeepRootStore(P, l.pg, r.pg, top, Max(l));
    var u := Inner(l.pg, [Repage(l, top), r], true);
    assert l.pg in Pages(l) && r.pg in Pages(r);
    LayButFrame(P, Q, r, over);
    if l.Inner? { LayButFrameF(P, Q, l.kids, over); }
    assert LayBut(Q, Repage(l, top), over);
    assert Roots([Repage(l, top), r]) == [top, r.pg];
    assert u.kids[0] == Repage(l, top) && u.kids[1] == r;
  }

  lemma RootLinked(P: Store, pg: nat, l: Tree, r: Tree, top: nat)
    requires Linked(P, [l, r]) && l.pg in P && r.pg in P && pg == l.pg
    requires Distinct(l) && Distinct(r) && Pages(l) !! Pages(r)
    requires top !in Pages(l) + Pages(r)
    ensures Linked(KeepRootStore(P, l.pg, r.pg, top, Max(l)), [Inner(pg, [Repage(l, top), r], true)])
  {
    var Q := KeepRootStore(P, l.pg, r.pg, top, Max(l));
    var u := Inner(pg, [Repage(l, top), r], true);
    Proof.PairPages(l, r);
    RootChain(P, l, r);
    assert l.pg in Pages(l) && r.pg in Pages(r);
    forall e: nat ensures Chain(Q, LevelF([u], e)) {
      NewRootLevel(pg, l, r, top, e);
      if e > 1 { DeeperLevel(P, Q, l, r, top, e - 1); }
    }
  }

  lemma NewRootLevel(pg: nat, l: Tree, r: Tree, top: nat, e: nat)
    ensures LevelF([Inner(pg, [Repage(l, top), r], true)], e) ==
            if e == 0 then [pg] else if e == 1 then [top, r.pg] else LevelF([l, r], e - 1)
  {
    var l' := Repage(l, top);
    LevelOne(Inner(pg, [l', r], true), e);
    if e > 0 {
      RootLevels(l', r, e - 1);
      RootLevels(l, r, e - 1);
      assert e == 1 ==> Level(l', 0) + Level(r, 0) == [top, r.pg];
    }
  }

  lemma DeeperLevel(P: Store, Q: Store, l: Tree, r: Tree, top: nat, e: nat)
    requires 0 < e && Linked(P, [l, r]) && DistinctF([l, r]) && l.pg in P && r.pg in P
    requires top !in PagesF([l, r]) && Q == KeepRootStore(P, l.pg, r.pg, top, Max(l))
    ensures Chain(Q, LevelF([l, r], e))
  {
    var ps := LevelF([l, r], e);
    RootLevels(l, r, 0);
    assert Chain(P, ps);
    forall i | 0 <= i < |ps| ensures LinkedAt(Q, ps, i) {
      assert LinkedAt(P, ps, i);
      LevelPagesF([l, r], e, ps[i]);
      LevelsApart2([l, r], e, 0, ps[i]);
    }
  }

  // ---------------------------------------------------------------- what the cursor needs at each step

  /** The parent at depth d with the halves of its child. */
  ghost function SplicedAt(w: World, d: nat, l: Tree, r: Tree): Tree
    requires WorldOk(w) && d < w.h
  {
    ShapeDeep(w.t, w.h, w.k, d);
    var p := SubAt(w.t, w.k, d);
    Splice(p, ChildIndex(p.kids, w.k), [l, r])
  }

  lemma {:induction false} MaxOfLast(ts: seq<Tree>)
    requires ts != [] && Entries(ts[|ts| - 1]) != []
    ensures EntriesF(ts) != [] && EntriesF(ts)[|EntriesF(ts)| - 1].key == Max(ts[|ts| - 1])
  {
    var n := |ts| - 1;
    AtChild(ts, n);
    assert ts[n + 1..] == [];
  }

  lemma SplicedNonEmpty(w: World, d: nat, l: Tree, r: Tree)
    requires WorldOk(w) && d < w.h && SubGrown(w, d + 1) == Two(l, r)
    ensures SplicedAt(w, d, l, r).Inner? && AllNonEmpty(SplicedAt(w, d, l, r).kids)
  {
    hide WfRoot, Wf, Linked, Lay, Ins, CanInsert, Stage, Entries, InsertCell, Shape;
    SubOrderHolds(w, d);
    SubOrderHolds(w, d + 1);
    ShapeDeep(w.t, w.h, w.k, d);
    var p := SubAt(w.t, w.k, d);
    var i := ChildIndex(p.kids, w.k);
    var ks := SplicedAt(w, d, l, r).kids;
    forall j | 0 <= j < |ks| ensures Entries(ks[j]) != [] {
      assert ks[j] == if j < i then p.kids[j] else if j == i then l else if j == i + 1 then r else p.kids[j - 1];
    }
  }

  /** The left half of a split node does not end in the overlooked key. */
  lemma LeftKnown(w: World, d: nat)
    requires WorldOk(w) && d <= w.h && SubGrown(w, d).Two?
    ensures Over(w).Some? ==> Max(SubGrown(w, d).l) != Over(w).value
  {
    hide Lay, Linked, Wf, CanInsert, Ins;
    SubOrderHolds(w, d);
    var l, r := SubGrown(w, d).l, SubGrown(w, d).r;
    var e := Entries(SubAt(w.t, w.k, d));
    InsertCellSorted(e, w.k, w.v);
    Proof.PairPages(l, r);
    if Over(w).Some? {
      RankIs(e, w.k, |e|);
      var s := Entries(l) + Entries(r);
      assert s == InsertCell(e, w.k, w.v) && s[|s| - 1] == Entries(r)[|Entries(r)| - 1];
      LastBefore2(Entries(l), Entries(r));
    }
  }

  /** The key sent up from a full node is the maximum of its left half. */
  lemma FullUpkey(w: World, P: Store, d: nat, o: Tree)
    requires WorldOk(w) && d <= w.h && Stage(w, P, d, [o]) && 4 <= Count(o)
    requires o.Inner? ==> AllNonEmpty(o.kids)
    requires Over(w).Some? ==> Max(LeftHalf(o)) != Over(w).value
    ensures o.pg in P && |P[o.pg].cells| == Count(o)
    ensures P[o.pg].cells[Count(o) / 2 - 1].key == Max(LeftHalf(o))
  {
    assert LayBut(P, [o][0], Over(w));
    if o.Inner? {
      MaxOfLast(LeftHalf(o).kids);
    }
  }

  /** o is full and has to be split; its parent will get upkey. */
  ghost predicate FullDone(w: World, d: nat, o: Tree, upkey: int)
    requires WorldOk(w) && d <= w.h
  {
    && FullHere(w, d, o) && Count(o) >= 2 * w.m && upkey == Max(LeftHalf(o))
    && SubGrown(w, d) == SplitFull(o, w.m, w.alloc[w.h - d], w.h - d)
  }

  /** The whole step of a parent, from its page before to its page after. */
  lemma ParentStep(w: World, P: Store, d: nat, l: Tree, r: Tree)
    requires WorldOk(w) && d < w.h && Stage(w, P, d + 1, [l, r]) && SubGrown(w, d + 1) == Two(l, r)
    ensures Deep(w.t, w.k, d) && 2 <= w.m
    ensures var pg := SubAt(w.t, w.k, d).pg; var o := SplicedAt(w, d, l, r);
            && pg in P && P[pg].cells != [] && Sorted(P[pg].cells)
            && (|P[pg].cells| <= |P[pg].kids| <= |P[pg].cells| + 1)
            && !Search(P[pg].cells, Max(l)).Equal?
            && var Q := ParentStore(P, pg, l, r);
               && Stage(w, Q, d, [o])
               && |Q[pg].cells| == Count(o)
               && (Count(o) >= 2 * w.m ==> FullDone(w, d, o, Q[pg].cells[Count(o) / 2 - 1].key))
               && (Count(o) < 2 * w.m ==> SubGrown(w, d) == One(o, w.h - d))
  {
    hide Stage, WorldOk, InsertedInternal, Fits, Search, SubAt, LeftHalf, Max, Count, Sorted, FullDone, SubGrown, FullHere, ChildIndex, Deep;
    ParentFits(w, P, d + 1, l, r);
    UpStage(w, P, d + 1, l, r);
    SplicedFull(w, d + 1, l, r);
    ParentGrows(w, d + 1);
    var p := SubAt(w.t, w.k, d);
    var o := SplicedAt(w, d, l, r);
    var Q := ParentStore(P, p.pg, l, r);
    if Count(o) >= 2 * w.m { ParentFull(w, Q, d, l, r); }
  }

  lemma ParentFull(w: World, Q: Store, d: nat, l: Tree, r: Tree)
    requires WorldOk(w) && d < w.h && SubGrown(w, d + 1) == Two(l, r) && 2 <= w.m
    requires var o := SplicedAt(w, d, l, r);
             && Stage(w, Q, d, [o]) && FullHere(w, d, o) && Count(o) >= 2 * w.m
             && SubGrown(w, d) == SplitFull(o, w.m, w.alloc[w.h - d], w.h - d)
    ensures var o := SplicedAt(w, d, l, r);
            && o.pg in Q && |Q[o.pg].cells| == Count(o)
            && FullDone(w, d, o, Q[o.pg].cells[Count(o) / 2 - 1].key)
  {
    hide Stage, Splice, SplicedAt, WorldOk, SubAt, LeftHalf, Max, Count, FullHere;
    SplicedNonEmpty(w, d, l, r);
    LeftKnown(w, d);
    FullUpkey(w, Q, d, SplicedAt(w, d, l, r));
  }

  /** Rewriting the node at depth d leaves the pages above it alone. */
  lemma PathKept(w: World, P: Store, Q: Store, d: nat)
    requires WorldOk(w) && d < w.h && SubGrown(w, d + 1).Two?
    requires Stage(w, P, d + 1, [SubGrown(w, d + 1).l, SubGrown(w, d + 1).r]) && Deep(w.t, w.k, d)
    requires forall p :: p in P && p != SubAt(w.t, w.k, d).pg ==> p in Q && Q[p] == P[p]
    ensures AboveAll(w.t, w.k, P, Q, d)
  {
    hide SubGrown, LayF, Linked, Wf, CanInsert, Shape, Untouched, Sorted;
    forall j | 0 <= j < d ensures Above(w.t, w.k, P, Q, j) {
      PathPages(w.t, w.k, j, d);
      PathPages(w.t, w.k, j, d + 1);
      assert SubAt(w.t, w.k, j).pg in w.P0 by { LaySub(w.P0, w.t, w.k, j); }
      RootPage(SubAt(w.t, w.k, d));
    }
  }

  /** The store after the full node at depth d has been split, and the halves it holds. */
  lemma SplitOffStep(w: World, P: Store, d: nat, o: Tree) returns (Q: Store, fs: seq<Tree>)
    requires WorldOk(w) && d <= w.h && FullHere(w, d, o) && Stage(w, P, d, [o])
    ensures var y := w.alloc[w.h - d];
            && Deep(w.t, w.k, d) && o.pg == SubAt(w.t, w.k, d).pg
            && o.pg in P && (P[o.pg].isLeaf <==> o.Leaf?) && o.pg != y
            && (P[o.pg].kids == [] || |P[o.pg].cells| <= |P[o.pg].kids|) && P[o.pg].right != y
            && (P[o.pg].right != 0 ==> P[o.pg].right in P && P[o.pg].right != o.pg)
            && Q == SplitStore(P, o.pg, y) && fs == [LeftHalf(o), RightHalf(o, y)]
            && Stage(w, Q, d, fs) && AboveAll(w.t, w.k, P, Q, d)
  {
    var y := w.alloc[w.h - d];
    FullNode(w, P, d, o);
    SplitStage(w, P, d, o);
    Q, fs := SplitStore(P, o.pg, y), [LeftHalf(o), RightHalf(o, y)];
  }

  lemma FullNode(w: World, P: Store, d: nat, o: Tree)
    requires WorldOk(w) && d <= w.h && Stage(w, P, d, [o]) && FullHere(w, d, o)
    ensures o.pg in P && (P[o.pg].isLeaf <==> o.Leaf?) && o.pg != w.alloc[w.h - d]
  {
    assert LayBut(P, [o][0], Over(w));
    FullStands(w, d, o);
    RootPage(o);
  }

  /** The step at the leaf, from its page before to its page after. */
  lemma LeafStep(w: World) returns (o: Tree)
    requires WorldOk(w)
    ensures Deep(w.t, w.k, w.h) && 2 <= w.m
    ensures var s := SubAt(w.t, w.k, w.h);
            && s.Leaf? && s.pg in w.P0 && w.P0[s.pg].cells == s.cells
            && o == Leaf(s.pg, InsertCell(s.cells, w.k, w.v))
            && var Q := LeafStore(w.P0, s.pg, w.k, w.v);
               && Stage(w, Q, w.h, [o]) && AboveAll(w.t, w.k, w.P0, Q, w.h)
    ensures |o.cells| >= 2 * w.m ==> FullDone(w, w.h, o, o.cells[|o.cells| / 2 - 1].key)
    ensures |o.cells| < 2 * w.m ==> SubGrown(w, w.h) == One(o, 0)
  {
    hide Stage, SubGrown, FullHere, LeafStore, Lay, Linked, CanInsert, Wf;
    LeafStage(w);
    var s := SubAt(w.t, w.k, w.h);
    o := Leaf(s.pg, InsertCell(s.cells, w.k, w.v));
    LeafAbove(w);
  }

  lemma LeafAbove(w: World)
    requires WorldOk(w) && Deep(w.t, w.k, w.h) && SubAt(w.t, w.k, w.h).pg in w.P0
    ensures AboveAll(w.t, w.k, w.P0, LeafStore(w.P0, SubAt(w.t, w.k, w.h).pg, w.k, w.v), w.h)
  {
    hide Linked, CanInsert, Wf, InsertCell;
    forall j | 0 <= j < w.h ensures Above(w.t, w.k, w.P0, LeafStore(w.P0, SubAt(w.t, w.k, w.h).pg, w.k, w.v), j) {
      PathPages(w.t, w.k, j, w.h);
      LaySub(w.P0, w.t, w.k, j);
      RootPage(SubAt(w.t, w.k, w.h));
    }
  }

  /** The left half keeps the page of the node that was split. */
  lemma HalvesPages(w: World, d: nat, l: Tree, r: Tree)
    requires WorldOk(w) && d <= w.h && SubGrown(w, d) == Two(l, r)
    ensures Deep(w.t, w.k, d) && l.pg == SubAt(w.t, w.k, d).pg && r.pg == w.alloc[w.h - d]
  {
    SubSpaceHolds(w, d);
  }

  lemma RootSpace(w: World, l: Tree, r: Tree)
    requires WorldOk(w) && SubGrown(w, 0) == Two(l, r)
    ensures l.pg != r.pg && w.alloc[w.h + 1] != l.pg && w.alloc[w.h + 1] != r.pg
    ensures Ins(w.t, w.h, w.k, w.v, w.m, w.alloc) == Two(l, r)
  {
    SubSpaceHolds(w, 0);
    assert w.alloc[w.h + 1] in Members(w.alloc) && w.alloc[w.h] in Members(w.alloc);
    RootPage(w.t);
  }
}
