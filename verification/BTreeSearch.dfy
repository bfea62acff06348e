/** Looking a key up along its path. */
module BTreeSearch {
  import opened Values
  import opened Cells
  import opened BTreeSpec
  import opened BTreeLayout

  lemma RouteDown(kids: seq<Tree>, k: int)
    requires kids != [] && Sorted(EntriesF(kids)) && AllNonEmpty(kids)
    ensures var e := Entries(kids[ChildIndex(kids, k)]);
            Sorted(e) && (Has(e, k) <==> Has(EntriesF(kids), k))
  {
    RouteHas(kids, k);
    Route(kids, k);
  }

  /** The entries below every node of the path are sorted, and k is in the tree exactly when it is there. */
  lemma {:induction false} SubFind(t: Tree, h: nat, k: int, m: nat, d: nat, lo: int, right: bool)
    requires 2 <= m && Shape(t, h) && Wf(t, h, lo, m, right) && d <= h && Sorted(Entries(t))
    ensures Deep(t, k, d) && Shape(SubAt(t, k, d), h - d)
    ensures Sorted(Entries(SubAt(t, k, d)))
    ensures Has(Entries(SubAt(t, k, d)), k) <==> Has(Entries(t), k)
    ensures SubAt(t, k, d).Inner? ==> AllNonEmpty(SubAt(t, k, d).kids)
    decreases d
  {
    if t.Inner? { KidsNonEmpty(t.kids, h - 1, m, right); }
    if d > 0 {
      var i := ChildIndex(t.kids, k);
      RouteDown(t.kids, k);
      SubFind(t.kids[i], h - 1, k, m, d - 1, m, right && i == |t.kids| - 1);
    }
  }

  /** The tree t of height h is well formed and lies in the pages P with exact separators. */
  ghost predicate Stored(P: Store, t: Tree, h: nat, m: nat) {
    2 <= m && Shape(t, h) && WfRoot(t, h, m) && Lay(P, t)
  }

  /** As Stored, but closed nodes may overlook the largest key. */
  ghost predicate StoredBut(P: Store, t: Tree, h: nat, m: nat, over: Option<int>) {
    && 2 <= m && Shape(t, h) && WfRoot(t, h, m) && LayBut(P, t, over)
    && (over.Some? ==> Entries(t) != [] && over.value == Max(t))
  }

  lemma StoredNone(P: Store, t: Tree, h: nat, m: nat)
    ensures StoredBut(P, t, h, m, None) <==> Stored(P, t, h, m)
  {
    hide Lay, LayBut, Wf;
    LayButSame(P, t, None);
  }

  lemma {:induction false} LaySubBut(P: Store, t: Tree, k: int, d: nat, over: Option<int>)
    requires LayBut(P, t, over) && Deep(t, k, d)
    ensures LayBut(P, SubAt(t, k, d), over)
    decreases d
  {
    if d > 0 {
      LaySubBut(P, t.kids[ChildIndex(t.kids, k)], k, d - 1, over);
    }
  }

  /** Every key of t is at most top. */
  ghost predicate AtMost(e: seq<Cell>, over: Option<int>) {
    over.Some? ==> forall i :: 0 <= i < |e| ==> e[i].key <= over.value
  }

  lemma {:induction false} SubAtMost(t: Tree, k: int, d: nat, over: Option<int>)
    requires Deep(t, k, d) && AtMost(Entries(t), over)
    ensures AtMost(Entries(SubAt(t, k, d)), over)
    decreases d
  {
    if d > 0 {
      var i := ChildIndex(t.kids, k);
      AtChild(t.kids, i);
      PartAtMost(EntriesF(t.kids[..i]), Entries(t.kids[i]), EntriesF(t.kids[i + 1..]), over);
      SubAtMost(t.kids[i], k, d - 1, over);
    }
  }

  lemma PartAtMost(a: seq<Cell>, b: seq<Cell>, c: seq<Cell>, over: Option<int>)
    requires AtMost(a + b + c, over)
    ensures AtMost(b, over)
  {
    forall i | 0 <= i < |b| ensures (a + b + c)[|a| + i] == b[i] {}
  }

  /** The separators of a node are in order; each lies above all keys of the children before its own. */
  lemma SepsBetween(t: Tree, over: Option<int>, i: nat)
    requires t.Inner? && Sorted(Entries(t)) && AllNonEmpty(t.kids) && AtMost(Entries(t), over) && i < |t.kids|
    ensures Sep(t.kids[i], over) <= Max(t.kids[i])
    ensures i + 1 < |t.kids| ==> Sep(t.kids[i], over) == Max(t.kids[i])
    ensures forall j :: 0 <= j < i ==> Max(t.kids[j]) < Sep(t.kids[i], over)
  {
    var e := Entries(t.kids[i]);
    AtChild(t.kids, i);
    SortedParts(EntriesF(t.kids[..i]), e, EntriesF(t.kids[i + 1..]));
    if i + 1 < |t.kids| {
      MaxMono(t.kids, i, i + 1);
      AtChild(t.kids, i + 1);
      LastOf(Entries(t), EntriesF(t.kids[..i + 1]), Entries(t.kids[i + 1]), EntriesF(t.kids[i + 2..]), over);
    }
    forall j | 0 <= j < i ensures Max(t.kids[j]) < Sep(t.kids[i], over) {
      MaxBelow(t.kids, j, i, if Sep(t.kids[i], over) == Max(t.kids[i]) then |e| - 1 else |e| - 2);
    }
  }

  lemma LastOf(s: seq<Cell>, a: seq<Cell>, b: seq<Cell>, c: seq<Cell>, over: Option<int>)
    requires s == a + b + c && b != [] && AtMost(s, over)
    ensures over.Some? ==> b[|b| - 1].key <= over.value
  {
    assert s[|a| + |b| - 1] == b[|b| - 1];
  }

  /** The separators are sorted, and the rank of k among them is the index of its child, or past the last one. */
  lemma SepRankBut(n: Node, t: Tree, k: int, over: Option<int>)
    requires t.Inner? && t.kids != [] && ExactBut(n, t, over) && Sorted(Entries(t)) && AllNonEmpty(t.kids)
    requires AtMost(Entries(t), over) && |n.cells| <= |t.kids|
    ensures Sorted(n.cells)
    ensures var i := ChildIndex(t.kids, k); var r := Rank(n.cells, k);
            (r == i || (r == |n.cells| && i == |t.kids| - 1))
  {
    hide Sep;
    forall i | 0 <= i < |n.cells| ensures Sep(t.kids[i], over) == n.cells[i].key { SepsBetween(t, over, i); }
    forall i, j | 0 <= i < j < |n.cells| ensures n.cells[i].key < n.cells[j].key {
      SepsBetween(t, over, i);
      SepsBetween(t, over, j);
    }
    var i := ChildIndex(t.kids, k);
    forall j | 0 <= j < i && j < |n.cells| ensures n.cells[j].key < k { SepsBetween(t, over, j); }
    if i < |n.cells| {
      SepsBetween(t, over, i);
      if k <= n.cells[i].key { RankIs(n.cells, k, i); } else { RankIs(n.cells, k, |n.cells|); }
    } else {
      RankIs(n.cells, k, |n.cells|);
    }
  }

  /** What a node on the path of k holds. */
  lemma PathNodeBut(P: Store, t: Tree, h: nat, k: int, m: nat, d: nat, over: Option<int>)
    requires StoredBut(P, t, h, m, over) && d <= h
    ensures Deep(t, k, d)
    ensures var s := SubAt(t, k, d);
            && Shape(s, h - d) && (s.Leaf? <==> d == h)
            && s.pg in P && NodeOf(P[s.pg], s) && ExactBut(P[s.pg], s, over)
            && Sorted(P[s.pg].cells) && Sorted(Entries(s)) && AtMost(Entries(s), over)
            && (s.Inner? ==> AllNonEmpty(s.kids))
            && (s.Leaf? ==> P[s.pg].cells == s.cells && (Has(s.cells, k) <==> Has(Entries(t), k)))
  {
    hide Wf, ExactBut, SepOf;
    SubFind(t, h, k, m, d, 0, true);
    LaySubBut(P, t, k, d, over);
    MaxAtMost(t, over);
    SubAtMost(t, k, d, over);
    var s := SubAt(t, k, d);
    if s.Inner? { SepRankBut(P[s.pg], s, k, over); }
  }

  lemma MaxAtMost(t: Tree, over: Option<int>)
    requires Sorted(Entries(t)) && (over.Some? ==> Entries(t) != [] && over.value == Max(t))
    ensures AtMost(Entries(t), over)
  {
  }

  /** What a node on the path of k holds in an exact tree. */
  lemma PathNode(P: Store, t: Tree, h: nat, k: int, m: nat, d: nat)
    requires Stored(P, t, h, m) && d <= h
    ensures Deep(t, k, d)
    ensures var s := SubAt(t, k, d);
            && Shape(s, h - d) && (s.Leaf? <==> d == h)
            && s.pg in P && NodeOf(P[s.pg], s) && Exact(P[s.pg], s)
            && Sorted(P[s.pg].cells)
            && (s.Leaf? ==> P[s.pg].cells == s.cells && (Has(s.cells, k) <==> Has(Entries(t), k)))
  {
    hide Wf, Exact, LayBut;
    StoredNone(P, t, h, m);
    PathNodeBut(P, t, h, k, m, d, None);
    LaySub(P, t, k, d);
  }

  /** The child the search inside an inner node n leads to. */
  ghost predicate LeadsTo(n: Node, k: int, child: nat) {
    && n.cells != [] && n.kids != []
    && match Search(n.cells, k)
       case Equal(i) => i < |n.kids| && n.kids[i] == child
       case LessThan(i) => i < |n.kids| && n.kids[i] == child
       case Right => n.kids[|n.kids| - 1] == child
  }

  /** The search at depth d finds a leaf, or leads to the next node of the path. */
  ghost predicate OnPath(P: Store, t: Tree, h: nat, k: int, d: nat) {
    && Deep(t, k, d) && SubAt(t, k, d).pg in P
    && var n := P[SubAt(t, k, d).pg];
       && Sorted(n.cells) && (n.isLeaf <==> d == h)
       && (d < h ==> Deep(t, k, d + 1) && SubAt(t, k, d + 1).pg in P && LeadsTo(n, k, SubAt(t, k, d + 1).pg))
  }

  ghost predicate Descent(P: Store, t: Tree, h: nat, k: int) {
    forall d :: 0 <= d <= h ==> OnPath(P, t, h, k, d)
  }

  /** Every search finds its way, also where closed nodes overlook the largest key. */
  lemma DescentBut(P: Store, t: Tree, h: nat, k: int, m: nat, over: Option<int>)
    requires StoredBut(P, t, h, m, over)
    ensures Descent(P, t, h, k)
  {
    hide Wf, LayBut, ExactBut, Sep, LeadsTo;
    forall d | 0 <= d <= h ensures OnPath(P, t, h, k, d) {
      PathNodeBut(P, t, h, k, m, d, over);
      if d < h {
        PathNodeBut(P, t, h, k, m, d + 1, over);
        PathChild(P, t, h, k, m, d, over);
      }
    }
  }

  lemma DescentOk(P: Store, t: Tree, h: nat, k: int, m: nat)
    requires Stored(P, t, h, m)
    ensures Descent(P, t, h, k)
  {
    StoredNone(P, t, h, m);
    DescentBut(P, t, h, k, m, None);
  }

  lemma PathChild(P: Store, t: Tree, h: nat, k: int, m: nat, d: nat, over: Option<int>)
    requires StoredBut(P, t, h, m, over) && d < h
    ensures Deep(t, k, d) && Deep(t, k, d + 1)
    ensures SubAt(t, k, d).pg in P && LeadsTo(P[SubAt(t, k, d).pg], k, SubAt(t, k, d + 1).pg)
  {
    hide Wf, LayBut, Sep, ExactBut, LeadsTo, Entries, NodeOf;
    PathNodeBut(P, t, h, k, m, d, over);
    ShapeDeep(t, h, k, d + 1);
    SubStep(t, k, d);
    var s := SubAt(t, k, d);
    SubFind(t, h, k, m, d, 0, true);
    ClosedOrOpen(t, h, k, m, d, 0, true);
    NodeLeads(P[s.pg], s, k, over);
  }

  /** The search inside one node leads to the child whose key range holds k. */
  lemma NodeLeads(n: Node, t: Tree, k: int, over: Option<int>)
    requires t.Inner? && t.kids != [] && NodeOf(n, t) && ExactBut(n, t, over) && Sorted(Entries(t)) && AllNonEmpty(t.kids)
    requires AtMost(Entries(t), over) && 1 <= Count(t) <= |t.kids| && |t.kids| <= Count(t) + 1
    ensures LeadsTo(n, k, t.kids[ChildIndex(t.kids, k)].pg)
  {
    hide Sep, Entries, ExactBut, Max, AtMost;
    SepRankBut(n, t, k, over);
  }

  /** An inner node on a path has a separator for every child but perhaps the last. */
  lemma {:induction false} ClosedOrOpen(t: Tree, h: nat, k: int, m: nat, d: nat, lo: int, right: bool)
    requires Wf(t, h, lo, m, right) && 2 <= m && Shape(t, h) && d < h && Deep(t, k, d)
    ensures var s := SubAt(t, k, d); s.Inner? && 1 <= Count(s) <= |s.kids| && |s.kids| <= Count(s) + 1
    decreases d
  {
    if d > 0 {
      var i := ChildIndex(t.kids, k);
      ClosedOrOpen(t.kids[i], h - 1, k, m, d - 1, m, right && i == |t.kids| - 1);
    }
  }

  /** What a search for k in a sorted run tells. */
  lemma SearchMeans(s: seq<Cell>, k: int)
    requires Sorted(s)
    ensures Search(s, k).Equal? <==> Has(s, k)
    ensures Search(s, k).Equal? ==>
              var i := Search(s, k).idx; i < |s| && s[i].key == k && Binds(AsMap(s), k, s[i].val) && i == Rank(s, k)
    ensures !Has(s, k) ==> k !in AsMap(s)
  {
    HasRank(s, k);
    AsMapHas(s, k);
  }

  /** The record of k in the tree is the one in its leaf. */
  lemma {:induction false} SubBinds(t: Tree, h: nat, k: int, m: nat, d: nat, lo: int, right: bool, v: Record)
    requires 2 <= m && Shape(t, h) && Wf(t, h, lo, m, right) && d <= h && Sorted(Entries(t))
    requires Deep(t, k, d) && Cell(k, v) in Entries(SubAt(t, k, d))
    ensures Cell(k, v) in Entries(t)
    decreases d
  {
    if d > 0 {
      var i := ChildIndex(t.kids, k);
      KidsNonEmpty(t.kids, h - 1, m, right);
      Route(t.kids, k);
      SubBinds(t.kids[i], h - 1, k, m, d - 1, m, right && i == |t.kids| - 1, v);
      AtChild(t.kids, i);
    }
  }

  /** The leaf on the path of k binds k as the whole tree does. */
  lemma LeafBinds(P: Store, t: Tree, h: nat, k: int, m: nat, over: Option<int>)
    requires StoredBut(P, t, h, m, over)
    ensures Deep(t, k, h) && Sorted(Entries(t))
    ensures var s := SubAt(t, k, h);
            && s.Leaf? && s.pg in P && P[s.pg].cells == s.cells && Sorted(s.cells)
            && (Has(s.cells, k) <==> k in AsMap(Entries(t)))
            && (Has(s.cells, k) ==> k in AsMap(s.cells) && AsMap(s.cells)[k] == AsMap(Entries(t))[k])
  {
    hide LayBut, ExactBut, Wf;
    PathNodeBut(P, t, h, k, m, h, over);
    var c := SubAt(t, k, h).cells;
    AsMapHas(Entries(t), k);
    AsMapHas(c, k);
    if Has(c, k) {
      var v := AsMap(c)[k];
      MapIn(c, k, v);
      assert Binds(AsMap(c), k, v);
      SubBinds(t, h, k, m, h, 0, true, v);
      MapIn(Entries(t), k, v);
    }
  }
}
