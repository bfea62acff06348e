/** What inserting does to a well-formed tree: one more binding, and a well-formed tree again. */
module BTreeInsertProof {
  import opened Values
  import opened Cells
  import opened BTreeSpec

  /** The trees in a forest are well formed and only the last one may reach the right spine. */
  ghost predicate WfForest(g: Grown, h: nat, lo: int, m: nat, right: bool) {
    match g
    case One(t, _) => Wf(t, h, lo, m, right)
    case Two(l, r) => Wf(l, h, m, m, false) && Wf(r, h, m, m, right)
  }

  lemma TakeWf(kids: seq<Tree>, n: nat, h: nat, m: nat, right: bool)
    requires n < |kids| && KidsWf(kids, h, m, right)
    ensures KidsWf(kids[..n], h, m, false) && KidsWf(kids[n..], h, m, right)
  {
    forall j | 0 <= j < |kids| - n
      ensures Wf(kids[n..][j], h, m, m, right && j == |kids| - n - 1)
    {
      assert kids[n..][j] == kids[n + j];
    }
    forall j | 0 <= j < n ensures Wf(kids[..n][j], h, m, m, false) {
      assert kids[..n][j] == kids[j];
    }
  }

  lemma SplitInnerWf(pg: nat, kids: seq<Tree>, open: bool, m: nat, newPg: nat, used: nat,
                     h: nat, lo: int, right: bool)
    requires 2 <= m && 0 < h && 2 <= |kids|
    requires open ==> right
    requires lo <= Count(Inner(pg, kids, open)) <= 2 * m
    requires KidsWf(kids, h - 1, m, right)
    ensures WfForest(SplitFull(Inner(pg, kids, open), m, newPg, used), h, lo, m, right)
  {
    if Count(Inner(pg, kids, open)) >= 2 * m {
      TakeWf(kids, m, h - 1, m, right);
    }
  }

  lemma SplitInnerEntries(pg: nat, kids: seq<Tree>, open: bool, m: nat, newPg: nat, used: nat)
    requires 2 <= |kids|
    ensures EntriesF(Forest(SplitFull(Inner(pg, kids, open), m, newPg, used))) == EntriesF(kids)
  {
    var g := SplitFull(Inner(pg, kids, open), m, newPg, used);
    match g
    case One(t, _) => EntriesOne(t);
    case Two(l, r) =>
      var n := |l.kids|;
      assert kids == kids[..n] + kids[n..];
      EntriesAppend(kids[..n], kids[n..]);
      PairPages(l, r);
  }

  /** Below any node: the entries gain one cell, and the shape is kept. */
  lemma {:induction false} InsEntries(t: Tree, h: nat, k: int, v: Record, m: nat, alloc: seq<nat>, lo: int, right: bool)
    requires 2 <= m && Shape(t, h) && h < |alloc|
    requires Wf(t, h, lo, m, right)
    requires Sorted(Entries(t))
    ensures EntriesF(Forest(Ins(t, h, k, v, m, alloc))) == InsertCell(Entries(t), k, v)
    decreases t
  {
    hide Sorted;
    match t
    case Leaf(pg, cells) => InsLeafEntries(pg, cells, k, v, m, alloc);
    case Inner(pg, kids, open) =>
      KidsNonEmpty(kids, h - 1, m, right);
      Route(kids, k);
      var i := ChildIndex(kids, k);
      InsEntries(kids[i], h - 1, k, v, m, alloc, m, right && i == |kids| - 1);
      AbsorbEntries(pg, kids, open, i, Ins(kids[i], h - 1, k, v, m, alloc), m, alloc[h], h);
      InsertInMiddle(EntriesF(kids[..i]), Entries(kids[i]), EntriesF(kids[i + 1..]), k, v);
  }

  lemma AbsorbEntries(pg: nat, kids: seq<Tree>, open: bool, i: nat, g: Grown, m: nat, newPg: nat, h: nat)
    requires i < |kids|
    ensures EntriesF(Forest(Absorb(pg, kids, open, i, g, m, newPg, h)))
         == EntriesF(kids[..i]) + EntriesF(Forest(g)) + EntriesF(kids[i + 1..])
  {
    Entries3(kids[..i], Forest(g), kids[i + 1..]);
    if g.One? {
      assert kids[..i] + Forest(g) + kids[i + 1..] == kids[i := g.t];
      EntriesOne(Inner(pg, kids[i := g.t], open));
    } else {
      SplitInnerEntries(pg, kids[..i] + [g.l, g.r] + kids[i + 1..], open, m, newPg, h);
    }
  }

  lemma {:induction false} InsWf(t: Tree, h: nat, k: int, v: Record, m: nat, alloc: seq<nat>, lo: int, right: bool)
    requires 2 <= m && Shape(t, h) && h < |alloc|
    requires Wf(t, h, lo, m, right)
    ensures var g := Ins(t, h, k, v, m, alloc);
            && WfForest(g, h, lo, m, right)
            && (g.One? && t.Inner? ==> g.t.Inner? && 2 <= |g.t.kids|)
    decreases t
  {
    if t.Inner? {
      var kids := t.kids;
      var i := ChildIndex(kids, k);
      InsWf(kids[i], h - 1, k, v, m, alloc, m, right && i == |kids| - 1);
      AbsorbWf(t, i, Ins(kids[i], h - 1, k, v, m, alloc), m, alloc[h], h, lo, right);
    }
  }

  lemma AbsorbWf(t: Tree, i: nat, g: Grown, m: nat, newPg: nat, h: nat, lo: int, right: bool)
    requires 2 <= m && t.Inner? && 2 <= |t.kids| && i < |t.kids| && Wf(t, h, lo, m, right)
    requires WfForest(g, h - 1, m, m, right && i == |t.kids| - 1)
    ensures var u := Absorb(t.pg, t.kids, t.open, i, g, m, newPg, h);
            && WfForest(u, h, lo, m, right)
            && (u.One? ==> u.t.Inner? && 2 <= |u.t.kids|)
  {
    SpliceWf(t.kids, i, g, h - 1, m, right);
    if g.One? {
      assert t.kids[..i] + Forest(g) + t.kids[i + 1..] == t.kids[i := g.t];
    } else {
      SplitInnerWf(t.pg, t.kids[..i] + [g.l, g.r] + t.kids[i + 1..], t.open, m, newPg, h, h, lo, right);
    }
  }

  lemma SpliceWf(kids: seq<Tree>, i: nat, g: Grown, h: nat, m: nat, right: bool)
    requires i < |kids| && KidsWf(kids, h, m, right)
    requires WfForest(g, h, m, m, right && i == |kids| - 1)
    ensures KidsWf(kids[..i] + Forest(g) + kids[i + 1..], h, m, right)
  {
    var ks := kids[..i] + Forest(g) + kids[i + 1..];
    var d := |Forest(g)| - 1;
    forall j | 0 <= j < |ks| ensures Wf(ks[j], h, m, m, right && j == |ks| - 1) {
      if j < i {
        assert ks[j] == kids[j];
      } else if j > i + d {
        assert ks[j] == kids[j - d];
      } else {
        assert ks[j] == Forest(g)[j - i];
      }
    }
  }

  lemma InsLeafEntries(pg: nat, cells: seq<Cell>, k: int, v: Record, m: nat, alloc: seq<nat>)
    requires 2 <= m && 0 < |alloc|
    ensures EntriesF(Forest(Ins(Leaf(pg, cells), 0, k, v, m, alloc))) == InsertCell(cells, k, v)
  {
    var c := InsertCell(cells, k, v);
    var g := Ins(Leaf(pg, cells), 0, k, v, m, alloc);
    match g
    case One(u, _) => EntriesOne(u);
    case Two(l, r) =>
      PairPages(l, r);
      assert c == c[..|c| / 2] + c[|c| / 2..];
  }

  // ---------------------------------------------------------------- pages

  function Used(g: Grown, h: nat): nat {
    match g
    case One(_, used) => used
    case Two(_, _) => h + 1
  }

  /** The first n pages of the allocation order. */
  ghost function Taken(alloc: seq<nat>, n: nat): set<nat> {
    set i | 0 <= i < n && i < |alloc| :: alloc[i]
  }

  lemma TakenFacts(alloc: seq<nat>, n: nat)
    requires NoDup(alloc) && n < |alloc|
    ensures Taken(alloc, n + 1) == Taken(alloc, n) + {alloc[n]}
    ensures alloc[n] !in Taken(alloc, n)
    ensures Taken(alloc, n + 1) <= Members(alloc)
  {
  }

  ghost predicate PagesGrow(t: Tree, g: Grown, extra: set<nat>) {
    PagesF(Forest(g)) == Pages(t) + extra && DistinctF(Forest(g))
  }

  /** The new pages enter the tree and no page is lost or used twice. */
  lemma {:induction false} InsPages(t: Tree, h: nat, k: int, v: Record, m: nat, alloc: seq<nat>)
    requires Shape(t, h) && h < |alloc| && NoDup(alloc)
    requires Distinct(t) && Pages(t) !! Members(alloc)
    ensures var g := Ins(t, h, k, v, m, alloc);
            && Used(g, h) <= h + 1
            && PagesGrow(t, g, Taken(alloc, Used(g, h)))
    decreases t
  {
    hide NoDup;
    match t
    case Leaf(pg, cells) =>
      LeafPages(t, k, v, m, alloc);
    case Inner(pg, kids, open) =>
      var i := ChildIndex(kids, k);
      AtChild(kids, i);
      InsPages(kids[i], h - 1, k, v, m, alloc);
      InsPagesStep(t, h, i, Ins(kids[i], h - 1, k, v, m, alloc), m, alloc);
  }

  lemma InsPagesStep(t: Tree, h: nat, i: nat, g: Grown, m: nat, alloc: seq<nat>)
    requires t.Inner? && i < |t.kids| && 0 < h < |alloc| && NoDup(alloc)
    requires Distinct(t) && Pages(t) !! Members(alloc)
    requires Used(g, h - 1) <= h && PagesGrow(t.kids[i], g, Taken(alloc, Used(g, h - 1)))
    ensures var u := Absorb(t.pg, t.kids, t.open, i, g, m, alloc[h], h);
            Used(u, h) <= h + 1 && PagesGrow(t, u, Taken(alloc, Used(u, h)))
  {
    var u := Absorb(t.pg, t.kids, t.open, i, g, m, alloc[h], h);
    var extra := Taken(alloc, Used(g, h - 1));
    TakenFacts(alloc, h);
    TakenMono(alloc, Used(g, h - 1), h);
    assert extra <= Members(alloc) && alloc[h] in Members(alloc) && alloc[h] !in extra;
    AbsorbPages(t, i, g, m, alloc[h], h, extra);
    assert Taken(alloc, Used(u, h)) == extra + (if u.Two? then {alloc[h]} else {});
  }

  lemma LeafPages(t: Tree, k: int, v: Record, m: nat, alloc: seq<nat>)
    requires t.Leaf? && 0 < |alloc| && NoDup(alloc) && Pages(t) !! Members(alloc)
    ensures var g := Ins(t, 0, k, v, m, alloc); PagesGrow(t, g, Taken(alloc, Used(g, 0)))
  {
    var g := Ins(t, 0, k, v, m, alloc);
    TakenFacts(alloc, 0);
    if g.One? { EntriesOne(g.t); } else { PairPages(g.l, g.r); }
  }

  lemma TakenMono(alloc: seq<nat>, a: nat, b: nat)
    requires a <= b && b < |alloc|
    ensures Taken(alloc, a) <= Taken(alloc, b) <= Members(alloc)
  {
  }

  lemma AbsorbPages(t: Tree, i: nat, g: Grown, m: nat, newPg: nat, h: nat, extra: set<nat>)
    requires t.Inner? && Distinct(t) && i < |t.kids|
    requires PagesGrow(t.kids[i], g, extra)
    requires extra !! Pages(t) && newPg !in Pages(t) + extra
    ensures var u := Absorb(t.pg, t.kids, t.open, i, g, m, newPg, h);
            PagesGrow(t, u, extra + (if u.Two? then {newPg} else {}))
  {
    SplicePages(t.kids, i, Forest(g), extra);
    if g.One? {
      assert t.kids[..i] + Forest(g) + t.kids[i + 1..] == t.kids[i := g.t];
      EntriesOne(Inner(t.pg, t.kids[i := g.t], t.open));
    } else {
      SplitPages(t.pg, t.kids[..i] + [g.l, g.r] + t.kids[i + 1..], t.open, m, newPg, h);
    }
  }

  lemma SplicePages(kids: seq<Tree>, i: nat, fs: seq<Tree>, extra: set<nat>)
    requires i < |kids| && DistinctF(kids) && DistinctF(fs)
    requires PagesF(fs) == Pages(kids[i]) + extra && extra !! PagesF(kids)
    ensures PagesF(kids[..i] + fs + kids[i + 1..]) == PagesF(kids) + extra
    ensures DistinctF(kids[..i] + fs + kids[i + 1..])
  {
    AtChild(kids, i);
    Pages3(kids[..i], fs, kids[i + 1..]);
    Distinct3(kids[..i], fs, kids[i + 1..]);
  }

  lemma PairPages(l: Tree, r: Tree)
    ensures PagesF([l, r]) == Pages(l) + Pages(r)
    ensures DistinctF([l, r]) <==> Distinct(l) && Distinct(r) && Pages(l) !! Pages(r)
    ensures EntriesF([l, r]) == Entries(l) + Entries(r)
  {
    assert [l, r][1..] == [r];
    EntriesOne(r);
  }

  lemma SplitKids(ks: seq<Tree>, n: nat)
    requires n <= |ks| && DistinctF(ks)
    ensures PagesF(ks) == PagesF(ks[..n]) + PagesF(ks[n..]) && PagesF(ks[..n]) !! PagesF(ks[n..])
    ensures DistinctF(ks[..n]) && DistinctF(ks[n..])
  {
    hide PagesF, DistinctF;
    assert ks == ks[..n] + ks[n..];
    PagesAppend(ks[..n], ks[n..]);
    DistinctAppend(ks[..n], ks[n..]);
  }

  lemma InnerPages(pg: nat, ks: seq<Tree>, open: bool)
    ensures Pages(Inner(pg, ks, open)) == {pg} + PagesF(ks)
    ensures Distinct(Inner(pg, ks, open)) <==> pg !in PagesF(ks) && DistinctF(ks)
  {
  }

  lemma SplitPages(pg: nat, ks: seq<Tree>, open: bool, m: nat, newPg: nat, used: nat)
    requires 2 <= |ks| && DistinctF(ks)
    requires pg !in PagesF(ks) && newPg !in PagesF(ks) && pg != newPg
    ensures var g := SplitFull(Inner(pg, ks, open), m, newPg, used);
            && PagesF(Forest(g)) == {pg} + PagesF(ks) + (if g.Two? then {newPg} else {})
            && DistinctF(Forest(g))
  {
    hide Entries, EntriesF, PagesF, DistinctF, Pages, Distinct;
    var g := SplitFull(Inner(pg, ks, open), m, newPg, used);
    InnerPages(pg, ks, open);
    if g.One? {
      EntriesOne(g.t);
    } else {
      SplitKids(ks, |g.l.kids|);
      InnerPages(pg, ks[..|g.l.kids|], false);
      InnerPages(newPg, ks[|g.l.kids|..], open);
      PairPages(g.l, g.r);
    }
  }

  // ---------------------------------------------------------------- the whole tree

  lemma WfSame(t: Tree, h: nat, lo: int, m: nat, right: bool, pg: nat)
    requires Wf(t, h, lo, m, right)
    ensures Wf(Repage(t, pg), h, lo, m, right)
  {
  }

  function UsedRoot(g: Grown, h: nat): nat {
    match g
    case One(_, used) => used
    case Two(_, _) => h + 2
  }

  lemma InsRootWf(t: Tree, h: nat, k: int, v: Record, m: nat, alloc: seq<nat>)
    requires 2 <= m && Shape(t, h) && h + 1 < |alloc| && Wf(t, h, 0, m, true)
    ensures var u := InsRoot(t, h, k, v, m, alloc);
            && Wf(u, InsHeight(t, h, k, v, m, alloc), 0, m, true)
            && (u.Inner? ==> 2 <= |u.kids|)
  {
    InsWf(t, h, k, v, m, alloc, 0, true);
    var g := Ins(t, h, k, v, m, alloc);
    if g.Two? {
      WfSame(g.l, h, m, m, false, alloc[h + 1]);
      NewRootWf(t.pg, Repage(g.l, alloc[h + 1]), g.r, h, m);
    } else {
      InsPg(t, h, k, v, m, alloc);
    }
  }

  lemma InsRootPages(t: Tree, h: nat, k: int, v: Record, m: nat, alloc: seq<nat>)
    requires Shape(t, h) && h + 1 < |alloc| && NoDup(alloc)
    requires Distinct(t) && Pages(t) !! Members(alloc)
    ensures var u := InsRoot(t, h, k, v, m, alloc);
            && Distinct(u) && u.pg == t.pg
            && Pages(u) == Pages(t) + Taken(alloc, UsedRoot(Ins(t, h, k, v, m, alloc), h))
  {
    InsPages(t, h, k, v, m, alloc);
    InsPg(t, h, k, v, m, alloc);
    var g := Ins(t, h, k, v, m, alloc);
    match g
    case One(c, _) => EntriesOne(c);
    case Two(l, r) =>
      PairPages(l, r);
      TakenFacts(alloc, h + 1);
      TakenMono(alloc, h, h + 1);
      NewRoot(t.pg, l, r, alloc[h + 1]);
  }

  lemma InsRootEntries(t: Tree, h: nat, k: int, v: Record, m: nat, alloc: seq<nat>)
    requires 2 <= m && Shape(t, h) && h + 1 < |alloc| && Wf(t, h, 0, m, true) && Sorted(Entries(t))
    ensures Entries(InsRoot(t, h, k, v, m, alloc)) == InsertCell(Entries(t), k, v)
  {
    InsEntries(t, h, k, v, m, alloc, 0, true);
    var g := Ins(t, h, k, v, m, alloc);
    match g
    case One(c, _) => EntriesOne(c);
    case Two(l, r) =>
      PairPages(l, r);
      PairPages(Repage(l, alloc[h + 1]), r);
  }

  /**
   Inserting an absent key into a well-formed tree gives a well-formed tree whose map is the old one
   plus that pair, using exactly the first pages of the allocation order.
   */
  lemma InsRootCorrect(t: Tree, h: nat, k: int, v: Record, m: nat, alloc: seq<nat>)
    requires 2 <= m && Shape(t, h) && WfRoot(t, h, m) && h + 1 < |alloc|
    requires !Has(Entries(t), k)
    requires NoDup(alloc) && Pages(t) !! Members(alloc)
    ensures var u := InsRoot(t, h, k, v, m, alloc);
            && WfRoot(u, InsHeight(t, h, k, v, m, alloc), m)
            && u.pg == t.pg
            && Entries(u) == InsertCell(Entries(t), k, v)
            && AsMap(Entries(u)) == AsMap(Entries(t))[k := v]
            && Pages(u) == Pages(t) + Taken(alloc, UsedRoot(Ins(t, h, k, v, m, alloc), h))
  {
    InsRootWf(t, h, k, v, m, alloc);
    InsRootPages(t, h, k, v, m, alloc);
    InsRootEntries(t, h, k, v, m, alloc);
    InsertCellMeaning(Entries(t), k, v);
  }

  lemma InsPg(t: Tree, h: nat, k: int, v: Record, m: nat, alloc: seq<nat>)
    requires Shape(t, h) && h < |alloc|
    ensures var g := Ins(t, h, k, v, m, alloc);
            && Forest(g)[0].pg == t.pg
            && (g.One? ==> (g.t.Leaf? <==> t.Leaf?))
            && (g.Two? ==> g.r.pg == alloc[h] && (g.l.Leaf? <==> t.Leaf?) && (g.r.Leaf? <==> t.Leaf?))
  {
  }

  lemma NewRoot(pg: nat, l: Tree, r: Tree, top: nat)
    requires Distinct(l) && Distinct(r) && Pages(l) !! Pages(r)
    requires top !in Pages(l) + Pages(r) && pg == l.pg
    ensures var u := Inner(pg, [Repage(l, top), r], true);
            Distinct(u) && Pages(u) == Pages(l) + Pages(r) + {top}
  {
    PairPages(l, r);
    PairPages(Repage(l, top), r);
    DistinctRepage(l, top);
  }

  lemma DistinctRepage(t: Tree, pg: nat)
    requires Distinct(t) && pg !in Pages(t)
    ensures Distinct(Repage(t, pg))
    ensures Pages(Repage(t, pg)) == Pages(t) - {t.pg} + {pg}
  {
  }

  lemma NewRootWf(pg: nat, l: Tree, r: Tree, h: nat, m: nat)
    requires 2 <= m && Wf(l, h, m, m, false) && Wf(r, h, m, m, true)
    ensures Wf(Inner(pg, [l, r], true), h + 1, 0, m, true)
  {
    assert [l, r][0] == l && [l, r][1] == r;
  }
}
