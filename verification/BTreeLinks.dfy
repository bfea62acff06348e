/** The level lists of a forest while pages enter and leave it. */
module BTreeLinks {
  import opened Values
  import opened Cells
  import opened BTreeSpec
  import opened BTreeLayout

  // ---------------------------------------------------------------- levels do not meet

  lemma {:induction false} LevelsApart(t: Tree, d: nat, e: nat, p: nat)
    requires Distinct(t) && d < e && p in Level(t, d)
    ensures p !in Level(t, e)
    decreases t
  {
    if t.Inner? {
      if d == 0 {
        if p in LevelF(t.kids, e - 1) { LevelPagesF(t.kids, e - 1, p); }
      } else {
        LevelsApartF(t.kids, d - 1, e - 1, p);
      }
    }
  }

  lemma {:induction false} LevelsApartF(ts: seq<Tree>, d: nat, e: nat, p: nat)
    requires DistinctF(ts) && d < e && p in LevelF(ts, d)
    ensures p !in LevelF(ts, e)
    decreases ts
  {
    if p in Level(ts[0], d) {
      LevelPages(ts[0], d, p);
      LevelsApart(ts[0], d, e, p);
      if p in LevelF(ts[1..], e) { LevelPagesF(ts[1..], e, p); }
    } else {
      LevelPagesF(ts[1..], d, p);
      LevelsApartF(ts[1..], d, e, p);
      if p in Level(ts[0], e) { LevelPages(ts[0], e, p); }
    }
  }

  lemma LevelsApart2(ts: seq<Tree>, d: nat, e: nat, p: nat)
    requires DistinctF(ts) && d != e && p in LevelF(ts, d)
    ensures p !in LevelF(ts, e)
  {
    if d < e {
      LevelsApartF(ts, d, e, p);
    } else if p in LevelF(ts, e) {
      LevelsApartF(ts, e, d, p);
    }
  }

  // ---------------------------------------------------------------- whole forests

  ghost predicate OtherLevelsSame(ts: seq<Tree>, us: seq<Tree>, d: nat) {
    forall e: nat :: e != d ==> LevelF(us, e) == LevelF(ts, e)
  }

  /** No links change. */
  lemma LinkedSame(P: Store, Q: Store, ts: seq<Tree>, us: seq<Tree>)
    requires Linked(P, ts) && SameLinks(P, Q, PagesF(ts))
    requires forall e: nat :: LevelF(us, e) == LevelF(ts, e)
    ensures Linked(Q, us)
  {
    forall e: nat ensures Chain(Q, LevelF(us, e)) {
      var ps := LevelF(ts, e);
      assert Chain(P, ps);
      forall i | 0 <= i < |ps| ensures LinkedAt(Q, ps, i) {
        assert LinkedAt(P, ps, i);
        LevelPagesF(ts, e, ps[i]);
      }
    }
  }

  /** The change a page y makes to the links when it enters after x. */
  ghost predicate EnterLinks(P: Store, Q: Store, x: nat, y: nat) {
    && x in P && x in Q && y in Q && Q[x].left == P[x].left && Q[x].right == y
    && Q[y].left == x && Q[y].right == P[x].right
    && (P[x].right != 0 ==>
          && P[x].right in P && P[x].right in Q && P[x].right != x
          && Q[P[x].right].left == y && Q[P[x].right].right == P[P[x].right].right)
    && LinksApart(P, Q, x, y, P[x].right)
  }

  /** The change a page y makes to the links when it leaves its place after x. */
  ghost predicate LeaveLinks(P: Store, Q: Store, x: nat, y: nat) {
    && x in P && y in P && x in Q && Q[x].left == P[x].left && Q[x].right == P[y].right
    && (P[y].right != 0 ==>
          && P[y].right in P && P[y].right in Q && P[y].right != x
          && Q[P[y].right].left == x && Q[P[y].right].right == P[P[y].right].right)
    && LinksApart(P, Q, x, y, P[y].right)
  }

  lemma NextInChain(P: Store, a: seq<nat>, x: nat, b: seq<nat>)
    requires Chain(P, a + [x] + b)
    ensures x in P && P[x].right == FirstOr0(b)
    ensures b != [] ==> b[0] in P
  {
    var ps := a + [x] + b;
    assert LinkedAt(P, ps, |a|);
    assert ps[|a|] == x;
    if b != [] {
      assert ps[|a| + 1] == b[0];
      assert LinkedAt(P, ps, |a| + 1);
    }
  }

  lemma LinkedEnter(P: Store, Q: Store, ts: seq<Tree>, us: seq<Tree>, d: nat, a: seq<nat>, x: nat, y: nat, b: seq<nat>)
    requires Linked(P, ts) && DistinctF(ts) && 0 !in PagesF(ts) && y !in PagesF(ts)
    requires LevelF(ts, d) == a + [x] + b && LevelF(us, d) == a + [x, y] + b
    requires OtherLevelsSame(ts, us, d)
    requires EnterLinks(P, Q, x, y)
    ensures Linked(Q, us)
  {
    var ps := LevelF(ts, d);
    LevelNoDupF(ts, d);
    assert Chain(P, ps);
    NextInChain(P, a, x, b);
    assert forall p :: p in ps ==> p != 0 && p != y by {
      forall p | p in ps ensures p != 0 && p != y { LevelPagesF(ts, d, p); }
    }
    assert b != [] ==> b[0] in ps;
    ChainInsert(P, Q, a, x, y, b);
    forall e: nat ensures Chain(Q, LevelF(us, e)) {
      if e != d {
        assert x in ps;
        OtherLevel(P, Q, ts, d, e, x, y, FirstOr0(b));
      }
    }
  }

  lemma OtherLevel(P: Store, Q: Store, ts: seq<Tree>, d: nat, e: nat, x: nat, y: nat, z: nat)
    requires Linked(P, ts) && DistinctF(ts) && 0 !in PagesF(ts) && d != e
    requires x in LevelF(ts, d) && (y in LevelF(ts, d) || y !in PagesF(ts)) && (z == 0 || z in LevelF(ts, d))
    requires LinksApart(P, Q, x, y, z)
    ensures Chain(Q, LevelF(ts, e))
  {
    var qs := LevelF(ts, e);
    assert Chain(P, qs);
    forall i | 0 <= i < |qs| ensures LinkedAt(Q, qs, i) {
      assert LinkedAt(P, qs, i);
      LevelPagesF(ts, e, qs[i]);
      LevelsApart2(ts, e, d, qs[i]);
    }
  }

  lemma LinkedLeave(P: Store, Q: Store, ts: seq<Tree>, us: seq<Tree>, d: nat, a: seq<nat>, x: nat, y: nat, b: seq<nat>)
    requires Linked(P, ts) && DistinctF(ts) && 0 !in PagesF(ts)
    requires LevelF(ts, d) == a + [x, y] + b && LevelF(us, d) == a + [x] + b
    requires OtherLevelsSame(ts, us, d)
    requires LeaveLinks(P, Q, x, y)
    ensures Linked(Q, us)
  {
    var ps := LevelF(ts, d);
    LevelNoDupF(ts, d);
    assert Chain(P, ps);
    assert ps == (a + [x]) + [y] + b;
    NextInChain(P, a + [x], y, b);
    assert forall p :: p in ps ==> p != 0 by {
      forall p | p in ps ensures p != 0 { LevelPagesF(ts, d, p); }
    }
    assert b != [] ==> b[0] in ps;
    ChainRemove(P, Q, a, x, y, b);
    forall e: nat ensures Chain(Q, LevelF(us, e)) {
      if e != d {
        assert x in ps && y in ps;
        OtherLevel(P, Q, ts, d, e, x, y, FirstOr0(b));
      }
    }
  }

  /** The page after the one at depth d on the path lies on that level (or is 0), so not on the path above. */
  lemma {:induction false} GraftPages(t: Tree, k: int, d: nat, fs: seq<Tree>)
    requires Deep(t, k, d) && Distinct(t) && DistinctF(fs)
    requires PagesF(fs) !! (Pages(t) - Pages(SubAt(t, k, d)))
    ensures DistinctF(Graft(t, k, d, fs))
    ensures PagesF(Graft(t, k, d, fs)) == (Pages(t) - Pages(SubAt(t, k, d))) + PagesF(fs)
    decreases d
  {
    if d > 0 {
      var i := ChildIndex(t.kids, k);
      var c := t.kids[i];
      AtChild(t.kids, i);
      SubPages(c, k, d - 1);
      GraftPages(c, k, d - 1, fs);
      var g := Graft(c, k, d - 1, fs);
      Pages3(t.kids[..i], g, t.kids[i + 1..]);
      Distinct3(t.kids[..i], g, t.kids[i + 1..]);
      EntriesOne(Graft(t, k, d, fs)[0]);
      GraftPagesStep(t.pg, PagesF(t.kids[..i]), Pages(c), PagesF(t.kids[i + 1..]), Pages(SubAt(c, k, d - 1)), PagesF(fs));
    }
  }

  lemma GraftPagesStep(pg: nat, a: set<nat>, b: set<nat>, c: set<nat>, s: set<nat>, f: set<nat>)
    requires pg !in a + b + c && a !! b && a !! c && b !! c && s <= b
    requires f !! (({pg} + (a + b + c)) - s)
    ensures a !! ((b - s) + f) && c !! ((b - s) + f) && pg !in a + ((b - s) + f) + c
    ensures {pg} + (a + ((b - s) + f) + c) == (({pg} + (a + b + c)) - s) + f
  {
  }

  // ---------------------------------------------------------------- one node of the tree and its level

  /** o stands at depth d of t, on pages of its own. */
  ghost predicate Stands(t: Tree, k: int, d: nat, o: Tree) {
    && Deep(t, k, d) && Distinct(t) && Distinct(o)
    && Pages(o) !! (Pages(t) - Pages(SubAt(t, k, d)))
    && 0 !in Pages(t) + Pages(o)
  }

  /** The level of o, and its right neighbour. */
  lemma NeighbourOf(P: Store, t: Tree, k: int, d: nat, o: Tree)
    requires Stands(t, k, d, o) && Linked(P, Graft(t, k, d, [o]))
    ensures var ts := Graft(t, k, d, [o]); var b := LevelPost(t, k, d, d);
            && DistinctF(ts) && PagesF(ts) <= Pages(t) + Pages(o)
            && LevelF(ts, d) == LevelPre(t, k, d, d) + [o.pg] + b
            && o.pg in P && P[o.pg].right == FirstOr0(b)
            && (P[o.pg].right != 0 ==>
                  P[o.pg].right in P && P[o.pg].right != o.pg && P[o.pg].right in LevelF(ts, d))
  {
    var ts := Graft(t, k, d, [o]);
    var a, b := LevelPre(t, k, d, d), LevelPost(t, k, d, d);
    EntriesOne(o);
    GraftPages(t, k, d, [o]);
    LevelGraft(t, k, d, [o], d);
    LevelOne(o, 0);
    LevelNoDupF(ts, d);
    assert Chain(P, LevelF(ts, d));
    NextInChain(P, a, o.pg, b);
    NextDiffers(a, o.pg, b);
    assert b != [] ==> b[0] in LevelF(ts, d);
  }

  lemma NextDiffers(a: seq<nat>, x: nat, b: seq<nat>)
    requires NoDup(a + [x] + b)
    ensures b != [] ==> b[0] != x
  {
    var s := a + [x] + b;
    assert s[|a|] == x;
    if b != [] { assert s[|a| + 1] == b[0]; }
  }

  /** The page of the path node at depth j is the same in P and Q. */
  ghost predicate Above(t: Tree, k: int, P: Store, Q: Store, j: nat) {
    Deep(t, k, j) &&
    var q := SubAt(t, k, j).pg; q in P && q in Q && Q[q] == P[q]
  }

  ghost predicate AboveAll(t: Tree, k: int, P: Store, Q: Store, d: nat) {
    forall j :: 0 <= j < d ==> Above(t, k, P, Q, j)
  }

  lemma {:induction false} PathOnLevel(t: Tree, k: int, d: nat)
    requires Deep(t, k, d)
    ensures SubAt(t, k, d).pg in Level(t, d)
    decreases d
  {
    if d > 0 {
      var i := ChildIndex(t.kids, k);
      PathOnLevel(t.kids[i], k, d - 1);
      Split3(t.kids, i);
      LevelOne(t.kids[i], d - 1);
      Level3(t.kids[..i], [t.kids[i]], t.kids[i + 1..], d - 1);
    }
  }

  ghost predicate OtherPage(t: Tree, k: int, j: nat, pg: nat) {
    Deep(t, k, j) && SubAt(t, k, j).pg != pg
  }

  /** The nodes above depth d have other pages than the one at depth d. */
  lemma PathApart(t: Tree, k: int, d: nat)
    requires Deep(t, k, d) && Distinct(t)
    ensures forall j :: 0 <= j < d ==> OtherPage(t, k, j, SubAt(t, k, d).pg)
  {
    hide Distinct;
    forall j | 0 <= j < d ensures OtherPage(t, k, j, SubAt(t, k, d).pg) {
      PathPages(t, k, j, d);
      RootPage(SubAt(t, k, d));
    }
  }
}
