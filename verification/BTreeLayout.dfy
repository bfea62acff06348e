/** How a tree lies in the pages of the store: nodes, separators and the sibling links of every level. */
module BTreeLayout {
  import opened Values
  import opened Cells
  import opened BTreeSpec

  /** One page, parsed. */
  datatype Node = Node(isLeaf: bool, left: nat, right: nat, cells: seq<Cell>, kids: seq<nat>)

  type Store = map<nat, Node>

  function Roots(ts: seq<Tree>): (r: seq<nat>)
    ensures |r| == |ts|
    ensures forall i :: 0 <= i < |ts| ==> r[i] == ts[i].pg
  {
    seq(|ts|, i requires 0 <= i < |ts| => ts[i].pg)
  }

  /** n holds the root node of t, whatever its separators are. */
  ghost predicate NodeOf(n: Node, t: Tree) {
    match t
    case Leaf(_, cells) => n.isLeaf && n.kids == [] && n.cells == cells
    case Inner(_, kids, _) => !n.isLeaf && n.kids == Roots(kids) && |n.cells| == Count(t)
  }

  /** Every separator of n is the maximum of its child. */
  ghost predicate Exact(n: Node, t: Tree) {
    t.Inner? ==>
      |n.cells| == Count(t) && forall i :: 0 <= i < |n.cells| && i < |t.kids| ==> n.cells[i].key == Max(t.kids[i])
  }

  /** The pages hold t, up to separators. */
  ghost predicate Skel(P: Store, t: Tree) {
    t.pg in P && NodeOf(P[t.pg], t) && (t.Inner? ==> SkelF(P, t.kids))
  }

  ghost predicate SkelF(P: Store, ts: seq<Tree>) {
    forall i :: 0 <= i < |ts| ==> Skel(P, ts[i])
  }

  /** The pages hold t with exact separators. */
  ghost predicate Lay(P: Store, t: Tree) {
    t.pg in P && NodeOf(P[t.pg], t) && Exact(P[t.pg], t) && (t.Inner? ==> LayF(P, t.kids))
  }

  ghost predicate LayF(P: Store, ts: seq<Tree>) {
    forall i :: 0 <= i < |ts| ==> Lay(P, ts[i])
  }

  /** The pages at depth d, from left to right. */
  function Level(t: Tree, d: nat): seq<nat> {
    if d == 0 then [t.pg]
    else match t
         case Leaf(_, _) => []
         case Inner(_, kids, _) => LevelF(kids, d - 1)
  }

  function LevelF(ts: seq<Tree>, d: nat): seq<nat> {
    if ts == [] then [] else Level(ts[0], d) + LevelF(ts[1..], d)
  }

  ghost predicate LinkedAt(P: Store, ps: seq<nat>, i: nat)
    requires i < |ps|
  {
    && ps[i] in P
    && P[ps[i]].left == (if i == 0 then 0 else ps[i - 1])
    && P[ps[i]].right == (if i == |ps| - 1 then 0 else ps[i + 1])
  }

  /** ps is a doubly linked list of pages with 0 at both ends. */
  ghost predicate Chain(P: Store, ps: seq<nat>) {
    forall i :: 0 <= i < |ps| ==> LinkedAt(P, ps, i)
  }

  /** Every level is a doubly linked list. */
  ghost predicate Linked(P: Store, ts: seq<Tree>) {
    forall d: nat :: Chain(P, LevelF(ts, d))
  }

  // ---------------------------------------------------------------- frames

  function Body(n: Node): Node { n.(left := 0, right := 0) }

  /** P and Q hold the same nodes on S, apart from the sibling links. */
  ghost predicate AgreeOn(P: Store, Q: Store, S: set<nat>) {
    forall p :: p in S && p in P ==> p in Q && Body(Q[p]) == Body(P[p])
  }

  /** P and Q have the same sibling links on S. */
  ghost predicate SameLinks(P: Store, Q: Store, S: set<nat>) {
    forall p :: p in S && p in P ==> p in Q && Q[p].left == P[p].left && Q[p].right == P[p].right
  }

  lemma KidPages(kids: seq<Tree>, i: nat)
    requires i < |kids|
    ensures Pages(kids[i]) <= PagesF(kids)
  {
    AtChild(kids, i);
  }

  lemma RootPage(t: Tree)
    ensures t.pg in Pages(t)
  {
  }

  lemma {:induction false} LayFrame(P: Store, Q: Store, t: Tree)
    requires Lay(P, t) && AgreeOn(P, Q, Pages(t))
    ensures Lay(Q, t)
    decreases t
  {
    assert t.pg in Pages(t);
    assert Body(Q[t.pg]) == Body(P[t.pg]);
    if t.Inner? {
      forall i | 0 <= i < |t.kids| ensures Lay(Q, t.kids[i]) {
        KidPages(t.kids, i);
        LayFrame(P, Q, t.kids[i]);
      }
    }
  }

  lemma LayFrameF(P: Store, Q: Store, ts: seq<Tree>)
    requires LayF(P, ts) && AgreeOn(P, Q, PagesF(ts))
    ensures LayF(Q, ts)
  {
    forall i | 0 <= i < |ts| ensures Lay(Q, ts[i]) {
      KidPages(ts, i);
      LayFrame(P, Q, ts[i]);
    }
  }

  lemma SkelFrameF(P: Store, Q: Store, ts: seq<Tree>)
    requires SkelF(P, ts) && AgreeOn(P, Q, PagesF(ts))
    ensures SkelF(Q, ts)
  {
    forall i | 0 <= i < |ts| ensures Skel(Q, ts[i]) {
      KidPages(ts, i);
      SkelFrame(P, Q, ts[i]);
    }
  }

  lemma {:induction false} SkelFrame(P: Store, Q: Store, t: Tree)
    requires Skel(P, t) && AgreeOn(P, Q, Pages(t))
    ensures Skel(Q, t)
    decreases t
  {
    assert t.pg in Pages(t);
    assert Body(Q[t.pg]) == Body(P[t.pg]);
    if t.Inner? {
      forall i | 0 <= i < |t.kids| ensures Skel(Q, t.kids[i]) {
        KidPages(t.kids, i);
        SkelFrame(P, Q, t.kids[i]);
      }
    }
  }

  lemma {:induction false} LaySkel(P: Store, t: Tree)
    requires Lay(P, t)
    ensures Skel(P, t)
    decreases t
  {
    if t.Inner? {
      forall i | 0 <= i < |t.kids| ensures Skel(P, t.kids[i]) {
        LaySkel(P, t.kids[i]);
      }
    }
  }

  lemma {:induction false} SkelPages(P: Store, t: Tree)
    requires Skel(P, t)
    ensures Pages(t) <= P.Keys
    decreases t
  {
    if t.Inner? {
      SkelPagesF(P, t.kids);
    }
  }

  lemma {:induction false} SkelPagesF(P: Store, ts: seq<Tree>)
    requires SkelF(P, ts)
    ensures PagesF(ts) <= P.Keys
    decreases ts
  {
    if ts != [] {
      SkelPages(P, ts[0]);
      SkelPagesF(P, ts[1..]);
    }
  }

  // ---------------------------------------------------------------- separators that overlook a key

  /** The largest key of the run, or the one before it if the largest is overlooked. */
  function SepOf(e: seq<Cell>, over: Option<int>): int {
    if e == [] then 0
    else if 2 <= |e| && over == Some(e[|e| - 1].key) then e[|e| - 2].key
    else e[|e| - 1].key
  }

  function Sep(t: Tree, over: Option<int>): int { SepOf(Entries(t), over) }

  ghost predicate ExactBut(n: Node, t: Tree, over: Option<int>) {
    t.Inner? ==>
      |n.cells| == Count(t) && forall i :: 0 <= i < |n.cells| && i < |t.kids| ==> n.cells[i].key == Sep(t.kids[i], over)
  }

  /** The pages hold t, with separators that are exact apart from overlooking one key. */
  ghost predicate LayBut(P: Store, t: Tree, over: Option<int>) {
    t.pg in P && NodeOf(P[t.pg], t) && ExactBut(P[t.pg], t, over) && (t.Inner? ==> LayButF(P, t.kids, over))
  }

  ghost predicate LayButF(P: Store, ts: seq<Tree>, over: Option<int>) {
    forall i :: 0 <= i < |ts| ==> LayBut(P, ts[i], over)
  }

  /** Overlooking nothing, or a key that is not there, is no different. */
  lemma {:induction false} LayButSame(P: Store, t: Tree, over: Option<int>)
    requires over.Some? ==> !Has(Entries(t), over.value)
    ensures LayBut(P, t, over) <==> Lay(P, t)
    decreases t
  {
    if t.Inner? {
      forall i | 0 <= i < |t.kids| ensures Sep(t.kids[i], over) == Max(t.kids[i]) && (LayBut(P, t.kids[i], over) <==> Lay(P, t.kids[i])) {
        AtChild(t.kids, i);
        if over.Some? { HasInPart(EntriesF(t.kids[..i]), Entries(t.kids[i]), EntriesF(t.kids[i + 1..]), over.value); }
        SepPlain(Entries(t.kids[i]), over);
        LayButSame(P, t.kids[i], over);
      }
      if t.pg in P { assert Exact(P[t.pg], t) <==> ExactBut(P[t.pg], t, over); }
    }
  }

  lemma HasInPart(a: seq<Cell>, b: seq<Cell>, c: seq<Cell>, k: int)
    ensures Has(b, k) ==> Has(a + b + c, k)
  {
    forall i | 0 <= i < |b| ensures (a + b + c)[|a| + i] == b[i] {}
  }

  lemma SepPlain(e: seq<Cell>, over: Option<int>)
    requires over.Some? ==> !Has(e, over.value)
    ensures SepOf(e, over) == if e == [] then 0 else e[|e| - 1].key
  {
  }

  lemma {:induction false} LayButFrame(P: Store, Q: Store, t: Tree, over: Option<int>)
    requires LayBut(P, t, over) && AgreeOn(P, Q, Pages(t))
    ensures LayBut(Q, t, over)
    decreases t
  {
    assert t.pg in Pages(t);
    assert Body(Q[t.pg]) == Body(P[t.pg]);
    if t.Inner? {
      forall i | 0 <= i < |t.kids| ensures LayBut(Q, t.kids[i], over) {
        KidPages(t.kids, i);
        LayButFrame(P, Q, t.kids[i], over);
      }
    }
  }

  lemma LayButFrameF(P: Store, Q: Store, ts: seq<Tree>, over: Option<int>)
    requires LayButF(P, ts, over) && AgreeOn(P, Q, PagesF(ts))
    ensures LayButF(Q, ts, over)
  {
    forall i | 0 <= i < |ts| ensures LayBut(Q, ts[i], over) {
      KidPages(ts, i);
      LayButFrame(P, Q, ts[i], over);
    }
  }

  // ---------------------------------------------------------------- levels

  lemma {:induction false} LevelAppend(a: seq<Tree>, b: seq<Tree>, d: nat)
    ensures LevelF(a + b, d) == LevelF(a, d) + LevelF(b, d)
  {
    if a == [] {
      assert a + b == b;
    } else {
      assert (a + b)[0] == a[0] && (a + b)[1..] == a[1..] + b;
      LevelAppend(a[1..], b, d);
    }
  }

  lemma LevelOne(t: Tree, d: nat)
    ensures LevelF([t], d) == Level(t, d)
  {
    assert [t][1..] == [];
    assert LevelF([t][1..], d) == [];
  }

  lemma Level3(a: seq<Tree>, b: seq<Tree>, c: seq<Tree>, d: nat)
    ensures LevelF(a + b + c, d) == LevelF(a, d) + LevelF(b, d) + LevelF(c, d)
  {
    LevelAppend(a + b, c, d);
    LevelAppend(a, b, d);
  }

  lemma {:induction false} LevelPages(t: Tree, d: nat, p: nat)
    requires p in Level(t, d)
    ensures p in Pages(t)
    decreases t
  {
    if d > 0 {
      LevelPagesF(t.kids, d - 1, p);
    }
  }

  lemma {:induction false} LevelPagesF(ts: seq<Tree>, d: nat, p: nat)
    requires p in LevelF(ts, d)
    ensures p in PagesF(ts)
    decreases ts
  {
    if p in Level(ts[0], d) {
      LevelPages(ts[0], d, p);
    } else {
      LevelPagesF(ts[1..], d, p);
    }
  }

  lemma {:induction false} LevelNoDup(t: Tree, d: nat)
    requires Distinct(t)
    ensures NoDup(Level(t, d))
    decreases t
  {
    if d > 0 && t.Inner? {
      LevelNoDupF(t.kids, d - 1);
    }
  }

  lemma {:induction false} LevelNoDupF(ts: seq<Tree>, d: nat)
    requires DistinctF(ts)
    ensures NoDup(LevelF(ts, d))
    decreases ts
  {
    if ts != [] {
      LevelNoDup(ts[0], d);
      LevelNoDupF(ts[1..], d);
      var a, b := Level(ts[0], d), LevelF(ts[1..], d);
      forall i, j | 0 <= i < j < |a + b| ensures (a + b)[i] != (a + b)[j] {
        if i < |a| <= j {
          LevelPages(ts[0], d, a[i]);
          LevelPagesF(ts[1..], d, b[j - |a|]);
        }
      }
    }
  }

  // ---------------------------------------------------------------- chains

  lemma ChainFrame(P: Store, Q: Store, ps: seq<nat>)
    requires Chain(P, ps)
    requires forall i :: 0 <= i < |ps| && ps[i] in P ==>
               ps[i] in Q && Q[ps[i]].left == P[ps[i]].left && Q[ps[i]].right == P[ps[i]].right
    ensures Chain(Q, ps)
  {
    forall i | 0 <= i < |ps| ensures LinkedAt(Q, ps, i) {
      assert LinkedAt(P, ps, i);
    }
  }

  /** The links of Q are those of P but at x, y and the page z that follows them (0 for none). */
  ghost predicate LinksApart(P: Store, Q: Store, x: nat, y: nat, z: nat) {
    forall p :: p in P && p != x && p != y && p != z ==>
      p in Q && Q[p].left == P[p].left && Q[p].right == P[p].right
  }

  function FirstOr0(b: seq<nat>): nat { if b == [] then 0 else b[0] }

  /** y enters the list right after x. */
  lemma ChainInsert(P: Store, Q: Store, a: seq<nat>, x: nat, y: nat, b: seq<nat>)
    requires Chain(P, a + [x] + b) && NoDup(a + [x] + b) && y !in a + [x] + b
    requires 0 !in a + [x] + b
    requires x in P && x in Q && y in Q && Q[x].left == P[x].left && Q[x].right == y
    requires Q[y].left == x && Q[y].right == P[x].right
    requires b != [] ==> b[0] in P && b[0] in Q && Q[b[0]].left == y && Q[b[0]].right == P[b[0]].right
    requires LinksApart(P, Q, x, y, FirstOr0(b))
    ensures Chain(Q, a + [x, y] + b)
  {
    var ps, qs := a + [x] + b, a + [x, y] + b;
    var n := |a|;
    assert ps[n] == x && (b != [] ==> ps[n + 1] == b[0]);
    assert qs[n] == x && qs[n + 1] == y && (b != [] ==> qs[n + 2] == b[0]);
    forall i | 0 <= i < |qs| ensures LinkedAt(Q, qs, i) {
      assert i < n ==> qs[i] == ps[i];
      assert i + 1 <= n ==> qs[i + 1] == ps[i + 1];
      assert 0 < i <= n ==> qs[i - 1] == ps[i - 1];
      assert i > n + 1 ==> qs[i] == ps[i - 1];
      assert n + 1 < i < |qs| - 1 ==> qs[i + 1] == ps[i];
      assert i > n + 2 ==> qs[i - 1] == ps[i - 2];
      if i <= n { assert LinkedAt(P, ps, i); } else { assert LinkedAt(P, ps, i - 1); }
    }
  }

  /** y, which follows x, leaves the list. */
  lemma ChainRemove(P: Store, Q: Store, a: seq<nat>, x: nat, y: nat, b: seq<nat>)
    requires Chain(P, a + [x, y] + b) && NoDup(a + [x, y] + b)
    requires 0 !in a + [x, y] + b
    requires x in P && y in P && x in Q && Q[x].left == P[x].left && Q[x].right == P[y].right
    requires b != [] ==> b[0] in P && b[0] in Q && Q[b[0]].left == x && Q[b[0]].right == P[b[0]].right
    requires LinksApart(P, Q, x, y, FirstOr0(b))
    ensures Chain(Q, a + [x] + b)
  {
    var ps, qs := a + [x, y] + b, a + [x] + b;
    var n := |a|;
    assert ps[n] == x && ps[n + 1] == y && (b != [] ==> ps[n + 2] == b[0]);
    assert qs[n] == x && (b != [] ==> qs[n + 1] == b[0]);
    forall i | 0 <= i < |qs| ensures LinkedAt(Q, qs, i) {
      assert i < n ==> qs[i] == ps[i];
      assert i + 1 <= n ==> qs[i + 1] == ps[i + 1];
      assert 0 < i <= n ==> qs[i - 1] == ps[i - 1];
      assert i > n ==> qs[i] == ps[i + 1];
      assert n < i < |qs| - 1 ==> qs[i + 1] == ps[i + 2];
      assert i > n + 1 ==> qs[i - 1] == ps[i];
      if i <= n { assert LinkedAt(P, ps, i); } else { assert LinkedAt(P, ps, i + 1); }
      if i == n { assert LinkedAt(P, ps, i + 1); }
    }
  }

  // ---------------------------------------------------------------- the path of a key

  predicate Deep(t: Tree, k: int, d: nat) {
    d == 0 || (t.Inner? && t.kids != [] && Deep(t.kids[ChildIndex(t.kids, k)], k, d - 1))
  }

  /** The subtree at depth d on the path of k. */
  function SubAt(t: Tree, k: int, d: nat): Tree
    requires Deep(t, k, d)
  {
    if d == 0 then t else SubAt(t.kids[ChildIndex(t.kids, k)], k, d - 1)
  }

  /** t as a child list of its parent, with the subtree at depth d on the path of k replaced by fs. */
  function Graft(t: Tree, k: int, d: nat, fs: seq<Tree>): seq<Tree>
    requires Deep(t, k, d)
  {
    if d == 0 then fs
    else
      var i := ChildIndex(t.kids, k);
      [Inner(t.pg, t.kids[..i] + Graft(t.kids[i], k, d - 1, fs) + t.kids[i + 1..], t.open)]
  }

  /** p with its child i replaced by fs. */
  function Splice(p: Tree, i: nat, fs: seq<Tree>): Tree
    requires p.Inner? && i < |p.kids|
  {
    Inner(p.pg, p.kids[..i] + fs + p.kids[i + 1..], p.open)
  }

  lemma {:induction false} ShapeDeep(t: Tree, h: nat, k: int, d: nat)
    requires Shape(t, h) && d <= h
    ensures Deep(t, k, d) && Shape(SubAt(t, k, d), h - d)
    decreases d
  {
    if d > 0 {
      ShapeDeep(t.kids[ChildIndex(t.kids, k)], h - 1, k, d - 1);
    }
  }

  lemma {:induction false} SubStep(t: Tree, k: int, d: nat)
    requires Deep(t, k, d + 1)
    ensures Deep(t, k, d)
    ensures var p := SubAt(t, k, d);
            && p.Inner? && p.kids != []
            && SubAt(t, k, d + 1) == p.kids[ChildIndex(p.kids, k)]
    decreases d
  {
    if d > 0 {
      SubStep(t.kids[ChildIndex(t.kids, k)], k, d - 1);
    }
  }

  lemma {:induction false} GraftStep(t: Tree, k: int, d: nat, fs: seq<Tree>)
    requires Deep(t, k, d + 1) && Deep(t, k, d)
    requires SubAt(t, k, d).Inner? && SubAt(t, k, d).kids != []
    ensures var p := SubAt(t, k, d);
            Graft(t, k, d + 1, fs) == Graft(t, k, d, [Splice(p, ChildIndex(p.kids, k), fs)])
    decreases d
  {
    if d > 0 {
      GraftStep(t.kids[ChildIndex(t.kids, k)], k, d - 1, fs);
    }
  }

  lemma {:induction false} GraftSelf(t: Tree, k: int, d: nat)
    requires Deep(t, k, d)
    ensures Graft(t, k, d, [SubAt(t, k, d)]) == [t]
    decreases d
  {
    if d > 0 {
      var i := ChildIndex(t.kids, k);
      GraftSelf(t.kids[i], k, d - 1);
      Split3(t.kids, i);
    }
  }

  lemma {:induction false} SubPages(t: Tree, k: int, d: nat)
    requires Deep(t, k, d)
    ensures Pages(SubAt(t, k, d)) <= Pages(t)
    ensures Distinct(t) ==> Distinct(SubAt(t, k, d))
    ensures Distinct(t) && d > 0 ==> t.pg !in Pages(SubAt(t, k, d))
    decreases d
  {
    if d > 0 {
      var i := ChildIndex(t.kids, k);
      AtChild(t.kids, i);
      SubPages(t.kids[i], k, d - 1);
    }
  }

  /** Nodes at different depths of a path have different pages. */
  lemma {:induction false} PathPages(t: Tree, k: int, c: nat, d: nat)
    requires Deep(t, k, d) && c < d && Distinct(t)
    ensures Deep(t, k, c)
    ensures SubAt(t, k, c).pg !in Pages(SubAt(t, k, d))
    ensures SubAt(t, k, c).pg in Pages(t)
    decreases c
  {
    if c == 0 {
      SubPages(t, k, d);
    } else {
      var i := ChildIndex(t.kids, k);
      AtChild(t.kids, i);
      PathPages(t.kids[i], k, c - 1, d - 1);
    }
  }

  lemma {:induction false} LaySub(P: Store, t: Tree, k: int, d: nat)
    requires Lay(P, t) && Deep(t, k, d)
    ensures Lay(P, SubAt(t, k, d))
    decreases d
  {
    if d > 0 {
      LaySub(P, t.kids[ChildIndex(t.kids, k)], k, d - 1);
    }
  }

  // ---------------------------------------------------------------- levels around a path

  function LevelPre(t: Tree, k: int, d: nat, e: nat): seq<nat>
    requires Deep(t, k, d) && d <= e
  {
    if d == 0 then []
    else
      var i := ChildIndex(t.kids, k);
      LevelF(t.kids[..i], e - 1) + LevelPre(t.kids[i], k, d - 1, e - 1)
  }

  function LevelPost(t: Tree, k: int, d: nat, e: nat): seq<nat>
    requires Deep(t, k, d) && d <= e
  {
    if d == 0 then []
    else
      var i := ChildIndex(t.kids, k);
      LevelPost(t.kids[i], k, d - 1, e - 1) + LevelF(t.kids[i + 1..], e - 1)
  }

  lemma {:induction false} LevelGraft(t: Tree, k: int, d: nat, fs: seq<Tree>, e: nat)
    requires Deep(t, k, d) && d <= e
    ensures LevelF(Graft(t, k, d, fs), e) == LevelPre(t, k, d, e) + LevelF(fs, e - d) + LevelPost(t, k, d, e)
    decreases d
  {
    hide LevelF;
    if d > 0 {
      var i := ChildIndex(t.kids, k);
      var g := Graft(t.kids[i], k, d - 1, fs);
      LevelGraft(t.kids[i], k, d - 1, fs, e - 1);
      LevelOne(Graft(t, k, d, fs)[0], e);
      Level3(t.kids[..i], g, t.kids[i + 1..], e - 1);
    }
  }

  lemma {:induction false} LevelAbove(t: Tree, k: int, d: nat, fs: seq<Tree>, e: nat)
    requires Deep(t, k, d) && e < d
    ensures LevelF(Graft(t, k, d, fs), e) == Level(t, e)
    decreases d
  {
    LevelOne(Graft(t, k, d, fs)[0], e);
    if e > 0 {
      var i := ChildIndex(t.kids, k);
      LevelAbove(t.kids[i], k, d - 1, fs, e - 1);
      Level3(t.kids[..i], Graft(t.kids[i], k, d - 1, fs), t.kids[i + 1..], e - 1);
      Split3(t.kids, i);
      LevelOne(t.kids[i], e - 1);
      Level3(t.kids[..i], [t.kids[i]], t.kids[i + 1..], e - 1);
    }
  }

  /** Grafts whose levels are the same have the same levels in the whole tree. */
  lemma SameLevels(t: Tree, k: int, d: nat, fs: seq<Tree>, gs: seq<Tree>)
    requires Deep(t, k, d)
    requires forall e: nat :: LevelF(fs, e) == LevelF(gs, e)
    ensures forall e: nat :: LevelF(Graft(t, k, d, fs), e) == LevelF(Graft(t, k, d, gs), e)
  {
    forall e: nat ensures LevelF(Graft(t, k, d, fs), e) == LevelF(Graft(t, k, d, gs), e) {
      if e < d {
        LevelAbove(t, k, d, fs, e);
        LevelAbove(t, k, d, gs, e);
      } else {
        LevelGraft(t, k, d, fs, e);
        LevelGraft(t, k, d, gs, e);
      }
    }
  }

  // ---------------------------------------------------------------- separators

  lemma MaxMono(kids: seq<Tree>, i: nat, j: nat)
    requires i < j < |kids| && Sorted(EntriesF(kids))
    requires Entries(kids[i]) != [] && Entries(kids[j]) != []
    ensures Max(kids[i]) < Max(kids[j])
  {
    AtChild(kids, j);
    AtChild(kids[..j], i);
    assert kids[..j][i] == kids[i];
    LastBefore(EntriesF(kids[..j][..i]), Entries(kids[i]), EntriesF(kids[..j][i + 1..]),
               Entries(kids[j]), EntriesF(kids[j + 1..]));
  }

  lemma LastBefore(a: seq<Cell>, b: seq<Cell>, c: seq<Cell>, d: seq<Cell>, e: seq<Cell>)
    requires Sorted((a + b + c) + d + e) && b != [] && d != []
    ensures b[|b| - 1].key < d[|d| - 1].key
  {
    var s := (a + b + c) + d + e;
    assert s[|a| + |b| - 1] == b[|b| - 1];
    assert s[|a| + |b| + |c| + |d| - 1] == d[|d| - 1];
  }

  /** The maximum of an earlier child is below every key of a later one. */
  lemma MaxBelow(kids: seq<Tree>, j: nat, i: nat, x: nat)
    requires j < i < |kids| && Sorted(EntriesF(kids)) && Entries(kids[j]) != [] && x < |Entries(kids[i])|
    ensures Max(kids[j]) < Entries(kids[i])[x].key
  {
    AtChild(kids, i);
    AtChild(kids[..i], j);
    assert kids[..i][j] == kids[j];
    LaterKey(EntriesF(kids[..i][..j]), Entries(kids[j]), EntriesF(kids[..i][j + 1..]),
             Entries(kids[i]), EntriesF(kids[i + 1..]), x);
  }

  lemma LaterKey(a: seq<Cell>, b: seq<Cell>, c: seq<Cell>, d: seq<Cell>, e: seq<Cell>, x: nat)
    requires Sorted((a + b + c) + d + e) && b != [] && x < |d|
    ensures b[|b| - 1].key < d[x].key
  {
    var s := (a + b + c) + d + e;
    assert s[|a| + |b| - 1] == b[|b| - 1];
    assert s[|a| + |b| + |c| + x] == d[x];
  }

  ghost predicate AllNonEmpty(kids: seq<Tree>) {
    forall i :: 0 <= i < |kids| ==> Entries(kids[i]) != []
  }

  lemma SepsSorted(n: Node, t: Tree)
    requires t.Inner? && Exact(n, t) && Sorted(Entries(t)) && AllNonEmpty(t.kids)
    ensures Sorted(n.cells)
  {
    forall i, j | 0 <= i < j < |n.cells| ensures n.cells[i].key < n.cells[j].key {
      MaxMono(t.kids, i, j);
    }
  }

  /** The rank of k among exact separators is the index of its child, or past the last separator. */
  lemma SepRank(n: Node, t: Tree, k: int)
    requires t.Inner? && t.kids != [] && Exact(n, t) && Sorted(Entries(t)) && AllNonEmpty(t.kids)
    ensures Sorted(n.cells)
    ensures var i := ChildIndex(t.kids, k); var r := Rank(n.cells, k);
            (r == i || (r == |n.cells| && i == |t.kids| - 1))
  {
    SepsSorted(n, t);
    var i := ChildIndex(t.kids, k);
    if i < |n.cells| && k <= n.cells[i].key {
      RankIs(n.cells, k, i);
    } else {
      RankIs(n.cells, k, |n.cells|);
    }
  }
}
