/** Replacing the record of one key where it stands: the tree keeps its shape, its keys, its pages and its links. */
module BTreeUpdate {
  import opened Values
  import opened Cells
  import opened BTreeSpec
  import opened BTreeLayout
  import opened BTreeSearch
  import opened BTreeScan
  import opened BTreeLinks
  import opened BTreeKept
  import opened FreeList
  import opened BTreeRepair
  import opened BTreeRemoveSteps

  function PutVal(cells: seq<Cell>, c: nat, v: Record): (r: seq<Cell>)
    ensures |r| == |cells|
    ensures forall i :: 0 <= i < |r| ==> r[i] == if i == c then Cell(cells[i].key, v) else cells[i]
  {
    if c < |cells| then cells[c := Cell(cells[c].key, v)] else cells
  }

  /** t with the record of cell c on leaf page pg replaced. */
  function SetVal(t: Tree, pg: nat, c: nat, v: Record): Tree {
    match t
    case Leaf(p, cells) => if p == pg then Leaf(p, PutVal(cells, c, v)) else t
    case Inner(p, kids, open) => Inner(p, SetValF(kids, pg, c, v), open)
  }

  function SetValF(ts: seq<Tree>, pg: nat, c: nat, v: Record): (us: seq<Tree>)
    ensures |us| == |ts|
    ensures forall i :: 0 <= i < |ts| ==> us[i] == SetVal(ts[i], pg, c, v)
  {
    if ts == [] then [] else [SetVal(ts[0], pg, c, v)] + SetValF(ts[1..], pg, c, v)
  }

  ghost predicate SameKeys(a: seq<Cell>, b: seq<Cell>) {
    |a| == |b| && forall i :: 0 <= i < |a| ==> a[i].key == b[i].key
  }

  lemma SameKeysJoin(a: seq<Cell>, b: seq<Cell>, c: seq<Cell>, d: seq<Cell>)
    requires SameKeys(a, c) && SameKeys(b, d)
    ensures SameKeys(a + b, c + d)
  {
  }

  /** Root page, keys, page set, levels: all as before. */
  lemma {:induction false} SetValSame(t: Tree, pg: nat, c: nat, v: Record)
    ensures var u := SetVal(t, pg, c, v);
            && u.pg == t.pg && Count(u) == Count(t) && (u.Leaf? <==> t.Leaf?)
            && SameKeys(Entries(t), Entries(u)) && Pages(u) == Pages(t) && (Distinct(t) ==> Distinct(u))
    decreases t
  {
    hide SameKeys;
    match t
    case Leaf(_, cells) => assert SameKeys(cells, Entries(SetVal(t, pg, c, v))) by { PutKeys(cells, c, v); }
    case Inner(_, kids, _) => SetValSameF(kids, pg, c, v);
  }

  lemma PutKeys(cells: seq<Cell>, c: nat, v: Record)
    ensures SameKeys(cells, PutVal(cells, c, v)) && SameKeys(cells, cells)
  {
  }

  lemma {:induction false} SetValSameF(ts: seq<Tree>, pg: nat, c: nat, v: Record)
    ensures var us := SetValF(ts, pg, c, v);
            SameKeys(EntriesF(ts), EntriesF(us)) && PagesF(us) == PagesF(ts) && (DistinctF(ts) ==> DistinctF(us))
    decreases ts
  {
    if ts == [] {
    } else {
      hide SameKeys;
      SetValSame(ts[0], pg, c, v);
      SetValSameF(ts[1..], pg, c, v);
      var us := SetValF(ts, pg, c, v);
      assert us[1..] == SetValF(ts[1..], pg, c, v);
      SameKeysJoin(Entries(ts[0]), EntriesF(ts[1..]), Entries(us[0]), EntriesF(us[1..]));
    }
  }

  lemma {:induction false} SetValLevel(t: Tree, d: nat, pg: nat, c: nat, v: Record)
    ensures Level(SetVal(t, pg, c, v), d) == Level(t, d)
    decreases t
  {
    SetValSame(t, pg, c, v);
    if d > 0 && t.Inner? { SetValLevelF(t.kids, d - 1, pg, c, v); }
  }

  lemma {:induction false} SetValLevelF(ts: seq<Tree>, d: nat, pg: nat, c: nat, v: Record)
    ensures LevelF(SetValF(ts, pg, c, v), d) == LevelF(ts, d)
    decreases ts
  {
    if ts != [] {
      SetValLevel(ts[0], d, pg, c, v);
      SetValLevelF(ts[1..], d, pg, c, v);
      assert SetValF(ts, pg, c, v)[1..] == SetValF(ts[1..], pg, c, v);
    }
  }

  lemma {:induction false} SetValWf(t: Tree, h: nat, lo: int, m: nat, right: bool, pg: nat, c: nat, v: Record)
    requires Wf(t, h, lo, m, right)
    ensures Wf(SetVal(t, pg, c, v), h, lo, m, right)
    decreases t
  {
    if t.Inner? {
      var us := SetValF(t.kids, pg, c, v);
      forall i | 0 <= i < |us| ensures Wf(us[i], h - 1, m, m, right && i == |us| - 1) {
        SetValWf(t.kids[i], h - 1, m, m, right && i == |t.kids| - 1, pg, c, v);
      }
    }
  }

  lemma {:induction false} SetValShape(t: Tree, h: nat, pg: nat, c: nat, v: Record)
    requires Shape(t, h)
    ensures Shape(SetVal(t, pg, c, v), h)
    decreases t
  {
    if t.Inner? {
      var us := SetValF(t.kids, pg, c, v);
      forall i | 0 <= i < |us| ensures Shape(us[i], h - 1) {
        SetValShape(t.kids[i], h - 1, pg, c, v);
      }
    }
  }

  /** The store with that record replaced on page pg. */
  function PutPage(P: Store, pg: nat, c: nat, v: Record): Store
    requires pg in P
  {
    P[pg := P[pg].(cells := PutVal(P[pg].cells, c, v))]
  }

  lemma {:induction false} SetValLay(P: Store, t: Tree, pg: nat, c: nat, v: Record)
    requires Lay(P, t) && pg in P && P[pg].isLeaf
    ensures Lay(PutPage(P, pg, c, v), SetVal(t, pg, c, v))
    decreases t
  {
    if t.Inner? {
      var Q, us := PutPage(P, pg, c, v), SetValF(t.kids, pg, c, v);
      assert Q[t.pg] == P[t.pg];
      forall i | 0 <= i < |us| ensures Lay(Q, us[i]) && us[i].pg == t.kids[i].pg && Max(us[i]) == Max(t.kids[i]) {
        SetValLay(P, t.kids[i], pg, c, v);
        SetValSame(t.kids[i], pg, c, v);
      }
      assert Roots(us) == Roots(t.kids);
    }
  }

  lemma SameKeysSorted(a: seq<Cell>, b: seq<Cell>)
    requires SameKeys(a, b) && Sorted(a)
    ensures Sorted(b)
  {
  }

  lemma SetValKids(t: Tree, pg: nat, c: nat, v: Record)
    ensures var u := SetVal(t, pg, c, v);
            (t.Inner? ==> |u.kids| == |t.kids|) && (u.Inner? <==> t.Inner?)
  {
  }

  lemma SetValLinked(P: Store, t: Tree, pg: nat, c: nat, v: Record)
    requires Linked(P, [t]) && pg in P
    ensures Linked(PutPage(P, pg, c, v), [SetVal(t, pg, c, v)])
  {
    var u := SetVal(t, pg, c, v);
    forall e: nat ensures LevelF([u], e) == LevelF([t], e) {
      SetValLevel(t, e, pg, c, v);
      LevelOne(t, e);
      LevelOne(u, e);
    }
    LinkedSame(P, PutPage(P, pg, c, v), [t], [u]);
  }

  /** The tree with the record replaced is kept, with the same free pages. */
  lemma SetValKept(P: Store, f: FreeState, t: Tree, h: nat, m: nat, pg: nat, c: nat, v: Record)
    requires Kept(P, f, t, h, m) && pg in P && P[pg].isLeaf
    ensures Kept(PutPage(P, pg, c, v), f, SetVal(t, pg, c, v), h, m)
  {
    hide Wf, Lay, Linked, Shape, Sorted, Distinct, SameKeys, SetVal, PutPage, FreeOk, Spare, Entries, Pages;
    SetValSame(t, pg, c, v);
    SetValKids(t, pg, c, v);
    SetValWf(t, h, 0, m, true, pg, c, v);
    SetValShape(t, h, pg, c, v);
    SetValLay(P, t, pg, c, v);
    SetValLinked(P, t, pg, c, v);
    SameKeysSorted(Entries(t), Entries(SetVal(t, pg, c, v)));
  }

  // ---------------------------------------------------------------- the run of entries

  lemma CellsOnFrame(P: Store, Q: Store, ps: seq<nat>)
    requires AllIn(P, ps) && forall i :: 0 <= i < |ps| ==> ps[i] in Q && Q[ps[i]].cells == P[ps[i]].cells
    ensures AllIn(Q, ps) && CellsOn(Q, ps) == CellsOn(P, ps)
    decreases ps
  {
    if ps != [] { CellsOnFrame(P, Q, ps[1..]); }
  }

  /** On a chain, only entry x of the whole run changes, and the chain stays one. */
  lemma PutOnChain(P: Store, ps: seq<nat>, j: nat, c: nat, v: Record)
    requires LeafChain(P, ps) && j < |ps| && c < |P[ps[j]].cells| && AllIn(P, ps[..j])
    ensures var Q := PutPage(P, ps[j], c, v); var x := |CellsOn(P, ps[..j])| + c;
            && LeafChain(Q, ps) && AllIn(Q, ps[..j]) && |CellsOn(Q, ps[..j])| == |CellsOn(P, ps[..j])|
            && CellsOn(Q, ps) == PutVal(CellsOn(P, ps), x, v)
  {
    hide CellsOn, Chain;
    var Q := PutPage(P, ps[j], c, v);
    SplitAt(P, ps, j);
    SplitAt(Q, ps, j);
    CellsOnFrame(P, Q, ps[..j]);
    CellsOnFrame(P, Q, ps[j + 1..]);
    ChainFrame(P, Q, ps);
    forall i | 0 <= i < |ps| && FullLeaf(P, ps[i]) ensures FullLeaf(Q, ps[i]) {}
    assert AllFullLeaves(P, ps) ==> AllFullLeaves(Q, ps);
    PutMiddle(CellsOn(P, ps[..j]), P[ps[j]].cells, CellsOn(P, ps[j + 1..]), c, v);
  }

  lemma PutMiddle(a: seq<Cell>, b: seq<Cell>, d: seq<Cell>, c: nat, v: Record)
    requires c < |b|
    ensures PutVal(a + b + d, |a| + c, v) == a + PutVal(b, c, v) + d
  {
  }

  /** The entries of the new tree: the old ones with the record of entry x replaced. */
  lemma SetValEntries(P: Store, f: FreeState, t: Tree, h: nat, m: nat, j: nat, c: nat, v: Record)
    requires Kept(P, f, t, h, m) && j < |Level(t, h)|
    requires var ps := Level(t, h); LeafChain(P, ps) && P[ps[j]].isLeaf && c < |P[ps[j]].cells| && AllIn(P, ps[..j])
    ensures var ps := Level(t, h); var u := SetVal(t, ps[j], c, v);
            && Level(u, h) == ps
            && Entries(u) == PutVal(Entries(t), |CellsOn(P, ps[..j])| + c, v)
  {
    hide LeafChain, Lay, Linked, FreeOk, SetVal, PutVal, PutPage, CellsOn, WfRoot, Shape;
    var ps := Level(t, h);
    ChainPages(P, ps, j);
    SetValKept(P, f, t, h, m, ps[j], c, v);
    SetValLevel(t, h, ps[j], c, v);
    Leaves(P, t, h, m);
    Leaves(PutPage(P, ps[j], c, v), SetVal(t, ps[j], c, v), h, m);
    PutOnChain(P, ps, j, c, v);
  }

  lemma ChainPages(P: Store, ps: seq<nat>, j: nat)
    requires LeafChain(P, ps) && j < |ps|
    ensures ps[j] in P
  {
  }

  // ---------------------------------------------------------------- taking a cell out and putting one in

  lemma RemoveCellIs(cells: seq<Cell>, c: nat)
    requires Sorted(cells) && c < |cells|
    ensures RemoveCell(cells, cells[c].key) == cells[..c] + cells[c + 1..]
    ensures Has(cells, cells[c].key) && Rank(cells, cells[c].key) == c
  {
    hide Has;
    RankIs(cells, cells[c].key, c);
    HasRank(cells, cells[c].key);
  }

  /** Where the key was, all keys before are smaller and all keys after are larger. */
  lemma RestRank(cells: seq<Cell>, c: nat)
    requires Sorted(cells) && c < |cells|
    ensures var rest := cells[..c] + cells[c + 1..]; Rank(rest, cells[c].key) == c && !(c < |rest| && rest[c].key == cells[c].key)
  {
    hide Rank;
    RankIs(cells[..c] + cells[c + 1..], cells[c].key, c);
  }

  lemma PutBack(cells: seq<Cell>, c: nat, v: Record)
    requires c < |cells|
    ensures var rest := cells[..c] + cells[c + 1..]; rest[..c] + [Cell(cells[c].key, v)] + rest[c..] == PutVal(cells, c, v)
  {
    var rest := cells[..c] + cells[c + 1..];
    assert rest[..c] == cells[..c] && rest[c..] == cells[c + 1..];
  }

  /** Removing the cell of a key and inserting the key again puts the new record in its place. */
  lemma RemoveThenInsert(cells: seq<Cell>, c: nat, v: Record)
    requires Sorted(cells) && c < |cells|
    ensures var k := cells[c].key; var rest := RemoveCell(cells, k);
            && Has(cells, k) && Sorted(rest) && !Has(rest, k) && |rest| == |cells| - 1
            && InsertCell(rest, k, v) == PutVal(cells, c, v)
  {
    hide Has, Sorted, Rank, RemoveCell, PutVal;
    var k := cells[c].key;
    RemoveCellIs(cells, c);
    RemoveCellSorted(cells, k);
    RestRank(cells, c);
    PutBack(cells, c, v);
    HasRank(RemoveCell(cells, k), k);
  }

  // ---------------------------------------------------------------- other trees in the same store

  ghost predicate SameOn(P: Store, Q: Store, S: set<nat>) {
    forall p :: p in S && p in P ==> p in Q && Q[p] == P[p]
  }

  /** A tree whose pages did not change is still kept. */
  lemma KeptFrame(P: Store, Q: Store, f: FreeState, t: Tree, h: nat, m: nat)
    requires Kept(P, f, t, h, m) && SameOn(P, Q, Pages(t))
    ensures Kept(Q, f, t, h, m)
  {
    hide Wf, Lay, Linked, Shape, Sorted, Distinct, FreeOk, Spare, Entries;
    assert AgreeOn(P, Q, Pages(t)) && SameLinks(P, Q, Pages(t));
    LayFrame(P, Q, t);
    EntriesOne(t);
    LinkedSame(P, Q, [t], [t]);
  }

  /** Making its separators exact again keeps a tree. */
  lemma KeptRefreshed(P: Store, Q: Store, f: FreeState, u: Tree, h: nat, m: nat)
    requires Kept(P, f, u, h, m) && Rekeyed(P, Q) && Lay(Q, u)
    ensures Kept(Q, f, u, h, m)
  {
    hide Wf, Lay, Shape, Sorted, Distinct, FreeOk, Spare, Entries, Linked;
    LinkedRekeyed(P, Q, [u]);
  }

  // ---------------------------------------------------------------- the page of a scan

  ghost predicate LeafPage(P: Store, m: nat, p: nat) {
    p in P && P[p].isLeaf && Sorted(P[p].cells) && |P[p].cells| < 2 * m
  }

  lemma {:induction false} LeafOnLevel(P: Store, t: Tree, h: nat, lo: int, m: nat, right: bool, p: nat)
    requires Lay(P, t) && Shape(t, h) && Wf(t, h, lo, m, right) && Sorted(Entries(t)) && p in Level(t, h)
    ensures LeafPage(P, m, p)
    decreases t
  {
    if t.Inner? { LeafOnLevelF(P, t.kids, h - 1, m, right, p); }
  }

  lemma {:induction false} LeafOnLevelF(P: Store, ts: seq<Tree>, h: nat, m: nat, right: bool, p: nat)
    requires LayF(P, ts) && KidsWf(ts, h, m, right) && (forall i :: 0 <= i < |ts| ==> Shape(ts[i], h))
    requires Sorted(EntriesF(ts)) && p in LevelF(ts, h)
    ensures LeafPage(P, m, p)
    decreases ts
  {
    hide Lay, Wf, Shape, Sorted, LeafPage;
    assert [] + Entries(ts[0]) + EntriesF(ts[1..]) == EntriesF(ts);
    SortedParts([], Entries(ts[0]), EntriesF(ts[1..]));
    if p in Level(ts[0], h) {
      LeafOnLevel(P, ts[0], h, m, m, right && 0 == |ts| - 1, p);
    } else {
      KidsWfTail(ts, h, m, right);
      LeafOnLevelF(P, ts[1..], h, m, right, p);
    }
  }

  /** What the page of a scan holds. */
  lemma ScanPage(P: Store, f: FreeState, t: Tree, h: nat, m: nat, j: nat)
    requires Kept(P, f, t, h, m) && j < |Level(t, h)|
    ensures LeafPage(P, m, Level(t, h)[j]) && Level(t, h)[j] in Pages(t)
  {
    hide Lay, Wf, Shape, Sorted, Linked, FreeOk, LeafPage;
    LeafOnLevel(P, t, h, 0, m, true, Level(t, h)[j]);
    LevelPages(t, h, Level(t, h)[j]);
  }

  lemma RefreshReady(P: Store, f: FreeState, u: Tree, h: nat, m: nat)
    requires Kept(P, f, u, h, m)
    ensures Skel(P, u) && Distinct(u) && Shape(u, h) && Wf(u, h, 0, m, true) && 1 <= m
  {
    hide Lay, Wf, Shape, Sorted, Linked, FreeOk, Skel;
    LaySkel(P, u);
  }

  lemma LeafChainFrame(P: Store, Q: Store, t: Tree, h: nat, n: nat)
    requires LeafChain(P, Level(t, h)) && SameOn(P, Q, Pages(t)) && n <= |Level(t, h)|
    ensures LeafChain(Q, Level(t, h))
    ensures AllIn(P, Level(t, h)[..n]) && AllIn(Q, Level(t, h)[..n]) && CellsOn(Q, Level(t, h)[..n]) == CellsOn(P, Level(t, h)[..n])
  {
    hide CellsOn, Chain;
    var ps := Level(t, h);
    forall i | 0 <= i < |ps| ensures ps[i] in Q && Q[ps[i]] == P[ps[i]] { LevelPages(t, h, ps[i]); }
    ChainFrame(P, Q, ps);
    forall i | 0 <= i < |ps| && FullLeaf(P, ps[i]) ensures FullLeaf(Q, ps[i]) {}
    assert AllFullLeaves(P, ps) ==> AllFullLeaves(Q, ps);
    CellsOnFrame(P, Q, ps[..n]);
  }

  /** The scan after the record it stands at was replaced: same chain, same place, one record new. */
  lemma UpdatedScan(P: Store, Q: Store, f: FreeState, t: Tree, h: nat, m: nat, j: nat, c: nat, v: Record)
    requires Kept(P, f, t, h, m) && j < |Level(t, h)| && LeafChain(P, Level(t, h))
    requires var pg := Level(t, h)[j];
             && pg in P && c < |P[pg].cells| && SameOn(PutPage(P, pg, c, v), Q, Pages(t))
    ensures var ps := Level(t, h); var u := SetVal(t, ps[j], c, v);
            && Kept(Q, f, u, h, m) && u.pg == t.pg && Pages(u) == Pages(t) && Level(u, h) == ps
            && AllIn(P, ps[..j]) && AllIn(Q, ps[..j]) && LeafChain(Q, ps) && |CellsOn(Q, ps[..j])| == |CellsOn(P, ps[..j])|
            && |CellsOn(P, ps[..j])| + c < |Entries(t)|
            && Entries(t)[|CellsOn(P, ps[..j])| + c] == P[ps[j]].cells[c]
            && Entries(u) == PutVal(Entries(t), |CellsOn(P, ps[..j])| + c, v)
  {
    hide Lay, Linked, FreeOk, SetVal, PutVal, CellsOn, WfRoot, Shape, Chain, LeafPage;
    var ps := Level(t, h);
    var u, R := SetVal(t, ps[j], c, v), PutPage(P, ps[j], c, v);
    ScanPage(P, f, t, h, m, j);
    LeafPageIs(P, m, ps[j]);
    assert AllIn(P, ps[..j]);
    SetValKept(P, f, t, h, m, ps[j], c, v);
    SetValSame(t, ps[j], c, v);
    SetValEntries(P, f, t, h, m, j, c, v);
    KeptFrame(R, Q, f, u, h, m);
    PutOnChain(P, ps, j, c, v);
    LeafChainFrame(R, Q, u, h, j);
    Leaves(P, t, h, m);
    EntryAt(P, ps, j, c);
  }

  lemma LeafPageIs(P: Store, m: nat, p: nat)
    requires LeafPage(P, m, p)
    ensures p in P && P[p].isLeaf && Sorted(P[p].cells) && |P[p].cells| < 2 * m
  {
  }

  /** Only page pg changed on the way from P to Q, and then it got the new record. */
  lemma PageReplaced(P: Store, Q: Store, pg: nat, n: Node, c: nat, v: Record, S: set<nat>)
    requires pg in P && SameOn(P, Q, S - {pg}) && n == P[pg].(cells := PutVal(P[pg].cells, c, v))
    ensures SameOn(PutPage(P, pg, c, v), Q[pg := n], S)
  {
  }

  lemma OtherPageReplaced(Q: Store, pg: nat, n: Node, S: set<nat>)
    requires pg !in S
    ensures SameOn(Q, Q[pg := n], S)
  {
  }
}
