/**
 The B-tree as a value: what insert and remove do to the tree a root page stands for.
 The separators inside an inner node are not stored here: they are the maxima of the
 children, and the page layout (module BTreeLayout) says that the pages agree with that.
 */
module BTreeSpec {
  import opened Values
  import opened Cells

  /** `open` says that the last child has no separator, so that there is one child more than there are cells. */
  datatype Tree =
    | Leaf(pg: nat, cells: seq<Cell>)
    | Inner(pg: nat, kids: seq<Tree>, open: bool)

  /** The number of cells in the root node of t. */
  function Count(t: Tree): int {
    match t
    case Leaf(_, cells) => |cells|
    case Inner(_, kids, open) => |kids| - (if open then 1 else 0)
  }

  function Entries(t: Tree): seq<Cell> {
    match t
    case Leaf(_, cells) => cells
    case Inner(_, kids, _) => EntriesF(kids)
  }

  function EntriesF(ts: seq<Tree>): seq<Cell> {
    if ts == [] then [] else Entries(ts[0]) + EntriesF(ts[1..])
  }

  function Pages(t: Tree): set<nat> {
    match t
    case Leaf(pg, _) => {pg}
    case Inner(pg, kids, _) => {pg} + PagesF(kids)
  }

  function PagesF(ts: seq<Tree>): set<nat> {
    if ts == [] then {} else Pages(ts[0]) + PagesF(ts[1..])
  }

  /** No page is used twice. */
  ghost predicate Distinct(t: Tree) {
    match t
    case Leaf(_, _) => true
    case Inner(pg, kids, _) => pg !in PagesF(kids) && DistinctF(kids)
  }

  ghost predicate DistinctF(ts: seq<Tree>) {
    ts == [] || (Distinct(ts[0]) && Pages(ts[0]) !! PagesF(ts[1..]) && DistinctF(ts[1..]))
  }

  /** The largest key below t (0 when there is none). */
  function Max(t: Tree): int {
    var e := Entries(t);
    if e == [] then 0 else e[|e| - 1].key
  }

  /**
   The node invariant: uniform height h, at least lo and fewer than 2m cells in the root node and
   at least m in every other, and only nodes on the right spine may be open.
   */
  ghost predicate Wf(t: Tree, h: nat, lo: int, m: nat, right: bool) {
    && lo <= Count(t) < 2 * m
    && match t
       case Leaf(_, _) => h == 0
       case Inner(_, kids, open) =>
         && h > 0
         && 1 <= |kids|
         && (open ==> right && 2 <= |kids|)
         && KidsWf(kids, h - 1, m, right)
  }

  ghost predicate KidsWf(kids: seq<Tree>, h: nat, m: nat, right: bool) {
    forall i :: 0 <= i < |kids| ==> Wf(kids[i], h, m, m, right && i == |kids| - 1)
  }

  /** A whole tree: the root may be small, but an inner root has two children or more. */
  ghost predicate WfRoot(t: Tree, h: nat, m: nat) {
    && Wf(t, h, 0, m, true)
    && (t.Inner? ==> 2 <= |t.kids|)
    && Sorted(Entries(t))
    && Distinct(t)
  }

  /** Every node on the right spine is open, so a new maximum key can go there. */
  predicate SpineOpen(t: Tree) {
    match t
    case Leaf(_, _) => true
    case Inner(_, kids, open) => open && (kids == [] || SpineOpen(kids[|kids| - 1]))
  }

  /** Uniform height and no inner node with a single child. */
  ghost predicate Shape(t: Tree, h: nat) {
    match t
    case Leaf(_, _) => h == 0
    case Inner(_, kids, _) =>
      h > 0 && 2 <= |kids| && forall i :: 0 <= i < |kids| ==> Shape(kids[i], h - 1)
  }

  /** The child whose key range holds k. */
  function ChildIndex(kids: seq<Tree>, k: int): (i: nat)
    requires kids != []
    ensures i < |kids|
    ensures forall j :: 0 <= j < i ==> Max(kids[j]) < k
    ensures i < |kids| - 1 ==> k <= Max(kids[i])
  {
    if |kids| == 1 || k <= Max(kids[0]) then 0 else 1 + ChildIndex(kids[1..], k)
  }

  // ---------------------------------------------------------------- insert

  /** The outcome below a parent: the node grew, using `used` new pages, or it was split in two. */
  datatype Grown = One(t: Tree, used: nat) | Two(l: Tree, r: Tree)

  function Forest(g: Grown): seq<Tree> {
    match g
    case One(t, _) => [t]
    case Two(l, r) => [l, r]
  }

  /** The halves of a full node; the left half of an inner node has a separator for every child. */
  function LeftHalf(o: Tree): Tree
    requires 0 <= Count(o)
  {
    match o
    case Leaf(pg, c) => Leaf(pg, c[..|c| / 2])
    case Inner(pg, kids, _) => Inner(pg, kids[..Count(o) / 2], false)
  }

  function RightHalf(o: Tree, newPg: nat): Tree
    requires 0 <= Count(o)
  {
    match o
    case Leaf(pg, c) => Leaf(newPg, c[|c| / 2..])
    case Inner(pg, kids, open) => Inner(newPg, kids[Count(o) / 2..], open)
  }

  /** Splits a node that has reached 2m cells. */
  function SplitFull(o: Tree, m: nat, newPg: nat, used: nat): Grown
    requires 0 <= Count(o)
  {
    if Count(o) >= 2 * m then Two(LeftHalf(o), RightHalf(o, newPg)) else One(o, used)
  }

  /** The parent takes in what became of its child i. */
  function Absorb(pg: nat, kids: seq<Tree>, open: bool, i: nat, g: Grown, m: nat, newPg: nat, h: nat): Grown
    requires i < |kids|
  {
    match g
    case One(c, used) => One(Inner(pg, kids[i := c], open), used)
    case Two(l, r) => SplitFull(Inner(pg, kids[..i] + [l, r] + kids[i + 1..], open), m, newPg, h)
  }

  /** Inserts a new key below t; the split at height h takes the page alloc[h]. */
  function Ins(t: Tree, h: nat, k: int, v: Record, m: nat, alloc: seq<nat>): Grown
    requires Shape(t, h) && h < |alloc|
    decreases t
  {
    match t
    case Leaf(pg, cells) =>
      SplitFull(Leaf(pg, InsertCell(cells, k, v)), m, alloc[0], 0)
    case Inner(pg, kids, open) =>
      var i := ChildIndex(kids, k);
      Absorb(pg, kids, open, i, Ins(kids[i], h - 1, k, v, m, alloc), m, alloc[h], h)
  }

  function Repage(t: Tree, pg: nat): Tree { t.(pg := pg) }

  /** Insert at the root: when the root splits it keeps its page and its left half moves to a new one. */
  function InsRoot(t: Tree, h: nat, k: int, v: Record, m: nat, alloc: seq<nat>): Tree
    requires Shape(t, h) && h + 1 < |alloc|
  {
    match Ins(t, h, k, v, m, alloc)
    case One(c, _) => c
    case Two(l, r) => Inner(t.pg, [Repage(l, alloc[h + 1]), r], true)
  }

  function InsHeight(t: Tree, h: nat, k: int, v: Record, m: nat, alloc: seq<nat>): nat
    requires Shape(t, h) && h < |alloc|
  {
    if Ins(t, h, k, v, m, alloc).One? then h else h + 1
  }

  // ---------------------------------------------------------------- remove

  predicate SameKind(a: Tree, b: Tree) { a.Leaf? <==> b.Leaf? }

  ghost predicate OneKind(kids: seq<Tree>) {
    forall x, y :: 0 <= x < |kids| && 0 <= y < |kids| ==> SameKind(kids[x], kids[y])
  }

  function MergeTrees(a: Tree, b: Tree): Tree {
    match (a, b)
    case (Leaf(pg, c), Leaf(_, d)) => Leaf(pg, c + d)
    case (Inner(pg, c, _), Inner(_, d, open)) => Inner(pg, c + d, open)
    case _ => a
  }

  /** Moves the last cell (and child) of a to the front of b. */
  function ShiftRight(a: Tree, b: Tree): (Tree, Tree) {
    match (a, b)
    case (Leaf(p, c), Leaf(q, d)) =>
      if c == [] then (a, b) else (Leaf(p, c[..|c| - 1]), Leaf(q, [c[|c| - 1]] + d))
    case (Inner(p, c, o1), Inner(q, d, o2)) =>
      if c == [] then (a, b) else (Inner(p, c[..|c| - 1], o1), Inner(q, [c[|c| - 1]] + d, o2))
    case _ => (a, b)
  }

  /** Moves the first cell (and child) of b to the end of a. */
  function ShiftLeft(a: Tree, b: Tree): (Tree, Tree) {
    match (a, b)
    case (Leaf(p, c), Leaf(q, d)) =>
      if d == [] then (a, b) else (Leaf(p, c + [d[0]]), Leaf(q, d[1..]))
    case (Inner(p, c, o1), Inner(q, d, o2)) =>
      if d == [] then (a, b) else (Inner(p, c + [d[0]], o1), Inner(q, d[1..], o2))
    case _ => (a, b)
  }

  /** How the parent of an underfull child i is repaired. */
  datatype Repair = BorrowLeft | BorrowRight | MergeLeft | MergeRight

  function RepairOf(kids: seq<Tree>, i: nat, m: nat): Repair
    requires i < |kids|
  {
    if i > 0 && Count(kids[i - 1]) > m then BorrowLeft
    else if i < |kids| - 1 && Count(kids[i + 1]) > m then BorrowRight
    else if i == |kids| - 1 then MergeLeft
    else MergeRight
  }

  /** The left one of the two neighbours a repair works on. */
  function Pivot(r: Repair, i: nat): int {
    if r.BorrowLeft? || r.MergeLeft? then i - 1 else i
  }

  /** What a repair puts in the place of the neighbours a and b. */
  function Mended(r: Repair, a: Tree, b: Tree): seq<Tree> {
    match r
    case BorrowLeft => var (x, y) := ShiftRight(a, b); [x, y]
    case BorrowRight => var (x, y) := ShiftLeft(a, b); [x, y]
    case MergeLeft => [MergeTrees(a, b)]
    case MergeRight => [MergeTrees(a, b)]
  }

  /** A left merge gives the last child a separator; so does the last right merge. */
  function OpenAfter(r: Repair, open: bool, kids: nat): bool {
    match r
    case BorrowLeft => open
    case BorrowRight => open
    case MergeLeft => false
    case MergeRight => open && kids > 2
  }

  /** The parent after child i, which is underfull, has borrowed from or merged with a sibling. */
  function Fix(pg: nat, kids: seq<Tree>, open: bool, i: nat, m: nat): Tree
    requires i < |kids| && 2 <= |kids|
  {
    var r := RepairOf(kids, i, m);
    var j := Pivot(r, i);
    Inner(pg, kids[..j] + Mended(r, kids[j], kids[j + 1]) + kids[j + 2..], OpenAfter(r, open, |kids|))
  }

  /** Removes a present key below t; the result may be one cell short. */
  function Rem(t: Tree, h: nat, k: int, m: nat): Tree
    requires Shape(t, h)
    decreases t
  {
    match t
    case Leaf(pg, cells) => Leaf(pg, RemoveCell(cells, k))
    case Inner(pg, kids, open) =>
      var i := ChildIndex(kids, k);
      var c := Rem(kids[i], h - 1, k, m);
      if Count(c) < m then Fix(pg, kids[i := c], open, i, m) else Inner(pg, kids[i := c], open)
  }

  /** A root left with one child takes over that child's contents. */
  function Shrink(t: Tree): Tree {
    if t.Inner? && |t.kids| == 1 then Repage(t.kids[0], t.pg) else t
  }

  function RemRoot(t: Tree, h: nat, k: int, m: nat): Tree
    requires Shape(t, h)
  {
    Shrink(Rem(t, h, k, m))
  }

  function RemHeight(t: Tree, h: nat, k: int, m: nat): nat
    requires Shape(t, h)
  {
    var u := Rem(t, h, k, m);
    if u.Inner? && |u.kids| == 1 && h > 0 then h - 1 else h
  }

  // ---------------------------------------------------------------- forests

  lemma {:induction false} EntriesAppend(a: seq<Tree>, b: seq<Tree>)
    ensures EntriesF(a + b) == EntriesF(a) + EntriesF(b)
  {
    if a == [] {
      assert a + b == b;
    } else {
      assert (a + b)[0] == a[0] && (a + b)[1..] == a[1..] + b;
      EntriesAppend(a[1..], b);
    }
  }

  lemma {:induction false} PagesAppend(a: seq<Tree>, b: seq<Tree>)
    ensures PagesF(a + b) == PagesF(a) + PagesF(b)
  {
    if a == [] {
      assert a + b == b;
    } else {
      assert (a + b)[0] == a[0] && (a + b)[1..] == a[1..] + b;
      PagesAppend(a[1..], b);
    }
  }

  lemma {:induction false} DistinctAppend(a: seq<Tree>, b: seq<Tree>)
    ensures DistinctF(a + b) <==> DistinctF(a) && DistinctF(b) && PagesF(a) !! PagesF(b)
  {
    if a == [] {
      assert a + b == b;
    } else {
      assert (a + b)[0] == a[0] && (a + b)[1..] == a[1..] + b;
      DistinctAppend(a[1..], b);
      PagesAppend(a[1..], b);
    }
  }

  lemma Split3(kids: seq<Tree>, i: nat)
    requires i < |kids|
    ensures kids == kids[..i] + [kids[i]] + kids[i + 1..]
  {
  }

  lemma EntriesOne(t: Tree)
    ensures EntriesF([t]) == Entries(t) && PagesF([t]) == Pages(t) && (DistinctF([t]) <==> Distinct(t))
  {
    assert [t][1..] == [];
    assert EntriesF([t][1..]) == [];
  }

  lemma Entries3(a: seq<Tree>, b: seq<Tree>, c: seq<Tree>)
    ensures EntriesF(a + b + c) == EntriesF(a) + EntriesF(b) + EntriesF(c)
  {
    EntriesAppend(a + b, c);
    EntriesAppend(a, b);
  }

  lemma Pages3(a: seq<Tree>, b: seq<Tree>, c: seq<Tree>)
    ensures PagesF(a + b + c) == PagesF(a) + PagesF(b) + PagesF(c)
  {
    PagesAppend(a + b, c);
    PagesAppend(a, b);
  }

  lemma Distinct3(a: seq<Tree>, b: seq<Tree>, c: seq<Tree>)
    ensures DistinctF(a + b + c) <==>
            && DistinctF(a) && DistinctF(b) && DistinctF(c)
            && PagesF(a) !! PagesF(b) && PagesF(a) !! PagesF(c) && PagesF(b) !! PagesF(c)
  {
    DistinctAppend(a + b, c);
    DistinctAppend(a, b);
    PagesAppend(a, b);
  }

  lemma AtChild(kids: seq<Tree>, i: nat)
    requires i < |kids|
    ensures EntriesF(kids) == EntriesF(kids[..i]) + Entries(kids[i]) + EntriesF(kids[i + 1..])
    ensures PagesF(kids) == PagesF(kids[..i]) + Pages(kids[i]) + PagesF(kids[i + 1..])
    ensures DistinctF(kids) <==>
            && DistinctF(kids[..i]) && Distinct(kids[i]) && DistinctF(kids[i + 1..])
            && PagesF(kids[..i]) !! Pages(kids[i]) && PagesF(kids[..i]) !! PagesF(kids[i + 1..])
            && Pages(kids[i]) !! PagesF(kids[i + 1..])
  {
    Split3(kids, i);
    EntriesOne(kids[i]);
    Entries3(kids[..i], [kids[i]], kids[i + 1..]);
    Pages3(kids[..i], [kids[i]], kids[i + 1..]);
    Distinct3(kids[..i], [kids[i]], kids[i + 1..]);
  }

  // ---------------------------------------------------------------- shape facts

  lemma {:induction false} WfShape(t: Tree, h: nat, lo: int, m: nat, right: bool)
    requires Wf(t, h, lo, m, right) && 2 <= m
    requires t.Inner? ==> 2 <= |t.kids|
    ensures Shape(t, h)
    decreases t
  {
    if t.Inner? {
      forall i | 0 <= i < |t.kids| ensures Shape(t.kids[i], h - 1) {
        WfShape(t.kids[i], h - 1, m, m, right && i == |t.kids| - 1);
      }
    }
  }

  lemma {:induction false} WfNonEmpty(t: Tree, h: nat, lo: int, m: nat, right: bool)
    requires Wf(t, h, lo, m, right) && 1 <= m && (t.Leaf? ==> 1 <= lo)
    ensures Entries(t) != []
    decreases t
  {
    if t.Inner? {
      WfNonEmpty(t.kids[0], h - 1, m, m, right && 0 == |t.kids| - 1);
    }
  }

  lemma BeforeChild(kids: seq<Tree>, k: int)
    requires kids != [] && Sorted(EntriesF(kids))
    requires forall i :: 0 <= i < |kids| ==> Entries(kids[i]) != []
    ensures Below(EntriesF(kids[..ChildIndex(kids, k)]), k)
  {
    hide EntriesF, Entries, DistinctF, PagesF, Distinct, Pages;
    var i := ChildIndex(kids, k);
    AtChild(kids, i);
    var a := EntriesF(kids[..i]);
    SortedParts(a, Entries(kids[i]), EntriesF(kids[i + 1..]));
    if i > 0 {
      var before := kids[..i];
      AtChild(before, i - 1);
      assert before[i - 1] == kids[i - 1] && before[i..] == [];
      EndsWith(before[..i - 1], kids[i - 1]);
      assert a[|a| - 1].key == Max(kids[i - 1]);
    } else {
      assert kids[..i] == [];
      NoEntries();
    }
  }

  lemma NoEntries()
    ensures EntriesF([]) == []
  {
  }

  lemma EndsWith(before: seq<Tree>, last: Tree)
    requires Entries(last) != []
    ensures var s := EntriesF(before) + Entries(last) + EntriesF([]); s != [] && s[|s| - 1].key == Max(last)
  {
    NoEntries();
  }

  /** In a sorted run of children, everything before the child chosen for k lies below k. */
  lemma Route(kids: seq<Tree>, k: int)
    requires kids != [] && Sorted(EntriesF(kids))
    requires forall i :: 0 <= i < |kids| ==> Entries(kids[i]) != []
    ensures var i := ChildIndex(kids, k);
            var a := EntriesF(kids[..i]); var b := Entries(kids[i]); var c := EntriesF(kids[i + 1..]);
            && EntriesF(kids) == a + b + c
            && Sorted(b)
            && Below(a, k)
            && (Rank(b, k) < |b| || c == [])
  {
    hide EntriesF, Entries, DistinctF, PagesF, Distinct, Pages, Sorted, Below;
    var i := ChildIndex(kids, k);
    var a, b, c := EntriesF(kids[..i]), Entries(kids[i]), EntriesF(kids[i + 1..]);
    AtChild(kids, i);
    SortedParts(a, b, c);
    BeforeChild(kids, k);
    if i < |kids| - 1 {
      assert b[|b| - 1].key == Max(kids[i]);
    } else {
      assert kids[i + 1..] == [];
      NoEntries();
    }
  }

  lemma RouteHas(kids: seq<Tree>, k: int)
    requires kids != [] && Sorted(EntriesF(kids))
    requires forall i :: 0 <= i < |kids| ==> Entries(kids[i]) != []
    ensures Has(EntriesF(kids), k) <==> Has(Entries(kids[ChildIndex(kids, k)]), k)
  {
    Route(kids, k);
    var i := ChildIndex(kids, k);
    var a, b, c := EntriesF(kids[..i]), Entries(kids[i]), EntriesF(kids[i + 1..]);
    HasRank(a + b + c, k);
    HasRank(b, k);
    RankInMiddle(a, b, c, k);
    if Rank(b, k) < |b| {
      assert (a + b + c)[|a| + Rank(b, k)] == b[Rank(b, k)];
    }
  }

  lemma KidsNonEmpty(kids: seq<Tree>, h: nat, m: nat, right: bool)
    requires 1 <= m
    requires KidsWf(kids, h, m, right)
    ensures forall i :: 0 <= i < |kids| ==> Entries(kids[i]) != []
  {
    forall i | 0 <= i < |kids| ensures Entries(kids[i]) != [] {
      WfNonEmpty(kids[i], h, m, m, right && i == |kids| - 1);
    }
  }
}
