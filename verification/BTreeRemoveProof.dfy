/** What removing does to a well-formed tree: one binding less, and a well-formed tree again. */
module BTreeRemoveProof {
  import opened Values
  import opened Cells
  import opened BTreeSpec

  // ---------------------------------------------------------------- neighbours

  lemma Cut4<T>(s: seq<T>, j: nat)
    requires j + 1 < |s|
    ensures s == s[..j] + [s[j], s[j + 1]] + s[j + 2..]
  {
  }

  lemma Split4(kids: seq<Tree>, j: nat)
    requires j + 1 < |kids|
    ensures kids == kids[..j] + [kids[j], kids[j + 1]] + kids[j + 2..]
    ensures EntriesF(kids) == EntriesF(kids[..j]) + (Entries(kids[j]) + Entries(kids[j + 1])) + EntriesF(kids[j + 2..])
    ensures PagesF(kids) == PagesF(kids[..j]) + (Pages(kids[j]) + Pages(kids[j + 1])) + PagesF(kids[j + 2..])
  {
    hide *;
    var a, mid, c := kids[..j], [kids[j], kids[j + 1]], kids[j + 2..];
    Cut4(kids, j);
    Pair(kids[j], kids[j + 1]);
    Entries3(a, mid, c);
    Pages3(a, mid, c);
  }

  ghost predicate Apart4(kids: seq<Tree>, j: nat)
    requires j + 1 < |kids|
  {
    && DistinctF(kids[..j]) && DistinctF(kids[j + 2..]) && Distinct(kids[j]) && Distinct(kids[j + 1])
    && Pages(kids[j]) !! Pages(kids[j + 1])
    && PagesF(kids[..j]) !! (Pages(kids[j]) + Pages(kids[j + 1]))
    && PagesF(kids[..j]) !! PagesF(kids[j + 2..])
    && (Pages(kids[j]) + Pages(kids[j + 1])) !! PagesF(kids[j + 2..])
  }

  lemma Split4Distinct(kids: seq<Tree>, j: nat)
    requires j + 1 < |kids| && DistinctF(kids)
    ensures Apart4(kids, j)
  {
    hide Distinct, DistinctF, Pages, PagesF;
    var a, mid, c := kids[..j], [kids[j], kids[j + 1]], kids[j + 2..];
    Cut4(kids, j);
    Pair(kids[j], kids[j + 1]);
    Distinct3(a, mid, c);
  }

  lemma Pair(l: Tree, r: Tree)
    ensures EntriesF([l, r]) == Entries(l) + Entries(r)
    ensures PagesF([l, r]) == Pages(l) + Pages(r)
    ensures DistinctF([l, r]) <==> Distinct(l) && Distinct(r) && Pages(l) !! Pages(r)
  {
    assert [l, r][1..] == [r];
    EntriesOne(r);
  }

  /** What every repair of two neighbours keeps. */
  ghost predicate Keeps(a: Tree, b: Tree, mid: seq<Tree>) {
    && EntriesF(mid) == Entries(a) + Entries(b)
    && PagesF(mid) <= Pages(a) + Pages(b)
    && DistinctF(mid)
  }

  lemma ShiftRightKeeps(a: Tree, b: Tree)
    requires SameKind(a, b) && Distinct(a) && Distinct(b) && Pages(a) !! Pages(b)
    ensures Keeps(a, b, Mended(BorrowLeft, a, b))
  {
    var (x, y) := ShiftRight(a, b);
    Pair(x, y);
    if a.Inner? && b.Inner? && a.kids != [] {
      var n := |a.kids| - 1;
      AtChild(a.kids, n);
      assert a.kids[n + 1..] == [];
      EntriesAppend([a.kids[n]], b.kids);
      PagesAppend([a.kids[n]], b.kids);
      DistinctAppend([a.kids[n]], b.kids);
      EntriesOne(a.kids[n]);
    } else if a.Leaf? && b.Leaf? && a.cells != [] {
      var n := |a.cells| - 1;
      assert a.cells[..n] + ([a.cells[n]] + b.cells) == a.cells + b.cells;
    }
  }

  lemma ShiftLeftKeeps(a: Tree, b: Tree)
    requires SameKind(a, b) && Distinct(a) && Distinct(b) && Pages(a) !! Pages(b)
    ensures Keeps(a, b, Mended(BorrowRight, a, b))
  {
    hide DistinctF, EntriesF, PagesF;
    var (x, y) := ShiftLeft(a, b);
    Pair(x, y);
    if a.Inner? && b.Inner? && b.kids != [] {
      EntriesAppend(a.kids, [b.kids[0]]);
      PagesAppend(a.kids, [b.kids[0]]);
      DistinctAppend(a.kids, [b.kids[0]]);
      EntriesOne(b.kids[0]);
      assert b.kids == [b.kids[0]] + b.kids[1..];
      EntriesAppend([b.kids[0]], b.kids[1..]);
      PagesAppend([b.kids[0]], b.kids[1..]);
      DistinctAppend([b.kids[0]], b.kids[1..]);
    } else if a.Leaf? && b.Leaf? && b.cells != [] {
      assert (a.cells + [b.cells[0]]) + b.cells[1..] == a.cells + b.cells;
    }
  }

  lemma MergeKeeps(a: Tree, b: Tree)
    requires SameKind(a, b) && Distinct(a) && Distinct(b) && Pages(a) !! Pages(b)
    ensures Keeps(a, b, [MergeTrees(a, b)])
  {
    EntriesOne(MergeTrees(a, b));
    if a.Inner? && b.Inner? {
      EntriesAppend(a.kids, b.kids);
      PagesAppend(a.kids, b.kids);
      DistinctAppend(a.kids, b.kids);
    }
  }

  lemma MendedKeeps(r: Repair, a: Tree, b: Tree)
    requires SameKind(a, b) && Distinct(a) && Distinct(b) && Pages(a) !! Pages(b)
    ensures Keeps(a, b, Mended(r, a, b))
  {
    match r
    case BorrowLeft => ShiftRightKeeps(a, b);
    case BorrowRight => ShiftLeftKeeps(a, b);
    case MergeLeft => MergeKeeps(a, b);
    case MergeRight => MergeKeeps(a, b);
  }

  /** A repair below a node keeps its entries in order and uses no page it did not have. */
  lemma FixKeeps(t: Tree, i: nat, m: nat)
    requires t.Inner? && Distinct(t) && i < |t.kids| && 2 <= |t.kids|
    requires OneKind(t.kids)
    ensures var u := Fix(t.pg, t.kids, t.open, i, m);
            Entries(u) == Entries(t) && Pages(u) <= Pages(t) && Distinct(u)
  {
    var r := RepairOf(t.kids, i, m);
    var j := Pivot(r, i);
    var mid := Mended(r, t.kids[j], t.kids[j + 1]);
    Split4(t.kids, j);
    Split4Distinct(t.kids, j);
    MendedKeeps(r, t.kids[j], t.kids[j + 1]);
    Entries3(t.kids[..j], mid, t.kids[j + 2..]);
    Pages3(t.kids[..j], mid, t.kids[j + 2..]);
    Distinct3(t.kids[..j], mid, t.kids[j + 2..]);
  }

  // ---------------------------------------------------------------- sizes

  /** Every child is full enough but child i, which is one cell short. */
  ghost predicate ShortAt(kids: seq<Tree>, i: nat, h: nat, m: nat, right: bool) {
    && i < |kids|
    && Wf(kids[i], h, m - 1, m, right && i == |kids| - 1) && Count(kids[i]) < m
    && forall j :: 0 <= j < |kids| && j != i ==> Wf(kids[j], h, m, m, right && j == |kids| - 1)
  }

  lemma KidsAppendWf(a: seq<Tree>, b: seq<Tree>, h: nat, m: nat, right: bool)
    requires KidsWf(a, h, m, false) && KidsWf(b, h, m, right) && b != []
    ensures KidsWf(a + b, h, m, right)
  {
    forall i | 0 <= i < |a + b| ensures Wf((a + b)[i], h, m, m, right && i == |a + b| - 1) {
      if i < |a| { assert (a + b)[i] == a[i]; } else { assert (a + b)[i] == b[i - |a|]; }
    }
  }

  lemma KidsCutWf(kids: seq<Tree>, n: nat, h: nat, m: nat, right: bool)
    requires KidsWf(kids, h, m, right) && n <= |kids|
    ensures n < |kids| ==> KidsWf(kids[..n], h, m, false)
    ensures KidsWf(kids[n..], h, m, right)
  {
    forall j | 0 <= j < |kids| - n ensures Wf(kids[n..][j], h, m, m, right && j == |kids| - n - 1) {
      assert kids[n..][j] == kids[n + j];
    }
    forall j | 0 <= j < n && n < |kids| ensures Wf(kids[..n][j], h, m, m, false) {
      assert kids[..n][j] == kids[j];
    }
  }

  lemma KidsOneWf(t: Tree, h: nat, m: nat, right: bool)
    requires Wf(t, h, m, m, right)
    ensures KidsWf([t], h, m, right)
  {
  }

  lemma ShiftRightWf(a: Tree, b: Tree, h: nat, m: nat, right: bool)
    requires 2 <= m && Wf(a, h, m, m, false) && m < Count(a)
    requires Wf(b, h, m - 1, m, right) && Count(b) < m
    ensures var (x, y) := ShiftRight(a, b); Wf(x, h, m, m, false) && Wf(y, h, m, m, right)
  {
    if a.Inner? {
      var n := |a.kids| - 1;
      KidsCutWf(a.kids, n, h - 1, m, false);
      KidsOneWf(a.kids[n], h - 1, m, false);
      KidsAppendWf([a.kids[n]], b.kids, h - 1, m, right);
    }
  }

  lemma ShiftLeftWf(a: Tree, b: Tree, h: nat, m: nat, right: bool)
    requires 2 <= m && Wf(a, h, m - 1, m, false) && Count(a) < m
    requires Wf(b, h, m, m, right) && m < Count(b)
    ensures var (x, y) := ShiftLeft(a, b); Wf(x, h, m, m, false) && Wf(y, h, m, m, right)
  {
    if a.Inner? {
      KidsCutWf(b.kids, 1, h - 1, m, right);
      KidsOneWf(b.kids[0], h - 1, m, false);
      KidsAppendWf(a.kids, [b.kids[0]], h - 1, m, false);
    }
  }

  lemma MergeWf(a: Tree, b: Tree, h: nat, m: nat, right: bool)
    requires 2 <= m && Wf(a, h, m - 1, m, false) && Wf(b, h, m - 1, m, right)
    requires Count(a) + Count(b) == 2 * m - 1
    ensures Wf(MergeTrees(a, b), h, m, m, right)
  {
    if a.Inner? {
      KidsAppendWf(a.kids, b.kids, h - 1, m, right);
    }
  }

  lemma WfLower(t: Tree, h: nat, lo: int, lo': int, m: nat, right: bool)
    requires Wf(t, h, lo, m, right) && lo' <= lo
    ensures Wf(t, h, lo', m, right)
  {
  }

  /** The neighbours a repair works on become well-formed children, the second as far right as before. */
  lemma MendedWf(kids: seq<Tree>, i: nat, h: nat, m: nat, right: bool)
    requires 2 <= m && 2 <= |kids| && ShortAt(kids, i, h, m, right)
    ensures var r := RepairOf(kids, i, m); var j := Pivot(r, i);
            && 0 <= j < |kids| - 1
            && KidsWf(Mended(r, kids[j], kids[j + 1]), h, m, right && j + 1 == |kids| - 1)
  {
    var r := RepairOf(kids, i, m);
    var j := Pivot(r, i);
    var a, b := kids[j], kids[j + 1];
    var last := right && j + 1 == |kids| - 1;
    match r
    case BorrowLeft => ShiftRightWf(a, b, h, m, last); PairWf(a, b, r, h, m, last);
    case BorrowRight => ShiftLeftWf(a, b, h, m, last); PairWf(a, b, r, h, m, last);
    case MergeLeft =>
      WfLower(a, h, m, m - 1, m, false);
      MergeWf(a, b, h, m, last);
      KidsOneWf(MergeTrees(a, b), h, m, last);
    case MergeRight =>
      WfLower(b, h, m, m - 1, m, last);
      MergeWf(a, b, h, m, last);
      KidsOneWf(MergeTrees(a, b), h, m, last);
  }

  lemma PairWf(a: Tree, b: Tree, r: Repair, h: nat, m: nat, right: bool)
    requires r.BorrowLeft? || r.BorrowRight?
    requires Wf(Mended(r, a, b)[0], h, m, m, false) && Wf(Mended(r, a, b)[1], h, m, m, right)
    ensures KidsWf(Mended(r, a, b), h, m, right)
  {
  }

  lemma FixWf(t: Tree, i: nat, h: nat, m: nat, lo: int, right: bool)
    requires 2 <= m && t.Inner? && 2 <= |t.kids| && 0 < h
    requires t.open ==> right
    requires lo <= Count(t) < 2 * m
    requires ShortAt(t.kids, i, h - 1, m, right)
    ensures Wf(Fix(t.pg, t.kids, t.open, i, m), h, lo - 1, m, right)
  {
    var kids := t.kids;
    var r := RepairOf(kids, i, m);
    var j := Pivot(r, i);
    var mid := Mended(r, kids[j], kids[j + 1]);
    MendedWf(kids, i, h - 1, m, right);
    forall x | 0 <= x < j ensures Wf(kids[..j][x], h - 1, m, m, false) {
      assert kids[..j][x] == kids[x];
    }
    if j + 2 == |kids| {
      KidsAppendWf(kids[..j], mid, h - 1, m, right);
      assert kids[..j] + mid + kids[j + 2..] == kids[..j] + mid;
    } else {
      var rest := kids[j + 2..];
      forall x | 0 <= x < |rest| ensures Wf(rest[x], h - 1, m, m, right && x == |rest| - 1) {
        assert rest[x] == kids[j + 2 + x];
      }
      KidsAppendWf(kids[..j], mid, h - 1, m, false);
      KidsAppendWf(kids[..j] + mid, rest, h - 1, m, right);
    }
  }

  // ---------------------------------------------------------------- removal below a node

  lemma {:induction false} RemWf(t: Tree, h: nat, k: int, m: nat, lo: int, right: bool)
    requires 2 <= m && Shape(t, h) && Wf(t, h, lo, m, right)
    ensures var u := Rem(t, h, k, m);
            && Wf(u, h, lo - 1, m, right)
            && u.pg == t.pg && SameKind(u, t)
    decreases t
  {
    hide ChildIndex, RepairOf, Pivot, Mended;
    if t.Inner? {
      var i := ChildIndex(t.kids, k);
      RemWf(t.kids[i], h - 1, k, m, m, right && i == |t.kids| - 1);
      RemWfStep(t, h, i, Rem(t.kids[i], h - 1, k, m), m, lo, right);
    }
  }

  lemma RemWfStep(t: Tree, h: nat, i: nat, c: Tree, m: nat, lo: int, right: bool)
    requires 2 <= m && t.Inner? && 2 <= |t.kids| && Wf(t, h, lo, m, right) && i < |t.kids|
    requires Wf(c, h - 1, m - 1, m, right && i == |t.kids| - 1)
    ensures Count(c) < m ==> Wf(Fix(t.pg, t.kids[i := c], t.open, i, m), h, lo - 1, m, right)
    ensures Count(c) >= m ==> Wf(Inner(t.pg, t.kids[i := c], t.open), h, lo, m, right)
  {
    var ks := t.kids[i := c];
    if Count(c) < m {
      FixWf(Inner(t.pg, ks, t.open), i, h, m, lo, right);
    } else {
      assert Wf(c, h - 1, m, m, right && i == |t.kids| - 1);
    }
  }

  lemma KidsSameKind(kids: seq<Tree>, h: nat)
    requires forall i :: 0 <= i < |kids| ==> Shape(kids[i], h)
    ensures OneKind(kids)
  {
  }

  lemma {:induction false} RemPages(t: Tree, h: nat, k: int, m: nat, lo: int, right: bool)
    requires 2 <= m && Shape(t, h) && Wf(t, h, lo, m, right) && Distinct(t)
    ensures var u := Rem(t, h, k, m); Pages(u) <= Pages(t) && Distinct(u)
    decreases t
  {
    hide DistinctF, EntriesF, PagesF, Fix, SameKind, ChildIndex;
    if t.Inner? {
      var i := ChildIndex(t.kids, k);
      AtChild(t.kids, i);
      RemPages(t.kids[i], h - 1, k, m, m, right && i == |t.kids| - 1);
      RemWf(t.kids[i], h - 1, k, m, m, right && i == |t.kids| - 1);
      KidsSameKind(t.kids, h - 1);
      RemKeepsStep(t, i, Rem(t.kids[i], h - 1, k, m), m);
    }
  }

  lemma {:induction false} RemEntries(t: Tree, h: nat, k: int, m: nat, lo: int, right: bool)
    requires 2 <= m && Shape(t, h) && Wf(t, h, lo, m, right) && Distinct(t)
    requires Sorted(Entries(t)) && Has(Entries(t), k)
    ensures Entries(Rem(t, h, k, m)) == RemoveCell(Entries(t), k)
    decreases t
  {
    hide DistinctF, EntriesF, PagesF, Fix, ChildIndex, RemoveCell, Sorted, Has, Pages, Rank;
    if t.Inner? {
      var i := ChildIndex(t.kids, k);
      KidsNonEmpty(t.kids, h - 1, m, right);
      AtChild(t.kids, i);
      RemPages(t.kids[i], h - 1, k, m, m, right && i == |t.kids| - 1);
      RemWf(t.kids[i], h - 1, k, m, m, right && i == |t.kids| - 1);
      KidsSameKind(t.kids, h - 1);
      RemKeepsStep(t, i, Rem(t.kids[i], h - 1, k, m), m);
      RouteRemove(t.kids, k);
      RemEntries(t.kids[i], h - 1, k, m, m, right && i == |t.kids| - 1);
    }
  }

  lemma HasMeansRank(s: seq<Cell>, k: int)
    requires Sorted(s) && Has(s, k)
    ensures Rank(s, k) < |s|
  {
    HasRank(s, k);
  }

  lemma RouteRemove(kids: seq<Tree>, k: int)
    requires kids != [] && Sorted(EntriesF(kids)) && Has(EntriesF(kids), k)
    requires forall i :: 0 <= i < |kids| ==> Entries(kids[i]) != []
    ensures var i := ChildIndex(kids, k);
            && Sorted(Entries(kids[i])) && Has(Entries(kids[i]), k)
            && RemoveCell(EntriesF(kids), k) == EntriesF(kids[..i]) + RemoveCell(Entries(kids[i]), k) + EntriesF(kids[i + 1..])
  {
    hide Entries, EntriesF, Pages, PagesF, ChildIndex, Rank, RemoveCell, InsertCell, Max, Below;
    var i := ChildIndex(kids, k);
    RouteHas(kids, k);
    Route(kids, k);
    HasMeansRank(Entries(kids[i]), k);
    RemoveInMiddle(EntriesF(kids[..i]), Entries(kids[i]), EntriesF(kids[i + 1..]), k);
  }

  lemma RemKeepsStep(t: Tree, i: nat, c: Tree, m: nat)
    requires t.Inner? && 2 <= |t.kids| && i < |t.kids| && Distinct(t)
    requires Pages(c) <= Pages(t.kids[i]) && Distinct(c) && SameKind(c, t.kids[i])
    requires OneKind(t.kids)
    ensures var ks := t.kids[i := c];
            var u := if Count(c) < m then Fix(t.pg, ks, t.open, i, m) else Inner(t.pg, ks, t.open);
            && Entries(u) == EntriesF(t.kids[..i]) + Entries(c) + EntriesF(t.kids[i + 1..])
            && Pages(u) <= Pages(t) && Distinct(u)
  {
    var ks := t.kids[i := c];
    AtChild(t.kids, i);
    AtChild(ks, i);
    assert ks[..i] == t.kids[..i] && ks[i + 1..] == t.kids[i + 1..];
    if Count(c) < m {
      FixKeeps(Inner(t.pg, ks, t.open), i, m);
    }
  }

  // ---------------------------------------------------------------- the whole tree

  /**
   Removing a present key from a well-formed tree gives a well-formed tree whose map is the old one
   minus that key, on a subset of the old pages.
   */
  lemma RemRootCorrect(t: Tree, h: nat, k: int, m: nat)
    requires 2 <= m && Shape(t, h) && WfRoot(t, h, m) && Has(Entries(t), k)
    ensures var u := RemRoot(t, h, k, m);
            && WfRoot(u, RemHeight(t, h, k, m), m)
            && u.pg == t.pg
            && Entries(u) == RemoveCell(Entries(t), k)
            && AsMap(Entries(u)) == AsMap(Entries(t)) - {k}
            && Pages(u) <= Pages(t)
  {
    RemWf(t, h, k, m, 0, true);
    RemPages(t, h, k, m, 0, true);
    RemEntries(t, h, k, m, 0, true);
    RemoveCellMeaning(Entries(t), k);
    var u := Rem(t, h, k, m);
    WfAtLeast0(u, h, m, true);
    if u.Inner? && |u.kids| == 1 {
      ShrinkCorrect(u, h, m);
    }
  }

  lemma WfAtLeast0(t: Tree, h: nat, m: nat, right: bool)
    requires Wf(t, h, -1, m, right)
    ensures Wf(t, h, 0, m, right)
  {
  }

  lemma ShrinkCorrect(u: Tree, h: nat, m: nat)
    requires 2 <= m && u.Inner? && |u.kids| == 1 && Wf(u, h, 0, m, true) && Distinct(u)
    ensures var w := Shrink(u);
            && Wf(w, h - 1, 0, m, true) && (w.Inner? ==> 2 <= |w.kids|)
            && Entries(w) == Entries(u) && Pages(w) <= Pages(u) && Distinct(w)
  {
    EntriesOne(u.kids[0]);
    assert u.kids == [u.kids[0]];
    assert Wf(u.kids[0], h - 1, m, m, true);
  }
}
