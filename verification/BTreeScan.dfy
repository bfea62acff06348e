/** The leaves of a tree as a chain of pages, and walking along it. */
module BTreeScan {
  import opened Values
  import opened Cells
  import opened BTreeSpec
  import opened BTreeLayout
  import opened BTreeSearch

  /** The cells on a list of pages, one page after the other. */
  function CellsOn(P: Store, ps: seq<nat>): seq<Cell>
    requires forall i :: 0 <= i < |ps| ==> ps[i] in P
  {
    if ps == [] then [] else P[ps[0]].cells + CellsOn(P, ps[1..])
  }

  ghost predicate AllIn(P: Store, ps: seq<nat>) {
    forall i :: 0 <= i < |ps| ==> ps[i] in P
  }

  lemma {:induction false} CellsOnAppend(P: Store, a: seq<nat>, b: seq<nat>)
    requires AllIn(P, a) && AllIn(P, b)
    ensures AllIn(P, a + b) && CellsOn(P, a + b) == CellsOn(P, a) + CellsOn(P, b)
    decreases a
  {
    if a == [] {
      assert a + b == b;
    } else {
      assert (a + b)[0] == a[0] && (a + b)[1..] == a[1..] + b;
      CellsOnAppend(P, a[1..], b);
    }
  }

  /** A leaf page with something on it. */
  ghost predicate FullLeaf(P: Store, p: nat) {
    p in P && P[p].isLeaf && P[p].cells != []
  }

  ghost predicate AllFullLeaves(P: Store, ps: seq<nat>) {
    forall i :: 0 <= i < |ps| ==> FullLeaf(P, ps[i])
  }

  /** The bottom level, read from left to right, holds the entries of the tree in order. */
  lemma {:induction false} BottomLevel(P: Store, t: Tree, h: nat, m: nat, lo: int, right: bool)
    requires Lay(P, t) && Shape(t, h) && Wf(t, h, lo, m, right) && 1 <= m && (h > 0 || 1 <= lo)
    ensures Level(t, h) != [] && AllFullLeaves(P, Level(t, h))
    ensures AllIn(P, Level(t, h)) && CellsOn(P, Level(t, h)) == Entries(t)
    decreases t
  {
    hide Exact;
    if t.Inner? {
      BottomLevelF(P, t.kids, h - 1, m, right);
    } else {
      assert [t.pg][1..] == [];
    }
  }

  lemma {:induction false} BottomLevelF(P: Store, ts: seq<Tree>, h: nat, m: nat, right: bool)
    requires LayF(P, ts) && KidsWf(ts, h, m, right) && 1 <= m && forall i :: 0 <= i < |ts| ==> Shape(ts[i], h)
    ensures ts != [] ==> LevelF(ts, h) != []
    ensures AllFullLeaves(P, LevelF(ts, h)) && AllIn(P, LevelF(ts, h)) && CellsOn(P, LevelF(ts, h)) == EntriesF(ts)
    decreases ts
  {
    hide Lay, Wf, Shape;
    if ts != [] {
      BottomLevel(P, ts[0], h, m, m, right && 0 == |ts| - 1);
      KidsWfTail(ts, h, m, right);
      BottomLevelF(P, ts[1..], h, m, right);
      CellsOnAppend(P, Level(ts[0], h), LevelF(ts[1..], h));
    }
  }

  lemma KidsWfTail(ts: seq<Tree>, h: nat, m: nat, right: bool)
    requires ts != [] && KidsWf(ts, h, m, right)
    ensures KidsWf(ts[1..], h, m, right)
  {
    hide Wf;
    var rest := ts[1..];
    forall i | 0 <= i < |rest| ensures Wf(rest[i], h, m, m, right && i == |rest| - 1) {
      assert rest[i] == ts[i + 1];
    }
  }

  /** The leaves of a whole tree; only a root that is a leaf can be empty. */
  lemma Leaves(P: Store, t: Tree, h: nat, m: nat)
    requires Stored(P, t, h, m)
    ensures Level(t, h) != [] && AllIn(P, Level(t, h)) && CellsOn(P, Level(t, h)) == Entries(t)
    ensures if t.Leaf? then Level(t, h) == [t.pg] else AllFullLeaves(P, Level(t, h))
  {
    hide Exact, Wf;
    if t.Leaf? {
      assert [t.pg][1..] == [];
    } else {
      BottomLevel(P, t, h, m, 0, true);
    }
  }

  /** Entry x of the whole run lies on page j of the chain at index c. */
  lemma EntryAt(P: Store, ps: seq<nat>, j: nat, c: nat)
    requires AllIn(P, ps) && j < |ps| && c < |P[ps[j]].cells|
    ensures AllIn(P, ps[..j]) && AllIn(P, ps[..j + 1])
    ensures var x := |CellsOn(P, ps[..j])| + c;
            x < |CellsOn(P, ps)| && CellsOn(P, ps)[x] == P[ps[j]].cells[c]
    ensures |CellsOn(P, ps[..j + 1])| == |CellsOn(P, ps[..j])| + |P[ps[j]].cells|
  {
    SplitAt(P, ps, j);
  }

  lemma SplitAt(P: Store, ps: seq<nat>, j: nat)
    requires AllIn(P, ps) && j < |ps|
    ensures AllIn(P, ps[..j]) && AllIn(P, ps[..j + 1]) && AllIn(P, ps[j + 1..])
    ensures CellsOn(P, ps) == CellsOn(P, ps[..j]) + P[ps[j]].cells + CellsOn(P, ps[j + 1..])
    ensures CellsOn(P, ps[..j + 1]) == CellsOn(P, ps[..j]) + P[ps[j]].cells
  {
    hide CellsOn;
    assert ps == (ps[..j] + [ps[j]]) + ps[j + 1..];
    assert ps[..j + 1] == ps[..j] + [ps[j]];
    CellsOnAppend(P, ps[..j], [ps[j]]);
    CellsOnAppend(P, ps[..j] + [ps[j]], ps[j + 1..]);
    CellsOnOne(P, ps[j]);
  }

  lemma CellsOnOne(P: Store, p: nat)
    requires p in P
    ensures CellsOn(P, [p]) == P[p].cells
  {
    assert [p][1..] == [];
  }

  // ---------------------------------------------------------------- the two ends

  function Leftmost(t: Tree, d: nat): Tree
    requires LeftDeep(t, d)
  {
    if d == 0 then t else Leftmost(t.kids[0], d - 1)
  }

  predicate LeftDeep(t: Tree, d: nat) {
    d == 0 || (t.Inner? && t.kids != [] && LeftDeep(t.kids[0], d - 1))
  }

  function Rightmost(t: Tree, d: nat): Tree
    requires RightDeep(t, d)
  {
    if d == 0 then t else Rightmost(t.kids[|t.kids| - 1], d - 1)
  }

  predicate RightDeep(t: Tree, d: nat) {
    d == 0 || (t.Inner? && t.kids != [] && RightDeep(t.kids[|t.kids| - 1], d - 1))
  }

  lemma {:induction false} LeftStep(t: Tree, h: nat, d: nat)
    requires Shape(t, h) && d <= h
    ensures LeftDeep(t, d) && Shape(Leftmost(t, d), h - d)
    ensures d < h ==> LeftDeep(t, d + 1) && Leftmost(t, d).Inner? && Leftmost(t, d).kids != [] && Leftmost(t, d + 1) == Leftmost(t, d).kids[0]
    decreases d
  {
    if d > 0 { LeftStep(t.kids[0], h - 1, d - 1); }
  }

  lemma {:induction false} RightStepDown(t: Tree, h: nat, d: nat)
    requires Shape(t, h) && d <= h
    ensures RightDeep(t, d) && Shape(Rightmost(t, d), h - d)
    ensures d < h ==> var s := Rightmost(t, d); RightDeep(t, d + 1) && s.Inner? && s.kids != [] && Rightmost(t, d + 1) == s.kids[|s.kids| - 1]
    decreases d
  {
    if d > 0 { RightStepDown(t.kids[|t.kids| - 1], h - 1, d - 1); }
  }

  lemma {:induction false} LaySpine(P: Store, t: Tree, d: nat)
    requires Lay(P, t)
    ensures LeftDeep(t, d) ==> Lay(P, Leftmost(t, d))
    ensures RightDeep(t, d) ==> Lay(P, Rightmost(t, d))
    decreases d
  {
    if d > 0 && t.Inner? && t.kids != [] {
      LaySpine(P, t.kids[0], d - 1);
      LaySpine(P, t.kids[|t.kids| - 1], d - 1);
    }
  }

  /** The leftmost and the rightmost leaf are the ends of the bottom level. */
  lemma {:induction false} LevelEnds(t: Tree, h: nat)
    requires Shape(t, h)
    ensures LeftDeep(t, h) && RightDeep(t, h) && Level(t, h) != []
    ensures Level(t, h)[0] == Leftmost(t, h).pg && Level(t, h)[|Level(t, h)| - 1] == Rightmost(t, h).pg
    decreases t
  {
    if t.Inner? {
      var n := |t.kids| - 1;
      LevelEnds(t.kids[0], h - 1);
      LevelEnds(t.kids[n], h - 1);
      assert t.kids == t.kids[..n] + [t.kids[n]];
      LevelAppend(t.kids[..n], [t.kids[n]], h - 1);
      LevelOne(t.kids[n], h - 1);
    }
  }

  /** What a page on the left or right spine says. */
  lemma SpinePages(P: Store, t: Tree, h: nat, m: nat, d: nat)
    requires Stored(P, t, h, m) && d <= h
    ensures LeftDeep(t, d) && RightDeep(t, d)
    ensures var s := Leftmost(t, d);
            && s.pg in P && (P[s.pg].isLeaf <==> d == h)
            && (d < h ==> LeftDeep(t, d + 1) && P[s.pg].kids != [] && P[s.pg].kids[0] == Leftmost(t, d + 1).pg)
    ensures var s := Rightmost(t, d);
            && s.pg in P && (P[s.pg].isLeaf <==> d == h)
            && (d < h ==> RightDeep(t, d + 1) && P[s.pg].kids != [] && P[s.pg].kids[|P[s.pg].kids| - 1] == Rightmost(t, d + 1).pg)
  {
    hide Wf, Exact;
    LeftStep(t, h, d);
    RightStepDown(t, h, d);
    LaySpine(P, t, d);
  }

  // ---------------------------------------------------------------- walking the chain

  /** ps is a chain of leaves in the store; only a single leaf may be empty. */
  ghost predicate LeafChain(P: Store, ps: seq<nat>) {
    Chain(P, ps) && NoDup(ps) && 0 !in ps && AllIn(P, ps) && (|ps| == 1 || AllFullLeaves(P, ps))
  }

  lemma LeavesChained(P: Store, t: Tree, h: nat, m: nat)
    requires Stored(P, t, h, m) && Linked(P, [t]) && 0 !in Pages(t)
    ensures LeafChain(P, Level(t, h)) && Level(t, h) != []
  {
    hide Lay, Wf, Chain;
    Leaves(P, t, h, m);
    LevelNoDup(t, h);
    LevelOne(t, h);
    assert Chain(P, LevelF([t], h));
    if 0 in Level(t, h) { LevelPages(t, h, 0); }
  }

  /** The page to the right of page j of the chain. */
  lemma NextLeaf(P: Store, ps: seq<nat>, j: nat)
    requires LeafChain(P, ps) && j < |ps|
    ensures ps[j] in P
    ensures if j + 1 < |ps| then P[ps[j]].right == ps[j + 1] != 0 && FullLeaf(P, ps[j + 1]) else P[ps[j]].right == 0
  {
    assert LinkedAt(P, ps, j);
    if j + 1 < |ps| {
      assert FullLeaf(P, ps[j + 1]);
      assert ps[j + 1] in ps;
    }
  }

  lemma LastLeaf(P: Store, ps: seq<nat>, j: nat)
    requires AllIn(P, ps) && j + 1 == |ps|
    ensures AllIn(P, ps[..j]) && |CellsOn(P, ps)| == |CellsOn(P, ps[..j])| + |P[ps[j]].cells|
  {
    hide CellsOn;
    SplitAt(P, ps, j);
    assert ps[..j + 1] == ps;
  }

  lemma FirstLeaf(P: Store, ps: seq<nat>)
    requires LeafChain(P, ps) && ps != []
    ensures CellsOn(P, ps) == [] <==> P[ps[0]].cells == []
  {
    if |ps| == 1 {
      assert CellsOn(P, ps[1..]) == [];
    } else {
      assert FullLeaf(P, ps[0]);
    }
  }

  /** The last cell of the run is the last one on the last page. */
  lemma LastLeafEntry(P: Store, ps: seq<nat>)
    requires LeafChain(P, ps) && ps != []
    ensures var l := P[ps[|ps| - 1]].cells; var all := CellsOn(P, ps);
            && (all == [] <==> l == [])
            && (all != [] ==> all[|all| - 1] == l[|l| - 1])
  {
    hide CellsOn;
    var j := |ps| - 1;
    FirstLeaf(P, ps);
    LastLeaf(P, ps, j);
    if P[ps[j]].cells != [] {
      EntryAt(P, ps, j, |P[ps[j]].cells| - 1);
    } else {
      assert |ps| > 1 ==> FullLeaf(P, ps[j]);
    }
  }

  lemma StoredShape(P: Store, t: Tree, h: nat, m: nat)
    requires Stored(P, t, h, m)
    ensures Shape(t, h)
  {
  }
}
