/** The schema table on page 1: one fresh cursor for every operation. */
module Schema {
  import opened Values
  import opened Cells
  import opened BTreeSpec
  import opened BTreeLayout
  import opened BTreeSearch
  import opened BTreeKept
  import opened BTreeInsertSteps
  import opened BTreeRemoveSteps
  import opened BTreeEngine
  import opened FreeList
  import Inserting = BTreeInsertProof
  import Removing = BTreeRemoveProof

  datatype Op = Put(key: int, row: Record) | Drop(key: int) | Get(key: int) | Commit

  datatype Answer = Done(ok: bool) | Found(row: Option<Record>)

  /** What one operation does to a plain map. */
  function ApplyOp(m: map<int, Record>, op: Op): (map<int, Record>, Answer) {
    match op
    case Put(k, v) => if k in m then (m, Done(false)) else (m[k := v], Done(true))
    case Drop(k) => if k in m then (m - {k}, Done(true)) else (m, Done(false))
    case Get(k) => (m, Found(if k in m then Some(m[k]) else None))
    case Commit => (m, Done(true))
  }

  function ApplyOps(m: map<int, Record>, ops: seq<Op>): (map<int, Record>, seq<Answer>)
    decreases ops
  {
    if ops == [] then (m, [])
    else
      var (m1, a) := ApplyOp(m, ops[0]);
      var (m2, rest) := ApplyOps(m1, ops[1..]);
      (m2, [a] + rest)
  }

  lemma {:induction false} ApplyOpsSnoc(m: map<int, Record>, ops: seq<Op>, op: Op)
    ensures var (m1, as1) := ApplyOps(m, ops); var (m2, a) := ApplyOp(m1, op);
            ApplyOps(m, ops + [op]) == (m2, as1 + [a])
    decreases ops
  {
    if ops == [] {
      assert ops + [op] == [op] && [op][1..] == [];
      assert ApplyOps(ApplyOp(m, op).0, []) == (ApplyOp(m, op).0, []);
      assert [ApplyOp(m, op).1] + [] == [] + [ApplyOp(m, op).1];
    } else {
      assert (ops + [op])[0] == ops[0] && (ops + [op])[1..] == ops[1..] + [op];
      var (m1, a) := ApplyOp(m, ops[0]);
      ApplyOpsSnoc(m1, ops[1..], op);
      var (m2, rest) := ApplyOps(m1, ops[1..]);
      assert [a] + (rest + [ApplyOp(m2, op).1]) == ([a] + rest) + [ApplyOp(m2, op).1];
    }
  }

  /** Every insert stays below the key top, which is never dropped. */
  ghost predicate Bounded(op: Op, top: int) {
    match op
    case Put(k, _) => k <= top
    case Drop(k) => k != top
    case Get(_) => true
    case Commit => true
  }

  lemma TopAllows(t: Tree, top: int, k: int)
    requires Sorted(Entries(t)) && top in AsMap(Entries(t)) && k <= top
    ensures Has(Entries(t), k) || CanInsert(t, k)
  {
    hide Entries, AsMap;
    AsMapHas(Entries(t), top);
    LastAtLeast(Entries(t), top);
    if k == top {
      AsMapHas(Entries(t), k);
    }
  }

  lemma LastAtLeast(e: seq<Cell>, k: int)
    requires Sorted(e) && Has(e, k)
    ensures e != [] && k <= e[|e| - 1].key
  {
    var i :| 0 <= i < |e| && e[i].key == k;
  }

  class SchemaManager {
    const btree: BTree
    ghost var tree: Tree
    ghost var height: nat

    /** Takes over the tree t that is kept on page 1 of the store. */
    constructor (btree: BTree, ghost t: Tree, ghost h: nat)
      requires btree.Holds(t, h) && t.pg == 1
      ensures this.btree == btree && tree == t && height == h && Valid()
    {
      this.btree := btree;
      tree, height := t, h;
    }

    ghost predicate Valid()
      reads this, btree
    {
      btree.Holds(tree, height) && tree.pg == 1
    }

    /** The table as a map from keys to rows. */
    ghost function Rows(): map<int, Record>
      requires Sorted(Entries(tree))
      reads this
    {
      AsMap(Entries(tree))
    }

    method NewCursor() returns (c: BTreeCursor)
      requires Valid()
      ensures fresh(c) && c.btree == btree && c.path == []
      ensures fresh(c.node) && c.node.OnPage(btree.pages, 1)
    {
      hide Kept;
      OnRoot();
      c := new BTreeCursor(btree, 1);
    }

    lemma OnRoot()
      requires Valid()
      ensures 1 in btree.pages && Sorted(Entries(tree))
    {
    }

    method CreateTable(key: int, row: Record) returns (ok: bool)
      requires Valid() && (Has(Entries(tree), key) || CanInsert(tree, key))
      modifies this, btree
      ensures Valid() && Sorted(old(Entries(tree))) && Sorted(Entries(tree))
      ensures (Rows(), Done(ok)) == ApplyOp(old(AsMap(Entries(tree))), Put(key, row))
      ensures Conserved(old(btree.Free()), old(tree), btree.Free(), tree)
    {
      hide Kept, CanInsert, Stored, Linked, Spare, FreeOk, Sorted, Has, AsMap, InsRoot, InsHeight, AfterInsert, Conserved;
      OnRoot();
      ConservedSelf(btree.Free(), tree);
      ghost var t, h, P, f := tree, height, btree.pages, btree.Free();
      AsMapHas(Entries(t), key);
      var cursor := NewCursor();
      ok := cursor.Insert(key, row, t, h);
      if ok {
        ghost var w := InsertWorld(P, f, t, h, key, row, btree.m);
        InsertedRows(w, f, btree.pages, btree.Free());
        tree, height := InsRoot(t, h, key, row, btree.m, w.alloc), InsHeight(t, h, key, row, btree.m, w.alloc);
        OnRoot();
      }
    }

    method GetTable(key: int) returns (r: Option<Record>)
      requires Valid()
      ensures Sorted(Entries(tree))
      ensures (Rows(), Found(r)) == ApplyOp(Rows(), Get(key))
    {
      hide Kept, KeptBut;
      OnRoot();
      KeptNone(btree.pages, btree.Free(), tree, height, btree.m);
      var cursor := NewCursor();
      r := cursor.GetVal(key, tree, height, None);
    }

    method TableExists(key: int) returns (r: bool)
      requires Valid()
      ensures Sorted(Entries(tree)) && (r <==> key in Rows())
    {
      hide Kept, KeptBut;
      OnRoot();
      KeptNone(btree.pages, btree.Free(), tree, height, btree.m);
      var cursor := NewCursor();
      var v := cursor.GetVal(key, tree, height, None);
      r := v.Some?;
    }

    method DropTable(key: int) returns (ok: bool)
      requires Valid()
      modifies this, btree
      ensures Valid() && Sorted(old(Entries(tree))) && Sorted(Entries(tree))
      ensures (Rows(), Done(ok)) == ApplyOp(old(AsMap(Entries(tree))), Drop(key))
      ensures Conserved(old(btree.Free()), old(tree), btree.Free(), tree)
    {
      hide Kept, Stored, Linked, Spare, FreeOk, Sorted, Has, AsMap, RemRoot, RemHeight, AfterRemove, Conserved;
      OnRoot();
      ConservedSelf(btree.Free(), tree);
      ghost var t, h, P, f := tree, height, btree.pages, btree.Free();
      AsMapHas(Entries(t), key);
      var cursor := NewCursor();
      ok := cursor.Remove(key, t, h);
      if ok {
        ghost var w := Removal(P, f, t, h, key, btree.m);
        RemovedRows(w, btree.pages, btree.Free());
        tree, height := RemRoot(t, h, key, btree.m), RemHeight(t, h, key, btree.m);
        OnRoot();
      }
    }

    /** Ends the transaction: the freed pages go to the chain in the file. */
    method EndTransaction()
      requires Valid()
      modifies btree
      ensures Valid() && btree.newFree == []
      ensures Conserved(old(btree.Free()), tree, btree.Free(), tree)
    {
      hide Kept, FreeOk, Spare;
      btree.CommitFree(tree, height);
    }

    method ListSchema() returns (rows: seq<Cell>)
      requires Valid()
      ensures rows == Entries(tree) && Sorted(rows) && AsMap(rows) == Rows()
    {
      hide Kept;
      OnRoot();
      var cursor := NewCursor();
      rows := cursor.ListEntries(tree, height);
    }

    /**
     A whole run, a fresh cursor for each operation and every insert below a key that stays: all answers and the
     table at the end are those of a plain map, and the tree is kept in every state in between. Over the whole run,
     commits included, no page is lost: each is in the tree, newly freed or on the chain of free pages, and the chain
     stays acyclic, ends at 0 and has the recorded length.
     */
    method Run(ops: seq<Op>, top: int) returns (answers: seq<Answer>)
      requires Valid() && Sorted(Entries(tree)) && top in Rows()
      requires forall i :: 0 <= i < |ops| ==> Bounded(ops[i], top)
      modifies this, btree
      ensures Valid() && Sorted(old(Entries(tree))) && Sorted(Entries(tree)) && top in Rows()
      ensures (Rows(), answers) == ApplyOps(old(AsMap(Entries(tree))), ops)
      ensures Conserved(old(btree.Free()), old(tree), btree.Free(), tree) && FreeOk(btree.Free())
    {
      hide Kept, CanInsert, Conserved, ApplyOps;
      answers := [];
      ghost var m := Rows();
      ghost var f, t := btree.Free(), tree;
      ConservedSelf(f, t);
      NoOps(m);
      for i := 0 to |ops|
        invariant Valid() && Sorted(Entries(tree)) && top in Rows()
        invariant (Rows(), answers) == ApplyOps(m, ops[..i]) && Conserved(f, t, btree.Free(), tree)
      {
        assert ops[..i + 1] == ops[..i] + [ops[i]];
        ApplyOpsSnoc(m, ops[..i], ops[i]);
        ghost var f1, t1 := btree.Free(), tree;
        var answer := Perform(ops[i], top);
        ConservedOn(f, t, f1, t1, btree.Free(), tree);
        answers := answers + [answer];
      }
      assert ops[..|ops|] == ops;
      FreePagesOk();
    }

    lemma FreePagesOk()
      requires Valid()
      ensures FreeOk(btree.Free())
    {
    }

    /** One operation of a run. */
    method Perform(op: Op, top: int) returns (answer: Answer)
      requires Valid() && Sorted(Entries(tree)) && top in Rows() && Bounded(op, top)
      modifies this, btree
      ensures Valid() && Sorted(Entries(tree)) && Sorted(old(Entries(tree))) && top in Rows()
      ensures (Rows(), answer) == ApplyOp(old(AsMap(Entries(tree))), op)
      ensures Conserved(old(btree.Free()), old(tree), btree.Free(), tree)
    {
      hide Kept, CanInsert, Conserved, Sorted, Entries, FreeOk;
      match op {
        case Put(k, v) =>
          TopAllows(tree, top, k);
          var ok := CreateTable(k, v);
          answer := Done(ok);
        case Drop(k) =>
          var ok := DropTable(k);
          answer := Done(ok);
        case Get(k) =>
          ConservedSelf(btree.Free(), tree);
          var r := GetTable(k);
          answer := Found(r);
        case Commit =>
          EndTransaction();
          answer := Done(true);
      }
    }
  }

  lemma NoOps(m: map<int, Record>)
    ensures ApplyOps(m, []) == (m, [])
  {
  }

  lemma ConservedOn(f: FreeState, t: Tree, f1: FreeState, t1: Tree, f2: FreeState, t2: Tree)
    requires Conserved(f, t, f1, t1) && Conserved(f1, t1, f2, t2)
    ensures Conserved(f, t, f2, t2)
  {
    hide Spare, Pages, Upto;
    var a, b, c := Upto(f.total), Upto(f1.total), Upto(f2.total);
    assert a <= b <= c;
    assert (c - b) + (b - a) == c - a;
    assert Pages(t2) + Spare(f2) == (Pages(t) + Spare(f) + (b - a)) + (c - b);
    assert (b - a) + (c - b) == c - a;
  }

  lemma ConservedSelf(f: FreeState, t: Tree)
    ensures Conserved(f, t, f, t)
  {
    hide Spare, Upto;
    assert Upto(f.total) - Upto(f.total) == {};
  }

  lemma InsertedRows(w: World, f: FreeState, Q: Store, g: FreeState)
    requires AfterInsert(w, f, Q, g) && Kept(w.P0, f, w.t, w.h, w.m) && !Has(Entries(w.t), w.k) && w.alloc == TakeN(f, w.h + 2)
    requires CanInsert(w.t, w.k)
    ensures Shape(w.t, w.h) && |w.alloc| == w.h + 2
    ensures var u := InsRoot(w.t, w.h, w.k, w.v, w.m, w.alloc);
            && Sorted(Entries(w.t)) && Sorted(Entries(u)) && AsMap(Entries(u)) == AsMap(Entries(w.t))[w.k := w.v]
            && u.pg == w.t.pg && Kept(Q, g, u, InsHeight(w.t, w.h, w.k, w.v, w.m, w.alloc), w.m) && Conserved(f, w.t, g, u)
  {
    hide Wf, Lay, LayBut, Linked, InsRoot, InsHeight, Conserved, OthersSame;
    KeptNone(Q, g, InsRoot(w.t, w.h, w.k, w.v, w.m, w.alloc), InsHeight(w.t, w.h, w.k, w.v, w.m, w.alloc), w.m);
    TakeNOk(f, w.h + 2);
    forall p | p in Members(w.alloc) ensures p !in Pages(w.t) { assert p in w.alloc; }
    Inserting.InsRootCorrect(w.t, w.h, w.k, w.v, w.m, w.alloc);
  }

  lemma RemovedRows(w: Removal, Q: Store, g: FreeState)
    requires AfterRemove(w, Q, g) && Kept(w.P0, w.f0, w.t, w.h, w.m) && Has(Entries(w.t), w.k)
    ensures Shape(w.t, w.h)
    ensures var u := RemRoot(w.t, w.h, w.k, w.m);
            && Sorted(Entries(w.t)) && Sorted(Entries(u)) && AsMap(Entries(u)) == AsMap(Entries(w.t)) - {w.k}
            && u.pg == w.t.pg && Kept(Q, g, u, RemHeight(w.t, w.h, w.k, w.m), w.m) && Conserved(w.f0, w.t, g, u)
  {
    hide Wf, Lay, Linked, RemRoot, RemHeight, Conserved, OthersSame;
    Removing.RemRootCorrect(w.t, w.h, w.k, w.m);
  }
}
