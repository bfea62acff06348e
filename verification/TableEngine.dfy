/** The virtual machine on B-tree cursors: every operation does to the stored trees what it says about sequences of rows. */
module TableEngine {
  import opened Values
  import opened Cells
  import opened SqlSyntax
  import opened Evaluate
  import opened Machine
  import opened RecordCodec
  import opened BTreeSpec
  import opened BTreeLayout
  import opened FreeList
  import opened BTreeSearch
  import opened BTreeKept
  import opened BTreeScan
  import opened BTreeUpdate
  import opened BTreeRepair
  import opened UpdateMachine
  import opened ProgramChecks
  import opened BTreeEngine

  /** A stored table: its tree and the height of it. */
  datatype Table = Table(t: Tree, h: nat)

  /** The tables lie in the store, each on pages of its own and apart from the tree on page 1. */
  ghost predicate TablesKept(P: Store, f: FreeState, m: nat, tables: map<nat, Table>, sys: Table) {
    && Kept(P, f, sys.t, sys.h, m) && sys.t.pg == 1
    && (forall r :: r in tables ==> TableKept(P, f, m, tables[r], r) && Pages(tables[r].t) !! Pages(sys.t))
    && (forall r, q :: r in tables && q in tables && r != q ==> Pages(tables[r].t) !! Pages(tables[q].t))
  }

  ghost predicate TableKept(P: Store, f: FreeState, m: nat, table: Table, root: nat) {
    table.t.pg == root && Kept(P, f, table.t, table.h, m)
  }

  /** The cells of every table. */
  ghost function HeapOf(tables: map<nat, Table>): Heap {
    map r | r in tables :: Entries(tables[r].t)
  }

  /** Cursor k is where cur says it is, on some leaf of its table. */
  ghost predicate CursorIs(k: BTreeCursor, btree: BTree, cur: Cursor, tables: map<nat, Table>)
    reads k, k.node, btree`pages
  {
    && k.btree == btree && k.path == [] && cur.root in tables
    && var t := tables[cur.root];
       match cur
       case Opened(root) => k.node.OnPage(btree.pages, root)
       case AtRow(root, pos) =>
         if pos < |Entries(t.t)| then exists j: nat :: k.AtEntry(Level(t.t, t.h), j, pos) else pos == |Entries(t.t)| && k.AtEnd(Level(t.t, t.h))
  }

  /** What a cursor reads is the cell the abstract cursor stands at. */
  lemma CursorReads(k: BTreeCursor, btree: BTree, cur: Cursor, tables: map<nat, Table>, f: FreeState, m: nat)
    requires CursorIs(k, btree, cur, tables) && cur.AtRow? && TableKept(btree.pages, f, m, tables[cur.root], cur.root)
    ensures var e := Entries(tables[cur.root].t);
            if cur.pos < |e| then k.cellIdx < |k.node.cells| && k.node.cells[k.cellIdx] == e[cur.pos] else k.cellIdx >= |k.node.cells|
  {
    hide Kept, LeafChain, CellsOn, Level, Entries;
    var t := tables[cur.root];
    HoldsChain(btree.pages, f, t.t, t.h, m);
    if cur.pos < |Entries(t.t)| {
      var j: nat :| k.AtEntry(Level(t.t, t.h), j, cur.pos);
      EntryAt(btree.pages, Level(t.t, t.h), j, k.cellIdx);
    }
  }

  /** Two cursors with nothing in common. */
  ghost predicate Apart(k: BTreeCursor, l: BTreeCursor)
    reads k, l
  {
    k != l && k.node != l.node
  }

  /** The place after row pos of n rows. */
  function NextPlace(root: nat, pos: nat, n: nat): Cursor { AtRow(root, if pos + 1 < n then pos + 1 else n) }

  /** A fresh cursor goes to the first row of its table. */
  method RewindCursor(k: BTreeCursor, btree: BTree, ghost root: nat, ghost tables: map<nat, Table>) returns (found: bool)
    requires CursorIs(k, btree, Opened(root), tables) && TableKept(btree.pages, btree.Free(), btree.m, tables[root], root)
    modifies k`node, k`cellIdx
    ensures CursorIs(k, btree, AtRow(root, 0), tables) && (k.node == old(k.node) || fresh(k.node))
    ensures found <==> Entries(tables[root].t) != []
  {
    hide Kept, LeafChain, CellsOn, Level;
    found := k.MoveToFirstEntry(tables[root].t, tables[root].h);
  }

  /** A cursor goes on to the next row, or past the last one. */
  method MoveCursor(k: BTreeCursor, btree: BTree, ghost root: nat, ghost pos: nat, ghost tables: map<nat, Table>) returns (found: bool)
    requires CursorIs(k, btree, AtRow(root, pos), tables) && TableKept(btree.pages, btree.Free(), btree.m, tables[root], root)
    modifies k`node, k`cellIdx
    ensures CursorIs(k, btree, NextPlace(root, pos, |Entries(tables[root].t)|), tables)
    ensures found <==> pos + 1 < |Entries(tables[root].t)|
    ensures k.node == old(k.node) || fresh(k.node)
  {
    hide Kept, LeafChain, CellsOn, Level;
    ghost var t, h := tables[root].t, tables[root].h;
    HoldsChain(btree.pages, btree.Free(), t, h, btree.m);
    ghost var j := 0;
    if pos < |Entries(t)| { j :| k.AtEntry(Level(t, h), j, pos); }
    found, j := k.MoveToNextEntry(Level(t, h), j, pos);
  }

  predicate IsJumpOp(op: Op) { op.IfCursorEnd? || op.IfResultsGe? || op.Goto? || op.IfNot? || op.Halt? }

  predicate IsOpenOp(op: TableOp) { op.OpenWrite? || (op.Base? && (op.op.OpenRead? || op.op.Close?)) }

  predicate IsReadOp(op: TableOp) { op.Rowid? || op.MakeRecord? || (op.Base? && op.op.ReadColumn?) }

  predicate IsValueOp(op: Op) {
    !IsJumpOp(op) && !op.OpenRead? && !op.Close? && !op.Rewind? && !op.MoveNext? && !op.ReadColumn?
  }

  class VMInstance {
    const btree: BTree
    const fc: FloatCodec
    var cursors: map<nat, BTreeCursor>
    var registers: seq<Value>
    var pc: nat
    var flagHalt: bool
    var flagCursorEnd: bool
    var results: seq<Record>
    ghost var tables: map<nat, Table>
    ghost var sys: Table
    ghost var places: map<nat, Cursor>

    constructor (btree: BTree, fc: FloatCodec, ghost tables: map<nat, Table>, ghost sys: Table)
      requires TablesKept(btree.pages, btree.Free(), btree.m, tables, sys)
      ensures this.btree == btree && this.fc == fc && this.tables == tables && cursors == map[] && Valid()
      ensures Snap() == TableState(State(map[], [], false, []), HeapOf(tables))
    {
      this.btree, this.fc, this.tables, this.sys := btree, fc, tables, sys;
      cursors, registers, pc, flagHalt, flagCursorEnd, results := map[], [], 0, false, false, [];
      places := map[];
    }

    ghost function Parts(): set<object>
      reads this`cursors, cursors.Values`node
    {
      {this, btree} + (set c | c in cursors :: cursors[c]) + (set c | c in cursors :: cursors[c].node)
    }

    /** The cursors are where places says, and no two of them share anything. */
    ghost predicate CursorsOk()
      reads this`cursors, this`places, this`tables, btree`pages, cursors.Values, set c | c in cursors :: cursors[c].node
    {
      && cursors.Keys == places.Keys
      && (forall c :: c in cursors ==> CursorIs(cursors[c], btree, places[c], tables))
      && (forall c, d :: c in cursors && d in cursors && c != d ==> Apart(cursors[c], cursors[d]))
    }

    ghost predicate Valid()
      reads this`cursors, this`places, this`tables, this`sys, btree, cursors.Values, set c | c in cursors :: cursors[c].node
    {
      TablesKept(btree.pages, btree.Free(), btree.m, tables, sys) && CursorsOk()
    }

    /** The machine's state as the value-level machine has it. */
    ghost function Snap(): TableState
      reads this`places, this`registers, this`flagCursorEnd, this`results, this`tables
    {
      TableState(State(places, registers, flagCursorEnd, results), HeapOf(tables))
    }

    // ---------------------------------------------------------------- registers

    method WriteRegister(reg: nat, value: Value)
      modifies this`registers
      ensures registers == WriteReg(old(registers), reg, value)
    {
      if |registers| <= reg {
        registers := registers + Nulls(reg + 1 - |registers|);
      }
      registers := registers[reg := value];
    }

    /** Writes a value if there is one. */
    method PutRegister(reg: nat, value: Option<Value>) returns (ok: bool)
      modifies this`registers
      ensures ok <==> value.Some?
      ensures registers == if value.Some? then WriteReg(old(registers), reg, value.value) else old(registers)
    {
      ok := value.Some?;
      if ok { WriteRegister(reg, value.value); }
    }

    method GatherRow(fs: seq<nat>) returns (row: Option<Record>)
      ensures row == Fields(registers, fs)
    {
      var got: Record := [];
      assert fs[0..] == fs;
      PrependEnds(Fields(registers, fs), []);
      for i := 0 to |fs|
        invariant Fields(registers, fs) == Prepend(got, Fields(registers, fs[i..]))
      {
        assert fs[i..][0] == fs[i] && fs[i..][1..] == fs[i + 1..];
        if fs[i] >= |registers| {
          return None;
        }
        PrependMore(got, registers[fs[i]], Fields(registers, fs[i + 1..]));
        got := got + [registers[fs[i]]];
      }
      assert fs[|fs|..] == [];
      PrependEnds(None, got);
      row := Some(got);
    }

    // ---------------------------------------------------------------- operations

    /** What the loop makes of an effect: pc moves only on a jump. */
    ghost predicate Shows(e: TableEffect, was: TableState, wasPc: nat, ok: bool)
      reads this
    {
      match e
      case Refused => !ok && Snap() == was && pc == wasPc && !flagHalt
      case Goes(u) => ok && Snap() == u && pc == wasPc && !flagHalt
      case GoingTo(u, t) => ok && Snap() == u && pc == t && !flagHalt
      case Ended(u) => ok && Snap() == u && pc == wasPc && flagHalt
    }

    /** Loads, arithmetic and results. */
    method ExecuteValue(op: Op) returns (ok: bool)
      requires !flagHalt && IsValueOp(op)
      modifies this`registers, this`results
      ensures forall db: Tables :: Shows(Lift(Exec(op, old(Snap().s), db), HeapOf(tables)), old(Snap()), old(pc), ok)
    {
      hide WriteReg, BinaryValue, NegateValue, LiteralValue, Fields;
      ok := true;
      match op {
        case LoadInteger(d, i) => ok := PutRegister(d, LiteralValue(LitInteger(i)));
        case LoadReal(d, r) => WriteRegister(d, Real(r));
        case LoadText(d, t) => WriteRegister(d, Text(t));
        case LoadNull(d) => WriteRegister(d, Null);
        case Compute(bop, l, r, d) =>
          if l < |registers| && r < |registers| { ok := PutRegister(d, BinaryValue(bop, registers[l], registers[r])); }
          else { ok := false; }
        case NotOp(src, d) =>
          if src < |registers| { WriteRegister(d, BoolValue(!IsTruthy(registers[src]))); } else { ok := false; }
        case NegateOp(src, d) =>
          if src < |registers| { ok := PutRegister(d, NegateValue(registers[src])); } else { ok := false; }
        case ResultRow(fs) =>
          var row := GatherRow(fs);
          if row.Some? { results := results + [row.value]; } else { ok := false; }
      }
    }

    /** Jumps and the end. */
    method ExecuteJump(op: Op) returns (ok: bool)
      requires !flagHalt && IsJumpOp(op)
      modifies this`pc, this`flagHalt
      ensures forall db: Tables :: Shows(Lift(Exec(op, old(Snap().s), db), HeapOf(tables)), old(Snap()), old(pc), ok)
    {
      ok := true;
      match op {
        case IfCursorEnd(t) => if flagCursorEnd { pc := t; }
        case IfResultsGe(limit, t) => if |results| >= limit { pc := t; }
        case Goto(t) => pc := t;
        case IfNot(r, t) =>
          if r >= |registers| { ok := false; }
          else if !IsTruthy(registers[r]) { pc := t; }
        case Halt => flagHalt := true;
      }
    }

    // ---------------------------------------------------------------- cursors

    /** Cursor d is the same object at the same place, and did not change. */
    twostate predicate Stayed(d: nat)
      reads this, cursors.Values, set c | c in cursors :: cursors[c].node
    {
      && d in cursors && d in places && d in old(cursors) && d in old(places)
      && cursors[d] == old(cursors[d]) && places[d] == old(places[d])
      && var k := old(cursors[d]); var n := old(cursors[d].node); unchanged(k) && unchanged(n)
    }

    /** Cursor c is fresh, or the one it was with the node it had or a fresh one. */
    twostate predicate Own(c: nat)
      requires c in cursors
      reads this, cursors.Values
    {
      && (fresh(cursors[c]) || (c in old(cursors) && cursors[c] == old(cursors[c])))
      && (fresh(cursors[c].node) || (c in old(cursors) && cursors[c].node == old(cursors[c].node)))
    }

    /** One cursor was opened, closed or moved, and the others are where they were. */
    twostate lemma CursorMoved(c: nat)
      requires old(CursorsOk()) && tables == old(tables) && btree.pages == old(btree.pages)
      requires cursors.Keys == places.Keys
      requires c in cursors ==> CursorIs(cursors[c], btree, places[c], tables) && Own(c)
      requires forall d :: d in cursors && d != c ==> Stayed(d)
      ensures CursorsOk() && fresh(Parts() - old(Parts()))
    {
      hide CursorIs, CursorsOk, Parts, Stayed, Own;
      CursorsStillOk(c);
      NewParts(c);
    }

    twostate lemma CursorsStillOk(c: nat)
      requires old(CursorsOk()) && tables == old(tables) && btree.pages == old(btree.pages)
      requires cursors.Keys == places.Keys
      requires c in cursors ==> CursorIs(cursors[c], btree, places[c], tables) && Own(c)
      requires forall d :: d in cursors && d != c ==> Stayed(d)
      ensures CursorsOk()
    {
      hide CursorIs;
    }

    twostate lemma NewParts(c: nat)
      requires c in cursors ==> Own(c)
      requires forall d :: d in cursors && d != c ==> Stayed(d)
      ensures fresh(Parts() - old(Parts()))
    {
    }

    method OpenCursor(c: nat, root: nat)
      requires Valid() && root in tables
      modifies this`cursors, this`places
      ensures CursorsOk() && fresh(Parts() - old(Parts()))
      ensures places == old(places)[c := Opened(root)]
    {
      hide Kept, CursorIs, TablesKept;
      TableRoot(btree.pages, btree.Free(), btree.m, tables, sys, root);
      var k := new BTreeCursor(btree, root);
      assert CursorIs(k, btree, Opened(root), tables) by { OpenedIs(k, root); }
      cursors, places := cursors[c := k], places[c := Opened(root)];
      CursorMoved(c);
    }

    lemma OpenedIs(k: BTreeCursor, root: nat)
      requires k.btree == btree && k.path == [] && root in tables && k.node.OnPage(btree.pages, root)
      ensures CursorIs(k, btree, Opened(root), tables)
    {
    }

    method CloseCursor(c: nat) returns (ok: bool)
      requires Valid()
      modifies this`cursors, this`places
      ensures CursorsOk() && fresh(Parts() - old(Parts()))
      ensures ok <==> c in old(places)
      ensures places == if ok then old(places) - {c} else old(places)
    {
      hide Kept, CursorIs, TablesKept;
      ok := c in cursors;
      if !ok { return; }
      cursors, places := cursors - {c}, places - {c};
      CursorMoved(c);
    }

    method Rewind(c: nat) returns (ok: bool)
      requires Valid() && (c in places ==> places[c].Opened?)
      modifies this`places, this`flagCursorEnd, cursors.Values`node, cursors.Values`cellIdx
      ensures CursorsOk() && fresh(Parts() - old(Parts()))
      ensures ok <==> c in old(places)
      ensures !ok ==> places == old(places) && flagCursorEnd == old(flagCursorEnd)
      ensures ok ==>
                var root := old(places)[c].root;
                root in tables && places == old(places)[c := AtRow(root, 0)] && flagCursorEnd == (Entries(tables[root].t) == [])
    {
      hide Kept, TableKept, CursorIs, Valid, CursorsOk, Entries, Parts;
      NotOpen(c);
      ok := c in cursors;
      if !ok { return; }
      OpenOne(c);
      ghost var root := places[c].root;
      var found := RewindCursor(cursors[c], btree, root, tables);
      flagCursorEnd := !found;
      places := places[c := AtRow(root, 0)];
      CursorMoved(c);
    }

    /** An open cursor: its place, its table, and nothing shared with the others. */
    lemma OpenOne(c: nat)
      requires Valid() && c in cursors
      ensures cursors.Keys == places.Keys && CursorsOk()
      ensures places[c].root in tables && CursorIs(cursors[c], btree, places[c], tables)
      ensures var root := places[c].root;
              tables[root].t.pg == root
              && TableKept(btree.pages, btree.Free(), btree.m, tables[root], root) && Kept(btree.pages, btree.Free(), tables[root].t, tables[root].h, btree.m)
      ensures forall d :: d in cursors && d != c ==> Apart(cursors[c], cursors[d])
    {
      hide Kept, TableKept;
      KeptTable(btree.pages, btree.Free(), btree.m, tables, sys, places[c].root);
    }

    lemma NotOpen(c: nat)
      requires Valid()
      ensures c in cursors <==> c in places
      ensures CursorsOk()
    {
    }

    method MoveNext(c: nat) returns (ok: bool)
      requires Valid() && (c in places ==> places[c].AtRow?)
      modifies this`places, this`flagCursorEnd, cursors.Values`node, cursors.Values`cellIdx
      ensures CursorsOk() && fresh(Parts() - old(Parts()))
      ensures ok <==> c in old(places)
      ensures !ok ==> places == old(places) && flagCursorEnd == old(flagCursorEnd)
      ensures ok ==>
                var root, pos := old(places)[c].root, old(places)[c].pos;
                && root in tables
                && places == old(places)[c := NextPlace(root, pos, |Entries(tables[root].t)|)]
                && flagCursorEnd == (pos + 1 >= |Entries(tables[root].t)|)
    {
      hide Kept, TableKept, CursorIs, Valid, CursorsOk, Entries, NextPlace, Parts;
      NotOpen(c);
      ok := c in cursors;
      if !ok { return; }
      OpenOne(c);
      ghost var cur := places[c];
      var found := MoveCursor(cursors[c], btree, cur.root, cur.pos, tables);
      flagCursorEnd := !found;
      places := places[c := NextPlace(cur.root, cur.pos, |Entries(tables[cur.root].t)|)];
      CursorMoved(c);
    }

    /** The cell a cursor stands at. */
    method CurrentRow(c: nat) returns (r: Option<Cell>)
      requires Valid() && (c in places ==> places[c].AtRow?)
      ensures r == CurrentCell(Snap(), c)
    {
      hide Kept, LeafChain, CellsOn, Level, CursorIs;
      if c !in cursors {
        return None;
      }
      OpenOne(c);
      CursorReads(cursors[c], btree, places[c], tables, btree.Free(), btree.m);
      r := cursors[c].CurrentEntry();
    }

    /** Replaces the record of the row the only open cursor stands at, if key is its key. */
    method UpdateCurrent(c: nat, key: Value, row: Record) returns (ok: bool)
      requires Valid() && places.Keys <= {c} && (c in places ==> places[c].AtRow?)
      modifies this`tables, btree`pages, set d | d in cursors :: cursors[d].node
      ensures Valid() && cursors == old(cursors)
      ensures var cell := CurrentCell(old(Snap()), c);
              && (ok <==> cell.Some? && key.Integer? && key.n == cell.value.key)
              && (ok ==>
                    var cur := old(places)[c];
                    cur.root in old(tables)
                    && HeapOf(tables) == HeapOf(old(tables))[cur.root := PutVal(HeapOf(old(tables))[cur.root], cur.pos, row)])
      ensures !ok ==> tables == old(tables)
    {
      hide Kept, TableKept, CursorIs, CursorsOk, TablesKept, Entries, LeafChain, CellsOn, Level, PutVal;
      NotOpen(c);
      var cell := CurrentRow(c);
      if cell.None? || Some(key) != RowidValue(cell.value.key) {
        return false;
      }
      OpenOne(c);
      ghost var root, pos, P := places[c].root, places[c].pos, btree.pages;
      ghost var t, h := tables[root].t, tables[root].h;
      SysApart(root);
      ghost var j := LeafOf(cursors[c], btree, root, pos, tables);
      CursorReads(cursors[c], btree, places[c], tables, btree.Free(), btree.m);
      ghost var u;
      ok, u := cursors[c].UpdateRow(cell.value.key, row, t, h, sys.t, sys.h, j, pos);
      tables := tables[root := Table(u, h)];
      TablesAfter(P, btree.pages, btree.Free(), btree.m, old(tables), sys, root, Table(u, h));
      OneCursor(c, j);
      HeapAfter(old(tables), root, Table(u, h));
    }

    /** The operation is one the compiled programs run in such a state: no cursor is read before it was rewound, or rewound twice. */
    ghost predicate Proper(op: TableOp)
      reads this
    {
      match op
      case Base(OpenRead(_, root)) => root in tables
      case OpenWrite(_, root) => root in tables
      case Base(Rewind(c)) => c in places ==> places[c].Opened?
      case Base(MoveNext(c)) => c in places ==> places[c].AtRow?
      case Base(ReadColumn(c, _, _)) => c in places ==> places[c].AtRow?
      case Rowid(c, _) => c in places ==> places[c].AtRow?
      case UpdateRow(c, _, _) => places.Keys <= {c} && (c in places ==> places[c].AtRow?)
      case _ => true
    }

    /** Opening and closing. */
    method ExecuteOpen(op: TableOp) returns (ok: bool)
      requires Valid() && !flagHalt && IsOpenOp(op) && Proper(op)
      modifies this`cursors, this`places
      ensures CursorsOk() && fresh(Parts() - old(Parts()))
      ensures Shows(ExecTable(fc, op, old(Snap())), old(Snap()), old(pc), ok)
    {
      hide CursorsOk, TablesKept, Parts, HeapOf, Db;
      DbIs(tables);
      match op {
        case OpenWrite(c, root) =>
          OpenCursor(c, root);
          ok := true;
        case Base(OpenRead(c, root)) =>
          OpenCursor(c, root);
          ok := true;
        case Base(Close(c)) => ok := CloseCursor(c);
      }
    }

    /** Moving a cursor. */
    method ExecuteMove(op: Op) returns (ok: bool)
      requires Valid() && !flagHalt && (op.Rewind? || op.MoveNext?) && Proper(Base(op))
      modifies this`places, this`flagCursorEnd, cursors.Values`node, cursors.Values`cellIdx
      ensures CursorsOk() && fresh(Parts() - old(Parts()))
      ensures Shows(ExecTable(fc, Base(op), old(Snap())), old(Snap()), old(pc), ok)
    {
      hide CursorsOk, TablesKept, Parts, HeapOf, Db;
      NotOpen(0);
      DbIs(tables);
      match op {
        case Rewind(c) => ok := Rewind(c);
        case MoveNext(c) => ok := MoveNext(c);
      }
    }

    /** Reading the row a cursor stands at, and making records. */
    method ExecuteRead(op: TableOp) returns (ok: bool)
      requires Valid() && !flagHalt && IsReadOp(op) && Proper(op)
      modifies this`registers
      ensures Shows(ExecTable(fc, op, old(Snap())), old(Snap()), old(pc), ok)
    {
      hide CursorsOk, TablesKept, Parts, HeapOf, Db, WriteReg, RecordBytes, Fields, CurrentCell, Field, Current;
      ghost var was := Snap();
      match op {
        case Base(ReadColumn(c, col, d)) =>
          CurrentIs(was, c);
          var cell := CurrentRow(c);
          ok := cell.Some?;
          if ok { WriteRegister(d, Field(cell.value.val, col)); }
        case Rowid(c, d) =>
          var cell := CurrentRow(c);
          if cell.None? { return false; }
          ok := PutRegister(d, RowidValue(cell.value.key));
        case MakeRecord(d, fs) =>
          var row := GatherRow(fs);
          if row.None? { return false; }
          var bytes := GetBytes(fc, row.value);
          WriteRegister(d, Blob(bytes));
          ok := true;
      }
    }

    /** Storing a row. */
    method ExecuteUpdate(c: nat, k: nat, v: nat) returns (ok: bool)
      requires Valid() && !flagHalt && Proper(UpdateRow(c, k, v))
      modifies this`tables, btree`pages, set d | d in cursors :: cursors[d].node
      ensures Valid()
      ensures Shows(ExecTable(fc, UpdateRow(c, k, v), old(Snap())), old(Snap()), old(pc), ok)
    {
      hide CursorsOk, TablesKept, Parts, HeapOf, Db, RecordFromRegister, PutVal;
      if k >= |registers| || v >= |registers| {
        return false;
      }
      var row := RecordFromRegister(fc, registers[v]);
      if row.None? {
        return false;
      }
      ok := UpdateCurrent(c, registers[k], row.value);
    }

    method Execute(op: TableOp) returns (ok: bool)
      requires Valid() && !flagHalt && Proper(op)
      modifies this, btree`pages, cursors.Values`node, cursors.Values`cellIdx, set d | d in cursors :: cursors[d].node
      ensures Valid() && fresh(Parts() - old(Parts())) && sys == old(sys)
      ensures Shows(ExecTable(fc, op, old(Snap())), old(Snap()), old(pc), ok)
    {
      hide CursorsOk, TablesKept, Parts, HeapOf, Db, ExecTable, Proper, Shows, CursorIs;
      NotOpen(0);
      match op {
        case Base(b) =>
          if IsJumpOp(b) { ok := ExecuteJump(b); BaseEffect(fc, b, old(Snap())); }
          else if IsValueOp(b) { ok := ExecuteValue(b); BaseEffect(fc, b, old(Snap())); }
          else if IsOpenOp(op) { ok := ExecuteOpen(op); }
          else if IsReadOp(op) { ok := ExecuteRead(op); }
          else { ok := ExecuteMove(b); }
        case OpenWrite(_, _) => ok := ExecuteOpen(op);
        case Rowid(_, _) => ok := ExecuteRead(op);
        case MakeRecord(_, _) => ok := ExecuteRead(op);
        case UpdateRow(c, k, v) => ok := ExecuteUpdate(c, k, v);
      }
    }

    /** In an orderly program the next operation is a proper one. */
    lemma NextProper(ops: seq<TableOp>, only: Option<nat>)
      requires Orderly(ops, tables.Keys, only) && Sensible(ops, only, At(pc, Snap())) && pc < |ops|
      ensures Proper(ops[pc])
    {
      assert OpFits(ops, pc, tables.Keys, only);
    }

    /** The state between two turns of the loop. */
    ghost function Now(): TableConfig
      reads this
    {
      if flagHalt then Finished(Snap()) else At(pc, Snap())
    }

    /** One turn of the loop. */
    method Turn(ops: seq<TableOp>, ghost only: Option<nat>) returns (ok: bool)
      requires Valid() && Orderly(ops, tables.Keys, only) && Sensible(ops, only, At(pc, Snap())) && pc < |ops| && !flagHalt
      modifies this, btree`pages, cursors.Values`node, cursors.Values`cellIdx, set d | d in cursors :: cursors[d].node
      ensures Valid() && fresh(Parts() - old(Parts())) && tables.Keys == old(tables.Keys)
      ensures StepTable(fc, ops, old(Now())) == if ok then Now() else Stuck(Snap())
      ensures Sensible(ops, only, StepTable(fc, ops, old(Now())))
    {
      hide CursorsOk, TablesKept, Parts, Proper, ExecTable, Orderly, Sensible, Valid, HeapOf;
      var was := pc;
      NextProper(ops, only);
      SensibleStep(fc, ops, tables.Keys, only, At(pc, Snap()));
      SameTables(tables);
      ok := Execute(ops[pc]);
      SameTables(tables);
      if ok && pc == was {
        pc := was + 1;
      }
    }

    /** Runs the program until it halts, runs off its end or an operation fails; n bounds the number of steps it takes. */
    method Run(ops: seq<TableOp>, ghost only: Option<nat>, ghost n: nat) returns (ok: bool)
      requires Valid() && Orderly(ops, tables.Keys, only) && Sensible(ops, only, At(0, Snap()))
      requires !StepsTable(fc, ops, At(0, Snap()), n).At?
      modifies this, btree`pages, cursors.Values, set d | d in cursors :: cursors[d].node
      ensures Valid() && tables.Keys == old(tables.Keys)
      ensures StepsTable(fc, ops, At(0, old(Snap())), n) == if ok then Finished(Snap()) else Stuck(Snap())
    {
      hide CursorsOk, TablesKept, ExecTable, Orderly, Sensible, Valid, Snap, HeapOf;
      pc := 0;
      flagHalt := false;
      ghost var left: nat := n;
      while true
        invariant Valid() && fresh(Parts() - old(Parts())) && left <= n
        invariant tables.Keys == old(tables.Keys)
        invariant !flagHalt ==> Sensible(ops, only, At(pc, Snap()))
        invariant StepsTable(fc, ops, At(0, old(Snap())), n) == StepsTable(fc, ops, Now(), left)
        decreases left
      {
        if flagHalt {
          StepsTableDone(fc, ops, Finished(Snap()), left);
          return true;
        }
        if pc >= |ops| {
          StepsTableDone(fc, ops, Finished(Snap()), left - 1);
          return true;
        }
        var done := Turn(ops, only);
        left := left - 1;
        if !done {
          StepsTableDone(fc, ops, Stuck(Snap()), left);
          return false;
        }
      }
    }

    lemma SysApart(root: nat)
      requires Valid() && root in tables
      ensures btree.Holds(sys.t, sys.h) && sys.t.pg == 1 && Pages(tables[root].t) !! Pages(sys.t)
    {
      hide Kept, CursorsOk;
    }

    lemma OneCursor(c: nat, j: nat)
      requires cursors.Keys == places.Keys == {c} && places[c].AtRow? && places[c].root in tables
      requires var k, t := cursors[c], tables[places[c].root];
               k.btree == btree && k.path == [] && places[c].pos < |Entries(t.t)| && k.AtEntry(Level(t.t, t.h), j, places[c].pos)
      ensures CursorsOk()
    {
      hide LeafChain, CellsOn, Level, Entries;
    }
  }

  /** Every table has as many rows as cells, and the rows are what the cells hold. */
  lemma DbIs(tables: map<nat, Table>)
    ensures HeapOf(tables).Keys == tables.Keys && Db(HeapOf(tables)).Keys == tables.Keys
    ensures forall r :: r in tables ==> HeapOf(tables)[r] == Entries(tables[r].t) && |Db(HeapOf(tables))[r]| == |Entries(tables[r].t)|
  {
    hide Entries;
  }

  lemma SameTables(tables: map<nat, Table>)
    ensures HeapOf(tables).Keys == tables.Keys
  {
    hide Entries;
  }

  lemma BaseEffect(fc: FloatCodec, op: Op, u: TableState)
    ensures ExecTable(fc, Base(op), u) == Lift(Exec(op, u.s, Db(u.heap)), u.heap)
  {
  }

  lemma CurrentIs(u: TableState, c: nat)
    ensures Current(u.s, Db(u.heap), c) == if CurrentCell(u, c).Some? then Some(CurrentCell(u, c).value.val) else None
  {
  }

  lemma LeafOf(k: BTreeCursor, btree: BTree, root: nat, pos: nat, tables: map<nat, Table>) returns (j: nat)
    requires CursorIs(k, btree, AtRow(root, pos), tables) && pos < |Entries(tables[root].t)|
    ensures k.AtEntry(Level(tables[root].t, tables[root].h), j, pos) && k.path == [] && k.btree == btree
  {
    hide LeafChain, CellsOn, Level, Entries;
    j :| k.AtEntry(Level(tables[root].t, tables[root].h), j, pos);
  }

  lemma HeapAfter(tables: map<nat, Table>, root: nat, table: Table)
    ensures HeapOf(tables[root := table]) == HeapOf(tables)[root := Entries(table.t)]
  {
    hide Entries;
  }

  /** A table that keeps its pages while the others keep theirs. */
  lemma TablesAfter(P: Store, Q: Store, f: FreeState, m: nat, tables: map<nat, Table>, sys: Table, root: nat, table: Table)
    requires TablesKept(P, f, m, tables, sys) && root in tables
    requires Pages(table.t) == Pages(tables[root].t) && RestSame(P, Q, Pages(table.t) + Pages(sys.t))
    requires Kept(Q, f, sys.t, sys.h, m) && Kept(Q, f, table.t, table.h, m) && table.t.pg == root
    ensures TablesKept(Q, f, m, tables[root := table], sys)
  {
    hide Kept, Pages;
    var now := tables[root := table];
    forall r | r in now ensures TableKept(Q, f, m, now[r], r) {
      if r != root {
        KeptTable(P, f, m, tables, sys, r);
        assert SameOn(P, Q, Pages(tables[r].t));
        KeptFrame(P, Q, f, tables[r].t, tables[r].h, m);
      }
    }
  }

  lemma KeptTable(P: Store, f: FreeState, m: nat, tables: map<nat, Table>, sys: Table, root: nat)
    requires TablesKept(P, f, m, tables, sys) && root in tables
    ensures TableKept(P, f, m, tables[root], root) && Kept(P, f, tables[root].t, tables[root].h, m) && tables[root].t.pg == root
  {
    hide Kept;
  }

  lemma TableRoot(P: Store, f: FreeState, m: nat, tables: map<nat, Table>, sys: Table, root: nat)
    requires TablesKept(P, f, m, tables, sys) && root in tables
    ensures root in P
  {
    hide Wf, Sorted, Linked;
    KeptTable(P, f, m, tables, sys, root);
  }
}
