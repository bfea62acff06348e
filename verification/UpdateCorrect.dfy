/** Running the program of an UPDATE statement gives the table the statement means. */
module UpdateCorrect {
  import opened Values
  import opened Cells
  import opened SqlSyntax
  import opened Evaluate
  import opened ValueLaws
  import opened Machine
  import opened Blocks
  import opened RecordCodec
  import opened PlanCode
  import opened PlanCorrect
  import opened BTreeUpdate
  import opened UpdateMachine
  import opened UpdateCode

  // ---------------------------------------------------------------- the new values of a row

  lemma {:induction false} FieldsPlain(assigns: seq<Option<Expr>>, col: nat, src: RowSource, reg: nat)
    requires col <= |assigns| && FieldsCode(assigns, col, src, reg).Success?
    ensures var c := FieldsCode(assigns, col, src, reg).value; AllPlain(c.ops) && reg <= c.next && FieldsIn(c.fields, reg, c.next)
    decreases |assigns| - col
  {
    hide AllPlain, FieldsIn;
    if col == |assigns| {
      NothingPlain();
      NoFields(reg);
    } else {
      ValuePlain(assigns[col], col, src, reg);
      var c := ColumnValueCode(assigns[col], col, src, reg).value;
      FieldsPlain(assigns, col + 1, src, c.next);
      var rest := FieldsCode(assigns, col + 1, src, c.next).value;
      PlainAppend(c.ops, rest.ops);
      FieldsInJoin([c.dest], rest.fields, reg, c.next, rest.next);
    }
  }

  lemma NoFields(reg: nat)
    ensures FieldsIn([], reg, reg)
  {
  }

  lemma ValuePlain(assign: Option<Expr>, col: nat, src: RowSource, reg: nat)
    requires ColumnValueCode(assign, col, src, reg).Success?
    ensures var c := ColumnValueCode(assign, col, src, reg).value; AllPlain(c.ops) && reg <= c.dest < c.next && FieldsIn([c.dest], reg, c.next)
  {
    if assign.Some? { ExprPlain(assign.value, [src], reg); }
  }

  /** The value of one column of the new row. */
  function NewField(assign: Option<Expr>, col: nat, env: seq<RowSource>, rec: Record): Option<Value>
    requires |env| == 1
  {
    if assign.Some? then Eval(assign.value, env, [rec]) else Some(Field(rec, col))
  }

  lemma ValueCorrect(assign: Option<Expr>, col: nat, src: RowSource, rec: Record, reg: nat, s: State, db: Tables)
    requires ColumnValueCode(assign, col, src, reg).Success? && Fits([src], [rec], s, db)
    ensures var c := ColumnValueCode(assign, col, src, reg).value;
            Computes(RunOps(c.ops, s, db), s, NewField(assign, col, [src], rec), c.dest, reg)
  {
    hide RunOps, Computes, Put, Eval;
    match assign
    case Some(e) => ExprCorrect(e, [src], [rec], reg, s, db);
    case None =>
      var op := ReadColumn(src.cursorId, col, reg);
      assert Current(s, db, [src][0].cursorId) == Some([rec][0]);
      RunOpsOne(op, s, db);
      PutComputes(op, s, db, reg, Some(Field(rec, col)), reg);
  }

  /** A computed value is a row of one field. */
  lemma OneComputed(o: Outcome, s: State, v: Option<Value>, dest: nat, reg: nat)
    requires Computes(o, s, v, dest, reg)
    ensures RowComputes(o, s, if v.Some? then Some([v.value]) else None, [dest], reg)
  {
    if v.Some? { OneField(o.s.regs, dest); }
  }

  lemma {:induction false} FieldsCorrect(assigns: seq<Option<Expr>>, col: nat, src: RowSource, rec: Record, reg: nat, s: State, db: Tables)
    requires col <= |assigns| && FieldsCode(assigns, col, src, reg).Success? && Fits([src], [rec], s, db)
    ensures var c := FieldsCode(assigns, col, src, reg).value;
            RowComputes(RunOps(c.ops, s, db), s, NewFields(assigns, col, [src], rec), c.fields, reg)
    decreases |assigns| - col
  {
    hide RunOps, Computes, Fits, ColumnValueCode, Eval, RegsKept, AllPlain, FieldsIn;
    if col == |assigns| {
      NoOps(s, db);
      KeptSelf(s.regs, reg);
    } else {
      var c := ColumnValueCode(assigns[col], col, src, reg).value;
      var v := NewField(assigns[col], col, [src], rec);
      ValuePlain(assigns[col], col, src, reg);
      ValueCorrect(assigns[col], col, src, rec, reg, s, db);
      OneComputed(RunOps(c.ops, s, db), s, v, c.dest, reg);
      var rest := FieldsCode(assigns, col + 1, src, c.next).value;
      if v.Some? {
        var s1 := RunOps(c.ops, s, db).s;
        FitsQuiet([src], [rec], s, s1, db, reg);
        FieldsCorrect(assigns, col + 1, src, rec, c.next, s1, db);
      }
      RowsJoin(RowCode(c.ops, [c.dest], c.next), rest, s, db, if v.Some? then Some([v.value]) else None,
               NewFields(assigns, col + 1, [src], rec), reg);
    }
  }

  // ---------------------------------------------------------------- where the parts of the program stand

  lemma HoldsParts(ops: seq<TableOp>, at: nat, a: seq<TableOp>, b: seq<TableOp>)
    requires Holds(ops, at, a + b)
    ensures Holds(ops, at, a) && Holds(ops, at + |a|, b)
  {
    forall i | 0 <= i < |a| ensures ops[at + i] == a[i] { assert ops[at + i] == (a + b)[i]; }
    forall i | 0 <= i < |b| ensures ops[at + |a| + i] == b[i] { assert ops[at + (|a| + i)] == (a + b)[|a| + i]; }
  }

  lemma HoldsAt(ops: seq<TableOp>, at: nat, code: seq<TableOp>, i: nat)
    requires Holds(ops, at, code) && i < |code|
    ensures at + i < |ops| && ops[at + i] == code[i]
  {
  }

  /** The program, part by part. */
  ghost predicate LaidOut(ops: seq<TableOp>, p: Parts, body: nat, skip: nat) {
    && body == 3 + |Guard(p.cond, 0)| && skip == body + |p.row.ops| + 3 && |ops| == skip + 4
    && ops[0] == OpenWrite(CURSOR, p.root) && ops[1] == Base(Rewind(CURSOR)) && ops[2] == Base(IfCursorEnd(skip + 3))
    && Holds(ops, 3, Guard(p.cond, skip))
    && Holds(ops, body, Replace(p.cond.next, p.row))
    && ops[skip] == Base(MoveNext(CURSOR)) && ops[skip + 1] == Base(IfCursorEnd(skip + 3)) && ops[skip + 2] == Base(Goto(3))
    && ops[skip + 3] == Base(Close(CURSOR))
  }

  lemma FiveParts(a: seq<TableOp>, b: seq<TableOp>, c: seq<TableOp>, d: seq<TableOp>, e: seq<TableOp>)
    ensures var ops := a + b + c + d + e; var n := |a| + |b|;
            && Holds(ops, 0, a) && Holds(ops, |a|, b) && Holds(ops, n, c) && Holds(ops, n + |c|, d) && Holds(ops, n + |c| + |d|, e)
  {
    hide Holds;
    var ops := a + b + c + d + e;
    WholeHolds(ops);
    HoldsParts(ops, 0, a + b + c + d, e);
    HoldsParts(ops, 0, a + b + c, d);
    HoldsParts(ops, 0, a + b, c);
    HoldsParts(ops, 0, a, b);
  }

  lemma LayoutLaidOut(p: Parts)
    ensures var body := 3 + |Guard(p.cond, 0)|; LaidOut(Layout(p.root, p.cond, p.row), p, body, body + |p.row.ops| + 3)
  {
    hide Holds, Guard, Replace;
    var ops := Layout(p.root, p.cond, p.row);
    PartSizes(p);
    var body := 3 + |Guard(p.cond, 0)|;
    var skip := body + |p.row.ops| + 3;
    var a, d, e := Enter(p.root, skip + 3), Advance(3, skip + 3), [Base(Close(CURSOR))];
    FiveParts(a, Guard(p.cond, skip), Replace(p.cond.next, p.row), d, e);
    HoldsAt(ops, 0, a, 0);
    HoldsAt(ops, 0, a, 1);
    HoldsAt(ops, 0, a, 2);
    HoldsAt(ops, skip, d, 0);
    HoldsAt(ops, skip, d, 1);
    HoldsAt(ops, skip, d, 2);
    HoldsAt(ops, skip + 3, e, 0);
  }

  lemma PartSizes(p: Parts)
    ensures |Replace(p.cond.next, p.row)| == |p.row.ops| + 3 && forall t: nat :: |Guard(p.cond, t)| == |Guard(p.cond, 0)|
  {
  }

  lemma WholeHolds(ops: seq<TableOp>)
    ensures Holds(ops, 0, ops)
  {
  }

  // ---------------------------------------------------------------- one row

  /** The cursor stands at row pos of table root, which holds the cells; otherwise everything is as in base. */
  ghost predicate Standing(u: TableState, base: TableState, root: nat, cells: seq<Cell>, pos: nat) {
    && u.s.cursors == base.s.cursors[CURSOR := AtRow(root, pos)]
    && u.heap == base.heap[root := cells] && u.s.results == base.s.results
  }

  lemma StandingFits(u: TableState, base: TableState, root: nat, cells: seq<Cell>, pos: nat, src: RowSource)
    requires Standing(u, base, root, cells, pos) && pos < |cells| && src.cursorId == CURSOR
    ensures Fits([src], [cells[pos].val], u.s, Db(u.heap)) && CurrentCell(u, CURSOR) == Some(cells[pos])
  {
    assert Db(u.heap)[root] == Rows(cells);
  }

  lemma StandingQuiet(u: TableState, s: State, base: TableState, root: nat, cells: seq<Cell>, pos: nat, reg: nat)
    requires Standing(u, base, root, cells, pos) && Quiet(u.s, s, reg)
    ensures Standing(TableState(s, u.heap), base, root, cells, pos)
  {
  }

  /** The machine got to w, or it is stuck with the tables as they are. */
  ghost predicate StuckAt(w: TableConfig, heap: Heap, results: seq<Record>) {
    w.Stuck? && w.u.heap == heap && w.u.s.results == results
  }

  /** The condition: on to the replacement, past it, or stuck. */
  lemma GuardSteps(fc: FloatCodec, ops: seq<TableOp>, p: Parts, body: nat, skip: nat, whereClause: Option<Expr>, src: RowSource,
                   u: TableState, base: TableState, cells: seq<Cell>, pos: nat) returns (w: TableConfig)
    requires LaidOut(ops, p, body, skip) && WhereCode(whereClause, src) == Success(p.cond) && src.cursorId == CURSOR
    requires Standing(u, base, p.root, cells, pos) && pos < |cells|
    ensures Gets(fc, ops, At(3, u), w)
    ensures match Matches(whereClause, [src], cells[pos].val)
            case None => StuckAt(w, u.heap, u.s.results)
            case Some(b) => w.At? && w.pc == (if b then body else skip) && Standing(w.u, base, p.root, cells, pos)
  {
    hide Gets, Holds, RunOps, Eval, Fits, ExprCode, AllPlain, LaidOut, Standing, Replace, RegsKept, TableExprCode, Computes;
    var g := Guard(p.cond, skip);
    LaidOutGuard(ops, p, body, skip);
    match whereClause {
      case None =>
        GetsSelf(fc, ops, At(3, u));
        w := At(3, u);
      case Some(e) =>
        var c := TableExprCode(e, src, 0).value;
        StandingFits(u, base, p.root, cells, pos, src);
        ExprPlain(e, [src], 0);
        ExprCorrect(e, [src], [cells[pos].val], 0, u.s, Db(u.heap));
        HoldsParts(ops, 3, Bases(c.ops), [Base(IfNot(c.dest, skip))]);
        PlainEach(c.ops);
        RunBases(fc, ops, 3, c.ops, u);
        var o := RunOps(c.ops, u.s, Db(u.heap));
        var v := Eval(e, [src], [cells[pos].val]);
        ComputesEnds(o, u.s, v, c.dest, 0);
        w := ReachesTable(o, 3 + |c.ops|, u.heap);
        if v.Some? {
          StandingQuiet(u, o.s, base, p.root, cells, pos, 0);
          HoldsAt(ops, 3 + |c.ops|, [Base(IfNot(c.dest, skip))], 0);
          GetsStep(fc, ops, w);
          GetsTrans(fc, ops, At(3, u), w, StepTable(fc, ops, w));
          IfNotStep(fc, ops, 3 + |c.ops|, c.dest, skip, TableState(o.s, u.heap), v.value);
          w := StepTable(fc, ops, w);
        }
    }
  }

  lemma LaidOutGuard(ops: seq<TableOp>, p: Parts, body: nat, skip: nat)
    requires LaidOut(ops, p, body, skip)
    ensures Holds(ops, 3, Guard(p.cond, skip)) && body == 3 + |p.cond.ops| + (if p.cond.cond.Some? then 1 else 0) && body < skip
    ensures Holds(ops, body, Replace(p.cond.next, p.row)) && skip == body + |p.row.ops| + 3
  {
  }

  lemma PlainEach(ops: seq<Op>)
    requires AllPlain(ops)
    ensures forall i :: 0 <= i < |ops| ==> Plain(ops[i])
  {
  }

  lemma ComputesEnds(o: Outcome, s: State, v: Option<Value>, dest: nat, reg: nat)
    requires Computes(o, s, v, dest, reg)
    ensures if v.None? then o.Bad? && o.s.results == s.results else o.Ok? && Quiet(s, o.s, reg) && ReadReg(o.s.regs, dest) == v
  {
  }

  lemma IfNotStep(fc: FloatCodec, ops: seq<TableOp>, pc: nat, r: nat, t: nat, u: TableState, v: Value)
    requires pc < |ops| && ops[pc] == Base(IfNot(r, t)) && ReadReg(u.s.regs, r) == Some(v) && pc != t
    ensures StepTable(fc, ops, At(pc, u)) == At(if IsTruthy(v) then pc + 1 else t, u)
  {
  }

  /** The new row, or stuck. */
  function Rewritten(fc: FloatCodec, assigns: seq<Option<Expr>>, src: RowSource, rec: Record): Option<Record> {
    match NewFields(assigns, 0, [src], rec)
    case None => None
    case Some(row) => RecordFromRegister(fc, Blob(RecordBytes(fc, row)))
  }

  lemma ReplaceSteps(fc: FloatCodec, ops: seq<TableOp>, p: Parts, body: nat, skip: nat, assigns: seq<Option<Expr>>, src: RowSource,
                     u: TableState, base: TableState, cells: seq<Cell>, pos: nat) returns (w: TableConfig)
    requires LaidOut(ops, p, body, skip) && FieldsCode(assigns, 0, src, p.cond.next + 1) == Success(p.row) && src.cursorId == CURSOR
    requires Standing(u, base, p.root, cells, pos) && pos < |cells| && 0 <= cells[pos].key < U64_LIMIT
    ensures Gets(fc, ops, At(body, u), w)
    ensures match Rewritten(fc, assigns, src, cells[pos].val)
            case None => StuckAt(w, u.heap, u.s.results)
            case Some(row) => w.At? && w.pc == skip && Standing(w.u, base, p.root, PutVal(cells, pos, row), pos)
  {
    hide Gets, Holds, RunOps, Fits, AllPlain, LaidOut, Standing, RegsKept, FieldsCode, NewFields, RecordFromRegister, RecordBytes, StepTable, RowComputes, FieldsIn, RowidValue;
    LaidOutGuard(ops, p, body, skip);
    var key, rec := p.cond.next, cells[pos].val;
    var n := |p.row.ops|;
    HoldsParts(ops, body, [Rowid(CURSOR, key)] + Bases(p.row.ops), [MakeRecord(p.row.next, p.row.fields), UpdateRow(CURSOR, key, p.row.next)]);
    HoldsParts(ops, body, [Rowid(CURSOR, key)], Bases(p.row.ops));
    HoldsAt(ops, body, [Rowid(CURSOR, key)], 0);
    StandingFits(u, base, p.root, cells, pos, src);
    var u1 := RowidStep(fc, ops, body, key, u, cells[pos]);
    GetsStep(fc, ops, At(body, u));
    StandingQuiet(u, u1.s, base, p.root, cells, pos, key);
    StandingFits(u1, base, p.root, cells, pos, src);
    FieldsPlain(assigns, 0, src, key + 1);
    FieldsCorrect(assigns, 0, src, rec, key + 1, u1.s, Db(u1.heap));
    PlainEach(p.row.ops);
    RunBases(fc, ops, body + 1, p.row.ops, u1);
    var o := RunOps(p.row.ops, u1.s, Db(u1.heap));
    w := ReachesTable(o, body + 1 + n, u.heap);
    GetsTrans(fc, ops, At(body, u), At(body + 1, u1), w);
    var row := NewFields(assigns, 0, [src], rec);
    RowEnds(o, u1.s, row, p.row.fields, key + 1);
    if row.Some? {
      var u2 := TableState(o.s, u.heap);
      StandingQuiet(u1, u2.s, base, p.root, cells, pos, key + 1);
      KeepsReg(u1.s, u2.s, key, key + 1);
      HoldsAt(ops, body + 1 + n, [MakeRecord(p.row.next, p.row.fields), UpdateRow(CURSOR, key, p.row.next)], 0);
      HoldsAt(ops, body + 1 + n, [MakeRecord(p.row.next, p.row.fields), UpdateRow(CURSOR, key, p.row.next)], 1);
      var w1 := StoreSteps(fc, ops, body + 1 + n, key, p.row, u2, base, p.root, cells, pos, row.value);
      GetsTrans(fc, ops, At(body, u), w, w1);
      w := w1;
    }
  }

  lemma RowEnds(o: Outcome, s: State, row: Option<Record>, fs: seq<nat>, reg: nat)
    requires RowComputes(o, s, row, fs, reg)
    ensures if row.None? then o.Bad? && o.s.results == s.results else o.Ok? && Quiet(s, o.s, reg) && Fields(o.s.regs, fs) == row
  {
  }

  lemma RowidStep(fc: FloatCodec, ops: seq<TableOp>, pc: nat, key: nat, u: TableState, cell: Cell) returns (u1: TableState)
    requires pc < |ops| && ops[pc] == Rowid(CURSOR, key) && CurrentCell(u, CURSOR) == Some(cell) && 0 <= cell.key < U64_LIMIT
    ensures StepTable(fc, ops, At(pc, u)) == At(pc + 1, u1) && Quiet(u.s, u1.s, key) && u1.heap == u.heap
    ensures ReadReg(u1.s.regs, key) == RowidValue(cell.key) && RowidValue(cell.key).Some?
  {
    u1 := TableState(u.s.(regs := WriteReg(u.s.regs, key, Integer(cell.key))), u.heap);
  }

  /** Making the record and storing it. */
  lemma StoreSteps(fc: FloatCodec, ops: seq<TableOp>, pc: nat, key: nat, row: RowCode, u: TableState, base: TableState,
                   root: nat, cells: seq<Cell>, pos: nat, rec: Record) returns (w: TableConfig)
    requires pc + 1 < |ops| && ops[pc] == MakeRecord(row.next, row.fields) && ops[pc + 1] == UpdateRow(CURSOR, key, row.next)
    requires Standing(u, base, root, cells, pos) && pos < |cells| && key < row.next && RowidValue(cells[pos].key).Some?
    requires Fields(u.s.regs, row.fields) == Some(rec) && ReadReg(u.s.regs, key) == RowidValue(cells[pos].key)
    ensures Gets(fc, ops, At(pc, u), w)
    ensures match RecordFromRegister(fc, Blob(RecordBytes(fc, rec)))
            case None => StuckAt(w, u.heap, u.s.results)
            case Some(r) => w.At? && w.pc == pc + 2 && Standing(w.u, base, root, PutVal(cells, pos, r), pos)
  {
    hide Gets, RecordFromRegister, RecordBytes, RowidValue, Fields, PutVal;
    var v := Blob(RecordBytes(fc, rec));
    var u1 := TableState(u.s.(regs := WriteReg(u.s.regs, row.next, v)), u.heap);
    assert StepTable(fc, ops, At(pc, u)) == At(pc + 1, u1);
    GetsStep(fc, ops, At(pc, u));
    assert ReadReg(u1.s.regs, key) == ReadReg(u.s.regs, key) && ReadReg(u1.s.regs, row.next) == Some(v);
    assert CurrentCell(u1, CURSOR) == Some(cells[pos]);
    w := StepTable(fc, ops, At(pc + 1, u1));
    GetsStep(fc, ops, At(pc + 1, u1));
    GetsTrans(fc, ops, At(pc, u), At(pc + 1, u1), w);
  }

  /** What the program does with the row its cursor stands at. */
  lemma RowSteps(fc: FloatCodec, ops: seq<TableOp>, p: Parts, body: nat, skip: nat, whereClause: Option<Expr>, assigns: seq<Option<Expr>>, src: RowSource,
                 u: TableState, base: TableState, cells: seq<Cell>, pos: nat) returns (w: TableConfig)
    requires LaidOut(ops, p, body, skip) && src.cursorId == CURSOR
    requires WhereCode(whereClause, src) == Success(p.cond) && FieldsCode(assigns, 0, src, p.cond.next + 1) == Success(p.row)
    requires Standing(u, base, p.root, cells, pos) && pos < |cells| && 0 <= cells[pos].key < U64_LIMIT
    ensures Gets(fc, ops, At(3, u), w)
    ensures match NewRow(fc, whereClause, assigns, [src], cells[pos].val)
            case None => StuckAt(w, u.heap, u.s.results)
            case Some(row) => w.At? && w.pc == skip && Standing(w.u, base, p.root, PutVal(cells, pos, row), pos)
  {
    hide Gets, LaidOut, Matches, NewFields, WhereCode, FieldsCode, RecordFromRegister, RecordBytes;
    w := GuardSteps(fc, ops, p, body, skip, whereClause, src, u, base, cells, pos);
    match Matches(whereClause, [src], cells[pos].val)
    case None =>
    case Some(false) => assert PutVal(cells, pos, cells[pos].val) == cells;
    case Some(true) =>
      var w1 := ReplaceSteps(fc, ops, p, body, skip, assigns, src, w.u, base, cells, pos);
      GetsTrans(fc, ops, At(3, u), w, w1);
      w := w1;
  }

  // ---------------------------------------------------------------- the loop

  /** The program has ended: with the cursor closed if all rows were done, and stuck otherwise. */
  ghost predicate Ends(w: TableConfig, base: TableState, root: nat, r: Updated) {
    && (if r.ok then w.Finished? else w.Stuck?)
    && w.u.heap == base.heap[root := r.cells] && w.u.s.results == base.s.results
    && (r.ok ==> w.u.s.cursors == base.s.cursors - {CURSOR})
  }

  /** On to the next row, or out of the loop after the last one. */
  lemma AdvanceSteps(fc: FloatCodec, ops: seq<TableOp>, p: Parts, body: nat, skip: nat, u: TableState, base: TableState, cells: seq<Cell>, pos: nat)
      returns (w: TableConfig)
    requires LaidOut(ops, p, body, skip) && Standing(u, base, p.root, cells, pos) && pos < |cells|
    ensures Gets(fc, ops, At(skip, u), w)
    ensures if pos + 1 < |cells| then w.At? && w.pc == 3 && Standing(w.u, base, p.root, cells, pos + 1)
            else Ends(w, base, p.root, Updated(cells, true))
  {
    hide Gets, Guard, Replace, Holds;
    var n := |cells|;
    assert Db(u.heap)[p.root] == Rows(cells);
    var s1 := u.s.(cursors := u.s.cursors[CURSOR := AtRow(p.root, pos + 1)], end := pos + 1 >= n);
    var u1 := TableState(s1, u.heap);
    assert StepTable(fc, ops, At(skip, u)) == At(skip + 1, u1);
    GetsStep(fc, ops, At(skip, u));
    GetsStep(fc, ops, At(skip + 1, u1));
    w := StepTable(fc, ops, At(skip + 1, u1));
    GetsTrans(fc, ops, At(skip, u), At(skip + 1, u1), w);
    if pos + 1 < n {
      GetsStep(fc, ops, w);
      GetsTrans(fc, ops, At(skip, u), w, StepTable(fc, ops, w));
      w := StepTable(fc, ops, w);
    } else {
      var w1 := CloseSteps(fc, ops, p, body, skip, u1, base, cells, pos + 1);
      GetsTrans(fc, ops, At(skip, u), w, w1);
      w := w1;
    }
  }

  lemma CloseSteps(fc: FloatCodec, ops: seq<TableOp>, p: Parts, body: nat, skip: nat, u: TableState, base: TableState, cells: seq<Cell>, pos: nat)
      returns (w: TableConfig)
    requires LaidOut(ops, p, body, skip) && Standing(u, base, p.root, cells, pos)
    ensures Gets(fc, ops, At(skip + 3, u), w) && Ends(w, base, p.root, Updated(cells, true))
  {
    hide Gets, Guard, Replace, Holds;
    var u1 := TableState(u.s.(cursors := u.s.cursors - {CURSOR}), u.heap);
    assert u1.s.cursors == base.s.cursors - {CURSOR};
    assert StepTable(fc, ops, At(skip + 3, u)) == At(skip + 4, u1);
    GetsStep(fc, ops, At(skip + 3, u));
    GetsStep(fc, ops, At(skip + 4, u1));
    w := Finished(u1);
    GetsTrans(fc, ops, At(skip + 3, u), At(skip + 4, u1), w);
  }

  /** The rows before pos are done; the others are as the statement found them. */
  function DoneUpTo(fc: FloatCodec, whereClause: Option<Expr>, assigns: seq<Option<Expr>>, src: RowSource, cells: seq<Cell>, pos: nat): Updated
    requires pos <= |cells|
  {
    var r := UpdateCells(fc, whereClause, assigns, [src], cells[pos..]);
    Updated(cells[..pos] + r.cells, r.ok)
  }

  lemma DoneStep(fc: FloatCodec, whereClause: Option<Expr>, assigns: seq<Option<Expr>>, src: RowSource, cells: seq<Cell>, pos: nat)
    requires pos < |cells|
    ensures match NewRow(fc, whereClause, assigns, [src], cells[pos].val)
            case None => DoneUpTo(fc, whereClause, assigns, src, cells, pos) == Updated(cells, false)
            case Some(row) =>
              DoneUpTo(fc, whereClause, assigns, src, cells, pos) == DoneUpTo(fc, whereClause, assigns, src, PutVal(cells, pos, row), pos + 1)
  {
    hide NewRow;
    var rest := cells[pos..];
    assert rest[0] == cells[pos] && rest[1..] == cells[pos + 1..];
    match NewRow(fc, whereClause, assigns, [src], cells[pos].val)
    case None => assert cells[..pos] + cells[pos..] == cells;
    case Some(row) =>
      var next := PutVal(cells, pos, row);
      assert next[pos + 1..] == cells[pos + 1..] && next[..pos + 1] == cells[..pos] + [Cell(cells[pos].key, row)];
      var r := UpdateCells(fc, whereClause, assigns, [src], cells[pos + 1..]);
      assert (cells[..pos] + [Cell(cells[pos].key, row)]) + r.cells == cells[..pos] + ([Cell(cells[pos].key, row)] + r.cells);
  }

  lemma DoneAll(fc: FloatCodec, whereClause: Option<Expr>, assigns: seq<Option<Expr>>, src: RowSource, cells: seq<Cell>)
    ensures DoneUpTo(fc, whereClause, assigns, src, cells, |cells|) == Updated(cells, true)
    ensures DoneUpTo(fc, whereClause, assigns, src, cells, 0) == UpdateCells(fc, whereClause, assigns, [src], cells)
  {
    hide NewRow;
    assert cells[..|cells|] + [] == cells && cells[|cells|..] == [];
    var r := UpdateCells(fc, whereClause, assigns, [src], cells);
    assert cells[0..] == cells && cells[..0] + r.cells == r.cells;
  }

  /** Row keys are integers that fit in 64 bits. */
  ghost predicate RowKeys(cells: seq<Cell>) {
    forall i :: 0 <= i < |cells| ==> 0 <= cells[i].key < U64_LIMIT
  }

  lemma {:induction false} LoopSteps(fc: FloatCodec, ops: seq<TableOp>, p: Parts, body: nat, skip: nat, whereClause: Option<Expr>, assigns: seq<Option<Expr>>,
                  src: RowSource, u: TableState, base: TableState, cells: seq<Cell>, pos: nat) returns (w: TableConfig)
    requires LaidOut(ops, p, body, skip) && src.cursorId == CURSOR
    requires WhereCode(whereClause, src) == Success(p.cond) && FieldsCode(assigns, 0, src, p.cond.next + 1) == Success(p.row)
    requires Standing(u, base, p.root, cells, pos) && pos < |cells| && RowKeys(cells)
    ensures Gets(fc, ops, At(3, u), w) && Ends(w, base, p.root, DoneUpTo(fc, whereClause, assigns, src, cells, pos))
    decreases |cells| - pos
  {
    hide Gets, LaidOut, NewRow, WhereCode, FieldsCode, DoneUpTo;
    w := RowSteps(fc, ops, p, body, skip, whereClause, assigns, src, u, base, cells, pos);
    DoneStep(fc, whereClause, assigns, src, cells, pos);
    match NewRow(fc, whereClause, assigns, [src], cells[pos].val)
    case None =>
    case Some(row) =>
      var next := PutVal(cells, pos, row);
      var w1 := AdvanceSteps(fc, ops, p, body, skip, w.u, base, next, pos);
      GetsTrans(fc, ops, At(3, u), w, w1);
      w := w1;
      if pos + 1 < |cells| {
        var w2 := LoopSteps(fc, ops, p, body, skip, whereClause, assigns, src, w.u, base, next, pos + 1);
        GetsTrans(fc, ops, At(3, u), w, w2);
        w := w2;
      } else {
        DoneAll(fc, whereClause, assigns, src, next);
      }
  }

  // ---------------------------------------------------------------- the program

  /** Opening the table and going to its first row. */
  lemma EnterSteps(fc: FloatCodec, ops: seq<TableOp>, p: Parts, body: nat, skip: nat, u: TableState) returns (w: TableConfig)
    requires LaidOut(ops, p, body, skip) && p.root in u.heap
    ensures Gets(fc, ops, At(0, u), w)
    ensures if u.heap[p.root] == [] then Ends(w, u, p.root, Updated([], true))
            else w.At? && w.pc == 3 && Standing(w.u, u, p.root, u.heap[p.root], 0)
  {
    hide Gets, Guard, Replace, Holds;
    var cells := u.heap[p.root];
    assert Db(u.heap)[p.root] == Rows(cells);
    var u1 := TableState(u.s.(cursors := u.s.cursors[CURSOR := Opened(p.root)]), u.heap);
    var u2 := TableState(u.s.(cursors := u.s.cursors[CURSOR := AtRow(p.root, 0)], end := cells == []), u.heap);
    assert StepTable(fc, ops, At(0, u)) == At(1, u1);
    assert StepTable(fc, ops, At(1, u1)) == At(2, u2);
    GetsStep(fc, ops, At(0, u));
    GetsStep(fc, ops, At(1, u1));
    GetsStep(fc, ops, At(2, u2));
    GetsTrans(fc, ops, At(0, u), At(1, u1), At(2, u2));
    w := StepTable(fc, ops, At(2, u2));
    GetsTrans(fc, ops, At(0, u), At(2, u2), w);
    assert u.heap[p.root := cells] == u.heap;
    if cells == [] {
      var w1 := CloseSteps(fc, ops, p, body, skip, u2, u, cells, 0);
      GetsTrans(fc, ops, At(0, u), w, w1);
      w := w1;
    }
  }

  /** The table as the statement leaves it. */
  function UpdatedTable(fc: FloatCodec, st: UpdateStmt, cat: Catalog, cells: seq<Cell>): Updated
    requires UpdateParts(st, cat).Success?
  {
    var b := cat[st.table];
    UpdateCells(fc, st.whereClause, AssignmentMap(st.assignments, b.columns).value, [TableSource(st.table, b)], cells)
  }

  /**
   The compiled program, run on any tables: it ends, with every row of its table replaced by what the statement makes
   of the old row, and with no other table, key or result changed; it gets stuck exactly if some row cannot be
   computed, and then that row and those after it are untouched.
   */
  lemma UpdateRuns(fc: FloatCodec, st: UpdateStmt, cat: Catalog, u: TableState) returns (w: TableConfig)
    requires UpdateProgram(st, cat).Success? && cat[st.table].root in u.heap && RowKeys(u.heap[cat[st.table].root])
    ensures Gets(fc, UpdateProgram(st, cat).value, At(0, u), w)
    ensures var root := cat[st.table].root; Ends(w, u, root, UpdatedTable(fc, st, cat, u.heap[root]))
  {
    hide Gets, LaidOut, NewRow, WhereCode, FieldsCode, UpdateCells, Ends, Layout;
    var p := UpdateParts(st, cat).value;
    var b := cat[st.table];
    var src, assigns, cells := TableSource(st.table, b), AssignmentMap(st.assignments, b.columns).value, u.heap[b.root];
    var ops := Layout(p.root, p.cond, p.row);
    var body := 3 + |Guard(p.cond, 0)|;
    var skip := body + |p.row.ops| + 3;
    LayoutLaidOut(p);
    w := EnterSteps(fc, ops, p, body, skip, u);
    DoneAll(fc, st.whereClause, assigns, src, cells);
    if cells != [] {
      var w1 := LoopSteps(fc, ops, p, body, skip, st.whereClause, assigns, src, w.u, u, cells, 0);
      GetsTrans(fc, ops, At(0, u), w, w1);
      w := w1;
    }
  }

  /** The number of steps after which the program has ended. */
  lemma UpdateEnds(fc: FloatCodec, st: UpdateStmt, cat: Catalog, u: TableState)
    requires UpdateProgram(st, cat).Success? && cat[st.table].root in u.heap && RowKeys(u.heap[cat[st.table].root])
    ensures var root := cat[st.table].root;
            exists n: nat :: Ends(StepsTable(fc, UpdateProgram(st, cat).value, At(0, u), n), u, root, UpdatedTable(fc, st, cat, u.heap[root]))
  {
    hide Ends, UpdatedTable, UpdateProgram;
    var w := UpdateRuns(fc, st, cat, u);
    var n: nat :| StepsTable(fc, UpdateProgram(st, cat).value, At(0, u), n) == w;
  }

  // ---------------------------------------------------------------- what the new rows are

  /** The row can be written to bytes and read back. */
  ghost predicate Storable(fc: FloatCodec, row: Record) {
    forall i :: 0 <= i < |row| ==> Encodable(fc, row[i]) && LengthFits(row[i])
  }

  /** row is was with the assignments carried out, each evaluated on was. */
  ghost predicate Assigned(st: UpdateStmt, src: RowSource, was: Record, row: Record) {
    && |row| == |src.columns|
    && (forall a, col: nat :: a in st.assignments && col < |row| && Sets(a, src.columns, col) ==> Some(row[col]) == Eval(a.value, [src], [was]))
    && (forall col: nat :: col < |row| && (forall a :: a in st.assignments ==> !Sets(a, src.columns, col)) ==>
          row[col] == if col < |was| then was[col] else Null)
  }

  lemma NewFieldsAssigned(st: UpdateStmt, src: RowSource, rec: Record)
    requires AssignmentMap(st.assignments, src.columns).Success?
    requires NewFields(AssignmentMap(st.assignments, src.columns).value, 0, [src], rec).Some?
    ensures Assigned(st, src, rec, NewFields(AssignmentMap(st.assignments, src.columns).value, 0, [src], rec).value)
  {
    hide Position, Eval, AssignmentMap, NewFields;
    AssignmentMapMeans(st.assignments, src.columns);
    var assigns := AssignmentMap(st.assignments, src.columns).value;
    var row := NewFields(assigns, 0, [src], rec).value;
    NewFieldsLong(assigns, 0, [src], rec);
    forall a, col: nat | a in st.assignments && col < |row| && Sets(a, src.columns, col) ensures Some(row[col]) == Eval(a.value, [src], [rec]) {
      NewFieldsAt(assigns, 0, [src], rec, col);
      var i :| 0 <= i < |st.assignments| && st.assignments[i] == a;
      assert assigns[col] == Some(a.value);
    }
    forall col: nat | col < |row| && (forall a :: a in st.assignments ==> !Sets(a, src.columns, col)) ensures row[col] == if col < |rec| then rec[col] else Null {
      NewFieldsAt(assigns, 0, [src], rec, col);
      forall i | 0 <= i < |st.assignments| ensures !Sets(st.assignments[i], src.columns, col) { assert st.assignments[i] in st.assignments; }
      assert assigns[col] == None;
    }
  }

  lemma {:induction false} NewFieldsLong(assigns: seq<Option<Expr>>, col: nat, env: seq<RowSource>, rec: Record)
    requires |env| == 1 && col <= |assigns| && NewFields(assigns, col, env, rec).Some?
    ensures |NewFields(assigns, col, env, rec).value| == |assigns| - col
    decreases |assigns| - col
  {
    hide Eval;
    if col < |assigns| { NewFieldsLong(assigns, col + 1, env, rec); }
  }

  /** A new row that cannot be computed has an assigned expression without a value. */
  lemma {:induction false} NewFieldsFail(assigns: seq<Option<Expr>>, col: nat, env: seq<RowSource>, rec: Record) returns (i: nat)
    requires |env| == 1 && col <= |assigns| && NewFields(assigns, col, env, rec).None?
    ensures col <= i < |assigns| && assigns[i].Some? && Eval(assigns[i].value, env, [rec]).None?
    decreases |assigns| - col
  {
    hide Eval;
    i := col;
    if assigns[col].None? || Eval(assigns[col].value, env, [rec]).Some? {
      i := NewFieldsFail(assigns, col + 1, env, rec);
    }
  }

  /** The assignments can be carried out exactly if the new row can be computed, and only in one way. */
  lemma AssignedIff(st: UpdateStmt, src: RowSource, rec: Record)
    requires AssignmentMap(st.assignments, src.columns).Success?
    ensures var made := NewFields(AssignmentMap(st.assignments, src.columns).value, 0, [src], rec);
            && (made.Some? <==> exists row :: Assigned(st, src, rec, row))
            && forall row :: Assigned(st, src, rec, row) ==> made == Some(row)
  {
    hide Position, Eval, AssignmentMap, NewFields, Assigned;
    var assigns := AssignmentMap(st.assignments, src.columns).value;
    var made := NewFields(assigns, 0, [src], rec);
    if made.Some? { NewFieldsAssigned(st, src, rec); }
    forall row | Assigned(st, src, rec, row) ensures made == Some(row) {
      AssignedOnce(st, src, rec, row);
    }
  }

  lemma AssignedOnce(st: UpdateStmt, src: RowSource, rec: Record, row: Record)
    requires AssignmentMap(st.assignments, src.columns).Success? && Assigned(st, src, rec, row)
    ensures NewFields(AssignmentMap(st.assignments, src.columns).value, 0, [src], rec) == Some(row)
  {
    hide Position, Eval, AssignmentMap, NewFields;
    AssignmentMapMeans(st.assignments, src.columns);
    var assigns := AssignmentMap(st.assignments, src.columns).value;
    if NewFields(assigns, 0, [src], rec).None? {
      var col := NewFieldsFail(assigns, 0, [src], rec);
      var a := SetBy(st, src, col);
      assert false;
    } else {
      var made := NewFields(assigns, 0, [src], rec).value;
      NewFieldsLong(assigns, 0, [src], rec);
      forall col: nat | col < |row| ensures made[col] == row[col] {
        NewFieldsAt(assigns, 0, [src], rec, col);
        if assigns[col].Some? {
          var a := SetBy(st, src, col);
        } else {
          forall a | a in st.assignments ensures !Sets(a, src.columns, col) {
            var i :| 0 <= i < |st.assignments| && st.assignments[i] == a;
          }
        }
      }
      assert |made| == |assigns| == |row|;
      assert made == row;
    }
  }

  /** The assignment that gave a column its expression. */
  lemma SetBy(st: UpdateStmt, src: RowSource, col: nat) returns (a: Assignment)
    requires AssignmentMap(st.assignments, src.columns).Success?
    requires var assigns := AssignmentMap(st.assignments, src.columns).value; col < |assigns| && assigns[col].Some?
    ensures a in st.assignments && Sets(a, src.columns, col)
    ensures AssignmentMap(st.assignments, src.columns).value[col] == Some(a.value)
  {
    hide Position, AssignmentMap;
    AssignmentMapMeans(st.assignments, src.columns);
    var i :| 0 <= i < |st.assignments| && Sets(st.assignments[i], src.columns, col);
    a := st.assignments[i];
  }

  /** The table of the statement as the only source of its expressions. */
  function StatementSource(st: UpdateStmt, cat: Catalog): RowSource
    requires st.table in cat
  {
    RowSource(st.table, None, 0, cat[st.table].columns)
  }

  /** The condition can be computed on the row. */
  ghost predicate Decided(st: UpdateStmt, src: RowSource, rec: Record) {
    st.whereClause.Some? ==> Eval(st.whereClause.value, [src], [rec]).Some?
  }

  /** The condition lets the row through. */
  ghost predicate Accepted(st: UpdateStmt, src: RowSource, rec: Record) {
    st.whereClause.Some? ==> Eval(st.whereClause.value, [src], [rec]).Some? && IsTruthy(Eval(st.whereClause.value, [src], [rec]).value)
  }

  /** Nothing fails on the row: the condition can be computed, and so can the new row if the condition accepts. */
  ghost predicate Computable(st: UpdateStmt, src: RowSource, rec: Record) {
    Decided(st, src, rec) && (Accepted(st, src, rec) ==> exists row :: Assigned(st, src, rec, row))
  }

  /** Nothing fails on the row, and the new row can be stored. */
  ghost predicate Doable(fc: FloatCodec, st: UpdateStmt, src: RowSource, rec: Record) {
    Computable(st, src, rec) && (Accepted(st, src, rec) ==> forall row :: Assigned(st, src, rec, row) ==> Storable(fc, row))
  }

  /** A row the condition rejects stays, and one it accepts has the assignments carried out. */
  ghost predicate Becomes(st: UpdateStmt, src: RowSource, was: Record, now: Record) {
    Decided(st, src, was) && if Accepted(st, src, was) then Assigned(st, src, was, now) else now == was
  }

  lemma RowMeans(fc: FloatCodec, st: UpdateStmt, src: RowSource, rec: Record)
    requires AssignmentMap(st.assignments, src.columns).Success?
    ensures var r := NewRow(fc, st.whereClause, AssignmentMap(st.assignments, src.columns).value, [src], rec);
            && (!Computable(st, src, rec) ==> r == None)
            && (Doable(fc, st, src, rec) ==> r.Some? && Becomes(st, src, rec, r.value))
  {
    hide NewFields, RecordBytes, Assigned, AssignmentMap, Eval;
    AssignedIff(st, src, rec);
    forall row | Storable(fc, row) ensures RecordFromRegister(fc, Blob(RecordBytes(fc, row))) == Some(row) { MakeRecordBack(fc, row); }
  }

  /**
   Row by row: keys stay, and if nothing fails up to row i it is as the statement says, each column evaluated on the
   old row; from the first row on that fails nothing changes.
   */
  lemma RowUpdated(fc: FloatCodec, st: UpdateStmt, cat: Catalog, cells: seq<Cell>, i: nat)
    requires UpdateParts(st, cat).Success? && i < |cells|
    ensures var src := StatementSource(st, cat); var now := UpdatedTable(fc, st, cat, cells);
            && |now.cells| == |cells| && now.cells[i].key == cells[i].key
            && ((forall j :: 0 <= j <= i ==> Doable(fc, st, src, cells[j].val)) ==> Becomes(st, src, cells[i].val, now.cells[i].val))
            && ((exists j :: 0 <= j <= i && !Computable(st, src, cells[j].val)) ==> !now.ok && now.cells[i] == cells[i])
  {
    hide NewRow, Doable, Becomes, Computable;
    var src := StatementSource(st, cat);
    UpdateCellsAt(fc, st.whereClause, AssignmentMap(st.assignments, src.columns).value, [src], cells, i);
    forall j | 0 <= j <= i ensures RowOutcome(fc, st, src, cells[j].val) { RowMeans(fc, st, src, cells[j].val); }
    assert RowOutcome(fc, st, src, cells[i].val);
  }

  ghost predicate RowOutcome(fc: FloatCodec, st: UpdateStmt, src: RowSource, rec: Record)
    requires AssignmentMap(st.assignments, src.columns).Success?
  {
    var r := NewRow(fc, st.whereClause, AssignmentMap(st.assignments, src.columns).value, [src], rec);
    && (!Computable(st, src, rec) ==> r == None)
    && (Doable(fc, st, src, rec) ==> r.Some? && Becomes(st, src, rec, r.value))
  }

  /** The statement gets through whenever nothing fails on any row and the new rows can be stored. */
  lemma UpdateSucceeds(fc: FloatCodec, st: UpdateStmt, cat: Catalog, cells: seq<Cell>)
    requires UpdateParts(st, cat).Success?
    requires forall i :: 0 <= i < |cells| ==> Doable(fc, st, StatementSource(st, cat), cells[i].val)
    ensures UpdatedTable(fc, st, cat, cells).ok
  {
    hide NewRow, Doable, Becomes, Computable;
    var src := StatementSource(st, cat);
    var assigns := AssignmentMap(st.assignments, src.columns).value;
    forall i | 0 <= i < |cells| ensures NewRow(fc, st.whereClause, assigns, [src], cells[i].val).Some? {
      RowMeans(fc, st, src, cells[i].val);
    }
    AllRowsOk(fc, st.whereClause, assigns, src, cells);
  }

  /**
   was becomes now: the same keys in the same order; up to the first row that fails every row is as the statement says,
   and from there on nothing changes. The statement gets through if it fails on no row.
   */
  ghost predicate Carried(fc: FloatCodec, st: UpdateStmt, src: RowSource, was: seq<Cell>, now: seq<Cell>, ok: bool) {
    |now| == |was| && (forall i: nat :: i < |was| ==> RowCarried(fc, st, src, was, now, ok, i)) && (AllDoable(fc, st, src, was, |was|) ==> ok)
  }

  ghost predicate RowCarried(fc: FloatCodec, st: UpdateStmt, src: RowSource, was: seq<Cell>, now: seq<Cell>, ok: bool, i: nat)
    requires i < |was| == |now|
  {
    && now[i].key == was[i].key
    && (AllDoable(fc, st, src, was, i + 1) ==> Becomes(st, src, was[i].val, now[i].val))
    && ((exists j :: 0 <= j <= i && !Computable(st, src, was[j].val)) ==> !ok && now[i] == was[i])
  }

  /** The first n rows are. */
  ghost predicate AllDoable(fc: FloatCodec, st: UpdateStmt, src: RowSource, cells: seq<Cell>, n: nat)
    requires n <= |cells|
  {
    forall i :: 0 <= i < n ==> Doable(fc, st, src, cells[i].val)
  }

  lemma UpdateMeans(fc: FloatCodec, st: UpdateStmt, cat: Catalog, cells: seq<Cell>)
    requires UpdateParts(st, cat).Success?
    ensures var now := UpdatedTable(fc, st, cat, cells); Carried(fc, st, StatementSource(st, cat), cells, now.cells, now.ok)
  {
    hide UpdatedTable, Doable, Becomes, Computable;
    var src, now := StatementSource(st, cat), UpdatedTable(fc, st, cat, cells);
    if cells == [] { UpdatedLong(fc, st, cat, cells); } else { RowUpdated(fc, st, cat, cells, 0); }
    forall i: nat | i < |cells| ensures RowCarried(fc, st, src, cells, now.cells, now.ok, i) {
      RowUpdated(fc, st, cat, cells, i);
    }
    if AllDoable(fc, st, src, cells, |cells|) { UpdateSucceeds(fc, st, cat, cells); }
  }

  lemma UpdatedLong(fc: FloatCodec, st: UpdateStmt, cat: Catalog, cells: seq<Cell>)
    requires UpdateParts(st, cat).Success? && cells == []
    ensures UpdatedTable(fc, st, cat, cells).cells == []
  {
  }

  // ---------------------------------------------------------------- which statements there is a program for

  ghost predicate CompilableUpdate(st: UpdateStmt, cat: Catalog) {
    && st.table in cat && Distinctly(st.assignments, cat[st.table].columns)
    && (st.whereClause.Some? ==> Compilable(st.whereClause.value, [StatementSource(st, cat)]))
    && forall a :: a in st.assignments ==> Compilable(a.value, [StatementSource(st, cat)])
  }

  /** A column is refused for its qualifier if that is not the table's name, and else if the table has no such column. */
  lemma ColumnRefused(st: UpdateStmt, cat: Catalog, table: Option<string>, name: string, reg: nat)
    requires st.table in cat
    ensures var r := TableExprCode(Column(table, name), StatementSource(st, cat), reg);
            && (r == Failure(NoQualifier(if table.Some? then table.value else "")) <==> table.Some? && !SameLetters(st.table, table.value))
            && (r == Failure(NoColumn(name)) <==>
                  (table.Some? ==> SameLetters(st.table, table.value)) && forall c :: c in cat[st.table].columns ==> !SameLetters(c, name))
            && (r.Failure? ==> r.error.NoQualifier? || r.error == NoColumn(name))
  {
    hide ExprCode, SameLetters, SameName;
    forall a: string, b: string ensures SameName(a, b) <==> SameLetters(a, b) { NameMeans(a, b); }
    OneSource(StatementSource(st, cat), table, name);
  }

  lemma {:induction false} FieldsCompile(assigns: seq<Option<Expr>>, col: nat, src: RowSource, reg: nat)
    requires col <= |assigns|
    ensures FieldsCode(assigns, col, src, reg).Success? <==> forall i :: col <= i < |assigns| && assigns[i].Some? ==> Compilable(assigns[i].value, [src])
    decreases |assigns| - col
  {
    hide ExprCode, TableExprCode, Compilable;
    if col < |assigns| {
      if assigns[col].Some? { CodeWhenClear(assigns[col].value, [src], reg); }
      var c := ColumnValueCode(assigns[col], col, src, reg);
      if c.Success? { FieldsCompile(assigns, col + 1, src, c.value.next); }
    }
  }

  /** The table is known, the assignments name distinct columns of it, and every name in the expressions is resolved. */
  lemma UpdateCompiles(st: UpdateStmt, cat: Catalog)
    ensures UpdateParts(st, cat).Success? <==> CompilableUpdate(st, cat)
  {
    hide ExprCode, TableExprCode, Compilable, FieldsCode, AssignmentMap, Maps, Distinctly;
    if st.table in cat {
      var src := StatementSource(st, cat);
      AssignmentMapMeans(st.assignments, src.columns);
      if AssignmentMap(st.assignments, src.columns).Success? {
        ValuesCompile(st, src);
        if st.whereClause.Some? { CodeWhenClear(st.whereClause.value, [src], 0); }
        var cond := WhereCode(st.whereClause, src);
        if cond.Success? { FieldsCompile(AssignmentMap(st.assignments, src.columns).value, 0, src, cond.value.next + 1); }
      }
    }
  }

  /** The expressions of the columns are those of the assignments. */
  lemma ValuesCompile(st: UpdateStmt, src: RowSource)
    requires AssignmentMap(st.assignments, src.columns).Success?
    ensures var assigns := AssignmentMap(st.assignments, src.columns).value;
            (forall i :: 0 <= i < |assigns| && assigns[i].Some? ==> Compilable(assigns[i].value, [src])) <==>
            (forall a :: a in st.assignments ==> Compilable(a.value, [src]))
  {
    hide AssignmentMap, Compilable, Sets, Maps, Distinctly;
    var assigns := AssignmentMap(st.assignments, src.columns).value;
    if forall a :: a in st.assignments ==> Compilable(a.value, [src]) {
      forall i | 0 <= i < |assigns| && assigns[i].Some? ensures Compilable(assigns[i].value, [src]) {
        var a := SetBy(st, src, i);
      }
    }
    if forall i :: 0 <= i < |assigns| && assigns[i].Some? ==> Compilable(assigns[i].value, [src]) {
      forall a | a in st.assignments ensures Compilable(a.value, [src]) {
        var i := ColumnSet(st, src, a);
      }
    }
  }

  /** The column an assignment gives its expression to. */
  lemma ColumnSet(st: UpdateStmt, src: RowSource, a: Assignment) returns (col: nat)
    requires AssignmentMap(st.assignments, src.columns).Success? && a in st.assignments
    ensures var assigns := AssignmentMap(st.assignments, src.columns).value; col < |assigns| && assigns[col] == Some(a.value)
  {
    hide AssignmentMap;
    AssignmentMapMeans(st.assignments, src.columns);
    var i :| 0 <= i < |st.assignments| && st.assignments[i] == a;
    assert Position(src.columns, st.assignments[i].column).Some?;
    col := Position(src.columns, a.column).value;
    assert Sets(st.assignments[i], src.columns, col);
  }

  lemma {:induction false} AllRowsOk(fc: FloatCodec, whereClause: Option<Expr>, assigns: seq<Option<Expr>>, src: RowSource, cells: seq<Cell>)
    requires forall i :: 0 <= i < |cells| ==> NewRow(fc, whereClause, assigns, [src], cells[i].val).Some?
    ensures UpdateCells(fc, whereClause, assigns, [src], cells).ok
    decreases cells
  {
    hide NewRow;
    if cells != [] {
      forall i | 0 <= i < |cells[1..]| ensures NewRow(fc, whereClause, assigns, [src], cells[1..][i].val).Some? { assert cells[1..][i] == cells[i + 1]; }
      AllRowsOk(fc, whereClause, assigns, src, cells[1..]);
    }
  }
}
