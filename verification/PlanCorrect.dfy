/** Running the code of a plan gives the rows the plan denotes. */
module PlanCorrect {
  import opened Values
  import opened SqlSyntax
  import opened Evaluate
  import opened Machine
  import opened Blocks
  import opened PlanCode
  import opened PlanMeaning

  // ---------------------------------------------------------------- straight-line code

  function RunOps(ops: seq<Op>, s: State, db: Tables): Outcome
    decreases ops
  {
    if ops == [] then Ok(s)
    else match RunPrim(ops[0], s, db)
         case Bad(s1) => Bad(s1)
         case Ok(s1) => RunOps(ops[1..], s1, db)
  }

  lemma {:induction false} RunPrims(ops: seq<Op>, s: State, db: Tables)
    ensures RunSeq(Prims(ops), s, db) == RunOps(ops, s, db)
    decreases ops
  {
    hide RunPrim;
    if ops != [] {
      assert RunStmt(Prim(ops[0]), s, db) == RunPrim(ops[0], s, db);
      assert Prims(ops)[1..] == Prims(ops[1..]);
      if RunPrim(ops[0], s, db).Ok? { RunPrims(ops[1..], RunPrim(ops[0], s, db).s, db); }
    }
  }

  lemma {:induction false} RunOpsAppend(a: seq<Op>, b: seq<Op>, s: State, db: Tables)
    ensures RunOps(a + b, s, db) == (match RunOps(a, s, db) case Bad(x) => Bad(x) case Ok(x) => RunOps(b, x, db))
    decreases a
  {
    hide RunPrim;
    if a == [] {
      assert a + b == b;
    } else {
      assert (a + b)[0] == a[0] && (a + b)[1..] == a[1..] + b;
      if RunPrim(a[0], s, db).Ok? { RunOpsAppend(a[1..], b, RunPrim(a[0], s, db).s, db); }
    }
  }

  lemma RunOpsOne(op: Op, s: State, db: Tables)
    ensures RunOps([op], s, db) == RunPrim(op, s, db)
  {
    hide RunPrim;
    assert [op][1..] == [];
  }

  lemma {:induction false} RunSeqAppend(a: seq<Stmt>, b: seq<Stmt>, s: State, db: Tables)
    ensures RunSeq(a + b, s, db) == (match RunSeq(a, s, db) case Bad(x) => Bad(x) case Ok(x) => RunSeq(b, x, db))
    decreases a
  {
    hide RunStmt;
    if a == [] {
      assert a + b == b;
    } else {
      assert (a + b)[0] == a[0] && (a + b)[1..] == a[1..] + b;
      if RunStmt(a[0], s, db).Ok? { RunSeqAppend(a[1..], b, RunStmt(a[0], s, db).s, db); }
    }
  }

  lemma RunSeqOne(st: Stmt, s: State, db: Tables)
    ensures RunSeq([st], s, db) == RunStmt(st, s, db)
  {
    hide RunStmt;
    assert [st][1..] == [];
  }

  // ---------------------------------------------------------------- what code may change

  /** The registers below reg hold what they held. */
  ghost predicate RegsKept(a: seq<Value>, b: seq<Value>, reg: nat) {
    |a| <= |b| && forall i :: 0 <= i < reg && i < |a| ==> b[i] == a[i]
  }

  /** Straight-line code got through, touching only registers from reg on. */
  ghost predicate Quiet(s: State, s1: State, reg: nat) {
    s1 == s.(regs := s1.regs) && RegsKept(s.regs, s1.regs, reg)
  }

  lemma QuietTrans(a: State, b: State, c: State, reg: nat, reg': nat)
    requires Quiet(a, b, reg) && Quiet(b, c, reg') && reg <= reg'
    ensures Quiet(a, c, reg)
  {
  }

  /** Source i of env stands at recs[i]. */
  ghost predicate Fits(env: seq<RowSource>, recs: seq<Record>, s: State, db: Tables) {
    |recs| == |env| && forall i :: 0 <= i < |env| ==> Current(s, db, env[i].cursorId) == Some(recs[i])
  }

  lemma FitsQuiet(env: seq<RowSource>, recs: seq<Record>, s: State, s1: State, db: Tables, reg: nat)
    requires Fits(env, recs, s, db) && Quiet(s, s1, reg)
    ensures Fits(env, recs, s1, db)
  {
    forall i | 0 <= i < |env| ensures Current(s1, db, env[i].cursorId) == Some(recs[i]) {
      assert Current(s, db, env[i].cursorId) == Some(recs[i]);
    }
  }

  // ---------------------------------------------------------------- expressions

  /** Code that leaves v in its register, or fails if there is no v, and otherwise only uses registers from reg on. */
  ghost predicate Computes(o: Outcome, s: State, v: Option<Value>, dest: nat, reg: nat) {
    match v
    case None => o.Bad? && o.s.results == s.results
    case Some(x) => o.Ok? && Quiet(s, o.s, reg) && ReadReg(o.s.regs, dest) == Some(x)
  }

  lemma PutComputes(op: Op, s: State, db: Tables, dest: nat, v: Option<Value>, reg: nat)
    requires Exec(op, s, db) == Put(s, dest, v) && reg <= dest
    ensures Computes(RunPrim(op, s, db), s, v, dest, reg)
  {
  }

  lemma LastOp(ops: seq<Op>, op: Op, s: State, db: Tables, v: Option<Value>, dest: nat, reg: nat)
    requires RunOps(ops, s, db).Ok? && Quiet(s, RunOps(ops, s, db).s, reg) && reg <= dest
    requires Exec(op, RunOps(ops, s, db).s, db) == Put(RunOps(ops, s, db).s, dest, v)
    ensures Computes(RunOps(ops + [op], s, db), s, v, dest, reg)
  {
    hide Exec, Put, RunPrim, RegsKept;
    var s1 := RunOps(ops, s, db).s;
    RunOpsAppend(ops, [op], s, db);
    RunOpsOne(op, s1, db);
    PutComputes(op, s1, db, dest, v, reg);
    if v.Some? { QuietTrans(s, s1, RunPrim(op, s1, db).s, reg, reg); }
  }

  /** The code of an expression leaves its value in its register without disturbing earlier registers. */
  lemma {:induction false} ExprCorrect(e: Expr, env: seq<RowSource>, recs: seq<Record>, reg: nat, s: State, db: Tables)
    requires ExprCode(e, env, reg).Success? && |recs| == |env| && Fits(env, recs, s, db)
    ensures var c := ExprCode(e, env, reg).value;
            && reg <= c.dest < c.next
            && Computes(RunOps(c.ops, s, db), s, Eval(e, env, recs), c.dest, reg)
    decreases e, 1
  {
    hide RunOps, Computes, Fits, Exec, RunPrim;
    ExprPlain(e, env, reg);
    var c := ExprCode(e, env, reg).value;
    match e
    case Lit(l) =>
      LiteralCorrect(l, reg, s, db);
    case Column(table, name) =>
      ColumnCorrect(env, recs, table, name, reg, s, db);
    case Unary(op, a) =>
      ExprCorrect(a, env, recs, reg, s, db);
      UnaryCorrect(op, ExprCode(a, env, reg).value, Eval(a, env, recs), reg, s, db);
    case Binary(l, op, r) =>
      ExprCorrect(l, env, recs, reg, s, db);
      var a := ExprCode(l, env, reg).value;
      BinaryCorrect(l, op, r, env, recs, reg, s, db);
  }

  lemma LiteralCorrect(l: Literal, reg: nat, s: State, db: Tables)
    ensures Computes(RunOps([LiteralOp(l, reg)], s, db), s, LiteralValue(l), reg, reg)
  {
    hide RunPrim, Put, Computes;
    RunOpsOne(LiteralOp(l, reg), s, db);
    PutComputes(LiteralOp(l, reg), s, db, reg, LiteralValue(l), reg);
  }

  lemma ColumnCorrect(env: seq<RowSource>, recs: seq<Record>, table: Option<string>, name: string, reg: nat, s: State, db: Tables)
    requires Fits(env, recs, s, db) && ResolveColumn(env, table, name).Success?
    ensures var r := ResolveColumn(env, table, name).value;
            Computes(RunOps([ReadColumn(env[r.source].cursorId, r.col, reg)], s, db), s, Some(Field(recs[r.source], r.col)), reg, reg)
  {
    hide RunPrim, Put, Computes, Current;
    var r := ResolveColumn(env, table, name).value;
    var op := ReadColumn(env[r.source].cursorId, r.col, reg);
    assert Current(s, db, env[r.source].cursorId) == Some(recs[r.source]);
    RunOpsOne(op, s, db);
    PutComputes(op, s, db, reg, Some(Field(recs[r.source], r.col)), reg);
  }

  function UnaryValue(op: UnaryOp, v: Value): Option<Value> {
    match op
    case Positive => Some(v)
    case Not => Some(BoolValue(!IsTruthy(v)))
    case Negate => NegateValue(v)
  }

  function UnaryOps(op: UnaryOp, c: Code): Code {
    match op
    case Positive => c
    case Not => Code(c.ops + [NotOp(c.dest, c.next)], c.next, c.next + 1)
    case Negate => Code(c.ops + [NegateOp(c.dest, c.next)], c.next, c.next + 1)
  }

  lemma UnaryCorrect(op: UnaryOp, c: Code, v: Option<Value>, reg: nat, s: State, db: Tables)
    requires Computes(RunOps(c.ops, s, db), s, v, c.dest, reg) && reg <= c.dest < c.next
    ensures var u := UnaryOps(op, c);
            Computes(RunOps(u.ops, s, db), s, if v.Some? then UnaryValue(op, v.value) else None, u.dest, reg)
  {
    hide RunPrim, Put, RegsKept, RunOps;
    if op != Positive {
      var last := if op == Not then NotOp(c.dest, c.next) else NegateOp(c.dest, c.next);
      RunOpsAppend(c.ops, [last], s, db);
      if v.Some? { LastOp(c.ops, last, s, db, UnaryValue(op, v.value), c.next, reg); }
    }
  }

  lemma {:induction false} BinaryCorrect(l: Expr, op: BinaryOp, r: Expr, env: seq<RowSource>, recs: seq<Record>, reg: nat, s: State, db: Tables)
    requires ExprCode(Binary(l, op, r), env, reg).Success? && |recs| == |env| && Fits(env, recs, s, db)
    requires ExprCode(l, env, reg).Success?
    requires var a := ExprCode(l, env, reg).value;
             reg <= a.dest < a.next && Computes(RunOps(a.ops, s, db), s, Eval(l, env, recs), a.dest, reg)
    ensures var c := ExprCode(Binary(l, op, r), env, reg).value;
            Computes(RunOps(c.ops, s, db), s, Eval(Binary(l, op, r), env, recs), c.dest, reg)
    decreases Binary(l, op, r), 0
  {
    hide RunPrim, Put, RegsKept, RunOps, Fits, Eval, ExprCode;
    var a := ExprCode(l, env, reg).value;
    BinaryParts(l, op, r, env, recs, reg);
    var b := ExprCode(r, env, a.next).value;
    RunOpsAppend(a.ops, b.ops, s, db);
    RunOpsAppend(a.ops + b.ops, [Compute(op, a.dest, b.dest, b.next)], s, db);
    if Eval(l, env, recs).Some? {
      var s1 := RunOps(a.ops, s, db).s;
      FitsQuiet(env, recs, s, s1, db, reg);
      ExprCorrect(r, env, recs, a.next, s1, db);
      if Eval(r, env, recs).Some? {
        var s2 := RunOps(b.ops, s1, db).s;
        QuietTrans(s, s1, s2, reg, a.next);
        KeepsReg(s1, s2, a.dest, a.next);
        LastOp(a.ops + b.ops, Compute(op, a.dest, b.dest, b.next), s, db,
               BinaryValue(op, Eval(l, env, recs).value, Eval(r, env, recs).value), b.next, reg);
      }
    }
  }

  lemma KeepsReg(s1: State, s2: State, dest: nat, reg: nat)
    requires Quiet(s1, s2, reg) && dest < reg && ReadReg(s1.regs, dest).Some?
    ensures ReadReg(s2.regs, dest) == ReadReg(s1.regs, dest)
  {
  }

  lemma BinaryParts(l: Expr, op: BinaryOp, r: Expr, env: seq<RowSource>, recs: seq<Record>, reg: nat)
    requires ExprCode(Binary(l, op, r), env, reg).Success? && |recs| == |env|
    ensures ExprCode(l, env, reg).Success? && ExprCode(r, env, ExprCode(l, env, reg).value.next).Success?
    ensures var a := ExprCode(l, env, reg).value; var b := ExprCode(r, env, a.next).value;
            ExprCode(Binary(l, op, r), env, reg).value == Code(a.ops + b.ops + [Compute(op, a.dest, b.dest, b.next)], b.next, b.next + 1)
    ensures Eval(Binary(l, op, r), env, recs) ==
            (if Eval(l, env, recs).Some? && Eval(r, env, recs).Some? then BinaryValue(op, Eval(l, env, recs).value, Eval(r, env, recs).value) else None)
  {
  }

  // ---------------------------------------------------------------- result rows

  ghost predicate FieldsIn(fs: seq<nat>, from: nat, to: nat) {
    forall i :: 0 <= i < |fs| ==> from <= fs[i] < to
  }

  /** Code that leaves the fields of a row in registers, or fails if there is no row. */
  ghost predicate RowComputes(o: Outcome, s: State, row: Option<Record>, fs: seq<nat>, reg: nat) {
    match row
    case None => o.Bad? && o.s.results == s.results
    case Some(r) => o.Ok? && Quiet(s, o.s, reg) && Fields(o.s.regs, fs) == Some(r)
  }

  lemma {:induction false} FieldsKept(s1: State, s2: State, fs: seq<nat>, reg: nat)
    requires Quiet(s1, s2, reg) && FieldsIn(fs, 0, reg) && Fields(s1.regs, fs).Some?
    ensures Fields(s2.regs, fs) == Fields(s1.regs, fs)
    decreases fs
  {
    if fs != [] {
      KeepsReg(s1, s2, fs[0], reg);
      FieldsKept(s1, s2, fs[1..], reg);
    }
  }

  lemma {:induction false} FieldsAppend(regs: seq<Value>, a: seq<nat>, b: seq<nat>)
    requires Fields(regs, a).Some? && Fields(regs, b).Some?
    ensures Fields(regs, a + b) == Some(Fields(regs, a).value + Fields(regs, b).value)
    decreases a
  {
    if a == [] {
      assert a + b == b;
      assert [] + Fields(regs, b).value == Fields(regs, b).value;
    } else {
      assert (a + b)[0] == a[0] && (a + b)[1..] == a[1..] + b;
      FieldsAppend(regs, a[1..], b);
      var v, x, y := ReadReg(regs, a[0]).value, Fields(regs, a[1..]).value, Fields(regs, b).value;
      assert [v] + (x + y) == ([v] + x) + y;
    }
  }

  /** One row's code after another's. */
  lemma RowsJoin(a: RowCode, b: RowCode, s: State, db: Tables, x: Option<Record>, y: Option<Record>, reg: nat)
    requires RowComputes(RunOps(a.ops, s, db), s, x, a.fields, reg) && FieldsIn(a.fields, reg, a.next) && reg <= a.next
    requires x.Some? ==> RowComputes(RunOps(b.ops, RunOps(a.ops, s, db).s, db), RunOps(a.ops, s, db).s, y, b.fields, a.next)
    ensures RowComputes(RunOps(a.ops + b.ops, s, db), s,
                        if x.Some? && y.Some? then Some(x.value + y.value) else None, a.fields + b.fields, reg)
  {
    hide RunOps, Fields, RegsKept;
    RunOpsAppend(a.ops, b.ops, s, db);
    if x.Some? && y.Some? {
      var s1 := RunOps(a.ops, s, db).s;
      var s2 := RunOps(b.ops, s1, db).s;
      QuietTrans(s, s1, s2, reg, a.next);
      FieldsKept(s1, s2, a.fields, a.next);
      FieldsAppend(s2.regs, a.fields, b.fields);
    }
  }

  lemma FieldsInJoin(a: seq<nat>, b: seq<nat>, from: nat, mid: nat, to: nat)
    requires FieldsIn(a, from, mid) && FieldsIn(b, mid, to) && from <= mid <= to
    ensures FieldsIn(a + b, from, to)
  {
  }

  lemma {:induction false} SourceColumnsCorrect(src: RowSource, rec: Record, col: nat, reg: nat, s: State, db: Tables)
    requires col <= |src.columns| && Current(s, db, src.cursorId) == Some(rec)
    ensures var c := SourceColumns(src, col, reg);
            && reg <= c.next && FieldsIn(c.fields, reg, c.next)
            && RowComputes(RunOps(c.ops, s, db), s, Some(SourceFields(src, rec, col)), c.fields, reg)
    decreases |src.columns| - col
  {
    hide RunOps, RunPrim, Current;
    if col == |src.columns| {
      assert RunOps([], s, db) == Ok(s) by { NoOps(s, db); }
    } else {
      var op := ReadColumn(src.cursorId, col, reg);
      RunOpsOne(op, s, db);
      PutComputes(op, s, db, reg, Some(Field(rec, col)), reg);
      var s1 := RunOps([op], s, db).s;
      assert Current(s1, db, src.cursorId) == Some(rec) by { SameCurrent(s, s1, db, src.cursorId); }
      SourceColumnsCorrect(src, rec, col + 1, reg + 1, s1, db);
      var a := RowCode([op], [reg], reg + 1);
      OneField(s1.regs, reg);
      RowsJoin(a, SourceColumns(src, col + 1, reg + 1), s, db, Some([Field(rec, col)]), Some(SourceFields(src, rec, col + 1)), reg);
      FieldsInJoin([reg], SourceColumns(src, col + 1, reg + 1).fields, reg, reg + 1, SourceColumns(src, col + 1, reg + 1).next);
    }
  }

  lemma NoOps(s: State, db: Tables)
    ensures RunOps([], s, db) == Ok(s)
  {
  }

  lemma OneField(regs: seq<Value>, reg: nat)
    requires ReadReg(regs, reg).Some?
    ensures Fields(regs, [reg]) == Some([ReadReg(regs, reg).value])
  {
    var fs := [reg];
    assert fs[1..] == [];
    assert Fields(regs, fs[1..]) == Some([]);
    assert [ReadReg(regs, reg).value] + [] == [ReadReg(regs, reg).value];
  }

  lemma SameCurrent(s: State, s1: State, db: Tables, c: nat)
    requires s1.cursors == s.cursors
    ensures Current(s1, db, c) == Current(s, db, c)
  {
  }

  lemma {:induction false} AllColumnsCorrect(env: seq<RowSource>, recs: seq<Record>, reg: nat, s: State, db: Tables)
    requires |recs| == |env| && Fits(env, recs, s, db)
    ensures var c := AllColumns(env, reg);
            && reg <= c.next && FieldsIn(c.fields, reg, c.next)
            && RowComputes(RunOps(c.ops, s, db), s, Some(AllFields(env, recs)), c.fields, reg)
    decreases env
  {
    hide RunOps, SourceColumns, Current, SourceFields;
    if env == [] {
      NoOps(s, db);
    } else {
      assert Current(s, db, env[0].cursorId) == Some(recs[0]);
      SourceColumnsCorrect(env[0], recs[0], 0, reg, s, db);
      var a := SourceColumns(env[0], 0, reg);
      var s1 := RunOps(a.ops, s, db).s;
      FitsTail(env, recs, s, db);
      FitsQuiet(env[1..], recs[1..], s, s1, db, reg);
      AllColumnsCorrect(env[1..], recs[1..], a.next, s1, db);
      var b := AllColumns(env[1..], a.next);
      RowsJoin(a, b, s, db, Some(SourceFields(env[0], recs[0], 0)), Some(AllFields(env[1..], recs[1..])), reg);
      FieldsInJoin(a.fields, b.fields, reg, a.next, b.next);
    }
  }

  lemma FitsTail(env: seq<RowSource>, recs: seq<Record>, s: State, db: Tables)
    requires Fits(env, recs, s, db) && env != []
    ensures Fits(env[1..], recs[1..], s, db)
  {
    hide Current;
    var e, r := env[1..], recs[1..];
    forall i | 0 <= i < |e| ensures Current(s, db, e[i].cursorId) == Some(r[i]) {
      assert Current(s, db, env[i + 1].cursorId) == Some(recs[i + 1]);
    }
  }

  lemma ItemCorrect(item: ProjectionItem, env: seq<RowSource>, recs: seq<Record>, reg: nat, s: State, db: Tables)
    requires ItemCode(item, env, reg).Success? && |recs| == |env| && Fits(env, recs, s, db)
    ensures var c := ItemCode(item, env, reg).value;
            && reg <= c.next && FieldsIn(c.fields, reg, c.next)
            && RowComputes(RunOps(c.ops, s, db), s, ItemValues(item, env, recs), c.fields, reg)
  {
    hide RunOps, Fits, ExprCode, Eval, AllColumns, AllFields;
    match item
    case Wildcard => AllColumnsCorrect(env, recs, reg, s, db);
    case ExprItem(e, _) =>
      ExprCorrect(e, env, recs, reg, s, db);
      var c := ExprCode(e, env, reg).value;
      if Eval(e, env, recs).Some? { OneField(RunOps(c.ops, s, db).s.regs, c.dest); }
  }

  lemma {:induction false} ItemsCorrect(items: seq<ProjectionItem>, env: seq<RowSource>, recs: seq<Record>, reg: nat, s: State, db: Tables)
    requires ItemsCode(items, env, reg).Success? && |recs| == |env| && Fits(env, recs, s, db)
    ensures var c := ItemsCode(items, env, reg).value;
            && reg <= c.next && FieldsIn(c.fields, reg, c.next)
            && RowComputes(RunOps(c.ops, s, db), s, ItemsValues(items, env, recs), c.fields, reg)
    decreases items
  {
    hide RunOps, Fits, ItemCode, ItemValues;
    if items == [] {
      NoOps(s, db);
    } else {
      ItemCorrect(items[0], env, recs, reg, s, db);
      var a := ItemCode(items[0], env, reg).value;
      var b := ItemsCode(items[1..], env, a.next).value;
      var x := ItemValues(items[0], env, recs);
      ItemsPlain(items[1..], env, a.next);
      if x.Some? {
        var s1 := RunOps(a.ops, s, db).s;
        FitsQuiet(env, recs, s, s1, db, reg);
        ItemsCorrect(items[1..], env, recs, a.next, s1, db);
      }
      RowsJoin(a, b, s, db, x, ItemsValues(items[1..], env, recs), reg);
      ItemsFields(items[1..], env, a.next);
      FieldsInJoin(a.fields, b.fields, reg, a.next, b.next);
    }
  }

  lemma {:induction false} ItemsFields(items: seq<ProjectionItem>, env: seq<RowSource>, reg: nat)
    requires ItemsCode(items, env, reg).Success?
    ensures var c := ItemsCode(items, env, reg).value; reg <= c.next && FieldsIn(c.fields, reg, c.next)
    decreases items
  {
    if items != [] {
      var a := ItemCode(items[0], env, reg).value;
      match items[0] {
        case Wildcard => ColumnsFields(env, reg);
        case ExprItem(e, _) => ExprPlain(e, env, reg);
      }
      ItemsFields(items[1..], env, a.next);
      FieldsInJoin(a.fields, ItemsCode(items[1..], env, a.next).value.fields, reg, a.next, ItemsCode(items[1..], env, a.next).value.next);
    }
  }

  lemma {:induction false} ColumnsFields(env: seq<RowSource>, reg: nat)
    ensures var c := AllColumns(env, reg); reg <= c.next && FieldsIn(c.fields, reg, c.next)
    decreases env
  {
    if env != [] {
      SourceColumnsFields(env[0], 0, reg);
      var a := SourceColumns(env[0], 0, reg);
      ColumnsFields(env[1..], a.next);
      FieldsInJoin(a.fields, AllColumns(env[1..], a.next).fields, reg, a.next, AllColumns(env[1..], a.next).next);
    }
  }

  lemma {:induction false} SourceColumnsFields(src: RowSource, col: nat, reg: nat)
    requires col <= |src.columns|
    ensures var c := SourceColumns(src, col, reg); reg <= c.next && FieldsIn(c.fields, reg, c.next)
    decreases |src.columns| - col
  {
    if col < |src.columns| {
      SourceColumnsFields(src, col + 1, reg + 1);
      FieldsInJoin([reg], SourceColumns(src, col + 1, reg + 1).fields, reg, reg + 1, SourceColumns(src, col + 1, reg + 1).next);
    }
  }

  // ---------------------------------------------------------------- join conditions

  lemma FitsSlice(env: seq<RowSource>, recs: seq<Record>, n: nat, s: State, db: Tables)
    requires Fits(env, recs, s, db)
    ensures |LeftSources(env, n)| == |LeftRecs(recs, n)| && Fits(LeftSources(env, n), LeftRecs(recs, n), s, db)
    ensures |RightSources(env, n)| == |RightRecs(recs, n)| && Fits(RightSources(env, n), RightRecs(recs, n), s, db)
  {
    hide Current;
    var e, r := RightSources(env, n), RightRecs(recs, n);
    forall i | 0 <= i < |e| ensures Current(s, db, e[i].cursorId) == Some(r[i]) {
      assert Current(s, db, env[n + i].cursorId) == Some(recs[n + i]);
    }
    var e', r' := LeftSources(env, n), LeftRecs(recs, n);
    forall i | 0 <= i < |e'| ensures Current(s, db, e'[i].cursorId) == Some(r'[i]) {
      assert Current(s, db, env[i].cursorId) == Some(recs[i]);
    }
  }

  lemma UsingColumnCorrect(sources: seq<RowSource>, recs: seq<Record>, name: string, reg: nat, s: State, db: Tables)
    requires UsingColumn(sources, name, reg).Success? && |recs| == |sources| && Fits(sources, recs, s, db)
    ensures var c := UsingColumn(sources, name, reg).value;
            && c.dest == reg && c.next == reg + 1 && UsingField(sources, recs, name).Some?
            && Computes(RunOps(c.ops, s, db), s, UsingField(sources, recs, name), reg, reg)
  {
    hide RunOps, Fits, Computes;
    ColumnCorrect(sources, recs, None, name, reg, s, db);
  }

  /** The register of the outcome so far, if there is one, tells whether the columns before all agreed. */
  ghost predicate SoFar(current: Option<nat>, s: State, b: bool, reg: nat) {
    match current
    case None => b
    case Some(r) => r < reg && ReadReg(s.regs, r) == Some(BoolValue(b))
  }

  /** One USING column: both sides are read and compared. */
  lemma PairCorrect(column: string, env: seq<RowSource>, n: nat, recs: seq<Record>, reg: nat, s: State, db: Tables)
    requires |recs| == |env| && Fits(env, recs, s, db)
    requires UsingColumn(LeftSources(env, n), column, reg).Success?
    requires UsingColumn(RightSources(env, n), column, reg + 1).Success?
    ensures UsingField(LeftSources(env, n), LeftRecs(recs, n), column).Some?
    ensures UsingField(RightSources(env, n), RightRecs(recs, n), column).Some?
    ensures var a := UsingColumn(LeftSources(env, n), column, reg).value;
            var b := UsingColumn(RightSources(env, n), column, reg + 1).value;
            var x := UsingField(LeftSources(env, n), LeftRecs(recs, n), column).value;
            var y := UsingField(RightSources(env, n), RightRecs(recs, n), column).value;
            && a.dest == reg && a.next == reg + 1 && b.dest == reg + 1 && b.next == reg + 2
            && Computes(RunOps(a.ops + b.ops + [Compute(Eq, reg, reg + 1, reg + 2)], s, db), s,
                        Some(BoolValue(CompareValues(x, y) == Same)), reg + 2, reg)
  {
    hide RunOps, Fits, RegsKept, UsingColumn, UsingField, CompareValues, LeftSources, RightSources, LeftRecs, RightRecs;
    FitsSlice(env, recs, n, s, db);
    UsingColumnCorrect(LeftSources(env, n), LeftRecs(recs, n), column, reg, s, db);
    var a := UsingColumn(LeftSources(env, n), column, reg).value;
    var s1 := RunOps(a.ops, s, db).s;
    FitsQuiet(env, recs, s, s1, db, reg);
    FitsSlice(env, recs, n, s1, db);
    UsingColumnCorrect(RightSources(env, n), RightRecs(recs, n), column, reg + 1, s1, db);
    var b := UsingColumn(RightSources(env, n), column, reg + 1).value;
    var s2 := RunOps(b.ops, s1, db).s;
    RunOpsAppend(a.ops, b.ops, s, db);
    QuietTrans(s, s1, s2, reg, reg + 1);
    KeepsReg(s1, s2, reg, reg + 1);
    var x := UsingField(LeftSources(env, n), LeftRecs(recs, n), column).value;
    var y := UsingField(RightSources(env, n), RightRecs(recs, n), column).value;
    LastOp(a.ops + b.ops, Compute(Eq, reg, reg + 1, reg + 2), s, db, Some(BoolValue(CompareValues(x, y) == Same)), reg + 2, reg);
  }

  /** The comparison joined to the outcome so far. */
  lemma BothCorrect(ops: seq<Op>, current: Option<nat>, s: State, db: Tables, b: bool, eq: bool, reg: nat)
    requires Computes(RunOps(ops, s, db), s, Some(BoolValue(eq)), reg + 2, reg) && SoFar(current, s, b, reg)
    ensures var both := if current.Some? then [Compute(And, current.value, reg + 2, reg + 3)] else [];
            var at := reg + 2 + |both|;
            Computes(RunOps(ops + both, s, db), s, Some(BoolValue(b && eq)), at, reg)
  {
    hide RunOps, RegsKept;
    if current.Some? {
      var s1 := RunOps(ops, s, db).s;
      KeepsReg(s, s1, current.value, reg);
      BoolTruth(b);
      BoolTruth(eq);
      LastOp(ops, Compute(And, current.value, reg + 2, reg + 3), s, db, Some(BoolValue(b && eq)), reg + 3, reg);
    } else {
      assert ops + [] == ops;
    }
  }

  lemma {:induction false} UsingCorrect(columns: seq<string>, env: seq<RowSource>, n: nat, current: Option<nat>, recs: seq<Record>, reg: nat, s: State, db: Tables, b: bool)
    requires UsingCode(columns, env, n, current, reg).Success? && |recs| == |env| && Fits(env, recs, s, db)
    requires SoFar(current, s, b, reg)
    ensures var c := UsingCode(columns, env, n, current, reg).value; var o := RunOps(c.ops, s, db);
            && reg <= c.next && o.Ok? && Quiet(s, o.s, reg)
            && UsingHolds(columns, env, n, recs).Some?
            && SoFar(c.cond, o.s, b && UsingHolds(columns, env, n, recs).value, c.next)
    decreases columns
  {
    hide RunOps, Fits, RegsKept, UsingColumn, UsingField, CompareValues;
    if columns == [] {
      NoOps(s, db);
      QuietSelf(s, reg);
    } else {
      UsingStep(columns, env, n, current, recs, reg, s, db, b);
    }
  }

  lemma QuietSelf(s: State, reg: nat)
    ensures Quiet(s, s, reg)
  {
  }

  lemma {:induction false} UsingStep(columns: seq<string>, env: seq<RowSource>, n: nat, current: Option<nat>, recs: seq<Record>, reg: nat, s: State, db: Tables, b: bool)
    requires columns != [] && UsingCode(columns, env, n, current, reg).Success? && |recs| == |env| && Fits(env, recs, s, db)
    requires SoFar(current, s, b, reg)
    ensures var c := UsingCode(columns, env, n, current, reg).value; var o := RunOps(c.ops, s, db);
            && reg <= c.next && o.Ok? && Quiet(s, o.s, reg)
            && UsingHolds(columns, env, n, recs).Some?
            && SoFar(c.cond, o.s, b && UsingHolds(columns, env, n, recs).value, c.next)
    decreases columns, 0
  {
    hide RunOps, Fits, RegsKept, UsingColumn, UsingField, CompareValues, LeftSources, RightSources, LeftRecs, RightRecs;
    FitsSlice(env, recs, n, s, db);
    var a := UsingColumn(LeftSources(env, n), columns[0], reg).value;
    UsingNext(LeftSources(env, n), columns[0], reg);
    var b2 := UsingColumn(RightSources(env, n), columns[0], a.next).value;
    UsingNext(RightSources(env, n), columns[0], a.next);
    PairCorrect(columns[0], env, n, recs, reg, s, db);
    var x := UsingField(LeftSources(env, n), LeftRecs(recs, n), columns[0]).value;
    var y := UsingField(RightSources(env, n), RightRecs(recs, n), columns[0]).value;
    var eq := CompareValues(x, y) == Same;
    var ops := a.ops + b2.ops + [Compute(Eq, a.dest, b2.dest, b2.next)];
    var both := if current.Some? then [Compute(And, current.value, b2.next, b2.next + 1)] else [];
    var at := b2.next + |both|;
    BothCorrect(ops, current, s, db, b, eq, reg);
    var s1 := RunOps(ops + both, s, db).s;
    FitsQuiet(env, recs, s, s1, db, reg);
    var rest := UsingCode(columns[1..], env, n, Some(at), at + 1).value;
    UsingCorrect(columns[1..], env, n, Some(at), recs, at + 1, s1, db, b && eq);
    RunOpsAppend(ops + both, rest.ops, s, db);
    var s2 := RunOps(rest.ops, s1, db).s;
    QuietTrans(s, s1, s2, reg, at + 1);
    assert UsingCode(columns, env, n, current, reg).value == CondCode(ops + both + rest.ops, rest.cond, rest.next);
  }

  lemma UsingNext(sources: seq<RowSource>, name: string, reg: nat)
    requires UsingColumn(sources, name, reg).Success?
    ensures UsingColumn(sources, name, reg).value.dest == reg && UsingColumn(sources, name, reg).value.next == reg + 1
  {
  }

  /** The code of a join constraint tells whether the joined rows satisfy it. */
  lemma ConstraintCorrect(c: JoinConstraint, env: seq<RowSource>, n: nat, recs: seq<Record>, reg: nat, s: State, db: Tables)
    requires ConstraintCode(c, env, n, reg).Success? && |recs| == |env| && Fits(env, recs, s, db)
    ensures var cc := ConstraintCode(c, env, n, reg).value; var o := RunOps(cc.ops, s, db); var h := JoinHolds(c, env, n, recs);
            && reg <= cc.next
            && (h.None? ==> o.Bad? && o.s.results == s.results && cc.cond.Some?)
            && (h.Some? ==> o.Ok? && Quiet(s, o.s, reg)
                            && (cc.cond.None? ==> h.value && o.s == s)
                            && (cc.cond.Some? ==> ReadReg(o.s.regs, cc.cond.value).Some?
                                                  && (IsTruthy(ReadReg(o.s.regs, cc.cond.value).value) <==> h.value)))
  {
    hide RunOps, Fits, RegsKept, Eval, ExprCode;
    match c
    case NoConstraint =>
      NoOps(s, db);
      QuietSelf(s, reg);
    case On(e) =>
      ExprCorrect(e, env, recs, reg, s, db);
    case Using(columns) =>
      UsingCorrect(columns, env, n, None, recs, reg, s, db, true);
      UsingPlain(columns, env, n, None, reg);
      NoOps(s, db);
      BoolTruth(UsingHolds(columns, env, n, recs).value);
  }

  // ---------------------------------------------------------------- rows

  /** The outcome of code that pushes rows: the results are those of the flow, and cursors and earlier registers are kept. */
  ghost predicate Delivers(o: Outcome, s: State, flow: Flow, reg: nat) {
    match flow
    case Broken(rows) => o.Bad? && o.s.results == rows
    case Go(rows) => o.Ok? && o.s.results == rows && o.s.cursors == s.cursors && RegsKept(s.regs, o.s.regs, reg)
  }

  /** The sources stand at recs, on cursors below cur, and no later cursor is open. */
  ghost predicate Ready(env: seq<RowSource>, recs: seq<Record>, s: State, db: Tables, cur: nat) {
    && Fits(env, recs, s, db) && |env| == cur
    && (forall i :: 0 <= i < |env| ==> env[i].cursorId < cur)
    && forall c :: c in s.cursors ==> c < cur
  }

  lemma ReadyAfter(env: seq<RowSource>, recs: seq<Record>, s: State, s1: State, db: Tables, cur: nat)
    requires Ready(env, recs, s, db, cur) && s1.cursors == s.cursors
    ensures Ready(env, recs, s1, db, cur)
  {
    hide Current;
    forall i | 0 <= i < |env| ensures Current(s1, db, env[i].cursorId) == Some(recs[i]) {
      assert Current(s, db, env[i].cursorId) == Some(recs[i]);
      SameCurrent(s, s1, db, env[i].cursorId);
    }
  }

  lemma DeliversTrans(a: State, b: State, o: Outcome, flow: Flow, reg: nat, reg': nat)
    requires Quiet(a, b, reg) && Delivers(o, b, flow, reg') && reg <= reg'
    ensures Delivers(o, a, flow, reg)
  {
  }

  lemma GuardedCorrect(limit: Option<nat>, c: RowCode, row: Option<Record>, reg: nat, s: State, db: Tables)
    requires RowComputes(RunOps(c.ops, s, db), s, row, c.fields, reg)
    ensures Delivers(RunSeq(Guarded(limit, c), s, db), s, EmitRow(limit, row, s.results), reg)
  {
    hide RunOps, Fields, RegsKept;
    var op := ResultRow(c.fields);
    RunOpsAppend(c.ops, [op], s, db);
    RunPrims(c.ops + [op], s, db);
    if row.Some? { RunOpsOne(op, RunOps(c.ops, s, db).s, db); }
    if limit.Some? { RunSeqOne(WhenRoom(limit.value, Prims(c.ops + [op])), s, db); }
    KeptSelf(s.regs, reg);
  }

  lemma KeptSelf(a: seq<Value>, reg: nat)
    ensures RegsKept(a, a, reg)
  {
  }

  /** A condition in front of a block. */
  lemma CondCorrect(ops: seq<Op>, cond: nat, body: seq<Stmt>, reg: nat, next: nat, s: State, db: Tables, holds: Option<bool>, flow: Flow)
    requires reg <= next
    requires holds.None? ==> RunOps(ops, s, db).Bad? && RunOps(ops, s, db).s.results == s.results && flow == Broken(s.results)
    requires holds.Some? ==>
               var o := RunOps(ops, s, db);
               && o.Ok? && Quiet(s, o.s, reg) && ReadReg(o.s.regs, cond).Some? && (IsTruthy(ReadReg(o.s.regs, cond).value) <==> holds.value)
    requires holds == Some(true) ==> Delivers(RunSeq(body, RunOps(ops, s, db).s, db), RunOps(ops, s, db).s, flow, next)
    requires holds == Some(false) ==> flow == Go(s.results)
    ensures Delivers(RunSeq(Prims(ops) + [WhenTrue(cond, body)], s, db), s, flow, reg)
  {
    hide RunOps, RegsKept, RunSeq, Delivers;
    RunSeqAppend(Prims(ops), [WhenTrue(cond, body)], s, db);
    RunPrims(ops, s, db);
    if holds.Some? {
      var s1 := RunOps(ops, s, db).s;
      RunSeqOne(WhenTrue(cond, body), s1, db);
      if holds.value { DeliversTrans(s, s1, RunSeq(body, s1, db), flow, reg, next); } else { DeliversNothing(s, s1, flow, reg); }
    } else {
      DeliversFault(RunOps(ops, s, db), s, flow, reg);
    }
  }

  lemma DeliversNothing(s: State, s1: State, flow: Flow, reg: nat)
    requires Quiet(s, s1, reg) && flow == Go(s.results)
    ensures Delivers(Ok(s1), s, flow, reg)
  {
  }

  lemma DeliversFault(o: Outcome, s: State, flow: Flow, reg: nat)
    requires o.Bad? && flow == Broken(o.s.results)
    ensures Delivers(o, s, flow, reg)
  {
  }

  /** The main induction: the code of a plan pushes the plan's rows to the code of the consumer. */
  lemma {:induction false} RowsCorrect(p: Plan, env: seq<RowSource>, recs: seq<Record>, k: Consumer, cat: Catalog, db: Tables, cur: nat, reg: nat, s: State)
    requires |recs| == |env| && RowsCode(p, env, k, cat, cur, reg).Success? && Ready(env, recs, s, db, cur)
    requires forall t :: t in cat ==> cat[t].root in db
    ensures Delivers(RunSeq(RowsCode(p, env, k, cat, cur, reg).value.code, s, db), s, Push(p, env, recs, k, cat, db, s.results), reg)
    decreases PlanSize(p) + Weight(k), 2, 0
  {
    hide RunSeq, Delivers, Consume, ConsumerCode, Ready;
    match p
    case OneRow => ConsumerCorrect(k, env, recs, cat, db, cur, reg, s);
    case SeqScan(table, alias) => ScanCorrect(table, alias, env, recs, k, cat, db, cur, reg, s);
    case Filter(cond, input) => RowsCorrect(input, env, recs, WhenThen(cond, k), cat, db, cur, reg, s);
    case Project(items, input) => RowsCorrect(input, env, recs, ProjectThen(items, k), cat, db, cur, reg, s);
    case NestedLoopJoin(_, c, l, r) => RowsCorrect(l, env, recs, JoinLeft(r, c, k), cat, db, cur, reg, s);
    case HashJoin(_, c, l, r) => RowsCorrect(l, env, recs, JoinLeft(r, c, k), cat, db, cur, reg, s);
    case Limit(count, input) => RowsCorrect(input, env, recs, EmitAll(Some(LiteralLimit(count).value)), cat, db, cur, reg, s);
  }

  lemma {:induction false} ScanCorrect(table: string, alias: Option<string>, env: seq<RowSource>, recs: seq<Record>, k: Consumer, cat: Catalog, db: Tables, cur: nat, reg: nat, s: State)
    requires |recs| == |env| && RowsCode(SeqScan(table, alias), env, k, cat, cur, reg).Success? && Ready(env, recs, s, db, cur)
    requires forall t :: t in cat ==> cat[t].root in db
    ensures Delivers(RunSeq(RowsCode(SeqScan(table, alias), env, k, cat, cur, reg).value.code, s, db), s,
                     Push(SeqScan(table, alias), env, recs, k, cat, db, s.results), reg)
    decreases 1 + Weight(k), 1, 1 + if table in cat && cat[table].root in db then |db[cat[table].root]| else 0
  {
    hide RunSeq, Consume, ConsumerCode, Ready, RunRows, RegsKept, PushRows;
    var root := cat[table].root;
    var env' := env + [ScanSource(table, alias, cur, cat[table])];
    var body := ConsumerCode(k, env', cat, cur + 1, reg).value.code;
    RunSeqOne(Scan(cur, root, body), s, db);
    KeptSelf(s.regs, reg);
    NotOpen(env, recs, s, db, cur);
    if db[root] == [] {
      assert PushRows([], env', recs, k, cat, db, s.results) == Go(s.results) by { NoRows(env', recs, k, cat, db, s.results); }
      assert s.cursors - {cur} == s.cursors;
    } else {
      var s1 := s.(cursors := s.cursors[cur := AtRow(root, 0)], end := false);
      LoopCorrect(table, alias, env, recs, k, cat, db, cur, reg, s, s1, 0);
      assert db[root][0..] == db[root];
    }
  }

  lemma NoRows(env: seq<RowSource>, recs: seq<Record>, k: Consumer, cat: Catalog, db: Tables, results: seq<Record>)
    requires |recs| + 1 == |env|
    ensures PushRows([], env, recs, k, cat, db, results) == Go(results)
  {
  }

  lemma NotOpen(env: seq<RowSource>, recs: seq<Record>, s: State, db: Tables, cur: nat)
    requires Ready(env, recs, s, db, cur)
    ensures cur !in s.cursors && |env| == cur
  {
  }

  /** The scan's own cursor stands at a row of its table: one more source is ready. */
  lemma ReadyScan(env: seq<RowSource>, recs: seq<Record>, s: State, s1: State, db: Tables, cur: nat, src: RowSource, root: nat, pos: nat)
    requires Ready(env, recs, s, db, cur) && src.cursorId == cur && root in db && pos < |db[root]|
    requires s1.cursors == s.cursors[cur := AtRow(root, pos)]
    ensures Ready(env + [src], recs + [db[root][pos]], s1, db, cur + 1)
  {
    var e, r := env + [src], recs + [db[root][pos]];
    forall i | 0 <= i < |e| ensures Current(s1, db, e[i].cursorId) == Some(r[i]) {
      if i < |env| {
        assert Current(s, db, env[i].cursorId) == Some(recs[i]);
      }
    }
  }

  /** The rows of one table from pos on; `base` is the state in which the scan started. */
  lemma {:induction false} LoopCorrect(table: string, alias: Option<string>, env: seq<RowSource>, recs: seq<Record>, k: Consumer, cat: Catalog, db: Tables, cur: nat, reg: nat, base: State, s: State, pos: nat)
    requires |recs| == |env| && table in cat && Ready(env, recs, base, db, cur)
    requires forall t :: t in cat ==> cat[t].root in db
    requires var root := cat[table].root;
             && pos < |db[root]| && s.cursors == base.cursors[cur := AtRow(root, pos)]
    requires ConsumerCode(k, env + [ScanSource(table, alias, cur, cat[table])], cat, cur + 1, reg).Success?
    ensures var root := cat[table].root; var env' := env + [ScanSource(table, alias, cur, cat[table])];
            var body := ConsumerCode(k, env', cat, cur + 1, reg).value.code;
            var o := RunRows(cur, root, body, s, db, pos);
            match PushRows(db[root][pos..], env', recs, k, cat, db, s.results)
            case Broken(rows) => o.Bad? && o.s.results == rows
            case Go(rows) => o.Ok? && o.s.results == rows && o.s.cursors == base.cursors && RegsKept(s.regs, o.s.regs, reg)
    decreases 1 + Weight(k), 1, |db[cat[table].root]| - pos
  {
    hide RunSeq, Consume, ConsumerCode, Ready, RegsKept, Fits;
    var root := cat[table].root;
    var rows := db[root];
    var env' := env + [ScanSource(table, alias, cur, cat[table])];
    var body := ConsumerCode(k, env', cat, cur + 1, reg).value.code;
    ReadyScan(env, recs, base, s, db, cur, ScanSource(table, alias, cur, cat[table]), root, pos);
    ConsumerCorrect(k, env', recs + [rows[pos]], cat, db, cur + 1, reg, s);
    assert rows[pos..][0] == rows[pos] && rows[pos..][1..] == rows[pos + 1..];
    NotOpen(env, recs, base, db, cur);
    var o := RunSeq(body, s, db);
    if o.Ok? {
      if pos + 1 < |rows| {
        var s2 := o.s.(cursors := o.s.cursors[cur := AtRow(root, pos + 1)], end := false);
        assert s2.cursors == base.cursors[cur := AtRow(root, pos + 1)];
        LoopCorrect(table, alias, env, recs, k, cat, db, cur, reg, base, s2, pos + 1);
        var rest := RunRows(cur, root, body, s2, db, pos + 1);
        if rest.Ok? { KeptTrans(s.regs, s2.regs, rest.s.regs, reg); }
      } else {
        assert rows[pos + 1..] == [];
        NoRows(env', recs, k, cat, db, o.s.results);
        assert o.s.cursors - {cur} == base.cursors;
      }
    }
  }

  lemma KeptTrans(a: seq<Value>, b: seq<Value>, c: seq<Value>, reg: nat)
    requires RegsKept(a, b, reg) && RegsKept(b, c, reg)
    ensures RegsKept(a, c, reg)
  {
  }

  lemma {:induction false} ConsumerCorrect(k: Consumer, env: seq<RowSource>, recs: seq<Record>, cat: Catalog, db: Tables, cur: nat, reg: nat, s: State)
    requires |recs| == |env| && ConsumerCode(k, env, cat, cur, reg).Success? && Ready(env, recs, s, db, cur)
    requires forall t :: t in cat ==> cat[t].root in db
    ensures Delivers(RunSeq(ConsumerCode(k, env, cat, cur, reg).value.code, s, db), s, Consume(k, env, recs, cat, db, s.results), reg)
    decreases Weight(k), 0, 0
  {
    hide RunSeq, Delivers, Guarded, RunOps, Fits, EmitRow, Prims, RowComputes, Computes;
    match k
    case EmitItems(items, limit) =>
      ItemsCorrect(items, env, recs, reg, s, db);
      GuardedCorrect(limit, ItemsCode(items, env, reg).value, ItemsValues(items, env, recs), reg, s, db);
    case EmitAll(limit) =>
      AllColumnsCorrect(env, recs, reg, s, db);
      GuardedCorrect(limit, AllColumns(env, reg), Some(AllFields(env, recs)), reg, s, db);
    case WhenThen(cond, next) => WhenCorrect(cond, next, env, recs, cat, db, cur, reg, s);
    case ProjectThen(items, next) => ProjectCorrect(items, next, env, recs, cat, db, cur, reg, s);
    case JoinLeft(right, c, next) => RowsCorrect(right, env, recs, JoinRight(c, |env|, next), cat, db, cur, reg, s);
    case JoinRight(c, n, next) => MatchCorrect(c, n, next, env, recs, cat, db, cur, reg, s);
  }

  lemma {:induction false} WhenCorrect(cond: Expr, next: Consumer, env: seq<RowSource>, recs: seq<Record>, cat: Catalog, db: Tables, cur: nat, reg: nat, s: State)
    requires |recs| == |env| && ConsumerCode(WhenThen(cond, next), env, cat, cur, reg).Success? && Ready(env, recs, s, db, cur)
    requires forall t :: t in cat ==> cat[t].root in db
    ensures Delivers(RunSeq(ConsumerCode(WhenThen(cond, next), env, cat, cur, reg).value.code, s, db), s,
                     Consume(WhenThen(cond, next), env, recs, cat, db, s.results), reg)
    decreases Weight(next), 1, 0
  {
    hide RunSeq, Delivers, RunOps, Fits, Prims, RegsKept, Eval, ExprCode;
    ExprCorrect(cond, env, recs, reg, s, db);
    var c := ExprCode(cond, env, reg).value;
    var v := Eval(cond, env, recs);
    var body := ConsumerCode(next, env, cat, cur, c.next).value.code;
    if v.Some? {
      var s1 := RunOps(c.ops, s, db).s;
      ReadyAfter(env, recs, s, s1, db, cur);
      ConsumerCorrect(next, env, recs, cat, db, cur, c.next, s1);
    }
    CondCorrect(c.ops, c.dest, body, reg, c.next, s, db, if v.Some? then Some(IsTruthy(v.value)) else None,
                Consume(WhenThen(cond, next), env, recs, cat, db, s.results));
  }

  lemma {:induction false} MatchCorrect(c: JoinConstraint, n: nat, next: Consumer, env: seq<RowSource>, recs: seq<Record>, cat: Catalog, db: Tables, cur: nat, reg: nat, s: State)
    requires |recs| == |env| && ConsumerCode(JoinRight(c, n, next), env, cat, cur, reg).Success? && Ready(env, recs, s, db, cur)
    requires forall t :: t in cat ==> cat[t].root in db
    ensures Delivers(RunSeq(ConsumerCode(JoinRight(c, n, next), env, cat, cur, reg).value.code, s, db), s,
                     Consume(JoinRight(c, n, next), env, recs, cat, db, s.results), reg)
    decreases Weight(next), 1, 0
  {
    hide RunSeq, Delivers, RunOps, Fits, Prims, RegsKept, JoinHolds, ConstraintCode;
    ConstraintCorrect(c, env, n, recs, reg, s, db);
    var cc := ConstraintCode(c, env, n, reg).value;
    var h := JoinHolds(c, env, n, recs);
    var body := ConsumerCode(next, env, cat, cur, cc.next).value.code;
    if h.Some? {
      var s1 := RunOps(cc.ops, s, db).s;
      ReadyAfter(env, recs, s, s1, db, cur);
      ConsumerCorrect(next, env, recs, cat, db, cur, cc.next, s1);
      if cc.cond.None? {
        QuietSelf(s, reg);
        DeliversTrans(s, s, RunSeq(body, s, db), Consume(next, env, recs, cat, db, s.results), reg, cc.next);
      }
    }
    if cc.cond.Some? {
      CondCorrect(cc.ops, cc.cond.value, body, reg, cc.next, s, db, h, Consume(JoinRight(c, n, next), env, recs, cat, db, s.results));
    }
  }

  lemma {:induction false} ProjectCorrect(items: seq<ProjectionItem>, next: Consumer, env: seq<RowSource>, recs: seq<Record>, cat: Catalog, db: Tables, cur: nat, reg: nat, s: State)
    requires |recs| == |env| && ConsumerCode(ProjectThen(items, next), env, cat, cur, reg).Success? && Ready(env, recs, s, db, cur)
    requires forall t :: t in cat ==> cat[t].root in db
    ensures Delivers(RunSeq(ConsumerCode(ProjectThen(items, next), env, cat, cur, reg).value.code, s, db), s,
                     Consume(ProjectThen(items, next), env, recs, cat, db, s.results), reg)
    decreases Weight(next), 1, 0
  {
    hide RunSeq, RunOps, Fits, Guarded, RegsKept, ItemsCode, ItemsValues, RowComputes;
    ItemsCorrect(items, env, recs, reg, s, db);
    var row := ItemsCode(items, env, reg).value;
    var body := ConsumerCode(next, env, cat, cur, row.next).value.code;
    GuardedCorrect(None, row, ItemsValues(items, env, recs), reg, s, db);
    RunSeqAppend(Guarded(None, row), body, s, db);
    var o := RunSeq(Guarded(None, row), s, db);
    if o.Ok? {
      ReadyAfter(env, recs, s, o.s, db, cur);
      ConsumerCorrect(next, env, recs, cat, db, cur, row.next, o.s);
      var o2 := RunSeq(body, o.s, db);
      if o2.Ok? { KeptLower(o.s.regs, o2.s.regs, reg, row.next); KeptTrans(s.regs, o.s.regs, o2.s.regs, reg); }
    }
  }

  lemma KeptLower(a: seq<Value>, b: seq<Value>, reg: nat, reg': nat)
    requires RegsKept(a, b, reg') && reg <= reg'
    ensures RegsKept(a, b, reg)
  {
  }
}
