/** The programs of SELECT plans on stored tables: they are orderly, and run there as they do on sequences of rows. */
module SelectChecks {
  import opened Values
  import opened SqlSyntax
  import opened Machine
  import opened Blocks
  import opened PlanCode
  import opened RecordCodec
  import opened UpdateMachine
  import opened ProgramChecks

  // ---------------------------------------------------------------- the tables a program opens

  predicate RootsIn(b: seq<Stmt>, roots: set<nat>)
    decreases b, 0
  {
    b == [] || (RootIn(b[0], roots) && RootsIn(b[1..], roots))
  }

  predicate RootIn(st: Stmt, roots: set<nat>)
    decreases st, 0
  {
    match st
    case Prim(_) => true
    case WhenTrue(_, body) => RootsIn(body, roots)
    case WhenRoom(_, body) => RootsIn(body, roots)
    case Scan(_, root, body) => root in roots && RootsIn(body, roots)
  }

  lemma {:induction false} RootsAppend(a: seq<Stmt>, b: seq<Stmt>, roots: set<nat>)
    requires RootsIn(a, roots) && RootsIn(b, roots)
    ensures RootsIn(a + b, roots)
    decreases a
  {
    if a == [] {
      assert a + b == b;
    } else {
      assert (a + b)[0] == a[0] && (a + b)[1..] == a[1..] + b;
      RootsAppend(a[1..], b, roots);
    }
  }

  lemma {:induction false} RootsPrims(ops: seq<Op>, roots: set<nat>)
    ensures RootsIn(Prims(ops), roots)
    decreases ops
  {
    if ops != [] { RootsPrims(ops[1..], roots); }
  }

  lemma RootsOne(st: Stmt, roots: set<nat>)
    requires RootIn(st, roots)
    ensures RootsIn([st], roots)
  {
    assert [st][1..] == [] && RootsIn([st][1..], roots);
  }

  lemma RootsGuarded(limit: Option<nat>, row: RowCode, roots: set<nat>)
    ensures RootsIn(Guarded(limit, row), roots)
  {
    RootsPrims(row.ops + [ResultRow(row.fields)], roots);
    if limit.Some? { RootsOne(WhenRoom(limit.value, Prims(row.ops + [ResultRow(row.fields)])), roots); }
  }

  lemma RootsWhen(ops: seq<Op>, cond: nat, body: seq<Stmt>, roots: set<nat>)
    requires RootsIn(body, roots)
    ensures RootsIn(Prims(ops) + [WhenTrue(cond, body)], roots)
  {
    RootsPrims(ops, roots);
    RootsOne(WhenTrue(cond, body), roots);
    RootsAppend(Prims(ops), [WhenTrue(cond, body)], roots);
  }

  /** The roots of all tables in the catalog are among roots. */
  ghost predicate Covers(cat: Catalog, roots: set<nat>) {
    forall t :: t in cat ==> cat[t].root in roots
  }

  /** The code of a plan opens only tables of the catalog. */
  lemma {:induction false} RowsRoots(p: Plan, env: seq<RowSource>, k: Consumer, cat: Catalog, cur: nat, reg: nat, roots: set<nat>)
    requires Covers(cat, roots)
    ensures var r := RowsCode(p, env, k, cat, cur, reg); r.Success? ==> RootsIn(r.value.code, roots)
    decreases PlanSize(p) + Weight(k), 1
  {
    hide RootsIn;
    match p
    case OneRow => ConsumerRoots(k, env, cat, cur, reg, roots);
    case SeqScan(table, alias) =>
      if table in cat {
        var env' := env + [ScanSource(table, alias, cur, cat[table])];
        ConsumerRoots(k, env', cat, cur + 1, reg, roots);
        if ConsumerCode(k, env', cat, cur + 1, reg).Success? {
          RootsOne(Scan(cur, cat[table].root, ConsumerCode(k, env', cat, cur + 1, reg).value.code), roots);
        }
      }
    case Filter(cond, input) => RowsRoots(input, env, WhenThen(cond, k), cat, cur, reg, roots);
    case Project(items, input) => RowsRoots(input, env, ProjectThen(items, k), cat, cur, reg, roots);
    case NestedLoopJoin(_, c, l, r) => RowsRoots(l, env, JoinLeft(r, c, k), cat, cur, reg, roots);
    case HashJoin(_, c, l, r) => RowsRoots(l, env, JoinLeft(r, c, k), cat, cur, reg, roots);
    case Limit(count, input) =>
      if LiteralLimit(count).Success? { RowsRoots(input, env, EmitAll(Some(LiteralLimit(count).value)), cat, cur, reg, roots); }
    case Sort(_, _) =>
  }

  lemma {:induction false} ConsumerRoots(k: Consumer, env: seq<RowSource>, cat: Catalog, cur: nat, reg: nat, roots: set<nat>)
    requires Covers(cat, roots)
    ensures var r := ConsumerCode(k, env, cat, cur, reg); r.Success? ==> RootsIn(r.value.code, roots)
    decreases Weight(k), 0
  {
    hide RootsIn, Guarded;
    match k
    case EmitItems(items, limit) =>
      if ItemsCode(items, env, reg).Success? { RootsGuarded(limit, ItemsCode(items, env, reg).value, roots); }
    case EmitAll(limit) => RootsGuarded(limit, AllColumns(env, reg), roots);
    case WhenThen(cond, next) =>
      if ExprCode(cond, env, reg).Success? {
        var c := ExprCode(cond, env, reg).value;
        ConsumerRoots(next, env, cat, cur, c.next, roots);
        if ConsumerCode(next, env, cat, cur, c.next).Success? {
          RootsWhen(c.ops, c.dest, ConsumerCode(next, env, cat, cur, c.next).value.code, roots);
        }
      }
    case ProjectThen(items, next) =>
      if ItemsCode(items, env, reg).Success? {
        var row := ItemsCode(items, env, reg).value;
        RootsGuarded(None, row, roots);
        ConsumerRoots(next, env, cat, cur, row.next, roots);
        if ConsumerCode(next, env, cat, cur, row.next).Success? {
          RootsAppend(Guarded(None, row), ConsumerCode(next, env, cat, cur, row.next).value.code, roots);
        }
      }
    case JoinLeft(right, c, next) => RowsRoots(right, env, JoinRight(c, |env|, next), cat, cur, reg, roots);
    case JoinRight(c, n, next) =>
      if ConstraintCode(c, env, n, reg).Success? {
        var cc := ConstraintCode(c, env, n, reg).value;
        ConsumerRoots(next, env, cat, cur, cc.next, roots);
        if cc.cond.Some? && ConsumerCode(next, env, cat, cur, cc.next).Success? {
          RootsWhen(cc.ops, cc.cond.value, ConsumerCode(next, env, cat, cur, cc.next).value.code, roots);
        }
      }
  }

  // ---------------------------------------------------------------- laid-out blocks are orderly

  /** Operation i of a block laid out at position at. */
  ghost predicate FitsIn(ops: seq<Op>, at: nat, roots: set<nat>, i: nat)
    requires i < |ops|
  {
    match ops[i]
    case OpenRead(c, root) => root in roots && i + 1 < |ops| && ops[i + 1] == Rewind(c)
    case Rewind(c) => i > 0 && ops[i - 1].OpenRead? && ops[i - 1].cursor == c
    case IfCursorEnd(t) => Landing(ops, at, t)
    case IfResultsGe(_, t) => Landing(ops, at, t)
    case Goto(t) => Landing(ops, at, t)
    case IfNot(_, t) => Landing(ops, at, t)
    case _ => true
  }

  /** A jump to t stays in the block or goes to its end, and never to a rewind. */
  ghost predicate Landing(ops: seq<Op>, at: nat, t: nat) {
    at <= t <= at + |ops| && (t < at + |ops| ==> !ops[t - at].Rewind?)
  }

  ghost predicate BlockFits(ops: seq<Op>, at: nat, roots: set<nat>) {
    forall i :: 0 <= i < |ops| ==> FitsIn(ops, at, roots, i)
  }

  lemma BlockAppend(a: seq<Op>, b: seq<Op>, at: nat, roots: set<nat>)
    requires BlockFits(a, at, roots) && BlockFits(b, at + |a|, roots)
    ensures BlockFits(a + b, at, roots)
  {
    var ops := a + b;
    forall t: nat | Landing(a, at, t) ensures Landing(ops, at, t) {
      if t < at + |a| { assert ops[t - at] == a[t - at]; }
      else if b != [] { assert FitsIn(b, at + |a|, roots, 0) && ops[t - at] == b[0]; }
    }
    forall t: nat | Landing(b, at + |a|, t) ensures Landing(ops, at, t) {
      if t < at + |ops| { assert ops[t - at] == b[t - at - |a|]; }
    }
    forall i | 0 <= i < |ops| ensures FitsIn(ops, at, roots, i) {
      if i < |a| {
        assert FitsIn(a, at, roots, i) && ops[i] == a[i];
      } else {
        assert FitsIn(b, at + |a|, roots, i - |a|) && ops[i] == b[i - |a|];
      }
    }
  }

  lemma {:induction false} FlatFits(b: seq<Stmt>, at: nat, lo: nat, roots: set<nat>)
    requires Scoped(b, lo) && RootsIn(b, roots)
    ensures BlockFits(Flat(b, at), at, roots)
    decreases b, 0
  {
    hide BlockFits, FlatStmt, ScopedStmt, RootIn;
    if b == [] {
      NothingFits(at, roots);
    } else {
      StmtFits(b[0], at, lo, roots);
      FlatFits(b[1..], at + LenStmt(b[0]), lo, roots);
      BlockAppend(FlatStmt(b[0], at), Flat(b[1..], at + LenStmt(b[0])), at, roots);
    }
  }

  lemma NothingFits(at: nat, roots: set<nat>)
    ensures BlockFits([], at, roots)
  {
  }

  lemma {:induction false} StmtFits(st: Stmt, at: nat, lo: nat, roots: set<nat>)
    requires ScopedStmt(st, lo) && RootIn(st, roots)
    ensures BlockFits(FlatStmt(st, at), at, roots)
    decreases st, 0
  {
    hide BlockFits, Flat, RootsIn, Scoped;
    match st
    case Prim(op) => PlainFits(op, at, roots);
    case WhenTrue(r, body) =>
      FlatFits(body, at + 1, lo, roots);
      GuardFits(IfNot(r, at + 1 + Len(body)), Flat(body, at + 1), at, roots);
    case WhenRoom(limit, body) =>
      FlatFits(body, at + 1, lo, roots);
      GuardFits(IfResultsGe(limit, at + 1 + Len(body)), Flat(body, at + 1), at, roots);
    case Scan(c, root, body) =>
      FlatFits(body, at + 3, c + 1, roots);
      ScanFits(c, root, Flat(body, at + 3), at, roots);
  }

  lemma PlainFits(op: Op, at: nat, roots: set<nat>)
    requires Plain(op)
    ensures BlockFits([op], at, roots)
  {
  }

  lemma GuardFits(jump: Op, body: seq<Op>, at: nat, roots: set<nat>)
    requires (jump.IfNot? || jump.IfResultsGe?) && jump.target == at + 1 + |body|
    requires BlockFits(body, at + 1, roots)
    ensures BlockFits([jump] + body, at, roots)
  {
    var ops := [jump] + body;
    forall t: nat | Landing(body, at + 1, t) ensures Landing(ops, at, t) {
      if t < at + |ops| { assert ops[t - at] == body[t - at - 1]; }
    }
    forall i | 0 <= i < |ops| ensures FitsIn(ops, at, roots, i) {
      if i > 0 { assert FitsIn(body, at + 1, roots, i - 1) && ops[i] == body[i - 1]; }
    }
  }

  lemma ScanFits(c: nat, root: nat, body: seq<Op>, at: nat, roots: set<nat>)
    requires BlockFits(body, at + 3, roots) && root in roots
    ensures var end := at + 6 + |body|; BlockFits(ScanHead(c, root, end) + body + ScanTail(c, at + 3, end), at, roots)
  {
    var end, n := at + 6 + |body|, |body|;
    var ops := ScanHead(c, root, end) + body + ScanTail(c, at + 3, end);
    assert ops[0] == OpenRead(c, root) && ops[1] == Rewind(c) && ops[2] == IfCursorEnd(end);
    assert forall i :: 0 <= i < n ==> ops[3 + i] == body[i];
    assert ops[3 + n] == MoveNext(c) && ops[4 + n] == IfCursorEnd(end) && ops[5 + n] == Goto(at + 3) && ops[6 + n] == Close(c);
    forall t: nat | Landing(body, at + 3, t) ensures Landing(ops, at, t) {
      if t < at + 3 + n { assert ops[t - at] == body[t - at - 3]; }
    }
    assert Landing(ops, at, at + 3) by {
      if n > 0 { assert FitsIn(body, at + 3, roots, 0) && ops[3] == body[0]; }
    }
    forall i | 0 <= i < |ops| ensures FitsIn(ops, at, roots, i) {
      if 3 <= i < 3 + n { assert FitsIn(body, at + 3, roots, i - 3) && ops[i] == body[i - 3]; }
    }
  }

  /** A block that fits is an orderly program. */
  lemma FitsOrderly(ops: seq<Op>, roots: set<nat>)
    requires BlockFits(ops, 0, roots)
    ensures Orderly(Bases(ops), roots, None)
  {
    var all := Bases(ops);
    forall i | 0 <= i < |all| ensures OpFits(all, i, roots, None) {
      assert FitsIn(ops, 0, roots, i);
    }
  }

  /** Every compiled SELECT is orderly. */
  lemma ProgramOrderly(p: Plan, cat: Catalog, halt: bool, roots: set<nat>)
    requires Program(p, cat, halt).Success? && Covers(cat, roots)
    ensures Orderly(Bases(Program(p, cat, halt).value), roots, None)
  {
    hide BlockFits, Scoped, RootsIn, RowsCode, Orderly;
    var b := ProgramCode(p, cat).value;
    var top := PeelLimit(p, None).value;
    match top.0 {
      case Project(items, input) =>
        RowsScoped(input, [], EmitItems(items, top.1), cat, 0, 0);
        RowsRoots(input, [], EmitItems(items, top.1), cat, 0, 0, roots);
      case _ =>
        RowsScoped(top.0, [], EmitAll(top.1), cat, 0, 0);
        RowsRoots(top.0, [], EmitAll(top.1), cat, 0, 0, roots);
    }
    FlatFits(b.code, 0, 0, roots);
    var end := if halt then [Halt] else [];
    EndFits(|Flat(b.code, 0)|, halt, roots);
    BlockAppend(Flat(b.code, 0), end, 0, roots);
    FitsOrderly(Flat(b.code, 0) + end, roots);
  }

  lemma EndFits(at: nat, halt: bool, roots: set<nat>)
    ensures BlockFits(if halt then [Halt] else [], at, roots)
  {
  }

  // ---------------------------------------------------------------- steps on stored tables

  function OnTables(m: Config, h: Heap): TableConfig {
    match m
    case Running(pc, s) => At(pc, TableState(s, h))
    case Halted(s) => Finished(TableState(s, h))
    case Failed(s) => Stuck(TableState(s, h))
  }

  lemma StepOnTables(fc: FloatCodec, ops: seq<Op>, m: Config, h: Heap)
    ensures StepTable(fc, Bases(ops), OnTables(m, h)) == OnTables(Step(ops, Db(h), m), h)
  {
    hide Exec, Db;
  }

  /** A program that only reads takes the same steps on stored tables as on the rows they hold. */
  lemma {:induction false} StepsOnTables(fc: FloatCodec, ops: seq<Op>, m: Config, h: Heap, n: nat)
    ensures StepsTable(fc, Bases(ops), OnTables(m, h), n) == OnTables(Steps(ops, Db(h), m, n), h)
    decreases n
  {
    hide Step, StepTable;
    if n > 0 {
      StepOnTables(fc, ops, m, h);
      StepsOnTables(fc, ops, Step(ops, Db(h), m), h, n - 1);
    }
  }
}
