/** The block-structured code of a plan: what the plan compiler emits, apart from the numbering of its labels. */
module PlanCode {
  import opened Values
  import opened SqlSyntax
  import opened Evaluate
  import opened Machine
  import opened Blocks

  /** What is done with each row: the closures the compiler passes down, as data. */
  datatype Consumer =
    | EmitItems(items: seq<ProjectionItem>, limit: Option<nat>)
    | EmitAll(limit: Option<nat>)
    | WhenThen(cond: Expr, next: Consumer)
    | ProjectThen(items: seq<ProjectionItem>, next: Consumer)
    | JoinLeft(right: Plan, constraint: JoinConstraint, next: Consumer)
    | JoinRight(constraint: JoinConstraint, leftSources: nat, next: Consumer)

  /** Straight-line code, the register that holds its value and the next free register. */
  datatype Code = Code(ops: seq<Op>, dest: nat, next: nat)

  /** Straight-line code for several values. */
  datatype RowCode = RowCode(ops: seq<Op>, fields: seq<nat>, next: nat)

  datatype CondCode = CondCode(ops: seq<Op>, cond: Option<nat>, next: nat)

  /** A block, with the next free cursor and register. */
  datatype Body = Body(code: seq<Stmt>, cursors: nat, next: nat)

  function Prims(ops: seq<Op>): (b: seq<Stmt>)
    ensures |b| == |ops|
    ensures forall i :: 0 <= i < |b| ==> b[i] == Prim(ops[i])
  {
    if ops == [] then [] else [Prim(ops[0])] + Prims(ops[1..])
  }

  // ---------------------------------------------------------------- expressions

  function LiteralOp(l: Literal, dest: nat): Op {
    match l
    case LitNull => LoadNull(dest)
    case LitInteger(i) => LoadInteger(dest, i)
    case LitReal(r) => LoadReal(dest, r)
    case LitText(s) => LoadText(dest, s)
  }

  function ColumnCode(env: seq<RowSource>, table: Option<string>, name: string, reg: nat): Result<Code, PlanError> {
    match ResolveColumn(env, table, name)
    case Failure(e) => Failure(e)
    case Success(r) => Success(Code([ReadColumn(env[r.source].cursorId, r.col, reg)], reg, reg + 1))
  }

  function ExprCode(e: Expr, env: seq<RowSource>, reg: nat): Result<Code, PlanError>
    decreases e
  {
    match e
    case Lit(l) => Success(Code([LiteralOp(l, reg)], reg, reg + 1))
    case Column(table, name) => ColumnCode(env, table, name, reg)
    case Unary(op, a) =>
      (match ExprCode(a, env, reg)
       case Failure(err) => Failure(err)
       case Success(c) =>
         match op
         case Positive => Success(c)
         case Not => Success(Code(c.ops + [NotOp(c.dest, c.next)], c.next, c.next + 1))
         case Negate => Success(Code(c.ops + [NegateOp(c.dest, c.next)], c.next, c.next + 1)))
    case Binary(l, op, r) =>
      (match ExprCode(l, env, reg)
       case Failure(err) => Failure(err)
       case Success(a) =>
         match ExprCode(r, env, a.next)
         case Failure(err) => Failure(err)
         case Success(b) => Success(Code(a.ops + b.ops + [Compute(op, a.dest, b.dest, b.next)], b.next, b.next + 1)))
    case FunctionCall(_, _) => Failure(FunctionUnsupported)
  }

  /** All columns of one source from column col on. */
  function SourceColumns(s: RowSource, col: nat, reg: nat): RowCode
    requires col <= |s.columns|
    decreases |s.columns| - col
  {
    if col == |s.columns| then RowCode([], [], reg)
    else
      var rest := SourceColumns(s, col + 1, reg + 1);
      RowCode([ReadColumn(s.cursorId, col, reg)] + rest.ops, [reg] + rest.fields, rest.next)
  }

  function AllColumns(env: seq<RowSource>, reg: nat): RowCode
    decreases env
  {
    if env == [] then RowCode([], [], reg)
    else
      var a := SourceColumns(env[0], 0, reg);
      var b := AllColumns(env[1..], a.next);
      RowCode(a.ops + b.ops, a.fields + b.fields, b.next)
  }

  function ItemsCode(items: seq<ProjectionItem>, env: seq<RowSource>, reg: nat): Result<RowCode, PlanError>
    decreases items
  {
    if items == [] then Success(RowCode([], [], reg))
    else
      match ItemCode(items[0], env, reg)
      case Failure(err) => Failure(err)
      case Success(a) =>
        match ItemsCode(items[1..], env, a.next)
        case Failure(err) => Failure(err)
        case Success(b) => Success(RowCode(a.ops + b.ops, a.fields + b.fields, b.next))
  }

  function ItemCode(item: ProjectionItem, env: seq<RowSource>, reg: nat): Result<RowCode, PlanError> {
    match item
    case Wildcard => Success(AllColumns(env, reg))
    case ExprItem(e, _) =>
      match ExprCode(e, env, reg)
      case Failure(err) => Failure(err)
      case Success(c) => Success(RowCode(c.ops, [c.dest], c.next))
  }

  // ---------------------------------------------------------------- join conditions

  function LeftSources(env: seq<RowSource>, n: nat): seq<RowSource> { if n <= |env| then env[..n] else env }

  function RightSources(env: seq<RowSource>, n: nat): seq<RowSource> { if n <= |env| then env[n..] else [] }

  function UsingError(e: PlanError): PlanError {
    match e
    case UnknownColumn(name) => UnknownUsing(name)
    case AmbiguousColumn(name) => AmbiguousUsing(name)
    case _ => e
  }

  function UsingColumn(sources: seq<RowSource>, name: string, reg: nat): Result<Code, PlanError> {
    match ColumnCode(sources, None, name, reg)
    case Failure(e) => Failure(UsingError(e))
    case Success(c) => Success(c)
  }

  /** Compares the columns pairwise and joins the outcomes; `current` holds the outcome so far. */
  function UsingCode(columns: seq<string>, env: seq<RowSource>, n: nat, current: Option<nat>, reg: nat): Result<CondCode, PlanError>
    decreases columns
  {
    if columns == [] then Success(CondCode([], current, reg))
    else
      match UsingColumn(LeftSources(env, n), columns[0], reg)
      case Failure(err) => Failure(err)
      case Success(a) =>
        match UsingColumn(RightSources(env, n), columns[0], a.next)
        case Failure(err) => Failure(err)
        case Success(b) =>
          var eq := Compute(Eq, a.dest, b.dest, b.next);
          var both := if current.Some? then [Compute(And, current.value, b.next, b.next + 1)] else [];
          var at := b.next + |both|;
          match UsingCode(columns[1..], env, n, Some(at), at + 1)
          case Failure(err) => Failure(err)
          case Success(rest) => Success(CondCode(a.ops + b.ops + [eq] + both + rest.ops, rest.cond, rest.next))
  }

  function ConstraintCode(c: JoinConstraint, env: seq<RowSource>, n: nat, reg: nat): Result<CondCode, PlanError> {
    match c
    case NoConstraint => Success(CondCode([], None, reg))
    case On(e) =>
      (match ExprCode(e, env, reg)
       case Failure(err) => Failure(err)
       case Success(code) => Success(CondCode(code.ops, Some(code.dest), code.next)))
    case Using(columns) => UsingCode(columns, env, n, None, reg)
  }

  // ---------------------------------------------------------------- rows

  function PlanSize(p: Plan): (n: nat)
    ensures 1 <= n
  {
    match p
    case OneRow => 1
    case SeqScan(_, _) => 1
    case Filter(_, input) => PlanSize(input) + 2
    case Project(_, input) => PlanSize(input) + 2
    case NestedLoopJoin(_, _, l, r) => PlanSize(l) + PlanSize(r) + 3
    case HashJoin(_, _, l, r) => PlanSize(l) + PlanSize(r) + 3
    case Sort(_, input) => PlanSize(input) + 2
    case Limit(_, input) => PlanSize(input) + 2
  }

  function Weight(k: Consumer): nat {
    match k
    case EmitItems(_, _) => 1
    case EmitAll(_) => 1
    case WhenThen(_, next) => Weight(next) + 1
    case ProjectThen(_, next) => Weight(next) + 1
    case JoinLeft(right, _, next) => PlanSize(right) + Weight(next) + 2
    case JoinRight(_, _, next) => Weight(next) + 1
  }

  /** Puts a row out unless the limit is reached. */
  function Guarded(limit: Option<nat>, row: RowCode): seq<Stmt> {
    var body := Prims(row.ops + [ResultRow(row.fields)]);
    if limit.Some? then [WhenRoom(limit.value, body)] else body
  }

  function ScanSource(table: string, alias: Option<string>, cursorId: nat, b: TableBinding): RowSource {
    RowSource(table, alias, cursorId, b.columns)
  }

  /** The code that runs k for every row of the plan; cur and reg are the next free cursor and register. */
  function RowsCode(p: Plan, env: seq<RowSource>, k: Consumer, cat: Catalog, cur: nat, reg: nat): Result<Body, PlanError>
    decreases PlanSize(p) + Weight(k), 1
  {
    match p
    case OneRow => ConsumerCode(k, env, cat, cur, reg)
    case SeqScan(table, alias) =>
      if table !in cat then Failure(UnknownTable(table))
      else
        (match ConsumerCode(k, env + [ScanSource(table, alias, cur, cat[table])], cat, cur + 1, reg)
         case Failure(err) => Failure(err)
         case Success(b) => Success(Body([Scan(cur, cat[table].root, b.code)], b.cursors, b.next)))
    case Filter(cond, input) => RowsCode(input, env, WhenThen(cond, k), cat, cur, reg)
    case Project(items, input) => RowsCode(input, env, ProjectThen(items, k), cat, cur, reg)
    case NestedLoopJoin(_, c, l, r) => RowsCode(l, env, JoinLeft(r, c, k), cat, cur, reg)
    case HashJoin(_, c, l, r) => RowsCode(l, env, JoinLeft(r, c, k), cat, cur, reg)
    case Limit(count, input) =>
      (match LiteralLimit(count)
       case Failure(err) => Failure(err)
       case Success(limit) => RowsCode(input, env, EmitAll(Some(limit)), cat, cur, reg))
    case Sort(_, _) => Failure(SortUnsupported)
  }

  function ConsumerCode(k: Consumer, env: seq<RowSource>, cat: Catalog, cur: nat, reg: nat): Result<Body, PlanError>
    decreases Weight(k), 0
  {
    match k
    case EmitItems(items, limit) =>
      (match ItemsCode(items, env, reg)
       case Failure(err) => Failure(err)
       case Success(row) => Success(Body(Guarded(limit, row), cur, row.next)))
    case EmitAll(limit) =>
      var row := AllColumns(env, reg);
      Success(Body(Guarded(limit, row), cur, row.next))
    case WhenThen(cond, next) =>
      (match ExprCode(cond, env, reg)
       case Failure(err) => Failure(err)
       case Success(c) =>
         match ConsumerCode(next, env, cat, cur, c.next)
         case Failure(err) => Failure(err)
         case Success(b) => Success(Body(Prims(c.ops) + [WhenTrue(c.dest, b.code)], b.cursors, b.next)))
    case ProjectThen(items, next) =>
      (match ItemsCode(items, env, reg)
       case Failure(err) => Failure(err)
       case Success(row) =>
         match ConsumerCode(next, env, cat, cur, row.next)
         case Failure(err) => Failure(err)
         case Success(b) => Success(Body(Guarded(None, row) + b.code, b.cursors, b.next)))
    case JoinLeft(right, c, next) => RowsCode(right, env, JoinRight(c, |env|, next), cat, cur, reg)
    case JoinRight(c, n, next) =>
      (match ConstraintCode(c, env, n, reg)
       case Failure(err) => Failure(err)
       case Success(cc) =>
         match ConsumerCode(next, env, cat, cur, cc.next)
         case Failure(err) => Failure(err)
         case Success(b) =>
           Success(Body(if cc.cond.Some? then Prims(cc.ops) + [WhenTrue(cc.cond.value, b.code)] else b.code, b.cursors, b.next)))
  }

  /** The LIMIT nodes on top are dropped; the innermost one gives the limit. */
  function PeelLimit(p: Plan, limit: Option<nat>): Result<(Plan, Option<nat>), PlanError> {
    match p
    case Limit(count, input) =>
      (match LiteralLimit(count)
       case Failure(err) => Failure(err)
       case Success(n) => PeelLimit(input, Some(n)))
    case Sort(_, _) => Failure(SortUnsupported)
    case _ => Success((p, limit))
  }

  function OutputCode(p: Plan, limit: Option<nat>, cat: Catalog): Result<Body, PlanError> {
    match p
    case Project(items, input) => RowsCode(input, [], EmitItems(items, limit), cat, 0, 0)
    case _ => RowsCode(p, [], EmitAll(limit), cat, 0, 0)
  }

  function ProgramCode(p: Plan, cat: Catalog): Result<Body, PlanError> {
    match PeelLimit(p, None)
    case Failure(err) => Failure(err)
    case Success(top) => OutputCode(top.0, top.1, cat)
  }

  /** The finished program. */
  function Program(p: Plan, cat: Catalog, halt: bool): Result<seq<Op>, PlanError> {
    match ProgramCode(p, cat)
    case Failure(err) => Failure(err)
    case Success(b) => Success(Flat(b.code, 0) + if halt then [Halt] else [])
  }

  // ---------------------------------------------------------------- scoping

  lemma {:induction false} PrimsScoped(ops: seq<Op>, lo: nat)
    requires forall i :: 0 <= i < |ops| ==> Plain(ops[i])
    ensures Scoped(Prims(ops), lo)
    decreases ops
  {
    if ops != [] { PrimsScoped(ops[1..], lo); }
  }

  lemma {:induction false} ScopedAppend(a: seq<Stmt>, b: seq<Stmt>, lo: nat)
    requires Scoped(a, lo) && Scoped(b, lo)
    ensures Scoped(a + b, lo)
    decreases a
  {
    if a == [] {
      assert a + b == b;
    } else {
      assert (a + b)[0] == a[0] && (a + b)[1..] == a[1..] + b;
      ScopedAppend(a[1..], b, lo);
    }
  }

  ghost predicate AllPlain(ops: seq<Op>) {
    forall i :: 0 <= i < |ops| ==> Plain(ops[i])
  }

  lemma PlainAppend(a: seq<Op>, b: seq<Op>)
    requires AllPlain(a) && AllPlain(b)
    ensures AllPlain(a + b)
  {
  }

  lemma {:induction false} ExprPlain(e: Expr, env: seq<RowSource>, reg: nat)
    ensures var r := ExprCode(e, env, reg); r.Success? ==> AllPlain(r.value.ops) && reg <= r.value.dest < r.value.next
    decreases e
  {
    match e
    case Unary(_, a) => ExprPlain(a, env, reg);
    case Binary(l, _, r) =>
      ExprPlain(l, env, reg);
      if ExprCode(l, env, reg).Success? {
        var a := ExprCode(l, env, reg).value;
        ExprPlain(r, env, a.next);
        if ExprCode(r, env, a.next).Success? { PlainAppend(a.ops, ExprCode(r, env, a.next).value.ops); }
      }
    case _ =>
  }

  lemma {:induction false} SourcePlain(s: RowSource, col: nat, reg: nat)
    requires col <= |s.columns|
    ensures AllPlain(SourceColumns(s, col, reg).ops) && reg <= SourceColumns(s, col, reg).next
    decreases |s.columns| - col
  {
    if col < |s.columns| { SourcePlain(s, col + 1, reg + 1); }
  }

  lemma {:induction false} AllColumnsPlain(env: seq<RowSource>, reg: nat)
    ensures AllPlain(AllColumns(env, reg).ops) && reg <= AllColumns(env, reg).next
    decreases env
  {
    if env != [] {
      SourcePlain(env[0], 0, reg);
      AllColumnsPlain(env[1..], SourceColumns(env[0], 0, reg).next);
      PlainAppend(SourceColumns(env[0], 0, reg).ops, AllColumns(env[1..], SourceColumns(env[0], 0, reg).next).ops);
    }
  }

  lemma ItemPlain(item: ProjectionItem, env: seq<RowSource>, reg: nat)
    ensures var r := ItemCode(item, env, reg); r.Success? ==> AllPlain(r.value.ops) && reg <= r.value.next
  {
    match item
    case Wildcard => AllColumnsPlain(env, reg);
    case ExprItem(e, _) => ExprPlain(e, env, reg);
  }

  lemma {:induction false} ItemsPlain(items: seq<ProjectionItem>, env: seq<RowSource>, reg: nat)
    ensures var r := ItemsCode(items, env, reg); r.Success? ==> AllPlain(r.value.ops) && reg <= r.value.next
    decreases items
  {
    if items != [] {
      ItemPlain(items[0], env, reg);
      if ItemCode(items[0], env, reg).Success? {
        var a := ItemCode(items[0], env, reg).value;
        ItemsPlain(items[1..], env, a.next);
        if ItemsCode(items[1..], env, a.next).Success? { PlainAppend(a.ops, ItemsCode(items[1..], env, a.next).value.ops); }
      }
    }
  }

  lemma UsingColumnPlain(sources: seq<RowSource>, name: string, reg: nat)
    ensures var r := UsingColumn(sources, name, reg); r.Success? ==> AllPlain(r.value.ops) && r.value.next == reg + 1
  {
  }

  lemma {:induction false} UsingPlain(columns: seq<string>, env: seq<RowSource>, n: nat, current: Option<nat>, reg: nat)
    ensures var r := UsingCode(columns, env, n, current, reg);
            r.Success? ==>
              && AllPlain(r.value.ops) && reg <= r.value.next && (r.value.cond.None? ==> r.value.ops == [])
              && (current.Some? ==> r.value.cond.Some?)
    decreases columns
  {
    hide UsingColumn, LeftSources, RightSources, AllPlain, Plain;
    if columns == [] {
      NothingPlain();
    } else if UsingCode(columns, env, n, current, reg).Success? {
      var a := UsingColumn(LeftSources(env, n), columns[0], reg).value;
      var b := UsingColumn(RightSources(env, n), columns[0], a.next).value;
      UsingColumnPlain(LeftSources(env, n), columns[0], reg);
      UsingColumnPlain(RightSources(env, n), columns[0], a.next);
      var eq := Compute(Eq, a.dest, b.dest, b.next);
      var both := if current.Some? then [Compute(And, current.value, b.next, b.next + 1)] else [];
      var at := b.next + |both|;
      UsingPlain(columns[1..], env, n, Some(at), at + 1);
      var rest := UsingCode(columns[1..], env, n, Some(at), at + 1).value;
      PlainAppend(a.ops, b.ops);
      ComputesPlain(eq, both, current, b.next);
      PlainAppend(a.ops + b.ops, [eq]);
      PlainAppend(a.ops + b.ops + [eq], both);
      PlainAppend(a.ops + b.ops + [eq] + both, rest.ops);
    }
  }

  lemma NothingPlain()
    ensures AllPlain([])
  {
  }

  lemma ComputesPlain(eq: Op, both: seq<Op>, current: Option<nat>, next: nat)
    requires eq.Compute? && both == if current.Some? then [Compute(And, current.value, next, next + 1)] else []
    ensures AllPlain([eq]) && AllPlain(both)
  {
  }

  lemma ConstraintPlain(c: JoinConstraint, env: seq<RowSource>, n: nat, reg: nat)
    ensures var r := ConstraintCode(c, env, n, reg);
            r.Success? ==> AllPlain(r.value.ops) && reg <= r.value.next && (r.value.cond.None? ==> r.value.ops == [])
  {
    match c
    case NoConstraint =>
    case On(e) => ExprPlain(e, env, reg);
    case Using(columns) => UsingPlain(columns, env, n, None, reg);
  }

  lemma GuardedScoped(limit: Option<nat>, row: RowCode, lo: nat)
    requires AllPlain(row.ops)
    ensures Scoped(Guarded(limit, row), lo)
  {
    PlainAppend(row.ops, [ResultRow(row.fields)]);
    var body := Prims(row.ops + [ResultRow(row.fields)]);
    PrimsScoped(row.ops + [ResultRow(row.fields)], lo);
    if limit.Some? {
      assert ScopedStmt(WhenRoom(limit.value, body), lo);
      ScopedOne(WhenRoom(limit.value, body), lo);
    }
  }

  lemma CondScoped(ops: seq<Op>, cond: nat, body: seq<Stmt>, lo: nat)
    requires AllPlain(ops) && Scoped(body, lo)
    ensures Scoped(Prims(ops) + [WhenTrue(cond, body)], lo)
  {
    PrimsScoped(ops, lo);
    assert ScopedStmt(WhenTrue(cond, body), lo);
    ScopedOne(WhenTrue(cond, body), lo);
    ScopedAppend(Prims(ops), [WhenTrue(cond, body)], lo);
  }

  /** Generated code is well scoped: every scan has a cursor of its own. */
  lemma {:induction false} RowsScoped(p: Plan, env: seq<RowSource>, k: Consumer, cat: Catalog, cur: nat, reg: nat)
    ensures var r := RowsCode(p, env, k, cat, cur, reg);
            r.Success? ==> Scoped(r.value.code, cur) && cur <= r.value.cursors && reg <= r.value.next
    decreases PlanSize(p) + Weight(k), 1
  {
    hide Scoped;
    match p
    case OneRow => ConsumerScoped(k, env, cat, cur, reg);
    case SeqScan(table, alias) =>
      if table in cat {
        var env' := env + [ScanSource(table, alias, cur, cat[table])];
        ConsumerScoped(k, env', cat, cur + 1, reg);
        if ConsumerCode(k, env', cat, cur + 1, reg).Success? {
          OneScan(cur, cat[table].root, ConsumerCode(k, env', cat, cur + 1, reg).value.code);
        }
      }
    case Filter(cond, input) => RowsScoped(input, env, WhenThen(cond, k), cat, cur, reg);
    case Project(items, input) => RowsScoped(input, env, ProjectThen(items, k), cat, cur, reg);
    case NestedLoopJoin(_, c, l, r) => RowsScoped(l, env, JoinLeft(r, c, k), cat, cur, reg);
    case HashJoin(_, c, l, r) => RowsScoped(l, env, JoinLeft(r, c, k), cat, cur, reg);
    case Limit(count, input) =>
      if LiteralLimit(count).Success? { RowsScoped(input, env, EmitAll(Some(LiteralLimit(count).value)), cat, cur, reg); }
    case Sort(_, _) =>
  }

  lemma OneScan(c: nat, root: nat, body: seq<Stmt>)
    requires Scoped(body, c + 1)
    ensures Scoped([Scan(c, root, body)], c)
  {
    assert ScopedStmt(Scan(c, root, body), c);
    ScopedOne(Scan(c, root, body), c);
  }

  lemma {:induction false} ConsumerScoped(k: Consumer, env: seq<RowSource>, cat: Catalog, cur: nat, reg: nat)
    ensures var r := ConsumerCode(k, env, cat, cur, reg);
            r.Success? ==> Scoped(r.value.code, cur) && cur <= r.value.cursors && reg <= r.value.next
    decreases Weight(k), 0
  {
    hide Scoped, Guarded;
    match k
    case EmitItems(items, limit) =>
      ItemsPlain(items, env, reg);
      if ItemsCode(items, env, reg).Success? { GuardedScoped(limit, ItemsCode(items, env, reg).value, cur); }
    case EmitAll(limit) =>
      AllColumnsPlain(env, reg);
      GuardedScoped(limit, AllColumns(env, reg), cur);
    case WhenThen(cond, next) =>
      ExprPlain(cond, env, reg);
      if ExprCode(cond, env, reg).Success? {
        var c := ExprCode(cond, env, reg).value;
        ConsumerScoped(next, env, cat, cur, c.next);
        if ConsumerCode(next, env, cat, cur, c.next).Success? {
          CondScoped(c.ops, c.dest, ConsumerCode(next, env, cat, cur, c.next).value.code, cur);
        }
      }
    case ProjectThen(items, next) =>
      ItemsPlain(items, env, reg);
      if ItemsCode(items, env, reg).Success? {
        var row := ItemsCode(items, env, reg).value;
        GuardedScoped(None, row, cur);
        ConsumerScoped(next, env, cat, cur, row.next);
        if ConsumerCode(next, env, cat, cur, row.next).Success? {
          ScopedAppend(Guarded(None, row), ConsumerCode(next, env, cat, cur, row.next).value.code, cur);
        }
      }
    case JoinLeft(right, c, next) => RowsScoped(right, env, JoinRight(c, |env|, next), cat, cur, reg);
    case JoinRight(c, n, next) =>
      ConstraintPlain(c, env, n, reg);
      if ConstraintCode(c, env, n, reg).Success? {
        var cc := ConstraintCode(c, env, n, reg).value;
        ConsumerScoped(next, env, cat, cur, cc.next);
        if cc.cond.Some? && ConsumerCode(next, env, cat, cur, cc.next).Success? {
          CondScoped(cc.ops, cc.cond.value, ConsumerCode(next, env, cat, cur, cc.next).value.code, cur);
        }
      }
  }
}
