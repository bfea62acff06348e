/** A SELECT statement from its text's tree to its rows: lowered, optimized, compiled and run. */
module SelectStatement {
  import opened Values
  import opened SqlSyntax
  import opened ValueLaws
  import opened Machine
  import opened PlanCode
  import opened PlanMeaning
  import opened SelectTheorem
  import opened PlanCompiler
  import opened Relation
  import opened Memo
  import opened PlanSearch
  import opened PlanBounds
  import opened JoinChoice
  import opened Optimizer
  import opened OptimizedShape
  import opened OptimizedMeaning
  import opened FromMeaning
  import opened SelectMeaning
  import opened SelectCompiles
  import opened UpdateMachine
  import opened ProgramChecks
  import opened SelectChecks
  import opened TableEngine

  datatype StatementError = NotLowered(relation: RelationError) | NotCompiled(plan: PlanError)

  /** The relation a SELECT stands for. */
  function RelationOf(s: SelectStmt): RelationExpr
    requires SelectToRelation(s).Success?
  {
    SelectToRelation(s).value
  }

  /** A statement is lowered unless a cross join has a constraint; its joins keep their types. */
  lemma LoweredWhen(s: SelectStmt)
    ensures SelectToRelation(s).Success? <==> Lowerable(StatementJoins(s))
    ensures SelectToRelation(s).Success? ==> (InnerOnly(RelationOf(s)) <==> MatchingOnly(StatementJoins(s)))
  {
    hide FromToRelation, Lowerable, MatchingOnly, ProjectionItems;
    LoweredFrom(s);
    RelationIs(s);
    if FromToRelation(s.from).Success? {
      assert InnerOnly(Chosen(s)) <==> InnerOnly(FromToRelation(s.from).value);
      assert InnerOnly(Ordered(s)) <==> InnerOnly(Projection(ProjectionItems(s.projection), Chosen(s)));
    }
  }

  /** The optimizer's plan for a SELECT: the code generator's reading of it is the answer to the statement. */
  method PlanOf(s: SelectStmt, config: OptimizerConfig) returns (r: Result<Physical, RelationError>)
    requires Sane(config)
    ensures r.Success? <==> Lowerable(StatementJoins(s))
    ensures r.Success? <==> SelectToRelation(s).Success?
    ensures r.Success? ==> HashesEqualities(r.value.plan) && (HashingPays(config) ==> LoopsOthers(r.value.plan))
    ensures r.Success? && MatchingOnly(StatementJoins(s)) ==> Optimized(r.value.plan, RelationOf(s), [])
    ensures r.Success? && MatchingOnly(StatementJoins(s)) ==>
              forall cat, db, rows :: TablesKnown(s, cat, db) && IsAnswer(s, cat, db, Some(rows)) ==> Outcome(r.value.plan, cat, db) == Some(rows)
  {
    hide BestPlan, Optimized, InnerOnly, Outcome, Sane, SelectShape, Direct, Lowerable, MatchingOnly, IsAnswer;
    LoweredWhen(s);
    var lowered := LowerSelect(s);
    match lowered
    case Failure(e) => r := Failure(e);
    case Success(relation) =>
      SelectHasShape(s);
      var optimizer := new CascadesOptimizer(config);
      var p, init := optimizer.Optimize(relation);
      if InnerOnly(relation) {
        BestIsOptimized(optimizer.memo, config, init, relation);
        forall cat, db, rows | TablesKnown(s, cat, db) && IsAnswer(s, cat, db, Some(rows))
          ensures Outcome(p.plan, cat, db) == Some(rows)
        {
          StatementMeans(s, cat, db);
          AnswerOnce(s, cat, db, Some(rows), Outcome(Direct(relation), cat, db));
          MeaningKept(p.plan, relation, cat, db);
        }
      }
      r := Success(p);
  }

  method LowerSelect(s: SelectStmt) returns (r: Result<RelationExpr, RelationError>)
    ensures r == SelectToRelation(s)
  {
    var relation := Unit;
    if s.from.Some? {
      var from := LowerTableRef(s.from.value);
      if from.Failure? { return from; }
      relation := from.value;
    }
    if s.whereClause.Some? { relation := Selection(s.whereClause.value, relation); }
    relation := Projection(ProjectionItems(s.projection), relation);
    if s.orderBy != [] { relation := Order(s.orderBy, relation); }
    if s.limit.Some? { relation := First(s.limit.value, relation); }
    r := Success(relation);
  }

  // ---------------------------------------------------------------- a plan on stored tables

  /** Every table of the catalog is stored. */
  ghost predicate AllStored(cat: Catalog, tables: map<nat, Table>) {
    Covers(cat, tables.Keys)
  }

  /** The rows of the stored tables. */
  ghost function RowsOf(tables: map<nat, Table>): Tables { Db(HeapOf(tables)) }

  lemma StoredRooted(cat: Catalog, tables: map<nat, Table>)
    requires AllStored(cat, tables)
    ensures Rooted(cat, RowsOf(tables))
  {
    SameTables(tables);
  }

  /** Compiles a SELECT plan and runs it on stored tables: the new result rows are those the plan denotes. */
  method RunSelect(p: Plan, catalog: Catalog, vm: VMInstance) returns (r: Result<bool, PlanError>)
    requires (Program(p, catalog, true).Success? ==> SelectPlan(p)) && vm.Valid() && AllStored(catalog, vm.tables) && vm.places == map[]
    modifies vm, vm.btree`pages
    ensures vm.Valid() && HeapOf(vm.tables) == HeapOf(old(vm.tables))
    ensures r.Failure? <==> Program(p, catalog, true).Failure?
    ensures r.Failure? ==> vm.Snap() == old(vm.Snap()) && r.error == Program(p, catalog, true).error
    ensures r.Success? ==>
              match Answer(p, catalog, RowsOf(old(vm.tables)), |old(vm.results)|)
              case None => !r.value
              case Some(rows) => r.value && vm.results == old(vm.results) + rows && vm.places == map[]
  {
    hide Program, Answer, SelectPlan, Rooted, Orderly, Sensible, TablesKept, CursorIs, HeapOf;
    var compiler := new Compiler(catalog);
    var ops := compiler.Compile(p, true);
    match ops {
      case Failure(e) => r := Failure(e);
      case Success(program) =>
        CompiledCode(p, catalog);
        ghost var u := vm.Snap();
        ghost var db, n := RowsOf(vm.tables), Turns(p, catalog, RowsOf(vm.tables), u.s);
        StoredRooted(catalog, vm.tables);
        SelectCorrect(p, catalog, db, true, vm.registers, vm.flagCursorEnd, vm.results);
        StepsOnTables(vm.fc, program, Running(0, u.s), u.heap, n);
        ProgramOrderly(p, catalog, true, vm.tables.Keys);
        StartsSensible(Bases(program), vm.tables.Keys, None, u);
        var ok := vm.Run(Bases(program), None, n);
        r := Success(ok);
    }
  }

  lemma CompiledCode(p: Plan, cat: Catalog)
    requires Program(p, cat, true).Success?
    ensures ProgramCode(p, cat).Success?
  {
  }

  // ---------------------------------------------------------------- a hash join is compiled like a nested loop

  function Unhashed(p: Plan): Plan {
    match p
    case OneRow => p
    case SeqScan(_, _) => p
    case Filter(c, input) => Filter(c, Unhashed(input))
    case Project(items, input) => Project(items, Unhashed(input))
    case NestedLoopJoin(t, c, l, r) => NestedLoopJoin(t, c, Unhashed(l), Unhashed(r))
    case HashJoin(t, c, l, r) => NestedLoopJoin(t, c, Unhashed(l), Unhashed(r))
    case Sort(o, input) => Sort(o, Unhashed(input))
    case Limit(n, input) => Limit(n, Unhashed(input))
  }

  function UnhashedConsumer(k: Consumer): Consumer {
    match k
    case WhenThen(c, next) => WhenThen(c, UnhashedConsumer(next))
    case ProjectThen(items, next) => ProjectThen(items, UnhashedConsumer(next))
    case JoinLeft(right, c, next) => JoinLeft(Unhashed(right), c, UnhashedConsumer(next))
    case JoinRight(c, n, next) => JoinRight(c, n, UnhashedConsumer(next))
    case _ => k
  }

  lemma {:induction false} RowsUnhashed(p: Plan, env: seq<RowSource>, k: Consumer, cat: Catalog, cur: nat, reg: nat)
    ensures RowsCode(p, env, k, cat, cur, reg) == RowsCode(Unhashed(p), env, UnhashedConsumer(k), cat, cur, reg)
    decreases PlanSize(p) + Weight(k), 1
  {
    match p
    case OneRow => ConsumerUnhashed(k, env, cat, cur, reg);
    case SeqScan(table, alias) =>
      if table in cat { ConsumerUnhashed(k, env + [ScanSource(table, alias, cur, cat[table])], cat, cur + 1, reg); }
    case Filter(cond, input) => RowsUnhashed(input, env, WhenThen(cond, k), cat, cur, reg);
    case Project(items, input) => RowsUnhashed(input, env, ProjectThen(items, k), cat, cur, reg);
    case NestedLoopJoin(_, c, l, r) => RowsUnhashed(l, env, JoinLeft(r, c, k), cat, cur, reg);
    case HashJoin(_, c, l, r) => RowsUnhashed(l, env, JoinLeft(r, c, k), cat, cur, reg);
    case Limit(count, input) =>
      if LiteralLimit(count).Success? { RowsUnhashed(input, env, EmitAll(Some(LiteralLimit(count).value)), cat, cur, reg); }
    case Sort(_, _) =>
  }

  lemma {:induction false} ConsumerUnhashed(k: Consumer, env: seq<RowSource>, cat: Catalog, cur: nat, reg: nat)
    ensures ConsumerCode(k, env, cat, cur, reg) == ConsumerCode(UnhashedConsumer(k), env, cat, cur, reg)
    decreases Weight(k), 0
  {
    hide ExprCode, ItemsCode, ConstraintCode;
    match k
    case WhenThen(cond, next) =>
      if ExprCode(cond, env, reg).Success? { ConsumerUnhashed(next, env, cat, cur, ExprCode(cond, env, reg).value.next); }
    case ProjectThen(items, next) =>
      if ItemsCode(items, env, reg).Success? { ConsumerUnhashed(next, env, cat, cur, ItemsCode(items, env, reg).value.next); }
    case JoinLeft(right, c, next) => RowsUnhashed(right, env, JoinRight(c, |env|, next), cat, cur, reg);
    case JoinRight(c, n, next) =>
      if ConstraintCode(c, env, n, reg).Success? { ConsumerUnhashed(next, env, cat, cur, ConstraintCode(c, env, n, reg).value.next); }
    case _ =>
  }

  lemma {:induction false} JoinsUnhashed(p: Plan, r: RelationExpr)
    requires SameJoins(p, r)
    ensures Unhashed(p) == Direct(r)
    decreases r
  {
    if r.Join? {
      JoinsUnhashed(p.left, r.left);
      JoinsUnhashed(p.right, r.right);
    }
  }

  lemma FilterUnhashed(p: Plan, r: RelationExpr)
    requires Optimized(p, r, []) && FilterShape(r)
    ensures Unhashed(p) == Direct(r)
  {
    if r.Selection? { JoinsUnhashed(p.input, r.input); } else { JoinsUnhashed(p, r); }
  }

  /** The optimized plan compiles to the very code of the statement read operator by operator. */
  lemma SameProgram(p: Plan, r: RelationExpr, cat: Catalog)
    requires Optimized(p, r, []) && SelectShape(r)
    ensures Program(p, cat, true) == Program(Direct(r), cat, true)
  {
    var q, s := if r.First? then p.input else p, if r.First? then r.input else r;
    var count := if r.First? then Some(r.count) else None;
    assert q.Project? by { if s.Order? { SortRefused(q, s); } }
    PeeledOnce(count, q);
    PeeledOnce(count, Direct(s));
    if s.Order? {
      SortRefused(q, s);
    } else {
      FilterUnhashed(q.input, s.input);
      var limit := if r.First? && LiteralLimit(r.count).Success? then Some(LiteralLimit(r.count).value) else None;
      RowsUnhashed(q.input, [], EmitItems(q.items, limit), cat, 0, 0);
      assert OutputCode(q, limit, cat) == OutputCode(Direct(s), limit, cat);
    }
  }

  /** A sort anywhere in the plan is refused. */
  lemma SortRefused(p: Plan, r: RelationExpr)
    requires Optimized(p, r, []) && OrderShape(r) && r.Order?
    ensures p.Project? && forall limit, cat :: OutputCode(p, limit, cat) == Failure(SortUnsupported)
  {
    var below := r.input.input;
    assert Optimized(p, r.input, r.order) && Optimized(p.input, below, r.order);
    if below.Selection? { assert Optimized(p.input.input, below.input, r.order) && p.input.input.Sort?; }
    forall limit, cat ensures OutputCode(p, limit, cat) == Failure(SortUnsupported) {
      var k := EmitItems(p.items, limit);
      assert OutputCode(p, limit, cat) == RowsCode(p.input, [], k, cat, 0, 0);
      if p.input.Filter? { assert RowsCode(p.input, [], k, cat, 0, 0) == RowsCode(p.input.input, [], WhenThen(p.input.cond, k), cat, 0, 0); }
    }
  }

  /**
   Runs a SELECT over inner and cross joins: the result rows are the answer to the statement, or it fails because an
   expression could not be computed. It is refused if it cannot be compiled, as every statement with an ORDER BY is.
   */
  method RunStatement(s: SelectStmt, config: OptimizerConfig, catalog: Catalog, vm: VMInstance) returns (r: Result<bool, StatementError>)
    requires Sane(config) && vm.Valid() && AllStored(catalog, vm.tables) && vm.places == map[] && vm.results == []
    requires MatchingOnly(StatementJoins(s))
    modifies vm, vm.btree`pages
    ensures vm.Valid() && HeapOf(vm.tables) == HeapOf(old(vm.tables))
    ensures !Lowerable(StatementJoins(s)) ==> r == Failure(NotLowered(CrossJoinConstraint))
    ensures r.Success? <==> Lowerable(StatementJoins(s)) && CompilableSelect(s, catalog)
    ensures r.Failure? && SelectToRelation(s).Success? ==>
              var program := Program(Direct(RelationOf(s)), catalog, true);
              program.Failure? && r == Failure(NotCompiled(program.error))
    ensures r.Failure? ==> vm.Snap() == old(vm.Snap())
    ensures r.Success? ==> TablesKnown(s, catalog, RowsOf(old(vm.tables)))
    ensures r.Success? ==> IsAnswer(s, catalog, RowsOf(old(vm.tables)), if r.value then Some(vm.results) else None)
    ensures r.Success? && r.value ==> vm.places == map[]
  {
    hide Outcome, Optimized, Answer, InnerOnly, Sane, AllStored, RowsOf, HeapOf, Program, Direct, TablesKept, CursorIs, Lowerable, MatchingOnly,
         CompilableSelect, IsAnswer, TablesKnown, SelectToRelation, SelectShape, StatementTables;
    LoweredWhen(s);
    if SelectToRelation(s).Success? { StatementCompiles(s, catalog); }
    var planned := PlanOf(s, config);
    if planned.Failure? {
      assert planned.error == CrossJoinConstraint;
      return Failure(NotLowered(planned.error));
    }
    var p := planned.value.plan;
    ghost var db := RowsOf(vm.tables);
    SelectHasShape(s);
    SameProgram(p, RelationOf(s), catalog);
    if Program(p, catalog, true).Success? {
      CompiledTables(s, catalog, vm.tables);
      GoodPlan(p, s, catalog, db);
      StatementMeans(s, catalog, db);
    }
    var ran := RunSelect(p, catalog, vm);
    match ran
    case Failure(e) => r := Failure(NotCompiled(e));
    case Success(ok) =>
      assert forall rows: seq<Record> :: [] + rows == rows;
      r := Success(ok);
  }

  lemma CompiledTables(s: SelectStmt, cat: Catalog, tables: map<nat, Table>)
    requires CompilableSelect(s, cat) && AllStored(cat, tables)
    ensures TablesKnown(s, cat, RowsOf(tables))
  {
    hide ConditionsOk, Compilable;
    StoredRooted(cat, tables);
  }

  /** The plan is one that the code generator's results are about. */
  lemma GoodPlan(p: Plan, s: SelectStmt, cat: Catalog, db: Tables)
    requires SelectToRelation(s).Success? && Optimized(p, RelationOf(s), []) && InnerOnly(RelationOf(s)) && CompilableSelect(s, cat)
    ensures SelectPlan(p) && Answer(p, cat, db, 0) == Outcome(Direct(RelationOf(s)), cat, db)
  {
    hide Outcome, Answer, ConditionsOk, Compilable, FromToRelation, ProjectionItems;
    SelectHasShape(s);
    LimitIs(s);
    RelationIs(s);
    AnswerIsOutcome(p, RelationOf(s), cat, db);
  }
}
