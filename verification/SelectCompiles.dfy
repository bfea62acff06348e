/** Which SELECT statements there is a program for. */
module SelectCompiles {
  import opened Values
  import opened SqlSyntax
  import opened ValueLaws
  import opened Machine
  import opened PlanCode
  import opened Relation
  import opened OptimizedShape
  import opened PlanMeaning
  import opened FromMeaning
  import opened SelectMeaning

  // ---------------------------------------------------------------- code for rows, register numbers aside

  ghost predicate ItemsOk(items: seq<ProjectionItem>, env: seq<RowSource>) {
    forall i :: 0 <= i < |items| && items[i].ExprItem? ==> Compilable(items[i].expr, env)
  }

  ghost predicate Resolves(sources: seq<RowSource>, name: string) { exists i: nat, col: nat :: NamesColumn(sources, None, name, i, col) }

  ghost predicate ConstraintOk(c: JoinConstraint, env: seq<RowSource>, n: nat) {
    match c
    case NoConstraint => true
    case On(e) => Compilable(e, env)
    case Using(columns) => forall name :: name in columns ==> Resolves(LeftSources(env, n), name) && Resolves(RightSources(env, n), name)
  }

  ghost predicate RowsOk(p: Plan, env: seq<RowSource>, k: Consumer, cat: Catalog)
    decreases PlanSize(p) + Weight(k), 1
  {
    match p
    case OneRow => ConsumerOk(k, env, cat)
    case SeqScan(table, alias) => table in cat && ConsumerOk(k, env + [ScanSource(table, alias, |env|, cat[table])], cat)
    case Filter(cond, input) => RowsOk(input, env, WhenThen(cond, k), cat)
    case Project(items, input) => RowsOk(input, env, ProjectThen(items, k), cat)
    case NestedLoopJoin(_, c, l, r) => RowsOk(l, env, JoinLeft(r, c, k), cat)
    case HashJoin(_, c, l, r) => RowsOk(l, env, JoinLeft(r, c, k), cat)
    case Limit(count, input) => LiteralLimit(count).Success? && RowsOk(input, env, EmitAll(Some(LiteralLimit(count).value)), cat)
    case Sort(_, _) => false
  }

  ghost predicate ConsumerOk(k: Consumer, env: seq<RowSource>, cat: Catalog)
    decreases Weight(k), 0
  {
    match k
    case EmitItems(items, _) => ItemsOk(items, env)
    case EmitAll(_) => true
    case WhenThen(cond, next) => Compilable(cond, env) && ConsumerOk(next, env, cat)
    case ProjectThen(items, next) => ItemsOk(items, env) && ConsumerOk(next, env, cat)
    case JoinLeft(right, c, next) => RowsOk(right, env, JoinRight(c, |env|, next), cat)
    case JoinRight(c, n, next) => ConstraintOk(c, env, n) && ConsumerOk(next, env, cat)
  }

  lemma {:induction false} ItemsCompile(items: seq<ProjectionItem>, env: seq<RowSource>, reg: nat)
    ensures ItemsCode(items, env, reg).Success? <==> ItemsOk(items, env)
    decreases items
  {
    hide Compilable, ExprCode;
    if items != [] {
      if items[0].ExprItem? { CodeWhenClear(items[0].expr, env, reg); }
      var first := ItemCode(items[0], env, reg);
      if first.Success? { ItemsCompile(items[1..], env, first.value.next); }
      assert ItemsOk(items, env) <==> (items[0].ExprItem? ==> Compilable(items[0].expr, env)) && ItemsOk(items[1..], env) by { FirstItem(items, env); }
    }
  }

  lemma FirstItem(items: seq<ProjectionItem>, env: seq<RowSource>)
    requires items != []
    ensures ItemsOk(items, env) <==> (items[0].ExprItem? ==> Compilable(items[0].expr, env)) && ItemsOk(items[1..], env)
  {
    hide Compilable;
    forall i | 0 < i < |items| ensures items[i] == items[1..][i - 1] {}
  }

  lemma {:induction false} UsingCompile(columns: seq<string>, env: seq<RowSource>, n: nat, current: Option<nat>, reg: nat)
    ensures UsingCode(columns, env, n, current, reg).Success? <==> ConstraintOk(Using(columns), env, n)
    decreases columns
  {
    hide Resolves, ResolveColumn, LeftSources, RightSources;
    if columns != [] {
      NameResolves(LeftSources(env, n), columns[0]);
      NameResolves(RightSources(env, n), columns[0]);
      assert forall name :: name in columns <==> name == columns[0] || name in columns[1..];
      var a := UsingColumn(LeftSources(env, n), columns[0], reg);
      if a.Success? {
        var b := UsingColumn(RightSources(env, n), columns[0], a.value.next);
        if b.Success? {
          var at := if current.Some? then b.value.next + 1 else b.value.next;
          UsingCompile(columns[1..], env, n, Some(at), at + 1);
        }
      }
    }
  }

  lemma NameResolves(sources: seq<RowSource>, name: string)
    ensures ResolveColumn(sources, None, name).Success? <==> Resolves(sources, name)
  {
    ResolvedWhenNamed(sources, None, name);
  }

  lemma ConstraintCompiles(c: JoinConstraint, env: seq<RowSource>, n: nat, reg: nat)
    ensures ConstraintCode(c, env, n, reg).Success? <==> ConstraintOk(c, env, n)
  {
    hide Compilable, ExprCode, UsingCode;
    match c
    case On(e) => CodeWhenClear(e, env, reg);
    case Using(columns) => UsingCompile(columns, env, n, None, reg);
    case NoConstraint =>
  }

  lemma {:induction false} RowsCompile(p: Plan, env: seq<RowSource>, k: Consumer, cat: Catalog, reg: nat)
    ensures RowsCode(p, env, k, cat, |env|, reg).Success? <==> RowsOk(p, env, k, cat)
    decreases PlanSize(p) + Weight(k), 1
  {
    match p
    case OneRow => ConsumerCompiles(k, env, cat, reg);
    case SeqScan(table, alias) => if table in cat { ConsumerCompiles(k, env + [ScanSource(table, alias, |env|, cat[table])], cat, reg); }
    case Filter(cond, input) => RowsCompile(input, env, WhenThen(cond, k), cat, reg);
    case Project(items, input) => RowsCompile(input, env, ProjectThen(items, k), cat, reg);
    case NestedLoopJoin(_, c, l, r) => RowsCompile(l, env, JoinLeft(r, c, k), cat, reg);
    case HashJoin(_, c, l, r) => RowsCompile(l, env, JoinLeft(r, c, k), cat, reg);
    case Limit(count, input) => if LiteralLimit(count).Success? { RowsCompile(input, env, EmitAll(Some(LiteralLimit(count).value)), cat, reg); }
    case Sort(_, _) =>
  }

  lemma {:induction false} ConsumerCompiles(k: Consumer, env: seq<RowSource>, cat: Catalog, reg: nat)
    ensures ConsumerCode(k, env, cat, |env|, reg).Success? <==> ConsumerOk(k, env, cat)
    decreases Weight(k), 0
  {
    hide ExprCode, ItemsCode, ConstraintCode, Compilable, ItemsOk, ConstraintOk;
    match k
    case EmitItems(items, _) => ItemsCompile(items, env, reg);
    case EmitAll(_) =>
    case WhenThen(cond, next) =>
      CodeWhenClear(cond, env, reg);
      if ExprCode(cond, env, reg).Success? { ConsumerCompiles(next, env, cat, ExprCode(cond, env, reg).value.next); }
    case ProjectThen(items, next) =>
      ItemsCompile(items, env, reg);
      if ItemsCode(items, env, reg).Success? { ConsumerCompiles(next, env, cat, ItemsCode(items, env, reg).value.next); }
    case JoinLeft(right, c, next) => RowsCompile(right, env, JoinRight(c, |env|, next), cat, reg);
    case JoinRight(c, n, next) =>
      ConstraintCompiles(c, env, n, reg);
      if ConstraintCode(c, env, n, reg).Success? { ConsumerCompiles(next, env, cat, ConstraintCode(c, env, n, reg).value.next); }
  }

  // ---------------------------------------------------------------- join trees

  ghost predicate AllNamed(list: seq<Listed>, cat: Catalog) { forall x :: x in list ==> x.name in cat }

  /** The names in the condition can be resolved among the tables up to its end. */
  ghost predicate ConditionOk(c: Condition, env: seq<RowSource>) {
    && c.left <= c.end <= |env|
    && match c.constraint
       case NoConstraint => true
       case On(e) => Compilable(e, env[..c.end])
       case Using(columns) => forall name :: name in columns ==> Resolves(env[..c.left], name) && Resolves(env[c.left..c.end], name)
  }

  ghost predicate ConditionsOk(conds: seq<Condition>, env: seq<RowSource>) { forall c :: c in conds ==> ConditionOk(c, env) }

  /** Code for the rows of a tree is code for a consumer of them, and all tables are known. */
  lemma {:induction false} TreeKnown(r: RelationExpr, env: seq<RowSource>, k: Consumer, cat: Catalog)
    requires TableTree(r) && RowsOk(Direct(r), env, k, cat)
    ensures AllNamed(TreeTables(r), cat) && ConsumerOk(k, Scope(Direct(r), env, cat), cat)
    decreases r
  {
    hide ConstraintOk;
    if r.Join? {
      var right, c := Direct(r.right), r.constraint;
      TreeKnown(r.left, env, JoinLeft(right, c, k), cat);
      var mid := Scope(Direct(r.left), env, cat);
      TreeKnown(r.right, mid, JoinRight(c, |mid|, k), cat);
    }
  }

  lemma OwnConditionOk(c: Condition, env: seq<RowSource>)
    requires c.left <= c.end <= |env|
    ensures ConstraintOk(c.constraint, env[..c.end], c.left) <==> ConditionOk(c, env)
  {
    hide Resolves, Compilable;
    assert LeftSources(env[..c.end], c.left) == env[..c.left];
    assert RightSources(env[..c.end], c.left) == env[c.left..c.end];
  }

  lemma {:induction false} TreeCompiles(r: RelationExpr, env: seq<RowSource>, base: nat, k: Consumer, cat: Catalog)
    requires TableTree(r) && AllNamed(TreeTables(r), cat) && base + |TreeTables(r)| <= |env|
    requires env[base..base + |TreeTables(r)|] == SourcesOf(TreeTables(r), base, cat)
    ensures RowsOk(Direct(r), env[..base], k, cat) <==>
            ConditionsOk(TreeConditions(r, base), env) && ConsumerOk(k, env[..base + |TreeTables(r)|], cat)
    decreases r
  {
    hide ConditionsOk, ConditionOk, ConstraintOk, SourcesOf, Direct, RowsOk, ConsumerOk, TreeConditions;
    if r.TableScan? {
      TableCompiles(r, env, base, k, cat);
    } else {
      var tl, tr := TreeTables(r.left), TreeTables(r.right);
      var m, end := base + |tl|, base + |tl| + |tr|;
      var own := Condition(r.joinType, r.constraint, m, end);
      JoinScopes(r, env, base, cat);
      BothSides(r, cat);
      TreeCompiles(r.left, env, base, JoinLeft(Direct(r.right), r.constraint, k), cat);
      TreeCompiles(r.right, env, m, JoinRight(r.constraint, m, k), cat);
      OwnConditionOk(own, env);
      JoinOk(r, env, base, k, cat);
    }
  }

  lemma TableCompiles(r: RelationExpr, env: seq<RowSource>, base: nat, k: Consumer, cat: Catalog)
    requires r.TableScan? && AllNamed(TreeTables(r), cat) && base < |env|
    requires env[base..base + 1] == SourcesOf(TreeTables(r), base, cat)
    ensures RowsOk(Direct(r), env[..base], k, cat) <==> ConditionsOk(TreeConditions(r, base), env) && ConsumerOk(k, env[..base + 1], cat)
  {
    assert env[base..base + 1][0] == env[base];
    assert env[..base + 1] == env[..base] + [ScanSource(r.table, r.alias, base, cat[r.table])];
  }

  lemma JoinOk(r: RelationExpr, env: seq<RowSource>, base: nat, k: Consumer, cat: Catalog)
    requires r.Join? && base + |TreeTables(r)| <= |env|
    ensures var m := base + |TreeTables(r.left)|; var end := m + |TreeTables(r.right)|; var own := Condition(r.joinType, r.constraint, m, end);
            && RowsOk(Direct(r), env[..base], k, cat) == RowsOk(Direct(r.left), env[..base], JoinLeft(Direct(r.right), r.constraint, k), cat)
            && ConsumerOk(JoinLeft(Direct(r.right), r.constraint, k), env[..m], cat) == RowsOk(Direct(r.right), env[..m], JoinRight(r.constraint, m, k), cat)
            && ConsumerOk(JoinRight(r.constraint, m, k), env[..end], cat) == (ConstraintOk(r.constraint, env[..end], m) && ConsumerOk(k, env[..end], cat))
            && (ConditionsOk(TreeConditions(r, base), env) <==>
                  ConditionsOk(TreeConditions(r.left, base), env) && ConditionsOk(TreeConditions(r.right, m), env) && ConditionOk(own, env))
  {
    hide ConditionOk, ConstraintOk;
    var m := base + |TreeTables(r.left)|;
    assert |env[..m]| == m;
    var own := Condition(r.joinType, r.constraint, m, m + |TreeTables(r.right)|);
    assert forall c :: c in TreeConditions(r, base) <==> c in TreeConditions(r.left, base) || c in TreeConditions(r.right, m) || c == own;
  }

  // ---------------------------------------------------------------- statements

  /**
   A statement can be compiled if it has no ORDER BY, its LIMIT is a number, its tables are known, and every name is
   resolved: in a join condition among the tables up to that join, elsewhere among all of them.
   */
  ghost predicate CompilableSelect(s: SelectStmt, cat: Catalog) {
    && s.orderBy == []
    && (s.limit.Some? ==> exists n: nat :: s.limit.value == Lit(LitInteger(n)))
    && AllNamed(StatementTables(s), cat)
    && var env := StatementScope(s, cat);
    && ConditionsOk(StatementJoins(s), env)
    && (s.whereClause.Some? ==> Compilable(s.whereClause.value, env))
    && forall i :: 0 <= i < |s.projection| && s.projection[i].kind.KindExpr? ==> Compilable(s.projection[i].kind.expr, env)
  }

  lemma {:induction false} SelectItemsOk(items: seq<SelectItem>, env: seq<RowSource>)
    ensures ItemsOk(ProjectionItems(items), env) <==> forall i :: 0 <= i < |items| && items[i].kind.KindExpr? ==> Compilable(items[i].kind.expr, env)
    decreases items
  {
    hide Compilable;
    if items != [] {
      SelectItemsOk(items[1..], env);
      FirstItem(ProjectionItems(items), env);
      assert ProjectionItems(items)[1..] == ProjectionItems(items[1..]);
      forall i | 0 < i < |items| ensures items[i] == items[1..][i - 1] {}
    }
  }

  lemma FromCompiles(s: SelectStmt, k: Consumer, cat: Catalog)
    requires FromToRelation(s.from).Success?
    ensures RowsOk(Direct(FromToRelation(s.from).value), [], k, cat) <==>
            AllNamed(StatementTables(s), cat) && ConditionsOk(StatementJoins(s), StatementScope(s, cat)) && ConsumerOk(k, StatementScope(s, cat), cat)
  {
    hide ConsumerOk, ConditionOk, SourcesOf;
    LoweredFrom(s);
    var r := FromToRelation(s.from).value;
    if s.from.Some? {
      hide RowsOk, Direct;
      if RowsOk(Direct(r), [], k, cat) { TreeKnown(r, [], k, cat); }
      if AllNamed(StatementTables(s), cat) {
        var env := StatementScope(s, cat);
        assert env[0..|env|] == env && env[..0] == [] && env[..|env|] == env;
        TreeCompiles(r, env, 0, k, cat);
      }
    } else {
      assert SourcesOf([], 0, cat) == [];
    }
  }

  /** These are the statements that are compiled, read operator by operator. */
  lemma StatementCompiles(s: SelectStmt, cat: Catalog)
    requires SelectToRelation(s).Success?
    ensures Program(Direct(SelectToRelation(s).value), cat, true).Success? <==> CompilableSelect(s, cat)
  {
    hide ProgramCode, Ordered, SelectToRelation, FromToRelation, Direct, ConditionsOk, Compilable, SourcesOf;
    RelationIs(s);
    LimitIs(s);
    TopPeeled(s, cat);
    if Outermost(s) { ChosenCompiles(s, Limited(s), cat); }
  }

  /** No ORDER BY, and a LIMIT that is a number. */
  predicate Outermost(s: SelectStmt) { s.orderBy == [] && (s.limit.Some? ==> LiteralLimit(s.limit.value).Success?) }

  lemma LimitIs(s: SelectStmt)
    ensures Outermost(s) <==> s.orderBy == [] && (s.limit.Some? ==> exists n: nat :: s.limit.value == Lit(LitInteger(n)))
  {
    if s.limit.Some? { ValueLaws.LimitMeans(s.limit.value); }
  }

  lemma TopPeeled(s: SelectStmt, cat: Catalog)
    requires SelectToRelation(s).Success?
    ensures var p := Direct(SelectToRelation(s).value);
            if Outermost(s)
            then ProgramCode(p, cat) == RowsCode(Direct(Chosen(s)), [], EmitItems(ProjectionItems(s.projection), Limited(s)), cat, 0, 0)
            else ProgramCode(p, cat).Failure?
  {
    hide RowsCode, FromToRelation, ProjectionItems, SelectToRelation, Chosen;
    RelationIs(s);
    var top, p := Direct(Ordered(s)), Direct(SelectToRelation(s).value);
    assert p == if s.limit.Some? then Limit(s.limit.value, top) else top;
    PeeledOnce(s.limit, top);
  }

  /** At most one LIMIT is taken off. */
  lemma PeeledOnce(count: Option<Expr>, top: Plan)
    requires top.Project? || top.Sort?
    ensures PeelLimit(if count.Some? then Limit(count.value, top) else top, None) ==
            if count.Some? && LiteralLimit(count.value).Failure? then Failure(LiteralLimit(count.value).error)
            else if top.Sort? then Failure(SortUnsupported)
            else Success((top, if count.Some? then Some(LiteralLimit(count.value).value) else None))
  {
    assert forall limit :: PeelLimit(top, limit) == if top.Sort? then Failure(SortUnsupported) else Success((top, limit));
  }

  function Limited(s: SelectStmt): Option<nat> {
    if s.limit.Some? && LiteralLimit(s.limit.value).Success? then Some(LiteralLimit(s.limit.value).value) else None
  }

  lemma ChosenCompiles(s: SelectStmt, limit: Option<nat>, cat: Catalog)
    requires FromToRelation(s.from).Success?
    ensures RowsCode(Direct(Chosen(s)), [], EmitItems(ProjectionItems(s.projection), limit), cat, 0, 0).Success? <==>
            && AllNamed(StatementTables(s), cat)
            && var env := StatementScope(s, cat);
            && ConditionsOk(StatementJoins(s), env)
            && (s.whereClause.Some? ==> Compilable(s.whereClause.value, env))
            && forall i :: 0 <= i < |s.projection| && s.projection[i].kind.KindExpr? ==> Compilable(s.projection[i].kind.expr, env)
  {
    hide RowsCode, ConditionsOk, ItemsOk, Compilable, FromToRelation, SourcesOf;
    var k := EmitItems(ProjectionItems(s.projection), limit);
    RowsCompile(Direct(Chosen(s)), [], k, cat, 0);
    FromCompiles(s, if s.whereClause.Some? then WhenThen(s.whereClause.value, k) else k, cat);
    if AllNamed(StatementTables(s), cat) { SelectItemsOk(s.projection, StatementScope(s, cat)); }
  }
}
