/** SELECT statements, and the logical algebra they are lowered to. */
module Relation {
  import opened Values
  import opened SqlSyntax

  datatype SelectItem = SelectItem(kind: SelectItemKind, alias: Option<string>)

  datatype SelectItemKind = KindExpr(expr: Expr) | KindWildcard

  datatype TableRef = TableRef(name: string, alias: Option<string>, joins: seq<JoinClause>)

  datatype JoinClause = JoinClause(joinType: JoinType, table: TableRef, constraint: JoinConstraint)

  datatype SelectStmt = SelectStmt(projection: seq<SelectItem>, from: Option<TableRef>, whereClause: Option<Expr>,
                                   orderBy: seq<OrderItem>, limit: Option<Expr>)

  datatype RelationExpr =
    | Unit
    | TableScan(table: string, alias: Option<string>)
    | Projection(items: seq<ProjectionItem>, input: RelationExpr)
    | Selection(cond: Expr, input: RelationExpr)
    | Join(joinType: JoinType, constraint: JoinConstraint, left: RelationExpr, right: RelationExpr)
    | Order(order: seq<OrderItem>, input: RelationExpr)
    | First(count: Expr, input: RelationExpr)

  datatype RelationError = CrossJoinConstraint

  // ---------------------------------------------------------------- lowering

  function ProjectionItems(items: seq<SelectItem>): (r: seq<ProjectionItem>)
    ensures |r| == |items|
  {
    if items == [] then []
    else
      [match items[0].kind
       case KindExpr(e) => ExprItem(e, items[0].alias)
       case KindWildcard => Wildcard] + ProjectionItems(items[1..])
  }

  function SelectToRelation(s: SelectStmt): Result<RelationExpr, RelationError> {
    match FromToRelation(s.from)
    case Failure(e) => Failure(e)
    case Success(base) =>
      var chosen := if s.whereClause.Some? then Selection(s.whereClause.value, base) else base;
      var projected := Projection(ProjectionItems(s.projection), chosen);
      var ordered := if s.orderBy != [] then Order(s.orderBy, projected) else projected;
      Success(if s.limit.Some? then First(s.limit.value, ordered) else ordered)
  }

  function FromToRelation(from: Option<TableRef>): Result<RelationExpr, RelationError> {
    match from
    case None => Success(Unit)
    case Some(t) => TableRefToRelation(t)
  }

  function TableRefToRelation(t: TableRef): Result<RelationExpr, RelationError>
    decreases t, 1, 0
  {
    JoinsToRelation(t, |t.joins|)
  }

  /** The table with the first n of its joins, one on top of the other. */
  function JoinsToRelation(t: TableRef, n: nat): Result<RelationExpr, RelationError>
    requires n <= |t.joins|
    decreases t, 0, n
  {
    if n == 0 then Success(TableScan(t.name, t.alias))
    else
      match JoinsToRelation(t, n - 1)
      case Failure(e) => Failure(e)
      case Success(left) =>
        var j := t.joins[n - 1];
        if j.joinType.CrossJoin? && !j.constraint.NoConstraint? then Failure(CrossJoinConstraint)
        else
          match TableRefToRelation(j.table)
          case Failure(e) => Failure(e)
          case Success(right) => Success(Join(j.joinType, j.constraint, left, right))
  }

  /** The source folds over the joins with one variable. */
  method LowerTableRef(t: TableRef) returns (r: Result<RelationExpr, RelationError>)
    ensures r == TableRefToRelation(t)
    decreases t
  {
    var relation := TableScan(t.name, t.alias);
    for i := 0 to |t.joins|
      invariant JoinsToRelation(t, i) == Success(relation)
    {
      var join := t.joins[i];
      if join.joinType.CrossJoin? && !join.constraint.NoConstraint? {
        FailureStays(t, i + 1, |t.joins|);
        return Failure(CrossJoinConstraint);
      }
      var right := LowerTableRef(join.table);
      if right.Failure? {
        FailureStays(t, i + 1, |t.joins|);
        return right;
      }
      relation := Join(join.joinType, join.constraint, relation, right.value);
    }
    r := Success(relation);
  }

  lemma {:induction false} FailureStays(t: TableRef, k: nat, n: nat)
    requires k <= n <= |t.joins| && JoinsToRelation(t, k).Failure?
    ensures JoinsToRelation(t, n) == JoinsToRelation(t, k)
    decreases n - k
  {
    if k < n { FailureStays(t, k, n - 1); }
  }

  // ---------------------------------------------------------------- what a FROM clause can lead to

  /** Tables and joins of them. */
  predicate TableTree(r: RelationExpr) {
    match r
    case TableScan(_, _) => true
    case Join(_, _, left, right) => TableTree(left) && TableTree(right)
    case _ => false
  }

  /** The shape of a relation that comes from a SELECT: LIMIT, ORDER BY, projection and WHERE over tables or one row. */
  predicate SelectShape(r: RelationExpr) {
    match r
    case First(_, input) => OrderShape(input)
    case _ => OrderShape(r)
  }

  predicate OrderShape(r: RelationExpr) {
    match r
    case Order(order, input) => order != [] && input.Projection? && FilterShape(input.input)
    case Projection(_, input) => FilterShape(input)
    case _ => false
  }

  predicate FilterShape(r: RelationExpr) {
    match r
    case Selection(_, input) => input.Unit? || TableTree(input)
    case _ => r.Unit? || TableTree(r)
  }

  /** Every join is an inner or a cross join. */
  predicate InnerOnly(r: RelationExpr) {
    match r
    case Unit => true
    case TableScan(_, _) => true
    case Projection(_, input) => InnerOnly(input)
    case Selection(_, input) => InnerOnly(input)
    case Join(t, _, left, right) => (t.InnerJoin? || t.CrossJoin?) && InnerOnly(left) && InnerOnly(right)
    case Order(_, input) => InnerOnly(input)
    case First(_, input) => InnerOnly(input)
  }

  lemma {:induction false} FromIsTables(t: TableRef, n: nat)
    requires n <= |t.joins|
    ensures JoinsToRelation(t, n).Success? ==> TableTree(JoinsToRelation(t, n).value)
    decreases t, n
  {
    if n > 0 && JoinsToRelation(t, n).Success? {
      FromIsTables(t, n - 1);
      var j := t.joins[n - 1];
      assert j in t.joins;
      FromIsTables(j.table, |j.table.joins|);
    }
  }

  lemma SelectHasShape(s: SelectStmt)
    ensures SelectToRelation(s).Success? ==> SelectShape(SelectToRelation(s).value)
  {
    if s.from.Some? { FromIsTables(s.from.value, |s.from.value.joins|); }
  }
}
