/** What the optimizer's plan for a SELECT looks like: tables in the order of the FROM clause, one sort right above them. */
module OptimizedShape {
  import opened Values
  import opened SqlSyntax
  import opened Relation
  import opened Memo
  import opened PlanSearch
  import opened PlanBounds

  /** The relation read as a plan, operator by operator. */
  function Direct(r: RelationExpr): Plan {
    match r
    case Unit => OneRow
    case TableScan(t, a) => SeqScan(t, a)
    case Projection(items, input) => Project(items, Direct(input))
    case Selection(c, input) => Filter(c, Direct(input))
    case Join(t, c, left, right) => NestedLoopJoin(t, c, Direct(left), Direct(right))
    case Order(o, input) => Sort(o, Direct(input))
    case First(n, input) => Limit(n, Direct(input))
  }

  /** The same tables and joins in the same order; each join may be done by a nested loop or by hashing. */
  predicate SameJoins(p: Plan, r: RelationExpr) {
    match r
    case Unit => p == OneRow
    case TableScan(t, a) => p == SeqScan(t, a)
    case Join(t, c, left, right) =>
      (match p
       case NestedLoopJoin(pt, pc, pl, pr) => pt == t && pc == c && SameJoins(pl, left) && SameJoins(pr, right)
       case HashJoin(pt, pc, pl, pr) => pt == t && pc == c && SameJoins(pl, left) && SameJoins(pr, right)
       case _ => false)
    case _ => false
  }

  /** The plan of r under an ordering that is demanded of it: the sort stands right above the tables. */
  predicate Optimized(p: Plan, r: RelationExpr, order: Required) {
    match r
    case First(n, input) => p.Limit? && p.count == n && Optimized(p.input, input, order)
    case Order(o, input) => Optimized(p, input, o)
    case Projection(items, input) => p.Project? && p.items == items && Optimized(p.input, input, order)
    case Selection(c, input) => p.Filter? && p.cond == c && Optimized(p.input, input, order)
    case _ => if order == [] then SameJoins(p, r) else p.Sort? && p.order == order && SameJoins(p.input, r)
  }

  // ---------------------------------------------------------------- a swapped join never wins

  lemma SameCost(cfg: OptimizerConfig, t: JoinType, c: JoinConstraint, l: Physical, r: Physical, required: Required)
    requires Commutes(t) && l.ordering == r.ordering == []
    ensures JoinPlan(cfg, t, c, l, r, required).cost == JoinPlan(cfg, t, c, r, l, required).cost
  {
    assert l.rows * r.rows == r.rows * l.rows;
    assert EstimateJoinRows(l.rows, r.rows, t, c) == EstimateJoinRows(r.rows, l.rows, t, c);
    assert NestedPlan(cfg, t, c, l, r).cost == NestedPlan(cfg, t, c, r, l).cost;
    assert HashPlan(cfg, t, c, l, r).cost == HashPlan(cfg, t, c, r, l).cost;
  }

  ghost predicate OverTree(b: Physical, r: RelationExpr, required: Required) {
    b.ordering == required && Optimized(b.plan, r, required)
  }

  /** A plan without an ordering, with the sort that is demanded. */
  lemma SortOnTop(cfg: OptimizerConfig, p: Physical, r: RelationExpr, required: Required)
    requires p.ordering == [] && SameJoins(p.plan, r) && (r.Unit? || TableTree(r))
    ensures OverTree(Enforced(cfg, p, required), r, required)
  {
  }

  lemma JoinOverTree(cfg: OptimizerConfig, r: RelationExpr, a: Physical, b: Physical, required: Required)
    requires TableTree(r) && r.Join? && Commutes(r.joinType) && a.ordering == [] && b.ordering == []
    requires SameJoins(a.plan, r.left) && SameJoins(b.plan, r.right)
    ensures OverTree(JoinPlan(cfg, r.joinType, r.constraint, a, b, required), r, required)
  {
    hide OverTree, Enforced;
    SortOnTop(cfg, NestedPlan(cfg, r.joinType, r.constraint, a, b), r, required);
    SortOnTop(cfg, HashPlan(cfg, r.joinType, r.constraint, a, b), r, required);
  }

  /** The plan for tables and joins keeps the order of the FROM clause. */
  lemma {:induction false} TreePlan(m: seq<Group>, cfg: OptimizerConfig, init: seq<MemoExpr>, r: RelationExpr, base: nat, required: Required)
    requires MemoOk(m) && Exploring(m, init) && Stands(init, r, base) && forall g :: 0 <= g < |m| ==> m[g].explored
    requires (r.Unit? || TableTree(r)) && InnerOnly(r)
    ensures OverTree(BestPlan(m, cfg, base + Size(r) - 1, required), r, required)
    decreases r
  {
    hide JoinPlan, Enforced, ScanPlan, MemoOk, BestPlan, GroupOk;
    var top := base + Size(r) - 1;
    TopExpressions(m, init, r, base);
    if r.Join? {
      var e := init[top];
      TreePlan(m, cfg, init, r.left, base, []);
      TreePlan(m, cfg, init, r.right, base + Size(r.left), []);
      var a, b := BestPlan(m, cfg, e.children[0], []), BestPlan(m, cfg, e.children[1], []);
      FirstWins(m, cfg, top, r.joinType, r.constraint, required);
      JoinOverTree(cfg, r, a, b, required);
    } else if r.Unit? {
      OneCandidate(m, cfg, top, required);
      SortOnTop(cfg, Physical(OneRow, 0.1, 1.0, []), r, required);
    } else {
      OneCandidate(m, cfg, top, required);
      ScanPlain(cfg, r.table, r.alias);
      SortOnTop(cfg, ScanPlan(cfg, r.table, r.alias), r, required);
    }
  }

  lemma ScanPlain(cfg: OptimizerConfig, t: string, a: Option<string>)
    ensures ScanPlan(cfg, t, a).ordering == [] && ScanPlan(cfg, t, a).plan == SeqScan(t, a)
  {
  }

  lemma TopExpressions(m: seq<Group>, init: seq<MemoExpr>, r: RelationExpr, base: nat)
    requires MemoOk(m) && Exploring(m, init) && Stands(init, r, base) && forall g :: 0 <= g < |m| ==> m[g].explored
    requires (r.Unit? || TableTree(r)) && InnerOnly(r)
    ensures var top := base + Size(r) - 1; var e := init[top];
            ExprOk(e, top) &&
            match r
            case Join(t, c, left, right) =>
              e == MemoExpr(JoinOp(t, c), [base + Size(left) - 1, base + Size(left) + Size(right) - 1]) && Commutes(t)
              && m[top].expressions == [e, MemoExpr(JoinOp(t, c), [e.children[1], e.children[0]])]
            case TableScan(t, a) => e == MemoExpr(ScanOp(t, a), []) && m[top].expressions == [e]
            case _ => e == MemoExpr(UnitOp, []) && m[top].expressions == [e]
  {
    assert GroupOk(m, init, base + Size(r) - 1);
  }

  lemma OneCandidate(m: seq<Group>, cfg: OptimizerConfig, g: nat, required: Required)
    requires MemoOk(m) && g < |m| && |m[g].expressions| == 1
    ensures BestPlan(m, cfg, g, required) == PlanFor(m, cfg, m[g].expressions[0], g, required)
  {
  }

  /** A join and its swapped form cost the same, so the first is kept. */
  lemma FirstWins(m: seq<Group>, cfg: OptimizerConfig, g: nat, t: JoinType, c: JoinConstraint, required: Required)
    requires MemoOk(m) && g < |m| && Commutes(t) && |m[g].expressions| == 2
    requires m[g].expressions[0].op == JoinOp(t, c) && ExprOk(m[g].expressions[0], g)
    requires m[g].expressions[1] == MemoExpr(JoinOp(t, c), [m[g].expressions[0].children[1], m[g].expressions[0].children[0]])
    requires BestPlan(m, cfg, m[g].expressions[0].children[0], []).ordering == []
    requires BestPlan(m, cfg, m[g].expressions[0].children[1], []).ordering == []
    ensures BestPlan(m, cfg, g, required) == PlanFor(m, cfg, m[g].expressions[0], g, required)
  {
    hide JoinPlan;
    var e := m[g].expressions[0];
    var a, b := BestPlan(m, cfg, e.children[0], []), BestPlan(m, cfg, e.children[1], []);
    SameCost(cfg, t, c, a, b, required);
    assert PlanFor(m, cfg, e, g, required) == JoinPlan(cfg, t, c, a, b, required) == BestAmong(m, cfg, g, required, 1);
    assert PlanFor(m, cfg, m[g].expressions[1], g, required) == JoinPlan(cfg, t, c, b, a, required);
  }

  // ---------------------------------------------------------------- whole SELECTs

  /** At and below a SELECT's projection. */
  predicate Unordered(r: RelationExpr) {
    match r
    case Projection(_, input) => FilterShape(input)
    case _ => FilterShape(r)
  }

  lemma InputStands(init: seq<MemoExpr>, r: RelationExpr, base: nat)
    requires Stands(init, r, base) && Input(r).Some?
    ensures var top := base + Size(r) - 1;
            top < |init| && Size(r) == Size(Input(r).value) + 1 && Stands(init, Input(r).value, base)
            && init[top].children == [base + Size(Input(r).value) - 1] && !init[top].op.JoinOp?
            && (init[top].op.SelectOp? ==> r.Selection? && init[top].op.cond == r.cond)
  {
  }

  lemma TopSingle(m: seq<Group>, init: seq<MemoExpr>, r: RelationExpr, base: nat)
    requires MemoOk(m) && Exploring(m, init) && Stands(init, r, base) && forall g :: 0 <= g < |m| ==> m[g].explored
    requires Input(r).Some? && (r.Selection? ==> r.input.Unit? || TableTree(r.input)) && InnerOnly(r)
    ensures var top := base + Size(r) - 1;
            top < |m| && ExprOk(init[top], top) && m[top].expressions == [init[top]]
            && init[top].children == [base + Size(Input(r).value) - 1]
            && Stands(init, Input(r).value, base) && base + Size(Input(r).value) - 1 < top
  {
    hide Stands, MemoOk, InnerOnly, TableTree, Alternatives, ExprOk;
    var top := base + Size(r) - 1;
    InputStands(init, r, base);
    StandsOk(init, r, base, top);
    NoAlternatives(m, init, r, base);
    assert GroupOk(m, init, top);
  }

  lemma NoAlternatives(m: seq<Group>, init: seq<MemoExpr>, r: RelationExpr, base: nat)
    requires MemoOk(m) && Exploring(m, init) && Stands(init, r, base) && forall g :: 0 <= g < |m| ==> m[g].explored
    requires Input(r).Some? && (r.Selection? ==> r.input.Unit? || TableTree(r.input)) && InnerOnly(r)
    ensures var e := init[base + Size(r) - 1]; ExprOk(e, |m|) && Alternatives(m, e) == []
  {
    hide Stands, MemoOk, TableTree;
    var top := base + Size(r) - 1;
    InputStands(init, r, base);
    StandsOk(init, r, base, top);
    if r.Selection? {
      TopExpressions(m, init, r.input, base);
      NothingCollapses(r.cond, m[base + Size(r.input) - 1].expressions);
    }
  }

  lemma {:induction false} NothingCollapses(cond: Expr, s: seq<MemoExpr>)
    requires forall e :: e in s ==> !e.op.SelectOp?
    ensures Collapsed(cond, s) == []
  {
    if s != [] { NothingCollapses(cond, s[1..]); }
  }

  /** Filters and projections hand the demanded ordering down. */
  lemma {:induction false} LowerPart(m: seq<Group>, cfg: OptimizerConfig, init: seq<MemoExpr>, r: RelationExpr, base: nat, required: Required)
    requires MemoOk(m) && Exploring(m, init) && Stands(init, r, base) && forall g :: 0 <= g < |m| ==> m[g].explored
    requires Unordered(r) && InnerOnly(r)
    ensures OverTree(BestPlan(m, cfg, base + Size(r) - 1, required), r, required)
    decreases r
  {
    hide Complete, BestPlan, GroupOk;
    var top := base + Size(r) - 1;
    if r.Projection? || r.Selection? {
      TopSingle(m, init, r, base);
      OneCandidate(m, cfg, top, required);
      LowerPart(m, cfg, init, r.input, base, required);
    } else {
      TreePlan(m, cfg, init, r, base, required);
    }
  }

  /** The whole plan of a SELECT. */
  lemma BestIsOptimized(m: seq<Group>, cfg: OptimizerConfig, init: seq<MemoExpr>, r: RelationExpr)
    requires MemoOk(m) && Explored(m, init, r) && SelectShape(r) && InnerOnly(r)
    ensures Optimized(BestPlan(m, cfg, Size(r) - 1, []).plan, r, [])
  {
    hide Complete, BestPlan, GroupOk;
    if r.First? {
      TopSingle(m, init, r, 0);
      OneCandidate(m, cfg, Size(r) - 1, []);
      OrderedPart(m, cfg, init, r.input);
    } else {
      OrderedPart(m, cfg, init, r);
    }
  }

  lemma OrderedPart(m: seq<Group>, cfg: OptimizerConfig, init: seq<MemoExpr>, r: RelationExpr)
    requires MemoOk(m) && Exploring(m, init) && Stands(init, r, 0) && forall g :: 0 <= g < |m| ==> m[g].explored
    requires OrderShape(r) && InnerOnly(r)
    ensures Optimized(BestPlan(m, cfg, Size(r) - 1, []).plan, r, [])
  {
    hide Complete, BestPlan, GroupOk;
    if r.Order? {
      TopSingle(m, init, r, 0);
      OneCandidate(m, cfg, Size(r) - 1, []);
      LowerPart(m, cfg, init, r.input, 0, r.order);
    } else {
      LowerPart(m, cfg, init, r, 0, []);
    }
  }
}
