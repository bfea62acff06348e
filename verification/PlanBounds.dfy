/** The lower bounds of the search are below the cost of every plan they stand for. */
module PlanBounds {
  import opened Values
  import opened SqlSyntax
  import opened Relation
  import opened Memo
  import opened PlanSearch

  /** Every expression of the group is a table or a join of such groups. */
  predicate TableGroup(m: seq<Group>, g: nat)
    requires MemoOk(m) && g < |m|
    decreases g
  {
    forall e :: e in m[g].expressions ==> TableExpr(m, e, g)
  }

  predicate TableExpr(m: seq<Group>, e: MemoExpr, n: nat)
    requires MemoOk(m) && n <= |m| && ExprOk(e, n)
    decreases n, 0
  {
    e.op.ScanOp? || (e.op.JoinOp? && TableGroup(m, e.children[0]) && TableGroup(m, e.children[1]))
  }

  /** Joins are over tables, as they are in what a SELECT is lowered to. */
  predicate JoinsOverTables(m: seq<Group>)
    requires MemoOk(m)
  {
    forall g :: 0 <= g < |m| ==> forall e :: e in m[g].expressions && e.op.JoinOp? ==> TableExpr(m, e, g)
  }

  /** A plan is estimated at one row or more, or at a table's rows, and costs no less than the bound. */
  ghost predicate Fair(cfg: OptimizerConfig, p: Physical, bound: real, table: bool) {
    p.rows >= 1.0 && bound <= p.cost && 0.0 <= p.cost && (table ==> p.rows >= cfg.tableRows)
  }

  lemma EnforcedFair(cfg: OptimizerConfig, p: Physical, required: Required, bound: real, table: bool)
    requires Sane(cfg) && Fair(cfg, p, bound, table)
    ensures Fair(cfg, Enforced(cfg, p, required), bound, table) && Enforced(cfg, p, required).cost >= p.cost
  {
    if p.rows > 1.0 {
      assert cfg.log2(p.rows) >= 0.0;
      Product(p.rows, cfg.log2(p.rows));
      Product(p.rows * cfg.log2(p.rows), cfg.sortFactor);
    }
  }

  lemma Product(a: real, b: real)
    requires a >= 0.0 && b >= 0.0
    ensures a * b >= 0.0
  {
  }

  lemma ProductGrows(a: real, b: real, c: real, d: real)
    requires a >= c >= 0.0 && b >= d >= 0.0
    ensures a * b >= c * d
  {
    Product(a - c, b);
    Product(c, b - d);
    assert a * b == c * d + (a - c) * b + c * (b - d);
  }

  lemma JoinRows(cfg: OptimizerConfig, l: real, r: real, t: JoinType, c: JoinConstraint)
    requires Sane(cfg) && l >= cfg.tableRows && r >= cfg.tableRows
    ensures EstimateJoinRows(l, r, t, c) >= cfg.tableRows
  {
    ProductGrows(l, r, cfg.tableRows, 4.0);
    assert l * r * 0.3 >= cfg.tableRows * 4.0 * 0.3;
  }

  lemma NestedFair(cfg: OptimizerConfig, t: JoinType, c: JoinConstraint, l: Physical, r: Physical, lb: real, rb: real)
    requires Sane(cfg) && Fair(cfg, l, lb, true) && Fair(cfg, r, rb, true)
    ensures Fair(cfg, NestedPlan(cfg, t, c, l, r), lb + rb + cfg.hashTuple, true)
  {
    var d := cfg.tableRows;
    JoinRows(cfg, l.rows, r.rows, t, c);
    ProductGrows(l.rows, r.rows, d, d);
    ProductGrows(l.rows * r.rows, cfg.nestedTuple, d * d, cfg.nestedTuple);
    assert d * d * cfg.nestedTuple == cfg.nestedTuple * (d * d);
  }

  lemma HashFair(cfg: OptimizerConfig, t: JoinType, c: JoinConstraint, l: Physical, r: Physical, lb: real, rb: real)
    requires Sane(cfg) && Fair(cfg, l, lb, true) && Fair(cfg, r, rb, true)
    ensures Fair(cfg, HashPlan(cfg, t, c, l, r), lb + rb + cfg.hashTuple, true)
    ensures HashPlan(cfg, t, c, l, r).cost > lb + rb + cfg.hashTuple
  {
    JoinRows(cfg, l.rows, r.rows, t, c);
    ProductGrows(l.rows + r.rows, cfg.hashTuple, 2.0, cfg.hashTuple);
  }

  lemma JoinFair(cfg: OptimizerConfig, t: JoinType, c: JoinConstraint, l: Physical, r: Physical, required: Required, lb: real, rb: real)
    requires Sane(cfg) && Fair(cfg, l, lb, true) && Fair(cfg, r, rb, true)
    ensures Fair(cfg, JoinPlan(cfg, t, c, l, r, required), lb + rb + cfg.hashTuple, true)
  {
    NestedFair(cfg, t, c, l, r, lb, rb);
    HashFair(cfg, t, c, l, r, lb, rb);
    EnforcedFair(cfg, NestedPlan(cfg, t, c, l, r), required, lb + rb + cfg.hashTuple, true);
    EnforcedFair(cfg, HashPlan(cfg, t, c, l, r), required, lb + rb + cfg.hashTuple, true);
  }

  lemma ScanFair(cfg: OptimizerConfig, t: string, a: Option<string>, required: Required)
    requires Sane(cfg)
    ensures Fair(cfg, Enforced(cfg, ScanPlan(cfg, t, a), required), cfg.scanStartup, true)
  {
    Product(cfg.tableRows, cfg.rowRead);
    EnforcedFair(cfg, ScanPlan(cfg, t, a), required, cfg.scanStartup, true);
  }

  lemma FilterFair(cfg: OptimizerConfig, cond: Expr, child: Physical, required: Required, bound: real)
    requires Sane(cfg) && Fair(cfg, child, bound, false)
    ensures Fair(cfg, Enforced(cfg, FilterPlan(cfg, cond, child), required), bound + cfg.predicateCost, false)
  {
    ProductGrows(child.rows, cfg.predicateCost, 1.0, cfg.predicateCost);
    assert child.rows * cfg.predicateCost >= cfg.predicateCost;
    assert FilterPlan(cfg, cond, child).cost == child.cost + child.rows * cfg.predicateCost;
    EnforcedFair(cfg, FilterPlan(cfg, cond, child), required, bound + cfg.predicateCost, false);
  }

  lemma ProjectFair(cfg: OptimizerConfig, items: seq<ProjectionItem>, child: Physical, required: Required, bound: real)
    requires Sane(cfg) && Fair(cfg, child, bound, false)
    ensures Fair(cfg, Enforced(cfg, ProjectPlan(cfg, items, child), required), bound + cfg.projectionCost, false)
  {
    ProductGrows(child.rows, cfg.projectionCost, 1.0, cfg.projectionCost);
    assert child.rows * cfg.projectionCost >= cfg.projectionCost;
    assert ProjectPlan(cfg, items, child).cost == child.cost + child.rows * cfg.projectionCost;
    EnforcedFair(cfg, ProjectPlan(cfg, items, child), required, bound + cfg.projectionCost, false);
  }

  lemma LimitFair(cfg: OptimizerConfig, count: Expr, child: Physical, required: Required, bound: real)
    requires Sane(cfg) && Fair(cfg, child, bound, false)
    ensures Fair(cfg, Enforced(cfg, LimitPlan(cfg, count, child), required), bound, false)
  {
    EnforcedFair(cfg, LimitPlan(cfg, count, child), required, bound, false);
  }

  /** No plan for an expression costs less than its bound. */
  lemma {:induction false} ExprFair(m: seq<Group>, cfg: OptimizerConfig, e: MemoExpr, n: nat, required: Required)
    requires Sane(cfg) && MemoOk(m) && JoinsOverTables(m) && n <= |m| && ExprOk(e, n)
    requires e.op.JoinOp? ==> TableExpr(m, e, n)
    ensures Fair(cfg, PlanFor(m, cfg, e, n, required), LowerExpr(m, cfg, e, n), TableExpr(m, e, n))
    decreases n, 0, 0
  {
    hide Enforced, MemoOk, JoinsOverTables, Sane, TableGroup, FilterPlan, ProjectPlan, LimitPlan, ScanPlan, JoinPlan, Fair;
    match e.op
    case UnitOp => UnitFair(cfg, required);
    case ScanOp(t, a) => ScanFair(cfg, t, a, required);
    case JoinOp(t, c) =>
      var lr := LeftRequired(t, required);
      GroupFair(m, cfg, e.children[0], lr);
      GroupFair(m, cfg, e.children[1], []);
      JoinFair(cfg, t, c, BestPlan(m, cfg, e.children[0], lr), BestPlan(m, cfg, e.children[1], []), required,
               LowerGroup(m, cfg, e.children[0]), LowerGroup(m, cfg, e.children[1]));
    case OrderOp(order) =>
      GroupFair(m, cfg, e.children[0], order);
      var child, bound := BestPlan(m, cfg, e.children[0], order), LowerGroup(m, cfg, e.children[0]);
      AnyGroup(cfg, child, bound, TableGroup(m, e.children[0]));
      EnforcedFair(cfg, child, required, bound, false);
    case _ =>
      GroupFair(m, cfg, e.children[0], required);
      var child, bound := BestPlan(m, cfg, e.children[0], required), LowerGroup(m, cfg, e.children[0]);
      AnyGroup(cfg, child, bound, TableGroup(m, e.children[0]));
      match e.op
      case SelectOp(c) => FilterFair(cfg, c, child, required, bound);
      case ProjectOp(items) => ProjectFair(cfg, items, child, required, bound);
      case LimitOp(count) => LimitFair(cfg, count, child, required, bound);
      case _ =>
  }

  lemma AnyGroup(cfg: OptimizerConfig, p: Physical, bound: real, table: bool)
    requires Fair(cfg, p, bound, table)
    ensures Fair(cfg, p, bound, false)
  {
  }

  lemma UnitFair(cfg: OptimizerConfig, required: Required)
    requires Sane(cfg)
    ensures Fair(cfg, Enforced(cfg, Physical(OneRow, 0.1, 1.0, []), required), 0.1, false)
  {
    EnforcedFair(cfg, Physical(OneRow, 0.1, 1.0, []), required, 0.1, false);
  }

  lemma {:induction false} AmongFair(m: seq<Group>, cfg: OptimizerConfig, g: nat, required: Required, k: nat)
    requires Sane(cfg) && MemoOk(m) && JoinsOverTables(m) && g < |m| && 0 < k <= |m[g].expressions|
    ensures Fair(cfg, BestAmong(m, cfg, g, required, k), LowerAmong(m, cfg, g, k), TableGroup(m, g))
    decreases g, 1, k
  {
    hide Sane, PlanFor, LowerExpr, TableExpr;
    var e := m[g].expressions[k - 1];
    ExprFair(m, cfg, e, g, required);
    if k > 1 { AmongFair(m, cfg, g, required, k - 1); }
  }

  /** The bound of a group is below the cost of its best plan, and a group of tables has a table's rows. */
  lemma {:induction false} GroupFair(m: seq<Group>, cfg: OptimizerConfig, g: nat, required: Required)
    requires Sane(cfg) && MemoOk(m) && JoinsOverTables(m) && g < |m|
    ensures Fair(cfg, BestPlan(m, cfg, g, required), LowerGroup(m, cfg, g), TableGroup(m, g))
    decreases g, 2, 0
  {
    hide Sane, TableGroup, JoinsOverTables;
    AmongFair(m, cfg, g, required, |m[g].expressions|);
  }

  // ---------------------------------------------------------------- the memo of a SELECT

  /** The memo of r, all of it explored. */
  ghost predicate Explored(m: seq<Group>, init: seq<MemoExpr>, r: RelationExpr) {
    Exploring(m, init) && |m| == Size(r) && Stands(init, r, 0) && forall g :: 0 <= g < |m| ==> m[g].explored
  }

  lemma {:induction false} TablesAre(m: seq<Group>, init: seq<MemoExpr>, r: RelationExpr, base: nat)
    requires Exploring(m, init) && MemoOk(m) && Stands(init, r, base) && TableTree(r)
    requires forall g :: 0 <= g < |m| ==> m[g].explored
    ensures TableGroup(m, base + Size(r) - 1)
    ensures forall g :: base <= g < base + Size(r) ==> TableGroup(m, g)
    decreases r
  {
    var top := base + Size(r) - 1;
    assert GroupOk(m, init, top);
    if r.Join? {
      TablesAre(m, init, r.left, base);
      TablesAre(m, init, r.right, base + Size(r.left));
    }
    TopIsTable(m, top, init[top]);
  }

  lemma TopIsTable(m: seq<Group>, g: nat, e: MemoExpr)
    requires MemoOk(m) && ExprOk(e, g) && Complete(m, g, e) && TableExpr(m, e, g)
    ensures TableGroup(m, g)
  {
    forall d | d in m[g].expressions ensures TableExpr(m, d, g) {
      if d != e { assert d == Alternatives(m, e)[0]; }
    }
  }

  /** Only tables and joins of them below a join. */
  predicate JoinsTables(r: RelationExpr) {
    match r
    case Join(_, _, _, _) => TableTree(r)
    case Projection(_, input) => JoinsTables(input)
    case Selection(_, input) => JoinsTables(input)
    case Order(_, input) => JoinsTables(input)
    case First(_, input) => JoinsTables(input)
    case _ => true
  }

  lemma {:induction false} JoinGroups(m: seq<Group>, init: seq<MemoExpr>, r: RelationExpr, base: nat, g: nat)
    requires Exploring(m, init) && MemoOk(m) && Stands(init, r, base) && JoinsTables(r)
    requires forall h :: 0 <= h < |m| ==> m[h].explored
    requires base <= g < base + Size(r)
    ensures forall e :: e in m[g].expressions && e.op.JoinOp? ==> TableExpr(m, e, g)
    decreases r
  {
    hide Complete, GroupOk;
    if r.Join? {
      TablesAre(m, init, r, base);
      assert TableGroup(m, g);
    } else {
      JoinGroupsBelow(m, init, r, base, g);
      if g < base + Size(r) - 1 { JoinGroups(m, init, Input(r).value, base, g); }
    }
  }

  lemma JoinGroupsBelow(m: seq<Group>, init: seq<MemoExpr>, r: RelationExpr, base: nat, g: nat)
    requires Exploring(m, init) && MemoOk(m) && Stands(init, r, base) && JoinsTables(r) && !r.Join?
    requires forall h :: 0 <= h < |m| ==> m[h].explored
    requires base <= g < base + Size(r)
    ensures g == base + Size(r) - 1 ==> forall e :: e in m[g].expressions ==> !e.op.JoinOp?
    ensures g < base + Size(r) - 1 ==> Input(r).Some? && Stands(init, Input(r).value, base) && JoinsTables(Input(r).value)
                                       && g < base + Size(Input(r).value)
  {
    assert GroupOk(m, init, g);
    if g == base + Size(r) - 1 && r.Selection? {
      forall e | e in m[g].expressions ensures !e.op.JoinOp? {
        if e != init[g] { var d := CollapsedIn(r.cond, m[init[g].children[0]].expressions, e); }
      }
    }
  }

  lemma ShapeJoins(r: RelationExpr)
    requires SelectShape(r)
    ensures JoinsTables(r)
  {
    var ordered := if r.First? then r.input else r;
    var projected := if ordered.Order? then ordered.input else ordered;
    var chosen := projected.input;
    assert JoinsTables(if chosen.Selection? then chosen.input else chosen);
    assert JoinsTables(chosen);
    assert JoinsTables(projected);
    assert JoinsTables(ordered);
  }

  /** The memo of what a SELECT was lowered to is fit to be searched. */
  lemma ExploredSearch(m: seq<Group>, init: seq<MemoExpr>, r: RelationExpr)
    requires Explored(m, init, r) && MemoOk(m) && SelectShape(r)
    ensures JoinsOverTables(m) && forall g :: 0 <= g < |m| ==> Complete(m, g, m[g].expressions[0])
  {
    ShapeJoins(r);
    forall g | 0 <= g < |m| ensures Complete(m, g, m[g].expressions[0]) { assert GroupOk(m, init, g); }
    forall g | 0 <= g < |m| ensures forall e :: e in m[g].expressions && e.op.JoinOp? ==> TableExpr(m, e, g) {
      JoinGroups(m, init, r, 0, g);
    }
  }
}
