/** Costs, and the plan that an exhaustive search of the memo finds: no bound, no pruning, no cache. */
module PlanSearch {
  import opened Values
  import opened SqlSyntax
  import opened Relation
  import opened Memo

  /** Ordering demanded of a plan; none if empty. */
  type Required = seq<OrderItem>

  /** A plan with its estimates and the ordering it provides. */
  datatype Physical = Physical(plan: Plan, cost: real, rows: real, ordering: seq<OrderItem>)

  datatype OptimizerConfig = OptimizerConfig(tableRows: real, scanStartup: real, rowRead: real, predicateCost: real, projectionCost: real,
                           nestedTuple: real, hashTuple: real, sortFactor: real, limitSelectivity: real, log2: real -> real)

  function DefaultOptimizerConfig(log2: real -> real): OptimizerConfig {
    OptimizerConfig(1000.0, 1.0, 0.01, 0.002, 0.001, 0.00005, 0.02, 0.004, 0.1, log2)
  }

  /**
   What the search relies on: costs are not negative, and for tables of the assumed size a nested-loop join costs at
   least what the bound on a join allows for.
   */
  ghost predicate Sane(c: OptimizerConfig) {
    && c.tableRows >= 4.0 && c.scanStartup >= 0.0 && c.rowRead >= 0.0 && c.predicateCost >= 0.0 && c.projectionCost >= 0.0
    && c.nestedTuple >= 0.0 && c.hashTuple > 0.0 && c.sortFactor >= 0.0
    && c.nestedTuple * (c.tableRows * c.tableRows) >= c.hashTuple
    && forall r: real :: r >= 1.0 ==> c.log2(r) >= 0.0
  }

  lemma DefaultSane(log2: real -> real)
    requires forall r: real :: r >= 1.0 ==> log2(r) >= 0.0
    ensures Sane(DefaultOptimizerConfig(log2))
  {
    assert 0.00005 * (1000.0 * 1000.0) == 50.0;
  }

  function Max(a: real, b: real): real { if a >= b then a else b }

  function Min(a: real, b: real): real { if a <= b then a else b }

  // ---------------------------------------------------------------- estimates

  predicate IsEqualityConstraint(c: JoinConstraint) {
    match c
    case Using(columns) => columns != []
    case On(Binary(_, Eq, _)) => true
    case _ => false
  }

  function EstimateJoinRows(l: real, r: real, t: JoinType, c: JoinConstraint): real {
    match t
    case CrossJoin => l * r
    case InnerJoin => if IsEqualityConstraint(c) then Max(l, r) else Max(l * r * 0.3, 1.0)
    case LeftJoin => Max(l, r)
    case RightJoin => Max(l, r)
    case FullJoin => l + r
  }

  function EstimateSortCost(cfg: OptimizerConfig, rows: real): real {
    if rows <= 1.0 then 0.0 else rows * cfg.log2(rows) * cfg.sortFactor
  }

  predicate Satisfies(p: Physical, required: Required) { required == [] || p.ordering == required }

  /** The plan, sorted if it does not have the ordering yet. */
  function Enforced(cfg: OptimizerConfig, p: Physical, required: Required): Physical {
    if Satisfies(p, required) then p
    else Physical(Sort(required, p.plan), p.cost + EstimateSortCost(cfg, p.rows), p.rows, required)
  }

  // ---------------------------------------------------------------- exhaustive search

  function ScanPlan(cfg: OptimizerConfig, table: string, alias: Option<string>): Physical {
    Physical(SeqScan(table, alias), cfg.scanStartup + cfg.tableRows * cfg.rowRead, cfg.tableRows, [])
  }

  function FilterPlan(cfg: OptimizerConfig, cond: Expr, child: Physical): Physical {
    Physical(Filter(cond, child.plan), child.cost + child.rows * cfg.predicateCost, Max(child.rows * 0.3, 1.0), child.ordering)
  }

  function ProjectPlan(cfg: OptimizerConfig, items: seq<ProjectionItem>, child: Physical): Physical {
    Physical(Project(items, child.plan), child.cost + child.rows * cfg.projectionCost, child.rows, child.ordering)
  }

  function LimitPlan(cfg: OptimizerConfig, count: Expr, child: Physical): Physical {
    var rows := Max(child.rows * cfg.limitSelectivity, 1.0);
    Physical(Limit(count, child.plan), child.cost + rows * 0.0005, rows, child.ordering)
  }

  function NestedPlan(cfg: OptimizerConfig, t: JoinType, c: JoinConstraint, l: Physical, r: Physical): Physical {
    Physical(NestedLoopJoin(t, c, l.plan, r.plan), l.cost + r.cost + l.rows * r.rows * cfg.nestedTuple,
             EstimateJoinRows(l.rows, r.rows, t, c), l.ordering)
  }

  function HashPlan(cfg: OptimizerConfig, t: JoinType, c: JoinConstraint, l: Physical, r: Physical): Physical {
    Physical(HashJoin(t, c, l.plan, r.plan), l.cost + r.cost + (l.rows + r.rows) * cfg.hashTuple,
             EstimateJoinRows(l.rows, r.rows, t, c), [])
  }

  /** The costs of small plans under the default configuration. */
  lemma DefaultCosts(log2: real -> real, t: string, a: Option<string>, cond: Expr, items: seq<ProjectionItem>, count: Expr, order: Required)
    ensures var cfg := DefaultOptimizerConfig(log2); var scan := ScanPlan(cfg, t, a); var few := FilterPlan(cfg, cond, scan);
            && scan.cost == 11.0 && scan.rows == 1000.0
            && few.cost == 13.0 && few.rows == 300.0
            && ProjectPlan(cfg, items, scan).cost == 12.0 && ProjectPlan(cfg, items, scan).rows == 1000.0
            && LimitPlan(cfg, count, scan).cost == 11.05 && LimitPlan(cfg, count, scan).rows == 100.0
            && (order != [] ==> Enforced(cfg, scan, order).cost == 11.0 + 1000.0 * log2(1000.0) * 0.004)
            && NestedPlan(cfg, InnerJoin, Using(["id"]), scan, scan).cost == 72.0 && NestedPlan(cfg, InnerJoin, Using(["id"]), scan, scan).rows == 1000.0
            && HashPlan(cfg, InnerJoin, Using(["id"]), scan, scan).cost == 62.0 && HashPlan(cfg, InnerJoin, Using(["id"]), scan, few).rows == 1000.0
            && NestedPlan(cfg, InnerJoin, On(cond), few, scan).rows == (if IsEqualityConstraint(On(cond)) then 1000.0 else 90000.0)
            && NestedPlan(cfg, CrossJoin, NoConstraint, few, scan).rows == 300000.0
            && NestedPlan(cfg, LeftJoin, On(cond), few, scan).rows == 1000.0 && NestedPlan(cfg, RightJoin, On(cond), scan, few).rows == 1000.0
            && NestedPlan(cfg, FullJoin, On(cond), few, scan).rows == 1300.0
  {
  }

  predicate Hashable(t: JoinType, c: JoinConstraint) { t.InnerJoin? && IsEqualityConstraint(c) }

  /** The nested loop, or the hash join where there is one and it costs no more. */
  function JoinPlan(cfg: OptimizerConfig, t: JoinType, c: JoinConstraint, l: Physical, r: Physical, required: Required): Physical {
    var nested := Enforced(cfg, NestedPlan(cfg, t, c, l, r), required);
    var hash := Enforced(cfg, HashPlan(cfg, t, c, l, r), required);
    if Hashable(t, c) && hash.cost <= nested.cost then hash else nested
  }

  /** What is demanded of the left side of a join. */
  function LeftRequired(t: JoinType, required: Required): Required { if Commutes(t) then [] else required }

  /** The best plan for one expression, its inputs being planned exhaustively. */
  function PlanFor(m: seq<Group>, cfg: OptimizerConfig, e: MemoExpr, n: nat, required: Required): Physical
    requires MemoOk(m) && n <= |m| && ExprOk(e, n)
    decreases n, 0, 0
  {
    match e.op
    case UnitOp => Enforced(cfg, Physical(OneRow, 0.1, 1.0, []), required)
    case ScanOp(t, a) => Enforced(cfg, ScanPlan(cfg, t, a), required)
    case SelectOp(c) => Enforced(cfg, FilterPlan(cfg, c, BestPlan(m, cfg, e.children[0], required)), required)
    case ProjectOp(items) => Enforced(cfg, ProjectPlan(cfg, items, BestPlan(m, cfg, e.children[0], required)), required)
    case OrderOp(order) => Enforced(cfg, BestPlan(m, cfg, e.children[0], order), required)
    case LimitOp(count) => Enforced(cfg, LimitPlan(cfg, count, BestPlan(m, cfg, e.children[0], required)), required)
    case JoinOp(t, c) =>
      JoinPlan(cfg, t, c, BestPlan(m, cfg, e.children[0], LeftRequired(t, required)), BestPlan(m, cfg, e.children[1], []), required)
  }

  /** The first of the cheapest plans for the first k expressions of group g. */
  function BestAmong(m: seq<Group>, cfg: OptimizerConfig, g: nat, required: Required, k: nat): Physical
    requires MemoOk(m) && g < |m| && 0 < k <= |m[g].expressions|
    decreases g, 1, k
  {
    var p := PlanFor(m, cfg, m[g].expressions[k - 1], g, required);
    if k == 1 then p
    else
      var best := BestAmong(m, cfg, g, required, k - 1);
      if p.cost < best.cost then p else best
  }

  function BestPlan(m: seq<Group>, cfg: OptimizerConfig, g: nat, required: Required): Physical
    requires MemoOk(m) && g < |m|
    decreases g, 2, 0
  {
    BestAmong(m, cfg, g, required, |m[g].expressions|)
  }

  function Candidate(m: seq<Group>, cfg: OptimizerConfig, g: nat, required: Required, i: nat): Physical
    requires MemoOk(m) && g < |m| && i < |m[g].expressions|
  {
    PlanFor(m, cfg, m[g].expressions[i], g, required)
  }

  /** Candidate i is the first of the cheapest among the first k. */
  ghost predicate Wins(m: seq<Group>, cfg: OptimizerConfig, g: nat, required: Required, k: nat, i: nat)
    requires MemoOk(m) && g < |m| && i < k <= |m[g].expressions|
  {
    && (forall j :: 0 <= j < i ==> Candidate(m, cfg, g, required, j).cost > Candidate(m, cfg, g, required, i).cost)
    && (forall j :: i < j < k ==> Candidate(m, cfg, g, required, j).cost >= Candidate(m, cfg, g, required, i).cost)
  }

  /** The winner is one of the candidates, none is cheaper, and none that is as cheap comes earlier. */
  lemma {:induction false} BestIsFirstCheapest(m: seq<Group>, cfg: OptimizerConfig, g: nat, required: Required, k: nat) returns (i: nat)
    requires MemoOk(m) && g < |m| && 0 < k <= |m[g].expressions|
    ensures i < k && BestAmong(m, cfg, g, required, k) == Candidate(m, cfg, g, required, i) && Wins(m, cfg, g, required, k, i)
    decreases k
  {
    hide PlanFor;
    i := 0;
    if k > 1 {
      i := BestIsFirstCheapest(m, cfg, g, required, k - 1);
      if Candidate(m, cfg, g, required, k - 1).cost < Candidate(m, cfg, g, required, i).cost { i := k - 1; }
    }
  }

  // ---------------------------------------------------------------- lower bounds

  function OwnBound(cfg: OptimizerConfig, op: LogicalOp): real {
    match op
    case UnitOp => 0.1
    case ScanOp(_, _) => cfg.scanStartup
    case ProjectOp(_) => cfg.projectionCost
    case SelectOp(_) => cfg.predicateCost
    case JoinOp(_, _) => cfg.hashTuple
    case OrderOp(_) => 0.0
    case LimitOp(_) => 0.0
  }

  function LowerExpr(m: seq<Group>, cfg: OptimizerConfig, e: MemoExpr, n: nat): real
    requires MemoOk(m) && n <= |m| && ExprOk(e, n)
    decreases n, 0, 0
  {
    (match |e.children|
     case 0 => 0.0
     case 1 => LowerGroup(m, cfg, e.children[0])
     case _ => LowerGroup(m, cfg, e.children[0]) + LowerGroup(m, cfg, e.children[1]))
    + OwnBound(cfg, e.op)
  }

  function LowerAmong(m: seq<Group>, cfg: OptimizerConfig, g: nat, k: nat): real
    requires MemoOk(m) && g < |m| && 0 < k <= |m[g].expressions|
    decreases g, 1, k
  {
    var b := LowerExpr(m, cfg, m[g].expressions[k - 1], g);
    if k == 1 then b else Min(LowerAmong(m, cfg, g, k - 1), b)
  }

  function LowerGroup(m: seq<Group>, cfg: OptimizerConfig, g: nat): real
    requires MemoOk(m) && g < |m|
    decreases g, 2, 0
  {
    LowerAmong(m, cfg, g, |m[g].expressions|)
  }
}
