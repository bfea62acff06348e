/** Which joins the optimizer hashes. */
module JoinChoice {
  import opened Values
  import opened SqlSyntax
  import opened Memo
  import opened PlanSearch
  import opened PlanBounds

  /** An inner join with USING columns, or on a condition whose top operator is =. */
  ghost predicate JoinsOnEquality(t: JoinType, c: JoinConstraint) {
    t == InnerJoin && ((c.Using? && |c.columns| > 0) || (c.On? && c.on.Binary? && c.on.op == Eq))
  }

  /** Every hash join in the plan is such a join. */
  ghost predicate HashesEqualities(p: Plan) {
    match p
    case HashJoin(t, c, l, r) => JoinsOnEquality(t, c) && HashesEqualities(l) && HashesEqualities(r)
    case NestedLoopJoin(_, _, l, r) => HashesEqualities(l) && HashesEqualities(r)
    case Filter(_, input) => HashesEqualities(input)
    case Project(_, input) => HashesEqualities(input)
    case Sort(_, input) => HashesEqualities(input)
    case Limit(_, input) => HashesEqualities(input)
    case _ => true
  }

  /** And no such join is done by a nested loop. */
  ghost predicate LoopsOthers(p: Plan) {
    match p
    case NestedLoopJoin(t, c, l, r) => !JoinsOnEquality(t, c) && LoopsOthers(l) && LoopsOthers(r)
    case HashJoin(_, _, l, r) => LoopsOthers(l) && LoopsOthers(r)
    case Filter(_, input) => LoopsOthers(input)
    case Project(_, input) => LoopsOthers(input)
    case Sort(_, input) => LoopsOthers(input)
    case Limit(_, input) => LoopsOthers(input)
    case _ => true
  }

  /** Hashing two tables costs no more than looping over them. */
  ghost predicate HashingPays(c: OptimizerConfig) { c.nestedTuple * c.tableRows >= 2.0 * c.hashTuple }

  lemma DefaultHashingPays(log2: real -> real)
    ensures HashingPays(DefaultOptimizerConfig(log2))
  {
    assert 0.00005 * 1000.0 == 0.05;
  }

  lemma HashableMeans(t: JoinType, c: JoinConstraint)
    ensures Hashable(t, c) <==> JoinsOnEquality(t, c)
  {
  }

  // ---------------------------------------------------------------- no other join is hashed

  lemma {:induction false} HashedExpr(m: seq<Group>, cfg: OptimizerConfig, e: MemoExpr, n: nat, required: Required)
    requires MemoOk(m) && n <= |m| && ExprOk(e, n)
    ensures HashesEqualities(PlanFor(m, cfg, e, n, required).plan)
    decreases n, 0, 0
  {
    hide MemoOk;
    match e.op
    case JoinOp(t, c) =>
      HashedGroup(m, cfg, e.children[0], LeftRequired(t, required));
      HashedGroup(m, cfg, e.children[1], []);
      HashableMeans(t, c);
    case OrderOp(order) => HashedGroup(m, cfg, e.children[0], order);
    case SelectOp(_) => HashedGroup(m, cfg, e.children[0], required);
    case ProjectOp(_) => HashedGroup(m, cfg, e.children[0], required);
    case LimitOp(_) => HashedGroup(m, cfg, e.children[0], required);
    case _ =>
  }

  lemma {:induction false} HashedAmong(m: seq<Group>, cfg: OptimizerConfig, g: nat, required: Required, k: nat)
    requires MemoOk(m) && g < |m| && 0 < k <= |m[g].expressions|
    ensures HashesEqualities(BestAmong(m, cfg, g, required, k).plan)
    decreases g, 1, k
  {
    hide PlanFor, HashesEqualities;
    HashedExpr(m, cfg, m[g].expressions[k - 1], g, required);
    if k > 1 { HashedAmong(m, cfg, g, required, k - 1); }
  }

  /** Whatever the costs are, only inner joins on equality are hashed. */
  lemma {:induction false} HashedGroup(m: seq<Group>, cfg: OptimizerConfig, g: nat, required: Required)
    requires MemoOk(m) && g < |m|
    ensures HashesEqualities(BestPlan(m, cfg, g, required).plan)
    decreases g, 2, 0
  {
    hide BestAmong, HashesEqualities;
    HashedAmong(m, cfg, g, required, |m[g].expressions|);
  }

  // ---------------------------------------------------------------- all of them are

  lemma Twice(l: real, r: real, d: real)
    requires l >= d >= 0.0 && r >= d
    ensures 2.0 * (l * r) >= (l + r) * d && (l + r) * d >= 0.0
  {
    Product(l, r - d);
    Product(r, l - d);
    Product(l + r, d);
    assert l * (r - d) == l * r - l * d && r * (l - d) == l * r - r * d;
  }

  lemma HashCheaper(d: real, n: real, h: real, l: real, r: real)
    requires d >= 0.0 && n >= 0.0 && h >= 0.0 && n * d >= 2.0 * h && l >= d && r >= d
    ensures (l + r) * h <= l * r * n
  {
    Twice(l, r, d);
    ProductGrows(2.0 * (l * r), n, (l + r) * d, n);
    ProductGrows(l + r, n * d, l + r, 2.0 * h);
    assert (l + r) * d * n == (l + r) * (n * d);
    assert 2.0 * (l * r) * n == 2.0 * (l * r * n) && (l + r) * (2.0 * h) == 2.0 * ((l + r) * h);
  }

  lemma HashWins(cfg: OptimizerConfig, t: JoinType, c: JoinConstraint, l: Physical, r: Physical, required: Required)
    requires Sane(cfg) && HashingPays(cfg) && l.rows >= cfg.tableRows && r.rows >= cfg.tableRows && Hashable(t, c) && l.ordering == []
    ensures JoinPlan(cfg, t, c, l, r, required) == Enforced(cfg, HashPlan(cfg, t, c, l, r), required)
  {
    hide EstimateJoinRows, EstimateSortCost;
    HashCheaper(cfg.tableRows, cfg.nestedTuple, cfg.hashTuple, l.rows, r.rows);
  }

  /** Loops for what cannot be hashed, and no ordering that is not asked for. */
  ghost predicate PlannedWell(p: Physical, required: Required, table: bool) {
    LoopsOthers(p.plan) && (table && required == [] ==> p.ordering == [])
  }

  lemma JoinPlanned(cfg: OptimizerConfig, t: JoinType, c: JoinConstraint, l: Physical, r: Physical, required: Required)
    requires Sane(cfg) && HashingPays(cfg) && l.rows >= cfg.tableRows && r.rows >= cfg.tableRows
    requires PlannedWell(l, LeftRequired(t, required), true) && PlannedWell(r, [], true)
    ensures PlannedWell(JoinPlan(cfg, t, c, l, r, required), required, true)
  {
    hide Sane, HashingPays, EstimateJoinRows, EstimateSortCost;
    HashableMeans(t, c);
    if Hashable(t, c) {
      HashWins(cfg, t, c, l, r, required);
      EnforcedLoops(cfg, HashPlan(cfg, t, c, l, r), required);
    } else {
      EnforcedLoops(cfg, NestedPlan(cfg, t, c, l, r), required);
    }
  }

  lemma EnforcedLoops(cfg: OptimizerConfig, p: Physical, required: Required)
    ensures LoopsOthers(Enforced(cfg, p, required).plan) <==> LoopsOthers(p.plan)
    ensures required == [] ==> Enforced(cfg, p, required) == p
  {
  }

  lemma {:induction false} PlannedExpr(m: seq<Group>, cfg: OptimizerConfig, e: MemoExpr, n: nat, required: Required)
    requires Sane(cfg) && HashingPays(cfg) && MemoOk(m) && JoinsOverTables(m) && n <= |m| && ExprOk(e, n)
    requires e.op.JoinOp? ==> TableExpr(m, e, n)
    ensures PlannedWell(PlanFor(m, cfg, e, n, required), required, TableExpr(m, e, n))
    decreases n, 0, 0
  {
    hide MemoOk, JoinsOverTables, TableGroup, Sane, HashingPays, JoinPlan, LowerGroup, BestPlan;
    match e.op
    case JoinOp(t, c) =>
      var lr := LeftRequired(t, required);
      PlannedGroup(m, cfg, e.children[0], lr);
      PlannedGroup(m, cfg, e.children[1], []);
      GroupFair(m, cfg, e.children[0], lr);
      GroupFair(m, cfg, e.children[1], []);
      JoinPlanned(cfg, t, c, BestPlan(m, cfg, e.children[0], lr), BestPlan(m, cfg, e.children[1], []), required);
    case OrderOp(order) =>
      PlannedGroup(m, cfg, e.children[0], order);
      EnforcedLoops(cfg, BestPlan(m, cfg, e.children[0], order), required);
    case SelectOp(cond) =>
      PlannedGroup(m, cfg, e.children[0], required);
      EnforcedLoops(cfg, FilterPlan(cfg, cond, BestPlan(m, cfg, e.children[0], required)), required);
    case ProjectOp(items) =>
      PlannedGroup(m, cfg, e.children[0], required);
      EnforcedLoops(cfg, ProjectPlan(cfg, items, BestPlan(m, cfg, e.children[0], required)), required);
    case LimitOp(count) =>
      PlannedGroup(m, cfg, e.children[0], required);
      EnforcedLoops(cfg, LimitPlan(cfg, count, BestPlan(m, cfg, e.children[0], required)), required);
    case UnitOp => EnforcedLoops(cfg, Physical(OneRow, 0.1, 1.0, []), required);
    case ScanOp(t, a) => EnforcedLoops(cfg, ScanPlan(cfg, t, a), required);
  }

  lemma {:induction false} PlannedAmong(m: seq<Group>, cfg: OptimizerConfig, g: nat, required: Required, k: nat)
    requires Sane(cfg) && HashingPays(cfg) && MemoOk(m) && JoinsOverTables(m) && g < |m| && 0 < k <= |m[g].expressions|
    ensures PlannedWell(BestAmong(m, cfg, g, required, k), required, TableGroup(m, g))
    decreases g, 1, k
  {
    hide Sane, HashingPays, PlanFor, TableExpr, LoopsOthers;
    PlannedExpr(m, cfg, m[g].expressions[k - 1], g, required);
    if k > 1 { PlannedAmong(m, cfg, g, required, k - 1); }
  }

  /** Where hashing pays, every inner join on equality is hashed. */
  lemma {:induction false} PlannedGroup(m: seq<Group>, cfg: OptimizerConfig, g: nat, required: Required)
    requires Sane(cfg) && HashingPays(cfg) && MemoOk(m) && JoinsOverTables(m) && g < |m|
    ensures PlannedWell(BestPlan(m, cfg, g, required), required, TableGroup(m, g))
    decreases g, 2, 0
  {
    hide Sane, HashingPays, TableGroup, JoinsOverTables, BestAmong, LoopsOthers;
    PlannedAmong(m, cfg, g, required, |m[g].expressions|);
  }
}
