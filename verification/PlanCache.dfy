/** What the search remembers: for groups and orderings already planned, the plan found. */
module PlanCache {
  import opened Values
  import opened SqlSyntax
  import opened Relation
  import opened Memo
  import opened PlanSearch
  import opened PlanBounds

  datatype Bound = Unbounded | AtMost(cost: real)

  type Cache = seq<seq<(Required, Option<Physical>)>>

  predicate Allows(b: Bound, cost: real) { b.AtMost? ==> cost <= b.cost }

  /** The plan, if it is not too expensive. */
  function Within(p: Physical, b: Bound): Option<Physical> {
    if Allows(b, p.cost) then Some(p) else None
  }

  ghost predicate Has(c: Cache, g: nat, required: Required) {
    g < |c| && exists i :: 0 <= i < |c[g]| && c[g][i].0 == required
  }

  /** Everything a plan for e is made of has been planned. */
  ghost predicate NeedsMet(c: Cache, e: MemoExpr, required: Required)
    requires |e.children| == Arity(e.op)
  {
    match e.op
    case UnitOp => true
    case ScanOp(_, _) => true
    case OrderOp(order) => Has(c, e.children[0], order)
    case JoinOp(t, _) => Has(c, e.children[0], LeftRequired(t, required)) && Has(c, e.children[1], [])
    case _ => Has(c, e.children[0], required)
  }

  ghost predicate Settled(m: seq<Group>, c: Cache, g: nat, required: Required)
    requires MemoOk(m) && g < |m|
  {
    forall e :: e in m[g].expressions ==> NeedsMet(c, e, required)
  }

  /** An entry holds the best plan there is, and all that plans of its group are made of has entries too. */
  ghost predicate EntryOk(m: seq<Group>, cfg: OptimizerConfig, c: Cache, g: nat, i: nat)
    requires MemoOk(m) && g < |m| == |c| && i < |c[g]|
  {
    c[g][i].1 == Some(BestPlan(m, cfg, g, c[g][i].0)) && Settled(m, c, g, c[g][i].0)
  }

  ghost predicate CacheOk(m: seq<Group>, cfg: OptimizerConfig, c: Cache)
    requires MemoOk(m)
  {
    |c| == |m| && forall g, i :: 0 <= g < |m| && 0 <= i < |c[g]| ==> EntryOk(m, cfg, c, g, i)
  }

  ghost predicate Grows(a: Cache, b: Cache) {
    |a| == |b| && forall g :: 0 <= g < |a| ==> a[g] <= b[g]
  }

  lemma GrowsSelf(c: Cache)
    ensures Grows(c, c)
  {
  }

  lemma GrowsTrans(a: Cache, b: Cache, c: Cache)
    requires Grows(a, b) && Grows(b, c)
    ensures Grows(a, c)
  {
    forall g | 0 <= g < |a| ensures a[g] <= c[g] {
      assert a[g] <= b[g] && b[g] <= c[g];
    }
  }

  lemma HasGrows(a: Cache, b: Cache, g: nat, required: Required)
    requires Grows(a, b) && Has(a, g, required)
    ensures Has(b, g, required)
  {
    var i :| 0 <= i < |a[g]| && a[g][i].0 == required;
    assert a[g] <= b[g];
    assert b[g][i] == a[g][i];
  }

  /** One step of the search after another. */
  lemma Onward(a: Cache, b: Cache, c: Cache, g: nat, required: Required, h: nat, other: Required)
    requires Grows(a, b) && Grows(b, c)
    ensures Grows(a, c)
    ensures Has(b, g, required) ==> Has(c, g, required)
    ensures Has(b, h, other) ==> Has(c, h, other)
  {
    hide Grows, Has;
    GrowsTrans(a, b, c);
    if Has(b, g, required) { HasGrows(b, c, g, required); }
    if Has(b, h, other) { HasGrows(b, c, h, other); }
  }

  lemma NeedsGrow(a: Cache, b: Cache, e: MemoExpr, required: Required)
    requires |e.children| == Arity(e.op) && Grows(a, b) && NeedsMet(a, e, required)
    ensures NeedsMet(b, e, required)
  {
    hide Grows, Has;
    match e.op
    case UnitOp =>
    case ScanOp(_, _) =>
    case OrderOp(order) => HasGrows(a, b, e.children[0], order);
    case JoinOp(t, _) =>
      HasGrows(a, b, e.children[0], LeftRequired(t, required));
      HasGrows(a, b, e.children[1], []);
    case _ => HasGrows(a, b, e.children[0], required);
  }

  /** Every group has its first expression and all that exploring adds. */
  ghost predicate AllComplete(m: seq<Group>)
    requires MemoOk(m)
  {
    forall g :: 0 <= g < |m| ==> Complete(m, g, m[g].expressions[0])
  }

  /** Planning the first expression of a group plans everything that the others are made of. */
  lemma FirstNeedsAll(m: seq<Group>, cfg: OptimizerConfig, c: Cache, g: nat, required: Required, k: nat)
    requires MemoOk(m) && AllComplete(m) && CacheOk(m, cfg, c) && g < |m| && k < |m[g].expressions|
    requires NeedsMet(c, m[g].expressions[0], required)
    ensures ExprOk(m[g].expressions[k], g) && NeedsMet(c, m[g].expressions[k], required)
  {
    hide BestPlan;
    var e0, e := m[g].expressions[0], m[g].expressions[k];
    assert Complete(m, g, e0) && ExprOk(e0, g);
    if k > 0 {
      assert e == Alternatives(m, e0)[k - 1];
      if e0.op.SelectOp? {
        var child := e0.children[0];
        var d := CollapsedIn(e0.op.cond, m[child].expressions, e);
        var i :| 0 <= i < |c[child]| && c[child][i].0 == required;
        assert EntryOk(m, cfg, c, child, i);
        assert NeedsMet(c, d, required);
      }
    }
  }

  /** A new entry with the best plan. */
  lemma AddEntry(m: seq<Group>, cfg: OptimizerConfig, c: Cache, g: nat, required: Required)
    requires MemoOk(m) && CacheOk(m, cfg, c) && g < |m| && Settled(m, c, g, required)
    ensures var d := c[g := c[g] + [(required, Some(BestPlan(m, cfg, g, required)))]];
            CacheOk(m, cfg, d) && Grows(c, d) && Has(d, g, required)
  {
    hide BestPlan, NeedsMet;
    var d: Cache := c[g := c[g] + [(required, Some(BestPlan(m, cfg, g, required)))]];
    assert d[g][|c[g]|].0 == required;
    forall h, i | 0 <= h < |m| && 0 <= i < |d[h]| ensures EntryOk(m, cfg, d, h, i) {
      var want := d[h][i].0;
      assert (h == g && i == |c[g]|) || (i < |c[h]| && c[h][i] == d[h][i] && EntryOk(m, cfg, c, h, i));
      forall e | e in m[h].expressions ensures NeedsMet(d, e, want) {
        NeedsGrow(c, d, e, want);
      }
    }
  }

  /** A hash join costs more than the bound that may rule it out. */
  lemma HashAboveBound(m: seq<Group>, cfg: OptimizerConfig, e: MemoExpr, n: nat, required: Required)
    requires Sane(cfg) && MemoOk(m) && JoinsOverTables(m) && n <= |m| && ExprOk(e, n)
    requires e.op.JoinOp? && TableExpr(m, e, n)
    ensures var l, r := BestPlan(m, cfg, e.children[0], []), BestPlan(m, cfg, e.children[1], []);
            Enforced(cfg, HashPlan(cfg, e.op.joinType, e.op.constraint, l, r), required).cost
            > LowerGroup(m, cfg, e.children[0]) + LowerGroup(m, cfg, e.children[1]) + cfg.hashTuple
  {
    hide BestPlan, LowerGroup, JoinsOverTables, TableGroup, Sane;
    GroupFair(m, cfg, e.children[0], []);
    GroupFair(m, cfg, e.children[1], []);
    var l, r := BestPlan(m, cfg, e.children[0], []), BestPlan(m, cfg, e.children[1], []);
    var lb, rb := LowerGroup(m, cfg, e.children[0]), LowerGroup(m, cfg, e.children[1]);
    HashFair(cfg, e.op.joinType, e.op.constraint, l, r, lb, rb);
    EnforcedFair(cfg, HashPlan(cfg, e.op.joinType, e.op.constraint, l, r), required, lb + rb + cfg.hashTuple, true);
  }

  lemma FirstCandidate(m: seq<Group>, g: nat, k: nat)
    requires MemoOk(m) && g < |m| && k < |m[g].expressions|
    ensures ExprOk(m[g].expressions[k], g)
    ensures JoinsOverTables(m) && m[g].expressions[k].op.JoinOp? ==> TableExpr(m, m[g].expressions[k], g)
  {
    hide TableExpr;
    assert m[g].expressions[k] in m[g].expressions;
  }

  /** An expression whose bound is not below the best cost so far does not change the winner. */
  lemma PrunedLoses(m: seq<Group>, cfg: OptimizerConfig, g: nat, required: Required, k: nat)
    requires Sane(cfg) && MemoOk(m) && JoinsOverTables(m) && g < |m| && 0 < k < |m[g].expressions|
    requires ExprOk(m[g].expressions[k], g)
    requires LowerExpr(m, cfg, m[g].expressions[k], g) >= BestAmong(m, cfg, g, required, k).cost
    ensures BestAmong(m, cfg, g, required, k + 1) == BestAmong(m, cfg, g, required, k)
  {
    hide PlanFor, LowerExpr, Sane, JoinsOverTables, TableExpr;
    FirstCandidate(m, g, k);
    ExprFair(m, cfg, m[g].expressions[k], g, required);
  }

  /** A plan costs no less than the plans it is made of. */
  lemma DearerThanInput(m: seq<Group>, cfg: OptimizerConfig, e: MemoExpr, n: nat, required: Required)
    requires Sane(cfg) && MemoOk(m) && JoinsOverTables(m) && n <= |m| && ExprOk(e, n) && Arity(e.op) == 1
    ensures PlanFor(m, cfg, e, n, required).cost
            >= BestPlan(m, cfg, e.children[0], if e.op.OrderOp? then e.op.order else required).cost
  {
    hide BestPlan, JoinsOverTables, Sane, Enforced, FilterPlan, ProjectPlan, LimitPlan, MemoOk, TableGroup;
    var wanted := if e.op.OrderOp? then e.op.order else required;
    var child := BestPlan(m, cfg, e.children[0], wanted);
    GroupFair(m, cfg, e.children[0], wanted);
    match e.op
    case SelectOp(c) =>
      FilterFair(cfg, c, child, required, child.cost);
      CostsPositive(cfg);
    case ProjectOp(items) =>
      ProjectFair(cfg, items, child, required, child.cost);
      CostsPositive(cfg);
    case LimitOp(count) => LimitFair(cfg, count, child, required, child.cost);
    case OrderOp(order) => EnforcedFair(cfg, child, required, child.cost, false);
    case _ =>
  }

  /** A join costs no less than its two sides together, whichever way it is done. */
  lemma DearerThanSides(m: seq<Group>, cfg: OptimizerConfig, e: MemoExpr, n: nat, required: Required)
    requires Sane(cfg) && MemoOk(m) && JoinsOverTables(m) && n <= |m| && ExprOk(e, n) && e.op.JoinOp? && TableExpr(m, e, n)
    ensures var l, r := BestPlan(m, cfg, e.children[0], LeftRequired(e.op.joinType, required)), BestPlan(m, cfg, e.children[1], []);
            l.cost >= 0.0 && r.cost >= 0.0
            && Enforced(cfg, NestedPlan(cfg, e.op.joinType, e.op.constraint, l, r), required).cost >= l.cost + r.cost
            && Enforced(cfg, HashPlan(cfg, e.op.joinType, e.op.constraint, l, r), required).cost >= l.cost + r.cost
  {
    hide BestPlan, LowerGroup, JoinsOverTables, TableGroup, Sane, MemoOk;
    var l, r := BestPlan(m, cfg, e.children[0], LeftRequired(e.op.joinType, required)), BestPlan(m, cfg, e.children[1], []);
    GroupFair(m, cfg, e.children[0], LeftRequired(e.op.joinType, required));
    GroupFair(m, cfg, e.children[1], []);
    var t, c, b := e.op.joinType, e.op.constraint, l.cost + r.cost + cfg.hashTuple;
    NestedFair(cfg, t, c, l, r, l.cost, r.cost);
    HashFair(cfg, t, c, l, r, l.cost, r.cost);
    EnforcedFair(cfg, NestedPlan(cfg, t, c, l, r), required, b, true);
    EnforcedFair(cfg, HashPlan(cfg, t, c, l, r), required, b, true);
    CostsPositive(cfg);
  }

  lemma CostsPositive(cfg: OptimizerConfig)
    requires Sane(cfg)
    ensures cfg.hashTuple > 0.0 && cfg.predicateCost >= 0.0 && cfg.projectionCost >= 0.0
  {
  }
}
