/** The optimizer: it builds and explores the memo, and searches it with bounds, pruning and a cache. */
module Optimizer {
  import opened Values
  import opened SqlSyntax
  import opened Relation
  import opened Memo
  import opened PlanSearch
  import opened PlanBounds
  import opened JoinChoice
  import opened PlanCache

  datatype Stats = Stats(explored: nat, pruned: nat, enforcers: nat, rules: nat)

  class CascadesOptimizer {
    const config: OptimizerConfig
    var memo: seq<Group>
    var stats: Stats
    var best: Cache

    constructor (config: OptimizerConfig)
      ensures this.config == config && memo == [] && best == []
    {
      this.config := config;
      memo, stats, best := [], Stats(0, 0, 0, 0), [];
    }

    // ---------------------------------------------------------------- building the memo

    /** A memo of unexplored groups with the first expressions init. */
    ghost predicate Fresh(init: seq<MemoExpr>)
      reads this`memo
    {
      |memo| == |init| && forall g :: 0 <= g < |memo| ==> memo[g] == Group([init[g]], false)
    }

    method AddGroup(e: MemoExpr, ghost init: seq<MemoExpr>) returns (g: nat)
      requires Fresh(init)
      modifies this`memo
      ensures g == |init| && memo == old(memo) + [Group([e], false)] && Fresh(init + [e])
    {
      g := |memo|;
      memo := memo + [Group([e], false)];
    }

    method InsertRelation(r: RelationExpr, ghost init: seq<MemoExpr>) returns (g: nat, ghost more: seq<MemoExpr>)
      requires Fresh(init)
      modifies this`memo
      ensures Fresh(init + more) && |more| == Size(r) && g == |init| + Size(r) - 1 && Stands(init + more, r, |init|)
      decreases r, 1
    {
      hide Fresh, ExprOk, MemoOk, Arity, GroupOk, Exploring;
      match r
      case Unit =>
        g, more := InsertLeaf(UnitOp, init);
      case TableScan(t, a) =>
        g, more := InsertLeaf(ScanOp(t, a), init);
      case Projection(items, input) =>
        g, more := InsertOver(r, ProjectOp(items), init);
      case Selection(c, input) =>
        g, more := InsertOver(r, SelectOp(c), init);
      case Order(o, input) =>
        g, more := InsertOver(r, OrderOp(o), init);
      case First(n, input) =>
        g, more := InsertOver(r, LimitOp(n), init);
      case Join(t, c, left, right) =>
        g, more := InsertJoin(t, c, left, right, init);
    }

    method InsertJoin(t: JoinType, c: JoinConstraint, left: RelationExpr, right: RelationExpr, ghost init: seq<MemoExpr>)
      returns (g: nat, ghost more: seq<MemoExpr>)
      requires Fresh(init)
      modifies this`memo
      ensures Fresh(init + more) && |more| == Size(left) + Size(right) + 1 && g == |init| + Size(left) + Size(right)
      ensures Stands(init + more, left, |init|) && Stands(init + more, right, |init| + Size(left))
      ensures (init + more)[g] == MemoExpr(JoinOp(t, c), [|init| + Size(left) - 1, |init| + Size(left) + Size(right) - 1])
      decreases Join(t, c, left, right), 0
    {
      hide Stands, Fresh;
      var l, ml := InsertRelation(left, init);
      var rg, mr := InsertRelation(right, init + ml);
      var e := MemoExpr(JoinOp(t, c), [l, rg]);
      g := AddGroup(e, init + ml + mr);
      more := ml + mr + [e];
      Regroup(init, ml, mr, [e]);
      StandsMore(init + ml, mr + [e], left, |init|);
      StandsMore(init + ml + mr, [e], right, |init + ml|);
    }

    method InsertLeaf(op: LogicalOp, ghost init: seq<MemoExpr>) returns (g: nat, ghost more: seq<MemoExpr>)
      requires Fresh(init)
      modifies this`memo
      ensures Fresh(init + more) && more == [MemoExpr(op, [])] && g == |init|
    {
      more := [MemoExpr(op, [])];
      g := AddGroup(MemoExpr(op, []), init);
    }

    /** An operator with one input. */
    method InsertOver(r: RelationExpr, op: LogicalOp, ghost init: seq<MemoExpr>) returns (g: nat, ghost more: seq<MemoExpr>)
      requires Fresh(init) && Input(r).Some? && op == OpOver(r)
      modifies this`memo
      ensures Fresh(init + more) && |more| == Size(r) && g == |init| + Size(r) - 1 && Stands(init + more, r, |init|)
      decreases r, 0
    {
      hide Stands, Fresh;
      var input := Input(r).value;
      var child, mc := InsertRelation(input, init);
      g := AddGroup(MemoExpr(op, [child]), init + mc);
      more := mc + [MemoExpr(op, [child])];
      assert init + more == init + mc + [MemoExpr(op, [child])];
      StandsMore(init + mc, [MemoExpr(op, [child])], input, |init|);
      StandsOver(init + more, r, |init|);
    }

    // ---------------------------------------------------------------- exploring

    method AddExpression(g: nat, e: MemoExpr) returns (added: bool)
      requires g < |memo|
      modifies this`memo
      ensures added == (e !in old(memo)[g].expressions)
      ensures memo == if added then old(memo)[g := old(memo)[g].(expressions := old(memo)[g].expressions + [e])] else old(memo)
    {
      if e in memo[g].expressions {
        return false;
      }
      memo := memo[g := memo[g].(expressions := memo[g].expressions + [e])];
      added := true;
    }

    /** Explores a group: its inputs first, then the rules on its first expression. */
    method ExploreGroup(g: nat, ghost init: seq<MemoExpr>)
      requires Exploring(memo, init) && g < |memo|
      modifies this`memo, this`stats
      ensures Exploring(memo, init) && memo[g].explored && Later(old(memo), memo, g)
      decreases g, 1
    {
      hide Complete;
      assert GroupOk(memo, init, g);
      if memo[g].explored {
        return;
      }
      var expressions := memo[g].expressions;
      var e := expressions[0];
      assert ExprOk(init[g], g);
      for i := 0 to |e.children|
        invariant Exploring(memo, init) && Later(old(memo), memo, g) && memo[g] == old(memo)[g]
        invariant forall j :: 0 <= j < i ==> memo[e.children[j]].explored
      {
        ghost var was := memo;
        ExploreGroup(e.children[i], init);
        LaterTrans(old(memo), was, memo, e.children[i], g);
        assert forall j :: 0 <= j < i ==> was[e.children[j]].explored;
      }
      ghost var was := memo;
      ApplyRules(g, e, init);
      memo := memo[g := memo[g].(explored := true)];
      SetExplored(was, init, g);
      assert memo == was[g := Group([init[g]] + Alternatives(was, init[g]), true)];
      LaterTrans(old(memo), was, memo, g, g);
    }

    /** Adds what the rules make of the first expression of a group to it. */
    method ApplyRules(g: nat, e: MemoExpr, ghost init: seq<MemoExpr>)
      requires Exploring(memo, init) && g < |memo| && memo[g] == Group([e], false) && ExprOk(e, g)
      modifies this`memo, this`stats
      ensures memo == old(memo)[g := Group([e] + Alternatives(old(memo), e), false)]
      decreases g, 0
    {
      assert [e] + [] == [e] && memo == memo[g := Group([e] + [], false)];
      match e.op
      case JoinOp(t, c) =>
        if t.InnerJoin? || t.CrossJoin? {
          var added := AddExpression(g, MemoExpr(JoinOp(t, c), [e.children[1], e.children[0]]));
          if added { stats := stats.(rules := stats.rules + 1); }
        }
      case SelectOp(cond) =>
        var child := e.children[0];
        var childExprs := memo[child].expressions;
        GroupUnique(memo, init, child);
        ExploringOk(memo, init, child);
        for i := 0 to |childExprs|
          invariant memo == old(memo)[g := Group([e] + Collapsed(cond, childExprs[..i]), false)]
        {
          ghost var have := Collapsed(cond, childExprs[..i]);
          assert have + [] == have;
          var d := childExprs[i];
          assert childExprs[..i + 1] == childExprs[..i] + [d];
          CollapsedMore(cond, childExprs[..i], d);
          if d.op.SelectOp? {
            CollapsedNew(cond, childExprs[..i], d);
            assert ExprOk(d, child) && CollapseOf(cond, d).children[0] != e.children[0];
            var added := AddExpression(g, CollapseOf(cond, d));
            assert [e] + have + [CollapseOf(cond, d)] == [e] + (have + [CollapseOf(cond, d)]);
            if added { stats := stats.(rules := stats.rules + 1); }
          }
        }
        assert childExprs[..|childExprs|] == childExprs;
      case _ =>
    }

    // ---------------------------------------------------------------- searching

    /** The memo is explored and the cache is sound. */
    ghost predicate Searching()
      reads this`memo, this`best
    {
      MemoOk(memo) && AllComplete(memo) && JoinsOverTables(memo) && Sane(config) && CacheOk(memo, config, best)
    }

    /** The first entry for the ordering. */
    method Lookup(g: nat, required: Required) returns (hit: bool, cached: Option<Physical>)
      requires Searching() && g < |memo|
      ensures hit == Has(best, g, required)
      ensures hit ==> cached == Some(BestPlan(memo, config, g, required))
    {
      hide BestPlan, Settled, MemoOk, AllComplete, JoinsOverTables, Sane;
      for i := 0 to |best[g]|
        invariant forall j :: 0 <= j < i ==> best[g][j].0 != required
      {
        if best[g][i].0 == required {
          assert EntryOk(memo, config, best, g, i);
          return true, best[g][i].1;
        }
      }
      return false, None;
    }

    method Enforce(p: Physical, required: Required, upper: Bound) returns (r: Option<Physical>)
      modifies this`stats
      ensures r == Within(Enforced(config, p, required), upper)
    {
      if Satisfies(p, required) {
        return if Allows(upper, p.cost) then Some(p) else None;
      }
      if required == [] {
        return if Allows(upper, p.cost) then Some(p) else None;
      }
      var sortCost := EstimateSortCost(config, p.rows);
      var cost := p.cost + sortCost;
      if !Allows(upper, cost) {
        stats := stats.(pruned := stats.pruned + 1);
        return None;
      }
      stats := stats.(enforcers := stats.enforcers + 1);
      return Some(Physical(Sort(required, p.plan), cost, p.rows, required));
    }

    /**
     The best plan of a group for an ordering, if it is within the bound. A bound is given only once the group has
     been planned without one.
     */
    method OptimizeGroup(g: nat, required: Required, upper: Bound) returns (r: Option<Physical>)
      requires Searching() && g < |memo| && (upper.Unbounded? || Has(best, g, required))
      modifies this`best, this`stats
      ensures Searching() && Grows(old(best), best) && Has(best, g, required)
      ensures r == Within(BestPlan(memo, config, g, required), upper)
      decreases g, 2
    {
      hide BestPlan, PlanFor, LowerExpr, Settled, MemoOk, AllComplete, JoinsOverTables, Sane, EntryOk, Has, Grows;
      GrowsSelf(best);
      var hit, cached := Lookup(g, required);
      if hit {
        return if Allows(upper, cached.value.cost) then cached else None;
      }
      r := PlanGroup(g, required);
      AddEntry(memo, config, best, g, required);
      GrowsTrans(old(best), best, best[g := best[g] + [(required, r)]]);
      best := best[g := best[g] + [(required, r)]];
    }

    /** Goes through the expressions of a group, skipping those whose bound shows that they cannot win. */
    method PlanGroup(g: nat, required: Required) returns (r: Option<Physical>)
      requires Searching() && g < |memo|
      modifies this`best, this`stats
      ensures Searching() && Grows(old(best), best) && Settled(memo, best, g, required)
      ensures r == Some(BestPlan(memo, config, g, required))
      decreases g, 1
    {
      hide PlanFor, LowerExpr, NeedsMet, AllComplete, JoinsOverTables, Sane, CacheOk, Grows, TableExpr;
      GrowsSelf(best);
      var bestPlan: Option<Physical> := None;
      var bestCost := Unbounded;
      var expressions := memo[g].expressions;
      for k := 0 to |expressions|
        invariant Searching() && Grows(old(best), best)
        invariant k == 0 ==> bestCost == Unbounded && bestPlan == None
        invariant k > 0 ==> bestPlan == Some(BestAmong(memo, config, g, required, k)) && bestCost == AtMost(bestPlan.value.cost)
        invariant k > 0 ==> ExprOk(expressions[0], g) && NeedsMet(best, expressions[0], required)
      {
        var e := expressions[k];
        ghost var was := best;
        FirstCandidate(memo, g, k);
        var lower := LowerExpr(memo, config, e, g);
        if bestCost.AtMost? && lower >= bestCost.cost {
          PrunedLoses(memo, config, g, required, k);
          stats := stats.(pruned := stats.pruned + 1);
          continue;
        }
        stats := stats.(explored := stats.explored + 1);
        if k > 0 { FirstNeedsAll(memo, config, best, g, required, k); }
        var plan := ImplementExpr(e, g, required, bestCost);
        GrowsTrans(old(best), was, best);
        if k > 0 { NeedsGrow(was, best, expressions[0], required); }
        if plan.Some? {
          if bestCost.Unbounded? || plan.value.cost < bestCost.cost {
            bestCost := AtMost(plan.value.cost);
            bestPlan := plan;
          }
        }
      }
      forall e | e in expressions ensures NeedsMet(best, e, required) {
        var k :| 0 <= k < |expressions| && expressions[k] == e;
        FirstNeedsAll(memo, config, best, g, required, k);
      }
      r := bestPlan;
    }

    /** The best plan for one expression, if it is within the bound. */
    method ImplementExpr(e: MemoExpr, ghost n: nat, required: Required, upper: Bound) returns (r: Option<Physical>)
      requires Searching() && n <= |memo| && ExprOk(e, n) && (e.op.JoinOp? ==> TableExpr(memo, e, n))
      requires upper.Unbounded? || NeedsMet(best, e, required)
      modifies this`best, this`stats
      ensures Searching() && Grows(old(best), best) && NeedsMet(best, e, required)
      ensures r == Within(PlanFor(memo, config, e, n, required), upper)
      decreases n, 0, 1
    {
      hide BestPlan, MemoOk, AllComplete, JoinsOverTables, Sane, CacheOk, Grows, Has, Enforced, TableExpr, TableGroup;
      GrowsSelf(best);
      match e.op
      case UnitOp => r := Enforce(Physical(OneRow, 0.1, 1.0, []), required, upper);
      case ScanOp(t, a) => r := Enforce(ScanPlan(config, t, a), required, upper);
      case SelectOp(c) =>
        DearerThanInput(memo, config, e, n, required);
        var child := OptimizeGroup(e.children[0], required, upper);
        if child.None? { return None; }
        r := Enforce(FilterPlan(config, c, child.value), required, upper);
      case ProjectOp(items) =>
        DearerThanInput(memo, config, e, n, required);
        var child := OptimizeGroup(e.children[0], required, upper);
        if child.None? { return None; }
        r := Enforce(ProjectPlan(config, items, child.value), required, upper);
      case LimitOp(count) =>
        DearerThanInput(memo, config, e, n, required);
        var child := OptimizeGroup(e.children[0], required, upper);
        if child.None? { return None; }
        r := Enforce(LimitPlan(config, count, child.value), required, upper);
      case OrderOp(order) =>
        DearerThanInput(memo, config, e, n, required);
        var child := OptimizeGroup(e.children[0], order, upper);
        if child.None? { return None; }
        r := Enforce(child.value, required, upper);
      case JoinOp(t, c) =>
        r := ImplementJoin(e, n, t, c, required, upper);
    }

    /** A nested loop first; then, for an inner join on equality, a hash join if its bound does not rule it out. */
    method ImplementJoin(e: MemoExpr, ghost n: nat, t: JoinType, c: JoinConstraint, required: Required, upper: Bound)
      returns (r: Option<Physical>)
      requires Searching() && n <= |memo| && ExprOk(e, n) && e.op == JoinOp(t, c) && TableExpr(memo, e, n)
      requires upper.Unbounded? || NeedsMet(best, e, required)
      modifies this`best, this`stats
      ensures Searching() && Grows(old(best), best) && NeedsMet(best, e, required)
      ensures r == Within(PlanFor(memo, config, e, n, required), upper)
      decreases n, 0, 0
    {
      hide BestPlan, MemoOk, AllComplete, JoinsOverTables, Sane, CacheOk, Grows, Has, Enforced, TableExpr, TableGroup,
           NestedPlan, HashPlan, LowerGroup;
      var bestPlan: Option<Physical> := None;
      var bestCost := upper;
      var nestedLeft := if t.InnerJoin? || t.CrossJoin? then [] else required;
      DearerThanSides(memo, config, e, n, required);
      var a, b := e.children[0], e.children[1];
      GrowsSelf(best);
      ghost var was := best;
      var left := OptimizeGroup(a, nestedLeft, bestCost);
      Onward(old(best), was, best, a, nestedLeft, b, []);
      if left.Some? {
        was := best;
        var right := OptimizeGroup(b, [], bestCost);
        Onward(old(best), was, best, a, nestedLeft, b, []);
        if right.Some? {
          var plan := Enforce(NestedPlan(config, t, c, left.value, right.value), required, bestCost);
          if plan.Some? {
            bestCost := AtMost(plan.value.cost);
            bestPlan := plan;
          }
        }
      }
      if t.InnerJoin? && IsEqualityConstraint(c) {
        HashAboveBound(memo, config, e, n, required);
        var hashLower := LowerGroup(memo, config, a) + LowerGroup(memo, config, b) + config.hashTuple;
        if bestCost.AtMost? && hashLower >= bestCost.cost {
          stats := stats.(pruned := stats.pruned + 1);
          return bestPlan;
        }
        was := best;
        left := OptimizeGroup(a, [], bestCost);
        Onward(old(best), was, best, a, [], b, []);
        if left.None? { return None; }
        was := best;
        var right := OptimizeGroup(b, [], bestCost);
        Onward(old(best), was, best, a, [], b, []);
        if right.None? { return None; }
        var plan := Enforce(HashPlan(config, t, c, left.value, right.value), required, bestCost);
        if plan.Some? {
          bestPlan := plan;
        }
      }
      r := bestPlan;
    }

    /** Builds the memo of a relation and explores it. */
    method BuildMemo(r: RelationExpr) returns (root: nat, ghost init: seq<MemoExpr>)
      modifies this`memo, this`stats
      ensures Explored(memo, init, r) && root == Size(r) - 1
    {
      hide GroupOk, Complete, Stands, ExprOk, Alternatives, Later;
      memo, stats := [], Stats(0, 0, 0, 0);
      root, init := InsertRelation(r, []);
      assert [] + init == init;
      FreshExploring(memo, init, r);
      ExploreGroup(root, init);
      AllExplored(memo, init, r, 0);
    }

    /**
     The plan for what a SELECT was lowered to: what exhaustive search would find, on the memo with every expression
     that the rules give.
     */
    method Optimize(r: RelationExpr) returns (p: Physical, ghost init: seq<MemoExpr>)
      requires SelectShape(r) && Sane(config)
      modifies this
      ensures Explored(memo, init, r) && MemoOk(memo) && p == BestPlan(memo, config, Size(r) - 1, [])
      ensures HashesEqualities(p.plan) && (HashingPays(config) ==> LoopsOthers(p.plan))
    {
      hide BestPlan, Stands, SelectShape, GroupOk, Complete, JoinsOverTables, Sane, EntryOk;
      var root;
      root, init := BuildMemo(r);
      ExploringMemo(memo, init);
      ExploredSearch(memo, init, r);
      best := seq(|memo|, _ => []);
      var found := OptimizeGroup(root, [], Unbounded);
      p := found.value;
      HashedGroup(memo, config, root, []);
      if HashingPays(config) { PlannedGroup(memo, config, root, []); }
    }
  }

  lemma Regroup<T>(a: seq<T>, b: seq<T>, c: seq<T>, d: seq<T>)
    ensures a + (b + c + d) == a + b + (c + d) && a + b + (c + d) == a + b + c + d
  {
  }

  lemma FreshExploring(m: seq<Group>, init: seq<MemoExpr>, r: RelationExpr)
    requires |m| == |init| == Size(r) && (forall g :: 0 <= g < |m| ==> m[g] == Group([init[g]], false)) && Stands(init, r, 0)
    ensures Exploring(m, init)
  {
    forall g | 0 <= g < |m| ensures ExprOk(init[g], g) { StandsOk(init, r, 0, g); }
  }
}
