/** The optimizer's memo: groups of equivalent expressions over other groups, and what exploring adds to them. */
module Memo {
  import opened Values
  import opened SqlSyntax
  import opened Relation

  datatype LogicalOp =
    | UnitOp
    | ScanOp(table: string, alias: Option<string>)
    | ProjectOp(items: seq<ProjectionItem>)
    | SelectOp(cond: Expr)
    | JoinOp(joinType: JoinType, constraint: JoinConstraint)
    | OrderOp(order: seq<OrderItem>)
    | LimitOp(count: Expr)

  /** An operator over groups, given by their numbers. */
  datatype MemoExpr = MemoExpr(op: LogicalOp, children: seq<nat>)

  datatype Group = Group(expressions: seq<MemoExpr>, explored: bool)

  function Arity(op: LogicalOp): nat {
    match op
    case UnitOp => 0
    case ScanOp(_, _) => 0
    case JoinOp(_, _) => 2
    case _ => 1
  }

  /** The expression uses groups below number n only, and the two sides of a join are different groups. */
  predicate ExprOk(e: MemoExpr, n: nat) {
    && |e.children| == Arity(e.op)
    && (forall i :: 0 <= i < |e.children| ==> e.children[i] < n)
    && (e.op.JoinOp? ==> e.children[0] != e.children[1])
  }

  predicate MemoOk(m: seq<Group>) {
    forall g :: 0 <= g < |m| ==> m[g].expressions != [] && forall e :: e in m[g].expressions ==> ExprOk(e, g)
  }

  // ---------------------------------------------------------------- inserting a relation

  /** The number of groups of a relation. */
  function Size(r: RelationExpr): (n: nat)
    ensures n > 0
  {
    match r
    case Unit => 1
    case TableScan(_, _) => 1
    case Join(_, _, left, right) => Size(left) + Size(right) + 1
    case Projection(_, input) => Size(input) + 1
    case Selection(_, input) => Size(input) + 1
    case Order(_, input) => Size(input) + 1
    case First(_, input) => Size(input) + 1
  }

  /** The groups from number base on are those of r, each with its first expression, those of its inputs before it. */
  predicate Stands(init: seq<MemoExpr>, r: RelationExpr, base: nat) {
    base + Size(r) <= |init| &&
    var top := init[base + Size(r) - 1];
    match r
    case Join(t, c, left, right) =>
      && Stands(init, left, base) && Stands(init, right, base + Size(left))
      && top == MemoExpr(JoinOp(t, c), [base + Size(left) - 1, base + Size(left) + Size(right) - 1])
    case Projection(items, input) => Stands(init, input, base) && top == MemoExpr(ProjectOp(items), [base + Size(input) - 1])
    case Selection(c, input) => Stands(init, input, base) && top == MemoExpr(SelectOp(c), [base + Size(input) - 1])
    case Order(o, input) => Stands(init, input, base) && top == MemoExpr(OrderOp(o), [base + Size(input) - 1])
    case First(n, input) => Stands(init, input, base) && top == MemoExpr(LimitOp(n), [base + Size(input) - 1])
    case TableScan(t, a) => top == MemoExpr(ScanOp(t, a), [])
    case Unit => top == MemoExpr(UnitOp, [])
  }

  /** The relation directly below r when there is one. */
  function Input(r: RelationExpr): Option<RelationExpr> {
    match r
    case Projection(_, input) => Some(input)
    case Selection(_, input) => Some(input)
    case Order(_, input) => Some(input)
    case First(_, input) => Some(input)
    case _ => None
  }

  /** The operator of a relation with one input. */
  function OpOver(r: RelationExpr): LogicalOp
    requires Input(r).Some?
  {
    match r
    case Projection(items, _) => ProjectOp(items)
    case Selection(c, _) => SelectOp(c)
    case Order(o, _) => OrderOp(o)
    case First(n, _) => LimitOp(n)
  }

  lemma StandsOver(init: seq<MemoExpr>, r: RelationExpr, base: nat)
    requires Input(r).Some? && Stands(init, Input(r).value, base)
    requires base + Size(Input(r).value) < |init|
    requires init[base + Size(Input(r).value)] == MemoExpr(OpOver(r), [base + Size(Input(r).value) - 1])
    ensures Stands(init, r, base) && Size(r) == Size(Input(r).value) + 1
  {
  }

  lemma {:induction false} StandsMore(init: seq<MemoExpr>, more: seq<MemoExpr>, r: RelationExpr, base: nat)
    requires Stands(init, r, base)
    ensures Stands(init + more, r, base)
    decreases r
  {
    if r.Join? {
      StandsMore(init, more, r.left, base);
      StandsMore(init, more, r.right, base + Size(r.left));
    } else if Input(r).Some? {
      StandsMore(init, more, Input(r).value, base);
    }
  }

  lemma {:induction false} StandsOk(init: seq<MemoExpr>, r: RelationExpr, base: nat, g: nat)
    requires Stands(init, r, base) && base <= g < base + Size(r)
    ensures ExprOk(init[g], g)
    decreases r
  {
    if g < base + Size(r) - 1 {
      if r.Join? {
        if g < base + Size(r.left) { StandsOk(init, r.left, base, g); } else { StandsOk(init, r.right, base + Size(r.left), g); }
      } else if Input(r).Some? {
        StandsOk(init, Input(r).value, base, g);
      }
    }
  }

  // ---------------------------------------------------------------- exploring

  predicate Commutes(t: JoinType) { t.InnerJoin? || t.CrossJoin? }

  /** A selection over the selection d, made one. */
  function CollapseOf(cond: Expr, d: MemoExpr): MemoExpr
    requires d.op.SelectOp?
  {
    MemoExpr(SelectOp(Binary(cond, And, d.op.cond)), d.children)
  }

  function Collapsed(cond: Expr, child: seq<MemoExpr>): seq<MemoExpr> {
    if child == [] then []
    else (if child[0].op.SelectOp? then [CollapseOf(cond, child[0])] else []) + Collapsed(cond, child[1..])
  }

  /** What the rules add to a group whose first expression is e. */
  function Alternatives(m: seq<Group>, e: MemoExpr): seq<MemoExpr>
    requires ExprOk(e, |m|)
  {
    match e.op
    case JoinOp(t, _) => if Commutes(t) then [MemoExpr(e.op, [e.children[1], e.children[0]])] else []
    case SelectOp(cond) => Collapsed(cond, m[e.children[0]].expressions)
    case _ => []
  }

  /** A group as it is once explored. */
  ghost predicate Complete(m: seq<Group>, g: nat, e: MemoExpr) {
    g < |m| && ExprOk(e, |m|) && m[g].expressions == [e] + Alternatives(m, e)
  }

  /** A memo that began with the expressions init, part of it explored. */
  ghost predicate Exploring(m: seq<Group>, init: seq<MemoExpr>) {
    && |m| == |init|
    && (forall g :: 0 <= g < |m| ==> ExprOk(init[g], g))
    && forall g :: 0 <= g < |m| ==> GroupOk(m, init, g)
  }

  ghost predicate GroupOk(m: seq<Group>, init: seq<MemoExpr>, g: nat)
    requires g < |m| == |init|
  {
    if m[g].explored then Complete(m, g, init[g]) && forall c :: c in init[g].children ==> c < |m| && m[c].explored
    else m[g].expressions == [init[g]]
  }

  lemma {:induction false} CollapsedIn(cond: Expr, child: seq<MemoExpr>, e: MemoExpr) returns (d: MemoExpr)
    requires e in Collapsed(cond, child)
    ensures d in child && d.op.SelectOp? && e == CollapseOf(cond, d)
    decreases child
  {
    d := child[0];
    if !(d.op.SelectOp? && e == CollapseOf(cond, d)) {
      d := CollapsedIn(cond, child[1..], e);
      assert d in child[1..];
    }
  }

  lemma {:induction false} CollapsedHas(cond: Expr, child: seq<MemoExpr>, d: MemoExpr)
    requires d in child && d.op.SelectOp?
    ensures CollapseOf(cond, d) in Collapsed(cond, child)
    decreases child
  {
    if d != child[0] { CollapsedHas(cond, child[1..], d); }
  }

  /** The rules swap the sides of inner and cross joins, and make one selection of two. */
  lemma AlternativesMean(m: seq<Group>, e: MemoExpr, d: MemoExpr)
    requires ExprOk(e, |m|)
    ensures d in Alternatives(m, e) <==>
            || (e.op.JoinOp? && (e.op.joinType == InnerJoin || e.op.joinType == CrossJoin) && d == MemoExpr(e.op, [e.children[1], e.children[0]]))
            || (e.op.SelectOp? && exists x :: x in m[e.children[0]].expressions && x.op.SelectOp?
                                              && d == MemoExpr(SelectOp(Binary(e.op.cond, And, x.op.cond)), x.children))
  {
    if e.op.SelectOp? {
      var below := m[e.children[0]].expressions;
      if d in Collapsed(e.op.cond, below) { var x := CollapsedIn(e.op.cond, below, d); }
      forall x | x in below && x.op.SelectOp? ensures CollapseOf(e.op.cond, x) in Collapsed(e.op.cond, below) { CollapsedHas(e.op.cond, below, x); }
    }
  }

  lemma {:induction false} CollapsedMore(cond: Expr, child: seq<MemoExpr>, d: MemoExpr)
    ensures Collapsed(cond, child + [d]) == Collapsed(cond, child) + if d.op.SelectOp? then [CollapseOf(cond, d)] else []
    decreases child
  {
    if child == [] {
      assert child + [d] == [d] && Collapsed(cond, [d][1..]) == [];
    } else {
      assert (child + [d])[1..] == child[1..] + [d];
      CollapsedMore(cond, child[1..], d);
    }
  }

  ghost predicate Unique(s: seq<MemoExpr>) {
    forall i, j :: 0 <= i < j < |s| ==> s[i] != s[j]
  }

  lemma CollapsedNew(cond: Expr, child: seq<MemoExpr>, d: MemoExpr)
    requires d.op.SelectOp? && d !in child
    ensures CollapseOf(cond, d) !in Collapsed(cond, child)
  {
    if CollapseOf(cond, d) in Collapsed(cond, child) {
      var _ := CollapsedIn(cond, child, CollapseOf(cond, d));
    }
  }

  lemma {:induction false} CollapsedUnique(cond: Expr, child: seq<MemoExpr>)
    requires Unique(child)
    ensures Unique(Collapsed(cond, child))
    decreases child
  {
    if child != [] {
      var rest := child[1..];
      CollapsedUnique(cond, rest);
      assert child[0] !in rest;
      if child[0].op.SelectOp? { CollapsedNew(cond, rest, child[0]); }
    }
  }

  /** Exploring keeps the memo well-formed. */
  lemma {:induction false} ExploringOk(m: seq<Group>, init: seq<MemoExpr>, g: nat)
    requires Exploring(m, init) && g < |m|
    ensures m[g].expressions != [] && m[g].expressions[0] == init[g]
    ensures forall e :: e in m[g].expressions ==> ExprOk(e, g)
    decreases g
  {
    assert GroupOk(m, init, g);
    if m[g].explored && init[g].op.SelectOp? {
      var c := init[g].children[0];
      ExploringOk(m, init, c);
      forall e | e in m[g].expressions && e != init[g] ensures ExprOk(e, g) {
        var d := CollapsedIn(init[g].op.cond, m[c].expressions, e);
        assert ExprOk(d, c);
      }
    }
  }

  lemma ExploringMemo(m: seq<Group>, init: seq<MemoExpr>)
    requires Exploring(m, init)
    ensures MemoOk(m)
  {
    forall g | 0 <= g < |m| ensures m[g].expressions != [] && forall e :: e in m[g].expressions ==> ExprOk(e, g) {
      ExploringOk(m, init, g);
    }
  }

  /** No expression is in a group twice. */
  lemma {:induction false} GroupUnique(m: seq<Group>, init: seq<MemoExpr>, g: nat)
    requires Exploring(m, init) && g < |m|
    ensures Unique(m[g].expressions)
    decreases g
  {
    var e := init[g];
    assert GroupOk(m, init, g) && ExprOk(e, g);
    if m[g].explored && e.op.SelectOp? {
      var c := e.children[0];
      GroupUnique(m, init, c);
      CollapsedUnique(e.op.cond, m[c].expressions);
      if e in Collapsed(e.op.cond, m[c].expressions) {
        var d := CollapsedIn(e.op.cond, m[c].expressions, e);
        ExploringOk(m, init, c);
        assert ExprOk(d, c);
      }
    }
  }

  // ---------------------------------------------------------------- everything below an explored group is explored

  lemma {:induction false} AllExplored(m: seq<Group>, init: seq<MemoExpr>, r: RelationExpr, base: nat)
    requires Exploring(m, init) && Stands(init, r, base) && m[base + Size(r) - 1].explored
    ensures forall g :: base <= g < base + Size(r) ==> m[g].explored
    decreases r
  {
    hide Complete, GroupOk;
    var top := base + Size(r) - 1;
    TopExplored(m, init, top);
    if r.Join? {
      assert init[top].children[0] == base + Size(r.left) - 1;
      assert init[top].children[1] == base + Size(r.left) + Size(r.right) - 1;
      AllExplored(m, init, r.left, base);
      AllExplored(m, init, r.right, base + Size(r.left));
    } else if Input(r).Some? {
      assert init[top].children[0] == base + Size(Input(r).value) - 1;
      AllExplored(m, init, Input(r).value, base);
    }
  }

  lemma TopExplored(m: seq<Group>, init: seq<MemoExpr>, g: nat)
    requires Exploring(m, init) && g < |m| && m[g].explored
    ensures forall i :: 0 <= i < |init[g].children| ==> init[g].children[i] < |m| && m[init[g].children[i]].explored
  {
    assert GroupOk(m, init, g);
    forall i | 0 <= i < |init[g].children| ensures init[g].children[i] < |m| && m[init[g].children[i]].explored {
      assert init[g].children[i] in init[g].children;
    }
  }

  /** Only group g and groups below it were explored in between. */
  ghost predicate Later(a: seq<Group>, b: seq<Group>, g: nat) {
    && |a| == |b|
    && (forall h :: 0 <= h < |a| && a[h].explored ==> b[h] == a[h])
    && (forall h :: g < h < |a| ==> b[h] == a[h])
  }

  lemma LaterTrans(a: seq<Group>, b: seq<Group>, c: seq<Group>, g: nat, h: nat)
    requires Later(a, b, h) && Later(b, c, g) && g <= h
    ensures Later(a, c, h)
  {
    forall k | 0 <= k < |a| && a[k].explored ensures c[k] == a[k] {
      assert b[k] == a[k];
    }
  }

  /** A group whose inputs are explored is explored once it has all its alternatives. */
  lemma SetExplored(m: seq<Group>, init: seq<MemoExpr>, g: nat)
    requires Exploring(m, init) && g < |m| && !m[g].explored && ExprOk(init[g], g)
    requires forall i :: 0 <= i < |init[g].children| ==> m[init[g].children[i]].explored
    ensures ExprOk(init[g], |m|)
    ensures var c := m[g := Group([init[g]] + Alternatives(m, init[g]), true)]; Exploring(c, init) && Later(m, c, g)
  {
    var c := m[g := Group([init[g]] + Alternatives(m, init[g]), true)];
    forall h | 0 <= h < |c| ensures GroupOk(c, init, h) {
      assert GroupOk(m, init, h);
    }
  }
}
