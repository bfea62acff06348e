/** The optimizer's plan means what the SELECT says. */
module OptimizedMeaning {
  import opened Values
  import opened SqlSyntax
  import opened Evaluate
  import opened Machine
  import opened PlanCode
  import opened PlanMeaning
  import opened SelectTheorem
  import opened Relation
  import opened StableSort
  import opened OptimizedShape
  import opened PlanBounds

  // ---------------------------------------------------------------- ordering rows

  /** A key that cannot be computed counts as null. */
  function KeyValue(e: Expr, env: seq<RowSource>, recs: seq<Record>): Value {
    if |recs| != |env| then Null
    else match Eval(e, env, recs)
         case None => Null
         case Some(v) => v
  }

  function CompareKeys(order: seq<OrderItem>, env: seq<RowSource>, a: seq<Record>, b: seq<Record>): Ordering
    decreases order
  {
    if order == [] then Same
    else
      var o := CompareValues(KeyValue(order[0].key, env, a), KeyValue(order[0].key, env, b));
      var first := if order[0].descending then Flip(o) else o;
      if first == Same then CompareKeys(order[1..], env, a, b) else first
  }

  function KeyLeq(order: seq<OrderItem>, env: seq<RowSource>): (seq<Record>, seq<Record>) -> bool {
    (a, b) => CompareKeys(order, env, a, b) != Greater
  }

  lemma ValuesStrict(a: Value, b: Value, c: Value)
    requires CompareValues(a, b) != Greater && CompareValues(b, c) != Greater
    ensures CompareValues(a, c) == Same ==> CompareValues(a, b) == Same && CompareValues(b, c) == Same
  {
    CompareFlip(a, c);
    CompareFlip(a, b);
    CompareFlip(b, c);
    if CompareValues(a, c) == Same {
      CompareTrans(b, c, a);
      CompareTrans(c, a, b);
    }
  }

  lemma {:induction false} KeysFlip(order: seq<OrderItem>, env: seq<RowSource>, a: seq<Record>, b: seq<Record>)
    ensures CompareKeys(order, env, a, b) == Flip(CompareKeys(order, env, b, a))
    decreases order
  {
    hide CompareValues;
    if order != [] {
      CompareFlip(KeyValue(order[0].key, env, a), KeyValue(order[0].key, env, b));
      KeysFlip(order[1..], env, a, b);
    }
  }

  lemma {:induction false} KeysTrans(order: seq<OrderItem>, env: seq<RowSource>, a: seq<Record>, b: seq<Record>, c: seq<Record>)
    requires CompareKeys(order, env, a, b) != Greater && CompareKeys(order, env, b, c) != Greater
    ensures CompareKeys(order, env, a, c) != Greater
    decreases order
  {
    hide CompareValues, KeyValue;
    if order != [] {
      var x, y, z := KeyValue(order[0].key, env, a), KeyValue(order[0].key, env, b), KeyValue(order[0].key, env, c);
      CompareFlip(x, y);
      CompareFlip(y, z);
      CompareFlip(x, z);
      if order[0].descending {
        CompareTrans(z, y, x);
        ValuesStrict(z, y, x);
      } else {
        CompareTrans(x, y, z);
        ValuesStrict(x, y, z);
      }
      if CompareValues(x, z) == Same {
        KeysTrans(order[1..], env, a, b, c);
      }
    }
  }

  lemma KeysPreorder(order: seq<OrderItem>, env: seq<RowSource>)
    ensures TotalPreorder(KeyLeq(order, env))
  {
    hide CompareKeys;
    var leq := KeyLeq(order, env);
    forall a, b ensures leq(a, b) || leq(b, a) { KeysFlip(order, env, a, b); }
    forall a, b, c | leq(a, b) && leq(b, c) ensures leq(a, c) { KeysTrans(order, env, a, b, c); }
  }

  function SortRows(order: seq<OrderItem>, env: seq<RowSource>, rows: seq<seq<Record>>): seq<seq<Record>> {
    Sorted(rows, KeyLeq(order, env))
  }

  lemma NoOrder(env: seq<RowSource>, rows: seq<seq<Record>>)
    ensures SortRows([], env, rows) == rows
  {
    SortedAlready(rows, KeyLeq([], env));
  }

  // ---------------------------------------------------------------- what a plan denotes, sorts and limits included

  /** The rows in scope of the output. */
  function Meaning(p: Plan, cat: Catalog, db: Tables): Rows {
    match p
    case Limit(count, input) =>
      var r := Meaning(input, cat, db);
      (match LiteralLimit(count)
       case Failure(_) => Rows([], true)
       case Success(n) => Rows(FirstN(r.rows, Some(n)), r.broken))
    case Sort(order, input) =>
      var r := Meaning(input, cat, db);
      Rows(SortRows(order, Scope(input, [], cat), r.rows), r.broken)
    case Project(_, input) => Meaning(input, cat, db)
    case Filter(cond, input) =>
      var r := Meaning(input, cat, db);
      Then(Select(r.rows, Truth(cond, Scope(input, [], cat))), r.broken)
    case _ => Denote(p, [], [], cat, db)
  }

  /** The items of the projection. */
  function ItemsOf(p: Plan): Option<seq<ProjectionItem>> {
    match p
    case Limit(_, input) => ItemsOf(input)
    case Sort(_, input) => ItemsOf(input)
    case Project(items, _) => Some(items)
    case _ => None
  }

  /** The rows put out; None when an expression cannot be computed. */
  ghost function Outcome(p: Plan, cat: Catalog, db: Tables): Option<seq<Record>> {
    var r, env := Meaning(p, cat, db), Scope(p, [], cat);
    if r.broken || !AllLong(r.rows, |env|) then None else OutputRows(r.rows, ItemsOf(p), env)
  }

  /** The rows of a SELECT have a record for every table, so that what is put out is a matter of its expressions only. */
  lemma {:induction false} MeaningLong(r: RelationExpr, cat: Catalog, db: Tables)
    requires JoinsTables(r)
    ensures AllLong(Meaning(Direct(r), cat, db).rows, |Scope(Direct(r), [], cat)|)
    decreases r
  {
    hide Denote, Select;
    match r
    case First(n, input) => MeaningLong(input, cat, db);
    case Projection(_, input) => MeaningLong(input, cat, db);
    case Selection(c, input) =>
      MeaningLong(input, cat, db);
      SelectLong(Meaning(Direct(input), cat, db).rows, Truth(c, Scope(Direct(input), [], cat)), |Scope(Direct(input), [], cat)|);
    case Order(o, input) =>
      MeaningLong(input, cat, db);
      SortedLong(o, Scope(Direct(input), [], cat), Meaning(Direct(input), cat, db).rows, |Scope(Direct(input), [], cat)|);
    case _ =>
      DirectRows(r);
      DenoteLong(Direct(r), [], [], cat, db);
  }

  lemma {:induction false} DirectRows(r: RelationExpr)
    requires r.Unit? || TableTree(r)
    ensures RowPlan(Direct(r)) && SameJoins(Direct(r), r)
    decreases r
  {
    if r.Join? { DirectRows(r.left); DirectRows(r.right); }
  }

  lemma SortedLong(order: seq<OrderItem>, env: seq<RowSource>, rows: seq<seq<Record>>, n: nat)
    requires AllLong(rows, n)
    ensures AllLong(SortRows(order, env, rows), n)
  {
    var sorted := SortRows(order, env, rows);
    forall i | 0 <= i < |sorted| ensures |sorted[i]| == n {
      assert sorted[i] in multiset(sorted);
      assert sorted[i] in rows;
    }
  }

  // ---------------------------------------------------------------- joins

  lemma {:induction false} JoinsDenote(p: Plan, r: RelationExpr, env: seq<RowSource>, recs: seq<Record>, cat: Catalog, db: Tables)
    requires SameJoins(p, r)
    ensures Denote(p, env, recs, cat, db) == Denote(Direct(r), env, recs, cat, db)
    decreases r, 1, 0
  {
    hide Select;
    if r.Join? {
      JoinsScope(p.left, r.left, env, cat);
      JoinsDenote(p.left, r.left, env, recs, cat, db);
      var left := Denote(p.left, env, recs, cat, db);
      JoinsDenoteRight(left.rows, p.right, r.right, r.constraint, Scope(p.left, env, cat), cat, db);
    }
  }

  lemma {:induction false} JoinsDenoteRight(left: seq<seq<Record>>, p: Plan, r: RelationExpr, c: JoinConstraint, env: seq<RowSource>, cat: Catalog, db: Tables)
    requires SameJoins(p, r)
    ensures DenoteRight(left, p, c, env, cat, db) == DenoteRight(left, Direct(r), c, env, cat, db)
    decreases r, 2, |left|
  {
    hide Select, Denote;
    if left != [] {
      JoinsScope(p, r, env, cat);
      JoinsDenote(p, r, env, left[0], cat, db);
      JoinsDenoteRight(left[1..], p, r, c, env, cat, db);
    }
  }

  lemma {:induction false} JoinsScope(p: Plan, r: RelationExpr, env: seq<RowSource>, cat: Catalog)
    requires SameJoins(p, r)
    ensures Scope(p, env, cat) == Scope(Direct(r), env, cat) && RowPlan(p)
    decreases r
  {
    if r.Join? {
      JoinsScope(p.left, r.left, env, cat);
      JoinsScope(p.right, r.right, Scope(p.left, env, cat), cat);
    }
  }

  lemma {:induction false} OptimizedScope(p: Plan, r: RelationExpr, order: seq<OrderItem>, env: seq<RowSource>, cat: Catalog)
    requires Optimized(p, r, order)
    ensures Scope(p, env, cat) == Scope(Direct(r), env, cat)
    decreases r
  {
    match r
    case First(_, input) => OptimizedScope(p.input, input, order, env, cat);
    case Order(o, input) => OptimizedScope(p, input, o, env, cat);
    case Projection(_, input) => OptimizedScope(p.input, input, order, env, cat);
    case Selection(_, input) => OptimizedScope(p.input, input, order, env, cat);
    case _ => JoinsScope(if order == [] then p else p.input, r, env, cat);
  }

  // ---------------------------------------------------------------- a sort below a filter

  /** When the condition can be computed on all rows, the filter keeps the rows it holds on. */
  lemma {:induction false} SelectKeeps(rows: seq<seq<Record>>, test: seq<Record> -> Option<bool>)
    ensures Select(rows, test).broken <==> exists r :: r in rows && test(r).None?
    ensures !Select(rows, test).broken ==> Select(rows, test).rows == Keep(rows, r => test(r) == Some(true))
    decreases rows
  {
    if rows != [] {
      SelectKeeps(rows[1..], test);
      assert forall r :: r in rows <==> r == rows[0] || r in rows[1..];
    }
  }

  lemma SelectSorted(rows: seq<seq<Record>>, test: seq<Record> -> Option<bool>, order: seq<OrderItem>, env: seq<RowSource>)
    requires !Select(rows, test).broken
    ensures Select(SortRows(order, env, rows), test) == Rows(SortRows(order, env, Select(rows, test).rows), false)
  {
    var leq := KeyLeq(order, env);
    var sorted := Sorted(rows, leq);
    KeysPreorder(order, env);
    SelectKeeps(rows, test);
    SelectKeeps(sorted, test);
    forall r | r in sorted ensures test(r).Some? { assert r in multiset(sorted); }
    SortFilter(rows, leq, r => test(r) == Some(true));
  }

  /** Under a demanded ordering the rows come sorted, if nothing fails. */
  lemma {:induction false} LowerMeaning(p: Plan, r: RelationExpr, order: seq<OrderItem>, cat: Catalog, db: Tables)
    requires Optimized(p, r, order) && Unordered(r)
    ensures var rows := Meaning(Direct(r), cat, db);
            !rows.broken ==> Meaning(p, cat, db) == Rows(SortRows(order, Scope(Direct(r), [], cat), rows.rows), false)
    decreases r
  {
    hide Denote, Select, SortRows;
    var env := Scope(Direct(r), [], cat);
    match r
    case Projection(_, input) => LowerMeaning(p.input, input, order, cat, db);
    case Selection(c, input) =>
      LowerMeaning(p.input, input, order, cat, db);
      OptimizedScope(p.input, input, order, [], cat);
      var below := Meaning(Direct(input), cat, db);
      if !below.broken && !Select(below.rows, Truth(c, env)).broken {
        SelectSorted(below.rows, Truth(c, env), order, env);
      }
    case _ =>
      TreeMeaning(p, r, order, cat, db);
  }

  lemma TreeMeaning(p: Plan, r: RelationExpr, order: seq<OrderItem>, cat: Catalog, db: Tables)
    requires Optimized(p, r, order) && (r.Unit? || TableTree(r))
    ensures var rows := Meaning(Direct(r), cat, db);
            Meaning(p, cat, db) == Rows(SortRows(order, Scope(Direct(r), [], cat), rows.rows), rows.broken)
  {
    hide Denote, SortRows;
    var q := if order == [] then p else p.input;
    JoinsDenote(q, r, [], [], cat, db);
    JoinsScope(q, r, [], cat);
    NoOrder(Scope(Direct(r), [], cat), Denote(Direct(r), [], [], cat, db).rows);
  }

  lemma LowerItems(p: Plan, r: RelationExpr, order: seq<OrderItem>)
    requires Optimized(p, r, order) && r.Projection?
    ensures ItemsOf(p) == ItemsOf(Direct(r))
  {
  }

  /** At an ORDER BY or a projection. */
  lemma OrderedMeaning(p: Plan, r: RelationExpr, cat: Catalog, db: Tables)
    requires Optimized(p, r, []) && OrderShape(r)
    ensures !Meaning(Direct(r), cat, db).broken ==> Meaning(p, cat, db) == Meaning(Direct(r), cat, db)
    ensures ItemsOf(p) == ItemsOf(Direct(r))
  {
    hide SortRows;
    if r.Order? {
      LowerMeaning(p, r.input, r.order, cat, db);
      LowerItems(p, r.input, r.order);
    } else {
      LowerMeaning(p, r, [], cat, db);
      NoOrder(Scope(Direct(r), [], cat), Meaning(Direct(r), cat, db).rows);
      LowerItems(p, r, []);
    }
  }

  /**
   The optimizer keeps the meaning of a SELECT: a plan of the optimized shape puts out exactly the rows that the
   statement, read operator by operator, puts out, if all its expressions can be computed.
   */
  lemma MeaningKept(p: Plan, r: RelationExpr, cat: Catalog, db: Tables)
    requires Optimized(p, r, []) && SelectShape(r)
    ensures Outcome(Direct(r), cat, db).Some? ==> Outcome(p, cat, db) == Outcome(Direct(r), cat, db)
  {
    hide OutputRows, Meaning;
    OptimizedScope(p, r, [], [], cat);
    if r.First? {
      OrderedMeaning(p.input, r.input, cat, db);
      LimitMeaning(r.count, p.input, Direct(r.input), cat, db);
    } else {
      OrderedMeaning(p, r, cat, db);
    }
  }

  lemma LimitMeaning(count: Expr, p: Plan, q: Plan, cat: Catalog, db: Tables)
    ensures Meaning(p, cat, db) == Meaning(q, cat, db) ==> Meaning(Limit(count, p), cat, db) == Meaning(Limit(count, q), cat, db)
    ensures Meaning(q, cat, db).broken ==> Meaning(Limit(count, q), cat, db).broken
  {
    hide Denote, Select, Scope, SortRows, FirstN, LiteralLimit;
  }

  // ---------------------------------------------------------------- without ORDER BY

  /** Without a demanded ordering the plan means the same even where expressions fail. */
  lemma {:induction false} UnorderedMeaning(p: Plan, r: RelationExpr, cat: Catalog, db: Tables)
    requires Optimized(p, r, []) && Unordered(r)
    ensures Meaning(p, cat, db) == Meaning(Direct(r), cat, db)
    decreases r
  {
    hide Denote, Select, SortRows;
    match r
    case Projection(_, input) => UnorderedMeaning(p.input, input, cat, db);
    case Selection(c, input) =>
      UnorderedMeaning(p.input, input, cat, db);
      OptimizedScope(p.input, input, [], [], cat);
    case _ =>
      TreeMeaning(p, r, [], cat, db);
      NoOrder(Scope(Direct(r), [], cat), Meaning(Direct(r), cat, db).rows);
  }

  /** The statement has no ORDER BY, and its LIMIT is a number. */
  predicate Plain(r: RelationExpr) {
    match r
    case First(n, input) => LiteralLimit(n).Success? && input.Projection?
    case _ => r.Projection?
  }

  /** The code generator's reading of the optimized plan is the statement's own. */
  lemma AnswerIsOutcome(p: Plan, r: RelationExpr, cat: Catalog, db: Tables)
    requires Optimized(p, r, []) && SelectShape(r) && Plain(r) && InnerOnly(r)
    ensures SelectPlan(p) && Answer(p, cat, db, 0) == Outcome(Direct(r), cat, db)
  {
    hide OutputRows, Denote, Meaning, Answer, Outcome;
    var q, s := if r.First? then p.input else p, if r.First? then r.input else r;
    UnorderedMeaning(q, s, cat, db);
    RowsBelow(q.input, s.input);
    if r.First? { LimitMeaning(r.count, q, Direct(s), cat, db); }
    OptimizedScope(p, r, [], [], cat);
    ShapeJoins(r);
    MeaningLong(r, cat, db);
    AnswerOf(p, q, cat, db);
    SameOutcome(p, Direct(r), cat, db);
  }

  lemma SameOutcome(p: Plan, q: Plan, cat: Catalog, db: Tables)
    requires Meaning(p, cat, db) == Meaning(q, cat, db) && Scope(p, [], cat) == Scope(q, [], cat) && ItemsOf(p) == ItemsOf(q)
    ensures Outcome(p, cat, db) == Outcome(q, cat, db)
  {
    hide OutputRows, Meaning;
  }

  lemma AnswerOf(p: Plan, q: Plan, cat: Catalog, db: Tables)
    requires q.Project? && RowPlan(q.input) && MatchesOnly(q.input) && AllLong(Meaning(p, cat, db).rows, |Scope(p, [], cat)|)
    requires p == q || (p.Limit? && p.input == q && LiteralLimit(p.count).Success?)
    ensures SelectPlan(p) && Answer(p, cat, db, 0) == Outcome(p, cat, db)
  {
    hide OutputRows, Denote, Meaning;
    ProjectedMeaning(q, cat, db);
    RowsAreLong(p, cat, db);
    assert Source(p) == q.input && Items(p) == ItemsOf(p) == Some(q.items) && Scope(p, [], cat) == PlanScope(p, cat);
    if p.Limit? {
      LimitedMeaning(p.count, q, cat, db);
      assert Innermost(p, None) == Some(LiteralLimit(p.count).value);
    } else {
      assert Innermost(p, None) == None;
    }
  }

  lemma {:induction false} RowsBelow(p: Plan, r: RelationExpr)
    requires Optimized(p, r, []) && FilterShape(r)
    ensures RowPlan(p) && (InnerOnly(r) ==> MatchesOnly(p))
  {
    if r.Selection? {
      JoinsScope(p.input, r.input, [], map[]);
      JoinsMatch(p.input, r.input);
    } else {
      JoinsScope(p, r, [], map[]);
      JoinsMatch(p, r);
    }
  }

  lemma {:induction false} JoinsMatch(p: Plan, r: RelationExpr)
    requires SameJoins(p, r)
    ensures InnerOnly(r) ==> MatchesOnly(p)
    decreases r
  {
    if r.Join? {
      JoinsMatch(p.left, r.left);
      JoinsMatch(p.right, r.right);
    }
  }

  lemma {:induction false} RowsMeaning(p: Plan, cat: Catalog, db: Tables)
    requires RowPlan(p)
    ensures Meaning(p, cat, db) == Denote(p, [], [], cat, db)
    decreases p
  {
    hide Select;
    if p.Filter? { RowsMeaning(p.input, cat, db); }
  }

  lemma ProjectedMeaning(p: Plan, cat: Catalog, db: Tables)
    requires p.Project? && RowPlan(p.input)
    ensures Meaning(p, cat, db) == PlanRows(p, cat, db)
  {
    hide Denote;
    RowsMeaning(p.input, cat, db);
  }

  lemma LimitedMeaning(count: Expr, p: Plan, cat: Catalog, db: Tables)
    requires LiteralLimit(count).Success?
    ensures var r := Meaning(p, cat, db);
            Meaning(Limit(count, p), cat, db) == Rows(FirstN(r.rows, Some(LiteralLimit(count).value)), r.broken)
  {
  }
}
