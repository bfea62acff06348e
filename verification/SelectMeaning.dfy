/** What a SELECT statement asks for, said of its own clauses, and that this is what its relation denotes. */
module SelectMeaning {
  import opened Values
  import opened SqlSyntax
  import opened Evaluate
  import opened ValueLaws
  import opened Machine
  import opened PlanCode
  import opened PlanMeaning
  import opened SelectTheorem
  import opened Relation
  import opened StableSort
  import opened OptimizedShape
  import opened OptimizedMeaning
  import opened FromMeaning

  // ---------------------------------------------------------------- FROM

  /** The tables of a FROM clause from left to right. */
  function FromTables(t: TableRef): seq<Listed>
    decreases t, 1, 0
  {
    FirstTables(t, |t.joins|)
  }

  /** The table with those of its first n joins. */
  function FirstTables(t: TableRef, n: nat): seq<Listed>
    requires n <= |t.joins|
    decreases t, 0, n
  {
    if n == 0 then [Listed(t.name, t.alias)] else FirstTables(t, n - 1) + FromTables(t.joins[n - 1].table)
  }

  /** The joins in the order in which they are carried out; base tables stand before t. */
  function FromConditions(t: TableRef, base: nat): seq<Condition>
    decreases t, 1, 0
  {
    FirstConditions(t, |t.joins|, base)
  }

  function FirstConditions(t: TableRef, n: nat, base: nat): seq<Condition>
    requires n <= |t.joins|
    decreases t, 0, n
  {
    if n == 0 then []
    else
      var j, m := t.joins[n - 1], base + |FirstTables(t, n - 1)|;
      FirstConditions(t, n - 1, base) + FromConditions(j.table, m) + [Condition(j.joinType, j.constraint, m, m + |FromTables(j.table)|)]
  }

  /** No cross join has a constraint. */
  ghost predicate Lowerable(conds: seq<Condition>) { forall c :: c in conds ==> c.joinType == CrossJoin ==> c.constraint == NoConstraint }

  /** Every join is inner or cross. */
  ghost predicate MatchingOnly(conds: seq<Condition>) { forall c :: c in conds ==> c.joinType == InnerJoin || c.joinType == CrossJoin }

  lemma ThreeParts(a: seq<Condition>, b: seq<Condition>, own: Condition)
    ensures Lowerable(a + b + [own]) <==> Lowerable(a) && Lowerable(b) && Lowerable([own])
    ensures MatchingOnly(a + b + [own]) <==> MatchingOnly(a) && MatchingOnly(b) && MatchingOnly([own])
  {
    var all := a + b + [own];
    assert forall c :: c in all <==> c in a || c in b || c in [own];
  }

  /** The relation of a FROM clause has its tables and joins, unless a cross join carries a constraint. */
  lemma {:induction false} FromLowered(t: TableRef, n: nat, base: nat)
    requires n <= |t.joins|
    ensures var r := JoinsToRelation(t, n);
            && (r.Success? <==> Lowerable(FirstConditions(t, n, base)))
            && (r.Success? ==> TableTree(r.value) && TreeTables(r.value) == FirstTables(t, n) && TreeConditions(r.value, base) == FirstConditions(t, n, base)
                               && (InnerOnly(r.value) <==> MatchingOnly(FirstConditions(t, n, base))))
    decreases t, n
  {
    hide Lowerable, MatchingOnly, TreeConditions;
    if n == 0 {
      NoJoins(t);
    } else {
      var j, m := t.joins[n - 1], base + |FirstTables(t, n - 1)|;
      assert j in t.joins;
      FromLowered(t, n - 1, base);
      FromLowered(j.table, |j.table.joins|, m);
      var own := Condition(j.joinType, j.constraint, m, m + |FromTables(j.table)|);
      ThreeParts(FirstConditions(t, n - 1, base), FromConditions(j.table, m), own);
      OneJoin(t, n, base, own);
    }
  }

  lemma NoJoins(t: TableRef)
    ensures Lowerable([]) && MatchingOnly([]) && TreeConditions(TableScan(t.name, t.alias), 0) == []
    ensures forall base :: TreeConditions(TableScan(t.name, t.alias), base) == []
  {
  }

  lemma OneJoin(t: TableRef, n: nat, base: nat, own: Condition)
    requires 0 < n <= |t.joins| && own.joinType == t.joins[n - 1].joinType && own.constraint == t.joins[n - 1].constraint
    requires var l, r := JoinsToRelation(t, n - 1), TableRefToRelation(t.joins[n - 1].table);
             l.Success? && r.Success? ==> own.left == base + |TreeTables(l.value)| && own.end == own.left + |TreeTables(r.value)|
    ensures var l, r, all := JoinsToRelation(t, n - 1), TableRefToRelation(t.joins[n - 1].table), JoinsToRelation(t, n);
            && (all.Success? <==> l.Success? && r.Success? && Lowerable([own]))
            && (all.Success? ==> TableTree(all.value) == (TableTree(l.value) && TableTree(r.value))
                                 && TreeTables(all.value) == TreeTables(l.value) + TreeTables(r.value)
                                 && TreeConditions(all.value, base) == TreeConditions(l.value, base) + TreeConditions(r.value, own.left) + [own]
                                 && (InnerOnly(all.value) <==> InnerOnly(l.value) && InnerOnly(r.value) && MatchingOnly([own])))
  {
    assert own in [own];
  }

  function StatementTables(s: SelectStmt): seq<Listed> { if s.from.Some? then FromTables(s.from.value) else [] }

  function StatementJoins(s: SelectStmt): seq<Condition> { if s.from.Some? then FromConditions(s.from.value, 0) else [] }

  ghost predicate TablesKnown(s: SelectStmt, cat: Catalog, db: Tables) { Known(StatementTables(s), cat, db) }

  /** The sources of the statement's expressions: its tables from left to right. */
  ghost function StatementScope(s: SelectStmt, cat: Catalog): seq<RowSource>
    requires forall x :: x in StatementTables(s) ==> x.name in cat
  {
    SourcesOf(StatementTables(s), 0, cat)
  }

  /** Combinations of the rows of the tables on which the join conditions hold; None if one cannot be computed. */
  ghost function FromPart(s: SelectStmt, cat: Catalog, db: Tables): Option<seq<seq<Record>>>
    requires TablesKnown(s, cat, db)
  {
    var env, tables := StatementScope(s, cat), RowsOfTables(StatementTables(s), cat, db);
    if Fails(StatementJoins(s), env, [], tables) then None else Some(Keep(Combos([], tables), Passing(StatementJoins(s), env)))
  }

  // ---------------------------------------------------------------- WHERE, ORDER BY and LIMIT

  ghost predicate Decides(e: Expr, env: seq<RowSource>, row: seq<Record>) { |row| == |env| && exists v :: HasValue(e, env, row, v) }

  ghost predicate Accepts(e: Expr, env: seq<RowSource>, row: seq<Record>) { |row| == |env| && exists v :: HasValue(e, env, row, v) && IsTrue(v) }

  ghost function Accepting(e: Expr, env: seq<RowSource>): seq<Record> -> bool { row => Accepts(e, env, row) }

  /** Those of the rows that the condition accepts. */
  ghost function WherePart(s: SelectStmt, cat: Catalog, db: Tables): Option<seq<seq<Record>>>
    requires TablesKnown(s, cat, db)
  {
    match (FromPart(s, cat, db), s.whereClause)
    case (Some(rows), Some(e)) =>
      var env := StatementScope(s, cat);
      if exists row :: row in rows && !Decides(e, env, row) then None else Some(Keep(rows, Accepting(e, env)))
    case (part, _) => part
  }

  /** In the stable order of the keys. */
  ghost function OrderPart(s: SelectStmt, cat: Catalog, db: Tables): Option<seq<seq<Record>>>
    requires TablesKnown(s, cat, db)
  {
    match WherePart(s, cat, db)
    case None => None
    case Some(rows) => Some(if s.orderBy == [] then rows else Sorted(rows, KeyLeq(s.orderBy, StatementScope(s, cat))))
  }

  /** The first of them, as many as the limit says. */
  ghost function LimitPart(s: SelectStmt, cat: Catalog, db: Tables): Option<seq<seq<Record>>>
    requires TablesKnown(s, cat, db)
  {
    match (OrderPart(s, cat, db), s.limit)
    case (Some(rows), Some(count)) =>
      if count.Lit? && count.lit.LitInteger? && count.lit.i >= 0 then Some(if count.lit.i < |rows| then rows[..count.lit.i] else rows) else None
    case (part, _) => part
  }

  // ---------------------------------------------------------------- the projection

  /** n fields of the record, null where it has none. */
  ghost function Padded(rec: Record, n: nat): Record { seq(n, i => if 0 <= i < |rec| then rec[i] else Null) }

  ghost function AllColumns(env: seq<RowSource>, row: seq<Record>): Record
    requires |row| == |env|
  {
    if env == [] then [] else Padded(row[0], |env[0].columns|) + AllColumns(env[1..], row[1..])
  }

  ghost predicate ShowsItem(item: SelectItem, env: seq<RowSource>, row: seq<Record>, out: Record)
    requires |row| == |env|
  {
    match item.kind
    case KindWildcard => out == AllColumns(env, row)
    case KindExpr(e) => |out| == 1 && HasValue(e, env, row, out[0])
  }

  /** The values of the items one after the other. */
  ghost predicate Shows(items: seq<SelectItem>, env: seq<RowSource>, row: seq<Record>, out: Record)
    requires |row| == |env|
    decreases items
  {
    if items == [] then out == []
    else exists k: nat :: k <= |out| && ShowsItem(items[0], env, row, out[..k]) && Shows(items[1..], env, row, out[k..])
  }

  ghost predicate ShowsNothing(items: seq<SelectItem>, env: seq<RowSource>, row: seq<Record>) {
    |row| == |env| && forall out :: !Shows(items, env, row, out)
  }

  /** One result row for each row; no answer if an expression cannot be computed. */
  ghost predicate IsAnswer(s: SelectStmt, cat: Catalog, db: Tables, answer: Option<seq<Record>>)
    requires TablesKnown(s, cat, db)
  {
    var env := StatementScope(s, cat);
    match (LimitPart(s, cat, db), answer)
    case (None, _) => answer == None
    case (Some(rows), None) => exists row :: row in rows && ShowsNothing(s.projection, env, row)
    case (Some(rows), Some(result)) =>
      |result| == |rows| && forall i :: 0 <= i < |rows| ==> |rows[i]| == |env| && Shows(s.projection, env, rows[i], result[i])
  }

  // ---------------------------------------------------------------- projection as computed

  lemma {:induction false} SourceFieldsMean(src: RowSource, rec: Record, col: nat)
    requires col <= |src.columns|
    ensures SourceFields(src, rec, col) == Padded(rec, |src.columns|)[col..]
    decreases |src.columns| - col
  {
    if col < |src.columns| {
      SourceFieldsMean(src, rec, col + 1);
      assert Padded(rec, |src.columns|)[col..] == [Padded(rec, |src.columns|)[col]] + Padded(rec, |src.columns|)[col + 1..];
    }
  }

  lemma {:induction false} AllFieldsMean(env: seq<RowSource>, row: seq<Record>)
    requires |row| == |env|
    ensures AllFields(env, row) == AllColumns(env, row)
    decreases env
  {
    if env != [] {
      SourceFieldsMean(env[0], row[0], 0);
      assert Padded(row[0], |env[0].columns|)[0..] == Padded(row[0], |env[0].columns|);
      AllFieldsMean(env[1..], row[1..]);
    }
  }

  /** `*` over one table gives its rows as they are. */
  lemma WholeRow(src: RowSource, rec: Record)
    requires |rec| == |src.columns|
    ensures AllFields([src], [rec]) == rec
  {
    AllFieldsMean([src], [rec]);
    assert [src][1..] == [] && [rec][1..] == [];
    assert Padded(rec, |rec|) == rec && rec + [] == rec;
  }

  lemma ItemMeans(item: SelectItem, env: seq<RowSource>, row: seq<Record>, out: Record)
    requires |row| == |env|
    ensures ItemValues(ProjectionItems([item])[0], env, row) == Some(out) <==> ShowsItem(item, env, row, out)
  {
    hide HasValue, Eval, AllColumns, AllFields;
    match item.kind
    case KindWildcard => AllFieldsMean(env, row);
    case KindExpr(e) =>
      forall v ensures Eval(e, env, row) == Some(v) <==> HasValue(e, env, row, v) { EvalMeans(e, env, row, v); }
      if |out| == 1 { assert out == [out[0]]; }
  }

  lemma {:induction false} ItemsMean(items: seq<SelectItem>, env: seq<RowSource>, row: seq<Record>, out: Record)
    requires |row| == |env|
    ensures ItemsValues(ProjectionItems(items), env, row) == Some(out) <==> Shows(items, env, row, out)
    decreases items
  {
    hide ItemValues, ShowsItem, ItemsValues, Shows;
    if items == [] {
      NoItems(env, row, out);
    } else {
      var item, rest := items[0], items[1..];
      assert items == [item] + rest;
      forall k: nat | k <= |out|
        ensures ItemValues(ProjectionItems([item])[0], env, row) == Some(out[..k]) <==> ShowsItem(item, env, row, out[..k])
        ensures ItemsValues(ProjectionItems(rest), env, row) == Some(out[k..]) <==> Shows(rest, env, row, out[k..])
      {
        ItemMeans(item, env, row, out[..k]);
        ItemsMean(rest, env, row, out[k..]);
      }
      ItemsSplit(item, rest, env, row, out);
      ShowsSplit(item, rest, env, row, out);
    }
  }

  lemma NoItems(env: seq<RowSource>, row: seq<Record>, out: Record)
    requires |row| == |env|
    ensures ItemsValues(ProjectionItems([]), env, row) == Some(out) <==> Shows([], env, row, out)
  {
  }

  lemma ShowsSplit(item: SelectItem, rest: seq<SelectItem>, env: seq<RowSource>, row: seq<Record>, out: Record)
    requires |row| == |env|
    ensures Shows([item] + rest, env, row, out) <==> exists k: nat :: k <= |out| && ShowsItem(item, env, row, out[..k]) && Shows(rest, env, row, out[k..])
  {
    hide ShowsItem;
    assert ([item] + rest)[1..] == rest;
  }

  lemma ItemsSplit(item: SelectItem, rest: seq<SelectItem>, env: seq<RowSource>, row: seq<Record>, out: Record)
    requires |row| == |env|
    ensures ItemsValues(ProjectionItems([item] + rest), env, row) == Some(out) <==>
            exists k: nat :: k <= |out| && ItemValues(ProjectionItems([item])[0], env, row) == Some(out[..k])
                             && ItemsValues(ProjectionItems(rest), env, row) == Some(out[k..])
  {
    hide ItemValues;
    var a, b := ItemValues(ProjectionItems([item])[0], env, row), ItemsValues(ProjectionItems(rest), env, row);
    assert ([item] + rest)[1..] == rest && [item][1..] == [];
    assert ProjectionItems([item] + rest) == [ProjectionItems([item])[0]] + ProjectionItems(rest);
    assert ([ProjectionItems([item])[0]] + ProjectionItems(rest))[1..] == ProjectionItems(rest);
    if a.Some? && b.Some? && out == a.value + b.value {
      assert out[..|a.value|] == a.value && out[|a.value|..] == b.value;
    }
    if k: nat :| k <= |out| && a == Some(out[..k]) && b == Some(out[k..]) { assert out == out[..k] + out[k..]; }
  }

  /** The rows put out are those shown for each row. */
  lemma {:induction false} OutputMeans(rows: seq<seq<Record>>, items: seq<SelectItem>, env: seq<RowSource>)
    requires forall i :: 0 <= i < |rows| ==> |rows[i]| == |env|
    ensures match OutputRows(rows, Some(ProjectionItems(items)), env)
            case None => exists row :: row in rows && ShowsNothing(items, env, row)
            case Some(result) => |result| == |rows| && forall i :: 0 <= i < |rows| ==> Shows(items, env, rows[i], result[i])
    decreases rows
  {
    hide ItemsValues, Shows;
    if rows != [] {
      OutputMeans(rows[1..], items, env);
      var first := ItemsValues(ProjectionItems(items), env, rows[0]);
      forall out ensures first == Some(out) <==> Shows(items, env, rows[0], out) { ItemsMean(items, env, rows[0], out); }
      assert forall row :: row in rows[1..] ==> row in rows;
      assert first == None ==> ShowsNothing(items, env, rows[0]);
      var rest := OutputRows(rows[1..], Some(ProjectionItems(items)), env);
      if first.Some? && rest.Some? {
        var result := [first.value] + rest.value;
        forall i | 0 <= i < |rows| ensures Shows(items, env, rows[i], result[i]) {
          if i > 0 { assert rows[i] == rows[1..][i - 1] && result[i] == rest.value[i - 1]; }
        }
      }
    }
  }

  // ---------------------------------------------------------------- the relation denotes the statement

  /** The rows are those of the part, or both are a failure. */
  ghost predicate Same(r: Rows, part: Option<seq<seq<Record>>>) { if r.broken then part == None else part == Some(r.rows) }

  lemma LoweredFrom(s: SelectStmt)
    ensures var r := FromToRelation(s.from);
            && (r.Success? <==> Lowerable(StatementJoins(s)))
            && (r.Success? ==> (if s.from.None? then r.value.Unit? else TableTree(r.value)) && TreeTables(r.value) == StatementTables(s)
                               && TreeConditions(r.value, 0) == StatementJoins(s) && (InnerOnly(r.value) <==> MatchingOnly(StatementJoins(s))))
  {
    if s.from.Some? {
      FromLowered(s.from.value, |s.from.value.joins|, 0);
      hide JoinsToRelation;
      assert JoinsToRelation(s.from.value, |s.from.value.joins|) == FromToRelation(s.from);
    }
  }

  lemma FromMeans(s: SelectStmt, cat: Catalog, db: Tables)
    requires TablesKnown(s, cat, db) && FromToRelation(s.from).Success?
    ensures var p := Direct(FromToRelation(s.from).value);
            && Same(Meaning(p, cat, db), FromPart(s, cat, db)) && Scope(p, [], cat) == StatementScope(s, cat)
            && AllLong(Meaning(p, cat, db).rows, |StatementScope(s, cat)|)
  {
    hide Combos, Passes, Denote, Fails, Keep;
    LoweredFrom(s);
    var r, env := FromToRelation(s.from).value, StatementScope(s, cat);
    if s.from.None? {
      NoTables(s, cat, db);
    } else {
      hide Direct, Scope, JoinsToRelation, Meaning;
      assert env[0..|env|] == env && env[..0] == [] && [] + env == env;
      TreeRows(r, env, [], cat, db);
      ScopeIs(r, [], cat);
      TreeMeans(r, cat, db);
    }
  }

  lemma NoTables(s: SelectStmt, cat: Catalog, db: Tables)
    requires s.from.None?
    ensures Same(Meaning(OneRow, cat, db), FromPart(s, cat, db)) && AllLong(Meaning(OneRow, cat, db).rows, 0)
  {
    assert Combos([], []) == [[]];
    KeepAll(Combos([], []), Passing([], []));
  }

  lemma TreeMeans(r: RelationExpr, cat: Catalog, db: Tables)
    requires TableTree(r)
    ensures Meaning(Direct(r), cat, db) == Denote(Direct(r), [], [], cat, db)
    ensures AllLong(Meaning(Direct(r), cat, db).rows, |Scope(Direct(r), [], cat)|)
  {
    hide Denote;
    DirectRows(r);
    DenoteLong(Direct(r), [], [], cat, db);
  }

  /** The statement's relation up to its WHERE clause. */
  function Chosen(s: SelectStmt): RelationExpr
    requires FromToRelation(s.from).Success?
  {
    var base := FromToRelation(s.from).value;
    if s.whereClause.Some? then Selection(s.whereClause.value, base) else base
  }

  lemma WhereMeans(s: SelectStmt, cat: Catalog, db: Tables)
    requires TablesKnown(s, cat, db) && FromToRelation(s.from).Success?
    ensures var p := Direct(Chosen(s));
            && Same(Meaning(p, cat, db), WherePart(s, cat, db)) && Scope(p, [], cat) == StatementScope(s, cat)
            && AllLong(Meaning(p, cat, db).rows, |StatementScope(s, cat)|)
  {
    hide FromPart, Denote, Select, Keep, FromToRelation;
    FromMeans(s, cat, db);
    if s.whereClause.Some? {
      var below, e, env := Meaning(Direct(FromToRelation(s.from).value), cat, db), s.whereClause.value, StatementScope(s, cat);
      SelectLong(below.rows, Truth(e, env), |env|);
      forall row | row in below.rows
        ensures Truth(e, env)(row).Some? <==> Decides(e, env, row)
        ensures Truth(e, env)(row) == Some(true) <==> Accepts(e, env, row)
      {
        ConditionMeans(e, env, row);
      }
      SelectKept(below.rows, Truth(e, env), Accepting(e, env));
    }
  }

  lemma ConditionMeans(e: Expr, env: seq<RowSource>, row: seq<Record>)
    requires |row| == |env|
    ensures Truth(e, env)(row).Some? <==> Decides(e, env, row)
    ensures Truth(e, env)(row) == Some(true) <==> Accepts(e, env, row)
  {
    hide HasValue, Eval, IsTrue, IsTruthy;
    forall v ensures (Eval(e, env, row) == Some(v) <==> HasValue(e, env, row, v)) && (IsTruthy(v) <==> IsTrue(v)) {
      EvalMeans(e, env, row, v);
      TruthMeans(v);
    }
  }

  /** The statement's relation up to its ORDER BY clause. */
  function Ordered(s: SelectStmt): RelationExpr
    requires FromToRelation(s.from).Success?
  {
    var projected := Projection(ProjectionItems(s.projection), Chosen(s));
    if s.orderBy != [] then Order(s.orderBy, projected) else projected
  }

  lemma OrderMeans(s: SelectStmt, cat: Catalog, db: Tables)
    requires TablesKnown(s, cat, db) && FromToRelation(s.from).Success?
    ensures var p := Direct(Ordered(s));
            && Same(Meaning(p, cat, db), OrderPart(s, cat, db)) && Scope(p, [], cat) == StatementScope(s, cat)
            && AllLong(Meaning(p, cat, db).rows, |StatementScope(s, cat)|) && ItemsOf(p) == Some(ProjectionItems(s.projection))
  {
    hide WherePart, Denote, Select, FromToRelation, ProjectionItems, KeyLeq, Sorted, AllLong;
    WhereMeans(s, cat, db);
    hide Chosen, Keep;
    if s.orderBy != [] {
      SortedLong(s.orderBy, StatementScope(s, cat), Meaning(Direct(Chosen(s)), cat, db).rows, |StatementScope(s, cat)|);
    }
  }

  /** The whole relation. */
  lemma RelationIs(s: SelectStmt)
    ensures SelectToRelation(s).Success? <==> FromToRelation(s.from).Success?
    ensures SelectToRelation(s).Success? ==> SelectToRelation(s).value == if s.limit.Some? then First(s.limit.value, Ordered(s)) else Ordered(s)
  {
  }

  lemma LimitMeans(s: SelectStmt, cat: Catalog, db: Tables)
    requires TablesKnown(s, cat, db) && SelectToRelation(s).Success?
    ensures var p := Direct(SelectToRelation(s).value);
            && Same(Meaning(p, cat, db), LimitPart(s, cat, db)) && Scope(p, [], cat) == StatementScope(s, cat)
            && AllLong(Meaning(p, cat, db).rows, |StatementScope(s, cat)|) && ItemsOf(p) == Some(ProjectionItems(s.projection))
  {
    hide OrderPart, Denote, Select, FromToRelation, ProjectionItems, SelectToRelation;
    RelationIs(s);
    OrderMeans(s, cat, db);
    hide Ordered;
  }

  /** What a SELECT denotes is the answer to it. */
  lemma StatementMeans(s: SelectStmt, cat: Catalog, db: Tables)
    requires TablesKnown(s, cat, db) && SelectToRelation(s).Success?
    ensures IsAnswer(s, cat, db, Outcome(Direct(SelectToRelation(s).value), cat, db))
  {
    hide Denote, Select, SelectToRelation, LimitPart, OutputRows, Shows, ShowsNothing, Meaning;
    LimitMeans(s, cat, db);
    hide Direct, Scope;
    var p, env := Direct(SelectToRelation(s).value), StatementScope(s, cat);
    var r := Meaning(p, cat, db);
    if !r.broken { OutputMeans(r.rows, s.projection, env); }
  }

  /** There is one answer. */
  lemma AnswerOnce(s: SelectStmt, cat: Catalog, db: Tables, a: Option<seq<Record>>, b: Option<seq<Record>>)
    requires TablesKnown(s, cat, db) && IsAnswer(s, cat, db, a) && IsAnswer(s, cat, db, b)
    ensures a == b
  {
    hide LimitPart, Shows;
    var env := StatementScope(s, cat);
    if LimitPart(s, cat, db).Some? {
      var rows := LimitPart(s, cat, db).value;
      forall row, x, y | |row| == |env| && Shows(s.projection, env, row, x) && Shows(s.projection, env, row, y) ensures x == y {
        ItemsMean(s.projection, env, row, x);
        ItemsMean(s.projection, env, row, y);
      }
      if a.Some? && b.Some? {
        forall i | 0 <= i < |rows| ensures a.value[i] == b.value[i] {}
        assert a.value == b.value;
      }
    }
  }

  // ---------------------------------------------------------------- the order

  /** At the first key on which the rows differ, a has the smaller value, or the larger one if the key is descending. */
  ghost predicate KeysInOrder(order: seq<OrderItem>, env: seq<RowSource>, a: seq<Record>, b: seq<Record>) {
    exists k: nat :: k <= |order| && TiesBelow(order, env, a, b, k) && (k < |order| ==> WinsAt(order[k], env, a, b))
  }

  ghost predicate TiesBelow(order: seq<OrderItem>, env: seq<RowSource>, a: seq<Record>, b: seq<Record>, k: nat)
    requires k <= |order|
  {
    forall i :: 0 <= i < k ==> Alike(KeyValue(order[i].key, env, a), KeyValue(order[i].key, env, b))
  }

  ghost predicate WinsAt(item: OrderItem, env: seq<RowSource>, a: seq<Record>, b: seq<Record>) {
    var x, y := KeyValue(item.key, env, a), KeyValue(item.key, env, b);
    if item.descending then Before(y, x) else Before(x, y)
  }

  /** Rows are sorted by these keys. */
  lemma {:induction false} KeyOrderMeans(order: seq<OrderItem>, env: seq<RowSource>, a: seq<Record>, b: seq<Record>)
    ensures KeyLeq(order, env)(a, b) <==> KeysInOrder(order, env, a, b)
    decreases order
  {
    hide KeyValue, CompareValues, Alike, Before;
    if order == [] {
      assert TiesBelow(order, env, a, b, 0);
    } else {
      var x, y, rest := KeyValue(order[0].key, env, a), KeyValue(order[0].key, env, b), order[1..];
      ValueLaws.OrderMeans(x, y);
      KeyOrderMeans(rest, env, a, b);
      if KeysInOrder(order, env, a, b) {
        var k: nat :| k <= |order| && TiesBelow(order, env, a, b, k) && (k < |order| ==> WinsAt(order[k], env, a, b));
        if k > 0 {
          assert forall i :: 0 <= i < k - 1 ==> rest[i] == order[i + 1];
          assert TiesBelow(rest, env, a, b, k - 1);
        }
      }
      if Alike(x, y) && KeysInOrder(rest, env, a, b) {
        var k: nat :| k <= |rest| && TiesBelow(rest, env, a, b, k) && (k < |rest| ==> WinsAt(rest[k], env, a, b));
        forall i | 0 <= i < k + 1 ensures Alike(KeyValue(order[i].key, env, a), KeyValue(order[i].key, env, b)) {
          if i > 0 { assert order[i] == rest[i - 1]; }
        }
        assert TiesBelow(order, env, a, b, k + 1);
      }
      if WinsAt(order[0], env, a, b) { assert TiesBelow(order, env, a, b, 0); }
    }
  }

  /** An ORDER BY leaves the rows in the order of its keys, and rows with equal keys in the order they had. */
  lemma OrderedRows(s: SelectStmt, cat: Catalog, db: Tables, row: seq<Record>)
    requires TablesKnown(s, cat, db) && WherePart(s, cat, db).Some? && s.orderBy != []
    ensures var was, now, leq := WherePart(s, cat, db).value, OrderPart(s, cat, db).value, KeyLeq(s.orderBy, StatementScope(s, cat));
            && multiset(now) == multiset(was) && InOrder(now, leq)
            && Keep(now, Ties(leq, row)) == Keep(was, Ties(leq, row))
  {
    hide WherePart;
    var was, leq := WherePart(s, cat, db).value, KeyLeq(s.orderBy, StatementScope(s, cat));
    KeysPreorder(s.orderBy, StatementScope(s, cat));
    SortedInOrder(was, leq);
    SortStable(was, leq, row);
  }
}
