/** The rows of a FROM clause: the combinations of table rows on which every join condition holds. */
module FromMeaning {
  import opened Values
  import opened SqlSyntax
  import opened Evaluate
  import opened ValueLaws
  import opened Machine
  import opened PlanCode
  import opened PlanMeaning
  import opened Relation
  import opened StableSort
  import opened OptimizedShape
  import opened OptimizedMeaning

  // ---------------------------------------------------------------- combinations of rows

  /** recs followed by a row of each table, those that differ in an earlier table first in the order of that table. */
  function Combos(recs: seq<Record>, tables: seq<seq<Record>>): seq<seq<Record>>
    decreases |tables|, 0, 0
  {
    if tables == [] then [recs] else CombosOver(recs, tables[0], tables[1..])
  }

  function CombosOver(recs: seq<Record>, table: seq<Record>, more: seq<seq<Record>>): seq<seq<Record>>
    decreases |more|, 1, |table|
  {
    if table == [] then [] else Combos(recs + [table[0]], more) + CombosOver(recs, table[1..], more)
  }

  /** Every row of left followed by a row of each table. */
  function Spread(left: seq<seq<Record>>, tables: seq<seq<Record>>): seq<seq<Record>> {
    if left == [] then [] else Combos(left[0], tables) + Spread(left[1..], tables)
  }

  /** A combination has one row of every table. */
  ghost predicate Picks(row: seq<Record>, recs: seq<Record>, tables: seq<seq<Record>>) {
    |row| == |recs| + |tables| && row[..|recs|] == recs && forall i :: 0 <= i < |tables| ==> row[|recs| + i] in tables[i]
  }

  lemma {:induction false} CombosPick(recs: seq<Record>, tables: seq<seq<Record>>, row: seq<Record>)
    ensures row in Combos(recs, tables) <==> Picks(row, recs, tables)
    decreases |tables|, 0, 0
  {
    if tables == [] {
      assert Picks(row, recs, []) ==> row == row[..|recs|] == recs;
    } else {
      OverPick(recs, tables[0], tables[1..], row);
      assert tables == [tables[0]] + tables[1..];
      PicksFirst(row, recs, tables);
    }
  }

  lemma PicksFirst(row: seq<Record>, recs: seq<Record>, tables: seq<seq<Record>>)
    requires tables != []
    ensures Picks(row, recs, tables) <==> exists r :: r in tables[0] && Picks(row, recs + [r], tables[1..])
  {
    if Picks(row, recs, tables) {
      var r := row[|recs|];
      assert row[..|recs| + 1] == row[..|recs|] + [r];
      forall i | 0 <= i < |tables[1..]| ensures row[|recs + [r]| + i] in tables[1..][i] { assert row[|recs| + (i + 1)] in tables[i + 1]; }
      assert Picks(row, recs + [r], tables[1..]);
    }
    if r :| r in tables[0] && Picks(row, recs + [r], tables[1..]) {
      assert row[..|recs|] == row[..|recs| + 1][..|recs|] == recs;
      assert row[|recs|] == row[..|recs| + 1][|recs|] == r;
      forall i | 0 <= i < |tables| ensures row[|recs| + i] in tables[i] {
        if i > 0 { assert row[|recs + [r]| + (i - 1)] in tables[1..][i - 1]; }
      }
    }
  }

  lemma {:induction false} OverPick(recs: seq<Record>, table: seq<Record>, more: seq<seq<Record>>, row: seq<Record>)
    ensures row in CombosOver(recs, table, more) <==> exists r :: r in table && Picks(row, recs + [r], more)
    decreases |more|, 1, |table|
  {
    hide Picks;
    if table != [] {
      CombosPick(recs + [table[0]], more, row);
      OverPick(recs, table[1..], more, row);
      assert forall r :: r in table <==> r == table[0] || r in table[1..];
    }
  }

  lemma {:induction false} SpreadAppend(a: seq<seq<Record>>, b: seq<seq<Record>>, tables: seq<seq<Record>>)
    ensures Spread(a + b, tables) == Spread(a, tables) + Spread(b, tables)
    decreases a
  {
    hide Combos;
    if a == [] {
      assert a + b == b;
    } else {
      assert (a + b)[1..] == a[1..] + b;
      SpreadAppend(a[1..], b, tables);
    }
  }

  lemma SpreadOne(recs: seq<Record>, tables: seq<seq<Record>>)
    ensures Spread([recs], tables) == Combos(recs, tables)
  {
    hide Combos;
    assert [recs][1..] == [];
    assert Combos(recs, tables) + [] == Combos(recs, tables);
  }

  /** Combinations with more tables are combinations with the first of them, each followed by rows of the others. */
  lemma {:induction false} CombosSplit(recs: seq<Record>, s: seq<seq<Record>>, t: seq<seq<Record>>)
    ensures Combos(recs, s + t) == Spread(Combos(recs, s), t)
    decreases |s|, 0, 0
  {
    hide Spread;
    if s == [] {
      assert s + t == t;
      SpreadOne(recs, t);
    } else {
      assert (s + t)[0] == s[0] && (s + t)[1..] == s[1..] + t;
      OverSplit(recs, s[0], s[1..], t);
    }
  }

  lemma {:induction false} OverSplit(recs: seq<Record>, table: seq<Record>, s: seq<seq<Record>>, t: seq<seq<Record>>)
    ensures CombosOver(recs, table, s + t) == Spread(CombosOver(recs, table, s), t)
    decreases |s|, 1, |table|
  {
    if table != [] {
      hide Spread, Combos;
      CombosSplit(recs + [table[0]], s, t);
      OverSplit(recs, table[1..], s, t);
      SpreadAppend(Combos(recs + [table[0]], s), CombosOver(recs, table[1..], s), t);
    }
  }

  lemma {:induction false} SpreadHas(left: seq<seq<Record>>, tables: seq<seq<Record>>, row: seq<Record>)
    ensures row in Spread(left, tables) <==> exists l :: l in left && row in Combos(l, tables)
    decreases left
  {
    hide Combos;
    if left != [] {
      SpreadHas(left[1..], tables, row);
      assert forall l :: l in left <==> l == left[0] || l in left[1..];
      assert row in Spread(left, tables) <==> row in Combos(left[0], tables) || row in Spread(left[1..], tables);
      if row in Combos(left[0], tables) { assert left[0] in left; }
    }
  }

  lemma {:induction false} ScanCombos(recs: seq<Record>, table: seq<Record>)
    ensures Combos(recs, [table]) == Extend(recs, table)
    decreases |table|
  {
    assert [table][1..] == [] && Combos(recs, [table]) == CombosOver(recs, table, []);
    if table != [] {
      var rest := table[1..];
      ScanCombos(recs, rest);
      assert [rest][1..] == [] && Combos(recs, [rest]) == CombosOver(recs, rest, []);
      assert CombosOver(recs, table, []) == [recs + [table[0]]] + CombosOver(recs, rest, []);
      assert Extend(recs, table) == [recs + [table[0]]] + Extend(recs, rest);
    }
  }

  // ---------------------------------------------------------------- keeping rows

  lemma {:induction false} KeepAppend<T(!new)>(a: seq<T>, b: seq<T>, test: T -> bool)
    ensures Keep(a + b, test) == Keep(a, test) + Keep(b, test)
    decreases a
  {
    if a == [] {
      assert a + b == b;
    } else {
      assert (a + b)[1..] == a[1..] + b;
      KeepAppend(a[1..], b, test);
    }
  }

  lemma {:induction false} KeepSame<T(!new)>(s: seq<T>, f: T -> bool, g: T -> bool)
    requires forall e :: e in s ==> f(e) == g(e)
    ensures Keep(s, f) == Keep(s, g)
    decreases s
  {
    if s != [] { KeepSame(s[1..], f, g); }
  }

  lemma {:induction false} KeepBoth<T(!new)>(s: seq<T>, f: T -> bool, g: T -> bool, h: T -> bool)
    requires forall e :: e in s ==> h(e) == (f(e) && g(e))
    ensures Keep(Keep(s, f), g) == Keep(s, h)
    decreases s
  {
    if s != [] {
      KeepBoth(s[1..], f, g, h);
      if f(s[0]) { assert ([s[0]] + Keep(s[1..], f))[1..] == Keep(s[1..], f); } else { assert [] + Keep(s[1..], f) == Keep(s[1..], f); }
    }
  }

  /** Selecting, when nothing fails, is keeping the rows on which the test holds. */
  lemma {:induction false} SelectKept(rows: seq<seq<Record>>, test: seq<Record> -> Option<bool>, keep: seq<Record> -> bool)
    requires forall r :: r in rows ==> (keep(r) <==> test(r) == Some(true))
    ensures Select(rows, test).broken <==> exists r :: r in rows && test(r).None?
    ensures !Select(rows, test).broken ==> Select(rows, test).rows == Keep(rows, keep)
    decreases rows
  {
    if rows != [] {
      SelectKept(rows[1..], test, keep);
      assert forall r :: r in rows <==> r == rows[0] || r in rows[1..];
    }
  }

  lemma {:induction false} KeepHas<T(!new)>(s: seq<T>, test: T -> bool, e: T)
    ensures e in Keep(s, test) <==> e in s && test(e)
    decreases s
  {
    if s != [] {
      KeepHas(s[1..], test, e);
      assert e in s <==> e == s[0] || e in s[1..];
    }
  }

  lemma {:induction false} KeepAll<T(!new)>(s: seq<T>, test: T -> bool)
    requires forall e :: e in s ==> test(e)
    ensures Keep(s, test) == s
    decreases s
  {
    if s != [] {
      KeepAll(s[1..], test);
      assert s == [s[0]] + s[1..];
    }
  }

  lemma {:induction false} KeepNone<T(!new)>(s: seq<T>, test: T -> bool)
    requires forall e :: e in s ==> !test(e)
    ensures Keep(s, test) == []
    decreases s
  {
    if s != [] { KeepNone(s[1..], test); }
  }

  // ---------------------------------------------------------------- join conditions

  ghost function FieldAt(rec: Record, col: nat): Value { if col < |rec| then rec[col] else Null }

  /** The column is offered once among the first n tables and once among the others, with equal values. */
  ghost predicate EqualOn(name: string, env: seq<RowSource>, n: nat, row: seq<Record>)
    requires n <= |env| == |row|
  {
    exists i: nat, x: nat, j: nat, y: nat ::
      NamesColumn(env[..n], None, name, i, x) && NamesColumn(env[n..], None, name, j, y) && Alike(FieldAt(row[i], x), FieldAt(row[n + j], y))
  }

  ghost predicate OnBothSides(name: string, env: seq<RowSource>, n: nat)
    requires n <= |env|
  {
    (exists i: nat, x: nat :: NamesColumn(env[..n], None, name, i, x)) && (exists j: nat, y: nat :: NamesColumn(env[n..], None, name, j, y))
  }

  /** The joined rows meet the constraint; the first n tables are those on the left. */
  ghost predicate Satisfied(c: JoinConstraint, env: seq<RowSource>, n: nat, row: seq<Record>)
    requires n <= |env| == |row|
  {
    match c
    case NoConstraint => true
    case On(e) => exists v :: HasValue(e, env, row, v) && IsTrue(v)
    case Using(columns) => forall name :: name in columns ==> EqualOn(name, env, n, row)
  }

  /** The constraint can be computed. */
  ghost predicate Defined(c: JoinConstraint, env: seq<RowSource>, n: nat, row: seq<Record>)
    requires n <= |env| == |row|
  {
    match c
    case NoConstraint => true
    case On(e) => exists v :: HasValue(e, env, row, v)
    case Using(columns) => forall name :: name in columns ==> OnBothSides(name, env, n)
  }

  lemma UsingFieldMeans(sources: seq<RowSource>, recs: seq<Record>, name: string)
    requires |recs| == |sources|
    ensures UsingField(sources, recs, name).Some? <==> exists i: nat, x: nat :: NamesColumn(sources, None, name, i, x)
    ensures forall i: nat, x: nat :: NamesColumn(sources, None, name, i, x) ==> i < |recs| && UsingField(sources, recs, name) == Some(FieldAt(recs[i], x))
  {
    hide NamesColumn, ResolveColumn;
    ResolvedWhenNamed(sources, None, name);
    forall i: nat, x: nat | NamesColumn(sources, None, name, i, x)
      ensures i < |recs| && UsingField(sources, recs, name) == Some(FieldAt(recs[i], x))
    {
      NamesMeans(sources, None, name, i, x);
    }
  }

  lemma EqualOnMeans(name: string, env: seq<RowSource>, n: nat, row: seq<Record>)
    requires n <= |env| == |row|
    ensures var a, b := UsingField(env[..n], row[..n], name), UsingField(env[n..], row[n..], name);
            && (a.Some? && b.Some? <==> OnBothSides(name, env, n))
            && (EqualOn(name, env, n, row) <==> a.Some? && b.Some? && CompareValues(a.value, b.value) == Same)
  {
    hide NamesColumn, CompareValues, UsingField, Alike;
    UsingFieldMeans(env[..n], row[..n], name);
    UsingFieldMeans(env[n..], row[n..], name);
    var a, b := UsingField(env[..n], row[..n], name), UsingField(env[n..], row[n..], name);
    if a.Some? && b.Some? { OrderMeans(a.value, b.value); }
    assert forall i: nat, x: nat :: NamesColumn(env[..n], None, name, i, x) ==> i < n && a == Some(FieldAt(row[i], x));
    assert forall j: nat, y: nat :: NamesColumn(env[n..], None, name, j, y) ==> n + j < |row| && b == Some(FieldAt(row[n + j], y));
  }

  lemma {:induction false} UsingMeans(columns: seq<string>, env: seq<RowSource>, n: nat, row: seq<Record>)
    requires n <= |env| == |row|
    ensures UsingHolds(columns, env, n, row).Some? <==> Defined(Using(columns), env, n, row)
    ensures UsingHolds(columns, env, n, row) == Some(true) <==> Satisfied(Using(columns), env, n, row)
    decreases columns
  {
    hide EqualOn, OnBothSides, UsingField;
    if columns != [] {
      EqualOnMeans(columns[0], env, n, row);
      UsingMeans(columns[1..], env, n, row);
      assert forall name :: name in columns <==> name == columns[0] || name in columns[1..];
    }
  }

  /** Join conditions are computed as they should be. */
  lemma JoinHoldsMeans(c: JoinConstraint, env: seq<RowSource>, n: nat, row: seq<Record>)
    requires n <= |env| == |row|
    ensures JoinHolds(c, env, n, row).Some? <==> Defined(c, env, n, row)
    ensures JoinHolds(c, env, n, row) == Some(true) <==> Satisfied(c, env, n, row)
  {
    hide HasValue, Eval, IsTrue, IsTruthy, UsingHolds;
    match c
    case NoConstraint =>
    case On(e) =>
      forall v ensures (Eval(e, env, row) == Some(v) <==> HasValue(e, env, row, v)) && (IsTruthy(v) <==> IsTrue(v)) {
        EvalMeans(e, env, row, v);
        TruthMeans(v);
      }
    case Using(columns) => UsingMeans(columns, env, n, row);
  }

  // ---------------------------------------------------------------- the tables and conditions of a join tree

  /** A table of a FROM clause. */
  datatype Listed = Listed(name: string, alias: Option<string>)

  /** A join: its type and constraint, how many tables stand before its right side and how many up to its end. */
  datatype Condition = Condition(joinType: JoinType, constraint: JoinConstraint, left: nat, end: nat)

  function TreeTables(r: RelationExpr): seq<Listed> {
    match r
    case TableScan(t, a) => [Listed(t, a)]
    case Join(_, _, left, right) => TreeTables(left) + TreeTables(right)
    case _ => []
  }

  function TreeConditions(r: RelationExpr, base: nat): seq<Condition> {
    match r
    case Join(t, c, left, right) =>
      var m := base + |TreeTables(left)|;
      TreeConditions(left, base) + TreeConditions(right, m) + [Condition(t, c, m, m + |TreeTables(right)|)]
    case _ => []
  }

  ghost predicate Known(list: seq<Listed>, cat: Catalog, db: Tables) {
    forall x :: x in list ==> x.name in cat && cat[x.name].root in db
  }

  /** The tables as sources, the first of them number base. */
  function SourcesOf(list: seq<Listed>, base: nat, cat: Catalog): (r: seq<RowSource>)
    requires forall x :: x in list ==> x.name in cat
    ensures |r| == |list|
    ensures forall i :: 0 <= i < |r| ==> r[i] == RowSource(list[i].name, list[i].alias, base + i, cat[list[i].name].columns)
  {
    seq(|list|, i requires 0 <= i < |list| => assert list[i] in list; RowSource(list[i].name, list[i].alias, base + i, cat[list[i].name].columns))
  }

  function RowsOfTables(list: seq<Listed>, cat: Catalog, db: Tables): (r: seq<seq<Record>>)
    requires Known(list, cat, db)
    ensures |r| == |list| && forall i :: 0 <= i < |r| ==> r[i] == db[cat[list[i].name].root]
  {
    seq(|list|, i requires 0 <= i < |list| => assert list[i] in list; db[cat[list[i].name].root])
  }

  /** The rows of the first tables meet the condition. */
  ghost predicate Meets(c: Condition, env: seq<RowSource>, row: seq<Record>) {
    c.left <= c.end <= |env| && c.end <= |row| && Satisfied(c.constraint, env[..c.end], c.left, row[..c.end])
  }

  ghost predicate Passes(conds: seq<Condition>, env: seq<RowSource>, row: seq<Record>) {
    forall i :: 0 <= i < |conds| ==> Meets(conds[i], env, row)
  }

  /** Condition i cannot be computed on a combination of the tables up to its end that meets the conditions before it. */
  ghost predicate Stuck(conds: seq<Condition>, i: nat, env: seq<RowSource>, recs: seq<Record>, tables: seq<seq<Record>>, row: seq<Record>) {
    i < |conds| && Passes(conds[..i], env, row) && Blocks(conds[i], env, recs, tables, row)
  }

  /** The condition cannot be computed on the combination. */
  ghost predicate Blocks(c: Condition, env: seq<RowSource>, recs: seq<Record>, tables: seq<seq<Record>>, row: seq<Record>) {
    && c.left <= c.end <= |env| && |recs| <= c.end <= |recs| + |tables| && row in Combos(recs, tables[..c.end - |recs|])
    && |row| == c.end && !Defined(c.constraint, env[..c.end], c.left, row)
  }

  /** Some condition cannot be computed. */
  ghost predicate Fails(conds: seq<Condition>, env: seq<RowSource>, recs: seq<Record>, tables: seq<seq<Record>>) {
    exists i: nat, row :: Stuck(conds, i, env, recs, tables, row)
  }

  ghost predicate Within(conds: seq<Condition>, lo: nat, hi: nat) {
    forall c :: c in conds ==> lo <= c.left <= c.end <= hi
  }

  lemma {:induction false} ConditionsWithin(r: RelationExpr, base: nat)
    ensures Within(TreeConditions(r, base), base, base + |TreeTables(r)|)
    decreases r
  {
    if r.Join? {
      ConditionsWithin(r.left, base);
      ConditionsWithin(r.right, base + |TreeTables(r.left)|);
    }
  }

  lemma {:induction false} ScopeIs(r: RelationExpr, env: seq<RowSource>, cat: Catalog)
    requires TableTree(r) && forall x :: x in TreeTables(r) ==> x.name in cat
    ensures Scope(Direct(r), env, cat) == env + SourcesOf(TreeTables(r), |env|, cat)
    decreases r
  {
    hide TreeTables, TableTree, SourcesOf, Scope, Direct;
    TreeSides(r);
    if r.Join? {
      BothSides(r, cat);
      ScopeIs(r.left, env, cat);
      SourcesFollow(TreeTables(r.left), TreeTables(r.right), env, cat);
      ScopeIs(r.right, env + SourcesOf(TreeTables(r.left), |env|, cat), cat);
      JoinScope(r, env, cat);
    } else {
      ScanScope(r, env, cat);
    }
  }

  lemma ScanScope(r: RelationExpr, env: seq<RowSource>, cat: Catalog)
    requires r.TableScan? && forall x :: x in TreeTables(r) ==> x.name in cat
    ensures Scope(Direct(r), env, cat) == env + SourcesOf(TreeTables(r), |env|, cat)
  {
  }

  lemma SourcesFollow(a: seq<Listed>, b: seq<Listed>, env: seq<RowSource>, cat: Catalog)
    requires (forall x :: x in a + b ==> x.name in cat) && (forall x :: x in a ==> x.name in cat) && (forall x :: x in b ==> x.name in cat)
    ensures var mid := env + SourcesOf(a, |env|, cat);
            |mid| == |env| + |a| && mid + SourcesOf(b, |mid|, cat) == env + SourcesOf(a + b, |env|, cat)
  {
    hide SourcesOf;
    var mid := env + SourcesOf(a, |env|, cat);
    var split, whole := mid + SourcesOf(b, |mid|, cat), env + SourcesOf(a + b, |env|, cat);
    assert |split| == |whole|;
    forall i | 0 <= i < |split| ensures split[i] == whole[i] {
      if i >= |env| { assert (a + b)[i - |env|] == if i < |mid| then a[i - |env|] else b[i - |mid|]; }
    }
    assert split == whole;
  }

  lemma JoinScope(r: RelationExpr, env: seq<RowSource>, cat: Catalog)
    requires r.Join?
    ensures Scope(Direct(r), env, cat) == Scope(Direct(r.right), Scope(Direct(r.left), env, cat), cat)
  {
  }

  lemma TreeSides(r: RelationExpr)
    requires TableTree(r)
    ensures r.TableScan? || (r.Join? && TableTree(r.left) && TableTree(r.right) && TreeTables(r) == TreeTables(r.left) + TreeTables(r.right))
  {
  }

  // ---------------------------------------------------------------- conditions on prefixes

  lemma PassesPrefix(conds: seq<Condition>, env: seq<RowSource>, row: seq<Record>, m: nat)
    requires m <= |row| && (forall c :: c in conds ==> c.end <= m)
    ensures Passes(conds, env, row) <==> Passes(conds, env, row[..m])
  {
    hide Satisfied;
    forall i | 0 <= i < |conds| ensures Meets(conds[i], env, row) <==> Meets(conds[i], env, row[..m]) {
      assert conds[i] in conds;
      assert row[..m][..conds[i].end] == row[..conds[i].end];
    }
  }

  lemma PassesAppend(a: seq<Condition>, b: seq<Condition>, env: seq<RowSource>, row: seq<Record>)
    ensures Passes(a + b, env, row) <==> Passes(a, env, row) && Passes(b, env, row)
  {
    hide Meets;
    if Passes(a + b, env, row) {
      forall i | 0 <= i < |a| ensures Meets(a[i], env, row) { assert (a + b)[i] == a[i]; }
      forall i | 0 <= i < |b| ensures Meets(b[i], env, row) { assert (a + b)[|a| + i] == b[i]; }
    }
  }

  lemma StuckAmong(a: seq<Condition>, b: seq<Condition>, i: nat, env: seq<RowSource>, recs: seq<Record>, tables: seq<seq<Record>>, row: seq<Record>)
    ensures i < |a| ==> (Stuck(a + b, i, env, recs, tables, row) <==> Stuck(a, i, env, recs, tables, row))
    ensures i >= |a| ==> (Stuck(a + b, i, env, recs, tables, row) <==> Passes(a, env, row) && Stuck(b, i - |a|, env, recs, tables, row))
  {
    hide Blocks, Passes;
    if i < |a| {
      assert (a + b)[..i] == a[..i];
    } else if i < |a + b| {
      assert (a + b)[..i] == a + b[..i - |a|];
      PassesAppend(a, b[..i - |a|], env, row);
    }
  }

  /** More conditions: a failure is one of the first, or one of the others where the first are met. */
  lemma FailsMore(a: seq<Condition>, b: seq<Condition>, env: seq<RowSource>, recs: seq<Record>, tables: seq<seq<Record>>)
    ensures Fails(a + b, env, recs, tables) <==>
            || Fails(a, env, recs, tables)
            || exists i: nat, row :: Passes(a, env, row) && Stuck(b, i, env, recs, tables, row)
  {
    hide Stuck, Passes;
    forall i: nat, row
      ensures i < |a| ==> (Stuck(a + b, i, env, recs, tables, row) <==> Stuck(a, i, env, recs, tables, row))
      ensures i >= |a| ==> (Stuck(a + b, i, env, recs, tables, row) <==> Passes(a, env, row) && Stuck(b, i - |a|, env, recs, tables, row))
    {
      StuckAmong(a, b, i, env, recs, tables, row);
    }
    forall i: nat, row | Stuck(a, i, env, recs, tables, row) ensures i < |a| { StuckIndex(a, i, env, recs, tables, row); }
    forall i: nat, row | Passes(a, env, row) && Stuck(b, i, env, recs, tables, row) ensures Stuck(a + b, |a| + i, env, recs, tables, row) {
      assert |a| + i - |a| == i;
      StuckAmong(a, b, |a| + i, env, recs, tables, row);
    }
  }

  lemma StuckIndex(a: seq<Condition>, i: nat, env: seq<RowSource>, recs: seq<Record>, tables: seq<seq<Record>>, row: seq<Record>)
    requires Stuck(a, i, env, recs, tables, row)
    ensures i < |a|
  {
  }

  lemma FailsLast(inner: seq<Condition>, own: Condition, env: seq<RowSource>, recs: seq<Record>, tables: seq<seq<Record>>)
    ensures Fails(inner + [own], env, recs, tables) <==>
            Fails(inner, env, recs, tables) || exists row :: Passes(inner, env, row) && Blocks(own, env, recs, tables, row)
  {
    hide Blocks, Passes, Fails;
    FailsMore(inner, [own], env, recs, tables);
    forall i: nat, row ensures Stuck([own], i, env, recs, tables, row) <==> i == 0 && Blocks(own, env, recs, tables, row) {
      assert Passes([own][..0], env, row) by { NoneToPass(env, row); }
    }
    if row :| Passes(inner, env, row) && Blocks(own, env, recs, tables, row) { assert Stuck([own], 0, env, recs, tables, row); }
  }

  lemma NoneToPass(env: seq<RowSource>, row: seq<Record>)
    ensures forall own: Condition :: [own][..0] == [] && Passes([own][..0], env, row)
  {
  }

  // ---------------------------------------------------------------- the rows of a join tree

  /** Rows that are the combinations of recs with the tables that meet the conditions, or a failure if one is stuck. */
  ghost predicate AreRows(d: Rows, conds: seq<Condition>, env: seq<RowSource>, recs: seq<Record>, tables: seq<seq<Record>>) {
    && (d.broken <==> Fails(conds, env, recs, tables))
    && (!d.broken ==> d.rows == Keep(Combos(recs, tables), Passing(conds, env)))
  }

  ghost function Passing(conds: seq<Condition>, env: seq<RowSource>): seq<Record> -> bool { row => Passes(conds, env, row) }

  lemma {:induction false} CombosLong(recs: seq<Record>, tables: seq<seq<Record>>, row: seq<Record>)
    requires row in Combos(recs, tables)
    ensures |row| == |recs| + |tables| && row[..|recs|] == recs
  {
    CombosPick(recs, tables, row);
  }

  /** The right rows for one left row. */
  lemma OneLeft(right: Rows, inner: seq<Condition>, own: Condition, env: seq<RowSource>, l: seq<Record>, tables: seq<seq<Record>>)
    requires AreRows(right, inner, env, l, tables) && own.end == |l| + |tables| && own.left == |l| && own.end <= |env|
    ensures AreRows(Then(Select(right.rows, Joins(own.constraint, env[..own.end], own.left)), right.broken), inner + [own], env, l, tables)
  {
    hide Fails, Combos, Select, Passes, Blocks, Joins;
    var test := Joins(own.constraint, env[..own.end], own.left);
    FailsLast(inner, own, env, l, tables);
    if !right.broken {
      var combos := Combos(l, tables);
      var keep, before := (row: seq<Record>) => test(row) == Some(true), Passing(inner, env);
      SelectKept(right.rows, test, keep);
      forall row ensures row in combos ==> (test(row) == None <==> Blocks(own, env, l, tables, row)) && (Passes(inner + [own], env, row) <==> Passes(inner, env, row) && keep(row)) {
        if row in combos { OwnTest(inner, own, env, l, tables, row); }
      }
      forall row | Blocks(own, env, l, tables, row) ensures row in combos { BlocksCombo(own, env, l, tables, row); }
      KeepBoth(combos, before, keep, Passing(inner + [own], env));
      forall row ensures row in right.rows <==> row in combos && Passes(inner, env, row) { KeepHas(combos, before, row); }
    }
  }

  lemma BlocksCombo(own: Condition, env: seq<RowSource>, l: seq<Record>, tables: seq<seq<Record>>, row: seq<Record>)
    requires own.end == |l| + |tables| && Blocks(own, env, l, tables, row)
    ensures row in Combos(l, tables)
  {
    hide Combos, Defined;
    assert tables[..|tables|] == tables;
  }

  lemma OwnTest(inner: seq<Condition>, own: Condition, env: seq<RowSource>, l: seq<Record>, tables: seq<seq<Record>>, row: seq<Record>)
    requires own.end == |l| + |tables| && own.left == |l| && own.end <= |env| && row in Combos(l, tables)
    ensures var verdict := Joins(own.constraint, env[..own.end], own.left)(row);
            && (verdict == None <==> Blocks(own, env, l, tables, row))
            && (Passes(inner + [own], env, row) <==> Passes(inner, env, row) && verdict == Some(true))
  {
    hide Combos, Defined, Satisfied, JoinHolds;
    CombosLong(l, tables, row);
    JoinHoldsMeans(own.constraint, env[..own.end], own.left, row);
    PassesAppend(inner, [own], env, row);
    assert row[..own.end] == row && tables[..|tables|] == tables;
    assert Passes([own], env, row) <==> Meets([own][0], env, row);
  }

  /** The right rows for all left rows. */
  lemma {:induction false} AllLeft(left: seq<seq<Record>>, r: Plan, own: Condition, inner: seq<Condition>, env: seq<RowSource>, tables: seq<seq<Record>>, cat: Catalog, db: Tables)
    requires own.left <= own.end <= |env| && own.end == own.left + |tables| && Scope(r, env[..own.left], cat) == env[..own.end]
    requires forall l :: l in left ==> |l| == own.left && AreRows(Denote(r, env[..own.left], l, cat, db), inner, env, l, tables)
    ensures var d := DenoteRight(left, r, own.constraint, env[..own.left], cat, db);
            && (d.broken <==> exists l :: l in left && Fails(inner + [own], env, l, tables))
            && (!d.broken ==> d.rows == Keep(Spread(left, tables), Passing(inner + [own], env)))
    decreases |left|
  {
    hide Fails, Combos, Select, Passes, Joins, Denote, Scope, AreRows;
    if left != [] {
      var l, rest := left[0], left[1..];
      assert l in left;
      assert forall x :: x in left <==> x == l || x in rest;
      var right := Denote(r, env[..own.left], l, cat, db);
      var first := Then(Select(right.rows, Joins(own.constraint, env[..own.end], own.left)), right.broken);
      OneLeft(right, inner, own, env, l, tables);
      RowsThere(first, inner + [own], env, l, tables);
      if !first.broken {
        AllLeft(rest, r, own, inner, env, tables, cat, db);
        KeepAppend(Combos(l, tables), Spread(rest, tables), Passing(inner + [own], env));
      }
    }
  }

  lemma RowsThere(d: Rows, conds: seq<Condition>, env: seq<RowSource>, recs: seq<Record>, tables: seq<seq<Record>>)
    requires AreRows(d, conds, env, recs, tables)
    ensures d.broken <==> Fails(conds, env, recs, tables)
    ensures !d.broken ==> d.rows == Keep(Combos(recs, tables), Passing(conds, env))
  {
  }

  lemma PrefixSplit(recs: seq<Record>, s: seq<seq<Record>>, t: seq<seq<Record>>, k: nat, row: seq<Record>)
    requires k <= |t|
    ensures row in Combos(recs, (s + t)[..|s| + k]) <==> exists l :: l in Combos(recs, s) && row in Combos(l, t[..k])
  {
    hide Combos, Spread;
    assert (s + t)[..|s| + k] == s + t[..k];
    CombosSplit(recs, s, t[..k]);
    SpreadHas(Combos(recs, s), t[..k], row);
  }

  /** A combination of all tables that a condition of the right ones blocks begins with one of the left tables. */
  lemma BlocksFrom(c: Condition, env: seq<RowSource>, recs: seq<Record>, s: seq<seq<Record>>, t: seq<seq<Record>>, row: seq<Record>) returns (l: seq<Record>)
    requires |recs| + |s| <= c.left && Blocks(c, env, recs, s + t, row)
    ensures l in Combos(recs, s) && Blocks(c, env, l, t, row)
  {
    hide Combos, Defined;
    PrefixSplit(recs, s, t, c.end - |recs| - |s|, row);
    l :| l in Combos(recs, s) && row in Combos(l, t[..c.end - |recs| - |s|]);
    CombosLong(recs, s, l);
  }

  lemma BlocksTo(c: Condition, env: seq<RowSource>, recs: seq<Record>, s: seq<seq<Record>>, t: seq<seq<Record>>, l: seq<Record>, row: seq<Record>)
    requires l in Combos(recs, s) && Blocks(c, env, l, t, row)
    ensures Blocks(c, env, recs, s + t, row)
  {
    hide Combos, Defined;
    CombosLong(recs, s, l);
    PrefixSplit(recs, s, t, c.end - |l|, row);
  }

  lemma BlocksLeft(c: Condition, env: seq<RowSource>, recs: seq<Record>, s: seq<seq<Record>>, t: seq<seq<Record>>, row: seq<Record>)
    requires c.end <= |recs| + |s|
    ensures Blocks(c, env, recs, s + t, row) <==> Blocks(c, env, recs, s, row)
  {
    hide Combos, Defined;
    if |recs| <= c.end { assert (s + t)[..c.end - |recs|] == s[..c.end - |recs|]; }
  }

  /** Failures of a join are those of its left side, and those of its right side for left rows that are there. */
  lemma JoinFails(a: seq<Condition>, b: seq<Condition>, env: seq<RowSource>, recs: seq<Record>, s: seq<seq<Record>>, t: seq<seq<Record>>)
    requires Within(a, |recs|, |recs| + |s|) && Within(b, |recs| + |s|, |recs| + |s| + |t|)
    ensures Fails(a + b, env, recs, s + t) <==>
            Fails(a, env, recs, s) || exists l :: l in Keep(Combos(recs, s), Passing(a, env)) && Fails(b, env, l, t)
  {
    hide Fails, Stuck, Keep, Combos, Passes;
    FailsMore(a, b, env, recs, s + t);
    FailsLeft(a, env, recs, s, t);
    if i: nat, row :| Passes(a, env, row) && Stuck(b, i, env, recs, s + t, row) {
      var l := StuckFrom(a, b, i, env, recs, s, t, row);
      assert l in Keep(Combos(recs, s), Passing(a, env)) && Fails(b, env, l, t);
    }
    if l :| l in Keep(Combos(recs, s), Passing(a, env)) && Fails(b, env, l, t) {
      var i, row := StuckTo(a, b, env, recs, s, t, l);
      assert Passes(a, env, row) && Stuck(b, i, env, recs, s + t, row);
    }
  }

  lemma FailsLeft(a: seq<Condition>, env: seq<RowSource>, recs: seq<Record>, s: seq<seq<Record>>, t: seq<seq<Record>>)
    requires Within(a, |recs|, |recs| + |s|)
    ensures Fails(a, env, recs, s + t) <==> Fails(a, env, recs, s)
  {
    hide Blocks, Passes;
    forall i: nat, row ensures Stuck(a, i, env, recs, s + t, row) <==> Stuck(a, i, env, recs, s, row) {
      if i < |a| {
        assert a[i] in a;
        BlocksLeft(a[i], env, recs, s, t, row);
      }
    }
  }

  lemma StuckFrom(a: seq<Condition>, b: seq<Condition>, i: nat, env: seq<RowSource>, recs: seq<Record>, s: seq<seq<Record>>, t: seq<seq<Record>>, row: seq<Record>)
    returns (l: seq<Record>)
    requires Within(a, |recs|, |recs| + |s|) && Within(b, |recs| + |s|, |recs| + |s| + |t|)
    requires Passes(a, env, row) && Stuck(b, i, env, recs, s + t, row)
    ensures l in Keep(Combos(recs, s), Passing(a, env)) && Fails(b, env, l, t)
  {
    hide Blocks, Combos, Passes;
    assert b[i] in b;
    l := BlocksFrom(b[i], env, recs, s, t, row);
    LeftPart(a, b[i], env, recs, s, t, l, row);
    KeepHas(Combos(recs, s), Passing(a, env), l);
    assert Stuck(b, i, env, l, t, row);
  }

  lemma StuckTo(a: seq<Condition>, b: seq<Condition>, env: seq<RowSource>, recs: seq<Record>, s: seq<seq<Record>>, t: seq<seq<Record>>, l: seq<Record>)
    returns (i: nat, row: seq<Record>)
    requires Within(a, |recs|, |recs| + |s|)
    requires l in Keep(Combos(recs, s), Passing(a, env)) && Fails(b, env, l, t)
    ensures Passes(a, env, row) && Stuck(b, i, env, recs, s + t, row)
  {
    hide Blocks, Combos, Passes;
    i, row :| Stuck(b, i, env, l, t, row);
    KeepHas(Combos(recs, s), Passing(a, env), l);
    LeftPart(a, b[i], env, recs, s, t, l, row);
    BlocksTo(b[i], env, recs, s, t, l, row);
  }

  lemma LeftPart(a: seq<Condition>, c: Condition, env: seq<RowSource>, recs: seq<Record>, s: seq<seq<Record>>, t: seq<seq<Record>>, l: seq<Record>, row: seq<Record>)
    requires l in Combos(recs, s) && Blocks(c, env, l, t, row) && Within(a, |recs|, |recs| + |s|)
    ensures Passes(a, env, row) <==> Passes(a, env, l)
  {
    hide Combos, Passes, Defined;
    CombosLong(recs, s, l);
    CombosLong(l, t[..c.end - |l|], row);
    PassesPrefix(a, env, row, |l|);
  }

  /** Left rows that fail a condition lead to no row. */
  lemma {:induction false} SpreadKept(left: seq<seq<Record>>, tables: seq<seq<Record>>, m: nat, a: seq<Condition>, b: seq<Condition>, env: seq<RowSource>)
    requires (forall l :: l in left ==> |l| == m) && (forall c :: c in a ==> c.end <= m)
    ensures Keep(Spread(Keep(left, Passing(a, env)), tables), Passing(b, env)) == Keep(Spread(left, tables), Passing(a + b, env))
    decreases left
  {
    hide Combos, Passes;
    if left != [] {
      var l, rest := left[0], left[1..];
      var kept := Keep(rest, Passing(a, env));
      SpreadKept(rest, tables, m, a, b, env);
      forall row | row in Combos(l, tables) ensures Passes(a + b, env, row) <==> Passes(a, env, l) && Passes(b, env, row) {
        CombosLong(l, tables, row);
        PassesPrefix(a, env, row, m);
        PassesAppend(a, b, env, row);
      }
      KeepAppend(Combos(l, tables), Spread(rest, tables), Passing(a + b, env));
      if Passes(a, env, l) {
        KeepSame(Combos(l, tables), Passing(b, env), Passing(a + b, env));
        assert ([l] + kept)[1..] == kept;
        KeepAppend(Combos(l, tables), Spread(kept, tables), Passing(b, env));
      } else {
        KeepNone(Combos(l, tables), Passing(a + b, env));
        assert [] + kept == kept;
      }
    }
  }

  /** The rows a tree of joins denotes are the combinations of the rows of its tables on which all its conditions hold. */
  lemma {:induction false} TreeRows(r: RelationExpr, env: seq<RowSource>, recs: seq<Record>, cat: Catalog, db: Tables)
    requires TableTree(r) && Known(TreeTables(r), cat, db) && |recs| + |TreeTables(r)| <= |env|
    requires env[|recs|..|recs| + |TreeTables(r)|] == SourcesOf(TreeTables(r), |recs|, cat)
    ensures AreRows(Denote(Direct(r), env[..|recs|], recs, cat, db), TreeConditions(r, |recs|), env, recs, RowsOfTables(TreeTables(r), cat, db))
    decreases r
  {
    hide Combos, Passes, Select, Keep, Denote, DenoteJoin, AreRows, Scope, SourcesOf, RowsOfTables, TreeConditions, Direct, Within, TreeTables, TableTree;
    TreeSides(r);
    if r.TableScan? {
      TableRows(r, env, recs, cat, db);
    } else {
      var tl, tr := TreeTables(r.left), TreeTables(r.right);
      var m := |recs| + |tl|;
      JoinScopes(r, env, |recs|, cat);
      TreeRows(r.left, env, recs, cat, db);
      var s, t := RowsOfTables(tl, cat, db), RowsOfTables(tr, cat, db);
      RowsAppend(tl, tr, cat, db);
      forall l: seq<Record> | |l| == m
        ensures AreRows(Denote(Direct(r.right), env[..m], l, cat, db), TreeConditions(r.right, m), env, l, t)
      {
        TreeRows(r.right, env, l, cat, db);
      }
      var own := Condition(r.joinType, r.constraint, m, m + |tr|);
      ConditionsWithin(r.left, |recs|);
      ConditionsWithin(r.right, m);
      JoinDenoted(r, env[..|recs|], recs, cat, db);
      JoinRows(Direct(r.left), Direct(r.right), TreeConditions(r.left, |recs|), TreeConditions(r.right, m), own, env, recs, s, t, cat, db);
    }
  }

  lemma RowsAppend(a: seq<Listed>, b: seq<Listed>, cat: Catalog, db: Tables)
    requires Known(a + b, cat, db)
    ensures Known(a, cat, db) && Known(b, cat, db)
    ensures RowsOfTables(a + b, cat, db) == RowsOfTables(a, cat, db) + RowsOfTables(b, cat, db)
  {
  }

  /** The sources of the left and of the right side. */
  lemma JoinScopes(r: RelationExpr, env: seq<RowSource>, base: nat, cat: Catalog)
    requires TableTree(r) && r.Join? && (forall x :: x in TreeTables(r) ==> x.name in cat) && base + |TreeTables(r)| <= |env|
    requires env[base..base + |TreeTables(r)|] == SourcesOf(TreeTables(r), base, cat)
    ensures var m := base + |TreeTables(r.left)|; var end := m + |TreeTables(r.right)|;
            && env[base..m] == SourcesOf(TreeTables(r.left), base, cat) && env[m..end] == SourcesOf(TreeTables(r.right), m, cat)
            && Scope(Direct(r.left), env[..base], cat) == env[..m] && Scope(Direct(r.right), env[..m], cat) == env[..end]
  {
    hide Scope, TreeTables, TableTree, SourcesOf, Direct;
    var tl, tr := TreeTables(r.left), TreeTables(r.right);
    var m, end := base + |tl|, base + |tl| + |tr|;
    BothSides(r, cat);
    SourcesSplit(tl, tr, base, cat);
    Slices(env, base, m, end);
    ScopeIs(r.left, env[..base], cat);
    ScopeIs(r.right, env[..m], cat);
  }

  lemma BothSides(r: RelationExpr, cat: Catalog)
    requires TableTree(r) && r.Join? && forall x :: x in TreeTables(r) ==> x.name in cat
    ensures TableTree(r.left) && TableTree(r.right) && TreeTables(r) == TreeTables(r.left) + TreeTables(r.right)
    ensures (forall x :: x in TreeTables(r.left) ==> x.name in cat) && (forall x :: x in TreeTables(r.right) ==> x.name in cat)
  {
  }

  lemma SourcesSplit(a: seq<Listed>, b: seq<Listed>, base: nat, cat: Catalog)
    requires forall x :: x in a + b ==> x.name in cat
    ensures (forall x :: x in a ==> x.name in cat) && (forall x :: x in b ==> x.name in cat)
    ensures SourcesOf(a + b, base, cat)[..|a|] == SourcesOf(a, base, cat) && SourcesOf(a + b, base, cat)[|a|..] == SourcesOf(b, base + |a|, cat)
  {
    assert forall x :: x in a ==> x in a + b;
    assert forall x :: x in b ==> x in a + b;
  }

  lemma Slices<T>(s: seq<T>, i: nat, j: nat, k: nat)
    requires i <= j <= k <= |s|
    ensures s[i..k][..j - i] == s[i..j] && s[i..k][j - i..] == s[j..k]
    ensures s[..i] + s[i..j] == s[..j] && s[..j] + s[j..k] == s[..k]
  {
  }

  lemma TableRows(r: RelationExpr, env: seq<RowSource>, recs: seq<Record>, cat: Catalog, db: Tables)
    requires r.TableScan? && Known(TreeTables(r), cat, db) && |recs| + |TreeTables(r)| <= |env|
    ensures AreRows(Denote(Direct(r), env[..|recs|], recs, cat, db), TreeConditions(r, |recs|), env, recs, RowsOfTables(TreeTables(r), cat, db))
  {
    hide Combos;
    var table := db[cat[r.table].root];
    assert RowsOfTables(TreeTables(r), cat, db) == [table];
    ScanCombos(recs, table);
    KeepAll(Combos(recs, [table]), Passing([], env));
  }

  lemma JoinRows(l: Plan, r: Plan, a: seq<Condition>, inner: seq<Condition>, own: Condition, env: seq<RowSource>, recs: seq<Record>,
                 s: seq<seq<Record>>, t: seq<seq<Record>>, cat: Catalog, db: Tables)
    requires own.left == |recs| + |s| && own.end == own.left + |t| && own.end <= |env|
    requires Within(a, |recs|, own.left) && Within(inner, own.left, own.end)
    requires Scope(l, env[..|recs|], cat) == env[..own.left] && Scope(r, env[..own.left], cat) == env[..own.end]
    requires AreRows(Denote(l, env[..|recs|], recs, cat, db), a, env, recs, s)
    requires forall x: seq<Record> :: |x| == own.left ==> AreRows(Denote(r, env[..own.left], x, cat, db), inner, env, x, t)
    ensures AreRows(DenoteJoin(l, r, own.constraint, env[..|recs|], recs, cat, db), a + (inner + [own]), env, recs, s + t)
  {
    hide Combos, Passes, Select, Keep, DenoteRight, Scope, Fails, AreRows, Within, Denote;
    var left := Denote(l, env[..|recs|], recs, cat, db);
    var right := DenoteRight(left.rows, r, own.constraint, env[..own.left], cat, db);
    WithinMore(inner, own, own.left);
    if !left.broken {
      LeftLong(left, a, env, recs, s);
      AllLeft(left.rows, r, own, inner, env, t, cat, db);
    }
    Joined(left, right, a, inner + [own], env, recs, s, t);
  }

  /** One join of the tree. */
  lemma JoinDenoted(r: RelationExpr, env: seq<RowSource>, recs: seq<Record>, cat: Catalog, db: Tables)
    requires r.Join?
    ensures Denote(Direct(r), env, recs, cat, db) == DenoteJoin(Direct(r.left), Direct(r.right), r.constraint, env, recs, cat, db)
    ensures var m := |recs| + |TreeTables(r.left)|; var own := Condition(r.joinType, r.constraint, m, m + |TreeTables(r.right)|);
            TreeConditions(r, |recs|) == TreeConditions(r.left, |recs|) + (TreeConditions(r.right, m) + [own])
  {
    hide DenoteJoin;
  }

  lemma WithinMore(inner: seq<Condition>, own: Condition, m: nat)
    requires own.left == m && Within(inner, m, own.end) && m <= own.end
    ensures Within(inner + [own], m, own.end)
  {
  }

  lemma LeftLong(left: Rows, a: seq<Condition>, env: seq<RowSource>, recs: seq<Record>, s: seq<seq<Record>>)
    requires AreRows(left, a, env, recs, s) && !left.broken
    ensures forall l :: l in left.rows ==> |l| == |recs| + |s|
  {
    hide Combos, Passes, Keep;
    forall l | l in left.rows ensures |l| == |recs| + |s| {
      KeepHas(Combos(recs, s), Passing(a, env), l);
      CombosLong(recs, s, l);
    }
  }

  /** The rows of a join from those of its left side and those found to the right of them. */
  lemma Joined(left: Rows, right: Rows, a: seq<Condition>, b: seq<Condition>, env: seq<RowSource>, recs: seq<Record>, s: seq<seq<Record>>, t: seq<seq<Record>>)
    requires AreRows(left, a, env, recs, s) && Within(a, |recs|, |recs| + |s|) && Within(b, |recs| + |s|, |recs| + |s| + |t|)
    requires !left.broken ==> (right.broken <==> exists l :: l in left.rows && Fails(b, env, l, t))
                              && (!right.broken ==> right.rows == Keep(Spread(left.rows, t), Passing(b, env)))
    ensures AreRows(Then(right, left.broken), a + b, env, recs, s + t)
  {
    hide Combos, Passes, Keep, Fails, Spread;
    JoinFails(a, b, env, recs, s, t);
    if !left.broken {
      forall l | l in Combos(recs, s) ensures |l| == |recs| + |s| { CombosLong(recs, s, l); }
      SpreadKept(Combos(recs, s), t, |recs| + |s|, a, b, env);
      CombosSplit(recs, s, t);
    }
  }
}
