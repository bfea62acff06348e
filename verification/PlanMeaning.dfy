/** What a plan denotes: rows in nested-iteration order, and what becomes of them. */
module PlanMeaning {
  import opened Values
  import opened SqlSyntax
  import opened Evaluate
  import opened Machine
  import opened PlanCode

  /** All columns of all sources, as many as each table declares. */
  function AllFields(env: seq<RowSource>, recs: seq<Record>): Record
    requires |recs| == |env|
  {
    if env == [] then [] else SourceFields(env[0], recs[0], 0) + AllFields(env[1..], recs[1..])
  }

  function SourceFields(s: RowSource, rec: Record, col: nat): Record
    requires col <= |s.columns|
    decreases |s.columns| - col
  {
    if col == |s.columns| then [] else [Field(rec, col)] + SourceFields(s, rec, col + 1)
  }

  function ItemValues(item: ProjectionItem, env: seq<RowSource>, recs: seq<Record>): Option<Record>
    requires |recs| == |env|
  {
    match item
    case Wildcard => Some(AllFields(env, recs))
    case ExprItem(e, _) =>
      match Eval(e, env, recs)
      case None => None
      case Some(v) => Some([v])
  }

  /** One result row; None when an expression in it cannot be computed. */
  function ItemsValues(items: seq<ProjectionItem>, env: seq<RowSource>, recs: seq<Record>): Option<Record>
    requires |recs| == |env|
    decreases items
  {
    if items == [] then Some([])
    else match (ItemValues(items[0], env, recs), ItemsValues(items[1..], env, recs))
         case (Some(a), Some(b)) => Some(a + b)
         case _ => None
  }

  function LeftRecs(recs: seq<Record>, n: nat): seq<Record> { if n <= |recs| then recs[..n] else recs }

  function RightRecs(recs: seq<Record>, n: nat): seq<Record> { if n <= |recs| then recs[n..] else [] }

  function UsingField(sources: seq<RowSource>, recs: seq<Record>, name: string): Option<Value>
    requires |recs| == |sources|
  {
    match ResolveColumn(sources, None, name)
    case Failure(_) => None
    case Success(r) => Some(Field(recs[r.source], r.col))
  }

  function UsingHolds(columns: seq<string>, env: seq<RowSource>, n: nat, recs: seq<Record>): Option<bool>
    requires |recs| == |env|
    decreases columns
  {
    if columns == [] then Some(true)
    else
      match (UsingField(LeftSources(env, n), LeftRecs(recs, n), columns[0]),
             UsingField(RightSources(env, n), RightRecs(recs, n), columns[0]),
             UsingHolds(columns[1..], env, n, recs))
      case (Some(a), Some(b), Some(rest)) => Some(CompareValues(a, b) == Same && rest)
      case _ => None
  }

  /** Whether joined rows satisfy the constraint; the first n sources are those on the left. */
  function JoinHolds(c: JoinConstraint, env: seq<RowSource>, n: nat, recs: seq<Record>): Option<bool>
    requires |recs| == |env|
  {
    match c
    case NoConstraint => Some(true)
    case On(e) =>
      (match Eval(e, env, recs)
       case None => None
       case Some(v) => Some(IsTruthy(v)))
    case Using(columns) => UsingHolds(columns, env, n, recs)
  }

  // ---------------------------------------------------------------- rows pushed to a consumer

  /** The result rows so far, and whether an expression could not be computed. */
  datatype Flow = Go(rows: seq<Record>) | Broken(rows: seq<Record>)

  function EmitRow(limit: Option<nat>, row: Option<Record>, results: seq<Record>): Flow {
    if limit.Some? && |results| >= limit.value then Go(results)
    else match row
         case None => Broken(results)
         case Some(r) => Go(results + [r])
  }

  function Push(p: Plan, env: seq<RowSource>, recs: seq<Record>, k: Consumer, cat: Catalog, db: Tables, results: seq<Record>): Flow
    requires |recs| == |env|
    decreases PlanSize(p) + Weight(k), 2, 0
  {
    match p
    case OneRow => Consume(k, env, recs, cat, db, results)
    case SeqScan(table, alias) =>
      if table !in cat || cat[table].root !in db then Broken(results)
      else PushRows(db[cat[table].root], env + [ScanSource(table, alias, |env|, cat[table])], recs, k, cat, db, results)
    case Filter(cond, input) => Push(input, env, recs, WhenThen(cond, k), cat, db, results)
    case Project(items, input) => Push(input, env, recs, ProjectThen(items, k), cat, db, results)
    case NestedLoopJoin(_, c, l, r) => Push(l, env, recs, JoinLeft(r, c, k), cat, db, results)
    case HashJoin(_, c, l, r) => Push(l, env, recs, JoinLeft(r, c, k), cat, db, results)
    case Limit(count, input) =>
      (match LiteralLimit(count)
       case Failure(_) => Broken(results)
       case Success(limit) => Push(input, env, recs, EmitAll(Some(limit)), cat, db, results))
    case Sort(_, _) => Broken(results)
  }

  /** One table row after the other. */
  function PushRows(rows: seq<Record>, env: seq<RowSource>, recs: seq<Record>, k: Consumer, cat: Catalog, db: Tables, results: seq<Record>): Flow
    requires |recs| + 1 == |env|
    decreases 1 + Weight(k), 1, |rows|
  {
    if rows == [] then Go(results)
    else match Consume(k, env, recs + [rows[0]], cat, db, results)
         case Broken(r) => Broken(r)
         case Go(r) => PushRows(rows[1..], env, recs, k, cat, db, r)
  }

  function Consume(k: Consumer, env: seq<RowSource>, recs: seq<Record>, cat: Catalog, db: Tables, results: seq<Record>): Flow
    requires |recs| == |env|
    decreases Weight(k), 0, 0
  {
    match k
    case EmitItems(items, limit) => EmitRow(limit, ItemsValues(items, env, recs), results)
    case EmitAll(limit) => EmitRow(limit, Some(AllFields(env, recs)), results)
    case WhenThen(cond, next) =>
      (match Eval(cond, env, recs)
       case None => Broken(results)
       case Some(v) => if IsTruthy(v) then Consume(next, env, recs, cat, db, results) else Go(results))
    case ProjectThen(items, next) =>
      (match EmitRow(None, ItemsValues(items, env, recs), results)
       case Broken(r) => Broken(r)
       case Go(r) => Consume(next, env, recs, cat, db, r))
    case JoinLeft(right, c, next) => Push(right, env, recs, JoinRight(c, |env|, next), cat, db, results)
    case JoinRight(c, n, next) =>
      (match JoinHolds(c, env, n, recs)
       case None => Broken(results)
       case Some(holds) => if holds then Consume(next, env, recs, cat, db, results) else Go(results))
  }

  // ---------------------------------------------------------------- rows of a plan on their own

  /** Scans, filters and joins only: what stands below the projection of a SELECT. */
  predicate RowPlan(p: Plan) {
    match p
    case OneRow => true
    case SeqScan(_, _) => true
    case Filter(_, input) => RowPlan(input)
    case NestedLoopJoin(_, _, l, r) => RowPlan(l) && RowPlan(r)
    case HashJoin(_, _, l, r) => RowPlan(l) && RowPlan(r)
    case _ => false
  }

  /** Every join is inner or cross, so that it stands for the matching pairs and nothing else. */
  predicate MatchesOnly(p: Plan) {
    match p
    case Filter(_, input) => MatchesOnly(input)
    case NestedLoopJoin(t, _, l, r) => (t.InnerJoin? || t.CrossJoin?) && MatchesOnly(l) && MatchesOnly(r)
    case HashJoin(t, _, l, r) => (t.InnerJoin? || t.CrossJoin?) && MatchesOnly(l) && MatchesOnly(r)
    case _ => true
  }

  /** The sources in scope above p. */
  function Scope(p: Plan, env: seq<RowSource>, cat: Catalog): seq<RowSource> {
    match p
    case SeqScan(table, alias) => if table in cat then env + [ScanSource(table, alias, |env|, cat[table])] else env
    case Filter(_, input) => Scope(input, env, cat)
    case Project(_, input) => Scope(input, env, cat)
    case NestedLoopJoin(_, _, l, r) => Scope(r, Scope(l, env, cat), cat)
    case HashJoin(_, _, l, r) => Scope(r, Scope(l, env, cat), cat)
    case Sort(_, input) => Scope(input, env, cat)
    case Limit(_, input) => Scope(input, env, cat)
    case OneRow => env
  }

  /** Rows, each with one record for every source in scope; broken says that a condition failed after them. */
  datatype Rows = Rows(rows: seq<seq<Record>>, broken: bool)

  /** Keeps the rows on which the condition holds, up to the first on which it cannot be computed. */
  function Select(rows: seq<seq<Record>>, test: seq<Record> -> Option<bool>): Rows {
    if rows == [] then Rows([], false)
    else match test(rows[0])
         case None => Rows([], true)
         case Some(b) =>
           var rest := Select(rows[1..], test);
           Rows((if b then [rows[0]] else []) + rest.rows, rest.broken)
  }

  function Then(a: Rows, broken: bool): Rows { Rows(a.rows, a.broken || broken) }

  function Truth(cond: Expr, env: seq<RowSource>): seq<Record> -> Option<bool> {
    recs => if |recs| != |env| then None
            else match Eval(cond, env, recs)
                 case None => None
                 case Some(v) => Some(IsTruthy(v))
  }

  function Joins(c: JoinConstraint, env: seq<RowSource>, n: nat): seq<Record> -> Option<bool> {
    recs => if |recs| != |env| then None else JoinHolds(c, env, n, recs)
  }

  function Extend(recs: seq<Record>, table: seq<Record>): (r: seq<seq<Record>>)
    ensures |r| == |table|
    ensures forall i :: 0 <= i < |r| ==> r[i] == recs + [table[i]]
  {
    seq(|table|, i requires 0 <= i < |table| => recs + [table[i]])
  }

  /** The rows p denotes when the sources outside it stand at recs. */
  function Denote(p: Plan, env: seq<RowSource>, recs: seq<Record>, cat: Catalog, db: Tables): Rows
    decreases PlanSize(p), 0, 0
  {
    match p
    case OneRow => Rows([recs], false)
    case SeqScan(table, _) =>
      if table in cat && cat[table].root in db then Rows(Extend(recs, db[cat[table].root]), false) else Rows([], true)
    case Filter(cond, input) =>
      var below := Denote(input, env, recs, cat, db);
      Then(Select(below.rows, Truth(cond, Scope(input, env, cat))), below.broken)
    case NestedLoopJoin(_, c, l, r) => DenoteJoin(l, r, c, env, recs, cat, db)
    case HashJoin(_, c, l, r) => DenoteJoin(l, r, c, env, recs, cat, db)
    case _ => Rows([], true)
  }

  function DenoteJoin(l: Plan, r: Plan, c: JoinConstraint, env: seq<RowSource>, recs: seq<Record>, cat: Catalog, db: Tables): Rows
    decreases PlanSize(l) + PlanSize(r) + 1, 1, 0
  {
    var left := Denote(l, env, recs, cat, db);
    Then(DenoteRight(left.rows, r, c, Scope(l, env, cat), cat, db), left.broken)
  }

  /** For each left row, the right rows that match it. */
  function DenoteRight(left: seq<seq<Record>>, r: Plan, c: JoinConstraint, env: seq<RowSource>, cat: Catalog, db: Tables): Rows
    decreases PlanSize(r) + 1, 0, |left|
  {
    if left == [] then Rows([], false)
    else
      var right := Denote(r, env, left[0], cat, db);
      var first := Then(Select(right.rows, Joins(c, Scope(r, env, cat), |env|)), right.broken);
      if first.broken then first
      else
        var rest := DenoteRight(left[1..], r, c, env, cat, db);
        Rows(first.rows + rest.rows, rest.broken)
  }

  // ---------------------------------------------------------------- pushing rows is feeding the denoted rows

  ghost predicate AllLong(rows: seq<seq<Record>>, n: nat) {
    forall i :: 0 <= i < |rows| ==> |rows[i]| == n
  }

  /** Hands the rows to k one by one. */
  function Feed(r: Rows, env: seq<RowSource>, k: Consumer, cat: Catalog, db: Tables, results: seq<Record>): Flow
    requires forall i :: 0 <= i < |r.rows| ==> |r.rows[i]| == |env|
    decreases |r.rows|
  {
    if r.rows == [] then (if r.broken then Broken(results) else Go(results))
    else match Consume(k, env, r.rows[0], cat, db, results)
         case Broken(x) => Broken(x)
         case Go(x) => Feed(Rows(r.rows[1..], r.broken), env, k, cat, db, x)
  }

  lemma {:induction false} FeedAppend(a: seq<seq<Record>>, b: seq<seq<Record>>, broken: bool, env: seq<RowSource>, k: Consumer, cat: Catalog, db: Tables, results: seq<Record>)
    requires AllLong(a, |env|) && AllLong(b, |env|)
    ensures AllLong(a + b, |env|)
    ensures Feed(Rows(a + b, broken), env, k, cat, db, results) ==
            (match Feed(Rows(a, false), env, k, cat, db, results)
             case Broken(x) => Broken(x)
             case Go(x) => Feed(Rows(b, broken), env, k, cat, db, x))
    decreases a
  {
    hide Consume;
    if a == [] {
      assert a + b == b;
    } else {
      assert (a + b)[0] == a[0] && (a + b)[1..] == a[1..] + b;
      if Consume(k, env, a[0], cat, db, results).Go? {
        FeedAppend(a[1..], b, broken, env, k, cat, db, Consume(k, env, a[0], cat, db, results).rows);
      } else {
        forall i | 0 <= i < |a + b| ensures |(a + b)[i]| == |env| {}
      }
    }
  }

  lemma {:induction false} FeedBroken(r: Rows, env: seq<RowSource>, k: Consumer, cat: Catalog, db: Tables, results: seq<Record>)
    requires AllLong(r.rows, |env|) && r.broken
    ensures Feed(r, env, k, cat, db, results).Broken?
    decreases |r.rows|
  {
    hide Consume;
    if r.rows != [] && Consume(k, env, r.rows[0], cat, db, results).Go? {
      FeedBroken(Rows(r.rows[1..], r.broken), env, k, cat, db, Consume(k, env, r.rows[0], cat, db, results).rows);
    }
  }

  lemma {:induction false} SelectLong(rows: seq<seq<Record>>, test: seq<Record> -> Option<bool>, n: nat)
    requires AllLong(rows, n)
    ensures AllLong(Select(rows, test).rows, n)
    decreases rows
  {
    if rows != [] { SelectLong(rows[1..], test, n); }
  }

  /** k passes on to next the rows that test lets through. */
  ghost predicate Tests(k: Consumer, next: Consumer, test: seq<Record> -> Option<bool>, env: seq<RowSource>, cat: Catalog, db: Tables) {
    forall recs: seq<Record>, results: seq<Record> :: |recs| == |env| ==> TestsOne(k, next, test, env, cat, db, recs, results)
  }

  ghost predicate TestsOne(k: Consumer, next: Consumer, test: seq<Record> -> Option<bool>, env: seq<RowSource>, cat: Catalog, db: Tables, recs: seq<Record>, results: seq<Record>)
    requires |recs| == |env|
  {
    Consume(k, env, recs, cat, db, results) ==
    match test(recs)
    case None => Broken(results)
    case Some(b) => if b then Consume(next, env, recs, cat, db, results) else Go(results)
  }

  lemma FeedFirst(row: seq<Record>, rest: seq<seq<Record>>, broken: bool, env: seq<RowSource>, k: Consumer, cat: Catalog, db: Tables, results: seq<Record>)
    requires |row| == |env| && AllLong(rest, |env|)
    ensures AllLong([row] + rest, |env|)
    ensures Feed(Rows([row] + rest, broken), env, k, cat, db, results) ==
            (match Consume(k, env, row, cat, db, results)
             case Broken(x) => Broken(x)
             case Go(x) => Feed(Rows(rest, broken), env, k, cat, db, x))
  {
    hide Consume;
    assert ([row] + rest)[1..] == rest;
  }

  lemma TestsAt(k: Consumer, next: Consumer, test: seq<Record> -> Option<bool>, env: seq<RowSource>, cat: Catalog, db: Tables, recs: seq<Record>, results: seq<Record>)
    requires Tests(k, next, test, env, cat, db) && |recs| == |env|
    ensures TestsOne(k, next, test, env, cat, db, recs, results)
  {
  }

  /** A consumer that first tests the row sees only the selected rows. */
  lemma {:induction false} FeedSelect(rows: seq<seq<Record>>, broken: bool, env: seq<RowSource>, k: Consumer, next: Consumer, test: seq<Record> -> Option<bool>, cat: Catalog, db: Tables, results: seq<Record>)
    requires AllLong(rows, |env|) && Tests(k, next, test, env, cat, db)
    ensures var r := Then(Select(rows, test), broken);
            AllLong(r.rows, |env|) && Feed(Rows(rows, broken), env, k, cat, db, results) == Feed(r, env, next, cat, db, results)
    decreases rows
  {
    hide Consume, Feed, Tests, Select;
    SelectLong(rows, test, |env|);
    if rows == [] {
      SelectNone(test);
      FeedNone(broken, env, k, cat, db, results);
      FeedNone(broken, env, next, cat, db, results);
    } else {
      var row, rest := rows[0], rows[1..];
      assert rows == [row] + rest;
      SelectLong(rest, test, |env|);
      SelectFirst(row, rest, broken, test);
      TestsAt(k, next, test, env, cat, db, row, results);
      FeedFirst(row, rest, broken, env, k, cat, db, results);
      match test(row)
      case None => FeedNone(true, env, next, cat, db, results);
      case Some(false) => FeedSelect(rest, broken, env, k, next, test, cat, db, results);
      case Some(true) =>
        var r := Then(Select(rest, test), broken);
        FeedFirst(row, r.rows, r.broken, env, next, cat, db, results);
        if Consume(next, env, row, cat, db, results).Go? {
          FeedSelect(rest, broken, env, k, next, test, cat, db, Consume(next, env, row, cat, db, results).rows);
        }
    }
  }

  lemma SelectNone(test: seq<Record> -> Option<bool>)
    ensures Select([], test) == Rows([], false)
  {
  }

  lemma SelectFirst(row: seq<Record>, rest: seq<seq<Record>>, broken: bool, test: seq<Record> -> Option<bool>)
    ensures Then(Select([row] + rest, test), broken) ==
            match test(row)
            case None => Rows([], true)
            case Some(b) =>
              var r := Then(Select(rest, test), broken);
              Rows(if b then [row] + r.rows else r.rows, r.broken)
  {
    assert ([row] + rest)[1..] == rest;
    assert [] + Select(rest, test).rows == Select(rest, test).rows;
  }

  lemma FeedNone(broken: bool, env: seq<RowSource>, k: Consumer, cat: Catalog, db: Tables, results: seq<Record>)
    ensures Feed(Rows([], broken), env, k, cat, db, results) == if broken then Broken(results) else Go(results)
  {
  }

  lemma FilterTests(cond: Expr, next: Consumer, env: seq<RowSource>, cat: Catalog, db: Tables)
    ensures Tests(WhenThen(cond, next), next, Truth(cond, env), env, cat, db)
  {
    forall recs: seq<Record>, results: seq<Record> | |recs| == |env|
      ensures TestsOne(WhenThen(cond, next), next, Truth(cond, env), env, cat, db, recs, results) {
    }
  }

  lemma JoinTests(c: JoinConstraint, n: nat, next: Consumer, env: seq<RowSource>, cat: Catalog, db: Tables)
    ensures Tests(JoinRight(c, n, next), next, Joins(c, env, n), env, cat, db)
  {
    forall recs: seq<Record>, results: seq<Record> | |recs| == |env|
      ensures TestsOne(JoinRight(c, n, next), next, Joins(c, env, n), env, cat, db, recs, results) {
    }
  }

  lemma {:induction false} DenoteLong(p: Plan, env: seq<RowSource>, recs: seq<Record>, cat: Catalog, db: Tables)
    requires |recs| == |env| && RowPlan(p)
    ensures AllLong(Denote(p, env, recs, cat, db).rows, |Scope(p, env, cat)|)
    decreases PlanSize(p), 0, 0
  {
    match p
    case OneRow =>
    case SeqScan(_, _) =>
    case Filter(cond, input) =>
      DenoteLong(input, env, recs, cat, db);
      SelectLong(Denote(input, env, recs, cat, db).rows, Truth(cond, Scope(input, env, cat)), |Scope(input, env, cat)|);
    case NestedLoopJoin(_, c, l, r) => JoinLong(l, r, c, env, recs, cat, db);
    case HashJoin(_, c, l, r) => JoinLong(l, r, c, env, recs, cat, db);
  }

  lemma {:induction false} JoinLong(l: Plan, r: Plan, c: JoinConstraint, env: seq<RowSource>, recs: seq<Record>, cat: Catalog, db: Tables)
    requires |recs| == |env| && RowPlan(l) && RowPlan(r)
    ensures AllLong(DenoteJoin(l, r, c, env, recs, cat, db).rows, |Scope(r, Scope(l, env, cat), cat)|)
    decreases PlanSize(l) + PlanSize(r) + 1, 1, 0
  {
    DenoteLong(l, env, recs, cat, db);
    RightLong(Denote(l, env, recs, cat, db).rows, r, c, Scope(l, env, cat), cat, db);
  }

  lemma {:induction false} RightLong(left: seq<seq<Record>>, r: Plan, c: JoinConstraint, env: seq<RowSource>, cat: Catalog, db: Tables)
    requires AllLong(left, |env|) && RowPlan(r)
    ensures AllLong(DenoteRight(left, r, c, env, cat, db).rows, |Scope(r, env, cat)|)
    decreases PlanSize(r) + 1, 0, |left|
  {
    hide Denote, Scope;
    if left != [] {
      DenoteLong(r, env, left[0], cat, db);
      SelectLong(Denote(r, env, left[0], cat, db).rows, Joins(c, Scope(r, env, cat), |env|), |Scope(r, env, cat)|);
      RightLong(left[1..], r, c, env, cat, db);
    }
  }

  /** Pushing the rows of p to k is feeding k the rows p denotes. */
  lemma {:induction false} PushIsFeed(p: Plan, env: seq<RowSource>, recs: seq<Record>, k: Consumer, cat: Catalog, db: Tables, results: seq<Record>)
    requires |recs| == |env| && RowPlan(p)
    ensures AllLong(Denote(p, env, recs, cat, db).rows, |Scope(p, env, cat)|)
    ensures Push(p, env, recs, k, cat, db, results) == Feed(Denote(p, env, recs, cat, db), Scope(p, env, cat), k, cat, db, results)
    decreases PlanSize(p), 0, 0
  {
    hide Consume, Select;
    DenoteLong(p, env, recs, cat, db);
    match p
    case OneRow => FeedOne(recs, env, k, cat, db, results);
    case SeqScan(table, alias) =>
      if table in cat && cat[table].root in db {
        ScanFeed(db[cat[table].root], env + [ScanSource(table, alias, |env|, cat[table])], recs, k, cat, db, results);
      }
    case Filter(cond, input) =>
      PushIsFeed(input, env, recs, WhenThen(cond, k), cat, db, results);
      FilterTests(cond, k, Scope(input, env, cat), cat, db);
      var below := Denote(input, env, recs, cat, db);
      FeedSelect(below.rows, below.broken, Scope(input, env, cat), WhenThen(cond, k), k, Truth(cond, Scope(input, env, cat)), cat, db, results);
    case NestedLoopJoin(_, c, l, r) => JoinFeed(l, r, c, env, recs, k, cat, db, results);
    case HashJoin(_, c, l, r) => JoinFeed(l, r, c, env, recs, k, cat, db, results);
  }

  lemma FeedOne(recs: seq<Record>, env: seq<RowSource>, k: Consumer, cat: Catalog, db: Tables, results: seq<Record>)
    requires |recs| == |env|
    ensures Feed(Rows([recs], false), env, k, cat, db, results) == Consume(k, env, recs, cat, db, results)
  {
    hide Consume;
    assert [recs][1..] == [];
    assert forall x :: Feed(Rows([], false), env, k, cat, db, x) == Go(x);
  }

  lemma {:induction false} ScanFeed(table: seq<Record>, env: seq<RowSource>, recs: seq<Record>, k: Consumer, cat: Catalog, db: Tables, results: seq<Record>)
    requires |recs| + 1 == |env|
    ensures PushRows(table, env, recs, k, cat, db, results) == Feed(Rows(Extend(recs, table), false), env, k, cat, db, results)
    decreases |table|
  {
    hide Consume;
    if table != [] {
      assert Extend(recs, table)[0] == recs + [table[0]];
      assert Extend(recs, table)[1..] == Extend(recs, table[1..]);
      if Consume(k, env, recs + [table[0]], cat, db, results).Go? {
        ScanFeed(table[1..], env, recs, k, cat, db, Consume(k, env, recs + [table[0]], cat, db, results).rows);
      }
    }
  }

  lemma {:induction false} JoinFeed(l: Plan, r: Plan, c: JoinConstraint, env: seq<RowSource>, recs: seq<Record>, k: Consumer, cat: Catalog, db: Tables, results: seq<Record>)
    requires |recs| == |env| && RowPlan(l) && RowPlan(r)
    ensures var rows := DenoteJoin(l, r, c, env, recs, cat, db); var scope := Scope(r, Scope(l, env, cat), cat);
            && AllLong(rows.rows, |scope|)
            && Push(l, env, recs, JoinLeft(r, c, k), cat, db, results) == Feed(rows, scope, k, cat, db, results)
    decreases PlanSize(l) + PlanSize(r) + 1, 1, 0
  {
    hide Consume, Select, Denote, Push, Scope;
    JoinLong(l, r, c, env, recs, cat, db);
    PushIsFeed(l, env, recs, JoinLeft(r, c, k), cat, db, results);
    var left := Denote(l, env, recs, cat, db);
    RightFeed(left.rows, left.broken, r, c, Scope(l, env, cat), k, cat, db, results);
  }

  lemma {:induction false} RightFeed(left: seq<seq<Record>>, broken: bool, r: Plan, c: JoinConstraint, env: seq<RowSource>, k: Consumer, cat: Catalog, db: Tables, results: seq<Record>)
    requires AllLong(left, |env|) && RowPlan(r)
    ensures var rows := Then(DenoteRight(left, r, c, env, cat, db), broken);
            && AllLong(rows.rows, |Scope(r, env, cat)|)
            && Feed(Rows(left, broken), env, JoinLeft(r, c, k), cat, db, results) == Feed(rows, Scope(r, env, cat), k, cat, db, results)
    decreases PlanSize(r) + 1, 0, |left|
  {
    hide Select, Denote, Push, Scope, PlanSize, Tests;
    RightLong(left, r, c, env, cat, db);
    if left != [] {
      var scope := Scope(r, env, cat);
      var k2 := JoinRight(c, |env|, k);
      var right := Denote(r, env, left[0], cat, db);
      PushIsFeed(r, env, left[0], k2, cat, db, results);
      JoinTests(c, |env|, k, scope, cat, db);
      FeedSelect(right.rows, right.broken, scope, k2, k, Joins(c, scope, |env|), cat, db, results);
      var first := Then(Select(right.rows, Joins(c, scope, |env|)), right.broken);
      assert Consume(JoinLeft(r, c, k), env, left[0], cat, db, results) == Feed(first, scope, k, cat, db, results);
      if first.broken {
        FeedBroken(first, scope, k, cat, db, results);
      } else {
        var rest := DenoteRight(left[1..], r, c, env, cat, db);
        RightLong(left[1..], r, c, env, cat, db);
        FeedAppend(first.rows, rest.rows, rest.broken || broken, scope, k, cat, db, results);
        assert first == Rows(first.rows, false);
        if Feed(first, scope, k, cat, db, results).Go? {
          RightFeed(left[1..], broken, r, c, env, k, cat, db, Feed(first, scope, k, cat, db, results).rows);
        }
      }
    }
  }
}
