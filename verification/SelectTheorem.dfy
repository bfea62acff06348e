/** The main results about compiled SELECT plans. */
module SelectTheorem {
  import opened Values
  import opened SqlSyntax
  import opened Evaluate
  import opened Machine
  import opened Blocks
  import opened PlanCode
  import opened PlanMeaning
  import opened PlanCorrect

  function FirstN<T>(s: seq<T>, n: Option<nat>): seq<T> {
    if n.Some? && n.value < |s| then s[..n.value] else s
  }

  /** How many more rows a limit admits. */
  function Room(limit: Option<nat>, have: nat): Option<nat> {
    match limit
    case None => None
    case Some(n) => Some(if n > have then n - have else 0)
  }

  /** The result rows for the given rows in scope; None items stands for all columns. */
  function OutputRows(rows: seq<seq<Record>>, items: Option<seq<ProjectionItem>>, env: seq<RowSource>): Option<seq<Record>>
    requires forall i :: 0 <= i < |rows| ==> |rows[i]| == |env|
    decreases rows
  {
    if rows == [] then Some([])
    else match (OutputRow(rows[0], items, env), OutputRows(rows[1..], items, env))
         case (Some(a), Some(rest)) => Some([a] + rest)
         case _ => None
  }

  function OutputRow(recs: seq<Record>, items: Option<seq<ProjectionItem>>, env: seq<RowSource>): Option<Record>
    requires |recs| == |env|
  {
    match items
    case Some(list) => ItemsValues(list, env, recs)
    case None => Some(AllFields(env, recs))
  }

  function Emitter(items: Option<seq<ProjectionItem>>, limit: Option<nat>): Consumer {
    match items
    case Some(list) => EmitItems(list, limit)
    case None => EmitAll(limit)
  }

  /** Rows handed to the output come out in order, as many as the limit admits; nothing else is computed. */
  lemma {:induction false} FeedOutput(r: Rows, env: seq<RowSource>, items: Option<seq<ProjectionItem>>, limit: Option<nat>, cat: Catalog, db: Tables, results: seq<Record>)
    requires AllLong(r.rows, |env|)
    ensures var room := FirstN(r.rows, Room(limit, |results|));
            && AllLong(room, |env|)
            && match Feed(r, env, Emitter(items, limit), cat, db, results)
               case Go(out) => !r.broken && OutputRows(room, items, env).Some? && out == results + OutputRows(room, items, env).value
               case Broken(_) => r.broken || OutputRows(room, items, env).None?
    decreases |r.rows|, 1
  {
    hide ItemsValues, AllFields, Push;
    var room := FirstN(r.rows, Room(limit, |results|));
    if r.rows == [] {
      assert results + [] == results;
    } else {
      var k := Emitter(items, limit);
      var rest := Rows(r.rows[1..], r.broken);
      if limit.Some? && |results| >= limit.value {
        assert Consume(k, env, r.rows[0], cat, db, results) == Go(results);
        FeedOutput(rest, env, items, limit, cat, db, results);
      } else {
        FirstOfRoom(r.rows, limit, |results|);
        FeedStep(r, env, items, limit, cat, db, results);
      }
    }
  }

  lemma FirstLong(rows: seq<seq<Record>>, n: Option<nat>, len: nat)
    requires AllLong(rows, len)
    ensures AllLong(FirstN(rows, n), len)
  {
  }

  lemma FirstOfRoom(rows: seq<seq<Record>>, limit: Option<nat>, have: nat)
    requires rows != [] && (limit.Some? ==> have < limit.value)
    ensures FirstN(rows, Room(limit, have)) == [rows[0]] + FirstN(rows[1..], Room(limit, have + 1))
  {
  }

  /** There is room for the first row. */
  lemma {:induction false} FeedStep(r: Rows, env: seq<RowSource>, items: Option<seq<ProjectionItem>>, limit: Option<nat>, cat: Catalog, db: Tables, results: seq<Record>)
    requires AllLong(r.rows, |env|) && r.rows != [] && (limit.Some? ==> |results| < limit.value)
    requires FirstN(r.rows, Room(limit, |results|)) == [r.rows[0]] + FirstN(r.rows[1..], Room(limit, |results| + 1))
    ensures var room := FirstN(r.rows, Room(limit, |results|));
            && AllLong(room, |env|)
            && match Feed(r, env, Emitter(items, limit), cat, db, results)
               case Go(out) => !r.broken && OutputRows(room, items, env).Some? && out == results + OutputRows(room, items, env).value
               case Broken(_) => r.broken || OutputRows(room, items, env).None?
    decreases |r.rows|, 0
  {
    hide ItemsValues, AllFields, FirstN, Room;
    var room := FirstN(r.rows, Room(limit, |results|));
    FirstLong(r.rows, Room(limit, |results|), |env|);
    assert room[1..] == FirstN(r.rows[1..], Room(limit, |results| + 1));
    match OutputRow(r.rows[0], items, env)
    case None =>
    case Some(row) =>
      assert Consume(Emitter(items, limit), env, r.rows[0], cat, db, results) == Go(results + [row]);
      FeedOutput(Rows(r.rows[1..], r.broken), env, items, limit, cat, db, results + [row]);
      FeedMore(results, row, OutputRows(room[1..], items, env));
  }

  lemma FeedMore(results: seq<Record>, row: Record, rest: Option<seq<Record>>)
    ensures rest.Some? ==> (results + [row]) + rest.value == results + ([row] + rest.value)
  {
  }

  // ---------------------------------------------------------------- whole plans

  /** LIMITs, then perhaps one projection, then scans, filters and joins: the plans a SELECT without ORDER BY leads to. */
  predicate SelectPlan(p: Plan) {
    match p
    case Limit(_, input) => SelectPlan(input)
    case Project(_, input) => RowPlan(input) && MatchesOnly(input)
    case _ => RowPlan(p) && MatchesOnly(p)
  }

  function Source(p: Plan): Plan {
    match p
    case Limit(_, input) => Source(input)
    case Project(_, input) => input
    case _ => p
  }

  function Items(p: Plan): Option<seq<ProjectionItem>> {
    match p
    case Limit(_, input) => Items(input)
    case Project(items, _) => Some(items)
    case _ => None
  }

  /** The limit that governs the output: that of the innermost LIMIT. */
  function Innermost(p: Plan, limit: Option<nat>): Option<nat> {
    match p
    case Limit(count, input) => Innermost(input, if LiteralLimit(count).Success? then Some(LiteralLimit(count).value) else limit)
    case _ => limit
  }

  lemma {:induction false} PeelIs(p: Plan, limit: Option<nat>)
    requires SelectPlan(p) && PeelLimit(p, limit).Success?
    ensures var top := PeelLimit(p, limit).value;
            top.1 == Innermost(p, limit) && Source(top.0) == Source(p) && Items(top.0) == Items(p) && !top.0.Limit? && SelectPlan(top.0)
    decreases p
  {
    if p.Limit? {
      PeelIs(p.input, Some(LiteralLimit(p.count).value));
    }
  }

  ghost predicate Rooted(cat: Catalog, db: Tables) {
    forall t :: t in cat ==> cat[t].root in db
  }

  /** The state a program starts in: no cursor is open; registers and earlier results may be there. */
  function Start(regs: seq<Value>, end: bool, results: seq<Record>): State { State(map[], regs, end, results) }

  /** The rows of p in scope of its output. */
  function PlanRows(p: Plan, cat: Catalog, db: Tables): Rows { Denote(Source(p), [], [], cat, db) }

  function PlanScope(p: Plan, cat: Catalog): seq<RowSource> { Scope(Source(p), [], cat) }

  /** The rows p puts out when `have` result rows are there already; None if an expression cannot be computed. */
  function Answer(p: Plan, cat: Catalog, db: Tables, have: nat): Option<seq<Record>>
    requires SelectPlan(p)
  {
    RowsAreLong(p, cat, db);
    var r := PlanRows(p, cat, db);
    if r.broken then None
    else OutputRows(FirstN(r.rows, Room(Innermost(p, None), have)), Items(p), PlanScope(p, cat))
  }

  lemma {:induction false} SourceRows(p: Plan)
    requires SelectPlan(p)
    ensures RowPlan(Source(p))
    decreases p
  {
    if p.Limit? { SourceRows(p.input); }
  }

  lemma RowsAreLong(p: Plan, cat: Catalog, db: Tables)
    requires SelectPlan(p)
    ensures AllLong(PlanRows(p, cat, db).rows, |PlanScope(p, cat)|)
    ensures forall n :: AllLong(FirstN(PlanRows(p, cat, db).rows, n), |PlanScope(p, cat)|)
  {
    SourceRows(p);
    DenoteLong(Source(p), [], [], cat, db);
  }

  /** What the code of a plan does, block by block. */
  lemma BodyCorrect(p: Plan, cat: Catalog, db: Tables, regs: seq<Value>, end: bool, results: seq<Record>)
    requires SelectPlan(p) && ProgramCode(p, cat).Success? && Rooted(cat, db)
    ensures var o := RunSeq(ProgramCode(p, cat).value.code, Start(regs, end, results), db);
            match Answer(p, cat, db, |results|)
            case None => o.Bad?
            case Some(rows) => o.Ok? && o.s.results == results + rows && o.s.cursors == map[]
  {
    hide Push, RowsCode, RunSeq, Denote, Scope, RowPlan;
    var s := Start(regs, end, results);
    PeelIs(p, None);
    var top := PeelLimit(p, None).value;
    var k := Emitter(Items(p), top.1);
    SourceRows(p);
    RowsAreLong(p, cat, db);
    ReadyStart(s, db);
    RowsCorrect(Source(p), [], [], k, cat, db, 0, 0, s);
    PushIsFeed(Source(p), [], [], k, cat, db, results);
    FeedOutput(PlanRows(p, cat, db), PlanScope(p, cat), Items(p), top.1, cat, db, results);
  }

  lemma ReadyStart(s: State, db: Tables)
    requires s.cursors == map[]
    ensures Ready([], [], s, db, 0)
  {
  }

  /** The number of turns of the machine loop. */
  function Turns(p: Plan, cat: Catalog, db: Tables, s: State): nat
    requires ProgramCode(p, cat).Success?
  {
    Cost(ProgramCode(p, cat).value.code, s, db) + 1
  }

  /**
   Compiled SELECT plans are correct: the machine halts after finitely many turns, every cursor closed, and has added
   exactly the rows the plan denotes, or it fails because an expression that had to be computed could not be.
   */
  lemma SelectCorrect(p: Plan, cat: Catalog, db: Tables, halt: bool, regs: seq<Value>, end: bool, results: seq<Record>)
    requires SelectPlan(p) && Program(p, cat, halt).Success? && Rooted(cat, db)
    ensures var s := Start(regs, end, results);
            var m := Steps(Program(p, cat, halt).value, db, Running(0, s), Turns(p, cat, db, s));
            match Answer(p, cat, db, |results|)
            case None => m.Failed?
            case Some(rows) => m.Halted? && m.s.results == results + rows && m.s.cursors == map[]
  {
    hide RunSeq, Answer, Steps, ProgramCode, Flat, Cost, SelectPlan, Rooted, Start;
    var s := Start(regs, end, results);
    BodyCorrect(p, cat, db, regs, end, results);
    ProgramScoped(p, cat);
    BlockRuns(ProgramCode(p, cat).value.code, halt, s, db);
  }

  /** A block laid out as a program, with or without a Halt behind it. */
  lemma BlockRuns(body: seq<Stmt>, halt: bool, s: State, db: Tables)
    requires Scoped(body, 0)
    ensures var ops := Flat(body, 0) + if halt then [Halt] else [];
            Steps(ops, db, Running(0, s), Cost(body, s, db) + 1) ==
            match RunSeq(body, s, db)
            case Ok(s1) => Halted(s1)
            case Bad(s1) => Failed(s1)
  {
    hide RunSeq, Steps, Cost, Flat, Scoped, Placed;
    var end := if halt then [Halt] else [];
    var ops := Flat(body, 0) + end;
    PlacedStart(Flat(body, 0), end);
    SimSeq(ops, db, body, 0, s, 0);
    StepsAdd(ops, db, Running(0, s), Cost(body, s, db), 1);
    OneStep(ops, db, Reaches(RunSeq(body, s, db), Len(body)));
  }

  lemma PlacedStart(a: seq<Op>, b: seq<Op>)
    ensures Placed(a + b, 0, a)
  {
    assert (a + b)[0..|a|] == a;
  }

  lemma ProgramScoped(p: Plan, cat: Catalog)
    ensures ProgramCode(p, cat).Success? ==> Scoped(ProgramCode(p, cat).value.code, 0)
  {
    hide RowsCode, Scoped;
    if PeelLimit(p, None).Success? {
      var top := PeelLimit(p, None).value;
      match top.0
      case Project(items, input) => RowsScoped(input, [], EmitItems(items, top.1), cat, 0, 0);
      case _ => RowsScoped(top.0, [], EmitAll(top.1), cat, 0, 0);
    }
  }

  /** Every jump of a compiled program stays inside it, end included, and none goes to itself. */
  lemma ProgramJumps(p: Plan, cat: Catalog, halt: bool)
    requires Program(p, cat, halt).Success?
    ensures var ops := Program(p, cat, halt).value; JumpsOk(ops, 0, 0, |ops|)
  {
    hide JumpOk, Flat;
    var body := ProgramCode(p, cat).value.code;
    var ops := Program(p, cat, halt).value;
    ProgramScoped(p, cat);
    FlatJumps(body, 0, 0);
    JumpsWiden(Flat(body, 0), 0, 0, Len(body), 0, |ops|);
    HaltJumps(Len(body), |ops|);
    if halt { JumpsAppend(Flat(body, 0), [Halt], 0, 0, |ops|); }
  }

  lemma HaltJumps(at: nat, to: nat)
    ensures JumpsOk([Halt], at, 0, to)
  {
  }
}
