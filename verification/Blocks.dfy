/**
 Block-structured code: what the generated jumps amount to. Flat lays a block out as a program, and the machine
 running that program does what the block does.
 */
module Blocks {
  import opened Values
  import opened Evaluate
  import opened Machine

  datatype Stmt =
    | Prim(op: Op)
    | WhenTrue(cond: nat, body: seq<Stmt>)
    | WhenRoom(limit: nat, body: seq<Stmt>)
    | Scan(cursor: nat, root: nat, body: seq<Stmt>)

  /** Operations without jumps that move no cursor. */
  predicate Plain(op: Op) {
    !op.OpenRead? && !op.Close? && !op.Rewind? && !op.MoveNext? &&
    !op.IfCursorEnd? && !op.IfResultsGe? && !op.Goto? && !op.IfNot? && !op.Halt?
  }

  // ---------------------------------------------------------------- what a block does

  datatype Outcome = Ok(s: State) | Bad(s: State)

  function RunPrim(op: Op, s: State, db: Tables): Outcome {
    match Exec(op, s, db)
    case Next(s1) => Ok(s1)
    case _ => Bad(s)
  }

  function RunSeq(b: seq<Stmt>, s: State, db: Tables): Outcome
    decreases b, 0
  {
    if b == [] then Ok(s)
    else match RunStmt(b[0], s, db)
         case Bad(s1) => Bad(s1)
         case Ok(s1) => RunSeq(b[1..], s1, db)
  }

  function RunStmt(st: Stmt, s: State, db: Tables): Outcome
    decreases st, 0
  {
    match st
    case Prim(op) => RunPrim(op, s, db)
    case WhenTrue(r, body) =>
      (match ReadReg(s.regs, r)
       case None => Bad(s)
       case Some(v) => if IsTruthy(v) then RunSeq(body, s, db) else Ok(s))
    case WhenRoom(limit, body) => if |s.results| >= limit then Ok(s) else RunSeq(body, s, db)
    case Scan(c, root, body) =>
      if root !in db then Bad(s)
      else if db[root] == [] then Ok(s.(cursors := s.cursors - {c}, end := true))
      else RunRows(c, root, body, s.(cursors := s.cursors[c := AtRow(root, 0)], end := false), db, 0)
  }

  /** The rows from pos on; the body leaves the cursor of its own scan where it is. */
  function RunRows(c: nat, root: nat, body: seq<Stmt>, s: State, db: Tables, pos: nat): Outcome
    requires root in db && pos < |db[root]|
    decreases body, |db[root]| - pos
  {
    match RunSeq(body, s, db)
    case Bad(s1) => Bad(s1)
    case Ok(s1) =>
      if pos + 1 < |db[root]| then
        RunRows(c, root, body, s1.(cursors := s1.cursors[c := AtRow(root, pos + 1)], end := false), db, pos + 1)
      else Ok(s1.(cursors := s1.cursors - {c}, end := true))
  }

  // ---------------------------------------------------------------- layout

  function Len(b: seq<Stmt>): nat
    decreases b, 0
  {
    if b == [] then 0 else LenStmt(b[0]) + Len(b[1..])
  }

  function LenStmt(st: Stmt): nat
    decreases st, 0
  {
    match st
    case Prim(_) => 1
    case WhenTrue(_, body) => 1 + Len(body)
    case WhenRoom(_, body) => 1 + Len(body)
    case Scan(_, _, body) => 7 + Len(body)
  }

  /** The block as a program whose first operation has position at. */
  function Flat(b: seq<Stmt>, at: nat): (ops: seq<Op>)
    ensures |ops| == Len(b)
    decreases b, 0
  {
    if b == [] then [] else FlatStmt(b[0], at) + Flat(b[1..], at + LenStmt(b[0]))
  }

  function FlatStmt(st: Stmt, at: nat): (ops: seq<Op>)
    ensures |ops| == LenStmt(st)
    decreases st, 0
  {
    match st
    case Prim(op) => [op]
    case WhenTrue(r, body) => [IfNot(r, at + 1 + Len(body))] + Flat(body, at + 1)
    case WhenRoom(limit, body) => [IfResultsGe(limit, at + 1 + Len(body))] + Flat(body, at + 1)
    case Scan(c, root, body) => ScanHead(c, root, at + 6 + Len(body)) + Flat(body, at + 3) + ScanTail(c, at + 3, at + 6 + Len(body))
  }

  function ScanHead(c: nat, root: nat, end: nat): seq<Op> { [OpenRead(c, root), Rewind(c), IfCursorEnd(end)] }

  function ScanTail(c: nat, start: nat, end: nat): seq<Op> { [MoveNext(c), IfCursorEnd(end), Goto(start), Close(c)] }

  // ---------------------------------------------------------------- scoping

  /** Every scan in b uses a cursor from lo on, scans inside it later ones, and single operations are plain. */
  predicate Scoped(b: seq<Stmt>, lo: nat)
    decreases b, 0
  {
    b == [] || (ScopedStmt(b[0], lo) && Scoped(b[1..], lo))
  }

  predicate ScopedStmt(st: Stmt, lo: nat)
    decreases st, 0
  {
    match st
    case Prim(op) => Plain(op)
    case WhenTrue(_, body) => Scoped(body, lo)
    case WhenRoom(_, body) => Scoped(body, lo)
    case Scan(c, _, body) => lo <= c && Scoped(body, c + 1)
  }

  lemma ScopedOne(st: Stmt, lo: nat)
    requires ScopedStmt(st, lo)
    ensures Scoped([st], lo)
  {
    var b := [st];
    assert b[1..] == [] && Scoped(b[1..], lo);
    assert ScopedStmt(b[0], lo);
  }

  /** Cursors below lo are the same in s and s1. */
  ghost predicate KeepsBelow(s: State, s1: State, lo: nat) {
    forall c :: c < lo ==> (c in s.cursors <==> c in s1.cursors) && (c in s.cursors ==> s1.cursors[c] == s.cursors[c])
  }

  lemma {:induction false} ScopedMono(b: seq<Stmt>, lo: nat, hi: nat)
    requires Scoped(b, hi) && lo <= hi
    ensures Scoped(b, lo)
    decreases b, 0
  {
    if b != [] {
      ScopedMonoStmt(b[0], lo, hi);
      ScopedMono(b[1..], lo, hi);
    }
  }

  lemma {:induction false} ScopedMonoStmt(st: Stmt, lo: nat, hi: nat)
    requires ScopedStmt(st, hi) && lo <= hi
    ensures ScopedStmt(st, lo)
    decreases st, 0
  {
    match st
    case Prim(_) =>
    case WhenTrue(_, body) => ScopedMono(body, lo, hi);
    case WhenRoom(_, body) => ScopedMono(body, lo, hi);
    case Scan(_, _, _) =>
  }

  lemma {:induction false} SeqKeeps(b: seq<Stmt>, s: State, db: Tables, lo: nat)
    requires Scoped(b, lo)
    ensures KeepsBelow(s, RunSeq(b, s, db).s, lo)
    decreases b, 0
  {
    if b != [] {
      StmtKeeps(b[0], s, db, lo);
      if RunStmt(b[0], s, db).Ok? {
        SeqKeeps(b[1..], RunStmt(b[0], s, db).s, db, lo);
      }
    }
  }

  lemma {:induction false} StmtKeeps(st: Stmt, s: State, db: Tables, lo: nat)
    requires ScopedStmt(st, lo)
    ensures KeepsBelow(s, RunStmt(st, s, db).s, lo)
    decreases st, 0
  {
    match st
    case Prim(op) => PrimKeeps(op, s, db);
    case WhenTrue(_, body) => SeqKeeps(body, s, db, lo);
    case WhenRoom(_, body) => SeqKeeps(body, s, db, lo);
    case Scan(c, root, body) =>
      if root in db && db[root] != [] {
        RowsKeep(c, root, body, s.(cursors := s.cursors[c := AtRow(root, 0)], end := false), db, 0, lo);
      }
  }

  lemma PrimKeeps(op: Op, s: State, db: Tables)
    requires Plain(op)
    ensures RunPrim(op, s, db).s.cursors == s.cursors
  {
  }

  lemma {:induction false} RowsKeep(c: nat, root: nat, body: seq<Stmt>, s: State, db: Tables, pos: nat, lo: nat)
    requires root in db && pos < |db[root]| && lo <= c && Scoped(body, c + 1)
    ensures KeepsBelow(s, RunRows(c, root, body, s, db, pos).s, lo)
    decreases body, |db[root]| - pos
  {
    ScopedMono(body, lo, c + 1);
    SeqKeeps(body, s, db, lo);
    match RunSeq(body, s, db)
    case Bad(_) =>
    case Ok(s1) =>
      if pos + 1 < |db[root]| {
        RowsKeep(c, root, body, s1.(cursors := s1.cursors[c := AtRow(root, pos + 1)], end := false), db, pos + 1, lo);
      }
  }

  // ---------------------------------------------------------------- the machine does what the block does

  /** The number of steps the machine takes for a block. */
  function Cost(b: seq<Stmt>, s: State, db: Tables): nat
    decreases b, 0
  {
    if b == [] then 0
    else match RunStmt(b[0], s, db)
         case Bad(_) => CostStmt(b[0], s, db)
         case Ok(s1) => CostStmt(b[0], s, db) + Cost(b[1..], s1, db)
  }

  function CostStmt(st: Stmt, s: State, db: Tables): nat
    decreases st, 0
  {
    match st
    case Prim(_) => 1
    case WhenTrue(r, body) =>
      (match ReadReg(s.regs, r)
       case None => 1
       case Some(v) => if IsTruthy(v) then 1 + Cost(body, s, db) else 1)
    case WhenRoom(limit, body) => if |s.results| >= limit then 1 else 1 + Cost(body, s, db)
    case Scan(c, root, body) =>
      if root !in db then 1
      else if db[root] == [] then 4
      else 3 + CostRows(c, root, body, s.(cursors := s.cursors[c := AtRow(root, 0)], end := false), db, 0)
  }

  function CostRows(c: nat, root: nat, body: seq<Stmt>, s: State, db: Tables, pos: nat): nat
    requires root in db && pos < |db[root]|
    decreases body, |db[root]| - pos
  {
    match RunSeq(body, s, db)
    case Bad(_) => Cost(body, s, db)
    case Ok(s1) =>
      if pos + 1 < |db[root]| then
        Cost(body, s, db) + 3 + CostRows(c, root, body, s1.(cursors := s1.cursors[c := AtRow(root, pos + 1)], end := false), db, pos + 1)
      else Cost(body, s, db) + 3
  }

  /** The program holds the operations code from position at on. */
  ghost predicate Placed(ops: seq<Op>, at: nat, code: seq<Op>) {
    at + |code| <= |ops| && ops[at..at + |code|] == code
  }

  lemma PlacedParts(ops: seq<Op>, at: nat, a: seq<Op>, b: seq<Op>)
    requires Placed(ops, at, a + b)
    ensures Placed(ops, at, a) && Placed(ops, at + |a|, b)
  {
    assert ops[at..at + |a|] == (a + b)[..|a|];
    assert ops[at + |a|..at + |a| + |b|] == (a + b)[|a|..];
  }

  lemma PlacedAt(ops: seq<Op>, at: nat, code: seq<Op>, i: nat)
    requires Placed(ops, at, code) && i < |code|
    ensures at + i < |ops| && ops[at + i] == code[i]
  {
    assert ops[at..at + |code|][i] == code[i];
  }

  function Reaches(o: Outcome, pc: nat): Config {
    match o
    case Ok(s) => Running(pc, s)
    case Bad(s) => Failed(s)
  }

  lemma {:induction false} SimSeq(ops: seq<Op>, db: Tables, b: seq<Stmt>, at: nat, s: State, lo: nat)
    requires Placed(ops, at, Flat(b, at)) && Scoped(b, lo)
    ensures Steps(ops, db, Running(at, s), Cost(b, s, db)) == Reaches(RunSeq(b, s, db), at + Len(b))
    decreases b, 0
  {
    hide Placed, Exec, FlatStmt, RunStmt, CostStmt, ScopedStmt;
    if b != [] {
      PlacedParts(ops, at, FlatStmt(b[0], at), Flat(b[1..], at + LenStmt(b[0])));
      SimStmt(ops, db, b[0], at, s, lo);
      if RunStmt(b[0], s, db).Ok? {
        var s1 := RunStmt(b[0], s, db).s;
        SimSeq(ops, db, b[1..], at + LenStmt(b[0]), s1, lo);
        StepsAdd(ops, db, Running(at, s), CostStmt(b[0], s, db), Cost(b[1..], s1, db));
      }
    }
  }

  lemma {:induction false} SimStmt(ops: seq<Op>, db: Tables, st: Stmt, at: nat, s: State, lo: nat)
    requires Placed(ops, at, FlatStmt(st, at)) && ScopedStmt(st, lo)
    ensures Steps(ops, db, Running(at, s), CostStmt(st, s, db)) == Reaches(RunStmt(st, s, db), at + LenStmt(st))
    decreases st, 0
  {
    hide Placed;
    PlacedAt(ops, at, FlatStmt(st, at), 0);
    match st
    case Prim(op) =>
      OneStep(ops, db, Running(at, s));
    case WhenTrue(r, body) =>
      SimWhenTrue(ops, db, r, body, at, s, lo);
    case WhenRoom(limit, body) =>
      SimWhenRoom(ops, db, limit, body, at, s, lo);
    case Scan(c, root, body) =>
      SimScan(ops, db, c, root, body, at, s, lo);
  }

  lemma {:induction false} SimWhenTrue(ops: seq<Op>, db: Tables, r: nat, body: seq<Stmt>, at: nat, s: State, lo: nat)
    requires Placed(ops, at, FlatStmt(WhenTrue(r, body), at)) && Scoped(body, lo)
    ensures var st := WhenTrue(r, body);
            Steps(ops, db, Running(at, s), CostStmt(st, s, db)) == Reaches(RunStmt(st, s, db), at + LenStmt(st))
    decreases body, 1
  {
    hide Placed, Flat;
    PlacedAt(ops, at, FlatStmt(WhenTrue(r, body), at), 0);
    PlacedParts(ops, at, [IfNot(r, at + 1 + Len(body))], Flat(body, at + 1));
    OneStep(ops, db, Running(at, s));
    if ReadReg(s.regs, r).Some? && IsTruthy(ReadReg(s.regs, r).value) {
      SimSeq(ops, db, body, at + 1, s, lo);
      StepsAdd(ops, db, Running(at, s), 1, Cost(body, s, db));
    }
  }

  lemma {:induction false} SimWhenRoom(ops: seq<Op>, db: Tables, limit: nat, body: seq<Stmt>, at: nat, s: State, lo: nat)
    requires Placed(ops, at, FlatStmt(WhenRoom(limit, body), at)) && Scoped(body, lo)
    ensures var st := WhenRoom(limit, body);
            Steps(ops, db, Running(at, s), CostStmt(st, s, db)) == Reaches(RunStmt(st, s, db), at + LenStmt(st))
    decreases body, 1
  {
    hide Placed, Flat;
    PlacedAt(ops, at, FlatStmt(WhenRoom(limit, body), at), 0);
    PlacedParts(ops, at, [IfResultsGe(limit, at + 1 + Len(body))], Flat(body, at + 1));
    OneStep(ops, db, Running(at, s));
    if |s.results| < limit {
      SimSeq(ops, db, body, at + 1, s, lo);
      StepsAdd(ops, db, Running(at, s), 1, Cost(body, s, db));
    }
  }

  lemma OneStep(ops: seq<Op>, db: Tables, m: Config)
    ensures Steps(ops, db, m, 1) == Step(ops, db, m)
  {
    assert Steps(ops, db, Step(ops, db, m), 0) == Step(ops, db, m);
  }

  /** Where the seven operations of a scan stand. */
  ghost predicate ScanPlaced(ops: seq<Op>, c: nat, root: nat, body: seq<Stmt>, at: nat) {
    var n := Len(body);
    && at + 7 + n <= |ops|
    && ops[at] == OpenRead(c, root) && ops[at + 1] == Rewind(c) && ops[at + 2] == IfCursorEnd(at + 6 + n)
    && Placed(ops, at + 3, Flat(body, at + 3))
    && ops[at + 3 + n] == MoveNext(c) && ops[at + 4 + n] == IfCursorEnd(at + 6 + n)
    && ops[at + 5 + n] == Goto(at + 3) && ops[at + 6 + n] == Close(c)
  }

  lemma ScanParts(ops: seq<Op>, c: nat, root: nat, body: seq<Stmt>, at: nat)
    requires Placed(ops, at, FlatStmt(Scan(c, root, body), at))
    ensures ScanPlaced(ops, c, root, body, at)
  {
    hide Placed, Flat;
    var n := Len(body);
    var head, tail := ScanHead(c, root, at + 6 + n), ScanTail(c, at + 3, at + 6 + n);
    PlacedParts(ops, at, head + Flat(body, at + 3), tail);
    PlacedParts(ops, at, head, Flat(body, at + 3));
    PlacedAt(ops, at, head, 0);
    PlacedAt(ops, at, head, 1);
    PlacedAt(ops, at, head, 2);
    PlacedAt(ops, at + 3 + n, tail, 0);
    PlacedAt(ops, at + 3 + n, tail, 1);
    PlacedAt(ops, at + 3 + n, tail, 2);
    PlacedAt(ops, at + 3 + n, tail, 3);
  }

  lemma {:induction false} SimScan(ops: seq<Op>, db: Tables, c: nat, root: nat, body: seq<Stmt>, at: nat, s: State, lo: nat)
    requires Placed(ops, at, FlatStmt(Scan(c, root, body), at)) && ScopedStmt(Scan(c, root, body), lo)
    ensures var st := Scan(c, root, body);
            Steps(ops, db, Running(at, s), CostStmt(st, s, db)) == Reaches(RunStmt(st, s, db), at + LenStmt(st))
    decreases body, 1 + |if root in db then db[root] else []|
  {
    hide Placed, Flat;
    ScanParts(ops, c, root, body, at);
    var n := Len(body);
    if root !in db {
      OneStep(ops, db, Running(at, s));
    } else {
      var rows := db[root];
      var s1 := s.(cursors := s.cursors[c := Opened(root)]);
      var s2 := s.(cursors := s.cursors[c := AtRow(root, 0)], end := rows == []);
      OpenSteps(ops, db, c, root, body, at, s);
      if rows == [] {
        CloseStep(ops, db, c, at + 6 + n, s2);
        StepsAdd(ops, db, Running(at, s), 3, 1);
        assert s2.cursors - {c} == s.cursors - {c};
      } else {
        SimRows(ops, db, c, root, body, at, s2, 0);
        StepsAdd(ops, db, Running(at, s), 3, CostRows(c, root, body, s2, db, 0));
      }
    }
  }

  lemma StepOpen(ops: seq<Op>, db: Tables, pc: nat, c: nat, root: nat, s: State)
    requires pc < |ops| && ops[pc] == OpenRead(c, root) && root in db
    ensures Step(ops, db, Running(pc, s)) == Running(pc + 1, s.(cursors := s.cursors[c := Opened(root)]))
  {
  }

  lemma StepRewind(ops: seq<Op>, db: Tables, pc: nat, c: nat, root: nat, s: State)
    requires pc < |ops| && ops[pc] == Rewind(c) && root in db && c in s.cursors && s.cursors[c] == Opened(root)
    ensures Step(ops, db, Running(pc, s)) == Running(pc + 1, s.(cursors := s.cursors[c := AtRow(root, 0)], end := db[root] == []))
  {
  }

  lemma StepMove(ops: seq<Op>, db: Tables, pc: nat, c: nat, root: nat, pos: nat, s: State)
    requires pc < |ops| && ops[pc] == MoveNext(c) && root in db && c in s.cursors && s.cursors[c] == AtRow(root, pos)
    requires pos < |db[root]|
    ensures Step(ops, db, Running(pc, s)) ==
            Running(pc + 1, s.(cursors := s.cursors[c := AtRow(root, pos + 1)], end := pos + 1 == |db[root]|))
  {
  }

  lemma StepIfEnd(ops: seq<Op>, db: Tables, pc: nat, t: nat, s: State)
    requires pc < |ops| && ops[pc] == IfCursorEnd(t) && t != pc
    ensures Step(ops, db, Running(pc, s)) == Running(if s.end then t else pc + 1, s)
  {
  }

  lemma StepGoto(ops: seq<Op>, db: Tables, pc: nat, t: nat, s: State)
    requires pc < |ops| && ops[pc] == Goto(t) && t != pc
    ensures Step(ops, db, Running(pc, s)) == Running(t, s)
  {
  }

  /** Opening and rewinding, and the first test for the end. */
  lemma OpenSteps(ops: seq<Op>, db: Tables, c: nat, root: nat, body: seq<Stmt>, at: nat, s: State)
    requires ScanPlaced(ops, c, root, body, at) && root in db
    ensures var s2 := s.(cursors := s.cursors[c := AtRow(root, 0)], end := db[root] == []);
            Steps(ops, db, Running(at, s), 3) == Running(if db[root] == [] then at + 6 + Len(body) else at + 3, s2)
  {
    hide Placed, Step, Exec, Steps, Flat;
    var s1 := s.(cursors := s.cursors[c := Opened(root)]);
    var s2 := s.(cursors := s.cursors[c := AtRow(root, 0)], end := db[root] == []);
    assert s1.cursors[c := AtRow(root, 0)] == s2.cursors;
    StepOpen(ops, db, at, c, root, s);
    StepRewind(ops, db, at + 1, c, root, s1);
    StepIfEnd(ops, db, at + 2, at + 6 + Len(body), s2);
    ThreeSteps(ops, db, Running(at, s));
  }

  lemma ThreeSteps(ops: seq<Op>, db: Tables, m: Config)
    ensures Steps(ops, db, m, 3) == Step(ops, db, Step(ops, db, Step(ops, db, m)))
    ensures Steps(ops, db, m, 2) == Step(ops, db, Step(ops, db, m))
  {
    hide Step;
    var m1 := Step(ops, db, m);
    var m2 := Step(ops, db, m1);
    OneStep(ops, db, m2);
    assert Steps(ops, db, m1, 2) == Steps(ops, db, m2, 1);
    assert Steps(ops, db, m, 3) == Steps(ops, db, m1, 2);
    OneStep(ops, db, m1);
  }

  lemma CloseStep(ops: seq<Op>, db: Tables, c: nat, pc: nat, s: State)
    requires pc < |ops| && ops[pc] == Close(c) && c in s.cursors
    ensures Steps(ops, db, Running(pc, s), 1) == Running(pc + 1, s.(cursors := s.cursors - {c}))
  {
    OneStep(ops, db, Running(pc, s));
  }

  /** The loop from row pos on. */
  lemma {:induction false} SimRows(ops: seq<Op>, db: Tables, c: nat, root: nat, body: seq<Stmt>, at: nat, s: State, pos: nat)
    requires ScanPlaced(ops, c, root, body, at) && Scoped(body, c + 1)
    requires root in db && pos < |db[root]| && c in s.cursors && s.cursors[c] == AtRow(root, pos)
    ensures Steps(ops, db, Running(at + 3, s), CostRows(c, root, body, s, db, pos)) ==
            Reaches(RunRows(c, root, body, s, db, pos), at + 7 + Len(body))
    decreases body, |db[root]| - pos
  {
    hide Placed, Exec, Flat;
    var n, k := Len(body), Cost(body, s, db);
    SimSeq(ops, db, body, at + 3, s, c + 1);
    SeqKeeps(body, s, db, c + 1);
    match RunSeq(body, s, db)
    case Bad(_) =>
    case Ok(s1) =>
      if pos + 1 < |db[root]| {
        var s2 := s1.(cursors := s1.cursors[c := AtRow(root, pos + 1)], end := false);
        NextStep(ops, db, c, root, body, at, s1, pos);
        SimRows(ops, db, c, root, body, at, s2, pos + 1);
        StepsAdd(ops, db, Running(at + 3, s), k, 3);
        StepsAdd(ops, db, Running(at + 3, s), k + 3, CostRows(c, root, body, s2, db, pos + 1));
      } else {
        LastStep(ops, db, c, root, body, at, s1, pos);
        StepsAdd(ops, db, Running(at + 3, s), k, 3);
      }
  }

  /** From the end of one row to the start of the next. */
  lemma NextStep(ops: seq<Op>, db: Tables, c: nat, root: nat, body: seq<Stmt>, at: nat, s: State, pos: nat)
    requires ScanPlaced(ops, c, root, body, at) && root in db && pos + 1 < |db[root]|
    requires c in s.cursors && s.cursors[c] == AtRow(root, pos)
    ensures Steps(ops, db, Running(at + 3 + Len(body), s), 3) ==
            Running(at + 3, s.(cursors := s.cursors[c := AtRow(root, pos + 1)], end := false))
  {
    hide Placed, Flat, Step, Exec, Steps;
    var pc := at + 3 + Len(body);
    var s1 := s.(cursors := s.cursors[c := AtRow(root, pos + 1)], end := false);
    StepMove(ops, db, pc, c, root, pos, s);
    StepIfEnd(ops, db, pc + 1, pc + 3, s1);
    StepGoto(ops, db, pc + 2, at + 3, s1);
    ThreeSteps(ops, db, Running(pc, s));
  }

  /** From the end of the last row past the scan. */
  lemma LastStep(ops: seq<Op>, db: Tables, c: nat, root: nat, body: seq<Stmt>, at: nat, s: State, pos: nat)
    requires ScanPlaced(ops, c, root, body, at) && root in db && pos + 1 == |db[root]|
    requires c in s.cursors && s.cursors[c] == AtRow(root, pos)
    ensures Steps(ops, db, Running(at + 3 + Len(body), s), 3) ==
            Running(at + 7 + Len(body), s.(cursors := s.cursors - {c}, end := true))
  {
    hide Placed, Flat, Step, Exec, Steps;
    var pc := at + 3 + Len(body);
    var s1 := s.(cursors := s.cursors[c := AtRow(root, pos + 1)], end := true);
    StepMove(ops, db, pc, c, root, pos, s);
    StepIfEnd(ops, db, pc + 1, pc + 3, s1);
    CloseStep(ops, db, c, pc + 3, s1);
    OneStep(ops, db, Running(pc + 3, s1));
    assert s1.cursors - {c} == s.cursors - {c};
    ThreeSteps(ops, db, Running(pc, s));
  }

  // ---------------------------------------------------------------- where jumps go

  /** A jump at position p goes inside the range, its end included, and not to itself. */
  predicate JumpOk(op: Op, p: nat, from: nat, to: nat) {
    op.IfCursorEnd? || op.IfResultsGe? || op.Goto? || op.IfNot? ==> from <= op.target <= to && op.target != p
  }

  ghost predicate JumpsOk(ops: seq<Op>, at: nat, from: nat, to: nat) {
    forall i :: 0 <= i < |ops| ==> JumpOk(ops[i], at + i, from, to)
  }

  lemma JumpsAppend(a: seq<Op>, b: seq<Op>, at: nat, from: nat, to: nat)
    requires JumpsOk(a, at, from, to) && JumpsOk(b, at + |a|, from, to)
    ensures JumpsOk(a + b, at, from, to)
  {
    hide JumpOk;
    var ops := a + b;
    forall i | 0 <= i < |ops| ensures JumpOk(ops[i], at + i, from, to) {
      if i < |a| { assert ops[i] == a[i]; } else { assert ops[i] == b[i - |a|]; }
    }
  }

  lemma JumpsWiden(ops: seq<Op>, at: nat, from: nat, to: nat, from': nat, to': nat)
    requires JumpsOk(ops, at, from, to) && from' <= from && to <= to'
    ensures JumpsOk(ops, at, from', to')
  {
    forall i | 0 <= i < |ops| ensures JumpOk(ops[i], at + i, from', to') {
      assert JumpOk(ops[i], at + i, from, to);
    }
  }

  /** Every jump of a block stays inside the block or goes right behind it, and none jumps to itself. */
  lemma {:induction false} FlatJumps(b: seq<Stmt>, at: nat, lo: nat)
    requires Scoped(b, lo)
    ensures JumpsOk(Flat(b, at), at, at, at + Len(b))
    decreases b, 0
  {
    hide FlatStmt, JumpOk, ScopedStmt, LenStmt;
    if b != [] {
      var x, n := FlatStmt(b[0], at), LenStmt(b[0]);
      StmtJumps(b[0], at, lo);
      FlatJumps(b[1..], at + n, lo);
      JumpsWiden(x, at, at, at + n, at, at + Len(b));
      JumpsWiden(Flat(b[1..], at + n), at + n, at + n, at + Len(b), at, at + Len(b));
      JumpsAppend(x, Flat(b[1..], at + n), at, at, at + Len(b));
    }
  }

  lemma {:induction false} StmtJumps(st: Stmt, at: nat, lo: nat)
    requires ScopedStmt(st, lo)
    ensures JumpsOk(FlatStmt(st, at), at, at, at + LenStmt(st))
    decreases st, 0
  {
    hide Flat;
    var end := at + LenStmt(st);
    match st
    case Prim(_) =>
    case WhenTrue(r, body) =>
      FlatJumps(body, at + 1, lo);
      JumpsWiden(Flat(body, at + 1), at + 1, at + 1, end, at, end);
      JumpsAppend([IfNot(r, end)], Flat(body, at + 1), at, at, end);
    case WhenRoom(limit, body) =>
      FlatJumps(body, at + 1, lo);
      JumpsWiden(Flat(body, at + 1), at + 1, at + 1, end, at, end);
      JumpsAppend([IfResultsGe(limit, end)], Flat(body, at + 1), at, at, end);
    case Scan(c, root, body) =>
      FlatJumps(body, at + 3, c + 1);
      JumpsWiden(Flat(body, at + 3), at + 3, at + 3, at + 3 + Len(body), at, end);
      JumpsAppend(ScanHead(c, root, end - 1), Flat(body, at + 3), at, at, end);
      JumpsAppend(ScanHead(c, root, end - 1) + Flat(body, at + 3), ScanTail(c, at + 3, end - 1), at, at, end);
  }
}
