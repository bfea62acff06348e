/** The virtual machine with the operations that change tables. */
module UpdateMachine {
  import opened Values
  import opened Cells
  import opened SqlSyntax
  import opened Evaluate
  import opened Machine
  import opened RecordCodec
  import opened Blocks
  import opened BTreeUpdate
  import C = PlanCorrect

  /** Operations that only read are those of the machine for queries. */
  datatype TableOp =
    | Base(op: Op)
    | OpenWrite(cursor: nat, root: nat)
    | Rowid(cursor: nat, dest: nat)
    | MakeRecord(dest: nat, fields: seq<nat>)
    | UpdateRow(cursor: nat, key: nat, value: nat)

  /** Every table by root page: its cells in key order. */
  type Heap = map<nat, seq<Cell>>

  function Rows(cells: seq<Cell>): (r: seq<Record>)
    ensures |r| == |cells|
    ensures forall i :: 0 <= i < |r| ==> r[i] == cells[i].val
  {
    seq(|cells|, i requires 0 <= i < |cells| => cells[i].val)
  }

  function Db(h: Heap): (db: Tables)
    ensures db.Keys == h.Keys
    ensures forall r :: r in db ==> db[r] == Rows(h[r])
  {
    map r | r in h :: Rows(h[r])
  }

  datatype TableState = TableState(s: State, heap: Heap)

  datatype TableEffect = Refused | Goes(u: TableState) | GoingTo(u: TableState, target: nat) | Ended(u: TableState)

  /** The cell a cursor stands at. */
  function CurrentCell(u: TableState, c: nat): (r: Option<Cell>)
    ensures r.Some? ==> c in u.s.cursors && u.s.cursors[c].AtRow?
    ensures r.Some? ==> u.s.cursors[c].root in u.heap && u.s.cursors[c].pos < |u.heap[u.s.cursors[c].root]|
  {
    if c in u.s.cursors && u.s.cursors[c].AtRow? && u.s.cursors[c].root in u.heap && u.s.cursors[c].pos < |u.heap[u.s.cursors[c].root]|
    then Some(u.heap[u.s.cursors[c].root][u.s.cursors[c].pos])
    else None
  }

  function Lift(e: Effect, h: Heap): TableEffect {
    match e
    case Fail => Refused
    case Next(s) => Goes(TableState(s, h))
    case Jump(s, t) => GoingTo(TableState(s, h), t)
    case Stop(s) => Ended(TableState(s, h))
  }

  /** Row keys are integers. */
  function RowidValue(k: int): Option<Value> {
    if 0 <= k < U64_LIMIT then Some(Integer(k)) else None
  }

  function ExecTable(fc: FloatCodec, op: TableOp, u: TableState): TableEffect {
    match op
    case Base(b) => Lift(Exec(b, u.s, Db(u.heap)), u.heap)
    case OpenWrite(c, root) => Lift(Exec(OpenRead(c, root), u.s, Db(u.heap)), u.heap)
    case Rowid(c, d) =>
      (match CurrentCell(u, c)
       case None => Refused
       case Some(cell) => Lift(Put(u.s, d, RowidValue(cell.key)), u.heap))
    case MakeRecord(d, fs) =>
      (match Fields(u.s.regs, fs)
       case None => Refused
       case Some(row) => Lift(Put(u.s, d, Some(Blob(RecordBytes(fc, row)))), u.heap))
    case UpdateRow(c, k, v) =>
      (match (CurrentCell(u, c), ReadReg(u.s.regs, k), ReadReg(u.s.regs, v))
       case (Some(cell), Some(key), Some(val)) =>
         (match RecordFromRegister(fc, val)
          case None => Refused
          case Some(row) =>
            if Some(key) != RowidValue(cell.key) then Refused
            else
              var cur := u.s.cursors[c];
              Goes(u.(heap := u.heap[cur.root := PutVal(u.heap[cur.root], cur.pos, row)])))
       case _ => Refused)
  }

  datatype TableConfig = At(pc: nat, u: TableState) | Finished(u: TableState) | Stuck(u: TableState)

  function StepTable(fc: FloatCodec, ops: seq<TableOp>, m: TableConfig): TableConfig {
    match m
    case At(pc, u) =>
      if pc >= |ops| then Finished(u)
      else (match ExecTable(fc, ops[pc], u)
            case Refused => Stuck(u)
            case Goes(u1) => At(pc + 1, u1)
            case GoingTo(u1, t) => At(if t == pc then pc + 1 else t, u1)
            case Ended(u1) => Finished(u1))
    case _ => m
  }

  function StepsTable(fc: FloatCodec, ops: seq<TableOp>, m: TableConfig, n: nat): TableConfig
    decreases n
  {
    if n == 0 then m else StepsTable(fc, ops, StepTable(fc, ops, m), n - 1)
  }

  lemma {:induction false} StepsTableAdd(fc: FloatCodec, ops: seq<TableOp>, m: TableConfig, a: nat, b: nat)
    ensures StepsTable(fc, ops, m, a + b) == StepsTable(fc, ops, StepsTable(fc, ops, m, a), b)
    decreases a
  {
    if a > 0 { StepsTableAdd(fc, ops, StepTable(fc, ops, m), a - 1, b); }
  }

  lemma {:induction false} StepsTableDone(fc: FloatCodec, ops: seq<TableOp>, m: TableConfig, n: nat)
    requires !m.At?
    ensures StepsTable(fc, ops, m, n) == m
    decreases n
  {
    if n > 0 { StepsTableDone(fc, ops, m, n - 1); }
  }

  /** The machine gets from m to w in some number of steps. */
  ghost predicate Gets(fc: FloatCodec, ops: seq<TableOp>, m: TableConfig, w: TableConfig) {
    exists n: nat :: StepsTable(fc, ops, m, n) == w
  }

  lemma GetsSelf(fc: FloatCodec, ops: seq<TableOp>, m: TableConfig)
    ensures Gets(fc, ops, m, m)
  {
    assert StepsTable(fc, ops, m, 0) == m;
  }

  lemma GetsStep(fc: FloatCodec, ops: seq<TableOp>, m: TableConfig)
    ensures Gets(fc, ops, m, StepTable(fc, ops, m))
  {
    assert StepsTable(fc, ops, StepTable(fc, ops, m), 0) == StepTable(fc, ops, m);
    assert StepsTable(fc, ops, m, 1) == StepTable(fc, ops, m);
  }

  lemma GetsTrans(fc: FloatCodec, ops: seq<TableOp>, a: TableConfig, b: TableConfig, c: TableConfig)
    requires Gets(fc, ops, a, b) && Gets(fc, ops, b, c)
    ensures Gets(fc, ops, a, c)
  {
    var n: nat :| StepsTable(fc, ops, a, n) == b;
    var k: nat :| StepsTable(fc, ops, b, k) == c;
    StepsTableAdd(fc, ops, a, n, k);
  }

  // ---------------------------------------------------------------- straight-line code

  function Bases(ops: seq<Op>): (r: seq<TableOp>)
    ensures |r| == |ops|
    ensures forall i :: 0 <= i < |r| ==> r[i] == Base(ops[i])
  {
    seq(|ops|, i requires 0 <= i < |ops| => Base(ops[i]))
  }

  ghost predicate Holds(ops: seq<TableOp>, at: nat, code: seq<TableOp>) {
    at + |code| <= |ops| && forall i :: 0 <= i < |code| ==> ops[at + i] == code[i]
  }

  function ReachesTable(o: Outcome, pc: nat, h: Heap): TableConfig {
    match o
    case Ok(s) => At(pc, TableState(s, h))
    case Bad(s) => Stuck(TableState(s, h))
  }

  /** Plain operations do what they do for queries, and leave the tables alone. */
  lemma {:induction false} RunBases(fc: FloatCodec, ops: seq<TableOp>, at: nat, code: seq<Op>, u: TableState)
    requires Holds(ops, at, Bases(code)) && forall i :: 0 <= i < |code| ==> Plain(code[i])
    ensures Gets(fc, ops, At(at, u), ReachesTable(C.RunOps(code, u.s, Db(u.heap)), at + |code|, u.heap))
    decreases code
  {
    hide Exec, Gets;
    if code == [] {
      GetsSelf(fc, ops, At(at, u));
    } else {
      assert ops[at] == Base(code[0]);
      PlainEffect(code[0], u.s, Db(u.heap));
      GetsStep(fc, ops, At(at, u));
      var o := RunPrim(code[0], u.s, Db(u.heap));
      if o.Ok? {
        var u1 := TableState(o.s, u.heap);
        assert Holds(ops, at + 1, Bases(code[1..])) by {
          forall i | 0 <= i < |code| - 1 ensures ops[at + 1 + i] == Bases(code[1..])[i] { assert ops[at + (i + 1)] == Bases(code)[i + 1]; }
        }
        RunBases(fc, ops, at + 1, code[1..], u1);
        GetsTrans(fc, ops, At(at, u), At(at + 1, u1), ReachesTable(C.RunOps(code, u.s, Db(u.heap)), at + |code|, u.heap));
      }
    }
  }

  lemma PlainEffect(op: Op, s: State, db: Tables)
    requires Plain(op)
    ensures Exec(op, s, db).Next? || Exec(op, s, db).Fail?
  {
  }
}
