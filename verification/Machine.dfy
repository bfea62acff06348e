/** The virtual machine: operations on cursors, registers and results, and the fetch-execute loop. */
module Machine {
  import opened Values
  import opened SqlSyntax
  import opened Evaluate

  /** Jump targets are labels while code is generated and positions in the finished program. */
  datatype Op =
    | OpenRead(cursor: nat, root: nat)
    | Close(cursor: nat)
    | Rewind(cursor: nat)
    | MoveNext(cursor: nat)
    | IfCursorEnd(target: nat)
    | IfResultsGe(limit: nat, target: nat)
    | Goto(target: nat)
    | IfNot(cond: nat, target: nat)
    | LoadInteger(dest: nat, i: int)
    | LoadReal(dest: nat, r: real)
    | LoadText(dest: nat, s: string)
    | LoadNull(dest: nat)
    | ReadColumn(cursor: nat, col: nat, dest: nat)
    | Compute(op: BinaryOp, lhs: nat, rhs: nat, dest: nat)
    | NotOp(src: nat, dest: nat)
    | NegateOp(src: nat, dest: nat)
    | ResultRow(fields: seq<nat>)
    | Halt

  /** Just opened, or at a row of the table; past the last row the position is the number of rows. */
  datatype Cursor = Opened(root: nat) | AtRow(root: nat, pos: nat)

  /** The rows of every table by root page, in key order. */
  type Tables = map<nat, seq<Record>>

  datatype State = State(cursors: map<nat, Cursor>, regs: seq<Value>, end: bool, results: seq<Record>)

  datatype Effect = Fail | Next(s: State) | Jump(s: State, target: nat) | Stop(s: State)

  function ReadReg(regs: seq<Value>, r: nat): Option<Value> {
    if r < |regs| then Some(regs[r]) else None
  }

  function Nulls(n: nat): (s: seq<Value>)
    ensures |s| == n
  {
    if n == 0 then [] else Nulls(n - 1) + [Null]
  }

  /** The register file grows as far as needed. */
  function WriteReg(regs: seq<Value>, r: nat, v: Value): (q: seq<Value>)
    ensures |q| == (if |regs| <= r then r + 1 else |regs|)
    ensures q[r] == v
    ensures forall i :: 0 <= i < |regs| && i != r ==> q[i] == regs[i]
  {
    var grown := if |regs| <= r then regs + Nulls(r + 1 - |regs|) else regs;
    grown[r := v]
  }

  /** The record a cursor stands at. */
  function Current(s: State, db: Tables, c: nat): Option<Record> {
    if c in s.cursors && s.cursors[c].AtRow? && s.cursors[c].root in db && s.cursors[c].pos < |db[s.cursors[c].root]|
    then Some(db[s.cursors[c].root][s.cursors[c].pos])
    else None
  }

  function Fields(regs: seq<Value>, fs: seq<nat>): Option<Record> {
    if fs == [] then Some([])
    else match (ReadReg(regs, fs[0]), Fields(regs, fs[1..]))
         case (Some(v), Some(row)) => Some([v] + row)
         case _ => None
  }

  ghost function Prepend(got: Record, rest: Option<Record>): Option<Record> {
    if rest.Some? then Some(got + rest.value) else None
  }

  lemma PrependEnds(o: Option<Record>, got: Record)
    ensures Prepend([], o) == o && Prepend(got, Some([])) == Some(got)
  {
    if o.Some? { assert [] + o.value == o.value; }
    assert got + [] == got;
  }

  lemma PrependMore(got: Record, v: Value, rest: Option<Record>)
    ensures Prepend(got, Prepend([v], rest)) == Prepend(got + [v], rest)
  {
    if rest.Some? { assert got + ([v] + rest.value) == (got + [v]) + rest.value; }
  }

  function Put(s: State, dest: nat, v: Option<Value>): Effect {
    if v.Some? then Next(s.(regs := WriteReg(s.regs, dest, v.value))) else Fail
  }

  function Exec(op: Op, s: State, db: Tables): Effect {
    match op
    case OpenRead(c, root) => if root in db then Next(s.(cursors := s.cursors[c := Opened(root)])) else Fail
    case Close(c) => if c in s.cursors then Next(s.(cursors := s.cursors - {c})) else Fail
    case Rewind(c) =>
      if c in s.cursors && s.cursors[c].Opened? && s.cursors[c].root in db then
        Next(s.(cursors := s.cursors[c := AtRow(s.cursors[c].root, 0)], end := db[s.cursors[c].root] == []))
      else Fail
    case MoveNext(c) =>
      if c in s.cursors && s.cursors[c].AtRow? && s.cursors[c].root in db then
        var root, pos := s.cursors[c].root, s.cursors[c].pos;
        if pos + 1 < |db[root]| then Next(s.(cursors := s.cursors[c := AtRow(root, pos + 1)], end := false))
        else Next(s.(cursors := s.cursors[c := AtRow(root, |db[root]|)], end := true))
      else Fail
    case IfCursorEnd(t) => if s.end then Jump(s, t) else Next(s)
    case IfResultsGe(limit, t) => if |s.results| >= limit then Jump(s, t) else Next(s)
    case Goto(t) => Jump(s, t)
    case IfNot(r, t) =>
      (match ReadReg(s.regs, r)
       case None => Fail
       case Some(v) => if IsTruthy(v) then Next(s) else Jump(s, t))
    case LoadInteger(d, i) => Put(s, d, LiteralValue(LitInteger(i)))
    case LoadReal(d, r) => Put(s, d, Some(Real(r)))
    case LoadText(d, t) => Put(s, d, Some(Text(t)))
    case LoadNull(d) => Put(s, d, Some(Null))
    case ReadColumn(c, col, d) =>
      (match Current(s, db, c)
       case None => Fail
       case Some(rec) => Put(s, d, Some(Field(rec, col))))
    case Compute(bop, l, r, d) =>
      (match (ReadReg(s.regs, l), ReadReg(s.regs, r))
       case (Some(a), Some(b)) => Put(s, d, BinaryValue(bop, a, b))
       case _ => Fail)
    case NotOp(src, d) =>
      (match ReadReg(s.regs, src)
       case None => Fail
       case Some(v) => Put(s, d, Some(BoolValue(!IsTruthy(v)))))
    case NegateOp(src, d) =>
      (match ReadReg(s.regs, src)
       case None => Fail
       case Some(v) => Put(s, d, NegateValue(v)))
    case ResultRow(fs) =>
      (match Fields(s.regs, fs)
       case None => Fail
       case Some(row) => Next(s.(results := s.results + [row])))
    case Halt => Stop(s)
  }

  datatype Config = Running(pc: nat, s: State) | Halted(s: State) | Failed(s: State)

  /** One turn of the loop; an operation that leaves pc alone falls through, and so does a jump to itself. */
  function Step(ops: seq<Op>, db: Tables, m: Config): Config {
    match m
    case Running(pc, s) =>
      if pc >= |ops| then Halted(s)
      else (match Exec(ops[pc], s, db)
            case Fail => Failed(s)
            case Next(s1) => Running(pc + 1, s1)
            case Jump(s1, t) => Running(if t == pc then pc + 1 else t, s1)
            case Stop(s1) => Halted(s1))
    case _ => m
  }

  function Steps(ops: seq<Op>, db: Tables, m: Config, n: nat): Config
    decreases n
  {
    if n == 0 then m else Steps(ops, db, Step(ops, db, m), n - 1)
  }

  lemma {:induction false} StepsAdd(ops: seq<Op>, db: Tables, m: Config, a: nat, b: nat)
    ensures Steps(ops, db, m, a + b) == Steps(ops, db, Steps(ops, db, m, a), b)
    decreases a
  {
    if a > 0 { StepsAdd(ops, db, Step(ops, db, m), a - 1, b); }
  }
}
