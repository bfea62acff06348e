/** Programs that open a table and at once go to its first row: no cursor is ever read or moved before that. */
module ProgramChecks {
  import opened Values
  import opened Machine
  import opened RecordCodec
  import opened UpdateMachine

  /** The cursor an operation opens. */
  function Opening(op: TableOp): Option<nat> {
    match op
    case OpenWrite(c, _) => Some(c)
    case Base(OpenRead(c, _)) => Some(c)
    case _ => None
  }

  function OpenedRoot(op: TableOp): Option<nat> {
    match op
    case OpenWrite(_, r) => Some(r)
    case Base(OpenRead(_, r)) => Some(r)
    case _ => None
  }

  function Rewinding(op: TableOp): Option<nat> {
    match op
    case Base(Rewind(c)) => Some(c)
    case _ => None
  }

  function Target(op: TableOp): Option<nat> {
    match op
    case Base(IfCursorEnd(t)) => Some(t)
    case Base(IfResultsGe(_, t)) => Some(t)
    case Base(Goto(t)) => Some(t)
    case Base(IfNot(_, t)) => Some(t)
    case _ => None
  }

  /** Operation i is one of a pair that opens and rewinds, or neither; tables it opens are among roots. */
  ghost predicate OpFits(ops: seq<TableOp>, i: nat, roots: set<nat>, only: Option<nat>)
    requires i < |ops|
  {
    var op := ops[i];
    && (Opening(op).Some? ==>
          && OpenedRoot(op).value in roots && i + 1 < |ops| && Rewinding(ops[i + 1]) == Opening(op)
          && (only.Some? ==> Opening(op) == only))
    && (Rewinding(op).Some? ==> i > 0 && Opening(ops[i - 1]) == Rewinding(op))
    && (Target(op).Some? && Target(op).value < |ops| ==> Rewinding(ops[Target(op).value]).None?)
    && (op.UpdateRow? ==> only == Some(op.cursor))
  }

  /** A program with updates uses one cursor. */
  ghost predicate Orderly(ops: seq<TableOp>, roots: set<nat>, only: Option<nat>) {
    forall i :: 0 <= i < |ops| ==> OpFits(ops, i, roots, only)
  }

  ghost predicate NoneOpened(cursors: map<nat, Cursor>) {
    forall d :: d in cursors ==> cursors[d].AtRow?
  }

  /** A cursor has just been opened exactly if it is rewound next. */
  ghost predicate Sensible(ops: seq<TableOp>, only: Option<nat>, m: TableConfig) {
    m.At? ==>
      && (only.Some? ==> m.u.s.cursors.Keys <= {only.value})
      && if m.pc < |ops| && Rewinding(ops[m.pc]).Some? then
           var c := Rewinding(ops[m.pc]).value;
           c in m.u.s.cursors && m.u.s.cursors[c].Opened? && NoneOpened(m.u.s.cursors - {c})
         else NoneOpened(m.u.s.cursors)
  }

  /** What an operation may do to the cursors. */
  lemma CursorsAfter(fc: FloatCodec, op: TableOp, u: TableState)
    ensures match ExecTable(fc, op, u)
            case Refused => true
            case Goes(v) => v.heap.Keys == u.heap.Keys
            case GoingTo(v, t) => v.s.cursors == u.s.cursors && v.heap == u.heap && Target(op) == Some(t)
            case Ended(v) => v.heap == u.heap
  {
  }

  /** Opening adds a fresh cursor; rewinding leaves it at a row; no other operation makes a cursor fresh. */
  lemma OpenedAfter(fc: FloatCodec, op: TableOp, u: TableState)
    requires ExecTable(fc, op, u).Goes? || ExecTable(fc, op, u).GoingTo?
    ensures var now := ExecTable(fc, op, u).u.s.cursors; var was := u.s.cursors;
            && (Opening(op).Some? ==> now == was[Opening(op).value := Opened(OpenedRoot(op).value)])
            && (Rewinding(op).Some? ==> Rewinding(op).value in was && now.Keys == was.Keys && now - {Rewinding(op).value} == was - {Rewinding(op).value} && now[Rewinding(op).value].AtRow?)
            && (Opening(op).None? && Rewinding(op).None? ==> now.Keys <= was.Keys && (NoneOpened(was) ==> NoneOpened(now)))
  {
    hide RecordFromRegister, RecordBytes, Db;
  }

  lemma SensibleStep(fc: FloatCodec, ops: seq<TableOp>, roots: set<nat>, only: Option<nat>, m: TableConfig)
    requires Orderly(ops, roots, only) && Sensible(ops, only, m)
    ensures Sensible(ops, only, StepTable(fc, ops, m))
    ensures StepTable(fc, ops, m).u.heap.Keys == m.u.heap.Keys
  {
    hide ExecTable, NoneOpened;
    if m.At? && m.pc < |ops| {
      var op := ops[m.pc];
      assert OpFits(ops, m.pc, roots, only);
      CursorsAfter(fc, op, m.u);
      var e := ExecTable(fc, op, m.u);
      if e.Goes? || e.GoingTo? {
        OpenedAfter(fc, op, m.u);
        var w := StepTable(fc, ops, m);
        if w.pc < |ops| { assert OpFits(ops, w.pc, roots, only); }
        if Opening(op).Some? { OpenedOne(m.u.s.cursors, Opening(op).value, OpenedRoot(op).value); }
        if Rewinding(op).Some? { RewoundOne(m.u.s.cursors, w.u.s.cursors, Rewinding(op).value); }
      }
    }
  }

  lemma OpenedOne(was: map<nat, Cursor>, c: nat, root: nat)
    requires NoneOpened(was)
    ensures NoneOpened(was[c := Opened(root)] - {c})
  {
  }

  lemma RewoundOne(was: map<nat, Cursor>, now: map<nat, Cursor>, c: nat)
    requires c in now && now - {c} == was - {c} && now[c].AtRow? && NoneOpened(was - {c})
    ensures NoneOpened(now)
  {
    forall d | d in now ensures now[d].AtRow? {
      if d != c { assert d in now - {c} && (now - {c})[d] == now[d] && d in was - {c}; }
    }
  }

  /** An orderly program starts in a sensible state if no cursor is open. */
  lemma StartsSensible(ops: seq<TableOp>, roots: set<nat>, only: Option<nat>, u: TableState)
    requires Orderly(ops, roots, only) && u.s.cursors == map[]
    ensures Sensible(ops, only, At(0, u))
  {
    if ops != [] { assert OpFits(ops, 0, roots, only); }
  }
}
