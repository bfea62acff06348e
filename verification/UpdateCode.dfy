/** UPDATE statements: what they mean for a table, and the program they are compiled to. */
module UpdateCode {
  import opened Values
  import opened Cells
  import opened SqlSyntax
  import opened Evaluate
  import opened Machine
  import opened RecordCodec
  import opened PlanCode
  import opened UpdateMachine

  datatype Assignment = Assignment(column: string, value: Expr)

  datatype UpdateStmt = UpdateStmt(table: string, assignments: seq<Assignment>, whereClause: Option<Expr>)

  datatype UpdateError =
    | NoTable(name: string)
    | NoColumn(name: string)
    | NoQualifier(name: string)
    | AssignedTwice(column: string)
    | NoFunction(name: string)
    | NoLabel(lbl: nat)

  const CURSOR: nat := 0

  function TableSource(table: string, b: TableBinding): RowSource { RowSource(table, None, CURSOR, b.columns) }

  // ---------------------------------------------------------------- assignments

  function NoAssignments(n: nat): (r: seq<Option<Expr>>)
    ensures |r| == n && forall i :: 0 <= i < n ==> r[i] == None
  {
    seq(n, i => None)
  }

  function AssignAll(assignments: seq<Assignment>, columns: seq<string>, result: seq<Option<Expr>>): Result<seq<Option<Expr>>, UpdateError>
    requires |result| == |columns|
    decreases assignments
  {
    if assignments == [] then Success(result)
    else
      match Position(columns, assignments[0].column)
      case None => Failure(NoColumn(assignments[0].column))
      case Some(idx) =>
        if result[idx].Some? then Failure(AssignedTwice(assignments[0].column))
        else AssignAll(assignments[1..], columns, result[idx := Some(assignments[0].value)])
  }

  /** For every column the expression assigned to it, if there is one. */
  function AssignmentMap(assignments: seq<Assignment>, columns: seq<string>): Result<seq<Option<Expr>>, UpdateError> {
    AssignAll(assignments, columns, NoAssignments(|columns|))
  }

  /** Assignment a sets column col. */
  predicate Sets(a: Assignment, columns: seq<string>, col: nat) { Position(columns, a.column) == Some(col) }

  /** Every assignment names a column, and no two of them the same one. */
  ghost predicate Distinctly(assignments: seq<Assignment>, columns: seq<string>) {
    && (forall i :: 0 <= i < |assignments| ==> Position(columns, assignments[i].column).Some?)
    && (forall i, j :: 0 <= i < j < |assignments| ==> Position(columns, assignments[i].column) != Position(columns, assignments[j].column))
  }

  /** The expression for each column is the one of the assignment that sets it. */
  ghost predicate Maps(assignments: seq<Assignment>, columns: seq<string>, start: seq<Option<Expr>>, result: seq<Option<Expr>>) {
    && |result| == |start|
    && (forall i, col: nat :: 0 <= i < |assignments| && col < |result| && Sets(assignments[i], columns, col) ==> result[col] == Some(assignments[i].value))
    && (forall col: nat :: col < |result| && (forall i :: 0 <= i < |assignments| ==> !Sets(assignments[i], columns, col)) ==> result[col] == start[col])
  }

  ghost predicate Unset(assignments: seq<Assignment>, columns: seq<string>, result: seq<Option<Expr>>) {
    forall i, col: nat :: 0 <= i < |assignments| && col < |result| && Sets(assignments[i], columns, col) ==> result[col] == None
  }

  lemma {:induction false} AssignAllMeans(assignments: seq<Assignment>, columns: seq<string>, result: seq<Option<Expr>>)
    requires |result| == |columns|
    ensures var r := AssignAll(assignments, columns, result);
            && (r.Success? <==> Distinctly(assignments, columns) && Unset(assignments, columns, result))
            && (r.Success? ==> Maps(assignments, columns, result, r.value))
    decreases assignments
  {
    hide Distinctly, Unset, Maps;
    if assignments == [] {
      NoAssignment(columns, result);
    } else {
      var a, rest := assignments[0], assignments[1..];
      assert assignments == [a] + rest;
      var p := Position(columns, a.column);
      if p.Some? && result[p.value].None? {
        AssignAllMeans(rest, columns, result[p.value := Some(a.value)]);
        FirstAssignment(a, rest, columns, result);
        if AssignAll(assignments, columns, result).Success? {
          MapsMore(a, rest, columns, result, AssignAll(assignments, columns, result).value);
        }
      } else {
        FirstRefused(a, rest, columns, result);
      }
    }
  }

  lemma NoAssignment(columns: seq<string>, result: seq<Option<Expr>>)
    ensures Distinctly([], columns) && Unset([], columns, result) && Maps([], columns, result, result)
  {
  }

  lemma FirstRefused(a: Assignment, rest: seq<Assignment>, columns: seq<string>, result: seq<Option<Expr>>)
    requires |result| == |columns|
    requires var p := Position(columns, a.column); p.None? || result[p.value].Some?
    ensures !(Distinctly([a] + rest, columns) && Unset([a] + rest, columns, result))
  {
    var all := [a] + rest;
    assert all[0] == a;
    var p := Position(columns, a.column);
    if p.Some? { assert Sets(all[0], columns, p.value); }
  }

  lemma FirstAssignment(a: Assignment, rest: seq<Assignment>, columns: seq<string>, result: seq<Option<Expr>>)
    requires |result| == |columns| && Position(columns, a.column).Some?
    requires result[Position(columns, a.column).value].None?
    ensures Distinctly([a] + rest, columns) && Unset([a] + rest, columns, result) <==>
            Distinctly(rest, columns) && Unset(rest, columns, result[Position(columns, a.column).value := Some(a.value)])
  {
    hide Distinctly, Unset, Position;
    var all, next := [a] + rest, result[Position(columns, a.column).value := Some(a.value)];
    if Distinctly(all, columns) && Unset(all, columns, result) { RestAccepted(a, rest, columns, result); }
    if Distinctly(rest, columns) && Unset(rest, columns, next) { AllAccepted(a, rest, columns, result); }
  }

  lemma RestAccepted(a: Assignment, rest: seq<Assignment>, columns: seq<string>, result: seq<Option<Expr>>)
    requires |result| == |columns| && Position(columns, a.column).Some?
    requires Distinctly([a] + rest, columns) && Unset([a] + rest, columns, result)
    ensures Distinctly(rest, columns) && Unset(rest, columns, result[Position(columns, a.column).value := Some(a.value)])
  {
    var all, p := [a] + rest, Position(columns, a.column).value;
    var next := result[p := Some(a.value)];
    hide Position;
    assert all[0] == a;
    forall i | 0 <= i < |rest| ensures Position(columns, rest[i].column).Some? && Position(columns, rest[i].column) != Some(p) {
      assert all[i + 1] == rest[i];
    }
    forall i, j | 0 <= i < j < |rest| ensures Position(columns, rest[i].column) != Position(columns, rest[j].column) {
      assert all[i + 1] == rest[i] && all[j + 1] == rest[j];
    }
    forall i, col: nat | 0 <= i < |rest| && col < |next| && Sets(rest[i], columns, col) ensures next[col] == None {
      assert all[i + 1] == rest[i] && Sets(all[i + 1], columns, col);
    }
  }

  lemma AllAccepted(a: Assignment, rest: seq<Assignment>, columns: seq<string>, result: seq<Option<Expr>>)
    requires |result| == |columns| && Position(columns, a.column).Some?
    requires result[Position(columns, a.column).value].None?
    requires Distinctly(rest, columns) && Unset(rest, columns, result[Position(columns, a.column).value := Some(a.value)])
    ensures Distinctly([a] + rest, columns) && Unset([a] + rest, columns, result)
  {
    var all, p := [a] + rest, Position(columns, a.column).value;
    var next := result[p := Some(a.value)];
    hide Position;
    assert next[p].Some?;
    forall i | 0 <= i < |rest| ensures !Sets(rest[i], columns, p) {}
    forall i, col: nat | 0 <= i < |all| && col < |result| && Sets(all[i], columns, col) ensures result[col] == None {
      if col != p {
        assert i > 0 && all[i] == rest[i - 1] && Sets(rest[i - 1], columns, col);
        assert next[col] == None;
      }
    }
    forall i, j | 0 <= i < j < |all| ensures Position(columns, all[i].column) != Position(columns, all[j].column) {
      assert all[j] == rest[j - 1];
      if i > 0 { assert all[i] == rest[i - 1]; }
    }
  }

  lemma MapsMore(a: Assignment, rest: seq<Assignment>, columns: seq<string>, result: seq<Option<Expr>>, final: seq<Option<Expr>>)
    requires |result| == |columns| && Position(columns, a.column).Some?
    requires Distinctly([a] + rest, columns)
    requires Maps(rest, columns, result[Position(columns, a.column).value := Some(a.value)], final)
    ensures Maps([a] + rest, columns, result, final)
  {
    var all, p := [a] + rest, Position(columns, a.column).value;
    assert all[0] == a;
    forall i | 0 <= i < |rest| ensures !Sets(rest[i], columns, p) { assert all[i + 1] == rest[i]; }
    forall i, col: nat | 0 <= i < |all| && col < |final| && Sets(all[i], columns, col) ensures final[col] == Some(all[i].value) {
      if i > 0 { assert all[i] == rest[i - 1] && Sets(rest[i - 1], columns, col); }
    }
    forall col: nat | col < |final| && (forall i :: 0 <= i < |all| ==> !Sets(all[i], columns, col)) ensures final[col] == result[col] {
      assert !Sets(all[0], columns, col);
      forall i | 0 <= i < |rest| ensures !Sets(rest[i], columns, col) { assert all[i + 1] == rest[i]; }
    }
  }

  /** The assignments are accepted exactly if they name distinct columns of the table, and each sets its column. */
  lemma AssignmentMapMeans(assignments: seq<Assignment>, columns: seq<string>)
    ensures var r := AssignmentMap(assignments, columns);
            && (r.Success? <==> Distinctly(assignments, columns))
            && (r.Success? ==> Maps(assignments, columns, NoAssignments(|columns|), r.value))
  {
    AssignAllMeans(assignments, columns, NoAssignments(|columns|));
  }

  // ---------------------------------------------------------------- meaning

  /** The values of the columns from col on: assigned ones evaluated on the old row, the others as they are. */
  function NewFields(assigns: seq<Option<Expr>>, col: nat, env: seq<RowSource>, rec: Record): Option<Record>
    requires |env| == 1 && col <= |assigns|
    decreases |assigns| - col
  {
    if col == |assigns| then Some([])
    else
      var v := if assigns[col].Some? then Eval(assigns[col].value, env, [rec]) else Some(Field(rec, col));
      match (v, NewFields(assigns, col + 1, env, rec))
      case (Some(x), Some(rest)) => Some([x] + rest)
      case _ => None
  }

  lemma {:induction false} NewFieldsAt(assigns: seq<Option<Expr>>, col: nat, env: seq<RowSource>, rec: Record, i: nat)
    requires |env| == 1 && col <= i < |assigns| && NewFields(assigns, col, env, rec).Some?
    ensures var r := NewFields(assigns, col, env, rec).value;
            |r| == |assigns| - col
            && Some(r[i - col]) == if assigns[i].Some? then Eval(assigns[i].value, env, [rec]) else Some(Field(rec, i))
    decreases |assigns| - col
  {
    if i > col {
      NewFieldsAt(assigns, col + 1, env, rec, i);
    } else if col + 1 < |assigns| {
      NewFieldsAt(assigns, col + 1, env, rec, col + 1);
    }
  }

  function Matches(whereClause: Option<Expr>, env: seq<RowSource>, rec: Record): Option<bool>
    requires |env| == 1
  {
    if whereClause.None? then Some(true)
    else match Eval(whereClause.value, env, [rec])
         case None => None
         case Some(v) => Some(IsTruthy(v))
  }

  /** What becomes of a row, on its way through bytes; None when an expression cannot be computed. */
  function NewRow(fc: FloatCodec, whereClause: Option<Expr>, assigns: seq<Option<Expr>>, env: seq<RowSource>, rec: Record): Option<Record>
    requires |env| == 1
  {
    match Matches(whereClause, env, rec)
    case None => None
    case Some(false) => Some(rec)
    case Some(true) =>
      match NewFields(assigns, 0, env, rec)
      case None => None
      case Some(row) => RecordFromRegister(fc, Blob(RecordBytes(fc, row)))
  }

  datatype Updated = Updated(cells: seq<Cell>, ok: bool)

  /** The table after the statement: row after row, up to the first that fails. */
  function UpdateCells(fc: FloatCodec, whereClause: Option<Expr>, assigns: seq<Option<Expr>>, env: seq<RowSource>, cells: seq<Cell>): Updated
    requires |env| == 1
    decreases cells
  {
    if cells == [] then Updated([], true)
    else
      match NewRow(fc, whereClause, assigns, env, cells[0].val)
      case None => Updated(cells, false)
      case Some(row) =>
        var rest := UpdateCells(fc, whereClause, assigns, env, cells[1..]);
        Updated([Cell(cells[0].key, row)] + rest.cells, rest.ok)
  }

  /**
   Every row is visited once: row i becomes what the statement makes of the old row i, its key and its place stay;
   a failing row and those after it are untouched.
   */
  lemma {:induction false} UpdateCellsAt(fc: FloatCodec, whereClause: Option<Expr>, assigns: seq<Option<Expr>>, env: seq<RowSource>, cells: seq<Cell>, i: nat)
    requires |env| == 1 && i < |cells|
    ensures var r := UpdateCells(fc, whereClause, assigns, env, cells);
            && |r.cells| == |cells| && r.cells[i].key == cells[i].key
            && (r.ok ==> Some(r.cells[i].val) == NewRow(fc, whereClause, assigns, env, cells[i].val))
            && ((exists j :: 0 <= j <= i && NewRow(fc, whereClause, assigns, env, cells[j].val).None?) ==> !r.ok && r.cells[i] == cells[i])
            && ((forall j :: 0 <= j <= i ==> NewRow(fc, whereClause, assigns, env, cells[j].val).Some?) ==>
                  Some(r.cells[i].val) == NewRow(fc, whereClause, assigns, env, cells[i].val))
    decreases cells
  {
    hide NewRow;
    if NewRow(fc, whereClause, assigns, env, cells[0].val).Some? {
      if i > 0 {
        UpdateCellsAt(fc, whereClause, assigns, env, cells[1..], i - 1);
        assert forall j :: 0 < j <= i ==> cells[j] == cells[1..][j - 1];
      } else if |cells| > 1 {
        UpdateCellsAt(fc, whereClause, assigns, env, cells[1..], 0);
      }
    }
  }

  // ---------------------------------------------------------------- code

  /** The code that leaves the new values of the columns from col on in registers. */
  function FieldsCode(assigns: seq<Option<Expr>>, col: nat, src: RowSource, reg: nat): Result<RowCode, UpdateError>
    requires col <= |assigns|
    decreases |assigns| - col
  {
    if col == |assigns| then Success(RowCode([], [], reg))
    else
      match ColumnValueCode(assigns[col], col, src, reg)
      case Failure(e) => Failure(e)
      case Success(c) =>
        match FieldsCode(assigns, col + 1, src, c.next)
        case Failure(e) => Failure(e)
        case Success(rest) => Success(RowCode(c.ops + rest.ops, [c.dest] + rest.fields, rest.next))
  }

  function ColumnValueCode(assign: Option<Expr>, col: nat, src: RowSource, reg: nat): Result<Code, UpdateError> {
    match assign
    case Some(e) => TableExprCode(e, src, reg)
    case None => Success(Code([ReadColumn(src.cursorId, col, reg)], reg, reg + 1))
  }

  /** The code of an expression over one table: that of the plan compiler, with this compiler's own errors. */
  function TableExprCode(e: Expr, src: RowSource, reg: nat): (r: Result<Code, UpdateError>)
    ensures r.Success? <==> ExprCode(e, [src], reg).Success?
    ensures r.Success? ==> r.value == ExprCode(e, [src], reg).value
    decreases e
  {
    match e
    case Lit(_) => Success(ExprCode(e, [src], reg).value)
    case Column(table, name) =>
      OneSource(src, table, name);
      if table.Some? && !MatchesTable(src, table.value) then Failure(NoQualifier(table.value))
      else if Position(src.columns, name).None? then Failure(NoColumn(name))
      else Success(ExprCode(e, [src], reg).value)
    case Unary(_, a) =>
      (match TableExprCode(a, src, reg)
       case Failure(err) => Failure(err)
       case Success(_) => Success(ExprCode(e, [src], reg).value))
    case Binary(l, _, r) =>
      (match TableExprCode(l, src, reg)
       case Failure(err) => Failure(err)
       case Success(a) =>
         match TableExprCode(r, src, a.next)
         case Failure(err) => Failure(err)
         case Success(_) => Success(ExprCode(e, [src], reg).value))
    case FunctionCall(name, _) => Failure(NoFunction(name))
  }

  /** Among one source a column is resolved exactly if the qualifier and the name fit. */
  lemma OneSource(src: RowSource, table: Option<string>, name: string)
    ensures ResolveColumn([src], table, name) ==
            if table.Some? && !MatchesTable(src, table.value) then Failure(UnknownColumn(name))
            else match Position(src.columns, name)
                 case None => Failure(UnknownColumn(name))
                 case Some(col) => Success(Resolved(0, col))
  {
    assert Offers([src], table, name, 1) == [];
  }

  function WhereCode(whereClause: Option<Expr>, src: RowSource): Result<CondCode, UpdateError> {
    if whereClause.None? then Success(CondCode([], None, 0))
    else match TableExprCode(whereClause.value, src, 0)
         case Failure(e) => Failure(e)
         case Success(c) => Success(CondCode(c.ops, Some(c.dest), c.next))
  }

  /** The operations of the condition, ending in the jump that skips the row. */
  function Guard(cond: CondCode, skip: nat): seq<TableOp> {
    Bases(cond.ops) + if cond.cond.Some? then [Base(IfNot(cond.cond.value, skip))] else []
  }

  /** The operations that replace the row. */
  function Replace(key: nat, row: RowCode): seq<TableOp> {
    [Rowid(CURSOR, key)] + Bases(row.ops) + [MakeRecord(row.next, row.fields), UpdateRow(CURSOR, key, row.next)]
  }

  function Enter(root: nat, end: nat): seq<TableOp> {
    [OpenWrite(CURSOR, root), Base(Rewind(CURSOR)), Base(IfCursorEnd(end))]
  }

  function Advance(start: nat, end: nat): seq<TableOp> {
    [Base(MoveNext(CURSOR)), Base(IfCursorEnd(end)), Base(Goto(start))]
  }

  /** The whole program, with its jump targets given. */
  function Assemble(root: nat, cond: CondCode, row: RowCode, start: nat, skip: nat, end: nat): seq<TableOp> {
    Enter(root, end) + Guard(cond, skip) + Replace(cond.next, row) + Advance(start, end) + [Base(Close(CURSOR))]
  }

  /** The finished program: the loop starts at 3, and rows that do not match go on at the advance. */
  function Layout(root: nat, cond: CondCode, row: RowCode): seq<TableOp> {
    var skip := 3 + |Guard(cond, 0)| + |Replace(cond.next, row)|;
    Assemble(root, cond, row, 3, skip, skip + 3)
  }

  datatype Parts = Parts(root: nat, cond: CondCode, row: RowCode)

  function UpdateParts(st: UpdateStmt, cat: Catalog): Result<Parts, UpdateError> {
    if st.table !in cat then Failure(NoTable(st.table))
    else
      var b := cat[st.table];
      match AssignmentMap(st.assignments, b.columns)
      case Failure(e) => Failure(e)
      case Success(assigns) =>
        match WhereCode(st.whereClause, TableSource(st.table, b))
        case Failure(e) => Failure(e)
        case Success(cond) =>
          match FieldsCode(assigns, 0, TableSource(st.table, b), cond.next + 1)
          case Failure(e) => Failure(e)
          case Success(row) => Success(Parts(b.root, cond, row))
  }

  function UpdateProgram(st: UpdateStmt, cat: Catalog): Result<seq<TableOp>, UpdateError> {
    match UpdateParts(st, cat)
    case Failure(e) => Failure(e)
    case Success(p) => Success(Layout(p.root, p.cond, p.row))
  }
}
