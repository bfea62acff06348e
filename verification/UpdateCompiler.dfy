/** The compiler of UPDATE statements as the source has it: operations, labels and registers are handed out in place. */
module UpdateCompiler {
  import opened Values
  import opened SqlSyntax
  import opened Machine
  import opened PlanCode
  import opened UpdateMachine
  import opened UpdateCode
  import opened Blocks
  import C = UpdateCorrect

  // ---------------------------------------------------------------- labels

  predicate Jumps(op: TableOp) {
    op.Base? && (op.op.IfCursorEnd? || op.op.IfResultsGe? || op.op.Goto? || op.op.IfNot?)
  }

  predicate Known(op: TableOp, labels: map<nat, nat>) {
    Jumps(op) ==> op.op.target in labels
  }

  /** The operation with its label replaced by the position. */
  function Resolve(op: TableOp, labels: map<nat, nat>): TableOp {
    if Jumps(op) && op.op.target in labels then Base(op.op.(target := labels[op.op.target])) else op
  }

  function ResolveAll(ops: seq<TableOp>, labels: map<nat, nat>): (r: seq<TableOp>)
    ensures |r| == |ops|
    ensures forall i :: 0 <= i < |r| ==> r[i] == Resolve(ops[i], labels)
  {
    seq(|ops|, i requires 0 <= i < |ops| => Resolve(ops[i], labels))
  }

  ghost predicate AllKnown(ops: seq<TableOp>, labels: map<nat, nat>) {
    forall i :: 0 <= i < |ops| ==> Known(ops[i], labels)
  }

  lemma ResolveAppend(a: seq<TableOp>, b: seq<TableOp>, labels: map<nat, nat>)
    requires AllKnown(a, labels) && AllKnown(b, labels)
    ensures AllKnown(a + b, labels) && ResolveAll(a + b, labels) == ResolveAll(a, labels) + ResolveAll(b, labels)
  {
  }

  lemma ResolveBases(ops: seq<Op>, labels: map<nat, nat>)
    requires AllPlain(ops)
    ensures AllKnown(Bases(ops), labels) && ResolveAll(Bases(ops), labels) == Bases(ops)
  {
    forall i | 0 <= i < |ops| ensures !Jumps(Bases(ops)[i]) { assert Plain(ops[i]); }
  }

  lemma ResolveGuard(cond: CondCode, labels: map<nat, nat>, skip: nat)
    requires AllPlain(cond.ops) && skip in labels
    ensures AllKnown(Guard(cond, skip), labels) && ResolveAll(Guard(cond, skip), labels) == Guard(cond, labels[skip])
  {
    ResolveBases(cond.ops, labels);
    ResolveAppend(Bases(cond.ops), if cond.cond.Some? then [Base(IfNot(cond.cond.value, skip))] else [], labels);
  }

  lemma ResolveReplace(key: nat, row: RowCode, labels: map<nat, nat>)
    requires AllPlain(row.ops)
    ensures AllKnown(Replace(key, row), labels) && ResolveAll(Replace(key, row), labels) == Replace(key, row)
  {
    ResolveBases(row.ops, labels);
    ResolveAppend([Rowid(CURSOR, key)], Bases(row.ops), labels);
    ResolveAppend([Rowid(CURSOR, key)] + Bases(row.ops), [MakeRecord(row.next, row.fields), UpdateRow(CURSOR, key, row.next)], labels);
  }

  /** Resolving the labels of the whole program puts the three positions in. */
  lemma ResolveProgram(root: nat, cond: CondCode, row: RowCode, labels: map<nat, nat>, start: nat, skip: nat, end: nat)
    requires AllPlain(cond.ops) && AllPlain(row.ops) && start in labels && skip in labels && end in labels
    ensures var ops := Assemble(root, cond, row, start, skip, end);
            AllKnown(ops, labels) && ResolveAll(ops, labels) == Assemble(root, cond, row, labels[start], labels[skip], labels[end])
  {
    hide Guard, Replace, AllPlain;
    ResolveGuard(cond, labels, skip);
    ResolveReplace(cond.next, row, labels);
    var a, b, c, d := Enter(root, end), Guard(cond, skip), Replace(cond.next, row), Advance(start, end);
    ResolveAppend(a, b, labels);
    ResolveAppend(a + b, c, labels);
    ResolveAppend(a + b + c, d, labels);
    ResolveAppend(a + b + c + d, [Base(Close(CURSOR))], labels);
  }

  class CodegenBuilder {
    var ops: seq<TableOp>
    var labels: map<nat, nat>
    var nextLabel: nat

    constructor ()
      ensures ops == [] && labels == map[] && nextLabel == 0
    {
      ops, labels, nextLabel := [], map[], 0;
    }

    method NewLabel() returns (lbl: nat)
      modifies this`nextLabel
      ensures lbl == old(nextLabel) && nextLabel == lbl + 1
    {
      lbl := nextLabel;
      nextLabel := nextLabel + 1;
    }

    method Mark(lbl: nat)
      modifies this`labels
      ensures labels == old(labels)[lbl := |ops|]
    {
      labels := labels[lbl := |ops|];
    }

    method Emit(op: TableOp)
      modifies this`ops
      ensures ops == old(ops) + [op]
    {
      ops := ops + [op];
    }

    /** Replaces every label by its position; fails at the first label that was never marked. */
    method Finish() returns (r: Result<seq<TableOp>, UpdateError>)
      ensures AllKnown(ops, labels) ==> r == Success(ResolveAll(ops, labels))
      ensures !AllKnown(ops, labels) ==>
                exists i :: 0 <= i < |ops| && AllKnown(ops[..i], labels) && !Known(ops[i], labels) && r == Failure(NoLabel(ops[i].op.target))
    {
      var done: seq<TableOp> := [];
      for i := 0 to |ops|
        invariant AllKnown(ops[..i], labels) && done == ResolveAll(ops[..i], labels)
      {
        if !Known(ops[i], labels) {
          return Failure(NoLabel(ops[i].op.target));
        }
        done := done + [Resolve(ops[i], labels)];
      }
      assert ops[..|ops|] == ops;
      r := Success(done);
    }
  }

  // ---------------------------------------------------------------- statements

  /** The outcome of compiling one value agrees with its code. */
  ghost predicate EmitsValue(code: Result<Code, UpdateError>, r: Result<nat, UpdateError>, was: seq<TableOp>, now: seq<TableOp>, next: nat) {
    match code
    case Failure(e) => r == Failure(e)
    case Success(c) => r == Success(c.dest) && next == c.next && now == was + Bases(c.ops)
  }

  lemma BasesAppend(was: seq<TableOp>, a: seq<Op>, b: seq<Op>)
    ensures (was + Bases(a)) + Bases(b) == was + Bases(a + b)
  {
  }

  lemma BasesOne(op: Op)
    ensures Bases([op]) == [Base(op)]
  {
  }

  class MutationCompiler {
    const catalog: Catalog
    const builder: CodegenBuilder
    var nextRegister: nat

    constructor (catalog: Catalog)
      ensures this.catalog == catalog && nextRegister == 0
      ensures fresh(builder) && builder.ops == [] && builder.labels == map[] && builder.nextLabel == 0
    {
      this.catalog := catalog;
      builder := new CodegenBuilder();
      nextRegister := 0;
    }

    method AllocRegister() returns (register: nat)
      modifies this`nextRegister
      ensures register == old(nextRegister) && nextRegister == register + 1
    {
      register := nextRegister;
      nextRegister := nextRegister + 1;
    }

    method CompileLiteral(l: Literal) returns (dest: nat)
      modifies this`nextRegister, builder`ops
      ensures dest == old(nextRegister) && nextRegister == dest + 1
      ensures builder.ops == old(builder.ops) + [Base(LiteralOp(l, dest))]
    {
      dest := AllocRegister();
      match l {
        case LitNull => builder.Emit(Base(LoadNull(dest)));
        case LitInteger(i) => builder.Emit(Base(LoadInteger(dest, i)));
        case LitReal(r) => builder.Emit(Base(LoadReal(dest, r)));
        case LitText(s) => builder.Emit(Base(LoadText(dest, s)));
      }
    }

    method CompileColumn(src: RowSource, table: Option<string>, name: string) returns (r: Result<nat, UpdateError>)
      modifies this`nextRegister, builder`ops
      ensures EmitsValue(TableExprCode(Column(table, name), src, old(nextRegister)), r, old(builder.ops), builder.ops, nextRegister)
    {
      OneSource(src, table, name);
      if table.Some? && !MatchesTable(src, table.value) {
        return Failure(NoQualifier(table.value));
      }
      var col := Position(src.columns, name);
      if col.None? {
        return Failure(NoColumn(name));
      }
      var dest := AllocRegister();
      builder.Emit(Base(ReadColumn(src.cursorId, col.value, dest)));
      BasesOne(ReadColumn(src.cursorId, col.value, dest));
      r := Success(dest);
    }

    method CompileExpr(e: Expr, src: RowSource) returns (r: Result<nat, UpdateError>)
      modifies this`nextRegister, builder`ops
      ensures EmitsValue(TableExprCode(e, src, old(nextRegister)), r, old(builder.ops), builder.ops, nextRegister)
      decreases e
    {
      hide Bases;
      ghost var was, r0 := builder.ops, nextRegister;
      match e {
        case Lit(l) =>
          var dest := CompileLiteral(l);
          BasesOne(LiteralOp(l, dest));
          r := Success(dest);
        case Column(table, name) => r := CompileColumn(src, table, name);
        case Unary(op, a) =>
          r := CompileExpr(a, src);
          if r.Success? && op != Positive {
            ghost var c := TableExprCode(a, src, r0).value;
            var from := r.value;
            var dest := AllocRegister();
            if op == Not { builder.Emit(Base(NotOp(from, dest))); } else { builder.Emit(Base(NegateOp(from, dest))); }
            ghost var last := if op == Not then NotOp(from, dest) else NegateOp(from, dest);
            BasesOne(last);
            BasesAppend(was, c.ops, [last]);
            r := Success(dest);
          }
        case Binary(left, op, right) =>
          var lhs := CompileExpr(left, src);
          if lhs.Failure? { return lhs; }
          ghost var a := TableExprCode(left, src, r0).value;
          var rhs := CompileExpr(right, src);
          if rhs.Failure? { return rhs; }
          ghost var b := TableExprCode(right, src, a.next).value;
          var dest := AllocRegister();
          builder.Emit(Base(Compute(op, lhs.value, rhs.value, dest)));
          BasesAppend(was, a.ops, b.ops);
          BasesOne(Compute(op, a.dest, b.dest, dest));
          BasesAppend(was, a.ops + b.ops, [Compute(op, a.dest, b.dest, dest)]);
          r := Success(dest);
        case FunctionCall(name, _) => r := Failure(NoFunction(name));
      }
    }

    /** The expression assigned to each column; unknown columns and double assignments are refused. */
    method MapAssignments(assignments: seq<Assignment>, columns: seq<string>) returns (r: Result<seq<Option<Expr>>, UpdateError>)
      ensures r == AssignmentMap(assignments, columns)
    {
      var result := NoAssignments(|columns|);
      assert assignments[0..] == assignments;
      for i := 0 to |assignments|
        invariant |result| == |columns|
        invariant AssignAll(assignments[i..], columns, result) == AssignmentMap(assignments, columns)
      {
        assert assignments[i..][0] == assignments[i] && assignments[i..][1..] == assignments[i + 1..];
        var idx := Position(columns, assignments[i].column);
        match idx {
          case None => return Failure(NoColumn(assignments[i].column));
          case Some(k) =>
            if result[k].Some? {
              return Failure(AssignedTwice(assignments[i].column));
            }
            result := result[k := Some(assignments[i].value)];
        }
      }
      r := Success(result);
    }

    method CompileWhere(whereClause: Option<Expr>, src: RowSource, skip: nat) returns (err: Option<UpdateError>)
      requires nextRegister == 0
      modifies this`nextRegister, builder`ops
      ensures match WhereCode(whereClause, src)
              case Failure(e) => err == Some(e)
              case Success(c) => err == None && nextRegister == c.next && builder.ops == old(builder.ops) + Guard(c, skip)
    {
      hide Bases, TableExprCode;
      match whereClause {
        case None =>
          NoBases(builder.ops, skip);
          err := None;
        case Some(e) =>
          var cond := CompileExpr(e, src);
          if cond.Failure? { return Some(cond.error); }
          builder.Emit(Base(IfNot(cond.value, skip)));
          err := None;
      }
    }

    lemma NoBases(was: seq<TableOp>, skip: nat)
      ensures was + Guard(CondCode([], None, 0), skip) == was
    {
      assert Bases([]) == [];
    }

    /** The new value of every column, in a register each. */
    method CompileFields(assigns: seq<Option<Expr>>, src: RowSource) returns (r: Result<seq<nat>, UpdateError>)
      modifies this`nextRegister, builder`ops
      ensures match FieldsCode(assigns, 0, src, old(nextRegister))
              case Failure(e) => r == Failure(e)
              case Success(row) => r == Success(row.fields) && nextRegister == row.next && builder.ops == old(builder.ops) + Bases(row.ops)
    {
      hide Bases, TableExprCode;
      ghost var was, r0 := builder.ops, nextRegister;
      ghost var done: seq<Op> := [];
      var fields: seq<nat> := [];
      RowsNothing(FieldsCode(assigns, 0, src, r0), was);
      for i := 0 to |assigns|
        invariant builder.ops == was + Bases(done)
        invariant FieldsCode(assigns, 0, src, r0) == RowsAfter(done, fields, FieldsCode(assigns, i, src, nextRegister))
      {
        ghost var code := ColumnValueCode(assigns[i], i, src, nextRegister);
        var dest: nat;
        match assigns[i] {
          case Some(e) =>
            var v := CompileExpr(e, src);
            if v.Failure? { return Failure(v.error); }
            dest := v.value;
          case None =>
            dest := AllocRegister();
            builder.Emit(Base(ReadColumn(src.cursorId, i, dest)));
            BasesOne(ReadColumn(src.cursorId, i, dest));
        }
        BasesAppend(was, done, code.value.ops);
        RowsMore(done, fields, code.value.ops, dest, FieldsCode(assigns, i + 1, src, nextRegister));
        done, fields := done + code.value.ops, fields + [dest];
      }
      assert done + [] == done && fields + [] == fields;
      r := Success(fields);
    }

    /** The labels of the loop, and the way into it. */
    method BeginLoop(root: nat) returns (loopStart: nat, loopEnd: nat, skipUpdate: nat)
      requires builder.ops == [] && builder.labels == map[] && builder.nextLabel == 0
      modifies builder
      ensures loopStart == 0 && loopEnd == 1 && skipUpdate == 2
      ensures builder.ops == Enter(root, loopEnd) && builder.labels == map[loopStart := 3]
    {
      loopStart := builder.NewLabel();
      loopEnd := builder.NewLabel();
      skipUpdate := builder.NewLabel();
      builder.Emit(OpenWrite(CURSOR, root));
      builder.Emit(Base(Rewind(CURSOR)));
      builder.Emit(Base(IfCursorEnd(loopEnd)));
      builder.Mark(loopStart);
    }

    /** Replaces the row: its key, its new values, the record made of them. */
    method EmitReplacement(assigns: seq<Option<Expr>>, src: RowSource) returns (err: Option<UpdateError>)
      modifies this`nextRegister, builder`ops
      ensures match FieldsCode(assigns, 0, src, old(nextRegister) + 1)
              case Failure(e) => err == Some(e)
              case Success(row) => err == None && builder.ops == old(builder.ops) + Replace(old(nextRegister), row)
    {
      hide Bases, FieldsCode;
      var key := AllocRegister();
      builder.Emit(Rowid(CURSOR, key));
      var fields := CompileFields(assigns, src);
      if fields.Failure? { return Some(fields.error); }
      var record := AllocRegister();
      builder.Emit(MakeRecord(record, fields.value));
      builder.Emit(UpdateRow(CURSOR, key, record));
      err := None;
    }

    /** On to the next row, and the end of the program. */
    method EndLoop(loopStart: nat, loopEnd: nat, skipUpdate: nat)
      modifies builder
      ensures builder.ops == old(builder.ops) + Advance(loopStart, loopEnd) + [Base(Close(CURSOR))]
      ensures builder.labels == old(builder.labels)[skipUpdate := |old(builder.ops)|][loopEnd := |old(builder.ops)| + 3]
    {
      builder.Mark(skipUpdate);
      builder.Emit(Base(MoveNext(CURSOR)));
      builder.Emit(Base(IfCursorEnd(loopEnd)));
      builder.Emit(Base(Goto(loopStart)));
      assert builder.ops == old(builder.ops) + Advance(loopStart, loopEnd);
      builder.Mark(loopEnd);
      builder.Emit(Base(Close(CURSOR)));
    }

    /** Compiles the statement into a finished program. */
    method CompileUpdate(st: UpdateStmt) returns (r: Result<seq<TableOp>, UpdateError>)
      requires nextRegister == 0 && builder.ops == [] && builder.labels == map[] && builder.nextLabel == 0
      modifies this`nextRegister, builder
      ensures r == UpdateProgram(st, catalog)
    {
      hide WhereCode, FieldsCode, AssignmentMap, Guard, Replace, Resolve, Known, ResolveAll, AllKnown, Advance;
      if st.table !in catalog {
        return Failure(NoTable(st.table));
      }
      var binding := catalog[st.table];
      var assigns := MapAssignments(st.assignments, binding.columns);
      if assigns.Failure? { return Failure(assigns.error); }
      var src := TableSource(st.table, binding);
      var loopStart, loopEnd, skipUpdate := BeginLoop(binding.root);
      var err := CompileWhere(st.whereClause, src, skipUpdate);
      if err.Some? { return Failure(err.value); }
      ghost var cond := WhereCode(st.whereClause, src).value;
      err := EmitReplacement(assigns.value, src);
      if err.Some? { return Failure(err.value); }
      ghost var row := FieldsCode(assigns.value, 0, src, cond.next + 1).value;
      EndLoop(loopStart, loopEnd, skipUpdate);
      WherePlain(st.whereClause, src);
      C.FieldsPlain(assigns.value, 0, src, cond.next + 1);
      C.PartSizes(Parts(binding.root, cond, row));
      ResolveProgram(binding.root, cond, row, builder.labels, loopStart, skipUpdate, loopEnd);
      r := builder.Finish();
    }
  }

  lemma WherePlain(whereClause: Option<Expr>, src: RowSource)
    requires WhereCode(whereClause, src).Success?
    ensures AllPlain(WhereCode(whereClause, src).value.ops)
  {
    if whereClause.Some? { ExprPlain(whereClause.value, [src], 0); }
  }

  ghost function RowsAfter(ops: seq<Op>, fields: seq<nat>, rest: Result<RowCode, UpdateError>): Result<RowCode, UpdateError> {
    match rest
    case Failure(e) => Failure(e)
    case Success(row) => Success(RowCode(ops + row.ops, fields + row.fields, row.next))
  }

  lemma RowsNothing(rest: Result<RowCode, UpdateError>, was: seq<TableOp>)
    ensures RowsAfter([], [], rest) == rest && was + Bases([]) == was
  {
    if rest.Success? { assert [] + rest.value.ops == rest.value.ops && [] + rest.value.fields == rest.value.fields; }
    assert Bases([]) == [];
  }

  lemma RowsMore(ops: seq<Op>, fields: seq<nat>, more: seq<Op>, dest: nat, rest: Result<RowCode, UpdateError>)
    ensures RowsAfter(ops, fields, RowsAfter(more, [dest], rest)) == RowsAfter(ops + more, fields + [dest], rest)
  {
    if rest.Success? {
      assert ops + (more + rest.value.ops) == (ops + more) + rest.value.ops;
      assert fields + ([dest] + rest.value.fields) == (fields + [dest]) + rest.value.fields;
    }
  }
}
