/** The plan compiler as the source has it: operations, labels and counters are updated in place. */
module PlanCompiler {
  import opened Values
  import opened SqlSyntax
  import opened Machine
  import opened Blocks
  import opened PlanCode
  import opened SelectTheorem
  import opened PlanMeaning
  import L = Labels

  class ProgramBuilder {
    var ops: seq<Op>
    var labels: map<nat, nat>
    var nextLabel: nat

    constructor ()
      ensures Snap() == L.EMPTY
    {
      ops, labels, nextLabel := [], map[], 0;
    }

    function Snap(): L.Builder
      reads this
    {
      L.Builder(ops, labels, nextLabel)
    }

    method NewLabel() returns (lbl: nat)
      modifies this`nextLabel
      ensures lbl == old(nextLabel) && nextLabel == lbl + 1
    {
      lbl := nextLabel;
      nextLabel := nextLabel + 1;
    }

    method MarkLabel(lbl: nat)
      modifies this`labels
      ensures Snap() == L.Mark(old(Snap()), lbl)
    {
      labels := labels[lbl := |ops|];
    }

    method EmitOp(op: Op)
      modifies this`ops
      ensures Snap() == L.Emit(old(Snap()), op)
    {
      ops := ops + [op];
    }

    /** Replaces every label by its position. */
    method FinishProgram() returns (r: Result<seq<Op>, PlanError>)
      ensures r == L.Finish(Snap())
    {
      var done: seq<Op> := [];
      assert ops[0..] == ops;
      PrefixedNothing(L.ResolveAll(ops, labels));
      for i := 0 to |ops|
        invariant L.ResolveAll(ops, labels) == Prefixed(done, L.ResolveAll(ops[i..], labels))
      {
        assert ops[i..][0] == ops[i] && ops[i..][1..] == ops[i + 1..];
        var op := L.ResolveOp(ops[i], labels);
        match op {
          case Failure(e) => return Failure(e);
          case Success(o) =>
            PrefixedMore(done, o, L.ResolveAll(ops[i + 1..], labels));
            done := done + [o];
        }
      }
      assert ops[|ops|..] == [];
      assert done + [] == done;
      r := Success(done);
    }
  }

  ghost function Prefixed(done: seq<Op>, rest: Result<seq<Op>, PlanError>): Result<seq<Op>, PlanError> {
    match rest
    case Failure(e) => Failure(e)
    case Success(ops) => Success(done + ops)
  }

  lemma PrefixedMore(done: seq<Op>, op: Op, rest: Result<seq<Op>, PlanError>)
    ensures Prefixed(done, Prefixed([op], rest)) == Prefixed(done + [op], rest)
  {
    if rest.Success? { assert done + ([op] + rest.value) == (done + [op]) + rest.value; }
  }

  lemma PrefixedNothing(rest: Result<seq<Op>, PlanError>)
    ensures Prefixed([], rest) == rest
  {
    if rest.Success? { assert [] + rest.value == rest.value; }
  }

  class Compiler {
    const catalog: Catalog
    const builder: ProgramBuilder
    var nextCursor: nat
    var nextRegister: nat

    constructor (catalog: Catalog)
      ensures this.catalog == catalog && nextCursor == 0 && nextRegister == 0
      ensures fresh(builder) && builder.Snap() == L.EMPTY
    {
      this.catalog := catalog;
      builder := new ProgramBuilder();
      nextCursor, nextRegister := 0, 0;
    }

    method AllocCursor() returns (cursor: nat)
      modifies this`nextCursor
      ensures cursor == old(nextCursor) && nextCursor == cursor + 1
    {
      cursor := nextCursor;
      nextCursor := nextCursor + 1;
    }

    method AllocRegister() returns (register: nat)
      modifies this`nextRegister
      ensures register == old(nextRegister) && nextRegister == register + 1
    {
      register := nextRegister;
      nextRegister := nextRegister + 1;
    }

    // ---------------------------------------------------------------- expressions

    method CompileLiteral(l: Literal) returns (dest: nat)
      modifies this`nextRegister, builder`ops
      ensures dest == old(nextRegister) && nextRegister == dest + 1
      ensures builder.Snap() == L.Emit(old(builder.Snap()), LiteralOp(l, dest))
    {
      dest := AllocRegister();
      match l {
        case LitNull => builder.EmitOp(LoadNull(dest));
        case LitInteger(i) => builder.EmitOp(LoadInteger(dest, i));
        case LitReal(r) => builder.EmitOp(LoadReal(dest, r));
        case LitText(s) => builder.EmitOp(LoadText(dest, s));
      }
    }

    /** Resolves the column in the given sources and reads it. */
    method CompileColumn(sources: seq<RowSource>, table: Option<string>, name: string) returns (r: Result<nat, PlanError>)
      modifies this`nextRegister, builder`ops
      ensures Emits(ColumnCode(sources, table, name, old(nextRegister)), r, old(builder.Snap()), builder.Snap(), nextRegister)
    {
      var resolved := ResolveColumn(sources, table, name);
      match resolved {
        case Failure(e) => r := Failure(e);
        case Success(c) =>
          var dest := AllocRegister();
          builder.EmitOp(ReadColumn(sources[c.source].cursorId, c.col, dest));
          r := Success(dest);
      }
    }

    method CompileExpr(e: Expr, env: seq<RowSource>) returns (r: Result<nat, PlanError>)
      modifies this`nextRegister, builder`ops
      ensures Emits(ExprCode(e, env, old(nextRegister)), r, old(builder.Snap()), builder.Snap(), nextRegister)
      decreases e
    {
      ghost var b0, r0 := builder.Snap(), nextRegister;
      match e {
        case Lit(l) =>
          var dest := CompileLiteral(l);
          r := Success(dest);
        case Column(table, name) => r := CompileColumn(env, table, name);
        case Unary(op, a) =>
          r := CompileExpr(a, env);
          if r.Success? && op != Positive {
            ghost var c := ExprCode(a, env, r0).value;
            var src := r.value;
            var dest := AllocRegister();
            if op == Not { builder.EmitOp(NotOp(src, dest)); } else { builder.EmitOp(NegateOp(src, dest)); }
            assert (b0.ops + c.ops) + [if op == Not then NotOp(src, dest) else NegateOp(src, dest)]
                == b0.ops + (c.ops + [if op == Not then NotOp(src, dest) else NegateOp(src, dest)]);
            r := Success(dest);
          }
        case Binary(left, op, right) =>
          var lhs := CompileExpr(left, env);
          if lhs.Failure? { return lhs; }
          var rhs := CompileExpr(right, env);
          if rhs.Failure? { return rhs; }
          ghost var a := ExprCode(left, env, r0).value;
          ghost var b := ExprCode(right, env, a.next).value;
          var dest := AllocRegister();
          builder.EmitOp(Compute(op, lhs.value, rhs.value, dest));
          assert ((b0.ops + a.ops) + b.ops) + [Compute(op, a.dest, b.dest, dest)] == b0.ops + (a.ops + b.ops + [Compute(op, a.dest, b.dest, dest)]);
          r := Success(dest);
        case FunctionCall(_, _) => r := Failure(FunctionUnsupported);
      }
    }

    method CompileColumnFromSources(column: string, sources: seq<RowSource>) returns (r: Result<nat, PlanError>)
      modifies this`nextRegister, builder`ops
      ensures Emits(UsingColumn(sources, column, old(nextRegister)), r, old(builder.Snap()), builder.Snap(), nextRegister)
    {
      r := CompileColumn(sources, None, column);
      if r.Failure? { r := Failure(UsingError(r.error)); }
    }

    // ---------------------------------------------------------------- result rows

    method CompileAllColumns(env: seq<RowSource>) returns (regs: seq<nat>)
      modifies this`nextRegister, builder`ops
      ensures var row := AllColumns(env, old(nextRegister));
              regs == row.fields && nextRegister == row.next && builder.Snap() == L.EmitAll(old(builder.Snap()), row.ops)
    {
      ghost var b0, r0 := builder.Snap(), nextRegister;
      ghost var done: seq<Op> := [];
      regs := [];
      assert env[0..] == env;
      RowAfterNothing(AllColumns(env, r0));
      assert b0.ops + [] == b0.ops;
      for i := 0 to |env|
        invariant builder.Snap() == L.EmitAll(b0, done)
        invariant AllColumns(env, r0) == RowAfter(done, regs, AllColumns(env[i..], nextRegister))
      {
        assert env[i..][0] == env[i] && env[i..][1..] == env[i + 1..];
        ghost var done1, regs1, b1, r1 := done, regs, builder.Snap(), nextRegister;
        ghost var here: seq<Op> := [];
        var got: seq<nat> := [];
        RowAfterNothing(SourceColumns(env[i], 0, r1));
        assert done1 + [] == done1 && regs1 + [] == regs1;
        for col := 0 to |env[i].columns|
          invariant regs == regs1 + got && builder.Snap() == L.EmitAll(b0, done1 + here)
          invariant SourceColumns(env[i], 0, r1) == RowAfter(here, got, SourceColumns(env[i], col, nextRegister))
        {
          ghost var rest := SourceColumns(env[i], col + 1, nextRegister + 1);
          var dest := AllocRegister();
          ghost var op := ReadColumn(env[i].cursorId, col, dest);
          builder.EmitOp(ReadColumn(env[i].cursorId, col, dest));
          RowAfterMore(here, got, [op], [dest], rest);
          assert (b0.ops + (done1 + here)) + [op] == b0.ops + (done1 + (here + [op]));
          assert (regs1 + got) + [dest] == regs1 + (got + [dest]);
          here, got := here + [op], got + [dest];
          regs := regs + [dest];
        }
        ghost var rest := AllColumns(env[i + 1..], nextRegister);
        assert here + [] == here && got + [] == got;
        RowAfterMore(done1, regs1, here, got, rest);
        done := done1 + here;
      }
      assert env[|env|..] == [];
      assert done + [] == done && regs + [] == regs;
    }

    method CompileItems(items: seq<ProjectionItem>, env: seq<RowSource>) returns (r: Result<seq<nat>, PlanError>)
      modifies this`nextRegister, builder`ops
      ensures match ItemsCode(items, env, old(nextRegister))
              case Failure(e) => r == Failure(e)
              case Success(row) =>
                r == Success(row.fields) && nextRegister == row.next && builder.Snap() == L.EmitAll(old(builder.Snap()), row.ops)
    {
      ghost var b0, r0 := builder.Snap(), nextRegister;
      ghost var done: seq<Op> := [];
      var regs: seq<nat> := [];
      assert items[0..] == items;
      assert b0.ops + [] == b0.ops;
      ResultAfterNothing(ItemsCode(items, env, r0));
      for i := 0 to |items|
        invariant builder.Snap() == L.EmitAll(b0, done)
        invariant ItemsCode(items, env, r0) == ResultAfter(done, regs, ItemsCode(items[i..], env, nextRegister))
      {
        assert items[i..][0] == items[i] && items[i..][1..] == items[i + 1..];
        ghost var row := ItemCode(items[i], env, nextRegister);
        var got: seq<nat>;
        match items[i] {
          case ExprItem(e, _) =>
            var dest := CompileExpr(e, env);
            if dest.Failure? { return Failure(dest.error); }
            got := [dest.value];
          case Wildcard => got := CompileAllColumns(env);
        }
        ghost var rest := ItemsCode(items[i + 1..], env, nextRegister);
        ResultAfterMore(done, regs, row.value.ops, got, rest);
        assert (b0.ops + done) + row.value.ops == b0.ops + (done + row.value.ops);
        done := done + row.value.ops;
        regs := regs + got;
      }
      assert items[|items|..] == [];
      assert done + [] == done && regs + [] == regs;
      r := Success(regs);
    }

    /** A guard that skips what follows once the limit is reached. */
    method EmitLimitGuard(limit: Option<nat>) returns (skip: Option<nat>)
      modifies builder`ops, builder`nextLabel
      ensures limit.None? ==> skip == None && builder.Snap() == old(builder.Snap())
      ensures limit.Some? ==>
                && skip == Some(old(builder.nextLabel))
                && builder.Snap() == GuardStart(old(builder.Snap()), limit.value)
    {
      match limit {
        case None => skip := None;
        case Some(n) =>
          var lbl := builder.NewLabel();
          builder.EmitOp(IfResultsGe(n, lbl));
          skip := Some(lbl);
      }
    }

    /** Puts the row out and marks the end of the guard. */
    method FinishRow(fields: seq<nat>, skip: Option<nat>, ghost limit: Option<nat>, ghost row: RowCode, ghost b0: L.Builder)
      requires fields == row.fields && skip == (if limit.Some? then Some(b0.next) else None)
      requires builder.Snap() == L.EmitAll(if limit.Some? then GuardStart(b0, limit.value) else b0, row.ops)
      modifies builder`ops, builder`labels
      ensures builder.Snap() == L.EmitSeq(Guarded(limit, row), b0)
    {
      GuardedEmits(limit, row, b0);
      builder.EmitOp(ResultRow(fields));
      if skip.Some? { builder.MarkLabel(skip.value); }
    }

    method EmitProjection(items: seq<ProjectionItem>, env: seq<RowSource>, limit: Option<nat>) returns (err: Option<PlanError>)
      modifies this`nextRegister, builder
      ensures match ItemsCode(items, env, old(nextRegister))
              case Failure(e) => err == Some(e)
              case Success(row) =>
                err == None && nextRegister == row.next && builder.Snap() == L.EmitSeq(Guarded(limit, row), old(builder.Snap()))
    {
      ghost var b0 := builder.Snap();
      ghost var code := ItemsCode(items, env, nextRegister);
      var skip := EmitLimitGuard(limit);
      var regs := CompileItems(items, env);
      if regs.Failure? { return Some(regs.error); }
      FinishRow(regs.value, skip, limit, code.value, b0);
      err := None;
    }

    method EmitWildcardRow(env: seq<RowSource>, limit: Option<nat>)
      modifies this`nextRegister, builder
      ensures var row := AllColumns(env, old(nextRegister));
              nextRegister == row.next && builder.Snap() == L.EmitSeq(Guarded(limit, row), old(builder.Snap()))
    {
      ghost var b0 := builder.Snap();
      ghost var row := AllColumns(env, nextRegister);
      var skip := EmitLimitGuard(limit);
      var regs := CompileAllColumns(env);
      FinishRow(regs, skip, limit, row, b0);
    }

    // ---------------------------------------------------------------- joins

    /** One USING column: both sides, their comparison, and its conjunction with the outcome so far. */
    method CompilePair(column: string, env: seq<RowSource>, n: nat, current: Option<nat>) returns (r: Result<nat, PlanError>)
      modifies this`nextRegister, builder`ops
      ensures match PairCode(column, env, n, current, old(nextRegister))
              case Failure(e) => r == Failure(e)
              case Success(c) => r == Success(c.dest) && nextRegister == c.next && builder.Snap() == L.EmitAll(old(builder.Snap()), c.ops)
    {
      hide UsingColumn, LeftSources, RightSources;
      ghost var b0, r0 := builder.Snap(), nextRegister;
      var left := CompileColumnFromSources(column, LeftSources(env, n));
      if left.Failure? { return left; }
      ghost var a := UsingColumn(LeftSources(env, n), column, r0).value;
      var right := CompileColumnFromSources(column, RightSources(env, n));
      if right.Failure? { return right; }
      ghost var b := UsingColumn(RightSources(env, n), column, a.next).value;
      var eq := AllocRegister();
      builder.EmitOp(Compute(Eq, left.value, right.value, eq));
      EmittedOps(b0, a.ops, b.ops, [Compute(Eq, a.dest, b.dest, eq)]);
      match current {
        case Some(prev) =>
          var dest := AllocRegister();
          builder.EmitOp(Compute(And, prev, eq, dest));
          EmittedOps(b0, a.ops + b.ops, [Compute(Eq, a.dest, b.dest, eq)], [Compute(And, prev, eq, dest)]);
          r := Success(dest);
        case None =>
          assert a.ops + b.ops + [Compute(Eq, a.dest, b.dest, eq)] + [] == a.ops + b.ops + [Compute(Eq, a.dest, b.dest, eq)];
          r := Success(eq);
      }
    }

    method CompileUsing(columns: seq<string>, env: seq<RowSource>, n: nat) returns (r: Result<Option<nat>, PlanError>)
      modifies this`nextRegister, builder`ops
      ensures EmitsCond(UsingCode(columns, env, n, None, old(nextRegister)), r, old(builder.Snap()), builder.Snap(), nextRegister)
    {
      hide PairCode, UsingCode;
      ghost var b0, r0 := builder.Snap(), nextRegister;
      ghost var done: seq<Op> := [];
      var current: Option<nat> := None;
      assert columns[0..] == columns && b0.ops + [] == b0.ops;
      CondAfterNothing(UsingCode(columns, env, n, None, r0));
      for i := 0 to |columns|
        invariant builder.Snap() == L.EmitAll(b0, done)
        invariant UsingCode(columns, env, n, None, r0) == CondAfter(done, UsingCode(columns[i..], env, n, current, nextRegister))
      {
        UsingUnfold(columns[i..], env, n, current, nextRegister);
        assert columns[i..][0] == columns[i] && columns[i..][1..] == columns[i + 1..];
        ghost var pair := PairCode(columns[i], env, n, current, nextRegister);
        var both := CompilePair(columns[i], env, n, current);
        if both.Failure? { return Failure(both.error); }
        current := Some(both.value);
        CondAfterMore(done, pair.value.ops, UsingCode(columns[i + 1..], env, n, current, nextRegister));
        assert (b0.ops + done) + pair.value.ops == b0.ops + (done + pair.value.ops);
        done := done + pair.value.ops;
      }
      assert columns[|columns|..] == [];
      UsingUnfold([], env, n, current, nextRegister);
      assert done + [] == done;
      r := Success(current);
    }

    method CompileJoinConstraint(c: JoinConstraint, env: seq<RowSource>, n: nat) returns (r: Result<Option<nat>, PlanError>)
      modifies this`nextRegister, builder`ops
      ensures EmitsCond(ConstraintCode(c, env, n, old(nextRegister)), r, old(builder.Snap()), builder.Snap(), nextRegister)
    {
      match c {
        case NoConstraint =>
          assert builder.ops + [] == builder.ops;
          r := Success(None);
        case On(e) =>
          var dest := CompileExpr(e, env);
          match dest {
            case Failure(err) => r := Failure(err);
            case Success(d) => r := Success(Some(d));
          }
        case Using(columns) => r := CompileUsing(columns, env, n);
      }
    }

    // ---------------------------------------------------------------- rows

    /** Emits code that runs k for every row of p. */
    method CompileRows(p: Plan, env: seq<RowSource>, k: Consumer) returns (err: Option<PlanError>)
      modifies this`nextCursor, this`nextRegister, builder
      ensures EmitsBody(RowsCode(p, env, k, catalog, old(nextCursor), old(nextRegister)), err,
                        old(builder.Snap()), builder.Snap(), nextCursor, nextRegister)
      decreases PlanSize(p) + Weight(k), 1
    {
      match p {
        case OneRow => err := ConsumeRow(k, env);
        case SeqScan(table, alias) => err := CompileSeqScan(table, alias, env, k);
        case Filter(cond, input) => err := CompileRows(input, env, WhenThen(cond, k));
        case Project(items, input) => err := CompileRows(input, env, ProjectThen(items, k));
        case NestedLoopJoin(_, c, left, right) => err := CompileRows(left, env, JoinLeft(right, c, k));
        case HashJoin(_, c, left, right) => err := CompileRows(left, env, JoinLeft(right, c, k));
        case Limit(count, input) =>
          var limit := LiteralLimit(count);
          match limit {
            case Failure(e) => err := Some(e);
            case Success(n) => err := CompileRows(input, env, EmitAll(Some(n)));
          }
        case Sort(_, _) => err := Some(SortUnsupported);
      }
    }

    method BeginLoop(cursor: nat, root: nat) returns (loopStart: nat, loopEnd: nat)
      modifies builder
      ensures loopStart == old(builder.nextLabel) && loopEnd == loopStart + 1
      ensures builder.Snap() == L.BeginScan(cursor, root, loopStart, loopEnd, old(builder.Snap()).(next := loopEnd + 1))
    {
      loopStart := builder.NewLabel();
      loopEnd := builder.NewLabel();
      builder.EmitOp(OpenRead(cursor, root));
      builder.EmitOp(Rewind(cursor));
      builder.EmitOp(IfCursorEnd(loopEnd));
      assert builder.ops == old(builder.ops) + ScanHead(cursor, root, loopEnd);
      builder.MarkLabel(loopStart);
    }

    method EndLoop(cursor: nat, loopStart: nat, loopEnd: nat)
      modifies builder`ops, builder`labels
      ensures builder.Snap() == L.EndScan(cursor, loopStart, loopEnd, old(builder.Snap()))
    {
      builder.EmitOp(MoveNext(cursor));
      builder.EmitOp(IfCursorEnd(loopEnd));
      builder.EmitOp(Goto(loopStart));
      assert builder.ops == old(builder.ops) + [MoveNext(cursor), IfCursorEnd(loopEnd), Goto(loopStart)];
      builder.MarkLabel(loopEnd);
      builder.EmitOp(Close(cursor));
    }

    method CompileSeqScan(table: string, alias: Option<string>, env: seq<RowSource>, k: Consumer) returns (err: Option<PlanError>)
      modifies this`nextCursor, this`nextRegister, builder
      ensures EmitsBody(RowsCode(SeqScan(table, alias), env, k, catalog, old(nextCursor), old(nextRegister)), err,
                        old(builder.Snap()), builder.Snap(), nextCursor, nextRegister)
      decreases 1 + Weight(k), 0
    {
      hide L.EmitSeq, ConsumerCode, Weight, L.BeginScan, L.EndScan;
      if table !in catalog {
        return Some(UnknownTable(table));
      }
      ghost var b0, r0 := builder.Snap(), nextRegister;
      var binding := catalog[table];
      var cursor := AllocCursor();
      var scanEnv := env + [ScanSource(table, alias, cursor, binding)];
      var loopStart, loopEnd := BeginLoop(cursor, binding.root);
      ghost var body := ConsumerCode(k, scanEnv, catalog, nextCursor, nextRegister);
      err := ConsumeRow(k, scanEnv);
      if err.Some? { return; }
      EndLoop(cursor, loopStart, loopEnd);
      L.EmitOne(Scan(cursor, binding.root, body.value.code), b0);
    }

    /** Emits what is to be done with the row the sources of env stand at. */
    method ConsumeRow(k: Consumer, env: seq<RowSource>) returns (err: Option<PlanError>)
      modifies this`nextCursor, this`nextRegister, builder
      ensures EmitsBody(ConsumerCode(k, env, catalog, old(nextCursor), old(nextRegister)), err,
                        old(builder.Snap()), builder.Snap(), nextCursor, nextRegister)
      decreases Weight(k), 0
    {
      match k {
        case EmitItems(items, limit) => err := EmitProjection(items, env, limit);
        case EmitAll(limit) =>
          EmitWildcardRow(env, limit);
          err := None;
        case WhenThen(cond, next) =>
          ghost var b0, code := builder.Snap(), ExprCode(cond, env, nextRegister);
          var r := CompileExpr(cond, env);
          if r.Failure? { return Some(r.error); }
          err := CompileGuarded(code.value.ops, r.value, next, env, b0);
        case ProjectThen(items, next) =>
          ghost var b0, code := builder.Snap(), ItemsCode(items, env, nextRegister);
          err := EmitProjection(items, env, None);
          if err.Some? { return; }
          ghost var body := ConsumerCode(next, env, catalog, nextCursor, nextRegister);
          err := ConsumeRow(next, env);
          if body.Success? { L.EmitAppend(Guarded(None, code.value), body.value.code, b0); }
        case JoinLeft(right, c, next) => err := CompileRows(right, env, JoinRight(c, |env|, next));
        case JoinRight(c, n, next) =>
          ghost var b0, code := builder.Snap(), ConstraintCode(c, env, n, nextRegister);
          var r := CompileJoinConstraint(c, env, n);
          if r.Failure? { return Some(r.error); }
          match r.value {
            case Some(cond) => err := CompileGuarded(code.value.ops, cond, next, env, b0);
            case None =>
              NoCondOps(c, env, n, old(nextRegister));
              assert b0.ops + [] == b0.ops;
              err := ConsumeRow(next, env);
          }
      }
    }

    /** Emits the rest behind a jump that skips it when the condition does not hold. */
    method CompileGuarded(ghost ops: seq<Op>, cond: nat, next: Consumer, env: seq<RowSource>, ghost b0: L.Builder) returns (err: Option<PlanError>)
      requires builder.Snap() == L.EmitAll(b0, ops)
      modifies this`nextCursor, this`nextRegister, builder
      ensures match ConsumerCode(next, env, catalog, old(nextCursor), old(nextRegister))
              case Failure(e) => err == Some(e)
              case Success(b) =>
                && err == None && nextCursor == b.cursors && nextRegister == b.next
                && builder.Snap() == L.EmitSeq(Prims(ops) + [WhenTrue(cond, b.code)], b0)
      decreases Weight(next), 1
    {
      ghost var b1 := builder.Snap();
      var skip := builder.NewLabel();
      builder.EmitOp(IfNot(cond, skip));
      ghost var body := ConsumerCode(next, env, catalog, nextCursor, nextRegister);
      err := ConsumeRow(next, env);
      if err.Some? { return; }
      builder.MarkLabel(skip);
      L.EmitPrims(ops, b0);
      L.EmitOne(WhenTrue(cond, body.value.code), b1);
      L.EmitAppend(Prims(ops), [WhenTrue(cond, body.value.code)], b0);
    }

    // ---------------------------------------------------------------- whole programs

    method CompileOutput(p: Plan, limit: Option<nat>) returns (err: Option<PlanError>)
      requires nextCursor == 0 && nextRegister == 0
      modifies this`nextCursor, this`nextRegister, builder
      ensures match OutputCode(p, limit, catalog)
              case Failure(e) => err == Some(e)
              case Success(b) => err == None && builder.Snap() == L.EmitSeq(b.code, old(builder.Snap()))
    {
      match p {
        case Project(items, input) => err := CompileRows(input, [], EmitItems(items, limit));
        case _ => err := CompileRows(p, [], EmitAll(limit));
      }
    }

    /** Compiles a plan into a finished program. */
    method Compile(p: Plan, halt: bool) returns (r: Result<seq<Op>, PlanError>)
      requires nextCursor == 0 && nextRegister == 0 && builder.Snap() == L.EMPTY
      modifies this`nextCursor, this`nextRegister, builder
      ensures r == Program(p, catalog, halt)
    {
      hide Program, OutputCode;
      ProgramParts(p, catalog, halt);
      var top := PeelLimit(p, None);
      match top {
        case Failure(e) => return Failure(e);
        case Success(t) =>
          ghost var code := OutputCode(t.0, t.1, catalog);
          var err := CompileOutput(t.0, t.1);
          if err.Some? { return Failure(err.value); }
          ghost var b := builder.Snap();
          if halt { builder.EmitOp(Halt); }
          assert b.ops + [] == b.ops;
          assert builder.Snap() == L.EmitAll(b, if halt then [Halt] else []);
          ProgramScoped(p, catalog);
          L.FinishIsFlat(code.value.code, 0, halt);
          r := builder.FinishProgram();
      }
    }
  }

  lemma ProgramParts(p: Plan, cat: Catalog, halt: bool)
    ensures match PeelLimit(p, None)
            case Failure(e) => Program(p, cat, halt) == Failure(e)
            case Success(t) =>
              match OutputCode(t.0, t.1, cat)
              case Failure(e) => Program(p, cat, halt) == Failure(e)
              case Success(b) => ProgramCode(p, cat) == Success(b) && Program(p, cat, halt) == Success(Flat(b.code, 0) + if halt then [Halt] else [])
  {
    hide OutputCode;
  }

  function GuardStart(b: L.Builder, limit: nat): L.Builder {
    L.Emit(b.(next := b.next + 1), IfResultsGe(limit, b.next))
  }

  lemma GuardedEmits(limit: Option<nat>, row: RowCode, b0: L.Builder)
    ensures var b := L.Emit(L.EmitAll(if limit.Some? then GuardStart(b0, limit.value) else b0, row.ops), ResultRow(row.fields));
            L.EmitSeq(Guarded(limit, row), b0) == if limit.Some? then L.Mark(b, b0.next) else b
  {
    hide L.EmitSeq;
    var ops := row.ops + [ResultRow(row.fields)];
    var b1 := if limit.Some? then GuardStart(b0, limit.value) else b0;
    assert (b1.ops + row.ops) + [ResultRow(row.fields)] == b1.ops + ops;
    L.EmitPrims(ops, b1);
    if limit.Some? { L.EmitOne(WhenRoom(limit.value, Prims(ops)), b0); }
  }

  lemma NoCondOps(c: JoinConstraint, env: seq<RowSource>, n: nat, reg: nat)
    ensures var r := ConstraintCode(c, env, n, reg); r.Success? && r.value.cond.None? ==> r.value.ops == []
  {
    ConstraintPlain(c, env, n, reg);
  }

  ghost predicate EmitsCond(code: Result<CondCode, PlanError>, r: Result<Option<nat>, PlanError>, was: L.Builder, now: L.Builder, next: nat) {
    match code
    case Failure(e) => r == Failure(e)
    case Success(c) => r == Success(c.cond) && next == c.next && now == L.EmitAll(was, c.ops)
  }

  ghost predicate EmitsBody(code: Result<Body, PlanError>, err: Option<PlanError>, was: L.Builder, now: L.Builder, cursors: nat, next: nat) {
    match code
    case Failure(e) => err == Some(e)
    case Success(b) => err == None && cursors == b.cursors && next == b.next && now == L.EmitSeq(b.code, was)
  }

  /** The code of one USING column. */
  ghost function PairCode(column: string, env: seq<RowSource>, n: nat, current: Option<nat>, reg: nat): Result<Code, PlanError> {
    match UsingColumn(LeftSources(env, n), column, reg)
    case Failure(err) => Failure(err)
    case Success(a) =>
      match UsingColumn(RightSources(env, n), column, a.next)
      case Failure(err) => Failure(err)
      case Success(b) =>
        var both := if current.Some? then [Compute(And, current.value, b.next, b.next + 1)] else [];
        var at := b.next + |both|;
        Success(Code(a.ops + b.ops + [Compute(Eq, a.dest, b.dest, b.next)] + both, at, at + 1))
  }

  lemma UsingUnfold(columns: seq<string>, env: seq<RowSource>, n: nat, current: Option<nat>, reg: nat)
    ensures columns == [] ==> UsingCode(columns, env, n, current, reg) == Success(CondCode([], current, reg))
    ensures columns != [] ==>
              var pair := PairCode(columns[0], env, n, current, reg);
              && (pair.Failure? ==> UsingCode(columns, env, n, current, reg) == Failure(pair.error))
              && (pair.Success? ==>
                    UsingCode(columns, env, n, current, reg)
                    == CondAfter(pair.value.ops, UsingCode(columns[1..], env, n, Some(pair.value.dest), pair.value.next)))
  {
    hide UsingColumn, LeftSources, RightSources;
  }

  lemma EmittedOps(b: L.Builder, x: seq<Op>, y: seq<Op>, z: seq<Op>)
    ensures L.EmitAll(L.EmitAll(L.EmitAll(b, x), y), z) == L.EmitAll(b, x + y + z)
    ensures L.EmitAll(L.EmitAll(b, x + y), z) == L.EmitAll(b, x + y + z)
  {
    assert ((b.ops + x) + y) + z == b.ops + (x + y + z);
    assert (b.ops + (x + y)) + z == b.ops + (x + y + z);
  }

  ghost function CondAfter(ops: seq<Op>, rest: Result<CondCode, PlanError>): Result<CondCode, PlanError> {
    match rest
    case Failure(e) => Failure(e)
    case Success(c) => Success(c.(ops := ops + c.ops))
  }

  lemma CondAfterNothing(r: Result<CondCode, PlanError>)
    ensures CondAfter([], r) == r
  {
    if r.Success? { assert [] + r.value.ops == r.value.ops; }
  }

  lemma CondAfterMore(ops: seq<Op>, ops1: seq<Op>, rest: Result<CondCode, PlanError>)
    ensures CondAfter(ops, CondAfter(ops1, rest)) == CondAfter(ops + ops1, rest)
  {
    if rest.Success? { assert ops + (ops1 + rest.value.ops) == (ops + ops1) + rest.value.ops; }
  }

  /** The outcome of compiling one value agrees with its code. */
  ghost predicate Emits(code: Result<Code, PlanError>, r: Result<nat, PlanError>, was: L.Builder, now: L.Builder, next: nat) {
    match code
    case Failure(e) => r == Failure(e)
    case Success(c) => r == Success(c.dest) && next == c.next && now == L.EmitAll(was, c.ops)
  }

  ghost function RowAfter(ops: seq<Op>, fields: seq<nat>, rest: RowCode): RowCode {
    RowCode(ops + rest.ops, fields + rest.fields, rest.next)
  }

  lemma RowAfterNothing(row: RowCode)
    ensures RowAfter([], [], row) == row
  {
    assert [] + row.ops == row.ops && [] + row.fields == row.fields;
  }

  lemma RowAfterMore(ops: seq<Op>, fields: seq<nat>, ops1: seq<Op>, fields1: seq<nat>, rest: RowCode)
    ensures RowAfter(ops, fields, RowAfter(ops1, fields1, rest)) == RowAfter(ops + ops1, fields + fields1, rest)
  {
    assert ops + (ops1 + rest.ops) == (ops + ops1) + rest.ops;
    assert fields + (fields1 + rest.fields) == (fields + fields1) + rest.fields;
  }

  ghost function ResultAfter(ops: seq<Op>, fields: seq<nat>, rest: Result<RowCode, PlanError>): Result<RowCode, PlanError> {
    match rest
    case Failure(e) => Failure(e)
    case Success(row) => Success(RowAfter(ops, fields, row))
  }

  lemma ResultAfterNothing(r: Result<RowCode, PlanError>)
    ensures ResultAfter([], [], r) == r
  {
    if r.Success? { RowAfterNothing(r.value); }
  }

  lemma ResultAfterMore(ops: seq<Op>, fields: seq<nat>, ops1: seq<Op>, fields1: seq<nat>, rest: Result<RowCode, PlanError>)
    ensures ResultAfter(ops, fields, ResultAfter(ops1, fields1, rest)) == ResultAfter(ops + ops1, fields + fields1, rest)
  {
    if rest.Success? { RowAfterMore(ops, fields, ops1, fields1, rest.value); }
  }
}
