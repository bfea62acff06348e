/** UPDATE statements carried out on stored tables. */
module UpdateStatement {
  import opened Values
  import opened Cells
  import opened SqlSyntax
  import opened Machine
  import opened Blocks
  import opened PlanCode
  import opened RecordCodec
  import opened BTreeSpec
  import opened UpdateMachine
  import opened UpdateCode
  import opened UpdateCorrect
  import opened UpdateCompiler
  import opened ProgramChecks
  import opened TableEngine

  /** Operations that neither open, rewind nor update. */
  ghost predicate Quiet(op: TableOp) {
    Opening(op).None? && Rewinding(op).None? && Target(op).None? && !op.UpdateRow?
  }

  lemma QuietBases(ops: seq<Op>)
    requires AllPlain(ops)
    ensures forall i :: 0 <= i < |ops| ==> Quiet(Bases(ops)[i])
  {
    forall i | 0 <= i < |ops| ensures Quiet(Bases(ops)[i]) { assert Plain(ops[i]); }
  }

  /** Inside the loop body only the jump past it and the update itself stand out. */
  lemma BodyOps(ops: seq<TableOp>, p: Parts, body: nat, skip: nat, i: nat)
    requires LaidOut(ops, p, body, skip) && AllPlain(p.cond.ops) && AllPlain(p.row.ops) && 3 <= i < skip
    ensures Quiet(ops[i]) || (Opening(ops[i]).None? && Rewinding(ops[i]).None? && Target(ops[i]) == Some(skip) && !ops[i].UpdateRow?)
            || (ops[i].UpdateRow? && ops[i].cursor == CURSOR)
  {
    hide AllPlain, Quiet;
    QuietBases(p.cond.ops);
    QuietBases(p.row.ops);
    QuietOthers(p);
    if i < body {
      HoldsAt(ops, 3, Guard(p.cond, skip), i - 3);
    } else {
      HoldsAt(ops, body, Replace(p.cond.next, p.row), i - body);
    }
  }

  lemma QuietOthers(p: Parts)
    ensures Quiet(Rowid(CURSOR, p.cond.next)) && Quiet(MakeRecord(p.row.next, p.row.fields))
  {
  }

  /** The program opens its one cursor, rewinds it at once, and never jumps back there. */
  lemma UpdateOrderly(p: Parts, body: nat, skip: nat, ops: seq<TableOp>, roots: set<nat>)
    requires LaidOut(ops, p, body, skip) && AllPlain(p.cond.ops) && AllPlain(p.row.ops) && p.root in roots
    ensures Orderly(ops, roots, Some(CURSOR))
  {
    hide Holds, Guard, Replace, AllPlain;
    LaidOutGuard(ops, p, body, skip);
    BodyOps(ops, p, body, skip, 3);
    forall i | 0 <= i < |ops| ensures OpFits(ops, i, roots, Some(CURSOR)) {
      if 3 <= i < skip { BodyOps(ops, p, body, skip, i); }
    }
  }

  lemma ProgramOrderly(st: UpdateStmt, cat: Catalog, roots: set<nat>)
    requires UpdateProgram(st, cat).Success? && cat[st.table].root in roots
    ensures Orderly(UpdateProgram(st, cat).value, roots, Some(CURSOR))
  {
    hide WhereCode, FieldsCode, AssignmentMap, LaidOut, Orderly, Layout, AllPlain;
    var p := UpdateParts(st, cat).value;
    var src := TableSource(st.table, cat[st.table]);
    WherePlain(st.whereClause, src);
    FieldsPlain(AssignmentMap(st.assignments, src.columns).value, 0, src, p.cond.next + 1);
    LayoutLaidOut(p);
    var body := 3 + |Guard(p.cond, 0)|;
    UpdateOrderly(p, body, body + |p.row.ops| + 3, Layout(p.root, p.cond, p.row), roots);
  }

  /**
   Compiles an UPDATE and runs it on stored tables: afterwards the pages hold the table the statement means, every other
   table as it was, and all of them well-formed.
   */
  method RunUpdate(st: UpdateStmt, catalog: Catalog, vm: VMInstance) returns (r: Result<bool, UpdateError>)
    requires vm.Valid() && vm.places == map[]
    requires st.table in catalog ==> catalog[st.table].root in vm.tables && RowKeys(Entries(vm.tables[catalog[st.table].root].t))
    modifies vm, vm.btree`pages
    ensures vm.Valid()
    ensures r.Failure? <==> UpdateProgram(st, catalog).Failure?
    ensures r.Failure? ==> vm.Snap() == old(vm.Snap()) && r.error == UpdateProgram(st, catalog).error
    ensures r.Success? ==>
              var root := catalog[st.table].root;
              var now := UpdatedTable(vm.fc, st, catalog, Entries(old(vm.tables)[root].t));
              && vm.tables.Keys == old(vm.tables.Keys)
              && HeapOf(vm.tables) == HeapOf(old(vm.tables))[root := now.cells] && vm.results == old(vm.results)
              && r.value == now.ok && (now.ok ==> vm.places == map[])
    ensures r.Success? <==> CompilableUpdate(st, catalog)
    ensures r.Success? ==>
              var root := catalog[st.table].root;
              Carried(vm.fc, st, StatementSource(st, catalog), Entries(old(vm.tables)[root].t), Entries(vm.tables[root].t), r.value)
  {
    hide UpdateParts, TablesKept, CursorIs, UpdatedTable, Entries, Carried, CompilableUpdate;
    UpdateCompiles(st, catalog);
    var compiler := new MutationCompiler(catalog);
    var program := compiler.CompileUpdate(st);
    match program {
      case Failure(e) => r := Failure(e);
      case Success(ops) =>
        Bound(st, catalog);
        ghost var root, u := catalog[st.table].root, vm.Snap();
        ProgramOrderly(st, catalog, vm.tables.Keys);
        StartsSensible(ops, vm.tables.Keys, Some(CURSOR), vm.Snap());
        UpdateEnds(vm.fc, st, catalog, u);
        UpdateMeans(vm.fc, st, catalog, u.heap[root]);
        ghost var n: nat :| Ends(StepsTable(vm.fc, ops, At(0, u), n), u, root, UpdatedTable(vm.fc, st, catalog, u.heap[root]));
        var ok := vm.Run(ops, Some(CURSOR), n);
        r := Success(ok);
    }
  }

  lemma Bound(st: UpdateStmt, cat: Catalog)
    requires UpdateProgram(st, cat).Success?
    ensures st.table in cat && UpdateParts(st, cat).Success? && UpdateParts(st, cat).value.root == cat[st.table].root
  {
  }
}
