/** Emitting block-structured code with labels, and resolving the labels at the end. */
module Labels {
  import opened Values
  import opened SqlSyntax
  import opened Machine
  import opened Blocks
  import opened PlanCode

  /** The operations so far, the positions of the labels marked so far, and the next new label. */
  datatype Builder = Builder(ops: seq<Op>, labels: map<nat, nat>, next: nat)

  const EMPTY: Builder := Builder([], map[], 0)

  function Emit(b: Builder, op: Op): Builder { b.(ops := b.ops + [op]) }

  function EmitAll(b: Builder, ops: seq<Op>): Builder { b.(ops := b.ops + ops) }

  function Mark(b: Builder, lbl: nat): Builder { b.(labels := b.labels[lbl := |b.ops|]) }

  function EmitSeq(code: seq<Stmt>, b: Builder): Builder
    decreases code, 0
  {
    if code == [] then b else EmitSeq(code[1..], EmitStmt(code[0], b))
  }

  function EmitStmt(st: Stmt, b: Builder): Builder
    decreases st, 0
  {
    match st
    case Prim(op) => Emit(b, op)
    case WhenTrue(r, body) => Mark(EmitSeq(body, Emit(b.(next := b.next + 1), IfNot(r, b.next))), b.next)
    case WhenRoom(limit, body) => Mark(EmitSeq(body, Emit(b.(next := b.next + 1), IfResultsGe(limit, b.next))), b.next)
    case Scan(c, root, body) =>
      var start, end := b.next, b.next + 1;
      EndScan(c, start, end, EmitSeq(body, BeginScan(c, root, start, end, b.(next := b.next + 2))))
  }

  function BeginScan(c: nat, root: nat, start: nat, end: nat, b: Builder): Builder {
    Mark(EmitAll(b, ScanHead(c, root, end)), start)
  }

  function EndScan(c: nat, start: nat, end: nat, b: Builder): Builder {
    Emit(Mark(EmitAll(b, [MoveNext(c), IfCursorEnd(end), Goto(start)]), end), Close(c))
  }

  // ---------------------------------------------------------------- resolving

  function Target(labels: map<nat, nat>, lbl: nat): Result<nat, PlanError> {
    if lbl in labels then Success(labels[lbl]) else Failure(UnresolvedLabel(lbl))
  }

  function ResolveOp(op: Op, labels: map<nat, nat>): Result<Op, PlanError> {
    if op.IfCursorEnd? || op.IfResultsGe? || op.Goto? || op.IfNot? then
      match Target(labels, op.target)
      case Success(t) => Success(op.(target := t))
      case Failure(e) => Failure(e)
    else Success(op)
  }

  function ResolveAll(ops: seq<Op>, labels: map<nat, nat>): Result<seq<Op>, PlanError>
    decreases ops
  {
    if ops == [] then Success([])
    else match ResolveOp(ops[0], labels)
         case Failure(e) => Failure(e)
         case Success(op) =>
           match ResolveAll(ops[1..], labels)
           case Failure(e) => Failure(e)
           case Success(rest) => Success([op] + rest)
  }

  function Finish(b: Builder): Result<seq<Op>, PlanError> { ResolveAll(b.ops, b.labels) }

  lemma {:induction false} ResolveAppend(a: seq<Op>, b: seq<Op>, labels: map<nat, nat>)
    requires ResolveAll(a, labels).Success? && ResolveAll(b, labels).Success?
    ensures ResolveAll(a + b, labels) == Success(ResolveAll(a, labels).value + ResolveAll(b, labels).value)
    decreases a
  {
    if a == [] {
      assert a + b == b;
      assert [] + ResolveAll(b, labels).value == ResolveAll(b, labels).value;
    } else {
      assert (a + b)[0] == a[0] && (a + b)[1..] == a[1..] + b;
      ResolveAppend(a[1..], b, labels);
      var x, y, z := ResolveOp(a[0], labels).value, ResolveAll(a[1..], labels).value, ResolveAll(b, labels).value;
      assert [x] + (y + z) == ([x] + y) + z;
    }
  }

  lemma ResolveOne(op: Op, labels: map<nat, nat>)
    requires ResolveOp(op, labels).Success?
    ensures ResolveAll([op], labels) == Success([ResolveOp(op, labels).value])
  {
    var ops := [op];
    assert ops[1..] == [] && ResolveAll(ops[1..], labels) == Success([]);
    assert [ResolveOp(op, labels).value] + [] == [ResolveOp(op, labels).value];
  }

  // ---------------------------------------------------------------- emitted code resolves to the laid-out code

  /** after came from before by emitting n operations: only new labels were marked. */
  ghost predicate Grown(before: Builder, after: Builder, n: nat) {
    && before.next <= after.next
    && |after.ops| == |before.ops| + n && after.ops[..|before.ops|] == before.ops
    && forall l :: (l < before.next || after.next <= l) ==>
         (l in after.labels <==> l in before.labels) && (l in before.labels ==> after.labels[l] == before.labels[l])
  }

  /** The final labels include those that were marked between before and after. */
  ghost predicate Settled(before: Builder, after: Builder, final: map<nat, nat>) {
    forall l :: before.next <= l < after.next ==> l in after.labels && l in final && final[l] == after.labels[l]
  }

  ghost predicate Lays(before: Builder, after: Builder, final: map<nat, nat>, code: seq<Op>) {
    && Grown(before, after, |code|)
    && (Settled(before, after, final) ==> ResolveAll(after.ops[|before.ops|..], final) == Success(code))
    && forall l :: before.next <= l < after.next ==> l in after.labels
  }

  lemma LaysJoin(a: Builder, b: Builder, c: Builder, final: map<nat, nat>, x: seq<Op>, y: seq<Op>)
    requires Lays(a, b, final, x) && Lays(b, c, final, y)
    ensures Lays(a, c, final, x + y)
  {
    hide ResolveAll;
    assert c.ops[..|a.ops|] == a.ops by { assert c.ops[..|b.ops|] == b.ops; assert c.ops[..|a.ops|] == b.ops[..|a.ops|]; }
    var p, q := b.ops[|a.ops|..], c.ops[|b.ops|..];
    assert c.ops[|a.ops|..] == p + q by {
      assert c.ops == c.ops[..|b.ops|] + q;
      assert c.ops == b.ops + q;
    }
    if Settled(a, c, final) {
      assert Settled(b, c, final) && Settled(a, b, final);
      ResolveAppend(p, q, final);
    }
  }

  lemma LaysNothing(b: Builder, final: map<nat, nat>)
    ensures Lays(b, b, final, [])
  {
    assert b.ops[|b.ops|..] == [];
  }

  /** Emitting operations without targets. */
  lemma LaysPlain(b: Builder, final: map<nat, nat>, op: Op)
    requires ResolveOp(op, final) == Success(op)
    ensures Lays(b, Emit(b, op), final, [op])
  {
    ResolveOne(op, final);
    assert Emit(b, op).ops[|b.ops|..] == [op];
  }

  lemma {:induction false} EmitLays(code: seq<Stmt>, b: Builder, final: map<nat, nat>, lo: nat)
    requires Scoped(code, lo)
    ensures Lays(b, EmitSeq(code, b), final, Flat(code, |b.ops|))
    decreases code, 0
  {
    hide Lays, FlatStmt, EmitStmt, ScopedStmt;
    if code == [] {
      LaysNothing(b, final);
    } else {
      var b1 := EmitStmt(code[0], b);
      StmtLays(code[0], b, final, lo);
      LaysLength(b, b1, final, FlatStmt(code[0], |b.ops|));
      EmitLays(code[1..], b1, final, lo);
      LaysJoin(b, b1, EmitSeq(code, b), final, FlatStmt(code[0], |b.ops|), Flat(code[1..], |b1.ops|));
    }
  }

  lemma LaysLength(a: Builder, b: Builder, final: map<nat, nat>, code: seq<Op>)
    requires Lays(a, b, final, code)
    ensures |b.ops| == |a.ops| + |code| && a.next <= b.next
  {
  }

  lemma {:induction false} StmtLays(st: Stmt, b: Builder, final: map<nat, nat>, lo: nat)
    requires ScopedStmt(st, lo)
    ensures Lays(b, EmitStmt(st, b), final, FlatStmt(st, |b.ops|))
    decreases st, 0
  {
    hide Lays, Flat, EmitSeq;
    match st
    case Prim(op) => LaysPlain(b, final, op);
    case WhenTrue(r, body) =>
      var b1 := Emit(b.(next := b.next + 1), IfNot(r, b.next));
      EmitLays(body, b1, final, lo);
      GuardLays(b, IfNot(r, b.next), EmitSeq(body, b1), final, Flat(body, |b1.ops|));
    case WhenRoom(limit, body) =>
      var b1 := Emit(b.(next := b.next + 1), IfResultsGe(limit, b.next));
      EmitLays(body, b1, final, lo);
      GuardLays(b, IfResultsGe(limit, b.next), EmitSeq(body, b1), final, Flat(body, |b1.ops|));
    case Scan(c, root, body) =>
      var b1 := BeginScan(c, root, b.next, b.next + 1, b.(next := b.next + 2));
      EmitLays(body, b1, final, c + 1);
      ScanLays(c, root, b, EmitSeq(body, b1), final, Flat(body, |b1.ops|));
  }

  /** A conditional jump over a body to a label marked behind it. */
  lemma GuardLays(b: Builder, jump: Op, b2: Builder, final: map<nat, nat>, code: seq<Op>)
    requires jump.IfNot? || jump.IfResultsGe?
    requires jump.target == b.next
    requires Lays(Emit(b.(next := b.next + 1), jump), b2, final, code)
    ensures Lays(b, Mark(b2, b.next), final, [jump.(target := |b.ops| + 1 + |code|)] + code)
  {
    hide ResolveAll;
    var b1 := Emit(b.(next := b.next + 1), jump);
    var b3 := Mark(b2, b.next);
    var head := jump.(target := |b.ops| + 1 + |code|);
    assert b3.ops[..|b.ops|] == b.ops by { assert b3.ops[..|b1.ops|] == b1.ops; assert b3.ops[..|b.ops|] == b1.ops[..|b.ops|]; }
    var rest := b2.ops[|b1.ops|..];
    assert b3.ops[|b.ops|..] == [jump] + rest by { assert b3.ops == b1.ops + rest; }
    if Settled(b, b3, final) {
      assert b.next in final && final[b.next] == |b2.ops|;
      assert Settled(b1, b2, final) by { SettledInner(b, b1, b2, b3, final); }
      ResolveOne(jump, final);
      ResolveAppend([jump], rest, final);
    }
  }

  lemma SettledInner(b: Builder, b1: Builder, b2: Builder, b3: Builder, final: map<nat, nat>)
    requires b3 == Mark(b2, b.next) && b1.next == b.next + 1 && Settled(b, b3, final) && b2.next >= b1.next
    requires forall l :: b1.next <= l < b2.next ==> l in b2.labels
    ensures Settled(b1, b2, final)
  {
  }

  lemma ScanLays(c: nat, root: nat, b: Builder, b2: Builder, final: map<nat, nat>, code: seq<Op>)
    requires Lays(BeginScan(c, root, b.next, b.next + 1, b.(next := b.next + 2)), b2, final, code)
    ensures var at := |b.ops|; var end := at + 6 + |code|;
            Lays(b, EndScan(c, b.next, b.next + 1, b2), final, ScanHead(c, root, end) + code + ScanTail(c, at + 3, end))
  {
    hide ResolveAll;
    var start, stop := b.next, b.next + 1;
    var b1 := BeginScan(c, root, start, stop, b.(next := b.next + 2));
    var b3 := EndScan(c, start, stop, b2);
    var at, end := |b.ops|, |b.ops| + 6 + |code|;
    var head, tail := ScanHead(c, root, stop), [MoveNext(c), IfCursorEnd(stop), Goto(start)] + [Close(c)];
    var mid := b2.ops[|b1.ops|..];
    assert b2.ops == b1.ops + mid;
    assert b1.ops == b.ops + head;
    assert b3.ops == b.ops + (head + mid + tail);
    assert b3.ops[|b.ops|..] == head + mid + tail;
    if Settled(b, b3, final) {
      ScanSettled(c, root, b, b1, b2, b3, final);
      ResolveScan(c, root, start, stop, at + 3, end, final);
      ResolveAppend(head, mid, final);
      ResolveAppend(head + mid, tail, final);
    }
  }

  lemma ScanSettled(c: nat, root: nat, b: Builder, b1: Builder, b2: Builder, b3: Builder, final: map<nat, nat>)
    requires b1 == BeginScan(c, root, b.next, b.next + 1, b.(next := b.next + 2)) && b3 == EndScan(c, b.next, b.next + 1, b2)
    requires exists code :: Lays(b1, b2, final, code)
    requires Settled(b, b3, final)
    ensures Settled(b1, b2, final)
    ensures b.next in final && final[b.next] == |b.ops| + 3
    ensures b.next + 1 in final && final[b.next + 1] == |b2.ops| + 3
  {
    hide ResolveAll;
    var code :| Lays(b1, b2, final, code);
    assert b.next in b1.labels && b1.labels[b.next] == |b.ops| + 3;
    assert b.next in b2.labels && b2.labels[b.next] == |b.ops| + 3;
  }

  lemma ResolveScan(c: nat, root: nat, start: nat, stop: nat, at: nat, end: nat, final: map<nat, nat>)
    requires start in final && final[start] == at && stop in final && final[stop] == end
    ensures ResolveAll(ScanHead(c, root, stop), final) == Success(ScanHead(c, root, end))
    ensures ResolveAll([MoveNext(c), IfCursorEnd(stop), Goto(start)] + [Close(c)], final) == Success(ScanTail(c, at, end))
  {
    ResolveOne(OpenRead(c, root), final);
    ResolveOne(Rewind(c), final);
    ResolveOne(IfCursorEnd(stop), final);
    ResolveAppend([OpenRead(c, root)], [Rewind(c)], final);
    ResolveAppend([OpenRead(c, root)] + [Rewind(c)], [IfCursorEnd(stop)], final);
    assert ScanHead(c, root, stop) == [OpenRead(c, root)] + [Rewind(c)] + [IfCursorEnd(stop)];
    assert ScanHead(c, root, end) == [OpenRead(c, root)] + [Rewind(c)] + [IfCursorEnd(end)];
    assert ScanTail(c, at, end) == [MoveNext(c)] + [IfCursorEnd(end)] + [Goto(at)] + [Close(c)];
    ResolveOne(MoveNext(c), final);
    ResolveOne(Goto(start), final);
    ResolveOne(Close(c), final);
    ResolveAppend([MoveNext(c)], [IfCursorEnd(stop)], final);
    ResolveAppend([MoveNext(c)] + [IfCursorEnd(stop)], [Goto(start)], final);
    ResolveAppend([MoveNext(c)] + [IfCursorEnd(stop)] + [Goto(start)], [Close(c)], final);
    assert [MoveNext(c), IfCursorEnd(stop), Goto(start)] + [Close(c)] == [MoveNext(c)] + [IfCursorEnd(stop)] + [Goto(start)] + [Close(c)];
  }

  /** Every label of emitted code is resolved, and to the position the laid-out code has. */
  lemma FinishIsFlat(code: seq<Stmt>, lo: nat, halt: bool)
    requires Scoped(code, lo)
    ensures Finish(EmitAll(EmitSeq(code, EMPTY), if halt then [Halt] else [])) == Success(Flat(code, 0) + if halt then [Halt] else [])
  {
    hide ResolveAll, Flat;
    var b := EmitSeq(code, EMPTY);
    EmitLays(code, EMPTY, b.labels, lo);
    assert Settled(EMPTY, b, b.labels);
    assert b.ops[0..] == b.ops;
    if halt {
      ResolveOne(Halt, b.labels);
      ResolveAppend(b.ops, [Halt], b.labels);
    } else {
      assert b.ops + [] == b.ops && Flat(code, 0) + [] == Flat(code, 0);
    }
  }

  // ---------------------------------------------------------------- emitting piece by piece

  lemma {:induction false} EmitAppend(a: seq<Stmt>, c: seq<Stmt>, b: Builder)
    ensures EmitSeq(a + c, b) == EmitSeq(c, EmitSeq(a, b))
    decreases a
  {
    hide EmitStmt;
    if a == [] {
      assert a + c == c;
    } else {
      assert (a + c)[0] == a[0] && (a + c)[1..] == a[1..] + c;
      EmitAppend(a[1..], c, EmitStmt(a[0], b));
    }
  }

  lemma {:induction false} EmitPrims(ops: seq<Op>, b: Builder)
    ensures EmitSeq(Prims(ops), b) == EmitAll(b, ops)
    decreases ops
  {
    if ops == [] {
      assert b.ops + [] == b.ops;
    } else {
      assert Prims(ops)[1..] == Prims(ops[1..]);
      EmitPrims(ops[1..], Emit(b, ops[0]));
      assert (b.ops + [ops[0]]) + ops[1..] == b.ops + ops;
    }
  }

  lemma EmitOne(st: Stmt, b: Builder)
    ensures EmitSeq([st], b) == EmitStmt(st, b)
  {
    hide EmitStmt;
    assert [st][1..] == [];
  }
}
