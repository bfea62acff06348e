/** What expressions mean, in terms of numbers, texts and bytes, and that evaluation is just that. */
module ValueLaws {
  import opened Values
  import opened SqlSyntax
  import opened Evaluate
  import opened PlanCode

  // ---------------------------------------------------------------- the order of values

  ghost predicate IsNumber(v: Value) { v.Integer? || v.Real? }

  ghost function NumberOf(v: Value): real
    requires IsNumber(v)
  {
    if v.Integer? then v.n as real else v.r
  }

  /** a is a proper prefix of b, or has the smaller element where the two first differ. */
  ghost predicate TextBefore(a: string, b: string) {
    exists n: nat :: n <= |a| && n < |b| && a[..n] == b[..n] && (n == |a| || a[n] < b[n])
  }

  ghost predicate BytesBefore(a: seq<byte>, b: seq<byte>) {
    exists n: nat :: n <= |a| && n < |b| && a[..n] == b[..n] && (n == |a| || a[n] < b[n])
  }

  /** Null comes before the numbers, they come before the texts, and these before the bytes. */
  ghost predicate Before(a: Value, b: Value) {
    match b
    case Null => false
    case Text(t) => if a.Text? then TextBefore(a.s, t) else !a.Blob?
    case Blob(t) => if a.Blob? then BytesBefore(a.bytes, t) else true
    case _ => a.Null? || (IsNumber(a) && NumberOf(a) < NumberOf(b))
  }

  /** Equal numbers of either type, or one and the same value. */
  ghost predicate Alike(a: Value, b: Value) {
    if IsNumber(a) && IsNumber(b) then NumberOf(a) == NumberOf(b) else a == b
  }

  /** After equal first elements the rest decides. */
  lemma TextTail(a: string, b: string)
    requires a != [] && b != [] && a[0] == b[0]
    ensures TextBefore(a, b) <==> TextBefore(a[1..], b[1..])
  {
    var s, t := a[1..], b[1..];
    if n: nat :| n <= |a| && n < |b| && a[..n] == b[..n] && (n == |a| || a[n] < b[n]) {
      assert n > 0 && s[..n - 1] == a[..n][1..] && t[..n - 1] == b[..n][1..];
    }
    if n: nat :| n <= |s| && n < |t| && s[..n] == t[..n] && (n == |s| || s[n] < t[n]) {
      assert a[..n + 1] == [a[0]] + s[..n] && b[..n + 1] == [b[0]] + t[..n];
    }
  }

  lemma TextHead(a: string, b: string)
    requires a == [] || b == [] || a[0] != b[0]
    ensures TextBefore(a, b) <==> b != [] && (a == [] || a[0] < b[0])
  {
    assert forall n: nat :: 0 < n <= |a| && n < |b| ==> a[..n][0] == a[0] && b[..n][0] == b[0];
    if b != [] && (a == [] || a[0] < b[0]) { assert a[..0] == b[..0]; }
  }

  lemma {:induction false} TextOrder(a: string, b: string)
    ensures CompareTexts(a, b) == Less <==> TextBefore(a, b)
    decreases a
  {
    hide TextBefore;
    if a != [] && b != [] && a[0] == b[0] {
      TextTail(a, b);
      TextOrder(a[1..], b[1..]);
    } else {
      TextHead(a, b);
    }
  }

  /** After equal first elements the rest decides. */
  lemma BytesTail(a: seq<byte>, b: seq<byte>)
    requires a != [] && b != [] && a[0] == b[0]
    ensures BytesBefore(a, b) <==> BytesBefore(a[1..], b[1..])
  {
    var s, t := a[1..], b[1..];
    if n: nat :| n <= |a| && n < |b| && a[..n] == b[..n] && (n == |a| || a[n] < b[n]) {
      assert n > 0 && s[..n - 1] == a[..n][1..] && t[..n - 1] == b[..n][1..];
    }
    if n: nat :| n <= |s| && n < |t| && s[..n] == t[..n] && (n == |s| || s[n] < t[n]) {
      assert a[..n + 1] == [a[0]] + s[..n] && b[..n + 1] == [b[0]] + t[..n];
    }
  }

  lemma BytesHead(a: seq<byte>, b: seq<byte>)
    requires a == [] || b == [] || a[0] != b[0]
    ensures BytesBefore(a, b) <==> b != [] && (a == [] || a[0] < b[0])
  {
    assert forall n: nat :: 0 < n <= |a| && n < |b| ==> a[..n][0] == a[0] && b[..n][0] == b[0];
    if b != [] && (a == [] || a[0] < b[0]) { assert a[..0] == b[..0]; }
  }

  lemma {:induction false} BytesOrder(a: seq<byte>, b: seq<byte>)
    ensures CompareBytes(a, b) == Less <==> BytesBefore(a, b)
    decreases a
  {
    hide BytesBefore;
    if a != [] && b != [] && a[0] == b[0] {
      BytesTail(a, b);
      BytesOrder(a[1..], b[1..]);
    } else {
      BytesHead(a, b);
    }
  }

  /** Comparison is by the order of numbers, texts and bytes. */
  lemma OrderMeans(a: Value, b: Value)
    ensures CompareValues(a, b) == Less <==> Before(a, b)
    ensures CompareValues(a, b) == Greater <==> Before(b, a)
    ensures CompareValues(a, b) == Same <==> Alike(a, b)
  {
    hide TextBefore, BytesBefore, CompareTexts, CompareBytes;
    CompareFlip(a, b);
    if a.Text? && b.Text? { TextOrder(a.s, b.s); TextsFlip(a.s, b.s); TextOrder(b.s, a.s); }
    if a.Blob? && b.Blob? { BytesOrder(a.bytes, b.bytes); BytesFlip(a.bytes, b.bytes); BytesOrder(b.bytes, a.bytes); }
  }

  // ---------------------------------------------------------------- operators

  /** 1 for what holds, 0 for what does not. */
  ghost function Bit(b: bool): Value { if b then Integer(1) else Integer(0) }

  /** Null, zero and what is empty are false. */
  ghost predicate IsTrue(v: Value) { v != Null && v != Integer(0) && v != Real(0.0) && v != Text("") && v != Blob([]) }

  ghost predicate Whole(n: int, x: real) { x == n as real }

  /** v is the number x: an integer if it is whole and in range, where 2^64 becomes the largest one. */
  ghost predicate Stores(v: Value, x: real) {
    if exists n :: Whole(n, x) && 0 <= n <= U64_LIMIT
    then v.Integer? && (v.n as real == x || (x == U64_LIMIT as real && v.n == 0xffff_ffff_ffff_ffff))
    else v == Real(x)
  }

  ghost function Product(x: real, y: real): real { x * y }

  ghost function Quotient(x: real, y: real): real
    requires y != 0.0
  {
    x / y
  }

  /** op gives v for a and b. */
  ghost predicate Gives(op: BinaryOp, a: Value, b: Value, v: Value) {
    match op
    case Eq => v == Bit(Alike(a, b))
    case Ne => v == Bit(!Alike(a, b))
    case Lt => v == Bit(Before(a, b))
    case Le => v == Bit(Before(a, b) || Alike(a, b))
    case Gt => v == Bit(Before(b, a))
    case Ge => v == Bit(Before(b, a) || Alike(a, b))
    case And => v == Bit(IsTrue(a) && IsTrue(b))
    case Or => v == Bit(IsTrue(a) || IsTrue(b))
    case Add => IsNumber(a) && IsNumber(b) && Stores(v, NumberOf(a) + NumberOf(b))
    case Subtract => IsNumber(a) && IsNumber(b) && Stores(v, NumberOf(a) - NumberOf(b))
    case Multiply => IsNumber(a) && IsNumber(b) && Stores(v, Product(NumberOf(a), NumberOf(b)))
    case Divide =>
      if IsNumber(b) && NumberOf(b) == 0.0 then v == Null
      else IsNumber(a) && IsNumber(b) && v == Real(Quotient(NumberOf(a), NumberOf(b)))
  }

  lemma StoredOnce(x: real, v: Value)
    ensures FromReal(x) == v <==> Stores(v, x)
  {
    assert x == x.Floor as real ==> Whole(x.Floor, x);
    assert forall n :: Whole(n, x) ==> x.Floor == n;
  }

  lemma TruthMeans(v: Value)
    ensures IsTruthy(v) <==> IsTrue(v)
  {
  }

  /** Every operator gives what it should, and fails on everything else. */
  lemma OperatorMeans(op: BinaryOp, a: Value, b: Value, v: Value)
    ensures BinaryValue(op, a, b) == Some(v) <==> Gives(op, a, b, v)
  {
    hide BinaryValue, Gives;
    match op
    case Add => SumMeans(op, a, b, v);
    case Subtract => SumMeans(op, a, b, v);
    case Multiply => SumMeans(op, a, b, v);
    case Divide => QuotientMeans(a, b, v);
    case And => LogicMeans(op, a, b, v);
    case Or => LogicMeans(op, a, b, v);
    case _ => ComparisonMeans(op, a, b, v);
  }

  lemma ComparisonMeans(op: BinaryOp, a: Value, b: Value, v: Value)
    requires op.Eq? || op.Ne? || op.Lt? || op.Le? || op.Gt? || op.Ge?
    ensures BinaryValue(op, a, b) == Some(v) <==> Gives(op, a, b, v)
  {
    hide Before, Alike, CompareValues;
    OrderMeans(a, b);
  }

  lemma LogicMeans(op: BinaryOp, a: Value, b: Value, v: Value)
    requires op.And? || op.Or?
    ensures BinaryValue(op, a, b) == Some(v) <==> Gives(op, a, b, v)
  {
    hide IsTrue, IsTruthy;
    TruthMeans(a);
    TruthMeans(b);
  }

  lemma QuotientMeans(a: Value, b: Value, v: Value)
    ensures BinaryValue(Divide, a, b) == Some(v) <==> Gives(Divide, a, b, v)
  {
    if IsNumber(a) && IsNumber(b) {
      var x, y := NumberOf(a), NumberOf(b);
      assert Numeric(a) == Some(x) && Numeric(b) == Some(y);
      assert y != 0.0 ==> x / y == Quotient(x, y);
    }
  }

  lemma SumMeans(op: BinaryOp, a: Value, b: Value, v: Value)
    requires op.Add? || op.Subtract? || op.Multiply?
    ensures BinaryValue(op, a, b) == Some(v) <==> Gives(op, a, b, v)
  {
    hide Stores, FromReal;
    if IsNumber(a) && IsNumber(b) {
      var x, y := NumberOf(a), NumberOf(b);
      assert Numeric(a) == Some(x) && Numeric(b) == Some(y);
      var z := Arithmetic(op, x, y);
      StoredOnce(z, v);
      assert op.Multiply? ==> z == Product(x, y);
    }
  }

  // ---------------------------------------------------------------- names

  ghost predicate SameLetter(c: char, d: char) {
    c == d || ('A' <= c <= 'Z' && d as int == c as int + 32) || ('A' <= d <= 'Z' && c as int == d as int + 32)
  }

  ghost predicate SameLetters(a: string, b: string) {
    |a| == |b| && forall i :: 0 <= i < |a| ==> SameLetter(a[i], b[i])
  }

  lemma NameMeans(a: string, b: string)
    ensures SameName(a, b) <==> SameLetters(a, b)
  {
    if |a| == |b| {
      forall i | 0 <= i < |a| ensures LowerChar(a[i]) == LowerChar(b[i]) <==> SameLetter(a[i], b[i]) { LetterMeans(a[i], b[i]); }
    }
  }

  lemma LetterMeans(c: char, d: char)
    ensures LowerChar(c) == LowerChar(d) <==> SameLetter(c, d)
  {
    assert 'A' as int == 65 && 'a' as int == 97;
  }

  /** Source s has the name for its first column called so, under its table name or its alias if one is asked for. */
  ghost predicate HasColumn(s: RowSource, table: Option<string>, name: string, col: nat) {
    && (table.Some? ==> SameLetters(s.table, table.value) || (s.alias.Some? && SameLetters(s.alias.value, table.value)))
    && col < |s.columns| && SameLetters(s.columns[col], name)
    && forall i :: 0 <= i < col ==> !SameLetters(s.columns[i], name)
  }

  lemma OfferMeans(s: RowSource, table: Option<string>, name: string, col: nat)
    ensures Offer(s, table, name) == Some(col) <==> HasColumn(s, table, name, col)
  {
    hide SameName, SameLetters;
    forall i | 0 <= i < |s.columns| ensures SameName(s.columns[i], name) <==> SameLetters(s.columns[i], name) { NameMeans(s.columns[i], name); }
    if table.Some? {
      NameMeans(s.table, table.value);
      if s.alias.Some? { NameMeans(s.alias.value, table.value); }
    }
  }

  lemma OfferNone(s: RowSource, table: Option<string>, name: string)
    ensures Offer(s, table, name) == None <==> forall col: nat :: !HasColumn(s, table, name, col)
  {
    hide HasColumn, Offer;
    forall col: nat ensures Offer(s, table, name) == Some(col) <==> HasColumn(s, table, name, col) { OfferMeans(s, table, name, col); }
    if Offer(s, table, name).Some? { assert HasColumn(s, table, name, Offer(s, table, name).value); }
  }

  /** The column of source j and of no other. */
  ghost predicate NamesColumn(env: seq<RowSource>, table: Option<string>, name: string, j: nat, col: nat) {
    j < |env| && HasColumn(env[j], table, name, col) && forall o, c: nat :: 0 <= o < |env| && HasColumn(env[o], table, name, c) ==> o == j
  }

  ghost predicate Missing(env: seq<RowSource>, table: Option<string>, name: string) {
    forall o: nat, c: nat :: o < |env| ==> !HasColumn(env[o], table, name, c)
  }

  ghost predicate Twice(env: seq<RowSource>, table: Option<string>, name: string) {
    exists o: nat, p: nat, c: nat, d: nat :: o < p < |env| && HasColumn(env[o], table, name, c) && HasColumn(env[p], table, name, d)
  }

  lemma NamesMeans(env: seq<RowSource>, table: Option<string>, name: string, j: nat, col: nat)
    ensures ResolveColumn(env, table, name) == Success(Resolved(j, col)) <==> NamesColumn(env, table, name, j, col)
  {
    hide HasColumn, Offer, ResolveColumn;
    if j >= |env| { return; }
    ResolvesIff(env, table, name, j, col);
    OfferMeans(env[j], table, name, col);
    forall o | 0 <= o < |env| ensures Offer(env[o], table, name) == None <==> forall c: nat :: !HasColumn(env[o], table, name, c) {
      OfferNone(env[o], table, name);
    }
  }

  /** A name that is not resolved is offered by no source or by two of them. */
  lemma UnresolvedMeans(env: seq<RowSource>, table: Option<string>, name: string)
    ensures ResolveColumn(env, table, name) == Failure(UnknownColumn(name)) <==> Missing(env, table, name)
    ensures ResolveColumn(env, table, name) == Failure(AmbiguousColumn(name)) <==> Twice(env, table, name)
  {
    hide HasColumn, Offer;
    var hits := Offers(env, table, name, 0);
    OffersOnce(env, table, name, 0);
    forall o: nat, c: nat | o < |env| && HasColumn(env[o], table, name, c) ensures Resolved(o, c) in hits {
      OfferMeans(env[o], table, name, c);
      OffersComplete(env, table, name, 0, o, c);
    }
    forall i | 0 <= i < |hits| ensures HasColumn(env[hits[i].source], table, name, hits[i].col) {
      assert hits[i] in hits;
      OfferMeans(env[hits[i].source], table, name, hits[i].col);
    }
    if |hits| > 1 {
      assert hits[0].source < hits[1].source;
      assert Twice(env, table, name);
    }
    if Twice(env, table, name) {
      var o: nat, p: nat, c: nat, d: nat :| o < p < |env| && HasColumn(env[o], table, name, c) && HasColumn(env[p], table, name, d);
      assert Resolved(o, c) in hits && Resolved(p, d) in hits;
      assert |hits| > 1;
    }
  }

  // ---------------------------------------------------------------- expressions

  ghost predicate LiteralIs(l: Literal, v: Value) {
    match l
    case LitNull => v == Null
    case LitInteger(i) => v.Integer? && v.n == i
    case LitReal(r) => v == Real(r)
    case LitText(s) => v == Text(s)
  }

  /** e has the value v where source i of env stands at the record recs[i]; fields past the end of a record are null. */
  ghost predicate HasValue(e: Expr, env: seq<RowSource>, recs: seq<Record>, v: Value)
    requires |recs| == |env|
    decreases e
  {
    match e
    case Lit(l) => LiteralIs(l, v)
    case Column(table, name) =>
      exists j: nat, col: nat :: NamesColumn(env, table, name, j, col) && v == if col < |recs[j]| then recs[j][col] else Null
    case Unary(Positive, a) => HasValue(a, env, recs, v)
    case Unary(Not, a) => exists w :: HasValue(a, env, recs, w) && v == Bit(!IsTrue(w))
    case Unary(Negate, a) => exists w :: HasValue(a, env, recs, w) && IsNumber(w) && v == Real(0.0 - NumberOf(w))
    case Binary(l, op, r) => exists a, b :: HasValue(l, env, recs, a) && HasValue(r, env, recs, b) && Gives(op, a, b, v)
    case FunctionCall(_, _) => false
  }

  /** Evaluation finds the value of every expression that has one, and no other. */
  lemma {:induction false} EvalMeans(e: Expr, env: seq<RowSource>, recs: seq<Record>, v: Value)
    requires |recs| == |env|
    ensures Eval(e, env, recs) == Some(v) <==> HasValue(e, env, recs, v)
    decreases e
  {
    hide Gives, IsTrue, NamesColumn, IsTruthy, BinaryValue, ResolveColumn;
    match e
    case Lit(_) =>
    case Column(table, name) =>
      forall j: nat, col: nat ensures ResolveColumn(env, table, name) == Success(Resolved(j, col)) <==> NamesColumn(env, table, name, j, col) {
        NamesMeans(env, table, name, j, col);
      }
    case Unary(_, a) =>
      forall w ensures (Eval(a, env, recs) == Some(w) <==> HasValue(a, env, recs, w)) && (IsTruthy(w) <==> IsTrue(w)) {
        EvalMeans(a, env, recs, w);
        TruthMeans(w);
      }
    case Binary(l, op, r) =>
      forall a ensures Eval(l, env, recs) == Some(a) <==> HasValue(l, env, recs, a) { EvalMeans(l, env, recs, a); }
      forall b ensures Eval(r, env, recs) == Some(b) <==> HasValue(r, env, recs, b) { EvalMeans(r, env, recs, b); }
      forall a, b ensures BinaryValue(op, a, b) == Some(v) <==> Gives(op, a, b, v) { OperatorMeans(op, a, b, v); }
    case FunctionCall(_, _) =>
  }

  /** NamesColumn can be resolved and no function is called. */
  ghost predicate Compilable(e: Expr, env: seq<RowSource>) {
    match e
    case Lit(_) => true
    case Column(table, name) => exists j: nat, col: nat :: NamesColumn(env, table, name, j, col)
    case Unary(_, a) => Compilable(a, env)
    case Binary(l, _, r) => Compilable(l, env) && Compilable(r, env)
    case FunctionCall(_, _) => false
  }

  /** These are the expressions there is code for. */
  lemma {:induction false} CodeWhenClear(e: Expr, env: seq<RowSource>, reg: nat)
    ensures ExprCode(e, env, reg).Success? <==> Compilable(e, env)
    decreases e
  {
    hide NamesColumn, ResolveColumn;
    match e
    case Lit(_) =>
    case Column(table, name) => ResolvedWhenNamed(env, table, name);
    case Unary(_, a) => CodeWhenClear(a, env, reg);
    case Binary(l, _, r) =>
      CodeWhenClear(l, env, reg);
      CodeWhenClear(r, env, if ExprCode(l, env, reg).Success? then ExprCode(l, env, reg).value.next else 0);
    case FunctionCall(_, _) =>
  }

  lemma ResolvedWhenNamed(env: seq<RowSource>, table: Option<string>, name: string)
    ensures ResolveColumn(env, table, name).Success? <==> exists j: nat, col: nat :: NamesColumn(env, table, name, j, col)
  {
    hide NamesColumn, ResolveColumn;
    forall j: nat, col: nat ensures ResolveColumn(env, table, name) == Success(Resolved(j, col)) <==> NamesColumn(env, table, name, j, col) {
      NamesMeans(env, table, name, j, col);
    }
    var r := ResolveColumn(env, table, name);
    if r.Success? { assert NamesColumn(env, table, name, r.value.source, r.value.col); }
  }

  /** A LIMIT is a number that is not negative; a negative one and anything else are told apart. */
  lemma LimitMeans(e: Expr)
    ensures forall n: nat :: LiteralLimit(e) == Success(n) <==> e == Lit(LitInteger(n))
    ensures LiteralLimit(e) == Failure(LimitNegative) <==> exists i: int :: i < 0 && e == Lit(LitInteger(i))
    ensures LiteralLimit(e) == Failure(LimitNotLiteral) <==> forall i: int :: e != Lit(LitInteger(i))
  {
    if e.Lit? && e.lit.LitInteger? { assert e == Lit(LitInteger(e.lit.i)); }
  }

  /** A USING column that cannot be resolved is unknown if no source has it, and ambiguous if two have. */
  lemma UsingRefused(sources: seq<RowSource>, name: string, reg: nat)
    ensures UsingColumn(sources, name, reg) == Failure(UnknownUsing(name)) <==> Missing(sources, None, name)
    ensures UsingColumn(sources, name, reg) == Failure(AmbiguousUsing(name)) <==> Twice(sources, None, name)
  {
    hide Missing, Twice, Offers;
    UnresolvedMeans(sources, None, name);
  }
}
