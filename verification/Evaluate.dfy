/** Comparison, truth and arithmetic of values, and what an expression denotes on a row. */
module Evaluate {
  import opened Values
  import opened SqlSyntax

  datatype Ordering = Less | Same | Greater

  function TypeRank(v: Value): nat {
    match v
    case Null => 0
    case Integer(_) => 1
    case Real(_) => 1
    case Text(_) => 2
    case Blob(_) => 3
  }

  function CompareReals(a: real, b: real): Ordering {
    if a < b then Less else if a == b then Same else Greater
  }

  function CompareTexts(a: string, b: string): Ordering {
    if a == [] then (if b == [] then Same else Less)
    else if b == [] then Greater
    else if a[0] < b[0] then Less
    else if a[0] > b[0] then Greater
    else CompareTexts(a[1..], b[1..])
  }

  function CompareBytes(a: seq<byte>, b: seq<byte>): Ordering {
    if a == [] then (if b == [] then Same else Less)
    else if b == [] then Greater
    else if a[0] < b[0] then Less
    else if a[0] > b[0] then Greater
    else CompareBytes(a[1..], b[1..])
  }

  function CompareRanks(a: nat, b: nat): Ordering {
    if a < b then Less else if a == b then Same else Greater
  }

  function CompareValues(a: Value, b: Value): Ordering {
    match (a, b)
    case (Integer(x), Integer(y)) => CompareReals(x as real, y as real)
    case (Real(x), Real(y)) => CompareReals(x, y)
    case (Integer(x), Real(y)) => CompareReals(x as real, y)
    case (Real(x), Integer(y)) => CompareReals(x, y as real)
    case (Text(x), Text(y)) => CompareTexts(x, y)
    case (Blob(x), Blob(y)) => CompareBytes(x, y)
    case _ => CompareRanks(TypeRank(a), TypeRank(b))
  }

  function BoolValue(b: bool): Value { Integer(if b then 1 else 0) }

  predicate IsTruthy(v: Value) {
    match v
    case Null => false
    case Integer(n) => n != 0
    case Real(r) => r != 0.0
    case Text(s) => s != []
    case Blob(b) => b != []
  }

  lemma BoolTruth(b: bool)
    ensures IsTruthy(BoolValue(b)) <==> b
  {
  }

  function Numeric(v: Value): Option<real> {
    match v
    case Integer(n) => Some(n as real)
    case Real(r) => Some(r)
    case _ => None
  }

  /** Whole numbers that fit become integers; the one just past the largest is cut back to it. */
  function FromReal(r: real): Value {
    if r == r.Floor as real && 0.0 <= r <= U64_LIMIT as real then
      Integer(if r.Floor < U64_LIMIT then r.Floor else U64_LIMIT - 1)
    else Real(r)
  }

  function Arithmetic(op: BinaryOp, a: real, b: real): real {
    match op
    case Add => a + b
    case Subtract => a - b
    case _ => a * b
  }

  /** None is a failing operation. */
  function BinaryValue(op: BinaryOp, a: Value, b: Value): Option<Value> {
    match op
    case Eq => Some(BoolValue(CompareValues(a, b) == Same))
    case Ne => Some(BoolValue(CompareValues(a, b) != Same))
    case Lt => Some(BoolValue(CompareValues(a, b) == Less))
    case Le => Some(BoolValue(CompareValues(a, b) != Greater))
    case Gt => Some(BoolValue(CompareValues(a, b) == Greater))
    case Ge => Some(BoolValue(CompareValues(a, b) != Less))
    case And => Some(BoolValue(IsTruthy(a) && IsTruthy(b)))
    case Or => Some(BoolValue(IsTruthy(a) || IsTruthy(b)))
    case Divide =>
      if Numeric(b) == Some(0.0) then Some(Null)
      else if Numeric(a).Some? && Numeric(b).Some? then Some(Real(Numeric(a).value / Numeric(b).value))
      else None
    case _ =>
      if Numeric(a).Some? && Numeric(b).Some? then Some(FromReal(Arithmetic(op, Numeric(a).value, Numeric(b).value)))
      else None
  }

  function NegateValue(v: Value): Option<Value> {
    match Numeric(v)
    case Some(r) => Some(Real(-r))
    case None => None
  }

  function LiteralValue(l: Literal): Option<Value> {
    match l
    case LitNull => Some(Null)
    case LitInteger(i) => if 0 <= i < U64_LIMIT then Some(Integer(i)) else None
    case LitReal(r) => Some(Real(r))
    case LitText(s) => Some(Text(s))
  }

  /** A record that is too short reads as null. */
  function Field(row: Record, col: nat): Value {
    if col < |row| then row[col] else Null
  }

  /** The value of e when source i of env stands at the record recs[i]; None when it cannot be computed. */
  function Eval(e: Expr, env: seq<RowSource>, recs: seq<Record>): Option<Value>
    requires |recs| == |env|
    decreases e
  {
    match e
    case Lit(l) => LiteralValue(l)
    case Column(table, name) =>
      (match ResolveColumn(env, table, name)
       case Success(r) => Some(Field(recs[r.source], r.col))
       case Failure(_) => None)
    case Unary(op, a) =>
      (match Eval(a, env, recs)
       case None => None
       case Some(v) =>
         match op
         case Positive => Some(v)
         case Not => Some(BoolValue(!IsTruthy(v)))
         case Negate => NegateValue(v))
    case Binary(l, op, r) =>
      (match Eval(l, env, recs)
       case None => None
       case Some(a) =>
         match Eval(r, env, recs)
         case None => None
         case Some(b) => BinaryValue(op, a, b))
    case FunctionCall(_, _) => None
  }

  // ---------------------------------------------------------------- the order of values

  function Flip(o: Ordering): Ordering {
    match o
    case Less => Greater
    case Same => Same
    case Greater => Less
  }

  lemma {:induction false} TextsFlip(a: string, b: string)
    ensures CompareTexts(a, b) == Flip(CompareTexts(b, a))
    ensures CompareTexts(a, b) == Same <==> a == b
    decreases |a|
  {
    if a != [] && b != [] && a[0] == b[0] {
      TextsFlip(a[1..], b[1..]);
      assert a == [a[0]] + a[1..] && b == [b[0]] + b[1..];
    }
  }

  lemma {:induction false} BytesFlip(a: seq<byte>, b: seq<byte>)
    ensures CompareBytes(a, b) == Flip(CompareBytes(b, a))
    ensures CompareBytes(a, b) == Same <==> a == b
    decreases |a|
  {
    if a != [] && b != [] && a[0] == b[0] {
      BytesFlip(a[1..], b[1..]);
      assert a == [a[0]] + a[1..] && b == [b[0]] + b[1..];
    }
  }

  lemma {:induction false} TextsTrans(a: string, b: string, c: string)
    requires CompareTexts(a, b) != Greater && CompareTexts(b, c) != Greater
    ensures CompareTexts(a, c) != Greater
    decreases |a|
  {
    if a != [] && b != [] && c != [] && a[0] == b[0] && b[0] == c[0] {
      TextsTrans(a[1..], b[1..], c[1..]);
    }
  }

  lemma {:induction false} BytesTrans(a: seq<byte>, b: seq<byte>, c: seq<byte>)
    requires CompareBytes(a, b) != Greater && CompareBytes(b, c) != Greater
    ensures CompareBytes(a, c) != Greater
    decreases |a|
  {
    if a != [] && b != [] && c != [] && a[0] == b[0] && b[0] == c[0] {
      BytesTrans(a[1..], b[1..], c[1..]);
    }
  }

  /** Comparing the other way round gives the opposite answer. */
  lemma CompareFlip(a: Value, b: Value)
    ensures CompareValues(a, b) == Flip(CompareValues(b, a))
  {
    if a.Text? && b.Text? { TextsFlip(a.s, b.s); }
    if a.Blob? && b.Blob? { BytesFlip(a.bytes, b.bytes); }
  }

  /** Values of all types are in one total preorder. */
  lemma CompareTrans(a: Value, b: Value, c: Value)
    requires CompareValues(a, b) != Greater && CompareValues(b, c) != Greater
    ensures CompareValues(a, c) != Greater
  {
    if a.Text? && b.Text? && c.Text? { TextsTrans(a.s, b.s, c.s); }
    if a.Blob? && b.Blob? && c.Blob? { BytesTrans(a.bytes, b.bytes, c.bytes); }
  }
}
