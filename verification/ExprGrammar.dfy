/** The expression grammar by precedence level, and how expressions are printed with the brackets the levels need. */
module ExprGrammar {
  import opened Values
  import opened SqlSyntax

  datatype Token = Ident(s: string) | Const(s: string) | Oper(s: string)

  /** How constants are read as numbers, and how numbers are written. */
  datatype Numerals = Numerals(readReal: string -> Option<real>, readInt: string -> Option<int>, showReal: real -> string, showInt: int -> string)

  /** What was expected, and how many tokens were left. */
  datatype Fault = Fault(left: nat, expected: string)

  type Parsed = Result<(Expr, seq<Token>), Fault>

  predicate IsKeyword(ts: seq<Token>, keyword: string) {
    ts != [] && ts[0].Ident? && SameName(ts[0].s, keyword)
  }

  predicate IsOper(ts: seq<Token>, oper: string) { ts != [] && ts[0] == Oper(oper) }

  // ---------------------------------------------------------------- operators

  function ComparisonOp(ts: seq<Token>): Option<BinaryOp> {
    if IsOper(ts, "=") || IsOper(ts, "==") then Some(Eq)
    else if IsOper(ts, "!=") || IsOper(ts, "<>") then Some(Ne)
    else if IsOper(ts, "<=") then Some(Le)
    else if IsOper(ts, ">=") then Some(Ge)
    else if IsOper(ts, "<") then Some(Lt)
    else if IsOper(ts, ">") then Some(Gt)
    else None
  }

  /** The operator of level l at the front: OR, AND, comparisons, sums, products. */
  function OpAt(l: nat, ts: seq<Token>): Option<BinaryOp> {
    if l == 0 then (if IsKeyword(ts, "or") then Some(Or) else None)
    else if l == 1 then (if IsKeyword(ts, "and") then Some(And) else None)
    else if l == 2 then ComparisonOp(ts)
    else if l == 3 then (if IsOper(ts, "+") then Some(Add) else if IsOper(ts, "-") then Some(Subtract) else None)
    else if l == 4 then (if IsOper(ts, "*") then Some(Multiply) else if IsOper(ts, "/") then Some(Divide) else None)
    else None
  }

  function UnaryAt(ts: seq<Token>): Option<UnaryOp> {
    if IsKeyword(ts, "not") then Some(Not)
    else if IsOper(ts, "-") then Some(Negate)
    else if IsOper(ts, "+") then Some(Positive)
    else None
  }

  function LiteralOf(nums: Numerals, s: string): Literal {
    if '.' in s && nums.readReal(s).Some? then LitReal(nums.readReal(s).value)
    else if nums.readInt(s).Some? then LitInteger(nums.readInt(s).value)
    else LitText(s)
  }

  // ---------------------------------------------------------------- parsing

  /** An expression of level l or above at the front of the tokens: 5 is a unary expression, 6 a primary one. */
  function ParseAt(nums: Numerals, l: nat, ts: seq<Token>): (r: Parsed)
    requires l <= 6
    ensures r.Success? ==> |r.value.1| < |ts|
    decreases |ts|, 1, 7 - l
  {
    if l < 5 then
      match ParseAt(nums, l + 1, ts)
      case Failure(f) => Failure(f)
      case Success((e, rest)) => More(nums, l, e, rest)
    else if l == 5 then
      match UnaryAt(ts)
      case None => ParseAt(nums, 6, ts)
      case Some(op) =>
        match ParseAt(nums, 5, ts[1..])
        case Failure(f) => Failure(f)
        case Success((e, rest)) => Success((Unary(op, e), rest))
    else Primary(nums, ts)
  }

  /** Further operands of level l, taken in from the left. */
  function More(nums: Numerals, l: nat, e: Expr, ts: seq<Token>): (r: Parsed)
    requires l < 5
    ensures r.Success? ==> |r.value.1| <= |ts|
    decreases |ts|, 0, 0
  {
    match OpAt(l, ts)
    case None => Success((e, ts))
    case Some(op) =>
      match ParseAt(nums, l + 1, ts[1..])
      case Failure(f) => Failure(f)
      case Success((right, rest)) => More(nums, l, Binary(e, op, right), rest)
  }

  function Primary(nums: Numerals, ts: seq<Token>): (r: Parsed)
    ensures r.Success? ==> |r.value.1| < |ts|
    decreases |ts|, 0, 0
  {
    if IsOper(ts, "(") then
      match ParseAt(nums, 0, ts[1..])
      case Failure(f) => Failure(f)
      case Success((e, rest)) => if IsOper(rest, ")") then Success((e, rest[1..])) else Failure(Fault(|rest|, ")"))
    else if IsKeyword(ts, "null") then Success((Lit(LitNull), ts[1..]))
    else if ts != [] && ts[0].Const? then Success((Lit(LiteralOf(nums, ts[0].s)), ts[1..]))
    else if ts == [] || !ts[0].Ident? then Failure(Fault(|ts|, "identifier"))
    else Named(nums, ts[0].s, ts[1..])
  }

  /** What follows a name: the arguments of a call, the column of a table, or nothing. */
  function Named(nums: Numerals, name: string, ts: seq<Token>): (r: Parsed)
    ensures r.Success? ==> |r.value.1| <= |ts|
    decreases |ts|, 2, 0
  {
    if IsOper(ts, "(") then
      match Args(nums, ts[1..])
      case Failure(f) => Failure(f)
      case Success((args, rest)) =>
        if IsOper(rest, ")") then Success((FunctionCall(name, args), rest[1..])) else Failure(Fault(|rest|, ")"))
    else if IsOper(ts, ".") then
      if |ts| > 1 && ts[1].Ident? then Success((Column(Some(name), ts[1].s), ts[2..]))
      else Failure(Fault(|ts| - 1, "identifier"))
    else Success((Column(None, name), ts))
  }

  function Args(nums: Numerals, ts: seq<Token>): (r: Result<(seq<Expr>, seq<Token>), Fault>)
    ensures r.Success? ==> |r.value.1| <= |ts|
    decreases |ts|, 3, 0
  {
    if IsOper(ts, ")") then Success(([], ts)) else ArgList(nums, ts)
  }

  /** Expressions with commas between them. */
  function ArgList(nums: Numerals, ts: seq<Token>): (r: Result<(seq<Expr>, seq<Token>), Fault>)
    ensures r.Success? ==> |r.value.1| < |ts|
    decreases |ts|, 2, 0
  {
    match ParseAt(nums, 0, ts)
    case Failure(f) => Failure(f)
    case Success((e, rest)) =>
      if !IsOper(rest, ",") then Success(([e], rest))
      else
        match ArgList(nums, rest[1..])
        case Failure(f) => Failure(f)
        case Success((more, end)) => Success(([e] + more, end))
  }

  // ---------------------------------------------------------------- printing

  function LevelOf(op: BinaryOp): nat {
    match op
    case Or => 0
    case And => 1
    case Add => 3
    case Subtract => 3
    case Multiply => 4
    case Divide => 4
    case _ => 2
  }

  function OpToken(op: BinaryOp): Token {
    match op
    case Or => Ident("or")
    case And => Ident("and")
    case Eq => Oper("=")
    case Ne => Oper("!=")
    case Lt => Oper("<")
    case Le => Oper("<=")
    case Gt => Oper(">")
    case Ge => Oper(">=")
    case Add => Oper("+")
    case Subtract => Oper("-")
    case Multiply => Oper("*")
    case Divide => Oper("/")
  }

  function UnaryToken(op: UnaryOp): Token {
    match op
    case Not => Ident("not")
    case Negate => Oper("-")
    case Positive => Oper("+")
  }

  function ExprLevel(e: Expr): nat {
    match e
    case Binary(_, op, _) => LevelOf(op)
    case Unary(_, _) => 5
    case _ => 6
  }

  function Bracketed(ts: seq<Token>): seq<Token> { [Oper("(")] + ts + [Oper(")")] }

  /** The tokens of an expression where level l is wanted: brackets only around what is below that level. */
  function Print(nums: Numerals, e: Expr, l: nat): seq<Token>
    decreases e, 1
  {
    if ExprLevel(e) < l then Bracketed(Plainly(nums, e)) else Plainly(nums, e)
  }

  function Plainly(nums: Numerals, e: Expr): seq<Token>
    decreases e, 0
  {
    match e
    case Lit(LitNull) => [Ident("null")]
    case Lit(LitInteger(i)) => [Const(nums.showInt(i))]
    case Lit(LitReal(r)) => [Const(nums.showReal(r))]
    case Lit(LitText(s)) => [Const(s)]
    case Column(None, name) => [Ident(name)]
    case Column(Some(t), name) => [Ident(t), Oper("."), Ident(name)]
    case Unary(op, a) => [UnaryToken(op)] + Print(nums, a, 5)
    case Binary(a, op, b) => Print(nums, a, LevelOf(op)) + [OpToken(op)] + Print(nums, b, LevelOf(op) + 1)
    case FunctionCall(name, args) => [Ident(name), Oper("(")] + PrintList(nums, args) + [Oper(")")]
  }

  function PrintList(nums: Numerals, args: seq<Expr>): seq<Token>
    decreases args, 2
  {
    if args == [] then []
    else if |args| == 1 then Print(nums, args[0], 0)
    else Print(nums, args[0], 0) + [Oper(",")] + PrintList(nums, args[1..])
  }

  // ---------------------------------------------------------------- what comes back

  /** The name is not taken for a keyword where an operand is expected. */
  predicate NameOk(name: string) { !SameName(name, "not") && !SameName(name, "null") }

  predicate LiteralOk(nums: Numerals, x: Literal) {
    match x
    case LitNull => true
    case LitInteger(i) => LiteralOf(nums, nums.showInt(i)) == x
    case LitReal(r) => LiteralOf(nums, nums.showReal(r)) == x
    case LitText(s) => LiteralOf(nums, s) == x
  }

  /** Names are no keywords, written numbers read as they were, and no text reads as a number. */
  predicate Printable(nums: Numerals, e: Expr) {
    match e
    case Lit(x) => LiteralOk(nums, x)
    case Column(None, name) => NameOk(name)
    case Column(Some(t), _) => NameOk(t)
    case Unary(_, a) => Printable(nums, a)
    case Binary(a, _, b) => Printable(nums, a) && Printable(nums, b)
    case FunctionCall(name, args) => NameOk(name) && forall a :: a in args ==> Printable(nums, a)
  }

  /** Nothing at the front of the tokens carries an expression of level l or above on. */
  predicate Stops(ts: seq<Token>, l: nat) {
    && (l <= 0 ==> OpAt(0, ts).None?)
    && (l <= 1 ==> OpAt(1, ts).None?)
    && (l <= 2 ==> OpAt(2, ts).None?)
    && (l <= 3 ==> OpAt(3, ts).None?)
    && (l <= 4 ==> OpAt(4, ts).None?)
    && !IsOper(ts, "(") && !IsOper(ts, ".")
  }

  lemma UnaryTokenRead(op: UnaryOp, rest: seq<Token>)
    ensures UnaryAt([UnaryToken(op)] + rest) == Some(op)
  {
    assert SameName("not", "not");
  }
}
