/** The recursive-descent parser for expressions: it moves along the tokens as the grammar says. */
module ExprParser {
  import opened Values
  import opened SqlSyntax
  import opened ExprGrammar
  import opened ExprWritten

  datatype ParseError = ParseError(pos: int, expected: string)

  /** One more operand of level l and what follows it. */
  ghost function Continued(nums: Numerals, l: nat, e: Expr, op: BinaryOp, ts: seq<Token>): Parsed
    requires l < 5
  {
    match ParseAt(nums, l + 1, ts)
    case Failure(f) => Failure(f)
    case Success((right, rest)) => More(nums, l, Binary(e, op, right), rest)
  }

  lemma LevelIs(nums: Numerals, l: nat, ts: seq<Token>)
    requires l < 5
    ensures ParseAt(nums, l, ts) ==
            match ParseAt(nums, l + 1, ts)
            case Failure(f) => Failure(f)
            case Success((e, rest)) => More(nums, l, e, rest)
  {
  }

  lemma MoreIs(nums: Numerals, l: nat, e: Expr, ts: seq<Token>)
    requires l < 5
    ensures More(nums, l, e, ts) ==
            match OpAt(l, ts)
            case None => Success((e, ts))
            case Some(op) => Continued(nums, l, e, op, ts[1..])
  {
  }

  lemma ListIs(nums: Numerals, ts: seq<Token>)
    ensures ArgList(nums, ts) ==
            match ParseAt(nums, 0, ts)
            case Failure(f) => Failure(f)
            case Success((e, rest)) =>
              if !IsOper(rest, ",") then Success(([e], rest)) else Listed([e], ArgList(nums, rest[1..]))
  {
  }

  ghost function Listed(done: seq<Expr>, r: Result<(seq<Expr>, seq<Token>), Fault>): Result<(seq<Expr>, seq<Token>), Fault> {
    match r
    case Failure(f) => Failure(f)
    case Success((more, rest)) => Success((done + more, rest))
  }

  lemma ListedNone(r: Result<(seq<Expr>, seq<Token>), Fault>)
    ensures Listed([], r) == r
  {
    if r.Success? { assert [] + r.value.0 == r.value.0; }
  }

  lemma ListedMore(done: seq<Expr>, e: Expr, r: Result<(seq<Expr>, seq<Token>), Fault>)
    ensures Listed(done, Listed([e], r)) == Listed(done + [e], r)
  {
    if r.Success? { assert done + ([e] + r.value.0) == done + [e] + r.value.0; }
  }

  class Parser {
    const nums: Numerals
    const tokens: seq<Token>
    var pos: nat

    constructor (nums: Numerals, tokens: seq<Token>)
      ensures this.nums == nums && this.tokens == tokens && pos == 0
    {
      this.nums, this.tokens, pos := nums, tokens, 0;
    }

    ghost function Rest(): seq<Token>
      requires pos <= |tokens|
      reads this`pos
    {
      tokens[pos..]
    }

    /** The parser gave what the grammar gives, and stands behind the tokens that took. */
    ghost predicate Agrees(spec: Parsed, r: Result<Expr, ParseError>)
      requires pos <= |tokens|
      reads this`pos
    {
      match spec
      case Success((e, rest)) => r == Success(e) && Rest() == rest
      case Failure(f) => r == Failure(ParseError(|tokens| - f.left, f.expected))
    }

    // ---------------------------------------------------------------- tokens

    method ConsumeKeyword(keyword: string) returns (ok: bool)
      requires pos <= |tokens|
      modifies this`pos
      ensures pos <= |tokens| && ok == IsKeyword(old(Rest()), keyword)
      ensures Rest() == if ok then old(Rest())[1..] else old(Rest())
    {
      if pos < |tokens| && tokens[pos].Ident? && SameName(tokens[pos].s, keyword) {
        pos := pos + 1;
        return true;
      }
      return false;
    }

    method ConsumeOper(oper: string) returns (ok: bool)
      requires pos <= |tokens|
      modifies this`pos
      ensures pos <= |tokens| && ok == IsOper(old(Rest()), oper)
      ensures Rest() == if ok then old(Rest())[1..] else old(Rest())
    {
      if pos < |tokens| && tokens[pos] == Oper(oper) {
        pos := pos + 1;
        return true;
      }
      return false;
    }

    method ConsumeComparisonOp() returns (op: Option<BinaryOp>)
      requires pos <= |tokens|
      modifies this`pos
      ensures pos <= |tokens| && op == OpAt(2, old(Rest()))
      ensures pos == if op.Some? then old(pos) + 1 else old(pos)
      ensures op.Some? ==> Rest() == old(Rest())[1..]
    {
      var ok := ConsumeOper("=");
      if !ok { ok := ConsumeOper("=="); }
      if ok { return Some(Eq); }
      ok := ConsumeOper("!=");
      if !ok { ok := ConsumeOper("<>"); }
      if ok { return Some(Ne); }
      ok := ConsumeOper("<=");
      if ok { return Some(Le); }
      ok := ConsumeOper(">=");
      if ok { return Some(Ge); }
      ok := ConsumeOper("<");
      if ok { return Some(Lt); }
      ok := ConsumeOper(">");
      if ok { return Some(Gt); }
      return None;
    }

    method ConsumeAdditiveOp() returns (op: Option<BinaryOp>)
      requires pos <= |tokens|
      modifies this`pos
      ensures pos <= |tokens| && op == OpAt(3, old(Rest()))
      ensures pos == if op.Some? then old(pos) + 1 else old(pos)
      ensures op.Some? ==> Rest() == old(Rest())[1..]
    {
      var ok := ConsumeOper("+");
      if ok { return Some(Add); }
      ok := ConsumeOper("-");
      if ok { return Some(Subtract); }
      return None;
    }

    method ConsumeMultiplicativeOp() returns (op: Option<BinaryOp>)
      requires pos <= |tokens|
      modifies this`pos
      ensures pos <= |tokens| && op == OpAt(4, old(Rest()))
      ensures pos == if op.Some? then old(pos) + 1 else old(pos)
      ensures op.Some? ==> Rest() == old(Rest())[1..]
    {
      var ok := ConsumeOper("*");
      if ok { return Some(Multiply); }
      ok := ConsumeOper("/");
      if ok { return Some(Divide); }
      return None;
    }

    method ExpectIdent() returns (r: Result<string, ParseError>)
      requires pos <= |tokens|
      modifies this`pos
      ensures pos <= |tokens|
      ensures old(pos) < |tokens| && tokens[old(pos)].Ident? ==> r == Success(tokens[old(pos)].s) && pos == old(pos) + 1
      ensures old(pos) >= |tokens| || !tokens[old(pos)].Ident? ==> r == Failure(ParseError(old(pos), "identifier")) && pos == old(pos)
    {
      if pos < |tokens| && tokens[pos].Ident? {
        pos := pos + 1;
        return Success(tokens[pos - 1].s);
      }
      return Failure(ParseError(pos, "identifier"));
    }

    /** The tokens from `from` on, up to where the parser stands, are a written form of what it read. */
    lemma Taken(l: nat, from: nat)
      requires l < 6 && from <= pos <= |tokens|
      requires ParseAt(nums, l, tokens[from..]).Success? && ParseAt(nums, l, tokens[from..]).value.1 == Rest()
      ensures from < pos && Written(nums, ParseAt(nums, l, tokens[from..]).value.0, l, tokens[from..pos])
    {
      hide ParseAt, Written;
      TakenWritten(nums, l, tokens[from..]);
      assert tokens[from..][..pos - from] == tokens[from..pos];
    }

    // ---------------------------------------------------------------- levels

    method ParseExpr() returns (r: Result<Expr, ParseError>)
      requires pos <= |tokens|
      modifies this`pos
      ensures pos <= |tokens| && Agrees(ParseAt(nums, 0, old(Rest())), r)
      ensures r.Success? ==> old(pos) < pos && Written(nums, r.value, 0, tokens[old(pos)..pos])
      ensures forall e :: r == Success(e) && pos == |tokens| <==> Written(nums, e, 0, old(Rest()))
      decreases |tokens| - pos, 8
    {
      hide ParseAt, Written;
      ghost var ts := Rest();
      r := ParseOr();
      if r.Success? { Taken(0, old(pos)); }
      forall e ensures r == Success(e) && pos == |tokens| <==> Written(nums, e, 0, ts) {
        ReadsExactlyWhatIsWritten(nums, e, ts);
      }
    }

    method ParseOr() returns (r: Result<Expr, ParseError>)
      requires pos <= |tokens|
      modifies this`pos
      ensures pos <= |tokens| && Agrees(ParseAt(nums, 0, old(Rest())), r)
      decreases |tokens| - pos, 7
    {
      hide More, ParseAt;
      LevelIs(nums, 0, Rest());
      r := ParseAnd();
      if r.Failure? { return; }
      var expr := r.value;
      MoreIs(nums, 0, expr, Rest());
      var more := ConsumeKeyword("or");
      while more
        invariant old(pos) < pos <= |tokens|
        invariant ParseAt(nums, 0, old(Rest())) == if more then Continued(nums, 0, expr, Or, Rest()) else Success((expr, Rest()))
        decreases |tokens| - pos, more
      {
        r := ParseAnd();
        if r.Failure? { return; }
        expr := Binary(expr, Or, r.value);
        MoreIs(nums, 0, expr, Rest());
        more := ConsumeKeyword("or");
      }
      r := Success(expr);
    }

    method ParseAnd() returns (r: Result<Expr, ParseError>)
      requires pos <= |tokens|
      modifies this`pos
      ensures pos <= |tokens| && Agrees(ParseAt(nums, 1, old(Rest())), r)
      decreases |tokens| - pos, 6
    {
      hide More, ParseAt;
      LevelIs(nums, 1, Rest());
      r := ParseComparison();
      if r.Failure? { return; }
      var expr := r.value;
      MoreIs(nums, 1, expr, Rest());
      var more := ConsumeKeyword("and");
      while more
        invariant old(pos) < pos <= |tokens|
        invariant ParseAt(nums, 1, old(Rest())) == if more then Continued(nums, 1, expr, And, Rest()) else Success((expr, Rest()))
        decreases |tokens| - pos, more
      {
        r := ParseComparison();
        if r.Failure? { return; }
        expr := Binary(expr, And, r.value);
        MoreIs(nums, 1, expr, Rest());
        more := ConsumeKeyword("and");
      }
      r := Success(expr);
    }

    method ParseComparison() returns (r: Result<Expr, ParseError>)
      requires pos <= |tokens|
      modifies this`pos
      ensures pos <= |tokens| && Agrees(ParseAt(nums, 2, old(Rest())), r)
      ensures r.Success? ==> old(pos) < pos && Written(nums, r.value, 2, tokens[old(pos)..pos])
      decreases |tokens| - pos, 5
    {
      hide More, OpAt, ParseAt, Written;
      LevelIs(nums, 2, Rest());
      r := ParseAdditive();
      if r.Failure? { return; }
      var expr := r.value;
      MoreIs(nums, 2, expr, Rest());
      var op := ConsumeComparisonOp();
      while op.Some?
        invariant old(pos) < pos <= |tokens|
        invariant ParseAt(nums, 2, old(Rest())) ==
                  if op.Some? then Continued(nums, 2, expr, op.value, Rest()) else Success((expr, Rest()))
        decreases |tokens| - pos, op.Some?
      {
        r := ParseAdditive();
        if r.Failure? { return; }
        expr := Binary(expr, op.value, r.value);
        MoreIs(nums, 2, expr, Rest());
        op := ConsumeComparisonOp();
      }
      Taken(2, old(pos));
      r := Success(expr);
    }

    method ParseAdditive() returns (r: Result<Expr, ParseError>)
      requires pos <= |tokens|
      modifies this`pos
      ensures pos <= |tokens| && Agrees(ParseAt(nums, 3, old(Rest())), r)
      decreases |tokens| - pos, 4
    {
      hide More, OpAt, ParseAt;
      LevelIs(nums, 3, Rest());
      r := ParseMultiplicative();
      if r.Failure? { return; }
      var expr := r.value;
      MoreIs(nums, 3, expr, Rest());
      var op := ConsumeAdditiveOp();
      while op.Some?
        invariant old(pos) < pos <= |tokens|
        invariant ParseAt(nums, 3, old(Rest())) ==
                  if op.Some? then Continued(nums, 3, expr, op.value, Rest()) else Success((expr, Rest()))
        decreases |tokens| - pos, op.Some?
      {
        r := ParseMultiplicative();
        if r.Failure? { return; }
        expr := Binary(expr, op.value, r.value);
        MoreIs(nums, 3, expr, Rest());
        op := ConsumeAdditiveOp();
      }
      r := Success(expr);
    }

    method ParseMultiplicative() returns (r: Result<Expr, ParseError>)
      requires pos <= |tokens|
      modifies this`pos
      ensures pos <= |tokens| && Agrees(ParseAt(nums, 4, old(Rest())), r)
      decreases |tokens| - pos, 3
    {
      hide More, OpAt, ParseAt;
      LevelIs(nums, 4, Rest());
      r := ParseUnary();
      if r.Failure? { return; }
      var expr := r.value;
      MoreIs(nums, 4, expr, Rest());
      var op := ConsumeMultiplicativeOp();
      while op.Some?
        invariant old(pos) < pos <= |tokens|
        invariant ParseAt(nums, 4, old(Rest())) ==
                  if op.Some? then Continued(nums, 4, expr, op.value, Rest()) else Success((expr, Rest()))
        decreases |tokens| - pos, op.Some?
      {
        r := ParseUnary();
        if r.Failure? { return; }
        expr := Binary(expr, op.value, r.value);
        MoreIs(nums, 4, expr, Rest());
        op := ConsumeMultiplicativeOp();
      }
      r := Success(expr);
    }

    method ParseUnary() returns (r: Result<Expr, ParseError>)
      requires pos <= |tokens|
      modifies this`pos
      ensures pos <= |tokens| && Agrees(ParseAt(nums, 5, old(Rest())), r)
      decreases |tokens| - pos, 2
    {
      hide Primary;
      var ok := ConsumeKeyword("not");
      if ok {
        r := ParseUnary();
        if r.Success? { r := Success(Unary(Not, r.value)); }
        return;
      }
      ok := ConsumeOper("-");
      if ok {
        r := ParseUnary();
        if r.Success? { r := Success(Unary(Negate, r.value)); }
        return;
      }
      ok := ConsumeOper("+");
      if ok {
        r := ParseUnary();
        if r.Success? { r := Success(Unary(Positive, r.value)); }
        return;
      }
      r := ParsePrimary();
    }

    method ParsePrimary() returns (r: Result<Expr, ParseError>)
      requires pos <= |tokens|
      modifies this`pos
      ensures pos <= |tokens| && Agrees(ParseAt(nums, 6, old(Rest())), r)
      decreases |tokens| - pos, 1
    {
      hide Named;
      assert ParseAt(nums, 6, Rest()) == Primary(nums, Rest());
      var ok := ConsumeOper("(");
      if ok {
        r := ParseExpr();
        if r.Failure? { return; }
        ok := ConsumeOper(")");
        if !ok { r := Failure(ParseError(pos, ")")); }
        return;
      }
      ok := ConsumeKeyword("null");
      if ok { return Success(Lit(LitNull)); }
      if pos < |tokens| && tokens[pos].Const? {
        pos := pos + 1;
        return Success(Lit(LiteralOf(nums, tokens[pos - 1].s)));
      }
      var name := ExpectIdent();
      if name.Failure? { return Failure(name.error); }
      r := ParseNamed(name.value);
    }

    /** After a name: a call, the column of a table, or a column. */
    method ParseNamed(name: string) returns (r: Result<Expr, ParseError>)
      requires pos <= |tokens|
      modifies this`pos
      ensures pos <= |tokens| && Agrees(Named(nums, name, old(Rest())), r)
      decreases |tokens| - pos, 11
    {
      hide ArgList;
      var ok := ConsumeOper("(");
      if ok {
        var args := ParseExprListUntil();
        if args.Failure? { return Failure(args.error); }
        ok := ConsumeOper(")");
        if !ok { return Failure(ParseError(pos, ")")); }
        return Success(FunctionCall(name, args.value));
      }
      ok := ConsumeOper(".");
      if ok {
        var column := ExpectIdent();
        if column.Failure? { return Failure(column.error); }
        return Success(Column(Some(name), column.value));
      }
      return Success(Column(None, name));
    }

    ghost predicate ListAgrees(spec: Result<(seq<Expr>, seq<Token>), Fault>, r: Result<seq<Expr>, ParseError>)
      requires pos <= |tokens|
      reads this`pos
    {
      match spec
      case Success((es, rest)) => r == Success(es) && Rest() == rest
      case Failure(f) => r == Failure(ParseError(|tokens| - f.left, f.expected))
    }

    /** The arguments of a call, up to the closing bracket. */
    method ParseExprListUntil() returns (r: Result<seq<Expr>, ParseError>)
      requires pos <= |tokens|
      modifies this`pos
      ensures pos <= |tokens| && ListAgrees(Args(nums, old(Rest())), r)
      decreases |tokens| - pos, 10
    {
      hide ArgList, ParseAt;
      if pos < |tokens| && tokens[pos] == Oper(")") { return Success([]); }
      var exprs: seq<Expr> := [];
      var more := true;
      ListedNone(ArgList(nums, Rest()));
      while more
        invariant old(pos) <= pos <= |tokens|
        invariant ArgList(nums, old(Rest())) == if more then Listed(exprs, ArgList(nums, Rest())) else Success((exprs, Rest()))
        decreases |tokens| - pos, more
      {
        ListIs(nums, Rest());
        var e := ParseExpr();
        if e.Failure? { return Failure(e.error); }
        ghost var was := exprs;
        exprs := exprs + [e.value];
        ghost var rest := Rest();
        more := ConsumeOper(",");
        if more { ListedMore(was, e.value, ArgList(nums, Rest())); }
      }
      return Success(exprs);
    }
  }
}
