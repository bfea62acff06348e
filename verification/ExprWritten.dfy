/** The written forms of an expression, and that the parser reads exactly these. */
module ExprWritten {
  import opened Values
  import opened SqlSyntax
  import opened ExprGrammar

  // ---------------------------------------------------------------- what may be written

  ghost predicate Word(t: Token, w: string) { t.Ident? && SameName(t.s, w) }

  /** The tokens for an operator. */
  ghost predicate Spells(t: Token, op: BinaryOp) {
    match op
    case Or => Word(t, "or")
    case And => Word(t, "and")
    case Eq => t == Oper("=") || t == Oper("==")
    case Ne => t == Oper("!=") || t == Oper("<>")
    case Lt => t == Oper("<")
    case Le => t == Oper("<=")
    case Gt => t == Oper(">")
    case Ge => t == Oper(">=")
    case Add => t == Oper("+")
    case Subtract => t == Oper("-")
    case Multiply => t == Oper("*")
    case Divide => t == Oper("/")
  }

  ghost predicate SpellsUnary(t: Token, op: UnaryOp) {
    match op
    case Not => Word(t, "not")
    case Negate => t == Oper("-")
    case Positive => t == Oper("+")
  }

  /** A constant is a real number if it has a point and reads as one, else an integer if it reads as one, else a text. */
  ghost predicate SpellsLiteral(nums: Numerals, t: Token, x: Literal) {
    match x
    case LitNull => Word(t, "null")
    case LitReal(r) => t.Const? && '.' in t.s && nums.readReal(t.s) == Some(r)
    case LitInteger(i) => t.Const? && ('.' in t.s ==> nums.readReal(t.s) == None) && nums.readInt(t.s) == Some(i)
    case LitText(s) => t == Const(s) && ('.' in s ==> nums.readReal(s) == None) && nums.readInt(s) == None
  }

  /** e without brackets around it. */
  ghost predicate Plain(nums: Numerals, e: Expr, ts: seq<Token>)
    decreases |ts|, 1
  {
    match e
    case Lit(x) => |ts| == 1 && SpellsLiteral(nums, ts[0], x)
    case Column(None, name) => ts == [Ident(name)] && NameOk(name)
    case Column(Some(t), name) => ts == [Ident(t), Oper("."), Ident(name)] && NameOk(t)
    case Unary(op, a) => ts != [] && SpellsUnary(ts[0], op) && Written(nums, a, 5, ts[1..])
    case Binary(a, op, b) => exists i: nat :: i < |ts| && Splits(nums, a, op, b, ts, i)
    case FunctionCall(name, args) =>
      && |ts| >= 3 && ts[0] == Ident(name) && NameOk(name) && ts[1] == Oper("(") && ts[|ts| - 1] == Oper(")")
      && WrittenList(nums, args, ts[2..|ts| - 1])
  }

  /** The operator is token i: operands of its level to the left, and of the next level to the right. */
  ghost predicate Splits(nums: Numerals, a: Expr, op: BinaryOp, b: Expr, ts: seq<Token>, i: nat)
    requires i < |ts|
    decreases |ts|, 0
  {
    Written(nums, a, LevelOf(op), ts[..i]) && Spells(ts[i], op) && Written(nums, b, LevelOf(op) + 1, ts[i + 1..])
  }

  ghost predicate Enclosed(nums: Numerals, e: Expr, ts: seq<Token>)
    decreases |ts|, 1
  {
    |ts| >= 2 && ts[0] == Oper("(") && ts[|ts| - 1] == Oper(")") && Written(nums, e, 0, ts[1..|ts| - 1])
  }

  /** ts is e where level l is wanted: in brackets, or without if e is of that level or above. */
  ghost predicate Written(nums: Numerals, e: Expr, l: nat, ts: seq<Token>)
    decreases |ts|, 2
  {
    Enclosed(nums, e, ts) || (ExprLevel(e) >= l && Plain(nums, e, ts))
  }

  /** Expressions with commas between them. */
  ghost predicate WrittenList(nums: Numerals, args: seq<Expr>, ts: seq<Token>)
    decreases |ts|, 4
  {
    if args == [] then ts == []
    else if |args| == 1 then Written(nums, args[0], 0, ts)
    else exists i: nat :: i < |ts| && CommaAt(nums, args, ts, i)
  }

  ghost predicate CommaAt(nums: Numerals, args: seq<Expr>, ts: seq<Token>, i: nat)
    requires i < |ts| && args != []
    decreases |ts|, 3
  {
    Written(nums, args[0], 0, ts[..i]) && ts[i] == Oper(",") && WrittenList(nums, args[1..], ts[i + 1..])
  }

  // ---------------------------------------------------------------- tokens

  lemma SpellsIff(l: nat, t: Token, op: BinaryOp, rest: seq<Token>)
    requires l < 5
    ensures OpAt(l, [t] + rest) == Some(op) <==> Spells(t, op) && LevelOf(op) == l
    ensures Spells(t, op) && LevelOf(op) == l ==> Stops([t] + rest, l + 1)
  {
    assert |"or"| == 2 && |"and"| == 3;
  }

  lemma UnarySpellsIff(t: Token, op: UnaryOp, rest: seq<Token>)
    ensures UnaryAt([t] + rest) == Some(op) <==> SpellsUnary(t, op)
  {
  }

  lemma LiteralIff(nums: Numerals, s: string, x: Literal)
    ensures LiteralOf(nums, s) == x <==> SpellsLiteral(nums, Const(s), x)
  {
  }

  // ---------------------------------------------------------------- what is written is read

  /** What reading the tokens of e must give where level l is wanted. */
  ghost predicate Reads(nums: Numerals, e: Expr, l: nat, ts: seq<Token>, tail: seq<Token>)
    requires l <= 6
  {
    ParseAt(nums, l, ts) == if l < 5 then More(nums, l, e, tail) else Success((e, tail))
  }

  lemma StopsMore(nums: Numerals, e: Expr, l: nat, tail: seq<Token>)
    requires l < 5 && Stops(tail, l)
    ensures More(nums, l, e, tail) == Success((e, tail))
  {
  }

  lemma StopsUp(tail: seq<Token>, l: nat)
    requires Stops(tail, l)
    ensures Stops(tail, l + 1)
  {
  }

  lemma BracketStops(tail: seq<Token>)
    ensures Stops([Oper(")")] + tail, 0) && Stops([Oper(")")] + tail, 1)
  {
  }

  lemma CommaStops(tail: seq<Token>)
    ensures Stops([Oper(",")] + tail, 0) && Stops([Oper(",")] + tail, 1)
  {
  }

  /** Where nothing of level l follows, reading at level l + 1 is reading at level l. */
  lemma Climb(nums: Numerals, e: Expr, l: nat, ts: seq<Token>, tail: seq<Token>)
    requires l < 6 && Reads(nums, e, l + 1, ts, tail) && Stops(tail, l + 1) && (l == 5 ==> UnaryAt(ts).None?)
    ensures Reads(nums, e, l, ts, tail)
  {
    if l + 1 < 5 { StopsMore(nums, e, l + 1, tail); }
  }

  /** Wherever level l is wanted, a written form of e is read as e, and exactly its tokens are taken. */
  lemma {:induction false} WrittenReads(nums: Numerals, e: Expr, l: nat, ts: seq<Token>, tail: seq<Token>)
    requires Written(nums, e, l, ts) && l <= 6 && Stops(tail, l + 1)
    ensures Reads(nums, e, l, ts + tail, tail)
    decreases |ts|, 1, 6 - l
  {
    hide ParseAt, More, Primary, Plain, Stops, Enclosed;
    if l < 6 && (Enclosed(nums, e, ts) || l < ExprLevel(e)) {
      StopsUp(tail, l + 1);
      WrittenReads(nums, e, l + 1, ts, tail);
      if l == 5 { NotUnary(nums, e, ts, tail); }
      Climb(nums, e, l, ts + tail, tail);
    } else if Enclosed(nums, e, ts) {
      EnclosedReads(nums, e, ts, tail);
    } else {
      match e
      case Binary(a, op, b) => BinaryReads(nums, a, op, b, ts, tail);
      case Unary(op, a) => UnaryReads(nums, op, a, ts, tail);
      case FunctionCall(name, args) => CallReads(nums, name, args, ts, tail);
      case _ => NameReads(nums, e, ts, tail);
    }
  }

  lemma NotUnary(nums: Numerals, e: Expr, ts: seq<Token>, tail: seq<Token>)
    requires Enclosed(nums, e, ts) || (ExprLevel(e) == 6 && Plain(nums, e, ts))
    ensures UnaryAt(ts + tail).None?
  {
    hide Written, WrittenList;
    assert |"null"| == 4 && |"not"| == 3;
  }

  lemma {:induction false} BinaryReads(nums: Numerals, a: Expr, op: BinaryOp, b: Expr, ts: seq<Token>, tail: seq<Token>)
    requires Plain(nums, Binary(a, op, b), ts) && Stops(tail, LevelOf(op) + 1)
    ensures Reads(nums, Binary(a, op, b), LevelOf(op), ts + tail, tail)
    decreases |ts|, 0, 0
  {
    hide ParseAt, Primary, Stops, OpAt, Written, Spells;
    var l := LevelOf(op);
    var i: nat :| i < |ts| && Splits(nums, a, op, b, ts, i);
    var after := ts[i + 1..] + tail;
    var middle := [ts[i]] + after;
    SpellsIff(l, ts[i], op, after);
    WrittenReads(nums, a, l, ts[..i], middle);
    StopsUp(tail, l + 1);
    WrittenReads(nums, b, l + 1, ts[i + 1..], tail);
    if l + 1 < 5 { StopsMore(nums, b, l + 1, tail); }
    assert middle[1..] == after;
    assert ts + tail == ts[..i] + middle;
  }

  lemma {:induction false} UnaryReads(nums: Numerals, op: UnaryOp, a: Expr, ts: seq<Token>, tail: seq<Token>)
    requires Plain(nums, Unary(op, a), ts) && Stops(tail, 6)
    ensures Reads(nums, Unary(op, a), 5, ts + tail, tail)
    decreases |ts|, 0, 0
  {
    hide Primary, More, UnaryAt, Stops, Written;
    var after := ts[1..] + tail;
    WrittenReads(nums, a, 5, ts[1..], tail);
    UnarySpellsIff(ts[0], op, after);
    assert ts + tail == [ts[0]] + after && (ts + tail)[1..] == after;
  }

  lemma AtPrimary(nums: Numerals, ts: seq<Token>)
    ensures ParseAt(nums, 6, ts) == Primary(nums, ts)
  {
  }

  lemma {:induction false} EnclosedReads(nums: Numerals, e: Expr, ts: seq<Token>, tail: seq<Token>)
    requires Enclosed(nums, e, ts)
    ensures Reads(nums, e, 6, ts + tail, tail)
    decreases |ts|, 0, 0
  {
    hide ParseAt, More, Stops, Written;
    var close := [Oper(")")] + tail;
    var inner := ts[1..|ts| - 1];
    BracketStops(tail);
    WrittenReads(nums, e, 0, inner, close);
    StopsMore(nums, e, 0, close);
    AtPrimary(nums, ts + tail);
    assert (ts + tail)[1..] == inner + close && close[1..] == tail;
  }

  /** Constants and columns. */
  lemma NameReads(nums: Numerals, e: Expr, ts: seq<Token>, tail: seq<Token>)
    requires Plain(nums, e, ts) && (e.Lit? || e.Column?) && Stops(tail, 7)
    ensures Reads(nums, e, 6, ts + tail, tail)
  {
    hide ParseAt, Args;
    var all := ts + tail;
    AtPrimary(nums, all);
    assert all[1..] == ts[1..] + tail;
    match e
    case Lit(x) =>
      assert all[1..] == tail;
      if !x.LitNull? { LiteralIff(nums, ts[0].s, x); }
    case Column(None, name) =>
      assert all[1..] == tail;
    case Column(Some(t), name) =>
      assert all[1..][2..] == tail;
  }

  lemma {:induction false} CallReads(nums: Numerals, name: string, args: seq<Expr>, ts: seq<Token>, tail: seq<Token>)
    requires Plain(nums, FunctionCall(name, args), ts)
    ensures Reads(nums, FunctionCall(name, args), 6, ts + tail, tail)
    decreases |ts|, 0, 0
  {
    hide Args, WrittenList, ParseAt, Stops, ArgList;
    var list, close := ts[2..|ts| - 1], [Oper(")")] + tail;
    var all := ts + tail;
    BracketStops(tail);
    ListReads(nums, args, list, close);
    AtPrimary(nums, all);
    assert all[0] == ts[0] && all[1..][0] == ts[1] && all[1..][1..] == list + close && close[1..] == tail;
  }

  lemma {:induction false} WrittenStarts(nums: Numerals, e: Expr, l: nat, ts: seq<Token>)
    requires Written(nums, e, l, ts)
    ensures ts != [] && ts[0] != Oper(")")
    decreases |ts|
  {
    if !Enclosed(nums, e, ts) && e.Binary? {
      assert Plain(nums, Binary(e.left, e.op, e.right), ts);
      var i: nat :| i < |ts| && Splits(nums, e.left, e.op, e.right, ts, i);
      WrittenStarts(nums, e.left, LevelOf(e.op), ts[..i]);
    }
  }

  lemma LastArg(nums: Numerals, ts: seq<Token>, a: Expr, tail: seq<Token>)
    requires ParseAt(nums, 0, ts) == Success((a, tail)) && IsOper(tail, ")")
    ensures ArgList(nums, ts) == Success(([a], tail))
  {
    hide ParseAt;
  }

  lemma NextArg(nums: Numerals, ts: seq<Token>, a: Expr, list: seq<Token>, rest: seq<Expr>, tail: seq<Token>)
    requires ParseAt(nums, 0, ts) == Success((a, [Oper(",")] + list)) && ArgList(nums, list) == Success((rest, tail))
    ensures ArgList(nums, ts) == Success(([a] + rest, tail))
  {
    hide ParseAt;
    assert ([Oper(",")] + list)[1..] == list;
  }

  lemma {:induction false} ListReads(nums: Numerals, args: seq<Expr>, ts: seq<Token>, tail: seq<Token>)
    requires WrittenList(nums, args, ts) && IsOper(tail, ")") && Stops(tail, 0) && Stops(tail, 1)
    ensures Args(nums, ts + tail) == Success((args, tail))
    ensures args != [] ==> ArgList(nums, ts + tail) == Success((args, tail))
    decreases |ts|, 2, 0
  {
    hide ParseAt, More, Stops, ArgList, Written;
    if args == [] {
      assert ts + tail == tail;
    } else if |args| == 1 {
      WrittenStarts(nums, args[0], 0, ts);
      WrittenReads(nums, args[0], 0, ts, tail);
      StopsMore(nums, args[0], 0, tail);
      LastArg(nums, ts + tail, args[0], tail);
      assert args == [args[0]];
    } else {
      var i: nat :| i < |ts| && CommaAt(nums, args, ts, i);
      var list := ts[i + 1..] + tail;
      var after := [Oper(",")] + list;
      CommaStops(list);
      ListReads(nums, args[1..], ts[i + 1..], tail);
      WrittenStarts(nums, args[0], 0, ts[..i]);
      WrittenReads(nums, args[0], 0, ts[..i], after);
      StopsMore(nums, args[0], 0, after);
      assert ts + tail == ts[..i] + after;
      NextArg(nums, ts + tail, args[0], list, args[1..], tail);
      assert args == [args[0]] + args[1..];
    }
  }

  // ---------------------------------------------------------------- what is read was written

  /** Whatever is read from the tokens is written in those it took. */
  lemma {:induction false} ReadWritten(nums: Numerals, l: nat, ts: seq<Token>) returns (w: seq<Token>)
    requires l <= 6 && ParseAt(nums, l, ts).Success? && (l == 6 ==> !IsKeyword(ts, "not"))
    ensures var r := ParseAt(nums, l, ts).value; ts == w + r.1 && Written(nums, r.0, l, w)
    decreases |ts|, 1, 7 - l
  {
    hide More, Primary, OpAt, Written;
    if l < 5 {
      var below := ReadWritten(nums, l + 1, ts);
      var (e, rest) := ParseAt(nums, l + 1, ts).value;
      LowerLevel(nums, e, l, below);
      w := MoreWritten(nums, l, e, below, rest);
    } else if l == 5 {
      if UnaryAt(ts).Some? {
        var a := ReadWritten(nums, 5, ts[1..]);
        w := [ts[0]] + a;
        UnaryWritten(nums, UnaryAt(ts).value, ParseAt(nums, 5, ts[1..]).value.0, ts[0], a, ts[1..]);
        assert ts == [ts[0]] + ts[1..];
      } else {
        w := ReadWritten(nums, 6, ts);
        LowerLevel(nums, ParseAt(nums, 6, ts).value.0, 5, w);
      }
    } else {
      w := PrimaryWritten(nums, ts);
    }
  }

  lemma LowerLevel(nums: Numerals, e: Expr, l: nat, w: seq<Token>)
    requires Written(nums, e, l + 1, w)
    ensures Written(nums, e, l, w)
  {
  }

  lemma UnaryWritten(nums: Numerals, op: UnaryOp, a: Expr, t: Token, w: seq<Token>, rest: seq<Token>)
    requires Written(nums, a, 5, w) && UnaryAt([t] + rest) == Some(op)
    ensures Written(nums, Unary(op, a), 5, [t] + w)
  {
    UnarySpellsIff(t, op, rest);
    assert ([t] + w)[1..] == w;
  }

  lemma BinaryWritten(nums: Numerals, a: Expr, op: BinaryOp, b: Expr, u: seq<Token>, t: Token, v: seq<Token>)
    requires Written(nums, a, LevelOf(op), u) && Spells(t, op) && Written(nums, b, LevelOf(op) + 1, v)
    ensures Written(nums, Binary(a, op, b), LevelOf(op), u + [t] + v)
  {
    var ts := u + [t] + v;
    assert ts[..|u|] == u && ts[|u|] == t && ts[|u| + 1..] == v;
    assert Splits(nums, a, op, b, ts, |u|);
  }

  lemma {:induction false} MoreWritten(nums: Numerals, l: nat, e: Expr, w: seq<Token>, ts: seq<Token>) returns (all: seq<Token>)
    requires l < 5 && Written(nums, e, l, w) && More(nums, l, e, ts).Success?
    ensures var r := More(nums, l, e, ts).value; w + ts == all + r.1 && Written(nums, r.0, l, all)
    decreases |ts|, 0, 0
  {
    hide ParseAt, OpAt, Written, Spells;
    all := w;
    if OpAt(l, ts).Some? {
      OpTakes(l, ts);
      var op, t := OpAt(l, ts).value, ts[0];
      assert ts == [t] + ts[1..];
      SpellsIff(l, t, op, ts[1..]);
      var v := ReadWritten(nums, l + 1, ts[1..]);
      var (right, rest) := ParseAt(nums, l + 1, ts[1..]).value;
      BinaryWritten(nums, e, op, right, w, t, v);
      all := MoreWritten(nums, l, Binary(e, op, right), w + [t] + v, rest);
      assert w + ts == (w + [t] + v) + rest;
    }
  }

  lemma OpTakes(l: nat, ts: seq<Token>)
    ensures OpAt(l, ts).Some? ==> ts != []
  {
  }

  lemma {:induction false} PrimaryWritten(nums: Numerals, ts: seq<Token>) returns (w: seq<Token>)
    requires Primary(nums, ts).Success? && !IsKeyword(ts, "not")
    ensures var r := Primary(nums, ts).value; ts == w + r.1 && Written(nums, r.0, 6, w)
    decreases |ts|, 0, 0
  {
    hide ParseAt, Named, Written, Plain;
    if IsOper(ts, "(") {
      var inner := ReadWritten(nums, 0, ts[1..]);
      var (e, rest) := ParseAt(nums, 0, ts[1..]).value;
      w := [Oper("(")] + inner + [Oper(")")];
      InBrackets(nums, e, inner);
      assert ts == [ts[0]] + ts[1..] && rest == [rest[0]] + rest[1..];
    } else if IsKeyword(ts, "null") || ts[0].Const? {
      w := [ts[0]];
      assert ts == w + ts[1..];
      OneToken(nums, ts);
    } else {
      w := NamedWritten(nums, ts[0].s, ts[1..]);
      assert ts == [ts[0]] + ts[1..];
    }
  }

  lemma InBrackets(nums: Numerals, e: Expr, inner: seq<Token>)
    requires Written(nums, e, 0, inner)
    ensures forall l: nat :: Written(nums, e, l, [Oper("(")] + inner + [Oper(")")])
  {
    var ts := [Oper("(")] + inner + [Oper(")")];
    assert ts[1..|ts| - 1] == inner;
    assert Enclosed(nums, e, ts);
  }

  lemma OneToken(nums: Numerals, ts: seq<Token>)
    requires IsKeyword(ts, "null") || (ts != [] && ts[0].Const?)
    ensures Primary(nums, ts).Success? && Written(nums, Primary(nums, ts).value.0, 6, [ts[0]])
  {
    if ts[0].Const? { LiteralIff(nums, ts[0].s, LiteralOf(nums, ts[0].s)); }
  }

  lemma {:induction false} NamedWritten(nums: Numerals, name: string, ts: seq<Token>) returns (w: seq<Token>)
    requires NameOk(name) && Named(nums, name, ts).Success?
    ensures var r := Named(nums, name, ts).value; [Ident(name)] + ts == w + r.1 && Written(nums, r.0, 6, w)
    decreases |ts|, 4, 0
  {
    hide ArgList, NameOk, ParseAt;
    if IsOper(ts, "(") {
      var list := ts[1..];
      var v: seq<Token> := [];
      if !IsOper(list, ")") { v := ListWritten(nums, list); }
      var (args, rest) := Args(nums, list).value;
      w := [Ident(name), Oper("(")] + v + [Oper(")")];
      assert w[2..|w| - 1] == v;
      assert ts == [ts[0]] + list && rest == [rest[0]] + rest[1..];
      assert [Ident(name)] + ts == w + rest[1..];
      assert Plain(nums, FunctionCall(name, args), w);
    } else if IsOper(ts, ".") {
      w := [Ident(name), Oper("."), ts[1]];
      assert ts == [ts[0], ts[1]] + ts[2..];
    } else {
      w := [Ident(name)];
    }
  }

  lemma {:induction false} ListWritten(nums: Numerals, ts: seq<Token>) returns (w: seq<Token>)
    requires ArgList(nums, ts).Success?
    ensures var r := ArgList(nums, ts).value; r.0 != [] && ts == w + r.1 && WrittenList(nums, r.0, w)
    decreases |ts|, 3, 0
  {
    hide ParseAt, Written;
    var first := ReadWritten(nums, 0, ts);
    var (e, rest) := ParseAt(nums, 0, ts).value;
    w := first;
    if IsOper(rest, ",") {
      var v := ListWritten(nums, rest[1..]);
      var (more, end) := ArgList(nums, rest[1..]).value;
      w := first + [Oper(",")] + v;
      assert w[..|first|] == first && w[|first|] == Oper(",") && w[|first| + 1..] == v && ([e] + more)[1..] == more;
      assert CommaAt(nums, [e] + more, w, |first|);
      assert rest == [rest[0]] + rest[1..];
    }
  }

  /** The tokens taken are a written form of the expression. */
  lemma TakenWritten(nums: Numerals, l: nat, ts: seq<Token>)
    requires l < 6 && ParseAt(nums, l, ts).Success?
    ensures var r := ParseAt(nums, l, ts).value; Written(nums, r.0, l, ts[..|ts| - |r.1|])
  {
    hide ParseAt, Written;
    var w := ReadWritten(nums, l, ts);
    var rest := ParseAt(nums, l, ts).value.1;
    assert ts[..|ts| - |rest|] == w;
  }

  // ---------------------------------------------------------------- exactly what is written is read

  /** Reading gives e, with no token left over, exactly if the tokens are a written form of e. */
  lemma ReadsExactlyWhatIsWritten(nums: Numerals, e: Expr, ts: seq<Token>)
    ensures ParseAt(nums, 0, ts) == Success((e, [])) <==> Written(nums, e, 0, ts)
  {
    hide ParseAt, Written, More;
    if ParseAt(nums, 0, ts) == Success((e, [])) {
      var w := ReadWritten(nums, 0, ts);
      assert w + [] == w;
    }
    if Written(nums, e, 0, ts) {
      WrittenReads(nums, e, 0, ts, []);
      StopsMore(nums, e, 0, []);
      assert ts + [] == ts;
    }
  }

  /** No tokens are a written form of two expressions. */
  lemma WrittenOnce(nums: Numerals, d: Expr, e: Expr, ts: seq<Token>)
    requires Written(nums, d, 0, ts) && Written(nums, e, 0, ts)
    ensures d == e
  {
    hide Written;
    ReadsExactlyWhatIsWritten(nums, d, ts);
    ReadsExactlyWhatIsWritten(nums, e, ts);
  }
}
