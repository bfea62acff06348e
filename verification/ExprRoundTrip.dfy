/** Printed expressions are read back as they were. */
module ExprRoundTrip {
  import opened Values
  import opened SqlSyntax
  import opened ExprGrammar
  import opened ExprWritten

  // ---------------------------------------------------------------- what is printed is a written form

  lemma SpellsOwn(op: BinaryOp)
    ensures Spells(OpToken(op), op)
  {
    assert SameName("or", "or") && SameName("and", "and");
  }

  lemma LiteralPrinted(nums: Numerals, x: Literal)
    requires LiteralOk(nums, x)
    ensures Written(nums, Lit(x), 6, Plainly(nums, Lit(x)))
  {
    var t := Plainly(nums, Lit(x))[0];
    assert SameName("null", "null");
    if !x.LitNull? { LiteralIff(nums, t.s, x); }
  }

  lemma {:induction false} PrintWritten(nums: Numerals, e: Expr, l: nat)
    requires Printable(nums, e)
    ensures Written(nums, e, l, Print(nums, e, l)) && Written(nums, e, ExprLevel(e), Plainly(nums, e))
    decreases e, 1
  {
    hide Written, LiteralOk;
    match e {
    case Lit(x) => LiteralPrinted(nums, x);
    case Column(_, _) => ColumnPrinted(nums, e);
    case Unary(op, a) =>
      PrintWritten(nums, a, 5);
      UnaryTokenRead(op, []);
      UnaryWritten(nums, op, a, UnaryToken(op), Print(nums, a, 5), []);
    case Binary(a, op, b) =>
      PrintWritten(nums, a, LevelOf(op));
      PrintWritten(nums, b, LevelOf(op) + 1);
      SpellsOwn(op);
      BinaryWritten(nums, a, op, b, Print(nums, a, LevelOf(op)), OpToken(op), Print(nums, b, LevelOf(op) + 1));
    case FunctionCall(name, args) =>
      ListPrinted(nums, args);
      CallPrinted(nums, name, args);
    }
    BracketsPrinted(nums, e, l);
  }

  lemma ColumnPrinted(nums: Numerals, e: Expr)
    requires Printable(nums, e) && e.Column?
    ensures Written(nums, e, 6, Plainly(nums, e))
  {
  }

  lemma CallPrinted(nums: Numerals, name: string, args: seq<Expr>)
    requires NameOk(name) && WrittenList(nums, args, PrintList(nums, args))
    ensures Written(nums, FunctionCall(name, args), 6, Plainly(nums, FunctionCall(name, args)))
  {
    hide WrittenList, PrintList;
    var ts := Plainly(nums, FunctionCall(name, args));
    assert ts[2..|ts| - 1] == PrintList(nums, args);
    assert Plain(nums, FunctionCall(name, args), ts);
  }

  lemma BracketsPrinted(nums: Numerals, e: Expr, l: nat)
    requires Written(nums, e, ExprLevel(e), Plainly(nums, e))
    ensures Written(nums, e, l, Print(nums, e, l))
  {
    hide Plainly, Plain;
    if ExprLevel(e) < l {
      assert Written(nums, e, 0, Plainly(nums, e));
      InBrackets(nums, e, Plainly(nums, e));
    }
  }

  lemma {:induction false} ListPrinted(nums: Numerals, args: seq<Expr>)
    requires forall a :: a in args ==> Printable(nums, a)
    ensures WrittenList(nums, args, PrintList(nums, args))
    decreases args, 2
  {
    hide Written, Print, Printable;
    if args != [] {
      assert args[0] in args;
      PrintWritten(nums, args[0], 0);
      if |args| > 1 {
        assert forall x :: x in args[1..] ==> x in args;
        ListPrinted(nums, args[1..]);
        var first, more := Print(nums, args[0], 0), PrintList(nums, args[1..]);
        var ts := PrintList(nums, args);
        assert ts == first + [Oper(",")] + more;
        assert ts[..|first|] == first && ts[|first|] == Oper(",") && ts[|first| + 1..] == more;
        assert CommaAt(nums, args, ts, |first|);
      }
    }
  }

  /** A printed expression is read back as it was, wherever it stands. */
  lemma PrintReads(nums: Numerals, e: Expr, l: nat, tail: seq<Token>)
    requires Printable(nums, e) && l <= 6 && Stops(tail, l + 1)
    ensures Reads(nums, e, l, Print(nums, e, l) + tail, tail)
  {
    PrintWritten(nums, e, l);
    WrittenReads(nums, e, l, Print(nums, e, l), tail);
  }

  // ---------------------------------------------------------------- what has a written form

  /** Names are no keywords and texts do not read as numbers. */
  predicate Sound(nums: Numerals, e: Expr) {
    match e
    case Lit(LitText(s)) => LiteralOf(nums, s) == LitText(s)
    case Lit(_) => true
    case Column(None, name) => NameOk(name)
    case Column(Some(t), _) => NameOk(t)
    case Unary(_, a) => Sound(nums, a)
    case Binary(a, _, b) => Sound(nums, a) && Sound(nums, b)
    case FunctionCall(name, args) => NameOk(name) && forall a :: a in args ==> Sound(nums, a)
  }

  /** The numbers in e read back as they are written. */
  predicate NumbersRead(nums: Numerals, e: Expr) {
    match e
    case Lit(LitInteger(i)) => LiteralOf(nums, nums.showInt(i)) == LitInteger(i)
    case Lit(LitReal(r)) => LiteralOf(nums, nums.showReal(r)) == LitReal(r)
    case Unary(_, a) => NumbersRead(nums, a)
    case Binary(a, _, b) => NumbersRead(nums, a) && NumbersRead(nums, b)
    case FunctionCall(_, args) => forall a :: a in args ==> NumbersRead(nums, a)
    case _ => true
  }

  lemma {:induction false} PrintableIs(nums: Numerals, e: Expr)
    requires NumbersRead(nums, e)
    ensures Printable(nums, e) <==> Sound(nums, e)
    decreases e
  {
    match e
    case Unary(_, a) => PrintableIs(nums, a);
    case Binary(a, _, b) =>
      PrintableIs(nums, a);
      PrintableIs(nums, b);
    case FunctionCall(_, args) =>
      forall a | a in args ensures Printable(nums, a) <==> Sound(nums, a) { PrintableIs(nums, a); }
    case _ =>
  }

  lemma {:induction false} WrittenSound(nums: Numerals, e: Expr, l: nat, ts: seq<Token>)
    requires Written(nums, e, l, ts)
    ensures Sound(nums, e)
    decreases |ts|, 2
  {
    if Enclosed(nums, e, ts) {
      WrittenSound(nums, e, 0, ts[1..|ts| - 1]);
    } else {
      assert Plain(nums, e, ts);
      match e
      case Lit(x) => if x.LitText? { LiteralIff(nums, x.s, x); }
      case Column(_, _) =>
      case Unary(_, a) => WrittenSound(nums, a, 5, ts[1..]);
      case Binary(a, op, b) =>
        var i: nat :| i < |ts| && Splits(nums, a, op, b, ts, i);
        WrittenSound(nums, a, LevelOf(op), ts[..i]);
        WrittenSound(nums, b, LevelOf(op) + 1, ts[i + 1..]);
      case FunctionCall(_, args) => ListSound(nums, args, ts[2..|ts| - 1]);
    }
  }

  lemma {:induction false} ListSound(nums: Numerals, args: seq<Expr>, ts: seq<Token>)
    requires WrittenList(nums, args, ts)
    ensures forall a :: a in args ==> Sound(nums, a)
    decreases |ts|, 4
  {
    hide Written;
    if |args| == 1 {
      WrittenSound(nums, args[0], 0, ts);
      assert args == [args[0]];
    } else if |args| > 1 {
      var i: nat :| i < |ts| && CommaAt(nums, args, ts, i);
      WrittenSound(nums, args[0], 0, ts[..i]);
      ListSound(nums, args[1..], ts[i + 1..]);
      assert args == [args[0]] + args[1..];
    }
  }

  /**
   A whole expression, printed and read, is the same expression with no token left over, exactly if none of its names
   is `not` or `null` where an operand is expected and none of its texts reads as a number.
   */
  lemma RoundTrip(nums: Numerals, e: Expr)
    requires NumbersRead(nums, e)
    ensures ParseAt(nums, 0, Print(nums, e, 0)) == Success((e, [])) <==> Sound(nums, e)
  {
    hide ParseAt, Print, Written;
    PrintableIs(nums, e);
    var ts := Print(nums, e, 0);
    ReadsExactlyWhatIsWritten(nums, e, ts);
    if Sound(nums, e) {
      PrintWritten(nums, e, 0);
    } else if Written(nums, e, 0, ts) {
      WrittenSound(nums, e, 0, ts);
    }
  }

  /** Whatever spelling and brackets an expression was read from, printing it and reading that gives it again. */
  lemma ReadPrintRead(nums: Numerals, e: Expr, ts: seq<Token>)
    requires ParseAt(nums, 0, ts) == Success((e, [])) && NumbersRead(nums, e)
    ensures ParseAt(nums, 0, Print(nums, e, 0)) == Success((e, []))
  {
    hide ParseAt, Written, Print;
    ReadsExactlyWhatIsWritten(nums, e, ts);
    WrittenSound(nums, e, 0, ts);
    RoundTrip(nums, e);
  }
}
