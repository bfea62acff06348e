/** Expressions, and the physical plans the code generator takes. */
module SqlSyntax {
  import opened Values

  datatype Literal = LitNull | LitInteger(i: int) | LitReal(r: real) | LitText(s: string)

  datatype UnaryOp = Not | Negate | Positive

  datatype BinaryOp = Eq | Ne | Lt | Le | Gt | Ge | And | Or | Add | Subtract | Multiply | Divide

  datatype Expr =
    | Lit(lit: Literal)
    | Column(table: Option<string>, name: string)
    | Unary(uop: UnaryOp, arg: Expr)
    | Binary(left: Expr, op: BinaryOp, right: Expr)
    | FunctionCall(fname: string, args: seq<Expr>)

  datatype JoinType = InnerJoin | LeftJoin | RightJoin | FullJoin | CrossJoin

  datatype JoinConstraint = On(on: Expr) | Using(columns: seq<string>) | NoConstraint

  datatype ProjectionItem = ExprItem(expr: Expr, alias: Option<string>) | Wildcard

  datatype OrderItem = OrderItem(key: Expr, descending: bool)

  datatype Plan =
    | OneRow
    | SeqScan(table: string, alias: Option<string>)
    | Filter(cond: Expr, input: Plan)
    | Project(items: seq<ProjectionItem>, input: Plan)
    | NestedLoopJoin(joinType: JoinType, constraint: JoinConstraint, left: Plan, right: Plan)
    | HashJoin(joinType: JoinType, constraint: JoinConstraint, left: Plan, right: Plan)
    | Sort(order: seq<OrderItem>, input: Plan)
    | Limit(count: Expr, input: Plan)

  /** What the catalog knows of a table. */
  datatype TableBinding = TableBinding(root: nat, columns: seq<string>)

  type Catalog = map<string, TableBinding>

  // ---------------------------------------------------------------- names

  function LowerChar(c: char): char {
    if 'A' <= c <= 'Z' then c - 'A' + 'a' else c
  }

  /** ASCII letters compare without case. */
  predicate SameName(a: string, b: string) {
    |a| == |b| && forall i :: 0 <= i < |a| ==> LowerChar(a[i]) == LowerChar(b[i])
  }

  /** One table of the FROM clause inside a row environment. */
  datatype RowSource = RowSource(table: string, alias: Option<string>, cursorId: nat, columns: seq<string>)

  predicate MatchesTable(s: RowSource, name: string) {
    SameName(s.table, name) || (s.alias.Some? && SameName(s.alias.value, name))
  }

  /** The first column called name, if there is one. */
  function Position(columns: seq<string>, name: string): (p: Option<nat>)
    ensures p.Some? ==> p.value < |columns| && SameName(columns[p.value], name)
    ensures p.Some? ==> forall i :: 0 <= i < p.value ==> !SameName(columns[i], name)
    ensures p.None? ==> forall i :: 0 <= i < |columns| ==> !SameName(columns[i], name)
  {
    if columns == [] then None
    else if SameName(columns[0], name) then Some(0)
    else match Position(columns[1..], name)
         case None => None
         case Some(i) => Some(i + 1)
  }

  datatype Resolved = Resolved(source: nat, col: nat)

  /** Whether source s offers the column. */
  function Offer(s: RowSource, table: Option<string>, name: string): Option<nat> {
    if table.Some? && !MatchesTable(s, table.value) then None else Position(s.columns, name)
  }

  /** All sources, from index i on, that offer the column. */
  function Offers(sources: seq<RowSource>, table: Option<string>, name: string, i: nat): (hits: seq<Resolved>)
    requires i <= |sources|
    ensures forall h :: h in hits ==> i <= h.source < |sources| && Offer(sources[h.source], table, name) == Some(h.col)
    decreases |sources| - i
  {
    if i == |sources| then []
    else
      var rest := Offers(sources, table, name, i + 1);
      match Offer(sources[i], table, name)
      case None => rest
      case Some(col) => [Resolved(i, col)] + rest
  }

  datatype PlanError =
    | UnknownTable(name: string)
    | UnknownColumn(name: string)
    | AmbiguousColumn(name: string)
    | UnknownUsing(name: string)
    | AmbiguousUsing(name: string)
    | SortUnsupported
    | FunctionUnsupported
    | LimitNotLiteral
    | LimitNegative
    | UnresolvedLabel(lbl: nat)

  /** The one source that offers the column. */
  function ResolveColumn(sources: seq<RowSource>, table: Option<string>, name: string): (r: Result<Resolved, PlanError>)
    ensures r.Success? ==> r.value.source < |sources|
  {
    var hits := Offers(sources, table, name, 0);
    if hits == [] then Failure(UnknownColumn(name))
    else if |hits| > 1 then Failure(AmbiguousColumn(name))
    else assert hits[0] in hits; Success(hits[0])
  }

  lemma {:induction false} OffersComplete(sources: seq<RowSource>, table: Option<string>, name: string, i: nat, j: nat, col: nat)
    requires i <= j < |sources| && Offer(sources[j], table, name) == Some(col)
    ensures Resolved(j, col) in Offers(sources, table, name, i)
    decreases |sources| - i
  {
    if i < j {
      OffersComplete(sources, table, name, i + 1, j, col);
    }
  }

  ghost predicate Increasing(hits: seq<Resolved>) {
    forall x, y :: 0 <= x < y < |hits| ==> hits[x].source < hits[y].source
  }

  lemma {:induction false} OffersOnce(sources: seq<RowSource>, table: Option<string>, name: string, i: nat)
    requires i <= |sources|
    ensures Increasing(Offers(sources, table, name, i))
    decreases |sources| - i
  {
    if i < |sources| {
      OffersOnce(sources, table, name, i + 1);
      IncreasingCons(i, Offers(sources, table, name, i + 1));
    }
  }

  lemma IncreasingCons(i: nat, rest: seq<Resolved>)
    requires Increasing(rest) && forall h :: h in rest ==> i < h.source
    ensures forall col :: Increasing([Resolved(i, col)] + rest)
  {
  }

  /** A name is resolved to source j exactly when j offers it and no other source does. */
  lemma ResolvesIff(sources: seq<RowSource>, table: Option<string>, name: string, j: nat, col: nat)
    requires j < |sources|
    ensures ResolveColumn(sources, table, name) == Success(Resolved(j, col)) <==>
            && Offer(sources[j], table, name) == Some(col)
            && forall o :: 0 <= o < |sources| && o != j ==> Offer(sources[o], table, name) == None
  {
    var hits := Offers(sources, table, name, 0);
    OffersOnce(sources, table, name, 0);
    if Offer(sources[j], table, name) == Some(col) {
      OffersComplete(sources, table, name, 0, j, col);
    }
    forall o | 0 <= o < |sources| && Offer(sources[o], table, name).Some? ensures exists h :: h in hits && h.source == o {
      OffersComplete(sources, table, name, 0, o, Offer(sources[o], table, name).value);
      assert Resolved(o, Offer(sources[o], table, name).value) in hits;
    }
    if |hits| > 1 {
      assert hits[0] in hits && hits[1] in hits;
    }
    if |hits| == 1 {
      assert hits == [hits[0]];
    }
  }

  /** The count of a LIMIT clause. */
  function LiteralLimit(e: Expr): Result<nat, PlanError> {
    match e
    case Lit(LitInteger(i)) => if i >= 0 then Success(i) else Failure(LimitNegative)
    case _ => Failure(LimitNotLiteral)
  }
}
