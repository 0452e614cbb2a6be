/**
 * The children a grammar rule hands to its transformer method, and the
 * ways a rule method can fail on them.
 *
 * A rule method receives the already-transformed children of one parse-tree
 * node: terminal tokens, AST nodes built by the rules below it, Python lists
 * (from the list-building rules), the pair built by `range`, the operator
 * string built by `comp_op`, and `None` where an optional child is absent.
 */
module ParseItems {
  import opened Ast

  datatype Item =
    | Tok(kind: string, text: string)
    | ExprItem(e: Expr)
    | StmtItem(s: Stmt)
    | BlockItem(b: Block)
    | ParamItem(p: Parameter)
    | DeclItem(d: Declaration)
    | ClassItem(c: ClassDefinition)
    | SubroutineItem(sub: Subroutine)
    | MainItem(main: MainAlgorithm)
    | AlgorithmItem(alg: Algorithm)
    | ProgramItem(prog: Program)
    | ListItem(elems: seq<Item>)
    | PairItem(first: Expr, second: Expr)
    | StrItem(str: string)
    | NoneItem

  /** The token type of identifiers. */
  const CNAME := "CNAME"

  /**
   * MissingChild: the rule indexes a child that is not there (an IndexError).
   * WrongKind: a child is not of the kind the rule expects, so the source would
   *   fail on an attribute access or build an ill-typed node.
   * BadLiteral: a numeric token that `int()` rejects (a ValueError).
   */
  datatype ShapeError = MissingChild | WrongKind | BadLiteral

  datatype Result<+T> = Ok(value: T) | Err(error: ShapeError)

  /** `.value` of a token child. */
  function TokenText(it: Item): (r: Result<string>)
    ensures r.Ok? <==> it.Tok?
    ensures r.Ok? ==> r.value == it.text
  {
    if it.Tok? then Ok(it.text) else Err(WrongKind)
  }

  /** A child used where an expression is expected. */
  function AsExpr(it: Item): (r: Result<Expr>)
    ensures r.Ok? <==> it.ExprItem?
    ensures r.Ok? ==> it == ExprItem(r.value)
  {
    if it.ExprItem? then Ok(it.e) else Err(WrongKind)
  }

  predicate AllExprs(items: seq<Item>)
  {
    forall k :: 0 <= k < |items| ==> items[k].ExprItem?
  }

  function Wrap(es: seq<Expr>): (items: seq<Item>)
    ensures |items| == |es| && AllExprs(items)
    ensures forall k :: 0 <= k < |es| ==> items[k] == ExprItem(es[k])
  {
    seq(|es|, k requires 0 <= k < |es| => ExprItem(es[k]))
  }

  /** A list of children each used as an expression. */
  function AsExprs(items: seq<Item>): (r: Result<seq<Expr>>)
    ensures r.Ok? <==> AllExprs(items)
    ensures r.Ok? ==> |r.value| == |items| && Wrap(r.value) == items
    ensures r.Ok? ==> forall k :: 0 <= k < |items| ==> r.value[k] == items[k].e
  {
    if AllExprs(items) then
      var es := seq(|items|, k requires 0 <= k < |items| => items[k].e);
      assert Wrap(es) == items;
      Ok(es)
    else Err(WrongKind)
  }

  /** Wrapping expressions as children and reading them back gives the same expressions. */
  lemma AsExprsWrap(es: seq<Expr>)
    ensures AsExprs(Wrap(es)) == Ok(es)
  {
    var r := AsExprs(Wrap(es));
    assert r.value == es;
  }

  /** An operator child: a token or the string `comp_op` built; either reads as its text. */
  function OperatorText(it: Item): (r: Result<string>)
    ensures r.Ok? <==> it.Tok? || it.StrItem?
    ensures it.Tok? ==> r == Ok(it.text)
    ensures it.StrItem? ==> r == Ok(it.str)
  {
    match it
    case Tok(_, text) => Ok(text)
    case StrItem(s) => Ok(s)
    case _ => Err(WrongKind)
  }

  /** The pass-through rules (`start`, `statement`, `parameter`, `expression`, `atom`, `condition`) return their first child. */
  function FirstChild(items: seq<Item>): (r: Result<Item>)
    ensures r.Ok? <==> |items| > 0
    ensures r.Ok? ==> r.value == items[0]
  {
    if |items| == 0 then Err(MissingChild) else Ok(items[0])
  }
  /**
   * The values each child contributes, concatenated in child order: the shape
   * of every rule that walks its children appending or extending lists.
   */
  function Gather<T>(items: seq<Item>, f: Item -> seq<T>): seq<T>
  {
    if items == [] then [] else Gather(items[..|items| - 1], f) + f(items[|items| - 1])
  }

  /** Gathering over a concatenation gathers over each part. */
  lemma {:induction false} GatherAppend<T>(a: seq<Item>, b: seq<Item>, f: Item -> seq<T>)
    ensures Gather(a + b, f) == Gather(a, f) + Gather(b, f)
    decreases |b|
  {
    if b == [] {
      assert a + b == a;
    } else {
      var n := |b|;
      assert (a + b)[..|a + b| - 1] == a + b[..n - 1];
      GatherAppend(a, b[..n - 1], f);
    }
  }

  lemma GatherOne<T>(it: Item, f: Item -> seq<T>)
    ensures Gather([it], f) == f(it)
  {
    assert [it][..0] == [];
  }

  /** When every child contributes exactly one value, the gathered values are those, in order. */
  lemma {:induction false} GatherEach<T>(items: seq<Item>, f: Item -> seq<T>, xs: seq<T>)
    requires |xs| == |items|
    requires forall k :: 0 <= k < |items| ==> f(items[k]) == [xs[k]]
    ensures Gather(items, f) == xs
    decreases |items|
  {
    if items != [] {
      var n := |items|;
      GatherEach(items[..n - 1], f, xs[..n - 1]);
      assert xs[..n - 1] + [xs[n - 1]] == xs;
    }
  }

  /** Children that contribute nothing gather to nothing. */
  lemma {:induction false} GatherNone<T>(items: seq<Item>, f: Item -> seq<T>)
    requires forall k :: 0 <= k < |items| ==> f(items[k]) == []
    ensures Gather(items, f) == []
    decreases |items|
  {
    if items != [] {
      GatherNone(items[..|items| - 1], f);
    }
  }

  /** The value of the last child that carries one: a later child replaces an earlier one. */
  function Last<T>(items: seq<Item>, pick: Item -> Option<T>): (r: Option<T>)
    ensures r.None? <==> forall k :: 0 <= k < |items| ==> pick(items[k]).None?
    ensures r.Some? ==>
      exists k :: 0 <= k < |items| && pick(items[k]) == r && forall j :: k < j < |items| ==> pick(items[j]).None?
  {
    if items == [] then None
    else if pick(items[|items| - 1]).Some? then pick(items[|items| - 1])
    else Last(items[..|items| - 1], pick)
  }

  /** The last carrier in a concatenation is the second part's, if it has one, else the first part's. */
  lemma {:induction false} LastAppend<T>(a: seq<Item>, b: seq<Item>, pick: Item -> Option<T>)
    ensures Last(a + b, pick) == if Last(b, pick).Some? then Last(b, pick) else Last(a, pick)
    decreases |b|
  {
    if b == [] {
      assert a + b == a;
    } else {
      var n := |b|;
      assert (a + b)[..|a + b| - 1] == a + b[..n - 1];
      assert (a + b)[|a + b| - 1] == b[n - 1];
      LastAppend(a, b[..n - 1], pick);
    }
  }
}
