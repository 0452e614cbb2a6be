/**
 * Operator folding in the transformer: the left-associative chains
 * (`or`, `and`, comparisons, `+ -`, `* / mod div`), the right-associative
 * power chain, and the prefix operators `not` and unary sign.
 */
module Folding {
  import opened Ast
  import opened ParseItems

  /** One `operator operand` step of an operator chain. */
  datatype Link = Link(op: string, operand: Expr)

  /** An operator chain as the grammar lists it: the first operand, then the steps after it. */
  datatype Chain = Chain(first: Expr, links: seq<Link>)

  /** Left-associative reading: the last step is the root and the chain before it is its left operand. */
  function FoldLeft(c: Chain): Expr
    decreases |c.links|
  {
    if c.links == [] then c.first
    else
      var n := |c.links|;
      BinaryOp(c.links[n - 1].op, FoldLeft(Chain(c.first, c.links[..n - 1])), c.links[n - 1].operand)
  }

  /** Reads `n` operator nodes off the left spine of a tree, innermost first. */
  function UnfoldLeft(e: Expr, n: nat): Option<Chain>
  {
    if n == 0 then Some(Chain(e, []))
    else match e
      case BinaryOp(op, l, r) =>
        (match UnfoldLeft(l, n - 1)
         case Some(c) => Some(Chain(c.first, c.links + [Link(op, r)]))
         case None => None)
      case _ => None
  }

  /** A folded chain has exactly one operator node per step on its left spine, in source order. */
  lemma {:induction false} UnfoldFoldLeft(c: Chain)
    ensures UnfoldLeft(FoldLeft(c), |c.links|) == Some(c)
    decreases |c.links|
  {
    if c.links != [] {
      var n := |c.links|;
      UnfoldFoldLeft(Chain(c.first, c.links[..n - 1]));
      assert c.links[..n - 1] + [c.links[n - 1]] == c.links;
    }
  }

  /** Conversely, every tree with `n` operator nodes on its left spine is the fold of the chain read off it. */
  lemma {:induction false} FoldUnfoldLeft(e: Expr, n: nat)
    requires UnfoldLeft(e, n).Some?
    ensures |UnfoldLeft(e, n).value.links| == n
    ensures FoldLeft(UnfoldLeft(e, n).value) == e
  {
    if n > 0 {
      FoldUnfoldLeft(e.left, n - 1);
      var inner := UnfoldLeft(e.left, n - 1).value;
      var c := UnfoldLeft(e, n).value;
      assert c.links[..n - 1] == inner.links;
    }
  }

  /** The same operator repeated over the given operands. */
  function Uniform(op: string, operands: seq<Expr>): (links: seq<Link>)
    ensures |links| == |operands|
    ensures forall k :: 0 <= k < |links| ==> links[k] == Link(op, operands[k])
  {
    seq(|operands|, k requires 0 <= k < |operands| => Link(op, operands[k]))
  }

  /** logical_or and logical_and: all operands folded to the left under one fixed operator. */
  function SameOperatorChain(op: string, items: seq<Item>): (r: Result<Expr>)
    ensures r.Ok? <==> |items| > 0 && AllExprs(items)
    ensures |items| == 1 && items[0].ExprItem? ==> r == Ok(items[0].e)
  {
    if |items| == 0 then Err(MissingChild)
    else match AsExprs(items)
      case Ok(es) => Ok(FoldLeft(Chain(es[0], Uniform(op, es[1..]))))
      case Err(x) => Err(x)
  }

  /** Wrapped operands always form a chain: the left fold of the first operand and the uniform steps after it. */
  lemma SameOperatorChainOfWrap(op: string, es: seq<Expr>)
    requires |es| >= 1
    ensures SameOperatorChain(op, Wrap(es)) == Ok(FoldLeft(Chain(es[0], Uniform(op, es[1..]))))
  {
    AsExprsWrap(es);
  }

  /**
   * The operands `first` and `rest` give a left-nested tree with one node
   * carrying `op` per operand in `rest`, whose innermost node joins `first`
   * and the first of `rest`; a lone operand comes back unchanged.
   */
  lemma SameOperatorChainShape(op: string, first: Expr, rest: seq<Expr>)
    ensures SameOperatorChain(op, Wrap([first] + rest)) == Ok(FoldLeft(Chain(first, Uniform(op, rest))))
    ensures UnfoldLeft(FoldLeft(Chain(first, Uniform(op, rest))), |rest|) == Some(Chain(first, Uniform(op, rest)))
    ensures SameOperatorChain(op, Wrap([first])) == Ok(first)
  {
    var es := [first] + rest;
    assert es[0] == first && es[1..] == rest;
    SameOperatorChainOfWrap(op, es);
    UnfoldFoldLeft(Chain(first, Uniform(op, rest)));
    SameOperatorChainOfWrap(op, [first]);
    assert [first][1..] == [];
  }

  /** A child that is not an expression makes the chain malformed. */
  lemma SameOperatorChainRejects(op: string, items: seq<Item>, k: nat)
    requires k < |items| && !items[k].ExprItem?
    ensures SameOperatorChain(op, items) == Err(WrongKind)
  {
  }

  /** The accumulator loop of logical_or (op `or`) and logical_and (op `and`). */
  method FoldSameOperator(op: string, items: seq<Item>) returns (r: Result<Expr>)
    ensures r == SameOperatorChain(op, items)
  {
    if |items| == 0 {
      return Err(MissingChild);
    }
    var operands := AsExprs(items);
    if operands.Err? {
      return Err(operands.error);
    }
    var es := operands.value;
    if |es| == 1 {
      return Ok(es[0]);
    }
    var acc := es[0];
    for i := 1 to |es|
      invariant acc == FoldLeft(Chain(es[0], Uniform(op, es[1..i])))
    {
      assert Uniform(op, es[1..i + 1])[..i - 1] == Uniform(op, es[1..i]);
      acc := BinaryOp(op, acc, es[i]);
    }
    assert es[1..|es|] == es[1..];
    return Ok(acc);
  }

  /** The steps of an alternating `operand (operator operand)*` child list from index `i`; an unpaired last child is ignored. */
  function LinksFrom(items: seq<Item>, i: nat): Result<seq<Link>>
    decreases |items| - i
  {
    if i + 1 < |items| then
      match (OperatorText(items[i]), AsExpr(items[i + 1]))
      case (Ok(op), Ok(e)) =>
        (match LinksFrom(items, i + 2)
         case Ok(rest) => Ok([Link(op, e)] + rest)
         case Err(x) => Err(x))
      case (Err(x), _) => Err(x)
      case (_, Err(x)) => Err(x)
    else Ok([])
  }

  /** comparison, arithmetic and term: the alternating child list folded to the left. */
  function AlternatingChain(items: seq<Item>): (r: Result<Expr>)
    ensures r.Ok? ==> |items| > 0 && items[0].ExprItem?
    ensures 0 < |items| <= 2 ==> r == AsExpr(items[0])
  {
    if |items| == 0 then Err(MissingChild)
    else match (AsExpr(items[0]), LinksFrom(items, 1))
      case (Ok(first), Ok(links)) => Ok(FoldLeft(Chain(first, links)))
      case (Err(x), _) => Err(x)
      case (_, Err(x)) => Err(x)
  }

  /** Children laid out as `first op1 e1 ... opn en`, with or without one trailing extra child. */
  ghost predicate ChainLayout(items: seq<Item>, c: Chain)
  {
    && (|items| == 1 + 2 * |c.links| || |items| == 2 + 2 * |c.links|)
    && items[0] == ExprItem(c.first)
    && forall k :: 0 <= k < |c.links| ==>
         OperatorText(items[1 + 2 * k]) == Ok(c.links[k].op) &&
         items[2 + 2 * k] == ExprItem(c.links[k].operand)
  }

  lemma {:induction false} LinksFromLayout(items: seq<Item>, i: nat, links: seq<Link>)
    requires |items| == i + 2 * |links| || |items| == i + 1 + 2 * |links|
    requires forall k :: 0 <= k < |links| ==>
      OperatorText(items[i + 2 * k]) == Ok(links[k].op) && items[i + 1 + 2 * k] == ExprItem(links[k].operand)
    ensures LinksFrom(items, i) == Ok(links)
    decreases |links|
  {
    if links != [] {
      assert OperatorText(items[i]) == Ok(links[0].op) && items[i + 1] == ExprItem(links[0].operand);
      forall k | 0 <= k < |links[1..]|
        ensures OperatorText(items[i + 2 + 2 * k]) == Ok(links[1..][k].op)
        ensures items[i + 2 + 1 + 2 * k] == ExprItem(links[1..][k].operand)
      {
        assert links[1..][k] == links[k + 1];
        assert i + 2 * (k + 1) == i + 2 + 2 * k;
      }
      LinksFromLayout(items, i + 2, links[1..]);
      assert [links[0]] + links[1..] == links;
    }
  }

  /**
   * Folding an alternating child list builds the left-nested tree of its chain
   * (`a + b + c` is `(a + b) + c`); a trailing unpaired child changes nothing.
   */
  lemma AlternatingChainOfLayout(items: seq<Item>, c: Chain)
    requires ChainLayout(items, c)
    ensures AlternatingChain(items) == Ok(FoldLeft(c))
  {
    forall k | 0 <= k < |c.links|
      ensures OperatorText(items[1 + 2 * k]) == Ok(c.links[k].op)
      ensures items[1 + 1 + 2 * k] == ExprItem(c.links[k].operand)
    {
    }
    LinksFromLayout(items, 1, c.links);
  }

  /** `a + b + c` folds to `(a + b) + c`. */
  lemma ArithmeticLeftAssociative(a: Expr, b: Expr, c: Expr)
    ensures AlternatingChain([ExprItem(a), Tok("ADD_OP", "+"), ExprItem(b), Tok("ADD_OP", "+"), ExprItem(c)])
              == Ok(BinaryOp("+", BinaryOp("+", a, b), c))
  {
    var ch := Chain(a, [Link("+", b), Link("+", c)]);
    var items := [ExprItem(a), Tok("ADD_OP", "+"), ExprItem(b), Tok("ADD_OP", "+"), ExprItem(c)];
    assert ChainLayout(items, ch) by {
      forall k | 0 <= k < |ch.links|
        ensures OperatorText(items[1 + 2 * k]) == Ok(ch.links[k].op)
        ensures items[2 + 2 * k] == ExprItem(ch.links[k].operand)
      {
        assert k == 0 || k == 1;
      }
    }
    AlternatingChainOfLayout(items, ch);
    assert ch.links[..1] == [Link("+", b)];
    assert FoldLeft(Chain(a, [Link("+", b)])) == BinaryOp("+", a, b) by {
      assert [Link("+", b)][..0] == [];
    }
  }

  function Prepend(done: seq<Link>, rest: Result<seq<Link>>): Result<seq<Link>>
  {
    match rest
    case Ok(links) => Ok(done + links)
    case Err(x) => Err(x)
  }

  /** Before the loop: nothing is folded yet and every step is still to come. */
  lemma AlternatingStart(items: seq<Item>)
    ensures LinksFrom(items, 1) == Prepend([], LinksFrom(items, 1))
  {
    match LinksFrom(items, 1) {
      case Ok(links) => assert [] + links == links;
      case Err(_) =>
    }
  }

  /** One step of the loop: the operator and operand at `i` join the folded steps. */
  lemma AlternatingStep(items: seq<Item>, i: nat, done: seq<Link>, link: Link)
    requires i + 1 < |items|
    requires OperatorText(items[i]) == Ok(link.op) && AsExpr(items[i + 1]) == Ok(link.operand)
    requires LinksFrom(items, 1) == Prepend(done, LinksFrom(items, i))
    ensures LinksFrom(items, 1) == Prepend(done + [link], LinksFrom(items, i + 2))
  {
    match LinksFrom(items, i + 2) {
      case Ok(rest) => assert done + [link] + rest == done + ([link] + rest);
      case Err(_) =>
    }
  }

  /** Folding one more step puts a new root over the fold so far. */
  lemma FoldLeftSnoc(first: Expr, done: seq<Link>, link: Link)
    ensures FoldLeft(Chain(first, done + [link])) == BinaryOp(link.op, FoldLeft(Chain(first, done)), link.operand)
  {
    assert (done + [link])[..|done|] == done;
  }

  /** A malformed step at `i` makes the whole chain malformed with its error. */
  lemma AlternatingError(items: seq<Item>, i: nat, done: seq<Link>, first: Expr)
    requires |items| > 0 && AsExpr(items[0]) == Ok(first)
    requires LinksFrom(items, 1) == Prepend(done, LinksFrom(items, i))
    requires LinksFrom(items, i).Err?
    ensures AlternatingChain(items) == Err(LinksFrom(items, i).error)
  {
  }

  /** The `while i < len(items)` loop, two children per step, of comparison, arithmetic and term. */
  method FoldAlternating(items: seq<Item>) returns (r: Result<Expr>)
    ensures r == AlternatingChain(items)
  {
    if |items| == 0 {
      return Err(MissingChild);
    }
    var head := AsExpr(items[0]);
    if head.Err? {
      return Err(head.error);
    }
    if |items| == 1 {
      return Ok(head.value);
    }
    var acc := head.value;
    ghost var done: seq<Link> := [];
    var i := 1;
    AlternatingStart(items);
    while i < |items|
      invariant 1 <= i
      invariant LinksFrom(items, 1) == Prepend(done, LinksFrom(items, i))
      invariant acc == FoldLeft(Chain(head.value, done))
      decreases |items| - i
    {
      if i + 1 < |items| {
        var op := OperatorText(items[i]);
        var right := AsExpr(items[i + 1]);
        if op.Err? {
          AlternatingError(items, i, done, head.value);
          return Err(op.error);
        }
        if right.Err? {
          AlternatingError(items, i, done, head.value);
          return Err(right.error);
        }
        var link := Link(op.value, right.value);
        AlternatingStep(items, i, done, link);
        FoldLeftSnoc(head.value, done, link);
        acc := BinaryOp(op.value, acc, right.value);
        done := done + [link];
        i := i + 2;
      } else {
        break;
      }
    }
    assert LinksFrom(items, i) == Ok([]);
    assert done + [] == done;
    return Ok(acc);
  }

  /** Right-associative reading of a power chain: the first atom is the base of the power of the rest. */
  function FoldRight(atoms: seq<Expr>): Expr
    requires |atoms| >= 1
    decreases |atoms|
  {
    if |atoms| == 1 then atoms[0] else BinaryOp("^", atoms[0], FoldRight(atoms[1..]))
  }

  /** Reads `n` power nodes off the right spine of a tree. */
  function UnfoldRight(e: Expr, n: nat): Option<seq<Expr>>
  {
    if n == 0 then Some([e])
    else match e
      case BinaryOp(op, l, r) =>
        if op != "^" then None
        else (match UnfoldRight(r, n - 1)
              case Some(rest) => Some([l] + rest)
              case None => None)
      case _ => None
  }

  /** A folded power chain has one `^` node per pair of neighbouring atoms, on its right spine. */
  lemma {:induction false} UnfoldFoldRight(atoms: seq<Expr>)
    requires |atoms| >= 1
    ensures UnfoldRight(FoldRight(atoms), |atoms| - 1) == Some(atoms)
  {
    if |atoms| > 1 {
      UnfoldFoldRight(atoms[1..]);
      assert [atoms[0]] + atoms[1..] == atoms;
    } else {
      assert [atoms[0]] == atoms;
    }
  }

  /** Conversely, a tree with `n` power nodes on its right spine is the fold of the atoms read off it. */
  lemma {:induction false} FoldUnfoldRight(e: Expr, n: nat)
    requires UnfoldRight(e, n).Some?
    ensures |UnfoldRight(e, n).value| == n + 1
    ensures FoldRight(UnfoldRight(e, n).value) == e
  {
    if n > 0 {
      FoldUnfoldRight(e.right, n - 1);
      var atoms := UnfoldRight(e, n).value;
      assert atoms[1..] == UnfoldRight(e.right, n - 1).value;
    }
  }

  /** power: the atoms folded to the right under `^`. */
  function PowerChain(items: seq<Item>): (r: Result<Expr>)
    ensures r.Ok? <==> |items| > 0 && AllExprs(items)
    ensures |items| == 1 && items[0].ExprItem? ==> r == Ok(items[0].e)
  {
    if |items| == 0 then Err(MissingChild)
    else match AsExprs(items)
      case Ok(es) => Ok(FoldRight(es))
      case Err(x) => Err(x)
  }

  /** `a ^ b ^ c` folds to `a ^ (b ^ c)`. */
  lemma PowerRightAssociative(a: Expr, b: Expr, c: Expr)
    ensures PowerChain([ExprItem(a), ExprItem(b), ExprItem(c)]) == Ok(BinaryOp("^", a, BinaryOp("^", b, c)))
  {
    var items := [ExprItem(a), ExprItem(b), ExprItem(c)];
    assert Wrap([a, b, c]) == items;
    AsExprsWrap([a, b, c]);
    assert PowerChain(items) == Ok(FoldRight([a, b, c]));
    assert [a, b, c][1..] == [b, c];
    assert [b, c][1..] == [c];
    assert FoldRight([b, c]) == BinaryOp("^", b, c);
    assert FoldRight([a, b, c]) == BinaryOp("^", a, FoldRight([b, c]));
  }

  /** The downward loop of power. */
  method Power(items: seq<Item>) returns (r: Result<Expr>)
    ensures r == PowerChain(items)
  {
    if |items| == 0 {
      return Err(MissingChild);
    }
    var operands := AsExprs(items);
    if operands.Err? {
      return Err(operands.error);
    }
    var es := operands.value;
    if |es| == 1 {
      return Ok(es[0]);
    }
    var acc := es[|es| - 1];
    var i := |es| - 2;
    while i >= 0
      invariant -1 <= i <= |es| - 2
      invariant acc == FoldRight(es[i + 1..])
    {
      assert es[i..][1..] == es[i + 1..];
      acc := BinaryOp("^", es[i], acc);
      i := i - 1;
    }
    return Ok(acc);
  }

  /**
   * logical_not as the source writes it: with two children it wraps the FIRST
   * child, which is the `not` keyword, so the negated operand is lost (the
   * source builds a UnaryOp around the keyword token; here that ill-typed node
   * is the WrongKind error).
   */
  function LogicalNotAsWritten(items: seq<Item>): (r: Result<Expr>)
    ensures |items| == 1 ==> r == AsExpr(items[0])
    ensures |items| >= 2 ==> (r.Ok? <==> items[0].ExprItem?)
    ensures |items| >= 2 && r.Ok? ==> r.value.UnaryOp? && r.value.operand == items[0].e
  {
    if |items| == 1 then AsExpr(items[0])
    else if |items| == 0 then Err(MissingChild)
    else match AsExpr(items[0])
      case Ok(e) => Ok(UnaryOp("not", e))
      case Err(x) => Err(x)
  }

  /** `not x` never becomes the negation of `x`, whether or not the keyword reaches the rule. */
  lemma LogicalNotAsWrittenDropsNegation(keyword: Item, x: Expr)
    requires keyword.Tok?
    ensures LogicalNotAsWritten([keyword, ExprItem(x)]) != Ok(UnaryOp("not", x))
    ensures LogicalNotAsWritten([ExprItem(x)]) == Ok(x)
  {
  }

  /** logical_not, corrected: the operand is the last child, after the keyword. */
  function LogicalNot(items: seq<Item>): (r: Result<Expr>)
    ensures |items| == 1 ==> r == AsExpr(items[0])
    ensures |items| >= 2 && items[|items| - 1].ExprItem? ==> r == Ok(UnaryOp("not", items[|items| - 1].e))
  {
    if |items| == 0 then Err(MissingChild)
    else if |items| == 1 then AsExpr(items[0])
    else match AsExpr(items[|items| - 1])
      case Ok(e) => Ok(UnaryOp("not", e))
      case Err(x) => Err(x)
  }

  /** `not not x` nests two negations around `x`. */
  lemma DoubleNegation(keyword: Item, x: Expr)
    ensures LogicalNot([keyword, ExprItem(x)]) == Ok(UnaryOp("not", x))
    ensures LogicalNot([keyword, ExprItem(UnaryOp("not", x))]) == Ok(UnaryOp("not", UnaryOp("not", x)))
  {
  }

  /** factor: a sign token and its operand become a unary operation; a lone child passes through. */
  function Factor(items: seq<Item>): (r: Result<Expr>)
    ensures |items| == 0 ==> r == Err(MissingChild)
    ensures |items| == 1 ==> r == AsExpr(items[0])
    ensures |items| >= 2 ==>
      (r.Ok? <==> (items[0].Tok? || items[0].StrItem?) && items[1].ExprItem?)
    ensures |items| >= 2 && r.Ok? ==>
      r.value.UnaryOp? && OperatorText(items[0]) == Ok(r.value.op) && items[1] == ExprItem(r.value.operand)
  {
    if |items| == 0 then Err(MissingChild)
    else if |items| == 1 then AsExpr(items[0])
    else match (OperatorText(items[0]), AsExpr(items[1]))
      case (Ok(op), Ok(e)) => Ok(UnaryOp(op, e))
      case (Err(x), _) => Err(x)
      case (_, Err(x)) => Err(x)
  }
}
