/**
 * The classifier on the subroutines the repository's classifier tests use:
 * a recursive factorial, a simplified merge sort, a greedy coin change, a
 * knapsack table fill and a plain sum.
 */
module Scenarios {
  import opened Ast
  import opened Text
  import opened LoopScan
  import opened RecursionScan
  import opened Classifier

  function V(name: string): Expr
  {
    Var(Variable(name, Bare))
  }

  function At(name: string, index: Expr): Variable
  {
    Variable(name, Indexed([index]))
  }

  function N(n: nat): Expr
  {
    Number(IntLit(n))
  }

  function Param(name: string): Parameter
  {
    Parameter(name, SimpleParam)
  }

  /** The fields of a subroutine report, in terms of its body. */
  lemma ReportFields(sub: Subroutine)
    ensures var r := SubroutineReportOf(sub);
      && r.loopCount == LoopCount(sub.body) && r.maxNesting == LoopDepth(sub.body)
      && r.loopKinds == LoopKinds(sub.body) && r.recursiveCalls == MatchCount(sub.name, sub.body)
      && r.recursivePositions == Positions(sub.name, sub.body, BodyTrail)
      && r.kind == Category(MatchCount(sub.name, sub.body) > 0, LoopCount(sub.body) > 0)
      && r.parameters == ParameterNames(sub.parameters)
  {
  }

  /** return 1 */
  function FactorialThen(): Stmt
  {
    ReturnStatement(N(1))
  }

  /** return n * factorial(n - 1) */
  function FactorialElse(): Stmt
  {
    ReturnStatement(BinaryOp("*", V("n"), FunctionCall("factorial", [BinaryOp("-", V("n"), N(1))])))
  }

  /** if (n = 0) then return 1 else return n * factorial(n - 1) */
  function FactorialIf(): Stmt
  {
    IfStatement(BinaryOp("=", V("n"), N(0)), Block([FactorialThen()]), Some(Block([FactorialElse()])))
  }

  /** factorial(n): the conditional above and nothing else. */
  function Factorial(): Subroutine
  {
    Subroutine("factorial", [Param("n")], [], [FactorialIf()])
  }

  lemma FactorialThenFacts()
    ensures LoopCount([FactorialThen()]) == 0 && MatchCount("factorial", [FactorialThen()]) == 0
    ensures Positions("factorial", [FactorialThen()], "body[0].then") == []
  {
    Single("factorial", FactorialThen());
    SinglePositions("factorial", FactorialThen(), "body[0].then");
  }

  lemma FactorialElseFacts()
    ensures LoopCount([FactorialElse()]) == 0 && MatchCount("factorial", [FactorialElse()]) == 1
    ensures Positions("factorial", [FactorialElse()], "body[0].else") == ["body[0].else[0].return"]
  {
    var f := "factorial";
    var e := FactorialElse();
    assert ExprContainsCall(f, e.value) by {
      assert e.value.right.name == f;
    }
    Single(f, e);
    SinglePositions(f, e, "body[0].else");
    assert Slot("body[0].else", 0) == "body[0].else[0]" by {
      assert NatToString(0) == "0";
    }
    assert "body[0].else[0]" + ".return" == "body[0].else[0].return";
  }

  /** The conditional's one match is the return of its else branch. */
  lemma FactorialIfFacts()
    ensures StmtLoopCount(FactorialIf()) == 0 && StmtMatchCount("factorial", FactorialIf()) == 1
    ensures StmtPositions("factorial", FactorialIf(), "body[0]") == ["body[0].else[0].return"]
  {
    var ifs := FactorialIf();
    FactorialThenFacts();
    FactorialElseFacts();
    assert !ExprContainsCall("factorial", ifs.cond);
    assert "body[0]" + ".else" == "body[0].else" && "body[0]" + ".then" == "body[0].then";
    assert StmtPositions("factorial", ifs, "body[0]") == [] + [] + ["body[0].else[0].return"];
  }

  /** The factorial's one self-call is in the return of the else branch; it is recursive without loops. */
  lemma FactorialIsRecursive()
    ensures SubroutineReportOf(Factorial()).recursivePositions == ["body[0].else[0].return"]
    ensures SubroutineReportOf(Factorial()).recursiveCalls == 1
    ensures SubroutineReportOf(Factorial()).loopCount == 0
    ensures SubroutineReportOf(Factorial()).kind == Recursive
  {
    FactorialIfFacts();
    Single("factorial", FactorialIf());
    SinglePositions("factorial", FactorialIf(), BodyTrail);
    assert Slot("body", 0) == "body[0]" by {
      assert NatToString(0) == "0";
    }
    ReportFields(Factorial());
  }

  /** A list of one statement counts, records and nests what that statement does. */
  lemma Single(f: string, s: Stmt)
    ensures LoopCount([s]) == StmtLoopCount(s) && LoopKinds([s]) == StmtLoopKinds(s)
    ensures LoopDepth([s]) == StmtLoopDepth(s) && MatchCount(f, [s]) == StmtMatchCount(f, s)
  {
    assert [s][..0] == [];
  }

  /** The one statement of a list is trailed at index 0. */
  lemma SinglePositions(f: string, s: Stmt, prefix: string)
    ensures Positions(f, [s], prefix) == StmtPositions(f, s, Slot(prefix, 0))
  {
    assert [s][..0] == [];
  }

  /** Two statements add their loops and matches; nesting is the deeper of the two. */
  lemma Pair(f: string, a: Stmt, b: Stmt)
    ensures LoopCount([a, b]) == StmtLoopCount(a) + StmtLoopCount(b)
    ensures LoopKinds([a, b]) == StmtLoopKinds(a) + StmtLoopKinds(b)
    ensures LoopDepth([a, b]) == Max(StmtLoopDepth(a), StmtLoopDepth(b))
    ensures MatchCount(f, [a, b]) == StmtMatchCount(f, a) + StmtMatchCount(f, b)
  {
    assert [a, b][..1] == [a];
    Single(f, a);
  }

  lemma Triple(f: string, a: Stmt, b: Stmt, c: Stmt)
    ensures LoopCount([a, b, c]) == StmtLoopCount(a) + StmtLoopCount(b) + StmtLoopCount(c)
    ensures LoopKinds([a, b, c]) == StmtLoopKinds(a) + StmtLoopKinds(b) + StmtLoopKinds(c)
    ensures LoopDepth([a, b, c]) == Max(Max(StmtLoopDepth(a), StmtLoopDepth(b)), StmtLoopDepth(c))
    ensures MatchCount(f, [a, b, c]) == StmtMatchCount(f, a) + StmtMatchCount(f, b) + StmtMatchCount(f, c)
  {
    assert [a, b, c][..2] == [a, b];
    Pair(f, a, b);
  }

  lemma Quad(f: string, a: Stmt, b: Stmt, c: Stmt, d: Stmt)
    ensures LoopCount([a, b, c, d]) == StmtLoopCount(a) + StmtLoopCount(b) + StmtLoopCount(c) + StmtLoopCount(d)
    ensures LoopKinds([a, b, c, d]) == StmtLoopKinds(a) + StmtLoopKinds(b) + StmtLoopKinds(c) + StmtLoopKinds(d)
    ensures MatchCount(f, [a, b, c, d]) == StmtMatchCount(f, a) + StmtMatchCount(f, b) + StmtMatchCount(f, c) + StmtMatchCount(f, d)
  {
    assert [a, b, c, d][..3] == [a, b, c];
    Triple(f, a, b, c);
  }

  /** for i := inicio to fin do arr[i] := arr[i] + 1 */
  function MergeSortLoop(): Stmt
  {
    ForLoop("i", V("inicio"), V("fin"), Block([
      Assignment(At("arr", V("i")), BinaryOp("+", Var(At("arr", V("i"))), N(1)))
    ]))
  }

  /** medio := (inicio + fin) div 2; call mergeSort(arr, inicio, medio); call mergeSort(arr, medio + 1, fin); then the loop. */
  function MergeSortThen(): seq<Stmt>
  {
    [
      Assignment(Variable("medio", Bare), BinaryOp("div", BinaryOp("+", V("inicio"), V("fin")), N(2))),
      CallStatement("mergeSort", [V("arr"), V("inicio"), V("medio")]),
      CallStatement("mergeSort", [V("arr"), BinaryOp("+", V("medio"), N(1)), V("fin")]),
      MergeSortLoop()
    ]
  }

  /** mergeSort(arr, inicio, fin): if (inicio < fin) then the steps above. */
  function MergeSort(): Subroutine
  {
    Subroutine("mergeSort", [Param("arr"), Param("inicio"), Param("fin")], [], [
      IfStatement(BinaryOp("<", V("inicio"), V("fin")), Block(MergeSortThen()), None)
    ])
  }

  lemma MergeSortLoopFacts()
    ensures StmtLoopCount(MergeSortLoop()) == 1 && StmtLoopKinds(MergeSortLoop()) == {For}
    ensures StmtMatchCount("mergeSort", MergeSortLoop()) == 0
  {
    var assign := MergeSortLoop().body.statements[0];
    assert !ExprContainsCall("mergeSort", assign.value) by {
      assert !ExprContainsCall("mergeSort", Var(At("arr", V("i"))));
    }
    Single("mergeSort", assign);
  }

  lemma MergeSortThenFacts()
    ensures LoopCount(MergeSortThen()) == 1 && LoopKinds(MergeSortThen()) == {For}
    ensures MatchCount("mergeSort", MergeSortThen()) == 2
  {
    var t := MergeSortThen();
    MergeSortLoopFacts();
    Quad("mergeSort", t[0], t[1], t[2], t[3]);
    assert t == [t[0], t[1], t[2], t[3]];
  }

  /** The merge sort has two self-calls and one loop, so it is hybrid. */
  lemma MergeSortIsHybrid()
    ensures SubroutineReportOf(MergeSort()).recursiveCalls == 2
    ensures SubroutineReportOf(MergeSort()).loopCount == 1
    ensures SubroutineReportOf(MergeSort()).loopKinds == {For}
    ensures SubroutineReportOf(MergeSort()).kind == Hybrid
  {
    MergeSortThenFacts();
    Single("mergeSort", MergeSort().body[0]);
    assert MergeSort().body == [MergeSort().body[0]];
    ReportFields(MergeSort());
  }

  /** The body of the coin change's while loop: three assignments. */
  function CoinChangeInner(): seq<Stmt>
  {
    [
      Assignment(Variable("monto", Bare), BinaryOp("-", V("monto"), Var(At("monedas", V("i"))))),
      Assignment(At("resultado", V("contador")), Var(At("monedas", V("i")))),
      Assignment(Variable("contador", Bare), BinaryOp("+", V("contador"), N(1)))
    ]
  }

  /** for i := n to 1 do while (monto >= monedas[i]) do ... */
  function CoinChangeLoop(): Stmt
  {
    ForLoop("i", V("n"), N(1), Block([
      WhileLoop(BinaryOp(">=", V("monto"), Var(At("monedas", V("i")))), Block(CoinChangeInner()))
    ]))
  }

  /**
   * cambioMonedas(monto, monedas, n): a while loop inside a for loop, no
   * self-call.
   */
  function CoinChange(): Subroutine
  {
    Subroutine("cambioMonedas", [Param("monto"), Param("monedas"), Param("n")],
      [Declaration("resultado", ArrayDecl(N(100)))], [
      Assignment(Variable("contador", Bare), N(0)),
      CoinChangeLoop(),
      ReturnStatement(V("contador"))
    ])
  }

  lemma CoinChangeInnerFacts()
    ensures LoopCount(CoinChangeInner()) == 0 && LoopDepth(CoinChangeInner()) == 0
    ensures LoopKinds(CoinChangeInner()) == {} && MatchCount("cambioMonedas", CoinChangeInner()) == 0
  {
    var f := "cambioMonedas";
    var wb := CoinChangeInner();
    assert !ExprContainsCall(f, wb[0].value) && !ExprContainsCall(f, wb[1].value) && !ExprContainsCall(f, wb[2].value);
    Triple(f, wb[0], wb[1], wb[2]);
    assert wb == [wb[0], wb[1], wb[2]];
  }

  lemma CoinChangeLoopFacts()
    ensures StmtLoopCount(CoinChangeLoop()) == 2 && StmtLoopDepth(CoinChangeLoop()) == 2
    ensures StmtLoopKinds(CoinChangeLoop()) == {For, While} && StmtMatchCount("cambioMonedas", CoinChangeLoop()) == 0
  {
    var w := CoinChangeLoop().body.statements[0];
    CoinChangeInnerFacts();
    Single("cambioMonedas", w);
  }

  lemma CoinChangeBodyFacts()
    ensures LoopCount(CoinChange().body) == 2 && LoopDepth(CoinChange().body) == 2
    ensures LoopKinds(CoinChange().body) == {For, While} && MatchCount("cambioMonedas", CoinChange().body) == 0
  {
    var f := "cambioMonedas";
    var b := CoinChange().body;
    CoinChangeLoopFacts();
    assert !ExprContainsCall(f, b[0].value) && !ExprContainsCall(f, b[2].value);
    Triple(f, b[0], b[1], b[2]);
    assert b == [b[0], b[1], b[2]];
  }

  /** The coin change is iterative: a for and a while, nested two deep. */
  lemma CoinChangeIsIterative()
    ensures SubroutineReportOf(CoinChange()).loopCount == 2
    ensures SubroutineReportOf(CoinChange()).maxNesting == 2
    ensures SubroutineReportOf(CoinChange()).loopKinds == {For, While}
    ensures SubroutineReportOf(CoinChange()).kind == Iterative
  {
    CoinChangeBodyFacts();
    ReportFields(CoinChange());
  }

  /** if (i = 0) then dp[i] := 0 else dp[i] := valores[i] */
  function KnapsackChoice(): Stmt
  {
    IfStatement(BinaryOp("=", V("i"), N(0)),
      Block([Assignment(At("dp", V("i")), N(0))]),
      Some(Block([Assignment(At("dp", V("i")), Var(At("valores", V("i"))))])))
  }

  /** for i := 0 to n do for w := 0 to capacidad do ... */
  function KnapsackLoops(): Stmt
  {
    ForLoop("i", N(0), V("n"), Block([
      ForLoop("w", N(0), V("capacidad"), Block([KnapsackChoice()]))
    ]))
  }

  /**
   * mochila(pesos, valores, n, capacidad): two nested for loops around an
   * if, and a return of the table entry.
   */
  function Knapsack(): Subroutine
  {
    Subroutine("mochila", [Param("pesos"), Param("valores"), Param("n"), Param("capacidad")],
      [Declaration("dp", ArrayDecl(N(100)))], [
      KnapsackLoops(),
      ReturnStatement(Var(At("dp", V("n"))))
    ])
  }

  lemma KnapsackChoiceFacts()
    ensures StmtLoopCount(KnapsackChoice()) == 0 && StmtLoopDepth(KnapsackChoice()) == 0
    ensures StmtMatchCount("mochila", KnapsackChoice()) == 0
  {
    var f := "mochila";
    var ifs := KnapsackChoice();
    var thenStmt := ifs.thenBlock.statements[0];
    var elseStmt := ifs.elseBlock.value.statements[0];
    assert !ExprContainsCall(f, ifs.cond) && !ExprContainsCall(f, thenStmt.value) && !ExprContainsCall(f, elseStmt.value);
    Single(f, thenStmt);
    Single(f, elseStmt);
  }

  lemma KnapsackLoopsFacts()
    ensures StmtLoopCount(KnapsackLoops()) == 2 && StmtLoopDepth(KnapsackLoops()) == 2
    ensures StmtMatchCount("mochila", KnapsackLoops()) == 0
  {
    var inner := KnapsackLoops().body.statements[0];
    KnapsackChoiceFacts();
    Single("mochila", KnapsackChoice());
    Single("mochila", inner);
  }

  lemma KnapsackBodyFacts()
    ensures LoopCount(Knapsack().body) == 2 && LoopDepth(Knapsack().body) == 2
    ensures MatchCount("mochila", Knapsack().body) == 0
  {
    var f := "mochila";
    var b := Knapsack().body;
    KnapsackLoopsFacts();
    assert !ExprContainsCall(f, b[1].value);
    Pair(f, b[0], b[1]);
    assert b == [b[0], b[1]];
  }

  /** The knapsack fill is iterative with nesting level 2: the `if` inside adds no level. */
  lemma KnapsackNestsTwo()
    ensures SubroutineReportOf(Knapsack()).maxNesting == 2
    ensures SubroutineReportOf(Knapsack()).loopCount == 2
    ensures SubroutineReportOf(Knapsack()).kind == Iterative
  {
    KnapsackBodyFacts();
    ReportFields(Knapsack());
  }

  /** sumar(a, b): resultado := a + b; return resultado. */
  function Sum(): Subroutine
  {
    Subroutine("sumar", [Param("a"), Param("b")], [], [
      Assignment(Variable("resultado", Bare), BinaryOp("+", V("a"), V("b"))),
      ReturnStatement(V("resultado"))
    ])
  }

  lemma SumBodyFacts()
    ensures LoopCount(Sum().body) == 0 && MatchCount("sumar", Sum().body) == 0
  {
    var b := Sum().body;
    assert !ExprContainsCall("sumar", b[0].value) && !ExprContainsCall("sumar", b[1].value);
    Pair("sumar", b[0], b[1]);
    assert b == [b[0], b[1]];
  }

  /** The sum has neither loops nor self-calls: simple. */
  lemma SumIsSimple()
    ensures SubroutineReportOf(Sum()).kind == Simple
    ensures SubroutineReportOf(Sum()).parameters == ["a", "b"]
  {
    SumBodyFacts();
    ReportFields(Sum());
  }

  /** Self-calls in for bounds, loop conditions and call arguments are not counted. */
  lemma UnsearchedPlaces(f: string, g: string, v: string, body: Block)
    requires f != g && MatchCount(f, body.statements) == 0
    ensures MatchCount(f, [ForLoop(v, FunctionCall(f, []), FunctionCall(f, []), body)]) == 0
    ensures MatchCount(f, [WhileLoop(FunctionCall(f, []), body)]) == 0
    ensures MatchCount(f, [RepeatLoop(body.statements, FunctionCall(f, []))]) == 0
    ensures MatchCount(f, [CallStatement(g, [FunctionCall(f, [])])]) == 0
  {
    assert [ForLoop(v, FunctionCall(f, []), FunctionCall(f, []), body)][..0] == [];
    assert [WhileLoop(FunctionCall(f, []), body)][..0] == [];
    assert [RepeatLoop(body.statements, FunctionCall(f, []))][..0] == [];
    assert [CallStatement(g, [FunctionCall(f, [])])][..0] == [];
  }

  /** A call hidden in a field index, a range bound or a `length` is not found; one in an index is. */
  lemma ExpressionSearchReach(f: string)
    ensures !ExprContainsCall(f, Var(Variable("p", Field("x", [FunctionCall(f, [])]))))
    ensures !ExprContainsCall(f, Var(Variable("p", Range(FunctionCall(f, []), N(1)))))
    ensures !ExprContainsCall(f, Length(Variable("p", Indexed([FunctionCall(f, [])]))))
    ensures ExprContainsCall(f, Var(Variable("p", Indexed([FunctionCall(f, [])]))))
    ensures ExprContainsCall(f, Floor(UnaryOp("-", FunctionCall("g", [FunctionCall(f, [])]))))
  {
    assert ExprContainsCall(f, Var(Variable("p", Indexed([FunctionCall(f, [])])))) by {
      assert ExprContainsCall(f, [FunctionCall(f, [])][0]);
    }
    assert ExprContainsCall(f, FunctionCall("g", [FunctionCall(f, [])])) by {
      assert ExprContainsCall(f, [FunctionCall(f, [])][0]);
    }
  }
}
