/**
 * Recursion detection in the classifier: where a subroutine calls itself.
 *
 * Statements are searched in fixed places only: a `call` statement's callee,
 * the value of a `return` or an assignment, and an `if` condition, plus the
 * bodies of loops and both branches of an `if`. Each match is recorded with a
 * position trail `prefix[i].tag`, nested trails extending their parent's.
 */
module RecursionScan {
  import opened Ast
  import opened Text

  // ---------------------------------------------------------------------
  // Expressions
  // ---------------------------------------------------------------------

  /**
   * Whether a call to `f` is reachable through call arguments, both operands
   * of a binary operation, the operand of a unary one, the indices of an
   * indexed variable, or the argument of a ceiling or floor. Field indices,
   * range bounds and `length` are not looked into.
   */
  function ExprContainsCall(f: string, e: Expr): (b: bool)
    ensures e.FunctionCall? && e.name == f ==> b
  {
    match e
    case FunctionCall(name, args) =>
      name == f || exists k :: 0 <= k < |args| && ExprContainsCall(f, args[k])
    case BinaryOp(_, left, right) => ExprContainsCall(f, left) || ExprContainsCall(f, right)
    case UnaryOp(_, operand) => ExprContainsCall(f, operand)
    case Var(v) =>
      v.access.Indexed? && exists k :: 0 <= k < |v.access.indices| && ExprContainsCall(f, v.access.indices[k])
    case Ceiling(inner) => ExprContainsCall(f, inner)
    case Floor(inner) => ExprContainsCall(f, inner)
    case _ => false
  }

  /** Reference definition: the names of every call in the searched places, whatever the name looked for. */
  function SearchedCalls(e: Expr): set<string>
  {
    match e
    case FunctionCall(name, args) => {name} + SearchedCallsIn(args)
    case BinaryOp(_, left, right) => SearchedCalls(left) + SearchedCalls(right)
    case UnaryOp(_, operand) => SearchedCalls(operand)
    case Var(v) => if v.access.Indexed? then SearchedCallsIn(v.access.indices) else {}
    case Ceiling(inner) => SearchedCalls(inner)
    case Floor(inner) => SearchedCalls(inner)
    case _ => {}
  }

  function SearchedCallsIn(es: seq<Expr>): set<string>
  {
    if es == [] then {} else SearchedCallsIn(es[..|es| - 1]) + SearchedCalls(es[|es| - 1])
  }

  /** The search for `f` succeeds exactly when `f` is among the names called in the searched places. */
  lemma {:induction false} ContainsCallIffSearched(f: string, e: Expr)
    ensures ExprContainsCall(f, e) <==> f in SearchedCalls(e)
    decreases e
  {
    match e
    case FunctionCall(name, args) => ContainsCallInList(f, args);
    case BinaryOp(_, left, right) =>
      ContainsCallIffSearched(f, left);
      ContainsCallIffSearched(f, right);
    case UnaryOp(_, operand) => ContainsCallIffSearched(f, operand);
    case Var(v) =>
      if v.access.Indexed? {
        ContainsCallInList(f, v.access.indices);
      }
    case Ceiling(inner) => ContainsCallIffSearched(f, inner);
    case Floor(inner) => ContainsCallIffSearched(f, inner);
    case _ =>
  }

  lemma {:induction false} ContainsCallInList(f: string, es: seq<Expr>)
    ensures (exists k :: 0 <= k < |es| && ExprContainsCall(f, es[k])) <==> f in SearchedCallsIn(es)
    decreases es
  {
    if es != [] {
      var n := |es|;
      var prefix := es[..n - 1];
      ContainsCallInList(f, prefix);
      ContainsCallIffSearched(f, es[n - 1]);
      if exists k :: 0 <= k < n && ExprContainsCall(f, es[k]) {
        var k :| 0 <= k < n && ExprContainsCall(f, es[k]);
        if k < n - 1 {
          assert prefix[k] == es[k];
        }
      }
      if f in SearchedCallsIn(prefix) {
        var k :| 0 <= k < n - 1 && ExprContainsCall(f, prefix[k]);
        assert es[k] == prefix[k];
      }
    }
  }

  // ---------------------------------------------------------------------
  // Statements: the count and the position trails
  // ---------------------------------------------------------------------

  /** The trail of the statement at index `i` below `prefix`. */
  function Slot(prefix: string, i: nat): (r: string)
    ensures prefix < r
  {
    prefix + "[" + NatToString(i) + "]"
  }

  function Hit(b: bool): nat
  {
    if b then 1 else 0
  }

  /** The number of matches for `f` in a statement list. */
  function MatchCount(f: string, ss: seq<Stmt>): nat
  {
    if ss == [] then 0 else MatchCount(f, ss[..|ss| - 1]) + StmtMatchCount(f, ss[|ss| - 1])
  }

  /**
   * A call, return or assignment adds one match at most; an `if` adds one for
   * its condition plus its branches; loops add their bodies. For bounds, loop
   * conditions and the arguments of a `call` statement are not searched.
   */
  function StmtMatchCount(f: string, s: Stmt): nat
  {
    match s
    case CallStatement(name, _) => Hit(name == f)
    case ReturnStatement(value) => Hit(ExprContainsCall(f, value))
    case Assignment(_, value) => Hit(ExprContainsCall(f, value))
    case ForLoop(_, _, _, body) => MatchCount(f, body.statements)
    case WhileLoop(_, body) => MatchCount(f, body.statements)
    case RepeatLoop(body, _) => MatchCount(f, body)
    case IfStatement(cond, thenBlock, elseBlock) =>
      Hit(ExprContainsCall(f, cond)) + MatchCount(f, thenBlock.statements)
        + (match elseBlock case Some(b) => MatchCount(f, b.statements) case None => 0)
    case Comment(_) => 0
  }

  /** A list has no match exactly when none of its statements has one. */
  lemma {:induction false} MatchCountZero(f: string, ss: seq<Stmt>)
    ensures MatchCount(f, ss) == 0 <==> forall k :: 0 <= k < |ss| ==> StmtMatchCount(f, ss[k]) == 0
    decreases |ss|
  {
    if ss != [] {
      var n := |ss|;
      var p := ss[..n - 1];
      MatchCountZero(f, p);
      assert forall k :: 0 <= k < n - 1 ==> ss[k] == p[k];
    }
  }

  function Tagged(b: bool, trail: string): seq<string>
  {
    if b then [trail] else []
  }

  /** The position trail of every match for `f`, in statement order. */
  function Positions(f: string, ss: seq<Stmt>, prefix: string): (ps: seq<string>)
    ensures |ps| == MatchCount(f, ss)
  {
    if ss == [] then []
    else Positions(f, ss[..|ss| - 1], prefix) + StmtPositions(f, ss[|ss| - 1], Slot(prefix, |ss| - 1))
  }

  function StmtPositions(f: string, s: Stmt, at: string): (ps: seq<string>)
    ensures |ps| == StmtMatchCount(f, s)
  {
    match s
    case CallStatement(name, _) => Tagged(name == f, at + ".call")
    case ReturnStatement(value) => Tagged(ExprContainsCall(f, value), at + ".return")
    case Assignment(_, value) => Tagged(ExprContainsCall(f, value), at + ".assignment")
    case ForLoop(_, _, _, body) => Positions(f, body.statements, at + ".for_body")
    case WhileLoop(_, body) => Positions(f, body.statements, at + ".while_body")
    case RepeatLoop(body, _) => Positions(f, body, at + ".repeat_body")
    case IfStatement(cond, thenBlock, elseBlock) =>
      Tagged(ExprContainsCall(f, cond), at + ".if_condition")
        + Positions(f, thenBlock.statements, at + ".then")
        + (match elseBlock case Some(b) => Positions(f, b.statements, at + ".else") case None => [])
    case Comment(_) => []
  }

  /** One trail per match, and every trail extends the prefix it was found under. */
  lemma {:induction false} PositionsFacts(f: string, ss: seq<Stmt>, prefix: string)
    ensures |Positions(f, ss, prefix)| == MatchCount(f, ss)
    ensures forall k :: 0 <= k < |Positions(f, ss, prefix)| ==> prefix < Positions(f, ss, prefix)[k]
    decreases ss
  {
    if ss != [] {
      var n := |ss|;
      PositionsFacts(f, ss[..n - 1], prefix);
      var at := Slot(prefix, n - 1);
      StmtPositionsFacts(f, ss[n - 1], at);
      var a := Positions(f, ss[..n - 1], prefix);
      var b := StmtPositions(f, ss[n - 1], at);
      forall k | 0 <= k < |a + b|
        ensures prefix < (a + b)[k]
      {
        if k >= |a| {
          assert (a + b)[k] == b[k - |a|];
          ExtendTransitive(prefix, at, b[k - |a|]);
        }
      }
    }
  }

  lemma {:induction false} StmtPositionsFacts(f: string, s: Stmt, at: string)
    ensures |StmtPositions(f, s, at)| == StmtMatchCount(f, s)
    ensures forall k :: 0 <= k < |StmtPositions(f, s, at)| ==> at < StmtPositions(f, s, at)[k]
    decreases s
  {
    match s
    case CallStatement(_, _) => TagExtends(at, ".call");
    case ReturnStatement(_) => TagExtends(at, ".return");
    case Assignment(_, _) => TagExtends(at, ".assignment");
    case ForLoop(_, _, _, body) =>
      PositionsFacts(f, body.statements, at + ".for_body");
      NestedExtends(at, ".for_body", Positions(f, body.statements, at + ".for_body"));
    case WhileLoop(_, body) =>
      PositionsFacts(f, body.statements, at + ".while_body");
      NestedExtends(at, ".while_body", Positions(f, body.statements, at + ".while_body"));
    case RepeatLoop(body, _) =>
      PositionsFacts(f, body, at + ".repeat_body");
      NestedExtends(at, ".repeat_body", Positions(f, body, at + ".repeat_body"));
    case IfStatement(_, thenBlock, elseBlock) =>
      PositionsFacts(f, thenBlock.statements, at + ".then");
      var t := Positions(f, thenBlock.statements, at + ".then");
      NestedExtends(at, ".then", t);
      var e: seq<string> := [];
      match elseBlock {
        case Some(b) =>
          PositionsFacts(f, b.statements, at + ".else");
          e := Positions(f, b.statements, at + ".else");
          NestedExtends(at, ".else", e);
        case None =>
      }
      IfFacts(f, s, at, t, e);
    case Comment(_) =>
  }

  /** The facts for an `if`, from those for its branches. */
  lemma IfFacts(f: string, s: Stmt, at: string, t: seq<string>, e: seq<string>)
    requires s.IfStatement?
    requires t == Positions(f, s.thenBlock.statements, at + ".then")
    requires |t| == MatchCount(f, s.thenBlock.statements)
    requires forall k :: 0 <= k < |t| ==> at < t[k]
    requires s.elseBlock.Some? ==> e == Positions(f, s.elseBlock.value.statements, at + ".else")
    requires s.elseBlock.Some? ==> |e| == MatchCount(f, s.elseBlock.value.statements)
    requires s.elseBlock.None? ==> e == []
    requires forall k :: 0 <= k < |e| ==> at < e[k]
    ensures |StmtPositions(f, s, at)| == StmtMatchCount(f, s)
    ensures forall k :: 0 <= k < |StmtPositions(f, s, at)| ==> at < StmtPositions(f, s, at)[k]
  {
    TagExtends(at, ".if_condition");
    var c := Tagged(ExprContainsCall(f, s.cond), at + ".if_condition");
    assert StmtPositions(f, s, at) == c + t + e;
    AllExtend(at, c, t);
    AllExtend(at, c + t, e);
  }

  lemma ExtendTransitive(a: string, b: string, c: string)
    requires a < b && b < c
    ensures a < c
  {
    assert c[..|a|] == b[..|a|];
  }

  lemma TagExtends(at: string, tag: string)
    requires tag != []
    ensures at < at + tag
  {
    assert (at + tag)[..|at|] == at;
  }

  lemma NestedExtends(at: string, tag: string, trails: seq<string>)
    requires tag != []
    requires forall k :: 0 <= k < |trails| ==> at + tag < trails[k]
    ensures forall k :: 0 <= k < |trails| ==> at < trails[k]
  {
    TagExtends(at, tag);
    forall k | 0 <= k < |trails|
      ensures at < trails[k]
    {
      ExtendTransitive(at, at + tag, trails[k]);
    }
  }

  lemma AllExtend(at: string, a: seq<string>, b: seq<string>)
    requires forall k :: 0 <= k < |a| ==> at < a[k]
    requires forall k :: 0 <= k < |b| ==> at < b[k]
    ensures forall k :: 0 <= k < |a + b| ==> at < (a + b)[k]
  {
    forall k | 0 <= k < |a + b|
      ensures at < (a + b)[k]
    {
      if k >= |a| {
        assert (a + b)[k] == b[k - |a|];
      }
    }
  }

  // ---------------------------------------------------------------------
  // The scan as the source writes it
  // ---------------------------------------------------------------------

  lemma PrefixStep(f: string, ss: seq<Stmt>, prefix: string, i: nat)
    requires i < |ss|
    ensures MatchCount(f, ss[..i + 1]) == MatchCount(f, ss[..i]) + StmtMatchCount(f, ss[i])
    ensures Positions(f, ss[..i + 1], prefix) == Positions(f, ss[..i], prefix) + StmtPositions(f, ss[i], Slot(prefix, i))
  {
    assert ss[..i + 1][..i] == ss[..i];
  }

  /** Scans a statement list for calls to `f`, returning the number of matches and their position trails. */
  method ScanRecursion(f: string, ss: seq<Stmt>, position: string) returns (count: nat, positions: seq<string>)
    ensures count == MatchCount(f, ss)
    ensures positions == Positions(f, ss, position)
    decreases ListSize(ss), 1
  {
    count, positions := 0, [];
    for i := 0 to |ss|
      invariant count == MatchCount(f, ss[..i])
      invariant positions == Positions(f, ss[..i], position)
    {
      PrefixStep(f, ss, position, i);
      ElementSize(ss, i);
      var c, p := ScanStatement(f, ss[i], Slot(position, i));
      count, positions := count + c, positions + p;
    }
    assert ss[..|ss|] == ss;
  }

  /** The body of the scan for one statement, whose trail is `at`. */
  method ScanStatement(f: string, s: Stmt, at: string) returns (count: nat, positions: seq<string>)
    ensures count == StmtMatchCount(f, s)
    ensures positions == StmtPositions(f, s, at)
    decreases StmtSize(s), 0
  {
    count, positions := 0, [];
    match s
    case CallStatement(name, _) =>
      if name == f {
        count, positions := 1, [at + ".call"];
      }
    case ReturnStatement(value) =>
      if ExprContainsCall(f, value) {
        count, positions := 1, [at + ".return"];
      }
    case Assignment(_, value) =>
      if ExprContainsCall(f, value) {
        count, positions := 1, [at + ".assignment"];
      }
    case ForLoop(_, _, _, body) =>
      count, positions := ScanRecursion(f, body.statements, at + ".for_body");
    case WhileLoop(_, body) =>
      count, positions := ScanRecursion(f, body.statements, at + ".while_body");
    case RepeatLoop(body, _) =>
      count, positions := ScanRecursion(f, body, at + ".repeat_body");
    case IfStatement(cond, thenBlock, elseBlock) =>
      if ExprContainsCall(f, cond) {
        count, positions := 1, [at + ".if_condition"];
      }
      var c, p := ScanRecursion(f, thenBlock.statements, at + ".then");
      count, positions := count + c, positions + p;
      if elseBlock.Some? {
        var c', p' := ScanRecursion(f, elseBlock.value.statements, at + ".else");
        count, positions := count + c', positions + p';
      }
    case Comment(_) =>
  }
}
