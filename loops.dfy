/**
 * Loop detection in the classifier: how many loops a statement list holds,
 * which kinds they are, and how deeply they nest.
 *
 * A loop is reachable when it stands in the list or, recursively, in the
 * body of a reachable loop or in either branch of an `if`. Loop bodies are
 * scanned one level deeper; `if` branches at the same level.
 */
module LoopScan {
  import opened Ast

  datatype LoopKind = For | While | Repeat

  function Max(a: nat, b: nat): (m: nat)
    ensures m >= a && m >= b && (m == a || m == b)
  {
    if a >= b then a else b
  }

  // ---------------------------------------------------------------------
  // Specification
  // ---------------------------------------------------------------------

  /** The number of reachable loops. */
  function LoopCount(ss: seq<Stmt>): nat
  {
    if ss == [] then 0 else LoopCount(ss[..|ss| - 1]) + StmtLoopCount(ss[|ss| - 1])
  }

  function StmtLoopCount(s: Stmt): nat
  {
    match s
    case ForLoop(_, _, _, body) => 1 + LoopCount(body.statements)
    case WhileLoop(_, body) => 1 + LoopCount(body.statements)
    case RepeatLoop(body, _) => 1 + LoopCount(body)
    case IfStatement(_, thenBlock, elseBlock) =>
      LoopCount(thenBlock.statements) + (match elseBlock case Some(b) => LoopCount(b.statements) case None => 0)
    case _ => 0
  }

  /** The kinds of the reachable loops. */
  function LoopKinds(ss: seq<Stmt>): set<LoopKind>
  {
    if ss == [] then {} else LoopKinds(ss[..|ss| - 1]) + StmtLoopKinds(ss[|ss| - 1])
  }

  function StmtLoopKinds(s: Stmt): set<LoopKind>
  {
    match s
    case ForLoop(_, _, _, body) => {For} + LoopKinds(body.statements)
    case WhileLoop(_, body) => {While} + LoopKinds(body.statements)
    case RepeatLoop(body, _) => {Repeat} + LoopKinds(body)
    case IfStatement(_, thenBlock, elseBlock) =>
      LoopKinds(thenBlock.statements) + (match elseBlock case Some(b) => LoopKinds(b.statements) case None => {})
    case _ => {}
  }

  /** The greatest number of loops enclosing one another, on any path; an `if` adds no level. */
  function LoopDepth(ss: seq<Stmt>): nat
  {
    if ss == [] then 0 else Max(LoopDepth(ss[..|ss| - 1]), StmtLoopDepth(ss[|ss| - 1]))
  }

  function StmtLoopDepth(s: Stmt): nat
  {
    match s
    case ForLoop(_, _, _, body) => 1 + LoopDepth(body.statements)
    case WhileLoop(_, body) => 1 + LoopDepth(body.statements)
    case RepeatLoop(body, _) => 1 + LoopDepth(body)
    case IfStatement(_, thenBlock, elseBlock) =>
      Max(LoopDepth(thenBlock.statements), match elseBlock case Some(b) => LoopDepth(b.statements) case None => 0)
    case _ => 0
  }

  /** Reference enumeration: the kind of every reachable loop, outer loops before the loops they enclose. */
  function Loops(ss: seq<Stmt>): seq<LoopKind>
  {
    if ss == [] then [] else Loops(ss[..|ss| - 1]) + StmtLoops(ss[|ss| - 1])
  }

  function StmtLoops(s: Stmt): seq<LoopKind>
  {
    match s
    case ForLoop(_, _, _, body) => [For] + Loops(body.statements)
    case WhileLoop(_, body) => [While] + Loops(body.statements)
    case RepeatLoop(body, _) => [Repeat] + Loops(body)
    case IfStatement(_, thenBlock, elseBlock) =>
      Loops(thenBlock.statements) + (match elseBlock case Some(b) => Loops(b.statements) case None => [])
    case _ => []
  }

  // ---------------------------------------------------------------------
  // Properties
  // ---------------------------------------------------------------------

  /**
   * The loop count is the number of reachable loops and the loop kinds are
   * exactly their kinds; nesting never exceeds the count, and there is
   * nesting exactly when there is a loop.
   */
  lemma {:induction false} LoopFacts(ss: seq<Stmt>)
    ensures LoopCount(ss) == |Loops(ss)|
    ensures LoopKinds(ss) == set k | k in Loops(ss)
    ensures LoopDepth(ss) <= LoopCount(ss)
    ensures LoopDepth(ss) == 0 <==> LoopCount(ss) == 0
    decreases ss
  {
    if ss != [] {
      var prefix := ss[..|ss| - 1];
      LoopFacts(prefix);
      StmtLoopFacts(ss[|ss| - 1]);
      var a := Loops(prefix);
      var b := StmtLoops(ss[|ss| - 1]);
      assert (set k | k in a + b) == (set k | k in a) + (set k | k in b);
    }
  }

  lemma {:induction false} StmtLoopFacts(s: Stmt)
    ensures StmtLoopCount(s) == |StmtLoops(s)|
    ensures StmtLoopKinds(s) == set k | k in StmtLoops(s)
    ensures StmtLoopDepth(s) <= StmtLoopCount(s)
    ensures StmtLoopDepth(s) == 0 <==> StmtLoopCount(s) == 0
    decreases s
  {
    match s
    case ForLoop(_, _, _, body) =>
      LoopFacts(body.statements);
      OneLoopFacts(s, For, body.statements);
    case WhileLoop(_, body) =>
      LoopFacts(body.statements);
      OneLoopFacts(s, While, body.statements);
    case RepeatLoop(body, _) =>
      LoopFacts(body);
      OneLoopFacts(s, Repeat, body);
    case IfStatement(_, thenBlock, elseBlock) =>
      LoopFacts(thenBlock.statements);
      if elseBlock.Some? {
        LoopFacts(elseBlock.value.statements);
      }
      IfLoopFacts(s);
    case _ =>
  }

  /** Whether the facts of `LoopFacts` hold of a statement list. */
  predicate ListFacts(ss: seq<Stmt>)
  {
    && LoopCount(ss) == |Loops(ss)|
    && LoopKinds(ss) == (set k | k in Loops(ss))
    && LoopDepth(ss) <= LoopCount(ss)
    && (LoopDepth(ss) == 0 <==> LoopCount(ss) == 0)
  }

  /** The facts for a loop, from those for its body. */
  lemma OneLoopFacts(s: Stmt, kind: LoopKind, inner: seq<Stmt>)
    requires || (s.ForLoop? && kind == For && inner == s.body.statements)
             || (s.WhileLoop? && kind == While && inner == s.body.statements)
             || (s.RepeatLoop? && kind == Repeat && inner == s.statements)
    requires ListFacts(inner)
    ensures StmtLoopCount(s) == |StmtLoops(s)|
    ensures StmtLoopKinds(s) == set k | k in StmtLoops(s)
    ensures StmtLoopDepth(s) <= StmtLoopCount(s)
    ensures StmtLoopDepth(s) == 0 <==> StmtLoopCount(s) == 0
  {
    assert StmtLoops(s) == [kind] + Loops(inner);
    OneLoopKinds(kind, Loops(inner));
  }

  /** The facts for an `if`, from those for its branches. */
  lemma IfLoopFacts(s: Stmt)
    requires s.IfStatement?
    requires ListFacts(s.thenBlock.statements)
    requires s.elseBlock.Some? ==> ListFacts(s.elseBlock.value.statements)
    ensures StmtLoopCount(s) == |StmtLoops(s)|
    ensures StmtLoopKinds(s) == set k | k in StmtLoops(s)
    ensures StmtLoopDepth(s) <= StmtLoopCount(s)
    ensures StmtLoopDepth(s) == 0 <==> StmtLoopCount(s) == 0
  {
    var a := Loops(s.thenBlock.statements);
    if s.elseBlock.Some? {
      var c := Loops(s.elseBlock.value.statements);
      assert StmtLoops(s) == a + c;
      assert (set k | k in a + c) == (set k | k in a) + (set k | k in c);
    } else {
      assert StmtLoops(s) == a + [] == a;
    }
  }

  /** A list has no loop exactly when none of its statements has one. */
  lemma {:induction false} LoopCountZero(ss: seq<Stmt>)
    ensures LoopCount(ss) == 0 <==> forall k :: 0 <= k < |ss| ==> StmtLoopCount(ss[k]) == 0
    decreases |ss|
  {
    if ss != [] {
      var n := |ss|;
      var p := ss[..n - 1];
      LoopCountZero(p);
      assert forall k :: 0 <= k < n - 1 ==> ss[k] == p[k];
    }
  }

  /** The loop kinds of a list are the union of those of its statements. */
  lemma {:induction false} LoopKindsUnion(ss: seq<Stmt>)
    ensures forall k :: 0 <= k < |ss| ==> StmtLoopKinds(ss[k]) <= LoopKinds(ss)
    ensures forall x :: x in LoopKinds(ss) ==> exists k :: 0 <= k < |ss| && x in StmtLoopKinds(ss[k])
    decreases |ss|
  {
    if ss != [] {
      var n := |ss|;
      var p := ss[..n - 1];
      LoopKindsUnion(p);
      forall k | 0 <= k < n
        ensures StmtLoopKinds(ss[k]) <= LoopKinds(ss)
      {
        if k < n - 1 {
          assert ss[k] == p[k];
        }
      }
      forall x | x in LoopKinds(ss)
        ensures exists k :: 0 <= k < n && x in StmtLoopKinds(ss[k])
      {
        if x !in StmtLoopKinds(ss[n - 1]) {
          var k :| 0 <= k < |p| && x in StmtLoopKinds(p[k]);
          assert ss[k] == p[k];
        }
      }
    }
  }

  /** The nesting level of a list is the greatest level of its statements, 0 for no statement. */
  lemma {:induction false} LoopDepthIsMax(ss: seq<Stmt>)
    ensures forall k :: 0 <= k < |ss| ==> StmtLoopDepth(ss[k]) <= LoopDepth(ss)
    ensures ss == [] ==> LoopDepth(ss) == 0
    ensures ss != [] ==> exists k :: 0 <= k < |ss| && LoopDepth(ss) == StmtLoopDepth(ss[k])
    decreases |ss|
  {
    if ss != [] {
      var n := |ss|;
      var p := ss[..n - 1];
      LoopDepthIsMax(p);
      var d := LoopDepth(ss);
      forall k | 0 <= k < n
        ensures StmtLoopDepth(ss[k]) <= d
      {
        if k < n - 1 {
          assert ss[k] == p[k];
        }
      }
      if d != StmtLoopDepth(ss[n - 1]) {
        var k :| 0 <= k < |p| && LoopDepth(p) == StmtLoopDepth(p[k]);
        assert ss[k] == p[k];
      }
    }
  }

  lemma OneLoopKinds(kind: LoopKind, inner: seq<LoopKind>)
    ensures (set k | k in [kind] + inner) == {kind} + (set k | k in inner)
  {
  }

  /** There is a loop exactly when some loop kind is recorded. */
  lemma LoopKindsEmpty(ss: seq<Stmt>)
    ensures LoopKinds(ss) == {} <==> LoopCount(ss) == 0
  {
    LoopFacts(ss);
    if LoopCount(ss) > 0 {
      assert Loops(ss)[0] in LoopKinds(ss);
    }
  }

  // ---------------------------------------------------------------------
  // The scan as the source writes it
  // ---------------------------------------------------------------------

  lemma PrefixStep(ss: seq<Stmt>, i: nat)
    requires i < |ss|
    ensures LoopCount(ss[..i + 1]) == LoopCount(ss[..i]) + StmtLoopCount(ss[i])
    ensures LoopKinds(ss[..i + 1]) == LoopKinds(ss[..i]) + StmtLoopKinds(ss[i])
    ensures LoopDepth(ss[..i + 1]) == Max(LoopDepth(ss[..i]), StmtLoopDepth(ss[i]))
  {
    assert ss[..i + 1][..i] == ss[..i];
  }

  /**
   * Scans a statement list at nesting level `depth`, returning the number of
   * loops, the deepest nesting level reached (at least `depth`) and the loop
   * kinds.
   */
  method ScanLoops(ss: seq<Stmt>, depth: nat) returns (count: nat, maxNesting: nat, kinds: set<LoopKind>)
    ensures count == LoopCount(ss)
    ensures maxNesting == depth + LoopDepth(ss)
    ensures kinds == LoopKinds(ss)
    decreases ListSize(ss), 1
  {
    count, maxNesting, kinds := 0, depth, {};
    for i := 0 to |ss|
      invariant count == LoopCount(ss[..i])
      invariant maxNesting == depth + LoopDepth(ss[..i])
      invariant kinds == LoopKinds(ss[..i])
    {
      PrefixStep(ss, i);
      ElementSize(ss, i);
      var c, m, k := ScanStatementLoops(ss[i], depth);
      count, maxNesting, kinds := count + c, Max(maxNesting, m), kinds + k;
    }
    assert ss[..|ss|] == ss;
  }

  /** The body of the scan for one statement at level `depth`: loop bodies one level deeper, `if` branches at the same level. */
  method ScanStatementLoops(s: Stmt, depth: nat) returns (count: nat, maxNesting: nat, kinds: set<LoopKind>)
    ensures count == StmtLoopCount(s)
    ensures maxNesting == depth + StmtLoopDepth(s)
    ensures kinds == StmtLoopKinds(s)
    decreases StmtSize(s), 0
  {
    count, maxNesting, kinds := 0, depth, {};
    match s
    case ForLoop(_, _, _, body) =>
      var c, m, k := ScanLoops(body.statements, depth + 1);
      count, maxNesting, kinds := 1 + c, m, {For} + k;
    case WhileLoop(_, body) =>
      var c, m, k := ScanLoops(body.statements, depth + 1);
      count, maxNesting, kinds := 1 + c, m, {While} + k;
    case RepeatLoop(body, _) =>
      var c, m, k := ScanLoops(body, depth + 1);
      count, maxNesting, kinds := 1 + c, m, {Repeat} + k;
    case IfStatement(_, thenBlock, elseBlock) =>
      var c, m, k := ScanLoops(thenBlock.statements, depth);
      count, maxNesting, kinds := c, m, k;
      if elseBlock.Some? {
        var c', m', k' := ScanLoops(elseBlock.value.statements, depth);
        count, maxNesting, kinds := count + c', Max(maxNesting, m'), kinds + k';
      }
    case _ =>
  }

  // ---------------------------------------------------------------------
  // Nesting levels of small programs
  // ---------------------------------------------------------------------

  /** No statement is a loop: level 0. One loop whose body holds none: level 1. A loop inside a loop: level 2. */
  lemma NestingLevels(c: Expr, v: string, a: Expr, b: Expr, inner: seq<Stmt>)
    requires LoopCount(inner) == 0
    ensures LoopDepth([]) == 0
    ensures LoopDepth([ForLoop(v, a, b, Block(inner))]) == 1
    ensures LoopDepth([WhileLoop(c, Block([ForLoop(v, a, b, Block(inner))]))]) == 2
  {
    LoopFacts(inner);
    assert [ForLoop(v, a, b, Block(inner))][..0] == [];
    assert [WhileLoop(c, Block([ForLoop(v, a, b, Block(inner))]))][..0] == [];
  }

  /** Wrapping statements in an `if` neither adds loops nor raises the nesting level. */
  lemma IfKeepsLevel(c: Expr, ss: seq<Stmt>)
    ensures LoopDepth([IfStatement(c, Block(ss), None)]) == LoopDepth(ss)
    ensures LoopCount([IfStatement(c, Block(ss), None)]) == LoopCount(ss)
  {
    assert [IfStatement(c, Block(ss), None)][..0] == [];
  }
}
