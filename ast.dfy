/**
 * The typed syntax tree of the pseudocode language: what the parse-tree
 * transformer builds and the control-flow classifier reads.
 *
 * The node kinds and their fields are those the transformer constructs
 * (app/parsing/transformer.py:11-40 and the constructor calls in its rule
 * methods). The `Variable` node of the source carries optional `indices`,
 * `field`, `field_indices` and `range_*` attributes of which exactly one
 * refinement is ever set; here that choice is the closed sum `Access`.
 */
module Ast {

  datatype Option<+T> = None | Some(value: T)

  /** A numeric literal: an integer, or a literal with a fractional part kept as its text. */
  datatype NumLit = IntLit(value: int) | DecimalLit(text: string)

  datatype Expr =
    | Number(lit: NumLit)
    | Boolean(truth: bool)
    | Null
    | Var(v: Variable)
    | BinaryOp(op: string, left: Expr, right: Expr)
    | UnaryOp(op: string, operand: Expr)
    | FunctionCall(name: string, args: seq<Expr>)
    | Length(of: Variable)
    | Ceiling(inner: Expr)
    | Floor(inner: Expr)

  /** A variable reference: a name and the one refinement chosen for it. */
  datatype Variable = Variable(name: string, access: Access)

  datatype Access =
    | Bare
    | Indexed(indices: seq<Expr>)
    | Field(field: string, fieldIndices: seq<Expr>)
    | Range(start: Expr, end: Expr)

  datatype Stmt =
    | Assignment(target: Variable, value: Expr)
    | ForLoop(counter: string, start: Expr, end: Expr, body: Block)
    | WhileLoop(cond: Expr, body: Block)
    | RepeatLoop(statements: seq<Stmt>, cond: Expr)
    | IfStatement(cond: Expr, thenBlock: Block, elseBlock: Option<Block>)
    | CallStatement(name: string, args: seq<Expr>)
    | ReturnStatement(value: Expr)
    | Comment(text: string)

  datatype Block = Block(statements: seq<Stmt>)

  datatype ParamKind = SimpleParam | ArrayParam(dimensions: nat) | ObjectParam(className: string)

  datatype Parameter = Parameter(name: string, kind: ParamKind)

  datatype DeclKind = ArrayDecl(size: Expr) | ObjectDecl(className: string)

  datatype Declaration = Declaration(name: string, kind: DeclKind)

  datatype ClassDefinition = ClassDefinition(name: string, attributes: seq<string>)

  datatype Subroutine = Subroutine(
    name: string,
    parameters: seq<Parameter>,
    declarations: seq<Declaration>,
    body: seq<Stmt>)

  datatype MainAlgorithm = MainAlgorithm(declarations: seq<Declaration>, body: seq<Stmt>)

  /** `main` is absent only when the rule saw no main block (the grammar always supplies one). */
  datatype Algorithm = Algorithm(subroutines: seq<Subroutine>, main: Option<MainAlgorithm>)

  datatype Program = Program(classes: seq<ClassDefinition>, algorithm: Option<Algorithm>)

  /** Number of statement nodes in a statement list, counting nested bodies; a termination measure. */
  function ListSize(ss: seq<Stmt>): nat
  {
    if ss == [] then 0 else ListSize(ss[..|ss| - 1]) + StmtSize(ss[|ss| - 1])
  }

  function StmtSize(s: Stmt): (n: nat)
    ensures n >= 1
  {
    match s
    case ForLoop(_, _, _, body) => 1 + ListSize(body.statements)
    case WhileLoop(_, body) => 1 + ListSize(body.statements)
    case RepeatLoop(body, _) => 1 + ListSize(body)
    case IfStatement(_, thenBlock, elseBlock) =>
      1 + ListSize(thenBlock.statements)
        + (match elseBlock case Some(b) => ListSize(b.statements) case None => 0)
    case _ => 1
  }

  /** Each statement of a list is no larger than the list. */
  lemma {:induction false} ElementSize(ss: seq<Stmt>, i: nat)
    requires i < |ss|
    ensures StmtSize(ss[i]) <= ListSize(ss)
  {
    if i < |ss| - 1 {
      ElementSize(ss[..|ss| - 1], i);
      assert ss[..|ss| - 1][i] == ss[i];
    }
  }
}
