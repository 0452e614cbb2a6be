/**
 * The transformer's node-building rules: class definitions, declarations,
 * parameters, statements, blocks, variables and the special functions.
 *
 * Each rule is a function from the children of one parse-tree node to the
 * node it builds. Beside each rule stands the child list the grammar hands
 * it for a given node (a `...Children` function, read off the production the
 * rule's own documentation gives); the contract of that function is the
 * round trip: applying the rule to those children rebuilds the node.
 */
module Rules {
  import opened Ast
  import opened ParseItems
  import opened Literals

  // ---------------------------------------------------------------------
  // Filters over children
  // ---------------------------------------------------------------------

  function ExprOf(it: Item): seq<Expr>
  {
    if it.ExprItem? then [it.e] else []
  }

  function StmtOf(it: Item): seq<Stmt>
  {
    if it.StmtItem? then [it.s] else []
  }

  function BlockOf(it: Item): seq<Block>
  {
    if it.BlockItem? then [it.b] else []
  }

  /** The expression children, in order. */
  function ExprsIn(items: seq<Item>): seq<Expr>
  {
    Gather(items, ExprOf)
  }

  /** The block children, in order. */
  function BlocksIn(items: seq<Item>): seq<Block>
  {
    Gather(items, BlockOf)
  }

  function StmtItems(ss: seq<Stmt>): (items: seq<Item>)
    ensures |items| == |ss|
    ensures forall k :: 0 <= k < |ss| ==> items[k] == StmtItem(ss[k])
  {
    seq(|ss|, k requires 0 <= k < |ss| => StmtItem(ss[k]))
  }

  // ---------------------------------------------------------------------
  // Class definitions
  // ---------------------------------------------------------------------

  /** attribute_list: the names of the attribute tokens. */
  function AttributeList(items: seq<Item>): (r: Result<seq<string>>)
    ensures r.Ok? <==> forall k :: 0 <= k < |items| ==> items[k].Tok?
    ensures r.Ok? ==> |r.value| == |items| && forall k :: 0 <= k < |items| ==> r.value[k] == items[k].text
  {
    if forall k :: 0 <= k < |items| ==> items[k].Tok? then
      Ok(seq(|items|, k requires 0 <= k < |items| => items[k].text))
    else Err(WrongKind)
  }

  function StrItems(names: seq<string>): (items: seq<Item>)
    ensures |items| == |names|
    ensures forall k :: 0 <= k < |names| ==> items[k] == StrItem(names[k])
  {
    seq(|names|, k requires 0 <= k < |names| => StrItem(names[k]))
  }

  /** A list child whose elements are all strings, read back as those strings. */
  function AsStrings(it: Item): (r: Result<seq<string>>)
    ensures r.Ok? ==> it == ListItem(StrItems(r.value))
  {
    if it.ListItem? && forall k :: 0 <= k < |it.elems| ==> it.elems[k].StrItem? then
      var names := seq(|it.elems|, k requires 0 <= k < |it.elems| => it.elems[k].str);
      assert StrItems(names) == it.elems;
      Ok(names)
    else Err(WrongKind)
  }

  lemma AsStringsStrItems(names: seq<string>)
    ensures AsStrings(ListItem(StrItems(names))) == Ok(names)
  {
    var elems := StrItems(names);
    assert forall k :: 0 <= k < |elems| ==> elems[k].StrItem?;
    var r := AsStrings(ListItem(elems));
    assert r.value == names;
  }

  /** class_definition: the class name token and the attribute names list. */
  function ClassDefinitionRule(items: seq<Item>): (r: Result<ClassDefinition>)
    ensures |items| < 2 ==> r == Err(MissingChild)
    ensures r.Ok? <==> |items| >= 2 && items[0].Tok? && AsStrings(items[1]).Ok?
    ensures r.Ok? ==> r.value.name == items[0].text && items[1] == ListItem(StrItems(r.value.attributes))
  {
    if |items| < 2 then Err(MissingChild)
    else match (TokenText(items[0]), AsStrings(items[1]))
      case (Ok(name), Ok(attributes)) => Ok(ClassDefinition(name, attributes))
      case (Err(x), _) => Err(x)
      case (_, Err(x)) => Err(x)
  }

  /** The children of a class definition: its name token and the list attribute_list built from the attribute tokens. */
  function ClassChildren(c: ClassDefinition): (items: seq<Item>)
    ensures ClassDefinitionRule(items) == Ok(c)
  {
    var tokens := seq(|c.attributes|, k requires 0 <= k < |c.attributes| => Tok(CNAME, c.attributes[k]));
    var attributes := AttributeList(tokens);
    assert attributes.value == c.attributes;
    AsStringsStrItems(c.attributes);
    [Tok(CNAME, c.name), ListItem(StrItems(attributes.value))]
  }

  // ---------------------------------------------------------------------
  // Declarations and parameters
  // ---------------------------------------------------------------------

  /**
   * local_declaration: two children with an expression second is an array
   * declaration (name, size); any other shape is an object declaration
   * (class name, then variable name).
   */
  function LocalDeclaration(items: seq<Item>): (r: Result<Declaration>)
    ensures r.Ok? ==> |items| >= 2 && items[0].Tok?
    ensures r.Ok? ==> (r.value.kind.ArrayDecl? <==> |items| == 2 && items[1].ExprItem?)
    ensures r.Ok? && r.value.kind.ArrayDecl? ==>
      items[0].text == r.value.name && items[1] == ExprItem(r.value.kind.size)
    ensures r.Ok? && r.value.kind.ObjectDecl? ==>
      items[0].Tok? && items[0].text == r.value.kind.className &&
      items[1].Tok? && items[1].text == r.value.name
    ensures |items| < 2 ==> r == Err(MissingChild)
  {
    if |items| == 2 && items[1].ExprItem? then
      match TokenText(items[0])
      case Ok(name) => Ok(Declaration(name, ArrayDecl(items[1].e)))
      case Err(x) => Err(x)
    else if |items| < 2 then Err(MissingChild)
    else match (TokenText(items[0]), TokenText(items[1]))
      case (Ok(className), Ok(name)) => Ok(Declaration(name, ObjectDecl(className)))
      case (Err(x), _) => Err(x)
      case (_, Err(x)) => Err(x)
  }

  /** `name[size]` gives the name token and the size expression; `Class name` gives two name tokens. */
  function DeclarationChildren(d: Declaration): (items: seq<Item>)
    ensures LocalDeclaration(items) == Ok(d)
  {
    match d.kind
    case ArrayDecl(size) => [Tok(CNAME, d.name), ExprItem(size)]
    case ObjectDecl(className) => [Tok(CNAME, className), Tok(CNAME, d.name)]
  }

  /** simple_parameter: one name token. */
  function SimpleParameter(items: seq<Item>): (r: Result<Parameter>)
    ensures r.Ok? <==> |items| > 0 && items[0].Tok?
    ensures r.Ok? ==> r.value.name == items[0].text && r.value.kind.SimpleParam?
  {
    if |items| == 0 then Err(MissingChild)
    else match TokenText(items[0])
      case Ok(name) => Ok(Parameter(name, SimpleParam))
      case Err(x) => Err(x)
  }

  /** A bracket group of an array parameter: its size expression, or the placeholder of an empty `[]`. */
  predicate IsDimension(it: Item)
  {
    it.ExprItem? || it.NoneItem?
  }

  /** The number of bracket groups among the children. */
  function DimensionCount(items: seq<Item>): (n: nat)
    ensures n <= |items|
  {
    if items == [] then 0
    else DimensionCount(items[..|items| - 1]) + (if IsDimension(items[|items| - 1]) then 1 else 0)
  }

  /** The positions before `m` that hold a bracket group. */
  ghost function DimensionPositions(items: seq<Item>, m: nat): set<int>
    requires m <= |items|
  {
    set k | 0 <= k < m && IsDimension(items[k])
  }

  lemma DimensionPositionsPrefix(items: seq<Item>, m: nat)
    requires m <= |items|
    ensures DimensionPositions(items[..m], m) == DimensionPositions(items, m)
  {
    forall k | 0 <= k < m ensures items[..m][k] == items[k] { }
  }

  lemma DimensionPositionsStep(items: seq<Item>, m: nat)
    requires 0 < m <= |items|
    ensures m - 1 !in DimensionPositions(items, m - 1)
    ensures DimensionPositions(items, m) ==
      DimensionPositions(items, m - 1) + (if IsDimension(items[m - 1]) then {m - 1} else {})
  {
  }

  /** The bracket-group count is the number of positions holding a size expression or placeholder. */
  lemma {:induction false} DimensionCountIsCardinality(items: seq<Item>)
    ensures DimensionCount(items) == |set k | 0 <= k < |items| && IsDimension(items[k])|
    decreases |items|
  {
    assert DimensionPositions(items, |items|) == set k | 0 <= k < |items| && IsDimension(items[k]);
    if items != [] {
      var n := |items|;
      var prefix := items[..n - 1];
      DimensionCountIsCardinality(prefix);
      assert DimensionPositions(prefix, n - 1) == set k | 0 <= k < |prefix| && IsDimension(prefix[k]);
      DimensionPositionsPrefix(items, n - 1);
      DimensionPositionsStep(items, n);
    }
  }

  /**
   * array_parameter: the name token, then one bracket group per dimension
   * (its size expression, or None for an empty `[]`, including the `..[e]`
   * tail); any other child is not counted.
   */
  function ArrayParameter(items: seq<Item>): (r: Result<Parameter>)
    ensures r.Ok? <==> |items| > 0 && items[0].Tok?
    ensures r.Ok? ==> r.value == Parameter(items[0].text, ArrayParam(DimensionCount(items[1..])))
    ensures r.Ok? ==> r.value.kind.dimensions < |items|
  {
    if |items| == 0 then Err(MissingChild)
    else match TokenText(items[0])
      case Ok(name) => Ok(Parameter(name, ArrayParam(DimensionCount(items[1..]))))
      case Err(x) => Err(x)
  }

  /** Counting bracket groups over two runs of children adds the counts of the runs. */
  lemma {:induction false} DimensionCountAppend(a: seq<Item>, b: seq<Item>)
    ensures DimensionCount(a + b) == DimensionCount(a) + DimensionCount(b)
    decreases |b|
  {
    if b == [] {
      assert a + b == a;
    } else {
      var n := |b|;
      assert (a + b)[..|a + b| - 1] == a + b[..n - 1];
      DimensionCountAppend(a, b[..n - 1]);
    }
  }

  /** A name followed by any bracket groups, sized or empty, is an array of that many dimensions. */
  lemma {:induction false} ArrayParameterOfGroups(name: string, groups: seq<Item>)
    requires forall k :: 0 <= k < |groups| ==> IsDimension(groups[k])
    ensures ArrayParameter([Tok(CNAME, name)] + groups) == Ok(Parameter(name, ArrayParam(|groups|)))
  {
    var items := [Tok(CNAME, name)] + groups;
    assert items[1..] == groups;
    GroupsCount(groups);
  }

  lemma {:induction false} GroupsCount(groups: seq<Item>)
    requires forall k :: 0 <= k < |groups| ==> IsDimension(groups[k])
    ensures DimensionCount(groups) == |groups|
    decreases |groups|
  {
    if groups != [] {
      GroupsCount(groups[..|groups| - 1]);
    }
  }

  /** A child that is no bracket group, after the groups, does not change the dimension count. */
  lemma ArrayParameterSkipsOthers(name: string, groups: seq<Item>, other: Item)
    requires forall k :: 0 <= k < |groups| ==> IsDimension(groups[k])
    requires !IsDimension(other)
    ensures ArrayParameter([Tok(CNAME, name)] + groups + [other]) == Ok(Parameter(name, ArrayParam(|groups|)))
  {
    var items := [Tok(CNAME, name)] + groups + [other];
    assert items[1..] == groups + [other];
    DimensionCountAppend(groups, [other]);
    assert [other][..0] == [];
    GroupsCount(groups);
  }

  /** object_parameter: the class name token, then the parameter name token. */
  function ObjectParameter(items: seq<Item>): (r: Result<Parameter>)
    ensures r.Ok? <==> |items| >= 2 && items[0].Tok? && items[1].Tok?
    ensures r.Ok? ==> r.value.name == items[1].text && r.value.kind == ObjectParam(items[0].text)
  {
    if |items| < 2 then Err(MissingChild)
    else match (TokenText(items[0]), TokenText(items[1]))
      case (Ok(className), Ok(name)) => Ok(Parameter(name, ObjectParam(className)))
      case (Err(x), _) => Err(x)
      case (_, Err(x)) => Err(x)
  }

  function Placeholders(n: nat): (items: seq<Item>)
    ensures |items| == n
    ensures forall k :: 0 <= k < n ==> items[k] == NoneItem
  {
    seq(n, k => NoneItem)
  }

  /**
   * The children of each parameter form: a name; a name and one empty bracket
   * group per dimension; a class name and a name. The rule for the form
   * rebuilds the parameter.
   */
  function ParameterChildren(p: Parameter): (items: seq<Item>)
    ensures p.kind.SimpleParam? ==> SimpleParameter(items) == Ok(p)
    ensures p.kind.ArrayParam? ==> ArrayParameter(items) == Ok(p)
    ensures p.kind.ObjectParam? ==> ObjectParameter(items) == Ok(p)
  {
    match p.kind
    case SimpleParam => [Tok(CNAME, p.name)]
    case ArrayParam(d) =>
      var items := [Tok(CNAME, p.name)] + Placeholders(d);
      assert items[1..] == Placeholders(d);
      PlaceholdersCount(d);
      items
    case ObjectParam(className) => [Tok(CNAME, className), Tok(CNAME, p.name)]
  }

  lemma {:induction false} PlaceholdersCount(n: nat)
    ensures DimensionCount(Placeholders(n)) == n
  {
    if n > 0 {
      assert Placeholders(n)[..n - 1] == Placeholders(n - 1);
      PlaceholdersCount(n - 1);
    }
  }

  // ---------------------------------------------------------------------
  // Statements
  // ---------------------------------------------------------------------

  /**
   * assignment: the target variable, then the first expression among the
   * remaining children; when there is none, the last child is the value.
   */
  function AssignmentRule(items: seq<Item>): (r: Result<Stmt>)
    ensures r.Ok? ==> |items| > 0
    ensures r.Ok? ==> r.value.Assignment? && items[0] == ExprItem(Var(r.value.target))
    ensures r.Ok? && |ExprsIn(items[1..])| > 0 ==> r.value.value == ExprsIn(items[1..])[0]
    ensures r.Ok? && |ExprsIn(items[1..])| == 0 ==> items[|items| - 1] == ExprItem(r.value.value)
  {
    if |items| == 0 then Err(MissingChild)
    else if !(items[0].ExprItem? && items[0].e.Var?) then Err(WrongKind)
    else
      var target := items[0].e.v;
      var found := ExprsIn(items[1..]);
      if |found| > 0 then Ok(Assignment(target, found[0]))
      else match AsExpr(items[|items| - 1])
        case Ok(value) => Ok(Assignment(target, value))
        case Err(x) => Err(x)
  }

  /** `v := e` hands the rule the variable, the `:=` token and the expression. */
  function AssignmentChildren(target: Variable, value: Expr): (items: seq<Item>)
    ensures AssignmentRule(items) == Ok(Assignment(target, value))
  {
    var items := [ExprItem(Var(target)), Tok("ASSIGN", ":="), ExprItem(value)];
    assert items[1..] == [Tok("ASSIGN", ":="), ExprItem(value)];
    GatherOne(Tok("ASSIGN", ":="), ExprOf);
    GatherOne(ExprItem(value), ExprOf);
    GatherAppend([Tok("ASSIGN", ":=")], [ExprItem(value)], ExprOf);
    assert [Tok("ASSIGN", ":=")] + [ExprItem(value)] == items[1..];
    items
  }

  /** An assignment whose children hold no expression after the target reads the target itself as the value. */
  lemma AssignmentWithoutValue(target: Variable)
    ensures AssignmentRule([ExprItem(Var(target))]) == Ok(Assignment(target, Var(target)))
  {
    assert [ExprItem(Var(target))][1..] == [];
  }

  /** The literal 0, the default loop bound. */
  const Zero: Expr := Number(IntLit(0))

  /**
   * for_loop: the counter token, then the first two expression children as
   * the bounds and the first block child as the body; a missing bound is the
   * literal 0 and a missing body the empty block.
   */
  function ForLoopRule(items: seq<Item>): (r: Result<Stmt>)
    ensures r.Ok? <==> |items| > 0 && items[0].Tok?
    ensures r.Ok? ==> r.value.ForLoop? && r.value.counter == items[0].text
    ensures r.Ok? ==> var es := ExprsIn(items[1..]);
      && r.value.start == (if |es| > 0 then es[0] else Zero)
      && r.value.end == (if |es| > 1 then es[1] else Zero)
    ensures r.Ok? ==> var bs := BlocksIn(items[1..]);
      r.value.body == (if |bs| > 0 then bs[0] else Block([]))
  {
    if |items| == 0 then Err(MissingChild)
    else match TokenText(items[0])
      case Err(x) => Err(x)
      case Ok(counter) =>
        var es := ExprsIn(items[1..]);
        var bs := BlocksIn(items[1..]);
        Ok(ForLoop(counter,
                   if |es| > 0 then es[0] else Zero,
                   if |es| > 1 then es[1] else Zero,
                   if |bs| > 0 then bs[0] else Block([])))
  }

  /** `for v := a to b do body` hands the rule the counter, the `:=` token, both bounds and the body. */
  function ForLoopChildren(counter: string, start: Expr, end: Expr, body: Block): (items: seq<Item>)
    ensures ForLoopRule(items) == Ok(ForLoop(counter, start, end, body))
  {
    var rest := [Tok("ASSIGN", ":="), ExprItem(start), ExprItem(end), BlockItem(body)];
    var items := [Tok(CNAME, counter)] + rest;
    assert items[1..] == rest;
    GatherFour(Tok("ASSIGN", ":="), ExprItem(start), ExprItem(end), BlockItem(body), ExprOf);
    GatherFour(Tok("ASSIGN", ":="), ExprItem(start), ExprItem(end), BlockItem(body), BlockOf);
    items
  }

  lemma GatherFour<T>(a: Item, b: Item, c: Item, d: Item, f: Item -> seq<T>)
    ensures Gather([a, b, c, d], f) == f(a) + f(b) + f(c) + f(d)
  {
    GatherOne(a, f);
    GatherOne(b, f);
    GatherOne(c, f);
    GatherOne(d, f);
    GatherAppend([a], [b], f);
    GatherAppend([a, b], [c], f);
    GatherAppend([a, b, c], [d], f);
    assert [a] + [b] == [a, b] && [a, b] + [c] == [a, b, c] && [a, b, c] + [d] == [a, b, c, d];
  }

  /** A loop whose children give no bounds and no body counts from 0 to 0 over the empty block. */
  lemma ForLoopDefaults(counter: string)
    ensures ForLoopRule([Tok(CNAME, counter)]) == Ok(ForLoop(counter, Zero, Zero, Block([])))
  {
    assert [Tok(CNAME, counter)][1..] == [];
  }

  /** while_loop: the condition, then the body block. */
  function WhileLoopRule(items: seq<Item>): (r: Result<Stmt>)
    ensures r.Ok? <==> |items| >= 2 && items[0].ExprItem? && items[1].BlockItem?
    ensures r.Ok? ==> r.value.WhileLoop? && r.value.cond == items[0].e && r.value.body == items[1].b
  {
    if |items| < 2 then Err(MissingChild)
    else if items[0].ExprItem? && items[1].BlockItem? then Ok(WhileLoop(items[0].e, items[1].b))
    else Err(WrongKind)
  }

  /**
   * repeat_loop: every child but the last is a statement of the body, the last
   * is the condition. The source builds the node with `body=` but the
   * classifier reads `.statements`; here both are the one field `statements`.
   */
  function RepeatLoopRule(items: seq<Item>): (r: Result<Stmt>)
    ensures r.Ok? ==> r.value.RepeatLoop? && |r.value.statements| == |items| - 1
    ensures r.Ok? ==> StmtItems(r.value.statements) == items[..|items| - 1]
    ensures r.Ok? ==> items[|items| - 1] == ExprItem(r.value.cond)
  {
    if |items| == 0 then Err(MissingChild)
    else
      var n := |items|;
      if (forall k :: 0 <= k < n - 1 ==> items[k].StmtItem?) && items[n - 1].ExprItem? then
        var body := seq(n - 1, k requires 0 <= k < n - 1 => items[k].s);
        assert StmtItems(body) == items[..n - 1];
        Ok(RepeatLoop(body, items[n - 1].e))
      else Err(WrongKind)
  }

  /**
   * if_statement: condition, then-block and, when present, the else-block
   * (an absent optional child may also arrive as the placeholder None).
   */
  function IfStatementRule(items: seq<Item>): (r: Result<Stmt>)
    ensures r.Ok? ==> r.value.IfStatement?
    ensures r.Ok? ==> (r.value.elseBlock.Some? <==> |items| > 2 && items[2].BlockItem?)
    ensures r.Ok? ==> |items| >= 2 && items[0].ExprItem? && items[1].BlockItem?
    ensures r.Ok? ==> r.value.cond == items[0].e && r.value.thenBlock == items[1].b
    ensures r.Ok? && r.value.elseBlock.Some? ==> r.value.elseBlock.value == items[2].b
  {
    if |items| < 2 then Err(MissingChild)
    else if !(items[0].ExprItem? && items[1].BlockItem?) then Err(WrongKind)
    else if |items| == 2 || items[2].NoneItem? then Ok(IfStatement(items[0].e, items[1].b, None))
    else if items[2].BlockItem? then Ok(IfStatement(items[0].e, items[1].b, Some(items[2].b)))
    else Err(WrongKind)
  }

  /** The arguments of a call: the list argument_list built, when there is one. */
  function ArgumentsOf(items: seq<Item>): (r: Result<seq<Expr>>)
    ensures |items| <= 1 ==> r == Ok([])
    ensures |items| > 1 && r.Ok? ==> items[1] == ListItem(Wrap(r.value))
  {
    if |items| <= 1 then Ok([])
    else if items[1].ListItem? then AsExprs(items[1].elems)
    else Err(WrongKind)
  }

  function ArgumentChildren(args: seq<Expr>): (items: seq<Item>)
    ensures ArgumentsOf([Tok(CNAME, "")] + items) == Ok(args)
  {
    AsExprsWrap(args);
    if args == [] then [] else [ListItem(Wrap(args))]
  }

  /** call_statement: the callee name token and the argument list, empty when absent. */
  function CallStatementRule(items: seq<Item>): (r: Result<Stmt>)
    ensures |items| == 0 ==> r == Err(MissingChild)
    ensures r.Ok? ==> items[0].Tok? && r.value.CallStatement? && r.value.name == items[0].text
    ensures r.Ok? ==> ArgumentsOf(items) == Ok(r.value.args)
    ensures |items| == 1 && items[0].Tok? ==> r == Ok(CallStatement(items[0].text, []))
  {
    if |items| == 0 then Err(MissingChild)
    else match (TokenText(items[0]), ArgumentsOf(items))
      case (Ok(name), Ok(args)) => Ok(CallStatement(name, args))
      case (Err(x), _) => Err(x)
      case (_, Err(x)) => Err(x)
  }

  /** return_statement: the returned expression. */
  function ReturnStatementRule(items: seq<Item>): (r: Result<Stmt>)
    ensures r.Ok? <==> |items| > 0 && items[0].ExprItem?
    ensures r.Ok? ==> r.value.ReturnStatement? && r.value.value == items[0].e
  {
    if |items| == 0 then Err(MissingChild)
    else match AsExpr(items[0])
      case Ok(e) => Ok(ReturnStatement(e))
      case Err(x) => Err(x)
  }

  /** comment: the cleaned text of the comment token. */
  function CommentRule(items: seq<Item>): (r: Result<Stmt>)
    ensures r.Ok? ==> |items| > 0 && items[0].Tok?
    ensures r.Ok? ==> r.value.Comment? && |r.value.text| <= |items[0].text|
    ensures |items| > 0 && items[0].Tok? ==> r == Ok(Comment(CommentText(items[0].text)))
  {
    if |items| == 0 then Err(MissingChild)
    else match TokenText(items[0])
      case Ok(text) => Ok(Comment(CommentText(text)))
      case Err(x) => Err(x)
  }

  /** The rule that builds each kind of statement. */
  datatype StatementRuleName =
    | AssignmentR | ForLoopR | WhileLoopR | RepeatLoopR | IfStatementR | CallStatementR | ReturnStatementR | CommentR

  function ApplyStatementRule(rule: StatementRuleName, items: seq<Item>): Result<Stmt>
  {
    match rule
    case AssignmentR => AssignmentRule(items)
    case ForLoopR => ForLoopRule(items)
    case WhileLoopR => WhileLoopRule(items)
    case RepeatLoopR => RepeatLoopRule(items)
    case IfStatementR => IfStatementRule(items)
    case CallStatementR => CallStatementRule(items)
    case ReturnStatementR => ReturnStatementRule(items)
    case CommentR => CommentRule(items)
  }

  function RuleOf(s: Stmt): StatementRuleName
  {
    match s
    case Assignment(_, _) => AssignmentR
    case ForLoop(_, _, _, _) => ForLoopR
    case WhileLoop(_, _) => WhileLoopR
    case RepeatLoop(_, _) => RepeatLoopR
    case IfStatement(_, _, _) => IfStatementR
    case CallStatement(_, _) => CallStatementR
    case ReturnStatement(_) => ReturnStatementR
    case Comment(_) => CommentR
  }

  /** A comment's text is already what the comment rule leaves of it. */
  predicate CleanComment(s: Stmt)
  {
    s.Comment? ==> CommentText(s.text) == s.text
  }

  /** `while c do body` hands the rule the condition and the body. */
  function WhileLoopChildren(cond: Expr, body: Block): (items: seq<Item>)
    ensures WhileLoopRule(items) == Ok(WhileLoop(cond, body))
  {
    [ExprItem(cond), BlockItem(body)]
  }

  /** `repeat body until c` hands the rule each body statement, then the condition. */
  function RepeatLoopChildren(body: seq<Stmt>, cond: Expr): (items: seq<Item>)
    ensures RepeatLoopRule(items) == Ok(RepeatLoop(body, cond))
  {
    var items := StmtItems(body) + [ExprItem(cond)];
    assert items[..|items| - 1] == StmtItems(body);
    assert RepeatLoopRule(items).value.statements == body;
    items
  }

  /** `if c then b1 else b2` hands the rule the condition and one or two blocks. */
  function IfStatementChildren(cond: Expr, thenBlock: Block, elseBlock: Option<Block>): (items: seq<Item>)
    ensures IfStatementRule(items) == Ok(IfStatement(cond, thenBlock, elseBlock))
  {
    match elseBlock
    case Some(b) => [ExprItem(cond), BlockItem(thenBlock), BlockItem(b)]
    case None => [ExprItem(cond), BlockItem(thenBlock)]
  }

  /** `call f(args)` hands the rule the callee name token and the argument list. */
  function CallStatementChildren(name: string, args: seq<Expr>): (items: seq<Item>)
    ensures CallStatementRule(items) == Ok(CallStatement(name, args))
  {
    var rest := ArgumentChildren(args);
    var items := [Tok(CNAME, name)] + rest;
    assert ArgumentsOf(items) == ArgumentsOf([Tok(CNAME, "")] + rest);
    items
  }

  /** `return e` hands the rule the expression. */
  function ReturnStatementChildren(value: Expr): (items: seq<Item>)
    ensures ReturnStatementRule(items) == Ok(ReturnStatement(value))
  {
    [ExprItem(value)]
  }

  /** A comment hands the rule its token; a text the rule already leaves unchanged comes back as it is. */
  function CommentChildren(text: string): (items: seq<Item>)
    requires CommentText(text) == text
    ensures CommentRule(items) == Ok(Comment(text))
  {
    [Tok("COMMENT", text)]
  }

  /** The children the grammar hands the rule of each statement kind. */
  function StatementChildren(s: Stmt): seq<Item>
    requires CleanComment(s)
  {
    match s
    case Assignment(target, value) => AssignmentChildren(target, value)
    case ForLoop(counter, start, end, body) => ForLoopChildren(counter, start, end, body)
    case WhileLoop(cond, body) => WhileLoopChildren(cond, body)
    case RepeatLoop(body, cond) => RepeatLoopChildren(body, cond)
    case IfStatement(cond, thenBlock, elseBlock) => IfStatementChildren(cond, thenBlock, elseBlock)
    case CallStatement(name, args) => CallStatementChildren(name, args)
    case ReturnStatement(value) => ReturnStatementChildren(value)
    case Comment(text) => CommentChildren(text)
  }

  /** Every statement, laid out as the children of its production, is rebuilt by the rule of its kind. */
  lemma StatementRoundTrip(s: Stmt)
    requires CleanComment(s)
    ensures ApplyStatementRule(RuleOf(s), StatementChildren(s)) == Ok(s)
  {
    if s.Assignment? || s.ForLoop? || s.WhileLoop? || s.RepeatLoop? {
      AssignmentAndLoopRoundTrip(s);
    } else {
      OtherStatementRoundTrip(s);
    }
  }

  lemma AssignmentAndLoopRoundTrip(s: Stmt)
    requires s.Assignment? || s.ForLoop? || s.WhileLoop? || s.RepeatLoop?
    ensures ApplyStatementRule(RuleOf(s), StatementChildren(s)) == Ok(s)
  {
    match s {
      case Assignment(target, value) =>
        var items := AssignmentChildren(target, value);
        assert StatementChildren(s) == items;
        assert ApplyStatementRule(AssignmentR, items) == AssignmentRule(items);
      case ForLoop(counter, start, end, body) =>
        var items := ForLoopChildren(counter, start, end, body);
        assert StatementChildren(s) == items;
        assert ApplyStatementRule(ForLoopR, items) == ForLoopRule(items);
      case WhileLoop(cond, body) =>
        var items := WhileLoopChildren(cond, body);
        assert StatementChildren(s) == items;
        assert ApplyStatementRule(WhileLoopR, items) == WhileLoopRule(items);
      case RepeatLoop(body, cond) =>
        var items := RepeatLoopChildren(body, cond);
        assert StatementChildren(s) == items;
        assert ApplyStatementRule(RepeatLoopR, items) == RepeatLoopRule(items);
    }
  }

  lemma OtherStatementRoundTrip(s: Stmt)
    requires CleanComment(s)
    requires s.IfStatement? || s.CallStatement? || s.ReturnStatement? || s.Comment?
    ensures ApplyStatementRule(RuleOf(s), StatementChildren(s)) == Ok(s)
  {
    match s {
      case IfStatement(cond, thenBlock, elseBlock) =>
        var items := IfStatementChildren(cond, thenBlock, elseBlock);
        assert StatementChildren(s) == items;
        assert ApplyStatementRule(IfStatementR, items) == IfStatementRule(items);
      case CallStatement(name, args) =>
        var items := CallStatementChildren(name, args);
        assert StatementChildren(s) == items;
        assert ApplyStatementRule(CallStatementR, items) == CallStatementRule(items);
      case ReturnStatement(value) =>
        var items := ReturnStatementChildren(value);
        assert StatementChildren(s) == items;
        assert ApplyStatementRule(ReturnStatementR, items) == ReturnStatementRule(items);
      case Comment(text) =>
        var items := CommentChildren(text);
        assert StatementChildren(s) == items;
        assert ApplyStatementRule(CommentR, items) == CommentRule(items);
    }
  }

  /** block: the statement children, in order; anything else is dropped. */
  function BlockRule(items: seq<Item>): (b: Block)
    ensures |b.statements| <= |items|
    ensures forall k :: 0 <= k < |b.statements| ==> StmtItem(b.statements[k]) in items
  {
    StatementsFromChildren(items);
    Block(Gather(items, StmtOf))
  }

  /** The statements gathered from children are at most one per child, and each is one of the children. */
  lemma {:induction false} StatementsFromChildren(items: seq<Item>)
    ensures |Gather(items, StmtOf)| <= |items|
    ensures forall k :: 0 <= k < |Gather(items, StmtOf)| ==> StmtItem(Gather(items, StmtOf)[k]) in items
    decreases |items|
  {
    if items != [] {
      var n := |items|;
      var prefix := items[..n - 1];
      StatementsFromChildren(prefix);
      var a := Gather(prefix, StmtOf);
      var b := StmtOf(items[n - 1]);
      forall k | 0 <= k < |a + b|
        ensures StmtItem((a + b)[k]) in items
      {
        if k < |a| {
          assert (a + b)[k] == a[k];
          assert StmtItem(a[k]) in prefix;
        } else {
          assert (a + b)[k] == b[k - |a|] && items[n - 1] == StmtItem(b[k - |a|]);
        }
      }
    }
  }

  /** A block built from the statement children of two runs of children holds the statements of the first run, then those of the second. */
  lemma BlockRuleConcatenates(a: seq<Item>, b: seq<Item>)
    ensures BlockRule(a + b).statements == BlockRule(a).statements + BlockRule(b).statements
  {
    GatherAppend(a, b, StmtOf);
  }

  /** A block's statements, handed to the block rule, rebuild the block. */
  lemma BlockRoundTrip(b: Block)
    ensures BlockRule(StmtItems(b.statements)) == b
  {
    GatherEach(StmtItems(b.statements), StmtOf, b.statements);
  }

  // ---------------------------------------------------------------------
  // Variables and special functions
  // ---------------------------------------------------------------------

  /**
   * variable: one refinement, chosen by the shape of the children: a lone
   * name is bare; a name token second selects a field, indexed by the
   * children after it; the pair built by `range` second selects a range;
   * anything else makes every child after the name an index.
   */
  function VariableRule(items: seq<Item>): (r: Result<Variable>)
    ensures r.Ok? ==> |items| > 0 && items[0].Tok? && items[0].text == r.value.name
    ensures r.Ok? ==> (r.value.access.Bare? <==> |items| == 1)
    ensures r.Ok? ==> (r.value.access.Field? <==> |items| >= 2 && items[1].Tok? && items[1].kind == CNAME)
    ensures r.Ok? ==> (r.value.access.Range? <==> |items| >= 2 && items[1].PairItem?)
    ensures r.Ok? && r.value.access.Field? ==>
      items[1].text == r.value.access.field && Wrap(r.value.access.fieldIndices) == items[2..]
    ensures r.Ok? && r.value.access.Range? ==>
      items[1] == PairItem(r.value.access.start, r.value.access.end)
    ensures r.Ok? && r.value.access.Indexed? ==> Wrap(r.value.access.indices) == items[1..]
  {
    if |items| == 0 then Err(MissingChild)
    else match TokenText(items[0])
      case Err(x) => Err(x)
      case Ok(name) =>
        if |items| == 1 then Ok(Variable(name, Bare))
        else if items[1].Tok? && items[1].kind == CNAME then
          (match AsExprs(items[2..])
           case Ok(fieldIndices) => Ok(Variable(name, Field(items[1].text, fieldIndices)))
           case Err(x) => Err(x))
        else if items[1].PairItem? then Ok(Variable(name, Range(items[1].first, items[1].second)))
        else match AsExprs(items[1..])
          case Ok(indices) => Ok(Variable(name, Indexed(indices)))
          case Err(x) => Err(x)
  }

  /** The parser never produces an indexed variable without an index. */
  predicate WellFormedVariable(v: Variable)
  {
    v.access.Indexed? ==> |v.access.indices| > 0
  }

  /** The children of each variable form; the variable rule picks the same refinement back. */
  function VariableChildren(v: Variable): (items: seq<Item>)
    requires WellFormedVariable(v)
    ensures VariableRule(items) == Ok(v)
  {
    var name := Tok(CNAME, v.name);
    match v.access
    case Bare => [name]
    case Indexed(indices) =>
      var items := [name] + Wrap(indices);
      assert items[1..] == Wrap(indices);
      AsExprsWrap(indices);
      items
    case Field(field, fieldIndices) =>
      var items := [name, Tok(CNAME, field)] + Wrap(fieldIndices);
      assert items[2..] == Wrap(fieldIndices);
      AsExprsWrap(fieldIndices);
      items
    case Range(start, end) => [name, PairItem(start, end)]
  }

  /** range: the two bounds as a pair. */
  function RangeRule(items: seq<Item>): (r: Result<Item>)
    ensures r.Ok? <==> |items| >= 2 && items[0].ExprItem? && items[1].ExprItem?
    ensures r.Ok? ==> r.value == PairItem(items[0].e, items[1].e)
  {
    if |items| < 2 then Err(MissingChild)
    else if items[0].ExprItem? && items[1].ExprItem? then Ok(PairItem(items[0].e, items[1].e))
    else Err(WrongKind)
  }

  /** function_call: the callee name token and the argument list, empty when absent. */
  function FunctionCallRule(items: seq<Item>): (r: Result<Expr>)
    ensures r.Ok? ==> |items| > 0 && items[0].Tok?
    ensures r.Ok? ==> r.value.FunctionCall? && items[0].text == r.value.name
    ensures r.Ok? ==> ArgumentsOf(items) == Ok(r.value.args)
  {
    if |items| == 0 then Err(MissingChild)
    else match (TokenText(items[0]), ArgumentsOf(items))
      case (Ok(name), Ok(args)) => Ok(FunctionCall(name, args))
      case (Err(x), _) => Err(x)
      case (_, Err(x)) => Err(x)
  }

  /** `f(a, b)` hands the rule the name token and the argument list; `f()` only the name. */
  function FunctionCallChildren(name: string, args: seq<Expr>): (items: seq<Item>)
    ensures FunctionCallRule(items) == Ok(FunctionCall(name, args))
  {
    var rest := ArgumentChildren(args);
    var items := [Tok(CNAME, name)] + rest;
    assert ArgumentsOf(items) == ArgumentsOf([Tok(CNAME, "")] + rest);
    items
  }

  /** length: the measured variable. */
  function LengthRule(items: seq<Item>): (r: Result<Expr>)
    ensures r.Ok? <==> |items| > 0 && items[0].ExprItem? && items[0].e.Var?
    ensures r.Ok? ==> r == Ok(Length(items[0].e.v))
  {
    if |items| == 0 then Err(MissingChild)
    else if items[0].ExprItem? && items[0].e.Var? then Ok(Length(items[0].e.v))
    else Err(WrongKind)
  }

  /** ceiling: the bracketed expression. */
  function CeilingRule(items: seq<Item>): (r: Result<Expr>)
    ensures r.Ok? <==> |items| > 0 && items[0].ExprItem?
    ensures r.Ok? ==> r.value == Ceiling(items[0].e)
  {
    if |items| == 0 then Err(MissingChild)
    else match AsExpr(items[0])
      case Ok(e) => Ok(Ceiling(e))
      case Err(x) => Err(x)
  }

  /** floor: the bracketed expression. */
  function FloorRule(items: seq<Item>): (r: Result<Expr>)
    ensures r.Ok? <==> |items| > 0 && items[0].ExprItem?
    ensures r.Ok? ==> r.value == Floor(items[0].e)
  {
    if |items| == 0 then Err(MissingChild)
    else match AsExpr(items[0])
      case Ok(e) => Ok(Floor(e))
      case Err(x) => Err(x)
  }
}
