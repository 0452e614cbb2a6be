/**
 * The transformer's top-level rules: program, algorithm, main_algorithm and
 * subroutine_definition. Each walks its children once, appending AST nodes
 * to lists by kind (and extending them with the lists that the
 * list-building rules return); that walk is a method with a loop, proved
 * equal to a gather over the children.
 */
module Structure {
  import opened Ast
  import opened ParseItems
  import opened Rules

  // ---------------------------------------------------------------------
  // What each child contributes
  // ---------------------------------------------------------------------

  function ClassOf(it: Item): seq<ClassDefinition>
  {
    if it.ClassItem? then [it.c] else []
  }

  function AlgorithmOf(it: Item): Option<Algorithm>
  {
    if it.AlgorithmItem? then Some(it.alg) else None
  }

  function SubroutineOf(it: Item): seq<Subroutine>
  {
    if it.SubroutineItem? then [it.sub] else []
  }

  function MainOf(it: Item): Option<MainAlgorithm>
  {
    if it.MainItem? then Some(it.main) else None
  }

  predicate AllParams(elems: seq<Item>)
  {
    forall k :: 0 <= k < |elems| ==> elems[k].ParamItem?
  }

  predicate AllDecls(elems: seq<Item>)
  {
    forall k :: 0 <= k < |elems| ==> elems[k].DeclItem?
  }

  /** A parameter child, or the list parameter_list built when all of it is parameters. */
  function ParamsOf(it: Item): seq<Parameter>
  {
    match it
    case ParamItem(p) => [p]
    case ListItem(elems) =>
      if AllParams(elems) then seq(|elems|, k requires 0 <= k < |elems| => elems[k].p) else []
    case _ => []
  }

  /**
   * A declaration child, or the list local_declarations built when all of it
   * is declarations. In a subroutine a list is first tried as parameters; a
   * non-empty list cannot be both, and an empty one adds nothing either way,
   * so the same contribution serves both rules.
   */
  function DeclsOf(it: Item): seq<Declaration>
  {
    match it
    case DeclItem(d) => [d]
    case ListItem(elems) =>
      if AllDecls(elems) then seq(|elems|, k requires 0 <= k < |elems| => elems[k].d) else []
    case _ => []
  }

  // ---------------------------------------------------------------------
  // Specifications of the four rules
  // ---------------------------------------------------------------------

  /** program: every class definition, in order, and the last algorithm child. */
  function ProgramOf(items: seq<Item>): Program
  {
    Program(Gather(items, ClassOf), Last(items, AlgorithmOf))
  }

  /** algorithm: every subroutine, in order, and the last main algorithm child. */
  function AlgorithmNodeOf(items: seq<Item>): Algorithm
  {
    Algorithm(Gather(items, SubroutineOf), Last(items, MainOf))
  }

  /** main_algorithm: every declaration, single or from a declaration list, and every statement, each in order. */
  function MainAlgorithmOf(items: seq<Item>): MainAlgorithm
  {
    MainAlgorithm(Gather(items, DeclsOf), Gather(items, StmtOf))
  }

  /** subroutine_definition: the name token, then the parameters, declarations and statements among the other children. */
  function SubroutineDefinitionOf(items: seq<Item>): (r: Result<Subroutine>)
    ensures r.Ok? <==> |items| > 0 && items[0].Tok?
  {
    if |items| == 0 then Err(MissingChild)
    else match TokenText(items[0])
      case Ok(name) =>
        var rest := items[1..];
        Ok(Subroutine(name, Gather(rest, ParamsOf), Gather(rest, DeclsOf), Gather(rest, StmtOf)))
      case Err(x) => Err(x)
  }

  // ---------------------------------------------------------------------
  // The rules as the source writes them: one pass over the children
  // ---------------------------------------------------------------------

  lemma GatherStep<T>(items: seq<Item>, i: nat, f: Item -> seq<T>)
    requires i < |items|
    ensures Gather(items[..i + 1], f) == Gather(items[..i], f) + f(items[i])
  {
    assert items[..i + 1][..i] == items[..i];
  }

  lemma LastStep<T>(items: seq<Item>, i: nat, pick: Item -> Option<T>)
    requires i < |items|
    ensures Last(items[..i + 1], pick) == if pick(items[i]).Some? then pick(items[i]) else Last(items[..i], pick)
  {
    assert items[..i + 1][..i] == items[..i];
  }

  method ProgramRule(items: seq<Item>) returns (p: Program)
    ensures p == ProgramOf(items)
  {
    var classes: seq<ClassDefinition> := [];
    var algorithm: Option<Algorithm> := None;
    for i := 0 to |items|
      invariant classes == Gather(items[..i], ClassOf)
      invariant algorithm == Last(items[..i], AlgorithmOf)
    {
      GatherStep(items, i, ClassOf);
      LastStep(items, i, AlgorithmOf);
      if items[i].ClassItem? {
        classes := classes + [items[i].c];
      } else if items[i].AlgorithmItem? {
        algorithm := Some(items[i].alg);
      }
    }
    assert items[..|items|] == items;
    p := Program(classes, algorithm);
  }

  method AlgorithmRule(items: seq<Item>) returns (a: Algorithm)
    ensures a == AlgorithmNodeOf(items)
  {
    var subroutines: seq<Subroutine> := [];
    var main: Option<MainAlgorithm> := None;
    for i := 0 to |items|
      invariant subroutines == Gather(items[..i], SubroutineOf)
      invariant main == Last(items[..i], MainOf)
    {
      GatherStep(items, i, SubroutineOf);
      LastStep(items, i, MainOf);
      if items[i].SubroutineItem? {
        subroutines := subroutines + [items[i].sub];
      } else if items[i].MainItem? {
        main := Some(items[i].main);
      }
    }
    assert items[..|items|] == items;
    a := Algorithm(subroutines, main);
  }

  method MainAlgorithmRule(items: seq<Item>) returns (m: MainAlgorithm)
    ensures m == MainAlgorithmOf(items)
  {
    var declarations: seq<Declaration> := [];
    var statements: seq<Stmt> := [];
    for i := 0 to |items|
      invariant declarations == Gather(items[..i], DeclsOf)
      invariant statements == Gather(items[..i], StmtOf)
    {
      GatherStep(items, i, DeclsOf);
      GatherStep(items, i, StmtOf);
      var item := items[i];
      if item.DeclItem? {
        declarations := declarations + [item.d];
      } else if item.ListItem? && AllDecls(item.elems) {
        declarations := declarations + seq(|item.elems|, k requires 0 <= k < |item.elems| => item.elems[k].d);
      } else if item.StmtItem? {
        statements := statements + [item.s];
      }
    }
    assert items[..|items|] == items;
    m := MainAlgorithm(declarations, statements);
  }

  method SubroutineDefinitionRule(items: seq<Item>) returns (r: Result<Subroutine>)
    ensures r == SubroutineDefinitionOf(items)
  {
    if |items| == 0 {
      return Err(MissingChild);
    }
    if !items[0].Tok? {
      return Err(WrongKind);
    }
    var name := items[0].text;
    var rest := items[1..];
    var parameters: seq<Parameter> := [];
    var declarations: seq<Declaration> := [];
    var statements: seq<Stmt> := [];
    for i := 0 to |rest|
      invariant parameters == Gather(rest[..i], ParamsOf)
      invariant declarations == Gather(rest[..i], DeclsOf)
      invariant statements == Gather(rest[..i], StmtOf)
    {
      GatherStep(rest, i, ParamsOf);
      GatherStep(rest, i, DeclsOf);
      GatherStep(rest, i, StmtOf);
      var item := rest[i];
      if item.ParamItem? {
        parameters := parameters + [item.p];
      } else if item.ListItem? {
        if AllParams(item.elems) {
          parameters := parameters + seq(|item.elems|, k requires 0 <= k < |item.elems| => item.elems[k].p);
          if item.elems != [] {
            assert item.elems[0].ParamItem?;
          }
          assert item.elems == [] || !AllDecls(item.elems);
        } else if AllDecls(item.elems) {
          declarations := declarations + seq(|item.elems|, k requires 0 <= k < |item.elems| => item.elems[k].d);
        }
      } else if item.DeclItem? {
        declarations := declarations + [item.d];
      } else if item.StmtItem? {
        statements := statements + [item.s];
      }
    }
    assert rest[..|rest|] == rest;
    r := Ok(Subroutine(name, parameters, declarations, statements));
  }

  // ---------------------------------------------------------------------
  // Round trips: the children the grammar hands each rule rebuild the node
  // ---------------------------------------------------------------------

  function ClassItems(cs: seq<ClassDefinition>): (items: seq<Item>)
    ensures |items| == |cs| && forall k :: 0 <= k < |cs| ==> items[k] == ClassItem(cs[k])
  {
    seq(|cs|, k requires 0 <= k < |cs| => ClassItem(cs[k]))
  }

  function SubroutineItems(ss: seq<Subroutine>): (items: seq<Item>)
    ensures |items| == |ss| && forall k :: 0 <= k < |ss| ==> items[k] == SubroutineItem(ss[k])
  {
    seq(|ss|, k requires 0 <= k < |ss| => SubroutineItem(ss[k]))
  }

  function DeclItems(ds: seq<Declaration>): (items: seq<Item>)
    ensures |items| == |ds| && forall k :: 0 <= k < |ds| ==> items[k] == DeclItem(ds[k])
  {
    seq(|ds|, k requires 0 <= k < |ds| => DeclItem(ds[k]))
  }

  function ParamItems(ps: seq<Parameter>): (items: seq<Item>)
    ensures |items| == |ps| && forall k :: 0 <= k < |ps| ==> items[k] == ParamItem(ps[k])
  {
    seq(|ps|, k requires 0 <= k < |ps| => ParamItem(ps[k]))
  }

  /** An optional child: present as one child, or absent. */
  function Optional(present: bool, it: Item): seq<Item>
  {
    if present then [it] else []
  }

  /** `class_definition* algorithm`: the classes, then the algorithm when there is one. */
  function ProgramChildren(p: Program): (items: seq<Item>)
    ensures ProgramOf(items) == p
  {
    var classes := ClassItems(p.classes);
    var tail := if p.algorithm.Some? then [AlgorithmItem(p.algorithm.value)] else [];
    GatherEach(classes, ClassOf, p.classes);
    GatherAppend(classes, tail, ClassOf);
    GatherNone(tail, ClassOf);
    assert Last(classes + tail, AlgorithmOf) == p.algorithm by {
      if p.algorithm.None? {
        assert classes + tail == classes;
      }
    }
    classes + tail
  }

  /** `subroutine_definition* main_algorithm`: the subroutines, then the main algorithm when there is one. */
  function AlgorithmChildren(a: Algorithm): (items: seq<Item>)
    ensures AlgorithmNodeOf(items) == a
  {
    var subs := SubroutineItems(a.subroutines);
    var tail := if a.main.Some? then [MainItem(a.main.value)] else [];
    GatherEach(subs, SubroutineOf, a.subroutines);
    GatherAppend(subs, tail, SubroutineOf);
    GatherNone(tail, SubroutineOf);
    assert Last(subs + tail, MainOf) == a.main by {
      if a.main.None? {
        assert subs + tail == subs;
      }
    }
    subs + tail
  }

  /** The declaration list built by local_declarations, when there is a declaration. */
  function DeclarationList(ds: seq<Declaration>): (items: seq<Item>)
    ensures Gather(items, DeclsOf) == ds
    ensures Gather(items, StmtOf) == [] && Gather(items, ParamsOf) == []
  {
    DeclarationListContributes(ds);
    Optional(ds != [], ListItem(DeclItems(ds)))
  }

  lemma DeclarationListContributes(ds: seq<Declaration>)
    ensures var items := Optional(ds != [], ListItem(DeclItems(ds)));
      Gather(items, DeclsOf) == ds && Gather(items, StmtOf) == [] && Gather(items, ParamsOf) == []
  {
    var items := Optional(ds != [], ListItem(DeclItems(ds)));
    GatherNone(items, StmtOf);
    if ds != [] {
      GatherOne(ListItem(DeclItems(ds)), DeclsOf);
      GatherOne(ListItem(DeclItems(ds)), ParamsOf);
      assert !AllParams(DeclItems(ds)) by {
        assert !DeclItems(ds)[0].ParamItem?;
      }
      assert DeclsOf(ListItem(DeclItems(ds))) == ds;
    }
  }

  lemma ParameterListContributes(ps: seq<Parameter>)
    ensures var items := Optional(ps != [], ListItem(ParamItems(ps)));
      Gather(items, ParamsOf) == ps && Gather(items, StmtOf) == [] && Gather(items, DeclsOf) == []
  {
    var items := Optional(ps != [], ListItem(ParamItems(ps)));
    GatherNone(items, StmtOf);
    if ps != [] {
      GatherOne(ListItem(ParamItems(ps)), ParamsOf);
      GatherOne(ListItem(ParamItems(ps)), DeclsOf);
      assert !AllDecls(ParamItems(ps)) by {
        assert !ParamItems(ps)[0].DeclItem?;
      }
      assert ParamsOf(ListItem(ParamItems(ps))) == ps;
    }
  }

  /** Statement children add no declaration and no parameter. */
  lemma StatementsAddNothingElse(ss: seq<Stmt>)
    ensures Gather(StmtItems(ss), StmtOf) == ss
    ensures Gather(StmtItems(ss), DeclsOf) == [] && Gather(StmtItems(ss), ParamsOf) == []
  {
    GatherEach(StmtItems(ss), StmtOf, ss);
    GatherNone(StmtItems(ss), DeclsOf);
    GatherNone(StmtItems(ss), ParamsOf);
  }

  /** `begin local_declarations? statement* end`: the declaration list, then the statements. */
  function MainAlgorithmChildren(m: MainAlgorithm): (items: seq<Item>)
    ensures MainAlgorithmOf(items) == m
  {
    var decls := DeclarationList(m.declarations);
    var body := StmtItems(m.body);
    StatementsAddNothingElse(m.body);
    GatherAppend(decls, body, DeclsOf);
    GatherAppend(decls, body, StmtOf);
    decls + body
  }

  /**
   * `name ( parameter_list? ) begin local_declarations? statement* end`: the
   * name token, the parameter list, the declaration list, then the statements.
   */
  function SubroutineChildren(s: Subroutine): (items: seq<Item>)
    ensures SubroutineDefinitionOf(items) == Ok(s)
  {
    var params := Optional(s.parameters != [], ListItem(ParamItems(s.parameters)));
    var decls := DeclarationList(s.declarations);
    var body := StmtItems(s.body);
    var rest := params + decls + body;
    SubroutineChildrenGather(s, params, decls, body);
    var items := [Tok(CNAME, s.name)] + rest;
    assert items[1..] == rest;
    items
  }

  lemma SubroutineChildrenGather(s: Subroutine, params: seq<Item>, decls: seq<Item>, body: seq<Item>)
    requires params == Optional(s.parameters != [], ListItem(ParamItems(s.parameters)))
    requires decls == DeclarationList(s.declarations)
    requires body == StmtItems(s.body)
    ensures Gather(params + decls + body, ParamsOf) == s.parameters
    ensures Gather(params + decls + body, DeclsOf) == s.declarations
    ensures Gather(params + decls + body, StmtOf) == s.body
  {
    StatementsAddNothingElse(s.body);
    ParameterListContributes(s.parameters);
    assert Gather(params + decls, ParamsOf) == s.parameters by {
      GatherAppend(params, decls, ParamsOf);
    }
    assert Gather(params + decls, DeclsOf) == s.declarations by {
      GatherAppend(params, decls, DeclsOf);
    }
    assert Gather(params + decls, StmtOf) == [] by {
      GatherAppend(params, decls, StmtOf);
    }
    GatherAppend(params + decls, body, ParamsOf);
    GatherAppend(params + decls, body, DeclsOf);
    GatherAppend(params + decls, body, StmtOf);
  }

  // ---------------------------------------------------------------------
  // Properties of the walks
  // ---------------------------------------------------------------------

  /** Of several algorithm children, the program keeps the last; classes before and after it are all kept. */
  lemma LastAlgorithmWins(before: seq<Item>, a: Algorithm, after: seq<ClassDefinition>)
    ensures ProgramOf(before + [AlgorithmItem(a)] + ClassItems(after)) ==
      Program(Gather(before, ClassOf) + after, Some(a))
  {
    var head := before + [AlgorithmItem(a)];
    var tail := ClassItems(after);
    assert Gather(tail, ClassOf) == after by {
      GatherEach(tail, ClassOf, after);
    }
    assert Gather(head, ClassOf) == Gather(before, ClassOf) by {
      GatherAppend(before, [AlgorithmItem(a)], ClassOf);
      GatherOne(AlgorithmItem(a), ClassOf);
    }
    assert Gather(head + tail, ClassOf) == Gather(before, ClassOf) + after by {
      GatherAppend(head, tail, ClassOf);
    }
    assert Last(tail, AlgorithmOf) == None by {
      assert forall k :: 0 <= k < |tail| ==> AlgorithmOf(tail[k]).None?;
    }
    assert Last(head, AlgorithmOf) == Some(a) by {
      assert head[..|head| - 1] == before;
    }
    assert Last(head + tail, AlgorithmOf) == Some(a) by {
      LastAppend(head, tail, AlgorithmOf);
    }
  }

  /** Of several main algorithm children, the algorithm keeps the last. */
  lemma LastMainWins(before: seq<Item>, m: MainAlgorithm, after: seq<Subroutine>)
    ensures AlgorithmNodeOf(before + [MainItem(m)] + SubroutineItems(after)) ==
      Algorithm(Gather(before, SubroutineOf) + after, Some(m))
  {
    var head := before + [MainItem(m)];
    var tail := SubroutineItems(after);
    assert Gather(tail, SubroutineOf) == after by {
      GatherEach(tail, SubroutineOf, after);
    }
    assert Gather(head, SubroutineOf) == Gather(before, SubroutineOf) by {
      GatherAppend(before, [MainItem(m)], SubroutineOf);
      GatherOne(MainItem(m), SubroutineOf);
    }
    assert Gather(head + tail, SubroutineOf) == Gather(before, SubroutineOf) + after by {
      GatherAppend(head, tail, SubroutineOf);
    }
    assert Last(tail, MainOf) == None by {
      assert forall k :: 0 <= k < |tail| ==> MainOf(tail[k]).None?;
    }
    assert Last(head, MainOf) == Some(m) by {
      assert head[..|head| - 1] == before;
    }
    assert Last(head + tail, MainOf) == Some(m) by {
      LastAppend(head, tail, MainOf);
    }
  }

  /** A single declaration and a declaration list contribute alike: the list's declarations, in order. */
  lemma DeclarationListFlattens(d: Declaration, ds: seq<Declaration>)
    ensures MainAlgorithmOf([DeclItem(d), ListItem(DeclItems(ds))]).declarations == [d] + ds
  {
    GatherOne(DeclItem(d), DeclsOf);
    GatherOne(ListItem(DeclItems(ds)), DeclsOf);
    GatherAppend([DeclItem(d)], [ListItem(DeclItems(ds))], DeclsOf);
    assert [DeclItem(d)] + [ListItem(DeclItems(ds))] == [DeclItem(d), ListItem(DeclItems(ds))];
  }

  /** A list mixing declarations with anything else adds no declaration. */
  lemma MixedListIgnored(d: Declaration, s: Stmt)
    ensures MainAlgorithmOf([ListItem([DeclItem(d), StmtItem(s)])]) == MainAlgorithm([], [])
  {
    GatherOne(ListItem([DeclItem(d), StmtItem(s)]), DeclsOf);
    GatherOne(ListItem([DeclItem(d), StmtItem(s)]), StmtOf);
    assert !AllDecls([DeclItem(d), StmtItem(s)]) by {
      assert ![DeclItem(d), StmtItem(s)][1].DeclItem?;
    }
  }
}
