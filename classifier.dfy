/**
 * The algorithm classifier: labels each subroutine SIMPLE, ITERATIVE,
 * RECURSIVE or HYBRID from its loops and its self-calls, and the main block
 * SIMPLE or ITERATIVE from its loops.
 *
 * The source wraps these in an object that holds the program and never
 * changes it; here the program is a parameter.
 */
module Classifier {
  import opened Ast
  import opened LoopScan
  import opened RecursionScan

  datatype AlgorithmType = Iterative | Recursive | Hybrid | Simple

  /** The decision table: recursion and loops, recursion only, loops only, neither. */
  function Category(hasRecursion: bool, hasLoops: bool): (t: AlgorithmType)
    ensures t == Hybrid <==> hasRecursion && hasLoops
    ensures t == Recursive <==> hasRecursion && !hasLoops
    ensures t == Iterative <==> !hasRecursion && hasLoops
    ensures t == Simple <==> !hasRecursion && !hasLoops
  {
    if hasRecursion && hasLoops then Hybrid
    else if hasRecursion then Recursive
    else if hasLoops then Iterative
    else Simple
  }

  datatype SubroutineReport = SubroutineReport(
    name: string,
    kind: AlgorithmType,
    parameters: seq<string>,
    hasLoops: bool,
    hasRecursion: bool,
    loopCount: nat,
    loopKinds: set<LoopKind>,
    maxNesting: nat,
    recursiveCalls: nat,
    recursivePositions: seq<string>)

  /** The main block's report; `maxNesting` is only reported for an iterative block. */
  datatype MainReport = MainReport(kind: AlgorithmType, loopCount: nat, maxNesting: Option<nat>)

  datatype Classification = Classification(main: MainReport, subroutines: seq<SubroutineReport>)

  function ParameterNames(ps: seq<Parameter>): (names: seq<string>)
    ensures |names| == |ps| && forall k :: 0 <= k < |ps| ==> names[k] == ps[k].name
  {
    seq(|ps|, k requires 0 <= k < |ps| => ps[k].name)
  }

  /** The trail prefix under which a subroutine's top-level statements are recorded. */
  const BodyTrail := "body"

  /** What classifying a subroutine reports: loops scanned from level 0, self-calls searched under the trail `body`. */
  function SubroutineReportOf(sub: Subroutine): (r: SubroutineReport)
    ensures r.name == sub.name && r.parameters == ParameterNames(sub.parameters)
    ensures r.kind == Category(r.hasRecursion, r.hasLoops)
    ensures r.hasLoops <==> r.loopCount > 0
    ensures r.hasRecursion <==> r.recursiveCalls > 0
    ensures r.recursiveCalls == |r.recursivePositions|
  {
    var loops := LoopCount(sub.body);
    var calls := MatchCount(sub.name, sub.body);
    SubroutineReport(
      sub.name, Category(calls > 0, loops > 0), ParameterNames(sub.parameters),
      loops > 0, calls > 0, loops, LoopKinds(sub.body), LoopDepth(sub.body),
      calls, Positions(sub.name, sub.body, BodyTrail))
  }

  /** What classifying the main block reports. */
  function MainReportOf(main: MainAlgorithm): (r: MainReport)
    ensures r.kind == Iterative || r.kind == Simple
    ensures r.kind == Iterative <==> r.loopCount > 0
    ensures r.maxNesting.Some? <==> r.kind == Iterative
  {
    var loops := LoopCount(main.body);
    if loops > 0 then MainReport(Iterative, loops, Some(LoopDepth(main.body)))
    else MainReport(Simple, 0, None)
  }

  /** One report per subroutine, in order. */
  function ReportsOf(subs: seq<Subroutine>): (rs: seq<SubroutineReport>)
    ensures |rs| == |subs| && forall k :: 0 <= k < |subs| ==> rs[k] == SubroutineReportOf(subs[k])
  {
    seq(|subs|, k requires 0 <= k < |subs| => SubroutineReportOf(subs[k]))
  }

  // ---------------------------------------------------------------------
  // Properties of the reports
  // ---------------------------------------------------------------------

  /**
   * A subroutine report is consistent: it has loops exactly when it counts
   * one, records a loop kind, and reaches nesting level 1; nesting never
   * exceeds the count; the kinds are those of the counted loops; there is
   * one trail per self-call, each under `body`; and the label follows the
   * decision table.
   */
  lemma SubroutineReportFacts(sub: Subroutine)
    ensures var r := SubroutineReportOf(sub);
      && (r.hasLoops <==> r.loopCount > 0)
      && (r.hasLoops <==> r.loopKinds != {})
      && (r.hasLoops <==> r.maxNesting > 0)
      && r.maxNesting <= r.loopCount
      && r.loopCount == |Loops(sub.body)|
      && r.loopKinds == (set k | k in Loops(sub.body))
      && r.recursiveCalls == |r.recursivePositions|
      && (r.hasRecursion <==> |r.recursivePositions| > 0)
      && (forall k :: 0 <= k < |r.recursivePositions| ==> BodyTrail < r.recursivePositions[k])
      && r.kind == Category(r.hasRecursion, r.hasLoops)
  {
    LoopFacts(sub.body);
    LoopKindsEmpty(sub.body);
    PositionsFacts(sub.name, sub.body, BodyTrail);
  }

  /** The main block is iterative exactly when it has a loop, and then its nesting level is at least 1 and at most the loop count. */
  lemma MainReportFacts(main: MainAlgorithm)
    ensures var r := MainReportOf(main);
      && (r.kind == Iterative <==> LoopCount(main.body) > 0)
      && (r.kind == Simple <==> LoopCount(main.body) == 0)
      && r.loopCount == LoopCount(main.body)
      && (r.kind == Iterative ==> r.maxNesting.Some? && 1 <= r.maxNesting.value <= r.loopCount)
      && (r.kind == Simple ==> r.maxNesting.None?)
  {
    LoopFacts(main.body);
  }

  // ---------------------------------------------------------------------
  // The classifier as the source writes it
  // ---------------------------------------------------------------------

  method ClassifySubroutine(sub: Subroutine) returns (r: SubroutineReport)
    ensures r == SubroutineReportOf(sub)
  {
    var loopCount, maxNesting, loopKinds := ScanLoops(sub.body, 0);
    var recursiveCalls, positions := ScanRecursion(sub.name, sub.body, BodyTrail);
    var hasLoops := loopCount > 0;
    var hasRecursion := recursiveCalls > 0;
    var kind;
    if hasRecursion && hasLoops {
      kind := Hybrid;
    } else if hasRecursion {
      kind := Recursive;
    } else if hasLoops {
      kind := Iterative;
    } else {
      kind := Simple;
    }
    r := SubroutineReport(
      sub.name, kind, ParameterNames(sub.parameters), hasLoops, hasRecursion,
      loopCount, loopKinds, maxNesting, recursiveCalls, positions);
  }

  /** The program's algorithm and main block; the grammar always produces both. */
  predicate HasMain(p: Program)
  {
    p.algorithm.Some? && p.algorithm.value.main.Some?
  }

  method ClassifyMain(p: Program) returns (r: MainReport)
    requires HasMain(p)
    ensures r == MainReportOf(p.algorithm.value.main.value)
  {
    var loopCount, maxNesting, _ := ScanLoops(p.algorithm.value.main.value.body, 0);
    if loopCount > 0 {
      r := MainReport(Iterative, loopCount, Some(maxNesting));
    } else {
      r := MainReport(Simple, 0, None);
    }
  }

  method ClassifyAll(p: Program) returns (r: Classification)
    requires HasMain(p)
    ensures r.main == MainReportOf(p.algorithm.value.main.value)
    ensures r.subroutines == ReportsOf(p.algorithm.value.subroutines)
  {
    var main := ClassifyMain(p);
    var subs := p.algorithm.value.subroutines;
    var reports: seq<SubroutineReport> := [];
    for i := 0 to |subs|
      invariant reports == ReportsOf(subs[..i])
    {
      var report := ClassifySubroutine(subs[i]);
      reports := reports + [report];
    }
    assert subs[..|subs|] == subs;
    r := Classification(main, reports);
  }
}
