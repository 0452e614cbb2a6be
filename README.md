# Pseudocode transformer rules and algorithm classifier

This project is a Dafny model of two parts of the pseudocode analyser.

- **The transformer rules** (`app/parsing/transformer.py`). Each method of
  `PseudocodeTransformer` receives the already-transformed children of one
  parse-tree node and builds one AST node:
  - a program, a class, an algorithm, the main block, a subroutine;
  - declarations and parameters;
  - statements and blocks;
  - variables and the special functions;
  - literals;
  - the operator chains: left-folded `or`, `and`, comparison, arithmetic and
    term chains, the right-folded `^`, and unary signs and `not`.
- **The algorithm classifier** (`app/analysis/classifier.py`). It counts the
  loops of a subroutine, with their kinds and nesting depth. It finds the
  subroutine's calls to itself, with a position trail for each call. From
  these it labels the subroutine SIMPLE, ITERATIVE, RECURSIVE or HYBRID, and
  the main block SIMPLE or ITERATIVE.

How the modules are laid out:

- `ast.dfy` holds the AST, taken from the constructor calls the transformer
  makes.
- `items.dfy` holds the children a rule receives, as the sum type `Item`.
  A rule returns `Result`. `Err` models the three ways the Python rule fails:
  - a missing child (`IndexError`);
  - a child of a kind the rule cannot use;
  - a malformed number (`int()` raising `ValueError`).
- `text.dfy` and `literals.dfy` hold the literal tokens: numbers, booleans,
  comparison glyphs and comments.
- `folding.dfy` holds the operator chains. The loops that fold them are
  methods, each proved equal to a fold function. The fold functions are
  proved against their unfoldings, in both directions.
- `rules.dfy` holds the node-building rules. Most come with a function that
  lays a node out as the children the grammar hands the rule. Its contract is
  the round trip: the rule rebuilds that node from those children.
- `structure.dfy` holds the rules that walk their children with a loop
  (`program`, `algorithm`, `main_algorithm`, `subroutine_definition`). They are
  methods, each proved equal to a function that gathers the children it keeps.
- `loops.dfy` and `recursion.dfy` hold the classifier's two recursive scans.
  They are methods proved equal to specification functions. Those functions
  are in turn tied to reference enumerations of the loops and of the calls.
- `classifier.dfy` holds the reports and the decision table.
- `scenarios.dfy` works through the classifier on five programs from
  `tests/test_classifier.py`.

## Model

| member | source | states |
|---|---|---|
| `ParseItems.FirstChild` | app/parsing/transformer.py:57-59 | A pass-through rule (`start`, `statement`, `parameter`, `expression`, `atom`, `condition`) succeeds exactly when it has a child, and returns its first child. |
| `ParseItems.AsExprsWrap` | app/parsing/transformer.py:299-301 | Expressions wrapped as children, as `argument_list` returns them, read back as the same expressions. |
| `Structure.ProgramRule` | app/parsing/transformer.py:61-72 | The loop over the children keeps every class definition in order, and the last algorithm child. |
| `Structure.ProgramChildren` | app/parsing/transformer.py:61-72 | Any program, laid out as classes followed by an optional algorithm, is rebuilt exactly by the program rule. |
| `Structure.LastAlgorithmWins` | app/parsing/transformer.py:66-70 | A later algorithm child replaces an earlier one. Classes before and after it are all kept, in order. |
| `Rules.AttributeList` | app/parsing/transformer.py:80-82 | Succeeds exactly when every child is a token; the result lists the token texts, in order. |
| `Rules.ClassDefinitionRule` | app/parsing/transformer.py:74-78 | Fewer than two children is a missing child. It succeeds exactly when the first child is a name token and the second a list of names. The class is named by the token, and its attributes are exactly the names in the list, in order. |
| `Rules.ClassChildren` | app/parsing/transformer.py:74-78 | Every class definition is rebuilt from its name token and the attribute-name list. |
| `Rules.AsStringsStrItems` | app/parsing/transformer.py:74-78 | A list of attribute names, handed to the class rule as a child, reads back as the same names. |
| `Structure.AlgorithmRule` | app/parsing/transformer.py:84-95 | The loop keeps every subroutine in order, and the last main block. |
| `Structure.AlgorithmChildren` | app/parsing/transformer.py:84-95 | Any algorithm, laid out as subroutines followed by an optional main block, is rebuilt exactly. |
| `Structure.LastMainWins` | app/parsing/transformer.py:89-93 | A later main-block child replaces an earlier one. Subroutines before and after it are all kept. |
| `Structure.MainAlgorithmRule` | app/parsing/transformer.py:97-115 | The loop keeps every declaration and every statement, in order. A declaration counts whether it comes alone or inside a declaration list. |
| `Structure.MainAlgorithmChildren` | app/parsing/transformer.py:97-115 | Any main block, laid out as an optional declaration list followed by its statements, is rebuilt exactly. |
| `Structure.DeclarationList` | app/parsing/transformer.py:152-154 | The list child `local_declarations` builds contributes exactly its declarations, and no statement or parameter. |
| `Structure.DeclarationListContributes` | app/parsing/transformer.py:152-154 | An optional declaration list, present only when non-empty, contributes exactly the declarations. |
| `Structure.ParameterListContributes` | app/parsing/transformer.py:177-179 | An optional parameter list, present only when non-empty, contributes exactly the parameters. |
| `Structure.StatementsAddNothingElse` | app/parsing/transformer.py:105-113 | Statement children contribute their statements, in order, and no declaration or parameter. |
| `Structure.DeclarationListFlattens` | app/parsing/transformer.py:105-111 | A single declaration followed by a declaration list yields the single one, then the list's declarations. |
| `Structure.MixedListIgnored` | app/parsing/transformer.py:105-113 | A list child mixing a declaration with anything else contributes nothing. |
| `Structure.SubroutineDefinitionOf` | app/parsing/transformer.py:117-150 | A subroutine is built exactly when the first child is the name token. |
| `Structure.SubroutineDefinitionRule` | app/parsing/transformer.py:117-150 | The loop over the children after the name keeps the parameters, the declarations and the statements, each in order. |
| `Structure.SubroutineChildren` | app/parsing/transformer.py:117-150 | Any subroutine, laid out as name, optional parameter list, optional declaration list and statements, is rebuilt exactly. |
| `Rules.LocalDeclaration` | app/parsing/transformer.py:156-175 | Fewer than two children is a missing child. The result is an array declaration exactly when the second of two children is the size expression, and then it carries that name and size. Otherwise it is an object declaration of the class named by the first token. |
| `Rules.DeclarationChildren` | app/parsing/transformer.py:156-175 | Every array and object declaration is rebuilt from the children its production gives. |
| `Rules.SimpleParameter` | app/parsing/transformer.py:185-187 | Succeeds exactly when the first child is a token, giving a simple parameter named by it. |
| `Rules.DimensionCount` | app/parsing/transformer.py:196-198 | The dimension count never exceeds the number of children. |
| `Rules.DimensionCountIsCardinality` | app/parsing/transformer.py:196-198 | The dimension count is the number of positions holding a size expression or an empty-bracket placeholder. |
| `Rules.ArrayParameter` | app/parsing/transformer.py:189-199 | Succeeds exactly when the first child is a name token. The name is that token's text, and the dimensions are the bracket-group count of the remaining children, which is always fewer than the children. |
| `Rules.DimensionCountAppend` | app/parsing/transformer.py:196-198 | The bracket-group count of two runs of children is the sum of their counts. |
| `Rules.ArrayParameterOfGroups` | app/parsing/transformer.py:189-199 | A name followed by any bracket groups, sized (`A[n][m]`), empty (`A[]`) or with the `..[e]` tail, is an array with one dimension per group. |
| `Rules.GroupsCount` | app/parsing/transformer.py:196-198 | Children that are all bracket groups count one dimension each. |
| `Rules.ArrayParameterSkipsOthers` | app/parsing/transformer.py:196-198 | A child that is neither an expression nor the None placeholder adds no dimension. |
| `Rules.ObjectParameter` | app/parsing/transformer.py:201-210 | Succeeds exactly when the first two children are tokens. The parameter is named by the SECOND token and has the class named by the first. |
| `Rules.PlaceholdersCount` | app/parsing/transformer.py:196-198 | `n` empty bracket groups count as `n` dimensions. |
| `Rules.ParameterChildren` | app/parsing/transformer.py:185-213 | Simple, array and object parameters are each rebuilt by their own rule from the children their production gives. |
| `Rules.AssignmentRule` | app/parsing/transformer.py:219-229 | The target is the variable in the first child. The value is the first expression after the target; when there is none, the value is the last child. |
| `Rules.AssignmentChildren` | app/parsing/transformer.py:219-229 | `v := e` is rebuilt as the assignment of `e` to `v`. |
| `Rules.AssignmentWithoutValue` | app/parsing/transformer.py:226-228 | A lone target child gives the assignment of the target to itself. |
| `Rules.ForLoopRule` | app/parsing/transformer.py:231-245 | Succeeds exactly when the first child is the counter token. The bounds are the first two expressions after it, each defaulting to 0, and the body is the first block, defaulting to the empty block. |
| `Rules.ForLoopChildren` | app/parsing/transformer.py:231-245 | `for v := a to b do body` is rebuilt exactly. |
| `Rules.ForLoopDefaults` | app/parsing/transformer.py:238-243 | A for loop whose children give neither bounds nor body counts from 0 to 0 over an empty block. |
| `Rules.WhileLoopRule` | app/parsing/transformer.py:247-251 | Succeeds exactly when the first child is an expression and the second a block. These are the condition and the body; any further children are ignored. |
| `Rules.RepeatLoopRule` | app/parsing/transformer.py:253-260 | The body is every child but the last, in order, and the last child is the condition. |
| `Rules.IfStatementRule` | app/parsing/transformer.py:262-275 | A successful result is an if statement whose condition is the first child (an expression) and whose then-branch is the second (a block). It has an else branch exactly when there is a third child that is a block, and then that block is the branch. |
| `Rules.ArgumentsOf` | app/parsing/transformer.py:277-281 | With no second child the arguments are empty; otherwise they are the expressions of the list child. |
| `Rules.ArgumentChildren` | app/parsing/transformer.py:277-281 | Any argument list, laid out after the callee name, reads back as the same arguments. |
| `Rules.CallStatementRule` | app/parsing/transformer.py:277-281 | With no child it is a missing child. A success calls the name of the first (token) child with the arguments of the optional list child. A lone name is a call with no arguments. |
| `Rules.ReturnStatementRule` | app/parsing/transformer.py:283-285 | Succeeds exactly when the first child is an expression, and that expression is the returned value. |
| `Rules.CommentRule` | app/parsing/transformer.py:287-292 | A comment is built exactly from a token child, and its text is the cleaned token text, never longer than the token's. |
| `Rules.WhileLoopChildren` | app/parsing/transformer.py:247-251 | `while c do body`, laid out as condition then block, is rebuilt exactly. |
| `Rules.RepeatLoopChildren` | app/parsing/transformer.py:253-260 | `repeat body until c`, laid out as the body's statements then the condition, is rebuilt exactly, whatever the number of body statements. |
| `Rules.IfStatementChildren` | app/parsing/transformer.py:262-275 | An if statement, with or without an else branch, is rebuilt exactly from condition, then-block and the optional else-block. |
| `Rules.CallStatementChildren` | app/parsing/transformer.py:277-281 | A call, laid out as the callee name then its argument list (none when there are no arguments), is rebuilt exactly. |
| `Rules.ReturnStatementChildren` | app/parsing/transformer.py:283-285 | `return e` is rebuilt from its one expression child. |
| `Rules.CommentChildren` | app/parsing/transformer.py:287-292 | A comment whose text is already clean (no surrounding blanks, no leading marker) is rebuilt unchanged from its token. |
| `Rules.StatementRoundTrip` | app/parsing/transformer.py:215-292 | Every statement (assignment, the three loops, if, call, return, clean comment) is rebuilt by its own rule from the children its production gives. |
| `Rules.BlockRuleConcatenates` | app/parsing/transformer.py:294-297 | The block of two runs of children holds the statements of the first run, then those of the second. |
| `Rules.BlockRule` | app/parsing/transformer.py:294-297 | A block holds at most one statement per child, and every statement it holds is one of its children. |
| `Rules.StatementsFromChildren` | app/parsing/transformer.py:296 | Filtering the children for statements keeps at most one per child, each one a child. |
| `Rules.BlockRoundTrip` | app/parsing/transformer.py:294-297 | A block's statements, handed to the block rule, rebuild the block. |
| `Rules.VariableRule` | app/parsing/transformer.py:311-341 | The name is the first token. The access is bare exactly for a lone child, a field exactly when a name token follows, and a range exactly when a bound pair follows. Otherwise it is indexed by the remaining children, in order. |
| `Rules.VariableChildren` | app/parsing/transformer.py:311-341 | Every well-formed variable (bare, field with indices, range, indexed) is rebuilt from its children. |
| `Rules.RangeRule` | app/parsing/transformer.py:343-345 | Succeeds exactly on two expression children, and pairs them in order. |
| `Folding.SameOperatorChainOfWrap` | app/parsing/transformer.py:355-373 | Any non-empty operand list folds to the left chain whose first operand is the first child and whose steps carry the chain's one operator over the remaining children, in order. |
| `Folding.SameOperatorChain` | app/parsing/transformer.py:355-373 | `or` and `and`: succeeds exactly when there is at least one child and every child is an expression; a lone expression passes through unchanged. Its shape is given by `SameOperatorChainShape`. |
| `Folding.SameOperatorChainShape` | app/parsing/transformer.py:355-373 | `or` and `and` chains fold to the left: there is one operator node per operand after the first, the fold unfolds back to exactly those operands, and a lone operand passes through unchanged. |
| `Folding.SameOperatorChainRejects` | app/parsing/transformer.py:355-373 | A child that is not an expression makes the chain malformed. |
| `Folding.FoldSameOperator` | app/parsing/transformer.py:355-373 | The accumulator loop of `logical_or` and `logical_and` computes the left fold. |
| `Folding.UnfoldFoldLeft` | app/parsing/transformer.py:355-373 | Folding a chain to the left and reading the left spine back gives the chain. |
| `Folding.FoldUnfoldLeft` | app/parsing/transformer.py:355-373 | Every tree with `n` operator nodes on its left spine is the left fold of the chain read off it. |
| `Folding.LogicalNotAsWrittenDropsNegation` | app/parsing/transformer.py:375-379 | As written, `not x` never yields the negation of `x`; see Findings. |
| `Folding.LogicalNotAsWritten` | app/parsing/transformer.py:375-379 | As written: a lone child passes through. With two or more children, the result is a negation exactly when the FIRST child is an expression, and that first child is the operand. |
| `Folding.LogicalNot` | app/parsing/transformer.py:375-379 | Corrected rule: a lone child passes through, and a keyword followed by an expression yields its negation. |
| `Folding.DoubleNegation` | app/parsing/transformer.py:375-379 | With the corrected rule, `not not x` nests two negations around `x`. |
| `Folding.FoldAlternating` | app/parsing/transformer.py:381-401 | The two-children-per-step loop of `comparison`, `arithmetic` and `term` computes the left fold of the alternating child list. |
| `Folding.AlternatingChain` | app/parsing/transformer.py:381-470 | `comparison`, `arithmetic` and `term`: a success needs a first child that is an expression. One child, or one followed by a lone unpaired child, reads as that first expression. Longer chains are characterised by `AlternatingChainOfLayout`. |
| `Folding.LinksFromLayout` | app/parsing/transformer.py:416-442 | Children laid out as operand, operator, operand, … read back as exactly those steps. |
| `Folding.AlternatingChainOfLayout` | app/parsing/transformer.py:444-470 | The alternating layout of any chain folds to that chain's left fold. |
| `Folding.ArithmeticLeftAssociative` | app/parsing/transformer.py:416-442 | `a + b + c` becomes `(a + b) + c`. |
| `Literals.NormalizeComparison` | app/parsing/transformer.py:403-414 | `≤`, `≥` and `≠` become `<=`, `>=` and `!=`; every other operator is unchanged. |
| `Literals.NormalizeComparisonIdempotent` | app/parsing/transformer.py:403-414 | Normalising never yields a glyph, so normalising twice changes nothing. |
| `Literals.CompOp` | app/parsing/transformer.py:403-414 | With no child the operator is `=`. Otherwise it is the normalised text of the operator child, and it is never a glyph. |
| `Folding.Factor` | app/parsing/transformer.py:472-478 | No child is a missing child and one child passes through. A sign followed by an operand becomes the unary operation of that sign. |
| `Folding.PowerRightAssociative` | app/parsing/transformer.py:480-488 | `a ^ b ^ c` becomes `a ^ (b ^ c)`. |
| `Folding.Power` | app/parsing/transformer.py:480-488 | The downward loop of `power` computes the right fold of the atoms. |
| `Folding.PowerChain` | app/parsing/transformer.py:480-488 | `power`: succeeds exactly when there is at least one child and every child is an expression; a lone expression passes through. Its shape is the right fold proved for `Power`. |
| `Folding.UnfoldFoldRight` | app/parsing/transformer.py:480-488 | Folding atoms to the right and reading the right spine back gives the atoms. |
| `Folding.FoldUnfoldRight` | app/parsing/transformer.py:480-488 | Every tree with `n` power nodes on its right spine is the right fold of the `n + 1` atoms read off it. |
| `Literals.NumberLiteral` | app/parsing/transformer.py:501-506 | A number with a point stays a fractional literal with its text. Without a point, it is an integer exactly when it is a non-empty digit string; anything else is a bad literal. |
| `Literals.NumberOfRenderedNat` | app/parsing/transformer.py:501-506 | Every rendered natural number reads back as that integer. |
| `Literals.NumberExamples` | app/parsing/transformer.py:501-506 | `12.50` stays fractional, `7` is the integer 7, and `1e5` is rejected. |
| `Literals.LeadingZeroIgnored` | app/parsing/transformer.py:501-506 | A leading zero before a number without a point does not change its reading. `0` alone is the integer 0. |
| `Literals.LeadingZerosExample` | app/parsing/transformer.py:501-506 | `007` reads as the integer 7, as `int("007")` does. |
| `Text.DigitsLeadingZero` | app/parsing/transformer.py:506 | A leading zero does not change the value of a digit string. |
| `Literals.BooleanLiteralSpelling` | app/parsing/transformer.py:508-511 | A boolean token is true exactly when it spells `t` or `true`, in any letter case. |
| `Literals.BooleanLiteral` | app/parsing/transformer.py:508-511 | A true literal has one or four characters and starts with `t` or `T`. The exact accepted spellings are given by `BooleanLiteralSpelling`. |
| `Literals.BooleanLiteralCaseInsensitive` | app/parsing/transformer.py:508-511 | Two spellings that differ only in letter case give the same truth value. |
| `Literals.BooleanFalseForms` | app/parsing/transformer.py:508-511 | `false`, `f` and `FALSE` read as false; `T` and `True` read as true. |
| `Literals.NullLiteral` | app/parsing/transformer.py:513-515 | A null token always gives the null literal. |
| `Literals.CommentText` | app/parsing/transformer.py:287-292 | The cleaned comment is no longer than the token and has no surrounding blanks. Without a leading marker it is the stripped text. With one, it is what is left after that single marker once only blanks are cut from both ends. |
| `Literals.MarkedComment` | app/parsing/transformer.py:289-291 | A marker right before clean words leaves exactly those words. When the words start with a second marker, that marker stays. |
| `Literals.SpacedMarkedComment` | app/parsing/transformer.py:289-291 | A marker and a blank before clean words also leave exactly those words. |
| `Literals.CommentExample` | app/parsing/transformer.py:287-292 | ` ► ok ` cleans to `ok`. |
| `Text.DigitsRoundTrip` | app/parsing/transformer.py:501-506 | Reading the decimal rendering of `n` gives `n`. |
| `Text.NatToStringInjective` | app/analysis/classifier.py:225 | Different indices render as different decimal texts (the index rendering only; the trails themselves are not proved pairwise distinct). |
| `Text.Strip` | app/parsing/transformer.py:289 | The stripped text is a slice of the input. Everything cut before and after it is whitespace, and it neither starts nor ends with whitespace. |
| `Text.TrimmedIsStrip` | app/parsing/transformer.py:289 | Any way of cutting only whitespace from both ends that leaves no whitespace at either end gives exactly the stripped text. |
| `Text.AsciiLower` | app/parsing/transformer.py:508-511 | Lower-casing keeps the length and maps each character. |
| `Rules.FunctionCallRule` | app/parsing/transformer.py:529-533 | The callee is the first token, and the arguments are those of the argument-list child, or none. |
| `Rules.FunctionCallChildren` | app/parsing/transformer.py:529-533 | `f(args)` and `f()` are rebuilt exactly. |
| `Rules.LengthRule` | app/parsing/transformer.py:535-537 | Succeeds exactly on a variable child, and measures that variable. |
| `Rules.CeilingRule` | app/parsing/transformer.py:539-541 | Succeeds exactly on an expression child, and takes its ceiling. |
| `Rules.FloorRule` | app/parsing/transformer.py:543-545 | Succeeds exactly on an expression child, and takes its floor. |
| `LoopScan.ScanLoops` | app/analysis/classifier.py:123-194 | The recursive scan returns the number of reachable loops, the entry depth plus the loop nesting depth, and the set of loop kinds. |
| `LoopScan.ScanStatementLoops` | app/analysis/classifier.py:138-185 | One statement counts itself when it is a loop, plus the loops of its body one level deeper; an `if` contributes the loops of both branches at the same level. The results are its loop count, level and kinds. |
| `LoopScan.LoopFacts` | app/analysis/classifier.py:123-195 | The count is the number of enumerated loops and the kinds are exactly their kinds. Nesting never exceeds the count, and is zero exactly when there is no loop. |
| `LoopScan.LoopKindsEmpty` | app/analysis/classifier.py:136-187 | No loop kind is recorded exactly when no loop is counted. |
| `LoopScan.LoopCountZero` | app/analysis/classifier.py:138-187 | The loop count of a list, computed by `LoopCount`, is 0 exactly when none of its statements holds a loop. |
| `LoopScan.LoopKindsUnion` | app/analysis/classifier.py:138-185 | The loop kinds of a list, computed by `LoopKinds`, are exactly the union of those of its statements. |
| `LoopScan.LoopDepthIsMax` | app/analysis/classifier.py:135-185 | The nesting level of a list, computed by `LoopDepth`, is the greatest level among its statements, or 0 for no statement. |
| `LoopScan.NestingLevels` | app/analysis/classifier.py:135-171 | No loop gives level 0, one loop gives level 1, and a loop inside a loop gives level 2. |
| `LoopScan.IfKeepsLevel` | app/analysis/classifier.py:175-185 | Wrapping statements in an `if` adds neither loops nor nesting. |
| `RecursionScan.ContainsCallIffSearched` | app/analysis/classifier.py:302-348 | The expression search finds `f` exactly when `f` is among the names called in the searched places: calls and their arguments, operands, indices, ceiling and floor. |
| `RecursionScan.ContainsCallInList` | app/analysis/classifier.py:320-322 | Some argument contains the call exactly when the name is among the arguments' searched calls. |
| `RecursionScan.ExprContainsCall` | app/analysis/classifier.py:302-348 | A direct call to the subroutine is always found. The full reach of the search is given by `ContainsCallIffSearched`. |
| `RecursionScan.MatchCountZero` | app/analysis/classifier.py:220-293 | The match count of a list, computed by `MatchCount`, is 0 exactly when none of its statements holds a match. |
| `RecursionScan.Positions` | app/analysis/classifier.py:220-291 | There is one position trail per match, in statement order. `PositionsFacts` adds that each trail extends its prefix. |
| `RecursionScan.StmtPositions` | app/analysis/classifier.py:228-289 | One statement contributes one trail per match it holds. |
| `RecursionScan.Slot` | app/analysis/classifier.py:225 | A statement's trail strictly extends the trail of the list it stands in. |
| `RecursionScan.PositionsFacts` | app/analysis/classifier.py:201-300 | There is one trail per match, and every trail strictly extends the prefix it was found under. |
| `RecursionScan.ScanRecursion` | app/analysis/classifier.py:201-300 | The recursive scan returns the number of matches and their trails, in statement order. |
| `RecursionScan.ScanStatement` | app/analysis/classifier.py:220-291 | The scan of one statement returns that statement's matches and their trails. |
| `Classifier.Category` | app/analysis/classifier.py:77-84 | HYBRID exactly with recursion and loops, RECURSIVE with recursion only, ITERATIVE with loops only, SIMPLE with neither. |
| `Classifier.ParameterNames` | app/analysis/classifier.py:87 | One name per parameter, in order. |
| `Classifier.SubroutineReportFacts` | app/analysis/classifier.py:49-99 | A subroutine report is consistent. It has loops exactly when it counts one, records a kind, or nests. Nesting is at most the count. There is one trail per self-call, each under `body`. The label follows the decision table. |
| `Classifier.SubroutineReportOf` | app/analysis/classifier.py:49-99 | A subroutine report keeps the subroutine's name and parameter names. `has_loops` holds exactly when a loop is counted, and `has_recursion` exactly when a self-call is counted. There is one position per self-call, and the label follows the decision table. |
| `Classifier.ClassifySubroutine` | app/analysis/classifier.py:49-99 | The method computes the specified subroutine report. |
| `Classifier.MainReportFacts` | app/analysis/classifier.py:101-117 | The main block is ITERATIVE exactly when it has a loop, and then its nesting is between 1 and the loop count. Otherwise it is SIMPLE with count 0 and no nesting entry. |
| `Classifier.MainReportOf` | app/analysis/classifier.py:101-117 | The main block is labelled ITERATIVE or SIMPLE only: ITERATIVE exactly when it counts a loop, and a nesting level is reported exactly when it is ITERATIVE. |
| `Classifier.ClassifyMain` | app/analysis/classifier.py:101-117 | The method computes the specified main-block report. |
| `Classifier.ReportsOf` | app/analysis/classifier.py:43-45 | One report per subroutine, in order. |
| `Classifier.ClassifyAll` | app/analysis/classifier.py:26-47 | Reports the main block and each subroutine, in order. |
| `Scenarios.CoinChangeIsIterative` | tests/test_classifier.py:22-55 | The greedy coin change has two loops (a while inside a for), nesting 2, kinds for and while, and is ITERATIVE. |
| `Scenarios.FactorialIsRecursive` | tests/test_classifier.py:64-95 | The factorial has one self-call, at `body[0].else[0].return`, no loop, and is RECURSIVE. |
| `Scenarios.MergeSortIsHybrid` | tests/test_classifier.py:104-136 | The merge sort has two self-calls and one for loop, and is HYBRID. |
| `Scenarios.SumIsSimple` | tests/test_classifier.py:142-170 | The sum has neither loops nor self-calls, and is SIMPLE with parameters `a`, `b`. |
| `Scenarios.KnapsackNestsTwo` | tests/test_classifier.py:177-218 | Two nested for loops around an `if` give nesting 2, and the fill is ITERATIVE. |
| `Scenarios.UnsearchedPlaces` | app/analysis/classifier.py:220-291 | A self-call in a for bound, a loop condition or a call statement's arguments is not counted. |
| `Scenarios.ExpressionSearchReach` | app/analysis/classifier.py:336-346 | A call inside an index is found. A call in a field index, a range bound or a `length` is not. A call nested under signs, other calls and floor is found. |

## Left out

- Lark's parser and grammar file are not part of this model. Each rule receives its children as `Item` values. The layouts in the `...Children` functions follow the productions named in the rules' documentation strings.
- Where Python would store a child of the wrong kind unchecked, or fail on `.value`, the model returns `Err(WrongKind)`. The model does not track which of those two happens. The same holds where `comp_op` (app/parsing/transformer.py:412) and `factor` (line 476) fall back to `str()` of, or the child itself for, a child that is not a token: the model accepts a plain string child and returns `Err(WrongKind)` for any other, so the `str()` rendering of a node is not modelled.
- The class hierarchy the rules rely on is assumed: a `Variable` is an expression, a comment is a statement, and a block is neither. `ast_nodes.py` is not part of this model, because the AST is taken from the constructor calls.
- Only ASCII letters are lower-cased (`str.lower`). Stripping (`str.strip`) removes space, tab, line feed, carriage return, vertical tab and form feed; Python also removes `\x1c`-`\x1f`, `\x85` and the Unicode spaces (such as `\xa0`, `\u2000`-`\u200a`, `\u2028`, `\u2029`, `\u3000`), which the model keeps.
- `int()` accepts more than a bare digit string (signs, underscores, surrounding blanks). The grammar's NUMBER token never produces those, and they are not modelled.
- A decimal literal keeps its text; its `float` value is not modelled.
- In `RepeatLoop`, the transformer builds the node with `body=` (app/parsing/transformer.py:260) but the classifier reads `.statements` (app/analysis/classifier.py:167). Whatever the field is called, the source as shipped cannot both build and classify a repeat loop: one of the two fails on every repeat loop. The model has one field, `statements`, and so describes the behaviour the two halves evidently intend together.
- `max_nesting` follows the code: 1 for a single loop and 2 for two nested loops, with the scan starting at level 0.
- `loop_types` is a Python list built from a set, so its order is unspecified. It is modelled as a set.
- The `expr is None` guard of `_expression_contains_call` is not modelled, because every expression slot the classifier searches is non-optional in the AST.
- Classifier.ClassifyMain: requires the program to have an algorithm with a main block. The source fails with an attribute error otherwise, and the grammar always produces both.
- Classifier.ClassifyAll: requires a main block, for the same reason.
- The classifier object only holds the program it was given and never updates it, so it is modelled as functions of that program, not as a class.
- The reports are records, not dictionaries. The main block's missing `max_nesting` entry is `None`.
- `print_classification` and the other modules of the analyser (estimator, exporters, API, storage) are not part of this model.

## Findings

| source | as written | input that shows it | evidently intended | confidence | as-written member | corrected member |
|---|---|---|---|---|---|---|
| app/parsing/transformer.py:375-379 | `logical_not` negates its first child | `not x`: if the keyword is a child, the keyword token is negated instead of `x`; if it is filtered out, `x` is returned un-negated | `not x` becomes the negation of `x`; the correction is proved for the reading where the keyword reaches the rule as a child (if the grammar filters it out, the fix belongs in the grammar and the lone child still passes through) | not executed; the outcome is wrong under either treatment of the keyword | `Folding.LogicalNotAsWrittenDropsNegation` | `Folding.DoubleNegation` |
