# gocalc evaluator, modelled in Dafny

This project models `eval/eval.go` of gocalc, a tree-walking evaluator for a
small prefix-expression calculator. The model covers:

- the recursive dispatch over the five syntax node kinds (file, identifier,
  number, operator, expression);
- the builtin table: the arithmetic and comparison builtins, all built on the
  one left-fold helper `genFunc`, then `if`, `define`, `set` and `print`;
- the two mutable namespaces, user functions and variables, and the fixed
  lookup order builtins, then functions, then variables;
- the diagnostics appended to the error sink, and the rule in `EvalFile` that
  any diagnostic turns the result into nil.

Layout, one module per file:

- `ast.dfy` (module `Ast`): the syntax tree. The parser and its node types
  are not part of this model, so the tree is a datatype defined here. Every
  node carries a source position.
- `values.dfy` (module `Values`): runtime values. Go passes `interface{}`
  values around. Here they are a datatype with five cases: integer, builtin
  (named by its operation), thunk (the function `define` makes, holding the
  value it returns), unresolved identifier, and nil. `Outcome` carries the
  runtime fault that a division by zero raises.
- `builtins.dfy` (module `Builtins`): the builtin table and Go's truncating
  `/` and `%`. It holds `GenFuncSpec`, the functional definition of `genFunc`, and
  `GenFunc`, the loop that computes it, proved equal to it. It also holds
  `FuncIf` and the lemmas about the fold.
- `evaluator.dfy` (module `Evaluator`): the evaluator, given twice. First as
  functions over an immutable `State`: `Resolve`, `CallSpec`, `EvalNode`,
  `EvalArgs`, `EvalTop` and `EvalFileSpec`. Then as the class `Env`, whose
  fields `functions`, `variables`, `diags` and `output` are updated in place
  by `FuncDefine`, `FuncSet`, `FuncPrint`, `Call`, the recursive `Eval` and
  `EvalFile`. Each method is proved to produce exactly the value and state
  that the functions give.
- `eval_properties.dfy` (module `EvalProperties`): lemmas about evaluation.
- `eval_scenarios.dfy` (module `EvalScenarios`): whole sessions run from an
  empty environment.

Go's `/` and `%` truncate toward zero and Dafny's are Euclidean, so
`GoDiv`/`GoMod` write the Go operators out on magnitudes. A division or
remainder by zero panics in Go. Here it is `Panic(DivideByZero)`, which
aborts the whole evaluation: every enclosing call, argument list and file
passes it straight up. Bindings made before the fault stay made, as they do
in the global maps of the source.

## Behaviour worth knowing

- After `(define f 7)`, the expression `f` alone yields the function; only
  the call `(f)` yields 7 (`EvalScenarios.DefineThenSet`).
- In `(set x 3) (define double 6) (if (= x 3) (+ double 1) 0)`, the name
  `double` yields a function value, which the fold counts as 0, so
  `(+ double 1)` and the whole session yield 1
  (`EvalScenarios.SessionWithFunctionName`). Calling it, `(+ (double) 1)`,
  yields 7 (`EvalScenarios.SessionWithFunctionCall`).
- `define` and `set` refuse a second argument that is an operator node. That
  refusal can never fire: arguments arrive already evaluated, and an operator
  node evaluates to its builtin. No value in the model is an operator node.
- Re-binding a bound name is a no-op only when the name resolves to something
  other than an unresolved identifier. A variable can hold an unresolved
  identifier: `(set y z)` with `z` unbound stores `z` itself. A later
  `(define y e)` then defines `z`, and this replaces any function `z` already
  had (`EvalProperties.DefineThroughStoredIdentifier`).
- Comparisons fold left like arithmetic: `(= 5 5 5)` compares 1 with 5 and
  yields 0 (`Builtins.EqualityIsNotChained`).

## Model

| member | source | states |
|---|---|---|
| `Builtins.GoDiv` | eval/eval.go:127-129 | Go's `/`: the quotient's magnitude is the floor of the magnitudes' quotient; a positive quotient needs operands of equal sign, a negative one operands of opposite sign |
| `Builtins.GoMod` | eval/eval.go:131-133 | Go's `%`: the remainder is smaller in magnitude than the divisor and never has the opposite sign to the dividend |
| `Builtins.GoDivModIdentity` | eval/eval.go:127-133 | truncated quotient and remainder satisfy Go's identity `q*b + r == a` for every non-zero divisor |
| `Builtins.TruncationDiffersFromEuclid` | eval/eval.go:127-133 | on -7 and 2, Go's `/` and `%` give -3 and -1, where Euclidean division gives -4 and 1 |
| `Builtins.ConvBool` | eval/eval.go:186-191 | true converts to 1 and false to 0, both directions |
| `Builtins.Step` | eval/eval.go:115-184 | the combining step of each arithmetic and comparison builtin faults exactly for `/` or `%` by zero; a comparison step always yields 0 or 1 |
| `Builtins.Fold` | eval/eval.go:149-159 | the fold over the arguments after the first yields an integer or nil, and faults only for `/` and `%` |
| `Builtins.GenFuncSpec` | eval/eval.go:135-160 | `genFunc` yields an integer or nil, and faults only for `/` or `%` called with two or more arguments; its values over integers are the closed forms of ArithmeticOverIntegers for `+`, `-`, `*`, DivisionOfTwo and ComparisonOfTwo for two arguments, and LeftFold for every further argument |
| `Builtins.GenFunc` | eval/eval.go:135-160 | the loop of `genFunc` computes GenFuncSpec: nil for no arguments, the argument for a single integer, nil for a single non-integer |
| `Builtins.FoldAdd` | eval/eval.go:115-117 | over integers, `+` folds to the accumulator plus the sum of the rest |
| `Builtins.FoldSub` | eval/eval.go:119-121 | over integers, `-` folds to the accumulator minus the sum of the rest |
| `Builtins.FoldMul` | eval/eval.go:123-125 | over integers, `*` folds to the accumulator times the product of the rest |
| `Builtins.ArithmeticOverIntegers` | eval/eval.go:145-159 | `(+ a ...)`, `(- a ...)` and `(* a ...)` over two or more integers yield `a` plus, minus or times the sum or product of the rest |
| `Builtins.FoldNilIffNonInteger` | eval/eval.go:149-158 | for builtins that do not divide, the fold never faults and yields nil exactly when some folded argument is not an integer |
| `Builtins.NilIffNonInteger` | eval/eval.go:135-159 | for builtins that do not divide, the result is nil exactly for no arguments, one non-integer argument, or a non-integer after the first |
| `Builtins.FoldPanicIffZeroDivisor` | eval/eval.go:149-158 | for `/` and `%`, the fold faults exactly when it reaches an integer 0 with only integers before it |
| `Builtins.PanicIffZeroDivisor` | eval/eval.go:127-133 | `(/ ...)` and `(% ...)` with two or more arguments fault exactly when a later argument is 0 and only integers lie between the first argument and it |
| `Builtins.DivisionOfTwo` | eval/eval.go:127-133 | `(/ a b)` and `(% a b)` with a non-zero divisor yield Go's truncated quotient and remainder, GoDiv and GoMod |
| `Builtins.DividingFoldNilIffNonInteger` | eval/eval.go:149-158 | for `/` and `%`, a fold that does not fault yields nil exactly when some folded argument is not an integer |
| `Builtins.DividingNilIffNonInteger` | eval/eval.go:135-159 | `(/ ...)` and `(% ...)` with no zero divisor reached do not fault, and yield nil exactly for no arguments, one non-integer argument, or a non-integer after the first |
| `Builtins.FoldSnoc` | eval/eval.go:149-158 | over integers, a fold that does not fault ends in an integer, and one more integer argument applies one more step of the builtin to it |
| `Builtins.LeftFold` | eval/eval.go:135-160 | every folding builtin, `/`, `%` and the comparisons included, is a left fold: `(op a1 ... an b)` is one step of `op` on the value of `(op a1 ... an)` and `b` |
| `Builtins.FoldComparisonIsBit` | eval/eval.go:162-184 | a comparison fold over one or more integers ends in 0 or 1 |
| `Builtins.ComparisonIsBit` | eval/eval.go:162-191 | a comparison builtin given two or more integers yields 0 or 1 |
| `Builtins.ComparisonOfTwo` | eval/eval.go:162-191 | with two integers, each comparison yields 1 exactly when its relation holds and 0 exactly when it fails |
| `Builtins.EqualityIsNotChained` | eval/eval.go:162-164 | comparisons fold left rather than chain: `(= 5 5 5)` is 0, while `(< 1 2 3)` and `(< 3 2 1)` are both 1 |
| `Builtins.FirstArgumentCoercion` | eval/eval.go:145-148 | with two or more arguments, a non-integer first argument acts as 0 |
| `Builtins.FuncIf` | eval/eval.go:214-225 | `if` with three arguments and an integer condition gives the third argument when the condition is 0 and the second otherwise; any other shape gives nil |
| `Builtins.NameOf` | eval/eval.go:10-26 | every builtin is registered in the table, under the name it is found by |
| `Builtins.BuiltinTableIsOneToOne` | eval/eval.go:10-26 | every name in the table is the name of its builtin, so no builtin has two names |
| `Evaluator.Resolve` | eval/eval.go:63-74 | a name resolves to a builtin first, then a user function as a thunk, then a variable's value; a name bound nowhere stands for itself |
| `Evaluator.AfterDefine` | eval/eval.go:193-212 | `define` on evaluated arguments touches only the user functions; with two arguments, the first an unresolved identifier, it binds that name to the second and every other function keeps its value; any other call leaves the state unchanged |
| `Evaluator.AfterSet` | eval/eval.go:235-248 | `set` on evaluated arguments touches only the variables; with two arguments, the first an unresolved identifier, it binds that name to the second and every other variable keeps its value; any other call leaves the state unchanged |
| `Evaluator.CallSpec` | eval/eval.go:105-105 | invoking a callable never adds a diagnostic, faults only for the dividing builtins, and a thunk returns its value whatever the arguments, changing nothing; the builtin cases are given by the lemmas on FuncIf, GenFuncSpec, AfterDefine and AfterSet |
| `Evaluator.EvalNode` | eval/eval.go:50-113 | no contract of its own: the case-by-case semantics of eval; its properties are EvalNodeGrows, OperatorIsBuiltin, EmptyExpressionReported, NonCallableHeadReported, CallOfBuiltin, IfIsEager and the define/set lemmas, and Env.Eval is proved equal to it |
| `Evaluator.EvalArgs` | eval/eval.go:97-102 | argument evaluation that does not fault yields one value per argument node, appended after those already gathered; EvalArgsGrows and CallOfBuiltin state the rest |
| `Evaluator.EvalTop` | eval/eval.go:52-62 | no contract of its own: the top-level loop; its properties are TopNeverYieldsUnresolved, TopSequencing and EvalTopGrows |
| `Evaluator.EvalFileSpec` | eval/eval.go:35-48 | no contract of its own: the entry point; its properties are EvalFileNilWhenDiagnosed, EvalFilePassesThrough, UnboundTopLevelIdentifier and DivisionByZeroAborts, and Env.EvalFile is proved equal to it |
| `Evaluator.Env.constructor` | eval/eval.go:28-29 | a fresh environment has no user functions, no variables, no diagnostics and no output |
| `Evaluator.Env.AddError` | eval/eval.go:87-87 | appends exactly one positioned diagnostic and changes nothing else |
| `Evaluator.Env.FuncDefine` | eval/eval.go:193-212 | returns nil; with two arguments, the first an unresolved identifier, binds that name's user function to the second; otherwise changes nothing |
| `Evaluator.Env.FuncSet` | eval/eval.go:235-248 | returns nil; with two arguments, the first an unresolved identifier, binds that name's variable to the second; otherwise changes nothing |
| `Evaluator.Env.FuncPrint` | eval/eval.go:227-233 | returns nil and appends its argument list to the output log |
| `Evaluator.Env.Call` | eval/eval.go:105-105 | invoking a builtin or a thunk gives the value and new state CallSpec gives |
| `Evaluator.Env.Eval` | eval/eval.go:50-113 | the in-place evaluation of any node returns the value and leaves the state that EvalNode gives |
| `Evaluator.Env.EvalFile` | eval/eval.go:35-48 | the entry point starts the sink with the parser's diagnostics and returns what EvalFileSpec gives |
| `EvalProperties.EvalNodeGrows` | eval/eval.go:50-113 | evaluating a node only appends to diagnostics and output and never unbinds a user function or variable |
| `EvalProperties.EvalArgsGrows` | eval/eval.go:97-102 | the same for the evaluation of argument lists |
| `EvalProperties.EvalTopGrows` | eval/eval.go:52-62 | the same for the evaluation of a file's top-level nodes |
| `EvalProperties.BuiltinsAlwaysWin` | eval/eval.go:64-66 | a builtin name resolves to its builtin in every state, so no definition shadows it |
| `EvalProperties.OperatorIsBuiltin` | eval/eval.go:77-83 | an operator token evaluates to its builtin, a callable, and changes nothing |
| `EvalProperties.EmptyExpressionReported` | eval/eval.go:86-89 | `()` adds exactly one diagnostic, at the expression, and yields nil |
| `EvalProperties.NonCallableHeadReported` | eval/eval.go:90-95 | a head that is not callable adds one diagnostic at the head's position and yields nil, and no argument is evaluated |
| `EvalProperties.NumberHeadReported` | eval/eval.go:90-95 | `(1 2 3)` adds one diagnostic, at the head, and yields nil |
| `EvalProperties.CallOfBuiltin` | eval/eval.go:96-110 | a builtin call evaluates its arguments left to right before the builtin runs, and a fault in any argument aborts the call |
| `EvalProperties.OperatorHeadEvaluatesAlike` | eval/eval.go:77-83 | a call whose head names a builtin by operator token evaluates exactly as the call naming it by identifier, so the lemmas written with identifier heads hold for operator heads |
| `EvalProperties.SetStoresValue` | eval/eval.go:235-248 | `(set x e)` with `x` unbound evaluates `e`, stores its value as `x`'s variable, leaves the user functions alone and yields nil; then `x` resolves to that value |
| `EvalProperties.DefineStoresThunk` | eval/eval.go:193-212 | `(define f e)` with `f` unbound evaluates `e` once, now; `f` becomes a function that returns that value for any arguments, the variables are left alone, and the call yields nil |
| `EvalProperties.RebindIsNoOp` | eval/eval.go:198-198 | `set` or `define` of a name that already resolves to something other than an unresolved identifier only evaluates its second argument |
| `EvalProperties.DefiningABuiltinNameIsNoOp` | eval/eval.go:64-66 | `(define + 1)` changes nothing, and `+` stays addition |
| `EvalProperties.DefineThroughStoredIdentifier` | eval/eval.go:71-74 | a variable holding an unresolved identifier `z` makes `(define y e)` define `z`, replacing any earlier function `z` |
| `EvalProperties.MalformedDefineOrSetIsNoOp` | eval/eval.go:195-197 | `define` and `set` with the wrong arity, or a first argument that is not an unresolved identifier, change nothing and yield nil |
| `EvalProperties.IfIsEager` | eval/eval.go:214-225 | `(if c t e)` evaluates all three arguments in order before choosing, so the state holds the effects of both branches; the result is the else value when the condition is 0, the then value for another integer, and nil otherwise |
| `EvalProperties.IfPrintsBothBranches` | eval/eval.go:97-105 | `(if 1 (print 10) (print 20))` prints both 10 and 20 and yields nil |
| `EvalProperties.NestedUnresolvedIsSilent` | eval/eval.go:74-74 | an unbound identifier passed as an argument is not reported; it reaches the builtin as itself |
| `EvalProperties.TopNeverYieldsUnresolved` | eval/eval.go:54-61 | the top-level loop never returns an unresolved identifier |
| `EvalProperties.FileNeverYieldsUnresolved` | eval/eval.go:52-62 | a file never evaluates to an unresolved identifier |
| `EvalProperties.TopSequencing` | eval/eval.go:52-62 | after top-level nodes that complete, the next node decides: a fault aborts; an unresolved identifier adds one diagnostic at its own position, yields nil and skips every later node; otherwise the last node's value is the file's value |
| `EvalProperties.EvalFileNilWhenDiagnosed` | eval/eval.go:35-48 | the entry point yields nil whenever the sink holds a diagnostic, does not evaluate after parser diagnostics, keeps the parser's diagnostics first, and never unbinds a name |
| `EvalProperties.EvalFilePassesThrough` | eval/eval.go:42-47 | with no parser diagnostics, a fault or an evaluation that leaves the sink empty passes through the entry point unchanged, so Nil comes back only after a diagnostic or from the evaluation itself |
| `EvalProperties.UnboundTopLevelIdentifier` | eval/eval.go:56-59 | an unbound name alone at top level gives exactly one diagnostic, at its position, and nil |
| `EvalProperties.DivisionByZeroAborts` | eval/eval.go:127-128 | `(/ 1 0)` as a file aborts evaluation with the division-by-zero fault; through the entry point the fault passes through and the sink stays empty, so it does not become a diagnostic |
| `EvalScenarios.SessionBindings` | eval/eval.go:244-244 | `(set x 3)` then `(define double 6)` bind `x` to 3 and `double` to a function returning 6; `(= x 3)` then yields 1 |
| `EvalScenarios.GuardHolds` | eval/eval.go:162-164 | with `x` bound to 3, `(= x 3)` yields 1 and changes no binding |
| `EvalScenarios.FunctionNamePlusOne` | eval/eval.go:145-148 | with `double` defined as 6, `(+ double 1)` yields 1: the name yields the function, which the fold counts as 0 |
| `EvalScenarios.SessionWithFunctionName` | eval/eval.go:145-148 | `(set x 3) (define double 6) (if (= x 3) (+ double 1) 0)` yields 1, because `double` names a function, which the fold counts as 0 |
| `EvalScenarios.DoublePlusOne` | eval/eval.go:205-208 | `(double)` calls the function and yields 6, so `(+ (double) 1)` yields 7 |
| `EvalScenarios.SessionWithFunctionCall` | eval/eval.go:52-62 | the same session with `(+ (double) 1)` yields 7 |
| `EvalScenarios.DefineThenSet` | eval/eval.go:64-70 | after `(define f 7)`, `(set f 99)` is a no-op and `(f)` still yields 7 |

The functions `CallSpec`, `EvalNode`, `EvalArgs`, `EvalTop`, `EvalFileSpec`,
`AfterDefine` and `AfterSet` in module `Evaluator` define the semantics and
follow eval/eval.go case by case. The `Env` methods are proved against them.
The builtin table itself is the constant `Builtins.BuiltinTable`
(eval/eval.go:10-26).

## Left out

- Lexing, parsing and the error sink's internals are not part of this model.
  The tree is a datatype here. `EvalFile` takes the tree and the parser's
  diagnostics instead of source text. `EvalExpr` differs only in the file name
  it passes, and file names are not modelled.
- `PrintErrors`, the rendering of diagnostics, is I/O and is not modelled.
- `print`'s formatting through `fmt.Println` is I/O. The model appends the
  argument list to an output log instead. This includes printing function
  addresses.
- Go's 64-bit integer overflow is not modelled. Integers are unbounded, so
  results that would wrap around in Go, and `MinInt64 / -1`, differ.
- The branch that turns an `error` result of a builtin into a diagnostic
  (eval/eval.go:106-108) is not modelled. No builtin ever returns an `error`.
- An operator token missing from the builtin table is excluded by the
  precondition `WellFormed`. The parser never produces one, and the source
  comments call it an impossible, catastrophic case.
- The fallback `return nil` for node types other than the five
  (eval/eval.go:112) has no counterpart. The node datatype has only the five
  kinds.
- The unsynchronized global maps are modelled as one sequential `Env` object.
  Concurrency is not modelled.
