/** The builtin function table: the integer left fold shared by arithmetic
    and comparisons (with Go's truncating division), and `if`. The builtins
    that touch the environment (`define`, `set`, `print`) live with the
    environment in module Evaluator. */
module Builtins {
  import opened Values

  /** The names under which the builtins are found. Identifiers and
      operator tokens are both looked up here first. */
  const BuiltinTable: map<string, Op> := map[
    "+" := Add, "-" := Sub, "*" := Mul, "/" := Div, "%" := Mod,
    "=" := Eq, "<" := Less, "<=" := LessEq, ">" := Greater, ">=" := GreaterEq, "<>" := NotEq,
    "define" := Define, "if" := If, "print" := Print, "set" := Set
  ]

  function Abs(x: int): (m: nat) {
    if x < 0 then -x else x
  }

  // ---------------------------------------------------------------------
  // Go's integer division and remainder truncate toward zero; Dafny's are
  // Euclidean. Both are written out here on magnitudes.
  // ---------------------------------------------------------------------

  /** Go's `a / b`: the quotient truncated toward zero. */
  function GoDiv(a: int, b: int): (q: int)
    requires b != 0
    ensures Abs(q) == Abs(a) / Abs(b)
    ensures q > 0 ==> (a < 0) == (b < 0)
    ensures q < 0 ==> (a < 0) != (b < 0)
  {
    var m: int := Abs(a) / Abs(b);
    QuotientOfMagnitudes(Abs(a), Abs(b));
    if (a < 0) == (b < 0) then m else -m
  }

  lemma QuotientOfMagnitudes(n: nat, d: nat)
    requires d > 0
    ensures n / d >= 0
  {
  }

  lemma RemainderOfMagnitudes(n: nat, d: nat)
    requires d > 0
    ensures 0 <= n % d < d
    ensures n == 0 ==> n % d == 0
  {
  }

  /** Go's `a % b`: the remainder that goes with GoDiv; it takes the sign of `a`. */
  function GoMod(a: int, b: int): (r: int)
    requires b != 0
    ensures Abs(r) < Abs(b)
    ensures r > 0 ==> a > 0
    ensures r < 0 ==> a < 0
  {
    var d: int := Abs(b);
    var m: int := Abs(a) % d;
    RemainderOfMagnitudes(Abs(a), d);
    if a < 0 then -m else m
  }

  /** Go's defining identity for integer division: q * b + r == a. */
  lemma GoDivModIdentity(a: int, b: int)
    requires b != 0
    ensures GoDiv(a, b) * b + GoMod(a, b) == a
  {
    var n: int, d: int := Abs(a), Abs(b);
    var q0: int, r0: int := n / d, n % d;
    assert n == q0 * d + r0;
    if a >= 0 && b > 0 {
      assert GoDiv(a, b) * b == q0 * d;
    } else if a >= 0 {
      assert GoDiv(a, b) * b == (-q0) * (-d) == q0 * d;
    } else if b > 0 {
      assert GoDiv(a, b) * b == (-q0) * d == -(q0 * d);
    } else {
      assert GoDiv(a, b) * b == q0 * (-d) == -(q0 * d);
    }
  }

  /** Where truncation and Dafny's Euclidean operators part ways. */
  lemma TruncationDiffersFromEuclid()
    ensures GoDiv(-7, 2) == -3 && GoMod(-7, 2) == -1
    ensures -7 / 2 == -4 && -7 % 2 == 1
    ensures GoDiv(7, -2) == -3 && GoMod(7, -2) == 1
  {
  }

  // ---------------------------------------------------------------------
  // The folding step of each arithmetic and comparison builtin.
  // ---------------------------------------------------------------------

  /** Go's boolean-to-integer conversion: true is 1, false is 0. */
  function ConvBool(b: bool): (r: int)
    ensures r == 1 <==> b
    ensures r == 0 <==> !b
  {
    if b then 1 else 0
  }

  /** The two-argument step each folding builtin combines with. Division
      and remainder by zero raise a runtime fault. */
  function Step(op: Op, a: int, b: int): (r: Outcome<int>)
    requires op.IsFold()
    ensures r.Panic? <==> op.Divides() && b == 0
    ensures op.IsComparison() ==> r.Normal? && 0 <= r.value <= 1
  {
    match op
    case Add => Normal(a + b)
    case Sub => Normal(a - b)
    case Mul => Normal(a * b)
    case Div => if b == 0 then Panic(DivideByZero) else Normal(GoDiv(a, b))
    case Mod => if b == 0 then Panic(DivideByZero) else Normal(GoMod(a, b))
    case Eq => Normal(ConvBool(a == b))
    case Less => Normal(ConvBool(a < b))
    case LessEq => Normal(ConvBool(a <= b))
    case Greater => Normal(ConvBool(a > b))
    case GreaterEq => Normal(ConvBool(a >= b))
    case NotEq => Normal(ConvBool(a != b))
  }

  /** The relation each comparison builtin tests, as its own reference. */
  predicate Holds(op: Op, a: int, b: int)
    requires op.IsComparison()
  {
    match op
    case Eq => a == b
    case Less => a < b
    case LessEq => a <= b
    case Greater => a > b
    case GreaterEq => a >= b
    case NotEq => a != b
  }

  // ---------------------------------------------------------------------
  // The shared left fold.
  // ---------------------------------------------------------------------

  /** Folds `rest` into the accumulator `acc`, left to right. The first
      non-integer yields Nil; a division by zero met before it aborts. */
  function Fold(op: Op, acc: int, rest: seq<Value>): (r: Outcome<Value>)
    requires op.IsFold()
    ensures r.Normal? ==> r.value == Nil || r.value.Int?
    ensures r.Panic? ==> op.Divides()
    decreases |rest|
  {
    if rest == [] then Normal(Int(acc))
    else match rest[0]
      case Int(v) =>
        (match Step(op, acc, v)
         case Panic(why) => Panic(why)
         case Normal(next) => Fold(op, next, rest[1..]))
      case _ => Normal(Nil)
  }

  /** What a folding builtin returns for its evaluated arguments: Nil for
      none; the argument itself for one integer, Nil for one non-integer;
      otherwise the fold of the rest from the first, a non-integer first
      argument counting as 0. */
  function GenFuncSpec(op: Op, args: seq<Value>): (r: Outcome<Value>)
    requires op.IsFold()
    ensures r.Normal? ==> r.value == Nil || r.value.Int?
    ensures r.Panic? ==> op.Divides() && |args| >= 2
  {
    if |args| < 1 then Normal(Nil)
    else if |args| < 2 then (if args[0].Int? then Normal(args[0]) else Normal(Nil))
    else Fold(op, if args[0].Int? then args[0].i else 0, args[1..])
  }

  /** The fold as the loop that computes it. */
  method GenFunc(op: Op, args: seq<Value>) returns (r: Outcome<Value>)
    requires op.IsFold()
    ensures r == GenFuncSpec(op, args)
    ensures |args| == 0 ==> r == Normal(Nil)
    ensures |args| == 1 ==> r == Normal(if args[0].Int? then args[0] else Nil)
  {
    if |args| < 1 {
      return Normal(Nil);
    }
    if |args| < 2 {
      if args[0].Int? {
        return Normal(args[0]);
      }
      return Normal(Nil);
    }
    var res := 0;
    if args[0].Int? {
      res := args[0].i;
    }
    var k := 1;
    while k < |args|
      invariant 1 <= k <= |args|
      invariant Fold(op, res, args[k..]) == GenFuncSpec(op, args)
    {
      match args[k]
      case Int(v) =>
        var step := Step(op, res, v);
        if step.Panic? {
          return Panic(step.reason);
        }
        res := step.value;
        k := k + 1;
      case _ =>
        return Normal(Nil);
    }
    return Normal(Int(res));
  }

  // ---------------------------------------------------------------------
  // `if`.
  // ---------------------------------------------------------------------

  /** `if` over already-evaluated arguments: with exactly three and an
      integer condition it picks the third when the condition is 0 and the
      second otherwise; any other shape yields Nil. */
  function FuncIf(args: seq<Value>): (r: Value)
    ensures |args| == 3 && args[0] == Int(0) ==> r == args[2]
    ensures |args| == 3 && args[0].Int? && args[0] != Int(0) ==> r == args[1]
    ensures !(|args| == 3 && args[0].Int?) ==> r == Nil
  {
    if |args| != 3 then Nil
    else match args[0]
      case Int(c) => if c == 0 then args[2] else args[1]
      case _ => Nil
  }

  // ---------------------------------------------------------------------
  // Properties of the fold.
  // ---------------------------------------------------------------------

  predicate AllInts(vs: seq<Value>) {
    forall k :: 0 <= k < |vs| ==> vs[k].Int?
  }

  function IntsOf(vs: seq<Value>): (xs: seq<int>)
    requires AllInts(vs)
    ensures |xs| == |vs| && forall k :: 0 <= k < |vs| ==> vs[k] == Int(xs[k])
  {
    seq(|vs|, k requires 0 <= k < |vs| => vs[k].i)
  }

  function Sum(xs: seq<int>): (total: int) {
    if xs == [] then 0 else xs[0] + Sum(xs[1..])
  }

  function Product(xs: seq<int>): (total: int) {
    if xs == [] then 1 else xs[0] * Product(xs[1..])
  }

  /** Over integers, `+` folds to the accumulator plus the sum of the rest. */
  lemma {:induction false} FoldAdd(acc: int, rest: seq<Value>)
    requires AllInts(rest)
    ensures Fold(Add, acc, rest) == Normal(Int(acc + Sum(IntsOf(rest))))
    decreases |rest|
  {
    if rest != [] {
      var v := rest[0].i;
      assert IntsOf(rest) == [v] + IntsOf(rest[1..]);
      FoldAdd(acc + v, rest[1..]);
    }
  }

  /** Over integers, `-` folds to the accumulator minus the sum of the rest. */
  lemma {:induction false} FoldSub(acc: int, rest: seq<Value>)
    requires AllInts(rest)
    ensures Fold(Sub, acc, rest) == Normal(Int(acc - Sum(IntsOf(rest))))
    decreases |rest|
  {
    if rest != [] {
      var v := rest[0].i;
      assert IntsOf(rest) == [v] + IntsOf(rest[1..]);
      FoldSub(acc - v, rest[1..]);
    }
  }

  /** Over integers, `*` folds to the accumulator times the product of the rest. */
  lemma {:induction false} FoldMul(acc: int, rest: seq<Value>)
    requires AllInts(rest)
    ensures Fold(Mul, acc, rest) == Normal(Int(acc * Product(IntsOf(rest))))
    decreases |rest|
  {
    if rest != [] {
      var v := rest[0].i;
      var p := Product(IntsOf(rest[1..]));
      assert IntsOf(rest) == [v] + IntsOf(rest[1..]);
      assert Product(IntsOf(rest)) == v * p;
      FoldMul(acc * v, rest[1..]);
      assert (acc * v) * p == acc * (v * p);
    }
  }

  /** `(+ a b ...)`, `(- a b ...)` and `(* a b ...)` over integers. */
  lemma ArithmeticOverIntegers(a: int, rest: seq<Value>)
    requires |rest| >= 1 && AllInts(rest)
    ensures GenFuncSpec(Add, [Int(a)] + rest) == Normal(Int(a + Sum(IntsOf(rest))))
    ensures GenFuncSpec(Sub, [Int(a)] + rest) == Normal(Int(a - Sum(IntsOf(rest))))
    ensures GenFuncSpec(Mul, [Int(a)] + rest) == Normal(Int(a * Product(IntsOf(rest))))
  {
    assert ([Int(a)] + rest)[1..] == rest;
    FoldAdd(a, rest);
    FoldSub(a, rest);
    FoldMul(a, rest);
  }

  lemma AllIntsTail(vs: seq<Value>)
    requires vs != [] && vs[0].Int?
    ensures AllInts(vs) <==> AllInts(vs[1..])
  {
    if AllInts(vs[1..]) {
      forall k | 0 <= k < |vs| ensures vs[k].Int? {
        if k > 0 { assert vs[k] == vs[1..][k - 1]; }
      }
    }
  }

  /** A builtin that does not divide never faults, and yields Nil exactly
      when some folded argument is not an integer. */
  lemma {:induction false} FoldNilIffNonInteger(op: Op, acc: int, rest: seq<Value>)
    requires op.IsFold() && !op.Divides()
    ensures Fold(op, acc, rest).Normal?
    ensures Fold(op, acc, rest) == Normal(Nil) <==> !AllInts(rest)
    decreases |rest|
  {
    if rest != [] && rest[0].Int? {
      FoldNilIffNonInteger(op, Step(op, acc, rest[0].i).value, rest[1..]);
      AllIntsTail(rest);
    }
  }

  /** The builtins that do not divide: Nil exactly for no arguments, one
      non-integer, or a non-integer anywhere after the first. */
  lemma NilIffNonInteger(op: Op, args: seq<Value>)
    requires op.IsFold() && !op.Divides()
    ensures GenFuncSpec(op, args).Normal?
    ensures GenFuncSpec(op, args) == Normal(Nil) <==>
              |args| == 0 || (|args| == 1 && !args[0].Int?) || (|args| >= 2 && !AllInts(args[1..]))
  {
    if |args| >= 2 {
      FoldNilIffNonInteger(op, if args[0].Int? then args[0].i else 0, args[1..]);
    }
  }

  /** The fold reaches a zero at index `k`: it is 0 and only integers precede it. */
  predicate ZeroReachedAt(rest: seq<Value>, k: int) {
    0 <= k < |rest| && rest[k] == Int(0) && AllInts(rest[..k])
  }

  /** `/` and `%` fault exactly when a zero divisor is reached before any
      non-integer argument. */
  lemma {:induction false} FoldPanicIffZeroDivisor(op: Op, acc: int, rest: seq<Value>)
    requires op.Divides()
    ensures Fold(op, acc, rest).Panic? <==> exists k :: ZeroReachedAt(rest, k)
    decreases |rest|
  {
    if rest == [] {
    } else if !rest[0].Int? {
      forall k | 0 <= k < |rest| ensures !ZeroReachedAt(rest, k) {
        if k > 0 { assert rest[..k][0] == rest[0]; }
      }
    } else if rest[0] == Int(0) {
      assert ZeroReachedAt(rest, 0);
    } else {
      var tail := rest[1..];
      FoldPanicIffZeroDivisor(op, Step(op, acc, rest[0].i).value, tail);
      forall k | 0 < k < |rest| ensures ZeroReachedAt(rest, k) <==> ZeroReachedAt(tail, k - 1) {
        assert rest[..k] == [rest[0]] + tail[..k - 1];
        AllIntsTail(rest[..k]);
      }
      if exists k :: ZeroReachedAt(rest, k) {
        var k :| ZeroReachedAt(rest, k);
        assert ZeroReachedAt(tail, k - 1);
      }
      if exists k :: ZeroReachedAt(tail, k) {
        var k :| ZeroReachedAt(tail, k);
        assert ZeroReachedAt(rest, k + 1);
      }
    }
  }

  /** Argument `k` of a call is the integer 0 and only integers lie between the first argument and it. */
  predicate ZeroDivisorAt(args: seq<Value>, k: int) {
    1 <= k < |args| && args[k] == Int(0) && AllInts(args[1..k])
  }

  /** `(/ ...)` and `(% ...)` with two or more arguments abort exactly when
      some later argument is the integer 0 and only integers precede it. */
  lemma PanicIffZeroDivisor(op: Op, args: seq<Value>)
    requires op.Divides() && |args| >= 2
    ensures GenFuncSpec(op, args).Panic? <==> exists k :: ZeroDivisorAt(args, k)
  {
    var rest := args[1..];
    FoldPanicIffZeroDivisor(op, if args[0].Int? then args[0].i else 0, rest);
    if exists k :: ZeroDivisorAt(args, k) {
      var k :| ZeroDivisorAt(args, k);
      assert rest[..k - 1] == args[1..k];
      assert ZeroReachedAt(rest, k - 1);
    }
    if exists k :: ZeroReachedAt(rest, k) {
      var k :| ZeroReachedAt(rest, k);
      assert rest[..k] == args[1..k + 1];
      assert ZeroDivisorAt(args, k + 1);
    }
  }

  /** Over integers, a comparison fold ends with one comparison step, so it
      is always 0 or 1. */
  lemma {:induction false} FoldComparisonIsBit(op: Op, acc: int, rest: seq<Value>)
    requires op.IsComparison() && |rest| >= 1 && AllInts(rest)
    ensures Fold(op, acc, rest) == Normal(Int(0)) || Fold(op, acc, rest) == Normal(Int(1))
    decreases |rest|
  {
    var next := Step(op, acc, rest[0].i).value;
    if |rest| > 1 {
      AllIntsTail(rest);
      FoldComparisonIsBit(op, next, rest[1..]);
    }
  }

  /** Comparison builtins given two or more integers return 0 or 1. */
  lemma ComparisonIsBit(op: Op, args: seq<Value>)
    requires op.IsComparison() && |args| >= 2 && AllInts(args)
    ensures GenFuncSpec(op, args) == Normal(Int(0)) || GenFuncSpec(op, args) == Normal(Int(1))
  {
    AllIntsTail(args);
    FoldComparisonIsBit(op, args[0].i, args[1..]);
  }

  /** With two integers, a comparison yields 1 exactly when its relation holds. */
  lemma ComparisonOfTwo(op: Op, a: int, b: int)
    requires op.IsComparison()
    ensures GenFuncSpec(op, [Int(a), Int(b)]) == Normal(Int(1)) <==> Holds(op, a, b)
    ensures GenFuncSpec(op, [Int(a), Int(b)]) == Normal(Int(0)) <==> !Holds(op, a, b)
  {
    assert [Int(a), Int(b)][1..] == [Int(b)];
    assert [Int(b)][1..] == [];
    var r := Step(op, a, b).value;
    assert Fold(op, r, []) == Normal(Int(r));
    assert Fold(op, a, [Int(b)]) == Normal(Int(r));
    assert GenFuncSpec(op, [Int(a), Int(b)]) == Normal(Int(r));
    assert r == ConvBool(Holds(op, a, b));
  }

  /** Comparisons fold left instead of chaining: `(= 5 5 5)` compares 1 with 5. */
  lemma EqualityIsNotChained()
    ensures GenFuncSpec(Eq, [Int(5), Int(5), Int(5)]) == Normal(Int(0))
    ensures GenFuncSpec(Less, [Int(1), Int(2), Int(3)]) == Normal(Int(1))
    ensures GenFuncSpec(Less, [Int(3), Int(2), Int(1)]) == Normal(Int(1))
  {
    assert [Int(5), Int(5), Int(5)][1..] == [Int(5), Int(5)];
    assert [Int(1), Int(2), Int(3)][1..] == [Int(2), Int(3)];
    assert [Int(3), Int(2), Int(1)][1..] == [Int(2), Int(1)];
  }

  /** A folding step's outcome as the builtin's result. */
  function Lift(step: Outcome<int>): (r: Outcome<Value>)
    ensures r.Panic? <==> step.Panic?
    ensures step.Normal? ==> r == Normal(Int(step.value))
  {
    match step
    case Normal(v) => Normal(Int(v))
    case Panic(why) => Panic(why)
  }

  /** The fold is a left fold: one more integer argument applies one more
      step to the result so far. This holds for `/`, `%` and the
      comparisons as for the other builtins. */
  lemma {:induction false} FoldSnoc(op: Op, acc: int, rest: seq<Value>, b: int)
    requires op.IsFold() && AllInts(rest) && Fold(op, acc, rest).Normal?
    ensures Fold(op, acc, rest).value.Int?
    ensures Fold(op, acc, rest + [Int(b)]) == Lift(Step(op, Fold(op, acc, rest).value.i, b))
    decreases |rest|
  {
    if rest == [] {
      assert [] + [Int(b)] == [Int(b)];
      assert [Int(b)][1..] == [];
    } else {
      var step := Step(op, acc, rest[0].i);
      assert step.Normal?;
      AllIntsTail(rest);
      assert (rest + [Int(b)])[0] == rest[0];
      assert (rest + [Int(b)])[1..] == rest[1..] + [Int(b)];
      FoldSnoc(op, step.value, rest[1..], b);
    }
  }

  /** `genFunc` over integers as a left fold: `(op a1 ... an b)` is the step
      of `op` applied to `(op a1 ... an)` and `b`, for comparisons as well,
      which therefore compare a 0 or 1 with `b` rather than chain. */
  lemma LeftFold(op: Op, args: seq<Value>, b: int)
    requires op.IsFold() && |args| >= 2 && AllInts(args) && GenFuncSpec(op, args).Normal?
    ensures GenFuncSpec(op, args).value.Int?
    ensures GenFuncSpec(op, args + [Int(b)]) == Lift(Step(op, GenFuncSpec(op, args).value.i, b))
  {
    AllIntsTail(args);
    assert (args + [Int(b)])[1..] == args[1..] + [Int(b)];
    FoldSnoc(op, args[0].i, args[1..], b);
  }

  /** `(/ a b)` and `(% a b)` with a non-zero divisor yield Go's truncated
      quotient and remainder. */
  lemma DivisionOfTwo(a: int, b: int)
    requires b != 0
    ensures GenFuncSpec(Div, [Int(a), Int(b)]) == Normal(Int(GoDiv(a, b)))
    ensures GenFuncSpec(Mod, [Int(a), Int(b)]) == Normal(Int(GoMod(a, b)))
  {
    assert [Int(a), Int(b)][1..] == [Int(b)];
    assert [Int(b)][1..] == [];
    assert Fold(Div, a, [Int(b)]) == Fold(Div, GoDiv(a, b), []);
    assert Fold(Mod, a, [Int(b)]) == Fold(Mod, GoMod(a, b), []);
  }

  /** For `/` and `%`, a fold that does not fault yields Nil exactly when
      some folded argument is not an integer. */
  lemma {:induction false} DividingFoldNilIffNonInteger(op: Op, acc: int, rest: seq<Value>)
    requires op.Divides() && Fold(op, acc, rest).Normal?
    ensures Fold(op, acc, rest) == Normal(Nil) <==> !AllInts(rest)
    decreases |rest|
  {
    if rest != [] && rest[0].Int? {
      var step := Step(op, acc, rest[0].i);
      assert step.Normal?;
      DividingFoldNilIffNonInteger(op, step.value, rest[1..]);
      AllIntsTail(rest);
    }
  }

  /** `/` and `%` when no zero divisor is reached: they do not fault, and
      yield Nil exactly for no arguments, one non-integer, or a non-integer
      anywhere after the first. */
  lemma DividingNilIffNonInteger(op: Op, args: seq<Value>)
    requires op.Divides() && !(exists k :: ZeroDivisorAt(args, k))
    ensures GenFuncSpec(op, args).Normal?
    ensures GenFuncSpec(op, args) == Normal(Nil) <==>
              |args| == 0 || (|args| == 1 && !args[0].Int?) || (|args| >= 2 && !AllInts(args[1..]))
  {
    if |args| >= 2 {
      PanicIffZeroDivisor(op, args);
      DividingFoldNilIffNonInteger(op, if args[0].Int? then args[0].i else 0, args[1..]);
    }
  }

  /** The name each builtin is registered under. */
  function NameOf(op: Op): (name: string)
    ensures name in BuiltinTable && BuiltinTable[name] == op
  {
    match op
    case Add => "+"
    case Sub => "-"
    case Mul => "*"
    case Div => "/"
    case Mod => "%"
    case Eq => "="
    case Less => "<"
    case LessEq => "<="
    case Greater => ">"
    case GreaterEq => ">="
    case NotEq => "<>"
    case Define => "define"
    case If => "if"
    case Print => "print"
    case Set => "set"
  }

  /** The table is one-to-one: every name in it is the name of its builtin,
      so no builtin is reachable under two names. */
  lemma BuiltinTableIsOneToOne(name: string)
    requires name in BuiltinTable
    ensures NameOf(BuiltinTable[name]) == name
  {
  }

  /** A non-integer first argument counts as 0 once there is more than one argument. */
  lemma FirstArgumentCoercion(op: Op, args: seq<Value>)
    requires op.IsFold() && |args| >= 2 && !args[0].Int?
    ensures GenFuncSpec(op, args) == GenFuncSpec(op, [Int(0)] + args[1..])
  {
    assert ([Int(0)] + args[1..])[1..] == args[1..];
  }
}
