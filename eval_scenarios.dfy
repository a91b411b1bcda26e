/** Whole programs run from a fresh environment, worked out step by step
    with the lemmas of EvalProperties. */
module EvalScenarios {
  import opened Ast
  import opened Values
  import opened Builtins
  import opened Evaluator
  import opened EvalProperties

  const Fresh: State := State(map[], map[], [], [])

  /** A two-argument builtin call whose arguments evaluate normally. */
  lemma CallOfTwo(f: string, a: Node, b: Node, pos: Pos, s: State)
    requires f in BuiltinTable && WellFormed(a) && WellFormed(b)
    requires EvalNode(a, s).0.Normal? && EvalNode(b, EvalNode(a, s).1).0.Normal?
    ensures WellFormed(CallNode(f, [a, b], pos))
    ensures EvalNode(CallNode(f, [a, b], pos), s) ==
              CallSpec(Builtin(BuiltinTable[f]),
                       [EvalNode(a, s).0.value, EvalNode(b, EvalNode(a, s).1).0.value],
                       EvalNode(b, EvalNode(a, s).1).1)
  {
    EvalArgsOfTwo(a, b, s);
    CallOfBuiltinNormal(f, [a, b], pos, s,
                        [EvalNode(a, s).0.value, EvalNode(b, EvalNode(a, s).1).0.value],
                        EvalNode(b, EvalNode(a, s).1).1);
  }

  /** A file of three top-level nodes, the first two completing. */
  lemma FileOfThree(n1: Node, n2: Node, n3: Node, s: State)
    requires WellFormed(n1) && WellFormed(n2) && WellFormed(n3)
    requires EvalNode(n1, s).0.Normal? && !EvalNode(n1, s).0.value.Unresolved?
    requires EvalNode(n2, EvalNode(n1, s).1).0.Normal? && !EvalNode(n2, EvalNode(n1, s).1).0.value.Unresolved?
    ensures WellFormed(File([n1, n2, n3], 0))
    ensures var s2 := EvalNode(n2, EvalNode(n1, s).1).1;
            var (o, t) := EvalNode(n3, s2);
            o.Normal? && !o.value.Unresolved? ==> EvalNode(File([n1, n2, n3], 0), s) == (o, t)
  {
    var s1 := EvalNode(n1, s).1;
    var s2 := EvalNode(n2, s1).1;
    assert [n2][1..] == [];
    assert TopCompletes([n2], s1);
    assert [n1, n2][1..] == [n2];
    assert TopCompletes([n1, n2], s);
    assert StateAfterTop([n2], s1) == s2;
    assert StateAfterTop([n1, n2], s) == s2;
    TopSequencing([n1, n2], n3, [], s, Nil);
    assert [n1, n2] + [n3] + [] == [n1, n2, n3];
  }

  // (set x 3) (define double 6) (if (= x 3) <then> 0)
  const SetX: Node := CallNode("set", [Identifier("x", 5), Number(3, 7)], 0)
  const DefineDouble: Node := CallNode("define", [Identifier("double", 18), Number(6, 25)], 10)
  const Guard: Node := CallNode("=", [Identifier("x", 35), Number(3, 37)], 32)
  const AfterSetX: State := State(map[], map["x" := Int(3)], [], [])
  const Bound2: State := State(map["double" := Int(6)], map["x" := Int(3)], [], [])

  function Session(thenBranch: Node): (program: Node) {
    File([SetX, DefineDouble, CallNode("if", [Guard, thenBranch, Number(0, 53)], 28)], 0)
  }

  /** The first two nodes bind `x` to 3 and `double` to a function returning
      6, and the guard `(= x 3)` then holds. */
  lemma SessionBindings()
    ensures WellFormed(SetX) && WellFormed(DefineDouble) && WellFormed(Guard)
    ensures EvalNode(SetX, Fresh) == (Normal(Nil), AfterSetX)
    ensures EvalNode(DefineDouble, AfterSetX) == (Normal(Nil), Bound2)
    ensures EvalNode(Guard, Bound2) == (Normal(Int(1)), Bound2)
  {
    SetStoresValue("x", 5, Number(3, 7), 0, Fresh);
    DefineStoresThunk("double", 18, Number(6, 25), 10, AfterSetX);
    GuardHolds();
  }

  /** With `x` bound to 3, `(= x 3)` yields 1 and changes nothing. */
  lemma GuardHolds()
    ensures WellFormed(Guard)
    ensures EvalNode(Guard, Bound2) == (Normal(Int(1)), Bound2)
  {
    assert Resolve("x", 35, Bound2) == Int(3);
    CallOfTwo("=", Identifier("x", 35), Number(3, 37), 32, Bound2);
    ComparisonOfTwo(Eq, 3, 3);
  }

  const PlusDouble: Node := CallNode("+", [Identifier("double", 43), Number(1, 50)], 40)

  /** Naming a user function yields the function itself, not its value:
      `(+ double 1)` adds 1 to the non-integer `double`, counted as 0. */
  lemma FunctionNamePlusOne()
    ensures WellFormed(PlusDouble)
    ensures EvalNode(PlusDouble, Bound2) == (Normal(Int(1)), Bound2)
  {
    assert Resolve("double", 43, Bound2) == Thunk(Int(6));
    CallOfTwo("+", Identifier("double", 43), Number(1, 50), 40, Bound2);
    assert [Thunk(Int(6)), Int(1)][1..] == [Int(1)];
  }

  /** With `(+ double 1)` as the chosen branch, the session yields 1. */
  lemma SessionWithFunctionName()
    ensures WellFormed(Session(PlusDouble))
    ensures EvalNode(Session(PlusDouble), Fresh) == (Normal(Int(1)), Bound2)
  {
    SessionBindings();
    FunctionNamePlusOne();
    IfIsEager(Guard, PlusDouble, Number(0, 53), 28, Bound2);
    FileOfThree(SetX, DefineDouble, CallNode("if", [Guard, PlusDouble, Number(0, 53)], 28), Fresh);
  }

  const CallDouble: Node := Expression([Identifier("double", 44)], 43)
  const CallDoublePlusOne: Node := CallNode("+", [CallDouble, Number(1, 52)], 40)

  /** `(double)` calls the function and yields 6, so `(+ (double) 1)` yields 7. */
  lemma DoublePlusOne()
    ensures WellFormed(CallDouble) && WellFormed(CallDoublePlusOne)
    ensures EvalNode(CallDouble, Bound2) == (Normal(Int(6)), Bound2)
    ensures EvalNode(CallDoublePlusOne, Bound2) == (Normal(Int(7)), Bound2)
  {
    assert Resolve("double", 44, Bound2) == Thunk(Int(6));
    assert [Identifier("double", 44)][1..] == [];
    assert EvalNode(CallDouble, Bound2) == (Normal(Int(6)), Bound2);
    CallOfTwo("+", CallDouble, Number(1, 52), 40, Bound2);
    assert [Int(6), Int(1)][1..] == [Int(1)];
  }

  /** Calling it instead, `(+ (double) 1)`, the session yields 7. */
  lemma SessionWithFunctionCall()
    ensures WellFormed(Session(CallDoublePlusOne))
    ensures EvalNode(Session(CallDoublePlusOne), Fresh) == (Normal(Int(7)), Bound2)
  {
    SessionBindings();
    DoublePlusOne();
    IfIsEager(Guard, CallDoublePlusOne, Number(0, 53), 28, Bound2);
    FileOfThree(SetX, DefineDouble, CallNode("if", [Guard, CallDoublePlusOne, Number(0, 53)], 28), Fresh);
  }

  // (define f 7) (set f 99) (f)
  const DefineF: Node := CallNode("define", [Identifier("f", 8), Number(7, 10)], 0)
  const SetF: Node := CallNode("set", [Identifier("f", 18), Number(99, 20)], 13)
  const FBound: State := State(map["f" := Int(7)], map[], [], [])

  /** Once `f` is defined, `(set f 99)` is a no-op, and `(f)` still yields 7. */
  lemma DefineThenSet()
    ensures WellFormed(File([DefineF, SetF, Expression([Identifier("f", 25)], 24)], 0))
    ensures EvalNode(File([DefineF, SetF, Expression([Identifier("f", 25)], 24)], 0), Fresh) ==
              (Normal(Int(7)), FBound)
  {
    DefineStoresThunk("f", 8, Number(7, 10), 0, Fresh);
    assert EvalNode(DefineF, Fresh) == (Normal(Nil), FBound);
    RebindIsNoOp("set", "f", 18, Number(99, 20), 13, FBound);
    assert EvalNode(SetF, FBound) == (Normal(Nil), FBound);
    var call := Expression([Identifier("f", 25)], 24);
    assert [Identifier("f", 25)][1..] == [];
    assert EvalNode(call, FBound) == (Normal(Int(7)), FBound);
    FileOfThree(DefineF, SetF, call, Fresh);
  }
}
