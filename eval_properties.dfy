/** What evaluation guarantees, stated over the functional semantics of
    module Evaluator (which the Env methods are proved to follow). */
module EvalProperties {
  import opened Ast
  import opened Values
  import opened Builtins
  import opened Evaluator

  // ---------------------------------------------------------------------
  // Evaluation only adds: diagnostics and output are appended to, and no
  // binding is ever removed.
  // ---------------------------------------------------------------------

  predicate Grows(s: State, t: State) {
    s.diags <= t.diags && s.output <= t.output &&
    s.functions.Keys <= t.functions.Keys && s.variables.Keys <= t.variables.Keys
  }

  lemma CallGrows(f: Value, args: seq<Value>, s: State)
    requires f.IsCallable()
    ensures Grows(s, CallSpec(f, args, s).1)
  {
  }

  lemma TailWellFormed(ns: seq<Node>)
    requires AllWellFormed(ns) && ns != []
    ensures WellFormed(ns[0]) && AllWellFormed(ns[1..])
  {
    forall k | 0 <= k < |ns| - 1 ensures WellFormed(ns[1..][k]) {
      assert ns[1..][k] == ns[k + 1];
    }
  }

  lemma {:induction false} EvalNodeGrows(n: Node, s: State)
    requires WellFormed(n)
    ensures Grows(s, EvalNode(n, s).1)
    decreases n
  {
    match n
    case File(ns, _) =>
      EvalTopGrows(ns, s, Nil);
    case Expression(ns, pos) =>
      if |ns| >= 1 {
        assert AllWellFormed(ns);
        TailWellFormed(ns);
        EvalNodeGrows(ns[0], s);
        var (head, s1) := EvalNode(ns[0], s);
        if head.Normal? && head.value.IsCallable() {
          EvalArgsGrows(ns[1..], s1, []);
          var (args, s2) := EvalArgs(ns[1..], s1, []);
          if args.Normal? {
            CallGrows(head.value, args.value, s2);
          }
        }
      }
    case _ =>
  }

  lemma {:induction false} EvalArgsGrows(ns: seq<Node>, s: State, acc: seq<Value>)
    requires AllWellFormed(ns)
    ensures Grows(s, EvalArgs(ns, s, acc).1)
    decreases ns
  {
    if ns != [] {
      TailWellFormed(ns);
      EvalNodeGrows(ns[0], s);
      var (o, s1) := EvalNode(ns[0], s);
      if o.Normal? {
        EvalArgsGrows(ns[1..], s1, acc + [o.value]);
      }
    }
  }

  lemma {:induction false} EvalTopGrows(ns: seq<Node>, s: State, last: Value)
    requires AllWellFormed(ns)
    ensures Grows(s, EvalTop(ns, s, last).1)
    decreases ns
  {
    if ns != [] {
      TailWellFormed(ns);
      EvalNodeGrows(ns[0], s);
      var (o, s1) := EvalNode(ns[0], s);
      if o.Normal? && !o.value.Unresolved? {
        EvalTopGrows(ns[1..], s1, o.value);
      }
    }
  }

  // ---------------------------------------------------------------------
  // Resolution.
  // ---------------------------------------------------------------------

  /** Builtins always win: a builtin name resolves the same in every state,
      so no `define` or `set` can shadow it. */
  lemma BuiltinsAlwaysWin(name: string, pos: Pos, s: State, t: State)
    requires name in BuiltinTable
    ensures Resolve(name, pos, s) == Resolve(name, pos, t) == Builtin(BuiltinTable[name])
  {
  }

  /** An operator token evaluates to its builtin and changes nothing. */
  lemma OperatorIsBuiltin(text: string, pos: Pos, s: State)
    requires text in BuiltinTable
    ensures EvalNode(Operator(text, pos), s) == (Normal(Builtin(BuiltinTable[text])), s)
    ensures EvalNode(Operator(text, pos), s).0.value.IsCallable()
  {
  }

  // ---------------------------------------------------------------------
  // Expressions.
  // ---------------------------------------------------------------------

  /** `()` adds exactly one diagnostic, at the expression, and yields Nil. */
  lemma EmptyExpressionReported(pos: Pos, s: State)
    ensures EvalNode(Expression([], pos), s) == (Normal(Nil), s.(diags := s.diags + [Diag(pos, EmptyExpressionMsg)]))
  {
  }

  /** A head that does not evaluate to a callable adds one diagnostic at the
      head's position and yields Nil; the arguments are never evaluated. */
  lemma NonCallableHeadReported(head: Node, rest: seq<Node>, pos: Pos, s: State)
    requires WellFormed(head) && AllWellFormed(rest)
    requires EvalNode(head, s).0.Normal? && !EvalNode(head, s).0.value.IsCallable()
    ensures WellFormed(Expression([head] + rest, pos))
    ensures EvalNode(Expression([head] + rest, pos), s) ==
              (Normal(Nil), Report(EvalNode(head, s).1, head.pos, NotAFunctionMsg))
  {
    var ns := [head] + rest;
    forall k | 0 <= k < |ns| ensures WellFormed(ns[k]) {
      if k > 0 { assert ns[k] == rest[k - 1]; }
    }
  }

  /** `(1 2 3)`: one diagnostic, at the head. */
  lemma NumberHeadReported(s: State)
    ensures EvalNode(Expression([Number(1, 1), Number(2, 3), Number(3, 5)], 0), s) ==
              (Normal(Nil), Report(s, 1, NotAFunctionMsg))
  {
    NonCallableHeadReported(Number(1, 1), [Number(2, 3), Number(3, 5)], 0, s);
    assert [Number(1, 1)] + [Number(2, 3), Number(3, 5)] == [Number(1, 1), Number(2, 3), Number(3, 5)];
  }

  /** A call whose head is the builtin named `f` and whose argument nodes
      are `argNodes`. The head is written as an identifier; a parser that
      hands `f` over as an operator token builds a call that evaluates
      alike (OperatorHeadEvaluatesAlike). */
  function CallNode(f: string, argNodes: seq<Node>, pos: Pos): (call: Node) {
    Expression([Identifier(f, pos + 1)] + argNodes, pos)
  }

  /** The same call with the builtin's name as an operator token. */
  function OperatorCallNode(f: string, argNodes: seq<Node>, pos: Pos): (call: Node) {
    Expression([Operator(f, pos + 1)] + argNodes, pos)
  }

  /** Naming a builtin by identifier or by operator token makes no difference
      to a call: same value, same state. */
  lemma OperatorHeadEvaluatesAlike(f: string, argNodes: seq<Node>, pos: Pos, s: State)
    requires f in BuiltinTable && AllWellFormed(argNodes)
    ensures WellFormed(CallNode(f, argNodes, pos)) && WellFormed(OperatorCallNode(f, argNodes, pos))
    ensures EvalNode(OperatorCallNode(f, argNodes, pos), s) == EvalNode(CallNode(f, argNodes, pos), s)
  {
    var n := CallNode(f, argNodes, pos);
    var m := OperatorCallNode(f, argNodes, pos);
    CallNodeParts(f, argNodes, pos);
    assert m.nodes[1..] == argNodes;
    forall k | 0 <= k < |n.nodes| ensures WellFormed(n.nodes[k]) && WellFormed(m.nodes[k]) {
      if k > 0 { assert n.nodes[k] == argNodes[k - 1] == m.nodes[k]; }
    }
    assert EvalNode(m.nodes[0], s) == EvalNode(n.nodes[0], s);
  }

  lemma CallNodeParts(f: string, argNodes: seq<Node>, pos: Pos)
    ensures CallNode(f, argNodes, pos).nodes[0] == Identifier(f, pos + 1)
    ensures CallNode(f, argNodes, pos).nodes[1..] == argNodes
  {
  }

  /** Calling the builtin `f`: its arguments are evaluated left to right
      first, then the builtin is applied to their values. */
  lemma CallOfBuiltin(f: string, argNodes: seq<Node>, pos: Pos, s: State)
    requires f in BuiltinTable && AllWellFormed(argNodes)
    ensures WellFormed(CallNode(f, argNodes, pos))
    ensures EvalNode(CallNode(f, argNodes, pos), s) ==
              (var (args, s2) := EvalArgs(argNodes, s, []);
               if args.Panic? then (Panic(args.reason), s2)
               else CallSpec(Builtin(BuiltinTable[f]), args.value, s2))
  {
    var n := CallNode(f, argNodes, pos);
    CallNodeParts(f, argNodes, pos);
    forall k | 0 <= k < |n.nodes| ensures WellFormed(n.nodes[k]) {
      if k > 0 { assert n.nodes[k] == argNodes[k - 1]; }
    }
  }

  /** Calling the builtin `f` on argument nodes that evaluate without a fault. */
  lemma CallOfBuiltinNormal(f: string, argNodes: seq<Node>, pos: Pos, s: State, vals: seq<Value>, s2: State)
    requires f in BuiltinTable && AllWellFormed(argNodes)
    requires EvalArgs(argNodes, s, []) == (Normal(vals), s2)
    ensures WellFormed(CallNode(f, argNodes, pos))
    ensures EvalNode(CallNode(f, argNodes, pos), s) == CallSpec(Builtin(BuiltinTable[f]), vals, s2)
  {
    CallOfBuiltin(f, argNodes, pos, s);
  }

  /** Evaluating one more argument node. */
  lemma EvalArgsCons(a: Node, ns: seq<Node>, s: State, acc: seq<Value>)
    requires WellFormed(a) && AllWellFormed(ns) && EvalNode(a, s).0.Normal?
    ensures AllWellFormed([a] + ns)
    ensures EvalArgs([a] + ns, s, acc) == EvalArgs(ns, EvalNode(a, s).1, acc + [EvalNode(a, s).0.value])
  {
    var all := [a] + ns;
    forall k | 0 <= k < |all| ensures WellFormed(all[k]) {
      if k > 0 { assert all[k] == ns[k - 1]; }
    }
    assert all[0] == a && all[1..] == ns;
  }

  /** One argument node that evaluates normally. */
  lemma EvalArgsOfOne(a: Node, s: State)
    requires WellFormed(a) && EvalNode(a, s).0.Normal?
    ensures AllWellFormed([a])
    ensures EvalArgs([a], s, []) == (Normal([EvalNode(a, s).0.value]), EvalNode(a, s).1)
  {
    EvalArgsCons(a, [], s, []);
    assert [a] + [] == [a];
    assert [] + [EvalNode(a, s).0.value] == [EvalNode(a, s).0.value];
  }

  /** Two argument nodes that both evaluate normally. */
  lemma EvalArgsOfTwo(a: Node, b: Node, s: State)
    requires WellFormed(a) && WellFormed(b)
    requires EvalNode(a, s).0.Normal? && EvalNode(b, EvalNode(a, s).1).0.Normal?
    ensures AllWellFormed([a, b])
    ensures EvalArgs([a, b], s, []) ==
              (Normal([EvalNode(a, s).0.value, EvalNode(b, EvalNode(a, s).1).0.value]),
               EvalNode(b, EvalNode(a, s).1).1)
  {
    var (oa, s1) := EvalNode(a, s);
    var (ob, s2) := EvalNode(b, s1);
    EvalArgsCons(b, [], s1, [oa.value]);
    assert [b] + [] == [b];
    EvalArgsCons(a, [b], s, []);
    assert [a] + [b] == [a, b];
    assert [] + [oa.value] == [oa.value];
    assert [oa.value] + [ob.value] == [oa.value, ob.value];
  }

  /** Three argument nodes that all evaluate normally. */
  lemma EvalArgsOfThree(a: Node, b: Node, c: Node, s: State)
    requires WellFormed(a) && WellFormed(b) && WellFormed(c)
    requires EvalNode(a, s).0.Normal?
    requires EvalNode(b, EvalNode(a, s).1).0.Normal?
    requires EvalNode(c, EvalNode(b, EvalNode(a, s).1).1).0.Normal?
    ensures AllWellFormed([a, b, c])
    ensures EvalArgs([a, b, c], s, []) ==
              (Normal([EvalNode(a, s).0.value, EvalNode(b, EvalNode(a, s).1).0.value,
                       EvalNode(c, EvalNode(b, EvalNode(a, s).1).1).0.value]),
               EvalNode(c, EvalNode(b, EvalNode(a, s).1).1).1)
  {
    var (oa, s1) := EvalNode(a, s);
    var (ob, s2) := EvalNode(b, s1);
    var (oc, s3) := EvalNode(c, s2);
    EvalArgsCons(c, [], s2, [oa.value, ob.value]);
    assert [c] + [] == [c];
    EvalArgsCons(b, [c], s1, [oa.value]);
    assert [b] + [c] == [b, c];
    EvalArgsCons(a, [b, c], s, []);
    assert [a] + [b, c] == [a, b, c];
    assert [] + [oa.value] == [oa.value];
    assert [oa.value] + [ob.value] == [oa.value, ob.value];
    assert [oa.value, ob.value] + [oc.value] == [oa.value, ob.value, oc.value];
  }

  // ---------------------------------------------------------------------
  // `set` and `define`.
  // ---------------------------------------------------------------------

  /** `(set x e)` with `x` bound nowhere: `e` is evaluated, its value is
      stored under `x` in the variables, the user functions are left alone,
      and the call yields Nil. If `e` did not itself define `x` as a
      function, `x` then resolves to that value. */
  lemma SetStoresValue(x: string, xpos: Pos, e: Node, pos: Pos, s: State)
    requires !Bound(x, s) && WellFormed(e)
    ensures WellFormed(CallNode("set", [Identifier(x, xpos), e], pos))
    ensures var (oe, se) := EvalNode(e, s);
            var (o, t) := EvalNode(CallNode("set", [Identifier(x, xpos), e], pos), s);
            oe.Normal? ==>
              o == Normal(Nil) && t == se.(variables := se.variables[x := oe.value]) &&
              (x !in se.functions ==> Resolve(x, pos, t) == oe.value)
  {
    var xn := Identifier(x, xpos);
    assert EvalNode(xn, s) == (Normal(Unresolved(x, xpos)), s);
    CallOfBuiltin("set", [xn, e], pos, s);
    if EvalNode(e, s).0.Normal? {
      EvalArgsOfTwo(xn, e, s);
    }
  }

  /** `(define f e)` with `f` bound nowhere: `e` is evaluated once, now; `f`
      becomes a function that returns that value whatever it is given, the
      variables are left alone, and the call yields Nil. */
  lemma DefineStoresThunk(f: string, fpos: Pos, e: Node, pos: Pos, s: State)
    requires !Bound(f, s) && WellFormed(e)
    ensures WellFormed(CallNode("define", [Identifier(f, fpos), e], pos))
    ensures var (oe, se) := EvalNode(e, s);
            var (o, t) := EvalNode(CallNode("define", [Identifier(f, fpos), e], pos), s);
            oe.Normal? ==>
              o == Normal(Nil) && t == se.(functions := se.functions[f := oe.value]) &&
              Resolve(f, pos, t) == Thunk(oe.value) &&
              (forall args :: CallSpec(Resolve(f, pos, t), args, t) == (Normal(oe.value), t))
  {
    var fn := Identifier(f, fpos);
    assert EvalNode(fn, s) == (Normal(Unresolved(f, fpos)), s);
    CallOfBuiltin("define", [fn, e], pos, s);
    if EvalNode(e, s).0.Normal? {
      EvalArgsOfTwo(fn, e, s);
    }
  }

  /** `set` or `define` of a name that already resolves to something other
      than an unresolved identifier only evaluates its second argument: the
      name evaluates to its current value first, so nothing is stored. */
  lemma RebindIsNoOp(form: string, x: string, xpos: Pos, e: Node, pos: Pos, s: State)
    requires form == "set" || form == "define"
    requires !Resolve(x, xpos, s).Unresolved? && WellFormed(e)
    ensures WellFormed(CallNode(form, [Identifier(x, xpos), e], pos))
    ensures var (oe, se) := EvalNode(e, s);
            oe.Normal? ==> EvalNode(CallNode(form, [Identifier(x, xpos), e], pos), s) == (Normal(Nil), se)
  {
    var xn := Identifier(x, xpos);
    CallOfBuiltin(form, [xn, e], pos, s);
    if EvalNode(e, s).0.Normal? {
      EvalArgsOfTwo(xn, e, s);
    }
  }

  /** `(define + 1)` changes nothing, and `+` is still addition. */
  lemma DefiningABuiltinNameIsNoOp(pos: Pos, s: State)
    ensures WellFormed(CallNode("define", [Identifier("+", pos + 8), Number(1, pos + 10)], pos))
    ensures EvalNode(CallNode("define", [Identifier("+", pos + 8), Number(1, pos + 10)], pos), s) == (Normal(Nil), s)
    ensures Resolve("+", pos, s) == Builtin(Add)
  {
    RebindIsNoOp("define", "+", pos + 8, Number(1, pos + 10), pos, s);
  }

  /** A name whose variable holds an unresolved identifier passes that
      identifier on: `(set y z)` with `z` unbound stores `z` itself, and a
      later `(define y e)` then defines `z`, replacing any function `z`
      already had. */
  lemma DefineThroughStoredIdentifier(y: string, ypos: Pos, z: string, zpos: Pos, e: Node, pos: Pos, s: State)
    requires y !in BuiltinTable && y !in s.functions && y in s.variables
    requires s.variables[y] == Unresolved(z, zpos) && WellFormed(e)
    ensures WellFormed(CallNode("define", [Identifier(y, ypos), e], pos))
    ensures var (oe, se) := EvalNode(e, s);
            oe.Normal? ==>
              EvalNode(CallNode("define", [Identifier(y, ypos), e], pos), s) ==
                (Normal(Nil), se.(functions := se.functions[z := oe.value]))
  {
    var yn := Identifier(y, ypos);
    assert EvalNode(yn, s) == (Normal(Unresolved(z, zpos)), s);
    CallOfBuiltin("define", [yn, e], pos, s);
    if EvalNode(e, s).0.Normal? {
      EvalArgsOfTwo(yn, e, s);
    }
  }

  /** `define` and `set` with the wrong number of arguments, or a first
      argument that is not an unresolved identifier, change nothing. */
  lemma MalformedDefineOrSetIsNoOp(args: seq<Value>, s: State)
    requires |args| != 2 || !args[0].Unresolved?
    ensures CallSpec(Builtin(Define), args, s) == (Normal(Nil), s)
    ensures CallSpec(Builtin(Set), args, s) == (Normal(Nil), s)
  {
  }

  // ---------------------------------------------------------------------
  // `if` and `print`.
  // ---------------------------------------------------------------------

  /** `(if c t e)` evaluates all three arguments, left to right, before
      choosing: the state afterwards holds the effects of both branches,
      and the result is the else value exactly when the condition is 0. */
  lemma IfIsEager(c: Node, t: Node, e: Node, pos: Pos, s: State)
    requires WellFormed(c) && WellFormed(t) && WellFormed(e)
    requires EvalNode(c, s).0.Normal?
    requires EvalNode(t, EvalNode(c, s).1).0.Normal?
    requires EvalNode(e, EvalNode(t, EvalNode(c, s).1).1).0.Normal?
    ensures WellFormed(CallNode("if", [c, t, e], pos))
    ensures var (oc, s1) := EvalNode(c, s);
            var (ot, s2) := EvalNode(t, s1);
            var (oe, s3) := EvalNode(e, s2);
            EvalNode(CallNode("if", [c, t, e], pos), s) ==
              (Normal(if oc.value == Int(0) then oe.value
                      else if oc.value.Int? then ot.value
                      else Nil), s3)
  {
    EvalArgsOfThree(c, t, e, s);
    var (oc, s1) := EvalNode(c, s);
    var (ot, s2) := EvalNode(t, s1);
    var (oe, s3) := EvalNode(e, s2);
    CallOfBuiltinNormal("if", [c, t, e], pos, s, [oc.value, ot.value, oe.value], s3);
    assert BuiltinTable["if"] == If;
  }

  /** Both branches of an `if` run: `(if 1 (print 10) (print 20))` prints twice. */
  lemma IfPrintsBothBranches(s: State)
    ensures var p10 := CallNode("print", [Number(10, 13)], 10);
            var p20 := CallNode("print", [Number(20, 23)], 20);
            WellFormed(CallNode("if", [Number(1, 5), p10, p20], 0)) &&
            EvalNode(CallNode("if", [Number(1, 5), p10, p20], 0), s) ==
              (Normal(Nil), s.(output := s.output + [[Int(10)], [Int(20)]]))
  {
    var p10 := CallNode("print", [Number(10, 13)], 10);
    var p20 := CallNode("print", [Number(20, 23)], 20);
    CallOfBuiltin("print", [Number(10, 13)], 10, s);
    EvalArgsOfOne(Number(10, 13), s);
    assert BuiltinTable["print"] == Print;
    var s1 := s.(output := s.output + [[Int(10)]]);
    assert EvalNode(p10, s) == (Normal(Nil), s1);
    CallOfBuiltin("print", [Number(20, 23)], 20, s1);
    EvalArgsOfOne(Number(20, 23), s1);
    var s2 := s1.(output := s1.output + [[Int(20)]]);
    assert EvalNode(p20, s1) == (Normal(Nil), s2);
    IfIsEager(Number(1, 5), p10, p20, 0, s);
    assert s1.output + [[Int(20)]] == s.output + [[Int(10)], [Int(20)]];
  }

  /** An unresolved identifier inside an expression is not reported: it is
      passed on as an argument like any value. */
  lemma NestedUnresolvedIsSilent(y: string, pos: Pos, s: State)
    requires !Bound(y, s)
    ensures WellFormed(CallNode("print", [Identifier(y, pos + 7)], pos))
    ensures EvalNode(CallNode("print", [Identifier(y, pos + 7)], pos), s) ==
              (Normal(Nil), s.(output := s.output + [[Unresolved(y, pos + 7)]]))
  {
    CallOfBuiltin("print", [Identifier(y, pos + 7)], pos, s);
    EvalArgsOfOne(Identifier(y, pos + 7), s);
    assert BuiltinTable["print"] == Print;
  }

  // ---------------------------------------------------------------------
  // Files.
  // ---------------------------------------------------------------------

  /** Unresolved identifiers never escape a file: at top level they are
      turned into a diagnostic. */
  lemma {:induction false} TopNeverYieldsUnresolved(ns: seq<Node>, s: State, last: Value)
    requires AllWellFormed(ns) && !last.Unresolved?
    ensures var o := EvalTop(ns, s, last).0; o.Normal? ==> !o.value.Unresolved?
    decreases ns
  {
    if ns != [] {
      TailWellFormed(ns);
      var (o, s1) := EvalNode(ns[0], s);
      if o.Normal? && !o.value.Unresolved? {
        TopNeverYieldsUnresolved(ns[1..], s1, o.value);
      }
    }
  }

  lemma FileNeverYieldsUnresolved(ns: seq<Node>, pos: Pos, s: State)
    requires WellFormed(File(ns, pos))
    ensures var o := EvalNode(File(ns, pos), s).0; o.Normal? ==> !o.value.Unresolved?
  {
    TopNeverYieldsUnresolved(ns, s, Nil);
  }

  /** The top-level nodes `ns` all run, from `s` on, without a fault and
      without yielding an unresolved identifier. */
  predicate TopCompletes(ns: seq<Node>, s: State)
    requires AllWellFormed(ns)
    decreases ns
  {
    ns == [] ||
    (TailWellFormed(ns);
     var (o, s1) := EvalNode(ns[0], s);
     o.Normal? && !o.value.Unresolved? && TopCompletes(ns[1..], s1))
  }

  /** The state after top-level nodes that all complete. */
  function StateAfterTop(ns: seq<Node>, s: State): (t: State)
    requires AllWellFormed(ns) && TopCompletes(ns, s)
    decreases ns
  {
    if ns == [] then s
    else
      TailWellFormed(ns);
      StateAfterTop(ns[1..], EvalNode(ns[0], s).1)
  }

  /** Sequencing of top-level nodes. Once the nodes `done` have completed,
      the next node `m` decides: a fault aborts; an unresolved identifier
      adds one diagnostic at its own position, yields Nil and skips every
      later node `rest`; otherwise, if `m` is the last node, the file's
      value is `m`'s value. */
  lemma {:induction false} TopSequencing(done: seq<Node>, m: Node, rest: seq<Node>, s: State, last: Value)
    requires AllWellFormed(done) && WellFormed(m) && AllWellFormed(rest)
    requires TopCompletes(done, s)
    ensures AllWellFormed(done + [m] + rest)
    ensures var (o, t) := EvalNode(m, StateAfterTop(done, s));
            var r := EvalTop(done + [m] + rest, s, last);
            (o.Panic? ==> r == (o, t)) &&
            (o.Normal? && o.value.Unresolved? ==>
               r == (Normal(Nil), Report(t, o.value.pos, UnknownIdentifierMsg + o.value.name))) &&
            (o.Normal? && !o.value.Unresolved? && rest == [] ==> r == (o, t))
    decreases done
  {
    var all := done + [m] + rest;
    forall k | 0 <= k < |all| ensures WellFormed(all[k]) {
      if k < |done| {
        assert all[k] == done[k];
      } else if k == |done| {
        assert all[k] == m;
      } else {
        assert all[k] == rest[k - |done| - 1];
      }
    }
    if done == [] {
      assert all == [m] + rest;
      assert all[0] == m && all[1..] == rest;
      if rest == [] {
        var (o, t) := EvalNode(m, s);
        if o.Normal? && !o.value.Unresolved? {
          assert EvalTop(rest, t, o.value) == (o, t);
        }
      }
    } else {
      TailWellFormed(done);
      var (o0, s1) := EvalNode(done[0], s);
      assert all[0] == done[0];
      assert all[1..] == done[1..] + [m] + rest;
      TopSequencing(done[1..], m, rest, s1, o0.value);
    }
  }

  /** The entry point: a result other than Nil comes only with an empty
      error sink; parser diagnostics stop evaluation before it starts; and
      the sink begins with the parser's diagnostics. */
  lemma EvalFileNilWhenDiagnosed(root: Node, parseDiags: seq<Diag>, s: State)
    requires WellFormed(root)
    ensures var (r, t) := EvalFileSpec(root, parseDiags, s);
            (r.Normal? && |t.diags| > 0 ==> r.value == Nil) &&
            (|parseDiags| > 0 ==> t == s.(diags := parseDiags)) &&
            parseDiags <= t.diags &&
            t.functions.Keys >= s.functions.Keys && t.variables.Keys >= s.variables.Keys
  {
    EvalNodeGrows(root, s.(diags := parseDiags));
  }

  /** The other direction: with no parser diagnostics, a fault, or an
      evaluation that leaves the sink empty, passes through the entry point
      unchanged. So the entry point answers Nil only after a diagnostic or
      when the evaluation itself yields Nil. */
  lemma EvalFilePassesThrough(root: Node, s: State)
    requires WellFormed(root)
    ensures var (o, t) := EvalNode(root, s.(diags := []));
            (o.Panic? || |t.diags| == 0) ==> EvalFileSpec(root, [], s) == (o, t)
    ensures var (o, t) := EvalNode(root, s.(diags := []));
            EvalFileSpec(root, [], s).0 == Normal(Nil) ==> o == Normal(Nil) || |t.diags| > 0
  {
  }

  /** An unbound name alone at top level: one diagnostic, at its position, and Nil. */
  lemma UnboundTopLevelIdentifier(y: string, ypos: Pos, s: State)
    requires !Bound(y, s)
    ensures WellFormed(File([Identifier(y, ypos)], 0))
    ensures EvalFileSpec(File([Identifier(y, ypos)], 0), [], s) ==
              (Normal(Nil), s.(diags := [Diag(ypos, UnknownIdentifierMsg + y)]))
  {
    var s0 := s.(diags := []);
    assert EvalNode(Identifier(y, ypos), s0) == (Normal(Unresolved(y, ypos)), s0);
    var d := Diag(ypos, UnknownIdentifierMsg + y);
    assert [] + [d] == [d];
    assert EvalTop([Identifier(y, ypos)], s0, Nil) == (Normal(Nil), s.(diags := [d]));
  }

  /** Division by zero is not a diagnostic: it aborts the whole evaluation,
      and the entry point passes the fault through with the sink empty. */
  lemma DivisionByZeroAborts(s: State)
    ensures WellFormed(File([CallNode("/", [Number(1, 3), Number(0, 5)], 0)], 0))
    ensures EvalNode(File([CallNode("/", [Number(1, 3), Number(0, 5)], 0)], 0), s).0 == Panic(DivideByZero)
    ensures var (r, t) := EvalFileSpec(File([CallNode("/", [Number(1, 3), Number(0, 5)], 0)], 0), [], s);
            r == Panic(DivideByZero) && t == s.(diags := [])
  {
    DivisionByZeroAbortsFrom(s);
    DivisionByZeroAbortsFrom(s.(diags := []));
  }

  lemma DivisionByZeroAbortsFrom(s: State)
    ensures WellFormed(File([CallNode("/", [Number(1, 3), Number(0, 5)], 0)], 0))
    ensures EvalNode(File([CallNode("/", [Number(1, 3), Number(0, 5)], 0)], 0), s) == (Panic(DivideByZero), s)
  {
    var d := CallNode("/", [Number(1, 3), Number(0, 5)], 0);
    CallOfBuiltin("/", [Number(1, 3), Number(0, 5)], 0, s);
    EvalArgsOfTwo(Number(1, 3), Number(0, 5), s);
    assert BuiltinTable["/"] == Div;
    assert [Int(1), Int(0)][1..] == [Int(0)];
    assert GenFuncSpec(Div, [Int(1), Int(0)]) == Panic(DivideByZero);
    assert EvalNode(d, s) == (Panic(DivideByZero), s);
    assert EvalTop([d], s, Nil) == (Panic(DivideByZero), s);
  }
}
