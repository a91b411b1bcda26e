/** The tree-walking evaluator: identifier resolution against the builtin
    table and the two user namespaces, the builtins that touch the
    environment (`define`, `set`, `print`), and the recursive dispatch over
    the five node kinds. Its meaning is given twice: by functions over an
    immutable State (EvalNode and friends), and by the methods of the class
    Env, which update the namespaces in place and are proved to agree with
    those functions. */
module Evaluator {
  import opened Ast
  import opened Values
  import opened Builtins

  /** A positioned diagnostic on the error sink. */
  datatype Diag = Diag(pos: Pos, msg: string)

  const EmptyExpressionMsg: string := "Empty expression not allowed"
  const NotAFunctionMsg: string := "First element of an expression must be a function."
  const UnknownIdentifierMsg: string := "Unknown identifier: "

  /** Everything evaluation reads and writes: the user functions made by
      `define` (each kept as the value its thunk returns), the variables
      made by `set`, the error sink, and the argument lists `print` was
      given, in order. */
  datatype State = State(
    functions: map<string, Value>,
    variables: map<string, Value>,
    diags: seq<Diag>,
    output: seq<seq<Value>>)

  function Report(s: State, pos: Pos, msg: string): (t: State) {
    s.(diags := s.diags + [Diag(pos, msg)])
  }

  /** The parser only makes Operator nodes for builtin operator tokens. */
  predicate WellFormed(n: Node)
    decreases n
  {
    match n
    case File(ns, _) => forall k | 0 <= k < |ns| :: WellFormed(ns[k])
    case Expression(ns, _) => forall k | 0 <= k < |ns| :: WellFormed(ns[k])
    case Operator(text, _) => text in BuiltinTable
    case _ => true
  }

  predicate AllWellFormed(ns: seq<Node>) {
    forall k | 0 <= k < |ns| :: WellFormed(ns[k])
  }

  /** A name bound in some namespace. */
  predicate Bound(name: string, s: State) {
    name in BuiltinTable || name in s.functions || name in s.variables
  }

  /** Identifier resolution: builtins first, then user functions, then
      variables; an unbound name stands for itself. */
  function Resolve(name: string, pos: Pos, s: State): (v: Value)
    ensures name in BuiltinTable ==> v == Builtin(BuiltinTable[name])
    ensures name !in BuiltinTable && name in s.functions ==> v == Thunk(s.functions[name])
    ensures name !in BuiltinTable && name !in s.functions && name in s.variables ==> v == s.variables[name]
    ensures !Bound(name, s) ==> v == Unresolved(name, pos)
  {
    if name in BuiltinTable then Builtin(BuiltinTable[name])
    else if name in s.functions then Thunk(s.functions[name])
    else if name in s.variables then s.variables[name]
    else Unresolved(name, pos)
  }

  /** `define` over evaluated arguments: with exactly two, the first being
      an unresolved identifier, the user function of that name becomes a
      thunk returning the second. Anything else changes nothing. */
  function AfterDefine(args: seq<Value>, s: State): (t: State)
    ensures t.variables == s.variables && t.diags == s.diags && t.output == s.output
    ensures t.functions.Keys <= s.functions.Keys + (if |args| == 2 && args[0].Unresolved? then {args[0].name} else {})
    ensures forall g | g in s.functions :: g in t.functions
    ensures |args| == 2 && args[0].Unresolved? ==> args[0].name in t.functions && t.functions[args[0].name] == args[1]
    ensures forall g | g in s.functions && !(|args| == 2 && args[0].Unresolved? && g == args[0].name) ::
              t.functions[g] == s.functions[g]
    ensures !(|args| == 2 && args[0].Unresolved?) ==> t == s
  {
    if |args| == 2 && args[0].Unresolved? then s.(functions := s.functions[args[0].name := args[1]])
    else s
  }

  /** `set`: as `define`, but the second argument itself goes into the variables. */
  function AfterSet(args: seq<Value>, s: State): (t: State)
    ensures t.functions == s.functions && t.diags == s.diags && t.output == s.output
    ensures t.variables.Keys <= s.variables.Keys + (if |args| == 2 && args[0].Unresolved? then {args[0].name} else {})
    ensures forall x | x in s.variables :: x in t.variables
    ensures |args| == 2 && args[0].Unresolved? ==> args[0].name in t.variables && t.variables[args[0].name] == args[1]
    ensures forall x | x in s.variables && !(|args| == 2 && args[0].Unresolved? && x == args[0].name) ::
              t.variables[x] == s.variables[x]
    ensures !(|args| == 2 && args[0].Unresolved?) ==> t == s
  {
    if |args| == 2 && args[0].Unresolved? then s.(variables := s.variables[args[0].name := args[1]])
    else s
  }

  /** Invoking a callable on evaluated arguments. A thunk ignores them. */
  function CallSpec(f: Value, args: seq<Value>, s: State): (r: (Outcome<Value>, State))
    requires f.IsCallable()
    ensures r.1.diags == s.diags
    ensures r.0.Panic? ==> f.Builtin? && f.op.Divides()
    ensures f.Thunk? ==> r == (Normal(f.captured), s)
  {
    match f
    case Thunk(captured) => (Normal(captured), s)
    case Builtin(op) =>
      match op
      case Define => (Normal(Nil), AfterDefine(args, s))
      case Set => (Normal(Nil), AfterSet(args, s))
      case If => (Normal(FuncIf(args)), s)
      case Print => (Normal(Nil), s.(output := s.output + [args]))
      case _ => (GenFuncSpec(op, args), s)
  }

  /** The value of a node and the state after evaluating it. */
  function EvalNode(n: Node, s: State): (r: (Outcome<Value>, State))
    requires WellFormed(n)
    decreases n
  {
    match n
    case File(ns, _) => EvalTop(ns, s, Nil)
    case Identifier(name, pos) => (Normal(Resolve(name, pos, s)), s)
    case Number(val, _) => (Normal(Int(val)), s)
    case Operator(text, _) => (Normal(Builtin(BuiltinTable[text])), s)
    case Expression(ns, pos) =>
      if |ns| < 1 then (Normal(Nil), Report(s, pos, EmptyExpressionMsg))
      else
        var (head, s1) := EvalNode(ns[0], s);
        if head.Panic? then (Panic(head.reason), s1)
        else if !head.value.IsCallable() then (Normal(Nil), Report(s1, ns[0].pos, NotAFunctionMsg))
        else
          assert AllWellFormed(ns[1..]) by {
            forall k | 0 <= k < |ns| - 1 ensures WellFormed(ns[1..][k]) {
              assert ns[1..][k] == ns[k + 1];
            }
          }
          var (args, s2) := EvalArgs(ns[1..], s1, []);
          if args.Panic? then (Panic(args.reason), s2)
          else CallSpec(head.value, args.value, s2)
  }

  /** Evaluates call arguments left to right, appending their values to `acc`. */
  function EvalArgs(ns: seq<Node>, s: State, acc: seq<Value>): (r: (Outcome<seq<Value>>, State))
    requires AllWellFormed(ns)
    ensures r.0.Normal? ==> |r.0.value| == |acc| + |ns| && r.0.value[..|acc|] == acc
    decreases ns
  {
    if ns == [] then (Normal(acc), s)
    else
      var (o, s1) := EvalNode(ns[0], s);
      if o.Panic? then (Panic(o.reason), s1)
      else EvalArgs(ns[1..], s1, acc + [o.value])
  }

  /** Evaluates the top-level nodes of a file in order; `last` is the value
      of the one before. An unresolved identifier as a top-level result is
      reported at its own position and ends the file with Nil. */
  function EvalTop(ns: seq<Node>, s: State, last: Value): (r: (Outcome<Value>, State))
    requires AllWellFormed(ns)
    decreases ns
  {
    if ns == [] then (Normal(last), s)
    else
      var (o, s1) := EvalNode(ns[0], s);
      if o.Panic? then (o, s1)
      else if o.value.Unresolved? then
        (Normal(Nil), Report(s1, o.value.pos, UnknownIdentifierMsg + o.value.name))
      else EvalTop(ns[1..], s1, o.value)
  }

  /** The entry point on a parsed tree: the sink starts with the parser's
      diagnostics; any diagnostic before or after evaluation makes the
      result Nil. */
  function EvalFileSpec(root: Node, parseDiags: seq<Diag>, s: State): (r: (Outcome<Value>, State))
    requires WellFormed(root)
  {
    var s0 := s.(diags := parseDiags);
    if |parseDiags| > 0 then (Normal(Nil), s0)
    else
      var (o, s1) := EvalNode(root, s0);
      if o.Normal? && |s1.diags| > 0 then (Normal(Nil), s1) else (o, s1)
  }

  /** The evaluation environment, updated in place. */
  class Env {
    var functions: map<string, Value>
    var variables: map<string, Value>
    var diags: seq<Diag>
    var output: seq<seq<Value>>

    function Snapshot(): (s: State)
      reads this
    {
      State(functions, variables, diags, output)
    }

    /** A fresh environment: no user bindings, no diagnostics, no output. */
    constructor ()
      ensures Snapshot() == State(map[], map[], [], [])
    {
      functions := map[];
      variables := map[];
      diags := [];
      output := [];
    }

    method AddError(pos: Pos, msg: string)
      modifies this
      ensures Snapshot() == Report(old(Snapshot()), pos, msg)
    {
      diags := diags + [Diag(pos, msg)];
    }

    /** `define`. The source also refuses a second argument that is an
        operator node, but arguments arrive evaluated and no value is an
        operator node, so that refusal has no counterpart here. */
    method FuncDefine(args: seq<Value>) returns (r: Value)
      modifies this
      ensures r == Nil
      ensures Snapshot() == AfterDefine(args, old(Snapshot()))
    {
      if |args| != 2 {
        return Nil;
      }
      match args[0] {
        case Unresolved(name, _) =>
          functions := functions[name := args[1]];
        case _ =>
      }
      return Nil;
    }

    /** `set`; the same remark on operator nodes applies. */
    method FuncSet(args: seq<Value>) returns (r: Value)
      modifies this
      ensures r == Nil
      ensures Snapshot() == AfterSet(args, old(Snapshot()))
    {
      if |args| != 2 {
        return Nil;
      }
      match args[0] {
        case Unresolved(name, _) =>
          variables := variables[name := args[1]];
        case _ =>
      }
      return Nil;
    }

    /** `print`: records its arguments on the output log. */
    method FuncPrint(args: seq<Value>) returns (r: Value)
      modifies this
      ensures r == Nil
      ensures Snapshot() == old(Snapshot()).(output := old(output) + [args])
    {
      output := output + [args];
      return Nil;
    }

    method Call(f: Value, args: seq<Value>) returns (r: Outcome<Value>)
      requires f.IsCallable()
      modifies this
      ensures (r, Snapshot()) == CallSpec(f, args, old(Snapshot()))
    {
      match f
      case Thunk(captured) =>
        r := Normal(captured);
      case Builtin(op) =>
        match op
        case Define =>
          var v := FuncDefine(args);
          r := Normal(v);
        case Set =>
          var v := FuncSet(args);
          r := Normal(v);
        case If =>
          r := Normal(FuncIf(args));
        case Print =>
          var v := FuncPrint(args);
          r := Normal(v);
        case _ =>
          r := GenFunc(op, args);
    }

    /** Evaluates a node against this environment. */
    method Eval(n: Node) returns (r: Outcome<Value>)
      requires WellFormed(n)
      modifies this
      ensures (r, Snapshot()) == EvalNode(n, old(Snapshot()))
      decreases n
    {
      match n
      case File(ns, _) =>
        var x := Nil;
        var i := 0;
        while i < |ns|
          invariant 0 <= i <= |ns|
          invariant EvalTop(ns[i..], Snapshot(), x) == EvalNode(n, old(Snapshot()))
        {
          assert ns[i..][1..] == ns[i + 1..];
          var o := Eval(ns[i]);
          if o.Panic? {
            return o;
          }
          if o.value.Unresolved? {
            AddError(o.value.pos, UnknownIdentifierMsg + o.value.name);
            return Normal(Nil);
          }
          x := o.value;
          i := i + 1;
        }
        return Normal(x);
      case Identifier(name, pos) =>
        return Normal(Resolve(name, pos, Snapshot()));
      case Number(val, _) =>
        return Normal(Int(val));
      case Operator(text, _) =>
        return Normal(Builtin(BuiltinTable[text]));
      case Expression(ns, pos) =>
        if |ns| < 1 {
          AddError(pos, EmptyExpressionMsg);
          return Normal(Nil);
        }
        var head := Eval(ns[0]);
        if head.Panic? {
          return head;
        }
        if !head.value.IsCallable() {
          AddError(ns[0].pos, NotAFunctionMsg);
          return Normal(Nil);
        }
        ghost var s1 := Snapshot();
        var args: seq<Value> := [];
        var i := 1;
        while i < |ns|
          invariant 1 <= i <= |ns|
          invariant EvalArgs(ns[i..], Snapshot(), args) == EvalArgs(ns[1..], s1, [])
        {
          assert ns[i..][1..] == ns[i + 1..];
          var a := Eval(ns[i]);
          if a.Panic? {
            return a;
          }
          args := args + [a.value];
          i := i + 1;
        }
        r := Call(head.value, args);
    }

    /** The entry point on a parsed tree; see EvalFileSpec. */
    method EvalFile(root: Node, parseDiags: seq<Diag>) returns (r: Outcome<Value>)
      requires WellFormed(root)
      modifies this
      ensures (r, Snapshot()) == EvalFileSpec(root, parseDiags, old(Snapshot()))
    {
      diags := parseDiags;
      if |diags| > 0 {
        return Normal(Nil);
      }
      r := Eval(root);
      if r.Normal? && |diags| > 0 {
        return Normal(Nil);
      }
    }
  }
}
