/** Runtime values of the calculator. Callables are represented as data:
    a builtin is named by its operation, and a user definition made by
    `define` is a thunk holding the value it will always return. */
module Values {
  import opened Ast

  /** The fifteen builtins of the language. */
  datatype Op =
    | Add | Sub | Mul | Div | Mod
    | Eq | Less | LessEq | Greater | GreaterEq | NotEq
    | Define | If | Print | Set
  {
    /** The builtins implemented by the shared left fold over integers. */
    predicate IsFold() {
      !(Define? || If? || Print? || Set?)
    }

    /** The builtins whose folding step yields 1 or 0. */
    predicate IsComparison() {
      Eq? || Less? || LessEq? || Greater? || GreaterEq? || NotEq?
    }

    /** The builtins whose folding step divides, and so can divide by zero. */
    predicate Divides() {
      Div? || Mod?
    }
  }

  datatype Value =
    | Int(i: int)                          // an integer
    | Builtin(op: Op)                      // a builtin function
    | Thunk(captured: Value)               // a function made by `define`: ignores its arguments, returns `captured`
    | Unresolved(name: string, pos: Pos)   // an identifier bound nowhere, passed on as itself
    | Nil                                  // no value
  {
    /** What the evaluator accepts at the head of an expression. */
    predicate IsCallable() {
      Builtin? || Thunk?
    }
  }

  /** The runtime fault an integer division by zero raises. */
  const DivideByZero: string := "integer divide by zero"

  /** The result of a step that can abort the whole evaluation with a runtime fault. */
  datatype Outcome<T> = Normal(value: T) | Panic(reason: string)

}
