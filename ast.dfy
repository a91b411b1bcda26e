/** The syntax tree the evaluator consumes. The lexer and parser that build
    it are not part of this model; the tree is taken as given. Every node
    carries the source position that diagnostics are reported at. */
module Ast {

  /** A source position, as handed out by the parser. */
  type Pos = int

  datatype Node =
    | File(nodes: seq<Node>, pos: Pos)          // the program root: top-level nodes in order
    | Identifier(name: string, pos: Pos)        // a name to be resolved
    | Number(val: int, pos: Pos)                // an integer literal
    | Operator(text: string, pos: Pos)          // an operator token such as "+" or "<="
    | Expression(nodes: seq<Node>, pos: Pos)    // a parenthesised call: head, then arguments

}
