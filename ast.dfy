/** The abstract syntax tree shared by the parser, the semantic analyser, the
    IR generator and the interpreter (include/parser.h). */
module Ast {
  import opened Wrappers

  /** One node. `kind` is the source's type tag: "number", "string",
      "variable", "binop", "assign", "cin" or "cout"; any other text is an
      unknown kind, which the later stages treat explicitly. `name` is the
      identifier (variable, assignment target, cin target), `value` the text
      of a number or string literal, `op` the operator of a binop, and `line`
      the source line used in diagnostics. */
  datatype Node = Node(kind: string, name: string, value: string, op: string,
                       left: Tree, right: Tree, line: int)

  /** A possibly null `ASTNode*`. */
  type Tree = Option<Node>

  function Leaf(kind: string, name: string, value: string, line: int): Node
  {
    Node(kind, name, value, "", None, None, line)
  }

  /** A number literal node. */
  function NumberNode(value: string, line: int): Node { Leaf("number", "", value, line) }

  /** A string literal node; `value` excludes the quotes. */
  function StringNode(value: string, line: int): Node { Leaf("string", "", value, line) }

  /** A variable reference. */
  function VariableNode(name: string, line: int): Node { Leaf("variable", name, "", line) }

  /** A binary operation; the children are never null when the parser builds one. */
  function BinopNode(op: string, l: Node, r: Node, line: int): Node
  {
    Node("binop", "", "", op, Some(l), Some(r), line)
  }

  /** An expression tree as the parser builds it: a number, string or
      variable leaf, or a binop over one of the four operators with both
      operands present. */
  predicate IsExpr(n: Node)
    decreases n
  {
    ((n.kind == "number" || n.kind == "string" || n.kind == "variable") && n.left.None? && n.right.None?) ||
    (n.kind == "binop" && (n.op == "+" || n.op == "-" || n.op == "*" || n.op == "/") &&
     n.left.Some? && n.right.Some? && IsExpr(n.left.value) && IsExpr(n.right.value))
  }

  /** A statement node as the parser builds it. */
  predicate IsStatement(n: Node)
  {
    (n.kind == "assign" && n.left.Some? && IsExpr(n.left.value) && n.right.None?) ||
    (n.kind == "cin" && n.left.None? && n.right.None?) ||
    (n.kind == "cout" && n.left.Some? && IsExpr(n.left.value) && n.right.None?)
  }
}
