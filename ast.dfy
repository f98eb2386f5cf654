/** The syntax tree of frontend/ast.ts, with one constructor per node tag that
    occurs anywhere in the program: the parser builds `NumbericLiteral`
    (frontend/ast.ts spells the tag that way), while the evaluator in
    runtime/interpreter.ts looks for `NumericLiteral` and `NullLiteral`. */
module Ast {

  datatype Node =
    | File(stmts: seq<Node>)
    | BinaryExpr(left: Node, right: Node, operator: string)
    | Identifier(ident: string)
    | NumbericLiteral(value: real)
    | NumericLiteral(value: real)
    | NullLiteral

  /** The `AstNodeType` union of frontend/ast.ts: the tags the parser can build. */
  const AstNodeTypes: set<string> := {"File", "Identifier", "NumbericLiteral", "BinaryExpr"}

  /** The `nodeType` string of a node. It is one of the `AstNodeType` strings exactly
      for the four node kinds frontend/ast.ts declares; the evaluator's two extra
      kinds carry tags outside that union. */
  function NodeType(n: Node): (tag: string)
    ensures tag in AstNodeTypes <==> !(n.NumericLiteral? || n.NullLiteral?)
  {
    match n
    case File(_) => "File"
    case BinaryExpr(_, _, _) => "BinaryExpr"
    case Identifier(_) => "Identifier"
    case NumbericLiteral(_) => "NumbericLiteral"
    case NumericLiteral(_) => "NumericLiteral"
    case NullLiteral => "NullLiteral"
  }

  /** Whether two nodes are built by the same constructor. */
  predicate SameKind(m: Node, n: Node) {
    (m.File? && n.File?) || (m.BinaryExpr? && n.BinaryExpr?) || (m.Identifier? && n.Identifier?)
    || (m.NumbericLiteral? && n.NumbericLiteral?) || (m.NumericLiteral? && n.NumericLiteral?)
    || (m.NullLiteral? && n.NullLiteral?)
  }

  /** The tag names the node kind: two nodes have the same tag exactly when they
      are of the same kind, so a dispatch on the tag tells every kind apart. */
  lemma NodeTypeNamesKind(m: Node, n: Node)
    ensures NodeType(m) == NodeType(n) <==> SameKind(m, n)
  {
  }
}
