/** The abstract syntax tree the evaluator consumes. The parser that builds
    it is not part of this model: a program is given as a `Node`. Only the
    node kinds the evaluator switches on are declared. */
module Ast {
  import opened Bytes

  /** A Go `int64`; integer literals are parsed into this range. */
  newtype int64 = x: int | -0x8000_0000_0000_0000 <= x < 0x8000_0000_0000_0000

  /** A 64-bit float, kept as an opaque token: two floats are equal exactly
      when their tokens are. */
  type FloatBits = bv64

  datatype Node =
    | EmptyNode
    | NullNode
    | StringNode(payload: seq<byte>)
    | NumberNode(isInteger: bool, intPayload: int64, floatPayload: FloatBits)
    | BooleanNode(boolPayload: bool)
    | AtomNode(atomPayload: string)
    | ListNode(elems: seq<Node>)
    | ObjectNode(entries: seq<ObjectEntry>)
    | FnNode(name: string, args: seq<string>, body: Node)
    | IdentifierNode(name: string)
    | AssignmentNode(isLocal: bool, left: Node, right: Node)
    | PropertyAccessNode(left: Node, right: Node)
    | UnaryNode(op: string, right: Node)
    | BinaryNode(op: string, left: Node, right: Node)
    | FnCallNode(fn: Node, callArgs: seq<Node>)
    | IfExprNode(cond: Node, branches: seq<IfBranch>)
    | BlockNode(exprs: seq<Node>)

  datatype ObjectEntry = ObjectEntry(key: Node, val: Node)

  datatype IfBranch = IfBranch(target: Node, body: Node)
}
