/** The syntax tree of the bootstrap language (bs_ast.h), the run-time values of
    bs_value.h and the entries of the command registry.  Values and nodes are one
    recursive family, because a function value owns its body. */
module BsAst {
  datatype Op =
    | Bang | Minus | Plus | Star | Slash | Percent
    | EqualEqual | BangEqual | Less | LessEqual | Greater | GreaterEqual
    | AndAnd | OrOr
    | OtherOp

  /** A floating-point number is an abstract identity: nothing here computes with it. */
  datatype Value =
    | Null
    | Bool(b: bool)
    | Int(i: int)
    | Float(f: int)
    | Str(s: string)
    | Function(name: string, params: seq<string>, body: Node)
    | NativePtr(ptr: int)

  /** One node type for expressions and statements, as in the source; Nil is the NULL pointer. */
  datatype Node =
    | Nil
    | Literal(lit: Value)
    | Identifier(name: string)
    | Unary(op: Op, operand: Node)
    | Binary(op: Op, left: Node, right: Node)
    | Assign(name: string, expr: Node)
    | Call(name: string, args: seq<Node>)
    | VarDecl(name: string, isConst: bool, expr: Node)
    | ExprStmt(expr: Node)
    | Block(stmts: seq<Node>)
    | If(cond: Node, thenBranch: Node, elseBranch: Node)
    | While(cond: Node, body: Node)
    | For(init: Node, cond: Node, update: Node, body: Node)
    | Return(expr: Node)
    | Break
    | Continue
    | Print(expr: Node, isRaw: bool, addNewline: bool)
    | FuncDecl(name: string, params: seq<string>, body: Node)
    | Package(path: string)
    | Import(path: string)
    | CommandDef(name: string, params: seq<string>, body: Node)
    | MacroDef(name: string, params: seq<string>, body: Node)
    | CustomCall(name: string, args: seq<Node>, body: Node)

  datatype Command =
    | Native
    | AstCommand(params: seq<string>, body: Node)
    | Macro(params: seq<string>, body: Node)

  type Registry = map<string, Command>

  datatype Option<+T> = None | Some(value: T)
}
