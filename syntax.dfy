/**
 * Values the MicroJava parser works on: tokens handed over by the scanner, the
 * executable node trees it builds, the calls it makes on its function context,
 * the registry entries of declared functions and the ways a parse can fail.
 */
module Syntax {

  datatype Option<+T> = None | Some(value: T)

  /** Terminal categories of the scanner. `Sentinel` is the scanner's `none`
      kind, the placeholder lookahead before the first token is read. */
  datatype Kind =
    | Sentinel | Ident | Number | CharConst
    | Plus | Minus | Times | Slash | Rem
    | Eql | Neq | Lss | Leq | Gtr | Geq
    | And | Or
    | Assign | PlusAs | MinusAs | TimesAs | SlashAs | RemAs | PPlus | MMinus
    | Semicolon | Comma | Period | Lpar | Rpar | Lbrack | Rbrack | Lbrace | Rbrace
    | Break | Class | Continue | Else | Final | If | New | Print | Program | Read
    | Return | Void | While | Abs
    | Eof

  /** A token: its kind, the numeric payload of number and character literals,
      and the text of identifiers. */
  datatype Token = Token(kind: Kind, val: int, str: string)

  /** What the scanner returns once its input is exhausted. */
  const EofToken := Token(Eof, 0, "")

  /** The lookahead the parser starts with, before anything is scanned. */
  const SentinelToken := Token(Sentinel, 0, "")

  /** A Java `char`: one UTF-16 code unit. */
  newtype Char16 = x: int | 0 <= x < 0x1_0000

  /** The Java narrowing cast `(char) v`: keep the low 16 bits. */
  function CharOf(v: int): (c: Char16)
    ensures 0 <= v < 0x1_0000 ==> c as int == v
    ensures (c as int - v) % 0x1_0000 == 0
  {
    (v % 0x1_0000) as Char16
  }

  /** The binary node kinds the parser creates. */
  datatype BinOp =
    | Add | Subtract | Multiplication | Divider | Modulation
    | Disjunction | Conjunction
    | NotEqual | Less | LessEqual | Equal | GreaterEqual | Greater

  /** A cached, invocable unit; created with a fresh identity. */
  datatype CallTarget = CallTarget(id: nat)

  /** Expression nodes. `NoExpr` stands for the Java `null` that some
      productions return in place of a node. */
  datatype ExprNode =
    | NoExpr
    | IntNode(value: int)
    | CharNode(code: Char16)
    | ReadVar(name: string)
    | Binary(op: BinOp, left: ExprNode, right: ExprNode)
    | Invoke(target: CallTarget, args: seq<ExprNode>, returnType: Option<string>)
    | ReadInput

  /** Statement nodes. `NoStmt` stands for Java `null`; `NoOp` is the statement
      that does nothing, produced for a local variable declaration. */
  datatype StmtNode =
    | NoStmt
    | NoOp
    | WriteVar(name: string, value: ExprNode)
    | ConstLocalInit(typeName: string, name: string, value: ExprNode)
    | Conditional(condition: ExprNode, thenPart: StmtNode, elsePart: StmtNode)
    | WhileLoop(condition: ExprNode, body: StmtNode)
    | BreakNode
    | ContinueNode
    | ReturnNode(value: ExprNode)
    | PrintNode(value: ExprNode)
    | BlockNode(statements: seq<StmtNode>)
    | ExprStatement(expr: ExprNode)

  /** A literal folded into a global constant. */
  datatype Literal = IntLit(value: int) | CharLit(code: Char16)

  /** A call the parser makes on its function/scope context. */
  datatype ContextCall =
    | StepInFunction
    | StepInBlock
    | StepOutBlock
    | CreateLocalVar(typeName: string, name: string)
    | CreateParameter(typeName: string, name: string)
    | CreateGlobalConstant(typeName: string, name: string, value: Literal)
    | CreateConstLocalVarAndWrite(typeName: string, name: string)

  /** A registered function: its name, its body (`NoStmt` until the body has
      been parsed) and the name of its return type (`None` for void). */
  datatype FunctionDecl = FunctionDecl(name: string, body: StmtNode, returnType: Option<string>)

  /** Why a parse stops. `Expected(k)` is the error of `check`, `Error(m)` any
      other thrown error, and `Diverges` marks the point where the parser
      would loop forever without consuming input. */
  datatype ParseError = Expected(kind: Kind) | Error(message: string) | Diverges

  /** Outcome of a parser method: a value, or the error it throws. */
  datatype Result<+T> = Success(value: T) | Failure(error: ParseError) {
    predicate IsFailure() { Failure? }
    function PropagateFailure<U>(): Result<U> requires Failure? { Failure(error) }
    function Extract(): T requires Success? { value }
  }
}
