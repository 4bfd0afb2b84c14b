/**
 * The MicroJava recursive-descent parser as a function of its state: every
 * production takes the parser state (token stream, cursor, last and lookahead
 * token, function registry, call-target cache, context trace) and returns the
 * node it builds, or the failure it throws, together with the new state.
 * The imperative parser in module Parser is proved to compute exactly these.
 */
module Grammar {
  import opened Syntax

  datatype PState = PState(
    tokens: seq<Token>,            // the scanner's input
    pos: nat,                      // how many tokens the scanner has handed out
    t: Token,                      // last recognized token
    la: Token,                     // lookahead token
    types: set<string>,            // names the type table knows
    functions: seq<FunctionDecl>,  // registered functions, in declaration order
    callAble: map<nat, CallTarget>,// call target per registry index
    nextTarget: nat,               // identity of the next call target created
    trace: seq<ContextCall>)       // calls made on the function context

  /** Outcome of a production: a value and the state after it, or the failure
      and the state in which it was thrown. */
  datatype Res<T> = Ok(value: T, st: PState) | Err(failure: ParseError, st: PState) {
    predicate IsFailure() { Err? }
    function PropagateFailure<U>(): Res<U> requires Err? { Err(failure, st) }
    function Extract(): (T, PState) requires Ok? { (value, st) }
  }

  function Initial(tokens: seq<Token>, types: set<string>): PState {
    PState(tokens, 0, SentinelToken, SentinelToken, types, [], map[], 0, [])
  }

  /** Tokens the parser can still consume: those the scanner has not handed
      out, plus the lookahead unless it is the end of input. */
  function Remaining(s: PState): nat {
    (if s.pos <= |s.tokens| then |s.tokens| - s.pos else 0) + (if s.la.kind == Eof then 0 else 1)
  }

  /** Every target in the cache belongs to a registered function, was created
      before the next fresh identity, and no two functions share one. */
  ghost predicate CacheInv(s: PState) {
    (forall k :: k in s.callAble ==> k < |s.functions| && s.callAble[k].id < s.nextTarget) &&
    (forall k1, k2 :: k1 in s.callAble && k2 in s.callAble && k1 != k2 ==> s.callAble[k1] != s.callAble[k2])
  }

  /** What every production keeps: the input and the type table are fixed,
      nothing is un-consumed, the registry only grows, a cached target is
      never replaced, and the cache invariant is preserved. */
  ghost predicate Evolves(s: PState, s': PState) {
    s'.tokens == s.tokens && s'.types == s.types &&
    Remaining(s') <= Remaining(s) &&
    |s.functions| <= |s'.functions| &&
    s.nextTarget <= s'.nextTarget &&
    (forall k :: k in s.callAble ==> k in s'.callAble && s'.callAble[k] == s.callAble[k]) &&
    (CacheInv(s) ==> CacheInv(s'))
  }

  /** Evolves, and the registry itself is untouched (all productions below
      the method declaration). */
  ghost predicate Within(s: PState, s': PState) {
    Evolves(s, s') && s'.functions == s.functions
  }

  /** The scanner: the next token of the input, or end of input once it is
      exhausted. */
  function NextToken(s: PState): (r: (Token, nat))
  {
    if s.pos < |s.tokens| then (s.tokens[s.pos], s.pos + 1) else (EofToken, s.pos)
  }

  /** `scan`: the lookahead becomes the last token and the next token is read. */
  function Scan(s: PState): (s': PState)
    ensures Within(s, s') && s'.trace == s.trace
    ensures s'.t == s.la && s'.la == NextToken(s).0 && s'.pos == NextToken(s).1
    ensures s.la.kind != Eof ==> Remaining(s') < Remaining(s)
  {
    var (next, pos') := NextToken(s);
    s.(t := s.la, la := next, pos := pos')
  }

  /** `check(expected)`. */
  function Check(expected: Kind, s: PState): (r: Res<()>)
    ensures Within(s, r.st) && r.st.trace == s.trace
    ensures r.Ok? && expected != Eof ==> Remaining(r.st) < Remaining(s)
  {
    if s.la.kind == expected then Ok((), Scan(s)) else Err(Expected(expected), s)
  }

  /** Record a call on the function context. */
  function Declare(s: PState, call: ContextCall): (s': PState)
    ensures Within(s, s') && Remaining(s') == Remaining(s)
  {
    s.(trace := s.trace + [call])
  }

  const FirstExpr: set<Kind> := {Ident, Number, CharConst, Minus, Lpar, New}
  const FirstStat: set<Kind> := {Ident, Semicolon, Lbrace, Break, Continue, If, Print, Read, Return, While, Final}
  const MulOps: set<Kind> := {Times, Slash, Rem}
  const RelOps: set<Kind> := {Neq, Lss, Leq, Eql, Geq, Gtr}
  const CompoundAssignOps: set<Kind> := {PlusAs, MinusAs, TimesAs, SlashAs, RemAs}

  function MulOpOf(k: Kind): BinOp {
    if k == Times then Multiplication else if k == Slash then Divider else Modulation
  }

  function RelOpOf(k: Kind): BinOp {
    if k == Neq then NotEqual
    else if k == Lss then Less
    else if k == Leq then LessEqual
    else if k == Eql then Equal
    else if k == Geq then GreaterEqual
    else Greater
  }

  /** The binary node a compound assignment `op=` combines with. */
  function CompoundOpOf(k: Kind): BinOp {
    if k == PlusAs then Add
    else if k == MinusAs then Subtract
    else if k == TimesAs then Multiplication
    else if k == SlashAs then Divider
    else Modulation
  }

  /** First registered function called `name`, searching from index `from`. */
  function FindFrom(fs: seq<FunctionDecl>, name: string, from: nat): (r: Option<nat>)
    ensures r.Some? ==> from <= r.value < |fs| && fs[r.value].name == name &&
                        forall j :: from <= j < r.value ==> fs[j].name != name
    ensures r.None? ==> forall j :: from <= j < |fs| ==> fs[j].name != name
    decreases |fs| - from
  {
    if from >= |fs| then None
    else if fs[from].name == name then Some(from)
    else FindFrom(fs, name, from + 1)
  }

  /** `getFunction(name)`: the index of the first registered function with
      that name, or None. */
  function FindFunction(fs: seq<FunctionDecl>, name: string): (r: Option<nat>)
    ensures r.Some? ==> r.value < |fs| && fs[r.value].name == name &&
                        forall j :: 0 <= j < r.value ==> fs[j].name != name
    ensures r.None? ==> forall j :: 0 <= j < |fs| ==> fs[j].name != name
  {
    FindFrom(fs, name, 0)
  }

  // ---------------------------------------------------------------------
  // Declarations outside method bodies

  /** Type = ident . */
  function Type(s: PState): (r: Res<string>)
    ensures Within(s, r.st) && r.st.trace == s.trace
    ensures r.Ok? ==> Remaining(r.st) < Remaining(s)
  {
    var (_, s1) :- Check(Ident, s);
    Ok(s1.t.str, s1)
  }

  /** The `{ "," ident }` loop of VarDecl. */
  function VarDeclTail(typeName: string, s: PState): (r: Res<()>)
    ensures Within(s, r.st)
    decreases Remaining(s)
  {
    if s.la.kind == Comma then
      var (_, s1) :- Check(Ident, Scan(s));
      VarDeclTail(typeName, Declare(s1, CreateLocalVar(typeName, s1.t.str)))
    else Ok((), s)
  }

  /** VarDecl = Type ident { "," ident } ";" . */
  function VarDecl(s: PState): (r: Res<()>)
    ensures Within(s, r.st)
    ensures r.Ok? ==> Remaining(r.st) < Remaining(s)
  {
    var (typeName, s1) :- Type(s);
    var (_, s2) :- Check(Ident, s1);
    var (_, s3) :- VarDeclTail(typeName, Declare(s2, CreateLocalVar(typeName, s2.t.str)));
    Check(Semicolon, s3)
  }

  /** `while (sym == ident) VarDecl();` */
  function VarDecls(s: PState): (r: Res<()>)
    ensures Within(s, r.st)
    decreases Remaining(s)
  {
    if s.la.kind == Ident then
      var (_, s1) :- VarDecl(s);
      VarDecls(s1)
    else Ok((), s)
  }

  /** ConstExprDecl = "final" Type ident "=" ( number | charConst ) ";" . */
  function ConstExprDecl(s: PState): (r: Res<()>)
    ensures Within(s, r.st)
    ensures r.Ok? ==> Remaining(r.st) < Remaining(s)
  {
    var (_, s1) :- Check(Final, s);
    var (typeName, s2) :- Type(s1);
    var (_, s3) :- Check(Ident, s2);
    var name := s3.t.str;
    var (_, s4) :- Check(Assign, s3);
    ConstExprValue(typeName, name, s4)
  }

  /** The rest of ConstExprDecl after "=": the literal, declared as a global
      constant, and the closing ";". */
  function ConstExprValue(typeName: string, name: string, s: PState): (r: Res<()>)
    ensures Within(s, r.st)
    ensures r.Ok? ==> Remaining(r.st) < Remaining(s)
  {
    var (lit, s1) :-
      if s.la.kind == Number then
        var s1 := Scan(s); Ok(IntLit(s1.t.val), s1)
      else if s.la.kind == CharConst then
        var s1 := Scan(s); Ok(CharLit(CharOf(s1.t.val)), s1)
      else Err(Error("Constexpr declaration should be of type Int of Char"), s);
    Check(Semicolon, Declare(s1, CreateGlobalConstant(typeName, name, lit)))
  }

  /** ClassDecl = "class" ident "{" { VarDecl } "}" . */
  function ClassDecl(s: PState): (r: Res<()>)
    ensures Within(s, r.st)
    ensures r.Ok? ==> Remaining(r.st) < Remaining(s)
  {
    var (_, s1) :- Check(Class, s);
    var (_, s2) :- Check(Ident, s1);
    var (_, s3) :- Check(Lbrace, s2);
    var (_, s4) :- VarDecls(s3);
    Check(Rbrace, s4)
  }

  /** The `{ "," Type ident }` loop of FormPars. */
  function FormParsTail(s: PState): (r: Res<()>)
    ensures Within(s, r.st)
    decreases Remaining(s)
  {
    if s.la.kind == Comma then
      var (typeName, s1) :- Type(Scan(s));
      var (_, s2) :- Check(Ident, s1);
      FormParsTail(Declare(s2, CreateParameter(typeName, s2.t.str)))
    else Ok((), s)
  }

  /** FormPars = Type ident { "," Type ident } . */
  function FormPars(s: PState): (r: Res<()>)
    ensures Within(s, r.st)
  {
    var (typeName, s1) :- Type(s);
    var (_, s2) :- Check(Ident, s1);
    FormParsTail(Declare(s2, CreateParameter(typeName, s2.t.str)))
  }

  // ---------------------------------------------------------------------
  // Expressions. The second component of each `decreases` orders the
  // productions that call one another without consuming a token first.

  /** Designator = ident { "." ident | "[" Expr "]" } ; fields and arrays are
      rejected as soon as they are seen, so the loop never repeats. */
  function Designator(s: PState): (r: Res<string>)
    ensures Within(s, r.st) && r.st.trace == s.trace
    ensures r.Ok? ==> Remaining(r.st) < Remaining(s)
  {
    var (_, s1) :- Check(Ident, s);
    if s1.la.kind == Period then
      var (_, s2) :- Check(Ident, Scan(s1));
      Err(Error("Fields ignored for now"), s2)
    else if s1.la.kind == Lbrack then
      Err(Error("Arrays ignored for now..."), s1)
    else
      Ok(s1.t.str, s1)
  }

  /** ActPars = "(" [ Expr { "," Expr } ] ")" . */
  function ActPars(s: PState): (r: Res<seq<ExprNode>>)
    ensures Within(s, r.st) && r.st.trace == s.trace
    ensures r.Ok? ==> Remaining(r.st) < Remaining(s)
    decreases Remaining(s), 2
  {
    var (_, s1) :- Check(Lpar, s);
    var (args, s2) :- if s1.la.kind in FirstExpr then ActParsLoop([], s1) else Ok([], s1);
    var (_, s3) :- Check(Rpar, s2);
    Ok(args, s3)
  }

  /** The `for (;;)` loop of ActPars, with the arguments parsed so far. */
  function ActParsLoop(acc: seq<ExprNode>, s: PState): (r: Res<seq<ExprNode>>)
    ensures Within(s, r.st) && r.st.trace == s.trace
    decreases Remaining(s), 9
  {
    var (e, s1) :- Expr(s);
    if s1.la.kind == Comma then ActParsLoop(acc + [e], Scan(s1)) else Ok(acc + [e], s1)
  }

  /** The runtime's `createCallTarget`: a target with a fresh identity. */
  function NewCallTarget(s: PState): (r: (CallTarget, PState))
  {
    (CallTarget(s.nextTarget), s.(nextTarget := s.nextTarget + 1))
  }

  /** `callFunction(name)`: parse the actual parameters, resolve the callee,
      and take its call target from the cache, creating it on first use. */
  function CallFunction(name: string, s: PState): (r: Res<ExprNode>)
    ensures Within(s, r.st) && r.st.trace == s.trace
    ensures r.Ok? ==> Remaining(r.st) < Remaining(s)
    decreases Remaining(s), 3
  {
    var (args, s1) :- ActPars(s);
    match FindFunction(s1.functions, name)
    case None => Err(Error("Function does not exists"), s1)
    case Some(i) =>
      var (target, s2) := CallTargetFor(i, s1);
      Ok(Invoke(target, args, s1.functions[i].returnType), s2)
  }

  /** The call target cached for function `i`, created and cached on first use. */
  function CallTargetFor(i: nat, s: PState): (r: (CallTarget, PState))
    ensures r.1 == s.(callAble := r.1.callAble, nextTarget := r.1.nextTarget)
  {
    if i in s.callAble then (s.callAble[i], s)
    else
      var (target, s1) := NewCallTarget(s);
      (target, s1.(callAble := s1.callAble[i := target]))
  }

  /** Factor = Designator [ ActPars ] | number | charConst
                | "new" ident [ "[" Expr "]" ] | "(" Expr ")" | "abs" "(" Expr ")" . */
  function Factor(s: PState): (r: Res<ExprNode>)
    ensures Within(s, r.st) && r.st.trace == s.trace
    ensures r.Ok? ==> Remaining(r.st) < Remaining(s)
    decreases Remaining(s), 4
  {
    var k := s.la.kind;
    if k == Abs then AbsRest(Scan(s))
    else if k == Ident then
      var (name, s1) :- Designator(s);
      if s1.la.kind == Lpar then CallFunction(name, s1) else Ok(ReadVar(name), s1)
    else if k == Number then
      var s1 := Scan(s);
      Ok(IntNode(s1.t.val), s1)
    else if k == CharConst then
      var s1 := Scan(s);
      Ok(CharNode(CharOf(s1.t.val)), s1)
    else if k == New then NewRest(Scan(s))
    else if k == Lpar then ParenRest(Scan(s))
    else Err(Error("Invalid fact"), s)
  }

  /** After "abs": "(" Expr ")" ; parsed, but no node is built. */
  function AbsRest(s: PState): (r: Res<ExprNode>)
    ensures Within(s, r.st) && r.st.trace == s.trace
    ensures r.Ok? ==> Remaining(r.st) < Remaining(s)
    ensures r.Ok? ==> r.value == NoExpr
    decreases Remaining(s), 3
  {
    var (_, s1) :- Check(Lpar, s);
    var (_, s2) :- Expr(s1);
    var (_, s3) :- Check(Rpar, s2);
    Ok(NoExpr, s3)
  }

  /** After "new": ident [ "[" Expr "]" ] ; parsed, but no node is built. */
  function NewRest(s: PState): (r: Res<ExprNode>)
    ensures Within(s, r.st) && r.st.trace == s.trace
    ensures r.Ok? ==> Remaining(r.st) < Remaining(s)
    ensures r.Ok? ==> r.value == NoExpr
    decreases Remaining(s), 3
  {
    var (_, s1) :- Check(Ident, s);
    if s1.la.kind == Lbrack then
      var (_, s2) :- Expr(Scan(s1));
      var (_, s3) :- Check(Rbrack, s2);
      Ok(NoExpr, s3)
    else
      Ok(NoExpr, s1)
  }

  /** After "(": Expr ")" ; parsed, but no node is built. */
  function ParenRest(s: PState): (r: Res<ExprNode>)
    ensures Within(s, r.st) && r.st.trace == s.trace
    ensures r.Ok? ==> Remaining(r.st) < Remaining(s)
    ensures r.Ok? ==> r.value == NoExpr
    decreases Remaining(s), 9
  {
    var (_, s1) :- Expr(s);
    var (_, s2) :- Check(Rpar, s1);
    Ok(NoExpr, s2)
  }

  /** The Mulop loop of Term, folding onto the tree built so far. */
  function TermTail(acc: ExprNode, s: PState): (r: Res<ExprNode>)
    ensures Within(s, r.st) && r.st.trace == s.trace
    decreases Remaining(s), 5
  {
    if s.la.kind in MulOps then
      var (f, s1) :- Factor(Scan(s));
      TermTail(Binary(MulOpOf(s.la.kind), acc, f), s1)
    else Ok(acc, s)
  }

  /** Term = Factor { Mulop Factor } . */
  function Term(s: PState): (r: Res<ExprNode>)
    ensures Within(s, r.st) && r.st.trace == s.trace
    ensures r.Ok? ==> Remaining(r.st) < Remaining(s)
    decreases Remaining(s), 6
  {
    var (f, s1) :- Factor(s);
    TermTail(f, s1)
  }

  /** The Addop loop of Expr, folding onto the tree built so far. */
  function ExprTail(acc: ExprNode, s: PState): (r: Res<ExprNode>)
    ensures Within(s, r.st) && r.st.trace == s.trace
    decreases Remaining(s), 7
  {
    if s.la.kind == Plus then
      var (t, s1) :- Term(Scan(s));
      ExprTail(Binary(Add, acc, t), s1)
    else if s.la.kind == Minus then
      var (t, s1) :- Term(Scan(s));
      ExprTail(Binary(Subtract, acc, t), s1)
    else Ok(acc, s)
  }

  /** Expr = [ "-" ] Term { Addop Term } ; a leading minus multiplies the
      first term by the constant -1. */
  function Expr(s: PState): (r: Res<ExprNode>)
    ensures Within(s, r.st) && r.st.trace == s.trace
    ensures r.Ok? ==> Remaining(r.st) < Remaining(s)
    decreases Remaining(s), 8
  {
    var neg := s.la.kind == Minus;
    var (t, s1) :- Term(if neg then Scan(s) else s);
    ExprTail(if neg then Binary(Multiplication, IntNode(-1), t) else t, s1)
  }

  /** CondFact = Expr Relop Expr ; the token after the first Expr is consumed
      whatever it is, and when it is no relational operator the first Expr
      alone is the result. */
  function CondFact(s: PState): (r: Res<ExprNode>)
    ensures Within(s, r.st) && r.st.trace == s.trace
    ensures r.Ok? ==> Remaining(r.st) < Remaining(s)
    decreases Remaining(s), 10
  {
    var (left, s1) :- Expr(s);
    var s2 := Scan(s1);
    if s1.la.kind in RelOps then
      var (right, s3) :- Expr(s2);
      Ok(Binary(RelOpOf(s1.la.kind), left, right), s3)
    else Ok(left, s2)
  }

  function CondTermTail(acc: ExprNode, s: PState): (r: Res<ExprNode>)
    ensures Within(s, r.st) && r.st.trace == s.trace
    decreases Remaining(s), 11
  {
    if s.la.kind == And then
      var (f, s1) :- CondFact(Scan(s));
      CondTermTail(Binary(Conjunction, acc, f), s1)
    else Ok(acc, s)
  }

  /** CondTerm = CondFact { "&&" CondFact } . */
  function CondTerm(s: PState): (r: Res<ExprNode>)
    ensures Within(s, r.st) && r.st.trace == s.trace
    ensures r.Ok? ==> Remaining(r.st) < Remaining(s)
    decreases Remaining(s), 12
  {
    var (f, s1) :- CondFact(s);
    CondTermTail(f, s1)
  }

  function ConditionTail(acc: ExprNode, s: PState): (r: Res<ExprNode>)
    ensures Within(s, r.st) && r.st.trace == s.trace
    decreases Remaining(s), 13
  {
    if s.la.kind == Or then
      var (t, s1) :- CondTerm(Scan(s));
      ConditionTail(Binary(Disjunction, acc, t), s1)
    else Ok(acc, s)
  }

  /** Condition = CondTerm { "||" CondTerm } . */
  function Condition(s: PState): (r: Res<ExprNode>)
    ensures Within(s, r.st) && r.st.trace == s.trace
    ensures r.Ok? ==> Remaining(r.st) < Remaining(s)
    decreases Remaining(s), 14
  {
    var (t, s1) :- CondTerm(s);
    ConditionTail(t, s1)
  }

  // ---------------------------------------------------------------------
  // Statements

  /** ConstDecl = "final" Type ident "=" Expr ";" . */
  function ConstDecl(s: PState): (r: Res<StmtNode>)
    ensures Within(s, r.st)
    ensures r.Ok? ==> Remaining(r.st) < Remaining(s)
    decreases Remaining(s), 15
  {
    var (_, s1) :- Check(Final, s);
    var (typeName, s2) :- Type(s1);
    var (_, s3) :- Check(Ident, s2);
    var name := s3.t.str;
    var (_, s4) :- Check(Assign, s3);
    var (e, s5) :- Expr(s4);
    var (_, s6) :- Check(Semicolon, Declare(s5, CreateConstLocalVarAndWrite(typeName, name)));
    Ok(ConstLocalInit(typeName, name, e), s6)
  }

  /** What follows a designator at the start of a statement, up to but not
      including the closing ";". */
  function DesignatorStatement(des: string, s: PState): (r: Res<StmtNode>)
    ensures Within(s, r.st) && r.st.trace == s.trace
    decreases Remaining(s), 16
  {
    var k := s.la.kind;
    if k == Assign then
      var (e, s1) :- Expr(Scan(s));
      Ok(WriteVar(des, e), s1)
    else if k in CompoundAssignOps then
      var (e, s1) :- Expr(Scan(s));
      Ok(WriteVar(des, Binary(CompoundOpOf(k), ReadVar(des), e)), s1)
    else if k == Lpar then
      var (call, s1) :- CallFunction(des, s);
      Ok(ExprStatement(call), s1)
    else if k == PPlus then
      Ok(WriteVar(des, Binary(Add, ReadVar(des), IntNode(1))), Scan(s))
    else if k == MMinus then
      Ok(WriteVar(des, Binary(Subtract, ReadVar(des), IntNode(1))), Scan(s))
    else
      Err(Error("Designator Follow"), s)
  }

  /** A statement starting with an identifier: a local variable declaration
      when the type table knows the name, otherwise a designator statement
      closed by ";". */
  function IdentStatement(s: PState): (r: Res<StmtNode>)
    ensures Within(s, r.st)
    ensures r.Ok? ==> Remaining(r.st) < Remaining(s)
    decreases Remaining(s), 17
  {
    if s.la.str in s.types then
      var (_, s1) :- VarDecl(s);
      Ok(NoOp, s1)
    else
      var (des, s1) :- Designator(s);
      var (node, s2) :- DesignatorStatement(des, s1);
      var (_, s3) :- Check(Semicolon, s2);
      Ok(node, s3)
  }

  /** Statement. A leading identifier that the type table knows starts a
      local variable declaration, which yields a statement doing nothing;
      the empty statement ";" yields no node at all. */
  function Statement(s: PState): (r: Res<StmtNode>)
    ensures Within(s, r.st)
    ensures r.Ok? ==> Remaining(r.st) < Remaining(s)
    decreases Remaining(s), 18
  {
    var k := s.la.kind;
    if k == Ident then IdentStatement(s)
    else if k == Final then ConstDecl(s)
    else if k == If then IfRest(Scan(s))
    else if k == While then WhileRest(Scan(s))
    else if k == Break then
      var (_, s1) :- Check(Semicolon, Scan(s));
      Ok(BreakNode, s1)
    else if k == Continue then
      var (_, s1) :- Check(Semicolon, Scan(s));
      Ok(ContinueNode, s1)
    else if k == Return then ReturnRest(Scan(s))
    else if k == Read then ReadRest(Scan(s))
    else if k == Print then PrintRest(Scan(s))
    else if k == Lbrace then Block(s)
    else if k == Semicolon then Ok(NoStmt, Scan(s))
    else Err(Error("Invalid start..."), s)
  }

  /** After "if": "(" Condition ")" Statement [ "else" Statement ] . */
  function IfRest(s: PState): (r: Res<StmtNode>)
    ensures Within(s, r.st)
    decreases Remaining(s), 16
  {
    var (_, s1) :- Check(Lpar, s);
    var (c, s2) :- Condition(s1);
    var (_, s3) :- Check(Rpar, s2);
    var (thenPart, s4) :- Statement(s3);
    if s4.la.kind == Else then
      var (elsePart, s5) :- Statement(Scan(s4));
      Ok(Conditional(c, thenPart, elsePart), s5)
    else
      Ok(Conditional(c, thenPart, NoStmt), s4)
  }

  /** After "while": "(" Condition ")" Statement . */
  function WhileRest(s: PState): (r: Res<StmtNode>)
    ensures Within(s, r.st)
    decreases Remaining(s), 16
  {
    var (_, s1) :- Check(Lpar, s);
    var (c, s2) :- Condition(s1);
    var (_, s3) :- Check(Rpar, s2);
    var (body, s4) :- Statement(s3);
    Ok(WhileLoop(c, body), s4)
  }

  /** After "return": [ Expr ] ";" . */
  function ReturnRest(s: PState): (r: Res<StmtNode>)
    ensures Within(s, r.st) && r.st.trace == s.trace
    decreases Remaining(s), 16
  {
    var (e, s1) :- if s.la.kind != Semicolon then Expr(s) else Ok(NoExpr, s);
    var (_, s2) :- Check(Semicolon, s1);
    Ok(ReturnNode(e), s2)
  }

  /** After "read": "(" Designator ")" ";" ; the designator is written with
      the value read from the input. */
  function ReadRest(s: PState): (r: Res<StmtNode>)
    ensures Within(s, r.st) && r.st.trace == s.trace
    decreases Remaining(s), 16
  {
    var (_, s1) :- Check(Lpar, s);
    var (des, s2) :- Designator(s1);
    var (_, s3) :- Check(Rpar, s2);
    var (_, s4) :- Check(Semicolon, s3);
    Ok(WriteVar(des, ReadInput), s4)
  }

  /** After "print": "(" Expr [ "," number ] ")" ";" ; the width is read
      and dropped. */
  function PrintRest(s: PState): (r: Res<StmtNode>)
    ensures Within(s, r.st) && r.st.trace == s.trace
    decreases Remaining(s), 16
  {
    var (_, s1) :- Check(Lpar, s);
    var (e, s2) :- Expr(s1);
    var (_, s3) :- if s2.la.kind == Comma then Check(Number, Scan(s2)) else Ok((), s2);
    var (_, s4) :- Check(Rpar, s3);
    var (_, s5) :- Check(Semicolon, s4);
    Ok(PrintNode(e), s5)
  }

  /** Block = "{" { Statement } "}" , inside a block scope of the context. */
  function Block(s: PState): (r: Res<StmtNode>)
    ensures Within(s, r.st)
    ensures r.Ok? ==> r.value.BlockNode?
    ensures r.Ok? ==> Remaining(r.st) < Remaining(s)
    decreases Remaining(s), 17
  {
    var (_, s1) :- Check(Lbrace, s);
    var (stmts, s2) :- Statements([], Declare(s1, StepInBlock));
    var (_, s3) :- Check(Rbrace, Declare(s2, StepOutBlock));
    Ok(BlockNode(stmts), s3)
  }

  /** The loop of `Statements()`: parse statements while the lookahead can
      start one, appending each to those parsed so far. */
  function Statements(acc: seq<StmtNode>, s: PState): (r: Res<seq<StmtNode>>)
    ensures Within(s, r.st)
    decreases Remaining(s), 19
  {
    if s.la.kind in FirstStat then
      var (stmt, s1) :- Statement(s);
      Statements(acc + [stmt], s1)
    else Ok(acc, s)
  }

  // ---------------------------------------------------------------------
  // Methods and the program

  /** `( Type | "void" )` at the start of a method: the return type name, or
      None for void. */
  function ReturnType(s: PState): (r: Res<Option<string>>)
    ensures Within(s, r.st) && r.st.trace == s.trace
    ensures r.Ok? ==> Remaining(r.st) < Remaining(s)
  {
    if s.la.kind == Ident then
      var (typeName, s1) :- Type(s);
      Ok(Some(typeName), s1)
    else if s.la.kind == Void then Ok(None, Scan(s))
    else Err(Error("Method declaration"), s)
  }

  /** The method header: `( Type | "void" ) ident "(" [ FormPars ] ")" { VarDecl }`,
      returning the return type name and the method name. */
  function MethodHeader(s: PState): (r: Res<(Option<string>, string)>)
    ensures Within(s, r.st)
    ensures r.Ok? ==> Remaining(r.st) < Remaining(s)
  {
    var (funcType, s1) :- ReturnType(s);
    var (_, s2) :- Check(Ident, Declare(s1, StepInFunction));
    var name := s2.t.str;
    var (_, s3) :- Check(Lpar, s2);
    var (_, s4) :- if s3.la.kind == Ident then FormPars(s3) else Ok((), s3);
    var (_, s5) :- Check(Rpar, s4);
    var (_, s6) :- VarDecls(s5);
    Ok((funcType, name), s6)
  }

  /** Append a function with no body yet to the registry. */
  function Register(s: PState, name: string, returnType: Option<string>): (s': PState)
    ensures Evolves(s, s') && s'.trace == s.trace && Remaining(s') == Remaining(s)
    ensures s'.functions == s.functions + [FunctionDecl(name, NoStmt, returnType)]
  {
    s.(functions := s.functions + [FunctionDecl(name, NoStmt, returnType)])
  }

  /** `changeBody`: give the registered function at `index` its body. */
  function AttachBody(s: PState, index: nat, body: StmtNode): (s': PState)
    requires index < |s.functions|
    ensures Evolves(s, s') && s'.trace == s.trace && Remaining(s') == Remaining(s)
    ensures |s'.functions| == |s.functions| && s'.functions[..index] == s.functions[..index]
    ensures s'.functions[index] == s.functions[index].(body := body)
  {
    s.(functions := s.functions[index := s.functions[index].(body := body)])
  }

  /** MethodDecl: the function is registered before its body is parsed, and
      the body is attached to it afterwards. */
  function MethodDecl(s: PState): (r: Res<()>)
    ensures Evolves(s, r.st)
    ensures r.Ok? ==> Remaining(r.st) < Remaining(s)
    ensures r.Ok? ==> |r.st.functions| == |s.functions| + 1 && r.st.functions[..|s.functions|] == s.functions
  {
    var ((funcType, name), s1) :- MethodHeader(s);
    var s2 := Register(s1, name, funcType);
    var (body, s3) :- Block(s2);
    Ok((), AttachBody(s3, |s1.functions|, body))
  }

  /** `{ ConstDecl | VarDecl | ClassDecl }` before the method list. */
  function GlobalDecls(s: PState): (r: Res<()>)
    ensures Within(s, r.st)
    decreases Remaining(s)
  {
    if s.la.kind == Final then
      var (_, s1) :- ConstExprDecl(s); GlobalDecls(s1)
    else if s.la.kind == Ident then
      var (_, s1) :- VarDecl(s); GlobalDecls(s1)
    else if s.la.kind == Class then
      var (_, s1) :- ClassDecl(s); GlobalDecls(s1)
    else Ok((), s)
  }

  /** `{ MethodDecl }`: stops at "}" or end of input; any other token that
      cannot start a method leaves the parser looping without progress. */
  function MethodDecls(s: PState): (r: Res<()>)
    ensures Evolves(s, r.st)
    decreases Remaining(s)
  {
    if s.la.kind == Rbrace || s.la.kind == Eof then Ok((), s)
    else if s.la.kind == Void || s.la.kind == Ident then
      var (_, s1) :- MethodDecl(s); MethodDecls(s1)
    else Err(Diverges, s)
  }

  /** Program = "program" ident { ConstDecl | VarDecl | ClassDecl } "{" { MethodDecl } "}" . */
  function Program(s: PState): (r: Res<()>)
    ensures Evolves(s, r.st)
  {
    var (_, s1) :- Check(Kind.Program, s);
    var (_, s2) :- Check(Ident, s1);
    var (_, s3) :- GlobalDecls(s2);
    var (_, s4) :- Check(Lbrace, s3);
    var (_, s5) :- MethodDecls(s4);
    Check(Rbrace, s5)
  }

  /** `parse()`: read the first token, parse a program, expect end of input. */
  function ParseFrom(s: PState): (r: Res<()>)
    ensures Evolves(s, r.st)
  {
    var (_, s1) :- Program(Scan(s));
    Check(Eof, s1)
  }

  /** Parsing a token stream with a freshly constructed parser. */
  function Parse(tokens: seq<Token>, types: set<string>): (r: Res<()>)
    ensures CacheInv(r.st)
  {
    var s0 := Initial(tokens, types);
    assert CacheInv(s0);
    ParseFrom(s0)
  }
}
