/**
 * Statements as the parser reads them: the one-token step of `check`, the
 * designator, the desugaring of assignments, increments and decrements,
 * local declarations inside a method body, and the statements whose node
 * is empty or drops part of what was read.
 */
module StmtProps {
  import opened Syntax
  import opened Grammar
  import opened Reading
  import opened ExprProps

  function IdentToken(name: string): Token {
    Token(Ident, 0, name)
  }

  /** `check(k)` consumes exactly one token, the lookahead becoming the last
      token, when the lookahead is a `k`; otherwise it fails with
      `Expected(k)` and consumes nothing. */
  lemma {:induction false} CheckAdvancesIff(expected: Kind, s: PState)
    ensures Check(expected, s).Ok? <==> s.la.kind == expected
    ensures Check(expected, s).Ok? ==>
              Check(expected, s).st == Advance(s, 1) && Advance(s, 1).t == s.la && Advance(s, 1).la == LaAt(s, 1)
    ensures Check(expected, s).Err? ==> Check(expected, s) == Err(Expected(expected), s)
  {
    ScanAdvance(s);
  }

  /** Designator succeeds exactly when an identifier is followed by neither
      "." nor "[", and then yields the identifier's text. */
  lemma {:induction false} DesignatorIff(s: PState)
    ensures Designator(s).Ok? <==> s.la.kind == Ident && LaAt(s, 1).kind != Period && LaAt(s, 1).kind != Lbrack
    ensures Designator(s).Ok? ==> Designator(s) == Ok(s.la.str, Advance(s, 1))
  {
    ScanAdvance(s);
  }

  /** A statement that starts with an identifier the type table does not
      know: the designator, what follows it, and the closing ";". */
  lemma {:induction false} DesignatorStatementClosed(s: PState, node: StmtNode, s2: PState)
    requires s.la.kind == Ident && s.la.str !in s.types
    requires LaAt(s, 1).kind != Period && LaAt(s, 1).kind != Lbrack
    requires DesignatorStatement(s.la.str, Advance(s, 1)) == Ok(node, s2)
    requires s2.la.kind == Semicolon
    ensures Statement(s) == Ok(node, Advance(s2, 1))
  {
    DesignatorIff(s);
    ScanAdvance(s2);
  }

  /** The assignment forms after a designator: `= e` writes `e`, `op= e`
      writes the designator combined with `e`. */
  lemma {:induction false} DesignatorWritesExpr(des: string, s: PState, e: ExprNode, s2: PState)
    requires s.la.kind == Assign || s.la.kind in CompoundAssignOps
    requires Expr(Scan(s)) == Ok(e, s2)
    ensures DesignatorStatement(des, s) == Ok(AssignNode(des, s.la.kind, e), s2)
  {
  }

  /** What an assignment `d op e` writes: the value of `e` for "=", and `d`
      combined with it for a compound assignment. */
  function AssignNode(name: string, op: Kind, v: ExprNode): StmtNode {
    if op == Assign then WriteVar(name, v) else WriteVar(name, Binary(CompoundOpOf(op), ReadVar(name), v))
  }

  lemma {:induction false} AssignOpsAreNotSelectors(op: Kind)
    requires op == Assign || op in CompoundAssignOps
    ensures op != Period && op != Lbrack
  {
  }

  /** `name op e ;` for "=" or a compound assignment operator `op`, whatever
      the expression `e` is: it starts after `name op`, reads to `v` and
      leaves the parser in `s2` (call targets it creates included), where
      the ";" follows. */
  lemma {:induction false} AssignmentStatement(s: PState, name: string, op: Kind, v: ExprNode, s2: PState)
    requires op == Assign || op in CompoundAssignOps
    requires s.la.kind == Ident && s.la.str == name && name !in s.types && LaAt(s, 1).kind == op
    requires Expr(Advance(s, 2)) == Ok(v, s2) && s2.la.kind == Semicolon
    ensures Statement(s) == Ok(AssignNode(name, op, v), Advance(s2, 1))
  {
    ScanAt(s, 1);
    AssignOpsAreNotSelectors(op);
    DesignatorWritesExpr(name, Advance(s, 1), v, s2);
    DesignatorStatementClosed(s, AssignNode(name, op, v), s2);
  }

  /** `d = e ;` writes the value of `e` to `d`. */
  lemma {:induction false} AssignmentParses(s: PState, name: string, v: ExprNode, s2: PState)
    requires s.la.kind == Ident && s.la.str == name && name !in s.types && LaAt(s, 1).kind == Assign
    requires Expr(Advance(s, 2)) == Ok(v, s2) && s2.la.kind == Semicolon
    ensures Statement(s) == Ok(WriteVar(name, v), Advance(s2, 1))
  {
    AssignmentStatement(s, name, Assign, v, s2);
  }

  /** `d op= e ;` writes `d op e` to `d`: the variable is read back and
      combined with the value of `e` by the operator of the assignment. */
  lemma {:induction false} CompoundAssignmentParses(s: PState, name: string, op: Kind, v: ExprNode, s2: PState)
    requires op in CompoundAssignOps
    requires s.la.kind == Ident && s.la.str == name && name !in s.types && LaAt(s, 1).kind == op
    requires Expr(Advance(s, 2)) == Ok(v, s2) && s2.la.kind == Semicolon
    ensures Statement(s) == Ok(WriteVar(name, Binary(CompoundOpOf(op), ReadVar(name), v)), Advance(s2, 1))
  {
    AssignmentStatement(s, name, op, v, s2);
    CompoundNode(name, op, v);
  }

  /** The node a compound assignment writes. */
  lemma {:induction false} CompoundNode(name: string, op: Kind, v: ExprNode)
    requires op in CompoundAssignOps
    ensures AssignNode(name, op, v) == WriteVar(name, Binary(CompoundOpOf(op), ReadVar(name), v))
  {
  }

  /** The operator each compound assignment combines with. */
  lemma {:induction false} CompoundOperators()
    ensures CompoundOpOf(PlusAs) == Add && CompoundOpOf(MinusAs) == Subtract
    ensures CompoundOpOf(TimesAs) == Multiplication && CompoundOpOf(SlashAs) == Divider
    ensures CompoundOpOf(RemAs) == Modulation
  {
  }

  /** Each compound assignment statement combines with its own operator:
      `d += e ;` writes `d + e` to `d`, and likewise `-=`, `*=`, `/=` and
      `%=` with subtraction, multiplication, division and remainder. */
  lemma {:induction false} CompoundAssignmentOperators(s: PState, name: string, op: Kind, v: ExprNode, s2: PState)
    requires op in CompoundAssignOps
    requires s.la.kind == Ident && s.la.str == name && name !in s.types && LaAt(s, 1).kind == op
    requires Expr(Advance(s, 2)) == Ok(v, s2) && s2.la.kind == Semicolon
    ensures op == PlusAs ==> Statement(s) == Ok(WriteVar(name, Binary(Add, ReadVar(name), v)), Advance(s2, 1))
    ensures op == MinusAs ==> Statement(s) == Ok(WriteVar(name, Binary(Subtract, ReadVar(name), v)), Advance(s2, 1))
    ensures op == TimesAs ==> Statement(s) == Ok(WriteVar(name, Binary(Multiplication, ReadVar(name), v)), Advance(s2, 1))
    ensures op == SlashAs ==> Statement(s) == Ok(WriteVar(name, Binary(Divider, ReadVar(name), v)), Advance(s2, 1))
    ensures op == RemAs ==> Statement(s) == Ok(WriteVar(name, Binary(Modulation, ReadVar(name), v)), Advance(s2, 1))
  {
    CompoundAssignmentParses(s, name, op, v, s2);
    CompoundOperators();
  }

  /** Reading `name op ;` where `op` is `++` or `--`. */
  lemma {:induction false} StepTokens(name: string, op: Kind, s: PState)
    requires Spells(s, [IdentToken(name), OpToken(op), OpToken(Semicolon)])
    ensures Like(s.la, IdentToken(name)) && Like(LaAt(s, 1), OpToken(op))
    ensures Scan(Advance(s, 1)) == Advance(s, 2) && Advance(s, 2).la.kind == Semicolon
    ensures Advance(Advance(s, 2), 1) == Advance(s, 3)
  {
    assert Like(LaAt(s, 0), IdentToken(name)) && Like(LaAt(s, 1), OpToken(op)) && Like(LaAt(s, 2), OpToken(Semicolon));
    ScanAdvance(Advance(s, 1));
    AdvanceAdd(s, 1, 1);
    AdvanceAdd(s, 2, 1);
  }

  /** `d ++ ;` writes `d + 1` to `d`. */
  lemma {:induction false} IncrementParses(name: string, s: PState)
    requires name !in s.types
    requires Spells(s, [IdentToken(name), OpToken(PPlus), OpToken(Semicolon)])
    ensures Statement(s) == Ok(WriteVar(name, Binary(Add, ReadVar(name), IntNode(1))), Advance(s, 3))
  {
    StepTokens(name, PPlus, s);
    DesignatorStatementClosed(s, WriteVar(name, Binary(Add, ReadVar(name), IntNode(1))), Advance(s, 2));
  }

  /** `d -- ;` writes `d - 1` to `d`. */
  lemma {:induction false} DecrementParses(name: string, s: PState)
    requires name !in s.types
    requires Spells(s, [IdentToken(name), OpToken(MMinus), OpToken(Semicolon)])
    ensures Statement(s) == Ok(WriteVar(name, Binary(Subtract, ReadVar(name), IntNode(1))), Advance(s, 3))
  {
    StepTokens(name, MMinus, s);
    DesignatorStatementClosed(s, WriteVar(name, Binary(Subtract, ReadVar(name), IntNode(1))), Advance(s, 2));
  }

  /** Scanning does not look at the context trace. */
  lemma {:induction false} ScanIgnoresTrace(s: PState, trace: seq<ContextCall>)
    ensures Scan(s.(trace := trace)) == Scan(s).(trace := trace)
  {
  }

  /** VarDecl on `T x ;`: the local variable is created on the function
      context and the three tokens are consumed. */
  lemma {:induction false} VarDeclReads(typeName: string, name: string, s: PState)
    requires Like(s.la, IdentToken(typeName)) && Like(LaAt(s, 1), IdentToken(name)) && LaAt(s, 2).kind == Semicolon
    ensures VarDecl(s) == Ok((), Advance(s, 3).(trace := s.trace + [CreateLocalVar(typeName, name)]))
  {
    var s1 := Scan(s);
    var s2 := Scan(s1);
    var trace := s.trace + [CreateLocalVar(typeName, name)];
    assert s1 == Advance(s, 1) && s2 == Advance(s, 2) by {
      ScanAdvance(s);
      ScanAdvance(s1);
      AdvanceAdd(s, 1, 1);
    }
    assert Type(s) == Ok(typeName, s1);
    assert VarDeclTail(typeName, s2.(trace := trace)) == Ok((), s2.(trace := trace));
    assert Scan(s2) == Advance(s, 3) by {
      ScanAdvance(s2);
      AdvanceAdd(s, 2, 1);
    }
    ScanIgnoresTrace(s2, trace);
  }

  /** `, x1 , x2 ... , xn` after the first name of a declaration. */
  function CommaNames(names: seq<string>): (toks: seq<Token>)
    ensures |toks| == 2 * |names|
  {
    if |names| == 0 then [] else [OpToken(Comma), IdentToken(names[0])] + CommaNames(names[1..])
  }

  /** The context calls that declare `names` as locals of type `typeName`,
      in order. */
  function LocalVars(typeName: string, names: seq<string>): (calls: seq<ContextCall>)
    ensures |calls| == |names|
    ensures forall i :: 0 <= i < |names| ==> calls[i] == CreateLocalVar(typeName, names[i])
  {
    if |names| == 0 then [] else [CreateLocalVar(typeName, names[0])] + LocalVars(typeName, names[1..])
  }

  /** Declaring the first name, then the others. */
  lemma {:induction false} LocalVarsCons(trace: seq<ContextCall>, typeName: string, names: seq<string>)
    requires |names| > 0
    ensures (trace + [CreateLocalVar(typeName, names[0])]) + LocalVars(typeName, names[1..]) ==
            trace + LocalVars(typeName, names)
  {
  }

  /** Scanning does not look at the context trace, however far. */
  lemma {:induction false} AdvanceIgnoresTrace(s: PState, trace: seq<ContextCall>, n: nat)
    ensures Advance(s.(trace := trace), n) == Advance(s, n).(trace := trace)
    ensures forall i {:trigger LaAt(s, i)} :: LaAt(s.(trace := trace), i) == LaAt(s, i)
  {
  }

  /** What is left to read does not depend on the context trace. */
  lemma {:induction false} SpellsIgnoresTrace(s: PState, trace: seq<ContextCall>, toks: seq<Token>)
    requires Spells(s, toks)
    ensures Spells(s.(trace := trace), toks)
  {
    forall i | 0 <= i < |toks|
      ensures Like(LaAt(s.(trace := trace), i), toks[i])
    {
      assert LaAt(s.(trace := trace), i) == LaAt(s, i);
    }
  }

  /** One round of the `{ "," ident }` loop of VarDecl. */
  lemma {:induction false} VarDeclTailStep(typeName: string, name: string, s: PState)
    requires s.la.kind == Comma && Like(LaAt(s, 1), IdentToken(name))
    ensures VarDeclTail(typeName, s) ==
            VarDeclTail(typeName, Advance(s, 2).(trace := s.trace + [CreateLocalVar(typeName, name)]))
  {
    ScanAdvance(s);
    CheckAt(Ident, s, 1);
    VarDeclTailUnfold(typeName, s, Advance(s, 2));
    assert Declare(Advance(s, 2), CreateLocalVar(typeName, Advance(s, 2).t.str)) ==
           Advance(s, 2).(trace := s.trace + [CreateLocalVar(typeName, name)]);
  }

  lemma {:induction false} VarDeclTailUnfold(typeName: string, s: PState, s1: PState)
    requires s.la.kind == Comma && Check(Ident, Scan(s)) == Ok((), s1)
    ensures VarDeclTail(typeName, s) == VarDeclTail(typeName, Declare(s1, CreateLocalVar(typeName, s1.t.str)))
  {
  }

  /** The `{ "," ident }` loop of VarDecl declares each name in turn and
      stops at the ";". */
  lemma {:induction false} VarDeclTailReads(typeName: string, names: seq<string>, s: PState)
    requires Spells(s, CommaNames(names) + [OpToken(Semicolon)])
    ensures VarDeclTail(typeName, s) ==
            Ok((), Advance(s, 2 * |names|).(trace := s.trace + LocalVars(typeName, names)))
    decreases |names|
  {
    var toks := CommaNames(names) + [OpToken(Semicolon)];
    if |names| == 0 {
      assert Like(LaAt(s, 0), toks[0]);
      assert s.trace + LocalVars(typeName, names) == s.trace;
    } else {
      var rest := CommaNames(names[1..]) + [OpToken(Semicolon)];
      var trace := s.trace + [CreateLocalVar(typeName, names[0])];
      var s2 := Advance(s, 2).(trace := trace);
      var m := 2 * |names[1..]|;
      assert toks == [OpToken(Comma), IdentToken(names[0])] + rest;
      assert VarDeclTail(typeName, s) == VarDeclTail(typeName, s2) by {
        assert Like(LaAt(s, 0), toks[0]) && Like(LaAt(s, 1), toks[1]);
        VarDeclTailStep(typeName, names[0], s);
      }
      assert Spells(s2, rest) by {
        SpellsAppend(s, [OpToken(Comma), IdentToken(names[0])], rest);
        SpellsIgnoresTrace(Advance(s, 2), trace, rest);
      }
      VarDeclTailReads(typeName, names[1..], s2);
      VarDeclTailCompose(typeName, names, s, s2);
    }
  }

  /** Where one round of the loop and the rounds after it end together. */
  lemma {:induction false} VarDeclTailCompose(typeName: string, names: seq<string>, s: PState, s2: PState)
    requires |names| > 0
    requires s2 == Advance(s, 2).(trace := s.trace + [CreateLocalVar(typeName, names[0])])
    ensures Advance(s2, 2 * |names[1..]|).(trace := s2.trace + LocalVars(typeName, names[1..])) ==
            Advance(s, 2 * |names|).(trace := s.trace + LocalVars(typeName, names))
  {
    var m := 2 * |names[1..]|;
    AdvanceIgnoresTrace(Advance(s, 2), s2.trace, m);
    AdvanceAdd(s, 2, m);
    LocalVarsCons(s.trace, typeName, names);
  }

  /** VarDecl: the type, the first name, the loop over the others, and
      the ";" where the loop stops. */
  lemma {:induction false} VarDeclSteps(typeName: string, name: string, s: PState, e: PState)
    requires Type(s) == Ok(typeName, Advance(s, 1))
    requires Check(Ident, Advance(s, 1)) == Ok((), Advance(s, 2)) && Advance(s, 2).t.str == name
    requires VarDeclTail(typeName, Advance(s, 2).(trace := s.trace + [CreateLocalVar(typeName, name)])) == Ok((), e)
    requires e.la.kind == Semicolon
    ensures VarDecl(s) == Ok((), Scan(e))
  {
  }

  /** Reading `T x1 , ... , xn ;`: the type and the first name, the rest of
      the names, and the ";" after them. */
  lemma {:induction false} DeclTokens(typeName: string, names: seq<string>, s: PState)
    requires |names| > 0
    requires Spells(s, [IdentToken(typeName), IdentToken(names[0])] + (CommaNames(names[1..]) + [OpToken(Semicolon)]))
    ensures Type(s) == Ok(typeName, Advance(s, 1))
    ensures Check(Ident, Advance(s, 1)) == Ok((), Advance(s, 2)) && Advance(s, 2).t.str == names[0]
    ensures Spells(Advance(s, 2), CommaNames(names[1..]) + [OpToken(Semicolon)])
    ensures Advance(s, 2 * |names|).la.kind == Semicolon
  {
    var rest := CommaNames(names[1..]) + [OpToken(Semicolon)];
    var m := 2 * |names[1..]|;
    SpellsAppend(s, [IdentToken(typeName), IdentToken(names[0])], rest);
    assert Like(LaAt(s, 0), IdentToken(typeName)) && Like(LaAt(s, 1), IdentToken(names[0]));
    CheckAt(Ident, s, 0);
    CheckAt(Ident, s, 1);
    assert Like(LaAt(Advance(s, 2), m), rest[m]);
    LaAtShift(s, 2, m);
  }

  /** The loop of VarDecl over the names after the first. */
  lemma {:induction false} DeclLoopReads(typeName: string, names: seq<string>, s: PState)
    requires |names| > 0
    requires Spells(Advance(s, 2), CommaNames(names[1..]) + [OpToken(Semicolon)])
    ensures VarDeclTail(typeName, Advance(s, 2).(trace := s.trace + [CreateLocalVar(typeName, names[0])])) ==
            Ok((), Advance(s, 2 * |names|).(trace := s.trace + LocalVars(typeName, names)))
  {
    var s2 := Advance(s, 2).(trace := s.trace + [CreateLocalVar(typeName, names[0])]);
    SpellsIgnoresTrace(Advance(s, 2), s2.trace, CommaNames(names[1..]) + [OpToken(Semicolon)]);
    VarDeclTailReads(typeName, names[1..], s2);
    VarDeclTailCompose(typeName, names, s, s2);
  }

  /** VarDecl on `T x1 , ... , xn ;`: the locals are created on the function
      context in order and all the tokens are consumed. */
  lemma {:induction false} VarDeclListReads(typeName: string, names: seq<string>, s: PState)
    requires |names| > 0
    requires Spells(s, [IdentToken(typeName), IdentToken(names[0])] + (CommaNames(names[1..]) + [OpToken(Semicolon)]))
    ensures VarDecl(s) == Ok((), Advance(s, 2 * |names| + 1).(trace := s.trace + LocalVars(typeName, names)))
  {
    var trace := s.trace + LocalVars(typeName, names);
    var e := Advance(s, 2 * |names|).(trace := trace);
    ScanAtIgnoresTrace(s, 2 * |names|, trace);
    DeclTokens(typeName, names, s);
    DeclLoopReads(typeName, names, s);
    VarDeclSteps(typeName, names[0], s, e);
  }

  /** The scan past the ";" after n scans, whatever the trace. */
  lemma {:induction false} ScanAtIgnoresTrace(s: PState, n: nat, trace: seq<ContextCall>)
    ensures Scan(Advance(s, n).(trace := trace)) == Advance(s, n + 1).(trace := trace)
  {
    ScanIgnoresTrace(Advance(s, n), trace);
    ScanAt(s, n);
  }

  /** `T x1 , ... , xn ;` inside a method body, where the type table knows
      `T`: the locals are created on the function context in order, and the
      statement does nothing. */
  lemma {:induction false} LocalDeclarationParses(typeName: string, names: seq<string>, s: PState)
    requires typeName in s.types && |names| > 0
    requires Spells(s, [IdentToken(typeName), IdentToken(names[0])] + (CommaNames(names[1..]) + [OpToken(Semicolon)]))
    ensures Statement(s) == Ok(NoOp, Advance(s, 2 * |names| + 1).(trace := s.trace + LocalVars(typeName, names)))
  {
    SpellsAppend(s, [IdentToken(typeName), IdentToken(names[0])], CommaNames(names[1..]) + [OpToken(Semicolon)]);
    assert Like(LaAt(s, 0), IdentToken(typeName));
    VarDeclListReads(typeName, names, s);
    DeclarationStatement(s, Advance(s, 2 * |names| + 1).(trace := s.trace + LocalVars(typeName, names)));
  }

  /** A statement starting with a type name is a variable declaration. */
  lemma {:induction false} DeclarationStatement(s: PState, s2: PState)
    requires s.la.kind == Ident && s.la.str in s.types && VarDecl(s) == Ok((), s2)
    ensures Statement(s) == Ok(NoOp, s2)
  {
  }

  /** The empty statement ";" consumes its token and yields no node. */
  lemma {:induction false} EmptyStatementYieldsNothing(s: PState)
    requires s.la.kind == Semicolon
    ensures Statement(s) == Ok(NoStmt, Advance(s, 1))
  {
    ScanAdvance(s);
  }

  /** A parenthesised expression, `new` and `abs` are parsed, but the factor
      they make has no node. */
  lemma {:induction false} UnbuiltFactors(s: PState)
    requires s.la.kind == Lpar || s.la.kind == New || s.la.kind == Abs
    ensures Factor(s).Ok? ==> Factor(s).value == NoExpr
  {
  }

  /** The tokens after the expression of a print statement, checked one
      by one: ",", the width, ")" and ";". */
  lemma {:induction false} PrintTailChecks(s: PState)
    requires s.la.kind == Comma && LaAt(s, 1).kind == Number
    requires LaAt(s, 2).kind == Rpar && LaAt(s, 3).kind == Semicolon
    ensures Check(Number, Scan(s)) == Ok((), Advance(s, 2))
    ensures Check(Rpar, Advance(s, 2)) == Ok((), Advance(s, 3))
    ensures Check(Semicolon, Advance(s, 3)) == Ok((), Advance(s, 4))
  {
    PrintWidthChecked(s);
    CheckAt(Rpar, s, 2);
    CheckAt(Semicolon, s, 3);
  }

  /** The width after the ",", checked and consumed. */
  lemma {:induction false} PrintWidthChecked(s: PState)
    requires LaAt(s, 1).kind == Number
    ensures Check(Number, Scan(s)) == Ok((), Advance(s, 2))
  {
    ScanAdvance(s);
    CheckAt(Number, s, 1);
  }

  /** `print ( e , w ) ;` prints `e`, whatever the expression and the width
      are: after "print" and "(", the expression reads to `e` and leaves the
      parser in `s2` (call targets it creates included), and "," w ")" ";"
      follow; the width token is checked and dropped. */
  lemma {:induction false} PrintDropsWidth(s: PState, e: ExprNode, s2: PState)
    requires s.la.kind == Print && LaAt(s, 1).kind == Lpar
    requires Expr(Advance(s, 2)) == Ok(e, s2)
    requires s2.la.kind == Comma && LaAt(s2, 1).kind == Number
    requires LaAt(s2, 2).kind == Rpar && LaAt(s2, 3).kind == Semicolon
    ensures Statement(s) == Ok(PrintNode(e), Advance(s2, 4))
  {
    PrintRestDropsWidth(s, e, s2);
    PrintStarts(s);
  }

  /** The rest of the print statement, after "print". */
  lemma {:induction false} PrintRestDropsWidth(s: PState, e: ExprNode, s2: PState)
    requires LaAt(s, 1).kind == Lpar
    requires Expr(Advance(s, 2)) == Ok(e, s2)
    requires s2.la.kind == Comma && LaAt(s2, 1).kind == Number
    requires LaAt(s2, 2).kind == Rpar && LaAt(s2, 3).kind == Semicolon
    ensures PrintRest(Scan(s)) == Ok(PrintNode(e), Advance(s2, 4))
  {
    PrintTailChecks(s2);
    PrintOpens(s);
  }

  /** A statement starting with "print" is the rest of the print statement. */
  lemma {:induction false} PrintStarts(s: PState)
    requires s.la.kind == Print
    ensures Statement(s) == PrintRest(Scan(s))
  {
    var k := s.la.kind;
    assert k != Ident && k != Final && k != If && k != While && k != Break && k != Continue && k != Return && k != Read;
  }

  /** The "(" after "print" is checked and consumed. */
  lemma {:induction false} PrintOpens(s: PState)
    requires LaAt(s, 1).kind == Lpar
    ensures Check(Lpar, Scan(s)) == Ok((), Advance(s, 2))
  {
    ScanAdvance(s);
    CheckAt(Lpar, s, 1);
  }
}
