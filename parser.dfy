/**
 * The MicroJava recursive-descent parser as an object: one token of lookahead
 * in the fields `t`, `la` and `sym`, a function registry and a call-target
 * cache that are updated in place, and one method per grammar production.
 * Every method is proved to compute exactly what the production of module
 * Grammar computes from the state the parser was in when it was called.
 */
module Parser {
  import opened Syntax
  import G = Grammar

  /** What a parser method returns when its production yields `res`: the
      value, or the error it throws. */
  function Outcome<T>(res: G.Res<T>): Result<T> {
    match res
    case Ok(v, _) => Success(v)
    case Err(e, _) => Failure(e)
  }

  class RecursiveDescentParser {
    /** The scanner, as the tokens it will hand out and a cursor. */
    const tokens: seq<Token>
    var pos: nat

    /** Last recognized token. */
    var t: Token
    /** Lookahead token (not recognized). */
    var la: Token
    /** Shortcut to the kind of the lookahead token. */
    var sym: Kind

    /** The names the type table knows. */
    const types: set<string>

    /** Declared functions, in declaration order. */
    var functions: seq<FunctionDecl>
    /** Call target of each function called so far, by registry index. */
    var callAble: map<nat, CallTarget>
    /** Identity of the next call target the runtime creates. */
    var nextTarget: nat
    /** The calls made on the function context so far. */
    var trace: seq<ContextCall>

    ghost predicate Valid()
      reads this`sym, this`la
    {
      sym == la.kind
    }

    /** The parser's state as a value of the specification. */
    ghost function State(): G.PState
      reads this
    {
      G.PState(tokens, pos, t, la, types, functions, callAble, nextTarget, trace)
    }

    constructor (tokens: seq<Token>, types: set<string>)
      ensures Valid() && State() == G.Initial(tokens, types)
    {
      this.tokens := tokens;
      this.types := types;
      pos := 0;
      t := SentinelToken;
      la := SentinelToken;
      sym := Sentinel;
      functions := [];
      callAble := map[];
      nextTarget := 0;
      trace := [];
    }

    /** The scanner's `next()`: end of input once the tokens are exhausted. */
    method NextToken() returns (tok: Token)
      modifies this`pos
      ensures (tok, pos) == G.NextToken(old(State()))
    {
      if pos < |tokens| {
        tok := tokens[pos];
        pos := pos + 1;
      } else {
        tok := EofToken;
      }
    }

    /** `scan()`: reads ahead one symbol and returns the kind of the token
        just recognized. */
    method Scan() returns (k: Kind)
      requires Valid()
      modifies this`pos, this`t, this`la, this`sym
      ensures Valid() && State() == G.Scan(old(State()))
      ensures t == old(la) && k == old(sym)
    {
      t := la;
      la := NextToken();
      sym := la.kind;
      k := t.kind;
    }

    /** `check(expected)`: consume the lookahead if it has the expected kind,
        otherwise fail and consume nothing. */
    method Check(expected: Kind) returns (r: Result<()>)
      requires Valid()
      modifies this`pos, this`t, this`la, this`sym
      ensures Valid() && r == Outcome(G.Check(expected, old(State()))) && State() == G.Check(expected, old(State())).st
    {
      if sym == expected {
        var _ := Scan();
        r := Success(());
      } else {
        r := Failure(Expected(expected));
      }
    }

    /** Type = ident . */
    method Type() returns (r: Result<string>)
      requires Valid()
      modifies this`pos, this`t, this`la, this`sym
      ensures Valid() && r == Outcome(G.Type(old(State()))) && State() == G.Type(old(State())).st
    {
      var _ :- Check(Ident);
      return Success(t.str);
    }

    /** VarDecl = Type ident { "," ident } ";" . */
    method VarDecl() returns (r: Result<()>)
      requires Valid()
      modifies this
      ensures Valid() && r == Outcome(G.VarDecl(old(State()))) && State() == G.VarDecl(old(State())).st
    {
      var typeName :- Type();
      var _ :- Check(Ident);
      Declare(CreateLocalVar(typeName, t.str));
      while sym == Comma
        invariant Valid()
        invariant G.VarDecl(old(State())) == (var (_, s3) :- G.VarDeclTail(typeName, State()); G.Check(Semicolon, s3))
        decreases G.Remaining(State())
      {
        var _ := Scan();
        var _ :- Check(Ident);
        Declare(CreateLocalVar(typeName, t.str));
      }
      r := Check(Semicolon);
    }

    /** ConstExprDecl = "final" Type ident "=" ( number | charConst ) ";" . */
    method ConstExprDecl() returns (r: Result<()>)
      requires Valid()
      modifies this
      ensures Valid() && r == Outcome(G.ConstExprDecl(old(State()))) && State() == G.ConstExprDecl(old(State())).st
    {
      var _ :- Check(Final);
      var typeName :- Type();
      var _ :- Check(Ident);
      var varname := t.str;
      var _ :- Check(Assign);
      var lit: Literal;
      if sym == Number {
        var _ := Scan();
        lit := IntLit(t.val);
      } else if sym == CharConst {
        var _ := Scan();
        lit := CharLit(CharOf(t.val));
      } else {
        return Failure(Error("Constexpr declaration should be of type Int of Char"));
      }
      Declare(CreateGlobalConstant(typeName, varname, lit));
      r := Check(Semicolon);
    }

    /** ClassDecl = "class" ident "{" { VarDecl } "}" . */
    method ClassDecl() returns (r: Result<()>)
      requires Valid()
      modifies this
      ensures Valid() && r == Outcome(G.ClassDecl(old(State()))) && State() == G.ClassDecl(old(State())).st
    {
      var _ :- Check(Class);
      var _ :- Check(Ident);
      var _ :- Check(Lbrace);
      while sym == Ident
        invariant Valid()
        invariant G.ClassDecl(old(State())) == (var (_, s4) :- G.VarDecls(State()); G.Check(Rbrace, s4))
        decreases G.Remaining(State())
      {
        var _ :- VarDecl();
      }
      r := Check(Rbrace);
    }

    /** FormPars = Type ident { "," Type ident } . */
    method FormPars() returns (r: Result<()>)
      requires Valid()
      modifies this
      ensures Valid() && r == Outcome(G.FormPars(old(State()))) && State() == G.FormPars(old(State())).st
    {
      var typeName :- Type();
      var _ :- Check(Ident);
      Declare(CreateParameter(typeName, t.str));
      while sym == Comma
        invariant Valid()
        invariant G.FormPars(old(State())) == G.FormParsTail(State())
        decreases G.Remaining(State())
      {
        var _ := Scan();
        typeName :- Type();
        var _ :- Check(Ident);
        Declare(CreateParameter(typeName, t.str));
      }
      return Success(());
    }

    /** `getFunction(name)`: the first registered function with that name. */
    method GetFunction(name: string) returns (r: Option<nat>)
      ensures r == G.FindFunction(functions, name)
      ensures r.Some? ==> r.value < |functions| && functions[r.value].name == name &&
                          forall j :: 0 <= j < r.value ==> functions[j].name != name
      ensures r.None? <==> forall j :: 0 <= j < |functions| ==> functions[j].name != name
    {
      for i := 0 to |functions|
        invariant forall j :: 0 <= j < i ==> functions[j].name != name
      {
        if functions[i].name == name {
          return Some(i);
        }
      }
      return None;
    }

    /** `getMain()`: the first registered function called "main". */
    method GetMain() returns (r: Option<nat>)
      ensures r == G.FindFunction(functions, "main")
    {
      for i := 0 to |functions|
        invariant forall j :: 0 <= j < i ==> functions[j].name != "main"
      {
        if functions[i].name == "main" {
          return Some(i);
        }
      }
      return None;
    }

    /** Designator = ident { "." ident | "[" Expr "]" } ; fields and arrays
        fail at once, so the source's loop never runs a second time. */
    method Designator() returns (r: Result<string>)
      requires Valid()
      modifies this
      ensures Valid() && r == Outcome(G.Designator(old(State()))) && State() == G.Designator(old(State())).st
    {
      var _ :- Check(Ident);
      if sym == Period {
        var _ := Scan();
        var _ :- Check(Ident);
        return Failure(Error("Fields ignored for now"));
      } else if sym == Lbrack {
        return Failure(Error("Arrays ignored for now..."));
      }
      return Success(t.str);
    }

    /** ActPars = "(" [ Expr { "," Expr } ] ")" . */
    method ActPars() returns (r: Result<seq<ExprNode>>)
      requires Valid()
      modifies this
      ensures Valid() && r == Outcome(G.ActPars(old(State()))) && State() == G.ActPars(old(State())).st
      decreases G.Remaining(State()), 2
    {
      var _ :- Check(Lpar);
      ghost var s1 := State();
      var args: seq<ExprNode> := [];
      if sym in G.FirstExpr {
        while true
          invariant Valid() && G.Remaining(State()) < old(G.Remaining(State()))
          invariant G.ActParsLoop([], s1) == G.ActParsLoop(args, State())
          decreases G.Remaining(State())
        {
          var e :- Expr();
          args := args + [e];
          if sym == Comma {
            var _ := Scan();
          } else {
            break;
          }
        }
      }
      var _ :- Check(Rpar);
      return Success(args);
    }

    /** The runtime's `createCallTarget`: a target with a fresh identity. */
    method CreateCallTarget() returns (target: CallTarget)
      requires Valid()
      modifies this`nextTarget
      ensures Valid() && (target, State()) == G.NewCallTarget(old(State()))
    {
      target := CallTarget(nextTarget);
      nextTarget := nextTarget + 1;
    }

    /** A call on the function context, such as `createLocalVar`. */
    method Declare(call: ContextCall)
      requires Valid()
      modifies this`trace
      ensures Valid() && State() == G.Declare(old(State()), call)
    {
      trace := trace + [call];
    }

    /** `functions.add(...)`: a function with no body yet. */
    method Register(name: string, returnType: Option<string>)
      requires Valid()
      modifies this`functions
      ensures Valid() && State() == G.Register(old(State()), name, returnType)
    {
      functions := functions + [FunctionDecl(name, NoStmt, returnType)];
    }

    /** `changeBody`: give the registered function at `index` its body. */
    method ChangeBody(index: nat, body: StmtNode)
      requires Valid() && index < |functions|
      modifies this`functions
      ensures Valid() && State() == G.AttachBody(old(State()), index, body)
    {
      functions := functions[index := functions[index].(body := body)];
    }

    /** `callFunction(name)`: parse the actual parameters, then resolve the
        callee and reuse its cached call target or create and cache one. */
    method CallFunction(name: string) returns (r: Result<ExprNode>)
      requires Valid()
      modifies this
      ensures Valid() && r == Outcome(G.CallFunction(name, old(State()))) && State() == G.CallFunction(name, old(State())).st
      decreases G.Remaining(State()), 3
    {
      var args :- ActPars();
      var callee := GetFunction(name);
      if callee.None? {
        return Failure(Error("Function does not exists"));
      }
      var i := callee.value;
      var target := CallTargetFor(i);
      return Success(Invoke(target, args, functions[i].returnType));
    }

    /** The call target cached for function `i`; on a miss a new one is created and cached. */
    method CallTargetFor(i: nat) returns (target: CallTarget)
      requires Valid()
      modifies this`nextTarget, this`callAble
      ensures Valid() && (target, State()) == G.CallTargetFor(i, old(State()))
    {
      if i in callAble {
        target := callAble[i];
      } else {
        target := CreateCallTarget();
        callAble := callAble[i := target];
      }
    }

    /** Factor; parenthesised expressions, `new` and `abs` are parsed but
        yield no node. */
    method Factor() returns (r: Result<ExprNode>)
      requires Valid()
      modifies this
      ensures Valid() && r == Outcome(G.Factor(old(State()))) && State() == G.Factor(old(State())).st
      decreases G.Remaining(State()), 4
    {
      if sym == Abs {
        var _ := Scan();
        r := AbsRest();
      } else if sym == Ident {
        var name :- Designator();
        if sym == Lpar {
          r := CallFunction(name);
        } else {
          r := Success(ReadVar(name));
        }
      } else if sym == Number {
        var _ := Scan();
        return Success(IntNode(t.val));
      } else if sym == CharConst {
        var _ := Scan();
        return Success(CharNode(CharOf(t.val)));
      } else if sym == New {
        var _ := Scan();
        r := NewRest();
      } else if sym == Lpar {
        var _ := Scan();
        r := ParenRest();
      } else {
        return Failure(Error("Invalid fact"));
      }
    }

    /** Factor after "abs": "(" Expr ")" . */
    method AbsRest() returns (r: Result<ExprNode>)
      requires Valid()
      modifies this
      ensures Valid() && r == Outcome(G.AbsRest(old(State()))) && State() == G.AbsRest(old(State())).st
      decreases G.Remaining(State()), 3
    {
      var _ :- Check(Lpar);
      var _ :- Expr();
      var _ :- Check(Rpar);
      return Success(NoExpr);
    }

    /** Factor after "new": ident [ "[" Expr "]" ] . */
    method NewRest() returns (r: Result<ExprNode>)
      requires Valid()
      modifies this
      ensures Valid() && r == Outcome(G.NewRest(old(State()))) && State() == G.NewRest(old(State())).st
      decreases G.Remaining(State()), 3
    {
      var _ :- Check(Ident);
      if sym == Lbrack {
        var _ := Scan();
        var _ :- Expr();
        var _ :- Check(Rbrack);
      }
      return Success(NoExpr);
    }

    /** Factor after "(": Expr ")" . */
    method ParenRest() returns (r: Result<ExprNode>)
      requires Valid()
      modifies this
      ensures Valid() && r == Outcome(G.ParenRest(old(State()))) && State() == G.ParenRest(old(State())).st
      decreases G.Remaining(State()), 9
    {
      var _ :- Expr();
      var _ :- Check(Rpar);
      return Success(NoExpr);
    }

    /** Term = Factor { Mulop Factor } . */
    method Term() returns (r: Result<ExprNode>)
      requires Valid()
      modifies this
      ensures Valid() && r == Outcome(G.Term(old(State()))) && State() == G.Term(old(State())).st
      decreases G.Remaining(State()), 6
    {
      var e :- Factor();
      while sym in G.MulOps
        invariant Valid() && G.Remaining(State()) <= old(G.Remaining(State()))
        invariant G.Term(old(State())) == G.TermTail(e, State())
        decreases G.Remaining(State())
      {
        var k := Scan();
        var f :- Factor();
        e := Binary(G.MulOpOf(k), e, f);
      }
      return Success(e);
    }

    /** Expr = [ "-" ] Term { Addop Term } . */
    method Expr() returns (r: Result<ExprNode>)
      requires Valid()
      modifies this
      ensures Valid() && r == Outcome(G.Expr(old(State()))) && State() == G.Expr(old(State())).st
      decreases G.Remaining(State()), 8
    {
      var neg := false;
      if sym == Minus {
        var _ := Scan();
        neg := true;
      }
      var e :- Term();
      if neg {
        e := Binary(Multiplication, IntNode(-1), e);
      }
      while sym == Plus || sym == Minus
        invariant Valid() && G.Remaining(State()) <= old(G.Remaining(State()))
        invariant G.Expr(old(State())) == G.ExprTail(e, State())
        decreases G.Remaining(State())
      {
        if sym == Plus {
          var _ := Scan();
          var rhs :- Term();
          e := Binary(Add, e, rhs);
        } else {
          var _ := Scan();
          var rhs :- Term();
          e := Binary(Subtract, e, rhs);
        }
      }
      return Success(e);
    }

    /** CondFact = Expr Relop Expr ; the token after the first Expr is
        consumed whatever its kind. */
    method CondFact() returns (r: Result<ExprNode>)
      requires Valid()
      modifies this
      ensures Valid() && r == Outcome(G.CondFact(old(State()))) && State() == G.CondFact(old(State())).st
      decreases G.Remaining(State()), 10
    {
      var e :- Expr();
      var k := Scan();
      if k in G.RelOps {
        var rhs :- Expr();
        e := Binary(G.RelOpOf(k), e, rhs);
      }
      return Success(e);
    }

    /** CondTerm = CondFact { "&&" CondFact } . */
    method CondTerm() returns (r: Result<ExprNode>)
      requires Valid()
      modifies this
      ensures Valid() && r == Outcome(G.CondTerm(old(State()))) && State() == G.CondTerm(old(State())).st
      decreases G.Remaining(State()), 12
    {
      var e :- CondFact();
      while sym == And
        invariant Valid() && G.Remaining(State()) <= old(G.Remaining(State()))
        invariant G.CondTerm(old(State())) == G.CondTermTail(e, State())
        decreases G.Remaining(State())
      {
        var _ := Scan();
        var rhs :- CondFact();
        e := Binary(Conjunction, e, rhs);
      }
      return Success(e);
    }

    /** Condition = CondTerm { "||" CondTerm } . */
    method Condition() returns (r: Result<ExprNode>)
      requires Valid()
      modifies this
      ensures Valid() && r == Outcome(G.Condition(old(State()))) && State() == G.Condition(old(State())).st
      decreases G.Remaining(State()), 14
    {
      var e :- CondTerm();
      while sym == Or
        invariant Valid() && G.Remaining(State()) <= old(G.Remaining(State()))
        invariant G.Condition(old(State())) == G.ConditionTail(e, State())
        decreases G.Remaining(State())
      {
        var _ := Scan();
        var rhs :- CondTerm();
        e := Binary(Disjunction, e, rhs);
      }
      return Success(e);
    }

    /** ConstDecl = "final" Type ident "=" Expr ";" . */
    method ConstDecl() returns (r: Result<StmtNode>)
      requires Valid()
      modifies this
      ensures Valid() && r == Outcome(G.ConstDecl(old(State()))) && State() == G.ConstDecl(old(State())).st
      decreases G.Remaining(State()), 15
    {
      var _ :- Check(Final);
      var typeName :- Type();
      var _ :- Check(Ident);
      var name := t.str;
      var _ :- Check(Assign);
      var e :- Expr();
      Declare(CreateConstLocalVarAndWrite(typeName, name));
      var _ :- Check(Semicolon);
      return Success(ConstLocalInit(typeName, name, e));
    }

    /** Assignment, call, increment or decrement after a designator that
        starts a statement; a compound assignment `d op= e` reads the
        designator and combines it with the right-hand side. */
    method DesignatorStatement(des: string) returns (r: Result<StmtNode>)
      requires Valid()
      modifies this
      ensures Valid() && r == Outcome(G.DesignatorStatement(des, old(State()))) && State() == G.DesignatorStatement(des, old(State())).st
      decreases G.Remaining(State()), 16
    {
      if sym == Assign {
        var _ := Scan();
        var e :- Expr();
        return Success(WriteVar(des, e));
      } else if sym in G.CompoundAssignOps {
        var k := Scan();
        var e :- Expr();
        return Success(WriteVar(des, Binary(G.CompoundOpOf(k), ReadVar(des), e)));
      } else if sym == Lpar {
        var call :- CallFunction(des);
        return Success(ExprStatement(call));
      } else if sym == PPlus {
        var _ := Scan();
        return Success(WriteVar(des, Binary(Add, ReadVar(des), IntNode(1))));
      } else if sym == MMinus {
        var _ := Scan();
        return Success(WriteVar(des, Binary(Subtract, ReadVar(des), IntNode(1))));
      }
      return Failure(Error("Designator Follow"));
    }

    /** After "if": "(" Condition ")" Statement [ "else" Statement ] . */
    method IfRest() returns (r: Result<StmtNode>)
      requires Valid()
      modifies this
      ensures Valid() && r == Outcome(G.IfRest(old(State()))) && State() == G.IfRest(old(State())).st
      decreases G.Remaining(State()), 16
    {
      var _ :- Check(Lpar);
      var condition :- Condition();
      var _ :- Check(Rpar);
      var thenPart :- Statement();
      var elsePart := NoStmt;
      if sym == Else {
        var _ := Scan();
        elsePart :- Statement();
      }
      return Success(Conditional(condition, thenPart, elsePart));
    }

    /** After "while": "(" Condition ")" Statement . */
    method WhileRest() returns (r: Result<StmtNode>)
      requires Valid()
      modifies this
      ensures Valid() && r == Outcome(G.WhileRest(old(State()))) && State() == G.WhileRest(old(State())).st
      decreases G.Remaining(State()), 16
    {
      var _ :- Check(Lpar);
      var condition :- Condition();
      var _ :- Check(Rpar);
      var body :- Statement();
      return Success(WhileLoop(condition, body));
    }

    /** After "return": [ Expr ] ";" . */
    method ReturnRest() returns (r: Result<StmtNode>)
      requires Valid()
      modifies this
      ensures Valid() && r == Outcome(G.ReturnRest(old(State()))) && State() == G.ReturnRest(old(State())).st
      decreases G.Remaining(State()), 16
    {
      var value := NoExpr;
      if sym != Semicolon {
        value :- Expr();
      }
      var _ :- Check(Semicolon);
      return Success(ReturnNode(value));
    }

    /** After "read": "(" Designator ")" ";" . */
    method ReadRest() returns (r: Result<StmtNode>)
      requires Valid()
      modifies this
      ensures Valid() && r == Outcome(G.ReadRest(old(State()))) && State() == G.ReadRest(old(State())).st
    {
      var _ :- Check(Lpar);
      var des :- Designator();
      var _ :- Check(Rpar);
      var _ :- Check(Semicolon);
      return Success(WriteVar(des, ReadInput));
    }

    /** After "print": "(" Expr [ "," number ] ")" ";" . */
    method PrintRest() returns (r: Result<StmtNode>)
      requires Valid()
      modifies this
      ensures Valid() && r == Outcome(G.PrintRest(old(State()))) && State() == G.PrintRest(old(State())).st
      decreases G.Remaining(State()), 16
    {
      var _ :- Check(Lpar);
      var e :- Expr();
      if sym == Comma {
        var _ := Scan();
        var _ :- Check(Number);
      }
      var _ :- Check(Rpar);
      var _ :- Check(Semicolon);
      return Success(PrintNode(e));
    }

    /** A statement that starts with an identifier: a local variable
        declaration when the type table knows the name, otherwise a
        designator statement closed by ";". */
    method IdentStatement() returns (r: Result<StmtNode>)
      requires Valid()
      modifies this
      ensures Valid() && r == Outcome(G.IdentStatement(old(State()))) && State() == G.IdentStatement(old(State())).st
      decreases G.Remaining(State()), 17
    {
      if la.str in types {
        var _ :- VarDecl();
        return Success(NoOp);
      }
      var des :- Designator();
      var node :- DesignatorStatement(des);
      var _ :- Check(Semicolon);
      return Success(node);
    }

    /** Statement. */
    method Statement() returns (r: Result<StmtNode>)
      requires Valid()
      modifies this
      ensures Valid() && r == Outcome(G.Statement(old(State()))) && State() == G.Statement(old(State())).st
      decreases G.Remaining(State()), 18
    {
      if sym == Ident {
        r := IdentStatement();
      } else if sym == Final {
        r := ConstDecl();
      } else if sym == If {
        var _ := Scan();
        r := IfRest();
      } else if sym == While {
        var _ := Scan();
        r := WhileRest();
      } else if sym == Break {
        var _ := Scan();
        var _ :- Check(Semicolon);
        return Success(BreakNode);
      } else if sym == Continue {
        var _ := Scan();
        var _ :- Check(Semicolon);
        return Success(ContinueNode);
      } else if sym == Return {
        var _ := Scan();
        r := ReturnRest();
      } else if sym == Read {
        var _ := Scan();
        r := ReadRest();
      } else if sym == Print {
        var _ := Scan();
        r := PrintRest();
      } else if sym == Lbrace {
        r := Block();
      } else if sym == Semicolon {
        var _ := Scan();
        return Success(NoStmt);
      } else {
        return Failure(Error("Invalid start..."));
      }
    }

    /** Block = "{" { Statement } "}" . */
    method Block() returns (r: Result<StmtNode>)
      requires Valid()
      modifies this
      ensures Valid() && r == Outcome(G.Block(old(State()))) && State() == G.Block(old(State())).st
      decreases G.Remaining(State()), 17
    {
      var _ :- Check(Lbrace);
      Declare(StepInBlock);
      var statements :- Statements();
      Declare(StepOutBlock);
      var _ :- Check(Rbrace);
      return Success(BlockNode(statements));
    }

    /** `Statements()`: statements while the lookahead can start one. */
    method Statements() returns (r: Result<seq<StmtNode>>)
      requires Valid()
      modifies this
      ensures Valid() && r == Outcome(G.Statements([], old(State()))) && State() == G.Statements([], old(State())).st
      decreases G.Remaining(State()), 19
    {
      var statements: seq<StmtNode> := [];
      while sym in G.FirstStat
        invariant Valid() && G.Remaining(State()) <= old(G.Remaining(State()))
        invariant G.Statements([], old(State())) == G.Statements(statements, State())
        decreases G.Remaining(State())
      {
        var statement :- Statement();
        statements := statements + [statement];
      }
      return Success(statements);
    }

    /** `( Type | "void" )` at the start of MethodDecl: the return type
        name, or None for void. */
    method ReturnType() returns (r: Result<Option<string>>)
      requires Valid()
      modifies this
      ensures Valid() && r == Outcome(G.ReturnType(old(State()))) && State() == G.ReturnType(old(State())).st
    {
      if sym == Ident {
        var typeName := Type();
        return Success(Some(typeName.value));
      } else if sym == Void {
        var _ := Scan();
        return Success(None);
      }
      return Failure(Error("Method declaration"));
    }

    /** The part of MethodDecl before the body:
        `( Type | "void" ) ident "(" [ FormPars ] ")" { VarDecl }`. */
    method MethodHeader() returns (r: Result<(Option<string>, string)>)
      requires Valid()
      modifies this
      ensures Valid() && r == Outcome(G.MethodHeader(old(State()))) && State() == G.MethodHeader(old(State())).st
    {
      var funcType :- ReturnType();
      Declare(StepInFunction);
      var _ :- Check(Ident);
      var name := t.str;
      var _ :- Check(Lpar);
      if sym == Ident {
        var _ :- FormPars();
      }
      var _ :- Check(Rpar);
      ghost var s5 := State();
      while sym == Ident
        invariant Valid() && G.VarDecls(s5) == G.VarDecls(State())
        decreases G.Remaining(State())
      {
        var _ :- VarDecl();
      }
      return Success((funcType, name));
    }

    /** MethodDecl = ( Type | "void" ) ident "(" [ FormPars ] ")" { VarDecl } Block .
        The function is registered before its body is parsed. */
    method MethodDecl() returns (r: Result<()>)
      requires Valid()
      modifies this
      ensures Valid() && r == Outcome(G.MethodDecl(old(State()))) && State() == G.MethodDecl(old(State())).st
    {
      var header :- MethodHeader();
      var (funcType, name) := header;
      Register(name, funcType);
      var index := |functions| - 1;
      var body :- Block();
      ChangeBody(index, body);
      return Success(());
    }

    /** Program = "program" ident { ConstDecl | VarDecl | ClassDecl } "{" { MethodDecl } "}" .
        On a token that can neither start a method nor close the program the
        method loop makes no progress; that case ends in Diverges. */
    method Program() returns (r: Result<()>)
      requires Valid()
      modifies this
      ensures Valid() && r == Outcome(G.Program(old(State()))) && State() == G.Program(old(State())).st
    {
      var _ :- Check(Kind.Program);
      var _ :- Check(Ident);
      ghost var s2 := State();
      while true
        invariant Valid() && G.GlobalDecls(s2) == G.GlobalDecls(State())
        decreases G.Remaining(State())
      {
        if sym == Final {
          var _ :- ConstExprDecl();
        } else if sym == Ident {
          var _ :- VarDecl();
        } else if sym == Class {
          var _ :- ClassDecl();
        } else {
          break;
        }
      }
      var _ :- Check(Lbrace);
      ghost var s4 := State();
      while true
        invariant Valid() && G.MethodDecls(s4) == G.MethodDecls(State())
        decreases G.Remaining(State())
      {
        if sym == Rbrace || sym == Eof {
          break;
        } else if sym == Void || sym == Ident {
          var _ :- MethodDecl();
        } else {
          return Failure(Diverges);
        }
      }
      r := Check(Rbrace);
    }

    /** `parse()`: read the first token, parse the program, expect the end. */
    method Parse() returns (r: Result<()>)
      requires Valid()
      modifies this
      ensures Valid() && r == Outcome(G.ParseFrom(old(State()))) && State() == G.ParseFrom(old(State())).st
    {
      var _ := Scan();
      var _ :- Program();
      r := Check(Eof);
    }
  }
}
