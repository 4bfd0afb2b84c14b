/**
 * Properties of the function registry and the call-target cache: how a call
 * resolves its callee, when a call target is created, that every function
 * keeps one call target, and how a method declaration adds its function.
 */
module RegistryProps {
  import opened Syntax
  import opened Grammar

  // ---------------------------------------------------------------------
  // Looking functions up

  /** Lookup yields the first declaration of a name, and only that one. */
  lemma {:induction false} FirstDeclarationWins(fs: seq<FunctionDecl>, name: string, i: nat)
    requires i < |fs| && fs[i].name == name
    requires forall j :: 0 <= j < i ==> fs[j].name != name
    ensures FindFunction(fs, name) == Some(i)
  {
  }

  /** A name nobody declared is not found. */
  lemma {:induction false} UndeclaredNotFound(fs: seq<FunctionDecl>, name: string)
    requires forall j :: 0 <= j < |fs| ==> fs[j].name != name
    ensures FindFunction(fs, name) == None
  {
  }

  /** Registering a function leaves every name that was already declared
      resolving where it did (a second declaration of a name is never found),
      and makes the new name resolve to the new entry otherwise. */
  lemma {:induction false} RegisterKeepsLookup(s: PState, name: string, returnType: Option<string>, n: string)
    ensures FindFunction(s.functions, n).Some? ==>
              FindFunction(Register(s, name, returnType).functions, n) == FindFunction(s.functions, n)
    ensures FindFunction(s.functions, n).None? && n == name ==>
              FindFunction(Register(s, name, returnType).functions, n) == Some(|s.functions|)
    ensures FindFunction(s.functions, n).None? && n != name ==>
              FindFunction(Register(s, name, returnType).functions, n) == None
  {
    var fs := Register(s, name, returnType).functions;
    assert fs[..|s.functions|] == s.functions;
    match FindFunction(s.functions, n)
    case Some(i) =>
      FirstDeclarationWins(fs, n, i);
    case None =>
      if n == name {
        FirstDeclarationWins(fs, n, |s.functions|);
      } else {
        UndeclaredNotFound(fs, n);
      }
  }

  // ---------------------------------------------------------------------
  // The call-target cache

  /** A cached target is returned as it is; on a miss a target with the next
      fresh identity is created and cached. Either way the function then has
      the returned target in the cache, and no other entry changes. */
  lemma {:induction false} CallTargetLookup(i: nat, s: PState)
    ensures i in CallTargetFor(i, s).1.callAble && CallTargetFor(i, s).1.callAble[i] == CallTargetFor(i, s).0
    ensures forall k :: k in s.callAble ==>
              k in CallTargetFor(i, s).1.callAble && CallTargetFor(i, s).1.callAble[k] == s.callAble[k]
    ensures i in s.callAble ==> CallTargetFor(i, s) == (s.callAble[i], s)
    ensures i !in s.callAble ==> CallTargetFor(i, s).0 == CallTarget(s.nextTarget) &&
                                 CallTargetFor(i, s).1.nextTarget == s.nextTarget + 1 &&
                                 CallTargetFor(i, s).1.callAble.Keys == s.callAble.Keys + {i}
  {
  }

  /** Asking twice for the same function's target gives the same target and
      changes nothing the second time. */
  lemma {:induction false} CallTargetStable(i: nat, s: PState)
    ensures CallTargetFor(i, CallTargetFor(i, s).1) == CallTargetFor(i, s)
  {
    CallTargetLookup(i, s);
  }

  /** Taking a registered function's target keeps the cache invariant. */
  lemma {:induction false} CallTargetKeepsCacheInv(i: nat, s: PState)
    requires CacheInv(s) && i < |s.functions|
    ensures CacheInv(CallTargetFor(i, s).1)
  {
    if i !in s.callAble {
      var s' := CallTargetFor(i, s).1;
      forall k1, k2 | k1 in s'.callAble && k2 in s'.callAble && k1 != k2
        ensures s'.callAble[k1] != s'.callAble[k2]
      {
        if k1 == i {
          assert s'.callAble[k2].id < s.nextTarget;
        } else if k2 == i {
          assert s'.callAble[k1].id < s.nextTarget;
        }
      }
    }
  }

  /** Two different functions never share a call target. */
  lemma {:induction false} DistinctFunctionsDistinctTargets(i: nat, j: nat, s: PState)
    requires CacheInv(s) && i < |s.functions| && j < |s.functions| && i != j
    ensures CallTargetFor(i, s).0 != CallTargetFor(j, CallTargetFor(i, s).1).0
  {
    var (t1, s1) := CallTargetFor(i, s);
    CallTargetLookup(i, s);
    CallTargetKeepsCacheInv(i, s);
    CallTargetLookup(j, s1);
    if j !in s1.callAble {
      assert t1.id < s1.nextTarget;
    }
  }

  // ---------------------------------------------------------------------
  // callFunction

  /** A failure in the actual parameters is the failure of the call. */
  lemma {:induction false} CallArgumentsFail(name: string, s: PState)
    requires ActPars(s).Err?
    ensures CallFunction(name, s) == Err(ActPars(s).failure, ActPars(s).st)
  {
  }

  /** Calling a function nobody declared fails with "Function does not exists"
      once the actual parameters are parsed, and creates no call target. */
  lemma {:induction false} CallUnknownFunction(name: string, s: PState, args: seq<ExprNode>, s1: PState)
    requires ActPars(s) == Ok(args, s1)
    requires forall j :: 0 <= j < |s1.functions| ==> s1.functions[j].name != name
    ensures CallFunction(name, s) == Err(Error("Function does not exists"), s1)
  {
    UndeclaredNotFound(s1.functions, name);
  }

  /** A call invokes the first declared function of that name, with the parsed
      arguments and that function's return type, through its cached call
      target or, on the first call, a freshly created one. */
  lemma {:induction false} CallResolvesFirstDeclared(name: string, s: PState, args: seq<ExprNode>, s1: PState, i: nat)
    requires ActPars(s) == Ok(args, s1)
    requires i < |s1.functions| && s1.functions[i].name == name
    requires forall j :: 0 <= j < i ==> s1.functions[j].name != name
    ensures CallFunction(name, s).Ok?
    ensures CallFunction(name, s).value ==
            Invoke(if i in s1.callAble then s1.callAble[i] else CallTarget(s1.nextTarget), args, s1.functions[i].returnType)
    ensures i in CallFunction(name, s).st.callAble
  {
    FirstDeclarationWins(s1.functions, name, i);
    CallTargetLookup(i, s1);
  }

  // ---------------------------------------------------------------------
  // Method declarations

  lemma {:induction false} KeepsRegistry(s: PState, s': PState)
    requires Within(s, s')
    ensures s'.functions == s.functions
  {
  }

  lemma {:induction false} BodyOfLast(fs: seq<FunctionDecl>, f: FunctionDecl, body: StmtNode)
    ensures (fs + [f])[|fs| := (fs + [f])[|fs|].(body := body)] == fs + [f.(body := body)]
  {
    assert (fs + [f])[|fs| := (fs + [f])[|fs|].(body := body)] == fs + [f.(body := body)];
  }

  /** A method declaration appends exactly one entry to the registry: the
      method's name, the block parsed as its body and its return type. The
      entry is in the registry while the body is parsed (with no body yet),
      so the body can call the method itself. */
  lemma {:induction false} MethodDeclAppends(s: PState, returnType: Option<string>, name: string, s1: PState,
                                             body: StmtNode, s3: PState)
    requires MethodHeader(s) == Ok((returnType, name), s1)
    requires Block(Register(s1, name, returnType)) == Ok(body, s3)
    ensures MethodDecl(s) == Ok((), s3.(functions := s.functions + [FunctionDecl(name, body, returnType)]))
  {
    KeepsRegistry(s, s1);
    KeepsRegistry(Register(s1, name, returnType), s3);
    BodyOfLast(s.functions, FunctionDecl(name, NoStmt, returnType), body);
  }

  /** While its body is parsed, a method's name resolves: in every state the
      body's parse reaches from the state in which the method is registered,
      the name is found, at the method's own entry or at an earlier function
      of the same name. */
  lemma {:induction false} BodySeesItsOwnName(s: PState, returnType: Option<string>, name: string, s1: PState, s3: PState)
    requires MethodHeader(s) == Ok((returnType, name), s1)
    requires Within(Register(s1, name, returnType), s3)
    ensures FindFunction(s3.functions, name).Some?
    ensures FindFunction(s3.functions, name).value <= |s.functions|
  {
    KeepsRegistry(s, s1);
    KeepsRegistry(Register(s1, name, returnType), s3);
    RegisterKeepsLookup(s1, name, returnType, name);
  }

  /** So a call of the method inside its own body never fails with the
      unknown-function error: once its actual parameters are parsed, it
      resolves and yields an invocation node. */
  lemma {:induction false} RecursiveCallResolves(s: PState, returnType: Option<string>, name: string, s1: PState,
                                                 s4: PState, args: seq<ExprNode>, s5: PState)
    requires MethodHeader(s) == Ok((returnType, name), s1)
    requires Within(Register(s1, name, returnType), s4)
    requires ActPars(s4) == Ok(args, s5)
    ensures CallFunction(name, s4).Ok? && CallFunction(name, s4).value.Invoke?
  {
    BodySeesItsOwnName(s, returnType, name, s1, s4);
    KeepsRegistry(s4, s5);
    var i := FindFunction(s5.functions, name).value;
    CallResolvesFirstDeclared(name, s4, args, s5, i);
  }

  /** A successful method declaration parsed its block from the state in
      which the method is already registered (under its name, so the block
      can call it), and the entry it leaves carries that block. */
  lemma {:induction false} MethodDeclParsesRegisteredBody(s: PState)
    requires MethodDecl(s).Ok?
    ensures MethodHeader(s).Ok?
    ensures var s2 := Register(MethodHeader(s).st, MethodHeader(s).value.1, MethodHeader(s).value.0);
            Block(s2).Ok? && FindFunction(s2.functions, MethodHeader(s).value.1).Some? &&
            MethodDecl(s).st.functions ==
              s.functions + [FunctionDecl(MethodHeader(s).value.1, Block(s2).value, MethodHeader(s).value.0)]
  {
    var h := MethodHeader(s);
    var s2 := Register(h.st, h.value.1, h.value.0);
    var b := Block(s2);
    MethodDeclAppends(s, h.value.0, h.value.1, h.st, b.value, b.st);
    RegisterKeepsLookup(h.st, h.value.1, h.value.0, h.value.1);
  }

  /** After a successful method declaration its registry entry carries a block. */
  lemma {:induction false} MethodDeclAddsBlock(s: PState)
    requires MethodDecl(s).Ok?
    ensures exists f: FunctionDecl :: f.body.BlockNode? && MethodDecl(s).st.functions == s.functions + [f]
  {
    var h := MethodHeader(s);
    var b := Block(Register(h.st, h.value.1, h.value.0));
    MethodDeclAppends(s, h.value.0, h.value.1, h.st, b.value, b.st);
    var f := FunctionDecl(h.value.1, b.value, h.value.0);
    assert MethodDecl(s).st.functions == s.functions + [f];
  }

  /** Every function the method list declares gets a block as its body. */
  lemma {:induction false} MethodDeclsAttachBodies(s: PState)
    requires forall f :: f in s.functions ==> f.body.BlockNode?
    requires MethodDecls(s).Ok?
    ensures forall f :: f in MethodDecls(s).st.functions ==> f.body.BlockNode?
    decreases Remaining(s)
  {
    if s.la.kind == Rbrace || s.la.kind == Eof {
    } else {
      var s1 := MethodDecl(s).st;
      MethodDeclAddsBlock(s);
      var f: FunctionDecl :| f.body.BlockNode? && s1.functions == s.functions + [f];
      MethodDeclsAttachBodies(s1);
    }
  }

  /** A token that can neither start a method nor close the method list
      leaves the method loop without progress. */
  lemma {:induction false} MethodListStalls(s: PState)
    requires s.la.kind !in {Rbrace, Eof, Void, Ident}
    ensures MethodDecls(s) == Err(Diverges, s)
  {
  }

  /** A successful parse ends having consumed the end-of-input token. */
  lemma {:induction false} ParseEndsAtEof(tokens: seq<Token>, types: set<string>)
    requires Parse(tokens, types).Ok?
    ensures Parse(tokens, types).st.t.kind == Eof
  {
    var s1 := Grammar.Program(Scan(Initial(tokens, types))).st;
    assert Parse(tokens, types) == Check(Eof, s1);
  }
}
