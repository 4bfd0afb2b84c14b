# MicroJava parser and variable nodes, modelled in Dafny

This project models three parts of the MicroJava Truffle interpreter.

1. **The recursive-descent parser** (`RecursiveDescentParser`). It reads a token stream with one token of lookahead (`t`, `la`, `sym`). It builds executable node trees directly, keeps a registry of declared functions, and keeps a cache of one call target per called function (`callAble`).
   - `Grammar` (grammar.dfy) states every production as a function of the parser state.
   - `Parser.RecursiveDescentParser` (parser.dfy) is the parser object: fields updated in place, one method per production, and the production's loops as `while` loops.
   - Every parser method is proved to return exactly what the `Grammar` production computes and to leave the parser in exactly the state it computes.
   - The properties of the productions are proved in five modules:
     - `Reading`: how a state looks ahead and advances, and `Spells`: the coming tokens read as a given list, matching each token's kind and, for numbers, character constants and identifiers, the value or text the parser takes from it;
     - `ExprProps`: expressions;
     - `CondProps`: conditions;
     - `StmtProps`: statements;
     - `RegistryProps`: the function registry and the call-target cache.
2. **The write-local-variable node** (`MJWriteLocalVariableNodeGen`). Its 4-bit `state` has one bit per specialization (int, char, long, Object). The bits are turned on as values of new kinds arrive. The state selects the int fast path or the generic path, and the node's reported cost. The read-local-variable node is modelled beside it (`VariableNodes`, variable_nodes.dfy).
3. **The parameter-read node** (`MJReadParameterNode`). It stores its position plus one and reads that entry of the frame's argument array (`ParameterNode`, parameter_node.dfy).

The remaining modules hold shared definitions:
- `Syntax` (syntax.dfy): tokens, node trees, context calls, parse errors.
- `Runtime` (runtime.dfy): boxed Java values, the frame, outcomes and exceptions.

The parser works with collaborators whose code is not part of this model. They are represented as follows:
- **Scanner:** a token sequence and a cursor. Once the sequence is exhausted it returns the end-of-input token.
- **Type table:** a set of type names.
- **Function context:** a trace of the calls the parser makes on it (`stepInFunction`, `stepInBlock`, `stepOutBlock`, `createLocalVar`, `createParameter`, `createGlobalConstant`, `createConstLocalVarAndWrite`). Its `readVariable` and `writeVariable` become the symbolic nodes `ReadVar` and `WriteVar`.
- **`throw new Error(...)`:** a failure outcome.
- **Hanging method loop:** the loop in `Program` spins forever on a token that can neither start a method nor close the program. It becomes the failure `Diverges`.
- **Call-target cache:** keyed by the function's registry index, which stands for the `MJFunction` object.
- **`createCallTarget`:** hands out call targets with fresh identities.

Where the code and its own grammar comments disagree, the model follows the code:
- `CondFact` is documented as `Expr Relop Expr`. The code makes the relational operator optional and always consumes the token after the first expression, whatever it is. So in `if ( x ) stmt` with no comparison, the `)` is consumed as that token and the statement fails expecting `)` (`CondProps.IfWithoutComparisonFails`).
- The parenthesised expression, `new` and `abs` factors are parsed but give Java `null` (`NoExpr`).
- The empty statement gives `null` (`NoStmt`).
- The print width is checked and dropped.
- The local-declaration test looks up `la.str`, the identifier itself, in the type table.

## Model

Source paths are relative to the repository root.

| member | source | states |
|---|---|---|
| Parser.RecursiveDescentParser.constructor | code/org.truffle.cs.mj/src/org/truffle/cs/mj/parser/RecursiveDescentParser.java:92-100 | a new parser is in the initial state: scanner at the start, the lookahead a placeholder, no functions, no call targets, nothing traced |
| Grammar.Scan | code/org.truffle.cs.mj/src/org/truffle/cs/mj/parser/RecursiveDescentParser.java:106-111 | the lookahead becomes the last token and the next scanner token becomes the lookahead; the input, type table and registry are untouched |
| Parser.RecursiveDescentParser.Scan | code/org.truffle.cs.mj/src/org/truffle/cs/mj/parser/RecursiveDescentParser.java:106-111 | updates `t`, `la`, `sym` in place exactly as `Grammar.Scan`, keeps `sym == la.kind`, returns the kind of the token just recognized |
| StmtProps.CheckAdvancesIff | code/org.truffle.cs.mj/src/org/truffle/cs/mj/parser/RecursiveDescentParser.java:114-120 | `check(k)` succeeds iff the lookahead is a `k`; then it consumes exactly one token (the lookahead becomes `t`); otherwise it fails with `Expected(k)` and consumes nothing |
| Parser.RecursiveDescentParser.Check | code/org.truffle.cs.mj/src/org/truffle/cs/mj/parser/RecursiveDescentParser.java:114-120 | returns and updates the parser state exactly as `Grammar.Check` |
| Parser.RecursiveDescentParser.Program | code/org.truffle.cs.mj/src/org/truffle/cs/mj/parser/RecursiveDescentParser.java:128-151 | both loops (global declarations, method declarations) compute `Grammar.Program`; the method loop stops with `Diverges` where Java would spin |
| RegistryProps.MethodListStalls | code/org.truffle.cs.mj/src/org/truffle/cs/mj/parser/RecursiveDescentParser.java:143-149 | on a token other than `}`, end of input, `void` or an identifier the method loop makes no progress |
| Parser.RecursiveDescentParser.ConstExprDecl | code/org.truffle.cs.mj/src/org/truffle/cs/mj/parser/RecursiveDescentParser.java:154-170 | computes `Grammar.ConstExprDecl`: a number or character constant is recorded as a global constant, anything else fails |
| Parser.RecursiveDescentParser.ConstDecl | code/org.truffle.cs.mj/src/org/truffle/cs/mj/parser/RecursiveDescentParser.java:173-182 | computes `Grammar.ConstDecl`: a constant local initialised with the expression |
| Parser.RecursiveDescentParser.VarDecl | code/org.truffle.cs.mj/src/org/truffle/cs/mj/parser/RecursiveDescentParser.java:185-195 | its loop over `, ident` computes `Grammar.VarDecl`, creating one local per name |
| StmtProps.VarDeclReads | code/org.truffle.cs.mj/src/org/truffle/cs/mj/parser/RecursiveDescentParser.java:185-195 | `T x ;` creates local `x` of type `T` on the context and consumes three tokens |
| Parser.RecursiveDescentParser.ClassDecl | code/org.truffle.cs.mj/src/org/truffle/cs/mj/parser/RecursiveDescentParser.java:198-206 | computes `Grammar.ClassDecl` |
| Grammar.FindFunction | code/org.truffle.cs.mj/src/org/truffle/cs/mj/parser/RecursiveDescentParser.java:212-218 | the index of a function with that name with no earlier one of that name, or None when no function has it |
| Parser.RecursiveDescentParser.GetFunction | code/org.truffle.cs.mj/src/org/truffle/cs/mj/parser/RecursiveDescentParser.java:212-218 | the loop returns the first registered function of that name, or None iff there is none |
| Parser.RecursiveDescentParser.GetMain | code/org.truffle.cs.mj/src/org/truffle/cs/mj/parser/RecursiveDescentParser.java:220-226 | the loop returns the first registered function named `main` |
| RegistryProps.FirstDeclarationWins | code/org.truffle.cs.mj/src/org/truffle/cs/mj/parser/RecursiveDescentParser.java:212-218 | lookup yields exactly the first declaration of a name |
| RegistryProps.UndeclaredNotFound | code/org.truffle.cs.mj/src/org/truffle/cs/mj/parser/RecursiveDescentParser.java:212-218 | a name nobody declared gives None |
| RegistryProps.RegisterKeepsLookup | code/org.truffle.cs.mj/src/org/truffle/cs/mj/parser/RecursiveDescentParser.java:212-218 | registering a function leaves every already-declared name resolving where it did (a redeclared name is never found), and makes a new name resolve to the new entry |
| Parser.RecursiveDescentParser.CallFunction | code/org.truffle.cs.mj/src/org/truffle/cs/mj/parser/RecursiveDescentParser.java:228-239 | computes `Grammar.CallFunction`, updating the cache in place |
| Parser.RecursiveDescentParser.CallTargetFor | code/org.truffle.cs.mj/src/org/truffle/cs/mj/parser/RecursiveDescentParser.java:233-237 | computes `Grammar.CallTargetFor`, putting a created target in the cache |
| RegistryProps.CallArgumentsFail | code/org.truffle.cs.mj/src/org/truffle/cs/mj/parser/RecursiveDescentParser.java:228-229 | the actual parameters are parsed first: their failure is the call's failure |
| RegistryProps.CallUnknownFunction | code/org.truffle.cs.mj/src/org/truffle/cs/mj/parser/RecursiveDescentParser.java:228-232 | calling an undeclared name fails with "Function does not exists" after the arguments, with no call target created |
| RegistryProps.CallResolvesFirstDeclared | code/org.truffle.cs.mj/src/org/truffle/cs/mj/parser/RecursiveDescentParser.java:228-239 | a call invokes the first declared function of the name, with the parsed arguments and its return type, through the cached target or a fresh one, which is then cached |
| RegistryProps.CallTargetLookup | code/org.truffle.cs.mj/src/org/truffle/cs/mj/parser/RecursiveDescentParser.java:233-237 | a hit returns the cached target and changes nothing; a miss creates the target with the next identity and caches it; no other entry changes |
| RegistryProps.CallTargetStable | code/org.truffle.cs.mj/src/org/truffle/cs/mj/parser/RecursiveDescentParser.java:233-237 | asking again for the same function's target returns the same target and changes nothing |
| RegistryProps.CallTargetKeepsCacheInv | code/org.truffle.cs.mj/src/org/truffle/cs/mj/parser/RecursiveDescentParser.java:233-237 | every cached target belongs to a registered function, is older than the next identity, and no two functions share one; the cache update keeps this |
| RegistryProps.DistinctFunctionsDistinctTargets | code/org.truffle.cs.mj/src/org/truffle/cs/mj/parser/RecursiveDescentParser.java:233-237 | two different functions never receive the same call target |
| Grammar.Parse | code/org.truffle.cs.mj/src/org/truffle/cs/mj/parser/RecursiveDescentParser.java:664-669 | after any parse, successful or not, the call-target cache invariant holds |
| Grammar.MethodDecl | code/org.truffle.cs.mj/src/org/truffle/cs/mj/parser/RecursiveDescentParser.java:246-268 | a successful method declaration adds exactly one registry entry and keeps all earlier ones |
| Parser.RecursiveDescentParser.MethodDecl | code/org.truffle.cs.mj/src/org/truffle/cs/mj/parser/RecursiveDescentParser.java:246-268 | registers the function, parses the body, then attaches it, as `Grammar.MethodDecl` |
| Parser.RecursiveDescentParser.Register | code/org.truffle.cs.mj/src/org/truffle/cs/mj/parser/RecursiveDescentParser.java:266 | appends the function, with no body yet, to the registry |
| Parser.RecursiveDescentParser.ChangeBody | code/org.truffle.cs.mj/src/org/truffle/cs/mj/parser/RecursiveDescentParser.java:267 | replaces the body of one registry entry and nothing else |
| RegistryProps.MethodDeclAppends | code/org.truffle.cs.mj/src/org/truffle/cs/mj/parser/RecursiveDescentParser.java:246-268 | the registry afterwards is the old one plus the entry (name, parsed block, return type) |
| RegistryProps.BodySeesItsOwnName | code/org.truffle.cs.mj/src/org/truffle/cs/mj/parser/RecursiveDescentParser.java:264-267 | in every state reached by parsing from the point where the method is registered, its name resolves, to its own entry or an earlier function of that name |
| RegistryProps.RecursiveCallResolves | code/org.truffle.cs.mj/src/org/truffle/cs/mj/parser/RecursiveDescentParser.java:228-239 | a call of the method inside its own body never fails with "Function does not exists": once its arguments parse it yields an invocation |
| RegistryProps.MethodDeclParsesRegisteredBody | code/org.truffle.cs.mj/src/org/truffle/cs/mj/parser/RecursiveDescentParser.java:246-268 | a successful declaration parsed its block from the state in which the method is registered under its name, and the appended entry carries that block |
| RegistryProps.MethodDeclAddsBlock | code/org.truffle.cs.mj/src/org/truffle/cs/mj/parser/RecursiveDescentParser.java:246-268 | a successful declaration appends one entry whose body is a block |
| RegistryProps.MethodDeclsAttachBodies | code/org.truffle.cs.mj/src/org/truffle/cs/mj/parser/RecursiveDescentParser.java:143-149 | after the method list every registered function has a block as its body |
| RegistryProps.ParseEndsAtEof | code/org.truffle.cs.mj/src/org/truffle/cs/mj/parser/RecursiveDescentParser.java:664-669 | a successful parse ends having consumed the end-of-input token |
| Parser.RecursiveDescentParser.Parse | code/org.truffle.cs.mj/src/org/truffle/cs/mj/parser/RecursiveDescentParser.java:664-669 | scans the first token, parses the program, checks end of input, as `Grammar.ParseFrom` |
| Parser.RecursiveDescentParser.FormPars | code/org.truffle.cs.mj/src/org/truffle/cs/mj/parser/RecursiveDescentParser.java:271-281 | computes `Grammar.FormPars`, creating one parameter per `Type ident` |
| Parser.RecursiveDescentParser.Type | code/org.truffle.cs.mj/src/org/truffle/cs/mj/parser/RecursiveDescentParser.java:284-291 | computes `Grammar.Type`: the identifier's text |
| Grammar.Block | code/org.truffle.cs.mj/src/org/truffle/cs/mj/parser/RecursiveDescentParser.java:294-302 | a parsed block is a block node and leaves the registry as it was |
| Parser.RecursiveDescentParser.Block | code/org.truffle.cs.mj/src/org/truffle/cs/mj/parser/RecursiveDescentParser.java:294-302 | computes `Grammar.Block`, bracketed by `stepInBlock`/`stepOutBlock` |
| Parser.RecursiveDescentParser.Statements | code/org.truffle.cs.mj/src/org/truffle/cs/mj/parser/RecursiveDescentParser.java:304-314 | the loop collects statements while the lookahead can start one, as `Grammar.Statements` |
| Parser.RecursiveDescentParser.Statement | code/org.truffle.cs.mj/src/org/truffle/cs/mj/parser/RecursiveDescentParser.java:328-477 | the statement switch computes `Grammar.Statement` |
| StmtProps.LocalDeclarationParses | code/org.truffle.cs.mj/src/org/truffle/cs/mj/parser/RecursiveDescentParser.java:335-346 | `T x1 , … , xn ;` in a body, with `T` a known type, creates the locals `x1` … `xn` of type `T` in that order, yields the no-op statement and ends after the `;` |
| StmtProps.DesignatorStatementClosed | code/org.truffle.cs.mj/src/org/truffle/cs/mj/parser/RecursiveDescentParser.java:346-393 | an identifier statement is the designator, what follows it, and a `;` |
| StmtProps.AssignmentStatement | code/org.truffle.cs.mj/src/org/truffle/cs/mj/parser/RecursiveDescentParser.java:348-376 | `d op e ;` for any expression `e`, whatever state its parse leaves (call targets it creates included), yields the assignment node and ends right after the `;` |
| StmtProps.AssignmentParses | code/org.truffle.cs.mj/src/org/truffle/cs/mj/parser/RecursiveDescentParser.java:348-351 | `d = e ;` becomes `writeVariable(d, e)`, for any expression `e` and whatever state its parse leaves |
| StmtProps.CompoundAssignmentParses | code/org.truffle.cs.mj/src/org/truffle/cs/mj/parser/RecursiveDescentParser.java:352-376 | `d op= e ;` becomes `writeVariable(d, Op(readVariable(d), e))`, for any expression `e` and whatever state its parse leaves |
| StmtProps.CompoundAssignmentOperators | code/org.truffle.cs.mj/src/org/truffle/cs/mj/parser/RecursiveDescentParser.java:352-376 | `d += e ;`, `-=`, `*=`, `/=`, `%=` write `d + e`, `d - e`, `d * e`, `d / e`, `d % e` to `d`, for any expression `e` |
| StmtProps.IncrementParses | code/org.truffle.cs.mj/src/org/truffle/cs/mj/parser/RecursiveDescentParser.java:380-384 | `d ++ ;` becomes `writeVariable(d, Add(readVariable(d), 1))` |
| StmtProps.DecrementParses | code/org.truffle.cs.mj/src/org/truffle/cs/mj/parser/RecursiveDescentParser.java:385-389 | `d -- ;` becomes `writeVariable(d, Subtract(readVariable(d), 1))` |
| StmtProps.PrintDropsWidth | code/org.truffle.cs.mj/src/org/truffle/cs/mj/parser/RecursiveDescentParser.java:455-466 | `print ( e , w ) ;` is the print node of `e`, for any expression, whatever state its parse leaves, and ends after the `;`; the width is checked and dropped |
| StmtProps.PrintTailChecks | code/org.truffle.cs.mj/src/org/truffle/cs/mj/parser/RecursiveDescentParser.java:459-464 | after the expression, `,`, a number, `)` and `;` are each checked and consumed one token at a time |
| StmtProps.EmptyStatementYieldsNothing | code/org.truffle.cs.mj/src/org/truffle/cs/mj/parser/RecursiveDescentParser.java:470-472 | `;` consumes its token and yields no node |
| Parser.RecursiveDescentParser.ActPars | code/org.truffle.cs.mj/src/org/truffle/cs/mj/parser/RecursiveDescentParser.java:480-495 | its loop collects the comma-separated arguments, as `Grammar.ActPars` |
| Parser.RecursiveDescentParser.Condition | code/org.truffle.cs.mj/src/org/truffle/cs/mj/parser/RecursiveDescentParser.java:498-505 | the `||` loop computes `Grammar.Condition` |
| Parser.RecursiveDescentParser.CondTerm | code/org.truffle.cs.mj/src/org/truffle/cs/mj/parser/RecursiveDescentParser.java:508-516 | the `&&` loop computes `Grammar.CondTerm` |
| Parser.RecursiveDescentParser.CondFact | code/org.truffle.cs.mj/src/org/truffle/cs/mj/parser/RecursiveDescentParser.java:519-544 | computes `Grammar.CondFact` |
| CondProps.ComparisonSpelled | code/org.truffle.cs.mj/src/org/truffle/cs/mj/parser/RecursiveDescentParser.java:519-544 | the tokens of `l relop r`, for any two chains of numbers, character constants and plain variables and any relational operator, followed by a token that cannot continue an expression, parse to the relational node of that operator over the trees of both sides and end right after `r` |
| CondProps.FollowerSwallowedSpelled | code/org.truffle.cs.mj/src/org/truffle/cs/mj/parser/RecursiveDescentParser.java:519-544 | the tokens of a chain `l` of numbers, character constants and plain variables, followed by a token that is no relational operator and cannot continue an expression: the condition factor is `l` alone and that following token is consumed all the same (it becomes the last token read) |
| CondProps.IfBareConditionFails | code/org.truffle.cs.mj/src/org/truffle/cs/mj/parser/RecursiveDescentParser.java:399-403 | `if ( e )` followed by a statement, for any expression `e` without a relational operator: the condition consumes the `)` as the comparison's follower, so the statement fails expecting `)` on the first token of the inner statement (unless that token is `&&`, `\|\|` or `)`) |
| CondProps.IfWithoutComparisonFails | code/org.truffle.cs.mj/src/org/truffle/cs/mj/parser/RecursiveDescentParser.java:521 | the tokens of `if ( x ) g`, for any chain `x` of numbers, character constants and plain variables and any `g` other than `&&`, `\|\|` and `)`, make the statement fail expecting `)` with `g` as lookahead |
| CondProps.RelationalOperators | code/org.truffle.cs.mj/src/org/truffle/cs/mj/parser/RecursiveDescentParser.java:522-539 | each relational token maps to its node kind, injectively |
| CondProps.AndChainParses | code/org.truffle.cs.mj/src/org/truffle/cs/mj/parser/RecursiveDescentParser.java:510-513 | the `&&` loop joins any number of comparisons, each ending in whatever state its parse leaves, to the left and stops at the first token that is not `&&` |
| CondProps.OrChainParses | code/org.truffle.cs.mj/src/org/truffle/cs/mj/parser/RecursiveDescentParser.java:500-503 | the `||` loop joins any number of condition terms, each ending in whatever state its parse leaves, to the left and stops at the first token that is not `||` |
| CondProps.CondTermParses | code/org.truffle.cs.mj/src/org/truffle/cs/mj/parser/RecursiveDescentParser.java:508-516 | a condition term is its comparisons joined by Conjunction, grouped to the left |
| CondProps.ConditionParses | code/org.truffle.cs.mj/src/org/truffle/cs/mj/parser/RecursiveDescentParser.java:498-505 | a condition is its terms joined by Disjunction, grouped to the left |
| CondProps.LeftChainCons | code/org.truffle.cs.mj/src/org/truffle/cs/mj/parser/RecursiveDescentParser.java:500-503 | folding one more operand into the accumulator is the same left chain with that operand first |
| CondProps.AndBindsTighterOnTheLeft | code/org.truffle.cs.mj/src/org/truffle/cs/mj/parser/RecursiveDescentParser.java:498-516 | `a && b \|\| c` is `(a && b) \|\| c`, for any three comparisons |
| CondProps.AndBindsTighterOnTheRight | code/org.truffle.cs.mj/src/org/truffle/cs/mj/parser/RecursiveDescentParser.java:498-516 | `a \|\| b && c` is `a \|\| (b && c)`, for any three comparisons |
| Parser.RecursiveDescentParser.Expr | code/org.truffle.cs.mj/src/org/truffle/cs/mj/parser/RecursiveDescentParser.java:547-569 | the `+`/`-` loop computes `Grammar.Expr` |
| ExprProps.ExprParses | code/org.truffle.cs.mj/src/org/truffle/cs/mj/parser/RecursiveDescentParser.java:547-591 | the tokens of any chain of numbers, character constants and plain variables joined by `+ - * / %`, with an optional leading `-`, parse to the tree it denotes: `* / %` bind tighter than `+ -`, both group to the left, a leading `-` multiplies the first term alone by -1 |
| ExprProps.TermParses | code/org.truffle.cs.mj/src/org/truffle/cs/mj/parser/RecursiveDescentParser.java:572-591 | a multiplicative chain parses to its left-grouped tree |
| ExprProps.NegationAndPrecedence | code/org.truffle.cs.mj/src/org/truffle/cs/mj/parser/RecursiveDescentParser.java:547-569 | `- a + b * c` is `(-1 * a) + (b * c)` |
| ExprProps.SubtractionGroupsLeft | code/org.truffle.cs.mj/src/org/truffle/cs/mj/parser/RecursiveDescentParser.java:558-567 | `a - b - c` is `(a - b) - c` |
| Parser.RecursiveDescentParser.Term | code/org.truffle.cs.mj/src/org/truffle/cs/mj/parser/RecursiveDescentParser.java:572-591 | the `* / %` loop computes `Grammar.Term` |
| Parser.RecursiveDescentParser.Factor | code/org.truffle.cs.mj/src/org/truffle/cs/mj/parser/RecursiveDescentParser.java:601-644 | the factor switch computes `Grammar.Factor` |
| Syntax.CharOf | code/org.truffle.cs.mj/src/org/truffle/cs/mj/parser/RecursiveDescentParser.java:622-625 | `(char)` of the token value: the value itself when it fits in 16 bits, and in general a value congruent to it modulo 2^16 |
| Grammar.AbsRest | code/org.truffle.cs.mj/src/org/truffle/cs/mj/parser/RecursiveDescentParser.java:604-609 | `abs ( e )` is parsed but gives no node |
| Grammar.NewRest | code/org.truffle.cs.mj/src/org/truffle/cs/mj/parser/RecursiveDescentParser.java:626-634 | `new T [ e ]` is parsed but gives no node |
| Grammar.ParenRest | code/org.truffle.cs.mj/src/org/truffle/cs/mj/parser/RecursiveDescentParser.java:635-639 | `( e )` is parsed but gives no node |
| StmtProps.UnbuiltFactors | code/org.truffle.cs.mj/src/org/truffle/cs/mj/parser/RecursiveDescentParser.java:601-644 | a factor starting with `(`, `new` or `abs` never yields a node |
| Parser.RecursiveDescentParser.Designator | code/org.truffle.cs.mj/src/org/truffle/cs/mj/parser/RecursiveDescentParser.java:647-662 | computes `Grammar.Designator` |
| StmtProps.DesignatorIff | code/org.truffle.cs.mj/src/org/truffle/cs/mj/parser/RecursiveDescentParser.java:647-662 | the designator succeeds iff an identifier is followed by neither `.` nor `[`, and then yields the identifier's text |
| VariableNodes.FastPath | code/org.truffle.cs.mj/src_gen/org/truffle/cs/mj/nodes/MJVariableNodeFactory.java:77 | the fast-path test `(state & 0b1110) == 0 && state != 0` holds iff the state is exactly the int bit |
| VariableNodes.GenericMatch | code/org.truffle.cs.mj/src_gen/org/truffle/cs/mj/nodes/MJVariableNodeFactory.java:90-106 | the generic path takes an active specialization for the value's own kind or Object; it prefers the value's own kind to Object; it finds none iff neither bit is on |
| VariableNodes.PathOf | code/org.truffle.cs.mj/src_gen/org/truffle/cs/mj/nodes/MJVariableNodeFactory.java:75-109 | the fast path (taken or failing on a non-int) is used iff the state is the int bit alone; a specialization always adds the value's kind |
| VariableNodes.NextState | code/org.truffle.cs.mj/src_gen/org/truffle/cs/mj/nodes/MJVariableNodeFactory.java:111-130 | an execution keeps every bit and adds at most the bit of the value's kind, and only when that bit was off |
| VariableNodes.SpecializingAddsOneBit | code/org.truffle.cs.mj/src_gen/org/truffle/cs/mj/nodes/MJVariableNodeFactory.java:111-130 | a specialization turns on exactly one bit that was off |
| VariableNodes.NextStateIdempotent | code/org.truffle.cs.mj/src_gen/org/truffle/cs/mj/nodes/MJVariableNodeFactory.java:90-130 | the value that made the node specialize is accepted next time, so a second execution with it changes nothing |
| VariableNodes.ObjectBitFixesState | code/org.truffle.cs.mj/src_gen/org/truffle/cs/mj/nodes/MJVariableNodeFactory.java:104-105 | with the Object bit on, every value is accepted and the state never changes again |
| VariableNodes.NullIsAnObject | code/org.truffle.cs.mj/src_gen/org/truffle/cs/mj/nodes/MJVariableNodeFactory.java:84-130 | `null` matches no `instanceof`: on the generic path it takes (or adds) the Object bit; on the fast path its int cast fails and the state is kept |
| VariableNodes.RunOnlyGainsBits | code/org.truffle.cs.mj/src_gen/org/truffle/cs/mj/nodes/MJVariableNodeFactory.java:111-130 | over any sequence of executions the state only gains bits, the number of specializations is the number of bits gained, and so at most four |
| VariableNodes.WriteLocalVariableNode.constructor | code/org.truffle.cs.mj/src_gen/org/truffle/cs/mj/nodes/MJVariableNodeFactory.java:60-72 | a new node has its slot and no active specialization; the slot is a constant, so `getSlot` always returns the slot given at creation |
| VariableNodes.WriteLocalVariableNode.GetCost | code/org.truffle.cs.mj/src_gen/org/truffle/cs/mj/nodes/MJVariableNodeFactory.java:132-141 | UNINITIALIZED iff no bit, MONOMORPHIC iff exactly one bit, POLYMORPHIC iff two or more |
| VariableNodes.WriteLocalVariableNode.Execute | code/org.truffle.cs.mj/src_gen/org/truffle/cs/mj/nodes/MJVariableNodeFactory.java:74-82 | the new state is `NextState`; the value, `null` included, is written to the slot and returned, and a read node of the slot then yields it; if the fast path's int cast fails (NullPointerException on `null`, ClassCastException on another box) no slot changes |
| VariableNodes.WriteLocalVariableNode.ExecuteInt0 | code/org.truffle.cs.mj/src_gen/org/truffle/cs/mj/nodes/MJVariableNodeFactory.java:84-88 | an Integer is written and returned; `null` throws NullPointerException and any other box ClassCastException, with no write |
| VariableNodes.WriteLocalVariableNode.ExecuteGeneric1 | code/org.truffle.cs.mj/src_gen/org/truffle/cs/mj/nodes/MJVariableNodeFactory.java:90-109 | with an accepting active specialization the state is unchanged; otherwise the value's kind bit is added; the value is written either way |
| VariableNodes.WriteLocalVariableNode.ExecuteAndSpecialize | code/org.truffle.cs.mj/src_gen/org/truffle/cs/mj/nodes/MJVariableNodeFactory.java:111-130 | turns on the bit for the value's kind (int, char, long, else Object) and writes the value |
| VariableNodes.ReadLocalVariableNode.ExecuteGeneric | code/org.truffle.cs.mj/src_gen/org/truffle/cs/mj/nodes/MJVariableNodeFactory.java:32-35 | the slot's value; null iff the slot was never written or holds null |
| VariableNodes.ReadLocalVariableNode.ExecuteI32 | code/org.truffle.cs.mj/src_gen/org/truffle/cs/mj/nodes/MJVariableNodeFactory.java:42-45 | succeeds iff the slot holds an Integer, and then returns it; throws NullPointerException iff it reads null |
| VariableNodes.ReadLocalVariableNode.ExecuteBool | code/org.truffle.cs.mj/src_gen/org/truffle/cs/mj/nodes/MJVariableNodeFactory.java:37-40 | succeeds iff the slot holds a Boolean, and then returns it; throws NullPointerException iff it reads null |
| VariableNodes.ReadLocalVariableNode.GetCost | code/org.truffle.cs.mj/src_gen/org/truffle/cs/mj/nodes/MJVariableNodeFactory.java:47-50 | a read node always reports MONOMORPHIC |
| Runtime.CastToInt | code/org.truffle.cs.mj/src_gen/org/truffle/cs/mj/nodes/MJVariableNodeFactory.java:44 | `(int)` succeeds exactly on an Integer box; null throws NullPointerException |
| Runtime.CastToBool | code/org.truffle.cs.mj/src_gen/org/truffle/cs/mj/nodes/MJVariableNodeFactory.java:39 | `(boolean)` succeeds exactly on a Boolean box; null throws NullPointerException |
| ParameterNode.Increment | code/org.truffle.cs.mj/src/org/truffle/cs/mj/nodes/MJReadParameterNode.java:19 | `index + 1` on a Java `int`: one more, wrapping at the largest `int` |
| ParameterNode.NewReadParameterNode | code/org.truffle.cs.mj/src/org/truffle/cs/mj/nodes/MJReadParameterNode.java:13-21 | the stored index is the argument plus one and `getType` returns exactly the descriptor given |
| ParameterNode.ReadParameterNode.ExecuteGeneric | code/org.truffle.cs.mj/src/org/truffle/cs/mj/nodes/MJReadParameterNode.java:23-27 | returns the argument at the stored index; throws IndexOutOfBounds iff the index is outside the array |
| ParameterNode.ReadsNextArgument | code/org.truffle.cs.mj/src/org/truffle/cs/mj/nodes/MJReadParameterNode.java:18-27 | the node for parameter `i` reads argument `i + 1` and fails iff the array has no more than `i + 1` entries |
| ParameterNode.FirstArgumentNeverRead | code/org.truffle.cs.mj/src/org/truffle/cs/mj/nodes/MJReadParameterNode.java:18-27 | no node built for a position from 0 upwards reads argument 0; position 2^31-1 wraps and always fails |

Reading a parameter cannot change the frame's arguments. `ExecuteGeneric` is a function, and `Frame.arguments` is a constant.

## Left out

- Truffle runtime machinery is not modelled:
  - `createCallTarget` becomes fresh identities;
  - `VirtualFrame` becomes a class with a constant argument sequence and a slot map;
  - `FrameSlot` becomes a natural number;
  - `transferToInterpreterAndInvalidate` and the `@Child`/`@CompilationFinal` annotations have no effect on behaviour.
- The scanner `RecursiveDescendScanner`, `MJFunctionContext` and `TypeTable` are not part of this model. They are represented as a token sequence, a trace of context calls and a set of type names.
  - `readVariable`/`writeVariable` are symbolic nodes. Their name resolution and the errors they may raise are not modelled.
  - The context's declaration calls (`createLocalVar`, `createParameter`, `createGlobalConstant`, `createConstLocalVarAndWrite`) and the type table's `getTypeDescriptor` are taken to succeed: they only append to the trace. Their errors are not modelled: duplicate names, the ceilings on the number of locals and constants, and unknown types. So `StmtProps.VarDeclReads` and `StmtProps.LocalDeclarationParses` hold even for a name already declared, where the program would throw.
  - The frame descriptors passed to blocks and functions are not modelled.
  - The type descriptor a function's return type resolves to becomes its name.
- The parser's `sym` field is modelled; the `firstExpr`/`firstStat`/`firstMethodDecl` sets are constants.
- Execution of the nodes the parser builds is not modelled, other than the two variable nodes and the parameter node: operators, loops, calls, print and read.
- The inherited `execute(frame, value)` of the write node is not shown. It is modelled as storing the value in the slot and returning it. The inherited `readVariable` of the read node is modelled as reading the slot, with null for a slot never written.
- The child expression of the write node is evaluated by the caller; the reference it yields (possibly `null`) is a parameter of `Execute`. Its `executeI32` is taken to be the int cast of that reference, so the fast path fails with NullPointerException on `null` and ClassCastException on another box. A child whose `executeI32` is specialized differently is not modelled.
- ExprProps.ExprParses, ExprProps.TermParses, CondProps.ComparisonSpelled, CondProps.FollowerSwallowedSpelled, CondProps.IfWithoutComparisonFails: their operands are numbers, character constants and plain variables. Function calls, parenthesised sub-expressions, `new` and `abs` are parsed by `Grammar.Factor` and `Parser.RecursiveDescentParser.Factor` but are not covered by these lemmas.
- The `System.out.println` of the parameter node is console output and is left out.
- `ConstantIntDescriptor` is a constructor of `TypeDescriptor`; other descriptors are known by name.
- Integer literals in tokens and nodes are unbounded integers. `(char)` casts keep the low 16 bits. The model does not reproduce 32-bit wrap-around of token values.
- StmtProps.AssignmentStatement, StmtProps.AssignmentParses, StmtProps.CompoundAssignmentParses, StmtProps.DesignatorStatementClosed: these state each statement form for any expression that parses. They are not stated over a full token spelling of the statement. `ExprParses` supplies that premise for concrete expressions.
- CondProps.AndBindsTighterOnTheLeft, CondProps.AndBindsTighterOnTheRight: these state precedence for three operands. The chain lemmas give any number of operands, with precedence following from the separate `&&` and `||` loops.
- Print without a width (`print ( e ) ;`), `if`, `while`, `break`, `continue`, `return` and `read` are modelled in `Grammar` and `Parser`. There are no separate lemmas about the nodes they build.
- Parser.RecursiveDescentParser.Program: the method loop's endless spin is modelled as the failure `Diverges` rather than non-termination.
