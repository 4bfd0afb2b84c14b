/**
 * Conditions as the parser reads them. A comparison is an expression, a
 * relational operator and another expression; comparisons joined by "&&"
 * form a condition term, condition terms joined by "||" a condition. The
 * lemmas are stated for any operands: each operand is given by what the
 * parser reads it to and the parser state it ends in (a `Parsed`), so an
 * operand may do anything a parse may do, calls that create call targets
 * included, and the lemmas compose with the expression lemmas of ExprProps.
 * The tree a chain denotes is defined here on its own, with the last
 * operator at the root (left associativity).
 */
module CondProps {
  import opened Syntax
  import opened Grammar
  import opened Reading
  import opened ExprProps

  /** An operand read from the input: its node, and the state the parser
      is in once it has read it. */
  datatype Parsed = Parsed(value: ExprNode, end: PState)

  function Values(rs: seq<Parsed>): (vs: seq<ExprNode>)
    ensures |vs| == |rs|
    ensures forall i :: 0 <= i < |rs| ==> vs[i] == rs[i].value
  {
    if |rs| == 0 then [] else [rs[0].value] + Values(rs[1..])
  }

  /** Where a chain that starts in state `at` ends. */
  function EndOf(at: PState, rs: seq<Parsed>): PState {
    if |rs| == 0 then at else rs[|rs| - 1].end
  }

  /** `first op v1 op v2 ... op vn`, grouped to the left: the last operand
      is joined at the root. */
  function LeftChain(op: BinOp, first: ExprNode, vs: seq<ExprNode>): ExprNode
    decreases |vs|
  {
    if |vs| == 0 then first else Binary(op, LeftChain(op, first, vs[..|vs| - 1]), vs[|vs| - 1])
  }

  // ---------------------------------------------------------------------
  // Comparisons

  /** `l relop r` is the relational operator applied to both sides. */
  lemma {:induction false} ComparisonParses(s: PState, l: ExprNode, s1: PState, r: ExprNode, s3: PState)
    requires Expr(s) == Ok(l, s1)
    requires s1.la.kind in RelOps
    requires Expr(Scan(s1)) == Ok(r, s3)
    ensures CondFact(s) == Ok(Binary(RelOpOf(s1.la.kind), l, r), s3)
  {
  }

  /** Without a relational operator after the expression, the token that
      follows it is consumed all the same, whatever it is, and the
      expression alone is the condition. */
  lemma {:induction false} CondFactSwallowsFollower(s: PState, l: ExprNode, s1: PState)
    requires Expr(s) == Ok(l, s1)
    requires s1.la.kind !in RelOps
    ensures CondFact(s) == Ok(l, Scan(s1))
    ensures Scan(s1).t == s1.la
  {
  }

  /** A relational operator cannot continue an expression. */
  lemma {:induction false} RelOpEndsExpr(k: Kind)
    requires k in RelOps
    ensures EndsExpr(k)
  {
  }

  /** `l relop r` as written: for any two chains of numbers, character
      constants and variables, where `m` is the state after the operator and
      `e` the state after the right-hand side, the comparison node of the
      operator over the trees both sides denote, ending at `e`. */
  lemma {:induction false} ComparisonSpelled(s: PState, l: ExprSrc, k: Kind, r: ExprSrc, m: PState, e: PState)
    requires ExprWellFormed(l) && ExprWellFormed(r) && k in RelOps
    requires Spells(s, ExprTokens(l)) && Advance(s, |ExprTokens(l)|).la.kind == k
    requires m == Advance(s, |ExprTokens(l)| + 1) && Spells(m, ExprTokens(r))
    requires e == Advance(m, |ExprTokens(r)|) && EndsExpr(e.la.kind)
    ensures CondFact(s) == Ok(Binary(RelOpOf(k), ExprTree(l), ExprTree(r)), e)
  {
    var s1 := Advance(s, |ExprTokens(l)|);
    RelOpEndsExpr(k);
    ExprParses(l, s);
    ScanAt(s, |ExprTokens(l)|);
    ExprParses(r, m);
    ComparisonParses(s, ExprTree(l), s1, ExprTree(r), e);
  }

  /** `l f` as written, for a chain `l` of numbers, character constants and
      variables and a follower `f` that is no relational operator and
      cannot continue an expression: the condition is `l` alone, and `f`
      has been consumed (it is the last token read). */
  lemma {:induction false} FollowerSwallowedSpelled(s: PState, l: ExprSrc, e: PState)
    requires ExprWellFormed(l) && Spells(s, ExprTokens(l))
    requires e == Advance(s, |ExprTokens(l)|) && EndsExpr(e.la.kind) && e.la.kind !in RelOps
    ensures CondFact(s) == Ok(ExprTree(l), Advance(s, |ExprTokens(l)| + 1))
    ensures Advance(s, |ExprTokens(l)| + 1).t == e.la
  {
    ScanAt(s, |ExprTokens(l)|);
    ExprParses(l, s);
    CondFactSwallowsFollower(s, ExprTree(l), e);
  }

  /** `if ( x ) g` as written, for a chain `x` of numbers, character
      constants and variables read from `m`, the ")" at `e`, and a token
      `g` after it that starts the inner statement: the "if" fails with `g`
      as lookahead, expecting ")". */
  lemma {:induction false} IfWithoutComparisonFails(s: PState, x: ExprSrc, m: PState, e: PState)
    requires ExprWellFormed(x)
    requires s.la.kind == If && LaAt(s, 1).kind == Lpar
    requires m == Advance(s, 2) && Spells(m, ExprTokens(x))
    requires e == Advance(m, |ExprTokens(x)|) && e.la.kind == Rpar
    requires LaAt(e, 1).kind != And && LaAt(e, 1).kind != Or && LaAt(e, 1).kind != Rpar
    ensures Statement(s) == Err(Expected(Rpar), Advance(e, 1))
  {
    ExprParses(x, m);
    IfBareConditionFails(s, ExprTree(x), e);
  }

  /** A condition that is a bare expression: CondFact takes the token
      after it as its follower, and the condition ends after that token
      unless "&&" or "||" comes next. */
  lemma {:induction false} BareCondition(s: PState, v: ExprNode, s1: PState)
    requires Expr(s) == Ok(v, s1) && s1.la.kind !in RelOps
    requires Scan(s1).la.kind != And && Scan(s1).la.kind != Or
    ensures Condition(s) == Ok(v, Scan(s1))
  {
    CondFactSwallowsFollower(s, v, s1);
    OneFactTerm(s, Parsed(v, Scan(s1)));
  }

  /** `if ( e ) stmt` for any expression `e` that the parser reads to `v`,
      leaving it in `s1` at the ")": with no relational operator in the
      condition, CondFact consumes the ")" itself, so the "if" then fails
      on the statement's first token, expecting ")" there. */
  lemma {:induction false} IfBareConditionFails(s: PState, v: ExprNode, s1: PState)
    requires s.la.kind == If && LaAt(s, 1).kind == Lpar
    requires Expr(Advance(s, 2)) == Ok(v, s1) && s1.la.kind == Rpar
    requires LaAt(s1, 1).kind != And && LaAt(s1, 1).kind != Or && LaAt(s1, 1).kind != Rpar
    ensures Statement(s) == Err(Expected(Rpar), Advance(s1, 1))
  {
    var s2, s3 := Advance(s, 2), Advance(s1, 1);
    ConditionSwallowsRpar(s2, v, s1);
    ScanAdvance(s);
    CheckAt(Lpar, s, 1);
    IfMissingRpar(s, s2, v, s3);
  }

  /** A bare expression followed by ")": the condition takes the ")" as
      its follower. */
  lemma {:induction false} ConditionSwallowsRpar(s2: PState, v: ExprNode, s1: PState)
    requires Expr(s2) == Ok(v, s1) && s1.la.kind == Rpar
    requires LaAt(s1, 1).kind != And && LaAt(s1, 1).kind != Or
    ensures Condition(s2) == Ok(v, Advance(s1, 1))
  {
    ScanAdvance(s1);
    BareCondition(s2, v, s1);
  }

  /** "if" "(" and a condition that is not followed by ")". */
  lemma {:induction false} IfMissingRpar(s: PState, s2: PState, c: ExprNode, s3: PState)
    requires s.la.kind == If && Check(Lpar, Scan(s)) == Ok((), s2)
    requires Condition(s2) == Ok(c, s3) && s3.la.kind != Rpar
    ensures Statement(s) == Err(Expected(Rpar), s3)
  {
    assert s.la.kind != Ident && s.la.kind != Final;
    IfRestMissingRpar(Scan(s), s2, c, s3);
  }

  lemma {:induction false} IfRestMissingRpar(s: PState, s2: PState, c: ExprNode, s3: PState)
    requires Check(Lpar, s) == Ok((), s2)
    requires Condition(s2) == Ok(c, s3) && s3.la.kind != Rpar
    ensures IfRest(s) == Err(Expected(Rpar), s3)
  {
  }

  /** The operator each relational token stands for; distinct tokens give
      distinct operators. */
  lemma {:induction false} RelationalOperators()
    ensures RelOpOf(Eql) == Equal && RelOpOf(Neq) == NotEqual
    ensures RelOpOf(Lss) == Less && RelOpOf(Leq) == LessEqual
    ensures RelOpOf(Gtr) == Greater && RelOpOf(Geq) == GreaterEqual
    ensures forall k1, k2 :: k1 in RelOps && k2 in RelOps && RelOpOf(k1) == RelOpOf(k2) ==> k1 == k2
  {
  }

  // ---------------------------------------------------------------------
  // Chains

  /** Prepending to the operands of a left chain: the new operand is joined
      innermost. */
  lemma {:induction false} LeftChainCons(op: BinOp, acc: ExprNode, v: ExprNode, vs: seq<ExprNode>)
    ensures LeftChain(op, Binary(op, acc, v), vs) == LeftChain(op, acc, [v] + vs)
    decreases |vs|
  {
    var w := [v] + vs;
    if |vs| > 0 {
      assert w[..|w| - 1] == [v] + vs[..|vs| - 1];
      LeftChainCons(op, acc, v, vs[..|vs| - 1]);
    }
  }

  /** From state `at` the input holds "&&" f1 "&&" f2 ..., each comparison
      fi read by CondFact as `rs[i]`. */
  predicate AndsRead(at: PState, rs: seq<Parsed>)
    decreases |rs|
  {
    |rs| == 0 ||
    (at.la.kind == And && CondFact(Scan(at)) == Ok(rs[0].value, rs[0].end) && AndsRead(rs[0].end, rs[1..]))
  }

  /** From state `at` the input holds "||" t1 "||" t2 ..., each condition
      term ti read by CondTerm as `rs[i]`. */
  predicate OrsRead(at: PState, rs: seq<Parsed>)
    decreases |rs|
  {
    |rs| == 0 ||
    (at.la.kind == Or && CondTerm(Scan(at)) == Ok(rs[0].value, rs[0].end) && OrsRead(rs[0].end, rs[1..]))
  }

  /** One round of the "&&" loop. */
  lemma {:induction false} AndStep(acc: ExprNode, at: PState, r: Parsed)
    requires at.la.kind == And && CondFact(Scan(at)) == Ok(r.value, r.end)
    ensures CondTermTail(acc, at) == CondTermTail(Binary(Conjunction, acc, r.value), r.end)
  {
  }

  /** One round of the "||" loop. */
  lemma {:induction false} OrStep(acc: ExprNode, at: PState, r: Parsed)
    requires at.la.kind == Or && CondTerm(Scan(at)) == Ok(r.value, r.end)
    ensures ConditionTail(acc, at) == ConditionTail(Binary(Disjunction, acc, r.value), r.end)
  {
  }

  lemma {:induction false} ChainRest(at: PState, rs: seq<Parsed>)
    requires |rs| > 0
    ensures EndOf(rs[0].end, rs[1..]) == EndOf(at, rs)
    ensures Values(rs) == [rs[0].value] + Values(rs[1..])
  {
  }

  /** The "&&" loop joins the comparisons it reads to the left, onto what
      was read before it, and stops at the first token that is not "&&". */
  lemma {:induction false} AndChainParses(acc: ExprNode, at: PState, rs: seq<Parsed>)
    requires AndsRead(at, rs)
    requires EndOf(at, rs).la.kind != And
    ensures CondTermTail(acc, at) == Ok(LeftChain(Conjunction, acc, Values(rs)), EndOf(at, rs))
    decreases |rs|
  {
    if |rs| > 0 {
      AndStep(acc, at, rs[0]);
      ChainRest(at, rs);
      AndChainParses(Binary(Conjunction, acc, rs[0].value), rs[0].end, rs[1..]);
      LeftChainCons(Conjunction, acc, rs[0].value, Values(rs[1..]));
    }
  }

  /** The "||" loop joins the condition terms it reads to the left, onto
      what was read before it, and stops at the first token that is not
      "||". */
  lemma {:induction false} OrChainParses(acc: ExprNode, at: PState, rs: seq<Parsed>)
    requires OrsRead(at, rs)
    requires EndOf(at, rs).la.kind != Or
    ensures ConditionTail(acc, at) == Ok(LeftChain(Disjunction, acc, Values(rs)), EndOf(at, rs))
    decreases |rs|
  {
    if |rs| > 0 {
      OrStep(acc, at, rs[0]);
      ChainRest(at, rs);
      OrChainParses(Binary(Disjunction, acc, rs[0].value), rs[0].end, rs[1..]);
      LeftChainCons(Disjunction, acc, rs[0].value, Values(rs[1..]));
    }
  }

  /** CondTerm: comparisons joined by "&&", grouped to the left. */
  lemma {:induction false} CondTermParses(s: PState, first: Parsed, rs: seq<Parsed>)
    requires CondFact(s) == Ok(first.value, first.end)
    requires AndsRead(first.end, rs)
    requires EndOf(first.end, rs).la.kind != And
    ensures CondTerm(s) == Ok(LeftChain(Conjunction, first.value, Values(rs)), EndOf(first.end, rs))
  {
    AndChainParses(first.value, first.end, rs);
  }

  /** Condition: condition terms joined by "||", grouped to the left. */
  lemma {:induction false} ConditionParses(s: PState, first: Parsed, rs: seq<Parsed>)
    requires CondTerm(s) == Ok(first.value, first.end)
    requires OrsRead(first.end, rs)
    requires EndOf(first.end, rs).la.kind != Or
    ensures Condition(s) == Ok(LeftChain(Disjunction, first.value, Values(rs)), EndOf(first.end, rs))
  {
    OrChainParses(first.value, first.end, rs);
  }

  /** A condition term of one comparison. */
  lemma {:induction false} OneFactTerm(s: PState, a: Parsed)
    requires CondFact(s) == Ok(a.value, a.end) && a.end.la.kind != And
    ensures CondTerm(s) == Ok(a.value, a.end)
  {
  }

  /** A condition term of two comparisons. */
  lemma {:induction false} TwoFactTerm(s: PState, a: Parsed, b: Parsed)
    requires CondFact(s) == Ok(a.value, a.end)
    requires a.end.la.kind == And && CondFact(Scan(a.end)) == Ok(b.value, b.end)
    requires b.end.la.kind != And
    ensures CondTerm(s) == Ok(Binary(Conjunction, a.value, b.value), b.end)
  {
    AndStep(a.value, a.end, b);
  }

  /** A condition of two condition terms. */
  lemma {:induction false} TwoTermCondition(s: PState, a: Parsed, b: Parsed)
    requires CondTerm(s) == Ok(a.value, a.end)
    requires a.end.la.kind == Or && CondTerm(Scan(a.end)) == Ok(b.value, b.end)
    requires b.end.la.kind != Or
    ensures Condition(s) == Ok(Binary(Disjunction, a.value, b.value), b.end)
  {
    OrStep(a.value, a.end, b);
  }

  /** `a && b || c` is `(a && b) || c`: "&&" binds tighter than "||". */
  lemma {:induction false} AndBindsTighterOnTheLeft(s: PState, a: Parsed, b: Parsed, c: Parsed)
    requires CondFact(s) == Ok(a.value, a.end)
    requires a.end.la.kind == And && CondFact(Scan(a.end)) == Ok(b.value, b.end)
    requires b.end.la.kind == Or && CondFact(Scan(b.end)) == Ok(c.value, c.end)
    requires c.end.la.kind != And && c.end.la.kind != Or
    ensures Condition(s) == Ok(Binary(Disjunction, Binary(Conjunction, a.value, b.value), c.value), c.end)
  {
    TwoFactTerm(s, a, b);
    OneFactTerm(Scan(b.end), c);
    TwoTermCondition(s, Parsed(Binary(Conjunction, a.value, b.value), b.end), c);
  }

  /** `a || b && c` is `a || (b && c)`: "&&" binds tighter than "||". */
  lemma {:induction false} AndBindsTighterOnTheRight(s: PState, a: Parsed, b: Parsed, c: Parsed)
    requires CondFact(s) == Ok(a.value, a.end)
    requires a.end.la.kind == Or && CondFact(Scan(a.end)) == Ok(b.value, b.end)
    requires b.end.la.kind == And && CondFact(Scan(b.end)) == Ok(c.value, c.end)
    requires c.end.la.kind != And && c.end.la.kind != Or
    ensures Condition(s) == Ok(Binary(Disjunction, a.value, Binary(Conjunction, b.value, c.value)), c.end)
  {
    OneFactTerm(s, a);
    TwoFactTerm(Scan(a.end), b, c);
    TwoTermCondition(s, a, Parsed(Binary(Conjunction, b.value, c.value), c.end));
  }
}
