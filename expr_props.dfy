/**
 * Expressions as written in a MicroJava source: operands joined by `*`, `/`,
 * `%` into terms, terms joined by `+`, `-`, with an optional leading `-`.
 * The tree each one denotes is defined here on its own, with the last
 * operator of a chain at the root (left associativity) and multiplicative
 * chains nested inside additive ones (precedence); the lemmas prove that the
 * parser's Expr builds exactly that tree from the expression's tokens.
 */
module ExprProps {
  import opened Syntax
  import opened Grammar
  import opened Reading

  /** An operand: a number, a character constant or a plain variable. */
  datatype Operand = Num(v: int) | Chr(v: int) | Var(name: string)

  /** Operands joined by multiplicative operators. */
  datatype TermSrc = TermSrc(first: Operand, rest: seq<(Kind, Operand)>)

  /** Terms joined by additive operators, optionally preceded by `-`. */
  datatype ExprSrc = ExprSrc(negated: bool, first: TermSrc, rest: seq<(Kind, TermSrc)>)

  const AddOps: set<Kind> := {Plus, Minus}

  predicate MulChain(rest: seq<(Kind, Operand)>) {
    forall i :: 0 <= i < |rest| ==> rest[i].0 in MulOps
  }

  predicate AddChain(rest: seq<(Kind, TermSrc)>) {
    forall i :: 0 <= i < |rest| ==> rest[i].0 in AddOps && MulChain(rest[i].1.rest)
  }

  predicate ExprWellFormed(e: ExprSrc) {
    MulChain(e.first.rest) && AddChain(e.rest)
  }

  // ---------------------------------------------------------------------
  // Spelling: a token of the right kind carrying the operand; fields the
  // parser does not read are left empty here, and `Spells` ignores them

  function OperandToken(o: Operand): Token {
    match o
    case Num(v) => Token(Number, v, "")
    case Chr(v) => Token(CharConst, v, "")
    case Var(name) => Token(Ident, 0, name)
  }

  function OpToken(k: Kind): Token {
    Token(k, 0, "")
  }

  function MulRestTokens(rest: seq<(Kind, Operand)>): seq<Token> {
    if |rest| == 0 then [] else [OpToken(rest[0].0)] + ([OperandToken(rest[0].1)] + MulRestTokens(rest[1..]))
  }

  function TermTokens(t: TermSrc): seq<Token> {
    [OperandToken(t.first)] + MulRestTokens(t.rest)
  }

  function AddRestTokens(rest: seq<(Kind, TermSrc)>): seq<Token> {
    if |rest| == 0 then [] else [OpToken(rest[0].0)] + (TermTokens(rest[0].1) + AddRestTokens(rest[1..]))
  }

  function ExprTokens(e: ExprSrc): seq<Token> {
    if e.negated then [OpToken(Minus)] + (TermTokens(e.first) + AddRestTokens(e.rest))
    else TermTokens(e.first) + AddRestTokens(e.rest)
  }

  // ---------------------------------------------------------------------
  // Meaning

  function OperandTree(o: Operand): ExprNode {
    match o
    case Num(v) => IntNode(v)
    case Chr(v) => CharNode(CharOf(v))
    case Var(name) => ReadVar(name)
  }

  function AddOpOf(k: Kind): BinOp {
    if k == Plus then Add else Subtract
  }

  /** A multiplicative chain, grouped to the left: the last operator is the root. */
  function ProductTree(first: Operand, rest: seq<(Kind, Operand)>): ExprNode
    decreases |rest|
  {
    if |rest| == 0 then OperandTree(first)
    else
      var last := rest[|rest| - 1];
      Binary(MulOpOf(last.0), ProductTree(first, rest[..|rest| - 1]), OperandTree(last.1))
  }

  function TermTree(t: TermSrc): ExprNode {
    ProductTree(t.first, t.rest)
  }

  /** An additive chain after its head, grouped to the left. */
  function SumTree(head: ExprNode, rest: seq<(Kind, TermSrc)>): ExprNode
    decreases |rest|
  {
    if |rest| == 0 then head
    else
      var last := rest[|rest| - 1];
      Binary(AddOpOf(last.0), SumTree(head, rest[..|rest| - 1]), TermTree(last.1))
  }

  /** A leading minus negates the first term only, as `-1 * term`. */
  function ExprTree(e: ExprSrc): ExprNode {
    var head := if e.negated then Binary(Multiplication, IntNode(-1), TermTree(e.first)) else TermTree(e.first);
    SumTree(head, e.rest)
  }

  // ---------------------------------------------------------------------
  // Tokens that may not follow: each would extend what was parsed

  predicate EndsOperand(k: Kind) {
    k != Lpar && k != Period && k != Lbrack
  }

  predicate EndsTerm(k: Kind) {
    EndsOperand(k) && k !in MulOps
  }

  predicate EndsExpr(k: Kind) {
    EndsTerm(k) && k !in AddOps
  }

  /** One operand is one token, read by Factor. */
  lemma {:induction false} OperandParses(o: Operand, s: PState)
    requires Like(s.la, OperandToken(o))
    requires EndsOperand(LaAt(s, 1).kind)
    ensures Factor(s) == Ok(OperandTree(o), Advance(s, 1))
  {
    ScanAdvance(s);
  }

  /** One round of the Mulop loop of Term. */
  lemma {:induction false} TermTailStep(acc: ExprNode, s: PState, f: ExprNode, s2: PState)
    requires s.la.kind in MulOps && Factor(Advance(s, 1)) == Ok(f, s2)
    ensures TermTail(acc, s) == TermTail(Binary(MulOpOf(s.la.kind), acc, f), s2)
  {
    ScanAdvance(s);
  }

  /** One round of the Addop loop of Expr. */
  lemma {:induction false} ExprTailStep(acc: ExprNode, s: PState, t: ExprNode, s2: PState)
    requires s.la.kind in AddOps && Term(Advance(s, 1)) == Ok(t, s2)
    ensures ExprTail(acc, s) == ExprTail(Binary(AddOpOf(s.la.kind), acc, t), s2)
  {
    ScanAdvance(s);
  }

  lemma {:induction false} ProductTreeSnoc(first: Operand, done: seq<(Kind, Operand)>, p: (Kind, Operand))
    ensures ProductTree(first, done + [p]) == Binary(MulOpOf(p.0), ProductTree(first, done), OperandTree(p.1))
  {
    assert (done + [p])[..|done|] == done;
  }

  lemma {:induction false} SumTreeSnoc(head: ExprNode, done: seq<(Kind, TermSrc)>, p: (Kind, TermSrc))
    ensures SumTree(head, done + [p]) == Binary(AddOpOf(p.0), SumTree(head, done), TermTree(p.1))
  {
    assert (done + [p])[..|done|] == done;
  }

  /** Moving the first pair of `rest` to the end of `done`. */
  lemma {:induction false} MoveFirst<T>(done: seq<T>, rest: seq<T>)
    requires |rest| > 0
    ensures (done + [rest[0]]) + rest[1..] == done + rest
  {
    assert rest == [rest[0]] + rest[1..];
  }

  /** Reading the first `op operand` pair of a Mulop chain. */
  lemma {:induction false} ProductStepTokens(rest: seq<(Kind, Operand)>, s: PState)
    requires MulChain(rest) && |rest| > 0
    requires Spells(s, MulRestTokens(rest))
    requires EndsTerm(Advance(s, |MulRestTokens(rest)|).la.kind)
    ensures s.la.kind == rest[0].0 && s.la.kind in MulOps
    ensures Like(Advance(s, 1).la, OperandToken(rest[0].1))
    ensures EndsOperand(LaAt(Advance(s, 1), 1).kind)
    ensures Advance(Advance(s, 1), 1) == Advance(s, 2)
    ensures MulChain(rest[1..])
    ensures Spells(Advance(s, 2), MulRestTokens(rest[1..]))
    ensures EndsTerm(Advance(Advance(s, 2), |MulRestTokens(rest[1..])|).la.kind)
    ensures Advance(Advance(s, 2), |MulRestTokens(rest[1..])|) == Advance(s, |MulRestTokens(rest)|)
  {
    var tail := MulRestTokens(rest[1..]);
    var m := Advance(s, 2);
    assert MulChain(rest[1..]) by {
      assert forall i | 0 <= i < |rest[1..]| :: rest[1..][i] == rest[i + 1];
    }
    SpellsThree(s, [OpToken(rest[0].0)], [OperandToken(rest[0].1)], tail);
    LaAtShift(s, 1, 1);
    ProductStepEndsOperand(rest, m);
  }

  /** After the first `op operand` pair of a Mulop chain, what follows the
      operand ends it. */
  lemma {:induction false} ProductStepEndsOperand(rest: seq<(Kind, Operand)>, m: PState)
    requires MulChain(rest) && |rest| > 0
    requires Spells(m, MulRestTokens(rest[1..]))
    requires |rest| == 1 ==> EndsTerm(m.la.kind)
    ensures EndsOperand(m.la.kind)
  {
    if |rest| > 1 {
      var tail := MulRestTokens(rest[1..]);
      assert rest[1..][0] == rest[1];
      assert Like(LaAt(m, 0), tail[0]);
    }
  }

  /** The Mulop loop of Term, from the tree of the operands `done` read so
      far, reads the operands `rest`. */
  lemma {:induction false} ProductTailParses(first: Operand, done: seq<(Kind, Operand)>, rest: seq<(Kind, Operand)>, s: PState)
    requires MulChain(rest)
    requires Spells(s, MulRestTokens(rest))
    requires EndsTerm(Advance(s, |MulRestTokens(rest)|).la.kind)
    ensures TermTail(ProductTree(first, done), s) ==
            Ok(ProductTree(first, done + rest), Advance(s, |MulRestTokens(rest)|))
    decreases |rest|
  {
    if |rest| == 0 {
      assert done + rest == done;
    } else {
      var p := rest[0];
      var s2 := Advance(s, 2);
      MoveFirst(done, rest);
      ProductStepTokens(rest, s);
      assert TermTail(ProductTree(first, done), s) == TermTail(ProductTree(first, done + [p]), s2) by {
        OperandParses(p.1, Advance(s, 1));
        TermTailStep(ProductTree(first, done), s, OperandTree(p.1), s2);
        ProductTreeSnoc(first, done, p);
      }
      ProductTailParses(first, done + [p], rest[1..], s2);
    }
  }

  /** Term reads a multiplicative chain into its left-grouped tree. */
  lemma {:induction false} TermParses(t: TermSrc, s: PState)
    requires MulChain(t.rest)
    requires Spells(s, TermTokens(t))
    requires EndsTerm(Advance(s, |TermTokens(t)|).la.kind)
    ensures Term(s) == Ok(TermTree(t), Advance(s, |TermTokens(t)|))
  {
    var tail := MulRestTokens(t.rest);
    var s1 := Advance(s, 1);
    SpellsTwo(s, [OperandToken(t.first)], tail);
    assert Like(LaAt(s, 0), OperandToken(t.first));
    TermStartEndsOperand(t.rest, s1);
    OperandParses(t.first, s);
    assert [] + t.rest == t.rest;
    ProductTailParses(t.first, [], t.rest, s1);
  }

  /** Where a Mulop chain starts, the first operand has ended: the
      lookahead is a multiplicative operator or whatever ends the term. */
  lemma {:induction false} TermStartEndsOperand(rest: seq<(Kind, Operand)>, m: PState)
    requires MulChain(rest)
    requires Spells(m, MulRestTokens(rest))
    requires |rest| == 0 ==> EndsTerm(m.la.kind)
    ensures EndsOperand(m.la.kind)
  {
    if |rest| > 0 {
      assert Like(LaAt(m, 0), MulRestTokens(rest)[0]);
    }
  }

  /** After the first `op term` pair of an Addop chain, what follows the
      term ends it. */
  lemma {:induction false} SumStepEndsTerm(rest: seq<(Kind, TermSrc)>, m: PState)
    requires AddChain(rest) && |rest| > 0
    requires Spells(m, AddRestTokens(rest[1..]))
    requires |rest| == 1 ==> EndsExpr(m.la.kind)
    ensures EndsTerm(m.la.kind)
  {
    if |rest| > 1 {
      var tail := AddRestTokens(rest[1..]);
      assert rest[1..][0] == rest[1];
      assert Like(LaAt(m, 0), tail[0]);
    }
  }

  /** Reading the first `op term` pair of an Addop chain. */
  lemma {:induction false} SumStepTokens(rest: seq<(Kind, TermSrc)>, s: PState)
    requires AddChain(rest) && |rest| > 0
    requires Spells(s, AddRestTokens(rest))
    requires EndsExpr(Advance(s, |AddRestTokens(rest)|).la.kind)
    ensures s.la.kind == rest[0].0 && s.la.kind in AddOps
    ensures MulChain(rest[0].1.rest)
    ensures Spells(Advance(s, 1), TermTokens(rest[0].1))
    ensures EndsTerm(Advance(Advance(s, 1), |TermTokens(rest[0].1)|).la.kind)
    ensures Advance(Advance(s, 1), |TermTokens(rest[0].1)|) == Advance(s, 1 + |TermTokens(rest[0].1)|)
    ensures AddChain(rest[1..])
    ensures Spells(Advance(s, 1 + |TermTokens(rest[0].1)|), AddRestTokens(rest[1..]))
    ensures EndsExpr(Advance(Advance(s, 1 + |TermTokens(rest[0].1)|), |AddRestTokens(rest[1..])|).la.kind)
    ensures Advance(Advance(s, 1 + |TermTokens(rest[0].1)|), |AddRestTokens(rest[1..])|) ==
            Advance(s, |AddRestTokens(rest)|)
  {
    var tail := AddRestTokens(rest[1..]);
    var m := Advance(s, 1 + |TermTokens(rest[0].1)|);
    assert AddChain(rest[1..]) by {
      assert forall i | 0 <= i < |rest[1..]| :: rest[1..][i] == rest[i + 1];
    }
    SpellsThree(s, [OpToken(rest[0].0)], TermTokens(rest[0].1), tail);
    SumStepEndsTerm(rest, m);
  }

  /** The Addop loop of Expr, from the tree of the terms `done` read so far,
      reads the terms `rest`. */
  lemma {:induction false} SumTailParses(head: ExprNode, done: seq<(Kind, TermSrc)>, rest: seq<(Kind, TermSrc)>, s: PState)
    requires AddChain(rest)
    requires Spells(s, AddRestTokens(rest))
    requires EndsExpr(Advance(s, |AddRestTokens(rest)|).la.kind)
    ensures ExprTail(SumTree(head, done), s) ==
            Ok(SumTree(head, done + rest), Advance(s, |AddRestTokens(rest)|))
    decreases |rest|
  {
    if |rest| == 0 {
      assert done + rest == done;
    } else {
      var p := rest[0];
      var s2 := Advance(s, 1 + |TermTokens(p.1)|);
      MoveFirst(done, rest);
      SumStepTokens(rest, s);
      SumTailStep(head, done, rest, s);
      SumTailParses(head, done + [p], rest[1..], s2);
    }
  }

  /** One round of the Addop loop: the first `op term` pair of the chain is
      folded into the sum. */
  lemma {:induction false} SumTailStep(head: ExprNode, done: seq<(Kind, TermSrc)>, rest: seq<(Kind, TermSrc)>, s: PState)
    requires |rest| > 0 && s.la.kind == rest[0].0 && s.la.kind in AddOps
    requires MulChain(rest[0].1.rest)
    requires Spells(Advance(s, 1), TermTokens(rest[0].1))
    requires EndsTerm(Advance(Advance(s, 1), |TermTokens(rest[0].1)|).la.kind)
    requires Advance(Advance(s, 1), |TermTokens(rest[0].1)|) == Advance(s, 1 + |TermTokens(rest[0].1)|)
    ensures ExprTail(SumTree(head, done), s) ==
            ExprTail(SumTree(head, done + [rest[0]]), Advance(s, 1 + |TermTokens(rest[0].1)|))
  {
    var p := rest[0];
    TermParses(p.1, Advance(s, 1));
    ExprTailStep(SumTree(head, done), s, TermTree(p.1), Advance(s, 1 + |TermTokens(p.1)|));
    SumTreeSnoc(head, done, p);
  }

  /** How Expr starts: a leading minus is skipped and wraps the first term. */
  lemma {:induction false} ExprStart(s: PState, t: ExprNode, s1: PState)
    requires Term(if s.la.kind == Minus then Advance(s, 1) else s) == Ok(t, s1)
    ensures Expr(s) == ExprTail(if s.la.kind == Minus then Binary(Multiplication, IntNode(-1), t) else t, s1)
  {
    ScanAdvance(s);
  }

  /** Where an Addop chain starts, the first term has ended: the lookahead
      is an additive operator or whatever ends the expression. */
  lemma {:induction false} SumStartEndsTerm(rest: seq<(Kind, TermSrc)>, m: PState, end: PState)
    requires AddChain(rest)
    requires Spells(m, AddRestTokens(rest))
    requires |rest| == 0 ==> m == end
    requires EndsExpr(end.la.kind)
    ensures EndsTerm(m.la.kind)
  {
    if |rest| > 0 {
      assert Like(LaAt(m, 0), AddRestTokens(rest)[0]);
      assert rest[0].0 in AddOps;
    }
  }

  /** Reading an expression with a leading minus. */
  lemma {:induction false} NegatedStartTokens(e: ExprSrc, s: PState)
    requires e.negated && ExprWellFormed(e)
    requires Spells(s, ExprTokens(e))
    requires EndsExpr(Advance(s, |ExprTokens(e)|).la.kind)
    ensures s.la.kind == Minus
    ensures var s0 := Advance(s, 1);
      Spells(s0, TermTokens(e.first)) &&
      EndsTerm(Advance(s0, |TermTokens(e.first)|).la.kind) &&
      Spells(Advance(s0, |TermTokens(e.first)|), AddRestTokens(e.rest)) &&
      Advance(Advance(s0, |TermTokens(e.first)|), |AddRestTokens(e.rest)|) == Advance(s, |ExprTokens(e)|)
  {
    var termToks := TermTokens(e.first);
    var tail := AddRestTokens(e.rest);
    SpellsThree(s, [OpToken(Minus)], termToks, tail);
    assert Like(LaAt(s, 0), [OpToken(Minus)][0]);
    var mid := Advance(s, 1 + |termToks|);
    assert |e.rest| == 0 ==> mid == Advance(s, |ExprTokens(e)|);
    SumStartEndsTerm(e.rest, mid, Advance(s, |ExprTokens(e)|));
  }

  /** Reading an expression without a leading minus. */
  lemma {:induction false} PlainStartTokens(e: ExprSrc, s: PState)
    requires !e.negated && ExprWellFormed(e)
    requires Spells(s, ExprTokens(e))
    requires EndsExpr(Advance(s, |ExprTokens(e)|).la.kind)
    ensures s.la.kind != Minus
    ensures Spells(s, TermTokens(e.first)) &&
      EndsTerm(Advance(s, |TermTokens(e.first)|).la.kind) &&
      Spells(Advance(s, |TermTokens(e.first)|), AddRestTokens(e.rest)) &&
      Advance(Advance(s, |TermTokens(e.first)|), |AddRestTokens(e.rest)|) == Advance(s, |ExprTokens(e)|)
  {
    var termToks := TermTokens(e.first);
    var tail := AddRestTokens(e.rest);
    SpellsTwo(s, termToks, tail);
    assert termToks[0] == OperandToken(e.first.first);
    assert Like(LaAt(s, 0), termToks[0]);
    var mid := Advance(s, |termToks|);
    assert |e.rest| == 0 ==> mid == Advance(s, |ExprTokens(e)|);
    SumStartEndsTerm(e.rest, mid, Advance(s, |ExprTokens(e)|));
  }

  /** Reading an expression: the optional minus, the first term, the rest. */
  lemma {:induction false} ExprStartTokens(e: ExprSrc, s: PState)
    requires ExprWellFormed(e)
    requires Spells(s, ExprTokens(e))
    requires EndsExpr(Advance(s, |ExprTokens(e)|).la.kind)
    ensures s.la.kind == Minus <==> e.negated
    ensures var s0 := Advance(s, if e.negated then 1 else 0);
      Spells(s0, TermTokens(e.first)) &&
      EndsTerm(Advance(s0, |TermTokens(e.first)|).la.kind) &&
      Spells(Advance(s0, |TermTokens(e.first)|), AddRestTokens(e.rest)) &&
      Advance(Advance(s0, |TermTokens(e.first)|), |AddRestTokens(e.rest)|) == Advance(s, |ExprTokens(e)|)
  {
    if e.negated {
      NegatedStartTokens(e, s);
    } else {
      PlainStartTokens(e, s);
      assert Advance(s, 0) == s;
    }
  }

  /** Expr reads an expression into the tree it denotes: `* / %` bind tighter
      than `+ -`, both group to the left, and a leading minus applies to the
      first term alone. */
  lemma {:induction false} ExprParses(e: ExprSrc, s: PState)
    requires ExprWellFormed(e)
    requires Spells(s, ExprTokens(e))
    requires EndsExpr(Advance(s, |ExprTokens(e)|).la.kind)
    ensures Expr(s) == Ok(ExprTree(e), Advance(s, |ExprTokens(e)|))
  {
    assert [] + e.rest == e.rest;
    ExprStartTokens(e, s);
    var s0 := Advance(s, if e.negated then 1 else 0);
    var s1 := Advance(s0, |TermTokens(e.first)|);
    TermParses(e.first, s0);
    ExprStart(s, TermTree(e.first), s1);
    var head := if e.negated then Binary(Multiplication, IntNode(-1), TermTree(e.first)) else TermTree(e.first);
    SumTailParses(head, [], e.rest, s1);
  }

  /** An expression followed by ";" is read up to the ";". */
  lemma {:induction false} ExprBeforeSemicolon(e: ExprSrc, s: PState)
    requires ExprWellFormed(e) && Spells(s, ExprTokens(e) + [OpToken(Semicolon)])
    ensures Expr(s) == Ok(ExprTree(e), Advance(s, |ExprTokens(e)|))
  {
    SpellsTwo(s, ExprTokens(e), [OpToken(Semicolon)]);
    ExprParses(e, s);
  }

  /** `- a + b * c`, as source syntax. */
  const NegatedSum: ExprSrc :=
    ExprSrc(true, TermSrc(Var("a"), []), [(Plus, TermSrc(Var("b"), [(Times, Var("c"))]))])

  lemma {:induction false} NegatedSumSpelling()
    ensures ExprTokens(NegatedSum) == [OpToken(Minus), Token(Ident, 0, "a"), OpToken(Plus),
                                       Token(Ident, 0, "b"), OpToken(Times), Token(Ident, 0, "c")]
  {
    var bc := TermSrc(Var("b"), [(Times, Var("c"))]);
    assert MulRestTokens([(Times, Var("c"))]) == [OpToken(Times), Token(Ident, 0, "c")] + MulRestTokens([]);
    assert TermTokens(bc) == [Token(Ident, 0, "b"), OpToken(Times), Token(Ident, 0, "c")];
    assert AddRestTokens([(Plus, bc)]) == [OpToken(Plus)] + (TermTokens(bc) + AddRestTokens([]));
  }

  lemma {:induction false} NegatedSumMeaning()
    ensures ExprTree(NegatedSum) == Binary(Add, Binary(Multiplication, IntNode(-1), ReadVar("a")),
                                                Binary(Multiplication, ReadVar("b"), ReadVar("c")))
  {
    var bc := TermSrc(Var("b"), [(Times, Var("c"))]);
    assert ProductTree(Var("b"), [(Times, Var("c"))]) == Binary(Multiplication, ReadVar("b"), ReadVar("c"));
    assert [(Plus, bc)][..0] == [];
  }

  /** `- a + b * c` is `(-1 * a) + (b * c)`. */
  lemma {:induction false} NegationAndPrecedence(s: PState)
    requires Spells(s, [OpToken(Minus), Token(Ident, 0, "a"), OpToken(Plus),
                        Token(Ident, 0, "b"), OpToken(Times), Token(Ident, 0, "c"), OpToken(Semicolon)])
    ensures Expr(s) == Ok(Binary(Add, Binary(Multiplication, IntNode(-1), ReadVar("a")),
                                      Binary(Multiplication, ReadVar("b"), ReadVar("c"))),
                          Advance(s, 6))
  {
    NegatedSumSpelling();
    NegatedSumMeaning();
    assert ExprTokens(NegatedSum) + [OpToken(Semicolon)] ==
           [OpToken(Minus), Token(Ident, 0, "a"), OpToken(Plus),
            Token(Ident, 0, "b"), OpToken(Times), Token(Ident, 0, "c"), OpToken(Semicolon)];
    ExprBeforeSemicolon(NegatedSum, s);
  }

  /** `a - b - c`, as source syntax. */
  const Subtractions: ExprSrc :=
    ExprSrc(false, TermSrc(Var("a"), []), [(Minus, TermSrc(Var("b"), [])), (Minus, TermSrc(Var("c"), []))])

  lemma {:induction false} SubtractionsSpelling()
    ensures ExprTokens(Subtractions) == [Token(Ident, 0, "a"), OpToken(Minus), Token(Ident, 0, "b"),
                                         OpToken(Minus), Token(Ident, 0, "c")]
  {
    var b := TermSrc(Var("b"), []);
    var c := TermSrc(Var("c"), []);
    assert AddRestTokens([(Minus, c)]) == [OpToken(Minus), Token(Ident, 0, "c")] + AddRestTokens([]);
    assert [(Minus, b), (Minus, c)][1..] == [(Minus, c)];
    assert AddRestTokens([(Minus, b), (Minus, c)]) ==
           [OpToken(Minus), Token(Ident, 0, "b"), OpToken(Minus), Token(Ident, 0, "c")];
  }

  lemma {:induction false} SubtractionsMeaning()
    ensures ExprTree(Subtractions) == Binary(Subtract, Binary(Subtract, ReadVar("a"), ReadVar("b")), ReadVar("c"))
  {
    var b := TermSrc(Var("b"), []);
    assert [(Minus, b), (Minus, TermSrc(Var("c"), []))][..1] == [(Minus, b)];
    assert SumTree(ReadVar("a"), [(Minus, b)]) == Binary(Subtract, ReadVar("a"), ReadVar("b"));
  }

  /** `a - b - c` is `(a - b) - c`. */
  lemma {:induction false} SubtractionGroupsLeft(s: PState)
    requires Spells(s, [Token(Ident, 0, "a"), OpToken(Minus), Token(Ident, 0, "b"),
                        OpToken(Minus), Token(Ident, 0, "c"), OpToken(Semicolon)])
    ensures Expr(s) == Ok(Binary(Subtract, Binary(Subtract, ReadVar("a"), ReadVar("b")), ReadVar("c")),
                          Advance(s, 5))
  {
    SubtractionsSpelling();
    SubtractionsMeaning();
    assert ExprTokens(Subtractions) + [OpToken(Semicolon)] ==
           [Token(Ident, 0, "a"), OpToken(Minus), Token(Ident, 0, "b"),
            OpToken(Minus), Token(Ident, 0, "c"), OpToken(Semicolon)];
    ExprBeforeSemicolon(Subtractions, s);
  }
}
