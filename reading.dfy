/**
 * Reading a known stretch of input. `LaAt(s, i)` is the token the parser at
 * `s` will see as lookahead after i more scans, `Advance(s, n)` the state
 * after n scans, and `Spells(s, toks)` says that the coming lookaheads read
 * as `toks`, in order: same kinds, and the same value wherever the parser
 * looks at one. The round-trip lemmas about productions are stated with
 * these; `ScanAdvance` ties them to the scanner.
 */
module Reading {
  import opened Syntax
  import opened Grammar

  /** The lookahead after i more scans: the current lookahead, then the
      unread input, then end of input for ever. */
  function LaAt(s: PState, i: nat): Token {
    if i == 0 then s.la
    else if s.pos + i - 1 < |s.tokens| then s.tokens[s.pos + i - 1]
    else EofToken
  }

  /** The scanner's cursor after n more scans; it stops at the end of input. */
  function PosAfter(s: PState, n: nat): nat {
    if |s.tokens| <= s.pos then s.pos
    else if s.pos + n <= |s.tokens| then s.pos + n
    else |s.tokens|
  }

  /** The state after n scans: only the cursor and the last and lookahead
      tokens differ. */
  function Advance(s: PState, n: nat): (s': PState)
    ensures n > 0 ==> s'.t == LaAt(s, n - 1)
    ensures s'.la == LaAt(s, n)
  {
    if n == 0 then s else s.(pos := PosAfter(s, n), t := LaAt(s, n - 1), la := LaAt(s, n))
  }

  /** Token `t` reads as `p`: the same kind, the same number for a number
      or character constant, and the same text for an identifier. These are
      the only fields the parser ever takes from a token. */
  predicate Like(t: Token, p: Token) {
    t.kind == p.kind &&
    (p.kind == Number || p.kind == CharConst ==> t.val == p.val) &&
    (p.kind == Ident ==> t.str == p.str)
  }

  /** The coming lookaheads read as `toks`. */
  predicate Spells(s: PState, toks: seq<Token>) {
    forall i {:trigger LaAt(s, i)} :: 0 <= i < |toks| ==> Like(LaAt(s, i), toks[i])
  }

  /** `scan` is one step of Advance. */
  lemma {:induction false} ScanAdvance(s: PState)
    ensures Scan(s) == Advance(s, 1)
  {
  }

  lemma {:induction false} LaAtShift(s: PState, a: nat, i: nat)
    ensures LaAt(Advance(s, a), i) == LaAt(s, a + i)
  {
  }

  /** Scanning a more times and then b more is scanning a + b times. */
  lemma {:induction false} AdvanceAdd(s: PState, a: nat, b: nat)
    ensures Advance(Advance(s, a), b) == Advance(s, a + b)
  {
    if a > 0 && b > 0 {
      LaAtShift(s, a, b - 1);
      LaAtShift(s, a, b);
    }
  }

  /** Reading `a + b` is reading `a`, then reading `b` from where `a` ended. */
  lemma {:induction false} SpellsAppend(s: PState, a: seq<Token>, b: seq<Token>)
    ensures Spells(s, a + b) <==> Spells(s, a) && Spells(Advance(s, |a|), b)
  {
    forall i | 0 <= i < |b|
      ensures LaAt(Advance(s, |a|), i) == LaAt(s, |a| + i) && (a + b)[|a| + i] == b[i]
    {
      LaAtShift(s, |a|, i);
    }
    if Spells(s, a) && Spells(Advance(s, |a|), b) {
      forall i | 0 <= i < |a + b|
        ensures Like(LaAt(s, i), (a + b)[i])
      {
        if i >= |a| {
          LaAtShift(s, |a|, i - |a|);
        }
      }
    }
  }

  /** After reading `a`, the lookahead is the first token of what follows. */
  lemma {:induction false} SpellsNext(s: PState, a: seq<Token>, b: seq<Token>)
    requires Spells(s, a + b) && |b| > 0
    ensures Like(Advance(s, |a|).la, b[0])
  {
    LaAtShift(s, |a|, 0);
    assert (a + b)[|a|] == b[0];
  }

  /** Reading `a`, then `b`, then `c`: where each part starts, and what the
      lookahead is after `b`. */
  lemma {:induction false} SpellsThree(s: PState, a: seq<Token>, b: seq<Token>, c: seq<Token>)
    requires Spells(s, a + (b + c))
    ensures Spells(s, a) && Spells(Advance(s, |a|), b) && Spells(Advance(s, |a| + |b|), c)
    ensures Advance(Advance(s, |a|), |b|) == Advance(s, |a| + |b|)
    ensures Advance(Advance(s, |a| + |b|), |c|) == Advance(s, |a + (b + c)|)
    ensures |c| > 0 ==> Like(Advance(s, |a| + |b|).la, c[0])
    ensures |c| == 0 ==> Advance(s, |a| + |b|) == Advance(s, |a + (b + c)|)
  {
    SpellsTwo(s, a, b + c);
    SpellsTwo(Advance(s, |a|), b, c);
    AdvanceAdd(s, |a|, |b|);
  }

  /** Reading `b`, then `c`: where `c` starts, and what the lookahead is
      after `b`. */
  lemma {:induction false} SpellsTwo(s: PState, b: seq<Token>, c: seq<Token>)
    requires Spells(s, b + c)
    ensures Spells(s, b) && Spells(Advance(s, |b|), c)
    ensures Advance(Advance(s, |b|), |c|) == Advance(s, |b + c|)
    ensures |c| > 0 ==> Like(Advance(s, |b|).la, c[0])
    ensures |c| == 0 ==> Advance(s, |b|) == Advance(s, |b + c|)
  {
    SpellsAppend(s, b, c);
    AdvanceAdd(s, |b|, |c|);
    if |c| > 0 {
      SpellsNext(s, b, c);
    } else {
      assert Advance(Advance(s, |b|), 0) == Advance(s, |b|);
    }
  }

  /** Scanning after n scans is scanning n + 1 times. */
  lemma {:induction false} ScanAt(s: PState, n: nat)
    ensures Scan(Advance(s, n)) == Advance(s, n + 1)
  {
    ScanAdvance(Advance(s, n));
    AdvanceAdd(s, n, 1);
  }

  /** `check(k)` after n scans, when the (n+1)-th lookahead is a `k`. */
  lemma {:induction false} CheckAt(k: Kind, s: PState, n: nat)
    requires LaAt(s, n).kind == k
    ensures Check(k, Advance(s, n)) == Ok((), Advance(s, n + 1))
  {
    ScanAt(s, n);
  }
}
