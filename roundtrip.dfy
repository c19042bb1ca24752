/** Parsing undoes printing: the translator, run on the text `Show` writes for a tree,
    recognises that same tree and emits exactly its reference code. */
module RoundTrip {
  import opened Chars
  import opened Diagnostics
  import opened M68k
  import opened Ast
  import opened Grammar

  /** The input holds `t` starting with the character the `n`-th `getchar` returns. */
  predicate At(s: seq<char>, n: nat, t: string) {
    1 <= n && n - 1 + |t| <= |s| && Spells(s, n, t)
  }

  /** Character by character, `s` holds `t` from position `n` on (1-based, as `LookAt`). */
  predicate Spells(s: seq<char>, n: nat, t: string)
    requires 1 <= n && n - 1 + |t| <= |s|
    decreases |t|
  {
    t == [] || (s[n - 1] == t[0] && Spells(s, n + 1, t[1..]))
  }

  /** What may follow a construct of grammar level `level` for the parser to stop right
      after it: no blank (it would be skipped), no letter or digit (it would extend a token),
      no `(` (it would turn a variable into a call) and, after an expression, no `*` or `/`. */
  predicate Ends(s: seq<char>, p: nat, level: nat) {
    var c := LookAt(s, p);
    !IsWhite(c) && !IsAlNum(c) && c != '(' && (level == 0 ==> !IsMulOp(c))
  }

  lemma {:induction false} AtSplit(s: seq<char>, n: nat, a: string, b: string)
    requires At(s, n, a + b)
    decreases |a|
    ensures At(s, n, a) && At(s, n + |a|, b)
  {
    if a == [] {
      assert a + b == b;
    } else {
      assert (a + b)[0] == a[0] && (a + b)[1..] == a[1..] + b;
      AtSplit(s, n + 1, a[1..], b);
    }
  }

  lemma AtFirst(s: seq<char>, n: nat, t: string)
    requires At(s, n, t) && |t| > 0
    ensures LookAt(s, n) == t[0]
  {
  }

  /** Matching a character that is there consumes exactly it when no blank follows. */
  lemma MatchHere(s: seq<char>, n: nat, x: char)
    requires n <= |s| && LookAt(s, n) == x && x != NUL && x != EndMarker && !IsWhite(LookAt(s, n + 1))
    ensures Match(s, n, x) == Ok(n + 1)
  {
  }

  /** The scanner stores an accepted character and moves on by one when no blank follows. */
  lemma ScanStep(s: seq<char>, n: nat, kind: TokenKind, tok: string)
    requires n <= |s| && |tok| < MaxTokenLength - 1 && Accepts(kind, LookAt(s, n))
    requires !IsWhite(LookAt(s, n + 1))
    ensures Scan(s, n, kind, tok) == Scan(s, n + 1, kind, tok + [Stored(kind, LookAt(s, n))])
  {
    assert Consume(s, n) == n + 1;
  }

  /** Every character of `w` belongs to a token of this kind and is stored as it stands. */
  predicate Verbatim(kind: TokenKind, w: string) {
    forall k :: 0 <= k < |w| ==> Accepts(kind, w[k]) && Stored(kind, w[k]) == w[k]
  }

  /** What the scanner sees at the start of a nonempty run of token characters. */
  lemma ScanHead(s: seq<char>, n: nat, kind: TokenKind, w: string)
    requires At(s, n, w) && |w| > 0 && Verbatim(kind, w) && !IsWhite(LookAt(s, n + |w|))
    ensures n <= |s| && LookAt(s, n) == w[0] && Accepts(kind, w[0]) && Stored(kind, w[0]) == w[0]
    ensures !IsWhite(LookAt(s, n + 1)) && At(s, n + 1, w[1..]) && Verbatim(kind, w[1..])
  {
    var rest := w[1..];
    assert w == [w[0]] + rest;
    AtSplit(s, n, [w[0]], rest);
    AtFirst(s, n, w);
    if rest != [] {
      AtFirst(s, n + 1, rest);
      assert rest[0] == w[1];
    } else {
      assert n + 1 == n + |w|;
    }
    forall k | 0 <= k < |rest| ensures Accepts(kind, rest[k]) && Stored(kind, rest[k]) == rest[k] {
      assert rest[k] == w[k + 1];
    }
  }

  /** One scanner round in front of a scanned remainder. */
  lemma ScanCons(s: seq<char>, n: nat, kind: TokenKind, tok: string, w: string)
    requires n <= |s| && |w| > 0 && |tok| < MaxTokenLength - 1
    requires LookAt(s, n) == w[0] && Accepts(kind, w[0]) && Stored(kind, w[0]) == w[0]
    requires !IsWhite(LookAt(s, n + 1))
    requires Scan(s, n + 1, kind, tok + [w[0]]) == (tok + [w[0]] + w[1..], n + 1 + |w[1..]|)
    ensures Scan(s, n, kind, tok) == (tok + w, n + |w|)
  {
    ScanStep(s, n, kind, tok);
    assert tok + [w[0]] + w[1..] == tok + w;
  }

  /** Scanning a run of token characters already in stored form reads exactly that run,
      when the character after it ends the token or the run fills the buffer. */
  lemma {:induction false} ScanText(s: seq<char>, n: nat, kind: TokenKind, tok: string, w: string)
    requires At(s, n, w) && |tok| + |w| <= MaxTokenLength - 1 && Verbatim(kind, w)
    requires !IsWhite(LookAt(s, n + |w|))
    requires !Accepts(kind, LookAt(s, n + |w|)) || |tok| + |w| == MaxTokenLength - 1
    decreases |w|
    ensures Scan(s, n, kind, tok) == (tok + w, n + |w|)
  {
    if w == [] {
      assert tok + w == tok;
    } else {
      ScanHead(s, n, kind, w);
      assert n + 1 + |w[1..]| == n + |w|;
      ScanText(s, n + 1, kind, tok + [w[0]], w[1..]);
      ScanCons(s, n, kind, tok, w);
    }
  }

  /** The first character of a printed tree: never blank, and a sign only where the tree
      is a sum or difference printed without parentheses. */
  lemma {:induction false} ShowFirst(e: Expr, level: nat)
    requires Wf(e) && level <= 2
    ensures |Show(e, level)| > 0
    ensures var c := Show(e, level)[0];
      !IsWhite(c) && (IsAddOp(c) ==> e.Bin? && Level(e.op) == 0 && level == 0)
      && (IsAlpha(c) ==> e.Var? || e.Call? || (e.Bin? && Level(e.op) >= level))
      && (IsDigit(c) ==> e.Num? || (e.Bin? && Level(e.op) >= level))
      && (c == '(' ==> e.Bin?)
  {
    match e
    case Num(d) =>
    case Var(x) =>
    case Call(x) =>
    case Bin(op, l, r) =>
      if Level(op) >= level {
        var t := Show(l, Level(op)) + [Symbol(op)] + Show(r, Level(op) + 1);
        assert Show(e, level) == t;
        if l == Zero {
          assert t[0] == Symbol(op);
        } else {
          ShowFirst(l, Level(op));
          assert t[0] == Show(l, Level(op))[0];
        }
      }
  }

  // One unfolding of each grammar function, each on its own so that no proof below has
  // to unfold the grammar itself.

  /** A numeral that is there, followed by a character that ends it, is read as it stands. */
  lemma GetNumHere(s: seq<char>, n: nat, d: string)
    requires ValidNumeral(d) && At(s, n, d) && !IsWhite(LookAt(s, n + |d|)) && !IsDigit(LookAt(s, n + |d|))
    ensures GetNum(s, n) == Outcome(n + |d|, [], Ok(d))
  {
    AtFirst(s, n, d);
    assert Verbatim(NumberToken, d);
    ScanText(s, n, NumberToken, [], d);
    assert [] + d == d;
  }

  /** A name in stored form that is there, followed by a character that ends it, is read
      as it stands. */
  lemma GetNameHere(s: seq<char>, n: nat, x: string)
    requires ValidName(x) && At(s, n, x) && !IsWhite(LookAt(s, n + |x|)) && !IsAlNum(LookAt(s, n + |x|))
    ensures GetName(s, n) == Outcome(n + |x|, [], Ok(x))
  {
    AtFirst(s, n, x);
    assert Verbatim(NameToken, x);
    ScanText(s, n, NameToken, [], x);
    assert [] + x == x;
  }

  lemma FactorNum(s: seq<char>, n: nat, d: string, m: nat)
    requires n <= |s| + 1 && IsDigit(LookAt(s, n)) && GetNum(s, n) == Outcome(m, [], Ok(d))
    ensures Factor(s, n) == Outcome(m, [MoveImm(d)], Ok(Num(d)))
  {
  }

  lemma FactorIdent(s: seq<char>, n: nat)
    requires n <= |s| + 1 && IsAlpha(LookAt(s, n))
    ensures Factor(s, n) == Ident(s, n)
  {
  }

  lemma IdentVar(s: seq<char>, n: nat, x: string, m: nat)
    requires n <= |s| + 1 && GetName(s, n) == Outcome(m, [], Ok(x)) && LookAt(s, m) != '('
    ensures Ident(s, n) == Outcome(m, [MoveVar(x)], Ok(Var(x)))
  {
  }

  lemma IdentCall(s: seq<char>, n: nat, x: string, m: nat)
    requires n <= |s| + 1 && GetName(s, n) == Outcome(m, [], Ok(x)) && LookAt(s, m) == '('
    requires m <= |s| && Match(s, m, '(') == Ok(m + 1) && Match(s, m + 1, ')') == Ok(m + 2)
    ensures Ident(s, n) == Outcome(m + 2, [Bsr(x)], Ok(Call(x)))
  {
  }

  lemma FactorParen(s: seq<char>, n: nat, e: Expr, code: seq<Instr>, q: nat)
    requires n <= |s| && LookAt(s, n) == '(' && Match(s, n, '(') == Ok(n + 1)
    requires Expression(s, n + 1) == Outcome(q, code, Ok(e))
    requires q <= |s| && Match(s, q, ')') == Ok(q + 1)
    ensures Factor(s, n) == Outcome(q + 1, code, Ok(e))
  {
  }

  lemma TermFactor(s: seq<char>, n: nat, e: Expr, code: seq<Instr>, m: nat)
    requires n <= |s| + 1 && Factor(s, n) == Outcome(m, code, Ok(e))
    ensures Term(s, n) == Extend(code, TermLoop(s, m, e))
  {
  }

  lemma TermLoopStop(s: seq<char>, n: nat, acc: Expr)
    requires n <= |s| + 1 && !IsMulOp(LookAt(s, n))
    ensures TermLoop(s, n, acc) == Outcome(n, [], Ok(acc))
  {
  }

  lemma ExprLoopStop(s: seq<char>, n: nat, acc: Expr)
    requires n <= |s| + 1 && !IsAddOp(LookAt(s, n))
    ensures ExprLoop(s, n, acc) == Outcome(n, [], Ok(acc))
  {
  }

  lemma ExpressionTerm(s: seq<char>, n: nat, e: Expr, code: seq<Instr>, m: nat)
    requires n <= |s| + 1 && !IsAddOp(LookAt(s, n)) && Term(s, n) == Outcome(m, code, Ok(e))
    ensures Expression(s, n) == Extend(code, ExprLoop(s, m, e))
  {
  }

  lemma ExpressionSign(s: seq<char>, n: nat)
    requires n <= |s| + 1 && IsAddOp(LookAt(s, n))
    ensures Expression(s, n) == Extend([ClrD0], ExprLoop(s, n, Zero))
  {
  }

  /** The operator procedure for `*` or `/` on printed text: the operator, the factor, and
      the combining instructions. */
  lemma MulOpHere(s: seq<char>, p: nat, op: Op, r: Expr, code: seq<Instr>, q: nat)
    requires Level(op) == 1 && p <= |s| && Match(s, p, Symbol(op)) == Ok(p + 1)
    requires Factor(s, p + 1) == Outcome(q, code, Ok(r))
    ensures (if op == Times then Multiply(s, p) else Divide(s, p)) == Outcome(q, code + Combine(op), Ok(r))
  {
  }

  lemma AddOpHere(s: seq<char>, p: nat, op: Op, r: Expr, code: seq<Instr>, q: nat)
    requires Level(op) == 0 && p <= |s| && Match(s, p, Symbol(op)) == Ok(p + 1)
    requires Term(s, p + 1) == Outcome(q, code, Ok(r))
    ensures (if op == Plus then Add(s, p) else Subtract(s, p)) == Outcome(q, code + Combine(op), Ok(r))
  {
  }

  lemma TermLoopRound(s: seq<char>, p: nat, acc: Expr, op: Op, r: Expr, code: seq<Instr>, q: nat)
    requires Level(op) == 1 && p <= |s| && LookAt(s, p) == Symbol(op) && p < q <= |s| + 1
    requires (if op == Times then Multiply(s, p) else Divide(s, p)) == Outcome(q, code, Ok(r))
    ensures TermLoop(s, p, acc) == Extend([Push] + code, TermLoop(s, q, Bin(op, acc, r)))
  {
  }

  lemma ExprLoopRound(s: seq<char>, p: nat, acc: Expr, op: Op, r: Expr, code: seq<Instr>, q: nat)
    requires Level(op) == 0 && p <= |s| && LookAt(s, p) == Symbol(op) && p < q <= |s| + 1
    requires (if op == Plus then Add(s, p) else Subtract(s, p)) == Outcome(q, code, Ok(r))
    ensures ExprLoop(s, p, acc) == Extend([Push] + code, ExprLoop(s, q, Bin(op, acc, r)))
  {
  }

  // Framing: where the pieces of a printed tree sit in the input.

  /** `(inner)` in front of a character that ends a factor. */
  lemma ParenHere(s: seq<char>, n: nat, inner: string)
    requires At(s, n, "(" + inner + ")") && Ends(s, n + |inner| + 2, 2)
    requires |inner| > 0 && !IsWhite(inner[0])
    ensures n <= |s| && Match(s, n, '(') == Ok(n + 1) && At(s, n + 1, inner)
    ensures LookAt(s, n) == '('
    ensures n + 1 + |inner| <= |s| && Ends(s, n + 1 + |inner|, 0)
    ensures Match(s, n + 1 + |inner|, ')') == Ok(n + |inner| + 2)
  {
    assert "(" + inner + ")" == "(" + (inner + ")");
    AtSplit(s, n, "(", inner + ")");
    AtSplit(s, n + 1, inner, ")");
    AtFirst(s, n, "(");
    AtFirst(s, n + 1, inner);
    AtFirst(s, n + 1 + |inner|, ")");
    MatchHere(s, n, '(');
    MatchHere(s, n + 1 + |inner|, ')');
  }

  /** `tl op tr` in front of a character that ends a construct of grammar level `level`. */
  lemma OperatorHere(s: seq<char>, n: nat, tl: string, op: Op, tr: string, level: nat)
    requires At(s, n, tl + [Symbol(op)] + tr) && Ends(s, n + |tl + [Symbol(op)] + tr|, level)
    requires |tr| > 0 && !IsWhite(tr[0])
    ensures |tl + [Symbol(op)] + tr| == |tl| + 1 + |tr|
    ensures At(s, n, tl) && At(s, n + |tl| + 1, tr) && n + |tl| <= |s|
    ensures LookAt(s, n + |tl|) == Symbol(op) && Ends(s, n + |tl|, Level(op))
    ensures Match(s, n + |tl|, Symbol(op)) == Ok(n + |tl| + 1)
  {
    var p := n + |tl|;
    AtSplit(s, n, tl + [Symbol(op)], tr);
    AtSplit(s, n, tl, [Symbol(op)]);
    AtFirst(s, p, [Symbol(op)]);
    AtFirst(s, p + 1, tr);
    MatchHere(s, p, Symbol(op));
  }

  /** A term whose loop finds no `*` or `/` ends where the loop starts. */
  lemma TermClosed(s: seq<char>, m: nat, e: Expr, code: seq<Instr>, q: nat)
    requires m <= |s| + 1 && q <= |s| + 1 && !IsMulOp(LookAt(s, q))
    requires Term(s, m) == Extend(code, TermLoop(s, q, e))
    ensures Term(s, m) == Outcome(q, code, Ok(e))
  {
    TermLoopStop(s, q, e);
    assert code + [] == code;
  }

  /** An expression whose loop finds no `+` or `-` ends where the loop starts. */
  lemma ExpressionClosed(s: seq<char>, m: nat, e: Expr, code: seq<Instr>, q: nat)
    requires m <= |s| + 1 && q <= |s| + 1 && !IsAddOp(LookAt(s, q))
    requires Expression(s, m) == Extend(code, ExprLoop(s, q, e))
    ensures Expression(s, m) == Outcome(q, code, Ok(e))
  {
    ExprLoopStop(s, q, e);
    assert code + [] == code;
  }

  /** The code of the left operand, then one loop round, is the code of the whole tree. */
  lemma BinCode<T>(op: Op, l: Expr, r: Expr, o: Outcome<T>)
    ensures Extend(Gen(l), Extend([Push] + (Gen(r) + Combine(op)), o)) == Extend(Gen(Bin(op, l, r)), o)
  {
    var round := [Push] + (Gen(r) + Combine(op));
    calc {
      Gen(l) + (round + o.code);
      Gen(l) + round + o.code;
      { assert Gen(l) + round == Gen(Bin(op, l, r)); }
      Gen(Bin(op, l, r)) + o.code;
    }
  }

  // The three grammar levels on printed text.

  lemma ParseNum(s: seq<char>, n: nat, d: string)
    requires ValidNumeral(d) && At(s, n, d) && Ends(s, n + |d|, 2)
    ensures Factor(s, n) == Outcome(n + |d|, Gen(Num(d)), Ok(Num(d)))
  {
    AtFirst(s, n, d);
    GetNumHere(s, n, d);
    FactorNum(s, n, d, n + |d|);
  }

  lemma ParseVar(s: seq<char>, n: nat, x: string)
    requires ValidName(x) && At(s, n, x) && Ends(s, n + |x|, 2)
    ensures Factor(s, n) == Outcome(n + |x|, Gen(Var(x)), Ok(Var(x)))
  {
    AtFirst(s, n, x);
    GetNameHere(s, n, x);
    FactorIdent(s, n);
    IdentVar(s, n, x, n + |x|);
  }

  lemma ParseCall(s: seq<char>, n: nat, x: string)
    requires ValidName(x) && At(s, n, x + "()") && Ends(s, n + |x| + 2, 2)
    ensures Factor(s, n) == Outcome(n + |x| + 2, Gen(Call(x)), Ok(Call(x)))
  {
    AtSplit(s, n, x, "()");
    AtFirst(s, n, x);
    AtSplit(s, n + |x|, "(", ")");
    AtFirst(s, n + |x|, "(");
    AtFirst(s, n + |x| + 1, ")");
    GetNameHere(s, n, x);
    MatchHere(s, n + |x|, '(');
    MatchHere(s, n + |x| + 1, ')');
    FactorIdent(s, n);
    IdentCall(s, n, x, n + |x|);
  }

  /** Where a tree printed as a factor starts, `Factor` recognises exactly that tree and
      emits exactly its reference code. */
  lemma {:induction false} ParseFactor(s: seq<char>, n: nat, e: Expr)
    requires Wf(e) && At(s, n, Show(e, 2)) && Ends(s, n + |Show(e, 2)|, 2)
    decreases e, Rank(e, 2), 1
    ensures Factor(s, n) == Outcome(n + |Show(e, 2)|, Gen(e), Ok(e))
  {
    match e
    case Num(d) => ParseNum(s, n, d);
    case Var(x) => ParseVar(s, n, x);
    case Call(x) => ParseCall(s, n, x);
    case Bin(_, _, _) => ParseParen(s, n, e);
  }

  /** A sum, difference, product or quotient printed as a factor: in parentheses. */
  lemma {:induction false} ParseParen(s: seq<char>, n: nat, e: Expr)
    requires Wf(e) && e.Bin? && At(s, n, Show(e, 2)) && Ends(s, n + |Show(e, 2)|, 2)
    decreases e, Rank(e, 2), 0
    ensures Factor(s, n) == Outcome(n + |Show(e, 2)|, Gen(e), Ok(e))
  {
    var inner := Show(e, 0);
    assert Show(e, 2) == "(" + inner + ")";
    ShowFirst(e, 0);
    ParenHere(s, n, inner);
    var q := n + 1 + |inner|;
    ParseExpression(s, n + 1, e);
    ExpressionClosed(s, n + 1, e, Gen(e), q);
    FactorParen(s, n, e, Gen(e), q);
  }

  /** The pieces of a product or quotient printed as a term, and where they sit. */
  lemma TermSplit(s: seq<char>, n: nat, e: Expr)
    requires Wf(e) && e.Bin? && Level(e.op) == 1
    requires At(s, n, Show(e, 1)) && Ends(s, n + |Show(e, 1)|, 1)
    ensures var p := n + |Show(e.l, 1)|;
      Wf(e.l) && Wf(e.r) && At(s, n, Show(e.l, 1)) && Ends(s, p, 1)
      && p <= |s| && LookAt(s, p) == Symbol(e.op) && Match(s, p, Symbol(e.op)) == Ok(p + 1)
      && At(s, p + 1, Show(e.r, 2)) && Ends(s, p + 1 + |Show(e.r, 2)|, 2)
      && p + 1 + |Show(e.r, 2)| == n + |Show(e, 1)|
  {
    assert Show(e, 1) == Show(e.l, 1) + [Symbol(e.op)] + Show(e.r, 2);
    ShowFirst(e.r, 2);
    OperatorHere(s, n, Show(e.l, 1), e.op, Show(e.r, 2), 1);
  }

  /** A sum or difference printed as an expression, likewise. */
  lemma ExpressionSplit(s: seq<char>, n: nat, e: Expr)
    requires Wf(e) && e.Bin? && Level(e.op) == 0
    requires At(s, n, Show(e, 0)) && Ends(s, n + |Show(e, 0)|, 0)
    ensures var p := n + |Show(e.l, 0)|;
      (e.l == Zero || Wf(e.l)) && Wf(e.r) && At(s, n, Show(e.l, 0)) && Ends(s, p, 0)
      && p <= |s| && LookAt(s, p) == Symbol(e.op) && Match(s, p, Symbol(e.op)) == Ok(p + 1)
      && At(s, p + 1, Show(e.r, 1)) && Ends(s, p + 1 + |Show(e.r, 1)|, 0)
      && p + 1 + |Show(e.r, 1)| == n + |Show(e, 0)|
      && (e.l == Zero ==> p == n)
  {
    assert Show(e, 0) == Show(e.l, 0) + [Symbol(e.op)] + Show(e.r, 1);
    ShowFirst(e.r, 1);
    OperatorHere(s, n, Show(e.l, 0), e.op, Show(e.r, 1), 0);
  }

  /** The code of the left operand followed by one loop round is the code of the tree. */
  lemma ChainBin<T>(x: Outcome<T>, e: Expr, y: Outcome<T>, z: Outcome<T>)
    requires e.Bin? && x == Extend(Gen(e.l), y) && y == Extend([Push] + (Gen(e.r) + Combine(e.op)), z)
    ensures x == Extend(Gen(e), z)
  {
    BinCode(e.op, e.l, e.r, z);
  }

  /** Where a tree printed as a term starts, `Term` recognises it, emits its reference code
      and goes on with the `*`/`/` loop right after it. */
  lemma {:induction false} ParseTerm(s: seq<char>, n: nat, e: Expr)
    requires Wf(e) && At(s, n, Show(e, 1)) && Ends(s, n + |Show(e, 1)|, 1)
    decreases e, Rank(e, 1), 3
    ensures Term(s, n) == Extend(Gen(e), TermLoop(s, n + |Show(e, 1)|, e))
  {
    if e.Bin? && Level(e.op) == 1 {
      ParseProduct(s, n, e);
    } else {
      ParseLoneFactor(s, n, e);
    }
  }

  /** A term that is a single factor. */
  lemma {:induction false} ParseLoneFactor(s: seq<char>, n: nat, e: Expr)
    requires Wf(e) && !(e.Bin? && Level(e.op) == 1)
    requires At(s, n, Show(e, 1)) && Ends(s, n + |Show(e, 1)|, 1)
    decreases e, Rank(e, 1), 0
    ensures Term(s, n) == Extend(Gen(e), TermLoop(s, n + |Show(e, 1)|, e))
  {
    LoneFactorShow(e);
    ParseFactor(s, n, e);
    TermFactor(s, n, e, Gen(e), n + |Show(e, 1)|);
  }

  /** A term that is not a product or quotient is printed as a factor. */
  lemma LoneFactorShow(e: Expr)
    requires !(e.Bin? && Level(e.op) == 1)
    ensures Show(e, 1) == Show(e, 2)
  {
  }

  /** A product or quotient after its left operand. */
  lemma {:induction false} ParseProduct(s: seq<char>, n: nat, e: Expr)
    requires Wf(e) && e.Bin? && Level(e.op) == 1
    requires At(s, n, Show(e, 1)) && Ends(s, n + |Show(e, 1)|, 1)
    decreases e, Rank(e, 1), 2
    ensures Term(s, n) == Extend(Gen(e), TermLoop(s, n + |Show(e, 1)|, e))
  {
    assert Term(s, n) == Extend(Gen(e.l), TermLoop(s, n + |Show(e.l, 1)|, e.l)) by {
      TermLeft(s, n, e);
      ParseTerm(s, n, e.l);
    }
    ProductRound(s, n, e);
    ChainBin(Term(s, n), e, TermLoop(s, n + |Show(e.l, 1)|, e.l), TermLoop(s, n + |Show(e, 1)|, e));
  }

  /** The `*`/`/` round that follows the left operand of a product or quotient. */
  lemma {:induction false} ProductRound(s: seq<char>, n: nat, e: Expr)
    requires Wf(e) && e.Bin? && Level(e.op) == 1
    requires At(s, n, Show(e, 1)) && Ends(s, n + |Show(e, 1)|, 1)
    decreases e, Rank(e, 1), 1
    ensures TermLoop(s, n + |Show(e.l, 1)|, e.l)
      == Extend([Push] + (Gen(e.r) + Combine(e.op)), TermLoop(s, n + |Show(e, 1)|, e))
  {
    var p, q := n + |Show(e.l, 1)|, n + |Show(e, 1)|;
    ParseRightFactor(s, n, e);
    MulOpHere(s, p, e.op, e.r, Gen(e.r), q);
    TermLoopRound(s, p, e.l, e.op, e.r, Gen(e.r) + Combine(e.op), q);
  }

  /** The left operand of a product or quotient printed as a term. */
  lemma TermLeft(s: seq<char>, n: nat, e: Expr)
    requires Wf(e) && e.Bin? && Level(e.op) == 1
    requires At(s, n, Show(e, 1)) && Ends(s, n + |Show(e, 1)|, 1)
    ensures Wf(e.l) && At(s, n, Show(e.l, 1)) && Ends(s, n + |Show(e.l, 1)|, 1)
  {
    TermSplit(s, n, e);
  }

  /** The operator and right operand of a product or quotient: the factor the `*`/`/` loop
      reads after the operator. */
  lemma {:induction false} ParseRightFactor(s: seq<char>, n: nat, e: Expr)
    requires Wf(e) && e.Bin? && Level(e.op) == 1
    requires At(s, n, Show(e, 1)) && Ends(s, n + |Show(e, 1)|, 1)
    decreases e, Rank(e, 1), 0
    ensures n + |Show(e.l, 1)| <= |s| && LookAt(s, n + |Show(e.l, 1)|) == Symbol(e.op)
    ensures Match(s, n + |Show(e.l, 1)|, Symbol(e.op)) == Ok(n + |Show(e.l, 1)| + 1)
    ensures n + |Show(e.l, 1)| < n + |Show(e, 1)| <= |s| + 1
    ensures Factor(s, n + |Show(e.l, 1)| + 1) == Outcome(n + |Show(e, 1)|, Gen(e.r), Ok(e.r))
  {
    TermSplit(s, n, e);
    ParseFactor(s, n + |Show(e.l, 1)| + 1, e.r);
  }

  /** Where a tree printed as an expression starts, `Expression` recognises it, emits its
      reference code and goes on with the `+`/`-` loop right after it. A leading sign is
      the `Zero` left operand. */
  lemma {:induction false} ParseExpression(s: seq<char>, n: nat, e: Expr)
    requires Wf(e) && At(s, n, Show(e, 0)) && Ends(s, n + |Show(e, 0)|, 0)
    decreases e, Rank(e, 0), 3
    ensures Expression(s, n) == Extend(Gen(e), ExprLoop(s, n + |Show(e, 0)|, e))
  {
    if !(e.Bin? && Level(e.op) == 0) {
      ParseLoneTerm(s, n, e);
    } else if e.l == Zero {
      ParseSigned(s, n, e);
    } else {
      ParseSum(s, n, e);
    }
  }

  /** An expression that is a single term is printed as that term, not starting with a sign. */
  lemma LoneTermHere(s: seq<char>, n: nat, e: Expr)
    requires Wf(e) && !(e.Bin? && Level(e.op) == 0)
    requires At(s, n, Show(e, 0)) && Ends(s, n + |Show(e, 0)|, 0)
    ensures Show(e, 0) == Show(e, 1) && !IsAddOp(LookAt(s, n))
  {
    ShowFirst(e, 0);
    AtFirst(s, n, Show(e, 0));
  }

  /** A term that the `+`/`-` loop does not continue is the whole expression. */
  lemma LoneTermGlue(s: seq<char>, n: nat, e: Expr, q: nat)
    requires n <= |s| + 1 && q <= |s| + 1 && !IsAddOp(LookAt(s, n)) && !IsMulOp(LookAt(s, q))
    requires Term(s, n) == Extend(Gen(e), TermLoop(s, q, e))
    ensures Expression(s, n) == Extend(Gen(e), ExprLoop(s, q, e))
  {
    TermClosed(s, n, e, Gen(e), q);
    ExpressionTerm(s, n, e, Gen(e), q);
  }

  /** An expression that is a single term. */
  lemma {:induction false} ParseLoneTerm(s: seq<char>, n: nat, e: Expr)
    requires Wf(e) && !(e.Bin? && Level(e.op) == 0)
    requires At(s, n, Show(e, 0)) && Ends(s, n + |Show(e, 0)|, 0)
    decreases e, Rank(e, 0), 0
    ensures Expression(s, n) == Extend(Gen(e), ExprLoop(s, n + |Show(e, 0)|, e))
  {
    LoneTermHere(s, n, e);
    ParseTerm(s, n, e);
    LoneTermGlue(s, n, e, n + |Show(e, 0)|);
  }

  /** The right operand of a sum or difference: a term the `+`/`-` loop reads whole. */
  lemma {:induction false} ParseRightTerm(s: seq<char>, n: nat, e: Expr)
    requires Wf(e) && e.Bin? && Level(e.op) == 0
    requires At(s, n, Show(e, 0)) && Ends(s, n + |Show(e, 0)|, 0)
    decreases e, Rank(e, 0), 0
    ensures n + |Show(e.l, 0)| <= |s| && LookAt(s, n + |Show(e.l, 0)|) == Symbol(e.op)
    ensures Match(s, n + |Show(e.l, 0)|, Symbol(e.op)) == Ok(n + |Show(e.l, 0)| + 1)
    ensures n + |Show(e.l, 0)| < n + |Show(e, 0)| <= |s| + 1
    ensures Term(s, n + |Show(e.l, 0)| + 1) == Outcome(n + |Show(e, 0)|, Gen(e.r), Ok(e.r))
  {
    ExpressionSplit(s, n, e);
    var p := n + |Show(e.l, 0)|;
    ParseTerm(s, p + 1, e.r);
    TermClosed(s, p + 1, e.r, Gen(e.r), n + |Show(e, 0)|);
  }

  /** A leading sign: `Zero`, the sign, and the term after it. */
  lemma {:induction false} ParseSigned(s: seq<char>, n: nat, e: Expr)
    requires Wf(e) && e.Bin? && Level(e.op) == 0 && e.l == Zero
    requires At(s, n, Show(e, 0)) && Ends(s, n + |Show(e, 0)|, 0)
    decreases e, Rank(e, 0), 2
    ensures Expression(s, n) == Extend(Gen(e), ExprLoop(s, n + |Show(e, 0)|, e))
  {
    SignHere(s, n, e);
    ExpressionSign(s, n);
    SumRound(s, n, e);
    ChainBin(Expression(s, n), e, ExprLoop(s, n, e.l), ExprLoop(s, n + |Show(e, 0)|, e));
  }

  /** A leading sign is the first character of the printed expression. */
  lemma SignHere(s: seq<char>, n: nat, e: Expr)
    requires Wf(e) && e.Bin? && Level(e.op) == 0 && e.l == Zero
    requires At(s, n, Show(e, 0)) && Ends(s, n + |Show(e, 0)|, 0)
    ensures Show(e.l, 0) == "" && Gen(e.l) == [ClrD0] && IsAddOp(LookAt(s, n))
  {
    ExpressionSplit(s, n, e);
  }

  /** A sum or difference after a left operand. */
  lemma {:induction false} ParseSum(s: seq<char>, n: nat, e: Expr)
    requires Wf(e) && e.Bin? && Level(e.op) == 0 && e.l != Zero
    requires At(s, n, Show(e, 0)) && Ends(s, n + |Show(e, 0)|, 0)
    decreases e, Rank(e, 0), 2
    ensures Expression(s, n) == Extend(Gen(e), ExprLoop(s, n + |Show(e, 0)|, e))
  {
    assert Expression(s, n) == Extend(Gen(e.l), ExprLoop(s, n + |Show(e.l, 0)|, e.l)) by {
      ExpressionLeft(s, n, e);
      ParseExpression(s, n, e.l);
    }
    SumRound(s, n, e);
    ChainBin(Expression(s, n), e, ExprLoop(s, n + |Show(e.l, 0)|, e.l), ExprLoop(s, n + |Show(e, 0)|, e));
  }

  /** The `+`/`-` round that follows the left operand (or the sign) of a sum or difference. */
  lemma {:induction false} SumRound(s: seq<char>, n: nat, e: Expr)
    requires Wf(e) && e.Bin? && Level(e.op) == 0
    requires At(s, n, Show(e, 0)) && Ends(s, n + |Show(e, 0)|, 0)
    decreases e, Rank(e, 0), 1
    ensures ExprLoop(s, n + |Show(e.l, 0)|, e.l)
      == Extend([Push] + (Gen(e.r) + Combine(e.op)), ExprLoop(s, n + |Show(e, 0)|, e))
  {
    var p, q := n + |Show(e.l, 0)|, n + |Show(e, 0)|;
    ParseRightTerm(s, n, e);
    AddOpHere(s, p, e.op, e.r, Gen(e.r), q);
    ExprLoopRound(s, p, e.l, e.op, e.r, Gen(e.r) + Combine(e.op), q);
  }

  /** The left operand of a sum or difference printed as an expression. */
  lemma ExpressionLeft(s: seq<char>, n: nat, e: Expr)
    requires Wf(e) && e.Bin? && Level(e.op) == 0 && e.l != Zero
    requires At(s, n, Show(e, 0)) && Ends(s, n + |Show(e, 0)|, 0)
    ensures Wf(e.l) && At(s, n, Show(e.l, 0)) && Ends(s, n + |Show(e.l, 0)|, 0)
  {
    ExpressionSplit(s, n, e);
  }
}
