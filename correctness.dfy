/** The translator end to end: on the line `Show` writes for a well-formed assignment it
    recognises exactly that assignment and emits exactly its reference code, which stores
    the value of the expression into the target; and on any line it accepts, what it
    emits is the reference code of what it recognised. */
module Correctness {
  import opened Chars
  import opened Diagnostics
  import opened M68k
  import opened Ast
  import opened Grammar
  import opened RoundTrip

  /** The source line for an assignment: the statement as printed, then the terminator. */
  function Line(st: Stmt): string {
    ShowStmt(st) + "\n"
  }

  /** From position `n` on, the input holds the rest of itself. */
  lemma {:induction false} AtRest(s: seq<char>, n: nat)
    requires 1 <= n <= |s| + 1
    decreases |s| + 1 - n
    ensures At(s, n, s[n - 1..])
  {
    if n <= |s| {
      AtRest(s, n + 1);
      assert s[n - 1..][1..] == s[n..];
    }
  }

  /** `Assignment` on a name that is there, `=`, and an expression that is read whole. */
  lemma AssignmentHere(s: seq<char>, n: nat, x: string, e: Expr, m: nat, q: nat)
    requires n <= |s| + 1 && GetName(s, n) == Outcome(m, [], Ok(x))
    requires m <= |s| && Match(s, m, '=') == Ok(m + 1)
    requires Expression(s, m + 1) == Outcome(q, Gen(e), Ok(e))
    ensures Assignment(s, n) == Outcome(q, GenStmt(Assign(x, e)), Ok(Assign(x, e)))
  {
  }

  /** `Init` on a line whose assignment ends right at the terminator. */
  lemma InitHere(s: seq<char>, st: Stmt, q: nat)
    requires Start(s) == 1 && Assignment(s, 1) == Outcome(q, GenStmt(st), Ok(st)) && LookAt(s, q) == '\n'
    ensures Init(s) == Outcome(q, GenStmt(st), Ok(st))
  {
  }

  /** Where the pieces of a printed assignment line sit. */
  lemma LineLayout(st: Stmt)
    requires WfStmt(st)
    ensures var s, x, t := Line(st), st.target, Show(st.value, 0);
      |s| == |x| + |t| + 2 && At(s, 1, x) && LookAt(s, |x| + 1) == '='
      && At(s, |x| + 2, t) && LookAt(s, |x| + |t| + 2) == '\n'
  {
    var s, x, t := Line(st), st.target, Show(st.value, 0);
    assert s == x + ("=" + (t + "\n"));
    AtRest(s, 1);
    assert s[0..] == s;
    AtSplit(s, 1, x, "=" + (t + "\n"));
    AtSplit(s, |x| + 1, "=", t + "\n");
    AtFirst(s, |x| + 1, "=");
    AtSplit(s, |x| + 2, t, "\n");
    AtFirst(s, |x| + |t| + 2, "\n");
  }

  /** Translating the printed line of a well-formed assignment recognises that assignment,
      stops at the terminator, and emits exactly its reference code. */
  lemma TranslateLine(st: Stmt)
    requires WfStmt(st)
    ensures Init(Line(st)) == Outcome(|Line(st)|, GenStmt(st), Ok(st))
  {
    var s, x, e := Line(st), st.target, st.value;
    var t := Show(e, 0);
    var q := |x| + |t| + 2;
    LineLayout(st);
    ShowFirst(e, 0);
    AtFirst(s, 1, x);
    AtFirst(s, |x| + 2, t);
    assert Start(s) == 1;
    GetNameHere(s, 1, x);
    MatchHere(s, |x| + 1, '=');
    ParseExpression(s, |x| + 2, e);
    ExpressionClosed(s, |x| + 2, e, Gen(e), q);
    AssignmentHere(s, 1, x, e, |x| + 1, q);
    InitHere(s, st, q);
  }

  /** Running the code for the printed line stores the value of the expression into the
      target, and faults exactly when the expression divides by zero. */
  lemma TranslationStores(st: Stmt, m: Machine)
    requires WfStmt(st)
    ensures var o := Init(Line(st));
      o.result == Ok(st)
      && (Run(o.code, m).Some? <==> Eval(st.value, m.mem, m.subroutines).Some?)
      && (Run(o.code, m).Some? ==>
            Run(o.code, m).value.mem == m.mem[st.target := Eval(st.value, m.mem, m.subroutines).value])
  {
    TranslateLine(st);
    GenStmtStores(st, m);
  }

  /** Whatever line the translator accepts, what it recognised prints back to a line it
      translates the same way: the recognised assignment is well formed and the code
      emitted for the original line is the code emitted for the printed one. */
  lemma AcceptedLinesNormalise(s: seq<char>)
    requires Init(s).result.Ok?
    ensures var st := Init(s).result.value;
      WfStmt(st) && Init(Line(st)).result == Ok(st) && Init(Line(st)).code == Init(s).code
  {
    InitSound(s);
    TranslateLine(Init(s).result.value);
  }

  /** Code that is the reference code for a well-formed tree keeps the stack balanced and
      computes the tree's value in D0, faulting exactly on a division by zero. */
  lemma SoundComputes(o: Outcome<Expr>, m: Machine)
    requires Sound(o, []) && o.result.Ok?
    ensures NetEffect(o.code) == 0
    ensures Run(o.code, m).Some? <==> Eval(o.result.value, m.mem, m.subroutines).Some?
    ensures Run(o.code, m).Some? ==> Computes(m, Run(o.code, m).value, Eval(o.result.value, m.mem, m.subroutines).value)
  {
    var e := o.result.value;
    assert Gen(e) + [] == Gen(e);
    assert o.code == Gen(e);
    GenBalanced(e);
    GenComputes(e, m);
  }

  /** The code for any expression the translator accepts keeps the stack balanced and
      computes the expression's value in D0, faulting exactly on a division by zero. */
  lemma ExpressionComputes(s: seq<char>, n: nat, m: Machine)
    requires n <= |s| + 1 && Expression(s, n).result.Ok?
    ensures var o := Expression(s, n);
      NetEffect(o.code) == 0
      && (Run(o.code, m).Some? <==> Eval(o.result.value, m.mem, m.subroutines).Some?)
      && (Run(o.code, m).Some? ==> Computes(m, Run(o.code, m).value, Eval(o.result.value, m.mem, m.subroutines).value))
  {
    ExpressionSound(s, n);
    SoundComputes(Expression(s, n), m);
  }

  /** Loading the target's address and storing D0 there leave the stack depth alone. */
  lemma StoreBalanced(x: string)
    ensures NetEffect([Lea(x), StoreD0]) == 0
  {
    assert [Lea(x), StoreD0][1..] == [StoreD0];
    assert [StoreD0][1..] == [];
  }

  /** Whatever line the translator accepts, the code it emitted stores the value of the
      recognised expression into the recognised target and leaves the stack as it was. */
  lemma AcceptedLineStores(s: seq<char>, m: Machine)
    requires Init(s).result.Ok?
    ensures var o := Init(s);
      var st := o.result.value;
      NetEffect(o.code) == 0
      && (Run(o.code, m).Some? <==> Eval(st.value, m.mem, m.subroutines).Some?)
      && (Run(o.code, m).Some? ==>
            Run(o.code, m).value.mem == m.mem[st.target := Eval(st.value, m.mem, m.subroutines).value]
            && Run(o.code, m).value.stack == m.stack)
  {
    InitSound(s);
    var st := Init(s).result.value;
    GenBalanced(st.value);
    StoreBalanced(st.target);
    NetEffectAppend(Gen(st.value), [Lea(st.target), StoreD0]);
    GenStmtStores(st, m);
  }

  /** A statement's printed line and the code for it, read off for one example. */
  lemma ExampleLayout(st: Stmt, s: string, code: seq<Instr>)
    requires WfStmt(st) && Line(st) == s && GenStmt(st) == code
    ensures Init(s) == Outcome(|s|, code, Ok(st))
  {
    TranslateLine(st);
  }

  /** `A=2+3*4`: the product is taken first and its code nests inside the sum's. */
  lemma PrecedenceExample(s: string)
    requires s == "A=2+3*4\n"
    ensures Init(s) == Outcome(8, [MoveImm("2"), Push, MoveImm("3"), Push, MoveImm("4"), MulsPop, AddPop,
                                   Lea("A"), StoreD0], Ok(Assign("A", Bin(Plus, Num("2"), Bin(Times, Num("3"), Num("4"))))))
  {
    var st := Assign("A", Bin(Plus, Num("2"), Bin(Times, Num("3"), Num("4"))));
    assert Line(st) == s by {
      assert Show(st.value, 0) == "2+3*4";
    }
    ExampleLayout(st, s, [MoveImm("2"), Push, MoveImm("3"), Push, MoveImm("4"), MulsPop, AddPop, Lea("A"), StoreD0]);
  }

  /** `A=(2+3)*4`: parentheses make the sum the left operand of the product. */
  lemma ParenthesesExample(s: string)
    requires s == "A=(2+3)*4\n"
    ensures Init(s) == Outcome(10, [MoveImm("2"), Push, MoveImm("3"), AddPop, Push, MoveImm("4"), MulsPop,
                                    Lea("A"), StoreD0], Ok(Assign("A", Bin(Times, Bin(Plus, Num("2"), Num("3")), Num("4")))))
  {
    var st := Assign("A", Bin(Times, Bin(Plus, Num("2"), Num("3")), Num("4")));
    assert Line(st) == s by {
      assert Show(st.value.l, 1) == "(2+3)";
    }
    ExampleLayout(st, s, [MoveImm("2"), Push, MoveImm("3"), AddPop, Push, MoveImm("4"), MulsPop, Lea("A"), StoreD0]);
  }

  /** `A=-5`: a leading sign applies to a cleared D0, and the line stores minus five. */
  lemma NegationExample(s: string, m: Machine)
    requires s == "A=-5\n"
    ensures Init(s) == Outcome(5, [ClrD0, Push, MoveImm("5"), SubPop, NegD0, Lea("A"), StoreD0],
                               Ok(Assign("A", Bin(Minus, Zero, Num("5")))))
    ensures Run(Init(s).code, m).Some? && Run(Init(s).code, m).value.mem == m.mem["A" := -5]
  {
    var st := Assign("A", Bin(Minus, Zero, Num("5")));
    assert Line(st) == s;
    ExampleLayout(st, s, [ClrD0, Push, MoveImm("5"), SubPop, NegD0, Lea("A"), StoreD0]);
    GenStmtStores(st, m);
    assert Eval(st.value, m.mem, m.subroutines) == Some(-5) by {
      assert Decimal("5") == 5;
    }
  }

  /** `X=F()+Y`: a name followed by `()` is a subroutine call, a bare name a variable. */
  lemma CallExample(s: string)
    requires s == "X=F()+Y\n"
    ensures Init(s) == Outcome(8, [Bsr("F"), Push, MoveVar("Y"), AddPop, Lea("X"), StoreD0],
                               Ok(Assign("X", Bin(Plus, Call("F"), Var("Y")))))
  {
    var st := Assign("X", Bin(Plus, Call("F"), Var("Y")));
    assert Line(st) == s;
    ExampleLayout(st, s, [Bsr("F"), Push, MoveVar("Y"), AddPop, Lea("X"), StoreD0]);
  }

  /** A line that does not start with a letter is refused before anything is emitted. */
  lemma MissingTargetExample(s: string)
    requires s == "1=2\n"
    ensures Init(s) == Outcome(1, [], Abort(Name))
  {
    assert Start(s) == 1;
  }

  /** A target without `=` after it is refused where the `=` should be. */
  lemma MissingEqualsExample(s: string)
    requires s == "AB\n"
    ensures Init(s).code == [] && Init(s).result == Abort(Char('='))
  {
    assert Start(s) == 1;
    assert At(s, 1, "AB") && LookAt(s, 3) == '\n';
    GetNameHere(s, 1, "AB");
  }

  /** What follows a complete assignment must be the line terminator: the whole code for
      the assignment has been emitted by then, and the line is refused after it. */
  lemma TrailingTextExample(s: string)
    requires s == "A=1)\n"
    ensures Init(s) == Outcome(4, [MoveImm("1"), Lea("A"), StoreD0], Abort(Newline))
  {
    var e := Num("1");
    assert Start(s) == 1;
    assert Assignment(s, 1) == Outcome(4, [MoveImm("1"), Lea("A"), StoreD0], Ok(Assign("A", e))) by {
      assert At(s, 1, "A") && At(s, 3, "1") && LookAt(s, 4) == ')';
      assert Ends(s, 4, 0);
      GetNameHere(s, 1, "A");
      MatchHere(s, 2, '=');
      ParseExpression(s, 3, e);
      ExpressionClosed(s, 3, e, Gen(e), 4);
      AssignmentHere(s, 1, "A", e, 2, 4);
    }
  }

  /** Where the pieces of `x=d c` followed by the terminator sit. */
  lemma CapLayout(x: string, d: string, c: char)
    requires ValidName(x) && ValidNumeral(d)
    ensures var s := x + "=" + d + [c] + "\n";
      At(s, 1, x) && LookAt(s, |x| + 1) == '=' && At(s, |x| + 2, d) && LookAt(s, |x| + |d| + 2) == c
  {
    var s := x + "=" + d + [c] + "\n";
    assert s == x + ("=" + (d + ([c] + "\n")));
    AtRest(s, 1);
    assert s[0..] == s;
    AtSplit(s, 1, x, "=" + (d + ([c] + "\n")));
    AtSplit(s, |x| + 1, "=", d + ([c] + "\n"));
    AtFirst(s, |x| + 1, "=");
    AtSplit(s, |x| + 2, d, [c] + "\n");
    AtFirst(s, |x| + |d| + 2, [c] + "\n");
  }

  /** Nine digits followed by a tenth make an expression of the first nine that stops in
      front of the tenth. */
  lemma CapExpression(s: seq<char>, p: nat, d: string)
    requires ValidNumeral(d) && |d| == 9 && At(s, p, d) && IsDigit(LookAt(s, p + 9))
    ensures Expression(s, p) == Outcome(p + 9, [MoveImm(d)], Ok(Num(d)))
  {
    var e, q := Num(d), p + 9;
    AtFirst(s, p, d);
    assert GetNum(s, p) == Outcome(q, [], Ok(d)) by {
      assert Verbatim(NumberToken, d);
      ScanText(s, p, NumberToken, [], d);
      assert [] + d == d;
    }
    FactorNum(s, p, d, q);
    TermFactor(s, p, e, [MoveImm(d)], q);
    TermLoopStop(s, q, e);
    ExpressionTerm(s, p, e, [MoveImm(d)], q);
    ExprLoopStop(s, q, e);
    assert [MoveImm(d)] + [] == [MoveImm(d)];
  }

  /** The digits of a numeral after the ninth are left unread: an assignment of a
      ten-digit numeral stores the first nine and is then refused where its terminator
      should be, all its code already emitted. */
  lemma NumeralCap(x: string, d: string, c: char)
    requires ValidName(x) && ValidNumeral(d) && |d| == 9 && IsDigit(c)
    ensures Init(x + "=" + d + [c] + "\n") == Outcome(|x| + 11, GenStmt(Assign(x, Num(d))), Abort(Newline))
  {
    var s := x + "=" + d + [c] + "\n";
    var q := |x| + 11;
    CapLayout(x, d, c);
    assert Assignment(s, 1) == Outcome(q, GenStmt(Assign(x, Num(d))), Ok(Assign(x, Num(d)))) by {
      AtFirst(s, |x| + 2, d);
      GetNameHere(s, 1, x);
      MatchHere(s, |x| + 1, '=');
      CapExpression(s, |x| + 2, d);
      AssignmentHere(s, 1, x, Num(d), |x| + 1, q);
    }
    AtFirst(s, 1, x);
    assert Start(s) == 1;
  }
}
