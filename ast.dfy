/** Reference semantics for what the translator recognises: expression trees, their value
    with the usual precedence, the code the translator emits for each tree, and a printer
    that writes a tree back as source text with the fewest parentheses. */
module Ast {
  import opened Chars
  import opened Diagnostics
  import opened M68k

  datatype Op = Plus | Minus | Times | Over

  /** `Zero` is the implicit left operand a leading sign applies to (the translator clears D0). */
  datatype Expr =
    | Num(digits: string)
    | Var(name: string)
    | Call(name: string)
    | Zero
    | Bin(op: Op, l: Expr, r: Expr)

  datatype Stmt = Assign(target: string, value: Expr)

  /** 0 for the additive operators, 1 for the multiplicative ones; 2 stands for a factor. */
  function Level(op: Op): nat {
    if op == Plus || op == Minus then 0 else 1
  }

  function LevelOf(e: Expr): nat {
    if e.Bin? then Level(e.op) else 2
  }

  function Symbol(op: Op): char {
    match op
    case Plus => '+'
    case Minus => '-'
    case Times => '*'
    case Over => '/'
  }

  /** An operator applied to two values, `None` for a division by zero. */
  function Apply(op: Op, a: int, b: int): Option<int> {
    match op
    case Plus => Some(a + b)
    case Minus => Some(a - b)
    case Times => Some(a * b)
    case Over => if b == 0 then None else Some(Quot(a, b))
  }

  /** The value of an expression, `None` where it divides by zero. */
  function Eval(e: Expr, mem: map<string, int>, subroutines: map<string, int>): Option<int> {
    match e
    case Num(d) => Some(Decimal(d))
    case Var(x) => Some(Read(mem, x))
    case Call(x) => Some(Read(subroutines, x))
    case Zero => Some(0)
    case Bin(op, l, r) =>
      var a, b := Eval(l, mem, subroutines), Eval(r, mem, subroutines);
      if a.Some? && b.Some? then Apply(op, a.value, b.value) else None
  }

  /** The instructions that combine the pushed left operand with the right one in D0. */
  function Combine(op: Op): seq<Instr> {
    match op
    case Plus => [AddPop]
    case Minus => [SubPop, NegD0]
    case Times => [MulsPop]
    case Over => [MovePopD1, DivsD0D1, MoveD1D0]
  }

  /** The code the translator emits for a tree: left operand, push, right operand, combine. */
  function Gen(e: Expr): seq<Instr> {
    match e
    case Num(d) => [MoveImm(d)]
    case Var(x) => [MoveVar(x)]
    case Call(x) => [Bsr(x)]
    case Zero => [ClrD0]
    case Bin(op, l, r) => Gen(l) + [Push] + Gen(r) + Combine(op)
  }

  /** One round of an operator loop: the code for `acc op t` is the code for `acc`, then the
      push, the code for `t` with its combining instructions, and whatever follows. */
  lemma GenRound(op: Op, acc: Expr, t: Expr, round: seq<Instr>, rest: seq<Instr>)
    requires round == Gen(t) + Combine(op)
    ensures Gen(Bin(op, acc, t)) + rest == Gen(acc) + ([Push] + round + rest)
  {
    calc {
      Gen(Bin(op, acc, t)) + rest;
      Gen(acc) + [Push] + Gen(t) + Combine(op) + rest;
      { assert Gen(acc) + [Push] + Gen(t) + Combine(op) == Gen(acc) + ([Push] + round); }
      Gen(acc) + ([Push] + round) + rest;
    }
  }

  function GenStmt(st: Stmt): seq<Instr> {
    Gen(st.value) + [Lea(st.target), StoreD0]
  }

  /** `m'` is `m` with `v` in D0; only D1, the scratch register, may differ besides. */
  predicate Computes(m: Machine, m': Machine, v: int) {
    m'.d0 == v && m'.stack == m.stack && m'.a0 == m.a0
    && m'.mem == m.mem && m'.subroutines == m.subroutines
  }

  /** With the left operand on top of the stack and the right one in D0, the combining
      instructions pop the left operand and leave `left op right` in D0. */
  lemma CombineComputes(op: Op, m: Machine, left: int, rest: seq<int>)
    requires m.stack == [left] + rest
    ensures Run(Combine(op), m).Some? <==> Apply(op, left, m.d0).Some?
    ensures Run(Combine(op), m).Some? ==>
      var m' := Run(Combine(op), m).value;
      m'.d0 == Apply(op, left, m.d0).value && m'.stack == rest
      && m'.a0 == m.a0 && m'.mem == m.mem && m'.subroutines == m.subroutines
  {
    assert m.stack[0] == left && m.stack[1..] == rest;
    match op
    case Plus => RunSingle(AddPop, m);
    case Minus =>
      assert Combine(op) == [SubPop] + [NegD0];
      RunAppend([SubPop], [NegD0], m);
      RunSingle(SubPop, m);
      RunSingle(NegD0, m.(d0 := m.d0 - left, stack := rest));
    case Times => RunSingle(MulsPop, m);
    case Over =>
      var m1 := m.(d1 := left, stack := rest);
      assert Combine(op) == [MovePopD1] + ([DivsD0D1] + [MoveD1D0]);
      RunAppend([MovePopD1], [DivsD0D1] + [MoveD1D0], m);
      RunSingle(MovePopD1, m);
      RunAppend([DivsD0D1], [MoveD1D0], m1);
      RunSingle(DivsD0D1, m1);
      if m.d0 != 0 {
        RunSingle(MoveD1D0, m1.(d1 := Quot(left, m.d0)));
      }
  }

  /** The code for a tree computes the tree's value in D0 and leaves the stack as it found
      it, whatever the stack held before; it faults exactly when the value is undefined. */
  lemma {:induction false} GenComputes(e: Expr, m: Machine)
    ensures Run(Gen(e), m).Some? <==> Eval(e, m.mem, m.subroutines).Some?
    ensures Run(Gen(e), m).Some? ==> Computes(m, Run(Gen(e), m).value, Eval(e, m.mem, m.subroutines).value)
  {
    if e.Bin? {
      var a, b, c := Gen(e.l), Gen(e.r), Combine(e.op);
      assert Gen(e) == a + ([Push] + (b + c));
      GenComputes(e.l, m);
      RunAppend(a, [Push] + (b + c), m);
      if Run(a, m).Some? {
        var m1 := Run(a, m).value;
        var m2 := m1.(stack := [m1.d0] + m.stack);
        RunAppend([Push], b + c, m1);
        assert Run([Push], m1) == Some(m2);
        GenComputes(e.r, m2);
        RunAppend(b, c, m2);
        if Run(b, m2).Some? {
          var m3 := Run(b, m2).value;
          CombineComputes(e.op, m3, m1.d0, m.stack);
        }
      }
    }
  }

  /** Storing an assignment's value: the target's address is loaded, then D0 is stored there. */
  lemma GenStmtStores(st: Stmt, m: Machine)
    ensures Run(GenStmt(st), m).Some? <==> Eval(st.value, m.mem, m.subroutines).Some?
    ensures Run(GenStmt(st), m).Some? ==>
      var v := Eval(st.value, m.mem, m.subroutines).value;
      var m' := Run(GenStmt(st), m).value;
      m'.mem == m.mem[st.target := v] && m'.d0 == v && m'.a0 == st.target && m'.stack == m.stack
  {
    GenComputes(st.value, m);
    RunAppend(Gen(st.value), [Lea(st.target), StoreD0], m);
    if Run(Gen(st.value), m).Some? {
      var m1 := Run(Gen(st.value), m).value;
      assert [Lea(st.target), StoreD0] == [Lea(st.target)] + [StoreD0];
      RunAppend([Lea(st.target)], [StoreD0], m1);
      RunSingle(Lea(st.target), m1);
      RunSingle(StoreD0, m1.(a0 := st.target));
    }
  }

  /** Net change of the stack depth: +1 per push, -1 per pop. */
  function StackEffect(i: Instr): int {
    match i
    case Push => 1
    case MulsPop => -1
    case MovePopD1 => -1
    case AddPop => -1
    case SubPop => -1
    case _ => 0
  }

  function NetEffect(code: seq<Instr>): int {
    if code == [] then 0 else StackEffect(code[0]) + NetEffect(code[1..])
  }

  lemma {:induction false} NetEffectAppend(a: seq<Instr>, b: seq<Instr>)
    ensures NetEffect(a + b) == NetEffect(a) + NetEffect(b)
  {
    if a == [] {
      assert a + b == b;
    } else {
      assert (a + b)[1..] == a[1..] + b;
      NetEffectAppend(a[1..], b);
    }
  }

  /** Every push in the code for a tree is matched by exactly one pop. */
  lemma {:induction false} GenBalanced(e: Expr)
    ensures NetEffect(Gen(e)) == 0
  {
    if e.Bin? {
      GenBalanced(e.l);
      GenBalanced(e.r);
      NetEffectAppend(Gen(e.l), [Push]);
      NetEffectAppend(Gen(e.l) + [Push], Gen(e.r));
      NetEffectAppend(Gen(e.l) + [Push] + Gen(e.r), Combine(e.op));
      assert NetEffect([Push]) == 1;
      assert NetEffect(Combine(e.op)) == -1 by {
        var c := Combine(e.op);
        assert NetEffect(c[1..]) == 0 by {
          if |c| == 3 { assert NetEffect(c[1..][1..]) == 0; }
        }
      }
    }
  }

  /** A name as the scanner delivers it: at most nine upper-case letters and digits, first a letter. */
  predicate ValidName(x: string) {
    IsName(x) && |x| <= 9 && forall k :: 0 <= k < |x| ==> !IsLower(x[k])
  }

  /** A numeral as the scanner delivers it: one to nine digits. */
  predicate ValidNumeral(d: string) {
    IsNumeral(d) && |d| <= 9
  }

  /** Trees the translator can produce: tokens as scanned, and `Zero` only as the left
      operand of a sign. */
  predicate Wf(e: Expr) {
    match e
    case Num(d) => ValidNumeral(d)
    case Var(x) => ValidName(x)
    case Call(x) => ValidName(x)
    case Zero => false
    case Bin(op, l, r) => (if Level(op) == 0 then l == Zero || Wf(l) else Wf(l)) && Wf(r)
  }

  predicate WfStmt(st: Stmt) {
    ValidName(st.target) && Wf(st.value)
  }

  /** Termination measure for walking one tree through the three grammar levels. */
  function Rank(e: Expr, level: nat): nat {
    (LevelOf(e) - level) % 3
  }

  /** Source text for `e` where the context needs a construct of grammar level `level`
      (0 expression, 1 term, 2 factor): operators are left-associative, `*` and `/` bind
      tighter than `+` and `-`, and parentheses appear only where the tree needs them. */
  function Show(e: Expr, level: nat): string
    requires level <= 2
    decreases e, Rank(e, level)
  {
    match e
    case Num(d) => d
    case Var(x) => x
    case Call(x) => x + "()"
    case Zero => ""
    case Bin(op, l, r) =>
      if Level(op) >= level then Show(l, Level(op)) + [Symbol(op)] + Show(r, Level(op) + 1)
      else "(" + Show(e, 0) + ")"
  }

  function ShowStmt(st: Stmt): string {
    st.target + "=" + Show(st.value, 0)
  }
}
