/** The Motorola 68000 instructions the translator emits: their text, and an abstract
    machine over unbounded integers that gives them a meaning. */
module M68k {
  import opened Chars
  import opened Diagnostics

  /** One emitted instruction line. */
  datatype Instr =
    | MoveImm(digits: string)   // MOVE #<digits>,D0
    | MoveVar(name: string)     // MOVE <name>(PC)D0
    | Bsr(name: string)         // BSR <name>
    | Push                      // MOVE D0,-(SP)
    | MulsPop                   // MULS (SP)+, D0
    | MovePopD1                 // MOVE (SP)+, D1
    | DivsD0D1                  // DIVS D0, D1
    | MoveD1D0                  // MOVE D1, D0
    | AddPop                    // ADD (SP)+,D0
    | SubPop                    // SUB (SP)+,D0
    | NegD0                     // NEG D0
    | ClrD0                     // CLR D0
    | Lea(name: string)         // LEA <name>(PC),A0
    | StoreD0                   // MOVE D0,(A0)

  /** A scanned identifier: a letter, then letters and digits. */
  predicate IsName(s: string) {
    |s| > 0 && IsAlpha(s[0]) && forall k :: 0 <= k < |s| ==> IsAlNum(s[k])
  }

  /** A scanned numeral: one or more decimal digits. */
  predicate IsNumeral(s: string) {
    |s| > 0 && forall k :: 0 <= k < |s| ==> IsDigit(s[k])
  }

  /** The operands an instruction can carry are the ones the scanners deliver. */
  predicate WellFormed(i: Instr) {
    match i
    case MoveImm(d) => IsNumeral(d)
    case MoveVar(n) => IsName(n)
    case Bsr(n) => IsName(n)
    case Lea(n) => IsName(n)
    case _ => true
  }

  /** The full text of an instruction, as its format string spells it. */
  function Text(i: Instr): string {
    match i
    case MoveImm(d) => "MOVE #" + d + ",D0"
    case MoveVar(n) => "MOVE " + n + "(PC)D0"
    case Bsr(n) => "BSR " + n
    case Push => "MOVE D0,-(SP)"
    case MulsPop => "MULS (SP)+, D0"
    case MovePopD1 => "MOVE (SP)+, D1"
    case DivsD0D1 => "DIVS D0, D1"
    case MoveD1D0 => "MOVE D1, D0"
    case AddPop => "ADD (SP)+,D0"
    case SubPop => "SUB (SP)+,D0"
    case NegD0 => "NEG D0"
    case ClrD0 => "CLR D0"
    case Lea(n) => "LEA " + n + "(PC),A0"
    case StoreD0 => "MOVE D0,(A0)"
  }

  /** Size of the `instruction` buffers the operand-carrying lines are formatted into. */
  const InstructionBuffer: nat := 20

  /** What `snprintf` leaves in a buffer of `InstructionBuffer` bytes: the first 19 characters
      of a longer line, a shorter line whole. */
  function Clip(t: string): (r: string)
    ensures |r| < InstructionBuffer
    ensures r <= t
    ensures |t| < InstructionBuffer ==> r == t
    ensures |t| >= InstructionBuffer ==> |r| == InstructionBuffer - 1
  {
    if |t| < InstructionBuffer then t else t[..InstructionBuffer - 1]
  }

  /** The line the source actually prints for an instruction (its text clipped by the buffer). */
  function Printed(i: Instr): string {
    Clip(Text(i))
  }

  predicate StartsWith(s: string, p: string) {
    |p| <= |s| && s[..|p|] == p
  }

  predicate EndsWith(s: string, q: string) {
    |q| <= |s| && s[|s| - |q|..] == q
  }

  /** The operand between a prefix and a suffix. */
  function Between(s: string, p: string, q: string): string
    requires |p| + |q| <= |s|
  {
    s[|p|..|s| - |q|]
  }

  /** Reads an instruction line back; `None` for a line that is not one of the emitted forms. */
  function Decode(line: string): (r: Option<Instr>)
    ensures r.Some? ==> WellFormed(r.value)
  {
    if line == "MOVE D0,-(SP)" then Some(Push)
    else if line == "MULS (SP)+, D0" then Some(MulsPop)
    else if line == "MOVE (SP)+, D1" then Some(MovePopD1)
    else if line == "DIVS D0, D1" then Some(DivsD0D1)
    else if line == "MOVE D1, D0" then Some(MoveD1D0)
    else if line == "ADD (SP)+,D0" then Some(AddPop)
    else if line == "SUB (SP)+,D0" then Some(SubPop)
    else if line == "NEG D0" then Some(NegD0)
    else if line == "CLR D0" then Some(ClrD0)
    else if line == "MOVE D0,(A0)" then Some(StoreD0)
    else if StartsWith(line, "MOVE #") && EndsWith(line, ",D0") && |line| >= 9
      && IsNumeral(Between(line, "MOVE #", ",D0")) then
      Some(MoveImm(Between(line, "MOVE #", ",D0")))
    else if StartsWith(line, "MOVE ") && EndsWith(line, "(PC)D0") && |line| >= 11
      && IsName(Between(line, "MOVE ", "(PC)D0")) then
      Some(MoveVar(Between(line, "MOVE ", "(PC)D0")))
    else if StartsWith(line, "BSR ") && IsName(line[4..]) then
      Some(Bsr(line[4..]))
    else if StartsWith(line, "LEA ") && EndsWith(line, "(PC),A0") && |line| >= 11
      && IsName(Between(line, "LEA ", "(PC),A0")) then
      Some(Lea(Between(line, "LEA ", "(PC),A0")))
    else None
  }

  /** The state of the abstract machine: the two data registers, the address register
      (holding the name whose address it was loaded with), the stack (top first), the
      variables, and what each subroutine leaves in D0. */
  datatype Machine = Machine(
    d0: int, d1: int, a0: string, stack: seq<int>,
    mem: map<string, int>, subroutines: map<string, int>)

  /** Memory that was never written reads as 0. */
  function Read(m: map<string, int>, x: string): int {
    if x in m then m[x] else 0
  }

  /** The value of a decimal numeral. */
  function Decimal(d: string): (v: nat)
    ensures d == [] ==> v == 0
  {
    if d == [] then 0
    else Decimal(d[..|d| - 1]) * 10 + (if IsDigit(d[|d| - 1]) then d[|d| - 1] as int - '0' as int else 0)
  }

  function Abs(x: int): nat { if x < 0 then -x else x }

  /** Signed division truncating toward zero, as DIVS (and C) define it. */
  function Quot(a: int, b: int): (q: int)
    requires b != 0
    ensures Abs(a - q * b) < Abs(b)
    ensures a - q * b == 0 || (a - q * b < 0 <==> a < 0)
  {
    var u := Abs(a) / Abs(b);
    var r := Abs(a) % Abs(b);
    assert Abs(a) == u * Abs(b) + r;
    if (a < 0) == (b < 0) then
      assert a - u * b == (if a < 0 then -r else r);
      u
    else
      assert a - (-u) * b == (if a < 0 then -r else r);
      -u
  }

  /** One instruction; `None` when the machine faults (popping an empty stack, dividing by zero). */
  function Step(i: Instr, m: Machine): Option<Machine> {
    match i
    case MoveImm(d) => Some(m.(d0 := Decimal(d)))
    case MoveVar(x) => Some(m.(d0 := Read(m.mem, x)))
    case Bsr(x) => Some(m.(d0 := Read(m.subroutines, x)))
    case Push => Some(m.(stack := [m.d0] + m.stack))
    case MulsPop => if m.stack == [] then None else Some(m.(d0 := m.stack[0] * m.d0, stack := m.stack[1..]))
    case MovePopD1 => if m.stack == [] then None else Some(m.(d1 := m.stack[0], stack := m.stack[1..]))
    case DivsD0D1 => if m.d0 == 0 then None else Some(m.(d1 := Quot(m.d1, m.d0)))
    case MoveD1D0 => Some(m.(d0 := m.d1))
    case AddPop => if m.stack == [] then None else Some(m.(d0 := m.stack[0] + m.d0, stack := m.stack[1..]))
    case SubPop => if m.stack == [] then None else Some(m.(d0 := m.d0 - m.stack[0], stack := m.stack[1..]))
    case NegD0 => Some(m.(d0 := -m.d0))
    case ClrD0 => Some(m.(d0 := 0))
    case Lea(x) => Some(m.(a0 := x))
    case StoreD0 => Some(m.(mem := m.mem[m.a0 := m.d0]))
  }

  /** Runs instructions in order, stopping at the first fault. */
  function Run(code: seq<Instr>, m: Machine): Option<Machine> {
    if code == [] then Some(m)
    else match Step(code[0], m)
      case None => None
      case Some(m') => Run(code[1..], m')
  }

  lemma RunSingle(i: Instr, m: Machine)
    ensures Run([i], m) == Step(i, m)
  {
    assert [i][1..] == [];
  }

  /** Running two pieces of code one after the other is running their concatenation. */
  lemma {:induction false} RunAppend(a: seq<Instr>, b: seq<Instr>, m: Machine)
    ensures Run(a + b, m) == match Run(a, m) case None => None case Some(m') => Run(b, m')
  {
    if a == [] {
      assert a + b == b;
    } else {
      assert (a + b)[0] == a[0] && (a + b)[1..] == a[1..] + b;
      match Step(a[0], m)
      case None =>
      case Some(m') => RunAppend(a[1..], b, m');
    }
  }

  /** The length of an instruction's token operand (0 for instructions without one). */
  function OperandLength(i: Instr): nat {
    match i
    case MoveImm(d) => |d|
    case MoveVar(n) => |n|
    case Bsr(n) => |n|
    case Lea(n) => |n|
    case _ => 0
  }

  /** Full instruction text reads back as the instruction: the listing is unambiguous. */
  lemma DecodeText(i: Instr)
    requires WellFormed(i)
    ensures Decode(Text(i)) == Some(i)
  {
    match i
    case MoveImm(d) => DecodeMoveImm(d);
    case MoveVar(n) => DecodeMoveVar(n);
    case Bsr(n) => DecodeBsr(n);
    case Lea(n) => DecodeLea(n);
    case _ =>
  }

  lemma DecodeMoveImm(d: string)
    requires IsNumeral(d)
    ensures Decode(Text(MoveImm(d))) == Some(MoveImm(d))
  {
    var t := Text(MoveImm(d));
    assert t[..6] == "MOVE #" && t[|t| - 3..] == ",D0";
    assert Between(t, "MOVE #", ",D0") == d;
    NotFixed(t);
  }

  lemma DecodeMoveVar(n: string)
    requires IsName(n)
    ensures Decode(Text(MoveVar(n))) == Some(MoveVar(n))
  {
    var t := Text(MoveVar(n));
    assert t[..6] == "MOVE " + [n[0]] && t[|t| - 6..] == "(PC)D0";
    assert t[5] == n[0] && IsAlpha(n[0]);
    assert t[..6][5] != "MOVE #"[5];
    assert Between(t, "MOVE ", "(PC)D0") == n;
    NotFixed(t);
  }

  lemma DecodeBsr(n: string)
    requires IsName(n)
    ensures Decode(Text(Bsr(n))) == Some(Bsr(n))
  {
    var t := Text(Bsr(n));
    assert t[..4] == "BSR " && t[4..] == n;
    assert !StartsWith(t, "MOVE #") && !StartsWith(t, "MOVE ");
    NotFixed(t);
  }

  lemma DecodeLea(n: string)
    requires IsName(n)
    ensures Decode(Text(Lea(n))) == Some(Lea(n))
  {
    var t := Text(Lea(n));
    assert t[..4] == "LEA " && t[|t| - 7..] == "(PC),A0";
    assert !StartsWith(t, "MOVE #") && !StartsWith(t, "MOVE ") && !StartsWith(t, "BSR ");
    assert Between(t, "LEA ", "(PC),A0") == n;
    NotFixed(t);
  }

  /** The texts of the instructions without operands. */
  const FixedTexts: set<string> := {
    "MOVE D0,-(SP)", "MULS (SP)+, D0", "MOVE (SP)+, D1", "DIVS D0, D1", "MOVE D1, D0",
    "ADD (SP)+,D0", "SUB (SP)+,D0", "NEG D0", "CLR D0", "MOVE D0,(A0)"}

  /** A line starting like an operand-carrying instruction is none of the fixed ones. */
  lemma NotFixed(t: string)
    requires |t| >= 5
    requires t[0] == 'B' || t[0] == 'L' || (t[0] == 'M' && t[1] == 'O' && |t| >= 6 && (t[5] == '#' || t[|t| - 3] == ')'))
    ensures t !in FixedTexts
  {
  }

  /** Clipping to the 20-byte buffer changes a line exactly when it loads or addresses a
      variable whose name has the full nine characters. */
  lemma PrintedIsText(i: Instr)
    requires WellFormed(i) && OperandLength(i) <= 9
    ensures Printed(i) == Text(i) <==> !((i.MoveVar? || i.Lea?) && OperandLength(i) == 9)
  {
    if (i.MoveVar? || i.Lea?) && OperandLength(i) == 9 {
      assert |Text(i)| == 20;
    }
  }

  /** As written, loading a nine-character variable prints a line without the last
      character of its destination register, and that line is no instruction at all. */
  lemma NineCharLoadClipped()
    ensures Printed(MoveVar("ABCDEFGHI")) == "MOVE ABCDEFGHI(PC)D"
    ensures Decode(Printed(MoveVar("ABCDEFGHI"))) == None
  {
    var t := Text(MoveVar("ABCDEFGHI"));
    assert t == "MOVE ABCDEFGHI(PC)D0";
    var m := t[..19];
    assert m == "MOVE ABCDEFGHI(PC)D";
    assert m !in FixedTexts;
    assert m[18] == 'D' && !EndsWith(m, ",D0") && !EndsWith(m, "(PC)D0");
    assert m[0] == 'M' && !StartsWith(m, "BSR ") && !StartsWith(m, "LEA ");
  }

  /** As written, storing into a nine-character variable prints its address load without
      the last character of the address register. */
  lemma NineCharStoreClipped()
    ensures Printed(Lea("ABCDEFGHI")) == "LEA ABCDEFGHI(PC),A"
    ensures Decode(Printed(Lea("ABCDEFGHI"))) == None
  {
    var t := Text(Lea("ABCDEFGHI"));
    assert t == "LEA ABCDEFGHI(PC),A0";
    var l := t[..19];
    assert l == "LEA ABCDEFGHI(PC),A";
    assert l !in FixedTexts;
    assert l[0] == 'L' && !StartsWith(l, "MOVE ") && !StartsWith(l, "BSR ");
    assert l[18] == 'A' && !EndsWith(l, "(PC),A0");
  }
}
