/** The translator as functions of the input: each C function of the translator becomes a
    function from the cursor position it starts at to the position it stops at, the
    instructions it emits and, unless it aborts, the construct it recognised. The imperative
    model in module Translator is proved to follow these step by step. */
module Grammar {
  import opened Chars
  import opened Diagnostics
  import opened M68k
  import opened Ast

  /** Size of the token buffers; a token holds at most `MaxTokenLength - 1` characters. */
  const MaxTokenLength: nat := 10

  /** What one C function leaves behind: how many characters have been read, the
      instructions it emitted (in order) and what it recognised or why it aborted. */
  datatype Outcome<T> = Outcome(next: nat, code: seq<Instr>, result: Result<T>)

  /** An outcome preceded by instructions emitted earlier. */
  function Extend<T>(code: seq<Instr>, o: Outcome<T>): Outcome<T> {
    Outcome(o.next, code + o.code, o.result)
  }

  predicate AllWellFormed(code: seq<Instr>) {
    forall i :: i in code ==> WellFormed(i)
  }

  // ---------------------------------------------------------------- cursor

  /** The lookahead after `n` calls of `getchar` on input `s`: nothing read yet, the `n`-th
      character, or the end marker once the input is exhausted. */
  function LookAt(s: seq<char>, n: nat): (c: char)
    ensures c != NUL && c != EndMarker ==> 1 <= n <= |s|
  {
    if n == 0 then NUL else if n <= |s| then s[n - 1] else EndMarker
  }

  /** `GetChar`: read one more character. Past the end the count stops at `|s| + 1`,
      where `getchar` keeps returning EOF. */
  function Advance(s: seq<char>, n: nat): (m: nat)
    requires n <= |s| + 1
    ensures m <= |s| + 1 && LookAt(s, m) == (if n < |s| then s[n] else EndMarker)
  {
    if n <= |s| then n + 1 else n
  }

  /** `SkipWhite`: read on while the lookahead is a space or a tab. */
  function SkipWhite(s: seq<char>, n: nat): (m: nat)
    requires n <= |s| + 1
    decreases |s| + 1 - n
    ensures n <= m <= |s| + 1
    ensures !IsWhite(LookAt(s, m))
  {
    if IsWhite(LookAt(s, n)) then SkipWhite(s, Advance(s, n)) else n
  }

  /** Every character `SkipWhite` passes over is a blank: it stops at the first non-blank. */
  lemma {:induction false} SkipWhiteSkipsBlanks(s: seq<char>, n: nat)
    requires n <= |s| + 1
    decreases |s| + 1 - n
    ensures forall k :: n <= k < SkipWhite(s, n) ==> IsWhite(LookAt(s, k))
  {
    if IsWhite(LookAt(s, n)) {
      SkipWhiteSkipsBlanks(s, Advance(s, n));
    }
  }

  /** `GetChar(); SkipWhite();`, the way every consumed character is followed. */
  function Consume(s: seq<char>, n: nat): (m: nat)
    requires n <= |s| + 1
  {
    SkipWhite(s, Advance(s, n))
  }

  /** `Match(x)`: consume `x` and the blanks after it, or abort expecting `x`, reading nothing. */
  function Match(s: seq<char>, n: nat, x: char): (r: Result<nat>)
    requires n <= |s| + 1
    ensures r.Ok? <==> LookAt(s, n) == x
    ensures r.Abort? ==> r.expected == Char(x)
    ensures r.Ok? ==> Advance(s, n) <= r.value <= |s| + 1 && !IsWhite(LookAt(s, r.value))
  {
    if LookAt(s, n) == x then Ok(Consume(s, n)) else Abort(Char(x))
  }

  /** On a match, `Match` reads the character and then exactly the blanks after it. */
  lemma MatchSkipsBlanks(s: seq<char>, n: nat, x: char)
    requires n <= |s| + 1 && Match(s, n, x).Ok?
    ensures Match(s, n, x).value == SkipWhite(s, Advance(s, n))
    ensures forall k :: Advance(s, n) <= k < Match(s, n, x).value ==> IsWhite(LookAt(s, k))
  {
    SkipWhiteSkipsBlanks(s, Advance(s, n));
  }

  // ---------------------------------------------------------------- scanners

  datatype TokenKind = NameToken | NumberToken

  /** The characters a token of this kind is made of. */
  predicate Accepts(kind: TokenKind, c: char) {
    if kind == NameToken then IsAlNum(c) else IsDigit(c)
  }

  /** How an accepted character is stored in the token: names are upper-cased. */
  function Stored(kind: TokenKind, c: char): char {
    if kind == NameToken then ToUpper(c) else c
  }

  /** What a stored token character looks like. */
  predicate StoredForm(kind: TokenKind, c: char) {
    if kind == NameToken then IsAlNum(c) && !IsLower(c) else IsDigit(c)
  }

  /** The loop shared by `GetName` and `GetNum`: while the lookahead is accepted and the
      buffer has room, store it and consume it (with the blanks after it). */
  function Scan(s: seq<char>, n: nat, kind: TokenKind, tok: string): (r: (string, nat))
    requires n <= |s| + 1 && |tok| <= MaxTokenLength - 1
    decreases MaxTokenLength - 1 - |tok|
    ensures |tok| <= |r.0| <= MaxTokenLength - 1 && r.0[..|tok|] == tok
    ensures n <= r.1 <= |s| + 1
    ensures |r.0| < MaxTokenLength - 1 ==> !Accepts(kind, LookAt(s, r.1))
    ensures |tok| < MaxTokenLength - 1 && Accepts(kind, LookAt(s, n)) ==>
      |tok| < |r.0| && r.0[|tok|] == Stored(kind, LookAt(s, n)) && n < r.1
  {
    var c := LookAt(s, n);
    if Accepts(kind, c) && |tok| < MaxTokenLength - 1 then
      Scan(s, Consume(s, n), kind, tok + [Stored(kind, c)])
    else
      (tok, n)
  }

  /** Every character the scanner adds is in stored form: names come out upper-cased. */
  lemma {:induction false} ScanStoresForm(s: seq<char>, n: nat, kind: TokenKind, tok: string)
    requires n <= |s| + 1 && |tok| <= MaxTokenLength - 1
    decreases MaxTokenLength - 1 - |tok|
    ensures forall k :: |tok| <= k < |Scan(s, n, kind, tok).0| ==> StoredForm(kind, Scan(s, n, kind, tok).0[k])
  {
    var c := LookAt(s, n);
    if Accepts(kind, c) && |tok| < MaxTokenLength - 1 {
      ScanStoresForm(s, Consume(s, n), kind, tok + [Stored(kind, c)]);
    }
  }

  /** The input from position `n` on with its blanks left out: what the scanners see, since
      every character they consume is followed by `SkipWhite`. */
  function Visible(s: seq<char>, n: nat): seq<char>
    requires 1 <= n <= |s| + 1
    decreases |s| + 1 - n
  {
    if n > |s| then [] else (if IsWhite(s[n - 1]) then [] else [s[n - 1]]) + Visible(s, n + 1)
  }

  /** The token a scanner of this kind takes from the front of `v`: the accepted characters,
      in stored form, and at most `room` of them. */
  function Taken(kind: TokenKind, v: seq<char>, room: nat): (r: string)
    ensures |r| <= room && |r| <= |v|
  {
    if v == [] || room == 0 || !Accepts(kind, v[0]) then [] else [Stored(kind, v[0])] + Taken(kind, v[1..], room - 1)
  }

  /** Skipping blanks changes nothing the scanners see. */
  lemma {:induction false} SkipWhiteInvisible(s: seq<char>, n: nat)
    requires 1 <= n <= |s| + 1
    decreases |s| + 1 - n
    ensures Visible(s, n) == Visible(s, SkipWhite(s, n))
  {
    if IsWhite(LookAt(s, n)) {
      SkipWhiteInvisible(s, n + 1);
    }
  }

  /** At a non-blank character, the visible input is that character, then what is visible
      once it has been consumed. */
  lemma VisibleStep(s: seq<char>, n: nat)
    requires 1 <= n <= |s| && !IsWhite(s[n - 1])
    ensures Visible(s, n) == [s[n - 1]] + Visible(s, Consume(s, n))
  {
    SkipWhiteInvisible(s, n + 1);
  }

  lemma TakenStep(kind: TokenKind, c: char, w: seq<char>, room: nat)
    requires 0 < room && Accepts(kind, c)
    ensures Taken(kind, [c] + w, room) == [Stored(kind, c)] + Taken(kind, w, room - 1)
  {
    assert ([c] + w)[1..] == w;
  }

  lemma AppendStep(tok: string, x: char, t: string, a: string, b: string)
    requires a == (tok + [x]) + t && b == [x] + t
    ensures a == tok + b
  {
  }

  /** From a non-blank lookahead, the scanner takes exactly the token at the front of the
      visible input: so `A B` scans as `AB`, and a tenth letter or digit is left unread. */
  lemma {:induction false} ScanTakes(s: seq<char>, n: nat, kind: TokenKind, tok: string)
    requires 1 <= n <= |s| + 1 && |tok| <= MaxTokenLength - 1 && !IsWhite(LookAt(s, n))
    decreases MaxTokenLength - 1 - |tok|
    ensures Scan(s, n, kind, tok).0 == tok + Taken(kind, Visible(s, n), MaxTokenLength - 1 - |tok|)
  {
    var c := LookAt(s, n);
    var room := MaxTokenLength - 1 - |tok|;
    if n <= |s| && Accepts(kind, c) && 0 < room {
      var m := Consume(s, n);
      var x := Stored(kind, c);
      VisibleStep(s, n);
      TakenStep(kind, c, Visible(s, m), room);
      ScanTakes(s, m, kind, tok + [x]);
      AppendStep(tok, x, Taken(kind, Visible(s, m), room - 1), Scan(s, m, kind, tok + [x]).0, Taken(kind, Visible(s, n), room));
    } else {
      assert tok + [] == tok;
    }
  }

  lemma DropFirst(c: char, w: seq<char>, k: nat)
    requires 1 <= k <= |w| + 1
    ensures ([c] + w)[k..] == w[k - 1..]
  {
  }

  /** After the scanner, the visible input has lost exactly the characters it took. */
  lemma {:induction false} ScanLeaves(s: seq<char>, n: nat, kind: TokenKind, tok: string)
    requires 1 <= n <= |s| + 1 && |tok| <= MaxTokenLength - 1 && !IsWhite(LookAt(s, n))
    decreases MaxTokenLength - 1 - |tok|
    ensures |Scan(s, n, kind, tok).0| - |tok| <= |Visible(s, n)|
    ensures Visible(s, Scan(s, n, kind, tok).1) == Visible(s, n)[|Scan(s, n, kind, tok).0| - |tok|..]
  {
    var c := LookAt(s, n);
    if n <= |s| && Accepts(kind, c) && |tok| < MaxTokenLength - 1 {
      var m := Consume(s, n);
      var tok' := tok + [Stored(kind, c)];
      VisibleStep(s, n);
      ScanLeaves(s, m, kind, tok');
      DropFirst(c, Visible(s, m), |Scan(s, m, kind, tok').0| - |tok|);
    }
  }

  /** `GetName`: a letter must come first; the name is then scanned, upper-cased. */
  function GetName(s: seq<char>, n: nat): (r: Outcome<string>)
    requires n <= |s| + 1
    ensures r.code == []
    ensures r.result.Abort? <==> !IsAlpha(LookAt(s, n))
    ensures r.result.Abort? ==> r.result.expected == Name && r.next == n
    ensures r.result.Ok? ==> ValidName(r.result.value) && n < r.next <= |s| + 1
  {
    if !IsAlpha(LookAt(s, n)) then Outcome(n, [], Abort(Name))
    else
      var (t, m) := Scan(s, n, NameToken, []);
      ScanStoresForm(s, n, NameToken, []);
      Outcome(m, [], Ok(t))
  }

  /** `GetNum`: a digit must come first; the digits are then scanned verbatim. */
  function GetNum(s: seq<char>, n: nat): (r: Outcome<string>)
    requires n <= |s| + 1
    ensures r.code == []
    ensures r.result.Abort? <==> !IsDigit(LookAt(s, n))
    ensures r.result.Abort? ==> r.result.expected == Integer && r.next == n
    ensures r.result.Ok? ==> ValidNumeral(r.result.value) && n < r.next <= |s| + 1
  {
    if !IsDigit(LookAt(s, n)) then Outcome(n, [], Abort(Integer))
    else
      var (t, m) := Scan(s, n, NumberToken, []);
      ScanStoresForm(s, n, NumberToken, []);
      Outcome(m, [], Ok(t))
  }

  lemma GetNameScans(s: seq<char>, n: nat)
    requires n <= |s| + 1 && IsAlpha(LookAt(s, n))
    ensures GetName(s, n) == Outcome(Scan(s, n, NameToken, []).1, [], Ok(Scan(s, n, NameToken, []).0))
  {
  }

  lemma GetNumScans(s: seq<char>, n: nat)
    requires n <= |s| + 1 && IsDigit(LookAt(s, n))
    ensures GetNum(s, n) == Outcome(Scan(s, n, NumberToken, []).1, [], Ok(Scan(s, n, NumberToken, []).0))
  {
  }

  /** What a scan from an empty buffer takes, and where the visible input resumes. */
  lemma ScanVisible(s: seq<char>, n: nat, kind: TokenKind)
    requires 1 <= n <= |s| + 1 && !IsWhite(LookAt(s, n))
    ensures Scan(s, n, kind, []).0 == Taken(kind, Visible(s, n), MaxTokenLength - 1)
    ensures Visible(s, Scan(s, n, kind, []).1) == Visible(s, n)[|Scan(s, n, kind, []).0|..]
  {
    ScanTakes(s, n, kind, []);
    ScanLeaves(s, n, kind, []);
    assert [] + Taken(kind, Visible(s, n), MaxTokenLength - 1) == Taken(kind, Visible(s, n), MaxTokenLength - 1);
  }

  /** The name `GetName` delivers is the run of letters and digits at the front of the visible
      input, upper-cased and cut to nine; the visible input then resumes right after it. */
  lemma GetNameVisible(s: seq<char>, n: nat)
    requires 1 <= n <= |s| + 1 && IsAlpha(LookAt(s, n))
    ensures GetName(s, n).result == Ok(Taken(NameToken, Visible(s, n), MaxTokenLength - 1))
    ensures Visible(s, GetName(s, n).next) == Visible(s, n)[|GetName(s, n).result.value|..]
  {
    GetNameScans(s, n);
    ScanVisible(s, n, NameToken);
  }

  /** Likewise for `GetNum` and the run of digits at the front of the visible input. */
  lemma GetNumVisible(s: seq<char>, n: nat)
    requires 1 <= n <= |s| + 1 && IsDigit(LookAt(s, n))
    ensures GetNum(s, n).result == Ok(Taken(NumberToken, Visible(s, n), MaxTokenLength - 1))
    ensures Visible(s, GetNum(s, n).next) == Visible(s, n)[|GetNum(s, n).result.value|..]
  {
    GetNumScans(s, n);
    ScanVisible(s, n, NumberToken);
  }

  /** The visible input of `a b=1` drops the blank between the two letters. */
  lemma NameAcrossBlankVisible(s: string)
    requires s == "a b=1\n"
    ensures Visible(s, 1) == ['a'] + (['b'] + "=1\n")
  {
    assert Visible(s, 7) == [];
    assert Visible(s, 6) == "\n";
    assert Visible(s, 5) == "1\n";
    assert Visible(s, 4) == "=1\n";
    assert Visible(s, 3) == ['b'] + "=1\n";
    assert Visible(s, 2) == Visible(s, 3);
    assert Visible(s, 1) == ['a'] + (['b'] + "=1\n");
  }

  /** Blanks inside a name are skipped: `a b` is read as the single name `AB`. */
  lemma NameAcrossBlank(s: string)
    requires s == "a b=1\n"
    ensures GetName(s, 1).result == Ok("AB")
  {
    GetNameVisible(s, 1);
    NameAcrossBlankVisible(s);
    TakenStep(NameToken, 'a', ['b'] + "=1\n", 9);
    TakenStep(NameToken, 'b', "=1\n", 8);
    assert Taken(NameToken, "=1\n", 7) == [];
    assert Stored(NameToken, 'a') == 'A' && Stored(NameToken, 'b') == 'B';
    assert Taken(NameToken, Visible(s, 1), 9) == ['A'] + (['B'] + []) == "AB";
  }

  // ---------------------------------------------------------------- grammar

  /** `Ident`: a name, then either `()` (a call) or nothing (a variable). */
  function Ident(s: seq<char>, n: nat): (r: Outcome<Expr>)
    requires n <= |s| + 1
    ensures n <= r.next <= |s| + 1
    ensures r.result.Ok? ==> n < r.next
  {
    var t := GetName(s, n);
    if t.result.Abort? then Outcome(t.next, [], Abort(t.result.expected))
    else
      var name, m := t.result.value, t.next;
      if LookAt(s, m) == '(' then
        match Match(s, m, '(')
        case Abort(e) => Outcome(m, [], Abort(e))
        case Ok(m1) =>
          match Match(s, m1, ')')
          case Abort(e) => Outcome(m1, [], Abort(e))
          case Ok(m2) => Outcome(m2, [Bsr(name)], Ok(Call(name)))
      else
        Outcome(m, [MoveVar(name)], Ok(Var(name)))
  }

  /** `Factor`: a parenthesised expression, an identifier, or a number loaded into D0. */
  function Factor(s: seq<char>, n: nat): (r: Outcome<Expr>)
    requires n <= |s| + 1
    decreases |s| + 1 - n, 1
    ensures n <= r.next <= |s| + 1
    ensures r.result.Ok? ==> n < r.next
  {
    var c := LookAt(s, n);
    if c == '(' then
      match Match(s, n, '(')
      case Abort(e) => Outcome(n, [], Abort(e))
      case Ok(m) =>
        var o := Expression(s, m);
        if o.result.Abort? then o
        else
          match Match(s, o.next, ')')
          case Abort(e) => Outcome(o.next, o.code, Abort(e))
          case Ok(m2) => Outcome(m2, o.code, o.result)
    else if IsAlpha(c) then
      Ident(s, n)
    else
      var t := GetNum(s, n);
      if t.result.Abort? then Outcome(t.next, [], Abort(t.result.expected))
      else Outcome(t.next, [MoveImm(t.result.value)], Ok(Num(t.result.value)))
  }

  /** `Multiply`: `*`, the right factor, then `MULS (SP)+, D0`. */
  function Multiply(s: seq<char>, n: nat): (r: Outcome<Expr>)
    requires n <= |s| + 1
    decreases |s| + 1 - n, 0
    ensures n <= r.next <= |s| + 1
    ensures r.result.Ok? ==> n < r.next
  {
    match Match(s, n, '*')
    case Abort(e) => Outcome(n, [], Abort(e))
    case Ok(m) =>
      var f := Factor(s, m);
      if f.result.Abort? then f
      else Outcome(f.next, f.code + [MulsPop], f.result)
  }

  /** `Divide`: `/`, the right factor, then the pop into D1, `DIVS D0, D1` and the move back. */
  function Divide(s: seq<char>, n: nat): (r: Outcome<Expr>)
    requires n <= |s| + 1
    decreases |s| + 1 - n, 0
    ensures n <= r.next <= |s| + 1
    ensures r.result.Ok? ==> n < r.next
  {
    match Match(s, n, '/')
    case Abort(e) => Outcome(n, [], Abort(e))
    case Ok(m) =>
      var f := Factor(s, m);
      if f.result.Abort? then f
      else Outcome(f.next, f.code + [MovePopD1, DivsD0D1, MoveD1D0], f.result)
  }

  /** The `while` loop of `Term`, with `acc` the term recognised so far. Each round emits
      the push before consuming the operator. */
  function TermLoop(s: seq<char>, n: nat, acc: Expr): (r: Outcome<Expr>)
    requires n <= |s| + 1
    decreases |s| + 1 - n, 1
    ensures n <= r.next <= |s| + 1
  {
    var c := LookAt(s, n);
    if c == '*' || c == '/' then
      var o := if c == '*' then Multiply(s, n) else Divide(s, n);
      if o.result.Abort? then Extend([Push], o)
      else
        var e := Bin(if c == '*' then Times else Over, acc, o.result.value);
        Extend([Push] + o.code, TermLoop(s, o.next, e))
    else
      Outcome(n, [], Ok(acc))
  }

  /** `Term`: a factor, then any number of `*` or `/` factors. */
  function Term(s: seq<char>, n: nat): (r: Outcome<Expr>)
    requires n <= |s| + 1
    decreases |s| + 1 - n, 2
    ensures n <= r.next <= |s| + 1
    ensures r.result.Ok? ==> n < r.next
  {
    var f := Factor(s, n);
    if f.result.Abort? then f
    else Extend(f.code, TermLoop(s, f.next, f.result.value))
  }

  /** `Add`: `+`, the right term, then `ADD (SP)+,D0`. */
  function Add(s: seq<char>, n: nat): (r: Outcome<Expr>)
    requires n <= |s| + 1
    decreases |s| + 1 - n, 1
    ensures n <= r.next <= |s| + 1
    ensures r.result.Ok? ==> n < r.next
  {
    match Match(s, n, '+')
    case Abort(e) => Outcome(n, [], Abort(e))
    case Ok(m) =>
      var t := Term(s, m);
      if t.result.Abort? then t
      else Outcome(t.next, t.code + [AddPop], t.result)
  }

  /** `Subtract`: `-`, the right term, then `SUB (SP)+,D0` and `NEG D0`. */
  function Subtract(s: seq<char>, n: nat): (r: Outcome<Expr>)
    requires n <= |s| + 1
    decreases |s| + 1 - n, 1
    ensures n <= r.next <= |s| + 1
    ensures r.result.Ok? ==> n < r.next
  {
    match Match(s, n, '-')
    case Abort(e) => Outcome(n, [], Abort(e))
    case Ok(m) =>
      var t := Term(s, m);
      if t.result.Abort? then t
      else Outcome(t.next, t.code + [SubPop, NegD0], t.result)
  }

  /** The `while` loop of `Expression`, with `acc` the expression recognised so far. */
  function ExprLoop(s: seq<char>, n: nat, acc: Expr): (r: Outcome<Expr>)
    requires n <= |s| + 1
    decreases |s| + 1 - n, 2
    ensures n <= r.next <= |s| + 1
  {
    var c := LookAt(s, n);
    if c == '+' || c == '-' then
      var o := if c == '+' then Add(s, n) else Subtract(s, n);
      if o.result.Abort? then Extend([Push], o)
      else
        var e := Bin(if c == '+' then Plus else Minus, acc, o.result.value);
        Extend([Push] + o.code, ExprLoop(s, o.next, e))
    else
      Outcome(n, [], Ok(acc))
  }

  /** `Expression`: after a leading sign, D0 is cleared and no term is read before the
      loop; otherwise a term comes first. Then any number of `+` or `-` terms. */
  function Expression(s: seq<char>, n: nat): (r: Outcome<Expr>)
    requires n <= |s| + 1
    decreases |s| + 1 - n, 3
    ensures n <= r.next <= |s| + 1
    ensures r.result.Ok? ==> n < r.next
  {
    var first := if IsAddOp(LookAt(s, n)) then Outcome(n, [ClrD0], Ok(Zero)) else Term(s, n);
    if first.result.Abort? then first
    else Extend(first.code, ExprLoop(s, first.next, first.result.value))
  }

  /** `Assignment`: a name, `=`, an expression, then the store into the name. */
  function Assignment(s: seq<char>, n: nat): (r: Outcome<Stmt>)
    requires n <= |s| + 1
    ensures n <= r.next <= |s| + 1
  {
    var t := GetName(s, n);
    if t.result.Abort? then Outcome(t.next, [], Abort(t.result.expected))
    else
      match Match(s, t.next, '=')
      case Abort(e) => Outcome(t.next, [], Abort(e))
      case Ok(m) =>
        var e := Expression(s, m);
        if e.result.Abort? then Outcome(e.next, e.code, Abort(e.result.expected))
        else
          var name := t.result.value;
          Outcome(e.next, e.code + [Lea(name), StoreD0], Ok(Assign(name, e.result.value)))
  }

  /** Where `Init` starts parsing: after the first character and any blanks. */
  function Start(s: seq<char>): (n: nat)
    ensures n <= |s| + 1
  {
    SkipWhite(s, Advance(s, 0))
  }

  /** `Init`: read the first character, skip blanks, translate one assignment, and require
      the line terminator after it. */
  function Init(s: seq<char>): (r: Outcome<Stmt>)
    ensures r.next <= |s| + 1
  {
    var a := Assignment(s, Start(s));
    if a.result.Abort? then a
    else if LookAt(s, a.next) != '\n' then Outcome(a.next, a.code, Abort(Newline))
    else a
  }

  // ---------------------------------------------------------------- soundness

  /** What a parsing function guarantees: every emitted instruction is well formed and, on
      success, the tree is one the translator can produce and the code emitted is exactly
      the reference code for it, followed by `tail`. */
  predicate Sound(r: Outcome<Expr>, tail: seq<Instr>) {
    AllWellFormed(r.code) && (r.result.Ok? ==> Wf(r.result.value) && r.code == Gen(r.result.value) + tail)
  }

  /** What a round of an operator loop guarantees: the final tree extends `acc` by exactly
      the code emitted, and the loop stops at a character that is not its operator. */
  predicate LoopSound(s: seq<char>, r: Outcome<Expr>, acc: Expr, accWf: bool, level: nat) {
    AllWellFormed(r.code)
    && (r.result.Ok? ==>
          Gen(r.result.value) == Gen(acc) + r.code
          && (accWf ==> Wf(r.result.value))
          && !(if level == 0 then IsAddOp(LookAt(s, r.next)) else IsMulOp(LookAt(s, r.next))))
  }

  lemma IdentSound(s: seq<char>, n: nat)
    requires n <= |s| + 1
    ensures Sound(Ident(s, n), [])
  {
  }

  lemma {:induction false} FactorSound(s: seq<char>, n: nat)
    requires n <= |s| + 1
    decreases |s| + 1 - n, 1
    ensures Sound(Factor(s, n), [])
  {
    var c := LookAt(s, n);
    if c == '(' {
      match Match(s, n, '(')
      case Abort(_) =>
      case Ok(m) => ExpressionSound(s, m);
    } else if IsAlpha(c) {
      IdentSound(s, n);
    }
  }

  lemma {:induction false} MultiplySound(s: seq<char>, n: nat)
    requires n <= |s| + 1
    decreases |s| + 1 - n, 0
    ensures Sound(Multiply(s, n), Combine(Times))
  {
    match Match(s, n, '*')
    case Abort(_) =>
    case Ok(m) => FactorSound(s, m);
  }

  lemma {:induction false} DivideSound(s: seq<char>, n: nat)
    requires n <= |s| + 1
    decreases |s| + 1 - n, 0
    ensures Sound(Divide(s, n), Combine(Over))
  {
    match Match(s, n, '/')
    case Abort(_) =>
    case Ok(m) => FactorSound(s, m);
  }

  lemma {:induction false} TermLoopSound(s: seq<char>, n: nat, acc: Expr)
    requires n <= |s| + 1
    decreases |s| + 1 - n, 1
    ensures LoopSound(s, TermLoop(s, n, acc), acc, Wf(acc), 1)
  {
    var c := LookAt(s, n);
    if c == '*' || c == '/' {
      var op := if c == '*' then Times else Over;
      var o := if c == '*' then Multiply(s, n) else Divide(s, n);
      if c == '*' {
        MultiplySound(s, n);
      } else {
        DivideSound(s, n);
      }
      if o.result.Ok? {
        var e := Bin(op, acc, o.result.value);
        TermLoopSound(s, o.next, e);
        GenRound(op, acc, o.result.value, o.code, TermLoop(s, o.next, e).code);
      }
    }
  }

  lemma {:induction false} TermSound(s: seq<char>, n: nat)
    requires n <= |s| + 1
    decreases |s| + 1 - n, 2
    ensures Sound(Term(s, n), [])
  {
    FactorSound(s, n);
    var f := Factor(s, n);
    if f.result.Ok? {
      TermLoopSound(s, f.next, f.result.value);
    }
  }

  lemma {:induction false} AddSound(s: seq<char>, n: nat)
    requires n <= |s| + 1
    decreases |s| + 1 - n, 1
    ensures Sound(Add(s, n), Combine(Plus))
  {
    match Match(s, n, '+')
    case Abort(_) =>
    case Ok(m) => TermSound(s, m);
  }

  lemma {:induction false} SubtractSound(s: seq<char>, n: nat)
    requires n <= |s| + 1
    decreases |s| + 1 - n, 1
    ensures Sound(Subtract(s, n), Combine(Minus))
  {
    match Match(s, n, '-')
    case Abort(_) =>
    case Ok(m) => TermSound(s, m);
  }

  /** A leading sign leaves `Zero` as the accumulated operand; the first round then makes it
      the left operand of that sign, which `Wf` allows. */
  lemma {:induction false} ExprLoopSound(s: seq<char>, n: nat, acc: Expr)
    requires n <= |s| + 1
    decreases |s| + 1 - n, 2
    ensures LoopSound(s, ExprLoop(s, n, acc), acc, Wf(acc) || (acc == Zero && IsAddOp(LookAt(s, n))), 0)
  {
    var c := LookAt(s, n);
    if c == '+' || c == '-' {
      var op := if c == '+' then Plus else Minus;
      var o := if c == '+' then Add(s, n) else Subtract(s, n);
      if c == '+' {
        AddSound(s, n);
      } else {
        SubtractSound(s, n);
      }
      if o.result.Ok? {
        var e := Bin(op, acc, o.result.value);
        ExprLoopSound(s, o.next, e);
        GenRound(op, acc, o.result.value, o.code, ExprLoop(s, o.next, e).code);
      }
    }
  }

  lemma {:induction false} ExpressionSound(s: seq<char>, n: nat)
    requires n <= |s| + 1
    decreases |s| + 1 - n, 3
    ensures Sound(Expression(s, n), [])
  {
    if IsAddOp(LookAt(s, n)) {
      ExprLoopSound(s, n, Zero);
    } else {
      TermSound(s, n);
      var t := Term(s, n);
      if t.result.Ok? {
        ExprLoopSound(s, t.next, t.result.value);
      }
    }
  }

  /** An assignment that parses is one the translator can produce, and its code is the
      reference code for it. */
  lemma AssignmentSound(s: seq<char>, n: nat)
    requires n <= |s| + 1
    ensures var r := Assignment(s, n);
      AllWellFormed(r.code) && (r.result.Ok? ==> WfStmt(r.result.value) && r.code == GenStmt(r.result.value))
  {
    var t := GetName(s, n);
    if t.result.Ok? {
      match Match(s, t.next, '=')
      case Abort(_) =>
      case Ok(m) => ExpressionSound(s, m);
    }
  }

  /** A translation that succeeds stopped at the line terminator, produced a statement the
      translator can produce and emitted exactly the reference code for it; whether it
      succeeds or aborts, every line it emitted is well formed. */
  lemma InitSound(s: seq<char>)
    ensures var r := Init(s);
      AllWellFormed(r.code)
      && (r.result.Ok? ==> WfStmt(r.result.value) && r.code == GenStmt(r.result.value) && LookAt(s, r.next) == '\n')
  {
    AssignmentSound(s, Start(s));
  }

  /** Once the assignment is recognised, the line succeeds exactly when the line terminator
      follows it; otherwise it aborts expecting one, with the assignment's whole reference
      code already emitted. */
  lemma InitDemandsNewline(s: seq<char>)
    ensures var a := Assignment(s, Start(s));
      a.result.Ok? ==>
        WfStmt(a.result.value)
        && Init(s).next == a.next
        && Init(s).code == GenStmt(a.result.value)
        && (Init(s).result.Ok? <==> LookAt(s, a.next) == '\n')
        && (LookAt(s, a.next) != '\n' ==> Init(s).result == Abort(Newline))
  {
    AssignmentSound(s, Start(s));
  }
}
