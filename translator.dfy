/** The translator as the C code runs it: the lookahead and the output are state that each
    function updates in place, the scanners fill a caller's character buffer, and `Term`
    and `Expression` are `while` loops. Every method is proved to end in the state the
    corresponding function of module Grammar describes. */
module Translator {
  import opened Chars
  import opened Diagnostics
  import opened M68k
  import opened Ast
  import G = Grammar

  /** The string a NUL-terminated buffer holds, as `%s` reads it. */
  method TokenText(a: array<char>) returns (t: string)
    requires exists k :: 0 <= k < a.Length && a[k] == NUL
    ensures |t| < a.Length && a[|t|] == NUL && t == a[..|t|]
    ensures forall k :: 0 <= k < |t| ==> t[k] != NUL
  {
    var n := 0;
    while a[n] != NUL
      invariant n < a.Length
      invariant forall k :: 0 <= k < n ==> a[k] != NUL
      decreases a.Length - n
    {
      n := n + 1;
    }
    t := a[..n];
  }

  /** A buffer holding `t` as a NUL-terminated string. */
  ghost predicate Holds(a: array<char>, t: string)
    reads a
  {
    |t| < a.Length && a[..|t|] == t && a[|t|] == NUL
  }

  /** Reading back a buffer that holds a token gives the token. */
  lemma HoldsText(a: array<char>, t: string, u: string)
    requires Holds(a, t) && forall k :: 0 <= k < |t| ==> t[k] != NUL
    requires |u| < a.Length && a[|u|] == NUL && u == a[..|u|]
    requires forall k :: 0 <= k < |u| ==> u[k] != NUL
    ensures u == t
  {
  }

  /** One round of the scanning loop: an accepted character is stored and consumed. */
  lemma ScanRound(s: seq<char>, n: nat, kind: G.TokenKind, tok: string)
    requires n <= |s| + 1 && |tok| < G.MaxTokenLength - 1 && G.Accepts(kind, G.LookAt(s, n))
    ensures G.Scan(s, n, kind, tok) == G.Scan(s, G.Consume(s, n), kind, tok + [G.Stored(kind, G.LookAt(s, n))])
  {
  }

  lemma Regroup(a: seq<Instr>, b: seq<Instr>, c: seq<Instr>, d: seq<Instr>)
    ensures a + b + c + d == a + (b + (c + d))
  {
  }

  /** One round of the `Term` loop after the code emitted so far: an aborted operand ends
      the loop, a recognised one becomes the right operand of the accumulated term. */
  lemma TermRound(s: seq<char>, n: nat, acc: Expr, emitted: seq<Instr>)
    requires n <= |s| + 1 && IsMulOp(G.LookAt(s, n))
    ensures var c := G.LookAt(s, n);
      var o := if c == '*' then G.Multiply(s, n) else G.Divide(s, n);
      G.Extend(emitted, G.TermLoop(s, n, acc)) ==
        if o.result.Abort? then G.Outcome(o.next, emitted + ([Push] + o.code), o.result)
        else G.Extend(emitted + ([Push] + o.code), G.TermLoop(s, o.next, Bin(if c == '*' then Times else Over, acc, o.result.value)))
  {
  }

  /** One round of the `Expression` loop, as `TermRound` for `Term`. */
  lemma ExprRound(s: seq<char>, n: nat, acc: Expr, emitted: seq<Instr>)
    requires n <= |s| + 1 && IsAddOp(G.LookAt(s, n))
    ensures var c := G.LookAt(s, n);
      var o := if c == '+' then G.Add(s, n) else G.Subtract(s, n);
      G.Extend(emitted, G.ExprLoop(s, n, acc)) ==
        if o.result.Abort? then G.Outcome(o.next, emitted + ([Push] + o.code), o.result)
        else G.Extend(emitted + ([Push] + o.code), G.ExprLoop(s, o.next, Bin(if c == '+' then Plus else Minus, acc, o.result.value)))
  {
  }

  /** Reading back a buffer that holds a token gives the token. */
  method LoadName(name: array<char>, ghost t: string) returns (text: string)
    requires Holds(name, t) && forall k :: 0 <= k < |t| ==> t[k] != NUL
    ensures text == t
  {
    text := TokenText(name);
    HoldsText(name, t, text);
  }

  class Parser {
    /** The input stream `getchar` reads. */
    const input: seq<char>
    /** How many characters `getchar` has returned (the end of input counts once). */
    var next: nat
    /** `Look`, the lookahead character. */
    var look: char
    /** The instruction lines emitted so far, in order. */
    var out: seq<Instr>
    /** Set by the first `Expected(...)`; the C program exits there, so nothing runs after. */
    var error: Option<Expect>

    ghost predicate Valid()
      reads this
    {
      next <= |input| + 1 && look == G.LookAt(input, next)
    }

    /** The state after a step described by `o`, which started with output `before`. */
    ghost predicate Reached<T>(before: seq<Instr>, o: G.Outcome<T>)
      reads this
    {
      Valid() && next == o.next && out == before + o.code && error == ErrorOf(o.result)
    }

    /** A translator over `input` before anything is read: `Look` is still zero. */
    constructor (input: seq<char>)
      ensures this.input == input && next == 0 && out == [] && error == None && Valid()
    {
      this.input := input;
      next := 0;
      look := NUL;
      out := [];
      error := None;
    }

    /** `GetChar`. */
    method GetChar()
      requires Valid()
      modifies this`next, this`look
      ensures Valid() && next == G.Advance(input, old(next))
    {
      if next < |input| {
        look := input[next];
      } else {
        look := EndMarker;
      }
      if next <= |input| {
        next := next + 1;
      }
    }

    /** `SkipWhite`. */
    method SkipWhite()
      requires Valid()
      modifies this`next, this`look
      ensures Valid() && next == G.SkipWhite(input, old(next))
    {
      while IsWhite(look)
        invariant Valid() && old(next) <= next
        invariant G.SkipWhite(input, next) == G.SkipWhite(input, old(next))
        decreases |input| + 1 - next
      {
        GetChar();
      }
    }

    /** `Match`. */
    method Match(x: char)
      requires Valid() && error == None
      modifies this`next, this`look, this`error
      ensures Valid()
      ensures match G.Match(input, old(next), x)
              case Ok(m) => next == m && error == None
              case Abort(e) => next == old(next) && error == Some(e)
    {
      if look == x {
        GetChar();
        SkipWhite();
      } else {
        error := Some(Char(x));
      }
    }

    /** The loop `GetName` and `GetNum` share: while the lookahead is accepted and the
        buffer has room, store it and consume it; then terminate the buffer with NUL. */
    method Collect(kind: G.TokenKind, buf: array<char>) returns (len: nat)
      requires Valid() && buf.Length == G.MaxTokenLength
      modifies this`next, this`look, buf
      ensures Valid() && len < buf.Length && buf[len] == NUL
      ensures G.Scan(input, old(next), kind, []) == (buf[..len], next)
    {
      len := 0;
      ghost var tok: string := [];
      while G.Accepts(kind, look) && len < G.MaxTokenLength - 1
        invariant Valid() && len == |tok| <= G.MaxTokenLength - 1 && buf[..len] == tok
        invariant G.Scan(input, old(next), kind, []) == G.Scan(input, next, kind, tok)
        decreases G.MaxTokenLength - 1 - len
      {
        ScanRound(input, next, kind, tok);
        buf[len] := G.Stored(kind, look);
        tok := tok + [buf[len]];
        len := len + 1;
        GetChar();
        SkipWhite();
      }
      buf[len] := NUL;
      assert buf[..len] == tok;
    }

    /** `GetName`: fills `token` with the upper-cased name and a terminating NUL. */
    method GetName(token: array<char>)
      requires Valid() && error == None && token.Length == G.MaxTokenLength
      modifies this`next, this`look, this`error, token
      ensures Reached(out, G.GetName(input, old(next)))
      ensures error == None ==> Holds(token, G.GetName(input, old(next)).result.value)
    {
      if !IsAlpha(look) {
        error := Some(Name);
        return;
      }
      var len := Collect(G.NameToken, token);
    }

    /** `GetNum`: fills `value` with the digits and a terminating NUL. */
    method GetNum(value: array<char>)
      requires Valid() && error == None && value.Length == G.MaxTokenLength
      modifies this`next, this`look, this`error, value
      ensures Reached(out, G.GetNum(input, old(next)))
      ensures error == None ==> Holds(value, G.GetNum(input, old(next)).result.value)
    {
      if !IsDigit(look) {
        error := Some(Integer);
        return;
      }
      var len := Collect(G.NumberToken, value);
    }

    /** `EmitLn`: one more instruction line. */
    method EmitLn(i: Instr)
      modifies this`out
      ensures out == old(out) + [i]
    {
      out := out + [i];
    }

    /** `Ident`. */
    method Ident()
      requires Valid() && error == None
      modifies this
      ensures Reached(old(out), G.Ident(input, old(next)))
    {
      var name := new char[G.MaxTokenLength];
      GetName(name);
      if error != None {
        return;
      }
      var text := TokenText(name);
      HoldsText(name, G.GetName(input, old(next)).result.value, text);
      if look == '(' {
        Match('(');
        if error != None {
          return;
        }
        Match(')');
        if error != None {
          return;
        }
        EmitLn(Bsr(text));
      } else {
        EmitLn(MoveVar(text));
      }
    }

    /** `Factor`. */
    method Factor()
      requires Valid() && error == None
      modifies this
      decreases |input| + 1 - next, 1
      ensures Reached(old(out), G.Factor(input, old(next)))
    {
      if look == '(' {
        Match('(');
        if error != None {
          return;
        }
        Expression();
        if error != None {
          return;
        }
        Match(')');
      } else if IsAlpha(look) {
        Ident();
      } else {
        var num := new char[G.MaxTokenLength];
        GetNum(num);
        if error != None {
          return;
        }
        var text := TokenText(num);
        HoldsText(num, G.GetNum(input, old(next)).result.value, text);
        EmitLn(MoveImm(text));
      }
    }

    /** `Multiply`. */
    method Multiply()
      requires Valid() && error == None
      modifies this
      decreases |input| + 1 - next, 0
      ensures Reached(old(out), G.Multiply(input, old(next)))
    {
      Match('*');
      if error != None {
        return;
      }
      Factor();
      if error != None {
        return;
      }
      EmitLn(MulsPop);
    }

    /** `Divide`. */
    method Divide()
      requires Valid() && error == None
      modifies this
      decreases |input| + 1 - next, 0
      ensures Reached(old(out), G.Divide(input, old(next)))
    {
      Match('/');
      if error != None {
        return;
      }
      Factor();
      if error != None {
        return;
      }
      EmitLn(MovePopD1);
      EmitLn(DivsD0D1);
      EmitLn(MoveD1D0);
    }

    /** `Term`: the loop keeps the term recognised so far (`acc`) and what it emitted. */
    method Term()
      requires Valid() && error == None
      modifies this
      decreases |input| + 1 - next, 2
      ensures Reached(old(out), G.Term(input, old(next)))
    {
      Factor();
      if error != None {
        return;
      }
      ghost var acc := G.Factor(input, old(next)).result.value;
      ghost var emitted := G.Factor(input, old(next)).code;
      while look == '*' || look == '/'
        invariant Valid() && error == None && old(next) <= next
        invariant out == old(out) + emitted
        invariant G.Term(input, old(next)) == G.Extend(emitted, G.TermLoop(input, next, acc))
        decreases |input| + 1 - next
      {
        ghost var n, c := next, look;
        ghost var o := if c == '*' then G.Multiply(input, n) else G.Divide(input, n);
        TermRound(input, n, acc, emitted);
        EmitLn(Push);
        if look == '*' {
          Multiply();
        } else if look == '/' {
          Divide();
        } else {
          assert false;  // `default: Expected("Mulop")` cannot be reached
        }
        Regroup(old(out), emitted, [Push], o.code);
        if error != None {
          return;
        }
        acc := Bin(if c == '*' then Times else Over, acc, o.result.value);
        emitted := emitted + ([Push] + o.code);
      }
    }

    /** `Add`. */
    method Add()
      requires Valid() && error == None
      modifies this
      decreases |input| + 1 - next, 1
      ensures Reached(old(out), G.Add(input, old(next)))
    {
      Match('+');
      if error != None {
        return;
      }
      Term();
      if error != None {
        return;
      }
      EmitLn(AddPop);
    }

    /** `Subtract`. */
    method Subtract()
      requires Valid() && error == None
      modifies this
      decreases |input| + 1 - next, 1
      ensures Reached(old(out), G.Subtract(input, old(next)))
    {
      Match('-');
      if error != None {
        return;
      }
      Term();
      if error != None {
        return;
      }
      EmitLn(SubPop);
      EmitLn(NegD0);
    }

    /** `Expression`: after a leading sign only `CLR D0` comes before the loop. */
    method Expression()
      requires Valid() && error == None
      modifies this
      decreases |input| + 1 - next, 3
      ensures Reached(old(out), G.Expression(input, old(next)))
    {
      if IsAddOp(look) {
        EmitLn(ClrD0);
      } else {
        Term();
        if error != None {
          return;
        }
      }
      ghost var first := if IsAddOp(G.LookAt(input, old(next))) then G.Outcome(old(next), [ClrD0], Ok(Zero))
                         else G.Term(input, old(next));
      ghost var acc := first.result.value;
      ghost var emitted := first.code;
      while look == '+' || look == '-'
        invariant Valid() && error == None && old(next) <= next
        invariant out == old(out) + emitted
        invariant G.Expression(input, old(next)) == G.Extend(emitted, G.ExprLoop(input, next, acc))
        decreases |input| + 1 - next
      {
        ghost var n, c := next, look;
        ghost var o := if c == '+' then G.Add(input, n) else G.Subtract(input, n);
        ExprRound(input, n, acc, emitted);
        EmitLn(Push);
        if look == '+' {
          Add();
        } else if look == '-' {
          Subtract();
        } else {
          assert false;  // `default: Expected("Addop")` cannot be reached
        }
        Regroup(old(out), emitted, [Push], o.code);
        if error != None {
          return;
        }
        acc := Bin(if c == '+' then Plus else Minus, acc, o.result.value);
        emitted := emitted + ([Push] + o.code);
      }
    }

    /** `Assignment`. */
    method Assignment()
      requires Valid() && error == None
      modifies this
      ensures Reached(old(out), G.Assignment(input, old(next)))
    {
      var name := new char[G.MaxTokenLength];
      GetName(name);
      if error != None {
        return;
      }
      ghost var t := G.GetName(input, old(next)).result.value;
      Match('=');
      if error != None {
        return;
      }
      Expression();
      if error != None {
        return;
      }
      var text := LoadName(name, t);
      EmitLn(Lea(text));
      EmitLn(StoreD0);
    }

    /** `Init`: the whole run of the program on its input. */
    method Init()
      requires Valid() && next == 0 && error == None
      modifies this
      ensures Reached(old(out), G.Init(input))
    {
      GetChar();
      SkipWhite();
      Assignment();
      if error != None {
        return;
      }
      if look != '\n' {
        error := Some(Newline);
      }
    }
  }

  /** `main`: translate one input; the instructions emitted and, if it aborted, what was expected. */
  method Translate(input: seq<char>) returns (code: seq<Instr>, error: Option<Expect>)
    ensures code == G.Init(input).code && error == ErrorOf(G.Init(input).result)
  {
    var p := new Parser(input);
    p.Init();
    code, error := p.out, p.error;
  }
}
