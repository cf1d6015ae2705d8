/** The current compiler and evaluator as the program runs them: string and
    array pools that compiling appends to, the variable memory of the
    application state, and a `BytebeatExpression` holding its compiled
    program.  Each method is proved to compute what the functions of
    `Lexer`, `Parser`, `Compiler` and `Evaluator` describe. */
module Bytebeat {
  import opened Tokens
  import opened Chars
  import opened Numeric
  import opened Lexer
  import opened Parser
  import opened Evaluator
  import Compiler
  import GlobalState

  /** The state shared by every expression: the pools `g_strings` and
      `g_arrays`, the application state with the variables, and the number of
      `rand()` calls made so far. */
  class Runtime {
    const app: GlobalState.AppState
    var strings: seq<string>
    var arrays: seq<seq<real>>
    var draws: nat

    constructor (app: GlobalState.AppState)
      ensures this.app == app && strings == [] && arrays == [] && draws == 0
    {
      this.app := app;
      strings, arrays, draws := [], [], 0;
    }

    /** What compiling may change, as a value. */
    function CtxOf(): Ctx
      reads this, app
    {
      Ctx(app.VarsOf(), strings, arrays)
    }

    /** A number literal at a digit. */
    static method ScanNumberAt(e: string, i: nat) returns (v: real, j: nat)
      requires i < |e| && IsDigit(e[i])
      ensures (v, j) == ScanNumber(e, i)
    {
      v, j := ScanIntDigits(e, i);
      if j < |e| && e[j] == '.' {
        v, j := ScanFracDigits(e, j + 1, v);
      }
    }

    /** The integer digits of a number literal. */
    static method ScanIntDigits(e: string, i: nat) returns (v: real, j: nat)
      requires i <= |e|
      ensures (v, j) == IntDigits(e, i, 0.0)
    {
      v, j := 0.0, i;
      while j < |e| && IsDigit(e[j])
        invariant i <= j <= |e|
        invariant IntDigits(e, i, 0.0) == IntDigits(e, j, v)
        decreases |e| - j
      {
        v := v * 10.0 + DigitValue(e[j]) as real;
        j := j + 1;
      }
    }

    /** The digits after the `.`, added to the integer part `w`. */
    static method ScanFracDigits(e: string, k: nat, w: real) returns (v: real, j: nat)
      requires k <= |e|
      ensures (v, j) == FracDigits(e, k, w, 0.1)
    {
      v, j := w, k;
      var frac := 0.1;
      while j < |e| && IsDigit(e[j])
        invariant k <= j <= |e|
        invariant FracDigits(e, k, w, 0.1) == FracDigits(e, j, v, frac)
        decreases |e| - j
      {
        v := v + DigitValue(e[j]) as real * frac;
        frac := frac * 0.1;
        j := j + 1;
      }
    }

    /** A word at a letter or `_`; a variable name is looked up, and
        allocated when new, with `getVarId`. */
    method ReadWord(e: string, i: nat) returns (tok: Token, j: nat)
      requires i < |e| && (IsAlpha(e[i]) || e[i] == '_')
      modifies app
      ensures LexWord(e, i, old(CtxOf())) == Emit([tok], j, false, CtxOf())
      ensures strings == old(strings) && arrays == old(arrays) && draws == old(draws)
      ensures old(GlobalState.WellFormed(app.VarsOf())) ==> GlobalState.WellFormed(app.VarsOf())
    {
      j := i;
      while j < |e| && IsWordChar(e[j])
        invariant i <= j <= |e| && WordEnd(e, i) == WordEnd(e, j)
        decreases |e| - j
      {
        j := j + 1;
      }
      var name := e[i..j];
      if name == "t" {
        tok := KindTok(VarT, i);
      } else if FunName(name).Some? {
        tok := FunTok(FunName(name).value, i);
      } else {
        var k := j;
        while k < |e| && IsSpace(e[k])
          invariant j <= k <= |e| && SkipSpaces(e, j) == SkipSpaces(e, k)
          decreases |e| - k
        {
          k := k + 1;
        }
        var isAssign := k < |e| && e[k] == '=' && (k + 1 >= |e| || e[k + 1] != '=');
        var id := app.GetVarId(name);
        tok := VarTok(id, i, isAssign);
      }
    }

    /** A quoted string, appended to the string pool. */
    method ReadString(e: string, i: nat) returns (tok: Token, j: nat)
      requires i < |e| && (e[i] == '\'' || e[i] == '"')
      modifies this
      ensures LexString(e, i, old(CtxOf())) == Emit([tok], j, false, CtxOf())
      ensures arrays == old(arrays) && draws == old(draws)
    {
      var quote := e[i];
      j := i + 1;
      var s := "";
      while j < |e| && e[j] != quote
        invariant i + 1 <= j <= |e| && s == e[i + 1..j]
        invariant QuoteEnd(e, i + 1, quote) == QuoteEnd(e, j, quote)
        decreases |e| - j
      {
        s := s + [e[j]];
        j := j + 1;
      }
      if j < |e| {
        j := j + 1;
      }
      strings := strings + [s];
      tok := IndexedTok(String, |strings| - 1, i);
    }

    /** An array literal after `[`, appended to the array pool. */
    method ReadArray(e: string, i: nat) returns (tok: Token, j: nat)
      requires i < |e| && e[i] == '['
      modifies this
      ensures LexBracket(e, i, true, old(CtxOf())) == Emit([tok], j, false, CtxOf())
      ensures strings == old(strings) && draws == old(draws)
    {
      j := i + 1;
      var arr: seq<real> := [];
      while j < |e| && e[j] != ']'
        invariant i + 1 <= j <= |e|
        invariant ScanArray(e, i + 1, []) == ScanArray(e, j, arr)
        modifies {}
        decreases |e| - j
      {
        ghost var step := ArrayStep(e, j, arr);
        if IsSpace(e[j]) || e[j] == ',' {
          j := j + 1;
        } else if IsDigit(e[j]) || e[j] == '-' || e[j] == '.' {
          match ParseDecimal(e, j)
          case Some((v, n)) =>
            arr := arr + [v];
            j := j + n;
          case None =>
            j := j + 1;
        } else {
          j := j + 1;
        }
        assert arr == step.0 && j == step.1;
      }
      assert ScanArray(e, i + 1, []) == (arr, j);
      if j < |e| {
        j := j + 1;
      }
      arrays := arrays + [arr];
      tok := IndexedTok(ArrayLiteral, |arrays| - 1 + ARRAY_ID_OFFSET, i);
    }

    /** One token at a non-blank position; `fail` with the message where the
        character cannot start one. */
    method ReadToken(e: string, i: nat, eu: bool) returns (fail: bool, msg: string, toks: seq<Token>, j: nat, eu': bool)
      requires i < |e|
      modifies this, app
      ensures LexToken(e, i, eu, old(CtxOf())) == if fail then Fail(msg) else Emit(toks, j, eu', CtxOf())
      ensures fail ==> CtxOf() == old(CtxOf())
      ensures draws == old(draws)
      ensures old(GlobalState.WellFormed(app.VarsOf())) ==> GlobalState.WellFormed(app.VarsOf())
    {
      var c := e[i];
      fail, msg := false, "";
      if IsDigit(c) {
        var v;
        v, j := ScanNumberAt(e, i);
        toks, eu' := [NumberTok(v, i)], false;
      } else if IsAlpha(c) || c == '_' {
        var tok;
        tok, j := ReadWord(e, i);
        toks, eu' := [tok], false;
      } else if c == '\'' || c == '"' {
        var tok;
        tok, j := ReadString(e, i);
        toks, eu' := [tok], false;
      } else if c == '[' {
        if eu {
          var tok;
          tok, j := ReadArray(e, i);
          toks, eu' := [tok], false;
        } else {
          toks, j, eu' := [OpTok(Index, i), KindTok(LParen, i)], i + 1, true;
        }
      } else if c == ']' || c == ')' {
        toks, j, eu' := [KindTok(RParen, i)], i + 1, false;
      } else if c == '(' {
        toks, j, eu' := [KindTok(LParen, i)], i + 1, true;
      } else if c == '?' {
        toks, j, eu' := [KindTok(Quest, i)], i + 1, true;
      } else if c == ':' {
        toks, j, eu' := [KindTok(Colon, i)], i + 1, true;
      } else if c == '~' {
        toks, j, eu' := [OpTok(BitNot, i)], i + 1, true;
      } else {
        match LexOperator(e, i, eu, CtxOf())
        case Emit(ts, n, u, _) =>
          toks, j, eu' := ts, n, u;
        case Fail(m) =>
          fail, msg, toks, j, eu' := true, m, [], i, eu;
      }
    }

    /** The tokenizer loop of `Compile`. */
    method Tokenize(e: string) returns (ok: bool, toks: seq<Token>, msg: string, pos: int)
      modifies this, app
      ensures Lex(e, old(CtxOf())) == if ok then Lexed(toks, CtxOf()) else LexError(msg, pos, CtxOf())
      ensures draws == old(draws)
      ensures old(GlobalState.WellFormed(app.VarsOf())) ==> GlobalState.WellFormed(app.VarsOf())
    {
      var i: nat, eu := 0, true;
      toks := [];
      ghost var wf := GlobalState.WellFormed(app.VarsOf());
      while i < |e|
        invariant i <= |e|
        invariant Lex(e, old(CtxOf())) == LexFrom(e, i, eu, toks, CtxOf())
        invariant draws == old(draws)
        invariant wf ==> GlobalState.WellFormed(app.VarsOf())
        decreases |e| - i
      {
        if IsSpace(e[i]) {
          i := i + 1;
          continue;
        }
        ghost var before := CtxOf();
        var fail, m, ts, j, u := ReadToken(e, i, eu);
        if fail {
          assert LexFrom(e, i, eu, toks, before) == LexError(m, i, before);
          return false, toks, m, i;
        }
        toks, i, eu := toks + ts, j, u;
      }
      ok, msg, pos := true, "", -1;
    }

    /** The machine an evaluation step sees: the live part of the stack
        buffer, the memory and the `rand()` count. */
    function MachineOf(stack: array<real>, sp: int): Machine
      requires -1 <= sp < stack.Length
      reads this, app, stack
    {
      Machine(stack[..sp + 1], app.vmMemory, draws)
    }

    /** A function token, applied in place on the stack buffer. */
    method ExecuteFun(stack: array<real>, sp: int, f: FunType, h: Host) returns (sp': int)
      requires stack.Length == STACK_SIZE && -1 <= sp < STACK_SIZE - 1
      modifies stack, this
      ensures -1 <= sp' < STACK_SIZE
      ensures MachineOf(stack, sp') == ApplyFun(f, old(MachineOf(stack, sp)), h)
      ensures strings == old(strings) && arrays == old(arrays)
    {
      ghost var m := MachineOf(stack, sp);
      ghost var want := ApplyFun(f, m, h);
      sp' := sp;
      if sp >= 0 {
        if f == Pow {
          if sp >= 1 {
            var v2 := stack[sp];
            sp' := sp - 1;
            stack[sp'] := h.pow(stack[sp'], v2);
            assert stack[..sp' + 1] == m.stack[..sp - 1] + [stack[sp']];
          }
        } else if f == Tan {
          stack[sp] := h.tan(stack[sp]);
          assert stack[..sp + 1] == m.stack[..sp] + [stack[sp]];
        } else if f == Random {
          sp' := sp + 1;
          stack[sp'] := h.rand(draws);
          draws := draws + 1;
          assert stack[..sp' + 1] == m.stack + [stack[sp']];
        } else {
          var v := stack[sp];
          if f == Sin {
            v := h.sin(v);
          } else if f == Cos {
            v := h.cos(v);
          } else if f == Abs {
            v := FAbs(v);
          } else {
            v := v.Floor as real;
          }
          stack[sp] := v;
          assert stack[..sp + 1] == m.stack[..sp] + [v];
        }
      }
      assert MachineOf(stack, sp') == want;
    }

    /** The assignment `ptr = val`: writes the variable memory in place. */
    method ExecuteAssign(stack: array<real>, sp: int) returns (sp': int)
      requires stack.Length == STACK_SIZE && 1 <= sp < STACK_SIZE
      modifies stack, app
      ensures sp' == sp - 1
      ensures MachineOf(stack, sp') == ApplyOp(Assign, old(MachineOf(stack, sp)), strings, arrays)
      ensures app.varTable == old(app.varTable)
    {
      var val := stack[sp];
      sp' := sp - 1;
      var ptr := stack[sp'];
      var idx := ToInt32(ptr);
      if 0 <= idx < |app.vmMemory| {
        app.vmMemory := app.vmMemory[idx := val];
      }
      stack[sp'] := val;
      assert stack[..sp' + 1] == old(stack[..sp + 1])[..sp - 1] + [val];
    }

    /** An operator token (or a stray parenthesis), applied in place. */
    method ExecuteOp(stack: array<real>, sp: int, op: OpType) returns (sp': int)
      requires stack.Length == STACK_SIZE && -1 <= sp < STACK_SIZE
      modifies stack, app
      ensures -1 <= sp' < STACK_SIZE
      ensures MachineOf(stack, sp') == ApplyOp(op, old(MachineOf(stack, sp)), strings, arrays)
      ensures app.varTable == old(app.varTable)
    {
      sp' := sp;
      if op == Neg || op == BitNot {
        if sp >= 0 {
          ExecuteUnary(stack, sp, op);
        }
      } else if sp >= 1 {
        if op == Assign {
          sp' := ExecuteAssign(stack, sp);
        } else {
          sp' := ExecuteBinary(stack, sp, op);
        }
      }
    }

    /** A negation or a bit complement of the top cell. */
    method ExecuteUnary(stack: array<real>, sp: int, op: OpType)
      requires stack.Length == STACK_SIZE && 0 <= sp < STACK_SIZE
      requires op == Neg || op == BitNot
      modifies stack
      ensures MachineOf(stack, sp) == ApplyOp(op, old(MachineOf(stack, sp)), strings, arrays)
    {
      var v := if op == Neg then -stack[sp] else BitNot64(stack[sp]);
      stack[sp] := v;
      assert stack[..sp + 1] == old(stack[..sp + 1])[..sp] + [v];
    }

    /** A binary operator, or a lookup, on the two top cells. */
    method ExecuteBinary(stack: array<real>, sp: int, op: OpType) returns (sp': int)
      requires stack.Length == STACK_SIZE && 1 <= sp < STACK_SIZE
      requires op != Neg && op != BitNot && op != Assign
      modifies stack
      ensures sp' == sp - 1
      ensures MachineOf(stack, sp') == ApplyOp(op, old(MachineOf(stack, sp)), strings, arrays)
    {
      var b := stack[sp];
      sp' := sp - 1;
      var a := stack[sp'];
      var v := if op == Index || op == CharCodeAt then Lookup(a, b, strings, arrays) else Binary(op, a, b);
      stack[sp'] := v;
      assert stack[..sp' + 1] == old(stack[..sp + 1])[..sp - 1] + [v];
    }

    /** Push a value on the stack buffer. */
    static method Push(stack: array<real>, sp: int, v: real) returns (sp': int)
      requires -1 <= sp < stack.Length - 1
      modifies stack
      ensures sp' == sp + 1 && stack[..sp' + 1] == old(stack[..sp + 1]) + [v]
    {
      sp' := sp + 1;
      stack[sp'] := v;
      assert stack[..sp' + 1] == old(stack[..sp + 1]) + [v];
    }

    /** One token of `Eval`. */
    method Execute(stack: array<real>, sp: int, tok: Token, t: U32, h: Host) returns (sp': int)
      requires stack.Length == STACK_SIZE && -1 <= sp < STACK_SIZE - 1
      requires tok.kind == Identifier ==> 0 <= tok.index < |app.vmMemory|
      modifies stack, this, app
      ensures -1 <= sp' < STACK_SIZE
      ensures MachineOf(stack, sp') == Exec(tok, t, old(MachineOf(stack, sp)), h, strings, arrays)
      ensures strings == old(strings) && arrays == old(arrays) && app.varTable == old(app.varTable)
    {
      match tok.kind
      case Number => sp' := Push(stack, sp, tok.value);
      case VarT => sp' := Push(stack, sp, t as real);
      case Identifier => sp' := Push(stack, sp, app.vmMemory[tok.index]);
      case String => sp' := Push(stack, sp, tok.index as real);
      case ArrayLiteral => sp' := Push(stack, sp, tok.index as real);
      case VarPtr => sp' := Push(stack, sp, tok.index as real);
      case Fun => sp' := ExecuteFun(stack, sp, tok.fun, h);
      case Colon =>
        sp' := sp;
        if sp >= 2 {
          var f := stack[sp];
          var v := stack[sp - 1];
          var cond := stack[sp - 2];
          sp' := sp - 2;
          stack[sp'] := if cond != 0.0 then v else f;
          assert stack[..sp' + 1] == old(stack[..sp + 1])[..sp - 2] + [stack[sp']];
        }
      case Quest => sp' := sp;
      case _ => sp' := ExecuteOp(stack, sp, tok.op);
    }

    /** The body of `BytebeatExpression::Compile`: tokens, then the
        shunting-yard pass.  The pools and the variables keep what lexing
        added even when it fails. */
    method CompileExpr(expr: string) returns (ok: bool, rpn: seq<Token>, error: string, errorPos: int)
      modifies this, app
      ensures Compiler.Compiled(ok, rpn, error, errorPos, CtxOf()) == Compiler.Compile(expr, old(CtxOf()))
      ensures draws == old(draws)
      ensures old(GlobalState.WellFormed(app.VarsOf())) ==> GlobalState.WellFormed(app.VarsOf())
    {
      error, errorPos, rpn := "", -1, [];
      if expr == [] {
        return false, rpn, error, errorPos;
      }
      var lexed, toks, msg, pos := Tokenize(expr);
      if !lexed {
        return false, rpn, msg, pos;
      }
      ok, rpn, error, errorPos := ShuntTokens(toks);
    }

    /** The body of `BytebeatExpression::Eval`: runs `rpn` on a 1024-slot
        stack buffer, writing the variable memory on assignments. */
    method Run(rpn: seq<Token>, t: U32, h: Host) returns (r: int)
      requires IdentifiersIn(rpn, |app.vmMemory|)
      modifies this, app
      ensures var e := Evaluator.Eval(rpn, t, old(app.vmMemory), old(draws), h, strings, arrays);
        r == e.0 && app.vmMemory == e.1.memory && draws == e.1.draws
      ensures strings == old(strings) && arrays == old(arrays) && app.varTable == old(app.varTable)
    {
      if rpn == [] {
        return 0;
      }
      var stack := new real[STACK_SIZE];
      var sp := -1;
      var k := 0;
      ghost var m0 := Machine([], app.vmMemory, draws);
      while k < |rpn|
        invariant k <= |rpn| && -1 <= sp < STACK_SIZE
        invariant |app.vmMemory| == |m0.memory|
        invariant strings == old(strings) && arrays == old(arrays) && app.varTable == old(app.varTable)
        invariant RunFrom(rpn, 0, t, m0, h, strings, arrays) == RunFrom(rpn, k, t, MachineOf(stack, sp), h, strings, arrays)
        decreases |rpn| - k
      {
        if sp >= STACK_SIZE - 1 {
          break;
        }
        sp := Execute(stack, sp, rpn[k], t, h);
        k := k + 1;
      }
      r := if sp >= 0 then ByteOf(stack[0]) else 0;
    }
  }

  /** A compiled formula: `Compile` fills `rpn`, `Eval` runs it. */
  class BytebeatExpression {
    const rt: Runtime
    var rpn: seq<Token>

    constructor (rt: Runtime)
      ensures this.rt == rt && rpn == []
    {
      this.rt := rt;
      rpn := [];
    }

    /** `Compile`: see `Runtime.CompileExpr`. */
    method Compile(expr: string) returns (ok: bool, error: string, errorPos: int)
      modifies this, rt, rt.app
      ensures Compiler.Compiled(ok, rpn, error, errorPos, rt.CtxOf()) == Compiler.Compile(expr, old(rt.CtxOf()))
      ensures rt.draws == old(rt.draws)
      ensures old(GlobalState.WellFormed(rt.app.VarsOf())) ==> GlobalState.WellFormed(rt.app.VarsOf())
    {
      ok, rpn, error, errorPos := rt.CompileExpr(expr);
    }

    /** `Eval(t)`: see `Runtime.Run`. */
    method Eval(t: U32, h: Host) returns (r: int)
      requires IdentifiersIn(rpn, |rt.app.vmMemory|)
      modifies rt, rt.app
      ensures var e := Evaluator.Eval(rpn, t, old(rt.app.vmMemory), old(rt.draws), h, rt.strings, rt.arrays);
        r == e.0 && rt.app.vmMemory == e.1.memory && rt.draws == e.1.draws
      ensures rt.strings == old(rt.strings) && rt.arrays == old(rt.arrays)
      ensures rt.app.varTable == old(rt.app.varTable)
    {
      r := rt.Run(rpn, t, h);
    }
  }

  // ---------------------------------------------------------------- the shunting-yard loops

  /** The popping loop of an operator. */
  method PopWhileAtLeast(stack0: seq<Token>, out0: seq<Token>, prec: nat) returns (stack: seq<Token>, out: seq<Token>)
    ensures (stack, out) == PopWhileGe(stack0, out0, prec)
  {
    stack, out := stack0, out0;
    while stack != [] && Last(stack).kind != LParen && TopPrec(Last(stack)) >= prec
      invariant PopWhileGe(stack0, out0, prec) == PopWhileGe(stack, out, prec)
      decreases |stack|
    {
      out := out + [Last(stack)];
      stack := stack[..|stack| - 1];
    }
  }

  /** The popping loop of `)`. */
  method PopThroughLParen(stack0: seq<Token>, out0: seq<Token>) returns (stack: seq<Token>, out: seq<Token>, found: bool)
    ensures (stack, out, found) == PopToLParen(stack0, out0)
  {
    stack, out, found := stack0, out0, false;
    while stack != []
      invariant PopToLParen(stack0, out0) == PopToLParen(stack, out)
      decreases |stack|
    {
      if Last(stack).kind == LParen {
        stack := stack[..|stack| - 1];
        found := true;
        break;
      }
      out := out + [Last(stack)];
      stack := stack[..|stack| - 1];
    }
  }

  /** The popping loop of `,`. */
  method PopToLParenExclusive(stack0: seq<Token>, out0: seq<Token>) returns (stack: seq<Token>, out: seq<Token>)
    ensures (stack, out) == PopUntilLParen(stack0, out0)
  {
    stack, out := stack0, out0;
    while stack != [] && Last(stack).kind != LParen
      invariant PopUntilLParen(stack0, out0) == PopUntilLParen(stack, out)
      decreases |stack|
    {
      out := out + [Last(stack)];
      stack := stack[..|stack| - 1];
    }
  }

  /** One token of the pass. */
  method ShuntToken(t: Token, stack0: seq<Token>, out0: seq<Token>)
    returns (stop: bool, msg: string, pos: int, stack: seq<Token>, out: seq<Token>)
    ensures ShuntStep(t, stack0, out0) == if stop then Stop(msg, pos, out) else Cont(stack, out)
  {
    stop, msg, pos := false, "", -1;
    if IsOperand(t) {
      stack, out := stack0, out0 + [t];
    } else if t.kind == Fun || t.kind == LParen {
      stack, out := stack0 + [t], out0;
    } else if t.kind == RParen {
      var found;
      stack, out, found := PopThroughLParen(stack0, out0);
      if !found {
        return true, CLOSE_MSG, t.pos, stack, out;
      }
      if stack != [] && ClosesCall(Last(stack)) {
        out := out + [Last(stack)];
        stack := stack[..|stack| - 1];
      }
    } else if t.op == Coma {
      stack, out := PopToLParenExclusive(stack0, out0);
      var isArgSeparator := false;
      if stack != [] && Last(stack).kind == LParen {
        if |stack| >= 2 && stack[|stack| - 2].kind == Fun {
          isArgSeparator := true;
        }
      }
      if !isArgSeparator {
        stack := stack + [t];
      }
    } else {
      stack, out := PopWhileAtLeast(stack0, out0, IncomingPrec(t));
      stack := stack + [t];
    }
  }

  /** The final loop, and the check for an empty program. */
  method FlushStack(stack0: seq<Token>, out0: seq<Token>) returns (ok: bool, msg: string, pos: int, out: seq<Token>)
    ensures Flush(stack0, out0) == if ok then Rpn(out) else ShuntError(msg, pos, out)
    ensures ok ==> msg == "" && pos == -1
  {
    var stack := stack0;
    out := out0;
    while stack != []
      invariant Flush(stack0, out0) == Flush(stack, out)
      decreases |stack|
    {
      if Last(stack).kind == LParen {
        return false, OPEN_MSG, Last(stack).pos, out;
      }
      out := out + [Last(stack)];
      stack := stack[..|stack| - 1];
    }
    if out == [] {
      return false, EMPTY_MSG, -1, out;
    }
    ok, msg, pos := true, "", -1;
  }

  /** The shunting-yard pass of `Compile`; on an error `rpn` is the output
      built so far. */
  method ShuntTokens(toks: seq<Token>) returns (ok: bool, rpn: seq<Token>, msg: string, pos: int)
    ensures Shunt(toks) == if ok then Rpn(rpn) else ShuntError(msg, pos, rpn)
    ensures ok ==> msg == "" && pos == -1
  {
    var stack: seq<Token> := [];
    rpn := [];
    var k := 0;
    while k < |toks|
      invariant k <= |toks|
      invariant Shunt(toks) == ShuntFrom(toks, k, stack, rpn)
      decreases |toks| - k
    {
      var stop, m, p, st, o := ShuntToken(toks[k], stack, rpn);
      if stop {
        return false, o, m, p;
      }
      stack, rpn, k := st, o, k + 1;
    }
    ok, msg, pos, rpn := FlushStack(stack, rpn);
  }
}
