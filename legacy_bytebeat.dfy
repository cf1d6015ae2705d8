/** The earlier compiler as the program runs it (`bytebeat-player/Bytebeat.cpp`):
    the application state holding `jsVars`, a `BytebeatExpression` that
    compiles into a token program and runs it on a 1024-slot stack buffer,
    and the `ComplexEngine` that splits the code at commas and runs one
    expression per statement.  Each method is proved to compute what the
    functions of `LegacyLexer`, `LegacyParser`, `LegacyCompiler`,
    `LegacyEval` and `LegacyEngine` describe. */
module LegacyBytebeat {
  import opened Chars
  import opened Numeric
  import opened LegacyLexer
  import opened LegacyCompiler
  import opened LegacyEval
  import LegacyParser
  import LegacyEngine
  import Getline
  import Evaluator

  /** The part of `AppState` the earlier compiler uses: the variables. */
  class LegacyState {
    var jsVars: map<string, real>

    constructor ()
      ensures jsVars == map[]
    {
      jsVars := map[];
    }
  }

  /** `BytebeatExpression::Compile(expr, error, errorPos)`: the result, the
      program left in `m_rpn` and the error outputs. */
  method CompileExpr(expr: string, unset: OpType) returns (c: Compiled)
    ensures c == Compile(expr, unset)
  {
    if expr == [] {
      return Compiled(false, [], "", -1);
    }
    var ok, toks, msg, pos := Tokenize(expr, unset);
    if !ok {
      return Compiled(false, [], msg, pos);
    }
    var rpn := LegacyParser.ShuntLoop(toks);
    c := Compiled(rpn != [], rpn, "", -1);
  }

  /** Push a value on the stack buffer. */
  method Push(stack: array<real>, sp: int, v: real) returns (sp': int)
    requires -1 <= sp < stack.Length - 1
    modifies stack
    ensures sp' == sp + 1 && stack[..sp' + 1] == old(stack[..sp + 1]) + [v]
  {
    sp' := sp + 1;
    stack[sp'] := v;
    assert stack[..sp' + 1] == old(stack[..sp + 1]) + [v];
  }

  /** A function token, in place on the top slot. */
  method ExecuteFun(stack: array<real>, sp: int, f: FunType, h: Evaluator.Host)
    requires -1 <= sp < stack.Length
    modifies stack
    ensures stack[..sp + 1] == ApplyFun(f, old(stack[..sp + 1]), h)
  {
    if sp >= 0 {
      var v := stack[sp];
      if f == Sin {
        v := h.sin(v);
      } else if f == Cos {
        v := h.cos(v);
      } else if f == Abs {
        v := Evaluator.FAbs(v);
      } else {
        v := v.Floor as real;
      }
      stack[sp] := v;
      assert stack[..sp + 1] == old(stack[..sp + 1])[..sp] + [v];
    }
  }

  /** An operator token (or a stray parenthesis), in place. */
  method ExecuteOp(stack: array<real>, sp: int, op: OpType) returns (sp': int)
    requires -1 <= sp < stack.Length
    modifies stack
    ensures -1 <= sp' <= sp
    ensures stack[..sp' + 1] == ApplyOp(op, old(stack[..sp + 1]))
  {
    sp' := sp;
    if op == Neg || op == BitNot {
      if sp >= 0 {
        var v := if op == Neg then -stack[sp] else BitNot64(stack[sp]);
        stack[sp] := v;
        assert stack[..sp + 1] == old(stack[..sp + 1])[..sp] + [v];
      }
    } else if sp >= 1 {
      sp' := ExecuteBinary(stack, sp, op);
    }
  }

  /** A binary operator on the two top cells. */
  method ExecuteBinary(stack: array<real>, sp: int, op: OpType) returns (sp': int)
    requires 1 <= sp < stack.Length && op != Neg && op != BitNot
    modifies stack
    ensures sp' == sp - 1
    ensures stack[..sp' + 1] == ApplyOp(op, old(stack[..sp + 1]))
  {
    var b := stack[sp];
    sp' := sp - 1;
    var a := stack[sp'];
    var v := Binary(op, a, b);
    stack[sp'] := v;
    assert stack[..sp' + 1] == old(stack[..sp + 1])[..sp - 1] + [v];
  }

  /** One token of `Eval`. */
  method Execute(stack: array<real>, sp: int, tok: Token, t: U32, vars: map<string, real>, h: Evaluator.Host)
    returns (sp': int)
    requires stack.Length == STACK_SIZE && -1 <= sp < STACK_SIZE - 1
    modifies stack
    ensures -1 <= sp' < STACK_SIZE
    ensures stack[..sp' + 1] == Exec(tok, t, old(stack[..sp + 1]), vars, h)
  {
    match tok.kind
    case Number => sp' := Push(stack, sp, tok.value);
    case VarT => sp' := Push(stack, sp, t as real);
    case Fun =>
      ExecuteFun(stack, sp, tok.fun, h);
      sp' := sp;
    case Identifier =>
      var v := if tok.name in vars then vars[tok.name] else 0.0;
      sp' := Push(stack, sp, v);
    case Quest => sp' := sp;
    case Colon =>
      sp' := sp;
      if sp >= 2 {
        var f := stack[sp];
        var v := stack[sp - 1];
        var cond := stack[sp - 2];
        sp' := sp - 2;
        stack[sp'] := if cond != 0.0 then v else f;
        assert stack[..sp' + 1] == old(stack[..sp + 1])[..sp - 2] + [stack[sp']];
      }
    case _ => sp' := ExecuteOp(stack, sp, tok.op);
  }

  /** `BytebeatExpression::Eval(t)` with `jsVars` holding `vars`. */
  method Run(rpn: seq<Token>, t: U32, vars: map<string, real>, h: Evaluator.Host) returns (r: int)
    ensures r == LegacyEval.Eval(rpn, t, vars, h)
  {
    if rpn == [] {
      return 0;
    }
    var stack := new real[STACK_SIZE];
    var sp := -1;
    var k := 0;
    while k < |rpn|
      invariant k <= |rpn| && -1 <= sp < STACK_SIZE
      invariant RunFrom(rpn, 0, t, [], vars, h) == RunFrom(rpn, k, t, stack[..sp + 1], vars, h)
      decreases |rpn| - k
    {
      if sp >= STACK_SIZE - 1 {
        break;
      }
      ghost var before := stack[..sp + 1];
      sp := Execute(stack, sp, rpn[k], t, vars, h);
      RunStep(rpn, k, t, before, stack[..sp + 1], vars, h);
      k := k + 1;
    }
    assert sp >= 0 ==> stack[..sp + 1][0] == stack[0];
    r := if sp >= 0 then ByteOf(stack[0]) else 0;
  }

  /** A compiled formula: `Compile` fills `rpn`, `Eval` runs it against the
      variables of the shared state. */
  class Expression {
    const state: LegacyState
    var rpn: seq<Token>

    constructor (state: LegacyState)
      ensures this.state == state && rpn == []
    {
      this.state := state;
      rpn := [];
    }

    method Compile(expr: string, unset: OpType) returns (ok: bool, error: string, errorPos: int)
      modifies this
      ensures Compiled(ok, rpn, error, errorPos) == LegacyCompiler.Compile(expr, unset)
    {
      var c := CompileExpr(expr, unset);
      ok, rpn, error, errorPos := c.ok, c.rpn, c.error, c.errorPos;
    }

    method Eval(t: U32, h: Evaluator.Host) returns (r: int)
      ensures r == LegacyEval.Eval(rpn, t, state.jsVars, h)
    {
      r := Run(rpn, t, state.jsVars, h);
    }
  }

  /** `segment.find('=')`. */
  method FindEq(seg: string) returns (r: Wrappers.Option<nat>)
    ensures r == LegacyEngine.FirstEq(seg)
  {
    var i := 0;
    while i < |seg|
      invariant i <= |seg| && LegacyEngine.FirstEq(seg) == LegacyEngine.FirstEq(seg, i)
      decreases |seg| - i
    {
      if seg[i] == '=' {
        return Wrappers.Some(i);
      }
      i := i + 1;
    }
    r := Wrappers.None;
  }

  /** One segment read by `std::getline`: blank, or the instruction it
      compiles to with the result of compiling its text. */
  method ReadPiece(seg: string, unset: OpType) returns (q: LegacyEngine.Parsed)
    ensures q == LegacyEngine.ParsePiece(seg, unset)
  {
    if IsBlank(seg) {
      return LegacyEngine.Blank;
    }
    var eq := FindEq(seg);
    var assign, name, body;
    if eq.Some? {
      assign, name, body := true, RemoveSpaces(seg[..eq.value]), seg[eq.value + 1..];
    } else {
      assign, name, body := false, [], seg;
    }
    var c := CompileExpr(body, unset);
    q := LegacyEngine.Stmt(LegacyEngine.Instruction(assign, name, c.rpn), c);
  }

  /** `std::getline(ss, segment, ',')` at `i`, and the segment read; `j`
      is the comma (or the end) that ends it. */
  method ReadSegment(code: string, i: nat, unset: OpType) returns (q: LegacyEngine.Parsed, j: nat)
    requires i < |code|
    ensures i <= j <= |code|
    ensures LegacyEngine.ParsePieces(Getline.PiecesFrom(code, ',', i), unset)
      == [q] + LegacyEngine.ParsePieces(Getline.PiecesFrom(code, ',', j + 1), unset)
  {
    j := Getline.ReadTo(code, ',', i);
    q := ReadPiece(code[i..j], unset);
    LegacyEngine.ParsePiecesFrom(code, i, j, unset);
  }

  /** The comma-separated statement engine. */
  class ComplexEngine {
    const state: LegacyState
    var instructions: seq<LegacyEngine.Instruction>

    constructor (state: LegacyState)
      ensures this.state == state && instructions == []
    {
      this.state := state;
      instructions := [];
    }

    /** `Compile(code, err)` with `err` holding `err0` on entry: the result,
        the instructions kept and what `err` holds at the end. */
    method Compile(code: string, err0: string, unset: OpType) returns (ok: bool, err: string)
      modifies this
      ensures LegacyEngine.EngineCompiled(ok, instructions, err) == LegacyEngine.EngineCompile(code, err0, unset)
    {
      var instrs: seq<LegacyEngine.Instruction> := [];
      err := err0;
      var i := 0;
      ghost var rest := LegacyEngine.ParsePieces(LegacyEngine.Pieces(code), unset);
      while i < |code|
        invariant i <= |code| + 1
        invariant rest == LegacyEngine.ParsePieces(Getline.PiecesFrom(code, ',', i), unset)
        invariant LegacyEngine.EngineCompile(code, err0, unset) == LegacyEngine.CompileParsed(rest, instrs, err)
        decreases |code| + 1 - i
      {
        var q, j := ReadSegment(code, i, unset);
        rest := rest[1..];
        LegacyEngine.CompileParsedCons(q, rest, instrs, err);
        i := j + 1;
        match q
        case Blank =>
        case Stmt(ins, c) =>
          if !c.ok {
            instructions := instrs;
            return false, c.error;
          }
          instrs := instrs + [ins];
          err := c.error;
      }
      instructions := instrs;
      ok := instructions != [];
    }

    /** `Eval(t)`: stores `t`, runs every statement, stores assigned values,
        and returns the low byte of the last value. */
    method Eval(t: U32, h: Evaluator.Host) returns (r: int)
      modifies state
      ensures (r, state.jsVars) == LegacyEngine.EngineEval(instructions, t, old(state.jsVars), h)
    {
      state.jsVars := state.jsVars["t" := t as real];
      ghost var v0 := state.jsVars;
      var last := 0;
      var k := 0;
      while k < |instructions|
        invariant k <= |instructions| && 0 <= last < 256
        invariant LegacyEngine.RunFrom(instructions, 0, t, v0, 0, h)
          == LegacyEngine.RunFrom(instructions, k, t, state.jsVars, last, h)
        decreases |instructions| - k
      {
        var ins := instructions[k];
        last := Run(ins.rpn, t, state.jsVars, h);
        if ins.assign {
          state.jsVars := state.jsVars[ins.name := last as real];
        }
        k := k + 1;
      }
      r := ByteOf(last as real);
    }
  }
}
