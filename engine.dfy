/** `ComplexEngine`: a program of comma-separated statements, each either
    `name = expression` or a bare expression, compiled one by one against
    the shared pools and variables and run in order on every sample. */
module Engine {
  import opened Wrappers
  import opened Tokens
  import opened Chars
  import opened Numeric
  import opened Segments
  import opened Lexer
  import Parser
  import Compiler
  import GlobalState
  import Evaluator
  import Bytebeat

  datatype Kind = AssignVar | EvalExpr

  /** A compiled statement: its kind, the slot it assigns (-1 for an
      expression statement) and its program. */
  datatype Instruction = Instruction(kind: Kind, target: int, rpn: seq<Token>)

  /** The outcome of compiling one statement. */
  datatype SegResult =
    | SegOk(ins: Instruction, ctx: Ctx)
    | SegFail(error: string, errorPos: int, ctx: Ctx)

  /** The outputs of `ComplexEngine::Compile`: its result, `instructions`,
      the `err` and `errorPos` out-parameters, and the shared state. */
  datatype EngineCompiled = EngineCompiled(ok: bool, instrs: seq<Instruction>, error: string, errorPos: int, ctx: Ctx)

  /** A statement taken apart: for an assignment the text before the `=`,
      then the text to compile and its index in the program. */
  datatype Statement = Statement(name: Option<string>, body: string, base: nat)

  function Parse(g: Segment): Statement {
    FindAssignSound(g.text);
    match FindAssign(g.text)
    case Some(p) => Statement(Some(g.text[..p]), g.text[p + 1..], g.offset + p + 1)
    case None => Statement(None, g.text, g.offset)
  }

  /** What a statement compiles, and against which state: for an assignment
      the slot of the name, without its whitespace, is allocated before the
      text after the `=` is compiled. */
  datatype Prepared = Prepared(kind: Kind, target: int, body: string, base: int, ctx: Ctx)

  function Prepare(g: Segment, ctx: Ctx): Prepared {
    var st := Parse(g);
    match st.name
    case Some(n) =>
      var (vars, id) := GlobalState.AllocVar(ctx.vars, RemoveSpaces(n));
      Prepared(AssignVar, id, st.body, st.base, ctx.(vars := vars))
    case None => Prepared(EvalExpr, -1, st.body, st.base, ctx)
  }

  /** One statement; an error position is moved to the program's indices. */
  function CompileSegment(g: Segment, ctx: Ctx): SegResult {
    var pr := Prepare(g, ctx);
    var c := Compiler.Compile(pr.body, pr.ctx);
    if c.ok then SegOk(Instruction(pr.kind, pr.target, c.rpn), c.ctx)
    else SegFail(c.error, pr.base + c.errorPos, c.ctx)
  }

  /** The statements from `k` on.  Blank statements are skipped; the first
      failure ends compilation, keeping the instructions compiled before it.
      Every statement compiled clears `err` (the expression compiler does so
      on entry), and a failure leaves its message in it. */
  function CompileSegments(segs: seq<Segment>, k: nat, ctx: Ctx, instrs: seq<Instruction>, err: string): EngineCompiled
    requires k <= |segs|
    decreases |segs| - k
  {
    if k == |segs| then EngineCompiled(instrs != [], instrs, err, -1, ctx)
    else if IsBlank(segs[k].text) then CompileSegments(segs, k + 1, ctx, instrs, err)
    else match CompileSegment(segs[k], ctx)
      case SegOk(ins, c) => CompileSegments(segs, k + 1, c, instrs + [ins], "")
      case SegFail(e, pos, c) => EngineCompiled(false, instrs, e, pos, c)
  }

  /** `ComplexEngine::Compile`: the string and array pools are emptied, the
      variables are kept.  It succeeds when at least one statement compiled
      and none failed. */
  function EngineCompile(code: string, ctx: Ctx, err: string): EngineCompiled {
    CompileSegments(Split(code), 0, ctx.(strings := [], arrays := []), [], err)
  }

  // ---------------------------------------------------------------- running

  /** Every variable a program reads, and every slot an assignment writes,
      is allocated. */
  predicate ProgramFits(instrs: seq<Instruction>, n: nat) {
    forall i :: 0 <= i < |instrs| ==> InstructionFits(instrs[i], n)
  }

  predicate InstructionFits(ins: Instruction, n: nat) {
    Evaluator.IdentifiersIn(ins.rpn, n) && (ins.kind == AssignVar ==> 0 <= ins.target < n)
  }

  /** The instructions from `k` on, with the value of the last one run so far. */
  function RunInstrs(instrs: seq<Instruction>, k: nat, t: U32, memory: seq<real>, draws: nat, h: Evaluator.Host,
                     strings: seq<string>, arrays: seq<seq<real>>, last: int): (r: (int, seq<real>, nat))
    requires k <= |instrs| && ProgramFits(instrs, |memory|)
    ensures |r.1| == |memory|
    decreases |instrs| - k
  {
    if k == |instrs| then (last, memory, draws)
    else
      var ins := instrs[k];
      var e := Evaluator.Eval(ins.rpn, t, memory, draws, h, strings, arrays);
      var mem := if ins.kind == AssignVar then e.1.memory[ins.target := e.0 as real] else e.1.memory;
      RunInstrs(instrs, k + 1, t, mem, e.1.draws, h, strings, arrays, e.0)
  }

  /** `ComplexEngine::Eval(t)`: every instruction in order, an assignment
      storing its value in its slot; the result is the low byte of the last
      value, 0 when there are no instructions. */
  function EngineEval(instrs: seq<Instruction>, t: U32, memory: seq<real>, draws: nat, h: Evaluator.Host,
                      strings: seq<string>, arrays: seq<seq<real>>): (r: (int, seq<real>, nat))
    requires ProgramFits(instrs, |memory|)
    ensures 0 <= r.0 < 256
    ensures |r.1| == |memory|
  {
    var (last, mem, d) := RunInstrs(instrs, 0, t, memory, draws, h, strings, arrays, 0);
    (ByteOf(last as real), mem, d)
  }

  // ---------------------------------------------------------------- compile: state

  lemma FitsGrows(instrs: seq<Instruction>, n: nat, n': nat)
    requires ProgramFits(instrs, n) && n <= n'
    ensures ProgramFits(instrs, n')
  {
  }

  /** Allocating the assigned name keeps the variables well formed, only
      adds to them, and gives a slot that exists. */
  lemma PrepareKeeps(g: Segment, ctx: Ctx)
    requires GlobalState.WellFormed(ctx.vars)
    ensures var pr := Prepare(g, ctx);
      && Grows(ctx, pr.ctx) && GlobalState.WellFormed(pr.ctx.vars)
      && (pr.kind == AssignVar ==> 0 <= pr.target < |pr.ctx.vars.memory|)
  {
    GrowsRefl(ctx);
    match Parse(g).name
    case Some(n) =>
      var vars := GlobalState.AllocVar(ctx.vars, RemoveSpaces(n)).0;
      GlobalState.AllocVarWellFormed(ctx.vars, RemoveSpaces(n));
      assert vars.memory[..|ctx.vars.memory|] == ctx.vars.memory;
    case None =>
  }

  /** A statement keeps the variables well formed, only adds to the shared
      state, and yields an instruction that fits the memory it leaves. */
  lemma SegmentKeeps(g: Segment, ctx: Ctx)
    requires GlobalState.WellFormed(ctx.vars)
    ensures var r := CompileSegment(g, ctx);
      && Grows(ctx, r.ctx) && GlobalState.WellFormed(r.ctx.vars)
      && (r.SegOk? ==> InstructionFits(r.ins, |r.ctx.vars.memory|) && r.ins.rpn != [])
  {
    var pr := Prepare(g, ctx);
    PrepareKeeps(g, ctx);
    Compiler.CompileSuccess(pr.body, pr.ctx);
    GrowsTrans(ctx, pr.ctx, Compiler.Compile(pr.body, pr.ctx).ctx);
  }

  lemma {:induction false} CompileSegmentsKeep(segs: seq<Segment>, k: nat, ctx: Ctx, instrs: seq<Instruction>, err: string)
    requires k <= |segs| && GlobalState.WellFormed(ctx.vars) && ProgramFits(instrs, |ctx.vars.memory|)
    ensures var r := CompileSegments(segs, k, ctx, instrs, err);
      && GlobalState.WellFormed(r.ctx.vars) && ProgramFits(r.instrs, |r.ctx.vars.memory|)
      && |r.ctx.vars.memory| >= |ctx.vars.memory|
    decreases |segs| - k
  {
    if k < |segs| {
      if IsBlank(segs[k].text) {
        CompileSegmentsKeep(segs, k + 1, ctx, instrs, err);
      } else {
        SegmentKeeps(segs[k], ctx);
        var r := CompileSegment(segs[k], ctx);
        FitsGrows(instrs, |ctx.vars.memory|, |r.ctx.vars.memory|);
        if r.SegOk? {
          CompileSegmentsKeep(segs, k + 1, r.ctx, instrs + [r.ins], "");
        }
      }
    }
  }

  /** From well-formed variables, compilation keeps them well formed and
      leaves instructions that only read and write allocated slots, each
      with a non-empty program. */
  lemma EngineCompileKeeps(code: string, ctx: Ctx, err: string)
    requires GlobalState.WellFormed(ctx.vars)
    ensures var r := EngineCompile(code, ctx, err);
      && GlobalState.WellFormed(r.ctx.vars) && ProgramFits(r.instrs, |r.ctx.vars.memory|)
      && |r.ctx.vars.memory| >= |ctx.vars.memory|
  {
    CompileSegmentsKeep(Split(code), 0, ctx.(strings := [], arrays := []), [], err);
  }

  // ---------------------------------------------------------------- compile: errors

  /** The message of a positioned error names the character `c`. */
  predicate NamesChar(error: string, c: char) {
    || error == UnexpectedMsg(c)
    || (error == Parser.CLOSE_MSG && c in ")]")
    || (error == Parser.OPEN_MSG && c in "([")
  }

  /** Where an error of a statement lands in the program: an unpositioned
      one (the empty expression after `=`, or an empty output) at the `=`,
      at the comma before the statement or at -1; a positioned one at the
      character it names. */
  predicate ErrorInCode(code: string, error: string, p: int) {
    || ((error == "" || error == Parser.EMPTY_MSG) && (p == -1 || (0 <= p < |code| && code[p] in ",=")))
    || (0 <= p < |code| && NamesChar(error, code[p]))
  }

  /** `sub` is the text of the program at `base`. */
  ghost predicate Within(code: string, sub: string, base: nat) {
    base + |sub| <= |code| && forall j :: 0 <= j < |sub| ==> code[base + j] == sub[j]
  }

  /** `sub` is the text of the program at `base`, right after a comma or an
      `=` unless it starts the program. */
  ghost predicate PieceAt(code: string, sub: string, base: nat) {
    Within(code, sub, base) && (base == 0 || code[base - 1] in ",=")
  }

  /** An error of a piece of the program lands in the program where
      `ErrorInCode` says. */
  lemma ShiftError(code: string, sub: string, base: nat, error: string, errorPos: int)
    requires PieceAt(code, sub, base)
    requires Compiler.ErrorExplained(sub, error, errorPos)
    ensures ErrorInCode(code, error, base + errorPos)
  {
  }

  /** The text a statement compiles is a piece of the program at `base`,
      which follows a comma or the `=`, or starts the program. */
  lemma ParseSlice(code: string, g: Segment)
    requires SliceOf(code, g)
    ensures PieceAt(code, Parse(g).body, Parse(g).base)
  {
    FindAssignSound(g.text);
    SliceChars(code, g);
    match FindAssign(g.text)
    case Some(p) => RightHandSide(code, g, p);
    case None => assert Within(code, g.text, g.offset);
  }

  lemma SliceChars(code: string, g: Segment)
    requires SliceOf(code, g)
    ensures forall j :: 0 <= j < |g.text| ==> code[g.offset + j] == g.text[j]
  {
    forall j | 0 <= j < |g.text| ensures code[g.offset + j] == g.text[j] {
      assert code[g.offset..g.offset + |g.text|][j] == code[g.offset + j];
    }
  }

  /** The text after the `=` at `p`. */
  lemma RightHandSide(code: string, g: Segment, p: nat)
    requires SliceOf(code, g) && p < |g.text| && g.text[p] == '='
    requires forall j :: 0 <= j < |g.text| ==> code[g.offset + j] == g.text[j]
    ensures var body, base := g.text[p + 1..], g.offset + p + 1;
      Within(code, body, base) && code[base - 1] == '='
  {
    var body, base := g.text[p + 1..], g.offset + p + 1;
    assert code[g.offset + p] == g.text[p];
    forall j | 0 <= j < |body| ensures code[base + j] == body[j] {
      assert code[g.offset + (p + 1 + j)] == g.text[p + 1 + j];
    }
  }

  lemma PrepareParts(g: Segment, ctx: Ctx)
    ensures Prepare(g, ctx).body == Parse(g).body && Prepare(g, ctx).base == Parse(g).base
  {
  }

  /** A failed compilation of the piece `sub` of the program at `base`
      reports an error that lands in the program where `ErrorInCode` says. */
  predicate ErrorPlaced(code: string, sub: string, base: nat, ctx: Ctx) {
    var c := Compiler.Compile(sub, ctx); !c.ok ==> ErrorInCode(code, c.error, base + c.errorPos)
  }

  /** A failed compilation of a piece of the program at `base`. */
  lemma PieceErrorAt(code: string, sub: string, base: nat, ctx: Ctx)
    requires PieceAt(code, sub, base)
    requires GlobalState.WellFormed(ctx.vars)
    ensures ErrorPlaced(code, sub, base, ctx)
  {
    Compiler.CompileErrors(sub, ctx);
    var c := Compiler.Compile(sub, ctx);
    if !c.ok {
      ShiftError(code, sub, base, c.error, c.errorPos);
    }
  }

  /** A failed compilation of the text a statement compiles. */
  lemma BodyErrorAt(code: string, g: Segment, ctx: Ctx)
    requires SliceOf(code, g) && GlobalState.WellFormed(ctx.vars)
    ensures ErrorPlaced(code, Parse(g).body, Parse(g).base, ctx)
  {
    var st := Parse(g);
    ParseSlice(code, g);
    PieceErrorAt(code, st.body, st.base, ctx);
  }

  lemma SegmentErrorAt(code: string, g: Segment, ctx: Ctx)
    requires SliceOf(code, g) && GlobalState.WellFormed(ctx.vars)
    ensures var r := CompileSegment(g, ctx); r.SegFail? ==> ErrorInCode(code, r.error, r.errorPos)
  {
    PrepareParts(g, ctx);
    PrepareKeeps(g, ctx);
    BodyErrorAt(code, g, Prepare(g, ctx).ctx);
  }

  /** Some statement from `k` on is not blank. */
  predicate HasStatementFrom(segs: seq<Segment>, k: nat) {
    exists j :: k <= j < |segs| && !IsBlank(segs[j].text)
  }

  /** Without a failure, compiling from `k` adds an instruction and clears
      `err` exactly when a non-blank statement remains. */
  predicate NoFailure(segs: seq<Segment>, k: nat, instrs: seq<Instruction>, err: string, r: EngineCompiled) {
    && r.errorPos == -1 && r.ok == (r.instrs != []) && |instrs| <= |r.instrs|
    && (if HasStatementFrom(segs, k) then r.error == "" && |instrs| < |r.instrs| else r.error == err && r.instrs == instrs)
  }

  lemma {:induction false} CompileSegmentsErrors(code: string, segs: seq<Segment>, k: nat, ctx: Ctx,
                                                 instrs: seq<Instruction>, err: string)
    requires k <= |segs| && GlobalState.WellFormed(ctx.vars)
    requires forall j :: 0 <= j < |segs| ==> SliceOf(code, segs[j])
    ensures var r := CompileSegments(segs, k, ctx, instrs, err);
      NoFailure(segs, k, instrs, err, r) || (!r.ok && ErrorInCode(code, r.error, r.errorPos))
    decreases |segs| - k
  {
    if k == |segs| {
      assert !HasStatementFrom(segs, k);
    } else {
      if IsBlank(segs[k].text) {
        CompileSegmentsErrors(code, segs, k + 1, ctx, instrs, err);
        assert HasStatementFrom(segs, k) == HasStatementFrom(segs, k + 1) by {
          if HasStatementFrom(segs, k) {
            var j :| k <= j < |segs| && !IsBlank(segs[j].text);
            assert j != k;
          }
        }
      } else {
        assert HasStatementFrom(segs, k);
        SegmentKeeps(segs[k], ctx);
        SegmentErrorAt(code, segs[k], ctx);
        var r := CompileSegment(segs[k], ctx);
        if r.SegOk? {
          CompileSegmentsErrors(code, segs, k + 1, r.ctx, instrs + [r.ins], "");
        }
      }
    }
  }

  /** Either no statement failed, or the result is false and the error
      lands in the program text as `ErrorInCode` describes.  Without a
      failure `errorPos` is -1, and the result is true exactly when some
      statement is not blank; then `err` has been cleared, otherwise it
      keeps its value on entry. */
  lemma EngineCompileErrors(code: string, ctx: Ctx, err: string)
    requires GlobalState.WellFormed(ctx.vars)
    ensures var r := EngineCompile(code, ctx, err);
      || (&& r.errorPos == -1 && r.ok == HasStatementFrom(Split(code), 0) && r.ok == (r.instrs != [])
          && r.error == (if r.ok then "" else err))
      || (!r.ok && ErrorInCode(code, r.error, r.errorPos))
  {
    SplitSlices(code);
    CompileSegmentsErrors(code, Split(code), 0, ctx.(strings := [], arrays := []), [], err);
  }

  /** A statement that compiles clears a message left from before. */
  lemma EngineCompileClears()
    ensures var r := EngineCompile("1", Ctx(GlobalState.Vars([], map[]), [], []), Parser.OPEN_MSG);
      r.ok && r.error == "" && r.errorPos == -1
  {
    var g := Segment("1", 0);
    var s1 := Splitter("1", 0, 0, 0, false, 0 as char);
    assert "1"[0] == '1' && START.cur + ['1'] == "1";
    assert SplitStep("1", 0, START, []) == (s1, []);
    assert Split("1") == SplitFrom("1", 1, s1, []) == [g];
    assert !IsBlank(g.text) by { assert g.text[0] !in {' ', '\t', '\n', '\r'}; }
    assert FindAssign("1") == None;
    var c := Compiler.Compile("1", Ctx(GlobalState.Vars([], map[]), [], []));
    assert c.ok;
  }

  // ---------------------------------------------------------------- eval: properties

  /** The result is the byte the last instruction evaluates to, 0 without
      instructions; earlier instructions only contribute through memory. */
  lemma {:induction false} RunInstrsResult(instrs: seq<Instruction>, k: nat, t: U32, memory: seq<real>, draws: nat,
                                           h: Evaluator.Host, strings: seq<string>, arrays: seq<seq<real>>, last: int)
    requires k <= |instrs| && ProgramFits(instrs, |memory|) && 0 <= last < 256
    ensures var r := RunInstrs(instrs, k, t, memory, draws, h, strings, arrays, last);
      && 0 <= r.0 < 256
      && (k == |instrs| ==> r.0 == last)
      && (k < |instrs| && instrs[|instrs| - 1].kind == AssignVar ==> r.1[instrs[|instrs| - 1].target] == r.0 as real)
    decreases |instrs| - k
  {
    if k < |instrs| {
      var ins := instrs[k];
      var e := Evaluator.Eval(ins.rpn, t, memory, draws, h, strings, arrays);
      var mem := if ins.kind == AssignVar then e.1.memory[ins.target := e.0 as real] else e.1.memory;
      RunInstrsResult(instrs, k + 1, t, mem, e.1.draws, h, strings, arrays, e.0);
    }
  }

  /** `Eval` returns the value of the last statement, which an assignment
      also leaves in its slot; without instructions it returns 0 and changes
      nothing. */
  lemma EngineEvalResult(instrs: seq<Instruction>, t: U32, memory: seq<real>, draws: nat, h: Evaluator.Host,
                         strings: seq<string>, arrays: seq<seq<real>>)
    requires ProgramFits(instrs, |memory|)
    ensures var r := EngineEval(instrs, t, memory, draws, h, strings, arrays);
      && (instrs == [] ==> r == (0, memory, draws))
      && (instrs != [] && instrs[|instrs| - 1].kind == AssignVar ==> r.1[instrs[|instrs| - 1].target] == r.0 as real)
  {
    RunInstrsResult(instrs, 0, t, memory, draws, h, strings, arrays, 0);
    var last := RunInstrs(instrs, 0, t, memory, draws, h, strings, arrays, 0).0;
    assert Trunc(last as real) == last by { TruncOfInt(last); }
  }

  // ---------------------------------------------------------------- the engine

  class ComplexEngine {
    const rt: Bytebeat.Runtime
    var instructions: seq<Instruction>

    constructor (rt: Bytebeat.Runtime)
      ensures this.rt == rt && instructions == []
    {
      this.rt := rt;
      instructions := [];
    }

    /** The variables are well formed and the instructions fit them. */
    ghost predicate Valid()
      reads this, rt, rt.app
    {
      GlobalState.WellFormed(rt.app.VarsOf()) && ProgramFits(instructions, |rt.app.vmMemory|)
    }

    /** The body of the statement loop: one non-blank statement. */
    method CompileStatement(g: Segment) returns (failed: bool, ins: Instruction, error: string, errorPos: int)
      modifies rt, rt.app
      ensures CompileSegment(g, old(rt.CtxOf()))
           == if failed then SegFail(error, errorPos, rt.CtxOf()) else SegOk(ins, rt.CtxOf())
      ensures rt.draws == old(rt.draws)
      ensures !failed ==> error == ""
    {
      var p := FindAssignIn(g.text);
      FindAssignSound(g.text);
      ins := Instruction(EvalExpr, -1, []);
      if p.Some? {
        var id := rt.app.GetVarId(RemoveSpaces(g.text[..p.value]));
        var ok, rpn, e, lp := rt.CompileExpr(g.text[p.value + 1..]);
        if !ok {
          return true, ins, e, g.offset + p.value + 1 + lp;
        }
        ins := Instruction(AssignVar, id, rpn);
      } else {
        var ok, rpn, e, lp := rt.CompileExpr(g.text);
        if !ok {
          return true, ins, e, g.offset + lp;
        }
        ins := Instruction(EvalExpr, -1, rpn);
      }
      failed, error, errorPos := false, "", -1;
    }

    /** `Compile(code, err, errorPos)`; `err0` is the value `err` has on entry. */
    method Compile(code: string, err0: string) returns (ok: bool, err: string, errorPos: int)
      modifies this, rt, rt.app
      ensures EngineCompiled(ok, instructions, err, errorPos, rt.CtxOf()) == EngineCompile(code, old(rt.CtxOf()), err0)
      ensures rt.draws == old(rt.draws)
      ensures old(GlobalState.WellFormed(rt.app.VarsOf())) ==> Valid()
    {
      instructions := [];
      rt.strings, rt.arrays := [], [];
      err, errorPos := err0, -1;
      ghost var wf := GlobalState.WellFormed(rt.app.VarsOf());
      var segs := SplitCode(code);
      var k := 0;
      while k < |segs|
        invariant k <= |segs|
        invariant EngineCompile(code, old(rt.CtxOf()), err0) == CompileSegments(segs, k, rt.CtxOf(), instructions, err)
        invariant rt.draws == old(rt.draws)
        invariant wf ==> Valid()
        decreases |segs| - k
      {
        var g := segs[k];
        if !IsBlank(g.text) {
          ghost var before := rt.CtxOf();
          if wf { SegmentKeeps(g, before); }
          var failed, ins, e, pos := CompileStatement(g);
          if wf { FitsGrows(instructions, |before.vars.memory|, |rt.app.vmMemory|); }
          if failed {
            return false, e, pos;
          }
          instructions := instructions + [ins];
          err := e;
        }
        k := k + 1;
      }
      ok := instructions != [];
    }

    /** `Eval(t)`. */
    method Eval(t: U32, h: Evaluator.Host) returns (r: int)
      requires Valid()
      modifies rt, rt.app
      ensures (r, rt.app.vmMemory, rt.draws)
           == EngineEval(instructions, t, old(rt.app.vmMemory), old(rt.draws), h, rt.strings, rt.arrays)
      ensures rt.strings == old(rt.strings) && rt.arrays == old(rt.arrays) && rt.app.varTable == old(rt.app.varTable)
      ensures Valid()
    {
      var last := 0;
      var k := 0;
      while k < |instructions|
        invariant k <= |instructions|
        invariant rt.strings == old(rt.strings) && rt.arrays == old(rt.arrays) && rt.app.varTable == old(rt.app.varTable)
        invariant |rt.app.vmMemory| == old(|rt.app.vmMemory|)
        invariant RunInstrs(instructions, 0, t, old(rt.app.vmMemory), old(rt.draws), h, rt.strings, rt.arrays, 0)
               == RunInstrs(instructions, k, t, rt.app.vmMemory, rt.draws, h, rt.strings, rt.arrays, last)
        decreases |instructions| - k
      {
        var ins := instructions[k];
        assert InstructionFits(ins, |rt.app.vmMemory|);
        last := rt.Run(ins.rpn, t, h);
        if ins.kind == AssignVar {
          rt.app.vmMemory := rt.app.vmMemory[ins.target := last as real];
        }
        k := k + 1;
      }
      r := ByteOf(last as real);
    }
  }
}
