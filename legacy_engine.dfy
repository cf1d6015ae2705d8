/** `ComplexEngine` of the earlier compiler (`bytebeat-player/Bytebeat.cpp`)
    as functions: the code is cut at EVERY comma, each non-blank piece is a
    statement, and the first `=` of a piece makes it an assignment to the
    name before it.  Running the statements updates the `jsVars` map. */
module LegacyEngine {
  import opened Wrappers
  import opened Chars
  import opened Numeric
  import opened LegacyLexer
  import opened LegacyCompiler
  import LegacyEval
  import Getline
  import Evaluator

  // ---------------------------------------------------------------- pieces

  /** The segments `std::getline(ss, segment, ',')` reads. */
  function Pieces(code: string): seq<string> {
    Getline.Pieces(code, ',')
  }

  /** Joining the segments with a comma after each gives back the code, with
      one comma added when the code does not end in one, and no segment
      holds a comma. */
  lemma PiecesJoin(code: string)
    ensures Getline.Terminated(Pieces(code), ',') == if code == [] || code[|code| - 1] == ',' then code else code + [',']
    ensures forall p :: 0 <= p < |Pieces(code)| ==> ',' !in Pieces(code)[p]
  {
    Getline.PiecesJoin(code, ',');
  }

  // ---------------------------------------------------------------- statements

  /** `segment.find('=')`. */
  function FirstEq(seg: string, i: nat := 0): (r: Option<nat>)
    requires i <= |seg|
    ensures r.Some? ==> i <= r.value < |seg| && seg[r.value] == '=' && forall k :: i <= k < r.value ==> seg[k] != '='
    ensures r.None? ==> forall k :: i <= k < |seg| ==> seg[k] != '='
    decreases |seg| - i
  {
    if i == |seg| then None else if seg[i] == '=' then Some(i) else FirstEq(seg, i + 1)
  }

  datatype Instruction = Instruction(assign: bool, name: string, rpn: seq<Token>)

  /** What a non-blank piece stands for: an assignment flag, the variable
      name with its white space removed, and the text to compile. */
  function Statement(seg: string): (r: (bool, string, string))
    ensures r.0 <==> '=' in seg
  {
    match FirstEq(seg)
    case Some(q) => (true, RemoveSpaces(seg[..q]), seg[q + 1..])
    case None => (false, [], seg)
  }

  /** The instruction a non-blank piece compiles to, and the result of compiling its text. */
  function PieceCompile(seg: string, unset: OpType): (Instruction, Compiled) {
    var (assign, name, body) := Statement(seg);
    var c := Compile(body, unset);
    (Instruction(assign, name, c.rpn), c)
  }

  /** A piece read: blank, or a statement with its compile result. */
  datatype Parsed = Blank | Stmt(ins: Instruction, c: Compiled)

  function ParsePiece(seg: string, unset: OpType): (r: Parsed)
    ensures r.Blank? <==> IsBlank(seg)
  {
    if IsBlank(seg) then Blank else var (ins, c) := PieceCompile(seg, unset); Stmt(ins, c)
  }

  function ParsePieces(ps: seq<string>, unset: OpType): (r: seq<Parsed>)
    ensures |r| == |ps|
  {
    if ps == [] then [] else [ParsePiece(ps[0], unset)] + ParsePieces(ps[1..], unset)
  }

  lemma {:induction false} ParsePiecesAt(ps: seq<string>, unset: OpType, i: nat)
    requires i < |ps|
    ensures ParsePieces(ps, unset)[i] == ParsePiece(ps[i], unset)
  {
    if i > 0 {
      ParsePiecesAt(ps[1..], unset, i - 1);
    }
  }

  lemma ParsePiecesFrom(code: string, i: nat, j: nat, unset: OpType)
    requires i < |code| && j == Getline.NextDelim(code, ',', i)
    ensures ParsePieces(Getline.PiecesFrom(code, ',', i), unset)
        == [ParsePiece(code[i..j], unset)] + ParsePieces(Getline.PiecesFrom(code, ',', j + 1), unset)
  {
    var ps := Getline.PiecesFrom(code, ',', i);
    Getline.PiecesFromCons(code, ',', i);
    assert ps[1..] == Getline.PiecesFrom(code, ',', j + 1);
  }

  /** The result of `ComplexEngine::Compile` with the instructions it kept
      and the last message written to `err`. */
  datatype EngineCompiled = EngineCompiled(ok: bool, instrs: seq<Instruction>, err: string)

  /** The statements in order: blank ones are skipped, the first that fails
      to compile ends the run with its message, and each success appends its
      instruction and clears the message. */
  function CompileParsed(qs: seq<Parsed>, instrs: seq<Instruction>, err: string): EngineCompiled
    decreases |qs|
  {
    if qs == [] then EngineCompiled(instrs != [], instrs, err)
    else match qs[0]
      case Blank => CompileParsed(qs[1..], instrs, err)
      case Stmt(ins, c) =>
        if !c.ok then EngineCompiled(false, instrs, c.error)
        else CompileParsed(qs[1..], instrs + [ins], c.error)
  }

  lemma CompileParsedCons(q: Parsed, rest: seq<Parsed>, instrs: seq<Instruction>, err: string)
    ensures q.Blank? ==> CompileParsed([q] + rest, instrs, err) == CompileParsed(rest, instrs, err)
    ensures q.Stmt? && q.c.ok ==> CompileParsed([q] + rest, instrs, err) == CompileParsed(rest, instrs + [q.ins], q.c.error)
    ensures q.Stmt? && !q.c.ok ==> CompileParsed([q] + rest, instrs, err) == EngineCompiled(false, instrs, q.c.error)
  {
    assert ([q] + rest)[0] == q && ([q] + rest)[1..] == rest;
  }

  /** `ComplexEngine::Compile(code, err)` with `err` holding `err0` on entry. */
  function EngineCompile(code: string, err0: string, unset: OpType): EngineCompiled {
    CompileParsed(ParsePieces(Pieces(code), unset), [], err0)
  }

  // ---------------------------------------------------------------- properties of compiling

  /** The instructions of the statements. */
  function Kept(qs: seq<Parsed>): (r: seq<Instruction>)
    ensures |r| <= |qs|
  {
    if qs == [] then [] else (if qs[0].Stmt? then [qs[0].ins] else []) + Kept(qs[1..])
  }

  /** What compiling one piece gives: a non-empty program exactly on
      success, and then no message; otherwise no message or "Unknown char". */
  lemma PieceFacts(seg: string, unset: OpType)
    ensures var (ins, c) := PieceCompile(seg, unset);
      && ins.rpn == c.rpn && (c.ok <==> c.rpn != [])
      && (c.ok ==> c.error == "") && (c.error == "" || c.error == UNKNOWN_MSG)
  {
    CompileErrors(Statement(seg).2, unset);
  }

  /** A statement as `PieceFacts` describes it. */
  predicate Sound(q: Parsed) {
    q.Stmt? ==>
      && q.ins.rpn == q.c.rpn && (q.c.ok <==> q.c.rpn != [])
      && (q.c.ok ==> q.c.error == "") && (q.c.error == "" || q.c.error == UNKNOWN_MSG)
  }

  lemma ParsedSound(ps: seq<string>, unset: OpType)
    ensures forall i :: 0 <= i < |ps| ==> Sound(ParsePieces(ps, unset)[i])
  {
    forall i | 0 <= i < |ps| ensures Sound(ParsePieces(ps, unset)[i]) {
      PieceFacts(ps[i], unset);
      ParsePiecesAt(ps, unset, i);
    }
  }

  lemma {:induction false} CompileParsedInstrs(qs: seq<Parsed>, instrs: seq<Instruction>, err: string)
    ensures var r := CompileParsed(qs, instrs, err);
      r.ok ==> r.instrs == instrs + Kept(qs)
    decreases |qs|
  {
    if qs != [] {
      if qs[0].Blank? {
        CompileParsedInstrs(qs[1..], instrs, err);
      } else if qs[0].c.ok {
        CompileParsedInstrs(qs[1..], instrs + [qs[0].ins], qs[0].c.error);
        assert instrs + [qs[0].ins] + Kept(qs[1..]) == instrs + ([qs[0].ins] + Kept(qs[1..]));
      }
    }
  }

  lemma {:induction false} CompileParsedErr(qs: seq<Parsed>, instrs: seq<Instruction>, err: string)
    requires forall i :: 0 <= i < |qs| ==> Sound(qs[i])
    requires forall i :: 0 <= i < |instrs| ==> instrs[i].rpn != []
    ensures var r := CompileParsed(qs, instrs, err);
      && |r.instrs| >= |instrs| && (r.ok ==> r.instrs != [])
      && (forall i :: 0 <= i < |r.instrs| ==> r.instrs[i].rpn != [])
      && (r.ok && |r.instrs| > |instrs| ==> r.err == "")
      && (r.ok && |r.instrs| == |instrs| ==> r.err == err)
      && (r.err == err || r.err == "" || r.err == UNKNOWN_MSG)
    decreases |qs|
  {
    if qs != [] {
      assert Sound(qs[0]);
      assert forall i :: 0 <= i < |qs[1..]| ==> Sound(qs[1..][i]) by {
        forall i | 0 <= i < |qs[1..]| ensures Sound(qs[1..][i]) {
          assert qs[1..][i] == qs[i + 1];
        }
      }
      if qs[0].Blank? {
        CompileParsedErr(qs[1..], instrs, err);
      } else if qs[0].c.ok {
        CompileParsedErr(qs[1..], instrs + [qs[0].ins], qs[0].c.error);
      }
    }
  }

  /** The statements kept are the non-blank pieces' instructions, in order. */
  lemma {:induction false} KeptNonBlank(ps: seq<string>, unset: OpType)
    ensures Kept(ParsePieces(ps, unset)) == Instructions(NonBlank(ps), unset)
  {
    if ps != [] {
      var qs := ParsePieces(ps, unset);
      assert qs[1..] == ParsePieces(ps[1..], unset);
      KeptNonBlank(ps[1..], unset);
      NonBlankCons(ps, unset);
    }
  }

  /** The non-blank pieces. */
  function NonBlank(ps: seq<string>): seq<string> {
    if ps == [] then [] else (if IsBlank(ps[0]) then [] else [ps[0]]) + NonBlank(ps[1..])
  }

  /** Their instructions. */
  function Instructions(ps: seq<string>, unset: OpType): (r: seq<Instruction>)
    ensures |r| == |ps|
  {
    if ps == [] then [] else [PieceCompile(ps[0], unset).0] + Instructions(ps[1..], unset)
  }

  lemma NonBlankCons(ps: seq<string>, unset: OpType)
    requires ps != []
    ensures IsBlank(ps[0]) ==> NonBlank(ps) == NonBlank(ps[1..])
    ensures !IsBlank(ps[0]) ==>
      Instructions(NonBlank(ps), unset) == [PieceCompile(ps[0], unset).0] + Instructions(NonBlank(ps[1..]), unset)
  {
    if !IsBlank(ps[0]) {
      assert NonBlank(ps) == [ps[0]] + NonBlank(ps[1..]);
      assert ([ps[0]] + NonBlank(ps[1..]))[1..] == NonBlank(ps[1..]);
    }
  }

  /** A successful compile keeps one instruction per non-blank piece, in
      order, each with a non-empty program, and clears `err`; a failed one
      leaves `err` as it was, empty, or "Unknown char". */
  lemma EngineCompileResult(code: string, err0: string, unset: OpType)
    ensures var r := EngineCompile(code, err0, unset);
      && (r.ok ==> r.instrs == Instructions(NonBlank(Pieces(code)), unset) && r.instrs != [])
      && (forall i :: 0 <= i < |r.instrs| ==> r.instrs[i].rpn != [])
      && (r.ok ==> r.err == "")
      && (r.err == err0 || r.err == "" || r.err == UNKNOWN_MSG)
  {
    var qs := ParsePieces(Pieces(code), unset);
    ParsedSound(Pieces(code), unset);
    CompileParsedInstrs(qs, [], err0);
    CompileParsedErr(qs, [], err0);
    KeptNonBlank(Pieces(code), unset);
    assert [] + Kept(qs) == Kept(qs);
  }

  /** The first `=` decides, whatever is around it: `x==1` assigns `=1`
      to `x`, and `a<=b` assigns `b` to `a<`. */
  lemma FirstEqualsAssigns()
    ensures Statement("x==1") == (true, "x", "=1")
    ensures Statement("a<=b") == (true, "a<", "b")
  {
    var s1 := "x==1";
    assert FirstEq(s1, 1) == Some(1);
    assert FirstEq(s1) == Some(1);
    assert s1[..1] == "x" && s1[2..] == "=1";
    assert RemoveSpaces("x") == "x";
    var s2 := "a<=b";
    assert FirstEq(s2, 2) == Some(2);
    assert FirstEq(s2, 1) == Some(2);
    assert FirstEq(s2) == Some(2);
    assert s2[..2] == "a<" && s2[3..] == "b";
    assert RemoveSpaces("a<") == "a<";
  }

  /** White space around the name is dropped; the text after `=` is kept as it is. */
  lemma NameWithoutSpaces()
    ensures Statement(" v = t") == (true, "v", " t")
  {
    var s := " v = t";
    assert FirstEq(s, 3) == Some(3);
    assert FirstEq(s, 2) == Some(3);
    assert FirstEq(s, 1) == Some(3);
    assert FirstEq(s) == Some(3);
    assert s[..3] == " v " && s[4..] == " t";
    assert RemoveSpaces("") == "";
    assert RemoveSpaces(" ") == "";
    assert RemoveSpaces("v ") == "v";
    assert " v "[1..] == "v " && "v "[1..] == " " && " "[1..] == "";
  }

  // ---------------------------------------------------------------- running

  /** The statements from `k` on, each evaluated against the variables as
      the earlier ones left them; an assignment stores its value. */
  function RunFrom(instrs: seq<Instruction>, k: nat, t: U32, vars: map<string, real>, last: int,
                   h: Evaluator.Host): (r: (map<string, real>, int))
    requires k <= |instrs|
    requires 0 <= last < 256
    ensures 0 <= r.1 < 256
    decreases |instrs| - k
  {
    if k == |instrs| then (vars, last)
    else
      var ins := instrs[k];
      var v := LegacyEval.Eval(ins.rpn, t, vars, h);
      RunFrom(instrs, k + 1, t, if ins.assign then vars[ins.name := v as real] else vars, v, h)
  }

  /** `ComplexEngine::Eval(t)`: `t` is stored first; the result is the low
      byte of the last statement's value.  Returns it with the new `jsVars`. */
  function EngineEval(instrs: seq<Instruction>, t: U32, vars: map<string, real>, h: Evaluator.Host): (r: (int, map<string, real>))
    ensures 0 <= r.0 < 256
  {
    var (vs, last) := RunFrom(instrs, 0, t, vars["t" := t as real], 0, h);
    (ByteOf(last as real), vs)
  }

  // ---------------------------------------------------------------- properties of running

  /** Assigned names. */
  function Assigned(instrs: seq<Instruction>): set<string> {
    set i | 0 <= i < |instrs| && instrs[i].assign :: instrs[i].name
  }

  lemma {:induction false} RunFromKeys(instrs: seq<Instruction>, k: nat, t: U32, vars: map<string, real>, last: int, h: Evaluator.Host)
    requires k <= |instrs| && 0 <= last < 256
    ensures var r := RunFrom(instrs, k, t, vars, last, h);
      && r.0.Keys == vars.Keys + Assigned(instrs[k..])
      && (forall n :: n in vars && n !in Assigned(instrs[k..]) ==> r.0[n] == vars[n])
      && (k < |instrs| && instrs[|instrs| - 1].assign ==> r.0[instrs[|instrs| - 1].name] == r.1 as real)
      && (k == |instrs| ==> r.1 == last)
    decreases |instrs| - k
  {
    if k < |instrs| {
      var ins := instrs[k];
      var v := LegacyEval.Eval(ins.rpn, t, vars, h);
      var vars' := if ins.assign then vars[ins.name := v as real] else vars;
      RunFromKeys(instrs, k + 1, t, vars', v, h);
      AssignedCons(instrs, k);
      if k + 1 == |instrs| {
        assert RunFrom(instrs, k, t, vars, last, h) == (vars', v);
      }
    }
  }

  lemma AssignedCons(instrs: seq<Instruction>, k: nat)
    requires k < |instrs|
    ensures Assigned(instrs[k..]) == (if instrs[k].assign then {instrs[k].name} else {}) + Assigned(instrs[k + 1..])
  {
    var a := instrs[k..];
    var b := instrs[k + 1..];
    forall n | n in Assigned(a) ensures n in (if instrs[k].assign then {instrs[k].name} else {}) + Assigned(b) {
      var i :| 0 <= i < |a| && a[i].assign && a[i].name == n;
      if i > 0 {
        assert b[i - 1] == a[i];
      }
    }
    forall n | n in Assigned(b) ensures n in Assigned(a) {
      var i :| 0 <= i < |b| && b[i].assign && b[i].name == n;
      assert a[i + 1] == b[i];
    }
    if instrs[k].assign {
      assert a[0] == instrs[k];
    }
  }

  /** After a tick `jsVars` holds `t`, every assigned name, and the earlier
      entries; `t` keeps its new value unless a statement assigns it, and an
      unassigned entry keeps its old one.  With no statements the result is
      0; a final assignment leaves its variable equal to the result. */
  lemma EngineEvalResult(instrs: seq<Instruction>, t: U32, vars: map<string, real>, h: Evaluator.Host)
    ensures var r := EngineEval(instrs, t, vars, h);
      && r.1.Keys == vars.Keys + {"t"} + Assigned(instrs)
      && ("t" !in Assigned(instrs) ==> r.1["t"] == t as real)
      && (forall n :: n in vars && n != "t" && n !in Assigned(instrs) ==> r.1[n] == vars[n])
      && (instrs == [] ==> r.0 == 0)
      && (instrs != [] && instrs[|instrs| - 1].assign ==> r.1[instrs[|instrs| - 1].name] == r.0 as real)
  {
    var v0 := vars["t" := t as real];
    RunFromKeys(instrs, 0, t, v0, 0, h);
    assert instrs[0..] == instrs;
    var last := RunFrom(instrs, 0, t, v0, 0, h).1;
    assert ByteOf(last as real) == last by {
      TruncOfInt(last);
    }
  }
}
