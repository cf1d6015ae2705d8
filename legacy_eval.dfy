/** `BytebeatExpression::Eval` of the earlier compiler
    (`bytebeat-player/Bytebeat.cpp`) as functions.  Variables are read by
    name from the `jsVars` map; nothing is written during a run. */
module LegacyEval {
  import opened Wrappers
  import opened Numeric
  import opened LegacyLexer
  import Evaluator

  /** The size of the C++ value stack. */
  const STACK_SIZE: nat := 1024

  /** The remainder of C++ integer division: truncated toward zero, so it
      has the sign of the dividend, and it differs from the dividend by a
      multiple of the divisor. */
  function CRem(x: int, y: int): (r: int)
    requires y != 0
    ensures x >= 0 ==> 0 <= r
    ensures x <= 0 ==> r <= 0
    ensures (if r >= 0 then r else -r) < (if y >= 0 then y else -y)
    ensures (x - r) % (if y >= 0 then y else -y) == 0
  {
    var ay := if y >= 0 then y else -y;
    var m := x % ay;
    RemainderShift(x, ay);
    var r := if x < 0 && m != 0 then m - ay else m;
    CRemCases(x, ay, m, r);
    r
  }

  /** The truncated remainder from the Euclidean one `m`. */
  lemma CRemCases(x: int, d: int, m: int, r: int)
    requires d > 0 && m == x % d
    requires (x - m) % d == 0 && (x - (m - d)) % d == 0
    requires r == if x < 0 && m != 0 then m - d else m
    ensures x >= 0 ==> 0 <= r
    ensures x <= 0 ==> r <= 0
    ensures (if r >= 0 then r else -r) < d
    ensures (x - r) % d == 0
  {
    if x == 0 {
      ModUnique(x, 0, 0, d);
    }
  }

  /** The Euclidean remainder, and that remainder less `d`, both differ from
      `x` by multiples of `d`. */
  lemma RemainderShift(x: int, d: int)
    requires d > 0
    ensures (x - x % d) % d == 0 && (x - (x % d - d)) % d == 0
  {
    var q := x / d;
    assert x - x % d == q * d;
    ModUnique(x - x % d, q, 0, d);
    assert x - (x % d - d) == (q + 1) * d;
    ModUnique(x - (x % d - d), q + 1, 0, d);
  }

  /** `%` as written: `(b != 0) ? (double)((int64_t)a % (int64_t)b) : 0`.
      `None` stands for the undefined C++ division by an int64 zero, which
      the guard on the double `b` lets through for `0 < |b| < 1`. */
  function RemAsWritten(a: real, b: real): (r: Option<real>)
    ensures r.None? <==> b != 0.0 && ToInt64(b) == 0
  {
    if b != 0.0 then
      if ToInt64(b) == 0 then None else Some(CRem(ToInt64(a), ToInt64(b)) as real)
    else Some(0.0)
  }

  /** `%` as the guard intends: 0 whenever the integer divisor is 0. */
  function Rem(a: real, b: real): (r: real)
    ensures ToInt64(b) == 0 ==> r == 0.0
    ensures ToInt64(b) != 0 ==> r == CRem(ToInt64(a), ToInt64(b)) as real
  {
    if ToInt64(b) != 0 then CRem(ToInt64(a), ToInt64(b)) as real else 0.0
  }

  /** A divisor strictly between -1 and 1, other than 0, passes the guard
      and reaches the undefined integer division: `1 % 0.5`. */
  lemma RemHalfUndefined()
    ensures RemAsWritten(1.0, 0.5).None?
  {
    assert Trunc(0.5) == 0;
  }

  /** Where the code as written is defined, the corrected `%` agrees with it. */
  lemma RemAgrees(a: real, b: real)
    ensures RemAsWritten(a, b).Some? ==> RemAsWritten(a, b).value == Rem(a, b)
  {
    if b == 0.0 {
      assert Trunc(b) == 0;
    }
  }

  /** A binary operator applied to `a` (below) and `b` (top); the
      operators without a case leave `a`. */
  function Binary(op: OpType, a: real, b: real): real {
    match op
    case Add => a + b
    case Sub => a - b
    case Mul => a * b
    case Div => if b != 0.0 then a / b else 0.0
    case Mod => Rem(a, b)
    case And => BitAnd(a, b)
    case Or => BitOr(a, b)
    case Xor => BitXor(a, b)
    case Shl => ShiftLeft(a, b)
    case Shr => ShiftRight(a, b)
    case LT => Evaluator.Bool(a < b)
    case GT => Evaluator.Bool(a > b)
    case LE => Evaluator.Bool(a <= b)
    case GE => Evaluator.Bool(a >= b)
    case EQ => Evaluator.Bool(a == b)
    case NE => Evaluator.Bool(a != b)
    case _ => a
  }

  /** An operator token, or a leftover `(`, on the stack `st` (top last). */
  function ApplyOp(op: OpType, st: seq<real>): (r: seq<real>)
    ensures |r| <= |st|
  {
    var n := |st|;
    if op == Neg then (if n >= 1 then Evaluator.SetTop(st, -st[n - 1]) else st)
    else if op == BitNot then (if n >= 1 then Evaluator.SetTop(st, BitNot64(st[n - 1])) else st)
    else if n >= 2 then Evaluator.Combine(st, Binary(op, st[n - 2], st[n - 1]))
    else st
  }

  /** A function token; `Floor` and `Int` are both `floor`. */
  function ApplyFun(f: FunType, st: seq<real>, h: Evaluator.Host): (r: seq<real>)
    ensures |r| == |st|
  {
    var n := |st|;
    if n == 0 then st
    else match f
      case Sin => Evaluator.SetTop(st, h.sin(st[n - 1]))
      case Cos => Evaluator.SetTop(st, h.cos(st[n - 1]))
      case Abs => Evaluator.SetTop(st, Evaluator.FAbs(st[n - 1]))
      case _ => Evaluator.SetTop(st, st[n - 1].Floor as real)
  }

  /** The value of a variable: its entry in `jsVars`, or 0. */
  function Lookup(vars: map<string, real>, name: string): real {
    if name in vars then vars[name] else 0.0
  }

  /** One token of the program. */
  function Exec(tok: Token, t: U32, st: seq<real>, vars: map<string, real>, h: Evaluator.Host): (r: seq<real>)
    ensures |r| <= |st| + 1
  {
    match tok.kind
    case Number => st + [tok.value]
    case VarT => st + [t as real]
    case Fun => ApplyFun(tok.fun, st, h)
    case Identifier => st + [Lookup(vars, tok.name)]
    case Quest => st
    case Colon =>
      var n := |st|;
      if n >= 3 then st[..n - 3] + [if st[n - 3] != 0.0 then st[n - 2] else st[n - 1]] else st
    case _ => ApplyOp(tok.op, st)
  }

  /** The program from token `k` on; it stops once the stack is full. */
  function RunFrom(rpn: seq<Token>, k: nat, t: U32, st: seq<real>, vars: map<string, real>, h: Evaluator.Host): seq<real>
    requires k <= |rpn|
    decreases |rpn| - k
  {
    if k == |rpn| || |st| >= STACK_SIZE then st
    else RunFrom(rpn, k + 1, t, Exec(rpn[k], t, st, vars, h), vars, h)
  }

  /** `Eval(t)`: the low byte of the bottom value of the final stack; 0 for
      an empty program or stack. */
  function Eval(rpn: seq<Token>, t: U32, vars: map<string, real>, h: Evaluator.Host): (r: int)
    ensures 0 <= r < 256
  {
    if rpn == [] then 0
    else
      var st := RunFrom(rpn, 0, t, [], vars, h);
      if st != [] then ByteOf(st[0]) else 0
  }

  // ---------------------------------------------------------------- properties

  /** The stack never outgrows the 1024 slots of the C++ buffer. */
  lemma {:induction false} RunFromBound(rpn: seq<Token>, k: nat, t: U32, st: seq<real>, vars: map<string, real>, h: Evaluator.Host)
    requires k <= |rpn| && |st| <= STACK_SIZE
    ensures |RunFrom(rpn, k, t, st, vars, h)| <= STACK_SIZE
    decreases |rpn| - k
  {
    if k < |rpn| && |st| < STACK_SIZE {
      RunFromBound(rpn, k + 1, t, Exec(rpn[k], t, st, vars, h), vars, h);
    }
  }

  lemma RunStep(rpn: seq<Token>, k: nat, t: U32, st: seq<real>, st': seq<real>, vars: map<string, real>, h: Evaluator.Host)
    requires k < |rpn| && |st| < STACK_SIZE && Exec(rpn[k], t, st, vars, h) == st'
    ensures RunFrom(rpn, k, t, st, vars, h) == RunFrom(rpn, k + 1, t, st', vars, h)
  {
  }

  /** `c ? a : b` where the program is `c a ? b :` on an empty stack. */
  lemma Conditional(c: real, a: real, b: real, p: int, t: U32, vars: map<string, real>, h: Evaluator.Host, unset: OpType)
    ensures var rpn := [NumberTok(c, p, unset), NumberTok(a, p, unset), TernaryTok(Quest, p),
                        NumberTok(b, p, unset), TernaryTok(Colon, p)];
      RunFrom(rpn, 0, t, [], vars, h) == [if c != 0.0 then a else b]
  {
    var rpn := [NumberTok(c, p, unset), NumberTok(a, p, unset), TernaryTok(Quest, p),
                NumberTok(b, p, unset), TernaryTok(Colon, p)];
    ConditionalPrefix(rpn, c, a, p, t, vars, h, unset);
    PushNumber(rpn[3], t, [c, a], vars, h);
    RunStep(rpn, 3, t, [c, a], [c, a, b], vars, h);
    ColonPick(c, a, b, p, t, vars, h);
    RunStep(rpn, 4, t, [c, a, b], [if c != 0.0 then a else b], vars, h);
  }

  /** The first three tokens of `c a ? b :` leave `c` and `a` on the stack. */
  lemma ConditionalPrefix(rpn: seq<Token>, c: real, a: real, p: int, t: U32, vars: map<string, real>, h: Evaluator.Host, unset: OpType)
    requires |rpn| == 5 && rpn[0] == NumberTok(c, p, unset) && rpn[1] == NumberTok(a, p, unset)
    requires rpn[2] == TernaryTok(Quest, p)
    ensures RunFrom(rpn, 0, t, [], vars, h) == RunFrom(rpn, 3, t, [c, a], vars, h)
  {
    assert Exec(rpn[0], t, [], vars, h) == [c];
    RunStep(rpn, 0, t, [], [c], vars, h);
    assert Exec(rpn[1], t, [c], vars, h) == [c] + [a] == [c, a];
    RunStep(rpn, 1, t, [c], [c, a], vars, h);
    assert Exec(rpn[2], t, [c, a], vars, h) == [c, a];
    RunStep(rpn, 2, t, [c, a], [c, a], vars, h);
  }

  lemma PushNumber(tok: Token, t: U32, st: seq<real>, vars: map<string, real>, h: Evaluator.Host)
    requires tok.kind == Number
    ensures Exec(tok, t, st, vars, h) == st + [tok.value]
  {
  }

  lemma ColonPick(c: real, a: real, b: real, p: int, t: U32, vars: map<string, real>, h: Evaluator.Host)
    ensures Exec(TernaryTok(Colon, p), t, [c, a, b], vars, h) == [if c != 0.0 then a else b]
  {
    assert [c, a, b][..0] == [];
  }

  /** `:` with fewer than three values leaves the stack as it is. */
  lemma ColonShort(st: seq<real>, p: int, t: U32, vars: map<string, real>, h: Evaluator.Host)
    requires |st| < 3
    ensures Exec(TernaryTok(Colon, p), t, st, vars, h) == st
  {
  }

  /** An identifier pushes its `jsVars` entry when there is one, and 0 when not. */
  lemma IdentifierValue(name: string, p: int, unset: OpType, t: U32, st: seq<real>, vars: map<string, real>, h: Evaluator.Host)
    ensures name in vars ==> Exec(IdentTok(name, p, unset), t, st, vars, h) == st + [vars[name]]
    ensures name !in vars ==> Exec(IdentTok(name, p, unset), t, st, vars, h) == st + [0.0]
  {
  }

  /** `a / 0` and `a % 0` are 0. */
  lemma DivideByZero(op: OpType, a: real, st: seq<real>, p: int, t: U32, vars: map<string, real>, h: Evaluator.Host)
    requires op == Div || op == Mod
    ensures Exec(OpTok(op, p), t, st + [a, 0.0], vars, h) == st + [0.0]
  {
    assert Trunc(0.0) == 0;
    var s := st + [a, 0.0];
    assert s[..|s| - 2] == st;
  }

  /** `%` works on the int64 truncations: `7.9 % 2.5` is `7 % 2`, and the
      result takes the sign of the dividend: `-7 % 2` is -1. */
  lemma IntegerRemainder()
    ensures Rem(7.9, 2.5) == 1.0
    ensures Rem(-7.0, 2.0) == -1.0
  {
    assert Trunc(7.9) == 7 && Trunc(2.5) == 2;
    assert Trunc(-7.0) == -7 && Trunc(2.0) == 2;
    assert Wrap64(7) == 7 && Wrap64(2) == 2 && Wrap64(-7) == -7;
  }
}
