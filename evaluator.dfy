/** `BytebeatExpression::Eval` as functions: the reverse Polish program runs
    on a value stack whose last element is the top, next to the variable
    memory.  `sin`, `cos`, `tan`, `pow` and `rand()` come from the C library
    and are parameters here. */
module Evaluator {
  import opened Tokens
  import opened Numeric
  import Chars

  /** The C library functions the evaluator calls; `rand(n)` is the value
      `rand() / RAND_MAX` of the `n`-th call. */
  datatype Host = Host(sin: real -> real, cos: real -> real, tan: real -> real,
                       pow: (real, real) -> real, rand: nat -> real)

  /** The evaluation state: the value stack, the variable memory and the
      number of `rand()` calls made so far. */
  datatype Machine = Machine(stack: seq<real>, memory: seq<real>, draws: nat)

  /** The size of the C++ value stack. */
  const STACK_SIZE: nat := 1024

  /** Every `Identifier` token reads a slot of a memory of `n` slots. */
  predicate IdentifiersIn(rpn: seq<Token>, n: nat) {
    forall k :: 0 <= k < |rpn| && rpn[k].kind == Identifier ==> 0 <= rpn[k].index < n
  }

  function Bool(b: bool): real {
    if b then 1.0 else 0.0
  }

  /** A binary operator applied to `a` (below) and `b` (top).  Division and
      remainder by zero give 0; an operator without a case leaves `a`. */
  function Binary(op: OpType, a: real, b: real): real {
    match op
    case Add => a + b
    case Sub => a - b
    case Mul => a * b
    case Div => if b != 0.0 then a / b else 0.0
    case Mod => if b != 0.0 then Fmod(a, b) else 0.0
    case And => BitAnd(a, b)
    case Or => BitOr(a, b)
    case Xor => BitXor(a, b)
    case Shl => ShiftLeft(a, b)
    case Shr => ShiftRight(a, b)
    case LT => Bool(a < b)
    case GT => Bool(a > b)
    case LE => Bool(a <= b)
    case GE => Bool(a >= b)
    case EQ => Bool(a == b)
    case NE => Bool(a != b)
    case _ => a
  }

  /** `target[idx]` for an `Index` or `charCodeAt`: ids from
      `ARRAY_ID_OFFSET` on name an array, smaller ones a string, whose
      characters read as signed bytes; anything out of range reads 0. */
  function Lookup(target: real, idx: real, strings: seq<string>, arrays: seq<seq<real>>): real {
    var id := ToInt32(target);
    var i := ToInt32(idx);
    if id >= ARRAY_ID_OFFSET then
      var a := id - ARRAY_ID_OFFSET;
      if a < |arrays| && 0 <= i < |arrays[a]| then arrays[a][i] else 0.0
    else if 0 <= id < |strings| && 0 <= i < |strings[id]| then Chars.SignedCharCode(strings[id][i]) as real
    else 0.0
  }

  /** `fabs`. */
  function FAbs(x: real): real {
    if x >= 0.0 then x else -x
  }

  /** Replace the top of a non-empty stack. */
  function SetTop(st: seq<real>, v: real): seq<real>
    requires st != []
  {
    st[..|st| - 1] + [v]
  }

  /** Replace the two top values of a stack by one. */
  function Combine(st: seq<real>, v: real): seq<real>
    requires |st| >= 2
  {
    st[..|st| - 2] + [v]
  }

  /** A function token; nothing happens on an empty stack, `random` included. */
  function ApplyFun(f: FunType, m: Machine, h: Host): (r: Machine)
    ensures r.memory == m.memory
    ensures |r.stack| <= |m.stack| + 1
  {
    var st := m.stack;
    var n := |st|;
    if n == 0 then m
    else match f
      case Pow => if n >= 2 then m.(stack := Combine(st, h.pow(st[n - 2], st[n - 1]))) else m
      case Tan => m.(stack := SetTop(st, h.tan(st[n - 1])))
      case Random => m.(stack := st + [h.rand(m.draws)], draws := m.draws + 1)
      case Sin => m.(stack := SetTop(st, h.sin(st[n - 1])))
      case Cos => m.(stack := SetTop(st, h.cos(st[n - 1])))
      case Abs => m.(stack := SetTop(st, FAbs(st[n - 1])))
      case Floor => m.(stack := SetTop(st, st[n - 1].Floor as real))
  }

  /** The memory after `ptr = val`: the slot `(int)ptr` is written when it exists. */
  function Store(mem: seq<real>, ptr: real, val: real): (r: seq<real>)
    ensures |r| == |mem|
  {
    var idx := ToInt32(ptr);
    if 0 <= idx < |mem| then mem[idx := val] else mem
  }

  /** A token handled by the operator branch: an `Op`, or a stray parenthesis. */
  function ApplyOp(op: OpType, m: Machine, strings: seq<string>, arrays: seq<seq<real>>): (r: Machine)
    ensures |r.memory| == |m.memory| && r.draws == m.draws
    ensures |r.stack| <= |m.stack|
  {
    var st := m.stack;
    var n := |st|;
    if op == Neg then (if n >= 1 then m.(stack := SetTop(st, -st[n - 1])) else m)
    else if op == BitNot then (if n >= 1 then m.(stack := SetTop(st, BitNot64(st[n - 1]))) else m)
    else if n < 2 then m
    else if op == Assign then
      m.(stack := Combine(st, st[n - 1]), memory := Store(m.memory, st[n - 2], st[n - 1]))
    else if op == Index || op == CharCodeAt then
      m.(stack := Combine(st, Lookup(st[n - 2], st[n - 1], strings, arrays)))
    else m.(stack := Combine(st, Binary(op, st[n - 2], st[n - 1])))
  }

  /** One token of the program. */
  function Exec(tok: Token, t: U32, m: Machine, h: Host, strings: seq<string>, arrays: seq<seq<real>>): (r: Machine)
    requires tok.kind == Identifier ==> 0 <= tok.index < |m.memory|
    ensures |r.memory| == |m.memory|
    ensures |r.stack| <= |m.stack| + 1
  {
    match tok.kind
    case Number => m.(stack := m.stack + [tok.value])
    case VarT => m.(stack := m.stack + [t as real])
    case Identifier => m.(stack := m.stack + [m.memory[tok.index]])
    case String => m.(stack := m.stack + [tok.index as real])
    case ArrayLiteral => m.(stack := m.stack + [tok.index as real])
    case VarPtr => m.(stack := m.stack + [tok.index as real])
    case Fun => ApplyFun(tok.fun, m, h)
    case Colon =>
      var st := m.stack;
      var n := |st|;
      if n >= 3 then m.(stack := st[..n - 3] + [if st[n - 3] != 0.0 then st[n - 2] else st[n - 1]]) else m
    case Quest => m
    case _ => ApplyOp(tok.op, m, strings, arrays)
  }

  /** The program from token `k` on; it stops early once the stack is full. */
  function RunFrom(rpn: seq<Token>, k: nat, t: U32, m: Machine, h: Host, strings: seq<string>, arrays: seq<seq<real>>): (r: Machine)
    requires k <= |rpn| && IdentifiersIn(rpn, |m.memory|)
    ensures |r.memory| == |m.memory|
    decreases |rpn| - k
  {
    if k == |rpn| || |m.stack| >= STACK_SIZE then m
    else RunFrom(rpn, k + 1, t, Exec(rpn[k], t, m, h, strings, arrays), h, strings, arrays)
  }

  /** `Eval(t)`: the low byte of the BOTTOM value of the final stack, 0 for an
      empty program or stack; with the machine the run leaves. */
  function Eval(rpn: seq<Token>, t: U32, memory: seq<real>, draws: nat, h: Host,
                strings: seq<string>, arrays: seq<seq<real>>): (r: (int, Machine))
    requires IdentifiersIn(rpn, |memory|)
    ensures 0 <= r.0 < 256
    ensures |r.1.memory| == |memory|
  {
    if rpn == [] then (0, Machine([], memory, draws))
    else
      var m := RunFrom(rpn, 0, t, Machine([], memory, draws), h, strings, arrays);
      (if m.stack != [] then ByteOf(m.stack[0]) else 0, m)
  }

  // ---------------------------------------------------------------- properties

  /** The stack never outgrows the 1024 slots of the C++ buffer. */
  lemma {:induction false} RunFromStackBound(rpn: seq<Token>, k: nat, t: U32, m: Machine, h: Host,
                                             strings: seq<string>, arrays: seq<seq<real>>)
    requires k <= |rpn| && IdentifiersIn(rpn, |m.memory|) && |m.stack| <= STACK_SIZE
    ensures |RunFrom(rpn, k, t, m, h, strings, arrays).stack| <= STACK_SIZE
    decreases |rpn| - k
  {
    if k < |rpn| && |m.stack| < STACK_SIZE {
      RunFromStackBound(rpn, k + 1, t, Exec(rpn[k], t, m, h, strings, arrays), h, strings, arrays);
    }
  }

  /** Whether a token runs the assignment branch. */
  predicate Writes(tok: Token) {
    tok.kind in {Op, LParen, RParen} && tok.op == Assign
  }

  /** Only assignments write the memory. */
  lemma {:induction false} NoAssignKeepsMemory(rpn: seq<Token>, k: nat, t: U32, m: Machine, h: Host,
                                               strings: seq<string>, arrays: seq<seq<real>>)
    requires k <= |rpn| && IdentifiersIn(rpn, |m.memory|)
    requires forall j :: k <= j < |rpn| ==> !Writes(rpn[j])
    ensures RunFrom(rpn, k, t, m, h, strings, arrays).memory == m.memory
    decreases |rpn| - k
  {
    if k < |rpn| && |m.stack| < STACK_SIZE {
      var m' := Exec(rpn[k], t, m, h, strings, arrays);
      assert m'.memory == m.memory;
      NoAssignKeepsMemory(rpn, k + 1, t, m', h, strings, arrays);
    }
  }

  /** `ptr = val` with `val` on top and `ptr` below: the slot `(int)ptr` gets
      `val` when it exists, no other slot changes, and `val` is left on the
      stack in place of both. */
  lemma AssignStores(p: int, st: seq<real>, ptr: real, val: real, m: Machine, strings: seq<string>, arrays: seq<seq<real>>)
    requires m.stack == st + [ptr, val]
    ensures ApplyOp(Assign, m, strings, arrays).stack == st + [val]
    ensures forall j :: 0 <= j < |m.memory| && j != ToInt32(ptr) ==>
      ApplyOp(Assign, m, strings, arrays).memory[j] == m.memory[j]
    ensures 0 <= ToInt32(ptr) < |m.memory| ==> ApplyOp(Assign, m, strings, arrays).memory[ToInt32(ptr)] == val
  {
    assert (st + [ptr, val])[..|st|] == st;
  }

  /** Division and remainder by zero give 0 instead of faulting. */
  lemma DivisionByZero(op: OpType, a: real, t: U32, mem: seq<real>, draws: nat, h: Host, strings: seq<string>, arrays: seq<seq<real>>)
    requires op == Div || op == Mod
    ensures Eval([NumberTok(a, 0), NumberTok(0.0, 2), OpTok(op, 1)], t, mem, draws, h, strings, arrays).0 == 0
  {
    var rpn := [NumberTok(a, 0), NumberTok(0.0, 2), OpTok(op, 1)];
    var m0 := Machine([], mem, draws);
    var m1 := Machine([a], mem, draws);
    var m2 := Machine([a, 0.0], mem, draws);
    var m3 := Machine([0.0], mem, draws);
    assert Exec(rpn[0], t, m0, h, strings, arrays) == m1;
    assert Exec(rpn[1], t, m1, h, strings, arrays) == m2;
    assert [a, 0.0][..0] == [];
    assert Exec(rpn[2], t, m2, h, strings, arrays) == m3;
    assert RunFrom(rpn, 0, t, m0, h, strings, arrays) == RunFrom(rpn, 1, t, m1, h, strings, arrays)
                                                     == RunFrom(rpn, 2, t, m2, h, strings, arrays)
                                                     == RunFrom(rpn, 3, t, m3, h, strings, arrays) == m3;
    TruncOfInt(0);
  }

  /** The result is the byte of the BOTTOM of the stack, not of its top:
      `1 2`, which leaves two values, gives 1. */
  lemma BottomOfStack(t: U32, mem: seq<real>, draws: nat, h: Host, strings: seq<string>, arrays: seq<seq<real>>)
    ensures Eval([NumberTok(1.0, 0), NumberTok(2.0, 2)], t, mem, draws, h, strings, arrays).0 == 1
  {
    var m0 := Machine([], mem, draws);
    assert RunFrom([NumberTok(1.0, 0), NumberTok(2.0, 2)], 0, t, m0, h, strings, arrays).stack == [1.0, 2.0];
    TruncOfInt(1);
  }

  /** The shift count is taken modulo 32. */
  lemma ShiftCountModulo(a: real, b: int)
    requires -TWO31 <= b && b + 32 < TWO31
    ensures ShiftLeft(a, (b + 32) as real) == ShiftLeft(a, b as real)
    ensures ShiftRight(a, (b + 32) as real) == ShiftRight(a, b as real)
  {
    TruncOfInt(b);
    TruncOfInt(b + 32);
    assert ShiftCount((b + 32) as real) == ShiftCount(b as real);
  }

  /** Reading a string literal: the character, as a signed byte, at an index
      inside the string, and 0 outside it. */
  lemma StringLookup(id: nat, i: int, strings: seq<string>, arrays: seq<seq<real>>)
    requires id < |strings| && id < ARRAY_ID_OFFSET && -TWO31 <= i < TWO31
    ensures 0 <= i < |strings[id]| ==> Lookup(id as real, i as real, strings, arrays) == Chars.SignedCharCode(strings[id][i]) as real
    ensures !(0 <= i < |strings[id]|) ==> Lookup(id as real, i as real, strings, arrays) == 0.0
  {
    TruncOfInt(id);
    TruncOfInt(i);
  }

  /** Reading an array literal: its element at an index inside it, 0 outside. */
  lemma ArrayLookup(a: nat, i: int, strings: seq<string>, arrays: seq<seq<real>>)
    requires a < |arrays| && a + ARRAY_ID_OFFSET < TWO31 && -TWO31 <= i < TWO31
    ensures 0 <= i < |arrays[a]| ==> Lookup((a + ARRAY_ID_OFFSET) as real, i as real, strings, arrays) == arrays[a][i]
    ensures !(0 <= i < |arrays[a]|) ==> Lookup((a + ARRAY_ID_OFFSET) as real, i as real, strings, arrays) == 0.0
  {
    TruncOfInt(a + ARRAY_ID_OFFSET);
    TruncOfInt(i);
  }

  /** `c a ? b :`, the compiled `c ? a : b`, leaves `a` when `c` is not 0 and `b` otherwise. */
  lemma ConditionalValue(c: real, a: real, b: real, t: U32, m: Machine, h: Host, strings: seq<string>, arrays: seq<seq<real>>)
    requires |m.stack| + 3 < STACK_SIZE
    ensures RunFrom([NumberTok(c, 0), NumberTok(a, 2), KindTok(Quest, 1), NumberTok(b, 4), KindTok(Colon, 3)],
                    0, t, m, h, strings, arrays).stack == m.stack + [if c != 0.0 then a else b]
  {
    var rpn := [NumberTok(c, 0), NumberTok(a, 2), KindTok(Quest, 1), NumberTok(b, 4), KindTok(Colon, 3)];
    var st := m.stack;
    var m1 := m.(stack := st + [c]);
    var m2 := m.(stack := st + [c, a]);
    var m4 := m.(stack := st + [c, a, b]);
    var m5 := m.(stack := st + [if c != 0.0 then a else b]);
    assert st + [c] + [a] == st + [c, a];
    assert st + [c, a] + [b] == st + [c, a, b];
    var s3 := st + [c, a, b];
    assert s3[..|s3| - 3] == st;
    assert Exec(rpn[4], t, m4, h, strings, arrays) == m5;
    assert RunFrom(rpn, 0, t, m, h, strings, arrays) == RunFrom(rpn, 1, t, m1, h, strings, arrays)
                                                    == RunFrom(rpn, 2, t, m2, h, strings, arrays)
                                                    == RunFrom(rpn, 3, t, m2, h, strings, arrays)
                                                    == RunFrom(rpn, 4, t, m4, h, strings, arrays)
                                                    == RunFrom(rpn, 5, t, m5, h, strings, arrays);
  }
}
