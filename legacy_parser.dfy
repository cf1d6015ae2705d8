/** The shunting-yard conversion of the earlier compiler
    (`bytebeat-player/Bytebeat.cpp`).  It reports no errors: an unmatched
    `)` just empties the operator stack, and whatever is left on the stack
    at the end, `(` included, goes to the output. */
module LegacyParser {
  import opened LegacyLexer

  /** `getPrec`.  It reads `op` of every token that is not `?`, `:` or a
      function, so the precedence of an identifier is that of its unset
      `op` field. */
  function Prec(t: Token): (p: nat)
    ensures t.kind == Quest || t.kind == Colon ==> p == 2
    ensures t.kind == Fun ==> p == 12
    ensures p <= 12
  {
    if t.kind == Quest || t.kind == Colon then 2
    else if t.kind == Fun || (t.kind == Op && (t.op == Neg || t.op == BitNot)) then 12
    else match t.op
      case Mul => 10 case Div => 10 case Mod => 10
      case Add => 9 case Sub => 9
      case Shl => 8 case Shr => 8
      case LT => 7 case GT => 7 case LE => 7 case GE => 7
      case EQ => 6 case NE => 6
      case And => 5
      case Xor => 4
      case Or => 3
      case _ => 0
  }

  function Last(s: seq<Token>): Token
    requires s != []
  {
    s[|s| - 1]
  }

  /** The shunting-yard state: the operator stack (top last) and the output. */
  datatype State = State(stack: seq<Token>, out: seq<Token>)

  /** Pop to the output until a `(` (left in place) or the bottom. */
  function PopToLParen(s: State): (r: State)
    ensures r.stack == [] || Last(r.stack).kind == LParen
    ensures |r.stack| <= |s.stack|
    decreases |s.stack|
  {
    if s.stack == [] || Last(s.stack).kind == LParen then s
    else PopToLParen(State(s.stack[..|s.stack| - 1], s.out + [Last(s.stack)]))
  }

  /** Pop to the output while the top is not `(` and binds at least `p`. */
  function PopWhile(s: State, p: nat): State
    decreases |s.stack|
  {
    if s.stack == [] || Last(s.stack).kind == LParen || Prec(Last(s.stack)) < p then s
    else PopWhile(State(s.stack[..|s.stack| - 1], s.out + [Last(s.stack)]), p)
  }

  /** `)`: pop to the `(`, drop it, and move a function just below it to the output. */
  function CloseParen(s: State): State {
    var a := PopToLParen(s);
    var b := if a.stack != [] then a.(stack := a.stack[..|a.stack| - 1]) else a;
    if b.stack != [] && Last(b.stack).kind == Fun then State(b.stack[..|b.stack| - 1], b.out + [Last(b.stack)])
    else b
  }

  /** Any other token: pop what binds at least as tightly, then push it. */
  function PushOperator(t: Token, s: State): State {
    var a := PopWhile(s, Prec(t));
    a.(stack := a.stack + [t])
  }

  function ShuntStep(t: Token, s: State): State {
    if t.kind == Number || t.kind == VarT then s.(out := s.out + [t])
    else if t.kind == Fun || t.kind == LParen then s.(stack := s.stack + [t])
    else if t.kind == RParen then CloseParen(s)
    else PushOperator(t, s)
  }

  /** The stack is emptied into the output, top first. */
  function Flush(s: State): seq<Token>
    decreases |s.stack|
  {
    if s.stack == [] then s.out
    else Flush(State(s.stack[..|s.stack| - 1], s.out + [Last(s.stack)]))
  }

  function ShuntFrom(ts: seq<Token>, k: nat, s: State): seq<Token>
    requires k <= |ts|
    decreases |ts| - k
  {
    if k == |ts| then Flush(s) else ShuntFrom(ts, k + 1, ShuntStep(ts[k], s))
  }

  /** The reverse Polish program of a token sequence. */
  function Shunt(ts: seq<Token>): seq<Token> {
    ShuntFrom(ts, 0, State([], []))
  }

  // ---------------------------------------------------------------- the conversion, as loops

  method PopToLParenLoop(s0: State) returns (s: State)
    ensures s == PopToLParen(s0)
  {
    s := s0;
    while s.stack != [] && Last(s.stack).kind != LParen
      invariant PopToLParen(s0) == PopToLParen(s)
      decreases |s.stack|
    {
      s := State(s.stack[..|s.stack| - 1], s.out + [Last(s.stack)]);
    }
  }

  method PopWhileLoop(s0: State, p: nat) returns (s: State)
    ensures s == PopWhile(s0, p)
  {
    s := s0;
    while s.stack != [] && Last(s.stack).kind != LParen && Prec(Last(s.stack)) >= p
      invariant PopWhile(s0, p) == PopWhile(s, p)
      decreases |s.stack|
    {
      s := State(s.stack[..|s.stack| - 1], s.out + [Last(s.stack)]);
    }
  }

  method FlushLoop(s0: State) returns (out: seq<Token>)
    ensures out == Flush(s0)
  {
    var s := s0;
    while s.stack != []
      invariant Flush(s0) == Flush(s)
      decreases |s.stack|
    {
      s := State(s.stack[..|s.stack| - 1], s.out + [Last(s.stack)]);
    }
    out := s.out;
  }

  method ShuntLoop(ts: seq<Token>) returns (rpn: seq<Token>)
    ensures rpn == Shunt(ts)
  {
    var s := State([], []);
    for k := 0 to |ts|
      invariant Shunt(ts) == ShuntFrom(ts, k, s)
    {
      var t := ts[k];
      if t.kind == Number || t.kind == VarT {
        s := s.(out := s.out + [t]);
      } else if t.kind == Fun || t.kind == LParen {
        s := s.(stack := s.stack + [t]);
      } else if t.kind == RParen {
        s := PopToLParenLoop(s);
        if s.stack != [] {
          s := s.(stack := s.stack[..|s.stack| - 1]);
        }
        if s.stack != [] && Last(s.stack).kind == Fun {
          s := State(s.stack[..|s.stack| - 1], s.out + [Last(s.stack)]);
        }
      } else {
        s := PopWhileLoop(s, Prec(t));
        s := s.(stack := s.stack + [t]);
      }
    }
    rpn := FlushLoop(s);
  }

  // ---------------------------------------------------------------- properties

  predicate IsOperand(t: Token) {
    t.kind == Number || t.kind == VarT
  }

  /** The operands of a token sequence, in order. */
  function Operands(ts: seq<Token>): (r: seq<Token>)
    ensures |r| <= |ts|
  {
    if ts == [] then [] else Operands(ts[..|ts| - 1]) + (if IsOperand(Last(ts)) then [Last(ts)] else [])
  }

  lemma OperandsAppend(ts: seq<Token>, t: Token)
    ensures Operands(ts + [t]) == Operands(ts) + (if IsOperand(t) then [t] else [])
  {
    assert (ts + [t])[..|ts|] == ts;
  }

  /** A state reached from the stack of the start: no operand and no `)`
      is ever on the operator stack, and no `)` reaches the output. */
  ghost predicate Clean(s: State) {
    (forall i :: 0 <= i < |s.stack| ==> !IsOperand(s.stack[i]) && s.stack[i].kind != RParen)
    && NoClose(s.out)
  }

  ghost predicate NoClose(ts: seq<Token>) {
    forall i :: 0 <= i < |ts| ==> ts[i].kind != RParen
  }

  /** Moving the top of the stack to the output keeps the state clean and
      adds no operand. */
  lemma PopOneKeeps(s: State)
    requires Clean(s) && s.stack != []
    ensures var s' := State(s.stack[..|s.stack| - 1], s.out + [Last(s.stack)]);
      Clean(s') && Operands(s'.out) == Operands(s.out)
  {
    OperandsAppend(s.out, Last(s.stack));
    var t := Last(s.stack);
    assert !IsOperand(t) && t.kind != RParen;
  }

  lemma {:induction false} PopToLParenKeeps(s: State)
    requires Clean(s)
    ensures Clean(PopToLParen(s)) && Operands(PopToLParen(s).out) == Operands(s.out)
    decreases |s.stack|
  {
    if s.stack != [] && Last(s.stack).kind != LParen {
      PopOneKeeps(s);
      PopToLParenKeeps(State(s.stack[..|s.stack| - 1], s.out + [Last(s.stack)]));
    }
  }

  lemma {:induction false} PopWhileKeeps(s: State, p: nat)
    requires Clean(s)
    ensures Clean(PopWhile(s, p)) && Operands(PopWhile(s, p).out) == Operands(s.out)
    decreases |s.stack|
  {
    if !(s.stack == [] || Last(s.stack).kind == LParen || Prec(Last(s.stack)) < p) {
      PopOneKeeps(s);
      PopWhileKeeps(State(s.stack[..|s.stack| - 1], s.out + [Last(s.stack)]), p);
    }
  }

  lemma {:induction false} FlushKeeps(s: State)
    requires Clean(s)
    ensures NoClose(Flush(s)) && Operands(Flush(s)) == Operands(s.out)
    decreases |s.stack|
  {
    if s.stack != [] {
      PopOneKeeps(s);
      FlushKeeps(State(s.stack[..|s.stack| - 1], s.out + [Last(s.stack)]));
    }
  }

  lemma CloseKeeps(s: State)
    requires Clean(s)
    ensures Clean(CloseParen(s)) && Operands(CloseParen(s).out) == Operands(s.out)
  {
    PopToLParenKeeps(s);
    var a := PopToLParen(s);
    if a.stack != [] {
      DropTopClean(a);
    }
    var b := if a.stack != [] then a.(stack := a.stack[..|a.stack| - 1]) else a;
    if b.stack != [] && Last(b.stack).kind == Fun {
      MoveFunClean(b);
    }
  }

  lemma DropTopClean(s: State)
    requires Clean(s) && s.stack != []
    ensures Clean(s.(stack := s.stack[..|s.stack| - 1]))
  {
    var st := s.stack[..|s.stack| - 1];
    forall i | 0 <= i < |st| ensures !IsOperand(st[i]) && st[i].kind != RParen {
      assert st[i] == s.stack[i];
    }
  }

  /** A function name moved from the stack to the output. */
  lemma MoveFunClean(s: State)
    requires Clean(s) && s.stack != [] && Last(s.stack).kind == Fun
    ensures Clean(State(s.stack[..|s.stack| - 1], s.out + [Last(s.stack)]))
    ensures Operands(s.out + [Last(s.stack)]) == Operands(s.out)
  {
    DropTopClean(s);
    OperandsAppend(s.out, Last(s.stack));
    var o := s.out + [Last(s.stack)];
    forall i | 0 <= i < |o| ensures o[i].kind != RParen {
      if i < |s.out| {
        assert o[i] == s.out[i];
      }
    }
  }

  lemma StepKeeps(t: Token, s: State)
    requires Clean(s)
    ensures Clean(ShuntStep(t, s))
    ensures Operands(ShuntStep(t, s).out) == Operands(s.out) + (if IsOperand(t) then [t] else [])
  {
    if IsOperand(t) {
      OperandsAppend(s.out, t);
    } else if t.kind == Fun || t.kind == LParen {
    } else if t.kind == RParen {
      CloseKeeps(s);
    } else {
      PopWhileKeeps(s, Prec(t));
    }
  }

  lemma {:induction false} ShuntFromNoClose(ts: seq<Token>, k: nat, s: State)
    requires k <= |ts| && Clean(s)
    ensures NoClose(ShuntFrom(ts, k, s))
    decreases |ts| - k
  {
    if k == |ts| {
      FlushKeeps(s);
    } else {
      var s' := ShuntStep(ts[k], s);
      StepKeeps(ts[k], s);
      ShuntFromStep(ts, k, s, s');
      ShuntFromNoClose(ts, k + 1, s');
    }
  }

  lemma {:induction false} ShuntFromOperands(ts: seq<Token>, k: nat, s: State)
    requires k <= |ts| && Clean(s) && Operands(s.out) == Operands(ts[..k])
    ensures Operands(ShuntFrom(ts, k, s)) == Operands(ts)
    decreases |ts| - k
  {
    if k == |ts| {
      FlushKeeps(s);
      assert ts[..k] == ts;
    } else {
      var s' := ShuntStep(ts[k], s);
      OperandsStep(ts, k, s);
      ShuntFromStep(ts, k, s, s');
      ShuntFromOperands(ts, k + 1, s');
    }
  }

  /** One token keeps the operands read so far in the output. */
  lemma OperandsStep(ts: seq<Token>, k: nat, s: State)
    requires k < |ts| && Clean(s) && Operands(s.out) == Operands(ts[..k])
    ensures Clean(ShuntStep(ts[k], s)) && Operands(ShuntStep(ts[k], s).out) == Operands(ts[..k + 1])
  {
    StepKeeps(ts[k], s);
    assert ts[..k + 1] == ts[..k] + [ts[k]];
    OperandsAppend(ts[..k], ts[k]);
  }

  lemma {:induction false} OperandsCons(t: Token, ts: seq<Token>)
    ensures Operands([t] + ts) == (if IsOperand(t) then [t] else []) + Operands(ts)
    decreases |ts|
  {
    if ts == [] {
      assert [t] + ts == [] + [t];
      assert Operands([t]) == Operands([]) + (if IsOperand(t) then [t] else []);
    } else {
      var init := ts[..|ts| - 1];
      assert [t] + ts == ([t] + init) + [Last(ts)];
      OperandsAppend([t] + init, Last(ts));
      OperandsCons(t, init);
      assert ts == init + [Last(ts)];
      OperandsAppend(init, Last(ts));
    }
  }

  /** The conversion drops every `)`, and it keeps the numbers and `t` of
      the formula in their order: only operators are rearranged. */
  lemma ShuntOperands(ts: seq<Token>)
    ensures forall i :: 0 <= i < |Shunt(ts)| ==> Shunt(ts)[i].kind != RParen
    ensures Operands(Shunt(ts)) == Operands(ts)
  {
    ShuntFromNoClose(ts, 0, State([], []));
    assert ts[..0] == [];
    ShuntFromOperands(ts, 0, State([], []));
  }

  /** A formula with a number or `t` in it converts to a non-empty program. */
  lemma OperandNonEmpty(ts: seq<Token>, i: nat)
    requires i < |ts| && IsOperand(ts[i])
    ensures Shunt(ts) != []
  {
    ShuntOperands(ts);
    var rest := [ts[i]] + ts[i + 1..];
    assert ts == ts[..i] + rest;
    OperandsCons(ts[i], ts[i + 1..]);
    OperandsConcat(ts[..i], rest);
    assert Operands(ts) == Operands(ts[..i]) + ([ts[i]] + Operands(ts[i + 1..]));
    assert |Operands(Shunt(ts))| > 0;
  }

  lemma {:induction false} OperandsConcat(a: seq<Token>, b: seq<Token>)
    ensures Operands(a + b) == Operands(a) + Operands(b)
    decreases |b|
  {
    if b == [] {
      assert a + b == a;
    } else {
      var init := b[..|b| - 1];
      assert a + b == (a + init) + [Last(b)];
      assert b == init + [Last(b)];
      OperandsAppend(a + init, Last(b));
      OperandsAppend(init, Last(b));
      OperandsConcat(a, init);
    }
  }

  /** A `)` with no `(` on the stack empties the stack into the output, as
      the end of the formula would. */
  lemma {:induction false} UnmatchedClose(s: State)
    requires forall i :: 0 <= i < |s.stack| ==> s.stack[i].kind != LParen
    ensures PopToLParen(s) == State([], Flush(s))
    decreases |s.stack|
  {
    if s.stack != [] {
      UnmatchedClose(State(s.stack[..|s.stack| - 1], s.out + [Last(s.stack)]));
    }
  }

  lemma ShuntFromStep(ts: seq<Token>, k: nat, s: State, s': State)
    requires k < |ts| && ShuntStep(ts[k], s) == s'
    ensures ShuntFrom(ts, k, s) == ShuntFrom(ts, k + 1, s')
  {
  }

  lemma OperandStep(t: Token, s: State)
    requires IsOperand(t)
    ensures ShuntStep(t, s) == s.(out := s.out + [t])
  {
  }

  lemma OperatorStep(t: Token, s: State)
    requires t.kind == Op
    ensures ShuntStep(t, s) == PushOperator(t, s)
  {
  }

  lemma PopOne(o: Token, out: seq<Token>, p: nat)
    requires o.kind == Op
    ensures Prec(o) >= p ==> PopWhile(State([o], out), p) == State([], out + [o])
    ensures Prec(o) < p ==> PopWhile(State([o], out), p) == State([o], out)
  {
    assert [o][..0] == [];
  }

  /** The first three tokens `a o1 b` of `a o1 b o2 c`. */
  lemma ThreeTokens(ts: seq<Token>)
    requires |ts| == 5 && IsOperand(ts[0]) && ts[1].kind == Op && IsOperand(ts[2])
    ensures Shunt(ts) == ShuntFrom(ts, 3, State([ts[1]], [ts[0], ts[2]]))
  {
    var s1 := State([], [ts[0]]);
    var s2 := State([ts[1]], [ts[0]]);
    OperandStep(ts[0], State([], []));
    ShuntFromStep(ts, 0, State([], []), s1);
    OperatorStep(ts[1], s1);
    ShuntFromStep(ts, 1, s1, s2);
    OperandStep(ts[2], s2);
    ShuntFromStep(ts, 2, s2, State([ts[1]], [ts[0], ts[2]]));
  }

  /** `a o1 b o2 c` with `o1` binding at least as tightly as `o2` is
      `a b o1 c o2`: operators of one precedence group to the left. */
  lemma LeftToRight(a: Token, o1: Token, b: Token, o2: Token, c: Token)
    requires IsOperand(a) && IsOperand(b) && IsOperand(c)
    requires o1.kind == Op && o2.kind == Op && Prec(o1) >= Prec(o2)
    ensures Shunt([a, o1, b, o2, c]) == [a, b, o1, c, o2]
  {
    var ts := [a, o1, b, o2, c];
    ThreeTokens(ts);
    var s3 := State([o1], [a, b]);
    var s4 := State([o2], [a, b, o1]);
    var s5 := State([o2], [a, b, o1, c]);
    OperatorStep(o2, s3);
    PopOne(o1, [a, b], Prec(o2));
    ShuntFromStep(ts, 3, s3, s4);
    OperandStep(c, s4);
    ShuntFromStep(ts, 4, s4, s5);
    assert s5.stack[..0] == [] && s5.out + [o2] == [a, b, o1, c, o2];
    assert Flush(s5) == Flush(State([], [a, b, o1, c, o2]));
  }

  /** `a o1 b o2 c` with `o2` binding more tightly is `a b c o2 o1`. */
  lemma TighterFirst(a: Token, o1: Token, b: Token, o2: Token, c: Token)
    requires IsOperand(a) && IsOperand(b) && IsOperand(c)
    requires o1.kind == Op && o2.kind == Op && Prec(o1) < Prec(o2)
    ensures Shunt([a, o1, b, o2, c]) == [a, b, c, o2, o1]
  {
    var ts := [a, o1, b, o2, c];
    ThreeTokens(ts);
    var s3 := State([o1], [a, b]);
    var s4 := State([o1, o2], [a, b]);
    var s5 := State([o1, o2], [a, b, c]);
    OperatorStep(o2, s3);
    PopOne(o1, [a, b], Prec(o2));
    ShuntFromStep(ts, 3, s3, s4);
    OperandStep(c, s4);
    ShuntFromStep(ts, 4, s4, s5);
    var s6 := State([o1], [a, b, c, o2]);
    assert s5.stack[..1] == [o1] && s5.out + [o2] == s6.out;
    assert Flush(s5) == Flush(s6);
    assert s6.stack[..0] == [] && s6.out + [o1] == [a, b, c, o2, o1];
    assert Flush(s6) == Flush(State([], [a, b, c, o2, o1]));
  }
}
