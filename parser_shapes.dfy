/** How the shunting-yard pass shapes small expressions: precedence and
    associativity, calls, indexing and the conditional operator. */
module ParserShapes {
  import opened Tokens
  import opened Parser

  /** One token of `ShuntFrom`, for a step that does not fail. */
  lemma ShuntFromStep(ts: seq<Token>, k: nat, st: seq<Token>, o: seq<Token>, st': seq<Token>, o': seq<Token>)
    requires k < |ts| && ShuntStep(ts[k], st, o) == Cont(st', o')
    ensures ShuntFrom(ts, k, st, o) == ShuntFrom(ts, k + 1, st', o')
  {
  }

  lemma OperandStep(t: Token, st: seq<Token>, o: seq<Token>)
    requires IsOperand(t)
    ensures ShuntStep(t, st, o) == Cont(st, o + [t])
  {
  }

  lemma OperatorStep(t: Token, st: seq<Token>, o: seq<Token>)
    requires t.kind in {Op, Quest, Colon} && t.op != Coma
    ensures ShuntStep(t, st, o) == Cont(PopWhileGe(st, o, IncomingPrec(t)).0 + [t], PopWhileGe(st, o, IncomingPrec(t)).1)
  {
  }

  lemma PopOne(x: Token, o: seq<Token>, prec: nat)
    requires x.kind != LParen && TopPrec(x) >= prec
    ensures PopWhileGe([x], o, prec) == ([], o + [x])
  {
    assert [x][..0] == [];
  }

  lemma PopNone(st: seq<Token>, o: seq<Token>, prec: nat)
    requires st != [] && Last(st).kind != LParen && TopPrec(Last(st)) < prec
    ensures PopWhileGe(st, o, prec) == (st, o)
  {
  }

  lemma FlushOne(x: Token, o: seq<Token>)
    requires x.kind != LParen
    ensures Flush([x], o) == Rpn(o + [x])
  {
    assert [x][..0] == [];
  }

  lemma FlushTwo(x: Token, y: Token, o: seq<Token>)
    requires x.kind != LParen && y.kind != LParen
    ensures Flush([x, y], o) == Rpn(o + [y, x])
  {
    assert [x, y][..1] == [x];
    FlushOne(x, o + [y]);
    assert o + [y] + [x] == o + [y, x];
  }

  /** An operator that is neither unary nor a comma. */
  predicate IsBinary(o: OpType) {
    o !in {Neg, BitNot, Coma}
  }

  /** The first three tokens of `a o1 b o2 c`. */
  lemma TwoOperatorsPrefix(a: Token, op1: Token, b: Token, op2: Token, c: Token)
    requires IsOperand(a) && IsOperand(b) && op1.kind == Op && IsBinary(op1.op)
    ensures Shunt([a, op1, b, op2, c]) == ShuntFrom([a, op1, b, op2, c], 3, [op1], [a, b])
  {
    var ts := [a, op1, b, op2, c];
    OperandStep(a, [], []);
    ShuntFromStep(ts, 0, [], [], [], [a]);
    OperatorStep(op1, [], [a]);
    ShuntFromStep(ts, 1, [], [a], [op1], [a]);
    OperandStep(b, [op1], [a]);
    ShuntFromStep(ts, 2, [op1], [a], [op1], [a, b]);
  }

  /** `a o1 b o2 c` with `o1` binding at least as tightly as `o2` groups as
      `(a o1 b) o2 c`: equal precedence associates to the left. */
  lemma LeftGrouping(a: Token, o1: OpType, b: Token, o2: OpType, c: Token, p1: int, p2: int)
    requires IsOperand(a) && IsOperand(b) && IsOperand(c)
    requires IsBinary(o1) && IsBinary(o2) && GetPrecedence(o1) >= GetPrecedence(o2)
    ensures Shunt([a, OpTok(o1, p1), b, OpTok(o2, p2), c]) == Rpn([a, b, OpTok(o1, p1), c, OpTok(o2, p2)])
  {
    var op1, op2 := OpTok(o1, p1), OpTok(o2, p2);
    TwoOperatorsPrefix(a, op1, b, op2, c);
    LeftSuffix([a, op1, b, op2, c], a, op1, b, op2, c);
  }

  /** The last two tokens of `LeftGrouping`: `o2` pops `o1`. */
  lemma LeftSuffix(ts: seq<Token>, a: Token, op1: Token, b: Token, op2: Token, c: Token)
    requires ts == [a, op1, b, op2, c] && IsOperand(a) && IsOperand(b) && IsOperand(c)
    requires op1.kind == Op && op2.kind == Op && IsBinary(op1.op) && IsBinary(op2.op)
    requires GetPrecedence(op1.op) >= GetPrecedence(op2.op)
    ensures ShuntFrom(ts, 3, [op1], [a, b]) == Rpn([a, b, op1, c, op2])
  {
    OperatorStep(op2, [op1], [a, b]);
    PopOne(op1, [a, b], IncomingPrec(op2));
    ShuntFromStep(ts, 3, [op1], [a, b], [op2], [a, b, op1]);
    OperandStep(c, [op2], [a, b, op1]);
    ShuntFromStep(ts, 4, [op2], [a, b, op1], [op2], [a, b, op1, c]);
    FlushOne(op2, [a, b, op1, c]);
  }

  /** `a o1 b o2 c` with `o2` binding more tightly groups as `a o1 (b o2 c)`. */
  lemma RightGrouping(a: Token, o1: OpType, b: Token, o2: OpType, c: Token, p1: int, p2: int)
    requires IsOperand(a) && IsOperand(b) && IsOperand(c)
    requires IsBinary(o1) && IsBinary(o2) && GetPrecedence(o1) < GetPrecedence(o2)
    ensures Shunt([a, OpTok(o1, p1), b, OpTok(o2, p2), c]) == Rpn([a, b, c, OpTok(o2, p2), OpTok(o1, p1)])
  {
    var op1, op2 := OpTok(o1, p1), OpTok(o2, p2);
    var ts := [a, op1, b, op2, c];
    TwoOperatorsPrefix(a, op1, b, op2, c);
    OperatorStep(op2, [op1], [a, b]);
    PopNone([op1], [a, b], IncomingPrec(op2));
    ShuntFromStep(ts, 3, [op1], [a, b], [op1, op2], [a, b]);
    OperandStep(c, [op1, op2], [a, b]);
    ShuntFromStep(ts, 4, [op1, op2], [a, b], [op1, op2], [a, b, c]);
    FlushTwo(op1, op2, [a, b, c]);
  }

  // Each step below is stated on `ShuntFrom` so that a derivation only
  // chains equalities.

  lemma FromOperand(ts: seq<Token>, k: nat, st: seq<Token>, o: seq<Token>, o': seq<Token>)
    requires k < |ts| && IsOperand(ts[k]) && o' == o + [ts[k]]
    ensures ShuntFrom(ts, k, st, o) == ShuntFrom(ts, k + 1, st, o')
  {
  }

  lemma FromPush(ts: seq<Token>, k: nat, st: seq<Token>, o: seq<Token>, st': seq<Token>)
    requires k < |ts| && !IsOperand(ts[k]) && (ts[k].kind == Fun || ts[k].kind == LParen)
    requires st' == st + [ts[k]]
    ensures ShuntFrom(ts, k, st, o) == ShuntFrom(ts, k + 1, st', o)
  {
  }

  /** An operator arriving at a stack that is empty or whose top binds less tightly. */
  lemma FromOperatorPush(ts: seq<Token>, k: nat, st: seq<Token>, o: seq<Token>, st': seq<Token>)
    requires k < |ts| && ts[k].kind in {Op, Quest, Colon} && ts[k].op != Coma
    requires st == [] || (Last(st).kind != LParen && TopPrec(Last(st)) < IncomingPrec(ts[k]))
    requires st' == st + [ts[k]]
    ensures ShuntFrom(ts, k, st, o) == ShuntFrom(ts, k + 1, st', o)
  {
    OperatorStep(ts[k], st, o);
  }

  /** An operator arriving at a one-entry stack whose entry binds at least as tightly. */
  lemma FromOperatorPop(ts: seq<Token>, k: nat, x: Token, o: seq<Token>, o': seq<Token>)
    requires k < |ts| && ts[k].kind in {Op, Quest, Colon} && ts[k].op != Coma
    requires x.kind != LParen && TopPrec(x) >= IncomingPrec(ts[k]) && o' == o + [x]
    ensures ShuntFrom(ts, k, [x], o) == ShuntFrom(ts, k + 1, [ts[k]], o')
  {
    OperatorStep(ts[k], [x], o);
    PopOne(x, o, IncomingPrec(ts[k]));
    assert ShuntStep(ts[k], [x], o) == Cont([ts[k]], o');
  }

  /** A `)` right after the argument list of a call opened by `f(`. */
  lemma FromCloseCall(ts: seq<Token>, k: nat, f: Token, lp: Token, o: seq<Token>, o': seq<Token>)
    requires k < |ts| && ts[k].kind == RParen && lp.kind == LParen && ClosesCall(f) && o' == o + [f]
    ensures ShuntFrom(ts, k, [f, lp], o) == ShuntFrom(ts, k + 1, [], o')
  {
    CloseCallStep(ts[k], f, lp, o);
  }

  /** A `,` directly inside the argument list of `f(`. */
  lemma FromArgSeparator(ts: seq<Token>, k: nat, f: Token, lp: Token, o: seq<Token>)
    requires k < |ts| && ts[k].kind == Op && ts[k].op == Coma && f.kind == Fun && lp.kind == LParen
    ensures ShuntFrom(ts, k, [f, lp], o) == ShuntFrom(ts, k + 1, [f, lp], o)
  {
    ArgSeparatorStep(ts[k], f, lp, o);
  }

  lemma FromEnd(ts: seq<Token>, k: nat, o: seq<Token>)
    requires k == |ts| && o != []
    ensures ShuntFrom(ts, k, [], o) == Rpn(o)
  {
  }

  lemma FromEndOne(ts: seq<Token>, k: nat, x: Token, o: seq<Token>, o': seq<Token>)
    requires k == |ts| && x.kind != LParen && o' == o + [x]
    ensures ShuntFrom(ts, k, [x], o) == Rpn(o')
  {
    FlushOne(x, o);
  }

  /** A `)` right after the argument list of a call opened by `f(`. */
  lemma CloseCallStep(t: Token, f: Token, lp: Token, o: seq<Token>)
    requires t.kind == RParen && lp.kind == LParen && ClosesCall(f)
    ensures ShuntStep(t, [f, lp], o) == Cont([], o + [f])
  {
    assert [f, lp][..1] == [f];
    assert [f][..0] == [];
  }

  /** A `,` directly inside the argument list of `f(`. */
  lemma ArgSeparatorStep(t: Token, f: Token, lp: Token, o: seq<Token>)
    requires t.kind == Op && t.op == Coma && f.kind == Fun && lp.kind == LParen
    ensures ShuntStep(t, [f, lp], o) == Cont([f, lp], o)
  {
  }

  /** `f(a)` compiles to `a f`. */
  lemma UnaryCall(f: Token, lp: Token, a: Token, rp: Token)
    requires f.kind == Fun && lp.kind == LParen && IsOperand(a) && rp.kind == RParen
    ensures Shunt([f, lp, a, rp]) == Rpn([a, f])
  {
    var ts := [f, lp, a, rp];
    FromPush(ts, 0, [], [], [f]);
    FromPush(ts, 1, [f], [], [f, lp]);
    FromOperand(ts, 2, [f, lp], [], [a]);
    FromCloseCall(ts, 3, f, lp, [a], [a, f]);
    FromEnd(ts, 4, [a, f]);
  }

  /** `f(a, b)` compiles to `a b f`: the comma only separates the arguments. */
  lemma BinaryCall(f: Token, lp: Token, a: Token, comma: Token, b: Token, rp: Token)
    requires f.kind == Fun && lp.kind == LParen && IsOperand(a) && IsOperand(b) && rp.kind == RParen
    requires comma.kind == Op && comma.op == Coma
    ensures Shunt([f, lp, a, comma, b, rp]) == Rpn([a, b, f])
  {
    var ts := [f, lp, a, comma, b, rp];
    BinaryCallPrefix(ts, f, lp, a, comma);
    FromOperand(ts, 4, [f, lp], [a], [a, b]);
    FromCloseCall(ts, 5, f, lp, [a, b], [a, b, f]);
    FromEnd(ts, 6, [a, b, f]);
  }

  /** The first four tokens of `f(a, ...`. */
  lemma BinaryCallPrefix(ts: seq<Token>, f: Token, lp: Token, a: Token, comma: Token)
    requires |ts| > 4 && ts[0] == f && ts[1] == lp && ts[2] == a && ts[3] == comma
    requires f.kind == Fun && lp.kind == LParen && IsOperand(a) && comma.kind == Op && comma.op == Coma
    ensures Shunt(ts) == ShuntFrom(ts, 4, [f, lp], [a])
  {
    FromPush(ts, 0, [], [], [f]);
    FromPush(ts, 1, [f], [], [f, lp]);
    FromOperand(ts, 2, [f, lp], [], [a]);
    FromArgSeparator(ts, 3, f, lp, [a]);
  }

  /** `x[i]`, which the lexer turns into `x Index ( i )`, compiles to `x i Index`. */
  lemma Indexing(x: Token, ix: Token, lp: Token, i: Token, rp: Token)
    requires IsOperand(x) && IsOperand(i) && ix == OpTok(Index, ix.pos) && lp.kind == LParen && rp.kind == RParen
    ensures Shunt([x, ix, lp, i, rp]) == Rpn([x, i, ix])
  {
    var ts := [x, ix, lp, i, rp];
    IndexingPrefix(ts, x, ix, lp);
    FromOperand(ts, 3, [ix, lp], [x], [x, i]);
    FromCloseCall(ts, 4, ix, lp, [x, i], [x, i, ix]);
    FromEnd(ts, 5, [x, i, ix]);
  }

  lemma IndexingPrefix(ts: seq<Token>, x: Token, ix: Token, lp: Token)
    requires |ts| > 3 && ts[0] == x && ts[1] == ix && ts[2] == lp
    requires IsOperand(x) && ix == OpTok(Index, ix.pos) && lp.kind == LParen
    ensures Shunt(ts) == ShuntFrom(ts, 3, [ix, lp], [x])
  {
    FromOperand(ts, 0, [], [], [x]);
    FromOperatorPush(ts, 1, [], [x], [ix]);
    FromPush(ts, 2, [ix], [x], [ix, lp]);
  }

  /** The first four tokens of `c ? a : ...`. */
  lemma ConditionalPrefix(ts: seq<Token>, c: Token, q: Token, a: Token, col: Token)
    requires |ts| > 4 && ts[0] == c && ts[1] == q && ts[2] == a && ts[3] == col
    requires IsOperand(c) && IsOperand(a) && q == KindTok(Quest, q.pos) && col == KindTok(Colon, col.pos)
    ensures Shunt(ts) == ShuntFrom(ts, 4, [col], [c, a, q])
  {
    FromOperand(ts, 0, [], [], [c]);
    FromOperatorPush(ts, 1, [], [c], [q]);
    FromOperand(ts, 2, [q], [c], [c, a]);
    FromOperatorPop(ts, 3, q, [c, a], [c, a, q]);
  }

  /** `c ? a : b` compiles to `c a ? b :`; the evaluator ignores `?` and lets
      `:` choose between the three values below it. */
  lemma Conditional(c: Token, q: Token, a: Token, col: Token, b: Token)
    requires IsOperand(c) && IsOperand(a) && IsOperand(b)
    requires q == KindTok(Quest, q.pos) && col == KindTok(Colon, col.pos)
    ensures Shunt([c, q, a, col, b]) == Rpn([c, a, q, b, col])
  {
    var ts := [c, q, a, col, b];
    ConditionalPrefix(ts, c, q, a, col);
    FromOperand(ts, 4, [col], [c, a, q], [c, a, q, b]);
    FromEndOne(ts, 5, col, [c, a, q, b], [c, a, q, b, col]);
  }

  /** `c ? a : b + d` compiles to `c a ? b : d +`, that is `(c ? a : b) + d`:
      on the stack `:` has the precedence of `+`. */
  lemma ConditionalThenAdd(c: Token, q: Token, a: Token, col: Token, b: Token, plus: Token, d: Token)
    requires IsOperand(c) && IsOperand(a) && IsOperand(b) && IsOperand(d)
    requires q == KindTok(Quest, q.pos) && col == KindTok(Colon, col.pos) && plus == OpTok(Add, plus.pos)
    ensures Shunt([c, q, a, col, b, plus, d]) == Rpn([c, a, q, b, col, d, plus])
  {
    var ts := [c, q, a, col, b, plus, d];
    ConditionalPrefix(ts, c, q, a, col);
    FromOperand(ts, 4, [col], [c, a, q], [c, a, q, b]);
    FromOperatorPop(ts, 5, col, [c, a, q, b], [c, a, q, b, col]);
    FromOperand(ts, 6, [plus], [c, a, q, b, col], [c, a, q, b, col, d]);
    FromEndOne(ts, 7, plus, [c, a, q, b, col, d], [c, a, q, b, col, d, plus]);
  }
}
