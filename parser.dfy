/** The shunting-yard pass of `BytebeatExpression::Compile`, as functions:
    tokens to reverse Polish notation.  The operator stack is a sequence whose
    last element is the top. */
module Parser {
  import opened Tokens

  const CLOSE_MSG: string := "Unmatched closing parenthesis ')'"
  const OPEN_MSG: string := "Unmatched opening parenthesis '('"
  const EMPTY_MSG: string := "Empty expression"

  /** The outcome of the pass; on an error the output built so far is kept. */
  datatype ShuntResult = Rpn(rpn: seq<Token>) | ShuntError(msg: string, pos: int, partial: seq<Token>)

  /** The state after one token. */
  datatype SStep = Cont(stack: seq<Token>, out: seq<Token>) | Stop(msg: string, pos: int, out: seq<Token>)

  function Last(s: seq<Token>): Token
    requires s != []
  {
    s[|s| - 1]
  }

  /** The number of `(` entries in `s`. */
  function CountL(s: seq<Token>): nat {
    if s == [] then 0 else CountL(s[..|s| - 1]) + (if Last(s).kind == LParen then 1 else 0)
  }

  /** The popping part of `)`: move entries to the output down to the first
      `(`, and drop that `(`; `found` says whether there was one. */
  function PopToLParen(stack: seq<Token>, out: seq<Token>): (r: (seq<Token>, seq<Token>, bool))
    ensures |r.0| <= |stack| && r.0 == stack[..|r.0|]
    ensures |out| <= |r.1| && r.1[..|out|] == out
    ensures forall x :: x in r.1[|out|..] ==> x in stack && x.kind != LParen
    ensures r.2 ==> CountL(r.0) + 1 == CountL(stack)
    ensures !r.2 ==> r.0 == [] && CountL(stack) == 0
    decreases |stack|
  {
    if stack == [] then (stack, out, false)
    else if Last(stack).kind == LParen then (stack[..|stack| - 1], out, true)
    else
      var r := PopToLParen(stack[..|stack| - 1], out + [Last(stack)]);
      assert r.1[..|out|] == (out + [Last(stack)])[..|out|];
      assert r.0 == stack[..|r.0|];
      assert r.1[|out|..] == [Last(stack)] + r.1[|out| + 1..];
      (r.0, r.1, r.2)
  }

  /** The popping part of `,`: move entries to the output down to, not
      including, the first `(`. */
  function PopUntilLParen(stack: seq<Token>, out: seq<Token>): (r: (seq<Token>, seq<Token>))
    ensures |r.0| <= |stack| && r.0 == stack[..|r.0|]
    ensures r.0 == [] || Last(r.0).kind == LParen
    ensures |out| <= |r.1| && r.1[..|out|] == out
    ensures forall x :: x in r.1[|out|..] ==> x in stack && x.kind != LParen
    ensures CountL(r.0) == CountL(stack)
    decreases |stack|
  {
    if stack == [] || Last(stack).kind == LParen then (stack, out)
    else
      var r := PopUntilLParen(stack[..|stack| - 1], out + [Last(stack)]);
      assert r.1[..|out|] == (out + [Last(stack)])[..|out|];
      assert r.0 == stack[..|r.0|];
      assert r.1[|out|..] == [Last(stack)] + r.1[|out| + 1..];
      r
  }

  /** The popping part of an operator: move entries to the output while the
      top is not `(` and binds at least as tightly as `prec`. */
  function PopWhileGe(stack: seq<Token>, out: seq<Token>, prec: nat): (r: (seq<Token>, seq<Token>))
    ensures |r.0| <= |stack| && r.0 == stack[..|r.0|]
    ensures r.0 == [] || Last(r.0).kind == LParen || TopPrec(Last(r.0)) < prec
    ensures |out| <= |r.1| && r.1[..|out|] == out
    ensures forall x :: x in r.1[|out|..] ==> x in stack && x.kind != LParen && TopPrec(x) >= prec
    ensures CountL(r.0) == CountL(stack)
    decreases |stack|
  {
    if stack == [] || Last(stack).kind == LParen || TopPrec(Last(stack)) < prec then (stack, out)
    else
      var r := PopWhileGe(stack[..|stack| - 1], out + [Last(stack)], prec);
      assert r.1[..|out|] == (out + [Last(stack)])[..|out|];
      assert r.0 == stack[..|r.0|];
      assert r.1[|out|..] == [Last(stack)] + r.1[|out| + 1..];
      r
  }

  /** Whether the entry left on top after a `)` is emitted with it: a function
      or an `Index`/`charCodeAt` whose argument list just closed. */
  predicate ClosesCall(t: Token) {
    t.kind == Fun || (t.kind == Op && (t.op == Index || t.op == CharCodeAt))
  }

  /** One token of the pass. */
  function ShuntStep(t: Token, stack: seq<Token>, out: seq<Token>): SStep {
    if IsOperand(t) then Cont(stack, out + [t])
    else if t.kind == Fun || t.kind == LParen then Cont(stack + [t], out)
    else if t.kind == RParen then
      var (st, o, found) := PopToLParen(stack, out);
      if !found then Stop(CLOSE_MSG, t.pos, o)
      else if st != [] && ClosesCall(Last(st)) then Cont(st[..|st| - 1], o + [Last(st)])
      else Cont(st, o)
    else if t.op == Coma then
      var (st, o) := PopUntilLParen(stack, out);
      var isArgSeparator := st != [] && Last(st).kind == LParen && |st| >= 2 && st[|st| - 2].kind == Fun;
      Cont(if isArgSeparator then st else st + [t], o)
    else
      var (st, o) := PopWhileGe(stack, out, IncomingPrec(t));
      Cont(st + [t], o)
  }

  /** The final loop: move what is left to the output, failing at a `(`; an
      empty output is an error too. */
  function Flush(stack: seq<Token>, out: seq<Token>): ShuntResult
    decreases |stack|
  {
    if stack == [] then (if out == [] then ShuntError(EMPTY_MSG, -1, out) else Rpn(out))
    else if Last(stack).kind == LParen then ShuntError(OPEN_MSG, Last(stack).pos, out)
    else Flush(stack[..|stack| - 1], out + [Last(stack)])
  }

  /** The pass from token `k` on. */
  function ShuntFrom(toks: seq<Token>, k: nat, stack: seq<Token>, out: seq<Token>): ShuntResult
    requires k <= |toks|
    decreases |toks| - k
  {
    if k == |toks| then Flush(stack, out)
    else match ShuntStep(toks[k], stack, out)
      case Stop(m, p, o) => ShuntError(m, p, o)
      case Cont(st, o) => ShuntFrom(toks, k + 1, st, o)
  }

  function Shunt(toks: seq<Token>): ShuntResult {
    ShuntFrom(toks, 0, [], [])
  }

  // ---------------------------------------------------------------- running a prefix

  /** The state after the first `k` tokens. */
  function RunSteps(toks: seq<Token>, k: nat): SStep
    requires k <= |toks|
  {
    if k == 0 then Cont([], [])
    else match RunSteps(toks, k - 1)
      case Stop(m, p, o) => Stop(m, p, o)
      case Cont(st, o) => ShuntStep(toks[k - 1], st, o)
  }

  /** The pass resumed after `k` tokens. */
  function Resume(toks: seq<Token>, k: nat): ShuntResult
    requires k <= |toks|
  {
    match RunSteps(toks, k)
    case Stop(m, p, o) => ShuntError(m, p, o)
    case Cont(st, o) => ShuntFrom(toks, k, st, o)
  }

  lemma {:induction false} ShuntIsResume(toks: seq<Token>, k: nat)
    requires k <= |toks|
    ensures Shunt(toks) == Resume(toks, k)
  {
    if k > 0 {
      ShuntIsResume(toks, k - 1);
    }
  }

  // ---------------------------------------------------------------- parentheses

  /** `(` count minus `)` count. */
  function Depth(ts: seq<Token>): int {
    if ts == [] then 0
    else Depth(ts[..|ts| - 1]) + (if Last(ts).kind == LParen then 1 else if Last(ts).kind == RParen then -1 else 0)
  }

  /** No prefix closes more parentheses than it opened. */
  ghost predicate NeverNegative(ts: seq<Token>) {
    forall j :: 0 <= j <= |ts| ==> Depth(ts[..j]) >= 0
  }

  /** The entries of `st` are tokens of `ts`, and neither operands nor `)`. */
  ghost predicate StackFrom(st: seq<Token>, ts: seq<Token>) {
    forall x :: x in st ==> x in ts && x.kind != RParen && !IsOperand(x)
  }

  /** What the pass keeps true while no error has occurred, after the tokens
      `ts`: every `(` still open has a stack entry. */
  ghost predicate StackInv(ts: seq<Token>, st: seq<Token>) {
    CountL(st) == Depth(ts) && StackFrom(st, ts)
  }

  lemma DepthSnoc(ts: seq<Token>, t: Token)
    ensures Depth(ts + [t]) == Depth(ts) + (if t.kind == LParen then 1 else if t.kind == RParen then -1 else 0)
  {
    assert (ts + [t])[..|ts|] == ts;
  }

  lemma StackFromPrefix(st: seq<Token>, n: nat, ts: seq<Token>, t: Token)
    requires n <= |st| && StackFrom(st, ts)
    ensures StackFrom(st[..n], ts + [t])
  {
    forall x | x in st[..n] ensures x in ts + [t] && x.kind != RParen && !IsOperand(x) {
      assert x in st;
    }
  }

  lemma {:induction false} RunStepsParens(toks: seq<Token>, k: nat)
    requires k <= |toks| && NeverNegative(toks[..k])
    ensures RunSteps(toks, k).Cont?
    ensures StackInv(toks[..k], RunSteps(toks, k).stack)
  {
    if k > 0 {
      var ts := toks[..k - 1];
      assert toks[..k] == ts + [toks[k - 1]];
      assert NeverNegative(ts) by {
        forall j | 0 <= j <= |ts| ensures Depth(ts[..j]) >= 0 {
          assert ts[..j] == toks[..k][..j];
        }
      }
      RunStepsParens(toks, k - 1);
      assert Depth(toks[..k]) >= 0 by { assert toks[..k][..k] == toks[..k]; }
      StepKeepsInv(ts, toks[k - 1], RunSteps(toks, k - 1).stack, RunSteps(toks, k - 1).out);
    }
  }

  lemma StepKeepsInv(ts: seq<Token>, t: Token, st: seq<Token>, o: seq<Token>)
    requires StackInv(ts, st) && Depth(ts + [t]) >= 0
    ensures ShuntStep(t, st, o).Cont?
    ensures StackInv(ts + [t], ShuntStep(t, st, o).stack)
  {
    DepthSnoc(ts, t);
    if IsOperand(t) || t.kind == Fun || t.kind == LParen {
      StepPushKeepsInv(ts, t, st, o);
    } else if t.kind == RParen {
      StepCloseKeepsInv(ts, t, st, o);
    } else {
      StepPopKeepsInv(ts, t, st, o);
    }
  }

  /** An operand goes to the output; a function name or `(` is pushed. */
  lemma StepPushKeepsInv(ts: seq<Token>, t: Token, st: seq<Token>, o: seq<Token>)
    requires IsOperand(t) || t.kind == Fun || t.kind == LParen
    requires StackInv(ts, st)
    ensures ShuntStep(t, st, o).Cont?
    ensures StackInv(ts + [t], ShuntStep(t, st, o).stack)
  {
    DepthSnoc(ts, t);
    if IsOperand(t) {
      StackFromPrefix(st, |st|, ts, t);
      assert st[..|st|] == st;
      assert ShuntStep(t, st, o).stack == st;
    } else {
      PushKeepsInv(ts, t, st);
      assert ShuntStep(t, st, o).stack == st + [t];
    }
  }

  /** Pushing a function name or `(` keeps one stack entry per open `(`. */
  lemma PushKeepsInv(ts: seq<Token>, t: Token, st: seq<Token>)
    requires !IsOperand(t) && t.kind != RParen && StackInv(ts, st)
    requires Depth(ts + [t]) == Depth(ts) + (if t.kind == LParen then 1 else 0)
    ensures StackInv(ts + [t], st + [t])
  {
    assert (st + [t])[..|st|] == st;
    StackFromPrefix(st, |st|, ts, t);
    assert st[..|st|] == st;
  }

  /** An operator or a comma pops operators, then is pushed unless it
      separates arguments. */
  lemma StepPopKeepsInv(ts: seq<Token>, t: Token, st: seq<Token>, o: seq<Token>)
    requires !IsOperand(t) && t.kind !in {Fun, LParen, RParen}
    requires StackInv(ts, st)
    ensures ShuntStep(t, st, o).Cont?
    ensures StackInv(ts + [t], ShuntStep(t, st, o).stack)
  {
    DepthSnoc(ts, t);
    if t.op == Coma {
      var p := PopUntilLParen(st, o);
      StackFromPrefix(st, |p.0|, ts, t);
      assert (p.0 + [t])[..|p.0|] == p.0;
    } else {
      var p := PopWhileGe(st, o, IncomingPrec(t));
      StackFromPrefix(st, |p.0|, ts, t);
      assert (p.0 + [t])[..|p.0|] == p.0;
    }
  }

  lemma StepCloseKeepsInv(ts: seq<Token>, t: Token, st: seq<Token>, o: seq<Token>)
    requires t.kind == RParen
    requires StackInv(ts, st) && Depth(ts) >= 1
    ensures ShuntStep(t, st, o).Cont?
    ensures StackInv(ts + [t], ShuntStep(t, st, o).stack)
  {
    DepthSnoc(ts, t);
    var p := PopToLParen(st, o);
    assert p.2;
    if p.0 != [] && ClosesCall(Last(p.0)) {
      var q := p.0[..|p.0| - 1];
      assert q == st[..|p.0| - 1];
      StackFromPrefix(st, |p.0| - 1, ts, t);
      assert CountL(p.0) == CountL(q);
      assert ShuntStep(t, st, o).stack == q;
    } else {
      StackFromPrefix(st, |p.0|, ts, t);
      assert ShuntStep(t, st, o).stack == p.0;
    }
  }

  /** A `)` met where every `(` before it is already closed fails, at that `)`. */
  lemma UnmatchedClose(toks: seq<Token>, k: nat)
    requires k < |toks| && toks[k].kind == RParen
    requires NeverNegative(toks[..k]) && Depth(toks[..k]) == 0
    ensures Shunt(toks).ShuntError? && Shunt(toks).msg == CLOSE_MSG && Shunt(toks).pos == toks[k].pos
  {
    RunStepsParens(toks, k);
    ShuntIsResume(toks, k);
  }

  lemma {:induction false} FlushParens(stack: seq<Token>, out: seq<Token>)
    ensures CountL(stack) > 0 ==>
      Flush(stack, out).ShuntError? && Flush(stack, out).msg == OPEN_MSG &&
      exists x :: x in stack && x.kind == LParen && x.pos == Flush(stack, out).pos
    ensures CountL(stack) == 0 ==> Flush(stack, out).Rpn? || Flush(stack, out).msg == EMPTY_MSG
    ensures Flush(stack, out).Rpn? ==> |out| <= |Flush(stack, out).rpn| && Flush(stack, out).rpn[..|out|] == out
    ensures Flush(stack, out).Rpn? ==> forall x :: x in Flush(stack, out).rpn[|out|..] ==> x in stack
    decreases |stack|
  {
    if stack != [] && Last(stack).kind != LParen {
      var s := stack[..|stack| - 1];
      FlushParens(s, out + [Last(stack)]);
      var f := Flush(s, out + [Last(stack)]);
      if f.Rpn? {
        assert f.rpn[..|out|] == f.rpn[..|out| + 1][..|out|];
        forall x | x in f.rpn[|out|..] ensures x in stack {
          var i :| 0 <= i < |f.rpn[|out|..]| && f.rpn[|out|..][i] == x;
          if i > 0 {
            assert x in f.rpn[|out| + 1..];
          }
        }
      }
    }
  }

  /** The parenthesis errors of the pass.  When some `)` closes nothing,
      the pass fails at the first such `)`.  Otherwise a leftover `(` fails
      at the last `(` never closed (the topmost `(` of the stack), and with
      none left over the pass fails at most with "Empty expression". */
  lemma BalancedParens(toks: seq<Token>)
    ensures !NeverNegative(toks) ==>
      Shunt(toks).ShuntError? && Shunt(toks).msg == CLOSE_MSG &&
      exists j: nat :: FirstUnmatched(toks, j) && toks[j].pos == Shunt(toks).pos
    ensures NeverNegative(toks) && Depth(toks) > 0 ==>
      Shunt(toks).ShuntError? && Shunt(toks).msg == OPEN_MSG &&
      exists j: nat :: LastUnclosed(toks, j) && toks[j].pos == Shunt(toks).pos
    ensures NeverNegative(toks) && Depth(toks) <= 0 ==> Shunt(toks).Rpn? || Shunt(toks).msg == EMPTY_MSG
  {
    if !NeverNegative(toks) {
      CloseNothing(toks);
    } else {
      LeftOpen(toks);
    }
  }

  lemma CloseNothing(toks: seq<Token>)
    requires !NeverNegative(toks)
    ensures Shunt(toks).ShuntError? && Shunt(toks).msg == CLOSE_MSG
    ensures exists j: nat :: FirstUnmatched(toks, j) && toks[j].pos == Shunt(toks).pos
  {
    assert toks[..|toks|] == toks;
    FirstUnmatchedExists(toks, |toks|);
    var j: nat :| j < |toks| && FirstUnmatched(toks, j);
    UnmatchedClose(toks, j);
  }

  lemma LeftOpen(toks: seq<Token>)
    requires NeverNegative(toks)
    ensures Depth(toks) > 0 ==>
      Shunt(toks).ShuntError? && Shunt(toks).msg == OPEN_MSG &&
      exists j: nat :: LastUnclosed(toks, j) && toks[j].pos == Shunt(toks).pos
    ensures Depth(toks) <= 0 ==> Shunt(toks).Rpn? || Shunt(toks).msg == EMPTY_MSG
  {
    assert toks[..|toks|] == toks;
    RunStepsParens(toks, |toks|);
    ShuntIsResume(toks, |toks|);
    var r := RunSteps(toks, |toks|);
    FlushParens(r.stack, r.out);
    if Depth(toks) > 0 {
      RunStepsOpens(toks, |toks|);
      FlushTop(r.stack, r.out);
      TopIsLastUnclosed(toks);
      var s := OpenIdx(toks, |toks|);
      assert Last(Opens(r.stack)) == toks[s[|s| - 1]];
    }
  }

  // ---------------------------------------------------------------- which parenthesis an error names

  /** The `(` entries of a stack, bottom first. */
  function Opens(s: seq<Token>): (r: seq<Token>)
    ensures |r| == CountL(s)
  {
    if s == [] then [] else Opens(s[..|s| - 1]) + (if Last(s).kind == LParen then [Last(s)] else [])
  }

  lemma OpensSnoc(s: seq<Token>, t: Token)
    ensures Opens(s + [t]) == Opens(s) + (if t.kind == LParen then [t] else [])
  {
    assert (s + [t])[..|s|] == s;
  }

  lemma {:induction false} PopToLParenOpens(stack: seq<Token>, out: seq<Token>)
    ensures var r := PopToLParen(stack, out);
      r.2 ==> Opens(stack) != [] && Opens(r.0) == Opens(stack)[..|Opens(stack)| - 1]
    decreases |stack|
  {
    if stack != [] && Last(stack).kind != LParen {
      PopToLParenOpens(stack[..|stack| - 1], out + [Last(stack)]);
    }
  }

  lemma {:induction false} PopUntilLParenOpens(stack: seq<Token>, out: seq<Token>)
    ensures Opens(PopUntilLParen(stack, out).0) == Opens(stack)
    decreases |stack|
  {
    if stack != [] && Last(stack).kind != LParen {
      PopUntilLParenOpens(stack[..|stack| - 1], out + [Last(stack)]);
    }
  }

  lemma {:induction false} PopWhileGeOpens(stack: seq<Token>, out: seq<Token>, prec: nat)
    ensures Opens(PopWhileGe(stack, out, prec).0) == Opens(stack)
    decreases |stack|
  {
    if !(stack == [] || Last(stack).kind == LParen || TopPrec(Last(stack)) < prec) {
      PopWhileGeOpens(stack[..|stack| - 1], out + [Last(stack)], prec);
    }
  }

  /** One step pushes the `(` it reads, drops the topmost `(` at a `)`, and
      leaves the other `(` entries alone. */
  lemma StepOpens(t: Token, st: seq<Token>, o: seq<Token>)
    requires ShuntStep(t, st, o).Cont?
    ensures t.kind == RParen ==> Opens(st) != []
    ensures Opens(ShuntStep(t, st, o).stack)
         == if t.kind == LParen then Opens(st) + [t]
            else if t.kind == RParen then Opens(st)[..|Opens(st)| - 1]
            else Opens(st)
  {
    if IsOperand(t) {
    } else if t.kind == Fun || t.kind == LParen {
      OpensSnoc(st, t);
    } else if t.kind == RParen {
      CloseOpens(t, st, o);
    } else {
      PopOpens(t, st, o);
    }
  }

  lemma CloseOpens(t: Token, st: seq<Token>, o: seq<Token>)
    requires t.kind == RParen && ShuntStep(t, st, o).Cont?
    ensures Opens(st) != [] && Opens(ShuntStep(t, st, o).stack) == Opens(st)[..|Opens(st)| - 1]
  {
    var p := PopToLParen(st, o);
    assert p.2;
    PopToLParenOpens(st, o);
    if p.0 != [] && ClosesCall(Last(p.0)) {
      assert ShuntStep(t, st, o).stack == p.0[..|p.0| - 1];
      OpensDrop(p.0);
    } else {
      assert ShuntStep(t, st, o).stack == p.0;
    }
  }

  lemma OpensDrop(s: seq<Token>)
    requires s != [] && Last(s).kind != LParen
    ensures Opens(s[..|s| - 1]) == Opens(s)
  {
  }

  lemma PopOpens(t: Token, st: seq<Token>, o: seq<Token>)
    requires !IsOperand(t) && t.kind !in {Fun, LParen, RParen}
    ensures Opens(ShuntStep(t, st, o).stack) == Opens(st)
  {
    if t.op == Coma {
      var p := PopUntilLParen(st, o);
      PopUntilLParenOpens(st, o);
      OpensSnoc(p.0, t);
    } else {
      var p := PopWhileGe(st, o, IncomingPrec(t));
      PopWhileGeOpens(st, o, IncomingPrec(t));
      OpensSnoc(p.0, t);
    }
  }

  /** The indices of the `(` tokens among the first `k` that are still
      open, in order: each `(` opens one, each `)` closes the latest. */
  function OpenIdx(toks: seq<Token>, k: nat): (r: seq<nat>)
    requires k <= |toks|
    ensures forall m :: 0 <= m < |r| ==> r[m] < k
  {
    if k == 0 then []
    else
      var s := OpenIdx(toks, k - 1);
      if toks[k - 1].kind == LParen then s + [k - 1]
      else if toks[k - 1].kind == RParen then (if s == [] then [] else s[..|s| - 1])
      else s
  }

  function TokensAt(toks: seq<Token>, idx: seq<nat>): (r: seq<Token>)
    requires forall m :: 0 <= m < |idx| ==> idx[m] < |toks|
    ensures |r| == |idx|
    ensures forall m :: 0 <= m < |idx| ==> r[m] == toks[idx[m]]
  {
    seq(|idx|, m requires 0 <= m < |idx| => toks[idx[m]])
  }

  /** While the pass goes on, the `(` entries of its stack are the `(`
      tokens still open. */
  lemma {:induction false} RunStepsOpens(toks: seq<Token>, k: nat)
    requires k <= |toks| && RunSteps(toks, k).Cont?
    ensures Opens(RunSteps(toks, k).stack) == TokensAt(toks, OpenIdx(toks, k))
  {
    if k > 0 {
      var r := RunSteps(toks, k - 1);
      assert r.Cont?;
      RunStepsOpens(toks, k - 1);
      OpensStep(toks, k, r.stack, r.out);
    }
  }

  /** One token keeps the `(` entries of the stack equal to the open `(`
      tokens. */
  lemma OpensStep(toks: seq<Token>, k: nat, st: seq<Token>, o: seq<Token>)
    requires 0 < k <= |toks| && ShuntStep(toks[k - 1], st, o).Cont?
    requires Opens(st) == TokensAt(toks, OpenIdx(toks, k - 1))
    ensures Opens(ShuntStep(toks[k - 1], st, o).stack) == TokensAt(toks, OpenIdx(toks, k))
  {
    StepOpens(toks[k - 1], st, o);
    OpenIdxStep(toks, k, Opens(st), Opens(ShuntStep(toks[k - 1], st, o).stack));
  }

  /** `OpenIdx` pushes each `(` and pops at each `)`, as the stack does. */
  lemma OpenIdxStep(toks: seq<Token>, k: nat, a: seq<Token>, b: seq<Token>)
    requires 0 < k <= |toks| && a == TokensAt(toks, OpenIdx(toks, k - 1))
    requires toks[k - 1].kind == RParen ==> a != []
    requires b == if toks[k - 1].kind == LParen then a + [toks[k - 1]]
                  else if toks[k - 1].kind == RParen then a[..|a| - 1]
                  else a
    ensures b == TokensAt(toks, OpenIdx(toks, k))
  {
    var t, s := toks[k - 1], OpenIdx(toks, k - 1);
    if t.kind == LParen {
      assert TokensAt(toks, s + [k - 1]) == TokensAt(toks, s) + [t];
    } else if t.kind == RParen {
      assert TokensAt(toks, s[..|s| - 1]) == TokensAt(toks, s)[..|s| - 1];
    }
  }

  /** The final loop stops at the topmost `(` of the stack. */
  lemma {:induction false} FlushTop(stack: seq<Token>, out: seq<Token>)
    requires CountL(stack) > 0
    ensures Flush(stack, out).ShuntError? && Flush(stack, out).pos == Last(Opens(stack)).pos
    decreases |stack|
  {
    if Last(stack).kind != LParen {
      FlushTop(stack[..|stack| - 1], out + [Last(stack)]);
    }
  }

  /** The `(` at `j` is never closed: the depth after it never falls back
      to the depth before it. */
  ghost predicate Unclosed(toks: seq<Token>, j: nat)
    requires j < |toks|
  {
    toks[j].kind == LParen && forall n :: j < n <= |toks| ==> Depth(toks[..n]) > Depth(toks[..j])
  }

  /** The `(` at `j` is the last one never closed. */
  ghost predicate LastUnclosed(toks: seq<Token>, j: nat) {
    j < |toks| && Unclosed(toks, j) && forall i :: j < i < |toks| ==> !Unclosed(toks, i)
  }

  /** The `)` at `j` is the first that closes nothing. */
  ghost predicate FirstUnmatched(toks: seq<Token>, j: nat) {
    j < |toks| && toks[j].kind == RParen && NeverNegative(toks[..j]) && Depth(toks[..j]) == 0
  }

  /** The open `(` tokens, on inputs no prefix of which closes more than it
      opened: the `m`-th (from 0) sits at depth `m`, and the depth after it
      stays above `m` up to `k`. */
  lemma {:induction false} OpenIdxFacts(toks: seq<Token>, k: nat)
    requires k <= |toks| && NeverNegative(toks[..k])
    ensures var s := OpenIdx(toks, k);
      && |s| == Depth(toks[..k])
      && forall m :: 0 <= m < |s| ==>
        && toks[s[m]].kind == LParen && Depth(toks[..s[m]]) == m
        && forall n :: s[m] < n <= k ==> Depth(toks[..n]) > m
  {
    if k > 0 {
      var ts := toks[..k - 1];
      assert toks[..k] == ts + [toks[k - 1]];
      assert NeverNegative(ts) by {
        forall j | 0 <= j <= |ts| ensures Depth(ts[..j]) >= 0 {
          assert ts[..j] == toks[..k][..j];
        }
      }
      OpenIdxFacts(toks, k - 1);
      DepthSnoc(ts, toks[k - 1]);
      assert Depth(toks[..k]) >= 0 by { assert toks[..k][..k] == toks[..k]; }
    }
  }

  /** With no `)` closing nothing, the `(` the final loop stops at is the
      last one never closed. */
  lemma TopIsLastUnclosed(toks: seq<Token>)
    requires NeverNegative(toks) && Depth(toks) > 0
    ensures var s := OpenIdx(toks, |toks|); s != [] && LastUnclosed(toks, s[|s| - 1])
  {
    assert toks[..|toks|] == toks;
    OpenIdxFacts(toks, |toks|);
    var s := OpenIdx(toks, |toks|);
    var j := s[|s| - 1];
    forall i | j < i < |toks| ensures !Unclosed(toks, i) {
      assert Depth(toks[..i]) > |s| - 1;
      assert Depth(toks[..|toks|]) == |s|;
    }
  }

  /** A prefix that closes more than it opened has a first `)` closing nothing. */
  lemma {:induction false} FirstUnmatchedExists(toks: seq<Token>, k: nat)
    requires k <= |toks| && !NeverNegative(toks[..k])
    ensures exists j: nat :: j < k && FirstUnmatched(toks, j)
  {
    var bad :| 0 <= bad <= k && Depth(toks[..k][..bad]) < 0;
    assert bad > 0;
    var ts := toks[..k - 1];
    if NeverNegative(ts) {
      assert toks[..k] == ts + [toks[k - 1]];
      forall j | 0 <= j < k ensures Depth(toks[..k][..j]) >= 0 {
        assert toks[..k][..j] == ts[..j];
      }
      assert toks[..k][..k] == toks[..k];
      assert Depth(ts) >= 0 by { assert ts[..|ts|] == ts; }
      DepthSnoc(ts, toks[k - 1]);
      assert FirstUnmatched(toks, k - 1);
    } else {
      FirstUnmatchedExists(toks, k - 1);
    }
  }

  /** One step takes its stack entries from the old stack and the token, and
      stops only at a `)` with no `(` to match it. */
  lemma StepErrors(toks: seq<Token>, t: Token, st: seq<Token>, o: seq<Token>)
    requires t in toks && forall x :: x in st ==> x in toks
    ensures ShuntStep(t, st, o).Cont? ==> forall x :: x in ShuntStep(t, st, o).stack ==> x in toks
    ensures ShuntStep(t, st, o).Stop? ==>
      t.kind == RParen && ShuntStep(t, st, o).msg == CLOSE_MSG && ShuntStep(t, st, o).pos == t.pos
  {
    if IsOperand(t) || t.kind == Fun || t.kind == LParen {
    } else if t.kind == RParen {
      var p := PopToLParen(st, o);
      assert forall x :: x in p.0 ==> x in st;
      if p.0 != [] {
        assert forall x :: x in p.0[..|p.0| - 1] ==> x in p.0;
      }
    } else if t.op == Coma {
      var p := PopUntilLParen(st, o);
      assert forall x :: x in p.0 ==> x in st;
    } else {
      var p := PopWhileGe(st, o, IncomingPrec(t));
      assert forall x :: x in p.0 ==> x in st;
    }
  }

  lemma {:induction false} RunStepsErrors(toks: seq<Token>, k: nat)
    requires k <= |toks|
    ensures RunSteps(toks, k).Cont? ==> forall x :: x in RunSteps(toks, k).stack ==> x in toks
    ensures RunSteps(toks, k).Stop? ==>
      && RunSteps(toks, k).msg == CLOSE_MSG
      && exists j :: 0 <= j < k && toks[j].kind == RParen && toks[j].pos == RunSteps(toks, k).pos
  {
    if k > 0 {
      RunStepsErrors(toks, k - 1);
      var r := RunSteps(toks, k - 1);
      if r.Cont? {
        StepErrors(toks, toks[k - 1], r.stack, r.out);
      }
    }
  }

  /** The final loop fails at a leftover `(`, or at an empty output with position -1. */
  lemma {:induction false} FlushErrors(stack: seq<Token>, out: seq<Token>)
    ensures Flush(stack, out).ShuntError? ==>
      || (Flush(stack, out).msg == EMPTY_MSG && Flush(stack, out).pos == -1)
      || (Flush(stack, out).msg == OPEN_MSG && exists x :: x in stack && x.kind == LParen && x.pos == Flush(stack, out).pos)
    decreases |stack|
  {
    if stack != [] && Last(stack).kind != LParen {
      FlushErrors(stack[..|stack| - 1], out + [Last(stack)]);
      assert forall x :: x in stack[..|stack| - 1] ==> x in stack;
    }
  }

  /** Every error of the pass: an unmatched `)` at the position of a `)`, an
      unmatched `(` at the position of a `(`, or "Empty expression" at -1. */
  lemma ShuntErrors(toks: seq<Token>)
    ensures Shunt(toks).ShuntError? ==>
      var r := Shunt(toks);
      || (r.msg == EMPTY_MSG && r.pos == -1)
      || (r.msg == CLOSE_MSG && exists j :: 0 <= j < |toks| && toks[j].kind == RParen && toks[j].pos == r.pos)
      || (r.msg == OPEN_MSG && exists j :: 0 <= j < |toks| && toks[j].kind == LParen && toks[j].pos == r.pos)
  {
    ShuntIsResume(toks, |toks|);
    RunStepsErrors(toks, |toks|);
    var r := RunSteps(toks, |toks|);
    if r.Cont? {
      FlushErrors(r.stack, r.out);
      if Shunt(toks).ShuntError? && Shunt(toks).msg == OPEN_MSG {
        var x :| x in r.stack && x.kind == LParen && x.pos == Shunt(toks).pos;
        var j :| 0 <= j < |toks| && toks[j] == x;
      }
    }
  }

  // ---------------------------------------------------------------- output shape

  /** The operands of `ts`, in order. */
  function Operands(ts: seq<Token>): seq<Token> {
    if ts == [] then []
    else Operands(ts[..|ts| - 1]) + (if IsOperand(Last(ts)) then [Last(ts)] else [])
  }

  lemma {:induction false} OperandsAppend(a: seq<Token>, b: seq<Token>)
    ensures Operands(a + b) == Operands(a) + Operands(b)
    decreases |b|
  {
    if b == [] {
      assert a + b == a;
    } else {
      var b' := b[..|b| - 1];
      assert (a + b)[..|a + b| - 1] == a + b';
      OperandsAppend(a, b');
    }
  }

  lemma {:induction false} OperandsNone(b: seq<Token>)
    requires forall x :: x in b ==> !IsOperand(x)
    ensures Operands(b) == []
    decreases |b|
  {
    if b != [] {
      assert forall x :: x in b[..|b| - 1] ==> x in b;
      OperandsNone(b[..|b| - 1]);
    }
  }

  /** Operands go to the output in input order, the stack holds neither
      operands nor `)`, and the output holds no parenthesis. */
  ghost predicate OutInv(ts: seq<Token>, st: seq<Token>, o: seq<Token>) {
    && Operands(o) == Operands(ts)
    && (forall x :: x in st ==> !IsOperand(x) && x.kind != RParen)
    && (forall x :: x in o ==> x.kind != LParen && x.kind != RParen)
  }

  /** Moving non-operand, non-parenthesis entries to the output keeps `OutInv`. */
  lemma MoveKeepsOut(ts: seq<Token>, o: seq<Token>, o': seq<Token>, st: seq<Token>)
    requires Operands(o) == Operands(ts) && (forall x :: x in o ==> x.kind != LParen && x.kind != RParen)
    requires |o| <= |o'| && o'[..|o|] == o
    requires forall x :: x in o'[|o|..] ==> x in st && x.kind != LParen
    requires forall x :: x in st ==> !IsOperand(x) && x.kind != RParen
    ensures Operands(o') == Operands(ts) && (forall x :: x in o' ==> x.kind != LParen && x.kind != RParen)
  {
    var moved := o'[|o|..];
    assert o' == o + moved;
    OperandsAppend(o, moved);
    OperandsNone(moved);
    NoParenAppend(o, moved);
  }

  lemma NoParenAppend(a: seq<Token>, b: seq<Token>)
    requires forall x :: x in a ==> x.kind != LParen && x.kind != RParen
    requires forall x :: x in b ==> x.kind != LParen && x.kind != RParen
    ensures forall x :: x in a + b ==> x.kind != LParen && x.kind != RParen
  {
  }

  lemma StepKeepsOut(ts: seq<Token>, t: Token, st: seq<Token>, o: seq<Token>)
    requires OutInv(ts, st, o)
    requires ShuntStep(t, st, o).Cont?
    ensures OutInv(ts + [t], ShuntStep(t, st, o).stack, ShuntStep(t, st, o).out)
  {
    if IsOperand(t) || t.kind == Fun || t.kind == LParen {
      PushKeepsOut(ts, t, st, o);
    } else if t.kind == RParen {
      CloseKeepsOut(ts, t, st, o);
    } else {
      PopKeepsOut(ts, t, st, o);
    }
  }

  /** The operands after one more token. */
  lemma OperandsOne(ts: seq<Token>, t: Token)
    ensures Operands(ts + [t]) == Operands(ts) + (if IsOperand(t) then [t] else [])
  {
    OperandsAppend(ts, [t]);
    assert [t][..0] == [];
  }

  /** An operand goes to the output; a function name or `(` is pushed. */
  lemma PushKeepsOut(ts: seq<Token>, t: Token, st: seq<Token>, o: seq<Token>)
    requires OutInv(ts, st, o) && (IsOperand(t) || t.kind == Fun || t.kind == LParen)
    ensures OutInv(ts + [t], ShuntStep(t, st, o).stack, ShuntStep(t, st, o).out)
  {
    OperandsOne(ts, t);
    if IsOperand(t) {
      OperandsOne(o, t);
    }
  }

  /** A token that is no operand leaves the operands as they are. */
  lemma OutInvSnoc(ts: seq<Token>, t: Token, st: seq<Token>, o: seq<Token>)
    requires !IsOperand(t) && OutInv(ts, st, o)
    ensures OutInv(ts + [t], st, o)
  {
    OperandsOne(ts, t);
  }

  /** A `)` keeps `OutInv`: what it pops only holds operators and calls. */
  lemma CloseKeepsOut(ts: seq<Token>, t: Token, st: seq<Token>, o: seq<Token>)
    requires OutInv(ts, st, o) && t.kind == RParen
    requires ShuntStep(t, st, o).Cont?
    ensures OutInv(ts + [t], ShuntStep(t, st, o).stack, ShuntStep(t, st, o).out)
  {
    var p := PopToLParen(st, o);
    var call := p.0 != [] && ClosesCall(Last(p.0));
    var st' := if call then p.0[..|p.0| - 1] else p.0;
    var o' := if call then p.1 + [Last(p.0)] else p.1;
    assert ShuntStep(t, st, o) == Cont(st', o');
    MoveKeepsOut(ts, o, p.1, st);
    assert forall x :: x in p.0 ==> x in st;
    if call {
      assert Last(p.0) in st;
      MoveKeepsOut(ts, p.1, o', st);
      assert forall x :: x in st' ==> x in p.0;
    }
    OutInvSnoc(ts, t, st', o');
  }

  /** An operator or a comma keeps `OutInv`: it pops operators only, and
      is not itself an operand or a parenthesis. */
  lemma PopKeepsOut(ts: seq<Token>, t: Token, st: seq<Token>, o: seq<Token>)
    requires OutInv(ts, st, o) && !IsOperand(t) && t.kind !in {Fun, LParen, RParen}
    ensures OutInv(ts + [t], ShuntStep(t, st, o).stack, ShuntStep(t, st, o).out)
  {
    if t.op == Coma {
      CommaKeepsOut(ts, t, st, o);
    } else {
      OperatorKeepsOut(ts, t, st, o);
    }
  }

  lemma CommaKeepsOut(ts: seq<Token>, t: Token, st: seq<Token>, o: seq<Token>)
    requires OutInv(ts, st, o) && !IsOperand(t) && t.kind !in {Fun, LParen, RParen} && t.op == Coma
    ensures OutInv(ts + [t], ShuntStep(t, st, o).stack, ShuntStep(t, st, o).out)
  {
    var p := PopUntilLParen(st, o);
    MoveKeepsOut(ts, o, p.1, st);
    var isArgSeparator := p.0 != [] && Last(p.0).kind == LParen && |p.0| >= 2 && p.0[|p.0| - 2].kind == Fun;
    var st' := if isArgSeparator then p.0 else p.0 + [t];
    assert forall x :: x in p.0 ==> x in st;
    assert ShuntStep(t, st, o) == Cont(st', p.1);
    OutInvSnoc(ts, t, st', p.1);
  }

  lemma OperatorKeepsOut(ts: seq<Token>, t: Token, st: seq<Token>, o: seq<Token>)
    requires OutInv(ts, st, o) && !IsOperand(t) && t.kind !in {Fun, LParen, RParen} && t.op != Coma
    ensures OutInv(ts + [t], ShuntStep(t, st, o).stack, ShuntStep(t, st, o).out)
  {
    var p := PopWhileGe(st, o, IncomingPrec(t));
    MoveKeepsOut(ts, o, p.1, st);
    assert forall x :: x in p.0 ==> x in st;
    assert ShuntStep(t, st, o) == Cont(p.0 + [t], p.1);
    OutInvSnoc(ts, t, p.0 + [t], p.1);
  }

  lemma {:induction false} RunStepsOut(toks: seq<Token>, k: nat)
    requires k <= |toks|
    ensures RunSteps(toks, k).Cont? ==> OutInv(toks[..k], RunSteps(toks, k).stack, RunSteps(toks, k).out)
  {
    if k > 0 {
      RunStepsOut(toks, k - 1);
      assert toks[..k] == toks[..k - 1] + [toks[k - 1]];
      if RunSteps(toks, k).Cont? {
        StepKeepsOut(toks[..k - 1], toks[k - 1], RunSteps(toks, k - 1).stack, RunSteps(toks, k - 1).out);
      }
    }
  }

  lemma {:induction false} FlushKeepsOut(ts: seq<Token>, st: seq<Token>, o: seq<Token>)
    requires OutInv(ts, st, o)
    ensures Flush(st, o).Rpn? ==> OutInv(ts, [], Flush(st, o).rpn)
    decreases |st|
  {
    if st != [] && Last(st).kind != LParen {
      MoveKeepsOut(ts, o, o + [Last(st)], st);
      assert forall x :: x in st[..|st| - 1] ==> x in st;
      FlushKeepsOut(ts, st[..|st| - 1], o + [Last(st)]);
    }
  }

  /** A successful pass keeps every operand, in input order, and emits no
      parenthesis: the output is the operands interleaved with operators. */
  lemma RpnShape(toks: seq<Token>)
    requires Shunt(toks).Rpn?
    ensures Operands(Shunt(toks).rpn) == Operands(toks)
    ensures forall x :: x in Shunt(toks).rpn ==> x.kind != LParen && x.kind != RParen
  {
    assert toks[..|toks|] == toks;
    ShuntIsResume(toks, |toks|);
    RunStepsOut(toks, |toks|);
    var r := RunSteps(toks, |toks|);
    FlushKeepsOut(toks, r.stack, r.out);
  }

  /** The operands of `ts` are exactly its tokens that are operands. */
  lemma {:induction false} OperandsMembers(ts: seq<Token>)
    ensures forall x :: x in Operands(ts) <==> x in ts && IsOperand(x)
    decreases |ts|
  {
    if ts != [] {
      var p := ts[..|ts| - 1];
      OperandsMembers(p);
      assert ts == p + [Last(ts)];
    }
  }

  lemma {:induction false} FlushNonEmpty(stack: seq<Token>, out: seq<Token>)
    ensures Flush(stack, out).Rpn? ==> Flush(stack, out).rpn != []
    decreases |stack|
  {
    if stack != [] && Last(stack).kind != LParen {
      FlushNonEmpty(stack[..|stack| - 1], out + [Last(stack)]);
    }
  }

  /** A successful pass never yields an empty program. */
  lemma ShuntNonEmpty(toks: seq<Token>)
    ensures Shunt(toks).Rpn? ==> Shunt(toks).rpn != []
  {
    ShuntIsResume(toks, |toks|);
    var r := RunSteps(toks, |toks|);
    if r.Cont? {
      FlushNonEmpty(r.stack, r.out);
    }
  }
}
