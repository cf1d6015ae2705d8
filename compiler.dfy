/** `BytebeatExpression::Compile` as a function: lexing, then the
    shunting-yard pass, with the error message and position it reports. */
module Compiler {
  import opened Tokens
  import opened Lexer
  import opened Parser
  import GlobalState
  import Evaluator

  /** The outputs of `Compile`: its result, the program `m_rpn`, the `error`
      and `errorPos` out-parameters, and the state the lexer leaves. */
  datatype Compiled = Compiled(ok: bool, rpn: seq<Token>, error: string, errorPos: int, ctx: Ctx)

  /** An empty expression fails with an empty message; a lexing error leaves
      no program; an error of the pass keeps the output built so far. */
  function Compile(expr: string, ctx: Ctx): Compiled {
    if expr == [] then Compiled(false, [], "", -1, ctx)
    else match Lex(expr, ctx)
      case LexError(msg, pos, c) => Compiled(false, [], msg, pos, c)
      case Lexed(toks, c) =>
        match Shunt(toks)
        case Rpn(r) => Compiled(true, r, "", -1, c)
        case ShuntError(msg, pos, partial) => Compiled(false, partial, msg, pos, c)
  }

  /** Every error `Compile` reports, stated on the expression text: a
      positioned error names the character at `errorPos` (the unexpected
      one, a `)` or `]`, or a `(` or `[`); the others sit at -1. */
  predicate ErrorExplained(expr: string, error: string, errorPos: int) {
    || (errorPos == -1 && ((expr == [] && error == "") || error == EMPTY_MSG))
    || (0 <= errorPos < |expr| && PositionedError(expr, error, errorPos))
  }

  predicate PositionedError(expr: string, error: string, errorPos: nat)
    requires errorPos < |expr|
  {
    || (error == UnexpectedMsg(expr[errorPos]) && Unexpected(expr, errorPos, false))
    || (error == CLOSE_MSG && expr[errorPos] in ")]")
    || (error == OPEN_MSG && expr[errorPos] in "([")
  }

  /** Every error `Compile` reports is one `ErrorExplained` lists.  The
      parenthesis errors are pinned down on the tokens: an unmatched `)`
      is reported at the first `)` (or `]`) that closes nothing, an
      unmatched `(` at the last `(` (or `[`) never closed. */
  lemma CompileErrors(expr: string, ctx: Ctx)
    requires GlobalState.WellFormed(ctx.vars)
    ensures !Compile(expr, ctx).ok ==> ErrorExplained(expr, Compile(expr, ctx).error, Compile(expr, ctx).errorPos)
    ensures var c, l := Compile(expr, ctx), Lex(expr, ctx);
      !c.ok && c.error == CLOSE_MSG ==>
        l.Lexed? && exists j: nat :: FirstUnmatched(l.tokens, j) && l.tokens[j].pos == c.errorPos
    ensures var c, l := Compile(expr, ctx), Lex(expr, ctx);
      !c.ok && c.error == OPEN_MSG ==>
        l.Lexed? && exists j: nat :: LastUnclosed(l.tokens, j) && l.tokens[j].pos == c.errorPos
  {
    ErrorsExplained(expr, ctx);
    ParenErrors(expr, ctx);
  }

  lemma ErrorsExplained(expr: string, ctx: Ctx)
    requires GlobalState.WellFormed(ctx.vars)
    ensures !Compile(expr, ctx).ok ==> ErrorExplained(expr, Compile(expr, ctx).error, Compile(expr, ctx).errorPos)
  {
    if expr != [] {
      LexFacts(expr, ctx);
      var l := Lex(expr, ctx);
      if l.Lexed? {
        ShuntErrors(l.tokens);
        var r := Shunt(l.tokens);
        if r.ShuntError? && r.msg == CLOSE_MSG {
          var j :| 0 <= j < |l.tokens| && l.tokens[j].kind == RParen && l.tokens[j].pos == r.pos;
          assert TokenAt(expr, l.tokens[j]);
        } else if r.ShuntError? && r.msg == OPEN_MSG {
          var j :| 0 <= j < |l.tokens| && l.tokens[j].kind == LParen && l.tokens[j].pos == r.pos;
          assert TokenAt(expr, l.tokens[j]);
        }
      }
    }
  }

  lemma ParenErrors(expr: string, ctx: Ctx)
    requires GlobalState.WellFormed(ctx.vars)
    ensures var c, l := Compile(expr, ctx), Lex(expr, ctx);
      !c.ok && c.error == CLOSE_MSG ==>
        l.Lexed? && exists j: nat :: FirstUnmatched(l.tokens, j) && l.tokens[j].pos == c.errorPos
    ensures var c, l := Compile(expr, ctx), Lex(expr, ctx);
      !c.ok && c.error == OPEN_MSG ==>
        l.Lexed? && exists j: nat :: LastUnclosed(l.tokens, j) && l.tokens[j].pos == c.errorPos
  {
    assert CLOSE_MSG[10] != OPEN_MSG[10] && EMPTY_MSG[1] != OPEN_MSG[1] && EMPTY_MSG[1] != CLOSE_MSG[1];
    if expr != [] {
      LexFacts(expr, ctx);
      var l := Lex(expr, ctx);
      if l.LexError? {
        assert UnexpectedMsg(expr[l.pos])[2] != CLOSE_MSG[2] && UnexpectedMsg(expr[l.pos])[2] != OPEN_MSG[2];
      } else {
        BalancedParens(l.tokens);
      }
    }
  }

  /** A success leaves no error, a non-empty program without parentheses that
      keeps the operands of the input in order, and every variable it reads
      allocated; compiling only adds to the state. */
  lemma CompileSuccess(expr: string, ctx: Ctx)
    requires GlobalState.WellFormed(ctx.vars)
    ensures var c := Compile(expr, ctx);
      && Grows(ctx, c.ctx) && GlobalState.WellFormed(c.ctx.vars)
      && (c.ok ==>
        && c.error == "" && c.errorPos == -1 && c.rpn != []
        && (forall x :: x in c.rpn ==> x.kind != LParen && x.kind != RParen)
        && Operands(c.rpn) == Operands(Lex(expr, ctx).tokens)
        && Evaluator.IdentifiersIn(c.rpn, |c.ctx.vars.memory|))
  {
    if expr != [] {
      LexFacts(expr, ctx);
      var l := Lex(expr, ctx);
      if l.Lexed? && Shunt(l.tokens).Rpn? {
        var rpn := Shunt(l.tokens).rpn;
        RpnShape(l.tokens);
        ShuntNonEmpty(l.tokens);
        OperandsMembers(rpn);
        OperandsMembers(l.tokens);
        forall k | 0 <= k < |rpn| && rpn[k].kind == Identifier ensures 0 <= rpn[k].index < |l.ctx.vars.memory| {
          assert rpn[k] in Operands(rpn);
          var j :| 0 <= j < |l.tokens| && l.tokens[j] == rpn[k];
          assert Indexed(l.tokens[j], l.ctx);
        }
      }
    } else {
      GrowsRefl(ctx);
    }
  }
}
