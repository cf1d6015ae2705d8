/** `BytebeatExpression::Compile` of the earlier compiler
    (`bytebeat-player/Bytebeat.cpp`): tokens, then the shunting-yard pass.
    The only error it reports is a character no token accepts. */
module LegacyCompiler {
  import opened LegacyLexer
  import LegacyParser

  /** What `Compile` returns and leaves in `m_rpn`, `error` and `errorPos`. */
  datatype Compiled = Compiled(ok: bool, rpn: seq<Token>, error: string, errorPos: int)

  function Compile(expr: string, unset: OpType): Compiled {
    if expr == [] then Compiled(false, [], "", -1)
    else match Lex(expr, unset)
      case LexError(m, p) => Compiled(false, [], m, p)
      case Lexed(ts) =>
        var rpn := LegacyParser.Shunt(ts);
        Compiled(rpn != [], rpn, "", -1)
  }

  /** Success is a non-empty program; the message is "Unknown char", at the
      first character no token accepts, exactly when there is one; otherwise
      there is no message, and no position.  Parentheses never cause an error. */
  lemma CompileErrors(expr: string, unset: OpType)
    ensures var c := Compile(expr, unset);
      && (c.ok <==> c.rpn != [])
      && (c.error != "" <==> exists k :: 0 <= k < |expr| && !Known(expr[k]))
      && (c.error == "" ==> c.errorPos == -1)
      && (c.error != "" ==>
            && c.error == UNKNOWN_MSG && c.rpn == []
            && 0 <= c.errorPos < |expr| && !Known(expr[c.errorPos])
            && forall k :: 0 <= k < c.errorPos ==> Known(expr[k]))
  {
    UnknownCharIff(expr, unset);
  }

  /** A formula without unknown characters that holds a number or `t`
      compiles; its program keeps the operands in order and has no `)`. */
  lemma OperandCompiles(expr: string, unset: OpType, i: nat)
    requires Lex(expr, unset).Lexed? && i < |Lex(expr, unset).tokens|
    requires LegacyParser.IsOperand(Lex(expr, unset).tokens[i])
    ensures Compile(expr, unset).ok
    ensures LegacyParser.Operands(Compile(expr, unset).rpn) == LegacyParser.Operands(Lex(expr, unset).tokens)
  {
    var ts := Lex(expr, unset).tokens;
    LegacyParser.OperandNonEmpty(ts, i);
    LegacyParser.ShuntOperands(ts);
  }
}
