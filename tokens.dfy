/** The token type of the current compiler (`Core/Bytebeat.h`) and the
    operator precedences the shunting-yard uses. */
module Tokens {

  datatype TokType =
    | Number | VarT | Op | LParen | RParen | Fun | Quest | Colon
    | Identifier | String | ArrayLiteral | VarPtr

  datatype OpType =
    | Add | Sub | Mul | Div | Mod | And | Or | Xor | Shl | Shr | Neg | BitNot
    | LT | GT | LE | GE | EQ | NE | Ternary | Assign | Coma | CharCodeAt | Index | Length

  datatype FunType = Sin | Cos | Abs | Floor | Tan | Pow | Random

  /** A token: every field has the default of the C++ struct unless the
      constructor used for that kind of token sets it. */
  datatype Token = Token(kind: TokType, value: real, op: OpType, fun: FunType, pos: int, index: int)

  /** Strings have pool ids 0..199999, arrays 200000 and up. */
  const ARRAY_ID_OFFSET: int := 200000

  function NumberTok(v: real, p: int): Token { Token(Number, v, Add, Sin, p, -1) }
  function OpTok(o: OpType, p: int): Token { Token(Op, 0.0, o, Sin, p, -1) }
  function FunTok(f: FunType, p: int): Token { Token(Fun, 0.0, Add, f, p, -1) }
  function KindTok(k: TokType, p: int): Token { Token(k, 0.0, Add, Sin, p, -1) }
  function IndexedTok(k: TokType, idx: int, p: int): Token { Token(k, 0.0, Add, Sin, p, idx) }

  /** A variable reference: `VarPtr` when it is the target of an assignment. */
  function VarTok(idx: int, p: int, isPtr: bool): Token {
    IndexedTok(if isPtr then VarPtr else Identifier, idx, p)
  }

  /** Tokens that go straight to the output. */
  predicate IsOperand(t: Token) {
    t.kind in {Number, VarT, Identifier, String, ArrayLiteral, VarPtr}
  }

  /** `getPrecedence`. */
  function GetPrecedence(op: OpType): nat {
    match op
    case Index => 13
    case CharCodeAt => 12
    case Mul | Div | Mod => 10
    case Add | Sub => 9
    case Shl | Shr => 8
    case LT | GT | LE | GE => 7
    case EQ | NE => 6
    case And => 5
    case Xor => 4
    case Or => 3
    case Assign | Coma => 1
    case _ => 0
  }

  /** The precedence of a token arriving at the operator stack. */
  function IncomingPrec(t: Token): nat {
    if t.kind == Quest || t.kind == Colon then 2
    else if t.op == Neg || t.op == BitNot then 12
    else GetPrecedence(t.op)
  }

  /** The precedence of a token lying on top of the operator stack.  `?` and
      `:` carry the default `op` (`Add`) and get its precedence there. */
  function TopPrec(t: Token): nat {
    if t.kind == Fun then 12
    else if t.kind == Op && (t.op == Neg || t.op == BitNot) then 12
    else GetPrecedence(t.op)
  }

  /** Precedence of the binary operators, tightest first. */
  lemma BinaryPrecedence(p: int)
    ensures IncomingPrec(OpTok(Index, p)) == 13
    ensures IncomingPrec(OpTok(CharCodeAt, p)) == 12
    ensures IncomingPrec(OpTok(Mul, p)) == 10 && IncomingPrec(OpTok(Div, p)) == 10
    ensures IncomingPrec(OpTok(Mod, p)) == 10
    ensures IncomingPrec(OpTok(Add, p)) == 9 && IncomingPrec(OpTok(Sub, p)) == 9
    ensures IncomingPrec(OpTok(Shl, p)) == 8 && IncomingPrec(OpTok(Shr, p)) == 8
  {
  }

  /** Precedence of the comparisons. */
  lemma ComparisonPrecedence(p: int)
    ensures IncomingPrec(OpTok(LT, p)) == 7 && IncomingPrec(OpTok(GT, p)) == 7
    ensures IncomingPrec(OpTok(LE, p)) == 7 && IncomingPrec(OpTok(GE, p)) == 7
    ensures IncomingPrec(OpTok(EQ, p)) == 6 && IncomingPrec(OpTok(NE, p)) == 6
  {
  }

  /** Precedence of the bitwise operators. */
  lemma BitwisePrecedence(p: int)
    ensures IncomingPrec(OpTok(And, p)) == 5 && IncomingPrec(OpTok(Xor, p)) == 4
    ensures IncomingPrec(OpTok(Or, p)) == 3
  {
  }

  /** Unary operators bind like functions; `?`, `:`, `=` and `,` loosest.  On
      the stack `?` and `:` carry the precedence of `Add`. */
  lemma LoosePrecedence(p: int)
    ensures IncomingPrec(OpTok(Neg, p)) == 12 && IncomingPrec(OpTok(BitNot, p)) == 12
    ensures TopPrec(OpTok(Neg, p)) == 12 && TopPrec(OpTok(BitNot, p)) == 12
    ensures IncomingPrec(KindTok(Quest, p)) == 2 && IncomingPrec(KindTok(Colon, p)) == 2
    ensures IncomingPrec(OpTok(Assign, p)) == 1 && IncomingPrec(OpTok(Coma, p)) == 1
    ensures TopPrec(KindTok(Quest, p)) == 9 && TopPrec(KindTok(Colon, p)) == 9
  {
  }
}
