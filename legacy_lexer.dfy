/** The tokenizer of the earlier compiler (`bytebeat-player/Bytebeat.cpp`):
    integer literals, words made of letters, parentheses, `?`, `:`, `~` and
    one- or two-character operators; any other character is an error. */
module LegacyLexer {
  import opened Wrappers
  import opened Chars
  import Lexer

  datatype Kind = Number | VarT | Op | LParen | RParen | Fun | Quest | Colon | Identifier

  datatype OpType =
    | Add | Sub | Mul | Div | Mod | And | Or | Xor | Shl | Shr | Neg | BitNot
    | LT | GT | LE | GE | EQ | NE | Ternary | Assign | Coma

  datatype FunType = Sin | Cos | Abs | Floor | Int

  /** A token.  The factory functions leave the fields they do not set
      uninitialised; of those only `op` is ever read (the precedence of an
      identifier, the evaluation of a leftover `(`), so its value is the
      parameter `unset` of the tokenizer.  The others get placeholders. */
  datatype Token = Token(kind: Kind, value: real, op: OpType, fun: FunType, name: string, pos: int)

  function NumberTok(v: real, p: int, unset: OpType): Token { Token(Number, v, unset, Sin, "", p) }
  function PlainTok(k: Kind, p: int, unset: OpType): Token { Token(k, 0.0, unset, Sin, "", p) }
  function OpTok(o: OpType, p: int): Token { Token(Op, 0.0, o, Sin, "", p) }
  function FunTok(f: FunType, p: int, unset: OpType): Token { Token(Fun, 0.0, unset, f, "", p) }
  function IdentTok(n: string, p: int, unset: OpType): Token { Token(Identifier, 0.0, unset, Sin, n, p) }
  /** `?` and `:` are built with every field given. */
  function TernaryTok(k: Kind, p: int): Token { Token(k, 0.0, Ternary, Sin, "", p) }

  const UNKNOWN_MSG: string := "Unknown char"

  /** The characters some token can start with or belong to. */
  predicate Known(c: char) {
    IsDigit(c) || IsAlpha(c) || IsSpace(c) || c in "()?:~" || c in "+-*/%&|^<>!=,"
  }

  // ---------------------------------------------------------------- literals and words

  /** `v = v * 10 + digit` over the run of digits at `i`. */
  function ScanDigits(e: string, i: nat, v: real): (r: (real, nat))
    requires i <= |e|
    ensures i <= r.1 <= |e|
    ensures i < |e| && IsDigit(e[i]) ==> r.1 > i
    ensures forall k :: i <= k < r.1 ==> IsDigit(e[k])
    ensures r.1 == |e| || !IsDigit(e[r.1])
    decreases |e| - i
  {
    if i < |e| && IsDigit(e[i]) then ScanDigits(e, i + 1, v * 10.0 + DigitValue(e[i]) as real)
    else (v, i)
  }

  /** The run of letters at `i`, appended to `name`. */
  function ScanLetters(e: string, i: nat, name: string): (r: (string, nat))
    requires i <= |e|
    ensures i <= r.1 <= |e|
    ensures i < |e| && IsAlpha(e[i]) ==> r.1 > i
    ensures forall k :: i <= k < r.1 ==> IsAlpha(e[k])
    ensures r.1 == |e| || !IsAlpha(e[r.1])
    ensures r.0 == name + e[i..r.1]
    decreases |e| - i
  {
    if i < |e| && IsAlpha(e[i]) then
      var r := ScanLetters(e, i + 1, name + [e[i]]);
      assert name + [e[i]] + e[i + 1..r.1] == name + e[i..r.1];
      r
    else (name, i)
  }

  /** A word: `t`, a function name (`int` and `floor` are the same
      function), or an identifier. */
  function Word(name: string, p: int, unset: OpType): Token {
    if name == "t" then PlainTok(VarT, p, unset)
    else if name == "sin" then FunTok(Sin, p, unset)
    else if name == "cos" then FunTok(Cos, p, unset)
    else if name == "abs" then FunTok(Abs, p, unset)
    else if name == "int" || name == "floor" then FunTok(Int, p, unset)
    else IdentTok(name, p, unset)
  }

  // ---------------------------------------------------------------- operators

  function DoubleOp(two: string): Option<OpType> {
    if two == "<<" then Some(Shl)
    else if two == ">>" then Some(Shr)
    else if two == "<=" then Some(LE)
    else if two == ">=" then Some(GE)
    else if two == "==" then Some(EQ)
    else if two == "!=" then Some(NE)
    else None
  }

  /** The one-character operators; `!` alone is `BitNot`. */
  function SingleOp(c: char): OpType
    requires c in "+-*/%&|^<>!=,"
  {
    if c == '<' then LT
    else if c == '>' then GT
    else if c == '+' then Add
    else if c == '-' then Sub
    else if c == '*' then Mul
    else if c == '/' then Div
    else if c == '%' then Mod
    else if c == '&' then And
    else if c == '|' then Or
    else if c == '^' then Xor
    else if c == '!' then BitNot
    else if c == '=' then Assign
    else Coma
  }

  /** The operator at `i` and where it ends: `-` where an operand is due is
      `Neg`; otherwise two characters are tried before one.  `None` for a
      character that is not an operator. */
  function OperatorAt(e: string, i: nat, eu: bool): (r: Option<(OpType, nat)>)
    requires i < |e|
    ensures r.Some? ==> i < r.value.1 <= |e| && forall k :: i <= k < r.value.1 ==> Known(e[k])
    ensures r.None? <==> !(e[i] == '-' && eu) && e[i] !in "+-*/%&|^<>!=,"
  {
    if e[i] == '-' && eu then Some((Neg, i + 1))
    else if e[i] !in "+-*/%&|^<>!=," then None
    else if i + 1 < |e| && DoubleOp(e[i..i + 2]).Some? then
      assert e[i + 1] == e[i..i + 2][1];
      Some((DoubleOp(e[i..i + 2]).value, i + 2))
    else Some((SingleOp(e[i]), i + 1))
  }

  // ---------------------------------------------------------------- the scan

  datatype Step = Emit(tok: Token, next: nat, eu: bool) | Fail

  /** The token starting at the non-blank character `i`. */
  function LexToken(e: string, i: nat, eu: bool, unset: OpType): (r: Step)
    requires i < |e| && !IsSpace(e[i])
    ensures r.Emit? ==> i < r.next <= |e|
  {
    var c := e[i];
    if IsDigit(c) then
      var (v, j) := ScanDigits(e, i, 0.0);
      Emit(NumberTok(v, i, unset), j, false)
    else if IsAlpha(c) then
      var (name, j) := ScanLetters(e, i, []);
      Emit(Word(name, i, unset), j, false)
    else if c == '(' then Emit(PlainTok(LParen, i, unset), i + 1, true)
    else if c == ')' then Emit(PlainTok(RParen, i, unset), i + 1, false)
    else if c == '?' then Emit(TernaryTok(Quest, i), i + 1, true)
    else if c == ':' then Emit(TernaryTok(Colon, i), i + 1, true)
    else if c == '~' then Emit(OpTok(BitNot, i), i + 1, true)
    else match OperatorAt(e, i, eu)
      case None => Fail
      case Some((o, j)) => Emit(OpTok(o, i), j, true)
  }

  datatype LexResult = Lexed(tokens: seq<Token>) | LexError(msg: string, pos: int)

  function LexFrom(e: string, i: nat, eu: bool, toks: seq<Token>, unset: OpType): LexResult
    requires i <= |e|
    decreases |e| - i
  {
    if i == |e| then Lexed(toks)
    else if IsSpace(e[i]) then LexFrom(e, i + 1, eu, toks, unset)
    else match LexToken(e, i, eu, unset)
      case Fail => LexError(UNKNOWN_MSG, i)
      case Emit(t, j, eu') => LexFrom(e, j, eu', toks + [t], unset)
  }

  function Lex(e: string, unset: OpType): LexResult {
    LexFrom(e, 0, true, [], unset)
  }

  // ---------------------------------------------------------------- the scan, as loops

  method ReadNumber(e: string, i: nat) returns (v: real, j: nat)
    requires i <= |e|
    ensures (v, j) == ScanDigits(e, i, 0.0)
  {
    v, j := 0.0, i;
    while j < |e| && IsDigit(e[j])
      invariant i <= j <= |e|
      invariant ScanDigits(e, i, 0.0) == ScanDigits(e, j, v)
      decreases |e| - j
    {
      v := v * 10.0 + DigitValue(e[j]) as real;
      j := j + 1;
    }
  }

  method ReadWord(e: string, i: nat) returns (name: string, j: nat)
    requires i <= |e|
    ensures (name, j) == ScanLetters(e, i, [])
  {
    name, j := [], i;
    while j < |e| && IsAlpha(e[j])
      invariant i <= j <= |e|
      invariant ScanLetters(e, i, []) == ScanLetters(e, j, name)
      decreases |e| - j
    {
      name := name + [e[j]];
      j := j + 1;
    }
  }

  method ReadOperator(e: string, i: nat, eu: bool) returns (r: Option<(OpType, nat)>)
    requires i < |e|
    ensures r == OperatorAt(e, i, eu)
  {
    if e[i] == '-' && eu {
      return Some((Neg, i + 1));
    }
    var c := e[i];
    if c !in "+-*/%&|^<>!=," {
      return None;
    }
    if i + 1 < |e| && DoubleOp(e[i..i + 2]).Some? {
      return Some((DoubleOp(e[i..i + 2]).value, i + 2));
    }
    return Some((SingleOp(c), i + 1));
  }

  method ReadToken(e: string, i: nat, eu: bool, unset: OpType) returns (st: Step)
    requires i < |e| && !IsSpace(e[i])
    ensures st == LexToken(e, i, eu, unset)
  {
    if IsDigit(e[i]) {
      var v, j := ReadNumber(e, i);
      return Emit(NumberTok(v, i, unset), j, false);
    } else if IsAlpha(e[i]) {
      var name, j := ReadWord(e, i);
      return Emit(Word(name, i, unset), j, false);
    } else if e[i] == '(' {
      return Emit(PlainTok(LParen, i, unset), i + 1, true);
    } else if e[i] == ')' {
      return Emit(PlainTok(RParen, i, unset), i + 1, false);
    } else if e[i] == '?' {
      return Emit(TernaryTok(Quest, i), i + 1, true);
    } else if e[i] == ':' {
      return Emit(TernaryTok(Colon, i), i + 1, true);
    } else if e[i] == '~' {
      return Emit(OpTok(BitNot, i), i + 1, true);
    }
    var o := ReadOperator(e, i, eu);
    if o.None? {
      return Fail;
    }
    return Emit(OpTok(o.value.0, i), o.value.1, true);
  }

  /** The loop over the text: blanks are skipped, and the first character no
      token accepts ends it with "Unknown char". */
  method Tokenize(e: string, unset: OpType) returns (ok: bool, toks: seq<Token>, msg: string, pos: int)
    ensures Lex(e, unset) == if ok then Lexed(toks) else LexError(msg, pos)
  {
    toks, msg, pos := [], "", -1;
    var eu := true;
    var i := 0;
    while i < |e|
      invariant i <= |e|
      invariant Lex(e, unset) == LexFrom(e, i, eu, toks, unset)
      decreases |e| - i
    {
      if IsSpace(e[i]) {
        LexFromSpace(e, i, eu, toks, unset);
        i := i + 1;
      } else {
        var st := ReadToken(e, i, eu, unset);
        LexFromToken(e, i, eu, toks, unset, st);
        if st.Fail? {
          return false, toks, UNKNOWN_MSG, i;
        }
        toks, i, eu := toks + [st.tok], st.next, st.eu;
      }
    }
    ok := true;
  }

  lemma LexFromSpace(e: string, i: nat, eu: bool, toks: seq<Token>, unset: OpType)
    requires i < |e| && IsSpace(e[i])
    ensures LexFrom(e, i, eu, toks, unset) == LexFrom(e, i + 1, eu, toks, unset)
  {
  }

  /** A token read at `i` either ends the scan or lets it go on after it. */
  lemma LexFromToken(e: string, i: nat, eu: bool, toks: seq<Token>, unset: OpType, st: Step)
    requires i < |e| && !IsSpace(e[i]) && st == LexToken(e, i, eu, unset)
    ensures st.Fail? ==> LexFrom(e, i, eu, toks, unset) == LexError(UNKNOWN_MSG, i)
    ensures st.Emit? ==> LexFrom(e, i, eu, toks, unset) == LexFrom(e, st.next, st.eu, toks + [st.tok], unset)
  {
  }

  // ---------------------------------------------------------------- properties

  /** The first character no token accepts, from `i` on. */
  function FirstUnknown(e: string, i: nat): (r: Option<nat>)
    requires i <= |e|
    ensures r.Some? ==> i <= r.value < |e| && !Known(e[r.value]) && forall k :: i <= k < r.value ==> Known(e[k])
    ensures r.None? ==> forall k :: i <= k < |e| ==> Known(e[k])
    decreases |e| - i
  {
    if i == |e| then None
    else if !Known(e[i]) then Some(i)
    else FirstUnknown(e, i + 1)
  }

  lemma {:induction false} FirstUnknownSkip(e: string, i: nat, j: nat)
    requires i <= j <= |e| && forall k :: i <= k < j ==> Known(e[k])
    ensures FirstUnknown(e, i) == FirstUnknown(e, j)
    decreases j - i
  {
    if i < j {
      FirstUnknownSkip(e, i + 1, j);
    }
  }

  /** A token consumes only characters some token accepts, and no token
      starts at any other character. */
  lemma TokenKnown(e: string, i: nat, eu: bool, unset: OpType)
    requires i < |e| && !IsSpace(e[i])
    ensures var r := LexToken(e, i, eu, unset);
      (r.Emit? ==> forall k :: i <= k < r.next ==> Known(e[k])) && (r.Fail? <==> !Known(e[i]))
  {
  }

  lemma {:induction false} LexFromErrors(e: string, i: nat, eu: bool, toks: seq<Token>, unset: OpType)
    requires i <= |e|
    ensures var r := LexFrom(e, i, eu, toks, unset);
      (r.LexError? <==> FirstUnknown(e, i).Some?) &&
      (r.LexError? ==> r.msg == UNKNOWN_MSG && r.pos == FirstUnknown(e, i).value)
    decreases |e| - i
  {
    if i < |e| {
      if IsSpace(e[i]) {
        assert FirstUnknown(e, i) == FirstUnknown(e, i + 1);
        LexFromErrors(e, i + 1, eu, toks, unset);
      } else {
        var st := LexToken(e, i, eu, unset);
        TokenKnown(e, i, eu, unset);
        if st.Fail? {
          assert LexFrom(e, i, eu, toks, unset) == LexError(UNKNOWN_MSG, i);
          assert FirstUnknown(e, i) == Some(i);
        } else {
          assert LexFrom(e, i, eu, toks, unset) == LexFrom(e, st.next, st.eu, toks + [st.tok], unset);
          FirstUnknownSkip(e, i, st.next);
          LexFromErrors(e, st.next, st.eu, toks + [st.tok], unset);
        }
      }
    }
  }

  /** Lexing fails exactly when the text holds a character no token
      accepts, and then reports "Unknown char" at the first such character. */
  lemma UnknownCharIff(e: string, unset: OpType)
    ensures Lex(e, unset).LexError? <==> exists k :: 0 <= k < |e| && !Known(e[k])
    ensures Lex(e, unset).LexError? ==>
      var p := Lex(e, unset).pos;
      && Lex(e, unset).msg == UNKNOWN_MSG
      && 0 <= p < |e| && !Known(e[p]) && forall k :: 0 <= k < p ==> Known(e[k])
  {
    LexFromErrors(e, 0, true, [], unset);
  }

  lemma {:induction false} ScanDigitsValue(e: string, i0: nat, i: nat)
    requires i0 <= i <= |e| && forall k :: i0 <= k < i ==> IsDigit(e[k])
    ensures var r := ScanDigits(e, i, Lexer.DigitsValue(e[i0..i]) as real);
      && (forall k :: i0 <= k < r.1 ==> IsDigit(e[k]))
      && r.0 == Lexer.DigitsValue(e[i0..r.1]) as real
    decreases |e| - i
  {
    if i < |e| && IsDigit(e[i]) {
      ScanDigitsStep(e, i0, i);
      ScanDigitsValue(e, i0, i + 1);
    } else {
      assert ScanDigits(e, i, Lexer.DigitsValue(e[i0..i]) as real) == (Lexer.DigitsValue(e[i0..i]) as real, i);
    }
  }

  /** One digit of the literal loop. */
  lemma ScanDigitsStep(e: string, i0: nat, i: nat)
    requires i0 <= i < |e| && forall k :: i0 <= k <= i ==> IsDigit(e[k])
    ensures ScanDigits(e, i, Lexer.DigitsValue(e[i0..i]) as real)
         == ScanDigits(e, i + 1, Lexer.DigitsValue(e[i0..i + 1]) as real)
  {
    Lexer.DigitsSnoc(e, i0, i);
  }

  /** A literal is the longest run of digits, read as a decimal integer. */
  lemma NumberValue(e: string, i: nat)
    requires i < |e| && IsDigit(e[i])
    ensures var r := ScanDigits(e, i, 0.0);
      r.0 == Lexer.DigitsValue(e[i..r.1]) as real && (r.1 == |e| || !IsDigit(e[r.1]))
  {
    assert e[i..i] == [];
    ScanDigitsValue(e, i, i);
  }

  /** A word is the longest run of letters; `t`, `sin`, `cos`, `abs`, `int`
      and `floor` are reserved and any other word names a variable. */
  lemma WordToken(e: string, i: nat, eu: bool, unset: OpType)
    requires i < |e| && IsAlpha(e[i])
    ensures var r := LexToken(e, i, eu, unset); var w := e[i..r.next];
      && r.Emit? && !r.eu && (r.next == |e| || !IsAlpha(e[r.next]))
      && (w == "t" ==> r.tok.kind == VarT)
      && (w == "int" || w == "floor" ==> r.tok.kind == Fun && r.tok.fun == Int)
      && (w !in {"t", "sin", "cos", "abs", "int", "floor"} ==> r.tok.kind == Identifier && r.tok.name == w)
  {
    var (name, j) := ScanLetters(e, i, []);
    assert name == e[i..j];
    assert !IsDigit(e[i]);
    assert LexToken(e, i, eu, unset) == Emit(Word(name, i, unset), j, false);
    WordKinds(name, i, unset);
  }

  lemma WordKinds(name: string, p: int, unset: OpType)
    ensures name == "t" ==> Word(name, p, unset).kind == VarT
    ensures name == "int" || name == "floor" ==> Word(name, p, unset).kind == Fun && Word(name, p, unset).fun == Int
    ensures name !in {"t", "sin", "cos", "abs", "int", "floor"} ==>
      Word(name, p, unset).kind == Identifier && Word(name, p, unset).name == name
  {
  }

  /** `-` and `!` where an operand is due: negation, and the complement
      (`!` is always the complement unless `!=` follows). */
  lemma UnaryOperators(e: string, i: nat, unset: OpType)
    requires i < |e|
    ensures e[i] == '-' ==> LexToken(e, i, true, unset) == Emit(OpTok(Neg, i), i + 1, true)
    ensures e[i] == '!' && (i + 1 == |e| || e[i + 1] != '=') ==>
      LexToken(e, i, true, unset) == Emit(OpTok(BitNot, i), i + 1, true)
  {
    if e[i] == '-' {
      UnaryMinus(e, i, unset);
    } else if e[i] == '!' && (i + 1 == |e| || e[i + 1] != '=') {
      UnaryBang(e, i, unset);
    }
  }

  lemma UnaryMinus(e: string, i: nat, unset: OpType)
    requires i < |e| && e[i] == '-'
    ensures LexToken(e, i, true, unset) == Emit(OpTok(Neg, i), i + 1, true)
  {
    assert OperatorAt(e, i, true) == Some((Neg, i + 1));
  }

  lemma UnaryBang(e: string, i: nat, unset: OpType)
    requires i < |e| && e[i] == '!' && (i + 1 == |e| || e[i + 1] != '=')
    ensures LexToken(e, i, true, unset) == Emit(OpTok(BitNot, i), i + 1, true)
  {
    if i + 1 < |e| {
      assert e[i..i + 2][1] == e[i + 1];
    }
    assert OperatorAt(e, i, true) == Some((BitNot, i + 1));
  }
}
