/** The tokenizer of `BytebeatExpression::Compile`, as functions.  Lexing
    reads the source left to right with an "expect an operand" flag; names
    other than `t` and the function names are allocated a variable slot, and
    string and array literals are appended to their pools. */
module Lexer {
  import opened Tokens
  import opened Chars
  import opened Wrappers
  import GlobalState

  /** Everything tokenizing may change: the variable table and memory and the
      string and array pools. */
  datatype Ctx = Ctx(vars: GlobalState.Vars, strings: seq<string>, arrays: seq<seq<real>>)

  /** The outcome of one token. */
  datatype Step = Emit(toks: seq<Token>, next: nat, eu: bool, ctx: Ctx) | Fail(msg: string)

  /** The outcome of lexing a whole expression; on an error the pools and
      variables allocated so far stay allocated. */
  datatype LexResult = Lexed(tokens: seq<Token>, ctx: Ctx) | LexError(msg: string, pos: int, ctx: Ctx)

  function UnexpectedMsg(c: char): string {
    "Unexpected token: '" + [c] + "'"
  }

  /** `funMap`. */
  function FunName(name: string): Option<FunType> {
    if name == "sin" then Some(Sin)
    else if name == "cos" then Some(Cos)
    else if name == "abs" then Some(Abs)
    else if name == "floor" then Some(Floor)
    else if name == "pow" then Some(Pow)
    else if name == "tan" then Some(Tan)
    else if name == "random" then Some(Random)
    else None
  }

  /** `doubleOps`. */
  function DoubleOp(two: string): Option<OpType> {
    if two == "<<" then Some(Shl)
    else if two == ">>" then Some(Shr)
    else if two == "<=" then Some(LE)
    else if two == ">=" then Some(GE)
    else if two == "==" then Some(EQ)
    else if two == "!=" then Some(NE)
    else None
  }

  /** `singleOps`. */
  function SingleOp(c: char): Option<OpType> {
    match c
    case '+' => Some(Add)
    case '-' => Some(Sub)
    case '*' => Some(Mul)
    case '/' => Some(Div)
    case '%' => Some(Mod)
    case '&' => Some(And)
    case '|' => Some(Or)
    case '^' => Some(Xor)
    case '<' => Some(LT)
    case '>' => Some(GT)
    case '=' => Some(Assign)
    case ',' => Some(Coma)
    case _ => None
  }

  predicate IsWordChar(c: char) {
    IsAlnum(c) || c == '_'
  }

  // ---------------------------------------------------------------- numbers

  /** The integer part of a number literal: digits folded as `v * 10 + d`. */
  function IntDigits(e: string, i: nat, v: real): (r: (real, nat))
    requires i <= |e|
    ensures i <= r.1 <= |e|
    ensures i < |e| && IsDigit(e[i]) ==> r.1 > i
    ensures forall k :: i <= k < r.1 ==> IsDigit(e[k])
    ensures r.1 == |e| || !IsDigit(e[r.1])
    ensures v >= 0.0 ==> r.0 >= 0.0
    decreases |e| - i
  {
    if i < |e| && IsDigit(e[i]) then IntDigits(e, i + 1, v * 10.0 + DigitValue(e[i]) as real)
    else (v, i)
  }

  /** The fraction of a number literal: each digit weighted by `frac`, which
      shrinks tenfold per digit. */
  function FracDigits(e: string, i: nat, v: real, frac: real): (r: (real, nat))
    requires i <= |e|
    ensures i <= r.1 <= |e|
    ensures forall k :: i <= k < r.1 ==> IsDigit(e[k])
    ensures r.1 == |e| || !IsDigit(e[r.1])
    ensures v >= 0.0 && frac >= 0.0 ==> r.0 >= 0.0
    decreases |e| - i
  {
    if i < |e| && IsDigit(e[i]) then
      MulNonNegative(DigitValue(e[i]) as real, frac);
      FracDigits(e, i + 1, v + DigitValue(e[i]) as real * frac, frac * 0.1)
    else (v, i)
  }

  lemma MulNonNegative(a: real, b: real)
    ensures a >= 0.0 && b >= 0.0 ==> a * b >= 0.0
  {
  }

  /** A number literal starting at a digit: digits, then optionally `.` and digits. */
  function ScanNumber(e: string, i: nat): (r: (real, nat))
    requires i < |e| && IsDigit(e[i])
    ensures i < r.1 <= |e|
    ensures r.0 >= 0.0
  {
    var (v, j) := IntDigits(e, i, 0.0);
    if j < |e| && e[j] == '.' then FracDigits(e, j + 1, v, 0.1) else (v, j)
  }

  // ---------------------------------------------------------------- words

  /** The end of the run of letters, digits and underscores starting at `i`. */
  function WordEnd(e: string, i: nat): (j: nat)
    requires i <= |e|
    ensures i <= j <= |e|
    ensures forall k :: i <= k < j ==> IsWordChar(e[k])
    ensures j == |e| || !IsWordChar(e[j])
    decreases |e| - i
  {
    if i < |e| && IsWordChar(e[i]) then WordEnd(e, i + 1) else i
  }

  /** The first index at or after `j` that is not whitespace. */
  function SkipSpaces(e: string, j: nat): (k: nat)
    requires j <= |e|
    ensures j <= k <= |e|
    ensures forall m :: j <= m < k ==> IsSpace(e[m])
    ensures k == |e| || !IsSpace(e[k])
    decreases |e| - j
  {
    if j < |e| && IsSpace(e[j]) then SkipSpaces(e, j + 1) else j
  }

  /** Whether the name ending at `j` is the target of an assignment: the next
      non-blank character is `=` and not the start of `==`. */
  predicate AssignFollows(e: string, j: nat)
    requires j <= |e|
  {
    var k := SkipSpaces(e, j);
    k < |e| && e[k] == '=' && (k + 1 >= |e| || e[k + 1] != '=')
  }

  /** A word: `t`, a function name, or a variable, which is allocated a slot. */
  function LexWord(e: string, i: nat, ctx: Ctx): (r: Step)
    requires i < |e| && (IsAlpha(e[i]) || e[i] == '_')
    ensures r.Emit? && r.next == WordEnd(e, i) && !r.eu && |r.toks| == 1
  {
    var j := WordEnd(e, i);
    var name := e[i..j];
    if name == "t" then Emit([KindTok(VarT, i)], j, false, ctx)
    else if FunName(name).Some? then Emit([FunTok(FunName(name).value, i)], j, false, ctx)
    else
      var (vars', id) := GlobalState.AllocVar(ctx.vars, name);
      Emit([VarTok(id, i, AssignFollows(e, j))], j, false, ctx.(vars := vars'))
  }

  // ---------------------------------------------------------------- literals

  /** The first index at or after `i` holding `q`, or `|e|`. */
  function QuoteEnd(e: string, i: nat, q: char): (j: nat)
    requires i <= |e|
    ensures i <= j <= |e|
    ensures forall k :: i <= k < j ==> e[k] != q
    ensures j == |e| || e[j] == q
    decreases |e| - i
  {
    if i < |e| && e[i] != q then QuoteEnd(e, i + 1, q) else i
  }

  /** A quoted string: everything up to the matching quote, or to the end. */
  function LexString(e: string, i: nat, ctx: Ctx): (r: Step)
    requires i < |e| && (e[i] == '\'' || e[i] == '"')
    ensures r.Emit? && !r.eu && i < r.next <= |e|
    ensures r.ctx.strings == ctx.strings + [e[i + 1..QuoteEnd(e, i + 1, e[i])]]
    ensures r.toks == [IndexedTok(String, |ctx.strings|, i)]
  {
    var j := QuoteEnd(e, i + 1, e[i]);
    Emit([IndexedTok(String, |ctx.strings|, i)], if j < |e| then j + 1 else j, false,
         ctx.(strings := ctx.strings + [e[i + 1..j]]))
  }

  function DigitEnd(e: string, i: nat): (j: nat)
    requires i <= |e|
    ensures i <= j <= |e|
    ensures forall k :: i <= k < j ==> IsDigit(e[k])
    decreases |e| - i
  {
    if i < |e| && IsDigit(e[i]) then DigitEnd(e, i + 1) else i
  }

  /** The value of a run of decimal digits. */
  function DigitsValue(s: string): (v: nat)
    requires forall k :: 0 <= k < |s| ==> IsDigit(s[k])
  {
    if s == [] then 0 else DigitsValue(s[..|s| - 1]) * 10 + DigitValue(s[|s| - 1])
  }

  function Pow10(n: nat): (p: real)
    ensures p >= 1.0
  {
    if n == 0 then 1.0 else 10.0 * Pow10(n - 1)
  }

  /** The decimal exponent `e[+-]digits` at `k`, if there is one: its value and end. */
  function Exponent(e: string, k: nat): (r: Option<(int, nat)>)
    requires k <= |e|
    ensures r.Some? ==> k < r.value.1 <= |e|
  {
    if k < |e| && (e[k] == 'e' || e[k] == 'E') then
      var f := if k + 1 < |e| && (e[k + 1] == '+' || e[k + 1] == '-') then k + 2 else k + 1;
      var g := DigitEnd(e, f);
      if g > f then
        var x: int := DigitsValue(e[f..g]);
        Some((if e[k + 1] == '-' then -x else x, g))
      else None
    else None
  }

  /** `stod` on `e[i..]` for decimal notation: an optional sign, digits with
      an optional `.`, at least one digit, and an optional exponent.  The
      value and the number of characters read, or `None` where `stod` throws. */
  function ParseDecimal(e: string, i: nat): (r: Option<(real, nat)>)
    requires i < |e|
    ensures r.Some? ==> r.value.1 > 0 && i + r.value.1 <= |e|
  {
    var a := if e[i] == '-' || e[i] == '+' then i + 1 else i;
    match ReadUnsigned(e, a)
    case None => None
    case Some((v, g)) => Some((if e[i] == '-' then -v else v, g - i))
  }

  /** The unsigned part of a decimal literal at `a`: its value and end. */
  function ReadUnsigned(e: string, a: nat): (r: Option<(real, nat)>)
    requires a <= |e|
    ensures r.Some? ==> a < r.value.1 <= |e|
  {
    var b := DigitEnd(e, a);
    var c := if b < |e| && e[b] == '.' then b + 1 else b;
    var d := if b < |e| && e[b] == '.' then DigitEnd(e, c) else b;
    if b == a && d == c then None
    else
      var m := DigitsValue(e[a..b]) as real + if c > b then FracRun(e, c) else 0.0;
      match Exponent(e, d)
      case None => Some((m, d))
      case Some((x, g)) => Some((Scale(m, x), g))
  }

  /** The value of `0.` followed by the digit run at `i`. */
  function FracRun(e: string, i: nat): real
    requires i <= |e|
    decreases |e| - i
  {
    if i < |e| && IsDigit(e[i]) then (DigitValue(e[i]) as real + FracRun(e, i + 1)) / 10.0 else 0.0
  }

  /** `m` times ten to the power `x`. */
  function Scale(m: real, x: int): real {
    if x >= 0 then m * Pow10(x) else m / Pow10(-x)
  }

  // ---------------------------------------------------------------- the values read

  /** The digit loop of the integer part reads the decimal value of the
      digit run: continuing a run that started at `s` ends at `DigitEnd`
      with the value of the whole run. */
  lemma {:induction false} IntDigitsValue(e: string, s: nat, i: nat)
    requires s <= i <= |e| && forall k :: s <= k < i ==> IsDigit(e[k])
    ensures var r := IntDigits(e, i, DigitsValue(e[s..i]) as real);
      && r.1 == DigitEnd(e, i)
      && (forall k :: s <= k < r.1 ==> IsDigit(e[k]))
      && r.0 == DigitsValue(e[s..r.1]) as real
    decreases |e| - i
  {
    if i < |e| && IsDigit(e[i]) {
      IntDigitsStep(e, s, i);
      IntDigitsValue(e, s, i + 1);
    } else {
      assert IntDigits(e, i, DigitsValue(e[s..i]) as real) == (DigitsValue(e[s..i]) as real, i);
    }
  }

  /** One digit of the integer loop. */
  lemma IntDigitsStep(e: string, s: nat, i: nat)
    requires s <= i < |e| && forall k :: s <= k <= i ==> IsDigit(e[k])
    ensures IntDigits(e, i, DigitsValue(e[s..i]) as real) == IntDigits(e, i + 1, DigitsValue(e[s..i + 1]) as real)
    ensures DigitEnd(e, i) == DigitEnd(e, i + 1)
  {
    DigitsSnoc(e, s, i);
  }

  /** One more digit multiplies the value by ten and adds the digit. */
  lemma DigitsSnoc(e: string, s: nat, i: nat)
    requires s <= i < |e| && forall k :: s <= k <= i ==> IsDigit(e[k])
    ensures DigitsValue(e[s..i + 1]) as real == DigitsValue(e[s..i]) as real * 10.0 + DigitValue(e[i]) as real
  {
    assert e[s..i + 1][..i - s] == e[s..i];
  }

  /** The digits of the run at `i` weighted `f`, `f / 10`, `f / 100`, ... */
  function FracSum(e: string, i: nat, f: real): real
    requires i <= |e|
    decreases |e| - i
  {
    if i < |e| && IsDigit(e[i]) then DigitValue(e[i]) as real * f + FracSum(e, i + 1, f * 0.1) else 0.0
  }

  /** The fraction loop adds the weighted digits of the run to `v` and
      stops at its end. */
  lemma {:induction false} FracDigitsSum(e: string, i: nat, v: real, f: real)
    requires i <= |e|
    ensures FracDigits(e, i, v, f).0 == v + FracSum(e, i, f)
    ensures FracDigits(e, i, v, f).1 == DigitEnd(e, i)
    decreases |e| - i
  {
    if i < |e| && IsDigit(e[i]) {
      FracDigitsSum(e, i + 1, v + DigitValue(e[i]) as real * f, f * 0.1);
    }
  }

  /** The weighted digits are `f * 10` times the value of `0.` followed by
      the run. */
  lemma {:induction false} FracSumValue(e: string, i: nat, f: real)
    requires i <= |e|
    ensures FracSum(e, i, f) == f * 10.0 * FracRun(e, i)
    decreases |e| - i
  {
    if i < |e| && IsDigit(e[i]) {
      var d, t := DigitValue(e[i]) as real, FracRun(e, i + 1);
      FracSumValue(e, i + 1, f * 0.1);
      FracRegroup(d, f, t);
    }
  }

  lemma FracRegroup(d: real, f: real, t: real)
    ensures d * f + f * 0.1 * 10.0 * t == f * 10.0 * ((d + t) / 10.0)
  {
  }

  /** The value `ScanNumber` reads: the digit run at `i` and, after a `.`,
      the digit run that follows as the fraction. */
  lemma ScanNumberValue(e: string, i: nat)
    requires i < |e| && IsDigit(e[i])
    ensures var j := DigitEnd(e, i);
      j < |e| && e[j] == '.' ==>
        && ScanNumber(e, i).0 == DigitsValue(e[i..j]) as real + FracRun(e, j + 1)
        && ScanNumber(e, i).1 == DigitEnd(e, j + 1)
    ensures var j := DigitEnd(e, i);
      !(j < |e| && e[j] == '.') ==> ScanNumber(e, i) == (DigitsValue(e[i..j]) as real, j)
  {
    assert e[i..i] == [];
    assert DigitsValue(e[i..i]) as real == 0.0;
    IntDigitsValue(e, i, i);
    var j := DigitEnd(e, i);
    var v := DigitsValue(e[i..j]) as real;
    assert IntDigits(e, i, 0.0) == (v, j);
    if j < |e| && e[j] == '.' {
      FracDigitsSum(e, j + 1, v, 0.1);
      FracSumValue(e, j + 1, 0.1);
      assert ScanNumber(e, i) == FracDigits(e, j + 1, v, 0.1);
    }
  }


  /** Without a sign and an exponent, `stod` reads the same number as the
      tokenizer's digit loops. */
  lemma ParseDecimalAgrees(e: string, i: nat)
    requires i < |e| && IsDigit(e[i]) && Exponent(e, ScanNumber(e, i).1).None?
    ensures ParseDecimal(e, i) == Some((ScanNumber(e, i).0, ScanNumber(e, i).1 - i))
  {
    ScanNumberValue(e, i);
  }

  /** A leading `-` negates the number read, a leading `+` changes
      nothing, and the sign counts as one more character. */
  lemma ParseDecimalSign(e: string, i: nat)
    requires i + 1 < |e| && (e[i] == '-' || e[i] == '+') && e[i + 1] != '-' && e[i + 1] != '+'
    ensures ParseDecimal(e, i) == match ParseDecimal(e, i + 1)
      case None => None
      case Some((v, n)) => Some((if e[i] == '-' then -v else v, n + 1))
  {
  }

  /** `stod` on a few literals: a fraction, a signed fraction without
      whole digits, an exponent, and a lone point. */
  lemma ParseDecimalFraction()
    ensures ParseDecimal("2.5", 0) == Some((2.5, 3))
  {
    var e := "2.5";
    assert e[0..1] == "2" && "2"[..0] == [] && DigitsValue("2") == 2;
    assert DigitEnd(e, 0) == 1 && DigitEnd(e, 2) == 3;
    assert FracRun(e, 3) == 0.0 && FracRun(e, 2) == 0.5;
    assert Exponent(e, 3) == None;
    assert ReadUnsigned(e, 0) == Some((2.5, 3));
  }

  lemma ParseDecimalSignedFraction()
    ensures ParseDecimal("-.5]", 0) == Some((-0.5, 3))
  {
    var e := "-.5]";
    assert e[1..1] == [] && DigitsValue([]) == 0;
    assert DigitEnd(e, 1) == 1 && DigitEnd(e, 2) == 3;
    assert FracRun(e, 3) == 0.0 && FracRun(e, 2) == 0.5;
    assert Exponent(e, 3) == None;
    assert ReadUnsigned(e, 1) == Some((0.5, 3));
  }

  lemma ParseDecimalExponent()
    ensures ParseDecimal("15e-1", 0) == Some((1.5, 5))
  {
    var e := "15e-1";
    assert e[0..2] == "15" && "15"[..1] == "1" && e[4..5] == "1";
    assert DigitEnd(e, 0) == 2 && DigitEnd(e, 4) == 5;
    assert "1"[..0] == [] && DigitsValue("1") == 1 && DigitsValue("15") == 15;
    assert Exponent(e, 2) == Some((-1, 5));
    assert ReadUnsigned(e, 0) == Some((Scale(15.0, -1), 5));
    assert Pow10(1) == 10.0;
  }

  lemma ParseDecimalPoint()
    ensures ParseDecimal(".]", 0) == None
  {
  }


  /** The elements of an array literal, read up to the closing `]` or the end:
      blanks and commas are skipped, numbers are read with `stod`, and any
      other character (or a number `stod` rejects) is skipped. */
  function ScanArray(e: string, i: nat, arr: seq<real>): (r: (seq<real>, nat))
    requires i <= |e|
    ensures i <= r.1 <= |e|
    ensures r.1 == |e| || e[r.1] == ']'
    ensures |arr| <= |r.0| && r.0[..|arr|] == arr
    decreases |e| - i
  {
    if i >= |e| || e[i] == ']' then (arr, i)
    else
      var (arr', i') := ArrayStep(e, i, arr);
      ScanArray(e, i', arr')
  }

  /** One step of the array scan, at a character other than `]`: a number
      is appended, anything else is skipped. */
  function ArrayStep(e: string, i: nat, arr: seq<real>): (r: (seq<real>, nat))
    requires i < |e|
    ensures i < r.1 <= |e|
    ensures r.0 == arr || (|r.0| == |arr| + 1 && r.0[..|arr|] == arr)
  {
    if IsSpace(e[i]) || e[i] == ',' then (arr, i + 1)
    else if IsDigit(e[i]) || e[i] == '-' || e[i] == '.' then
      match ParseDecimal(e, i)
      case Some((v, n)) => (arr + [v], i + n)
      case None => (arr, i + 1)
    else (arr, i + 1)
  }

  /** `[` is an array literal where an operand is expected, and the start of
      an index `x[i]` (read as `Index (`) after an operand. */
  function LexBracket(e: string, i: nat, eu: bool, ctx: Ctx): (r: Step)
    requires i < |e| && e[i] == '['
    ensures r.Emit? && i < r.next <= |e|
  {
    if eu then
      var (arr, j) := ScanArray(e, i + 1, []);
      Emit([IndexedTok(ArrayLiteral, |ctx.arrays| + ARRAY_ID_OFFSET, i)],
           if j < |e| then j + 1 else j, false, ctx.(arrays := ctx.arrays + [arr]))
    else
      Emit([OpTok(Index, i), KindTok(LParen, i)], i + 1, true, ctx)
  }

  /** `.charCodeAt`, unary `-`/`!`, then the two-character operators, then the
      one-character ones; anything else is an error. */
  function LexOperator(e: string, i: nat, eu: bool, ctx: Ctx): (r: Step)
    requires i < |e|
    ensures r.Emit? ==> i < r.next <= |e| && r.ctx == ctx && r.eu && |r.toks| == 1 && r.toks[0].kind == Op
  {
    var c := e[i];
    if c == '.' && i + 10 < |e| && e[i..i + 11] == ".charCodeAt" then
      Emit([OpTok(CharCodeAt, i)], i + 11, true, ctx)
    else if (c == '-' || c == '!') && eu then
      Emit([OpTok(if c == '-' then Neg else BitNot, i)], i + 1, eu, ctx)
    else if i + 1 < |e| && DoubleOp(e[i..i + 2]).Some? then
      Emit([OpTok(DoubleOp(e[i..i + 2]).value, i)], i + 2, true, ctx)
    else if SingleOp(c).Some? then
      Emit([OpTok(SingleOp(c).value, i)], i + 1, true, ctx)
    else Fail(UnexpectedMsg(c))
  }

  /** One token at a non-blank position `i`. */
  function LexToken(e: string, i: nat, eu: bool, ctx: Ctx): (r: Step)
    requires i < |e|
    ensures r.Emit? ==> i < r.next <= |e|
  {
    var c := e[i];
    if IsDigit(c) then
      var (v, j) := ScanNumber(e, i);
      Emit([NumberTok(v, i)], j, false, ctx)
    else if IsAlpha(c) || c == '_' then LexWord(e, i, ctx)
    else if c == '\'' || c == '"' then LexString(e, i, ctx)
    else if c == '[' then LexBracket(e, i, eu, ctx)
    else if c == ']' then Emit([KindTok(RParen, i)], i + 1, false, ctx)
    else if c == '(' then Emit([KindTok(LParen, i)], i + 1, true, ctx)
    else if c == ')' then Emit([KindTok(RParen, i)], i + 1, false, ctx)
    else if c == '?' then Emit([KindTok(Quest, i)], i + 1, true, ctx)
    else if c == ':' then Emit([KindTok(Colon, i)], i + 1, true, ctx)
    else if c == '~' then Emit([OpTok(BitNot, i)], i + 1, true, ctx)
    else LexOperator(e, i, eu, ctx)
  }

  /** The tokenizer loop from position `i`, with the tokens `toks` read so far. */
  function LexFrom(e: string, i: nat, eu: bool, toks: seq<Token>, ctx: Ctx): LexResult
    requires i <= |e|
    decreases |e| - i
  {
    if i == |e| then Lexed(toks, ctx)
    else if IsSpace(e[i]) then LexFrom(e, i + 1, eu, toks, ctx)
    else match LexToken(e, i, eu, ctx)
      case Fail(msg) => LexError(msg, i, ctx)
      case Emit(ts, j, eu', ctx') => LexFrom(e, j, eu', toks + ts, ctx')
  }

  function Lex(e: string, ctx: Ctx): LexResult {
    LexFrom(e, 0, true, [], ctx)
  }

  // ---------------------------------------------------------------- properties

  /** The characters no token can start with at `i` (given the flag `eu`),
      stated without reference to the tokenizer. */
  predicate Unexpected(e: string, i: nat, eu: bool)
    requires i < |e|
  {
    var c := e[i];
    && !IsWordChar(c)
    && c !in "'\"[]()?:~+-*/%&|^<>=,"
    && !(c == '.' && i + 10 < |e| && e[i..i + 11] == ".charCodeAt")
    && !(c == '!' && (eu || (i + 1 < |e| && e[i + 1] == '=')))
  }

  /** A non-blank character fails exactly when it is unexpected, and the
      message quotes it. */
  lemma UnexpectedIff(e: string, i: nat, eu: bool, ctx: Ctx)
    requires i < |e| && !IsSpace(e[i])
    ensures LexToken(e, i, eu, ctx).Fail? <==> Unexpected(e, i, eu)
    ensures LexToken(e, i, eu, ctx).Fail? ==> LexToken(e, i, eu, ctx).msg == UnexpectedMsg(e[i])
  {
    LexTokenCases(e, i, eu, ctx);
    OperatorFailIff(e, i, eu, ctx);
  }

  /** A word character, a quote, a bracket, a parenthesis, `?`, `:` or `~`
      always starts a token; any other character is left to `LexOperator`. */
  lemma LexTokenCases(e: string, i: nat, eu: bool, ctx: Ctx)
    requires i < |e|
    ensures IsWordChar(e[i]) || e[i] in "'\"[]()?:~" ==> LexToken(e, i, eu, ctx).Emit?
    ensures !IsWordChar(e[i]) && e[i] !in "'\"[]()?:~" ==> LexToken(e, i, eu, ctx) == LexOperator(e, i, eu, ctx)
  {
    var c := e[i];
    if !IsWordChar(c) && c !in "'\"[]()?:~" {
      assert !IsAlpha(c) && !IsDigit(c);
    }
  }

  /** The operator step fails exactly on a character that is no operator,
      not `.charCodeAt`, and not a `!` read as a negation or as `!=`. */
  lemma OperatorFailIff(e: string, i: nat, eu: bool, ctx: Ctx)
    requires i < |e|
    ensures LexOperator(e, i, eu, ctx).Fail? <==>
      && e[i] !in "+-*/%&|^<>=,"
      && !(e[i] == '.' && i + 10 < |e| && e[i..i + 11] == ".charCodeAt")
      && !(e[i] == '!' && (eu || (i + 1 < |e| && e[i + 1] == '=')))
    ensures LexOperator(e, i, eu, ctx).Fail? ==> LexOperator(e, i, eu, ctx).msg == UnexpectedMsg(e[i])
  {
    if i + 1 < |e| {
      var two := e[i..i + 2];
      assert two[0] == e[i] && two[1] == e[i + 1];
    }
  }

  /** A two-character operator wins over its one-character prefix. */
  lemma TwoCharOperatorFirst(e: string, i: nat, eu: bool, ctx: Ctx)
    requires i + 1 < |e| && DoubleOp(e[i..i + 2]).Some?
    requires !(eu && e[i] == '!')
    ensures LexToken(e, i, eu, ctx) == Emit([OpTok(DoubleOp(e[i..i + 2]).value, i)], i + 2, true, ctx)
  {
    var two := e[i..i + 2];
    assert two[0] == e[i];
    assert e[i] in "<>=!";
  }

  /** In operand position `-` is negation and `!` is bitwise not. */
  lemma UnaryOperands(e: string, i: nat, ctx: Ctx)
    requires i < |e| && (e[i] == '-' || e[i] == '!')
    ensures LexToken(e, i, true, ctx) == Emit([OpTok(if e[i] == '-' then Neg else BitNot, i)], i + 1, true, ctx)
  {
  }

  /** Lexing only ever adds: pool entries and variables already present keep
      their places and values. */
  ghost predicate Grows(c: Ctx, d: Ctx) {
    && |c.strings| <= |d.strings| && d.strings[..|c.strings|] == c.strings
    && |c.arrays| <= |d.arrays| && d.arrays[..|c.arrays|] == c.arrays
    && |c.vars.memory| <= |d.vars.memory| && d.vars.memory[..|c.vars.memory|] == c.vars.memory
    && (forall n :: n in c.vars.table ==> n in d.vars.table && d.vars.table[n] == c.vars.table[n])
  }

  lemma GrowsTrans(a: Ctx, b: Ctx, c: Ctx)
    requires Grows(a, b) && Grows(b, c)
    ensures Grows(a, c)
  {
    assert c.strings[..|a.strings|] == c.strings[..|b.strings|][..|a.strings|];
    assert c.arrays[..|a.arrays|] == c.arrays[..|b.arrays|][..|a.arrays|];
    assert c.vars.memory[..|a.vars.memory|] == c.vars.memory[..|b.vars.memory|][..|a.vars.memory|];
  }

  lemma GrowsRefl(c: Ctx)
    ensures Grows(c, c)
  {
    assert c.strings[..|c.strings|] == c.strings;
    assert c.arrays[..|c.arrays|] == c.arrays;
    assert c.vars.memory[..|c.vars.memory|] == c.vars.memory;
  }

  /** The character a token of each kind is read from. */
  predicate TokenAt(e: string, t: Token) {
    && 0 <= t.pos < |e|
    && match t.kind
       case Number => IsDigit(e[t.pos])
       case VarT => e[t.pos] == 't'
       case Fun | Identifier | VarPtr => IsAlpha(e[t.pos]) || e[t.pos] == '_'
       case String => e[t.pos] == '\'' || e[t.pos] == '"'
       case ArrayLiteral => e[t.pos] == '['
       case LParen => e[t.pos] == '(' || e[t.pos] == '['
       case RParen => e[t.pos] == ')' || e[t.pos] == ']'
       case Quest => e[t.pos] == '?'
       case Colon => e[t.pos] == ':'
       case Op => e[t.pos] in "+-*/%&|^<>=,!~.["
  }

  /** Every pool id and variable slot a token names exists in `ctx`. */
  ghost predicate Indexed(t: Token, ctx: Ctx) {
    && (t.kind == String ==> 0 <= t.index < |ctx.strings|)
    && (t.kind == ArrayLiteral ==> 0 <= t.index - ARRAY_ID_OFFSET < |ctx.arrays|)
    && (t.kind in {Identifier, VarPtr} ==> 0 <= t.index < |ctx.vars.memory|)
  }

  lemma IndexedGrows(toks: seq<Token>, c: Ctx, d: Ctx)
    requires Grows(c, d)
    requires forall k :: 0 <= k < |toks| ==> Indexed(toks[k], c)
    ensures forall k :: 0 <= k < |toks| ==> Indexed(toks[k], d)
  {
  }

  /** What a word step produces. */
  lemma LexWordFacts(e: string, i: nat, ctx: Ctx)
    requires i < |e| && (IsAlpha(e[i]) || e[i] == '_') && GlobalState.WellFormed(ctx.vars)
    ensures Grows(ctx, LexWord(e, i, ctx).ctx)
    ensures GlobalState.WellFormed(LexWord(e, i, ctx).ctx.vars)
    ensures forall t :: t in LexWord(e, i, ctx).toks ==>
      t.pos == i && TokenAt(e, t) && Indexed(t, LexWord(e, i, ctx).ctx)
  {
    var j := WordEnd(e, i);
    var name := e[i..j];
    if name != "t" && FunName(name).None? {
      GlobalState.AllocVarWellFormed(ctx.vars, name);
      var r := GlobalState.AllocVar(ctx.vars, name);
      assert r.0.memory[..|ctx.vars.memory|] == ctx.vars.memory;
    } else if name == "t" {
      assert e[i] == name[0];
    }
  }

  /** The facts `LexTokenFacts` states, for one step `r` taken at `i`. */
  ghost predicate StepFacts(e: string, i: nat, ctx: Ctx, r: Step)
    requires r.Emit?
  {
    && Grows(ctx, r.ctx)
    && GlobalState.WellFormed(r.ctx.vars)
    && forall t :: t in r.toks ==> t.pos == i && TokenAt(e, t) && Indexed(t, r.ctx)
  }

  lemma LexLiteralFacts(e: string, i: nat, eu: bool, ctx: Ctx)
    requires i < |e| && GlobalState.WellFormed(ctx.vars)
    requires e[i] == '\'' || e[i] == '"' || e[i] == '['
    ensures e[i] != '[' ==> StepFacts(e, i, ctx, LexString(e, i, ctx))
    ensures e[i] == '[' ==> StepFacts(e, i, ctx, LexBracket(e, i, eu, ctx))
  {
    if e[i] == '[' {
      var r := LexBracket(e, i, eu, ctx);
      assert r.ctx.arrays[..|ctx.arrays|] == ctx.arrays;
    } else {
      var r := LexString(e, i, ctx);
      assert r.ctx.strings[..|ctx.strings|] == ctx.strings;
    }
  }

  lemma LexOperatorFacts(e: string, i: nat, eu: bool, ctx: Ctx)
    requires i < |e| && GlobalState.WellFormed(ctx.vars)
    requires !IsWordChar(e[i]) && e[i] !in "'\"[]()?:~"
    requires LexOperator(e, i, eu, ctx).Emit?
    ensures StepFacts(e, i, ctx, LexOperator(e, i, eu, ctx))
  {
  }

  /** A number leaves the context as it is. */
  lemma LexNumberFacts(e: string, i: nat, eu: bool, ctx: Ctx)
    requires i < |e| && GlobalState.WellFormed(ctx.vars) && IsDigit(e[i])
    ensures StepFacts(e, i, ctx, LexToken(e, i, eu, ctx))
  {
    GrowsRefl(ctx);
    var (v, j) := ScanNumber(e, i);
    assert LexToken(e, i, eu, ctx) == Emit([NumberTok(v, i)], j, false, ctx);
  }

  /** One of `]()?:~` leaves the context as it is. */
  lemma LexPunctFacts(e: string, i: nat, eu: bool, ctx: Ctx)
    requires i < |e| && GlobalState.WellFormed(ctx.vars) && e[i] in "]()?:~"
    ensures StepFacts(e, i, ctx, LexToken(e, i, eu, ctx))
  {
    GrowsRefl(ctx);
    var c := e[i];
    assert !IsDigit(c) && !IsAlpha(c);
    var r := LexToken(e, i, eu, ctx);
    assert r.ctx == ctx && |r.toks| == 1 && r.toks[0].pos == i;
  }

  /** What one token step produces. */
  lemma LexTokenFacts(e: string, i: nat, eu: bool, ctx: Ctx)
    requires i < |e| && GlobalState.WellFormed(ctx.vars)
    requires LexToken(e, i, eu, ctx).Emit?
    ensures StepFacts(e, i, ctx, LexToken(e, i, eu, ctx))
  {
    var c := e[i];
    if IsDigit(c) {
      LexNumberFacts(e, i, eu, ctx);
    } else if IsAlpha(c) || c == '_' {
      LexWordFacts(e, i, ctx);
      assert LexToken(e, i, eu, ctx) == LexWord(e, i, ctx);
    } else if c == '\'' || c == '"' {
      LexLiteralFacts(e, i, eu, ctx);
      assert LexToken(e, i, eu, ctx) == LexString(e, i, ctx);
    } else if c == '[' {
      LexLiteralFacts(e, i, eu, ctx);
      assert LexToken(e, i, eu, ctx) == LexBracket(e, i, eu, ctx);
    } else if c in "]()?:~" {
      LexPunctFacts(e, i, eu, ctx);
    } else {
      LexOperatorFacts(e, i, eu, ctx);
      assert LexToken(e, i, eu, ctx) == LexOperator(e, i, eu, ctx);
    }
  }

  /** The tokens of a successful lex, in order: each is read from the
      character at its position, the positions never decrease, and every id it
      names is allocated; lexing only adds to the context. */
  lemma {:induction false} LexFromFacts(e: string, i: nat, eu: bool, toks: seq<Token>, ctx: Ctx, ctx0: Ctx)
    requires i <= |e| && GlobalState.WellFormed(ctx.vars) && Grows(ctx0, ctx)
    requires forall k :: 0 <= k < |toks| ==> TokenAt(e, toks[k]) && toks[k].pos < i && Indexed(toks[k], ctx)
    requires forall a, b :: 0 <= a < b < |toks| ==> toks[a].pos <= toks[b].pos
    ensures Grows(ctx0, LexFrom(e, i, eu, toks, ctx).ctx)
    ensures GlobalState.WellFormed(LexFrom(e, i, eu, toks, ctx).ctx.vars)
    ensures LexFrom(e, i, eu, toks, ctx).Lexed? ==>
      var ts := LexFrom(e, i, eu, toks, ctx).tokens;
      var c := LexFrom(e, i, eu, toks, ctx).ctx;
      && (forall k :: 0 <= k < |ts| ==> TokenAt(e, ts[k]) && Indexed(ts[k], c))
      && (forall a, b :: 0 <= a < b < |ts| ==> ts[a].pos <= ts[b].pos)
    ensures LexFrom(e, i, eu, toks, ctx).LexError? ==>
      var p := LexFrom(e, i, eu, toks, ctx).pos;
      && i <= p < |e|
      && LexFrom(e, i, eu, toks, ctx).msg == UnexpectedMsg(e[p])
      && Unexpected(e, p, false)
    decreases |e| - i
  {
    if i == |e| {
    } else if IsSpace(e[i]) {
      LexFromFacts(e, i + 1, eu, toks, ctx, ctx0);
      assert LexFrom(e, i, eu, toks, ctx) == LexFrom(e, i + 1, eu, toks, ctx);
    } else {
      var r := LexToken(e, i, eu, ctx);
      UnexpectedIff(e, i, eu, ctx);
      if r.Emit? {
        LexTokenFacts(e, i, eu, ctx);
        GrowsTrans(ctx0, ctx, r.ctx);
        IndexedGrows(toks, ctx, r.ctx);
        var ts := toks + r.toks;
        assert forall k :: 0 <= k < |ts| ==> TokenAt(e, ts[k]) && ts[k].pos < r.next && Indexed(ts[k], r.ctx) by {
          forall k | 0 <= k < |ts| ensures TokenAt(e, ts[k]) && ts[k].pos < r.next && Indexed(ts[k], r.ctx) {
            if k >= |toks| {
              assert ts[k] in r.toks;
            }
          }
        }
        assert forall a, b :: 0 <= a < b < |ts| ==> ts[a].pos <= ts[b].pos by {
          forall a, b | 0 <= a < b < |ts| ensures ts[a].pos <= ts[b].pos {
            if b >= |toks| {
              assert ts[b] in r.toks;
              if a >= |toks| {
                assert ts[a] in r.toks;
              }
            }
          }
        }
        LexFromFacts(e, r.next, r.eu, ts, r.ctx, ctx0);
        assert LexFrom(e, i, eu, toks, ctx) == LexFrom(e, r.next, r.eu, ts, r.ctx);
      }
    }
  }

  /** `Lex` on a well-formed variable state: see `LexFromFacts`. */
  lemma LexFacts(e: string, ctx: Ctx)
    requires GlobalState.WellFormed(ctx.vars)
    ensures Grows(ctx, Lex(e, ctx).ctx)
    ensures GlobalState.WellFormed(Lex(e, ctx).ctx.vars)
    ensures Lex(e, ctx).Lexed? ==>
      var ts := Lex(e, ctx).tokens;
      && (forall k :: 0 <= k < |ts| ==> TokenAt(e, ts[k]) && Indexed(ts[k], Lex(e, ctx).ctx))
      && (forall a, b :: 0 <= a < b < |ts| ==> ts[a].pos <= ts[b].pos)
    ensures Lex(e, ctx).LexError? ==>
      var p := Lex(e, ctx).pos;
      0 <= p < |e| && Lex(e, ctx).msg == UnexpectedMsg(e[p]) && Unexpected(e, p, false)
  {
    LexFromFacts(e, 0, true, [], ctx, ctx);
    assert Lex(e, ctx) == LexFrom(e, 0, true, [], ctx);
  }
}
