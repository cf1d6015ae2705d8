/** `FormatCode(code, maxChars)` (`bytebeat-player/Utils/Utils.cpp`): reads
    the code line by line and cuts every line longer than the width into
    pieces, preferably just after a break character near the end of the
    allowed width.  The width is `maxChars`, but at least 20. */
module CodeFormat {
  import opened Wrappers
  import Getline

  /** Characters after which a long line may be cut. */
  predicate IsBreakChar(c: char) {
    || c == ',' || c == ';' || c == '{' || c == '}' || c == '+' || c == '-' || c == '*'
    || c == '/' || c == '&' || c == '|' || c == '^' || c == '?' || c == ':'
  }

  /** `max(maxChars, 20)`. */
  function Width(maxChars: int): (w: nat)
    ensures w >= 20 && w >= maxChars && (w == 20 || w == maxChars)
  {
    if maxChars > 20 then maxChars else 20
  }

  /** `(int)(w * 0.6)`: the lowest index the search for a break looks at. */
  function SearchStart(w: nat): nat {
    w * 3 / 5
  }

  /** The search loop for a break character, from index `k` down to `lo`. */
  function LastBreak(line: string, k: int, lo: nat): (r: Option<nat>)
    requires lo <= k + 1 && k < |line|
    ensures r.Some? ==> lo <= r.value <= k
    decreases k + 1 - lo
  {
    if k < lo then None
    else if IsBreakChar(line[k]) then Some(k)
    else LastBreak(line, k - 1, lo)
  }

  /** The search finds the last break character in [lo, k], if any. */
  lemma {:induction false} LastBreakFinds(line: string, k: int, lo: nat)
    requires lo <= k + 1 && k < |line|
    ensures var r := LastBreak(line, k, lo);
      && (r.Some? ==> IsBreakChar(line[r.value]) && forall m :: r.value < m <= k ==> !IsBreakChar(line[m]))
      && (r.None? ==> forall m :: lo <= m <= k ==> !IsBreakChar(line[m]))
    decreases k + 1 - lo
  {
    if k >= lo && !IsBreakChar(line[k]) {
      LastBreakFinds(line, k - 1, lo);
    }
  }

  /** The length of the first piece of a line longer than `w`: up to and
      including the last break character at an index in
      [SearchStart(w), w-1], or exactly `w` when there is none there. */
  function SplitAt(line: string, w: nat): (n: nat)
    requires w >= 20 && |line| > w
    ensures SearchStart(w) < n <= w
  {
    match LastBreak(line, w - 1, SearchStart(w))
    case Some(k) => k + 1
    case None => w
  }

  /** Where a long line is cut: just after the last break character in the
      window [SearchStart(w), w), or at `w` when the window has none. */
  lemma SplitAtBreak(line: string, w: nat)
    requires w >= 20 && |line| > w
    ensures var n := SplitAt(line, w);
      && SearchStart(w) < n <= w
      && ((forall k :: SearchStart(w) <= k < w ==> !IsBreakChar(line[k])) ==> n == w)
      && ((exists k :: SearchStart(w) <= k < w && IsBreakChar(line[k])) ==>
            IsBreakChar(line[n - 1]) && forall m :: n - 1 < m < w ==> !IsBreakChar(line[m]))
  {
    LastBreakFinds(line, w - 1, SearchStart(w));
  }

  /** The inner loop: the pieces of one line, each followed by a newline
      but the last. */
  function WrapLine(line: string, w: nat): string
    requires w >= 20
    decreases |line|
  {
    if |line| <= w then line
    else
      var n := SplitAt(line, w);
      line[..n] + "\n" + WrapLine(line[n..], w)
  }

  /** The separator the outer loop writes before a line. */
  function Sep(first: bool): string {
    if first then [] else "\n"
  }

  /** The outer loop: a newline before every line but the first. */
  function FormatLines(lines: seq<string>, w: nat, first: bool): string
    requires w >= 20
  {
    if lines == [] then []
    else Sep(first) + WrapLine(lines[0], w) + FormatLines(lines[1..], w, false)
  }

  function Format(code: string, maxChars: int): string {
    FormatLines(Getline.Pieces(code, '\n'), Width(maxChars), true)
  }

  // ---------------------------------------------------------------- the loops

  /** The search for the cut of an over-long line. */
  method FindSplit(line: string, w: nat) returns (n: nat)
    requires w >= 20 && |line| > w
    ensures n == SplitAt(line, w)
  {
    var splitIdx := -1;
    var searchStart := SearchStart(w);
    var k := w - 1;
    while k >= searchStart
      invariant searchStart - 1 <= k <= w - 1
      invariant LastBreak(line, w - 1, searchStart) == LastBreak(line, k, searchStart)
      decreases k + 1
    {
      if IsBreakChar(line[k]) {
        splitIdx := k;
        break;
      }
      k := k - 1;
    }
    n := if splitIdx != -1 then splitIdx + 1 else w;
  }

  lemma Regroup(a: string, b: string, c: string, d: string)
    ensures a + (b + c + d) == (a + b) + c + d
  {
  }

  /** One line read by the outer loop, up to the newline (or end) at `j`. */
  lemma LineStep(code: string, i: nat, j: nat, w: nat, first: bool, target: string, out: string, out': string)
    requires w >= 20 && i < |code| && j == Getline.NextDelim(code, '\n', i)
    requires target == out + FormatLines(Getline.PiecesFrom(code, '\n', i), w, first)
    requires out' == out + Sep(first) + WrapLine(code[i..j], w)
    ensures target == out' + FormatLines(Getline.PiecesFrom(code, '\n', j + 1), w, false)
  {
    var rest := Getline.PiecesFrom(code, '\n', j + 1);
    Getline.PiecesFromCons(code, '\n', i);
    assert ([code[i..j]] + rest)[1..] == rest;
    Regroup(out, Sep(first), WrapLine(code[i..j], w), FormatLines(rest, w, false));
  }

  /** One cut made by the inner loop, after `n` characters. */
  lemma WrapStep(line: string, w: nat, n: nat, target: string, out: string)
    requires w >= 20 && |line| > w && n == SplitAt(line, w)
    requires target == out + WrapLine(line, w)
    ensures target == (out + line[..n] + "\n") + WrapLine(line[n..], w)
  {
    Regroup(out, line[..n], "\n", WrapLine(line[n..], w));
  }

  /** The inner loop: appends the pieces of one line to `out`. */
  method WrapInto(out: string, line: string, w: nat) returns (out': string)
    requires w >= 20
    ensures out' == out + WrapLine(line, w)
  {
    ghost var target := out + WrapLine(line, w);
    out' := out;
    var rest := line;
    while |rest| > w
      invariant target == out' + WrapLine(rest, w)
      decreases |rest|
    {
      var n := FindSplit(rest, w);
      WrapStep(rest, w, n, target, out');
      out' := out' + rest[..n] + "\n";
      rest := rest[n..];
    }
    out' := out' + rest;
  }

  /** One pass of the outer loop: reads the line starting at `i` and
      appends its separator and its pieces to `out`. */
  method WriteLine(code: string, i: nat, w: nat, first: bool, out: string, ghost todo: seq<string>, ghost target: string)
    returns (j: nat, out': string, ghost todo': seq<string>)
    requires w >= 20 && i < |code|
    requires todo == Getline.PiecesFrom(code, '\n', i)
    requires target == out + FormatLines(todo, w, first)
    ensures i <= j <= |code|
    ensures todo' == Getline.PiecesFrom(code, '\n', j + 1)
    ensures target == out' + FormatLines(todo', w, false)
  {
    j := Getline.ReadTo(code, '\n', i);
    out' := WrapInto(out + Sep(first), code[i..j], w);
    LineStep(code, i, j, w, first, target, out, out');
    todo' := Getline.PiecesFrom(code, '\n', j + 1);
  }

  method FormatCode(code: string, maxChars: int) returns (out: string)
    ensures out == Format(code, maxChars)
  {
    var w := if maxChars > 20 then maxChars else 20;
    ghost var todo := Getline.Pieces(code, '\n');
    ghost var target := FormatLines(todo, w, true);
    out := [];
    var first := true;
    var i := 0;
    while i < |code|
      invariant i <= |code| + 1
      invariant todo == Getline.PiecesFrom(code, '\n', i)
      invariant target == out + FormatLines(todo, w, first)
      decreases |code| + 1 - i
    {
      var j;
      j, out, todo := WriteLine(code, i, w, first, out, todo, target);
      first := false;
      i := j + 1;
    }
    assert todo == [];
  }

  // ---------------------------------------------------------------- line lengths

  /** Every run of characters without a newline is at most `w` long. */
  ghost predicate RunsAtMost(s: string, w: nat) {
    forall i, j | 0 <= i <= j <= |s| && '\n' !in s[i..j] :: j - i <= w
  }

  lemma RunsJoin(a: string, b: string, w: nat)
    requires RunsAtMost(a, w) && RunsAtMost(b, w)
    ensures RunsAtMost(a + "\n" + b, w)
  {
    var s := a + "\n" + b;
    forall i, j | 0 <= i <= j <= |s| ensures '\n' !in s[i..j] ==> j - i <= w {
      if j <= |a| {
        assert s[i..j] == a[i..j];
      } else if i > |a| {
        assert s[i..j] == b[i - |a| - 1..j - |a| - 1];
      } else {
        assert s[i..j][|a| - i] == '\n';
      }
    }
  }

  lemma {:induction false} WrapLineRuns(line: string, w: nat)
    requires w >= 20
    ensures RunsAtMost(WrapLine(line, w), w)
    decreases |line|
  {
    if |line| > w {
      var n := SplitAt(line, w);
      WrapLineRuns(line[n..], w);
      RunsJoin(line[..n], WrapLine(line[n..], w), w);
    }
  }

  lemma FormatLinesLater(lines: seq<string>, w: nat)
    requires w >= 20
    ensures FormatLines(lines, w, false) == if lines == [] then [] else "\n" + FormatLines(lines, w, true)
  {
    if lines != [] {
      var x := WrapLine(lines[0], w);
      var y := FormatLines(lines[1..], w, false);
      assert "\n" + x + y == "\n" + ([] + x + y);
    }
  }

  /** The first line's pieces, then a newline and the other lines. */
  lemma FormatLinesFirst(lines: seq<string>, w: nat)
    requires w >= 20 && |lines| > 1
    ensures FormatLines(lines, w, true) == WrapLine(lines[0], w) + "\n" + FormatLines(lines[1..], w, true)
  {
    FormatLinesLater(lines[1..], w);
  }

  lemma {:induction false} FormatLinesRuns(lines: seq<string>, w: nat)
    requires w >= 20
    ensures RunsAtMost(FormatLines(lines, w, true), w)
  {
    if |lines| == 1 {
      WrapLineRuns(lines[0], w);
      assert FormatLines(lines, w, true) == WrapLine(lines[0], w);
    } else if |lines| > 1 {
      WrapLineRuns(lines[0], w);
      FormatLinesRuns(lines[1..], w);
      RunsJoin(WrapLine(lines[0], w), FormatLines(lines[1..], w, true), w);
      FormatLinesFirst(lines, w);
    }
  }

  /** No line of the output is longer than the width. */
  lemma FormatWidth(code: string, maxChars: int)
    ensures RunsAtMost(Format(code, maxChars), Width(maxChars))
  {
    FormatLinesRuns(Getline.Pieces(code, '\n'), Width(maxChars));
  }

  // ---------------------------------------------------------------- only newlines change

  /** The text without its newlines. */
  function Strip(s: string): (r: string)
    ensures '\n' !in r
  {
    if s == [] then [] else (if s[0] == '\n' then [] else [s[0]]) + Strip(s[1..])
  }

  lemma {:induction false} StripConcat(a: string, b: string)
    ensures Strip(a + b) == Strip(a) + Strip(b)
    decreases |a|
  {
    if a != [] {
      var x: string := if a[0] == '\n' then [] else [a[0]];
      StripConcat(a[1..], b);
      assert (a + b)[0] == a[0] && (a + b)[1..] == a[1..] + b;
      assert Strip(a + b) == x + Strip(a[1..] + b);
      assert Strip(a) == x + Strip(a[1..]);
    } else {
      assert a + b == b;
    }
  }

  lemma StripNewline()
    ensures Strip("\n") == []
  {
    assert "\n"[1..] == [];
  }

  /** Strip across an inserted newline. */
  lemma StripAround(a: string, b: string)
    ensures Strip(a + "\n" + b) == Strip(a) + Strip(b)
  {
    StripConcat(a + "\n", b);
    StripConcat(a, "\n");
    StripNewline();
  }

  lemma {:induction false} StripWrapLine(line: string, w: nat)
    requires w >= 20
    ensures Strip(WrapLine(line, w)) == Strip(line)
    decreases |line|
  {
    if |line| > w {
      var n := SplitAt(line, w);
      StripWrapLine(line[n..], w);
      StripAround(line[..n], WrapLine(line[n..], w));
      StripConcat(line[..n], line[n..]);
      assert line[..n] + line[n..] == line;
    }
  }

  lemma StripSep(first: bool)
    ensures Strip(Sep(first)) == []
  {
    if !first {
      StripNewline();
    }
  }

  lemma {:induction false} StripFormatLines(lines: seq<string>, w: nat, first: bool)
    requires w >= 20
    ensures Strip(FormatLines(lines, w, first)) == Strip(Getline.Terminated(lines, '\n'))
  {
    if lines != [] {
      var x := WrapLine(lines[0], w);
      var y := FormatLines(lines[1..], w, false);
      var t := Getline.Terminated(lines[1..], '\n');
      calc {
        Strip(FormatLines(lines, w, first));
        Strip(Sep(first) + x + y);
        { StripConcat(Sep(first) + x, y); StripConcat(Sep(first), x); StripSep(first); }
        Strip(x) + Strip(y);
        { StripWrapLine(lines[0], w); StripFormatLines(lines[1..], w, false); }
        Strip(lines[0]) + Strip(t);
        { StripAround(lines[0], t); }
        Strip(lines[0] + "\n" + t);
        Strip(Getline.Terminated(lines, '\n'));
      }
    }
  }

  /** Deleting every newline from the output gives the input with every
      newline deleted: formatting only inserts or drops line breaks. */
  lemma FormatOnlyNewlines(code: string, maxChars: int)
    ensures Strip(Format(code, maxChars)) == Strip(code)
  {
    var lines := Getline.Pieces(code, '\n');
    StripFormatLines(lines, Width(maxChars), true);
    Getline.PiecesJoin(code, '\n');
    if !(code == [] || code[|code| - 1] == '\n') {
      StripConcat(code, "\n");
      StripNewline();
    }
  }

  // ---------------------------------------------------------------- short lines

  lemma {:induction false} FormatShortLines(lines: seq<string>, w: nat)
    requires w >= 20 && lines != []
    requires forall p :: 0 <= p < |lines| ==> |lines[p]| <= w
    ensures FormatLines(lines, w, true) + "\n" == Getline.Terminated(lines, '\n')
  {
    var x, rest := lines[0], lines[1..];
    assert WrapLine(x, w) == x;
    assert FormatLines(lines, w, true) == [] + x + FormatLines(rest, w, false);
    assert Getline.Terminated(lines, '\n') == x + "\n" + Getline.Terminated(rest, '\n');
    FormatLinesLater(rest, w);
    if rest == [] {
      assert [] + x + [] + "\n" == x + "\n" + [];
    } else {
      assert forall p :: 0 <= p < |rest| ==> |rest[p]| <= w by {
        forall p | 0 <= p < |rest| ensures |rest[p]| <= w {
          assert rest[p] == lines[p + 1];
        }
      }
      FormatShortLines(rest, w);
      ShortLinesGlue(x, FormatLines(rest, w, true), Getline.Terminated(rest, '\n'));
    }
  }

  lemma ShortLinesGlue(x: string, f: string, t: string)
    requires f + "\n" == t
    ensures [] + x + ("\n" + f) + "\n" == x + "\n" + t
  {
    assert [] + x + ("\n" + f) + "\n" == x + "\n" + (f + "\n");
  }

  /** When no line is longer than the width, the output is the code
      itself: what the line reader drops is the final newline. */
  lemma FormatKeepsShortCode(code: string, maxChars: int)
    requires code != []
    requires forall p :: 0 <= p < |Getline.Pieces(code, '\n')| ==> |Getline.Pieces(code, '\n')[p]| <= Width(maxChars)
    ensures Format(code, maxChars) == if code[|code| - 1] == '\n' then code[..|code| - 1] else code
  {
    var lines := Getline.Pieces(code, '\n');
    Getline.PiecesJoin(code, '\n');
    FormatShortLines(lines, Width(maxChars));
    var f := Format(code, maxChars);
    if code[|code| - 1] == '\n' {
      assert f + "\n" == code;
      assert code[..|code| - 1] == f;
    } else {
      assert f + "\n" == code + "\n";
      assert f == (f + "\n")[..|f|];
    }
  }
}
