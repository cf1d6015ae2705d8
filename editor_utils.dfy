/** The editor helpers `FindTrigger` and `UpdateErrorMarkers`, the same in
    `bytebeat-player/Utils.cpp` and `bytebeat-player/Utils/Utils.cpp`.  The
    evaluator `FindTrigger` samples is a parameter: `eval(t)` is the value
    `state.expr.Eval(t)` returns for the compiled expression. */
module EditorUtils {
  import opened Wrappers
  import Getline

  /** `uint32_t` arithmetic wraps modulo 2^32. */
  const U32: nat := 0x1_0000_0000

  /** `searchRange`: how many time steps `FindTrigger` looks ahead. */
  const SEARCH_RANGE: nat := 1024

  function Wrap(x: int): (r: nat)
    ensures r < U32
  {
    x % U32
  }

  /** `v & 0xFF` on a two's-complement `int`. */
  function LowByte(v: int): (b: int)
    ensures 0 <= b < 256
  {
    v % 256
  }

  /** The waveform crosses upwards at step `i`: low (at most 2) at
      `currentT + i` and above 2 one step later. */
  predicate Fires(eval: nat -> int, cur: nat, i: nat) {
    LowByte(eval(Wrap(cur + i))) <= 2 && LowByte(eval(Wrap(cur + i + 1))) > 2
  }

  /** The first step from `i` on, below the search range, at which the
      waveform crosses upwards. */
  function FirstFire(eval: nat -> int, cur: nat, i: nat): Option<nat>
    decreases SEARCH_RANGE - i
  {
    if i >= SEARCH_RANGE then None
    else if Fires(eval, cur, i) then Some(i)
    else FirstFire(eval, cur, i + 1)
  }

  /** How far `FindTrigger` steps: to the first crossing, or not at all. */
  function TriggerOffset(eval: nat -> int, cur: nat): nat {
    match FirstFire(eval, cur, 0)
    case Some(i) => i
    case None => 0
  }

  /** What `FindTrigger` returns. */
  function Trigger(eval: nat -> int, cur: nat): nat {
    Wrap(cur + TriggerOffset(eval, cur))
  }

  /** `FirstFire` finds the least crossing step, and finds none only when
      no step of the range crosses. */
  lemma {:induction false} FirstFireLeast(eval: nat -> int, cur: nat, i: nat)
    ensures FirstFire(eval, cur, i).Some? ==>
      && i <= FirstFire(eval, cur, i).value < SEARCH_RANGE
      && Fires(eval, cur, FirstFire(eval, cur, i).value)
      && forall j :: i <= j < FirstFire(eval, cur, i).value ==> !Fires(eval, cur, j)
    ensures FirstFire(eval, cur, i).None? ==> forall j :: i <= j < SEARCH_RANGE ==> !Fires(eval, cur, j)
    decreases SEARCH_RANGE - i
  {
    if i < SEARCH_RANGE && !Fires(eval, cur, i) {
      FirstFireLeast(eval, cur, i + 1);
    }
  }

  /** `FindTrigger` steps less than the search range, to the first upward
      crossing when there is one, and returns `currentT` unchanged when
      there is none. */
  lemma TriggerSpec(eval: nat -> int, cur: nat)
    requires cur < U32
    ensures TriggerOffset(eval, cur) < SEARCH_RANGE
    ensures forall j :: 0 <= j < TriggerOffset(eval, cur) ==> !Fires(eval, cur, j)
    ensures (exists i :: 0 <= i < SEARCH_RANGE && Fires(eval, cur, i)) ==> Fires(eval, cur, TriggerOffset(eval, cur))
    ensures (forall i :: 0 <= i < SEARCH_RANGE ==> !Fires(eval, cur, i)) ==> Trigger(eval, cur) == cur
  {
    FirstFireLeast(eval, cur, 0);
  }

  /** `FindTrigger`: the search loop with its early return. */
  method FindTrigger(eval: nat -> int, currentT: nat) returns (r: nat)
    requires currentT < U32
    ensures r == Trigger(eval, currentT)
  {
    var i: nat := 0;
    while i < SEARCH_RANGE
      invariant i <= SEARCH_RANGE && FirstFire(eval, currentT, 0) == FirstFire(eval, currentT, i)
    {
      var valNow := LowByte(eval(Wrap(currentT + i)));
      var valNext := LowByte(eval(Wrap(currentT + i + 1)));
      if valNow <= 2 && valNext > 2 {
        return Wrap(currentT + i);
      }
      i := i + 1;
    }
    return currentT;
  }

  // ---------------------------------------------------------------- error markers

  /** The number of newlines among the first `n` characters. */
  function NewlinesBefore(code: string, n: nat): (c: nat)
    requires n <= |code|
    ensures c <= n
  {
    if n == 0 then 0 else NewlinesBefore(code, n - 1) + (if code[n - 1] == '\n' then 1 else 0)
  }

  /** The line, counted from 1, that `UpdateErrorMarkers` marks for an error
      at `errorPos`: one more than the newlines before it, a position past
      the end counting as the end. */
  function ErrorLine(code: string, errorPos: int): (line: nat)
    requires errorPos >= 0
    ensures line >= 1
  {
    1 + NewlinesBefore(code, if errorPos < |code| then errorPos else |code|)
  }

  /** The markers `UpdateErrorMarkers` hands to the editor: none unless the
      program failed to compile with a position and a message. */
  function Markers(valid: bool, errorPos: int, errorMsg: string, code: string): map<int, string> {
    if !valid && errorPos >= 0 && errorMsg != [] then map[ErrorLine(code, errorPos) := errorMsg] else map[]
  }

  /** `UpdateErrorMarkers` with the counting loop. */
  method UpdateErrorMarkers(valid: bool, errorPos: int, errorMsg: string, code: string)
    returns (markers: map<int, string>)
    ensures markers == Markers(valid, errorPos, errorMsg, code)
    ensures |markers| <= 1
    ensures markers != map[] <==> !valid && errorPos >= 0 && errorMsg != []
  {
    markers := map[];
    if !valid && errorPos >= 0 && errorMsg != [] {
      var line := 1;
      var i := 0;
      while i < errorPos && i < |code|
        invariant 0 <= i <= |code| && i <= errorPos
        invariant line == 1 + NewlinesBefore(code, i)
      {
        if code[i] == '\n' {
          line := line + 1;
        }
        i := i + 1;
      }
      markers := markers[line := errorMsg];
      assert line in markers;
    }
  }

  /** The lines of a text, each followed by its newline. */
  function Joined(lines: seq<string>): string {
    Getline.Terminated(lines, '\n')
  }

  predicate NoNewline(lines: seq<string>) {
    forall k :: 0 <= k < |lines| ==> '\n' !in lines[k]
  }

  lemma NewlinesNone(s: string, n: nat)
    requires n <= |s| && '\n' !in s
    ensures NewlinesBefore(s, n) == 0
  {
    if n > 0 {
      NewlinesNone(s, n - 1);
    }
  }

  /** Newlines before a position in the second half of a text. */
  lemma {:induction false} NewlinesAppend(a: string, b: string, j: nat)
    requires j <= |b|
    ensures NewlinesBefore(a + b, |a| + j) == NewlinesBefore(a, |a|) + NewlinesBefore(b, j)
  {
    if j == 0 {
      NewlinesPrefix(a, b, |a|);
    } else {
      NewlinesAppend(a, b, j - 1);
      assert (a + b)[|a| + j - 1] == b[j - 1];
    }
  }

  /** Counting in a prefix does not look past it. */
  lemma {:induction false} NewlinesPrefix(a: string, b: string, n: nat)
    requires n <= |a|
    ensures NewlinesBefore(a + b, n) == NewlinesBefore(a, n)
  {
    if n > 0 {
      NewlinesPrefix(a, b, n - 1);
      assert (a + b)[n - 1] == a[n - 1];
    }
  }

  /** The lines before line `k` and line `k` itself start the text. */
  lemma {:induction false} JoinedPrefixLength(lines: seq<string>, k: nat)
    requires k < |lines|
    ensures |Joined(lines[..k])| + |lines[k]| + 1 <= |Joined(lines)|
    decreases k
  {
    if k > 0 {
      JoinedPrefixLength(lines[1..], k - 1);
      assert lines[1..][k - 1] == lines[k];
      assert lines[..k] == [lines[0]] + lines[1..][..k - 1];
      Getline.TerminatedCons(lines[0], lines[1..][..k - 1], '\n');
    }
  }

  /** The marked line is the line the error position lies on: a position
      in column `c` of line `k` (from 0) of a text made of newline-free
      lines is marked on line `k + 1`. */
  lemma {:induction false} ErrorLineOfPosition(lines: seq<string>, k: nat, c: nat)
    requires NoNewline(lines) && k < |lines| && c <= |lines[k]|
    ensures ErrorLine(Joined(lines), |Joined(lines[..k])| + c) == k + 1
    decreases k
  {
    var rest := Joined(lines[1..]);
    assert Joined(lines) == lines[0] + ['\n'] + rest;
    assert Joined(lines) == lines[0] + (['\n'] + rest);
    if k == 0 {
      assert lines[..0] == [];
      NewlinesPrefix(lines[0], ['\n'] + rest, c);
      NewlinesNone(lines[0], c);
    } else {
      var p := |Joined(lines[1..][..k - 1])| + c;
      assert lines[1..][k - 1] == lines[k];
      ErrorLineOfPosition(lines[1..], k - 1, c);
      assert lines[..k] == [lines[0]] + lines[1..][..k - 1];
      Getline.TerminatedCons(lines[0], lines[1..][..k - 1], '\n');
      assert |Joined(lines[..k])| == |lines[0]| + 1 + |Joined(lines[1..][..k - 1])|;
      JoinedPrefixLength(lines[1..], k - 1);
      NewlinesAppend(lines[0] + ['\n'], rest, p);
      NewlinesAppend(lines[0], ['\n'], 1);
      NewlinesNone(lines[0], |lines[0]|);
      assert lines[0] + ['\n'] + rest == Joined(lines);
    }
  }
}
