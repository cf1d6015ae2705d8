/** The two scans `ComplexEngine::Compile` makes over the program text: the
    split into statements at top-level commas, and the search for the `=`
    that makes a statement an assignment. */
module Segments {
  import opened Wrappers

  /** A statement and the index in the program at which it starts. */
  datatype Segment = Segment(text: string, offset: nat)

  /** The variables of the split loop: the statement being collected and
      where it starts, the parenthesis and bracket depths, and the quote
      being read, if any. */
  datatype Splitter = Splitter(cur: string, start: nat, paren: int, bracket: int, inQuote: bool, quoteChar: char)

  const START: Splitter := Splitter([], 0, 0, 0, false, 0 as char)

  /** One character of the split.  Depths never go below 0; a comma outside
      quotes, parentheses and brackets ends the statement, which is kept
      only when it is not empty. */
  function SplitStep(code: string, i: nat, s: Splitter, segs: seq<Segment>): (Splitter, seq<Segment>)
    requires i < |code|
  {
    var c := code[i];
    if s.inQuote then (s.(cur := s.cur + [c], inQuote := c != s.quoteChar), segs)
    else if c == '"' || c == '\'' then (s.(cur := s.cur + [c], inQuote := true, quoteChar := c), segs)
    else if c == '(' then (s.(cur := s.cur + [c], paren := s.paren + 1), segs)
    else if c == ')' then (s.(cur := s.cur + [c], paren := if s.paren > 0 then s.paren - 1 else s.paren), segs)
    else if c == '[' then (s.(cur := s.cur + [c], bracket := s.bracket + 1), segs)
    else if c == ']' then (s.(cur := s.cur + [c], bracket := if s.bracket > 0 then s.bracket - 1 else s.bracket), segs)
    else if c == ',' && s.paren == 0 && s.bracket == 0 then (s.(cur := [], start := i + 1), Close(s, segs))
    else (s.(cur := s.cur + [c]), segs)
  }

  /** Keeps the statement being collected when it is not empty. */
  function Close(s: Splitter, segs: seq<Segment>): seq<Segment> {
    if s.cur != [] then segs + [Segment(s.cur, s.start)] else segs
  }

  function SplitFrom(code: string, i: nat, s: Splitter, segs: seq<Segment>): seq<Segment>
    requires i <= |code|
    decreases |code| - i
  {
    if i == |code| then Close(s, segs)
    else
      var (s', segs') := SplitStep(code, i, s, segs);
      SplitFrom(code, i + 1, s', segs')
  }

  /** The statements of a program, in order. */
  function Split(code: string): seq<Segment> {
    SplitFrom(code, 0, START, [])
  }

  // ---------------------------------------------------------------- the split, as a loop

  method SplitCode(code: string) returns (segs: seq<Segment>)
    ensures segs == Split(code)
  {
    segs := [];
    var cur: string := [];
    var start: nat := 0;
    var paren, bracket := 0, 0;
    var inQuote, quoteChar := false, 0 as char;
    var i := 0;
    while i < |code|
      invariant i <= |code|
      invariant Split(code) == SplitFrom(code, i, Splitter(cur, start, paren, bracket, inQuote, quoteChar), segs)
      decreases |code| - i
    {
      var c := code[i];
      if inQuote {
        cur := cur + [c];
        if c == quoteChar { inQuote := false; }
      } else if c == '"' || c == '\'' {
        inQuote, quoteChar := true, c;
        cur := cur + [c];
      } else if c == '(' {
        paren := paren + 1;
        cur := cur + [c];
      } else if c == ')' {
        if paren > 0 { paren := paren - 1; }
        cur := cur + [c];
      } else if c == '[' {
        bracket := bracket + 1;
        cur := cur + [c];
      } else if c == ']' {
        if bracket > 0 { bracket := bracket - 1; }
        cur := cur + [c];
      } else if c == ',' {
        if paren == 0 && bracket == 0 {
          if cur != [] {
            segs := segs + [Segment(cur, start)];
          }
          cur := [];
          start := i + 1;
        } else {
          cur := cur + [c];
        }
      } else {
        cur := cur + [c];
      }
      i := i + 1;
    }
    if cur != [] {
      segs := segs + [Segment(cur, start)];
    }
  }

  // ---------------------------------------------------------------- what the split yields

  /** A statement is a non-empty slice of the program that starts at its
      beginning or right after a comma. */
  ghost predicate SliceOf(code: string, g: Segment) {
    && g.text != []
    && g.offset + |g.text| <= |code|
    && code[g.offset..g.offset + |g.text|] == g.text
    && (g.offset == 0 || code[g.offset - 1] == ',')
  }

  /** Statements do not overlap and come in program order, a separating
      comma between each two. */
  ghost predicate InOrder(segs: seq<Segment>) {
    forall a, b :: 0 <= a < b < |segs| ==> segs[a].offset + |segs[a].text| < segs[b].offset
  }

  ghost predicate SplitInv(code: string, i: nat, s: Splitter, segs: seq<Segment>) {
    && s.start <= i <= |code|
    && s.cur == code[s.start..i]
    && (s.start == 0 || code[s.start - 1] == ',')
    && (forall k :: 0 <= k < |segs| ==> SliceOf(code, segs[k]))
    && (forall k :: 0 <= k < |segs| ==> segs[k].offset + |segs[k].text| < s.start)
    && InOrder(segs)
  }

  lemma CloseInv(code: string, i: nat, s: Splitter, segs: seq<Segment>)
    requires SplitInv(code, i, s, segs)
    ensures forall k :: 0 <= k < |Close(s, segs)| ==> SliceOf(code, Close(s, segs)[k])
    ensures forall k :: 0 <= k < |Close(s, segs)| ==> Close(s, segs)[k].offset + |Close(s, segs)[k].text| <= i
    ensures InOrder(Close(s, segs))
  {
  }

  /** A character added to the statement being collected. */
  lemma AppendInv(code: string, i: nat, s: Splitter, segs: seq<Segment>, s': Splitter)
    requires i < |code| && SplitInv(code, i, s, segs)
    requires s'.cur == s.cur + [code[i]] && s'.start == s.start
    ensures SplitInv(code, i + 1, s', segs)
  {
    assert code[s.start..i + 1] == s.cur + [code[i]];
  }

  /** A separating comma. */
  lemma CommaInv(code: string, i: nat, s: Splitter, segs: seq<Segment>)
    requires i < |code| && code[i] == ',' && SplitInv(code, i, s, segs)
    ensures SplitInv(code, i + 1, s.(cur := [], start := i + 1), Close(s, segs))
  {
    CloseInv(code, i, s, segs);
    assert code[i + 1..i + 1] == [];
  }

  lemma StepInv(code: string, i: nat, s: Splitter, segs: seq<Segment>)
    requires i < |code| && SplitInv(code, i, s, segs)
    ensures SplitInv(code, i + 1, SplitStep(code, i, s, segs).0, SplitStep(code, i, s, segs).1)
  {
    var (s', segs') := SplitStep(code, i, s, segs);
    if !s.inQuote && code[i] == ',' && s.paren == 0 && s.bracket == 0 {
      CommaInv(code, i, s, segs);
    } else {
      AppendInv(code, i, s, segs, s');
    }
  }

  lemma {:induction false} SplitFromInv(code: string, i: nat, s: Splitter, segs: seq<Segment>)
    requires SplitInv(code, i, s, segs)
    ensures forall k :: 0 <= k < |SplitFrom(code, i, s, segs)| ==> SliceOf(code, SplitFrom(code, i, s, segs)[k])
    ensures InOrder(SplitFrom(code, i, s, segs))
    decreases |code| - i
  {
    if i == |code| {
      CloseInv(code, i, s, segs);
    } else {
      StepInv(code, i, s, segs);
      var (s', segs') := SplitStep(code, i, s, segs);
      SplitFromInv(code, i + 1, s', segs');
    }
  }

  /** Every statement is a non-empty slice of the program at its offset,
      starting at index 0 or after a comma, and statements come in order. */
  lemma SplitSlices(code: string)
    ensures forall k :: 0 <= k < |Split(code)| ==> SliceOf(code, Split(code)[k])
    ensures InOrder(Split(code))
  {
    SplitFromInv(code, 0, START, []);
  }

  // ---------------------------------------------------------------- the split, by top-level commas

  /** The quote and nesting state of the split after a prefix of the
      program, computed on its own: what is open after the first `n`
      characters. */
  datatype Nesting = Nesting(paren: int, bracket: int, inQuote: bool, quoteChar: char)

  function Advance(st: Nesting, c: char): Nesting {
    if st.inQuote then st.(inQuote := c != st.quoteChar)
    else if c == '"' || c == '\'' then st.(inQuote := true, quoteChar := c)
    else if c == '(' then st.(paren := st.paren + 1)
    else if c == ')' then st.(paren := if st.paren > 0 then st.paren - 1 else st.paren)
    else if c == '[' then st.(bracket := st.bracket + 1)
    else if c == ']' then st.(bracket := if st.bracket > 0 then st.bracket - 1 else st.bracket)
    else st
  }

  function NestingAt(code: string, n: nat): Nesting
    requires n <= |code|
  {
    if n == 0 then Nesting(0, 0, false, 0 as char) else Advance(NestingAt(code, n - 1), code[n - 1])
  }

  /** Index `i` is outside quotes, parentheses and brackets. */
  predicate TopLevelAt(code: string, i: nat)
    requires i <= |code|
  {
    var st := NestingAt(code, i);
    !st.inQuote && st.paren == 0 && st.bracket == 0
  }

  /** A comma that separates statements. */
  predicate TopComma(code: string, i: nat)
    requires i < |code|
  {
    code[i] == ',' && TopLevelAt(code, i)
  }

  predicate RunStart(code: string, a: nat)
    requires a <= |code|
  {
    a == 0 || TopComma(code, a - 1)
  }

  predicate RunEnd(code: string, b: nat)
    requires b <= |code|
  {
    b == |code| || TopComma(code, b)
  }

  /** `code[a..b]` is a non-empty run of text between two consecutive
      separating commas (or the ends of the program). */
  ghost predicate Run(code: string, a: nat, b: nat) {
    && a < b <= |code| && RunStart(code, a) && RunEnd(code, b)
    && forall j :: a <= j < b ==> !TopComma(code, j)
  }

  /** Every statement kept is a run. */
  ghost predicate AllRuns(code: string, segs: seq<Segment>) {
    forall k :: 0 <= k < |segs| ==> Run(code, segs[k].offset, segs[k].offset + |segs[k].text|)
  }

  /** Every run ending before `n` has been kept. */
  ghost predicate RunsKeptBefore(code: string, segs: seq<Segment>, n: int) {
    forall a: nat, b: nat :: Run(code, a, b) && b < n ==> Segment(code[a..b], a) in segs
  }

  /** What the split keeps true beside `SplitInv`: its depths and quote are
      `NestingAt`, the statement being collected starts a run, every
      statement kept is a run, and every run ending before the current
      start has been kept. */
  ghost predicate RunInv(code: string, i: nat, s: Splitter, segs: seq<Segment>)
    requires s.start <= i <= |code|
  {
    && Nesting(s.paren, s.bracket, s.inQuote, s.quoteChar) == NestingAt(code, i)
    && RunStart(code, s.start)
    && (forall j :: s.start <= j < i ==> !TopComma(code, j))
    && AllRuns(code, segs)
    && RunsKeptBefore(code, segs, s.start)
  }

  /** A run ending in a stretch without separating commas that starts a run
      begins where that stretch does. */
  lemma RunBegins(code: string, a: nat, b: nat, start: nat)
    requires start <= b <= |code| && RunStart(code, start) && Run(code, a, b)
    requires forall j :: start <= j < b ==> !TopComma(code, j)
    ensures a == start
  {
  }

  /** The statement being collected, closed at `i`, is a run. */
  lemma RunCloseSound(code: string, i: nat, s: Splitter, segs: seq<Segment>)
    requires s.start <= i <= |code| && s.cur == code[s.start..i]
    requires RunStart(code, s.start) && (forall j :: s.start <= j < i ==> !TopComma(code, j))
    requires AllRuns(code, segs)
    requires i == |code| || TopComma(code, i)
    ensures AllRuns(code, Close(s, segs))
  {
    if s.cur != [] {
      var g := Segment(s.cur, s.start);
      assert |s.cur| == i - s.start;
      assert Run(code, s.start, i);
      assert Close(s, segs) == segs + [g];
      forall k | 0 <= k < |segs + [g]|
        ensures Run(code, (segs + [g])[k].offset, (segs + [g])[k].offset + |(segs + [g])[k].text|)
      {
        if k < |segs| {
          assert (segs + [g])[k] == segs[k];
        }
      }
      assert AllRuns(code, segs + [g]);
    } else {
      assert Close(s, segs) == segs;
    }
  }

  /** Once the statement being collected is closed at `i`, every run ending
      at or before `i` has been kept. */
  lemma RunCloseComplete(code: string, i: nat, s: Splitter, segs: seq<Segment>)
    requires s.start <= i <= |code| && s.cur == code[s.start..i]
    requires RunStart(code, s.start) && (forall j :: s.start <= j < i ==> !TopComma(code, j))
    requires RunsKeptBefore(code, segs, s.start)
    requires i == |code| || TopComma(code, i)
    ensures RunsKeptBefore(code, Close(s, segs), i + 1)
  {
    forall a: nat, b: nat | Run(code, a, b) && b < i + 1 ensures Segment(code[a..b], a) in Close(s, segs) {
      if b >= s.start {
        RunBegins(code, a, b, s.start);
        assert Close(s, segs) == segs + [Segment(s.cur, s.start)];
      } else {
        assert Segment(code[a..b], a) in segs;
      }
    }
  }

  /** One character of the split advances its depths and quote as
      `Advance` does, and closes the statement exactly at a separating comma. */
  lemma StepNesting(code: string, i: nat, s: Splitter, segs: seq<Segment>)
    requires i < |code| && Nesting(s.paren, s.bracket, s.inQuote, s.quoteChar) == NestingAt(code, i)
    ensures var (s', segs') := SplitStep(code, i, s, segs);
      && Nesting(s'.paren, s'.bracket, s'.inQuote, s'.quoteChar) == NestingAt(code, i + 1)
      && (TopComma(code, i) ==> s'.start == i + 1 && segs' == Close(s, segs))
      && (!TopComma(code, i) ==> s'.start == s.start && segs' == segs)
  {
  }

  lemma RunStepInv(code: string, i: nat, s: Splitter, segs: seq<Segment>)
    requires i < |code| && SplitInv(code, i, s, segs) && RunInv(code, i, s, segs)
    ensures var (s', segs') := SplitStep(code, i, s, segs);
      s'.start <= i + 1 && RunInv(code, i + 1, s', segs')
  {
    StepNesting(code, i, s, segs);
    var (s', segs') := SplitStep(code, i, s, segs);
    if TopComma(code, i) {
      RunStepComma(code, i, s, segs, s');
    } else {
      RunStepPlain(code, i, s, segs, s');
    }
  }

  /** A character that does not separate extends the current run. */
  lemma RunStepPlain(code: string, i: nat, s: Splitter, segs: seq<Segment>, s': Splitter)
    requires i < |code| && s.start <= i && RunInv(code, i, s, segs) && !TopComma(code, i)
    requires Nesting(s'.paren, s'.bracket, s'.inQuote, s'.quoteChar) == NestingAt(code, i + 1)
    requires s'.start == s.start
    ensures RunInv(code, i + 1, s', segs)
  {
  }

  /** A separating comma closes the current run and starts the next. */
  lemma RunStepComma(code: string, i: nat, s: Splitter, segs: seq<Segment>, s': Splitter)
    requires i < |code| && s.start <= i && s.cur == code[s.start..i] && RunInv(code, i, s, segs)
    requires TopComma(code, i)
    requires Nesting(s'.paren, s'.bracket, s'.inQuote, s'.quoteChar) == NestingAt(code, i + 1)
    requires s'.start == i + 1
    ensures RunInv(code, i + 1, s', Close(s, segs))
  {
    RunCloseSound(code, i, s, segs);
    RunCloseComplete(code, i, s, segs);
  }

  /** Both invariants of the split, at position `i`. */
  ghost predicate SplitState(code: string, i: nat, s: Splitter, segs: seq<Segment>) {
    SplitInv(code, i, s, segs) && RunInv(code, i, s, segs)
  }

  lemma {:induction false} SplitFromRuns(code: string, i: nat, s: Splitter, segs: seq<Segment>, r: seq<Segment>)
    requires SplitState(code, i, s, segs)
    requires r == SplitFrom(code, i, s, segs)
    ensures AllRuns(code, r) && RunsKeptBefore(code, r, |code| + 1)
    decreases |code| - i
  {
    if i == |code| {
      SplitDoneRuns(code, s, segs);
    } else {
      var st := SplitStep(code, i, s, segs);
      StepInvs(code, i, s, segs);
      assert r == SplitFrom(code, i + 1, st.0, st.1);
      SplitFromRuns(code, i + 1, st.0, st.1, r);
    }
  }

  /** Both invariants of the split survive one character. */
  lemma StepInvs(code: string, i: nat, s: Splitter, segs: seq<Segment>)
    requires i < |code| && SplitState(code, i, s, segs)
    ensures var st := SplitStep(code, i, s, segs); SplitState(code, i + 1, st.0, st.1)
  {
    StepInv(code, i, s, segs);
    RunStepInv(code, i, s, segs);
  }

  /** At the end of the program the last run is closed. */
  lemma SplitDoneRuns(code: string, s: Splitter, segs: seq<Segment>)
    requires SplitState(code, |code|, s, segs)
    ensures AllRuns(code, SplitFrom(code, |code|, s, segs))
    ensures RunsKeptBefore(code, SplitFrom(code, |code|, s, segs), |code| + 1)
  {
    RunCloseSound(code, |code|, s, segs);
    RunCloseComplete(code, |code|, s, segs);
    assert SplitFrom(code, |code|, s, segs) == Close(s, segs);
  }

  /** The statements are exactly the non-empty runs of text between
      separating commas: commas outside quotes, parentheses and brackets.
      Every statement is such a run, every such run is a statement, and
      (`SplitSlices`) they come in program order. */
  lemma SplitRuns(code: string)
    ensures forall k :: 0 <= k < |Split(code)| ==>
      Run(code, Split(code)[k].offset, Split(code)[k].offset + |Split(code)[k].text|)
    ensures forall a: nat, b: nat :: Run(code, a, b) ==> Segment(code[a..b], a) in Split(code)
  {
    SplitFromRuns(code, 0, START, [], Split(code));
  }

  lemma {:induction false} SplitFromNoComma(code: string, i: nat, s: Splitter)
    requires ',' !in code && s.start == 0 && i <= |code| && s.cur == code[..i]
    ensures SplitFrom(code, i, s, []) == if code == [] then [] else [Segment(code, 0)]
    decreases |code| - i
  {
    if i == |code| {
      assert code[..i] == code;
    } else {
      assert code[..i + 1] == code[..i] + [code[i]];
      var (s', segs') := SplitStep(code, i, s, []);
      SplitFromNoComma(code, i + 1, s');
    }
  }

  /** A program without commas is one statement (none when it is empty). */
  lemma NoCommaOneSegment(code: string)
    requires ',' !in code
    ensures Split(code) == if code == [] then [] else [Segment(code, 0)]
  {
    SplitFromNoComma(code, 0, START);
  }

  // ---------------------------------------------------------------- the assignment `=`

  /** An `=` that belongs to `!=`, `<=`, `>=` or `==`: the character before
      it is `!`, `<` or `>`, or the one after it is `=`. */
  predicate LogicAt(seg: string, i: nat)
    requires i < |seg|
  {
    (i > 0 && seg[i - 1] in "!<>") || (i + 1 < |seg| && seg[i + 1] == '=')
  }

  /** The first `=` outside quotes and parentheses that is not part of a
      comparison.  Brackets are not tracked here. */
  function FindAssignFrom(seg: string, i: nat, q: bool, qc: char, depth: int): Option<nat>
    requires i <= |seg|
    decreases |seg| - i
  {
    if i == |seg| then None
    else
      var c := seg[i];
      if q then FindAssignFrom(seg, i + 1, c != qc, qc, depth)
      else if c == '"' || c == '\'' then FindAssignFrom(seg, i + 1, true, c, depth)
      else if c == '(' then FindAssignFrom(seg, i + 1, q, qc, depth + 1)
      else if c == ')' then FindAssignFrom(seg, i + 1, q, qc, if depth > 0 then depth - 1 else depth)
      else if c == '=' && depth == 0 && !LogicAt(seg, i) then Some(i)
      else FindAssignFrom(seg, i + 1, q, qc, depth)
  }

  function FindAssign(seg: string): Option<nat> {
    FindAssignFrom(seg, 0, false, 0 as char, 0)
  }

  method FindAssignIn(seg: string) returns (p: Option<nat>)
    ensures p == FindAssign(seg)
  {
    var depth := 0;
    var q, qc := false, 0 as char;
    var i := 0;
    p := None;
    while i < |seg|
      invariant i <= |seg|
      invariant FindAssign(seg) == FindAssignFrom(seg, i, q, qc, depth)
      decreases |seg| - i
    {
      var c := seg[i];
      if q {
        if c == qc { q := false; }
      } else if c == '"' || c == '\'' {
        q, qc := true, c;
      } else if c == '(' {
        depth := depth + 1;
      } else if c == ')' {
        if depth > 0 { depth := depth - 1; }
      } else if c == '=' {
        if depth == 0 {
          var logic := false;
          if i > 0 && (seg[i - 1] == '!' || seg[i - 1] == '<' || seg[i - 1] == '>') { logic := true; }
          if i + 1 < |seg| && seg[i + 1] == '=' { logic := true; }
          if !logic {
            p := Some(i);
            return;
          }
        }
      }
      i := i + 1;
    }
  }

  lemma {:induction false} FindAssignFromSound(seg: string, i: nat, q: bool, qc: char, depth: int)
    requires i <= |seg|
    ensures var r := FindAssignFrom(seg, i, q, qc, depth);
      r.Some? ==> i <= r.value < |seg| && seg[r.value] == '=' && !LogicAt(seg, r.value)
    decreases |seg| - i
  {
    if i < |seg| {
      var c := seg[i];
      if q {
        FindAssignFromSound(seg, i + 1, c != qc, qc, depth);
      } else if c == '"' || c == '\'' {
        FindAssignFromSound(seg, i + 1, true, c, depth);
      } else if c == '(' {
        FindAssignFromSound(seg, i + 1, q, qc, depth + 1);
      } else if c == ')' {
        FindAssignFromSound(seg, i + 1, q, qc, if depth > 0 then depth - 1 else depth);
      } else if !(c == '=' && depth == 0 && !LogicAt(seg, i)) {
        FindAssignFromSound(seg, i + 1, q, qc, depth);
      }
    }
  }

  /** The position found is an `=` that is not part of a comparison. */
  lemma FindAssignSound(seg: string)
    ensures var r := FindAssign(seg);
      r.Some? ==> r.value < |seg| && seg[r.value] == '=' && !LogicAt(seg, r.value)
  {
    FindAssignFromSound(seg, 0, false, 0 as char, 0);
  }

  /** The quote and parenthesis state of the assignment scan after the
      first `n` characters of a statement, computed on its own. */
  datatype Quoting = Quoting(inQuote: bool, quoteChar: char, depth: int)

  function AdvanceQuoting(st: Quoting, c: char): Quoting {
    if st.inQuote then st.(inQuote := c != st.quoteChar)
    else if c == '"' || c == '\'' then st.(inQuote := true, quoteChar := c)
    else if c == '(' then st.(depth := st.depth + 1)
    else if c == ')' then st.(depth := if st.depth > 0 then st.depth - 1 else st.depth)
    else st
  }

  function QuotingAt(seg: string, n: nat): Quoting
    requires n <= |seg|
  {
    if n == 0 then Quoting(false, 0 as char, 0) else AdvanceQuoting(QuotingAt(seg, n - 1), seg[n - 1])
  }

  /** An `=` that makes the statement an assignment: outside quotes and
      parentheses, and not part of a comparison. */
  predicate AssignAt(seg: string, p: nat)
    requires p < |seg|
  {
    var st := QuotingAt(seg, p);
    seg[p] == '=' && !st.inQuote && st.depth == 0 && !LogicAt(seg, p)
  }

  lemma {:induction false} FindAssignFromFirst(seg: string, i: nat)
    requires i <= |seg|
    ensures var st := QuotingAt(seg, i);
      var r := FindAssignFrom(seg, i, st.inQuote, st.quoteChar, st.depth);
      && (r.Some? ==> i <= r.value < |seg| && AssignAt(seg, r.value) && forall j :: i <= j < r.value ==> !AssignAt(seg, j))
      && (r.None? ==> forall j :: i <= j < |seg| ==> !AssignAt(seg, j))
    decreases |seg| - i
  {
    if i < |seg| {
      var st := QuotingAt(seg, i);
      var c := seg[i];
      if !(!st.inQuote && c == '=' && st.depth == 0 && !LogicAt(seg, i)) {
        var st' := QuotingAt(seg, i + 1);
        assert st' == AdvanceQuoting(st, c);
        assert !AssignAt(seg, i);
        FindAssignFromFirst(seg, i + 1);
        assert FindAssignFrom(seg, i, st.inQuote, st.quoteChar, st.depth)
            == FindAssignFrom(seg, i + 1, st'.inQuote, st'.quoteChar, st'.depth);
      }
    }
  }

  /** The scan finds the first `=` that makes the statement an assignment,
      and finds none exactly when there is none. */
  lemma FindAssignFirst(seg: string)
    ensures forall p: nat :: FindAssign(seg) == Some(p) <==>
      p < |seg| && AssignAt(seg, p) && forall j :: 0 <= j < p ==> !AssignAt(seg, j)
    ensures FindAssign(seg) == None <==> forall j :: 0 <= j < |seg| ==> !AssignAt(seg, j)
  {
    FindAssignFromFirst(seg, 0);
  }

  lemma {:induction false} FindAssignFromNone(seg: string, i: nat, q: bool, qc: char, depth: int)
    requires i <= |seg| && forall k :: i <= k < |seg| ==> seg[k] != '='
    ensures FindAssignFrom(seg, i, q, qc, depth) == None
    decreases |seg| - i
  {
    if i < |seg| {
      var c := seg[i];
      if q {
        FindAssignFromNone(seg, i + 1, c != qc, qc, depth);
      } else if c == '"' || c == '\'' {
        FindAssignFromNone(seg, i + 1, true, c, depth);
      } else if c == '(' {
        FindAssignFromNone(seg, i + 1, q, qc, depth + 1);
      } else if c == ')' {
        FindAssignFromNone(seg, i + 1, q, qc, if depth > 0 then depth - 1 else depth);
      } else {
        FindAssignFromNone(seg, i + 1, q, qc, depth);
      }
    }
  }

  /** A statement without `=` is an expression statement. */
  lemma NoEqualsNoAssign(seg: string)
    requires '=' !in seg
    ensures FindAssign(seg) == None
  {
    FindAssignFromNone(seg, 0, false, 0 as char, 0);
  }

  /** Only the neighbours of each `=` are inspected, so in `x==1` the second
      `=` (followed by `1`, preceded by `=`) is taken as the assignment. */
  lemma DoubleEqualsAssigns()
    ensures FindAssign("x==1") == Some(2)
    ensures FindAssign("a<=b") == None && FindAssign("a!=b") == None
    ensures FindAssign("f(x=1)") == None
    ensures FindAssign("'a=b'") == None && FindAssign("y='='") == Some(1)
  {
  }
}
