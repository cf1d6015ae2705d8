/** `std::getline(stream, piece, d)` called until it fails: the pieces of a
    text between occurrences of the delimiter `d`.  The text after the last
    delimiter is a piece only when it is not empty, so a trailing delimiter
    adds no empty piece.  `ComplexEngine::Compile` of the earlier compiler
    reads its statements this way with `','`, and `FormatCode` reads its
    lines with `'\n'`. */
module Getline {

  /** The next delimiter at or after `i`, or the end. */
  function NextDelim(s: string, d: char, i: nat): (j: nat)
    requires i <= |s|
    ensures i <= j <= |s| && (j == |s| || s[j] == d)
    ensures forall k :: i <= k < j ==> s[k] != d
    decreases |s| - i
  {
    if i == |s| || s[i] == d then i else NextDelim(s, d, i + 1)
  }

  /** The pieces read from position `i` on. */
  function PiecesFrom(s: string, d: char, i: nat): seq<string>
    decreases |s| + 1 - i
  {
    if i >= |s| then []
    else
      var j := NextDelim(s, d, i);
      [s[i..j]] + PiecesFrom(s, d, j + 1)
  }

  function Pieces(s: string, d: char): seq<string> {
    PiecesFrom(s, d, 0)
  }

  /** The scan for the end of a piece, as the stream does it. */
  method ReadTo(s: string, d: char, i: nat) returns (j: nat)
    requires i <= |s|
    ensures j == NextDelim(s, d, i)
  {
    j := i;
    while j < |s| && s[j] != d
      invariant i <= j <= |s| && NextDelim(s, d, i) == NextDelim(s, d, j)
      decreases |s| - j
    {
      j := j + 1;
    }
  }

  /** Every piece followed by the delimiter. */
  function Terminated(ps: seq<string>, d: char): string {
    if ps == [] then [] else ps[0] + [d] + Terminated(ps[1..], d)
  }

  /** Empty, or ending in the delimiter. */
  predicate Closed(s: string, d: char) {
    s == [] || s[|s| - 1] == d
  }

  /** The text with a delimiter added unless it is closed. */
  function Rejoined(s: string, d: char): string {
    if Closed(s, d) then s else s + [d]
  }

  lemma {:induction false} PiecesFromNoDelim(s: string, d: char, i: nat)
    ensures forall p :: 0 <= p < |PiecesFrom(s, d, i)| ==> d !in PiecesFrom(s, d, i)[p]
    decreases |s| + 1 - i
  {
    if i < |s| {
      var j := NextDelim(s, d, i);
      PiecesFromNoDelim(s, d, j + 1);
      assert d !in s[i..j] by {
        forall k | 0 <= k < j - i ensures s[i..j][k] != d {
          assert s[i..j][k] == s[i + k];
        }
      }
      assert PiecesFrom(s, d, i) == [s[i..j]] + PiecesFrom(s, d, j + 1);
    }
  }

  lemma PiecesFromCons(s: string, d: char, i: nat)
    requires i < |s|
    ensures PiecesFrom(s, d, i) == [s[i..NextDelim(s, d, i)]] + PiecesFrom(s, d, NextDelim(s, d, i) + 1)
  {
  }

  lemma TerminatedCons(p: string, rest: seq<string>, d: char)
    ensures Terminated([p] + rest, d) == p + [d] + Terminated(rest, d)
  {
    assert ([p] + rest)[1..] == rest;
  }

  /** A piece, its delimiter and what follows, rejoined. */
  lemma RejoinedAfterDelim(a: string, tail: string, d: char)
    ensures Rejoined(a + [d] + tail, d) == a + [d] + Rejoined(tail, d)
  {
    if tail != [] {
      assert (a + [d] + tail)[|a| + |tail|] == tail[|tail| - 1];
    }
  }

  lemma LastPiece(s: string, d: char, i: nat)
    requires i < |s| && NextDelim(s, d, i) == |s|
    ensures Rejoined(s[i..], d) == s[i..NextDelim(s, d, i)] + [d]
  {
    assert s[i..][|s| - 1 - i] == s[|s| - 1];
  }

  lemma SplitAtDelim(s: string, d: char, i: nat, j: nat)
    requires i <= j < |s| && s[j] == d
    ensures s[i..] == s[i..j] + [d] + s[j + 1..]
  {
  }

  lemma {:induction false} PiecesFromJoin(s: string, d: char, i: nat)
    requires i <= |s|
    ensures Terminated(PiecesFrom(s, d, i), d) == Rejoined(s[i..], d)
    decreases |s| - i
  {
    if i < |s| {
      var j := NextDelim(s, d, i);
      if j == |s| {
        JoinLast(s, d, i);
      } else {
        PiecesFromJoin(s, d, j + 1);
        JoinStep(s, d, i);
      }
    }
  }

  /** The last piece, with no delimiter after it. */
  lemma JoinLast(s: string, d: char, i: nat)
    requires i < |s| && NextDelim(s, d, i) == |s|
    ensures Terminated(PiecesFrom(s, d, i), d) == Rejoined(s[i..], d)
  {
    var j := NextDelim(s, d, i);
    PiecesFromCons(s, d, i);
    TerminatedCons(s[i..j], [], d);
    LastPiece(s, d, i);
  }

  /** A piece ended by a delimiter, then the rest. */
  lemma JoinStep(s: string, d: char, i: nat)
    requires i < |s| && NextDelim(s, d, i) < |s|
    requires Terminated(PiecesFrom(s, d, NextDelim(s, d, i) + 1), d) == Rejoined(s[NextDelim(s, d, i) + 1..], d)
    ensures Terminated(PiecesFrom(s, d, i), d) == Rejoined(s[i..], d)
  {
    var j := NextDelim(s, d, i);
    var a, rest, tail := s[i..j], PiecesFrom(s, d, j + 1), s[j + 1..];
    calc {
      Terminated(PiecesFrom(s, d, i), d);
      { PiecesFromCons(s, d, i); }
      Terminated([a] + rest, d);
      { TerminatedCons(a, rest, d); }
      a + [d] + Terminated(rest, d);
      a + [d] + Rejoined(tail, d);
      { RejoinedAfterDelim(a, tail, d); }
      Rejoined(a + [d] + tail, d);
      { SplitAtDelim(s, d, i, j); }
      Rejoined(s[i..], d);
    }
  }

  /** Joining the pieces with a delimiter after each gives back the text,
      with one delimiter added when the text does not end in one, and no
      piece holds the delimiter. */
  lemma PiecesJoin(s: string, d: char)
    ensures Terminated(Pieces(s, d), d) == if s == [] || s[|s| - 1] == d then s else s + [d]
    ensures forall p :: 0 <= p < |Pieces(s, d)| ==> d !in Pieces(s, d)[p]
  {
    PiecesFromJoin(s, d, 0);
    PiecesFromNoDelim(s, d, 0);
    assert s[0..] == s;
  }
}
