/** `CompressCode` and `ExpandCode` of `bytebeat-player/Utils/Utils.cpp`: the
    editor shows a quoted string literal longer than 1000 characters as a
    key `@HIDDEN_DATA_n@`, keeps the literal in `AppState::hiddenChunks`, and
    puts the literals back before the code is compiled. */
module CodeCompression {
  import opened Wrappers
  import opened HiddenKeys
  import opened TextReplace
  import opened HiddenSegments
  import StringMap
  import GlobalState

  /** A quoted string whose `strLen` exceeds this is hidden. */
  const MAX_SHOWN: nat := 1000

  predicate IsQuote(c: char) {
    c == '\'' || c == '"'
  }

  /** The quote at `i` ends the string: it is not preceded by a backslash,
      unless that backslash is itself preceded by one. */
  predicate Closes(code: string, i: nat, quote: char)
    requires i < |code|
  {
    code[i] == quote && (i == 0 || code[i - 1] != '\\' || (i >= 2 && code[i - 2] == '\\'))
  }

  /** Where the inner `while` stops: the first closing quote at or after `i`,
      or the end of the code for a string that is never closed. */
  function QuoteEnd(code: string, i: nat, quote: char): (e: nat)
    requires i <= |code|
    ensures i <= e <= |code| && (e < |code| ==> Closes(code, e, quote))
    ensures forall k :: i <= k < e ==> !Closes(code, k, quote)
    decreases |code| - i
  {
    if i == |code| || Closes(code, i, quote) then i else QuoteEnd(code, i + 1, quote)
  }

  /** Where the scan goes on after the piece at `i`: past the closing quote
      of a string (one past the end for a string never closed), or to the
      next character. */
  function PieceEnd(code: string, i: nat): (j: nat)
    requires i < |code|
    ensures i < j <= |code| + 1
  {
    if IsQuote(code[i]) then QuoteEnd(code, i + 1, code[i]) + 1 else i + 1
  }

  /** The text of the piece at `i`: `code.substr(start, strLen)` stops at the
      end of the code. */
  function PieceText(code: string, i: nat): string
    requires i < |code|
  {
    var j := PieceEnd(code, i);
    code[i..if j <= |code| then j else |code|]
  }

  /** The piece at `i` is a string whose `strLen` exceeds the limit. */
  predicate Hides(code: string, i: nat)
    requires i < |code|
  {
    IsQuote(code[i]) && PieceEnd(code, i) - i > MAX_SHOWN
  }

  function Piece(code: string, i: nat, counter: nat): Seg
    requires i < |code|
  {
    if Hides(code, i) then Hidden(counter, PieceText(code, i)) else Lit(PieceText(code, i))
  }

  /** The pieces `CompressCode` cuts the code into from index `i` on, the
      hidden ones numbered from `counter`. */
  function SegsFrom(code: string, i: nat, counter: nat): seq<Seg>
    decreases |code| + 1 - i
  {
    if i >= |code| then []
    else [Piece(code, i, counter)] + SegsFrom(code, PieceEnd(code, i), counter + if Hides(code, i) then 1 else 0)
  }

  /** The pieces of the whole code; `CompressCode` resets the counter to 0. */
  function Segs(code: string): seq<Seg> {
    SegsFrom(code, 0, 0)
  }

  /** `m[k] = v` for every entry of `ps` in order. */
  function PutAll(e: StringMap.Entries, ps: StringMap.Entries): StringMap.Entries
    decreases |ps|
  {
    if ps == [] then e else PutAll(StringMap.Put(e, ps[0].0, ps[0].1), ps[1..])
  }

  /** The table `CompressCode` leaves in `hiddenChunks`. */
  function Table(code: string): StringMap.Entries {
    PutAll([], Chunks(Segs(code)))
  }

  /** A hidden piece is a quoted string of at least 1000 characters; a kept
      one is a single character or a string of at most 1000. */
  predicate WellCut(g: Seg) {
    match g
    case Hidden(_, c) => |c| >= MAX_SHOWN && IsQuote(c[0])
    case Lit(t) => 0 < |t| <= MAX_SHOWN && (|t| > 1 ==> IsQuote(t[0]))
  }

  predicate DistinctKeys(ps: StringMap.Entries) {
    forall i, j :: 0 <= i < j < |ps| ==> ps[i].0 != ps[j].0
  }

  // ---------------------------------------------------------------- the pieces

  /** The pieces spell the code: nothing is dropped, added or reordered. */
  lemma {:induction false} OriginalSegsFrom(code: string, i: nat, counter: nat)
    ensures Original(SegsFrom(code, i, counter)) == if i < |code| then code[i..] else []
    decreases |code| + 1 - i
  {
    if i < |code| {
      var gs, j := SegsFrom(code, i, counter), PieceEnd(code, i);
      var n := counter + if Hides(code, i) then 1 else 0;
      OriginalSegsFrom(code, j, n);
      assert gs[1..] == SegsFrom(code, j, n);
      assert Source(gs[0]) == PieceText(code, i);
      Splice(code, i, j);
    }
  }

  /** A piece's text followed by the rest of the code is the code from `i`. */
  lemma Splice(code: string, i: nat, j: nat)
    requires i < j <= |code| + 1
    ensures code[i..if j <= |code| then j else |code|] + (if j < |code| then code[j..] else []) == code[i..]
  {
  }

  lemma OriginalSegs(code: string)
    ensures Original(Segs(code)) == code
  {
    OriginalSegsFrom(code, 0, 0);
  }

  /** The hidden pieces are numbered `counter`, `counter + 1`, … in order:
      their numbers are exactly the next `|Chunks|` values, each used once. */
  lemma {:induction false} SegsFromIds(code: string, i: nat, counter: nat)
    ensures forall n :: n in IdSet(SegsFrom(code, i, counter)) <==> counter <= n < counter + |Chunks(SegsFrom(code, i, counter))|
    ensures UniqueIds(SegsFrom(code, i, counter))
    decreases |code| + 1 - i
  {
    if i < |code| {
      var gs, j := SegsFrom(code, i, counter), PieceEnd(code, i);
      var n := counter + if Hides(code, i) then 1 else 0;
      SegsFromIds(code, j, n);
      assert gs[1..] == SegsFrom(code, j, n);
    }
  }

  /** Every piece is cut as the hiding rule says. */
  lemma {:induction false} SegsFromWellCut(code: string, i: nat, counter: nat)
    ensures forall k :: 0 <= k < |SegsFrom(code, i, counter)| ==> WellCut(SegsFrom(code, i, counter)[k])
    decreases |code| + 1 - i
  {
    if i < |code| {
      var gs, j := SegsFrom(code, i, counter), PieceEnd(code, i);
      var n := counter + if Hides(code, i) then 1 else 0;
      SegsFromWellCut(code, j, n);
      assert gs[1..] == SegsFrom(code, j, n);
    }
  }

  // ---------------------------------------------------------------- the table

  /** With unique numbers, no key is recorded twice. */
  lemma {:induction false} ChunkKeysDistinct(gs: seq<Seg>)
    requires UniqueIds(gs)
    ensures DistinctKeys(Chunks(gs))
  {
    if gs != [] {
      var rest := gs[1..];
      ChunkKeysDistinct(rest);
      if gs[0].Hidden? {
        var ps := Chunks(gs);
        assert ps[1..] == Chunks(rest);
        forall j | 0 < j < |ps| ensures ps[0].0 != ps[j].0 {
          var m := PairInv(rest, ps[j]);
          if ps[0].0 == ps[j].0 {
            KeyInjective(gs[0].id, m);
          }
        }
      }
    }
  }

  /** Putting fresh, distinct keys adds exactly those entries. */
  lemma {:induction false} PutAllFresh(e: StringMap.Entries, ps: StringMap.Entries)
    requires DistinctKeys(ps)
    requires forall i :: 0 <= i < |ps| ==> ps[i].0 !in StringMap.KeysOf(e)
    ensures multiset(PutAll(e, ps)) == multiset(e) + multiset(ps)
    decreases |ps|
  {
    if ps != [] {
      var e' := StringMap.Put(e, ps[0].0, ps[0].1);
      StringMap.PutFresh(e, ps[0].0, ps[0].1);
      PutAllFresh(e', ps[1..]);
      assert ps == [ps[0]] + ps[1..];
    }
  }

  lemma {:induction false} PutAllSorted(e: StringMap.Entries, ps: StringMap.Entries)
    requires StringMap.Sorted(e)
    ensures StringMap.Sorted(PutAll(e, ps))
    decreases |ps|
  {
    if ps != [] {
      StringMap.PutSorted(e, ps[0].0, ps[0].1);
      PutAllSorted(StringMap.Put(e, ps[0].0, ps[0].1), ps[1..]);
    }
  }

  /** `hiddenChunks` holds one entry per hidden piece, sorted by key as a
      `std::map` keeps it. */
  lemma TableContents(code: string)
    ensures multiset(Table(code)) == multiset(Chunks(Segs(code)))
    ensures StringMap.Sorted(Table(code))
  {
    SegsFromIds(code, 0, 0);
    ChunkKeysDistinct(Segs(code));
    PutAllFresh([], Chunks(Segs(code)));
    PutAllSorted([], Chunks(Segs(code)));
  }

  /** `ExpandCode` after `CompressCode` gives back the code, provided the code
      does not itself hold the text `HIDDEN_DATA_`. */
  lemma ExpandCompress(code: string)
    requires NoMarker(code)
    ensures KeysNonEmpty(Table(code))
    ensures ExpandAll(Render(Segs(code)), Table(code)) == code
  {
    OriginalSegs(code);
    SegsFromIds(code, 0, 0);
    TableContents(code);
    ExpandAllSegs(Segs(code), Table(code));
  }

  /** Code without long strings comes out of `CompressCode` as it went in,
      with an empty table. */
  lemma {:induction false} NothingHidden(code: string, i: nat, counter: nat)
    ensures Chunks(SegsFrom(code, i, counter)) == [] ==> Render(SegsFrom(code, i, counter)) == (if i < |code| then code[i..] else [])
  {
    NoHiddenRender(SegsFrom(code, i, counter));
    OriginalSegsFrom(code, i, counter);
  }

  // ---------------------------------------------------------------- the methods

  /** The inner `while` of `CompressCode`. */
  method FindQuoteEnd(code: string, i: nat, quote: char) returns (e: nat)
    requires i <= |code|
    ensures e == QuoteEnd(code, i, quote)
  {
    e := i;
    while e < |code| && !Closes(code, e, quote)
      invariant i <= e <= |code| && QuoteEnd(code, i, quote) == QuoteEnd(code, e, quote)
      decreases |code| - e
    {
      e := e + 1;
    }
  }

  /** The string opening at `i`: where it ends, its `strLen` and the text
      `substr` takes. */
  method ReadString(code: string, i: nat) returns (e: nat, strLen: int, content: string)
    requires i < |code| && IsQuote(code[i])
    ensures e + 1 == PieceEnd(code, i) && content == PieceText(code, i)
    ensures strLen == e - i + 1 && (strLen > MAX_SHOWN <==> Hides(code, i))
  {
    e := FindQuoteEnd(code, i + 1, code[i]);
    strLen := e - i + 1;
    content := code[i..if e < |code| then e + 1 else |code|];
  }

  /** What `CompressCode` has written once the pieces `todo` are left:
      `out`, `chunks` and `counter` with what `todo` adds make the final
      text, table and count. */
  ghost predicate Written(todo: seq<Seg>, counter: nat, chunks: StringMap.Entries, out: string,
                          text: string, table: StringMap.Entries, count: nat) {
    && text == out + Render(todo)
    && table == PutAll(chunks, Chunks(todo))
    && count == counter + |Chunks(todo)|
  }

  /** The piece at `i` and the pieces after it. */
  lemma SegsFromStep(code: string, i: nat, counter: nat)
    requires i < |code|
    ensures SegsFrom(code, i, counter)
      == [Piece(code, i, counter)] + SegsFrom(code, PieceEnd(code, i), counter + if Hides(code, i) then 1 else 0)
  {
  }

  /** A long string at `i` is the first piece, hidden under `counter`. */
  lemma SegsFromHide(code: string, i: nat, counter: nat)
    requires i < |code| && Hides(code, i)
    ensures SegsFrom(code, i, counter) == [Hidden(counter, PieceText(code, i))] + SegsFrom(code, PieceEnd(code, i), counter + 1)
  {
    SegsFromStep(code, i, counter);
  }

  /** Any other piece at `i` is shown as it is. */
  lemma SegsFromKeep(code: string, i: nat, counter: nat)
    requires i < |code| && !Hides(code, i)
    ensures SegsFrom(code, i, counter) == [Lit(PieceText(code, i))] + SegsFrom(code, PieceEnd(code, i), counter)
  {
    SegsFromStep(code, i, counter);
  }

  /** A long string written as its key. */
  lemma HideStep(todo: seq<Seg>, rest: seq<Seg>, n: nat, t: string, chunks: StringMap.Entries, out: string,
                 counter': nat, chunks': StringMap.Entries, out': string,
                 text: string, table: StringMap.Entries, count: nat)
    requires todo == [Hidden(n, t)] + rest && Written(todo, n, chunks, out, text, table, count)
    requires counter' == n + 1 && chunks' == StringMap.Put(chunks, Key(n), t) && out' == out + Key(n)
    ensures Written(rest, counter', chunks', out', text, table, count)
  {
    RenderStep(todo, rest, out);
    TableStep(todo, rest, n, t, chunks);
  }

  /** The text of the first piece moves from what is left to what is written. */
  lemma RenderStep(todo: seq<Seg>, rest: seq<Seg>, out: string)
    requires todo != [] && todo[1..] == rest
    ensures out + Render(todo) == (out + Shown(todo[0])) + Render(rest)
  {
    assert out + (Shown(todo[0]) + Render(rest)) == (out + Shown(todo[0])) + Render(rest);
  }

  /** The entry of a hidden first piece moves from what is left to the table. */
  lemma TableStep(todo: seq<Seg>, rest: seq<Seg>, n: nat, t: string, chunks: StringMap.Entries)
    requires todo == [Hidden(n, t)] + rest
    ensures PutAll(chunks, Chunks(todo)) == PutAll(StringMap.Put(chunks, Key(n), t), Chunks(rest))
    ensures |Chunks(todo)| == 1 + |Chunks(rest)|
  {
    assert todo[1..] == rest;
    var ps := Chunks(todo);
    assert ps == [(Key(n), t)] + Chunks(rest);
    assert ps[1..] == Chunks(rest);
  }

  /** A character or a short string copied as it is. */
  lemma KeepStep(todo: seq<Seg>, rest: seq<Seg>, t: string, counter: nat, chunks: StringMap.Entries, out: string,
                 out': string, text: string, table: StringMap.Entries, count: nat)
    requires todo == [Lit(t)] + rest && Written(todo, counter, chunks, out, text, table, count)
    requires out' == out + t
    ensures Written(rest, counter, chunks, out', text, table, count)
  {
    assert todo[1..] == rest;
    RenderStep(todo, rest, out);
  }

  /** One turn of `CompressCode`'s loop: the piece at `i` written out, as
      its key when it is a long string. */
  method CopyPiece(code: string, i: nat, counter: nat, chunks: StringMap.Entries, out: string,
                   ghost text: string, ghost table: StringMap.Entries, ghost count: nat)
    returns (i': nat, counter': nat, chunks': StringMap.Entries, out': string)
    requires i < |code| && Written(SegsFrom(code, i, counter), counter, chunks, out, text, table, count)
    ensures i < i' && Written(SegsFrom(code, i', counter'), counter', chunks', out', text, table, count)
  {
    ghost var todo := SegsFrom(code, i, counter);
    var c := code[i];
    if c == '\'' || c == '"' {
      var e, strLen, content := ReadString(code, i);
      i' := e + 1;
      if strLen > MAX_SHOWN {
        var key := Key(counter);
        counter' := counter + 1;
        chunks' := StringMap.Put(chunks, key, content);
        out' := out + key;
        SegsFromHide(code, i, counter);
        HideStep(todo, SegsFrom(code, i', counter'), counter, content, chunks, out, counter', chunks', out', text, table, count);
      } else {
        counter', chunks', out' := counter, chunks, out + content;
        SegsFromKeep(code, i, counter);
        KeepStep(todo, SegsFrom(code, i', counter'), content, counter, chunks, out, out', text, table, count);
      }
    } else {
      i', counter', chunks', out' := i + 1, counter, chunks, out + [c];
      SegsFromKeep(code, i, counter);
      assert PieceEnd(code, i) == i + 1 && PieceText(code, i) == [c];
      KeepStep(todo, SegsFrom(code, i', counter'), [c], counter, chunks, out, out', text, table, count);
    }
  }

  /** `CompressCode`: returns the text the editor shows and leaves the hidden
      strings in `hiddenChunks`, numbered from 0, with `hiddenCounter` their
      number.  The table and the counter are built in locals and stored at
      the end, which leaves the same state as the source's updates of
      `state` as it goes. */
  method CompressCode(app: GlobalState.AppState, code: string) returns (out: string)
    modifies app
    ensures out == Render(Segs(code))
    ensures app.hiddenChunks == Table(code)
    ensures app.hiddenCounter == |Chunks(Segs(code))|
    ensures app.vmMemory == old(app.vmMemory) && app.varTable == old(app.varTable)
  {
    ghost var text, table, count := Render(Segs(code)), Table(code), |Chunks(Segs(code))|;
    var chunks: StringMap.Entries, counter: nat := [], 0;
    out := [];
    var i: nat := 0;
    assert [] + text == text;
    while i < |code|
      invariant Written(SegsFrom(code, i, counter), counter, chunks, out, text, table, count)
      modifies {}
      decreases |code| + 1 - i
    {
      i, counter, chunks, out := CopyPiece(code, i, counter, chunks, out, text, table, count);
    }
    assert out + [] == out;
    app.hiddenChunks, app.hiddenCounter := chunks, counter;
  }

  /** One replacement of the `find` / `replace` loop. */
  lemma ReplaceAdvance(r: string, key: string, value: string, pos: nat, k: nat, r': string)
    requires |key| > 0 && Find(r, key, pos) == Some(k) && r' == Spliced(r, k, |key|, value)
    ensures k + |value| <= |r'| && |r'| - (k + |value|) < |r| - pos
    ensures ReplaceFrom(r, key, value, pos) == ReplaceFrom(r', key, value, k + |value|)
  {
    assert pos <= k && k + |key| <= |r|;
    assert |r'| == k + |value| + (|r| - (k + |key|));
  }

  /** The `find` / `replace` loop stops when `find` fails. */
  lemma ReplaceDone(r: string, key: string, value: string, pos: nat)
    requires |key| > 0 && Find(r, key, pos).None?
    ensures ReplaceFrom(r, key, value, pos) == r
  {
  }

  /** The `find` / `replace` loop for one entry. */
  method ReplaceAll(s: string, key: string, value: string) returns (r: string)
    requires |key| > 0
    ensures r == ReplaceFrom(s, key, value, 0)
  {
    r := s;
    var pos: nat := 0;
    ghost var want := ReplaceFrom(s, key, value, 0);
    while true
      invariant pos <= |r|
      invariant want == ReplaceFrom(r, key, value, pos)
      decreases |r| - pos
    {
      var f := Find(r, key, pos);
      if f.None? {
        ReplaceDone(r, key, value, pos);
        break;
      }
      var k := f.value;
      var r' := Spliced(r, k, |key|, value);
      var pos' := k + |value|;
      ReplaceAdvance(r, key, value, pos, k, r');
      assert want == ReplaceFrom(r', key, value, pos');
      r, pos := r', pos';
    }
  }

  /** `ExpandCode`: every key of `hiddenChunks`, in the table's order, replaced
      by its string wherever it occurs. */
  method ExpandCode(app: GlobalState.AppState, code: string) returns (result: string)
    requires KeysNonEmpty(app.hiddenChunks)
    ensures result == ExpandAll(code, app.hiddenChunks)
  {
    result := code;
    var t: nat := 0;
    while t < |app.hiddenChunks|
      invariant t <= |app.hiddenChunks| && KeysNonEmpty(app.hiddenChunks[t..])
      invariant ExpandAll(code, app.hiddenChunks) == ExpandAll(result, app.hiddenChunks[t..])
    {
      var key, value := app.hiddenChunks[t].0, app.hiddenChunks[t].1;
      assert app.hiddenChunks[t..][1..] == app.hiddenChunks[t + 1..];
      result := ReplaceAll(result, key, value);
      t := t + 1;
    }
  }

  /** An empty table leaves the code as it is. */
  lemma ExpandEmpty(code: string)
    ensures ExpandAll(code, []) == code
  {
  }
}
