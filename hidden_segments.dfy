/** The code as `CompressCode` sees it: a sequence of pieces that are either
    kept as they are or hidden behind a numbered key.  `Render` is the text
    `CompressCode` returns, `Original` the code it read; this module proves
    that `ExpandCode`'s replacements turn the first back into the second when
    the code holds no `HIDDEN_DATA_` of its own. */
module HiddenSegments {
  import opened Wrappers
  import opened HiddenKeys
  import opened TextReplace
  import StringMap

  datatype Seg = Lit(text: string) | Hidden(id: nat, content: string)

  /** What the piece contributes to the compressed text. */
  function Shown(g: Seg): string {
    match g
    case Lit(t) => t
    case Hidden(n, _) => Key(n)
  }

  /** What the piece was in the code. */
  function Source(g: Seg): string {
    match g
    case Lit(t) => t
    case Hidden(_, c) => c
  }

  function Render(gs: seq<Seg>): string {
    if gs == [] then [] else Shown(gs[0]) + Render(gs[1..])
  }

  function Original(gs: seq<Seg>): string {
    if gs == [] then [] else Source(gs[0]) + Original(gs[1..])
  }

  /** The numbers of the hidden pieces. */
  function IdSet(gs: seq<Seg>): set<nat> {
    if gs == [] then {}
    else (if gs[0].Hidden? then {gs[0].id} else {}) + IdSet(gs[1..])
  }

  /** No number is used for two hidden pieces. */
  predicate UniqueIds(gs: seq<Seg>) {
    gs == [] || ((gs[0].Hidden? ==> gs[0].id !in IdSet(gs[1..])) && UniqueIds(gs[1..]))
  }

  /** The (key, content) entry each hidden piece puts in the table, in order. */
  function Chunks(gs: seq<Seg>): StringMap.Entries {
    if gs == [] then []
    else match gs[0]
      case Lit(_) => Chunks(gs[1..])
      case Hidden(n, c) => [(Key(n), c)] + Chunks(gs[1..])
  }

  /** The number of the key that starts at offset `o` of the compressed text,
      if a key starts there. */
  function KeyIdAt(gs: seq<Seg>, o: int): Option<nat> {
    if gs == [] || o < 0 then None
    else if gs[0].Hidden? && o == 0 then Some(gs[0].id)
    else KeyIdAt(gs[1..], o - |Shown(gs[0])|)
  }

  /** Where the key of hidden piece `m` starts in the compressed text. */
  function KeyOffset(gs: seq<Seg>, m: nat): nat
    requires m in IdSet(gs)
  {
    if gs[0].Hidden? && gs[0].id == m then 0 else |Shown(gs[0])| + KeyOffset(gs[1..], m)
  }

  function ContentOf(gs: seq<Seg>, m: nat): string
    requires m in IdSet(gs)
  {
    if gs[0].Hidden? && gs[0].id == m then gs[0].content else ContentOf(gs[1..], m)
  }

  /** The pieces once the key of piece `m` has been replaced by its content. */
  function Unhide(gs: seq<Seg>, m: nat): seq<Seg> {
    if gs == [] then []
    else [if gs[0].Hidden? && gs[0].id == m then Lit(gs[0].content) else gs[0]] + Unhide(gs[1..], m)
  }

  // ---------------------------------------------------------------- keys in the compressed text

  lemma {:induction false} KeyIdIn(gs: seq<Seg>, o: int)
    ensures KeyIdAt(gs, o).Some? ==> KeyIdAt(gs, o).value in IdSet(gs)
  {
    if gs != [] && o >= 0 && !(gs[0].Hidden? && o == 0) {
      KeyIdIn(gs[1..], o - |Shown(gs[0])|);
    }
  }

  lemma {:induction false} KeyIdRender(gs: seq<Seg>, o: int)
    ensures KeyIdAt(gs, o).Some? ==> At(Render(gs), Key(KeyIdAt(gs, o).value), o)
  {
    if gs != [] && o >= 0 {
      var g, rest := gs[0], gs[1..];
      RenderCons(gs);
      if g.Hidden? && o == 0 {
        AtLeft(Key(g.id), Render(rest), Key(g.id), 0);
        assert At(Key(g.id), Key(g.id), 0);
      } else {
        var o' := o - |Shown(g)|;
        assert KeyIdAt(gs, o) == KeyIdAt(rest, o');
        KeyIdRender(rest, o');
        if KeyIdAt(rest, o').Some? {
          AtRight(Shown(g), Render(rest), Key(KeyIdAt(rest, o').value), o');
        }
      }
    }
  }

  lemma RenderCons(gs: seq<Seg>)
    requires gs != []
    ensures Render(gs) == Shown(gs[0]) + Render(gs[1..])
  {
  }

  lemma {:induction false} KeyIdOffset(gs: seq<Seg>, m: nat)
    requires m in IdSet(gs)
    ensures KeyIdAt(gs, KeyOffset(gs, m)) == Some(m)
  {
    if !(gs[0].Hidden? && gs[0].id == m) {
      KeyIdOffset(gs[1..], m);
    }
  }

  /** With unique numbers, the key of piece `m` starts at one place only. */
  lemma {:induction false} KeyIdUnique(gs: seq<Seg>, m: nat, o: int)
    requires UniqueIds(gs)
    ensures KeyIdAt(gs, o) == Some(m) ==> m in IdSet(gs) && o == KeyOffset(gs, m)
  {
    if gs != [] && o >= 0 {
      if gs[0].Hidden? && o == 0 {
      } else {
        KeyIdUnique(gs[1..], m, o - |Shown(gs[0])|);
        KeyIdIn(gs[1..], o - |Shown(gs[0])|);
      }
    }
  }

  /** The marker occurs in `t + Render(gs)` only right after the `@` that
      starts a key, when neither `t` nor the code holds it. */
  lemma {:induction false} MarkerInKey(t: string, gs: seq<Seg>, a: int)
    requires NoMarker(t + Original(gs))
    ensures At(t + Render(gs), MARKER, a) ==> KeyIdAt(gs, a - |t| - 1).Some?
    decreases |gs|, 1
  {
    if gs == [] {
      assert t + Render(gs) == t + Original(gs);
    } else if gs[0].Lit? {
      MarkerInKeyLit(t, gs, a);
    } else {
      MarkerInKeyHidden(t, gs, a);
    }
  }

  /** `MarkerInKey` when the first piece is kept as it is. */
  lemma {:induction false} MarkerInKeyLit(t: string, gs: seq<Seg>, a: int)
    requires gs != [] && gs[0].Lit?
    requires NoMarker(t + Original(gs))
    ensures At(t + Render(gs), MARKER, a) ==> KeyIdAt(gs, a - |t| - 1).Some?
    decreases |gs|, 0
  {
    var u, rest := gs[0].text, gs[1..];
    LitParts(t, gs);
    MarkerInKey(t + u, rest, a);
    LitKeyId(gs, a - |t| - 1);
  }

  /** Both texts of a program whose first piece is kept start with it. */
  lemma LitParts(t: string, gs: seq<Seg>)
    requires gs != [] && gs[0].Lit?
    ensures t + Render(gs) == (t + gs[0].text) + Render(gs[1..])
    ensures t + Original(gs) == (t + gs[0].text) + Original(gs[1..])
  {
  }

  /** Keys after a kept piece are found past it. */
  lemma LitKeyId(gs: seq<Seg>, o: int)
    requires gs != [] && gs[0].Lit?
    ensures o >= 0 ==> KeyIdAt(gs, o) == KeyIdAt(gs[1..], o - |gs[0].text|)
    ensures o < 0 ==> KeyIdAt(gs, o) == None
  {
  }

  /** `MarkerInKey` when the first piece is hidden. */
  lemma {:induction false} MarkerInKeyHidden(t: string, gs: seq<Seg>, a: int)
    requires gs != [] && gs[0].Hidden?
    requires NoMarker(t + Original(gs))
    ensures At(t + Render(gs), MARKER, a) ==> KeyIdAt(gs, a - |t| - 1).Some?
    decreases |gs|, 0
  {
    var k, rest := Key(gs[0].id), gs[1..];
    assert t + Render(gs) == (t + k) + Render(rest);
    assert t + Original(gs) == t + (gs[0].content + Original(rest));
    NoMarkerParts(t, gs[0].content + Original(rest));
    NoMarkerParts(gs[0].content, Original(rest));
    if a < |t| + |k| {
      MarkerInHead(t, gs[0].id, Render(rest), a);
    } else {
      AtDrop(t + k, Render(rest), MARKER, a);
      assert [] + Original(rest) == Original(rest) && [] + Render(rest) == Render(rest);
      MarkerInKey([], rest, a - |t| - |k|);
    }
  }

  /** Before the end of a key that follows marker-free text, the marker
      occurs only inside the key. */
  lemma MarkerInHead(t: string, n: nat, r: string, a: int)
    requires NoMarker(t)
    ensures a < |t| + |Key(n)| && At(t + Key(n) + r, MARKER, a) ==> a == |t| + 1
  {
    var k, x := Key(n), t + Key(n) + r;
    KeyShape(n);
    MarkerShape();
    assert x == t + (k + r);
    AtKeep(t, k + r, MARKER, a);
    AtIndex(x, MARKER, a, 0);
    AtIndex(x, MARKER, a, |t| - a);
    assert |t| <= a < |t| + |k| ==> x[a] == k[a - |t|];
    assert |k| > 0 ==> x[|t|] == k[0];
  }

  /** Every occurrence of a key in the text `CompressCode` returns is the
      place of the hidden piece with that number. */
  lemma KeyAt(gs: seq<Seg>, n: nat, o: int)
    requires NoMarker(Original(gs))
    ensures At(Render(gs), Key(n), o) ==> KeyIdAt(gs, o) == Some(n)
  {
    var s := Render(gs);
    KeyShape(n);
    AtSlice(s, Key(n), o, 1, 13);
    assert [] + Original(gs) == Original(gs) && [] + s == s;
    MarkerInKey([], gs, o + 1);
    KeyIdRender(gs, o);
    if At(s, Key(n), o) {
      KeysAgree(s, o, n, KeyIdAt(gs, o).value);
    }
  }

  // ---------------------------------------------------------------- replacing one key

  lemma {:induction false} UnhideAbsent(gs: seq<Seg>, m: nat)
    requires m !in IdSet(gs)
    ensures Unhide(gs, m) == gs
  {
    if gs != [] {
      UnhideAbsent(gs[1..], m);
    }
  }

  lemma {:induction false} UnhideKeeps(gs: seq<Seg>, m: nat)
    ensures Original(Unhide(gs, m)) == Original(gs)
    ensures IdSet(Unhide(gs, m)) == IdSet(gs) - {m}
    ensures UniqueIds(gs) ==> UniqueIds(Unhide(gs, m))
  {
    if gs != [] {
      UnhideKeeps(gs[1..], m);
      var u := Unhide(gs, m);
      assert u[1..] == Unhide(gs[1..], m);
    }
  }

  /** The compressed text before the key of piece `m`. */
  function Before(gs: seq<Seg>, m: nat): string
    requires m in IdSet(gs)
  {
    if gs[0].Hidden? && gs[0].id == m then [] else Shown(gs[0]) + Before(gs[1..], m)
  }

  /** The compressed text after the key of piece `m`. */
  function After(gs: seq<Seg>, m: nat): string
    requires m in IdSet(gs)
  {
    if gs[0].Hidden? && gs[0].id == m then Render(gs[1..]) else After(gs[1..], m)
  }

  /** The key of piece `m` sits between `Before` and `After`, and unhiding
      `m` puts its content there instead. */
  lemma {:induction false} UnhideSplit(gs: seq<Seg>, m: nat)
    requires UniqueIds(gs) && m in IdSet(gs)
    ensures Render(gs) == Before(gs, m) + Key(m) + After(gs, m)
    ensures Render(Unhide(gs, m)) == Before(gs, m) + ContentOf(gs, m) + After(gs, m)
    ensures KeyOffset(gs, m) == |Before(gs, m)|
  {
    if gs[0].Hidden? && gs[0].id == m {
      UnhideSplitHere(gs, m);
    } else {
      assert UniqueIds(gs[1..]) && m in IdSet(gs[1..]);
      UnhideSplit(gs[1..], m);
      UnhideSplitPast(gs, m);
    }
  }

  /** `UnhideSplit` when the first piece is piece `m`. */
  lemma UnhideSplitHere(gs: seq<Seg>, m: nat)
    requires UniqueIds(gs) && gs != [] && gs[0].Hidden? && gs[0].id == m
    ensures m in IdSet(gs)
    ensures Render(gs) == Before(gs, m) + Key(m) + After(gs, m)
    ensures Render(Unhide(gs, m)) == Before(gs, m) + ContentOf(gs, m) + After(gs, m)
    ensures KeyOffset(gs, m) == |Before(gs, m)|
  {
    var c, rest := gs[0].content, gs[1..];
    assert m in IdSet(gs);
    assert Before(gs, m) == [] && After(gs, m) == Render(rest) && ContentOf(gs, m) == c;
    assert m !in IdSet(rest);
    UnhideAbsent(rest, m);
    UnhideCons(gs, m);
    assert Unhide(gs, m)[0] == Lit(c);
    assert Render(gs) == Key(m) + Render(rest);
    assert Render(Unhide(gs, m)) == c + Render(rest);
    assert Before(gs, m) + Key(m) == Key(m) && Before(gs, m) + c == c;
  }

  /** `UnhideSplit` carries over a first piece that is not piece `m`. */
  lemma UnhideSplitPast(gs: seq<Seg>, m: nat)
    requires gs != [] && !(gs[0].Hidden? && gs[0].id == m) && m in IdSet(gs)
    requires m in IdSet(gs[1..])
    requires Render(gs[1..]) == Before(gs[1..], m) + Key(m) + After(gs[1..], m)
    requires Render(Unhide(gs[1..], m)) == Before(gs[1..], m) + ContentOf(gs[1..], m) + After(gs[1..], m)
    requires KeyOffset(gs[1..], m) == |Before(gs[1..], m)|
    ensures Render(gs) == Before(gs, m) + Key(m) + After(gs, m)
    ensures Render(Unhide(gs, m)) == Before(gs, m) + ContentOf(gs, m) + After(gs, m)
    ensures KeyOffset(gs, m) == |Before(gs, m)|
  {
    var g, rest := gs[0], gs[1..];
    var b, a, c := Before(rest, m), After(rest, m), ContentOf(rest, m);
    UnhideCons(gs, m);
    assert Unhide(gs, m)[0] == g;
    assert Before(gs, m) == Shown(g) + b;
    assert After(gs, m) == a && ContentOf(gs, m) == c;
    assert Render(gs) == Shown(g) + Render(rest);
    Assoc3(Shown(g), b, Key(m), a);
    Assoc3(Shown(g), b, c, a);
  }

  lemma UnhideCons(gs: seq<Seg>, m: nat)
    requires gs != []
    ensures Unhide(gs, m)[1..] == Unhide(gs[1..], m)
    ensures Render(Unhide(gs, m)) == Shown(Unhide(gs, m)[0]) + Render(Unhide(gs[1..], m))
  {
  }

  lemma Assoc3(a: string, b: string, c: string, d: string)
    ensures a + (b + c + d) == (a + b) + c + d
  {
  }

  /** The parts of `b + k + a` cut back out by position. */
  lemma SpliceParts(b: string, k: string, a: string)
    ensures (b + k + a)[..|b|] == b && (b + k + a)[|b| + |k|..] == a
  {
  }

  /** `ExpandCode`'s loop for the entry of piece `m` replaces its key, and
      nothing else, by its content. */
  lemma ReplaceStep(gs: seq<Seg>, m: nat)
    requires NoMarker(Original(gs)) && UniqueIds(gs) && m in IdSet(gs)
    ensures |Key(m)| > 0
    ensures ReplaceFrom(Render(gs), Key(m), ContentOf(gs, m), 0) == Render(Unhide(gs, m))
  {
    var s, k, c, u := Render(gs), KeyOffset(gs, m), ContentOf(gs, m), Unhide(gs, m);
    KeyShape(m);
    KeyIdOffset(gs, m);
    KeyIdRender(gs, k);
    forall j | 0 <= j && At(s, Key(m), j) ensures j == k {
      KeyAt(gs, m, j);
      KeyIdUnique(gs, m, j);
    }
    UnhideSplit(gs, m);
    SpliceParts(Before(gs, m), Key(m), After(gs, m));
    UnhideKeeps(gs, m);
    forall j | k + |c| <= j ensures !At(Render(u), Key(m), j) {
      KeyAt(u, m, j);
      KeyIdIn(u, j);
    }
    ReplaceOnce(s, Key(m), c, 0, k, Render(u));
  }

  /** Each entry of the table belongs to one hidden piece. */
  lemma {:induction false} PairInv(gs: seq<Seg>, p: (string, string)) returns (m: nat)
    requires p in Chunks(gs) && UniqueIds(gs)
    ensures m in IdSet(gs) && p == (Key(m), ContentOf(gs, m))
  {
    var rest := gs[1..];
    if gs[0].Hidden? && p == (Key(gs[0].id), gs[0].content) {
      m := gs[0].id;
    } else {
      assert p in Chunks(rest);
      m := PairInv(rest, p);
    }
  }

  /** Unhiding piece `m` takes its entry out of the table. */
  lemma {:induction false} PairsUnhide(gs: seq<Seg>, m: nat)
    requires UniqueIds(gs) && m in IdSet(gs)
    ensures multiset(Chunks(Unhide(gs, m))) + multiset{(Key(m), ContentOf(gs, m))} == multiset(Chunks(gs))
  {
    var g, rest, u := gs[0], gs[1..], Unhide(gs, m);
    assert u[1..] == Unhide(rest, m);
    if g.Hidden? && g.id == m {
      UnhideAbsent(rest, m);
      assert Chunks(u) == Chunks(rest);
    } else {
      PairsUnhide(rest, m);
      assert u[0] == g;
    }
  }

  lemma {:induction false} NoHiddenRender(gs: seq<Seg>)
    ensures Chunks(gs) == [] ==> Render(gs) == Original(gs)
  {
    if gs != [] {
      NoHiddenRender(gs[1..]);
    }
  }

  lemma MultisetCancel<T>(a: multiset<T>, b: multiset<T>, e: T)
    requires a + multiset{e} == b + multiset{e}
    ensures a == b
  {
    assert a == (a + multiset{e}) - multiset{e};
    assert b == (b + multiset{e}) - multiset{e};
  }

  /** `ExpandCode` over a table holding the entries of the hidden pieces, in
      any order, gives back the code when the code holds no marker. */
  lemma {:induction false} ExpandAllSegs(gs: seq<Seg>, entries: StringMap.Entries)
    requires NoMarker(Original(gs)) && UniqueIds(gs)
    requires multiset(entries) == multiset(Chunks(gs))
    ensures KeysNonEmpty(entries)
    ensures ExpandAll(Render(gs), entries) == Original(gs)
    decreases |entries|
  {
    if entries == [] {
      NoHiddenRender(gs);
    } else {
      var e, later := entries[0], entries[1..];
      assert entries == [e] + later;
      assert multiset(entries) == multiset(later) + multiset{e};
      assert e in multiset(Chunks(gs));
      var m := PairInv(gs, e);
      var u := Unhide(gs, m);
      ReplaceStep(gs, m);
      PairsUnhide(gs, m);
      MultisetCancel(multiset(later), multiset(Chunks(u)), e);
      UnhideKeeps(gs, m);
      ExpandAllSegs(u, later);
    }
  }
}
