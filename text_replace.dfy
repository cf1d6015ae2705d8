/** `std::string::find(key, pos)` and the replace-every-occurrence loop of
    `ExpandCode` (`bytebeat-player/Utils/Utils.cpp`), applied for every entry
    of the table of hidden chunks in the table's order. */
module TextReplace {
  import opened Wrappers
  import opened HiddenKeys
  import StringMap

  /** `s.find(key, pos)`: the first occurrence at or after `pos`. */
  function Find(s: string, key: string, pos: nat): (r: Option<nat>)
    requires |key| > 0
    ensures r.Some? ==> pos <= r.value && r.value + |key| <= |s|
    decreases |s| - pos
  {
    if pos + |key| > |s| then None
    else if s[pos..pos + |key|] == key then Some(pos)
    else Find(s, key, pos + 1)
  }

  /** `find` returns the first occurrence at or after `pos`, or none when
      there is none. */
  lemma {:induction false} FindFirst(s: string, key: string, pos: nat)
    requires |key| > 0
    ensures Find(s, key, pos).Some? ==> At(s, key, Find(s, key, pos).value)
    ensures Find(s, key, pos).Some? ==> forall k :: pos <= k < Find(s, key, pos).value ==> !At(s, key, k)
    ensures Find(s, key, pos).None? ==> forall k :: pos <= k ==> !At(s, key, k)
    decreases |s| - pos
  {
    if pos + |key| <= |s| && s[pos..pos + |key|] != key {
      FindFirst(s, key, pos + 1);
    }
  }

  /** The `while ((pos = result.find(key, pos)) != npos)` loop: replaces each
      occurrence found and goes on searching after the inserted value. */
  /** `s` with the `n` characters at `k` replaced by `v`. */
  function Spliced(s: string, k: nat, n: nat, v: string): string
    requires k + n <= |s|
  {
    s[..k] + v + s[k + n..]
  }

  function ReplaceFrom(s: string, key: string, value: string, pos: nat): string
    requires |key| > 0
    decreases |s| - pos
  {
    match Find(s, key, pos)
    case None => s
    case Some(k) => ReplaceFrom(Spliced(s, k, |key|, value), key, value, k + |value|)
  }

  predicate KeysNonEmpty(entries: StringMap.Entries) {
    forall k :: 0 <= k < |entries| ==> |entries[k].0| > 0
  }

  /** The outer loop over the table, in its order. */
  function ExpandAll(s: string, entries: StringMap.Entries): string
    requires KeysNonEmpty(entries)
    decreases entries
  {
    if entries == [] then s
    else ExpandAll(ReplaceFrom(s, entries[0].0, entries[0].1, 0), entries[1..])
  }

  /** With the one occurrence of `key` at `k` at or after `pos` and none in
      the text after the value put there, the loop replaces exactly that one. */
  lemma ReplaceOnce(s: string, key: string, value: string, pos: nat, k: nat, s': string)
    requires |key| > 0 && pos <= k && At(s, key, k)
    requires forall j :: pos <= j && At(s, key, j) ==> j == k
    requires s' == s[..k] + value + s[k + |key|..]
    requires forall j :: k + |value| <= j ==> !At(s', key, j)
    ensures ReplaceFrom(s, key, value, pos) == s'
  {
    FindFirst(s, key, pos);
    FindFirst(s', key, k + |value|);
    assert Find(s, key, pos) == Some(k);
    assert s' == Spliced(s, k, |key|, value);
    assert Find(s', key, k + |value|) == None;
    assert ReplaceFrom(s, key, value, pos) == ReplaceFrom(s', key, value, k + |value|);
  }

  /** A key that does not occur leaves the text as it is. */
  lemma ReplaceAbsent(s: string, key: string, value: string, pos: nat)
    requires |key| > 0 && forall j :: pos <= j ==> !At(s, key, j)
    ensures ReplaceFrom(s, key, value, pos) == s
  {
    FindFirst(s, key, pos);
    assert Find(s, key, pos) == None;
  }
}
