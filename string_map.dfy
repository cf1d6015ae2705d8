/** `std::map<std::string, std::string>` as an association list kept sorted by
    key, so that iterating it visits the keys in the order `std::map` does. */
module StringMap {
  import opened Wrappers

  type Entries = seq<(string, string)>

  /** `std::string`'s `operator<`: lexicographic on character codes, a proper
      prefix coming first. */
  predicate Less(a: string, b: string)
    decreases |a|
  {
    if a == [] then b != []
    else b != [] && (a[0] < b[0] || (a[0] == b[0] && Less(a[1..], b[1..])))
  }

  lemma {:induction false} LessIrreflexive(a: string)
    ensures !Less(a, a)
    decreases |a|
  {
    if a != [] { LessIrreflexive(a[1..]); }
  }

  lemma {:induction false} LessTotal(a: string, b: string)
    ensures a == b || Less(a, b) || Less(b, a)
    decreases |a|
  {
    if a != [] && b != [] && a[0] == b[0] {
      LessTotal(a[1..], b[1..]);
      if a[1..] == b[1..] {
        assert a == [a[0]] + a[1..] && b == [b[0]] + b[1..];
      }
    }
  }

  lemma {:induction false} LessTransitive(a: string, b: string, c: string)
    requires Less(a, b) && Less(b, c)
    ensures Less(a, c)
    decreases |a|
  {
    if a != [] && a[0] == b[0] && b[0] == c[0] {
      LessTransitive(a[1..], b[1..], c[1..]);
    }
  }

  predicate Sorted(e: Entries) {
    forall i :: 0 < i < |e| ==> Less(e[i - 1].0, e[i].0)
  }

  function KeysOf(e: Entries): set<string> {
    if e == [] then {} else {e[0].0} + KeysOf(e[1..])
  }

  lemma {:induction false} KeysOfAt(e: Entries, i: nat)
    requires i < |e|
    ensures e[i].0 in KeysOf(e)
  {
    if i > 0 { KeysOfAt(e[1..], i - 1); }
  }

  /** `m.find(k)`: the value of the first entry with key `k`. */
  function Get(e: Entries, k: string): (r: Option<string>)
    ensures r.None? <==> k !in KeysOf(e)
  {
    if e == [] then None
    else if e[0].0 == k then Some(e[0].1)
    else Get(e[1..], k)
  }

  /** `m[k] = v`: overwrites the entry for `k`, or inserts `(k, v)` before the
      first larger key. */
  function Put(e: Entries, k: string, v: string): (r: Entries)
    ensures KeysOf(r) == KeysOf(e) + {k}
    ensures r[0] == (k, v) || (e != [] && r[0] == e[0])
  {
    if e == [] then [(k, v)]
    else if e[0].0 == k then [(k, v)] + e[1..]
    else if Less(k, e[0].0) then [(k, v)] + e
    else [e[0]] + Put(e[1..], k, v)
  }

  /** Lookup after `m[k] = v`: `v` under `k`, every other key as before. */
  lemma {:induction false} PutGet(e: Entries, k: string, v: string, k': string)
    ensures Get(Put(e, k, v), k') == if k' == k then Some(v) else Get(e, k')
  {
    if e != [] && e[0].0 != k && !Less(k, e[0].0) {
      PutGet(e[1..], k, v, k');
    }
  }

  /** Inserting a new key adds exactly one entry. */
  lemma {:induction false} PutFresh(e: Entries, k: string, v: string)
    requires k !in KeysOf(e)
    ensures multiset(Put(e, k, v)) == multiset(e) + multiset{(k, v)}
  {
    if e != [] && !Less(k, e[0].0) {
      PutFresh(e[1..], k, v);
      assert e == [e[0]] + e[1..];
    }
  }

  lemma {:induction false} PutSorted(e: Entries, k: string, v: string)
    requires Sorted(e)
    ensures Sorted(Put(e, k, v))
  {
    if e != [] && e[0].0 != k && !Less(k, e[0].0) {
      LessTotal(k, e[0].0);
      PutSorted(e[1..], k, v);
      var r := Put(e, k, v);
      var tail := Put(e[1..], k, v);
      assert r == [e[0]] + tail;
      assert Sorted(e[1..]);
      forall i | 0 < i < |r| ensures Less(r[i - 1].0, r[i].0) {
        if i == 1 {
          assert r[1] == tail[0];
        } else {
          assert r[i - 1] == tail[i - 2] && r[i] == tail[i - 1];
        }
      }
    }
  }

  /** In a sorted list no key occurs twice. */
  lemma SortedDistinct(e: Entries, i: nat, j: nat)
    requires Sorted(e) && i < j < |e|
    ensures Less(e[i].0, e[j].0) && e[i].0 != e[j].0
    decreases j - i
  {
    if j == i + 1 {
    } else {
      SortedDistinct(e, i, j - 1);
      LessTransitive(e[i].0, e[j - 1].0, e[j].0);
    }
    LessIrreflexive(e[i].0);
  }
}
