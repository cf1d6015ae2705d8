/** The placeholders `CompressCode` puts in place of long string literals
    (`bytebeat-player/Utils/Utils.cpp`): `"@HIDDEN_DATA_" + to_string(n) + "@"`,
    and what can be told about where such a placeholder occurs in a text. */
module HiddenKeys {

  /** The decimal digit for 0..9. */
  function DigitChar(d: nat): (c: char)
    requires d < 10
    ensures '0' <= c <= '9'
  {
    (('0' as int) + d) as char
  }

  /** `std::to_string` of a counter value. */
  function Digits(n: nat): (s: string)
    ensures |s| > 0 && forall k :: 0 <= k < |s| ==> '0' <= s[k] <= '9'
  {
    if n < 10 then [DigitChar(n)] else Digits(n / 10) + [DigitChar(n % 10)]
  }

  predicate AllDigits(s: string) {
    forall k :: 0 <= k < |s| ==> '0' <= s[k] <= '9'
  }

  /** The value of a string of decimal digits. */
  function DigitsValue(s: string): nat
    requires AllDigits(s)
  {
    if s == [] then 0 else DigitsValue(s[..|s| - 1]) * 10 + (s[|s| - 1] as int - '0' as int)
  }

  /** Reading the digits back gives the counter value. */
  lemma {:induction false} DigitsRoundTrip(n: nat)
    ensures DigitsValue(Digits(n)) == n
  {
    if n >= 10 {
      DigitsRoundTrip(n / 10);
      var s := Digits(n);
      assert s[..|s| - 1] == Digits(n / 10);
    }
  }

  const MARKER: string := "HIDDEN_DATA_"

  lemma MarkerShape()
    ensures |MARKER| == 12 && MARKER[0] == 'H'
    ensures forall i :: 0 <= i < |MARKER| ==> MARKER[i] != '@'
  {
  }

  /** The placeholder for the string with number `n`. */
  function Key(n: nat): string {
    "@" + MARKER + Digits(n) + "@"
  }

  /** A key is `@`, the marker, digits and `@`: its only `@` are at both
      ends and its only `H` right after the first. */
  lemma KeyShape(n: nat)
    ensures |Key(n)| == |Digits(n)| + 14
    ensures Key(n)[1..13] == MARKER && Key(n)[13..|Key(n)| - 1] == Digits(n)
    ensures forall o :: 0 <= o < |Key(n)| ==>
      && (Key(n)[o] == '@' <==> o == 0 || o == |Key(n)| - 1)
      && (Key(n)[o] == 'H' <==> o == 1)
  {
    var k := Key(n);
    forall o | 0 <= o < |k|
      ensures (k[o] == '@' <==> o == 0 || o == |k| - 1) && (k[o] == 'H' <==> o == 1)
    {
      if 1 <= o < 13 {
        assert k[o] == MARKER[o - 1];
      } else if 13 <= o < |k| - 1 {
        assert k[o] == Digits(n)[o - 13];
      }
    }
  }

  lemma KeyInjective(n: nat, m: nat)
    requires Key(n) == Key(m)
    ensures n == m
  {
    KeyShape(n);
    KeyShape(m);
    DigitsRoundTrip(n);
    DigitsRoundTrip(m);
  }

  /** `w` occurs in `s` at `a`. */
  predicate At(s: string, w: string, a: int) {
    0 <= a && a + |w| <= |s| && s[a..a + |w|] == w
  }

  /** The text holds no `HIDDEN_DATA_`. */
  ghost predicate NoMarker(s: string) {
    forall a :: !At(s, MARKER, a)
  }

  lemma AtLeft(a: string, b: string, w: string, k: int)
    ensures At(a, w, k) ==> At(a + b, w, k)
  {
    if At(a, w, k) {
      assert (a + b)[k..k + |w|] == a[k..k + |w|];
    }
  }

  lemma AtRight(a: string, b: string, w: string, k: int)
    ensures At(b, w, k) ==> At(a + b, w, |a| + k)
  {
    if At(b, w, k) {
      assert (a + b)[|a| + k..|a| + k + |w|] == b[k..k + |w|];
    }
  }

  lemma AtIndex(s: string, w: string, a: int, i: int)
    ensures At(s, w, a) && 0 <= i < |w| ==> s[a + i] == w[i]
  {
    if At(s, w, a) && 0 <= i < |w| {
      assert s[a..a + |w|][i] == s[a + i];
    }
  }

  /** An occurrence before the end of `a` is one in `a`. */
  lemma AtKeep(a: string, b: string, w: string, k: int)
    ensures k + |w| <= |a| && At(a + b, w, k) ==> At(a, w, k)
  {
    if k + |w| <= |a| && At(a + b, w, k) {
      assert (a + b)[k..k + |w|] == a[k..k + |w|];
    }
  }

  /** An occurrence past the end of `a` is one in `b`. */
  lemma AtDrop(a: string, b: string, w: string, k: int)
    ensures |a| <= k && At(a + b, w, k) ==> At(b, w, k - |a|)
  {
    if |a| <= k && At(a + b, w, k) {
      assert (a + b)[k..k + |w|] == b[k - |a|..k - |a| + |w|];
    }
  }

  /** An occurrence of `w` holds one of each slice of `w`. */
  lemma AtSlice(s: string, w: string, o: int, i: nat, j: nat)
    requires i <= j <= |w|
    ensures At(s, w, o) ==> At(s, w[i..j], o + i)
  {
    if At(s, w, o) {
      forall q | 0 <= q < j - i ensures s[o + i..o + j][q] == w[i..j][q] {
        assert s[o..o + |w|][i + q] == s[o + i + q];
      }
    }
  }

  lemma NoMarkerParts(a: string, b: string)
    requires NoMarker(a + b)
    ensures NoMarker(a) && NoMarker(b)
  {
    forall k ensures !At(a, MARKER, k) && !At(b, MARKER, k) {
      AtLeft(a, b, MARKER, k);
      AtRight(a, b, MARKER, k);
    }
  }

  /** Two keys that start at the same place of a text are the same key. */
  lemma KeysAgree(s: string, o: int, n: nat, m: nat)
    requires At(s, Key(n), o) && At(s, Key(m), o)
    ensures n == m
  {
    KeyShape(n);
    KeyShape(m);
    var l := if |Key(n)| <= |Key(m)| then |Key(n)| else |Key(m)|;
    assert Key(n)[l - 1] == s[o + l - 1] == Key(m)[l - 1];
    assert Key(n) == s[o..o + |Key(n)|] == Key(m);
    KeyInjective(n, m);
  }
}
