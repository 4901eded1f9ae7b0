/** The string operations of the JavaScript runtime that the dashboard relies
    on: toLowerCase, includes, localeCompare, number-to-string conversion,
    toFixed, join and split, and the `\s` whitespace class of regular
    expressions. */
module Text {

  // ---------------------------------------------------------------------
  // Case mapping (String.prototype.toLowerCase, on ASCII letters)
  // ---------------------------------------------------------------------

  function LowerChar(c: char): char {
    if 'A' <= c <= 'Z' then (c as int + 32) as char else c
  }

  function Lower(s: string): (r: string)
    ensures |r| == |s|
    ensures forall i :: 0 <= i < |s| ==> r[i] == LowerChar(s[i])
  {
    if s == [] then [] else [LowerChar(s[0])] + Lower(s[1..])
  }

  /** Lower-casing twice is lower-casing once: a lower-cased search term
      matches the same names as the term itself. */
  lemma LowerIdempotent(s: string)
    ensures Lower(Lower(s)) == Lower(s)
  {
    assert forall i :: 0 <= i < |s| ==> LowerChar(LowerChar(s[i])) == LowerChar(s[i]);
  }

  lemma {:induction false} LowerConcat(a: string, b: string)
    ensures Lower(a + b) == Lower(a) + Lower(b)
  {
    if a == [] {
      assert a + b == b;
    } else {
      assert (a + b)[0] == a[0] && (a + b)[1..] == a[1..] + b;
      LowerConcat(a[1..], b);
    }
  }

  // ---------------------------------------------------------------------
  // Substring search (String.prototype.includes)
  // ---------------------------------------------------------------------

  predicate Includes(hay: string, needle: string)
    decreases |hay|
  {
    needle <= hay || (hay != [] && Includes(hay[1..], needle))
  }

  /** `needle` occurs in `hay` starting at index `i`. */
  ghost predicate OccursAt(hay: string, needle: string, i: int) {
    0 <= i && i + |needle| <= |hay| && hay[i..i + |needle|] == needle
  }

  lemma {:induction false} IncludesIff(hay: string, needle: string)
    ensures Includes(hay, needle) <==> exists i :: OccursAt(hay, needle, i)
    decreases |hay|
  {
    if needle <= hay {
      assert OccursAt(hay, needle, 0);
    } else if hay == [] {
      assert forall i :: !OccursAt(hay, needle, i);
    } else {
      IncludesIff(hay[1..], needle);
      if Includes(hay[1..], needle) {
        var j :| OccursAt(hay[1..], needle, j);
        assert hay[j + 1..j + 1 + |needle|] == hay[1..][j..j + |needle|];
        assert OccursAt(hay, needle, j + 1);
      }
      forall i | OccursAt(hay, needle, i)
        ensures OccursAt(hay[1..], needle, i - 1)
      {
        assert i != 0;
        assert hay[1..][i - 1..i - 1 + |needle|] == hay[i..i + |needle|];
      }
    }
  }

  // ---------------------------------------------------------------------
  // String ordering (String.prototype.localeCompare, as plain
  // lexicographic order on characters)
  // ---------------------------------------------------------------------

  function LexCompare(a: string, b: string): (r: int)
    ensures -1 <= r <= 1
  {
    if a == [] && b == [] then 0
    else if a == [] then -1
    else if b == [] then 1
    else if a[0] < b[0] then -1
    else if a[0] > b[0] then 1
    else LexCompare(a[1..], b[1..])
  }

  lemma {:induction false} LexCompareZero(a: string, b: string)
    ensures LexCompare(a, b) == 0 <==> a == b
  {
    if a != [] && b != [] && a[0] == b[0] {
      LexCompareZero(a[1..], b[1..]);
      assert a == [a[0]] + a[1..] && b == [b[0]] + b[1..];
    }
  }

  lemma {:induction false} LexCompareFlip(a: string, b: string)
    ensures LexCompare(b, a) == -LexCompare(a, b)
  {
    if a != [] && b != [] && a[0] == b[0] {
      LexCompareFlip(a[1..], b[1..]);
    }
  }

  lemma {:induction false} LexCompareTransitive(a: string, b: string, c: string)
    requires LexCompare(a, b) <= 0 && LexCompare(b, c) <= 0
    ensures LexCompare(a, c) <= 0
  {
    if a != [] && b != [] && c != [] && a[0] == b[0] == c[0] {
      LexCompareTransitive(a[1..], b[1..], c[1..]);
    }
  }

  // ---------------------------------------------------------------------
  // Decimal digits (Number.prototype.toString on integers)
  // ---------------------------------------------------------------------

  predicate IsDigit(c: char) {
    '0' <= c <= '9'
  }

  ghost predicate AllDigits(s: string) {
    forall i :: 0 <= i < |s| ==> IsDigit(s[i])
  }

  function DigitChar(d: nat): (c: char)
    requires d < 10
    ensures IsDigit(c)
  {
    ('0' as int + d) as char
  }

  /** The number a string of decimal digits denotes. */
  function DigitsValue(s: string): nat
    requires AllDigits(s)
  {
    if s == [] then 0
    else DigitsValue(s[..|s| - 1]) * 10 + (s[|s| - 1] as int - '0' as int)
  }

  function NatToString(n: nat): (s: string)
    decreases n
  {
    if n < 10 then [DigitChar(n)] else NatToString(n / 10) + [DigitChar(n % 10)]
  }

  /** NatToString writes the shortest decimal numeral of `n`: digits only,
      no leading zero, and reading it back gives `n`. */
  lemma {:induction false} NatToStringValue(n: nat)
    ensures |NatToString(n)| >= 1
    ensures AllDigits(NatToString(n))
    ensures DigitsValue(NatToString(n)) == n
    ensures NatToString(n)[0] == '0' <==> n == 0
    decreases n
  {
    if n >= 10 {
      NatToStringValue(n / 10);
      var s := NatToString(n);
      assert s[..|s| - 1] == NatToString(n / 10);
    }
  }

  /** String(i) for an integer `i`: an optional '-' sign, then the digits. */
  function IntToString(i: int): (s: string)
  {
    if i < 0 then "-" + NatToString(-i) else NatToString(i)
  }

  lemma IntToStringValue(i: int)
    ensures IntToString(i) == (if i < 0 then "-" else "") + NatToString(if i < 0 then -i else i)
    ensures AllDigits(NatToString(if i < 0 then -i else i))
    ensures DigitsValue(NatToString(if i < 0 then -i else i)) == (if i < 0 then -i else i)
  {
    NatToStringValue(if i < 0 then -i else i);
  }

  // ---------------------------------------------------------------------
  // Fixed-point formatting (Number.prototype.toFixed, on exact reals)
  // ---------------------------------------------------------------------

  function Pow10(f: nat): (r: nat)
    ensures r >= 1
  {
    if f == 0 then 1 else 10 * Pow10(f - 1)
  }

  function Zeros(k: nat): (z: string)
    ensures |z| == k
    ensures forall i :: 0 <= i < k ==> z[i] == '0'
  {
    if k == 0 then [] else "0" + Zeros(k - 1)
  }

  /** The digits of `n` with a '.' before the last `f` of them, padded with
      leading zeros so that at least one digit precedes the point. */
  function FixedDigits(n: nat, f: nat): string {
    var m := NatToString(n);
    if f == 0 then m
    else
      var padded := if |m| <= f then Zeros(f + 1 - |m|) + m else m;
      padded[..|padded| - f] + "." + padded[|padded| - f..]
  }

  /** The n of toFixed: the integer nearest to x * 10^f, the larger on a tie. */
  function RoundScaled(x: real, f: nat): (n: int)
    ensures x >= 0.0 ==> n >= 0
  {
    (x * Pow10(f) as real + 0.5).Floor
  }

  /** `x.toFixed(f)` for |x| < 10^21: the sign of a negative x, then the
      rounded magnitude with exactly `f` digits after the point. */
  function ToFixed(x: real, f: nat): string {
    if x < 0.0 then "-" + FixedDigits(RoundScaled(-x, f), f)
    else FixedDigits(RoundScaled(x, f), f)
  }

  /** The numeral ToFixed writes is within half a unit in the last place of
      the magnitude of `x`. */
  lemma RoundScaledError(x: real, f: nat)
    requires x >= 0.0
    ensures -0.5 < RoundScaled(x, f) as real - x * Pow10(f) as real <= 0.5
  {
  }

  /** The shape of FixedDigits for f >= 1: integer digits, a point, exactly
      f fraction digits, and together they denote `n`. */
  lemma FixedDigitsShape(n: nat, f: nat)
    requires f >= 1
    ensures var s := FixedDigits(n, f);
      && |s| >= f + 2 && s[|s| - f - 1] == '.'
      && AllDigits(s[..|s| - f - 1]) && AllDigits(s[|s| - f..])
      && DigitsValue(s[..|s| - f - 1] + s[|s| - f..]) == n
  {
    var padded := PaddedDigits(n, f);
    InsertPoint(padded, |padded| - f);
  }

  /** The numeral of `n`, padded with zeros to more than `f` digits. */
  lemma PaddedDigits(n: nat, f: nat) returns (padded: string)
    requires f >= 1
    ensures |padded| >= f + 1 && AllDigits(padded) && DigitsValue(padded) == n
    ensures FixedDigits(n, f) == padded[..|padded| - f] + "." + padded[|padded| - f..]
  {
    NatToStringValue(n);
    var m := NatToString(n);
    if |m| <= f {
      ZerosValue(f + 1 - |m|, m);
      padded := Zeros(f + 1 - |m|) + m;
    } else {
      padded := m;
    }
  }

  lemma InsertPoint(padded: string, k: nat)
    requires 1 <= k <= |padded| && AllDigits(padded)
    ensures var s := padded[..k] + "." + padded[k..];
      && |s| == |padded| + 1 && s[k] == '.'
      && s[..k] == padded[..k] && s[k + 1..] == padded[k..]
      && AllDigits(s[..k]) && AllDigits(s[k + 1..])
      && s[..k] + s[k + 1..] == padded
  {
    var s := padded[..k] + "." + padded[k..];
    assert s[..k] == padded[..k];
    assert s[k + 1..] == padded[k..];
    assert padded[..k] + padded[k..] == padded;
  }

  /** Leading zeros do not change the value of a numeral. */
  lemma {:induction false} ZerosValue(k: nat, m: string)
    requires AllDigits(m)
    ensures AllDigits(Zeros(k) + m)
    ensures DigitsValue(Zeros(k) + m) == DigitsValue(m)
    decreases |m|
  {
    var z := Zeros(k);
    if m == [] {
      assert z + m == z;
      ZerosValueOfZeros(k);
    } else {
      var init := m[..|m| - 1];
      ZerosValue(k, init);
      assert (z + m)[..|z + m| - 1] == z + init;
    }
  }

  lemma {:induction false} ZerosValueOfZeros(k: nat)
    ensures AllDigits(Zeros(k))
    ensures DigitsValue(Zeros(k)) == 0
  {
    if k > 0 {
      ZerosValueOfZeros(k - 1);
      var z := Zeros(k);
      assert z[..k - 1] == Zeros(k - 1) by {
        assert forall i :: 0 <= i < k - 1 ==> z[i] == '0';
      }
    }
  }

  // ---------------------------------------------------------------------
  // Array.prototype.join and String.prototype.split on one character
  // ---------------------------------------------------------------------

  function Join(parts: seq<string>, sep: char): string
  {
    if |parts| == 0 then []
    else if |parts| == 1 then parts[0]
    else parts[0] + [sep] + Join(parts[1..], sep)
  }

  function Split(s: string, sep: char): (parts: seq<string>)
    ensures |parts| >= 1
  {
    if s == [] then [[]]
    else if s[0] == sep then [[]] + Split(s[1..], sep)
    else
      var rest := Split(s[1..], sep);
      [[s[0]] + rest[0]] + rest[1..]
  }

  ghost predicate Free(s: string, c: char) {
    forall i :: 0 <= i < |s| ==> s[i] != c
  }

  lemma {:induction false} SplitFree(a: string, rest: string, sep: char)
    requires Free(a, sep)
    ensures Split(a, sep) == [a]
    ensures Split(a + [sep] + rest, sep) == [a] + Split(rest, sep)
  {
    if a != [] {
      SplitFree(a[1..], rest, sep);
      assert (a + [sep] + rest)[1..] == a[1..] + [sep] + rest;
      assert [a[0]] + a[1..] == a;
    } else {
      assert a + [sep] + rest == [sep] + rest;
    }
  }

  /** Splitting a joined list on its separator gives the list back, provided
      no part contains the separator. */
  lemma {:induction false} SplitJoin(parts: seq<string>, sep: char)
    requires |parts| >= 1
    requires forall i :: 0 <= i < |parts| ==> Free(parts[i], sep)
    ensures Split(Join(parts, sep), sep) == parts
  {
    if |parts| == 1 {
      SplitFree(parts[0], [], sep);
    } else {
      SplitJoin(parts[1..], sep);
      SplitFree(parts[0], Join(parts[1..], sep), sep);
      assert [parts[0]] + parts[1..] == parts;
    }
  }

  // ---------------------------------------------------------------------
  // Whitespace runs (`s.replace(/\s+/g, '-')`)
  // ---------------------------------------------------------------------

  /** The characters of the `\s` class of ECMAScript regular expressions
      (WhiteSpace and LineTerminator). */
  predicate IsWhitespace(c: char) {
    var k := c as int;
    (9 <= k <= 13) || k == 32 || k == 0xA0 || k == 0x1680
    || (0x2000 <= k <= 0x200A) || k == 0x2028 || k == 0x2029
    || k == 0x202F || k == 0x205F || k == 0x3000 || k == 0xFEFF
  }

  /** Scans `s` left to right; `inRun` says whether the previous character
      was whitespace. A run's first character emits the '-', the rest of
      the run emits nothing. */
  function DashRunsFrom(s: string, inRun: bool): string
  {
    if s == [] then []
    else if IsWhitespace(s[0]) then (if inRun then [] else "-") + DashRunsFrom(s[1..], true)
    else [s[0]] + DashRunsFrom(s[1..], false)
  }

  /** Every maximal run of whitespace replaced by a single '-'. */
  function DashRuns(s: string): string {
    DashRunsFrom(s, false)
  }

  ghost predicate NoWhitespace(s: string) {
    forall i :: 0 <= i < |s| ==> !IsWhitespace(s[i])
  }

  lemma {:induction false} DashRunsFromNoWhitespace(s: string, inRun: bool)
    ensures NoWhitespace(DashRunsFrom(s, inRun))
    ensures |DashRunsFrom(s, inRun)| <= |s|
    ensures NoWhitespace(s) ==> DashRunsFrom(s, inRun) == s
  {
    if s != [] {
      DashRunsFromNoWhitespace(s[1..], IsWhitespace(s[0]));
      assert [s[0]] + s[1..] == s;
    }
  }

  /** The slug has no whitespace, is no longer than its input, and leaves a
      whitespace-free input unchanged. */
  lemma DashRunsNoWhitespace(s: string)
    ensures NoWhitespace(DashRuns(s))
    ensures |DashRuns(s)| <= |s|
    ensures NoWhitespace(s) ==> DashRuns(s) == s
  {
    DashRunsFromNoWhitespace(s, false);
  }

  /** After a word that ends in a non-whitespace character the scan is no
      longer in a run, so the rest is rewritten independently. */
  lemma {:induction false} DashRunsFromAppend(u: string, x: string, inRun: bool)
    requires u != [] && !IsWhitespace(u[|u| - 1])
    ensures DashRunsFrom(u + x, inRun) == DashRunsFrom(u, inRun) + DashRunsFrom(x, false)
  {
    var ux := u + x;
    assert ux[0] == u[0] && ux[1..] == u[1..] + x;
    if |u| == 1 {
      assert u[1..] == [] && ux[1..] == x;
    } else {
      DashRunsFromAppend(u[1..], x, IsWhitespace(u[0]));
    }
  }

  /** Inside a run, further whitespace emits nothing. */
  lemma {:induction false} DashRunsFromRun(w: string, v: string)
    requires forall i :: 0 <= i < |w| ==> IsWhitespace(w[i])
    ensures DashRunsFrom(w + v, true) == DashRunsFrom(v, true)
  {
    if w == [] {
      assert w + v == v;
    } else {
      var wv := w + v;
      assert wv[0] == w[0] && wv[1..] == w[1..] + v;
      DashRunsFromRun(w[1..], v);
    }
  }

  /** A whitespace run `w` between two words becomes exactly one '-': the
      rewrite is local to the run. */
  lemma DashRunsSplit(u: string, w: string, v: string)
    requires w != [] && forall i :: 0 <= i < |w| ==> IsWhitespace(w[i])
    requires u == [] || !IsWhitespace(u[|u| - 1])
    requires v == [] || !IsWhitespace(v[0])
    ensures DashRuns(u + w + v) == DashRuns(u) + "-" + DashRuns(v)
  {
    var wv := w + v;
    assert wv[0] == w[0] && wv[1..] == w[1..] + v;
    DashRunsFromRun(w[1..], v);
    assert DashRunsFrom(v, true) == DashRunsFrom(v, false);
    assert DashRunsFrom(wv, false) == "-" + DashRunsFrom(v, false);
    if u == [] {
      assert u + w + v == wv;
    } else {
      assert u + w + v == u + wv;
      DashRunsFromAppend(u, wv, false);
    }
  }
}
