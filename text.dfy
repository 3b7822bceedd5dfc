/**
 * The handful of Python `str` operations the scripts rely on, written out over
 * `seq<char>`: `strip`, `lower`, `startswith`, the `in` substring test,
 * `replace(c, "")`, `splitlines`, `join`, slicing `[:n]`, `int()` on a run of
 * decimal digits, and the `str(n)`, `{n:02d}` and `{n:,}` integer renderings.
 */
module Text {

  /** The characters for which Python's `str.isspace()` holds; `strip()` removes exactly these. */
  predicate IsSpace(c: char) {
    || c == '\t' || c == '\n' || c == '\U{B}' || c == '\U{C}' || c == '\r'
    || ('\U{1C}' <= c <= '\U{1F}') || c == ' ' || c == '\U{85}' || c == '\U{A0}'
    || c == '\U{1680}' || ('\U{2000}' <= c <= '\U{200A}')
    || c == '\U{2028}' || c == '\U{2029}' || c == '\U{202F}' || c == '\U{205F}' || c == '\U{3000}'
  }

  /** `lstrip()`: the longest suffix of `s` that does not start with white space (see `LStripKeeps`). */
  function LStrip(s: string): (r: string)
    ensures |r| <= |s|
    decreases |s|
  {
    if s != [] && IsSpace(s[0]) then LStrip(s[1..]) else s
  }

  /** `lstrip()` keeps a suffix that starts with a non-space, and drops only white space. */
  lemma {:induction false} LStripKeeps(s: string)
    ensures var r := LStrip(s);
            && r == s[|s| - |r|..]
            && (r != [] ==> !IsSpace(r[0]))
            && forall i :: 0 <= i < |s| - |r| ==> IsSpace(s[i])
    decreases |s|
  {
    if s != [] && IsSpace(s[0]) {
      LStripKeeps(s[1..]);
    }
  }

  /** `rstrip()`: the longest prefix of `s` that does not end with white space (see `RStripKeeps`). */
  function RStrip(s: string): (r: string)
    ensures |r| <= |s|
    decreases |s|
  {
    if s != [] && IsSpace(s[|s| - 1]) then RStrip(s[..|s| - 1]) else s
  }

  /** `rstrip()` keeps a prefix that ends with a non-space, and drops only white space. */
  lemma {:induction false} RStripKeeps(s: string)
    ensures var r := RStrip(s);
            && r == s[..|r|]
            && (r != [] ==> !IsSpace(r[|r| - 1]))
            && forall i :: |r| <= i < |s| ==> IsSpace(s[i])
    decreases |s|
  {
    if s != [] && IsSpace(s[|s| - 1]) {
      RStripKeeps(s[..|s| - 1]);
    }
  }

  /** `strip()`: white space removed from both ends. */
  function Strip(s: string): (r: string)
    ensures r != [] ==> !IsSpace(r[0]) && !IsSpace(r[|r| - 1])
    ensures s == [] || (!IsSpace(s[0]) && !IsSpace(s[|s| - 1])) ==> r == s
  {
    var l := LStrip(s);
    LStripKeeps(s);
    RStripKeeps(l);
    assert forall i :: 0 <= i < |l| ==> l[i] == s[|s| - |l| + i];
    RStrip(l)
  }

  /** `s.strip() == ""`: every character is white space (see `BlankIffStripsEmpty`). */
  predicate IsBlank(s: string) {
    forall i :: 0 <= i < |s| ==> IsSpace(s[i])
  }

  lemma {:induction false} BlankIffStripsEmpty(s: string)
    ensures IsBlank(s) <==> Strip(s) == []
  {
    var l := LStrip(s);
    LStripKeeps(s);
    RStripKeeps(l);
    if l != [] {
      assert !IsSpace(s[|s| - |l|]) by { assert l[0] == s[|s| - |l|]; }
    }
  }

  /** Every character of `s` is free of white space. */
  predicate NoSpace(s: string) {
    forall i :: 0 <= i < |s| ==> !IsSpace(s[i])
  }

  /** `lower()` restricted to ASCII letters; every other character is left alone. */
  function LowerChar(c: char): char {
    if 'A' <= c <= 'Z' then (c as int + 32) as char else c
  }

  function Lower(s: string): (r: string)
    ensures |r| == |s|
  {
    seq(|s|, i requires 0 <= i < |s| => LowerChar(s[i]))
  }

  /** `s.startswith(p)`. */
  predicate StartsWith(s: string, p: string) {
    |p| <= |s| && s[..|p|] == p
  }

  /** `n in h` for strings: `n` occurs in `h` as a contiguous piece. */
  predicate Contains(h: string, n: string)
    decreases |h|
  {
    StartsWith(h, n) || (h != [] && Contains(h[1..], n))
  }

  /** An occurrence at a known position makes `Contains` true. */
  lemma {:induction false} ContainsAt(h: string, n: string, i: nat)
    requires i + |n| <= |h| && h[i..i + |n|] == n
    ensures Contains(h, n)
    decreases i
  {
    if i > 0 {
      assert h[1..][i - 1..i - 1 + |n|] == h[i..i + |n|];
      ContainsAt(h[1..], n, i - 1);
    }
  }

  /** A text in which the first character of `n` never occurs does not contain `n`. */
  lemma {:induction false} NotContainsFirst(h: string, n: string)
    requires n != [] && forall i :: 0 <= i < |h| ==> h[i] != n[0]
    ensures !Contains(h, n)
    decreases |h|
  {
    if h != [] {
      assert !StartsWith(h, n) by {
        if |n| <= |h| {
          assert h[..|n|][0] == h[0];
        }
      }
      assert forall i :: 0 <= i < |h| - 1 ==> h[1..][i] == h[i + 1];
      NotContainsFirst(h[1..], n);
    }
  }

  /** Whoever contains `n` contains each prefix of `n`. */
  lemma {:induction false} ContainsPrefix(h: string, n: string, m: string)
    requires Contains(h, n) && StartsWith(n, m)
    ensures Contains(h, m)
    decreases |h|
  {
    if StartsWith(h, n) {
      assert h[..|m|] == n[..|m|];
    } else {
      ContainsPrefix(h[1..], n, m);
    }
  }

  /** Where `n` occurs in `h`, when it does. */
  lemma {:induction false} ContainsWitness(h: string, n: string) returns (i: nat)
    requires Contains(h, n)
    ensures i + |n| <= |h| && h[i..i + |n|] == n
    decreases |h|
  {
    if StartsWith(h, n) {
      i := 0;
    } else {
      var k := ContainsWitness(h[1..], n);
      assert h[1..][k..k + |n|] == h[k + 1..k + 1 + |n|];
      i := k + 1;
    }
  }

  /** Whoever contains `n` contains every piece of `n`. */
  lemma {:induction false} ContainsInfix(h: string, n: string, m: string)
    requires Contains(h, n) && Contains(n, m)
    ensures Contains(h, m)
  {
    var i := ContainsWitness(h, n);
    var j := ContainsWitness(n, m);
    assert forall k :: 0 <= k < |m| ==> h[i + j + k] == h[i..i + |n|][j + k] == m[k];
    assert h[i + j..i + j + |m|] == m;
    ContainsAt(h, m, i + j);
  }

  /** `s.replace(c, "")` for a one-character `c`. */
  function RemoveChar(s: string, c: char): (r: string)
    ensures |r| <= |s|
    decreases |s|
  {
    if s == [] then [] else (if s[0] == c then [] else [s[0]]) + RemoveChar(s[1..], c)
  }

  lemma {:induction false} RemoveCharAppend(a: string, b: string, c: char)
    ensures RemoveChar(a + b, c) == RemoveChar(a, c) + RemoveChar(b, c)
    decreases |a|
  {
    if a == [] {
      assert a + b == b;
    } else {
      assert (a + b)[0] == a[0];
      assert (a + b)[1..] == a[1..] + b;
      RemoveCharAppend(a[1..], b, c);
    }
  }

  /** Removing a character that does not occur changes nothing. */
  lemma {:induction false} RemoveAbsentChar(s: string, c: char)
    requires forall i :: 0 <= i < |s| ==> s[i] != c
    ensures RemoveChar(s, c) == s
    decreases |s|
  {
    if s != [] {
      RemoveAbsentChar(s[1..], c);
    }
  }

  /** `s[:n]`. */
  function Take(s: string, n: nat): (r: string)
    ensures |r| == (if |s| <= n then |s| else n) && r == s[..|r|]
  {
    if |s| <= n then s else s[..n]
  }

  // ---------------------------------------------------------------------------
  // Decimal digits

  /** `\d` restricted to the ASCII digits. */
  predicate IsDigit(c: char) {
    '0' <= c <= '9'
  }

  function DigitValue(c: char): nat
    requires IsDigit(c)
  {
    c as int - '0' as int
  }

  predicate AllDigits(s: string) {
    forall i :: 0 <= i < |s| ==> IsDigit(s[i])
  }

  /** `int(s)` for a string of decimal digits (the empty string reads as 0). */
  function DigitsValue(s: string): nat
    requires AllDigits(s)
    decreases |s|
  {
    if s == [] then 0 else DigitsValue(s[..|s| - 1]) * 10 + DigitValue(s[|s| - 1])
  }

  function Pow10(k: nat): (p: nat)
    ensures p >= 1
  {
    if k == 0 then 1 else 10 * Pow10(k - 1)
  }

  /** Reading the digits of `a + b` shifts the value of `a` by the width of `b`. */
  lemma {:induction false} DigitsValueAppend(a: string, b: string)
    requires AllDigits(a) && AllDigits(b)
    ensures AllDigits(a + b)
    ensures DigitsValue(a + b) == DigitsValue(a) * Pow10(|b|) + DigitsValue(b)
    decreases |b|
  {
    if b != [] {
      var b' := b[..|b| - 1];
      assert (a + b)[..|a + b| - 1] == a + b';
      DigitsValueAppend(a, b');
      var x, p, y, d := DigitsValue(a), Pow10(|b'|), DigitsValue(b'), DigitValue(b[|b| - 1]);
      assert DigitsValue(a + b) == (x * p + y) * 10 + d;
      ShiftDigit(x, p, y, d);
      assert DigitsValue(b) == y * 10 + d && Pow10(|b|) == 10 * p;
    } else {
      assert a + b == a;
    }
  }

  /** One more digit on the right multiplies what stands before it by ten. */
  lemma {:induction false} ShiftDigit(x: int, p: int, y: int, d: int)
    ensures (x * p + y) * 10 + d == x * (10 * p) + (y * 10 + d)
  {
  }

  function DigitChar(d: nat): (c: char)
    requires d < 10
    ensures IsDigit(c) && DigitValue(c) == d
  {
    ('0' as int + d) as char
  }

  /** `str(n)` for a natural number: its decimal digits without leading zeros. */
  function NatToString(n: nat): (s: string)
    ensures 1 <= |s| && AllDigits(s) && DigitsValue(s) == n
    ensures s[0] == '0' ==> n == 0
    decreases n
  {
    if n < 10 then [DigitChar(n)]
    else
      var h := NatToString(n / 10);
      var s := h + [DigitChar(n % 10)];
      assert s[..|s| - 1] == h;
      s
  }

  /** A four-digit year prints as exactly four characters. */
  lemma {:induction false} FourDigits(n: nat)
    requires 1000 <= n <= 9999
    ensures |NatToString(n)| == 4
  {
    assert |NatToString(n / 1000)| == 1;
    assert |NatToString(n / 100)| == 2;
    assert |NatToString(n / 10)| == 3;
  }

  /** `{n:02d}` for `n < 100`. */
  function Pad2(n: nat): (r: string)
    requires n < 100
    ensures |r| == 2 && AllDigits(r) && DigitsValue(r) == n
  {
    var r := [DigitChar(n / 10), DigitChar(n % 10)];
    assert r[..1] == [r[0]] && [r[0]][..0] == [];
    assert DigitsValue(r[..1]) == n / 10;
    assert DigitsValue(r) == (n / 10) * 10 + n % 10;
    r
  }

  /** Three digits with leading zeros, as a group of `{n:,}` below the leading one. */
  function Pad3(n: nat): (r: string)
    requires n < 1000
    ensures |r| == 3 && AllDigits(r) && DigitsValue(r) == n
  {
    var h := Pad2(n / 10);
    var r := h + [DigitChar(n % 10)];
    assert r[..2] == h;
    r
  }

  /** `{n:,}` for a natural number: digits grouped by three with commas. */
  function GroupThousands(n: nat): (r: string)
    ensures r != [] && IsDigit(r[0])
    ensures AllDigits(RemoveChar(r, ',')) && DigitsValue(RemoveChar(r, ',')) == n
    decreases n
  {
    if n < 1000 then
      var s := NatToString(n);
      RemoveAbsentChar(s, ',');
      s
    else
      var h := GroupThousands(n / 1000);
      var p := Pad3(n % 1000);
      var r := h + ("," + p);
      RemoveCharAppend(h, "," + p, ',');
      RemoveCharAppend(",", p, ',');
      assert RemoveChar(",", ',') == [];
      RemoveAbsentChar(p, ',');
      assert RemoveChar(r, ',') == RemoveChar(h, ',') + p;
      assert Pow10(3) == 1000;
      DigitsValueAppend(RemoveChar(h, ','), p);
      assert DigitsValue(RemoveChar(r, ',')) == (n / 1000) * 1000 + n % 1000;
      r
  }

  /** Up to three digits print as at most three characters. */
  lemma {:induction false} NatLen(n: nat)
    requires n < 1000
    ensures |NatToString(n)| <= 3
  {
    if n >= 100 {
      assert |NatToString(n / 100)| == 1;
      assert |NatToString(n / 10)| == 2;
    } else if n >= 10 {
      assert |NatToString(n / 10)| == 1;
    }
  }

  /** The commas of `{n:,}`: one exactly at every fourth place counted from the right end. */
  predicate CommasEveryThree(s: string) {
    forall i :: 0 <= i < |s| ==> (s[i] == ',' <==> (|s| - i) % 4 == 0)
  }

  /** Up to three digits carry no comma and need none. */
  lemma {:induction false} ShortDigitsGrouped(s: string)
    requires |s| <= 3 && AllDigits(s)
    ensures CommasEveryThree(s)
  {
    forall i | 0 <= i < |s|
      ensures s[i] == ',' <==> (|s| - i) % 4 == 0
    {
      assert IsDigit(s[i]);
    }
  }

  /** A comma and a group of three digits after a grouped string keep it grouped. */
  lemma {:induction false} GroupedAppend(h: string, p: string)
    requires CommasEveryThree(h) && |p| == 3 && AllDigits(p)
    ensures CommasEveryThree(h + ("," + p))
  {
    var r := h + ("," + p);
    forall i | 0 <= i < |r|
      ensures r[i] == ',' <==> (|r| - i) % 4 == 0
    {
      if i < |h| {
        assert r[i] == h[i];
        assert (|r| - i) % 4 == (|h| - i) % 4;
      } else if i > |h| {
        assert r[i] == p[i - |h| - 1];
        assert IsDigit(p[i - |h| - 1]);
      }
    }
  }

  /** `GroupThousands` puts a comma before each group of three digits, and has no leading zero. */
  lemma {:induction false} GroupThousandsCommas(n: nat)
    ensures var r := GroupThousands(n);
            (r[0] == '0' ==> n == 0) && CommasEveryThree(r)
    decreases n
  {
    if n < 1000 {
      NatLen(n);
      ShortDigitsGrouped(NatToString(n));
    } else {
      GroupThousandsCommas(n / 1000);
      var h := GroupThousands(n / 1000);
      var p := Pad3(n % 1000);
      GroupedAppend(h, p);
      assert GroupThousands(n) == h + ("," + p);
    }
  }

  /** `{n:,}` for any integer: a minus sign in front of the grouped magnitude when negative. */
  function FormatGrouped(n: int): (r: string)
    ensures r != []
    ensures r[0] == '-' <==> n < 0
    ensures n >= 0 ==> IsDigit(r[0])
    ensures var magnitude := if n < 0 then r[1..] else r;
            AllDigits(RemoveChar(magnitude, ',')) && DigitsValue(RemoveChar(magnitude, ',')) == (if n < 0 then -n else n)
  {
    if n < 0 then "-" + GroupThousands(-n) else GroupThousands(n)
  }

  /** The magnitude part of `FormatGrouped` has the comma layout of `{n:,}` and no leading zero. */
  lemma {:induction false} FormatGroupedCommas(n: int)
    ensures var r := FormatGrouped(n);
            var magnitude := if n < 0 then r[1..] else r;
            magnitude != [] && (magnitude[0] == '0' ==> n == 0) && CommasEveryThree(magnitude)
  {
    var m: nat := if n < 0 then -n else n;
    GroupThousandsCommas(m);
    var r := FormatGrouped(n);
    assert (if n < 0 then r[1..] else r) == GroupThousands(m);
  }

  // ---------------------------------------------------------------------------
  // Lines

  /** The characters at which Python's `str.splitlines()` breaks a line. */
  predicate IsLineBreak(c: char) {
    || c == '\n' || c == '\r' || c == '\U{B}' || c == '\U{C}'
    || ('\U{1C}' <= c <= '\U{1E}') || c == '\U{85}' || c == '\U{2028}' || c == '\U{2029}'
  }

  /** The first line break at or after `i`, or `|s|` when there is none. */
  function LineEnd(s: string, i: nat): (k: nat)
    requires i <= |s|
    ensures i <= k <= |s|
    ensures k < |s| ==> IsLineBreak(s[k])
    decreases |s| - i
  {
    if i == |s| || IsLineBreak(s[i]) then i else LineEnd(s, i + 1)
  }

  /** No character between `i` and `LineEnd(s, i)` breaks the line. */
  lemma {:induction false} LineEndFirst(s: string, i: nat)
    requires i <= |s|
    ensures forall j :: i <= j < LineEnd(s, i) ==> !IsLineBreak(s[j])
    decreases |s| - i
  {
    if i < |s| && !IsLineBreak(s[i]) {
      LineEndFirst(s, i + 1);
    }
  }

  /** `s.splitlines()`: the lines of `s` without their breaks; `\r\n` is one break. */
  function SplitLines(s: string): (ls: seq<string>)
    decreases |s|
  {
    if s == [] then []
    else
      var k := LineEnd(s, 0);
      if k == |s| then [s]
      else [s[..k]] + SplitLines(s[k + BreakWidth(s, k)..])
  }

  /** The length of the line break at `s[k]`: 2 for `\r\n`, otherwise 1. */
  function BreakWidth(s: string, k: nat): (w: nat)
    requires k < |s|
    ensures 1 <= w <= 2 && k + w <= |s|
  {
    if s[k] == '\r' && k + 1 < |s| && s[k + 1] == '\n' then 2 else 1
  }

  /** The first line of `splitlines()` runs up to the first break, and the rest are the lines after that break. */
  lemma {:induction false} SplitLinesHead(s: string)
    requires s != []
    ensures var k := LineEnd(s, 0);
            var lines := SplitLines(s);
            && lines != [] && lines[0] == s[..k]
            && (k < |s| ==> lines[1..] == SplitLines(s[k + BreakWidth(s, k)..]))
  {
    var k := LineEnd(s, 0);
    if k < |s| {
      assert SplitLines(s) == [s[..k]] + SplitLines(s[k + BreakWidth(s, k)..]);
    } else {
      assert s[..k] == s;
    }
  }

  /** `sep.join(ls)`. */
  function Join(ls: seq<string>, sep: string): string
    decreases |ls|
  {
    if ls == [] then "" else if |ls| == 1 then ls[0] else ls[0] + sep + Join(ls[1..], sep)
  }
}
