/**
 * The JavaScript string built-ins the report code relies on, with their JavaScript meaning:
 * `trim`, `toUpperCase` and `toLowerCase` (ASCII letters only), `includes`, `padStart`,
 * the decimal rendering of a number, and `replace` with a global character-class pattern.
 * Splitting on a separator is added as the inverse used to read generated file names back.
 */
module Strings {

  /** The code points `String.prototype.trim` removes: JavaScript's WhiteSpace and LineTerminator. */
  predicate IsWhitespace(c: char) {
    var k := c as int;
    k == 0x09 || k == 0x0A || k == 0x0B || k == 0x0C || k == 0x0D || k == 0x20 || k == 0xA0 ||
    k == 0x1680 || (0x2000 <= k <= 0x200A) || k == 0x2028 || k == 0x2029 || k == 0x202F ||
    k == 0x205F || k == 0x3000 || k == 0xFEFF
  }

  /** `s` with its leading whitespace removed: a suffix of `s`, and what was cut off is whitespace. */
  function TrimStart(s: string): (r: string)
    ensures |r| <= |s| && r == s[|s| - |r|..]
    ensures forall i :: 0 <= i < |s| - |r| ==> IsWhitespace(s[i])
    ensures r != [] ==> !IsWhitespace(r[0])
  {
    if s != [] && IsWhitespace(s[0]) then TrimStart(s[1..]) else s
  }

  /** `s` with its trailing whitespace removed: a prefix of `s`, and what was cut off is whitespace. */
  function TrimEnd(s: string): (r: string)
    ensures |r| <= |s| && r == s[..|r|]
    ensures forall i :: |r| <= i < |s| ==> IsWhitespace(s[i])
    ensures r != [] ==> !IsWhitespace(r[|r| - 1])
  {
    if s != [] && IsWhitespace(s[|s| - 1]) then TrimEnd(s[..|s| - 1]) else s
  }

  /** `s.trim()`: the slice of `s` left after cutting whitespace off both ends. */
  function Trim(s: string): (r: string)
    ensures |r| <= |s|
    ensures r != [] ==> !IsWhitespace(r[0]) && !IsWhitespace(r[|r| - 1])
  {
    TrimEnd(TrimStart(s))
  }

  /**
   * JavaScript's falsy test on `s.trim()`: every character is whitespace. `TrimEmptyIffBlank`
   * shows this is the same as `s.trim()` being the empty string.
   */
  predicate IsBlank(s: string) {
    forall i :: 0 <= i < |s| ==> IsWhitespace(s[i])
  }

  /** A string trims to nothing exactly when every character of it is whitespace. */
  lemma TrimEmptyIffBlank(s: string)
    ensures Trim(s) == "" <==> IsBlank(s)
  {
    var t := TrimStart(s);
    assert forall k :: 0 <= k < |t| ==> t[k] == s[|s| - |t| + k];
  }

  /** Trimming a string that is already trimmed changes nothing. */
  lemma TrimIdempotent(s: string)
    ensures Trim(Trim(s)) == Trim(s)
  {
    var r := Trim(s);
    assert TrimStart(r) == r;
    assert TrimEnd(r) == r;
  }

  /** ASCII `toUpperCase` of one character. */
  function UpperChar(c: char): char {
    if 'a' <= c <= 'z' then (c as int - 32) as char else c
  }

  /** Upper-casing maps whitespace to whitespace and everything else to non-whitespace. */
  lemma UpperWhitespace(c: char)
    ensures IsWhitespace(UpperChar(c)) == IsWhitespace(c)
  {
  }

  /** ASCII `toLowerCase` of one character. */
  function LowerChar(c: char): char {
    if 'A' <= c <= 'Z' then (c as int + 32) as char else c
  }

  /** `s.toUpperCase()`, restricted to ASCII letters. */
  function ToUpper(s: string): (r: string)
    ensures |r| == |s| && forall i :: 0 <= i < |s| ==> r[i] == UpperChar(s[i])
  {
    if s == [] then [] else [UpperChar(s[0])] + ToUpper(s[1..])
  }

  /** `s.toLowerCase()`, restricted to ASCII letters. */
  function ToLower(s: string): (r: string)
    ensures |r| == |s| && forall i :: 0 <= i < |s| ==> r[i] == LowerChar(s[i])
  {
    if s == [] then [] else [LowerChar(s[0])] + ToLower(s[1..])
  }

  lemma UpperSlice(s: string, i: int, j: int)
    requires 0 <= i <= j <= |s|
    ensures ToUpper(s[i..j]) == ToUpper(s)[i..j]
  {
  }

  /** Upper-casing twice is upper-casing once. */
  lemma UpperIdempotent(s: string)
    ensures ToUpper(ToUpper(s)) == ToUpper(s)
  {
  }

  lemma {:induction false} TrimStartUpper(s: string)
    ensures TrimStart(ToUpper(s)) == ToUpper(TrimStart(s))
    decreases |s|
  {
    var u := ToUpper(s);
    if s != [] {
      UpperWhitespace(s[0]);
    }
    if s != [] && IsWhitespace(s[0]) {
      assert TrimStart(u) == TrimStart(u[1..]);
      UpperSlice(s, 1, |s|);
      TrimStartUpper(s[1..]);
    } else {
      assert TrimStart(u) == u;
    }
  }

  lemma {:induction false} TrimEndUpper(s: string)
    ensures TrimEnd(ToUpper(s)) == ToUpper(TrimEnd(s))
    decreases |s|
  {
    var u := ToUpper(s);
    if s != [] {
      UpperWhitespace(s[|s| - 1]);
    }
    if s != [] && IsWhitespace(s[|s| - 1]) {
      assert TrimEnd(u) == TrimEnd(u[..|u| - 1]);
      UpperSlice(s, 0, |s| - 1);
      TrimEndUpper(s[..|s| - 1]);
    } else {
      assert TrimEnd(u) == u;
    }
  }

  /** Upper-casing never turns whitespace into something else or back, so it commutes with trim. */
  lemma TrimUpperCommute(s: string)
    ensures Trim(ToUpper(s)) == ToUpper(Trim(s))
  {
    TrimStartUpper(s);
    TrimEndUpper(TrimStart(s));
  }

  predicate IsAsciiDigit(c: char) {
    '0' <= c <= '9'
  }

  predicate IsAsciiAlnum(c: char) {
    ('a' <= c <= 'z') || ('A' <= c <= 'Z') || IsAsciiDigit(c)
  }

  predicate AllDigits(s: string) {
    forall i :: 0 <= i < |s| ==> IsAsciiDigit(s[i])
  }

  /** `s.replace(/[...]/g, '')` for a character class: the characters `keep` accepts, in order. */
  function Retain(s: string, keep: char -> bool): (r: string)
    ensures |r| <= |s|
  {
    if s == [] then [] else (if keep(s[0]) then [s[0]] else []) + Retain(s[1..], keep)
  }

  /** Every kept character occurs in the result as often as in `s`, every other one not at all. */
  lemma {:induction false} RetainCount(s: string, keep: char -> bool)
    ensures forall c :: multiset(Retain(s, keep))[c] == if keep(c) then multiset(s)[c] else 0
    decreases |s|
  {
    if s != [] {
      assert s == [s[0]] + s[1..];
      RetainCount(s[1..], keep);
    }
  }

  /** Keeping characters distributes over concatenation. */
  lemma {:induction false} RetainAppend(a: string, b: string, keep: char -> bool)
    ensures Retain(a + b, keep) == Retain(a, keep) + Retain(b, keep)
    decreases |a|
  {
    if a == [] {
      assert a + b == b;
    } else {
      var head := if keep(a[0]) then [a[0]] else [];
      assert (a + b)[0] == a[0];
      assert (a + b)[1..] == a[1..] + b;
      assert Retain(a + b, keep) == head + Retain(a[1..] + b, keep);
      assert Retain(a, keep) == head + Retain(a[1..], keep);
      RetainAppend(a[1..], b, keep);
    }
  }

  /** A string all of whose characters are kept is left as it is. */
  lemma {:induction false} RetainAll(s: string, keep: char -> bool)
    requires forall i :: 0 <= i < |s| ==> keep(s[i])
    ensures Retain(s, keep) == s
    decreases |s|
  {
    if s != [] {
      RetainAll(s[1..], keep);
    }
  }

  /** `needle` occurs in `s` starting at index `i`. */
  predicate OccursAt(s: string, needle: string, i: int) {
    0 <= i <= |s| - |needle| && s[i..i + |needle|] == needle
  }

  /** `s.includes(needle)`: `needle` occurs in `s` at some position. */
  predicate Includes(s: string, needle: string) {
    exists i :: 0 <= i <= |s| - |needle| && OccursAt(s, needle, i)
  }

  /** `s.padStart(width, fill)`. */
  function PadStart(s: string, width: nat, fill: char): (r: string)
    ensures |r| == if |s| >= width then |s| else width
    ensures r[|r| - |s|..] == s
    ensures forall i :: 0 <= i < |r| - |s| ==> r[i] == fill
  {
    if |s| >= width then s else seq(width - |s|, _ => fill) + s
  }

  function DigitChar(d: nat): (c: char)
    requires d < 10
    ensures IsAsciiDigit(c)
  {
    ('0' as int + d) as char
  }

  function DigitValue(c: char): nat
    requires IsAsciiDigit(c)
  {
    c as int - '0' as int
  }

  /** `${n}` for a non-negative integer: its decimal digits, most significant first, no leading zero. */
  function NatToString(n: nat): (r: string)
    ensures r != [] && AllDigits(r)
  {
    if n < 10 then [DigitChar(n)] else NatToString(n / 10) + [DigitChar(n % 10)]
  }

  /** The number a string of decimal digits denotes. */
  function DecimalValue(s: string): nat
    requires AllDigits(s)
  {
    if s == [] then 0 else DecimalValue(s[..|s| - 1]) * 10 + DigitValue(s[|s| - 1])
  }

  /** Reading back the decimal rendering of `n` gives `n`. */
  lemma {:induction false} DecimalRoundTrip(n: nat)
    ensures DecimalValue(NatToString(n)) == n
  {
    if n >= 10 {
      var t := NatToString(n / 10);
      var s := t + [DigitChar(n % 10)];
      assert s[..|s| - 1] == t;
      DecimalRoundTrip(n / 10);
    }
  }

  function Pow10(k: nat): nat {
    if k == 0 then 1 else 10 * Pow10(k - 1)
  }

  /** A string of `k` digits denotes a number below 10^k. */
  lemma {:induction false} DecimalBelow(s: string)
    requires AllDigits(s)
    ensures DecimalValue(s) < Pow10(|s|)
    decreases |s|
  {
    if s != [] {
      var prefix := s[..|s| - 1];
      DecimalBelow(prefix);
      assert DecimalValue(prefix) * 10 <= (Pow10(|s| - 1) - 1) * 10;
    }
  }

  /** A number with `k` decimal digits renders as exactly `k` characters. */
  lemma {:induction false} NatToStringLength(n: nat, k: nat)
    requires 1 <= k && Pow10(k - 1) <= n < Pow10(k)
    ensures |NatToString(n)| == k
  {
    if k > 1 {
      assert Pow10(k - 1) == 10 * Pow10(k - 2);
      assert Pow10(k) == 10 * Pow10(k - 1);
      assert Pow10(k - 2) <= n / 10 < Pow10(k - 1);
      NatToStringLength(n / 10, k - 1);
    }
  }

  /** The digits of a number from 10 to 99. */
  lemma TwoDigitText(n: nat)
    requires 10 <= n < 100
    ensures NatToString(n) == [DigitChar(n / 10), DigitChar(n % 10)]
  {
    assert NatToString(n) == NatToString(n / 10) + [DigitChar(n % 10)];
  }

  /** The digits of a number from 100 to 999. */
  lemma ThreeDigitText(n: nat)
    requires 100 <= n < 1000
    ensures NatToString(n) == [DigitChar(n / 100), DigitChar(n / 10 % 10), DigitChar(n % 10)]
  {
    TwoDigitText(n / 10);
    assert n / 10 / 10 == n / 100;
  }

  /** The digits of a number from 1000 to 9999. */
  lemma FourDigitText(n: nat)
    requires 1000 <= n < 10000
    ensures NatToString(n) == [DigitChar(n / 1000), DigitChar(n / 100 % 10), DigitChar(n / 10 % 10), DigitChar(n % 10)]
  {
    ThreeDigitText(n / 10);
    assert n / 10 / 100 == n / 1000 && n / 10 / 10 % 10 == n / 100 % 10;
  }

  /** The number two digits denote. */
  lemma TwoDigitValue(a: char, b: char)
    requires IsAsciiDigit(a) && IsAsciiDigit(b)
    ensures DecimalValue([a, b]) == DigitValue(a) * 10 + DigitValue(b)
  {
    assert [a, b][..1] == [a];
    assert [a][..0] == [];
    assert DecimalValue([a]) == DigitValue(a);
  }

  /** The number four digits denote. */
  lemma FourDigitValue(a: char, b: char, c: char, d: char)
    requires IsAsciiDigit(a) && IsAsciiDigit(b) && IsAsciiDigit(c) && IsAsciiDigit(d)
    ensures DecimalValue([a, b, c, d]) == ((DigitValue(a) * 10 + DigitValue(b)) * 10 + DigitValue(c)) * 10 + DigitValue(d)
  {
    assert [a, b, c, d][..3] == [a, b, c];
    assert [a, b, c][..2] == [a, b];
    TwoDigitValue(a, b);
  }

  /** `${n}.padStart(2, '0')` for `n` below 100 is two digits that read back as `n`. */
  lemma PadTwoDigits(n: nat)
    requires n < 100
    ensures var r := PadStart(NatToString(n), 2, '0');
      |r| == 2 && AllDigits(r) && DecimalValue(r) == n
  {
    var r := PadStart(NatToString(n), 2, '0');
    var hi, lo := if n < 10 then '0' else DigitChar(n / 10), DigitChar(n % 10);
    if n < 10 {
      assert r == [hi, lo];
    } else {
      assert NatToString(n) == [hi, lo];
    }
    assert r[..1] == [hi] && r[..1][..0] == [];
    assert DecimalValue(r[..1]) == DigitValue(hi);
    assert DecimalValue(r) == DigitValue(hi) * 10 + DigitValue(lo);
  }

  /** Joins `parts` with `sep` between neighbours, as `Array.prototype.join` does. */
  function Join(parts: seq<string>, sep: char): string {
    if |parts| == 0 then []
    else if |parts| == 1 then parts[0]
    else parts[0] + [sep] + Join(parts[1..], sep)
  }

  /** `s.split(sep)`: the pieces between occurrences of `sep`; always at least one piece. */
  function Split(s: string, sep: char): (r: seq<string>)
    ensures |r| >= 1
  {
    if s == [] then [[]]
    else
      var rest := Split(s[1..], sep);
      if s[0] == sep then [[]] + rest else [[s[0]] + rest[0]] + rest[1..]
  }

  /** A prefix free of the separator is glued onto the first piece of what follows it. */
  lemma {:induction false} SplitAppend(p: string, q: string, sep: char)
    requires sep !in p
    ensures Split(p + q, sep) == [p + Split(q, sep)[0]] + Split(q, sep)[1..]
    decreases |p|
  {
    if p != [] {
      assert (p + q)[0] == p[0] && p[0] != sep;
      assert (p + q)[1..] == p[1..] + q;
      SplitAppend(p[1..], q, sep);
      var rest := Split(p[1..] + q, sep);
      assert Split(p + q, sep) == [[p[0]] + rest[0]] + rest[1..];
      assert [p[0]] + (p[1..] + Split(q, sep)[0]) == p + Split(q, sep)[0];
    } else {
      var r := Split(q, sep);
      assert p + q == q && p + r[0] == r[0];
      assert [r[0]] + r[1..] == r;
    }
  }

  /** Seven parts joined: each part followed by the separator, the last one alone. */
  lemma JoinSeven(p: seq<string>, sep: char)
    requires |p| == 7
    ensures Join(p, sep) == p[0] + [sep] + p[1] + [sep] + p[2] + [sep] + p[3] + [sep] + p[4] + [sep] + p[5] + [sep] + p[6]
  {
    assert p[1..][1..] == p[2..] && p[2..][1..] == p[3..] && p[3..][1..] == p[4..];
    assert p[4..][1..] == p[5..] && p[5..][1..] == p[6..];
    var j6, j5, j4 := Join(p[6..], sep), Join(p[5..], sep), Join(p[4..], sep);
    var j3, j2, j1 := Join(p[3..], sep), Join(p[2..], sep), Join(p[1..], sep);
    assert j6 == p[6];
    assert j5 == p[5] + [sep] + j6;
    assert j4 == p[4] + [sep] + j5;
    assert j3 == p[3] + [sep] + j4;
    assert j2 == p[2] + [sep] + j3;
    assert j1 == p[1] + [sep] + j2;
  }

  /** Splitting undoes joining when no piece contains the separator. */
  lemma {:induction false} SplitJoin(parts: seq<string>, sep: char)
    requires |parts| >= 1
    requires forall i :: 0 <= i < |parts| ==> sep !in parts[i]
    ensures Split(Join(parts, sep), sep) == parts
    decreases |parts|
  {
    if |parts| == 1 {
      SplitAppend(parts[0], [], sep);
      assert parts[0] + [] == parts[0];
    } else {
      var rest := Join(parts[1..], sep);
      SplitJoin(parts[1..], sep);
      assert parts[0] + [sep] + rest == parts[0] + ([sep] + rest);
      assert ([sep] + rest)[0] == sep && ([sep] + rest)[1..] == rest;
      assert Split([sep] + rest, sep) == [[]] + parts[1..];
      SplitAppend(parts[0], [sep] + rest, sep);
      assert parts[0] + [] == parts[0];
      assert parts == [parts[0]] + parts[1..];
    }
  }
}
