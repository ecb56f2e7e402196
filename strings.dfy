/**
 * Character and string operations the importer borrows from Python's `str`:
 * `strip()`, `lower()`, `replace()`, `in`, `split(" ")[0]`, `", ".join(...)`
 * and `str(int)`, together with the facts about them that the rest of the
 * model relies on.
 */
module Strings {

  /** Python's `str.isspace()`: the characters `strip()` and the regex `\s` treat as whitespace. */
  predicate IsSpace(c: char) {
    c == ' ' || ('\t' <= c <= '\r') || ('\U{1c}' <= c <= '\U{1f}')
    || c == '\U{85}' || c == '\U{a0}' || c == '\U{1680}' || ('\U{2000}' <= c <= '\U{200a}')
    || c == '\U{2028}' || c == '\U{2029}' || c == '\U{202f}' || c == '\U{205f}' || c == '\U{3000}'
  }

  /** The character class `[a-zA-Z0-9_]` of the sanitiser and of the table-name pattern. */
  predicate IsWordChar(c: char) {
    ('a' <= c <= 'z') || ('A' <= c <= 'Z') || ('0' <= c <= '9') || c == '_'
  }

  predicate AllSpace(s: string) {
    forall i :: 0 <= i < |s| ==> IsSpace(s[i])
  }

  predicate NoSpace(s: string) {
    forall i :: 0 <= i < |s| ==> !IsSpace(s[i])
  }

  /** No whitespace at either end: what `strip()` returns. */
  predicate IsStripped(s: string) {
    s == [] || (!IsSpace(s[0]) && !IsSpace(s[|s| - 1]))
  }

  function LeadingSpaces(s: string): (n: nat)
    ensures n <= |s|
    ensures AllSpace(s[..n])
    ensures n < |s| ==> !IsSpace(s[n])
  {
    if s == [] || !IsSpace(s[0]) then 0
    else
      var k := LeadingSpaces(s[1..]);
      assert s[..k + 1] == [s[0]] + s[1..][..k];
      k + 1
  }

  function TrailingSpaces(s: string): (n: nat)
    ensures n <= |s|
    ensures AllSpace(s[|s| - n..])
    ensures n < |s| ==> !IsSpace(s[|s| - 1 - n])
  {
    if s == [] || !IsSpace(s[|s| - 1]) then 0
    else
      var t := s[..|s| - 1];
      var k := TrailingSpaces(t);
      assert s[|s| - (k + 1)..] == t[|t| - k..] + [s[|s| - 1]];
      k + 1
  }

  /**
   * Python's `s.strip()`: the longest infix of `s` that neither starts nor
   * ends with whitespace, obtained by removing only whitespace.
   */
  function Strip(s: string): (r: string)
    ensures IsStripped(r)
    ensures |r| <= |s|
    ensures exists i :: 0 <= i <= |s| - |r| && r == s[i..][..|r|] && AllSpace(s[..i]) && AllSpace(s[i..][|r|..])
  {
    var i := LeadingSpaces(s);
    var t := s[i..];
    var k := TrailingSpaces(t);
    var r := t[..|t| - k];
    assert r != [] ==> r[0] == s[i] && r[|r| - 1] == t[|t| - 1 - k];
    r
  }

  lemma StripOfStripped(s: string)
    requires IsStripped(s)
    ensures Strip(s) == s
  {
    assert LeadingSpaces(s) == 0;
    assert TrailingSpaces(s) == 0;
  }

  /** `strip()` is idempotent. */
  lemma StripIdempotent(s: string)
    ensures Strip(Strip(s)) == Strip(s)
  {
    StripOfStripped(Strip(s));
  }

  /** Every character of `Strip(s)` comes from `s`. */
  lemma StripChars(s: string, c: char)
    requires c in Strip(s)
    ensures c in s
  {
    var i := LeadingSpaces(s);
    var t := s[i..];
    var r := t[..|t| - TrailingSpaces(t)];
    assert r == Strip(s);
    var j :| 0 <= j < |r| && r[j] == c;
    assert s[i + j] == c;
  }

  /** A string without whitespace is its own `strip()`. */
  lemma StripNoSpace(s: string)
    requires NoSpace(s)
    ensures Strip(s) == s
  {
    StripOfStripped(s);
  }

  /** ASCII part of `str.lower()`. */
  function LowerChar(c: char): char {
    if 'A' <= c <= 'Z' then (c as int - 'A' as int + 'a' as int) as char else c
  }

  /** `s.lower()`, restricted to ASCII case mapping. */
  function Lower(s: string): (r: string)
    ensures |r| == |s|
    ensures forall i :: 0 <= i < |s| ==> r[i] == LowerChar(s[i])
    ensures forall x :: x in r ==> !('A' <= x <= 'Z')
  {
    seq(|s|, i requires 0 <= i < |s| => LowerChar(s[i]))
  }

  /** `lower()` leaves a string without ASCII capitals unchanged. */
  lemma LowerOfLower(s: string)
    requires forall x :: x in s ==> !('A' <= x <= 'Z')
    ensures Lower(s) == s
  {
    assert forall i :: 0 <= i < |s| ==> s[i] in s;
  }

  /** `lower()` only turns capitals into small letters: every other character of the result was in the input. */
  lemma LowerChars(s: string)
    ensures forall x :: x in Lower(s) ==> x in s || ('a' <= x <= 'z')
  {
    forall x | x in Lower(s)
      ensures x in s || ('a' <= x <= 'z')
    {
      var i :| 0 <= i < |s| && Lower(s)[i] == x;
      assert s[i] in s;
    }
  }

  /** `s.replace(c, rep)` for a one-character pattern. */
  function Replace(s: string, c: char, rep: string): (r: string)
    ensures c !in s ==> r == s
    ensures c !in rep ==> c !in r
    ensures forall x :: x in r ==> x in s || x in rep
  {
    if s == [] then []
    else (if s[0] == c then rep else [s[0]]) + Replace(s[1..], c, rep)
  }

  lemma {:induction false} ReplaceAppend(a: string, b: string, c: char, rep: string)
    ensures Replace(a + b, c, rep) == Replace(a, c, rep) + Replace(b, c, rep)
  {
    if a == [] {
      assert a + b == b;
    } else {
      assert (a + b)[1..] == a[1..] + b;
      ReplaceAppend(a[1..], b, c, rep);
    }
  }

  /** Replacing the one occurrence of `c` between two strings that lack it. */
  lemma ReplaceOne(a: string, c: char, b: string, rep: string)
    requires c !in a && c !in b
    ensures Replace(a + [c] + b, c, rep) == a + rep + b
  {
    ReplaceAppend(a + [c], b, c, rep);
    ReplaceAppend(a, [c], c, rep);
    assert Replace([c], c, rep) == rep + Replace([], c, rep);
  }

  /** `ReplaceOne` with the whole strings named, for use on literals. */
  lemma ReplaceOneAt(s: string, a: string, c: char, b: string, rep: string, r: string)
    requires s == a + [c] + b && r == a + rep + b && c !in a && c !in b
    ensures Replace(s, c, rep) == r
  {
    ReplaceOne(a, c, b, rep);
  }

  /** `re.sub(r'[^a-zA-Z0-9_]', '', s)`: keep only the word characters. */
  function KeepWordChars(s: string): (r: string)
    ensures forall x :: x in r ==> IsWordChar(x) && x in s
    ensures (forall x :: x in s ==> IsWordChar(x)) ==> r == s
  {
    if s == [] then []
    else (if IsWordChar(s[0]) then [s[0]] else []) + KeepWordChars(s[1..])
  }

  lemma {:induction false} KeepWordCharsAppend(a: string, b: string)
    ensures KeepWordChars(a + b) == KeepWordChars(a) + KeepWordChars(b)
  {
    if a == [] {
      assert a + b == b;
    } else {
      assert (a + b)[1..] == a[1..] + b;
      KeepWordCharsAppend(a[1..], b);
    }
  }

  /** Deleting two non-word characters that separate and end runs of word characters. */
  lemma KeepWordCharsDropTwo(a: string, x: char, b: string, y: char)
    requires (forall c :: c in a ==> IsWordChar(c)) && (forall c :: c in b ==> IsWordChar(c))
    requires !IsWordChar(x) && !IsWordChar(y)
    ensures KeepWordChars(a + [x] + b + [y]) == a + b
  {
    var ax := a + [x];
    var axb := ax + b;
    assert KeepWordChars([x]) == [] && KeepWordChars([y]) == [] by {
      assert [x][1..] == [] && [y][1..] == [];
    }
    KeepWordCharsAppend(a, [x]);
    assert KeepWordChars(ax) == a + [];
    assert a + [] == a;
    KeepWordCharsAppend(ax, b);
    assert KeepWordChars(axb) == a + b;
    KeepWordCharsAppend(axb, [y]);
    assert (a + b) + [] == a + b;
  }

  predicate StartsWith(s: string, prefix: string) {
    |prefix| <= |s| && s[..|prefix|] == prefix
  }

  /** Python's `sub in s` for strings. */
  predicate Contains(s: string, sub: string)
    decreases |s|
  {
    StartsWith(s, sub) || (s != [] && Contains(s[1..], sub))
  }

  /** Index of the first occurrence of `c` in `s`, or `|s|` when there is none. */
  function IndexOf(s: string, c: char): (k: nat)
    ensures k <= |s|
    ensures c !in s[..k]
    ensures k < |s| ==> s[k] == c
  {
    if s == [] then 0
    else if s[0] == c then 0
    else
      var k := IndexOf(s[1..], c);
      assert s[..k + 1] == [s[0]] + s[1..][..k];
      k + 1
  }

  /** `s.split(" ")[0]`: everything before the first space. */
  function FirstField(s: string): (r: string)
    ensures ' ' !in r
    ensures r <= s && (|r| < |s| ==> s[|r|] == ' ')
    ensures ' ' !in s ==> r == s
  {
    s[..IndexOf(s, ' ')]
  }

  /** `sep.join(xs)`. */
  function Join(sep: string, xs: seq<string>): string
  {
    if |xs| == 0 then ""
    else if |xs| == 1 then xs[0]
    else xs[0] + sep + Join(sep, xs[1..])
  }

  /** Number of occurrences of `c` in `s`. */
  function Count(s: string, c: char): nat {
    if s == [] then 0 else (if s[0] == c then 1 else 0) + Count(s[1..], c)
  }

  lemma CountAppend(a: string, b: string, c: char)
    ensures Count(a + b, c) == Count(a, c) + Count(b, c)
  {
    if a == [] {
      assert a + b == b;
    } else {
      assert (a + b)[1..] == a[1..] + b;
      CountAppend(a[1..], b, c);
    }
  }

  // Decimal rendering of integers, as Python's `str(int)` / f"{n}".

  function DigitChar(d: nat): char
    requires d < 10
  {
    ('0' as int + d) as char
  }

  predicate IsDigit(c: char) {
    '0' <= c <= '9'
  }

  function DigitValue(c: char): nat
    requires IsDigit(c)
  {
    c as int - '0' as int
  }

  function NatToString(n: nat): string
  {
    if n < 10 then [DigitChar(n)] else NatToString(n / 10) + [DigitChar(n % 10)]
  }

  function IntToString(i: int): string {
    if i < 0 then "-" + NatToString(-i) else NatToString(i)
  }

  predicate AllDigits(s: string) {
    forall i :: 0 <= i < |s| ==> IsDigit(s[i])
  }

  /** The value of a string of decimal digits (most significant first). */
  function DigitsValue(s: string): nat
    requires AllDigits(s)
  {
    if s == [] then 0 else DigitsValue(s[..|s| - 1]) * 10 + DigitValue(s[|s| - 1])
  }

  /** Reads back what `IntToString` writes; `None` for anything else. */
  function ParseInt(s: string): Option<int> {
    if |s| > 1 && s[0] == '-' && AllDigits(s[1..]) then Some(0 - DigitsValue(s[1..]) as int)
    else if s != [] && AllDigits(s) then Some(DigitsValue(s))
    else None
  }

  lemma {:induction false} NatToStringDigits(n: nat)
    ensures NatToString(n) != [] && AllDigits(NatToString(n))
    ensures DigitsValue(NatToString(n)) == n
  {
    if n >= 10 {
      NatToStringDigits(n / 10);
      var s := NatToString(n);
      assert s[..|s| - 1] == NatToString(n / 10);
    }
  }

  /** Decimal rendering is reversible: `int(str(i)) == i`. */
  lemma IntToStringRoundTrip(i: int)
    ensures ParseInt(IntToString(i)) == Some(i)
    ensures '(' !in IntToString(i) && ')' !in IntToString(i) && ',' !in IntToString(i)
  {
    if i < 0 {
      NatToStringDigits(-i);
      assert IntToString(i)[1..] == NatToString(-i);
    } else {
      NatToStringDigits(i);
    }
  }

  datatype Option<T> = None | Some(value: T)
}
