/** String operations used by the ingest scripts and the query interpreter.
    Python's str methods work on Unicode; this module models their ASCII
    behaviour (character classes, case mapping, whitespace). */
module Strings {

  // ---------------------------------------------------------------------
  // Character classes

  predicate IsDigit(c: char) { '0' <= c <= '9' }
  predicate IsUpper(c: char) { 'A' <= c <= 'Z' }
  predicate IsLower(c: char) { 'a' <= c <= 'z' }
  predicate IsLetter(c: char) { IsUpper(c) || IsLower(c) }
  predicate IsAlnum(c: char) { IsLetter(c) || IsDigit(c) }

  /** The regex class \w: letters, digits and the underscore. */
  predicate IsWordChar(c: char) { IsAlnum(c) || c == '_' }

  /** str.isspace(): tab, line feed, vertical tab, form feed, carriage return,
      the file/group/record/unit separators and the space. */
  predicate IsSpace(c: char) {
    c == ' ' || (9 <= c as int <= 13) || (28 <= c as int <= 31)
  }

  predicate AllDigits(s: string) { forall i | 0 <= i < |s| :: IsDigit(s[i]) }
  predicate AllAlnum(s: string) { forall i | 0 <= i < |s| :: IsAlnum(s[i]) }

  // ---------------------------------------------------------------------
  // Case mapping

  function LowerChar(c: char): char {
    if IsUpper(c) then (c as int + 32) as char else c
  }

  function UpperChar(c: char): char {
    if IsLower(c) then (c as int - 32) as char else c
  }

  /** str.lower() */
  function Lower(s: string): string {
    seq(|s|, i requires 0 <= i < |s| => LowerChar(s[i]))
  }

  /** str.upper() */
  function Upper(s: string): string {
    seq(|s|, i requires 0 <= i < |s| => UpperChar(s[i]))
  }

  /** str.title(): a letter that follows a letter is lower-cased, any other
      letter is upper-cased; other characters are kept. */
  function Title(s: string): string {
    seq(|s|, i requires 0 <= i < |s| =>
      if i > 0 && IsLetter(s[i - 1]) then LowerChar(s[i]) else UpperChar(s[i]))
  }

  lemma LowerUpper(s: string)
    ensures Lower(Upper(s)) == Lower(s) && Upper(Lower(s)) == Upper(s)
  {
  }

  /** Case mapping is idempotent, and lower-casing a title-cased string is
      lower-casing the original. */
  lemma CaseIdempotent(s: string)
    ensures Upper(Upper(s)) == Upper(s) && Lower(Lower(s)) == Lower(s)
    ensures Lower(Title(s)) == Lower(s)
  {
  }

  // ---------------------------------------------------------------------
  // Whitespace stripping: str.strip()

  function StripLeft(s: string): string
    decreases |s|
  {
    if |s| > 0 && IsSpace(s[0]) then StripLeft(s[1..]) else s
  }

  function StripRight(s: string): string
    decreases |s|
  {
    if |s| > 0 && IsSpace(s[|s| - 1]) then StripRight(s[..|s| - 1]) else s
  }

  function Strip(s: string): string {
    StripRight(StripLeft(s))
  }

  /** Leading whitespace is all that StripLeft removes. */
  lemma {:induction false} StripLeftSkips(ws: string, x: string)
    requires forall i | 0 <= i < |ws| :: IsSpace(ws[i])
    requires x == [] || !IsSpace(x[0])
    ensures StripLeft(ws + x) == x
    decreases |ws|
  {
    if ws != [] {
      assert (ws + x)[1..] == ws[1..] + x;
      StripLeftSkips(ws[1..], x);
    }
  }

  /** A string that neither starts nor ends with whitespace: what strip() returns. */
  predicate Stripped(s: string) {
    s == [] || (!IsSpace(s[0]) && !IsSpace(s[|s| - 1]))
  }

  lemma {:induction false} StripLeftShape(s: string)
    ensures |StripLeft(s)| <= |s|
    ensures StripLeft(s) == s[|s| - |StripLeft(s)|..]
    ensures StripLeft(s) == [] || !IsSpace(StripLeft(s)[0])
    decreases |s|
  {
    if |s| > 0 && IsSpace(s[0]) {
      StripLeftShape(s[1..]);
    }
  }

  lemma {:induction false} StripRightShape(s: string)
    ensures |StripRight(s)| <= |s|
    ensures StripRight(s) == s[..|StripRight(s)|]
    ensures StripRight(s) == [] || !IsSpace(StripRight(s)[|StripRight(s)| - 1])
    decreases |s|
  {
    if |s| > 0 && IsSpace(s[|s| - 1]) {
      StripRightShape(s[..|s| - 1]);
    }
  }

  /** strip() leaves neither leading nor trailing whitespace. */
  lemma StripIsStripped(s: string)
    ensures Stripped(Strip(s))
  {
    var l := StripLeft(s);
    StripLeftShape(s);
    StripRightShape(l);
    var r := StripRight(l);
    if r != [] {
      assert r[0] == l[0];
    }
  }

  lemma StripOfStripped(s: string)
    requires Stripped(s)
    ensures Strip(s) == s
  {
  }

  /** Stripping a string whose tail holds a non-space character keeps any
      head that does not start with whitespace. */
  lemma {:induction false} StripKeepsHead(p: string, q: string, k: nat)
    requires p != [] && !IsSpace(p[0])
    requires k < |q| && !IsSpace(q[k])
    ensures StripLeft(p + q) == p + q
    ensures |Strip(p + q)| >= |p| + k + 1
    ensures Strip(p + q)[..|p|] == p
  {
    StripRightKeeps(p + q, |p| + k);
    StripRightShape(p + q);
  }

  lemma {:induction false} StripRightKeeps(s: string, k: nat)
    requires k < |s| && !IsSpace(s[k])
    ensures |StripRight(s)| >= k + 1
    decreases |s|
  {
    if |s| > 0 && IsSpace(s[|s| - 1]) {
      StripRightKeeps(s[..|s| - 1], k);
    }
  }

  /** Stripping never removes a final non-space character. */
  lemma StripKeepsLast(s: string)
    requires s != [] && !IsSpace(s[|s| - 1])
    ensures Strip(s) != [] && Strip(s)[|Strip(s)| - 1] == s[|s| - 1]
  {
    StripLeftShape(s);
    var l := StripLeft(s);
    assert l != [] by {
      if l == [] { StripLeftAllSpace(s); }
    }
    assert l[|l| - 1] == s[|s| - 1];
  }

  /** StripLeft stops at the first non-space character. */
  lemma {:induction false} StripLeftKeeps(s: string, k: nat)
    requires k < |s| && !IsSpace(s[k])
    ensures |StripLeft(s)| >= |s| - k
    decreases |s|
  {
    if |s| > 0 && IsSpace(s[0]) {
      assert k > 0;
      StripLeftKeeps(s[1..], k - 1);
    }
  }

  /** Stripping keeps a tail that starts and ends with a non-space character. */
  lemma StripKeepsTail(x: string, t: string)
    requires t != [] && !IsSpace(t[0]) && !IsSpace(t[|t| - 1])
    ensures EndsWith(Strip(x + t), t)
  {
    var s := x + t;
    StripLeftKeeps(s, |x|);
    StripLeftShape(s);
    var l := StripLeft(s);
    assert l[|l| - 1] == t[|t| - 1];
    assert StripRight(l) == l;
    assert l[|l| - |t|..] == s[|s| - |t|..] == t;
  }

  lemma {:induction false} StripLeftAllSpace(s: string)
    requires StripLeft(s) == []
    ensures forall i | 0 <= i < |s| :: IsSpace(s[i])
    decreases |s|
  {
    if |s| > 0 {
      StripLeftAllSpace(s[1..]);
      assert forall i | 1 <= i < |s| :: s[i] == s[1..][i - 1];
    }
  }

  // ---------------------------------------------------------------------
  // Substrings and slicing

  predicate OccursAt(s: string, t: string, i: nat) {
    i + |t| <= |s| && s[i..i + |t|] == t
  }

  /** Python's `t in s` for strings. */
  predicate Contains(s: string, t: string) {
    exists i: nat | i <= |s| :: OccursAt(s, t, i)
  }

  /** A substring of a substring is a substring. */
  lemma ContainsTransitive(s: string, v: string, t: string)
    requires Contains(s, v) && Contains(v, t)
    ensures Contains(s, t)
  {
    var i: nat :| i <= |s| && OccursAt(s, v, i);
    var j: nat :| j <= |v| && OccursAt(v, t, j);
    forall k | 0 <= k < |t|
      ensures s[i + j + k] == t[k]
    {
      assert s[i..i + |v|][j + k] == v[j + k];
      assert v[j..j + |t|][k] == t[k];
    }
    assert s[i + j..i + j + |t|] == t;
    assert OccursAt(s, t, i + j);
  }

  predicate StartsWith(s: string, t: string) {
    |t| <= |s| && s[..|t|] == t
  }

  predicate EndsWith(s: string, t: string) {
    |t| <= |s| && s[|s| - |t|..] == t
  }

  /** s[:n] for a non-negative n. */
  function Take(s: string, n: nat): (r: string)
    ensures |r| <= n && StartsWith(s, r)
  {
    if n <= |s| then s[..n] else s
  }

  /** sep.join(parts) */
  function Join(parts: seq<string>, sep: string): string
    decreases |parts|
  {
    if |parts| == 0 then ""
    else if |parts| == 1 then parts[0]
    else parts[0] + sep + Join(parts[1..], sep)
  }

  /** `[b for b in bits if b]`: the non-empty strings, in order. */
  function NonEmpty(bits: seq<string>): (r: seq<string>)
    ensures forall b | b in r :: b in bits && b != ""
    decreases |bits|
  {
    if bits == [] then []
    else (if bits[0] != "" then [bits[0]] else []) + NonEmpty(bits[1..])
  }

  /** Filtering a list without empty strings changes nothing. */
  lemma {:induction false} NonEmptyOfNonEmpty(bits: seq<string>)
    requires forall b | b in bits :: b != ""
    ensures NonEmpty(bits) == bits
    decreases |bits|
  {
    if bits != [] {
      assert forall b | b in bits[1..] :: b in bits;
      NonEmptyOfNonEmpty(bits[1..]);
      assert bits[0] in bits;
      assert bits == [bits[0]] + bits[1..];
    }
  }

  /** re.sub(r"[^A-Za-z0-9]+", "", s): keep only the ASCII letters and digits. */
  function KeepAlnum(s: string): (r: string)
    ensures AllAlnum(r) && |r| <= |s|
    decreases |s|
  {
    if s == [] then []
    else if IsAlnum(s[0]) then [s[0]] + KeepAlnum(s[1..])
    else KeepAlnum(s[1..])
  }

  // ---------------------------------------------------------------------
  // Decimal numerals

  function DigitValue(c: char): nat
    requires IsDigit(c)
  {
    c as int - '0' as int
  }

  function DigitChar(d: nat): char
    requires d < 10
  {
    ('0' as int + d) as char
  }

  /** int(s) for a string of decimal digits. */
  function DigitsValue(s: string): nat
    requires AllDigits(s)
    decreases |s|
  {
    if s == [] then 0 else DigitsValue(s[..|s| - 1]) * 10 + DigitValue(s[|s| - 1])
  }

  /** int() of a four-digit string, written out. */
  lemma FourDigitsValue(w: string)
    requires |w| == 4 && AllDigits(w)
    ensures DigitsValue(w) == DigitValue(w[0]) * 1000 + DigitValue(w[1]) * 100 + DigitValue(w[2]) * 10 + DigitValue(w[3])
  {
    assert w[..1][..0] == [];
    assert DigitsValue(w[..1]) == DigitValue(w[0]);
    assert w[..2][..1] == w[..1];
    assert DigitsValue(w[..2]) == DigitsValue(w[..1]) * 10 + DigitValue(w[1]);
    assert w[..3][..2] == w[..2];
    assert DigitsValue(w[..3]) == DigitsValue(w[..2]) * 10 + DigitValue(w[2]);
    assert w[..3] == w[..|w| - 1];
    assert DigitsValue(w) == DigitsValue(w[..3]) * 10 + DigitValue(w[3]);
  }

  /** str(n) for a non-negative int. */
  function NatToString(n: nat): (r: string)
    ensures r != [] && AllDigits(r)
    decreases n
  {
    if n < 10 then [DigitChar(n)] else NatToString(n / 10) + [DigitChar(n % 10)]
  }

  /** Reading back what str() wrote gives the number. */
  lemma {:induction false} NatToStringRoundTrip(n: nat)
    ensures DigitsValue(NatToString(n)) == n
    decreases n
  {
    if n >= 10 {
      NatToStringRoundTrip(n / 10);
      var s := NatToString(n);
      assert s[..|s| - 1] == NatToString(n / 10);
    }
  }

  /** str() is injective on non-negative ints. */
  lemma NatToStringInjective(a: nat, b: nat)
    requires NatToString(a) == NatToString(b)
    ensures a == b
  {
    NatToStringRoundTrip(a);
    NatToStringRoundTrip(b);
  }

  /** A four-digit year is written with exactly four characters. */
  lemma {:induction false} NatToStringFourDigits(n: nat)
    requires 1000 <= n <= 9999
    ensures |NatToString(n)| == 4
  {
    assert NatToString(n / 10) == NatToString(n / 100) + [DigitChar((n / 10) % 10)];
    assert NatToString(n / 100) == NatToString(n / 1000) + [DigitChar((n / 100) % 10)];
  }

  /** Strings that open with different characters are different. */
  lemma DistinctByHead(o: seq<string>)
    requires forall i | 0 <= i < |o| :: o[i] != []
    requires forall i, j | 0 <= i < j < |o| :: o[i][0] != o[j][0]
    ensures forall i, j | 0 <= i < |o| && 0 <= j < |o| && i != j :: o[i] != o[j]
  {
    forall i, j | 0 <= i < |o| && 0 <= j < |o| && i != j
      ensures o[i] != o[j]
    {
      if i < j { assert o[i][0] != o[j][0]; } else { assert o[j][0] != o[i][0]; }
    }
  }

  lemma StartsWithAppend(p: string, q: string, t: string)
    ensures StartsWith(p + q, p + t) <==> StartsWith(q, t)
  {
    if StartsWith(p + q, p + t) {
      assert q[..|t|] == (p + q)[..|p + t|][|p|..];
    }
    if StartsWith(q, t) {
      assert (p + q)[..|p + t|] == p + q[..|t|];
    }
  }

  // ---------------------------------------------------------------------
  // Lexicographic order of Python strings (by code point)

  predicate LexLess(a: string, b: string)
    decreases |a|
  {
    if a == [] then b != []
    else if b == [] then false
    else if a[0] != b[0] then a[0] < b[0]
    else LexLess(a[1..], b[1..])
  }

  // ---------------------------------------------------------------------
  // Suffix after the last occurrence of a character

  function AfterLast(s: string, c: char): string
    decreases |s|
  {
    if s == [] then []
    else if s[|s| - 1] == c then []
    else AfterLast(s[..|s| - 1], c) + [s[|s| - 1]]
  }

  lemma {:induction false} AfterLastOfJoin(p: string, c: char, d: string)
    requires c !in d
    ensures AfterLast(p + [c] + d, c) == d
    decreases |d|
  {
    var s := p + [c] + d;
    if d != [] {
      assert s[..|s| - 1] == p + [c] + d[..|d| - 1];
      AfterLastOfJoin(p, c, d[..|d| - 1]);
      assert d == d[..|d| - 1] + [d[|d| - 1]];
    } else {
      assert s[|s| - 1] == c;
    }
  }
}
