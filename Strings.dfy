/**
 * The JavaScript string primitives the worksheet pipeline relies on, over
 * `string` (= `seq<char>`): `trim`, `toLowerCase`/`toUpperCase` (ASCII
 * letters only), `includes`, `split` on one character and `join`.
 */
module Strings {

  /** The ECMAScript WhiteSpace and LineTerminator code points: what
      `String.prototype.trim` strips and what the regular-expression class
      `\s` matches. */
  predicate IsSpace(c: char)
  {
    || c == '\t' || c == '\n' || c == '\U{000B}' || c == '\U{000C}' || c == '\r' || c == ' '
    || c == '\U{00A0}' || c == '\U{1680}' || ('\U{2000}' <= c <= '\U{200A}')
    || c == '\U{2028}' || c == '\U{2029}' || c == '\U{202F}' || c == '\U{205F}'
    || c == '\U{3000}' || c == '\U{FEFF}'
  }

  /** The ECMAScript LineTerminator code points: what the regular-expression
      `.` does not match. */
  predicate IsLineTerminator(c: char)
  {
    c == '\n' || c == '\r' || c == '\U{2028}' || c == '\U{2029}'
  }

  predicate IsDigit(c: char) { '0' <= c <= '9' }

  /** The class `\w` of a regular expression without the `u` flag. */
  predicate IsWordChar(c: char)
  {
    ('a' <= c <= 'z') || ('A' <= c <= 'Z') || IsDigit(c) || c == '_'
  }

  predicate AllSpace(s: string)
  {
    forall i :: 0 <= i < |s| ==> IsSpace(s[i])
  }

  /** A string `trim` leaves alone: empty, or starting and ending with a
      non-space. */
  predicate IsTrimmed(s: string)
  {
    s == [] || (!IsSpace(s[0]) && !IsSpace(s[|s| - 1]))
  }

  /** Number of leading white-space characters. */
  function LeadingSpace(s: string): (n: nat)
    ensures n <= |s|
    ensures AllSpace(s[..n])
    ensures n < |s| ==> !IsSpace(s[n])
    decreases |s|
  {
    if |s| > 0 && IsSpace(s[0]) then
      var n := 1 + LeadingSpace(s[1..]);
      assert forall i :: 1 <= i < n ==> s[i] == s[1..][i - 1];
      n
    else 0
  }

  /** Number of trailing white-space characters. */
  function TrailingSpace(s: string): (n: nat)
    ensures n <= |s|
    ensures AllSpace(s[|s| - n..])
    ensures n < |s| ==> !IsSpace(s[|s| - 1 - n])
    decreases |s|
  {
    if |s| > 0 && IsSpace(s[|s| - 1]) then
      var n := 1 + TrailingSpace(s[..|s| - 1]);
      assert forall i :: |s| - n <= i < |s| - 1 ==> s[i] == s[..|s| - 1][i];
      n
    else 0
  }

  /** `String.prototype.trim`: the infix of `s` left after removing leading
      and trailing white space. */
  function Trim(s: string): (r: string)
    ensures IsTrimmed(r)
    ensures LeadingSpace(s) + |r| <= |s|
    ensures r == s[LeadingSpace(s)..LeadingSpace(s) + |r|]
    ensures AllSpace(s[LeadingSpace(s) + |r|..])
    ensures r == [] <==> AllSpace(s)
  {
    var a := LeadingSpace(s);
    var t := s[a..];
    var n := TrailingSpace(t);
    TrimParts(s, a, t, n);
    SuffixPrefix(s, a, |t| - n);
    t[..|t| - n]
  }

  /** A prefix of a suffix is an infix. */
  lemma SuffixPrefix(s: string, a: nat, k: nat)
    requires a + k <= |s|
    ensures s[a..][..k] == s[a..a + k]
  {
  }

  lemma TrimParts(s: string, a: nat, t: string, n: nat)
    requires a == LeadingSpace(s) && t == s[a..] && n == TrailingSpace(t)
    ensures IsTrimmed(t[..|t| - n])
    ensures AllSpace(s[a + |t| - n..])
    ensures t[..|t| - n] == [] <==> AllSpace(s)
  {
    TrimPartsTrimmed(s, a, t, n);
    TrimPartsTail(s, a, t, n);
    if n == |t| {
      TrimPartsEmpty(s, a, t, n);
    } else {
      assert |t[..|t| - n]| > 0;
      assert !IsSpace(s[a]);
    }
  }

  lemma TrimPartsTrimmed(s: string, a: nat, t: string, n: nat)
    requires a == LeadingSpace(s) && t == s[a..] && n == TrailingSpace(t)
    ensures IsTrimmed(t[..|t| - n])
  {
    if n < |t| {
      var r := t[..|t| - n];
      assert r[0] == s[a];
      assert r[|r| - 1] == t[|t| - 1 - n];
    }
  }

  lemma TrimPartsTail(s: string, a: nat, t: string, n: nat)
    requires a == LeadingSpace(s) && t == s[a..] && n == TrailingSpace(t)
    ensures AllSpace(s[a + |t| - n..])
  {
    assert s[a + |t| - n..] == t[|t| - n..];
  }

  lemma TrimPartsEmpty(s: string, a: nat, t: string, n: nat)
    requires a == LeadingSpace(s) && t == s[a..] && n == TrailingSpace(t)
    requires n == |t|
    ensures AllSpace(s)
  {
    assert AllSpace(t);
    assert a == |s|;
    assert s == s[..a];
  }

  /** `trim` leaves a trimmed string unchanged; in particular it is
      idempotent. */
  lemma TrimOfTrimmed(s: string)
    requires IsTrimmed(s)
    ensures Trim(s) == s
  {
    if s != [] {
      assert LeadingSpace(s) == 0;
      assert TrailingSpace(s) == 0;
    }
  }

  lemma TrimIdempotent(s: string)
    ensures Trim(Trim(s)) == Trim(s)
  {
    TrimOfTrimmed(Trim(s));
  }

  /** A string that starts with a non-space trims to a non-empty string. */
  lemma TrimNonEmpty(s: string)
    requires s != [] && !IsSpace(s[0])
    ensures Trim(s) != []
  {
    assert !AllSpace(s);
  }

  function LowerChar(c: char): char
  {
    if 'A' <= c <= 'Z' then c - 'A' + 'a' else c
  }

  function UpperChar(c: char): char
  {
    if 'a' <= c <= 'z' then c - 'a' + 'A' else c
  }

  /** `toLowerCase`, restricted to ASCII letters. */
  function ToLower(s: string): (r: string)
    ensures |r| == |s|
    ensures forall i :: 0 <= i < |s| ==> r[i] == LowerChar(s[i])
  {
    seq(|s|, i requires 0 <= i < |s| => LowerChar(s[i]))
  }

  /** `toUpperCase`, restricted to ASCII letters. */
  function ToUpper(s: string): (r: string)
    ensures |r| == |s|
    ensures forall i :: 0 <= i < |s| ==> r[i] == UpperChar(s[i])
  {
    seq(|s|, i requires 0 <= i < |s| => UpperChar(s[i]))
  }

  predicate OccursAt(s: string, sub: string, i: int)
  {
    0 <= i && i + |sub| <= |s| && s[i..i + |sub|] == sub
  }

  /** Whether `sub` occurs in `s` at position `i` or later. */
  function ContainsFrom(s: string, sub: string, i: nat): (b: bool)
    ensures b <==> exists j :: i <= j && OccursAt(s, sub, j)
    decreases |s| - i
  {
    if i + |sub| > |s| then false
    else if s[i..i + |sub|] == sub then assert OccursAt(s, sub, i); true
    else
      var b := ContainsFrom(s, sub, i + 1);
      assert forall j :: i <= j && OccursAt(s, sub, j) ==> j == i || i + 1 <= j;
      b
  }

  /** `String.prototype.includes`. */
  function Contains(s: string, sub: string): (b: bool)
    ensures b <==> exists j :: OccursAt(s, sub, j)
  {
    ContainsFrom(s, sub, 0)
  }

  /** Position of the first `c` in `s`. */
  function IndexOf(s: string, c: char): (i: nat)
    requires c in s
    ensures i < |s| && s[i] == c && c !in s[..i]
  {
    if s[0] == c then 0
    else
      var i := 1 + IndexOf(s[1..], c);
      assert s[..i] == [s[0]] + s[1..][..i - 1];
      i
  }

  /** `Array.prototype.join(sep)`. */
  function Join(parts: seq<string>, sep: string): string
  {
    if |parts| == 0 then ""
    else if |parts| == 1 then parts[0]
    else parts[0] + sep + Join(parts[1..], sep)
  }

  /** Joining one more part adds the separator and the part. */
  lemma {:induction false} JoinSnoc(parts: seq<string>, p: string, sep: string)
    requires parts != []
    ensures Join(parts + [p], sep) == Join(parts, sep) + sep + p
  {
    var ps := parts + [p];
    if |parts| > 1 {
      assert ps[1..] == parts[1..] + [p];
      JoinSnoc(parts[1..], p, sep);
    } else {
      assert ps == [parts[0], p];
      assert ps[1..] == [p];
    }
  }

  /** `String.prototype.split(sep)` for a one-character separator: the
      maximal separator-free pieces, always at least one, which `Join`
      glues back into the input. */
  function Split(s: string, sep: char): (parts: seq<string>)
    ensures |parts| >= 1
    ensures forall p :: p in parts ==> sep !in p
    ensures Join(parts, [sep]) == s
    decreases |s|
  {
    if sep in s then
      var i := IndexOf(s, sep);
      var rest := Split(s[i + 1..], sep);
      var parts := [s[..i]] + rest;
      assert parts[1..] == rest;
      assert s == s[..i] + [sep] + s[i + 1..];
      parts
    else [s]
  }

  /** The other direction: splitting a join of separator-free pieces gives
      the pieces back. */
  lemma {:induction false} SplitJoin(parts: seq<string>, sep: char)
    requires |parts| >= 1
    requires forall p :: p in parts ==> sep !in p
    ensures Split(Join(parts, [sep]), sep) == parts
  {
    if |parts| > 1 {
      var s := Join(parts, [sep]);
      var rest := Join(parts[1..], [sep]);
      assert s == parts[0] + [sep] + rest;
      assert s[|parts[0]|] == sep;
      assert s[..|parts[0]|] == parts[0];
      assert sep !in parts[0];
      assert sep !in s[..|parts[0]|];
      assert IndexOf(s, sep) == |parts[0]|;
      assert s[|parts[0]| + 1..] == rest;
      SplitJoin(parts[1..], sep);
    }
  }
}
