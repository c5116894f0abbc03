/**
 * The JavaScript string operations the extension's core is built from
 * (`split(c)[0]`, `split(c).pop()`, `lastIndexOf`, `includes`, `endsWith`,
 * `trim`, `toLowerCase`), each defined once and specified by what it returns.
 */
module Strings {

  /** `s.split(c)[0]`: the text before the first `c`, or all of `s` when it has none. */
  function BeforeFirst(s: string, c: char): (r: string)
    ensures |r| <= |s| && r == s[..|r|]
    ensures c !in r
    ensures |r| < |s| ==> s[|r|] == c
  {
    if |s| == 0 || s[0] == c then [] else [s[0]] + BeforeFirst(s[1..], c)
  }

  /** `s.split(c).pop()`: the text after the last `c`, or all of `s` when it has none. */
  function AfterLast(s: string, c: char): (r: string)
    ensures |r| <= |s| && r == s[|s| - |r|..]
    ensures c !in r
    ensures |r| < |s| ==> s[|s| - |r| - 1] == c
  {
    if |s| == 0 || s[|s| - 1] == c then [] else AfterLast(s[..|s| - 1], c) + [s[|s| - 1]]
  }

  /** `s.lastIndexOf(c)`: the position of the last `c`, or -1 when there is none. */
  function LastIndexOf(s: string, c: char): (r: int)
    ensures -1 <= r < |s|
    ensures r == -1 <==> c !in s
    ensures r >= 0 ==> s[r] == c && c !in s[r + 1..]
  {
    if |s| == 0 then -1
    else if s[|s| - 1] == c then |s| - 1
    else
      var t := s[..|s| - 1];
      var r := LastIndexOf(t, c);
      assert s == t + [s[|s| - 1]];
      assert r >= 0 ==> s[r + 1..] == t[r + 1..] + [s[|s| - 1]];
      r
  }

  /** The text after `lastIndexOf(c)` is exactly what `split(c).pop()` returns. */
  lemma AfterLastIndexOf(s: string, c: char)
    requires c in s
    ensures s[LastIndexOf(s, c) + 1..] == AfterLast(s, c)
  {
  }

  /** Without a `c`, `split(c)[0]` is the whole string. */
  lemma BeforeFirstAbsent(s: string, c: char)
    requires c !in s
    ensures BeforeFirst(s, c) == s
  {
  }

  /** A slice of a string without `c` has no `c` either. */
  lemma SliceKeepsAbsent(s: string, i: int, j: int, c: char)
    requires c !in s && 0 <= i <= j <= |s|
    ensures c !in s[i..j]
  {
    assert forall k :: 0 <= k < j - i ==> s[i..j][k] == s[i + k];
  }

  /** Splitting at the first `c` of `a + [c] + b`, when `a` has no `c`, gives back `a`. */
  lemma {:induction false} BeforeFirstJoin(a: string, b: string, c: char)
    requires c !in a
    ensures BeforeFirst(a + [c] + b, c) == a
  {
    if |a| > 0 {
      assert (a + [c] + b)[1..] == a[1..] + [c] + b;
      BeforeFirstJoin(a[1..], b, c);
    }
  }

  /** Splitting at the last `c` of `a + [c] + b`, when `b` has no `c`, gives back `b`. */
  lemma {:induction false} AfterLastJoin(a: string, b: string, c: char)
    requires c !in b
    ensures AfterLast(a + [c] + b, c) == b
  {
    var s := a + [c] + b;
    if |b| > 0 {
      assert s[..|s| - 1] == a + [c] + b[..|b| - 1];
      AfterLastJoin(a, b[..|b| - 1], c);
    }
  }

  /** `s.includes(sub)`: `sub` occurs in `s` at some position. */
  predicate Includes(s: string, sub: string)
    decreases |s|
  {
    |sub| <= |s| && (s[..|sub|] == sub || Includes(s[1..], sub))
  }

  /** `includes` holds exactly when `sub` occurs at some position of `s`. */
  lemma {:induction false} IncludesAt(s: string, sub: string)
    ensures Includes(s, sub) <==> exists i :: 0 <= i <= |s| - |sub| && s[i..][..|sub|] == sub
    decreases |s|
  {
    if |sub| <= |s| {
      assert s[0..] == s;
      if s[..|sub|] != sub {
        IncludesAt(s[1..], sub);
        if Includes(s[1..], sub) {
          var j :| 0 <= j <= |s| - 1 - |sub| && s[1..][j..][..|sub|] == sub;
          assert s[1..][j..] == s[j + 1..];
        }
        if exists i :: 0 <= i <= |s| - |sub| && s[i..][..|sub|] == sub {
          var i :| 0 <= i <= |s| - |sub| && s[i..][..|sub|] == sub;
          assert s[1..][i - 1..] == s[i..];
        }
      }
    }
  }

  /** A one-character `includes` is plain membership. */
  lemma {:induction false} IncludesChar(s: string, c: char)
    ensures Includes(s, [c]) <==> c in s
  {
    if |s| > 0 {
      IncludesChar(s[1..], c);
      assert s == [s[0]] + s[1..];
    }
  }

  /** A string that `includes` a non-empty `sub` contains the first character of `sub`. */
  lemma {:induction false} IncludesFirstChar(s: string, sub: string)
    requires |sub| > 0 && Includes(s, sub)
    ensures sub[0] in s
  {
    if s[..|sub|] == sub {
      assert s[0] == sub[0];
    } else {
      IncludesFirstChar(s[1..], sub);
    }
  }

  /** Appending a `/` creates no `..` that was not there before. */
  lemma {:induction false} AppendSlashNoDotDot(p: string)
    requires !Includes(p, "..")
    ensures !Includes(p + "/", "..")
  {
    if |p| >= 2 {
      assert (p + "/")[..2] == p[..2];
      assert (p + "/")[1..] == p[1..] + "/";
      AppendSlashNoDotDot(p[1..]);
    } else if |p| == 1 {
      assert (p + "/")[..2] == [p[0], '/'];
      assert (p + "/")[1..] == "/";
    }
  }

  /** `s.endsWith(c)` for a one-character suffix. */
  predicate EndsWith(s: string, c: char) {
    |s| > 0 && s[|s| - 1] == c
  }

  /** `s` ends with `c` exactly when it is some string followed by `c`. */
  lemma EndsWithAppend(s: string, c: char)
    ensures EndsWith(s, c) <==> |s| > 0 && s == s[..|s| - 1] + [c]
    ensures EndsWith(s + [c], c)
  {
    if EndsWith(s, c) {
      assert s == s[..|s| - 1] + [s[|s| - 1]];
    }
  }

  /** The characters `String.prototype.trim` removes: ECMAScript WhiteSpace and LineTerminator. */
  predicate IsWhitespace(ch: char) {
    ch == '\t' || ch == '\n' || ch == '\U{B}' || ch == '\U{C}' || ch == '\r' || ch == ' '
    || ch == '\U{A0}' || ch == '\U{1680}' || ('\U{2000}' <= ch <= '\U{200A}')
    || ch == '\U{2028}' || ch == '\U{2029}' || ch == '\U{202F}' || ch == '\U{205F}'
    || ch == '\U{3000}' || ch == '\U{FEFF}'
  }

  /** The number of whitespace characters `s` starts with. */
  function LeadingSpace(s: string): (n: nat)
    ensures n <= |s|
    ensures forall k :: 0 <= k < n ==> IsWhitespace(s[k])
    ensures n == |s| || !IsWhitespace(s[n])
  {
    if |s| > 0 && IsWhitespace(s[0]) then
      var m := LeadingSpace(s[1..]);
      assert forall k :: 1 <= k < m + 1 ==> s[k] == s[1..][k - 1];
      m + 1
    else 0
  }

  /** The number of whitespace characters `s` ends with. */
  function TrailingSpace(s: string): (n: nat)
    ensures n <= |s|
    ensures forall k :: |s| - n <= k < |s| ==> IsWhitespace(s[k])
    ensures n == |s| || !IsWhitespace(s[|s| - n - 1])
  {
    if |s| > 0 && IsWhitespace(s[|s| - 1]) then
      var m := TrailingSpace(s[..|s| - 1]);
      assert forall k :: 0 <= k < |s| - 1 ==> s[k] == s[..|s| - 1][k];
      m + 1
    else 0
  }

  /** `s.trim()`: `s` without its leading and its trailing whitespace. */
  function Trim(s: string): (r: string)
    ensures |r| == 0 <==> forall i :: 0 <= i < |s| ==> IsWhitespace(s[i])
    ensures |r| == 0 || (!IsWhitespace(r[0]) && !IsWhitespace(r[|r| - 1]))
    ensures var i := LeadingSpace(s);
      i + |r| <= |s| && r == s[i..i + |r|]
      && (forall k :: 0 <= k < i ==> IsWhitespace(s[k]))
      && (forall k :: i + |r| <= k < |s| ==> IsWhitespace(s[k]))
  {
    var i := LeadingSpace(s);
    var t := s[i..];
    var j := |t| - TrailingSpace(t);
    assert forall k :: i + j <= k < |s| ==> s[k] == t[k - i];
    s[i..i + j]
  }

  /** `s` has no ASCII upper-case letter. */
  predicate NoUpper(s: string) {
    forall i :: 0 <= i < |s| ==> !('A' <= s[i] <= 'Z')
  }

  /** ASCII upper-case letters map to lower case; every other character is kept. */
  function LowerChar(ch: char): (r: char)
    ensures !('A' <= r <= 'Z')
    ensures !('A' <= ch <= 'Z') ==> r == ch
  {
    if 'A' <= ch <= 'Z' then (ch as int + 32) as char else ch
  }

  /** `s.toLowerCase()`, on the ASCII letters. */
  function ToLower(s: string): (r: string)
    ensures |r| == |s|
    ensures forall i :: 0 <= i < |s| ==> r[i] == LowerChar(s[i])
    ensures NoUpper(r)
  {
    if |s| == 0 then [] else [LowerChar(s[0])] + ToLower(s[1..])
  }

  /** Lower-casing introduces no character outside the letters. */
  lemma ToLowerKeepsAbsent(s: string, c: char)
    requires !('a' <= c <= 'z') && c !in s
    ensures c !in ToLower(s)
  {
    var r := ToLower(s);
    forall i | 0 <= i < |r| ensures r[i] != c {
      assert r[i] == LowerChar(s[i]);
    }
  }

  /** `s.replace(/[:.]/g, '-')`: every `:` and `.` becomes `-`, nothing else changes. */
  function ReplaceColonsAndDots(s: string): (r: string)
    ensures |r| == |s|
    ensures ':' !in r && '.' !in r
    ensures forall i :: 0 <= i < |s| && s[i] != ':' && s[i] != '.' ==> r[i] == s[i]
    ensures forall i :: 0 <= i < |s| && (s[i] == ':' || s[i] == '.') ==> r[i] == '-'
  {
    seq(|s|, i requires 0 <= i < |s| => if s[i] == ':' || s[i] == '.' then '-' else s[i])
  }
}
