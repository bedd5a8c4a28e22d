/**
  The pieces of Python's `str` that the blog's core relies on: prefix and
  suffix tests, `find`, `split(sep)`, `split(sep, 1)`, `lower()` and `strip()`.
  Strings are sequences of code points.
*/
module Text {
  import opened Wrappers

  predicate StartsWith(s: string, prefix: string) {
    |prefix| <= |s| && s[..|prefix|] == prefix
  }

  predicate EndsWith(s: string, suffix: string) {
    |suffix| <= |s| && s[|s| - |suffix|..] == suffix
  }

  /** `s.find(c)`, except that "not found" is `|s|` instead of -1. */
  function IndexOf(s: string, c: char): (i: nat)
    ensures i <= |s|
    ensures i < |s| ==> s[i] == c
    ensures forall j :: 0 <= j < i ==> s[j] != c
  {
    if s == [] then 0 else if s[0] == c then 0 else 1 + IndexOf(s[1..], c)
  }

  /** Inverse of `Split`: the pieces glued back together with `c` between them. */
  function JoinWith(parts: seq<string>, c: char): string {
    if parts == [] then ""
    else if |parts| == 1 then parts[0]
    else parts[0] + [c] + JoinWith(parts[1..], c)
  }

  /** `s.split(c)`: the pieces between the occurrences of `c`. */
  function Split(s: string, c: char): (parts: seq<string>)
    ensures |parts| >= 1
    decreases |s|
  {
    var i := IndexOf(s, c);
    if i == |s| then [s] else [s[..i]] + Split(s[i + 1..], c)
  }

  /** No piece of `s.split(c)` holds the separator, and gluing the pieces
      back together gives `s` again. */
  lemma {:induction false} SplitJoins(s: string, c: char)
    ensures forall i :: 0 <= i < |Split(s, c)| ==> c !in Split(s, c)[i]
    ensures JoinWith(Split(s, c), c) == s
    decreases |s|
  {
    var i := IndexOf(s, c);
    if i < |s| {
      var rest := s[i + 1..];
      SplitJoins(rest, c);
      var parts := Split(s, c);
      assert parts == [s[..i]] + Split(rest, c);
      assert parts[1..] == Split(rest, c);
      assert s == s[..i] + [c] + rest;
      forall j | 0 <= j < |parts|
        ensures c !in parts[j]
      {
        if j > 0 {
          assert parts[j] == Split(rest, c)[j - 1];
        }
      }
    }
  }

  /** The pieces `Split` returns are the only separator-free pieces that glue
      back to `s`. */
  lemma {:induction false} SplitUnique(s: string, c: char, parts: seq<string>)
    requires |parts| >= 1
    requires forall i :: 0 <= i < |parts| ==> c !in parts[i]
    requires JoinWith(parts, c) == s
    ensures parts == Split(s, c)
    decreases |s|
  {
    var i := IndexOf(s, c);
    if |parts| == 1 {
      assert s == parts[0];
      assert c !in s;
      assert i == |s|;
    } else {
      var rest := JoinWith(parts[1..], c);
      assert s == parts[0] + [c] + rest;
      assert s[|parts[0]|] == c;
      assert forall j :: 0 <= j < |parts[0]| ==> s[j] == parts[0][j];
      assert i == |parts[0]|;
      assert s[..i] == parts[0];
      assert s[i + 1..] == rest;
      SplitUnique(rest, c, parts[1..]);
    }
  }

  /** `s.split(c, 1)` when it yields two pieces: the text before the first `c`
      and everything after it (which may contain more `c`). */
  function SplitOnce(s: string, c: char): Option<(string, string)> {
    var i := IndexOf(s, c);
    if i == |s| then None else Some((s[..i], s[i + 1..]))
  }

  /** There are two pieces exactly when `c` occurs; then the string is the
      first piece, `c`, and the second piece, and the first piece has no `c`. */
  lemma SplitOnceCases(s: string, c: char)
    ensures SplitOnce(s, c).None? <==> c !in s
    ensures SplitOnce(s, c).Some? ==>
      s == SplitOnce(s, c).value.0 + [c] + SplitOnce(s, c).value.1 && c !in SplitOnce(s, c).value.0
  {
    var i := IndexOf(s, c);
    if i < |s| {
      assert s == s[..i] + [c] + s[i + 1..];
    }
  }

  /** `lower()` on the ASCII letters; every other code point is kept. */
  function LowerChar(c: char): char {
    if 'A' <= c <= 'Z' then (c as int + 32) as char else c
  }

  function Lower(s: string): string {
    if s == [] then [] else [LowerChar(s[0])] + Lower(s[1..])
  }

  /** Lower-casing works character by character. */
  lemma {:induction false} LowerEach(s: string)
    ensures |Lower(s)| == |s|
    ensures forall i :: 0 <= i < |s| ==> Lower(s)[i] == LowerChar(s[i])
  {
    if s != [] {
      LowerEach(s[1..]);
      assert Lower(s) == [LowerChar(s[0])] + Lower(s[1..]);
    }
  }

  /** The code points for which Python 2.7's `unicode.isspace()` holds. */
  predicate IsSpace(c: char) {
    var n := c as int;
    (0x09 <= n <= 0x0d) || (0x1c <= n <= 0x20) || n == 0x85 || n == 0xa0
    || n == 0x1680 || n == 0x180e || (0x2000 <= n <= 0x200a)
    || n == 0x2028 || n == 0x2029 || n == 0x202f || n == 0x205f || n == 0x3000
  }

  function TrimLeft(s: string): (r: string)
    ensures |r| <= |s|
  {
    if s != [] && IsSpace(s[0]) then TrimLeft(s[1..]) else s
  }

  function TrimRight(s: string): (r: string)
    ensures |r| <= |s|
  {
    if s != [] && IsSpace(s[|s| - 1]) then TrimRight(s[..|s| - 1]) else s
  }

  /** `TrimLeft` removes a prefix of white space and stops at a non-space. */
  lemma {:induction false} TrimLeftCuts(s: string)
    ensures |TrimLeft(s)| <= |s| && TrimLeft(s) == s[|s| - |TrimLeft(s)|..]
    ensures forall i :: 0 <= i < |s| - |TrimLeft(s)| ==> IsSpace(s[i])
    ensures TrimLeft(s) != [] ==> !IsSpace(TrimLeft(s)[0])
  {
    if s != [] && IsSpace(s[0]) {
      TrimLeftCuts(s[1..]);
    }
  }

  /** `TrimRight` removes a suffix of white space and stops at a non-space. */
  lemma {:induction false} TrimRightCuts(s: string)
    ensures |TrimRight(s)| <= |s| && TrimRight(s) == s[..|TrimRight(s)|]
    ensures forall i :: |TrimRight(s)| <= i < |s| ==> IsSpace(s[i])
    ensures TrimRight(s) != [] ==> !IsSpace(TrimRight(s)[|TrimRight(s)| - 1])
  {
    if s != [] && IsSpace(s[|s| - 1]) {
      TrimRightCuts(s[..|s| - 1]);
    }
  }

  /** `strip()`: `s` with its leading and trailing white space removed. */
  function Strip(s: string): string {
    TrimRight(TrimLeft(s))
  }

  /** What `strip()` keeps is a slice of `s`; what it removes on either side
      is white space; what it keeps starts and ends with a non-space. */
  lemma StripCuts(s: string)
    ensures var lo := |s| - |TrimLeft(s)|;
      && lo + |Strip(s)| <= |s|
      && Strip(s) == s[lo..lo + |Strip(s)|]
      && (forall i :: 0 <= i < lo ==> IsSpace(s[i]))
      && (forall i :: lo + |Strip(s)| <= i < |s| ==> IsSpace(s[i]))
    ensures Strip(s) != [] ==> !IsSpace(Strip(s)[0]) && !IsSpace(Strip(s)[|Strip(s)| - 1])
  {
    var t := TrimLeft(s);
    TrimLeftCuts(s);
    TrimRightCuts(t);
    var r := TrimRight(t);
    var lo := |s| - |t|;
    assert r == s[lo..lo + |r|];
    forall i | lo + |r| <= i < |s|
      ensures IsSpace(s[i])
    {
      assert s[i] == t[i - lo];
    }
    if r != [] {
      assert t[0] == r[0];
    }
  }

  /** Lexicographic order on code points: how Python compares two unicode
      strings with `<=`. */
  predicate LexLe(a: string, b: string) {
    a == [] || (b != [] && (a[0] < b[0] || (a[0] == b[0] && LexLe(a[1..], b[1..]))))
  }

  lemma {:induction false} LexLeTotal(a: string, b: string)
    ensures LexLe(a, b) || LexLe(b, a)
  {
    if a != [] && b != [] && a[0] == b[0] {
      LexLeTotal(a[1..], b[1..]);
    }
  }

  lemma {:induction false} LexLeTransitive(a: string, b: string, c: string)
    requires LexLe(a, b) && LexLe(b, c)
    ensures LexLe(a, c)
  {
    if a != [] && b != [] && c != [] && a[0] == b[0] && b[0] == c[0] {
      LexLeTransitive(a[1..], b[1..], c[1..]);
    }
  }

  lemma {:induction false} LexLeAntisymmetric(a: string, b: string)
    requires LexLe(a, b) && LexLe(b, a)
    ensures a == b
  {
    if a != [] && b != [] {
      LexLeAntisymmetric(a[1..], b[1..]);
      assert a == [a[0]] + a[1..];
      assert b == [b[0]] + b[1..];
    }
  }

  lemma {:induction false} LexLeReflexive(a: string)
    ensures LexLe(a, a)
  {
    if a != [] {
      LexLeReflexive(a[1..]);
    }
  }
}
