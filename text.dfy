/** The string primitives the notes code relies on: JavaScript's `trim`,
    `toLowerCase`, `includes`, and the scan for the first line of a text. */
module Text {
  /** The characters `String.prototype.trim` removes: the ECMAScript WhiteSpace
      and LineTerminator code points. */
  const Spaces: set<char> := {
    ' ', '\t', '\n', '\r', '\U{000B}', '\U{000C}', '\U{00A0}', '\U{1680}',
    '\U{2000}', '\U{2001}', '\U{2002}', '\U{2003}', '\U{2004}', '\U{2005}',
    '\U{2006}', '\U{2007}', '\U{2008}', '\U{2009}', '\U{200A}',
    '\U{2028}', '\U{2029}', '\U{202F}', '\U{205F}', '\U{3000}', '\U{FEFF}'
  }


  /** A character `trim` removes. */
  predicate IsSpace(c: char) {
    c in Spaces
  }

  /** A text that is empty or made of whitespace only. */
  predicate Blank(s: string) {
    forall i :: 0 <= i < |s| ==> IsSpace(s[i])
  }

  /** The number of whitespace characters at the start of `s`. */
  function LeadingSpaces(s: string): (n: nat)
    ensures n <= |s|
    ensures forall k :: 0 <= k < n ==> IsSpace(s[k])
    ensures n == |s| || !IsSpace(s[n])
  {
    if s == [] || !IsSpace(s[0]) then 0 else 1 + LeadingSpaces(s[1..])
  }

  /** The number of whitespace characters at the end of `s`. */
  function TrailingSpaces(s: string): (n: nat)
    ensures n <= |s|
    ensures forall k :: |s| - n <= k < |s| ==> IsSpace(s[k])
    ensures n == |s| || !IsSpace(s[|s| - n - 1])
  {
    if s == [] || !IsSpace(s[|s| - 1]) then 0 else 1 + TrailingSpaces(s[..|s| - 1])
  }

  /** `s.trim()`: leading and trailing whitespace removed; the result
      neither starts nor ends with whitespace, and it is empty exactly when `s`
      is blank. */
  function Trim(s: string): (r: string)
    ensures |r| <= |s|
    ensures r == [] || (!IsSpace(r[0]) && !IsSpace(r[|r| - 1]))
    ensures r == [] <==> Blank(s)
  {
    var t := s[LeadingSpaces(s)..];
    t[..|t| - TrailingSpaces(t)]
  }

  /** What `Trim` cuts away is whitespace only: the result is the infix of `s`
      that starts after the leading whitespace and is followed by whitespace
      only. */
  lemma TrimInfix(s: string)
    ensures var i, r := LeadingSpaces(s), Trim(s);
            && i + |r| <= |s|
            && r == s[i..i + |r|]
            && Blank(s[..i])
            && Blank(s[i + |r|..])
  {
    var i := LeadingSpaces(s);
    var t := s[i..];
    var r := Trim(s);
    var tail := s[i + |r|..];
    forall k | 0 <= k < |tail| ensures IsSpace(tail[k]) {
      assert tail[k] == t[|r| + k];
    }
    assert r == s[i..i + |r|];
  }

  /** A text that already starts and ends with non-whitespace is its own trim. */
  lemma TrimUnchanged(s: string)
    requires s != [] && !IsSpace(s[0]) && !IsSpace(s[|s| - 1])
    ensures Trim(s) == s
  {
  }

  /** The lower-case mapping of one character (ASCII letters only). */
  function LowerChar(c: char): (d: char)
    ensures IsSpace(d) <==> IsSpace(c)
  {
    if 'A' <= c <= 'Z' then (c as int - 'A' as int + 'a' as int) as char else c
  }

  /** `s.toLowerCase()`, character by character. */
  function Lower(s: string): (r: string)
    ensures |r| == |s| && forall i :: 0 <= i < |r| ==> r[i] == LowerChar(s[i])
  {
    seq(|s|, i requires 0 <= i < |s| => LowerChar(s[i]))
  }

  /** Lower-casing neither creates nor removes whitespace, so a query is blank
      exactly when its lower-cased form is. */
  lemma LowerBlank(s: string)
    ensures Blank(Lower(s)) <==> Blank(s)
  {
    if Blank(Lower(s)) {
      forall i | 0 <= i < |s| ensures IsSpace(s[i]) {
        assert IsSpace(Lower(s)[i]);
      }
    }
  }

  /** `sub` occurs in `s` starting at index `i`. */
  predicate OccursAt(s: string, sub: string, i: int) {
    0 <= i <= |s| - |sub| && s[i..i + |sub|] == sub
  }

  /** `s.includes(sub)`: `sub` occurs in `s` at some position. */
  function Contains(s: string, sub: string): (b: bool)
    ensures b <==> exists i :: OccursAt(s, sub, i)
    decreases |s|
  {
    if |sub| > |s| then false
    else if s[..|sub|] == sub then
      assert OccursAt(s, sub, 0);
      true
    else
      var b := Contains(s[1..], sub);
      assert b ==> exists i :: OccursAt(s, sub, i) by {
        if b {
          var i :| OccursAt(s[1..], sub, i);
          assert s[i + 1..i + 1 + |sub|] == s[1..][i..i + |sub|];
          assert OccursAt(s, sub, i + 1);
        }
      }
      assert (exists i :: OccursAt(s, sub, i)) ==> b by {
        if exists i :: OccursAt(s, sub, i) {
          var i :| OccursAt(s, sub, i);
          assert i != 0;
          assert s[1..][i - 1..i - 1 + |sub|] == s[i..i + |sub|];
          assert OccursAt(s[1..], sub, i - 1);
        }
      }
      b
  }

  /** The text before the first `'\n'` of `s` (all of `s` when it has none). */
  function FirstLine(s: string): (r: string)
    ensures |r| <= |s| && r == s[..|r|]
    ensures '\n' !in r
    ensures |r| == |s| || s[|r|] == '\n'
  {
    if s == [] || s[0] == '\n' then [] else [s[0]] + FirstLine(s[1..])
  }

  /** The three properties of `FirstLine` determine it: any prefix without a
      newline that stops at the end or at a newline is the first line. */
  lemma {:induction false} FirstLineUnique(s: string, p: string)
    requires |p| <= |s| && p == s[..|p|]
    requires '\n' !in p
    requires |p| == |s| || s[|p|] == '\n'
    ensures p == FirstLine(s)
  {
    if s != [] && s[0] != '\n' {
      assert p != [] && p[0] == s[0];
      assert p[1..] == s[1..][..|p| - 1];
      FirstLineUnique(s[1..], p[1..]);
    }
  }
}
