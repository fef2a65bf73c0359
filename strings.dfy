/**
 * The JavaScript string operations the summariser relies on, over `seq<char>`.
 * A `char` is a Unicode scalar value, so outside the Basic Multilingual Plane a length here counts one
 * where JavaScript's UTF-16 `length` counts two.
 */
module Strings {

  function Min(a: int, b: int): int { if a <= b then a else b }

  function Max(a: int, b: int): int { if a >= b then a else b }

  /** The characters that end a sentence, for both the chunker and the sentence splitter: . ! ? */
  predicate IsTerminal(c: char) { c == '.' || c == '!' || c == '?' }

  /** ECMAScript WhiteSpace and LineTerminator: what `\s` matches and `trim` removes. */
  predicate IsWhite(c: char) {
    || c == '\t' || c == '\n' || c == '\U{000B}' || c == '\U{000C}' || c == '\r'
    || c == ' ' || c == '\U{00A0}' || c == '\U{1680}'
    || ('\U{2000}' <= c <= '\U{200A}')
    || c == '\U{2028}' || c == '\U{2029}' || c == '\U{202F}' || c == '\U{205F}'
    || c == '\U{3000}' || c == '\U{FEFF}'
  }

  /** Every character is white space (the empty string included). */
  predicate IsBlank(s: string) {
    forall k :: 0 <= k < |s| ==> IsWhite(s[k])
  }

  /** Leading white space removed. */
  function TrimStart(s: string): (r: string)
    ensures |r| <= |s| && r == s[|s| - |r|..]
    ensures IsBlank(s[..|s| - |r|])
    ensures r == [] || !IsWhite(r[0])
  {
    if s != [] && IsWhite(s[0]) then
      var t := s[1..];
      var r := TrimStart(t);
      assert s[|s| - |r|..] == t[|t| - |r|..];
      assert forall k :: 0 <= k < |t| - |r| ==> s[k + 1] == t[k];
      r
    else s
  }

  /** Trailing white space removed. */
  function TrimEnd(s: string): (r: string)
    ensures |r| <= |s| && r == s[..|r|]
    ensures IsBlank(s[|r|..])
    ensures r == [] || !IsWhite(r[|r| - 1])
  {
    if s != [] && IsWhite(s[|s| - 1]) then TrimEnd(s[..|s| - 1]) else s
  }

  /** Concatenation is associative. */
  lemma AppendAssoc<T>(x: seq<T>, y: seq<T>, z: seq<T>)
    ensures (x + y) + z == x + (y + z)
  {
  }

  /** A character in front, then the rest: the same as the rest with that character put in front. */
  lemma ConsAppend<T>(x: T, t: seq<T>, b: seq<T>)
    ensures ([x] + t) + b == [x] + (t + b)
  {
  }

  /** Trimming the start looks at one character at a time. */
  lemma TrimStartCons(c: char, t: string)
    ensures TrimStart([c] + t) == if IsWhite(c) then TrimStart(t) else [c] + t
  {
    assert ([c] + t)[1..] == t;
  }

  /** Blank exactly when the first character is white space and the rest is blank. */
  lemma BlankCons(c: char, t: string)
    ensures IsBlank([c] + t) <==> IsWhite(c) && IsBlank(t)
  {
    var s := [c] + t;
    assert s[0] == c;
    assert forall k :: 0 <= k < |t| ==> s[k + 1] == t[k];
  }

  /** Nothing is left after trimming exactly when the text is blank. */
  lemma TrimStartEmpty(s: string)
    ensures TrimStart(s) == [] <==> IsBlank(s)
  {
    var r := TrimStart(s);
    if r == [] {
      assert s[..|s| - |r|] == s;
    } else {
      assert s[|s| - |r|] == r[0];
    }
  }

  /** Leading white space is removed across a join: past a blank front, or from the front alone. */
  lemma {:induction false} TrimStartAppend(a: string, b: string)
    ensures TrimStart(a + b) == if IsBlank(a) then TrimStart(b) else TrimStart(a) + b
    decreases |a|
  {
    if a == [] {
      assert a + b == b;
    } else {
      var c, t := a[0], a[1..];
      HeadTail(a);
      ConsAppend(c, t, b);
      TrimStartCons(c, t + b);
      TrimStartCons(c, t);
      BlankCons(c, t);
      if IsWhite(c) {
        TrimStartAppend(t, b);
      }
    }
  }

  lemma TrimBothEnds(s: string)
    ensures var r := TrimEnd(TrimStart(s));
      && (r == [] <==> IsBlank(s))
      && (r != [] ==> !IsWhite(r[0]) && !IsWhite(r[|r| - 1]))
      && |r| <= |s|
  {
    var t := TrimStart(s);
    var r := TrimEnd(t);
    if r == [] {
      assert t[|r|..] == t;
      assert s[..|s| - |t|] == s;
    }
  }

  /** `String.prototype.trim`: empty exactly for blank input, never starts or ends with white space. */
  function Trim(s: string): (r: string)
    ensures r == [] <==> IsBlank(s)
    ensures r != [] ==> !IsWhite(r[0]) && !IsWhite(r[|r| - 1])
    ensures |r| <= |s|
  {
    TrimBothEnds(s);
    TrimEnd(TrimStart(s))
  }

  /** A string that neither starts nor ends with white space is its own trim. */
  lemma TrimmedAlready(s: string)
    requires s == [] || (!IsWhite(s[0]) && !IsWhite(s[|s| - 1]))
    ensures Trim(s) == s
  {
  }

  /** ASCII lower-casing of one character. */
  function LowerChar(c: char): char {
    if 'A' <= c <= 'Z' then (c as int + 32) as char else c
  }

  /** `toLowerCase`, on the ASCII letters only. */
  function Lower(s: string): (r: string)
    ensures |r| == |s|
    ensures forall k :: 0 <= k < |s| ==> !('A' <= r[k] <= 'Z')
    ensures forall k :: 0 <= k < |s| && !('A' <= s[k] <= 'Z') ==> r[k] == s[k]
    ensures forall k :: 0 <= k < |s| && 'A' <= s[k] <= 'Z' ==> r[k] as int == s[k] as int + 32
  {
    seq(|s|, k requires 0 <= k < |s| => LowerChar(s[k]))
  }

  /** `s.slice(0, n)`. */
  function Take(s: string, n: nat): (r: string)
    ensures |r| <= n && r <= s
    ensures |s| <= n ==> r == s
    ensures n <= |s| ==> |r| == n
  {
    if n <= |s| then s[..n] else s
  }

  /** The strings placed end to end. */
  function Concat(xs: seq<string>): string {
    if xs == [] then "" else xs[0] + Concat(xs[1..])
  }

  /** Each string preceded by `sep`, placed end to end. */
  function Prefixed(xs: seq<string>, sep: string): string {
    if xs == [] then "" else sep + xs[0] + Prefixed(xs[1..], sep)
  }

  /** `Array.prototype.join(sep)`: the empty list joins to "", otherwise separators go between neighbours. */
  function Join(xs: seq<string>, sep: string): string {
    if xs == [] then "" else xs[0] + Prefixed(xs[1..], sep)
  }

  /** A list of one string joins to that string, whatever the separator. */
  lemma JoinOne(x: string, sep: string)
    ensures Join([x], sep) == x
  {
    assert [x][1..] == [];
  }

  /** A non-empty sequence is its head followed by its tail. */
  lemma HeadTail<T>(xs: seq<T>)
    requires xs != []
    ensures [xs[0]] + xs[1..] == xs
  {
  }

  /** A non-empty sequence is its front followed by its last element. */
  lemma InitLast<T>(xs: seq<T>)
    requires xs != []
    ensures xs[..|xs| - 1] + [xs[|xs| - 1]] == xs
  {
  }

  /** Appending one element, then the rest, is appending the rest with that element in front. */
  lemma PushOne<T>(xs: seq<T>, x: T, rest: seq<T>)
    ensures xs + ([x] + rest) == (xs + [x]) + rest
  {
  }

  lemma {:induction false} ConcatAppend(a: seq<string>, b: seq<string>)
    ensures Concat(a + b) == Concat(a) + Concat(b)
  {
    if a != [] {
      assert (a + b)[1..] == a[1..] + b;
      ConcatAppend(a[1..], b);
    } else {
      assert a + b == b;
    }
  }

  lemma {:induction false} PrefixedAppend(a: seq<string>, b: seq<string>, sep: string)
    ensures Prefixed(a + b, sep) == Prefixed(a, sep) + Prefixed(b, sep)
  {
    if a != [] {
      assert (a + b)[1..] == a[1..] + b;
      PrefixedAppend(a[1..], b, sep);
    } else {
      assert a + b == b;
    }
  }

  /** The characters of s that are not white space, in order. */
  function Visible(s: string): string {
    if s == "" then "" else (if IsWhite(s[0]) then "" else [s[0]]) + Visible(s[1..])
  }

  lemma {:induction false} VisibleAppend(a: string, b: string)
    ensures Visible(a + b) == Visible(a) + Visible(b)
  {
    if a != "" {
      assert (a + b)[1..] == a[1..] + b;
      VisibleAppend(a[1..], b);
    } else {
      assert a + b == b;
    }
  }

  lemma {:induction false} VisibleBlank(s: string)
    requires IsBlank(s)
    ensures Visible(s) == ""
  {
    if s != "" { VisibleBlank(s[1..]); }
  }

  lemma {:induction false} VisibleReadable(s: string)
    requires !IsBlank(s)
    ensures Visible(s) != ""
  {
    if IsWhite(s[0]) {
      assert !IsBlank(s[1..]) by {
        var k :| 0 <= k < |s| && !IsWhite(s[k]);
        assert s[1..][k - 1] == s[k];
      }
      VisibleReadable(s[1..]);
    }
  }

  /** Blank exactly when nothing visible is left. */
  lemma BlankIffInvisible(s: string)
    ensures IsBlank(s) <==> Visible(s) == ""
  {
    if IsBlank(s) { VisibleBlank(s); } else { VisibleReadable(s); }
  }
}
