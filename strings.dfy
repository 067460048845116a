/** The string primitives the validators use: JavaScript's whitespace class (what
    `String.prototype.trim` strips and what the regular-expression class `\s`
    matches), `trim`, and ASCII lower-casing. */
module Strings {

  /** ECMAScript WhiteSpace and LineTerminator code points. */
  predicate IsWhitespace(c: char)
  {
    var n := c as int;
    n == 0x09 || n == 0x0A || n == 0x0B || n == 0x0C || n == 0x0D || n == 0x20
    || n == 0xA0 || n == 0x1680 || (0x2000 <= n <= 0x200A) || n == 0x2028
    || n == 0x2029 || n == 0x202F || n == 0x205F || n == 0x3000 || n == 0xFEFF
  }

  predicate AllWhitespace(s: string)
  {
    forall k :: 0 <= k < |s| ==> IsWhitespace(s[k])
  }

  predicate NoWhitespace(s: string)
  {
    forall k :: 0 <= k < |s| ==> !IsWhitespace(s[k])
  }

  /** Neither starts nor ends with whitespace. */
  predicate Trimmed(s: string)
  {
    s == [] || (!IsWhitespace(s[0]) && !IsWhitespace(s[|s| - 1]))
  }

  /** Number of whitespace characters at the start of `s`. */
  function LeadingWhitespace(s: string): (n: nat)
    ensures n <= |s|
    ensures AllWhitespace(s[..n])
    ensures n < |s| ==> !IsWhitespace(s[n])
  {
    if s != [] && IsWhitespace(s[0]) then
      var m := LeadingWhitespace(s[1..]);
      assert s[..m + 1] == [s[0]] + s[1..][..m];
      1 + m
    else 0
  }

  /** Number of whitespace characters at the end of `s`. */
  function TrailingWhitespace(s: string): (n: nat)
    ensures n <= |s|
    ensures AllWhitespace(s[|s| - n..])
    ensures n < |s| ==> !IsWhitespace(s[|s| - 1 - n])
  {
    if s != [] && IsWhitespace(s[|s| - 1]) then
      var t := s[..|s| - 1];
      var m := TrailingWhitespace(t);
      assert s[|s| - (m + 1)..] == t[|t| - m..] + [s[|s| - 1]];
      1 + m
    else 0
  }

  function TrimStart(s: string): (r: string)
    ensures r == s[LeadingWhitespace(s)..]
  {
    s[LeadingWhitespace(s)..]
  }

  function TrimEnd(s: string): (r: string)
    ensures r == s[..|s| - TrailingWhitespace(s)]
  {
    s[..|s| - TrailingWhitespace(s)]
  }

  /** `String.prototype.trim`. */
  function Trim(s: string): (r: string)
    ensures Trimmed(r)
    ensures |r| <= |s|
    ensures r == [] <==> AllWhitespace(s)
    ensures NoWhitespace(s) ==> r == s
  {
    var t := TrimStart(s);
    var n := LeadingWhitespace(s);
    if t == [] then
      assert s[..n] == s;
      []
    else
      assert !IsWhitespace(t[0]);
      var r := TrimEnd(t);
      assert r != [] && r[0] == t[0];
      assert !AllWhitespace(s) by { assert !IsWhitespace(s[n]); }
      r
  }

  /** `trim` removes only surrounding whitespace: the result is a slice of the input
      with nothing but whitespace cut off on either side. */
  lemma TrimIsSlice(s: string)
    ensures exists i, j :: 0 <= i <= j <= |s| && Trim(s) == s[i..j]
                           && AllWhitespace(s[..i]) && AllWhitespace(s[j..])
  {
    var i := LeadingWhitespace(s);
    var t := s[i..];
    var m := TrailingWhitespace(t);
    var j := |s| - m;
    assert Trim(s) == t[..|t| - m] == s[i..j];
    assert s[j..] == t[|t| - m..];
    assert AllWhitespace(s[..i]) && AllWhitespace(s[j..]);
  }

  /** Trimming a string that is already trimmed changes nothing; in particular
      `trim` is idempotent. */
  lemma {:induction false} TrimmedIsFixedPoint(s: string)
    requires Trimmed(s)
    ensures Trim(s) == s
  {
    if s != [] {
      assert LeadingWhitespace(s) == 0;
      assert TrailingWhitespace(s) == 0;
    }
  }

  lemma TrimIdempotent(s: string)
    ensures Trim(Trim(s)) == Trim(s)
  {
    TrimmedIsFixedPoint(Trim(s));
  }

  lemma {:induction false} LeadingOfPadded(pre: string, x: string)
    requires AllWhitespace(pre) && x != [] && !IsWhitespace(x[0])
    ensures LeadingWhitespace(pre + x) == |pre|
  {
    if pre == [] {
      assert pre + x == x;
    } else {
      assert (pre + x)[0] == pre[0];
      assert (pre + x)[1..] == pre[1..] + x;
      LeadingOfPadded(pre[1..], x);
    }
  }

  lemma {:induction false} TrailingOfPadded(x: string, post: string)
    requires AllWhitespace(post) && x != [] && !IsWhitespace(x[|x| - 1])
    ensures TrailingWhitespace(x + post) == |post|
  {
    if post == [] {
      assert x + post == x;
    } else {
      var t := x + post;
      assert t[|t| - 1] == post[|post| - 1];
      assert t[..|t| - 1] == x + post[..|post| - 1];
      TrailingOfPadded(x, post[..|post| - 1]);
    }
  }

  /** Trimming a trimmed, non-empty string padded with whitespace on either side
      gives that string back. */
  lemma TrimPadded(pre: string, x: string, post: string)
    requires AllWhitespace(pre) && AllWhitespace(post) && x != [] && Trimmed(x)
    ensures Trim(pre + x + post) == x
  {
    var t := pre + x + post;
    assert t == pre + (x + post);
    LeadingOfPadded(pre, x + post);
    assert TrimStart(t) == x + post;
    TrailingOfPadded(x, post);
    assert (x + post)[..|x|] == x;
  }

  function LowerChar(c: char): (d: char)
  {
    if 'A' <= c <= 'Z' then (c as int + 32) as char else c
  }

  /** `toLowerCase`, restricted to ASCII letters. */
  function ToLowerAscii(s: string): (r: string)
    ensures |r| == |s|
    ensures forall k :: 0 <= k < |s| ==> r[k] == LowerChar(s[k])
  {
    seq(|s|, k requires 0 <= k < |s| => LowerChar(s[k]))
  }

  /** Lower-casing changes letters only: whitespace, `@` and `.` stay where they
      are, and a second lower-casing changes nothing. */
  lemma LowerAsciiPreserves(s: string)
    ensures forall k :: 0 <= k < |s| ==> (IsWhitespace(ToLowerAscii(s)[k]) <==> IsWhitespace(s[k]))
    ensures forall k :: 0 <= k < |s| ==> (ToLowerAscii(s)[k] == '@' <==> s[k] == '@')
    ensures forall k :: 0 <= k < |s| ==> (ToLowerAscii(s)[k] == '.' <==> s[k] == '.')
    ensures ToLowerAscii(ToLowerAscii(s)) == ToLowerAscii(s)
  {
  }
}
