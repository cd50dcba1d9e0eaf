/**
 * The JavaScript string primitives the inbox relies on: `trim`, `toLowerCase`,
 * `includes`, and `join`/`split` on a separator.
 */
module Text {

  /** The characters `String.prototype.trim` removes: ECMAScript WhiteSpace and LineTerminator. */
  predicate IsWhitespace(c: char) {
    || c == '\t' || c == '\n' || c == '\U{000B}' || c == '\U{000C}' || c == '\r' || c == ' '
    || c == '\U{00A0}' || c == '\U{1680}' || ('\U{2000}' <= c <= '\U{200A}')
    || c == '\U{2028}' || c == '\U{2029}' || c == '\U{202F}' || c == '\U{205F}'
    || c == '\U{3000}' || c == '\U{FEFF}'
  }

  /** Every character of `s` is whitespace (so the empty string is blank). */
  ghost predicate IsBlank(s: string) {
    forall i :: 0 <= i < |s| ==> IsWhitespace(s[i])
  }

  /** The characters of `s` from index `lo` up to (not including) `hi` are whitespace. */
  ghost predicate BlankBetween(s: string, lo: int, hi: int) {
    forall i :: lo <= i < hi && 0 <= i < |s| ==> IsWhitespace(s[i])
  }

  /** `needle` occurs in `hay` starting at index `i`. */
  predicate OccursAt(hay: string, needle: string, i: nat) {
    i + |needle| <= |hay| && hay[i..i + |needle|] == needle
  }

  /** `s` with its leading whitespace removed: a suffix of `s`. */
  function TrimStart(s: string): (r: string)
    ensures |r| <= |s| && r == s[|s| - |r|..]
    ensures r == [] || !IsWhitespace(r[0])
    ensures BlankBetween(s, 0, |s| - |r|)
    ensures r == [] <==> IsBlank(s)
  {
    if s != [] && IsWhitespace(s[0]) then
      var t := s[1..];
      var r := TrimStart(t);
      assert forall i :: 0 < i < |s| ==> s[i] == t[i - 1];
      r
    else
      s
  }

  /** `s` with its trailing whitespace removed: a prefix of `s`. */
  function TrimEnd(s: string): (r: string)
    ensures |r| <= |s| && r == s[..|r|]
    ensures r == [] || !IsWhitespace(r[|r| - 1])
    ensures BlankBetween(s, |r|, |s|)
    ensures r == [] <==> IsBlank(s)
  {
    if s != [] && IsWhitespace(s[|s| - 1]) then
      var t := s[..|s| - 1];
      var r := TrimEnd(t);
      assert forall i :: 0 <= i < |t| ==> s[i] == t[i];
      r
    else
      s
  }

  /**
   * `String.prototype.trim`: the piece of `s` left after removing its leading
   * and its trailing whitespace, and nothing else.
   */
  function Trim(s: string): (r: string)
    ensures r == [] <==> IsBlank(s)
    ensures r == [] || (!IsWhitespace(r[0]) && !IsWhitespace(r[|r| - 1]))
    ensures exists a: nat :: OccursAt(s, r, a) && BlankBetween(s, 0, a) && BlankBetween(s, a + |r|, |s|)
  {
    var m := TrimStart(s);
    var r := TrimEnd(m);
    TrimComposes(s, m, r);
    r
  }

  /** Trimming the end of a start-trimmed string trims both ends. */
  lemma TrimComposes(s: string, m: string, r: string)
    requires |m| <= |s| && m == s[|s| - |m|..] && (m == [] || !IsWhitespace(m[0]))
    requires BlankBetween(s, 0, |s| - |m|) && (m == [] <==> IsBlank(s))
    requires |r| <= |m| && r == m[..|r|] && (r == [] || !IsWhitespace(r[|r| - 1]))
    requires BlankBetween(m, |r|, |m|) && (r == [] <==> IsBlank(m))
    ensures r == [] <==> IsBlank(s)
    ensures r == [] || (!IsWhitespace(r[0]) && !IsWhitespace(r[|r| - 1]))
    ensures exists a: nat :: OccursAt(s, r, a) && BlankBetween(s, 0, a) && BlankBetween(s, a + |r|, |s|)
  {
    var a := |s| - |m|;
    assert m != [] ==> !IsBlank(m) by {
      if m != [] {
        assert !IsWhitespace(m[0]);
      }
    }
    assert r != [] ==> r[0] == m[0];
    assert OccursAt(s, r, a) by {
      assert r == s[a..a + |r|];
    }
    assert BlankBetween(s, a + |r|, |s|) by {
      forall i | a + |r| <= i < |s| ensures IsWhitespace(s[i]) {
        assert s[i] == m[i - a];
      }
    }
  }

  /** `toLowerCase` on one character, for the ASCII letters. */
  function LowerChar(c: char): (r: char)
    ensures 'A' <= c <= 'Z' ==> 'a' <= r <= 'z'
    ensures !('A' <= c <= 'Z') ==> r == c
    ensures 'A' <= c <= 'Z' ==> r as int == c as int + 32
  {
    if 'A' <= c <= 'Z' then (c as int + 32) as char else c
  }

  /** `String.prototype.toLowerCase`, restricted to ASCII letters. */
  function ToLower(s: string): (r: string)
    ensures |r| == |s|
    ensures forall i :: 0 <= i < |s| ==> r[i] == LowerChar(s[i])
  {
    seq(|s|, i requires 0 <= i < |s| => LowerChar(s[i]))
  }

  /** Lower-casing a lower-cased string changes nothing. */
  lemma ToLowerIdempotent(s: string)
    ensures ToLower(ToLower(s)) == ToLower(s)
  {
  }

  /** `hay.includes(needle)`: true for the empty needle. */
  predicate Contains(hay: string, needle: string): (b: bool)
    ensures needle == [] ==> b
    ensures b ==> |needle| <= |hay|
    decreases |hay|
  {
    needle <= hay || (hay != [] && Contains(hay[1..], needle))
  }

  /** `Contains` holds exactly when the needle occurs at some index. */
  lemma {:induction false} ContainsIffOccurs(hay: string, needle: string)
    ensures Contains(hay, needle) <==> exists i: nat :: OccursAt(hay, needle, i)
    decreases |hay|
  {
    if needle <= hay {
      assert OccursAt(hay, needle, 0);
    } else if hay == [] {
      forall i: nat ensures !OccursAt(hay, needle, i) {
      }
    } else {
      var tail := hay[1..];
      ContainsIffOccurs(tail, needle);
      forall i: nat | OccursAt(tail, needle, i) ensures OccursAt(hay, needle, i + 1) {
        SliceOfTail(hay, i, |needle|);
      }
      assert OccursAt(hay, needle, 0) ==> needle <= hay;
      forall i: nat | OccursAt(hay, needle, i) ensures OccursAt(tail, needle, i - 1) {
        assert i > 0;
        SliceOfTail(hay, i - 1, |needle|);
      }
    }
  }

  /** A needle whose first character never appears in `hay` is not contained in it. */
  lemma MissingFirstCharNotContained(hay: string, needle: string)
    requires needle != []
    requires forall k :: 0 <= k < |hay| ==> hay[k] != needle[0]
    ensures !Contains(hay, needle)
  {
    ContainsIffOccurs(hay, needle);
    forall i: nat ensures !OccursAt(hay, needle, i) {
      if i + |needle| <= |hay| {
        assert hay[i..i + |needle|][0] == hay[i];
      }
    }
  }

  /** A slice of the tail of `s` is the slice of `s` one index further on. */
  lemma SliceOfTail(s: string, i: nat, n: nat)
    requires s != [] && i + n < |s|
    ensures s[1..][i..i + n] == s[i + 1..i + 1 + n]
  {
    var t := s[1..];
    assert forall k :: 0 <= k < |t| ==> t[k] == s[k + 1];
  }

  /** The case-insensitive `includes` of the source: both sides lower-cased first. */
  predicate ContainsIgnoringCase(hay: string, needle: string) {
    Contains(ToLower(hay), ToLower(needle))
  }

  /** A raw match is also a case-insensitive match. */
  lemma ContainsImpliesContainsIgnoringCase(hay: string, needle: string)
    requires Contains(hay, needle)
    ensures ContainsIgnoringCase(hay, needle)
  {
    ContainsIffOccurs(hay, needle);
    var i: nat :| OccursAt(hay, needle, i);
    assert ToLower(hay)[i..i + |needle|] == ToLower(needle);
    assert OccursAt(ToLower(hay), ToLower(needle), i);
    ContainsIffOccurs(ToLower(hay), ToLower(needle));
  }

  /** `xs.join(sep)`. */
  function Join(xs: seq<string>, sep: string): string {
    if xs == [] then "" else if |xs| == 1 then xs[0] else xs[0] + sep + Join(xs[1..], sep)
  }

  /** Joining three parts puts the separator between the first and second and the second and third. */
  lemma JoinThree(a: string, b: string, c: string, sep: string)
    ensures Join([a, b, c], sep) == a + sep + b + sep + c
  {
    assert [b, c][1..] == [c];
    assert Join([b, c], sep) == b + sep + c;
    assert [a, b, c][1..] == [b, c];
  }

  /** The first index of `c` in `s`, or `|s|` when `c` does not occur. */
  function IndexOf(s: string, c: char): (i: nat)
    ensures i <= |s|
    ensures i < |s| ==> s[i] == c
    ensures forall j :: 0 <= j < i ==> s[j] != c
  {
    if s == [] then 0 else if s[0] == c then 0 else 1 + IndexOf(s[1..], c)
  }

  /** `s.split(c)` on a one-character separator. */
  function Split(s: string, c: char): (r: seq<string>)
    ensures |r| >= 1
    decreases |s|
  {
    var i := IndexOf(s, c);
    if i == |s| then [s] else [s[..i]] + Split(s[i + 1..], c)
  }

  /** Splitting a join on a separator that no part contains gives the parts back. */
  lemma {:induction false} SplitJoin(xs: seq<string>, c: char)
    requires xs != []
    requires forall k :: 0 <= k < |xs| ==> c !in xs[k]
    ensures Split(Join(xs, [c]), c) == xs
  {
    var s := Join(xs, [c]);
    if |xs| == 1 {
      assert IndexOf(s, c) == |s|;
    } else {
      var rest := Join(xs[1..], [c]);
      assert s == xs[0] + [c] + rest;
      assert IndexOf(s, c) == |xs[0]| by {
        assert s[|xs[0]|] == c;
        forall j | 0 <= j < |xs[0]| ensures s[j] != c { assert s[j] == xs[0][j]; }
        assert IndexOf(s, c) <= |xs[0]|;
      }
      assert s[..|xs[0]|] == xs[0];
      assert s[|xs[0]| + 1..] == rest;
      SplitJoin(xs[1..], c);
    }
  }
}
