/** The JavaScript built-ins the client code relies on, on strings and
    arrays. Case folding is ASCII only. */
module Js {
  import opened Wrappers

  /** The characters `\s` matches and `trim()` removes: the ASCII blanks,
      the Unicode space separators, the line and paragraph separators and
      the byte-order mark. */
  predicate IsSpace(c: char) {
    var n := c as int;
    n == 0x20 || (0x09 <= n <= 0x0D) || n == 0xA0 || n == 0x1680 || (0x2000 <= n <= 0x200A) ||
    n == 0x2028 || n == 0x2029 || n == 0x202F || n == 0x205F || n == 0x3000 || n == 0xFEFF
  }

  /** `!s.trim()`: nothing but blanks. */
  predicate Blank(s: string) {
    forall i | 0 <= i < |s| :: IsSpace(s[i])
  }

  /** A string field is truthy iff it is present and non-empty. */
  predicate Truthy(s: Option<string>) {
    s.Some? && s.value != ""
  }

  predicate StartsWith(s: string, prefix: string) {
    |prefix| <= |s| && s[..|prefix|] == prefix
  }

  /** `t` occurs in `s` starting at position `i`. */
  predicate OccursAt(s: string, t: string, i: int) {
    0 <= i && i + |t| <= |s| && s[i..i + |t|] == t
  }

  /** `s.includes(t)`. */
  predicate Includes(s: string, t: string) {
    exists i | 0 <= i <= |s| - |t| :: OccursAt(s, t, i)
  }

  function LowerChar(c: char): char {
    if 'A' <= c <= 'Z' then (c as int + 32) as char else c
  }

  /** `s.toLowerCase()`. */
  function Lower(s: string): (r: string)
    ensures |r| == |s|
    ensures forall i | 0 <= i < |s| :: r[i] == LowerChar(s[i])
  {
    seq(|s|, i requires 0 <= i < |s| => LowerChar(s[i]))
  }

  /** `s.length`: JavaScript counts UTF-16 code units, so a character
      outside the Basic Multilingual Plane counts as two. */
  function Length(s: string): (n: nat)
    ensures |s| <= n <= 2 * |s|
    ensures n == 0 <==> s == []
  {
    if |s| == 0 then 0
    else (if s[0] as int > 0xFFFF then 2 else 1) + Length(s[1..])
  }

  /** The length of a concatenation is the sum of the lengths. */
  lemma {:induction false} LengthAppend(s: string, t: string)
    ensures Length(s + t) == Length(s) + Length(t)
    decreases |s|
  {
    if |s| == 0 {
      assert s + t == t;
    } else {
      assert (s + t)[0] == s[0] && (s + t)[1..] == s[1..] + t;
      LengthAppend(s[1..], t);
    }
  }

  /** Within the Basic Multilingual Plane the length is the number of
      characters. */
  lemma {:induction false} LengthOfBmp(s: string)
    requires forall i | 0 <= i < |s| :: s[i] as int <= 0xFFFF
    ensures Length(s) == |s|
    decreases |s|
  {
    if |s| > 0 {
      assert forall i | 0 <= i < |s[1..]| :: s[1..][i] == s[i + 1];
      LengthOfBmp(s[1..]);
    }
  }

  /** Three emoji make a string of length six. */
  lemma AstralCountsTwice()
    ensures Length("\U{1F600}\U{1F600}\U{1F600}") == 6
  {
    var e := "\U{1F600}";
    assert "\U{1F600}\U{1F600}\U{1F600}" == e + e + e;
    LengthAppend(e + e, e);
    LengthAppend(e, e);
  }

  /** `xs.filter(keep)`: the elements that pass, in their order. */
  function Filter<T(!new)>(xs: seq<T>, keep: T -> bool): (r: seq<T>)
    ensures |r| <= |xs|
    ensures forall x :: x in r <==> x in xs && keep(x)
    ensures (forall i | 0 <= i < |xs| :: keep(xs[i])) ==> r == xs
  {
    if |xs| == 0 then []
    else if keep(xs[0]) then [xs[0]] + Filter(xs[1..], keep)
    else Filter(xs[1..], keep)
  }

  /** `xs.find(matches)`: the first element that matches. */
  function Find<T>(xs: seq<T>, matches: T -> bool): (r: Option<T>)
    ensures r.Some? ==> r.value in xs && matches(r.value)
    ensures r.None? <==> forall i | 0 <= i < |xs| :: !matches(xs[i])
  {
    if |xs| == 0 then None
    else if matches(xs[0]) then Some(xs[0])
    else Find(xs[1..], matches)
  }

  /** `xs.map(f)`. */
  function Map<T, U>(xs: seq<T>, f: T -> U): (r: seq<U>)
    ensures |r| == |xs|
    ensures forall i | 0 <= i < |xs| :: r[i] == f(xs[i])
  {
    seq(|xs|, i requires 0 <= i < |xs| => f(xs[i]))
  }

  /** Filtering twice with the same test is filtering once. */
  lemma {:induction false} FilterIdempotent<T(!new)>(xs: seq<T>, keep: T -> bool)
    ensures Filter(Filter(xs, keep), keep) == Filter(xs, keep)
  {
    if |xs| > 0 {
      FilterIdempotent(xs[1..], keep);
      if keep(xs[0]) {
        assert ([xs[0]] + Filter(xs[1..], keep))[1..] == Filter(xs[1..], keep);
      }
    }
  }
}
