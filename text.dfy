/**
 * The string operations the routing flow relies on: `str.lower()`, the `in`
 * operator on strings, `str.join` and `str.strip()`.
 */
module Text {

  /** `c.lower()` on the ASCII range: 'A'..'Z' become 'a'..'z', every other character is kept. */
  function LowerChar(c: char): (d: char)
    ensures 'A' <= c <= 'Z' ==> d as int == c as int + 32
    ensures !('A' <= c <= 'Z') ==> d == c
    ensures !('A' <= d <= 'Z')
  {
    if 'A' <= c <= 'Z' then (c as int + 32) as char else c
  }

  /** `s.lower()`, character by character. */
  function Lower(s: string): (r: string)
    ensures |r| == |s|
    ensures forall i :: 0 <= i < |s| ==> r[i] == LowerChar(s[i])
  {
    seq(|s|, i requires 0 <= i < |s| => LowerChar(s[i]))
  }

  /** Lowering twice is lowering once. */
  lemma LowerIdempotent(s: string)
    ensures Lower(Lower(s)) == Lower(s)
  {
  }

  /** Lowercasing works character by character, so it distributes over concatenation. */
  lemma LowerAppend(a: string, b: string)
    ensures Lower(a + b) == Lower(a) + Lower(b)
  {
    assert forall i :: 0 <= i < |a + b| ==> Lower(a + b)[i] == (Lower(a) + Lower(b))[i];
  }

  /** `sub in s`: `sub` occurs in `s` as a contiguous piece. */
  predicate Contains(s: string, sub: string)
    ensures Contains(s, sub) ==> |sub| <= |s|
  {
    exists i :: 0 <= i <= |s| - |sub| && sub <= s[i..]
  }

  /** An occurrence at a known position is an occurrence. */
  lemma ContainsAt(s: string, sub: string, i: nat)
    requires i + |sub| <= |s| && s[i..i + |sub|] == sub
    ensures Contains(s, sub)
  {
    assert sub <= s[i..];
  }

  /**
   * A needle cannot occur when one of its characters, at offset `j`, is
   * missing from everything the haystack holds from position `from <= j` on.
   */
  lemma MissingCharExcludes(s: string, sub: string, j: nat, from: nat, alphabet: set<char>)
    requires from <= j < |sub| && sub[j] !in alphabet
    requires forall i :: from <= i < |s| ==> s[i] in alphabet
    ensures !Contains(s, sub)
  {
  }

  /** A piece of an occurring needle occurs too. */
  lemma {:induction false} ContainsInfix(s: string, sub: string, a: nat, b: nat)
    requires a <= b <= |sub| && Contains(s, sub)
    ensures Contains(s, sub[a..b])
  {
    var i :| 0 <= i <= |s| - |sub| && sub <= s[i..];
    assert s[i + a..][..b - a] == sub[a..b];
    assert sub[a..b] <= s[i + a..];
  }

  /** `sep.join(parts)`. */
  function Join(sep: string, parts: seq<string>): (r: string)
    ensures |parts| == 0 ==> r == ""
    ensures |parts| == 1 ==> r == parts[0]
    ensures |parts| >= 2 ==> parts[0] + sep <= r
    ensures |parts| >= 1 ==> parts[0] <= r
    decreases |parts|
  {
    if |parts| == 0 then ""
    else if |parts| == 1 then parts[0]
    else parts[0] + sep + Join(sep, parts[1..])
  }

  /** Joining one more part puts the separator and that part at the end. */
  lemma {:induction false} JoinAppend(sep: string, parts: seq<string>, p: string)
    requires |parts| >= 1
    ensures Join(sep, parts + [p]) == Join(sep, parts) + sep + p
    decreases |parts|
  {
    var q := parts + [p];
    if |parts| == 1 {
      assert q[1..] == [p];
      assert Join(sep, q) == q[0] + sep + Join(sep, q[1..]);
    } else {
      assert q[1..] == parts[1..] + [p];
      assert Join(sep, q) == q[0] + sep + Join(sep, q[1..]);
      JoinAppend(sep, parts[1..], p);
      assert Join(sep, parts) == parts[0] + sep + Join(sep, parts[1..]);
    }
  }

  /** A join ends with its last part. */
  lemma JoinEndsWithLast(sep: string, parts: seq<string>)
    requires |parts| >= 1
    ensures var r := Join(sep, parts);
      var last := parts[|parts| - 1];
      |last| <= |r| && r[|r| - |last|..] == last
  {
    var n := |parts|;
    if n > 1 {
      assert parts == parts[..n - 1] + [parts[n - 1]];
      JoinAppend(sep, parts[..n - 1], parts[n - 1]);
    }
  }

  /** The pieces written one after the other, as repeated `+=` builds them. */
  function Concat(parts: seq<string>): string
    decreases |parts|
  {
    if |parts| == 0 then "" else Concat(parts[..|parts| - 1]) + parts[|parts| - 1]
  }

  /** Concatenating two lists of pieces concatenates their texts. */
  lemma {:induction false} ConcatAppend(a: seq<string>, b: seq<string>)
    ensures Concat(a + b) == Concat(a) + Concat(b)
    decreases |b|
  {
    if |b| == 0 {
      assert a + b == a;
    } else {
      var b' := b[..|b| - 1];
      assert (a + b)[..|a + b| - 1] == a + b';
      ConcatAppend(a, b');
    }
  }

  /**
   * The whitespace this model strips: a subset of what `str.strip()` removes,
   * which also includes U+001C to U+001F and non-ASCII whitespace.
   */
  predicate IsSpace(c: char)
  {
    c == ' ' || c == '\t' || c == '\n' || c == '\r' || c == '\U{B}' || c == '\U{C}'
  }

  predicate AllSpace(s: string)
  {
    forall i :: 0 <= i < |s| ==> IsSpace(s[i])
  }

  /** `s.lstrip()`: the longest suffix of `s` that does not start with whitespace. */
  function TrimStart(s: string): (r: string)
    ensures |r| <= |s| && r == s[|s| - |r|..]
    ensures AllSpace(s[..|s| - |r|])
    ensures r == [] || !IsSpace(r[0])
    decreases |s|
  {
    if |s| > 0 && IsSpace(s[0]) then TrimStart(s[1..]) else s
  }

  /** `s.rstrip()`: the longest prefix of `s` that does not end with whitespace. */
  function TrimEnd(s: string): (r: string)
    ensures |r| <= |s| && r == s[..|r|]
    ensures AllSpace(s[|r|..])
    ensures r == [] || !IsSpace(r[|r| - 1])
    decreases |s|
  {
    if |s| > 0 && IsSpace(s[|s| - 1]) then TrimEnd(s[..|s| - 1]) else s
  }

  /** `s.strip()`: whitespace removed at both ends and nowhere else. */
  function Strip(s: string): (r: string)
    ensures |r| <= |s|
    ensures r == [] || (!IsSpace(r[0]) && !IsSpace(r[|r| - 1]))
  {
    var t := TrimStart(s);
    var r := TrimEnd(t);
    assert r != [] ==> r[0] == t[0];
    r
  }

  /** The stripped text is one contiguous piece of the input with only whitespace cut on either side. */
  lemma StripInfix(s: string)
    ensures exists a, b :: 0 <= a <= b <= |s| && Strip(s) == s[a..b] && AllSpace(s[..a]) && AllSpace(s[b..])
  {
    var t := TrimStart(s);
    var r := TrimEnd(t);
    var a := |s| - |t|;
    var b := a + |r|;
    assert t == s[a..];
    assert r == t[..|r|];
    assert t[|r|..] == s[b..];
    assert r == s[a..b];
  }

  /** The stripped text is empty exactly when the whole input is whitespace. */
  lemma StripEmptyIff(s: string)
    ensures Strip(s) == [] <==> AllSpace(s)
  {
  }

  /** Stripping an already stripped string changes nothing. */
  lemma StripIdempotent(s: string)
    ensures Strip(Strip(s)) == Strip(s)
  {
  }
}
