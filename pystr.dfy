/**
 * The Python string and path operations the modelled code relies on:
 * `p in s`, `s.replace(p, "")`, `s.strip()`, `s.split()`, `s.rsplit(p, 1)[0]`,
 * `sep.join(parts)` and POSIX `os.path.join`.
 */
module PyStr {
  import opened Wrappers

  /** Python's `str.isspace()` for one character (the Unicode White_Space set Python uses). */
  predicate IsSpace(c: char) {
    var n := c as int;
    (9 <= n <= 13) || (0x1c <= n <= 0x20) || n == 0x85 || n == 0xa0 || n == 0x1680
    || (0x2000 <= n <= 0x200a) || n == 0x2028 || n == 0x2029 || n == 0x202f
    || n == 0x205f || n == 0x3000
  }

  predicate NoSpace(s: string) {
    forall i | 0 <= i < |s| :: !IsSpace(s[i])
  }

  predicate AllSpace(s: string) {
    forall i | 0 <= i < |s| :: IsSpace(s[i])
  }

  // ---------------------------------------------------------------- substrings

  /** `p` occurs in `s` starting at index `k`. */
  predicate OccursAt(s: string, p: string, k: int) {
    0 <= k && k + |p| <= |s| && s[k..k + |p|] == p
  }

  /** Python's `p in s`. */
  predicate Contains(s: string, p: string) {
    exists k | 0 <= k <= |s| - |p| :: OccursAt(s, p, k)
  }

  lemma OccursAtShift(s: string, p: string, k: int)
    requires |s| > 0 && OccursAt(s[1..], p, k)
    ensures OccursAt(s, p, k + 1)
  {
    assert s[1..][k..k + |p|] == s[k + 1..k + 1 + |p|];
  }

  /**
   * Python's `s.replace(p, "")`: the occurrences of `p` that a left-to-right
   * scan finds without overlap are deleted; an empty `p` changes nothing.
   */
  function RemoveAll(s: string, p: string): (r: string)
    ensures |r| <= |s|
    decreases |s|
  {
    if p == "" || |s| < |p| then s
    else if s[..|p|] == p then RemoveAll(s[|p|..], p)
    else [s[0]] + RemoveAll(s[1..], p)
  }

  /** Where `p` does not occur, `replace(p, "")` is the identity. */
  lemma {:induction false} RemoveAllAbsent(s: string, p: string)
    requires !Contains(s, p)
    ensures RemoveAll(s, p) == s
    decreases |s|
  {
    if p == "" {
      assert OccursAt(s, p, 0);
    } else if |s| < |p| {
    } else if s[..|p|] == p {
      assert OccursAt(s, p, 0);
    } else {
      if Contains(s[1..], p) {
        var k :| 0 <= k <= |s[1..]| - |p| && OccursAt(s[1..], p, k);
        OccursAtShift(s, p, k);
        assert false;
      }
      RemoveAllAbsent(s[1..], p);
      assert [s[0]] + s[1..] == s;
    }
  }

  /** A leading occurrence of a non-empty `p` is deleted, and the scan goes on after it. */
  lemma RemoveAllLeading(p: string, s: string)
    requires p != ""
    ensures RemoveAll(p + s, p) == RemoveAll(s, p)
  {
    assert (p + s)[..|p|] == p;
    assert (p + s)[|p|..] == s;
  }

  /** Number of occurrences of `c` in `s`. */
  function CountChar(s: string, c: char): nat {
    if s == [] then 0 else (if s[0] == c then 1 else 0) + CountChar(s[1..], c)
  }

  /**
   * Deleting a single character: every `c` goes, every other character stays
   * in order, so the result is `c`-free and shorter by the count of `c`.
   */
  lemma {:induction false} RemoveCharFacts(s: string, c: char)
    ensures c !in RemoveAll(s, [c])
    ensures |RemoveAll(s, [c])| == |s| - CountChar(s, c)
    decreases |s|
  {
    if s != [] {
      RemoveCharFacts(s[1..], c);
      if s[0] == c {
        assert s[..1] == [c];
      } else {
        assert s[..1] != [c];
      }
    }
  }

  /** Deleting a single character distributes over concatenation, so order is kept. */
  lemma {:induction false} RemoveCharAppend(s: string, t: string, c: char)
    ensures RemoveAll(s + t, [c]) == RemoveAll(s, [c]) + RemoveAll(t, [c])
    decreases |s|
  {
    if s == [] {
      assert s + t == t;
    } else {
      assert (s + t)[1..] == s[1..] + t;
      assert (s + t)[..1] == s[..1];
      RemoveCharAppend(s[1..], t, c);
    }
  }

  /** Deleting a character twice is deleting it once. */
  lemma RemoveCharIdempotent(s: string, c: char)
    ensures RemoveAll(RemoveAll(s, [c]), [c]) == RemoveAll(s, [c])
  {
    var r := RemoveAll(s, [c]);
    RemoveCharFacts(s, c);
    RemoveAllAbsent(r, [c]);
  }

  // ---------------------------------------------------------------- strip

  /** Length of the leading whitespace run of `s`. */
  function LeadingSpaces(s: string): (k: nat)
    ensures k <= |s|
    ensures forall i | 0 <= i < k :: IsSpace(s[i])
    ensures k < |s| ==> !IsSpace(s[k])
  {
    if s == [] || !IsSpace(s[0]) then 0 else 1 + LeadingSpaces(s[1..])
  }

  /** Length of the trailing whitespace run of `s`. */
  function TrailingSpaces(s: string): (k: nat)
    ensures k <= |s|
    ensures forall i | |s| - k <= i < |s| :: IsSpace(s[i])
    ensures k < |s| ==> !IsSpace(s[|s| - 1 - k])
  {
    if s == [] || !IsSpace(s[|s| - 1]) then 0 else 1 + TrailingSpaces(s[..|s| - 1])
  }

  /** Python's `s.strip()`: leading and trailing whitespace removed. */
  function Strip(s: string): (r: string)
    ensures |r| <= |s|
    ensures r == "" <==> AllSpace(s)
    ensures r != "" ==> !IsSpace(r[0]) && !IsSpace(r[|r| - 1])
  {
    var a := LeadingSpaces(s);
    var t := s[a..];
    var r := t[..|t| - TrailingSpaces(t)];
    assert r != "" ==> r[0] == s[a];
    assert a == |s| ==> AllSpace(s);
    assert a < |s| ==> !IsSpace(t[0]) && TrailingSpaces(t) < |t|;
    r
  }

  /** `strip()` returns the text between two whitespace runs, whatever their lengths. */
  lemma StripPadded(w1: string, t: string, w2: string)
    requires AllSpace(w1) && AllSpace(w2)
    requires t != "" && !IsSpace(t[0]) && !IsSpace(t[|t| - 1])
    ensures Strip(w1 + t + w2) == t
  {
    var s := w1 + t + w2;
    var a := LeadingSpaces(s);
    assert s[|w1|] == t[0];
    assert a == |w1|;
    var u := s[a..];
    assert u == t + w2;
    var b := TrailingSpaces(u);
    assert u[|u| - 1 - |w2|] == t[|t| - 1];
    assert b == |w2|;
    assert u[..|u| - b] == t;
  }

  lemma StripIdempotent(s: string)
    ensures Strip(Strip(s)) == Strip(s)
  {
    var r := Strip(s);
    if r != "" {
      StripPadded("", r, "");
      assert "" + r + "" == r;
    }
  }

  // ---------------------------------------------------------------- split

  /** Length of the leading non-whitespace run of `s`. */
  function TokenLength(s: string): (n: nat)
    ensures n <= |s|
    ensures forall i | 0 <= i < n :: !IsSpace(s[i])
    ensures n < |s| ==> IsSpace(s[n])
  {
    if s == [] || IsSpace(s[0]) then 0 else 1 + TokenLength(s[1..])
  }

  /** Python's `s.split()` with no separator: the maximal whitespace-free runs, in order. */
  function SplitWs(s: string): (r: seq<string>)
    ensures forall t | t in r :: t != "" && NoSpace(t)
    decreases |s|
  {
    var a := LeadingSpaces(s);
    if a == |s| then []
    else
      var t := s[a..];
      var n := TokenLength(t);
      assert n > 0;
      [t[..n]] + SplitWs(t[n..])
  }

  /** All characters of `s` that are not whitespace, in order. */
  function NonSpace(s: string): string {
    if s == [] then [] else (if IsSpace(s[0]) then [] else [s[0]]) + NonSpace(s[1..])
  }

  function Flatten(ts: seq<string>): string {
    if ts == [] then "" else ts[0] + Flatten(ts[1..])
  }

  lemma {:induction false} NonSpaceAppend(s: string, t: string)
    ensures NonSpace(s + t) == NonSpace(s) + NonSpace(t)
    decreases |s|
  {
    if s == [] {
      assert s + t == t;
    } else {
      assert (s + t)[1..] == s[1..] + t;
      NonSpaceAppend(s[1..], t);
    }
  }

  lemma {:induction false} NonSpaceOfSpaces(s: string)
    requires AllSpace(s)
    ensures NonSpace(s) == ""
    decreases |s|
  {
    if s != [] {
      NonSpaceOfSpaces(s[1..]);
    }
  }

  lemma {:induction false} NonSpaceOfToken(s: string)
    requires NoSpace(s)
    ensures NonSpace(s) == s
    decreases |s|
  {
    if s != [] {
      NonSpaceOfToken(s[1..]);
      assert [s[0]] + s[1..] == s;
    }
  }

  /** `split()` loses only whitespace: its tokens, glued together, are the non-whitespace characters of `s`. */
  lemma {:induction false} SplitWsLosesOnlySpace(s: string)
    ensures Flatten(SplitWs(s)) == NonSpace(s)
    decreases |s|
  {
    var a := LeadingSpaces(s);
    assert s == s[..a] + s[a..];
    NonSpaceAppend(s[..a], s[a..]);
    NonSpaceOfSpaces(s[..a]);
    if a < |s| {
      var t := s[a..];
      var n := TokenLength(t);
      assert t == t[..n] + t[n..];
      NonSpaceAppend(t[..n], t[n..]);
      NonSpaceOfToken(t[..n]);
      SplitWsLosesOnlySpace(t[n..]);
      var r := SplitWs(s);
      assert r == [t[..n]] + SplitWs(t[n..]);
      assert r[1..] == SplitWs(t[n..]);
    }
  }

  /** Whitespace alone splits into no tokens. */
  lemma SplitWsOfSpaces(s: string)
    requires AllSpace(s)
    ensures SplitWs(s) == []
  {
    assert LeadingSpaces(s) == |s|;
  }

  /** The leading token of `t + u` is `t` when `t` has no whitespace and `u` starts with some. */
  lemma {:induction false} TokenLengthOf(t: string, u: string)
    requires NoSpace(t)
    requires u == "" || IsSpace(u[0])
    ensures TokenLength(t + u) == |t|
    decreases |t|
  {
    if t == "" {
      assert t + u == u;
    } else {
      assert (t + u)[0] == t[0];
      assert (t + u)[1..] == t[1..] + u;
      TokenLengthOf(t[1..], u);
    }
  }

  /**
   * `split()` cuts only at whitespace: a whitespace run, then a whitespace-free
   * token, then either the end or more whitespace, gives that token whole
   * followed by the split of the rest.
   */
  lemma SplitWsToken(w: string, t: string, u: string)
    requires AllSpace(w) && t != "" && NoSpace(t)
    requires u == "" || IsSpace(u[0])
    ensures SplitWs(w + t + u) == [t] + SplitWs(u)
  {
    var s := w + t + u;
    assert s[|w|] == t[0];
    assert LeadingSpaces(s) == |w|;
    var v := s[|w|..];
    assert v == t + u;
    var n := TokenLength(v);
    TokenLengthOf(t, u);
    assert v[..n] == t && v[n..] == u;
  }

  // ---------------------------------------------------------------- rsplit

  /** Index of the last occurrence of `p` in `s`, if any. */
  function LastIndexOf(s: string, p: string): (r: Option<nat>)
    ensures r.Some? ==> OccursAt(s, p, r.value) && forall k | r.value < k :: !OccursAt(s, p, k)
    ensures r.None? ==> forall k :: !OccursAt(s, p, k)
    decreases |s|
  {
    if |s| < |p| then None
    else if s[|s| - |p|..] == p then Some(|s| - |p|)
    else
      var r := LastIndexOf(s[..|s| - 1], p);
      OccursAtPrefix(s, p);
      r
  }

  /** An occurrence that ends before the last character of `s` is one in `s` without it, and back. */
  lemma OccursAtPrefix(s: string, p: string)
    requires |s| >= |p| && s[|s| - |p|..] != p
    ensures forall k :: OccursAt(s, p, k) <==> OccursAt(s[..|s| - 1], p, k)
  {
    forall k
      ensures OccursAt(s, p, k) <==> OccursAt(s[..|s| - 1], p, k)
    {
      if 0 <= k && k + |p| <= |s| - 1 {
        assert s[..|s| - 1][k..k + |p|] == s[k..k + |p|];
      }
    }
  }

  /** Python's `s.rsplit(p, 1)[0]`: what precedes the last `p`, or all of `s` when there is none. */
  function BeforeLast(s: string, p: string): string {
    match LastIndexOf(s, p)
    case Some(k) => s[..k]
    case None => s
  }

  // ---------------------------------------------------------------- joins

  /** `sep.join(parts)`. */
  function JoinWith(sep: string, parts: seq<string>): string {
    if parts == [] then ""
    else if |parts| == 1 then parts[0]
    else parts[0] + sep + JoinWith(sep, parts[1..])
  }

  /**
   * POSIX `os.path.join(a, b)`: an absolute `b` replaces `a`; otherwise one
   * '/' is inserted unless `a` is empty or already ends with one.
   */
  function PathJoin(a: string, b: string): string {
    if |b| > 0 && b[0] == '/' then b
    else if a == "" || a[|a| - 1] == '/' then a + b
    else a + "/" + b
  }

  /** `os.path.join(*parts)`: the two-argument join folded from the left. */
  function PathJoinAll(first: string, rest: seq<string>): string
    decreases |rest|
  {
    if rest == [] then first
    else PathJoinAll(PathJoin(first, rest[0]), rest[1..])
  }

  predicate SlashFree(s: string) {
    '/' !in s
  }

  /** A path joined after a '/' gives back its last segment, and what came before it. */
  lemma LastSegment(x: string, a: string, y: string, b: string)
    requires SlashFree(a) && SlashFree(b)
    requires x + "/" + a == y + "/" + b
    ensures x == y && a == b
  {
    var l := x + "/" + a;
    assert l[|x|] == '/';
    assert l[|y|] == '/';
    assert x == l[..|x|];
    assert y == l[..|y|];
    assert a == l[|x| + 1..];
    assert b == l[|y| + 1..];
  }

  /** Joining a non-empty, slash-free segment that does not start with '/' onto a fixed base is injective. */
  lemma PathJoinInjective(base: string, p1: string, p2: string)
    requires p1 != "" && p2 != "" && SlashFree(p1) && SlashFree(p2)
    requires PathJoin(base, p1) == PathJoin(base, p2)
    ensures p1 == p2
  {
    assert p1[0] != '/' by { assert p1[0] in p1; }
    assert p2[0] != '/' by { assert p2[0] in p2; }
    if base == "" || base[|base| - 1] == '/' {
      assert (base + p1)[|base|..] == p1;
      assert (base + p2)[|base|..] == p2;
    } else {
      assert (base + "/" + p1)[|base| + 1..] == p1;
      assert (base + "/" + p2)[|base| + 1..] == p2;
    }
  }
}
