/** String helpers with the semantics of the JavaScript string methods the
    handlers call (`indexOf`/`includes`, `lastIndexOf`, `replace` with a string
    pattern, `split(".")[0]`, `trim`, `toLowerCase`). */
module Strings {
  import opened Prelude

  /** `p` occurs in `s` starting at index `i`. */
  predicate OccursAt(s: string, p: string, i: nat)
  {
    i + |p| <= |s| && s[i..i + |p|] == p
  }

  /** `i` is the first index at which `p` occurs in `s`. */
  ghost predicate FirstOccurrence(s: string, p: string, i: nat)
  {
    OccursAt(s, p, i) && forall j: nat :: j < i ==> !OccursAt(s, p, j)
  }

  /** The first index at or after `from` where `p` occurs in `s`. */
  function IndexOfFrom(s: string, p: string, from: nat): (r: Option<nat>)
    requires from <= |s|
    ensures r.Some? ==> from <= r.value && OccursAt(s, p, r.value)
    ensures r.Some? ==> forall j: nat :: from <= j < r.value ==> !OccursAt(s, p, j)
    ensures r.None? ==> forall j: nat :: from <= j ==> !OccursAt(s, p, j)
    decreases |s| - from
  {
    if from + |p| > |s| then None
    else if s[from..from + |p|] == p then Some(from)
    else IndexOfFrom(s, p, from + 1)
  }

  /** `s.indexOf(p)`, with `None` for -1. */
  function IndexOf(s: string, p: string): (r: Option<nat>)
    ensures r.Some? ==> FirstOccurrence(s, p, r.value)
    ensures r.None? ==> forall j: nat :: !OccursAt(s, p, j)
  {
    IndexOfFrom(s, p, 0)
  }

  /** `s.includes(p)`. */
  predicate Contains(s: string, p: string)
  {
    IndexOf(s, p).Some?
  }

  /** `s.replace(p, rep)` for a string pattern: only the first occurrence is
      replaced. `rep` is copied as it is: the `$` substitution patterns that
      JavaScript would expand in it are not modelled, and the only replacement
      the handlers use is the empty string, which holds none. */
  function ReplaceFirst(s: string, p: string, rep: string): (r: string)
    ensures !Contains(s, p) ==> r == s
    ensures Contains(s, p) ==>
      exists i: nat :: FirstOccurrence(s, p, i) && r == s[..i] + rep + s[i + |p|..]
    ensures Contains(s, p) ==> |r| == |s| - |p| + |rep|
  {
    match IndexOf(s, p)
    case None => s
    case Some(i) => s[..i] + rep + s[i + |p|..]
  }

  /** `s.lastIndexOf(c)` for a one-character pattern, with `None` for -1. */
  function LastIndexOf(s: string, c: char): (r: Option<nat>)
    ensures r.Some? ==> r.value < |s| && s[r.value] == c
    ensures r.Some? ==> forall j :: r.value < j < |s| ==> s[j] != c
    ensures r.None? <==> c !in s
  {
    if |s| == 0 then None
    else if s[|s| - 1] == c then Some(|s| - 1)
    else LastIndexOf(s[..|s| - 1], c)
  }

  /** The last `c` of a joined string is the separator when the second part has none. */
  lemma {:induction false} LastIndexOfJoin(a: string, c: char, b: string)
    requires c !in b
    ensures LastIndexOf(a + [c] + b, c) == Some(|a|)
  {
    var s := a + [c] + b;
    assert s[|a|] == c;
    forall j | |a| < j < |s| ensures s[j] != c {
      assert s[j] == b[j - |a| - 1];
    }
  }

  /** `s.split(c)[0]`: the text before the first `c`, or all of `s`. */
  function BeforeFirst(s: string, c: char): (r: string)
    ensures |r| <= |s| && r == s[..|r|]
    ensures c !in r
    ensures |r| < |s| ==> s[|r|] == c
  {
    if |s| == 0 || s[0] == c then ""
    else [s[0]] + BeforeFirst(s[1..], c)
  }

  /** Splits `s` at its first `c`: the text before it and the text after it. */
  function SplitAtFirst(s: string, c: char): (r: Option<(string, string)>)
    ensures r.None? <==> c !in s
    ensures r.Some? ==> c !in r.value.0 && s == r.value.0 + [c] + r.value.1
  {
    if |s| == 0 then None
    else if s[0] == c then Some(("", s[1..]))
    else match SplitAtFirst(s[1..], c)
      case None => None
      case Some((before, after)) => Some(([s[0]] + before, after))
  }

  /** Splitting a joined string at a separator absent from its first part gives
      back both parts. */
  lemma {:induction false} SplitAtFirstOfJoin(a: string, c: char, b: string)
    requires c !in a
    ensures SplitAtFirst(a + [c] + b, c) == Some((a, b))
  {
    if |a| > 0 {
      var s := a + [c] + b;
      assert s[0] == a[0] && s[1..] == a[1..] + [c] + b;
      SplitAtFirstOfJoin(a[1..], c, b);
      assert [a[0]] + a[1..] == a;
    } else {
      assert (a + [c] + b)[1..] == b;
    }
  }

  /** `p` is a prefix of `s`. */
  predicate IsPrefix(p: string, s: string)
  {
    |p| <= |s| && s[..|p|] == p
  }

  /** What follows the prefix `p` of `s`, if `s` starts with `p`. */
  function StripPrefix(s: string, p: string): (r: Option<string>)
    ensures r.Some? <==> |p| <= |s| && s[..|p|] == p
    ensures r.Some? ==> s == p + r.value
  {
    if |p| <= |s| && s[..|p|] == p then Some(s[|p|..]) else None
  }

  lemma StripPrefixOfJoin(p: string, rest: string)
    ensures StripPrefix(p + rest, p) == Some(rest)
  {
    assert (p + rest)[..|p|] == p;
    assert (p + rest)[|p|..] == rest;
  }

  /** The characters `String.prototype.trim` removes: ECMAScript WhiteSpace and
      LineTerminator code points. */
  predicate IsWhiteSpace(c: char)
  {
    var n := c as int;
    || n == 0x09 || n == 0x0A || n == 0x0B || n == 0x0C || n == 0x0D || n == 0x20
    || n == 0xA0 || n == 0x1680 || (0x2000 <= n <= 0x200A) || n == 0x2028 || n == 0x2029
    || n == 0x202F || n == 0x205F || n == 0x3000 || n == 0xFEFF
  }

  /** Drops leading white space. */
  function TrimStart(s: string): (r: string)
    ensures |r| <= |s| && r == s[|s| - |r|..]
    ensures forall k :: 0 <= k < |s| - |r| ==> IsWhiteSpace(s[k])
    ensures r == [] || !IsWhiteSpace(r[0])
  {
    if |s| > 0 && IsWhiteSpace(s[0]) then TrimStart(s[1..]) else s
  }

  /** Drops trailing white space. */
  function TrimEnd(s: string): (r: string)
    ensures |r| <= |s| && r == s[..|r|]
    ensures forall k :: |r| <= k < |s| ==> IsWhiteSpace(s[k])
    ensures r == [] || !IsWhiteSpace(r[|r| - 1])
  {
    if |s| > 0 && IsWhiteSpace(s[|s| - 1]) then TrimEnd(s[..|s| - 1]) else s
  }

  /** `s` is `r` at offset `i` with only white space before and after it. */
  predicate WhiteSpaceFramed(s: string, r: string, i: nat)
  {
    && i + |r| <= |s| && r == s[i..i + |r|]
    && (forall k :: 0 <= k < i ==> IsWhiteSpace(s[k]))
    && (forall k :: i + |r| <= k < |s| ==> IsWhiteSpace(s[k]))
  }

  /** A suffix `t` of `s` after white space, cut to a prefix `r` before white
      space, is the middle of `s` framed by white space. */
  lemma FramedMiddle(s: string, t: string, r: string)
    requires |t| <= |s| && t == s[|s| - |t|..]
    requires forall k :: 0 <= k < |s| - |t| ==> IsWhiteSpace(s[k])
    requires |r| <= |t| && r == t[..|r|]
    requires forall k :: |r| <= k < |t| ==> IsWhiteSpace(t[k])
    ensures WhiteSpaceFramed(s, r, |s| - |t|)
  {
    var i := |s| - |t|;
    assert r == s[i..i + |r|];
    forall k | i + |r| <= k < |s|
      ensures IsWhiteSpace(s[k])
    {
      assert s[k] == t[k - i];
    }
  }

  /** `s.trim()`: the text between white-space runs at either end. */
  function Trim(s: string): (r: string)
    ensures |r| <= |s|
    ensures r == [] || (!IsWhiteSpace(r[0]) && !IsWhiteSpace(r[|r| - 1]))
    ensures exists i: nat :: WhiteSpaceFramed(s, r, i)
  {
    var t := TrimStart(s);
    var r := TrimEnd(t);
    FramedMiddle(s, t, r);
    assert r != [] ==> r[0] == t[0];
    r
  }

  /** ASCII lower-casing of one character. */
  function LowerChar(c: char): char
  {
    if 'A' <= c <= 'Z' then (c as int + 32) as char else c
  }

  /** `s.toLowerCase()` restricted to ASCII letters. */
  function ToLower(s: string): (r: string)
    ensures |r| == |s|
    ensures forall i :: 0 <= i < |s| ==> r[i] == LowerChar(s[i])
  {
    if |s| == 0 then "" else [LowerChar(s[0])] + ToLower(s[1..])
  }
}
