/** The `pathname` of `new URL(s)` (WHATWG URL Standard) on the fragment of
    absolute URLs this model covers: an `http` or `https` scheme in lower case,
    a plain ASCII domain name as host (no user info, no port), and a path that
    needs neither percent-encoding nor dot-segment removal, followed by an
    optional query and fragment. Every other input is reported as `None`. */
module Url {
  import opened Prelude
  import opened Strings
  import Uri
  import Decimal

  /** Characters a host may hold here: ASCII letters, digits, '-' and '.'. */
  predicate IsHostChar(c: char)
  {
    Uri.IsAsciiLetter(c) || Decimal.IsDigit(c) || c == '-' || c == '.'
  }

  /** The text after the last '.' of a host, or the whole host. */
  function LastLabel(h: string): (r: string)
    ensures '.' !in r
  {
    match LastIndexOf(h, '.')
    case None => h
    case Some(k) => h[k + 1..]
  }

  /** Hosts the WHATWG host parser accepts and returns unchanged up to case:
      ASCII domain names with no "--" (so no "xn--" label needing Punycode
      validation) whose last label is all letters (so the IPv4 parser is never
      consulted). */
  predicate IsHostName(h: string)
  {
    && |h| > 0
    && (forall i :: 0 <= i < |h| ==> IsHostChar(h[i]))
    && !Contains(h, "--")
    && |LastLabel(h)| > 0
    && forall i :: 0 <= i < |LastLabel(h)| ==> Uri.IsAsciiLetter(LastLabel(h)[i])
  }

  /** Characters a path may hold unchanged: printable ASCII outside the path
      percent-encode set, without the backslash special schemes treat as '/'. */
  predicate IsPathChar(c: char)
  {
    0x21 <= c as int <= 0x7E && c !in "\"<>`{}^\\?#"
  }

  /** A single-dot or double-dot path segment, in any of its spellings. */
  predicate IsDotSegment(segment: string)
  {
    ToLower(segment) in {".", "..", "%2e", ".%2e", "%2e.", "%2e%2e"}
  }

  /** No segment of `path` (split at '/') is a dot segment. */
  predicate NoDotSegments(path: string)
    decreases |path|
  {
    match SplitAtFirst(path, '/')
    case None => !IsDotSegment(path)
    case Some((segment, rest)) => !IsDotSegment(segment) && NoDotSegments(rest)
  }

  /** The length of the longest prefix of `s` holding none of `stops`. */
  function SpanUntil(s: string, stops: string): (n: nat)
    ensures n <= |s|
    ensures forall i :: 0 <= i < n ==> s[i] !in stops
    ensures n < |s| ==> s[n] in stops
  {
    if |s| == 0 || s[0] in stops then 0 else 1 + SpanUntil(s[1..], stops)
  }

  /** What follows "https://" or "http://". */
  function AfterScheme(url: string): Option<string>
  {
    if |url| >= 8 && url[..8] == "https://" then Some(url[8..])
    else if |url| >= 7 && url[..7] == "http://" then Some(url[7..])
    else None
  }

  /** A non-empty path kept as it is by the parser. */
  predicate IsCleanPath(path: string)
  {
    (forall i :: 0 <= i < |path| ==> IsPathChar(path[i])) && NoDotSegments(path)
  }

  /** The pathname given what follows the host: up to a query or fragment. */
  function PathnameOfTail(tail: string): (r: Option<string>)
    requires tail == [] || tail[0] in "/?#"
    ensures r.Some? ==> |r.value| > 0 && r.value[0] == '/'
    ensures r.Some? ==> forall i :: 0 <= i < |r.value| ==> IsPathChar(r.value[i])
  {
    var path := tail[..SpanUntil(tail, "?#")];
    if path == "" then Some("/")
    else if IsCleanPath(path) then Some(path)
    else None
  }

  /** `new URL(url).pathname`, or `None` when `url` is outside the fragment. */
  function Pathname(url: string): (r: Option<string>)
    ensures r.Some? ==> |r.value| > 0 && r.value[0] == '/'
    ensures r.Some? ==> forall i :: 0 <= i < |r.value| ==> IsPathChar(r.value[i])
  {
    match AfterScheme(url)
    case None => None
    case Some(rest) =>
      var host := rest[..SpanUntil(rest, "/?#")];
      if IsHostName(host) then PathnameOfTail(rest[|host|..]) else None
  }

  /** A key that can follow "/" in a path and come out of the parser unchanged. */
  predicate IsPathKey(key: string)
  {
    (forall i :: 0 <= i < |key| ==> IsPathChar(key[i])) && NoDotSegments(key)
  }

  /** A path key that holds no '%', so percent-decoding leaves it alone too. */
  predicate IsPlainKey(key: string)
  {
    IsPathKey(key) && '%' !in key
  }

  /** Every spelling of a dot segment starts with '.' or '%'. */
  lemma NotDotSegment(segment: string)
    requires segment == [] || segment[0] !in ".%"
    ensures !IsDotSegment(segment)
  {
    if segment != [] {
      assert ToLower(segment)[0] == LowerChar(segment[0]);
    }
  }

  /** A DNS label as the handlers expect bucket and region names to be:
      letters, digits and single hyphens. */
  predicate IsLabel(s: string)
  {
    && |s| > 0
    && (forall i :: 0 <= i < |s| ==> Uri.IsAsciiLetter(s[i]) || Decimal.IsDigit(s[i]) || s[i] == '-')
    && !Contains(s, "--")
  }

  /** A segment that is not a dot segment, followed by '/' and a path
      without dot segments. */
  lemma NoDotSegmentsOfJoin(segment: string, rest: string)
    requires '/' !in segment && !IsDotSegment(segment)
    requires NoDotSegments(rest)
    ensures NoDotSegments(segment + ['/'] + rest)
  {
    SplitAtFirstOfJoin(segment, '/', rest);
  }

  /** A single segment of path characters not starting with '.' or '%' is a
      path key. */
  lemma PathSegment(segment: string)
    requires '/' !in segment
    requires segment == [] || segment[0] !in ".%"
    requires forall i :: 0 <= i < |segment| ==> IsPathChar(segment[i])
    ensures IsPathKey(segment)
  {
    NotDotSegment(segment);
  }

  /** A single segment of path characters, without '%' and not starting with
      '.', is a plain key. */
  lemma PlainSegment(segment: string)
    requires '/' !in segment && '%' !in segment
    requires segment == [] || segment[0] != '.'
    requires forall i :: 0 <= i < |segment| ==> IsPathChar(segment[i])
    ensures IsPlainKey(segment)
  {
    NotDotSegment(segment);
  }

  /** Letters and digits, with dots after the first character, make a plain
      key. */
  lemma PlainWord(word: string)
    requires forall i :: 0 <= i < |word| ==>
      Uri.IsAsciiLetter(word[i]) || Decimal.IsDigit(word[i]) || (0 < i && word[i] == '.')
    ensures IsPlainKey(word)
  {
    PlainSegment(word);
  }

  /** A plain segment, '/', and a plain key make a plain key. */
  lemma PlainKeyOfJoin(segment: string, rest: string)
    requires '/' !in segment && IsPlainKey(segment)
    requires IsPlainKey(rest)
    ensures IsPlainKey(segment + ['/'] + rest)
  {
    var key := segment + ['/'] + rest;
    assert SplitAtFirst(segment, '/') == None;
    NoDotSegmentsOfJoin(segment, rest);
    forall i | 0 <= i < |key| ensures IsPathChar(key[i]) && key[i] != '%' {
      if i < |segment| {
        assert key[i] == segment[i];
      } else if i > |segment| {
        assert key[i] == rest[i - |segment| - 1];
      }
    }
  }

  /** The span of host characters before a '/' is the host itself. */
  lemma SpanOfHost(host: string, rest: string)
    requires forall i :: 0 <= i < |host| ==> IsHostChar(host[i])
    requires |rest| > 0 && rest[0] == '/'
    ensures SpanUntil(host + rest, "/?#") == |host|
  {
    assert (host + rest)[|host|] == '/';
  }

  /** A path of path characters runs to the end of the URL. */
  lemma SpanOfPath(path: string)
    requires forall i :: 0 <= i < |path| ==> IsPathChar(path[i])
    ensures SpanUntil(path, "?#") == |path|
  {
  }

  /** Putting "/" in front of a key adds only an empty first segment. */
  lemma NoDotSegmentsAfterSlash(key: string)
    requires NoDotSegments(key)
    ensures NoDotSegments("/" + key)
  {
    SplitAtFirstOfJoin("", '/', key);
    assert "" + ['/'] + key == "/" + key;
    assert ToLower("") == "";
  }

  lemma AfterHttps(rest: string)
    ensures AfterScheme("https://" + rest) == Some(rest)
  {
    var url := "https://" + rest;
    assert url[..8] == "https://";
    assert url[8..] == rest;
  }

  /** The host is the text before the first '/', and the rest follows it. */
  lemma SplitHost(host: string, key: string)
    requires forall i :: 0 <= i < |host| ==> IsHostChar(host[i])
    ensures var rest := host + "/" + key;
      && SpanUntil(rest, "/?#") == |host|
      && rest[..|host|] == host
      && rest[|host|..] == "/" + key
  {
    assert host + "/" + key == host + ("/" + key);
    SpanOfHost(host, "/" + key);
  }

  /** The path of "https://" + host + "/" + key is "/" + key. */
  lemma PathnameOfPlainUrl(host: string, key: string)
    requires IsHostName(host)
    requires IsPathKey(key)
    ensures Pathname("https://" + host + "/" + key) == Some("/" + key)
  {
    var rest := host + "/" + key;
    assert "https://" + host + "/" + key == "https://" + rest;
    assert AfterScheme("https://" + rest) == Some(rest) by { AfterHttps(rest); }
    assert rest[..SpanUntil(rest, "/?#")] == host && rest[|host|..] == "/" + key by {
      SplitHost(host, key);
    }
    assert PathnameOfTail("/" + key) == Some("/" + key) by { PathnameOfSlashKey(key); }
  }

  lemma PathnameOfSlashKey(key: string)
    requires IsPathKey(key)
    ensures PathnameOfTail("/" + key) == Some("/" + key)
  {
    var path := "/" + key;
    assert forall i :: 0 <= i < |path| ==> IsPathChar(path[i]) by {
      forall i | 0 <= i < |path| ensures IsPathChar(path[i]) {
        if i > 0 { assert path[i] == key[i - 1]; }
      }
    }
    SpanOfPath(path);
    assert path[..|path|] == path;
    NoDotSegmentsAfterSlash(key);
  }

  /** `s` holds an escaped '.' ("%2E" or "%2e") at `i`. */
  predicate EscapedDotAt(s: string, i: nat)
  {
    i + 3 <= |s| && s[i] == '%' && s[i + 1] == '2' && (s[i + 2] == 'e' || s[i + 2] == 'E')
  }

  /** The spellings of a dot segment: "." and "..", or an escaped '.' at the
      start or right after a leading '.'. */
  lemma DotSegmentShape(segment: string)
    requires IsDotSegment(segment)
    ensures || segment == "." || segment == ".."
            || EscapedDotAt(segment, 0)
            || (|segment| > 0 && segment[0] == '.' && EscapedDotAt(segment, 1))
  {
    var t := ToLower(segment);
    if |t| <= 2 {
      assert t[0] == LowerChar(segment[0]);
      if |t| == 2 {
        assert t[1] == LowerChar(segment[1]);
      }
    } else if t[0] == '%' {
      assert t[0] == LowerChar(segment[0]) && t[1] == LowerChar(segment[1]) && t[2] == LowerChar(segment[2]);
    } else {
      assert t[0] == LowerChar(segment[0]) && t[1] == LowerChar(segment[1]);
      assert t[2] == LowerChar(segment[2]) && t[3] == LowerChar(segment[3]);
    }
  }

  /** The characters `encodeURIComponent` produces are path characters other than '/'. */
  lemma UnreservedIsPathChar(c: char)
    requires Uri.IsUnreserved(c) || c == '%'
    ensures IsPathChar(c) && c != '/'
  {
  }

  /** Every character `encodeURIComponent` produces is a path character. */
  lemma EncodedPathChars(key: string)
    ensures var r := Uri.EncodeUriComponent(key);
      (forall i :: 0 <= i < |r| ==> IsPathChar(r[i])) && '/' !in r
  {
    var r := Uri.EncodeUriComponent(key);
    forall i | 0 <= i < |r|
      ensures IsPathChar(r[i]) && r[i] != '/'
    {
      UnreservedIsPathChar(r[i]);
    }
  }

  /** Only "." encodes to ".". */
  lemma EncodedSingleDot(key: string)
    ensures Uri.EncodeUriComponent(key) == "." ==> key == "."
  {
    if Uri.EncodeUriComponent(key) == "." {
      Uri.EncodedLeadingDot(key);
      Uri.EncodedEmpty(key[1..]);
      assert key == [key[0]] + key[1..];
    }
  }

  /** Only ".." encodes to "..". */
  lemma EncodedDoubleDot(key: string)
    ensures Uri.EncodeUriComponent(key) == ".." ==> key == ".."
  {
    if Uri.EncodeUriComponent(key) == ".." {
      Uri.EncodedLeadingDot(key);
      assert Uri.EncodeUriComponent(key[1..]) == ".";
      EncodedSingleDot(key[1..]);
      assert key == [key[0]] + key[1..];
    }
  }

  /** No encoding holds an escaped '.' right after a leading '.'. */
  lemma NoEscapedDotAfterDot(key: string)
    ensures var r := Uri.EncodeUriComponent(key);
      !(|r| > 0 && r[0] == '.' && EscapedDotAt(r, 1))
  {
    var r := Uri.EncodeUriComponent(key);
    if |r| > 0 && r[0] == '.' && EscapedDotAt(r, 1) {
      Uri.EncodedLeadingDot(key);
      var tail := Uri.EncodeUriComponent(key[1..]);
      assert tail[0] == r[1] && tail[1] == r[2] && tail[2] == r[3];
      Uri.NoEscapedDotFirst(key[1..]);
    }
  }

  /** The encoding of any key but "." and ".." is not a dot segment, since
      '.' is never escaped. */
  lemma EncodedNotDotSegment(key: string)
    requires key != "." && key != ".."
    ensures !IsDotSegment(Uri.EncodeUriComponent(key))
  {
    var r := Uri.EncodeUriComponent(key);
    EncodedSingleDot(key);
    EncodedDoubleDot(key);
    NoEscapedDotAfterDot(key);
    if |r| >= 3 {
      Uri.NoEscapedDotFirst(key);
    }
    if IsDotSegment(r) {
      DotSegmentShape(r);
    }
  }

  /** The encoding of any key but "." and ".." is a path key. */
  lemma EncodedPathKey(key: string)
    requires key != "." && key != ".."
    ensures IsPathKey(Uri.EncodeUriComponent(key))
  {
    EncodedPathChars(key);
    EncodedNotDotSegment(key);
  }
}
