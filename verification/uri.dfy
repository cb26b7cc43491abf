/** `encodeURIComponent` and `decodeURIComponent` (ECMA-262, the Encode and
    Decode abstract operations), over strings of Unicode scalar values, with
    UTF-8 as in section 3 of RFC 3629 and percent-encoding as in section 2.1 of
    RFC 3986. */
module Uri {
  import opened Prelude
  import Decimal

  type Byte = b: int | 0 <= b < 256

  predicate IsAsciiLetter(c: char)
  {
    'A' <= c <= 'Z' || 'a' <= c <= 'z'
  }

  /** The characters `encodeURIComponent` copies unchanged. */
  predicate IsUnreserved(c: char)
  {
    IsAsciiLetter(c) || Decimal.IsDigit(c) || c in "-_.!~*'()"
  }

  /** Upper-case hexadecimal digit for `d`. */
  function HexDigit(d: nat): (c: char)
    requires d < 16
    ensures IsAsciiLetter(c) || Decimal.IsDigit(c)
  {
    if d < 10 then (d + '0' as int) as char else (d - 10 + 'A' as int) as char
  }

  /** The value of a hexadecimal digit of either case. */
  function HexValue(c: char): (r: Option<nat>)
    ensures r.Some? ==> r.value < 16
  {
    if '0' <= c <= '9' then Some(c as int - '0' as int)
    else if 'A' <= c <= 'F' then Some(c as int - 'A' as int + 10)
    else if 'a' <= c <= 'f' then Some(c as int - 'a' as int + 10)
    else None
  }

  /** "%XX" for one byte. */
  function EscapeByte(b: Byte): (r: string)
    ensures |r| == 3 && r[0] == '%'
  {
    ['%', HexDigit(b / 16), HexDigit(b % 16)]
  }

  function EscapeBytes(bs: seq<Byte>): (r: string)
    ensures |r| == 3 * |bs|
    ensures forall i :: 0 <= i < |r| ==> IsUnreserved(r[i]) || r[i] == '%'
  {
    if |bs| == 0 then "" else EscapeByte(bs[0]) + EscapeBytes(bs[1..])
  }

  predicate IsContinuation(b: Byte)
  {
    0x80 <= b < 0xC0
  }

  /** The UTF-8 encoding of one scalar value. */
  function Utf8Encode(c: char): (bs: seq<Byte>)
    ensures 1 <= |bs| <= 4
    ensures |bs| == 1 <==> c as int < 0x80
  {
    var cp := c as int;
    var q1, r1 := cp / 64, cp % 64;
    var q2, r2 := q1 / 64, q1 % 64;
    var q3, r3 := q2 / 64, q2 % 64;
    if cp < 0x80 then [cp]
    else if cp < 0x800 then [0xC0 + q1, 0x80 + r1]
    else if cp < 0x10000 then [0xE0 + q2, 0x80 + r2, 0x80 + r1]
    else [0xF0 + q3, 0x80 + r3, 0x80 + r2, 0x80 + r1]
  }

  function EncodeChar(c: char): (r: string)
    ensures forall i :: 0 <= i < |r| ==> IsUnreserved(r[i]) || r[i] == '%'
  {
    if IsUnreserved(c) then [c] else EscapeBytes(Utf8Encode(c))
  }

  /** `encodeURIComponent(s)`. Every character outside the unreserved set
      becomes the "%XX" escapes of its UTF-8 bytes. */
  function EncodeUriComponent(s: string): (r: string)
    ensures forall i :: 0 <= i < |r| ==> IsUnreserved(r[i]) || r[i] == '%'
    ensures |s| <= |r|
    ensures (forall i :: 0 <= i < |s| ==> IsUnreserved(s[i])) ==> r == s
  {
    if |s| == 0 then "" else EncodeChar(s[0]) + EncodeUriComponent(s[1..])
  }

  /** The byte a "%XX" escape at the start of `s` denotes. */
  function EscapedByte(s: string): (r: Option<Byte>)
    ensures r.Some? ==> |s| >= 3 && s[0] == '%'
  {
    if |s| >= 3 && s[0] == '%' then
      match (HexValue(s[1]), HexValue(s[2]))
      case (Some(h), Some(l)) => Some(h * 16 + l)
      case _ => None
    else None
  }

  /** The length of the UTF-8 sequence a first byte announces: the number of its
      leading one bits, or 0 when that number is 1 or above 4. */
  function SequenceLength(b: Byte): nat
  {
    if b < 0x80 then 1
    else if b < 0xC0 then 0
    else if b < 0xE0 then 2
    else if b < 0xF0 then 3
    else if b < 0xF8 then 4
    else 0
  }

  /** `count` escaped continuation bytes at the start of `s`. */
  function ContinuationBytes(s: string, count: nat): (r: Option<seq<Byte>>)
    ensures r.Some? ==> |r.value| == count && 3 * count <= |s|
    ensures r.Some? ==> forall i :: 0 <= i < count ==> IsContinuation(r.value[i])
    decreases count
  {
    if count == 0 then Some([])
    else match EscapedByte(s)
      case None => None
      case Some(b) =>
        if IsContinuation(b) then
          match ContinuationBytes(s[3..], count - 1)
          case None => None
          case Some(rest) => Some([b] + rest)
        else None
  }

  /** The scalar value a multi-byte sequence encodes; `None` for an overlong
      form, a surrogate, or a value beyond U+10FFFF. */
  function Utf8DecodeMulti(lead: Byte, cont: seq<Byte>): (r: Option<char>)
    requires SequenceLength(lead) == |cont| + 1 >= 2
    requires forall i :: 0 <= i < |cont| ==> IsContinuation(cont[i])
    ensures r.Some? ==> r.value as int >= 0x80
  {
    if |cont| == 1 then
      var cp := (lead as int - 0xC0) * 64 + (cont[0] as int - 0x80);
      if cp < 0x80 then None else Some(cp as char)
    else if |cont| == 2 then
      var cp := ((lead as int - 0xE0) * 64 + (cont[0] as int - 0x80)) * 64 + (cont[1] as int - 0x80);
      if cp < 0x800 || 0xD800 <= cp < 0xE000 then None else Some(cp as char)
    else
      var cp := (((lead as int - 0xF0) * 64 + (cont[0] as int - 0x80)) * 64
        + (cont[1] as int - 0x80)) * 64 + (cont[2] as int - 0x80);
      if cp < 0x10000 || cp >= 0x110000 then None else Some(cp as char)
  }

  function Prepend(c: char, r: Option<string>): Option<string>
  {
    match r
    case None => None
    case Some(t) => Some([c] + t)
  }

  /** `decodeURIComponent(s)`; `None` where it throws a URIError. */
  function DecodeUriComponent(s: string): (r: Option<string>)
    ensures '%' !in s ==> r == Some(s)
    ensures r.Some? ==> |r.value| <= |s|
    decreases |s|
  {
    if |s| == 0 then Some("")
    else if s[0] != '%' then
      assert [s[0]] + s[1..] == s;
      Prepend(s[0], DecodeUriComponent(s[1..]))
    else match EscapedByte(s)
      case None => None
      case Some(b) =>
        var n := SequenceLength(b);
        if n == 1 then Prepend(b as char, DecodeUriComponent(s[3..]))
        else if n == 0 then None
        else match ContinuationBytes(s[3..], n - 1)
          case None => None
          case Some(cont) =>
            match Utf8DecodeMulti(b, cont)
            case None => None
            case Some(c) => Prepend(c, DecodeUriComponent(s[3 * n..]))
  }

  lemma HexRoundTrip(d: nat)
    requires d < 16
    ensures HexValue(HexDigit(d)) == Some(d)
  {
  }

  lemma EscapedByteOfEscape(b: Byte, rest: string)
    ensures EscapedByte(EscapeByte(b) + rest) == Some(b)
  {
    HexRoundTrip(b / 16);
    HexRoundTrip(b % 16);
  }

  lemma {:induction false} ContinuationBytesOfEscapes(bs: seq<Byte>, rest: string)
    requires forall i :: 0 <= i < |bs| ==> IsContinuation(bs[i])
    ensures ContinuationBytes(EscapeBytes(bs) + rest, |bs|) == Some(bs)
    decreases |bs|
  {
    if |bs| > 0 {
      var s := EscapeBytes(bs) + rest;
      assert s == EscapeByte(bs[0]) + (EscapeBytes(bs[1..]) + rest);
      EscapedByteOfEscape(bs[0], EscapeBytes(bs[1..]) + rest);
      assert s[3..] == EscapeBytes(bs[1..]) + rest;
      ContinuationBytesOfEscapes(bs[1..], rest);
      assert [bs[0]] + bs[1..] == bs;
    }
  }

  /** Decoding a multi-byte UTF-8 encoding gives back the character. */
  lemma Utf8RoundTrip(c: char)
    requires c as int >= 0x80
    ensures var bs := Utf8Encode(c);
      && SequenceLength(bs[0]) == |bs|
      && (forall i :: 1 <= i < |bs| ==> IsContinuation(bs[i]))
      && Utf8DecodeMulti(bs[0], bs[1..]) == Some(c)
  {
  }

  /** An unreserved character is copied by both directions. */
  lemma DecodeUnreservedChar(c: char, rest: string)
    requires IsUnreserved(c)
    ensures DecodeUriComponent([c] + rest) == Prepend(c, DecodeUriComponent(rest))
  {
    var s := [c] + rest;
    assert s[0] == c && s[1..] == rest;
  }

  /** A reserved ASCII character is one escape, decoded back to itself. */
  lemma DecodeAsciiEscape(c: char, rest: string)
    requires c as int < 0x80
    ensures DecodeUriComponent(EscapeByte(c as int) + rest) == Prepend(c, DecodeUriComponent(rest))
  {
    var s := EscapeByte(c as int) + rest;
    EscapedByteOfEscape(c as int, rest);
    assert s[3..] == rest;
  }

  /** A non-ASCII character is a lead escape and its continuation escapes,
      decoded back to itself. */
  lemma DecodeMultiEscape(c: char, rest: string)
    requires c as int >= 0x80
    ensures DecodeUriComponent(EscapeBytes(Utf8Encode(c)) + rest) == Prepend(c, DecodeUriComponent(rest))
  {
    var bs := Utf8Encode(c);
    var s := EscapeBytes(bs) + rest;
    assert s == EscapeByte(bs[0]) + (EscapeBytes(bs[1..]) + rest);
    EscapedByteOfEscape(bs[0], EscapeBytes(bs[1..]) + rest);
    Utf8RoundTrip(c);
    assert s[3..] == EscapeBytes(bs[1..]) + rest;
    ContinuationBytesOfEscapes(bs[1..], rest);
    assert s[3 * |bs|..] == rest;
  }

  /** Decoding the encoding of one character, followed by anything, yields that
      character followed by the decoding of the rest. */
  lemma DecodeEncodedChar(c: char, rest: string)
    ensures DecodeUriComponent(EncodeChar(c) + rest) == Prepend(c, DecodeUriComponent(rest))
  {
    if IsUnreserved(c) {
      DecodeUnreservedChar(c, rest);
    } else if c as int < 0x80 {
      assert Utf8Encode(c) == [c as int];
      assert EscapeBytes([c as int]) == EscapeByte(c as int);
      DecodeAsciiEscape(c, rest);
    } else {
      DecodeMultiEscape(c, rest);
    }
  }

  /** `decodeURIComponent(encodeURIComponent(s)) === s` for every string. */
  lemma {:induction false} DecodeEncodeRoundTrip(s: string)
    ensures DecodeUriComponent(EncodeUriComponent(s)) == Some(s)
    decreases |s|
  {
    if |s| > 0 {
      DecodeEncodedChar(s[0], EncodeUriComponent(s[1..]));
      DecodeEncodeRoundTrip(s[1..]);
      assert [s[0]] + s[1..] == s;
    }
  }

  /** The first UTF-8 byte of a character that gets escaped is not '.'. */
  lemma LeadByteNotDot(c: char)
    requires !IsUnreserved(c)
    ensures Utf8Encode(c)[0] != '.' as int
  {
  }

  /** An escaped character starts with the escape of its first UTF-8 byte. */
  lemma EscapedCharStart(c: char, rest: string)
    requires !IsUnreserved(c)
    ensures EscapedByte(EncodeChar(c) + rest) == Some(Utf8Encode(c)[0])
  {
    var bs := Utf8Encode(c);
    assert EncodeChar(c) + rest == EscapeByte(bs[0]) + (EscapeBytes(bs[1..]) + rest);
    EscapedByteOfEscape(bs[0], EscapeBytes(bs[1..]) + rest);
  }

  /** An encoding that starts with an escape starts with the escape of a byte
      other than '.', which is never escaped. */
  lemma FirstEscapeNotDot(s: string)
    requires |EncodeUriComponent(s)| > 0 && EncodeUriComponent(s)[0] == '%'
    ensures EscapedByte(EncodeUriComponent(s)).Some?
    ensures EscapedByte(EncodeUriComponent(s)).value != '.' as int
  {
    assert !IsUnreserved(s[0]);
    EscapedCharStart(s[0], EncodeUriComponent(s[1..]));
    LeadByteNotDot(s[0]);
  }

  /** No encoding starts with "%2E" or "%2e", the escaped '.'. */
  lemma NoEscapedDotFirst(s: string)
    requires |EncodeUriComponent(s)| >= 3
    ensures var r := EncodeUriComponent(s);
      !(r[0] == '%' && r[1] == '2' && (r[2] == 'e' || r[2] == 'E'))
  {
    var r := EncodeUriComponent(s);
    if r[0] == '%' && r[1] == '2' && (r[2] == 'e' || r[2] == 'E') {
      FirstEscapeNotDot(s);
    }
  }

  /** An encoding starts with '.' only when the text does. */
  lemma EncodedLeadingDot(s: string)
    requires |EncodeUriComponent(s)| > 0 && EncodeUriComponent(s)[0] == '.'
    ensures |s| > 0 && s[0] == '.'
    ensures EncodeUriComponent(s) == "." + EncodeUriComponent(s[1..])
  {
  }

  /** Only the empty text encodes to the empty text. */
  lemma EncodedEmpty(s: string)
    requires EncodeUriComponent(s) == []
    ensures s == []
  {
  }

  // ---------------------------------------------------------------------------
  // When decoding fails (`decodeURIComponent` throws a URIError)

  /** The '%' at `i` does not start a "%XX" escape: fewer than two characters
      follow it, or one of the two is not a hexadecimal digit. */
  predicate BadEscapeAt(s: string, i: nat)
  {
    i < |s| && s[i] == '%' && (i + 2 >= |s| || HexValue(s[i + 1]).None? || HexValue(s[i + 2]).None?)
  }

  /** Whether an escape is bad does not depend on the text before it. */
  lemma BadEscapeShift(s: string, i: nat, k: nat)
    requires k <= i && k <= |s|
    ensures BadEscapeAt(s, i) <==> BadEscapeAt(s[k..], i - k)
  {
    if i < |s| {
      assert s[k..][i - k] == s[i];
    }
    if i + 2 < |s| {
      assert s[k..][i - k + 1] == s[i + 1] && s[k..][i - k + 2] == s[i + 2];
    }
  }

  /** Every '%' among the escapes `ContinuationBytes` accepts starts a good escape. */
  lemma {:induction false} ContinuationEscapesGood(s: string, count: nat, j: nat)
    requires ContinuationBytes(s, count).Some?
    requires j < 3 * count
    requires s[j] == '%'
    ensures !BadEscapeAt(s, j)
    decreases count
  {
    assert EscapedByte(s).Some?;
    assert HexValue('%').None?;
    if j >= 3 {
      BadEscapeShift(s, j, 3);
      ContinuationEscapesGood(s[3..], count - 1, j - 3);
    }
  }

  /** A '%' anywhere in the text that does not start a "%XX" escape makes
      decoding fail: no escape the decoder reads can hide it. */
  lemma {:induction false} BadEscapeFails(s: string, i: nat)
    requires BadEscapeAt(s, i)
    ensures DecodeUriComponent(s) == None
    decreases |s|
  {
    if s[0] != '%' {
      BadEscapeShift(s, i, 1);
      BadEscapeFails(s[1..], i - 1);
    } else if i > 0 && EscapedByte(s).Some? {
      var b := EscapedByte(s).value;
      var n := SequenceLength(b);
      assert HexValue('%').None?;
      assert i >= 3;
      if n == 1 {
        BadEscapeShift(s, i, 3);
        BadEscapeFails(s[3..], i - 3);
      } else if n >= 2 && ContinuationBytes(s[3..], n - 1).Some? {
        var cont := ContinuationBytes(s[3..], n - 1).value;
        BadEscapeShift(s, i, 3);
        if i - 3 < 3 * (n - 1) {
          ContinuationEscapesGood(s[3..], n - 1, i - 3);
        } else if Utf8DecodeMulti(b, cont).Some? {
          BadEscapeShift(s, i, 3 * n);
          BadEscapeFails(s[3 * n..], i - 3 * n);
        }
      }
    }
  }

  /** An escaped byte that cannot start a UTF-8 sequence (a continuation byte,
      or 0xF8 and above) makes decoding fail. */
  lemma InvalidLeadFails(s: string)
    requires EscapedByte(s).Some?
    requires 0x80 <= EscapedByte(s).value < 0xC0 || EscapedByte(s).value >= 0xF8
    ensures DecodeUriComponent(s) == None
  {
  }

  /** A two-byte sequence led by 0xC0 or 0xC1 encodes a value below 0x80, an
      overlong form, so decoding fails. */
  lemma OverlongLeadFails(s: string)
    requires EscapedByte(s) == Some(0xC0) || EscapedByte(s) == Some(0xC1)
    ensures DecodeUriComponent(s) == None
  {
    var b := EscapedByte(s).value;
    assert SequenceLength(b) == 2;
    if ContinuationBytes(s[3..], 1).Some? {
      var cont := ContinuationBytes(s[3..], 1).value;
      assert (b - 0xC0) * 64 + (cont[0] - 0x80) < 0x80;
    }
  }

  /** 0xED followed by 0xA0 or above encodes a UTF-16 surrogate (U+D800 to
      U+DFFF), which is no scalar value, so decoding fails. */
  lemma SurrogateFails(s: string)
    requires EscapedByte(s) == Some(0xED)
    requires EscapedByte(s[3..]).Some? && EscapedByte(s[3..]).value >= 0xA0
    ensures DecodeUriComponent(s) == None
  {
    assert SequenceLength(0xED) == 3;
    if ContinuationBytes(s[3..], 2).Some? {
      var cont := ContinuationBytes(s[3..], 2).value;
      assert cont[0] == EscapedByte(s[3..]).value;
      var c0: int, c1: int := cont[0], cont[1];
      var cp := ((0xED - 0xE0) * 64 + (c0 - 0x80)) * 64 + (c1 - 0x80);
      assert 0xD800 <= cp < 0xE000;
    }
  }

  /** Text without '%' in front of an undecodable text does not rescue it. */
  lemma {:induction false} PlainPrefixKeepsFailure(p: string, s: string)
    requires '%' !in p
    requires DecodeUriComponent(s) == None
    ensures DecodeUriComponent(p + s) == None
    decreases |p|
  {
    if p != [] {
      assert (p + s)[0] == p[0] && p[0] != '%';
      assert (p + s)[1..] == p[1..] + s;
      PlainPrefixKeepsFailure(p[1..], s);
    } else {
      assert p + s == s;
    }
  }

  /** A lone '%' and "%zz" are not escapes. */
  lemma MalformedEscapesFail()
    ensures DecodeUriComponent("%") == None
    ensures DecodeUriComponent("%zz") == None
  {
    BadEscapeFails("%", 0);
    BadEscapeFails("%zz", 0);
  }

  /** "%C0%80" is an overlong encoding of U+0000. */
  lemma OverlongSampleFails()
    ensures DecodeUriComponent("%C0%80") == None
  {
    assert EscapedByte("%C0%80") == Some(0xC0);
    OverlongLeadFails("%C0%80");
  }

  /** "%ED%A0%80" encodes the surrogate U+D800. */
  lemma SurrogateSampleFails()
    ensures DecodeUriComponent("%ED%A0%80") == None
  {
    var s := "%ED%A0%80";
    assert EscapedByte(s) == Some(0xED);
    assert s[3..] == "%A0%80";
    assert EscapedByte(s[3..]) == Some(0xA0);
    SurrogateFails(s);
  }
}
