/** The parts of the OSS V1 query-string signature scheme both handlers share:
    the expiry, the canonical string that is signed, the endpoint host, the
    public URL and the signed URL. */
module Oss {
  import opened Prelude
  import opened Strings
  import Decimal
  import Uri

  /** The storage domain every endpoint host ends with. */
  const Domain := ".aliyuncs.com"

  /** The environment variables both handlers read. */
  const BucketVar := "OSS_BUCKET"
  const RegionVar := "OSS_REGION"
  const AccessKeyIdVar := "OSS_ACCESS_KEY_ID"
  const AccessKeySecretVar := "OSS_ACCESS_KEY_SECRET"

  /** `Deno.env.get(name)`. */
  function EnvGet(env: map<string, string>, name: string): (v: Option<string>)
    ensures v.Some? <==> name in env
    ensures v.Some? ==> v.value == env[name]
  {
    if name in env then Some(env[name]) else None
  }

  /** All four variables are set to non-empty values. */
  predicate Credentialed(env: map<string, string>)
  {
    && Truthy(EnvGet(env, BucketVar))
    && Truthy(EnvGet(env, RegionVar))
    && Truthy(EnvGet(env, AccessKeyIdVar))
    && Truthy(EnvGet(env, AccessKeySecretVar))
  }

  /** What signing returns: the base64 signature, or the rendering of the
      exception it threw (WebCrypto refuses an empty HMAC key, for one). */
  datatype SignOutcome = Signed(signature: string) | SignFailed(message: string)

  /** HMAC-SHA1 of the data under the key, base64-encoded: supplied by the
      caller, so nothing is assumed about it. */
  type Signer = (string, string) -> SignOutcome

  /** One invocation of the signer: the key and the data it signed. */
  datatype SignCall = SignCall(key: string, data: string)

  datatype Verb = PUT | DELETE

  function VerbName(verb: Verb): string
  {
    match verb
    case PUT => "PUT"
    case DELETE => "DELETE"
  }

  /** What a signature authorises: a verb, a content type (empty for DELETE),
      an expiry in epoch seconds and a resource "/bucket/objectKey". */
  datatype SigningRequest = SigningRequest(verb: Verb, contentType: string, expires: nat, resource: string)

  /** No occurrence of the domain can start inside a text without a '.'. */
  lemma NoDotNoDomain(s: string)
    requires '.' !in s
    ensures !Contains(s, Domain)
  {
    forall j: nat ensures !OccursAt(s, Domain, j) {
      if j + |Domain| <= |s| {
        assert s[j..j + |Domain|][0] == s[j] != Domain[0];
      }
    }
  }

  /** The domain has no proper border, so when a text does not contain it, its
      first occurrence in that text followed by the domain is at the join. */
  lemma DomainFirstAtJoin(name: string, rest: string)
    requires !Contains(name, Domain)
    ensures FirstOccurrence(name + Domain + rest, Domain, |name|)
  {
    var s := name + Domain + rest;
    assert s[|name|..|name| + |Domain|] == Domain;
    forall j: nat | j < |name| ensures !OccursAt(s, Domain, j) {
      if j + |Domain| <= |name| {
        assert name[j..j + |Domain|] == s[j..j + |Domain|];
        assert !OccursAt(name, Domain, j);
      } else {
        // An occurrence would overlap the appended domain at offset k: the
        // '.' at the join must match Domain[k], so k == 9, and then the next
        // characters ('a' against 'c') disagree.
        var k := |name| - j;
        var w := s[j..j + |Domain|];
        assert w[k] == s[|name|] == '.';
        if k == 9 {
          assert w[k + 1] == s[|name| + 1] == 'a';
          assert w[k + 1] != Domain[k + 1];
        } else {
          assert Domain[k] != '.';
        }
      }
    }
  }

  /** `Math.floor(nowMs / 1000) + 60`: one minute past the clock, in whole seconds. */
  function ExpiresAt(nowMs: nat): (expires: nat)
    ensures expires >= 60
    ensures (expires - 60) * 1000 <= nowMs < (expires - 59) * 1000
  {
    nowMs / 1000 + 60
  }

  /** The signed resource "/bucket/objectKey". */
  function Resource(bucket: string, objectKey: string): string
  {
    "/" + bucket + "/" + objectKey
  }

  /** The lines joined with "\n" between them. */
  function JoinLines(lines: seq<string>): string
  {
    if |lines| == 0 then ""
    else if |lines| == 1 then lines[0]
    else lines[0] + "\n" + JoinLines(lines[1..])
  }

  /** The text that is signed: the verb, an empty Content-MD5 line, the content
      type, the expiry and the resource, joined by newlines. */
  function CanonicalString(req: SigningRequest): (text: string)
    ensures text == VerbName(req.verb) + "\n\n" + req.contentType + "\n" + Decimal.NatToDecimal(req.expires)
                    + "\n" + req.resource
  {
    var lines := [VerbName(req.verb), "", req.contentType, Decimal.NatToDecimal(req.expires), req.resource];
    JoinFiveLines(lines);
    JoinLines(lines)
  }

  lemma JoinFiveLines(lines: seq<string>)
    requires |lines| == 5
    ensures JoinLines(lines) == lines[0] + "\n" + lines[1] + "\n" + lines[2] + "\n" + lines[3] + "\n" + lines[4]
  {
    assert lines[1..][1..] == lines[2..];
    assert lines[2..][1..] == lines[3..];
    assert lines[3..][1..] == lines[4..];
    assert JoinLines(lines[4..]) == lines[4];
    assert JoinLines(lines[3..]) == lines[3] + "\n" + lines[4];
    assert JoinLines(lines[2..]) == lines[2] + "\n" + (lines[3] + "\n" + lines[4]);
    assert JoinLines(lines[1..]) == lines[1] + "\n" + (lines[2] + "\n" + (lines[3] + "\n" + lines[4]));
  }

  /** The canonical string with the resource "/bucket/key" written out, as the
      handlers' templates spell it. */
  lemma CanonicalLayout(req: SigningRequest, bucket: string, objectKey: string)
    requires req.resource == Resource(bucket, objectKey)
    ensures CanonicalString(req) == VerbName(req.verb) + "\n\n" + req.contentType + "\n"
                                    + Decimal.NatToDecimal(req.expires) + "\n/" + bucket + "/" + objectKey
  {
    assert "\n" + "/" == "\n/";
  }

  lemma ParseVerbName(verb: Verb)
    ensures ParseVerb(VerbName(verb)) == Some(verb)
    ensures '\n' !in VerbName(verb)
  {
    match verb
    case PUT =>
    case DELETE => assert "DELETE" != "PUT" by { assert |"DELETE"| != |"PUT"|; }
  }

  function ParseVerb(s: string): Option<Verb>
  {
    if s == "PUT" then Some(PUT) else if s == "DELETE" then Some(DELETE) else None
  }

  /** Reads the fields back from a canonical string. */
  function ParseCanonical(s: string): Option<SigningRequest>
  {
    match SplitAtFirst(s, '\n')
    case None => None
    case Some((verbLine, rest)) =>
      match ParseVerb(verbLine)
      case None => None
      case Some(verb) => ParseAfterVerb(verb, rest)
  }

  /** The empty Content-MD5 line, then the remaining fields. */
  function ParseAfterVerb(verb: Verb, s: string): Option<SigningRequest>
  {
    match SplitAtFirst(s, '\n')
    case None => None
    case Some((md5Line, rest)) =>
      if md5Line == "" then ParseFields(verb, rest) else None
  }

  /** Content type, expiry, and the resource that runs to the end. */
  function ParseFields(verb: Verb, s: string): Option<SigningRequest>
  {
    match SplitAtFirst(s, '\n')
    case None => None
    case Some((contentType, rest)) =>
      match SplitAtFirst(rest, '\n')
      case None => None
      case Some((expiresLine, resource)) =>
        if Decimal.Canonical(expiresLine) then
          Some(SigningRequest(verb, contentType, Decimal.DecimalValue(expiresLine), resource))
        else None
  }

  lemma ParseFieldsOfJoin(req: SigningRequest)
    requires '\n' !in req.contentType
    ensures ParseFields(req.verb, JoinLines([req.contentType, Decimal.NatToDecimal(req.expires), req.resource]))
         == Some(req)
  {
    var e := Decimal.NatToDecimal(req.expires);
    var rest := JoinLines([e, req.resource]);
    assert JoinLines([req.contentType, e, req.resource]) == req.contentType + ['\n'] + rest by {
      assert [req.contentType, e, req.resource][1..] == [e, req.resource];
    }
    assert rest == e + ['\n'] + req.resource by {
      assert [e, req.resource][1..] == [req.resource];
      assert JoinLines([req.resource]) == req.resource;
    }
    SplitAtFirstOfJoin(req.contentType, '\n', rest);
    Decimal.DigitsExclude(e, '\n');
    SplitAtFirstOfJoin(e, '\n', req.resource);
    Decimal.DecimalRoundTrip(req.expires);
  }

  /** A canonical string determines every field it was built from, provided the
      content type holds no newline. */
  lemma CanonicalStringRoundTrip(req: SigningRequest)
    requires '\n' !in req.contentType
    ensures ParseCanonical(CanonicalString(req)) == Some(req)
  {
    var v := VerbName(req.verb);
    var e := Decimal.NatToDecimal(req.expires);
    var fields := JoinLines([req.contentType, e, req.resource]);
    var afterVerb := JoinLines(["", req.contentType, e, req.resource]);
    assert ParseFields(req.verb, fields) == Some(req) by { ParseFieldsOfJoin(req); }
    assert ParseAfterVerb(req.verb, afterVerb) == Some(req) by {
      assert ["", req.contentType, e, req.resource][1..] == [req.contentType, e, req.resource];
      assert afterVerb == "" + ['\n'] + fields;
      SplitAtFirstOfJoin("", '\n', fields);
    }
    assert SplitAtFirst(CanonicalString(req), '\n') == Some((v, afterVerb)) by {
      assert [v, "", req.contentType, e, req.resource][1..] == ["", req.contentType, e, req.resource];
      assert CanonicalString(req) == v + ['\n'] + afterVerb;
      ParseVerbName(req.verb);
      SplitAtFirstOfJoin(v, '\n', afterVerb);
    }
    ParseVerbName(req.verb);
  }

  /** Two signing requests with newline-free content types share a canonical
      string only if they are the same request: changing any one field changes
      the text that is signed. */
  lemma CanonicalStringInjective(a: SigningRequest, b: SigningRequest)
    requires '\n' !in a.contentType && '\n' !in b.contentType
    ensures CanonicalString(a) == CanonicalString(b) ==> a == b
  {
    CanonicalStringRoundTrip(a);
    CanonicalStringRoundTrip(b);
  }

  /** The endpoint host "{bucket}.{region}.aliyuncs.com". */
  function Host(bucket: string, region: string): string
  {
    bucket + "." + region + Domain
  }

  /** The unsigned URL of an object. */
  function PublicUrl(bucket: string, region: string, objectKey: string): (url: string)
    ensures StripPrefix(url, "https://" + Host(bucket, region) + "/") == Some(objectKey)
  {
    StripPrefixOfJoin("https://" + Host(bucket, region) + "/", objectKey);
    "https://" + Host(bucket, region) + "/" + objectKey
  }

  /** The query string of a signed URL, in the fixed order OSSAccessKeyId,
      Expires, Signature, with the signature percent-encoded. */
  function SignedQuery(accessKeyId: string, expires: nat, signature: string): string
  {
    "?OSSAccessKeyId=" + accessKeyId + "&Expires=" + Decimal.NatToDecimal(expires)
      + "&Signature=" + Uri.EncodeUriComponent(signature)
  }

  /** The signed URL: the public URL followed by the signed query. */
  function SignedUrl(bucket: string, region: string, objectKey: string,
                     accessKeyId: string, expires: nat, signature: string): (url: string)
    ensures |PublicUrl(bucket, region, objectKey)| < |url|
    ensures url[..|PublicUrl(bucket, region, objectKey)|] == PublicUrl(bucket, region, objectKey)
    ensures StripPrefix(url, PublicUrl(bucket, region, objectKey))
         == Some(SignedQuery(accessKeyId, expires, signature))
  {
    var pub := PublicUrl(bucket, region, objectKey);
    StripPrefixOfJoin(pub, SignedQuery(accessKeyId, expires, signature));
    pub + SignedQuery(accessKeyId, expires, signature)
  }

  /** The public URL with the host written out, as the handlers' templates
      spell it. */
  lemma PublicUrlLayout(bucket: string, region: string, objectKey: string)
    ensures PublicUrl(bucket, region, objectKey) == "https://" + bucket + "." + region + ".aliyuncs.com/" + objectKey
  {
    assert Domain + "/" == ".aliyuncs.com/";
  }

  /** The signed URL with host and query written out, as the handlers'
      templates spell it. */
  lemma SignedUrlLayout(bucket: string, region: string, objectKey: string,
                        accessKeyId: string, expires: nat, signature: string)
    ensures SignedUrl(bucket, region, objectKey, accessKeyId, expires, signature)
         == "https://" + bucket + "." + region + ".aliyuncs.com/" + objectKey
            + "?OSSAccessKeyId=" + accessKeyId + "&Expires=" + Decimal.NatToDecimal(expires)
            + "&Signature=" + Uri.EncodeUriComponent(signature)
  {
    PublicUrlLayout(bucket, region, objectKey);
    AppendSix(PublicUrl(bucket, region, objectKey), "?OSSAccessKeyId=", accessKeyId, "&Expires=",
              Decimal.NatToDecimal(expires), "&Signature=", Uri.EncodeUriComponent(signature));
  }

  lemma AppendSix(p: string, a: string, b: string, c: string, d: string, e: string, f: string)
    ensures p + (a + b + c + d + e + f) == p + a + b + c + d + e + f
  {
  }

  /** Reads access key id, expiry and signature back from a signed query. */
  function ParseSignedQuery(q: string): Option<(string, nat, string)>
  {
    match StripPrefix(q, "?OSSAccessKeyId=")
    case None => None
    case Some(r1) =>
      match SplitAtFirst(r1, '&')
      case None => None
      case Some((accessKeyId, r2)) =>
        match ParseExpiresParam(r2)
        case None => None
        case Some((expires, signature)) => Some((accessKeyId, expires, signature))
  }

  /** "Expires=" + digits, then "&" and the signature parameter. */
  function ParseExpiresParam(s: string): Option<(nat, string)>
  {
    match StripPrefix(s, "Expires=")
    case None => None
    case Some(r1) =>
      match SplitAtFirst(r1, '&')
      case None => None
      case Some((expiresText, r2)) =>
        match ParseSignatureParam(r2)
        case None => None
        case Some(signature) =>
          if Decimal.Canonical(expiresText) then Some((Decimal.DecimalValue(expiresText), signature))
          else None
  }

  /** "Signature=" + the percent-encoded signature. */
  function ParseSignatureParam(s: string): Option<string>
  {
    match StripPrefix(s, "Signature=")
    case None => None
    case Some(encoded) => Uri.DecodeUriComponent(encoded)
  }

  lemma ParseExpiresParamOfJoin(expires: nat, signature: string)
    ensures ParseExpiresParam("Expires=" + Decimal.NatToDecimal(expires) + "&Signature="
                              + Uri.EncodeUriComponent(signature))
         == Some((expires, signature))
  {
    var e := Decimal.NatToDecimal(expires);
    var enc := Uri.EncodeUriComponent(signature);
    var r2 := "Signature=" + enc;
    var r1 := e + ['&'] + r2;
    assert "Expires=" + e + "&Signature=" + enc == "Expires=" + r1;
    StripPrefixOfJoin("Expires=", r1);
    Decimal.DigitsExclude(e, '&');
    SplitAtFirstOfJoin(e, '&', r2);
    assert ParseSignatureParam(r2) == Some(signature) by {
      StripPrefixOfJoin("Signature=", enc);
      Uri.DecodeEncodeRoundTrip(signature);
    }
    Decimal.DecimalRoundTrip(expires);
  }

  lemma SignedQueryShape(accessKeyId: string, e: string, enc: string)
    ensures "?OSSAccessKeyId=" + accessKeyId + "&Expires=" + e + "&Signature=" + enc
         == "?OSSAccessKeyId=" + (accessKeyId + ['&'] + ("Expires=" + e + "&Signature=" + enc))
  {
    assert "&Expires=" == ['&'] + "Expires=";
  }

  /** The signed query carries exactly the access key id, the expiry and the
      signature it was built from, whatever characters the signature holds. */
  lemma SignedQueryRoundTrip(accessKeyId: string, expires: nat, signature: string)
    requires '&' !in accessKeyId
    ensures ParseSignedQuery(SignedQuery(accessKeyId, expires, signature))
         == Some((accessKeyId, expires, signature))
  {
    var r2 := "Expires=" + Decimal.NatToDecimal(expires) + "&Signature=" + Uri.EncodeUriComponent(signature);
    var r1 := accessKeyId + ['&'] + r2;
    assert ParseExpiresParam(r2) == Some((expires, signature)) by {
      ParseExpiresParamOfJoin(expires, signature);
    }
    assert StripPrefix(SignedQuery(accessKeyId, expires, signature), "?OSSAccessKeyId=") == Some(r1) by {
      SignedQueryShape(accessKeyId, Decimal.NatToDecimal(expires), Uri.EncodeUriComponent(signature));
      StripPrefixOfJoin("?OSSAccessKeyId=", r1);
    }
    SplitAtFirstOfJoin(accessKeyId, '&', r2);
  }
}
