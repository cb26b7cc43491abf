/** The delete edge function: recovers an object key from a public URL, and
    either reports it (dry run) or signs a DELETE for it and sends it to
    storage. */
module Delete {
  import opened Prelude
  import opened Strings
  import Decimal
  import Uri
  import Url
  import Oss
  import opened Http

  /** The fields the handler reads from the JSON body. */
  datatype DeleteBody = DeleteBody(publicUrl: Option<string>, dryRun: Option<JsonValue>)

  /** How the DELETE sent to storage ended: a response with its status and
      text, or an exception (from `fetch` or from reading the text), rendered
      as a string. */
  datatype FetchOutcome = Responded(status: int, text: string) | Failed(message: string)

  /** One run of the handler: the response, the signer call made (if any) and
      the URL sent a DELETE (if any). */
  datatype DeleteRun = DeleteRun(response: Response, signing: Option<Oss.SignCall>, fetched: Option<string>)

  /** Drops one leading '/', as `replace(/^\//, "")` does. */
  function StripLeadingSlash(path: string): (r: string)
    ensures "/" + r == path || (r == path && !IsPrefix("/", path))
  {
    if |path| > 0 && path[0] == '/' then path[1..] else path
  }

  /** Exactly one '/' is removed: prefixing a '/' and stripping gives back
      any text, even one that itself starts with '/'. */
  lemma StripLeadingSlashOnce(path: string)
    ensures StripLeadingSlash("/" + path) == path
    ensures StripLeadingSlash("/" + ("/" + path)) == "/" + path
  {
    assert ("/" + path)[1..] == path;
    assert ("/" + ("/" + path))[1..] == "/" + path;
  }

  /** The object key named by a public URL: its path without the leading '/',
      percent-decoded. `None` when the URL does not parse or the path does not
      decode. */
  function RecoverObjectKey(publicUrl: string): (key: Option<string>)
    ensures key.Some? ==> Url.Pathname(publicUrl).Some?
    ensures key.Some? ==> |key.value| < |Url.Pathname(publicUrl).value|
  {
    match Url.Pathname(publicUrl)
    case None => None
    case Some(path) => Uri.DecodeUriComponent(StripLeadingSlash(path))
  }

  /** `dryRun === true`: only the JSON literal `true` selects a dry run. */
  predicate IsDryRun(dryRun: Option<JsonValue>)
  {
    dryRun == Some(Bool(true))
  }

  /** The key a request names, once method, body and URL have been accepted. */
  function RequestedKey(req: Request<DeleteBody>): Option<string>
  {
    if req.verb == "POST" && req.body.Json? && Truthy(req.body.fields.publicUrl)
    then RecoverObjectKey(req.body.fields.publicUrl.value)
    else None
  }

  /** A request that the handler signs under this environment. */
  predicate ReachesSigning(req: Request<DeleteBody>, env: map<string, string>)
  {
    RequestedKey(req).Some? && !IsDryRun(req.body.fields.dryRun) && Oss.Credentialed(env)
  }

  /** The canonical string of the DELETE for a key: no content type, and the
      bucket as configured. */
  function DeleteCanonical(objectKey: string, env: map<string, string>, clockMs: nat): (data: string)
    requires Oss.Credentialed(env)
    ensures data == "DELETE\n\n\n" + Decimal.NatToDecimal(Oss.ExpiresAt(clockMs))
                    + "\n/" + env[Oss.BucketVar] + "/" + objectKey
  {
    var req := Oss.SigningRequest(Oss.DELETE, "", Oss.ExpiresAt(clockMs), Oss.Resource(env[Oss.BucketVar], objectKey));
    Oss.CanonicalLayout(req, env[Oss.BucketVar], objectKey);
    assert Oss.VerbName(Oss.DELETE) + "\n\n" + "" + "\n" == "DELETE\n\n\n";
    Oss.CanonicalString(req)
  }

  /** The URL the DELETE is sent to. */
  function DeleteUrl(objectKey: string, env: map<string, string>, clockMs: nat, signature: string): (url: string)
    requires Oss.Credentialed(env)
    ensures url == "https://" + env[Oss.BucketVar] + "." + env[Oss.RegionVar] + ".aliyuncs.com/" + objectKey
                   + "?OSSAccessKeyId=" + env[Oss.AccessKeyIdVar]
                   + "&Expires=" + Decimal.NatToDecimal(Oss.ExpiresAt(clockMs))
                   + "&Signature=" + Uri.EncodeUriComponent(signature)
  {
    Oss.SignedUrlLayout(env[Oss.BucketVar], env[Oss.RegionVar], objectKey, env[Oss.AccessKeyIdVar],
                        Oss.ExpiresAt(clockMs), signature);
    Oss.SignedUrl(env[Oss.BucketVar], env[Oss.RegionVar], objectKey, env[Oss.AccessKeyIdVar],
                  Oss.ExpiresAt(clockMs), signature)
  }

  /** The real deletion: sign, send, and report what storage said. Any
      exception on the way becomes a 500 carrying its message. */
  function Remove(objectKey: string, env: map<string, string>, clockMs: nat, sign: Oss.Signer,
                  outcome: FetchOutcome): (run: DeleteRun)
    requires Oss.Credentialed(env)
    ensures run.signing == Some(Oss.SignCall(env[Oss.AccessKeySecretVar], DeleteCanonical(objectKey, env, clockMs)))
    ensures run.fetched.Some? <==> sign(run.signing.value.key, run.signing.value.data).Signed?
    ensures run.fetched.Some? ==>
      run.fetched.value == DeleteUrl(objectKey, env, clockMs, sign(run.signing.value.key, run.signing.value.data).signature)
    ensures run.response.status == 200 <==> run.fetched.Some? && outcome.Responded? && IsOkStatus(outcome.status)
    ensures run.response.status == 200 ==> run.response.body == Deleted(objectKey)
    ensures run.response.status != 200 ==> run.response.status == 500
    ensures run.fetched.Some? && outcome.Responded? && !IsOkStatus(outcome.status) ==>
      run.response.body == DeleteFailed("OSS delete failed", outcome.status, outcome.text)
    ensures run.fetched.Some? && outcome.Failed? ==> run.response.body == Error(outcome.message)
    ensures run.fetched.None? ==> run.response.body == Error(sign(run.signing.value.key, run.signing.value.data).message)
  {
    var secret := env[Oss.AccessKeySecretVar];
    var data := DeleteCanonical(objectKey, env, clockMs);
    var call := Some(Oss.SignCall(secret, data));
    match sign(secret, data)
    case SignFailed(message) => DeleteRun(Response(500, Error(message)), call, None)
    case Signed(signature) =>
      var url := DeleteUrl(objectKey, env, clockMs, signature);
      match outcome
      case Failed(message) => DeleteRun(Response(500, Error(message)), call, Some(url))
      case Responded(status, text) =>
        if IsOkStatus(status) then DeleteRun(Response(200, Deleted(objectKey)), call, Some(url))
        else DeleteRun(Response(500, DeleteFailed("OSS delete failed", status, text)), call, Some(url))
  }

  /** The delete handler. Method, JSON body, presence of `publicUrl` and the
      URL's key are checked in that order; a dry run stops there; otherwise the
      credentials are checked before anything is signed. */
  function HandleDelete(req: Request<DeleteBody>, env: map<string, string>, clockMs: nat,
                        sign: Oss.Signer, outcome: FetchOutcome): (run: DeleteRun)
    ensures req.verb != "POST" ==> run == DeleteRun(MethodNotAllowed, None, None)
    ensures req.verb == "POST" && req.body.NotJson? ==> run == DeleteRun(InvalidJson, None, None)
    ensures req.verb == "POST" && req.body.JsonNull? ==> run == DeleteRun(InternalServerError, None, None)
    ensures req.verb == "POST" && req.body.Json? && !Truthy(req.body.fields.publicUrl) ==>
      run == DeleteRun(Response(400, Error("publicUrl required")), None, None)
    ensures req.verb == "POST" && req.body.Json? && Truthy(req.body.fields.publicUrl)
            && RecoverObjectKey(req.body.fields.publicUrl.value).None? ==>
      run == DeleteRun(Response(400, Error("Invalid publicUrl")), None, None)
    ensures RequestedKey(req).Some? && IsDryRun(req.body.fields.dryRun) ==>
      run == DeleteRun(Response(200, DeleteSimulated(RequestedKey(req).value)), None, None)
    ensures RequestedKey(req).Some? && !IsDryRun(req.body.fields.dryRun) && !Oss.Credentialed(env) ==>
      run == DeleteRun(Response(500, Error("Missing OSS secrets in environment")), None, None)
    ensures run.signing.Some? <==> ReachesSigning(req, env)
    ensures run.fetched.Some? ==> run.signing.Some?
    ensures ReachesSigning(req, env) ==> run == Remove(RequestedKey(req).value, env, clockMs, sign, outcome)
  {
    if req.verb != "POST" then DeleteRun(MethodNotAllowed, None, None)
    else match req.body
      case NotJson => DeleteRun(InvalidJson, None, None)
      case JsonNull => DeleteRun(InternalServerError, None, None)
      case Json(body) =>
        if !Truthy(body.publicUrl) then DeleteRun(Response(400, Error("publicUrl required")), None, None)
        else match RecoverObjectKey(body.publicUrl.value)
          case None => DeleteRun(Response(400, Error("Invalid publicUrl")), None, None)
          case Some(objectKey) =>
            if IsDryRun(body.dryRun) then DeleteRun(Response(200, DeleteSimulated(objectKey)), None, None)
            else if !Oss.Credentialed(env)
            then DeleteRun(Response(500, Error("Missing OSS secrets in environment")), None, None)
            else Remove(objectKey, env, clockMs, sign, outcome)
  }

  /** Client errors are 4xx and never reach the signer or storage; a 200 is
      either a dry run that touched nothing or a DELETE storage accepted. */
  lemma ErrorTaxonomy(req: Request<DeleteBody>, env: map<string, string>, clockMs: nat,
                      sign: Oss.Signer, outcome: FetchOutcome)
    ensures var run := HandleDelete(req, env, clockMs, sign, outcome);
      && (400 <= run.response.status < 500 ==> run.signing.None? && run.fetched.None?)
      && (run.response.status == 200 ==>
            || (run.response.body.DeleteSimulated? && run.signing.None? && run.fetched.None?)
            || (run.fetched.Some? && outcome.Responded? && IsOkStatus(outcome.status)))
      && (run.response.status in {200, 400, 405, 500})
  {
  }

  /** Until the real-delete path, the answer depends on the request alone: not
      on the environment, the clock, the signer or storage. */
  lemma EarlyAnswersIgnoreServer(req: Request<DeleteBody>,
                                 env1: map<string, string>, clock1: nat, sign1: Oss.Signer, outcome1: FetchOutcome,
                                 env2: map<string, string>, clock2: nat, sign2: Oss.Signer, outcome2: FetchOutcome)
    requires RequestedKey(req).None? || IsDryRun(req.body.fields.dryRun)
    ensures HandleDelete(req, env1, clock1, sign1, outcome1) == HandleDelete(req, env2, clock2, sign2, outcome2)
  {
  }

  /** Only the JSON literal `true` selects a dry run: the string "true", the
      number 1, `false`, `null` or an absent field all take the real path. */
  lemma OnlyTrueIsDryRun(req: Request<DeleteBody>, env: map<string, string>, clockMs: nat,
                         sign: Oss.Signer, outcome: FetchOutcome)
    requires RequestedKey(req).Some?
    ensures HandleDelete(req, env, clockMs, sign, outcome).response.body.DeleteSimulated?
        <==> req.body.fields.dryRun == Some(Bool(true))
  {
  }

  /** Each of the four variables is required on the real path: when any one
      is unset or empty, the answer is the 500 about missing secrets. */
  lemma EachCredentialRequired(req: Request<DeleteBody>, env: map<string, string>, clockMs: nat,
                               sign: Oss.Signer, outcome: FetchOutcome, name: string)
    requires RequestedKey(req).Some? && !IsDryRun(req.body.fields.dryRun)
    requires name == Oss.BucketVar || name == Oss.RegionVar || name == Oss.AccessKeyIdVar
             || name == Oss.AccessKeySecretVar
    requires name !in env || env[name] == ""
    ensures HandleDelete(req, env, clockMs, sign, outcome)
         == DeleteRun(Response(500, Error("Missing OSS secrets in environment")), None, None)
  {
    assert !Oss.Credentialed(env);
  }

  /** The signed DELETE names the bucket and the key exactly, expires more than
      59 and at most 60 seconds after the clock reading, and its URL carries the access key id,
      the expiry and the signature the signer returned. */
  lemma DeleteSignatureConsistent(objectKey: string, env: map<string, string>, clockMs: nat,
                                  sign: Oss.Signer, outcome: FetchOutcome)
    requires Oss.Credentialed(env)
    requires '&' !in env[Oss.AccessKeyIdVar]
    ensures var run := Remove(objectKey, env, clockMs, sign, outcome);
      var expires := Oss.ExpiresAt(clockMs);
      var publicUrl := Oss.PublicUrl(env[Oss.BucketVar], env[Oss.RegionVar], objectKey);
      && Oss.ParseCanonical(run.signing.value.data)
         == Some(Oss.SigningRequest(Oss.DELETE, "", expires, "/" + env[Oss.BucketVar] + "/" + objectKey))
      && (run.fetched.Some? ==>
            && StripPrefix(publicUrl, "https://" + Oss.Host(env[Oss.BucketVar], env[Oss.RegionVar]) + "/")
               == Some(objectKey)
            && IsPrefix(publicUrl, run.fetched.value)
            && Oss.ParseSignedQuery(run.fetched.value[|publicUrl|..])
               == Some((env[Oss.AccessKeyIdVar], expires,
                        sign(run.signing.value.key, run.signing.value.data).signature)))
  {
    var run := Remove(objectKey, env, clockMs, sign, outcome);
    var expires := Oss.ExpiresAt(clockMs);
    Oss.CanonicalStringRoundTrip(Oss.SigningRequest(Oss.DELETE, "", expires,
                                                    Oss.Resource(env[Oss.BucketVar], objectKey)));
    if run.fetched.Some? {
      Oss.SignedQueryRoundTrip(env[Oss.AccessKeyIdVar], expires,
                               sign(run.signing.value.key, run.signing.value.data).signature);
    }
  }

  /** A real delete of a public URL the handler reads back as its key signs
      "/{bucket}/{key}" and is sent to a URL that extends the public URL. */
  lemma RealDeleteOfPublicUrl(objectKey: string, env: map<string, string>, clockMs: nat,
                              sign: Oss.Signer, outcome: FetchOutcome)
    requires Oss.Credentialed(env)
    requires RecoverObjectKey(Oss.PublicUrl(env[Oss.BucketVar], env[Oss.RegionVar], objectKey)) == Some(objectKey)
    ensures var publicUrl := Oss.PublicUrl(env[Oss.BucketVar], env[Oss.RegionVar], objectKey);
      var run := HandleDelete(Request("POST", Json(DeleteBody(Some(publicUrl), None))), env, clockMs, sign, outcome);
      && run.signing.Some?
      && Oss.ParseCanonical(run.signing.value.data)
         == Some(Oss.SigningRequest(Oss.DELETE, "", Oss.ExpiresAt(clockMs), "/" + env[Oss.BucketVar] + "/" + objectKey))
      && (run.fetched.Some? ==> IsPrefix(publicUrl, run.fetched.value))
  {
    var bucket := env[Oss.BucketVar];
    var region := env[Oss.RegionVar];
    var publicUrl := Oss.PublicUrl(bucket, region, objectKey);
    var req := Request("POST", Json(DeleteBody(Some(publicUrl), None)));
    assert RequestedKey(req) == Some(objectKey);
    var run := HandleDelete(req, env, clockMs, sign, outcome);
    assert run == Remove(objectKey, env, clockMs, sign, outcome);
    var signed := Oss.SigningRequest(Oss.DELETE, "", Oss.ExpiresAt(clockMs), Oss.Resource(bucket, objectKey));
    Oss.CanonicalStringRoundTrip(signed);
  }

  // ---------------------------------------------------------------------------
  // Recovering keys from public URLs

  /** The public URL of a key that needs no percent-encoding gives the key
      back. */
  lemma RecoverPublicUrl(bucket: string, region: string, objectKey: string)
    requires Url.IsHostName(Oss.Host(bucket, region))
    requires Url.IsPlainKey(objectKey)
    ensures RecoverObjectKey(Oss.PublicUrl(bucket, region, objectKey)) == Some(objectKey)
  {
    Url.PathnameOfPlainUrl(Oss.Host(bucket, region), objectKey);
    assert StripLeadingSlash("/" + objectKey) == objectKey;
  }

  /** Percent-decoding undoes `encodeURIComponent`: a URL whose path is an
      encoded key names that key, for every key but "." and ".." (whose
      encodings are dot segments that URL parsing resolves away). */
  lemma RecoverEncodedKey(host: string, objectKey: string)
    requires Url.IsHostName(host)
    requires objectKey != "." && objectKey != ".."
    ensures RecoverObjectKey("https://" + host + "/" + Uri.EncodeUriComponent(objectKey)) == Some(objectKey)
  {
    var encoded := Uri.EncodeUriComponent(objectKey);
    Url.EncodedPathKey(objectKey);
    Url.PathnameOfPlainUrl(host, encoded);
    StripLeadingSlashOnce(encoded);
    Uri.DecodeEncodeRoundTrip(objectKey);
  }

  /** A public URL whose path holds a '%' that does not start a "%XX" escape
      is refused with 400, dry run or not, before anything is signed: the
      decoding throws inside the handler's try. */
  lemma BadEscapeRejected(host: string, path: string, i: nat, dryRun: Option<JsonValue>,
                          env: map<string, string>, clockMs: nat, sign: Oss.Signer, outcome: FetchOutcome)
    requires Url.IsHostName(host)
    requires Url.IsPathKey(path)
    requires Uri.BadEscapeAt(path, i)
    ensures HandleDelete(Request("POST", Json(DeleteBody(Some("https://" + host + "/" + path), dryRun))),
                         env, clockMs, sign, outcome)
         == DeleteRun(Response(400, Error("Invalid publicUrl")), None, None)
  {
    Url.PathnameOfPlainUrl(host, path);
    StripLeadingSlashOnce(path);
    Uri.BadEscapeFails(path, i);
  }

  /** A key holding a percent escape does not come back: the public URL leaves
      "%20" as it is, and the handler decodes it to a space. */
  lemma PercentKeyDoesNotRoundTrip()
    ensures RecoverObjectKey(Oss.PublicUrl("b", "r", "a%20b")) == Some("a b")
  {
    PublicHostIsHostName("b", "r");
    PercentKeyIsPathKey();
    Url.PathnameOfPlainUrl(Oss.Host("b", "r"), "a%20b");
    assert StripLeadingSlash("/" + "a%20b") == "a%20b";
    DecodePercentKey();
  }

  lemma PercentKeyIsPathKey()
    ensures Url.IsPathKey("a%20b")
  {
    Url.PathSegment("a%20b");
  }

  lemma DecodePercentKey()
    ensures Uri.DecodeUriComponent("a%20b") == Some("a b")
  {
    assert "a%20b"[1..] == "%20" + "b";
    DecodeSpaceEscape("b");
    assert ['a'] + (" " + "b") == "a b";
  }

  /** "%20" decodes to a space. */
  lemma DecodeSpaceEscape(rest: string)
    requires '%' !in rest
    ensures Uri.DecodeUriComponent("%20" + rest) == Some(" " + rest)
  {
    var s := "%20" + rest;
    assert Uri.EscapeByte(32) == "%20";
    Uri.EscapedByteOfEscape(32, rest);
    assert s[3..] == rest;
  }

  /** The domain split at its last '.'. */
  lemma DomainParts()
    ensures Oss.Domain == ".aliyuncs" + ['.'] + "com"
  {
    var parts := ".aliyuncs" + ['.'] + "com";
    assert |parts| == 13;
    assert forall i | 0 <= i < 13 :: parts[i] == Oss.Domain[i];
  }

  /** Two labels in front of the domain make a host the URL parser keeps as
      it is. */
  lemma PublicHostIsHostName(bucket: string, region: string)
    requires Url.IsLabel(bucket) && Url.IsLabel(region)
    ensures Url.IsHostName(Oss.Host(bucket, region))
  {
    var host := Oss.Host(bucket, region);
    var head := bucket + "." + region + ".aliyuncs";
    assert host == head + ['.'] + "com" by { DomainParts(); }
    LastIndexOfJoin(head, '.', "com");
    assert Url.LastLabel(host) == "com";
    HostChars(bucket, region);
    HostHasNoDoubleHyphen(bucket, region);
  }

  lemma HostChars(bucket: string, region: string)
    requires Url.IsLabel(bucket) && Url.IsLabel(region)
    ensures var host := Oss.Host(bucket, region);
      forall i :: 0 <= i < |host| ==> Url.IsHostChar(host[i])
  {
    var host := Oss.Host(bucket, region);
    var nb := |bucket|;
    var nr := |region|;
    forall i | 0 <= i < |host| ensures Url.IsHostChar(host[i]) {
      if i < nb {
        assert host[i] == bucket[i];
      } else if nb < i < nb + 1 + nr {
        assert host[i] == region[i - nb - 1];
      } else if nb + 1 + nr <= i {
        assert host[i] == Oss.Domain[i - nb - 1 - nr];
      }
    }
  }

  lemma HostHasNoDoubleHyphen(bucket: string, region: string)
    requires Url.IsLabel(bucket) && Url.IsLabel(region)
    ensures !Contains(Oss.Host(bucket, region), "--")
  {
    var host := Oss.Host(bucket, region);
    var nb := |bucket|;
    var nr := |region|;
    assert '-' !in Oss.Domain;
    forall j: nat ensures !OccursAt(host, "--", j) {
      if j + 2 <= |host| {
        if j + 1 < nb {
          assert !OccursAt(bucket, "--", j);
          assert host[j..j + 2] == bucket[j..j + 2];
        } else if j + 1 == nb {
          assert host[j + 1] == '.';
        } else if j == nb {
          assert host[j] == '.';
        } else if j + 1 < nb + 1 + nr {
          assert !OccursAt(region, "--", j - nb - 1);
          assert host[j..j + 2] == region[j - nb - 1..j - nb + 1];
        } else if j + 1 == nb + 1 + nr {
          assert host[j + 1] == Oss.Domain[0];
        } else {
          assert host[j] == Oss.Domain[j - nb - 1 - nr];
        }
        assert host[j..j + 2][0] == host[j] && host[j..j + 2][1] == host[j + 1];
      }
    }
  }

  /** A URL without a path, or with just "/", names the empty key, so a real
      delete of it signs the bucket's own resource "/{bucket}/". */
  lemma RootUrlNamesEmptyKey(host: string)
    requires Url.IsHostName(host)
    ensures RecoverObjectKey("https://" + host) == Some("")
    ensures RecoverObjectKey("https://" + host + "/") == Some("")
  {
    Url.PathnameOfPlainUrl(host, "");
    assert "https://" + host + "/" + "" == "https://" + host + "/";
    RootPathname(host);
  }

  lemma RootPathname(host: string)
    requires Url.IsHostName(host)
    ensures Url.Pathname("https://" + host) == Some("/")
  {
    Url.AfterHttps(host);
    assert Url.SpanUntil(host, "/?#") == |host| by {
      assert forall i :: 0 <= i < |host| ==> Url.IsHostChar(host[i]);
    }
    assert host[..|host|] == host;
    assert host[|host|..] == [];
  }

  // ---------------------------------------------------------------------------
  // Scenarios

  /** The key "snowfish/1/files/123.jpg", written as its segments. */
  const SampleKey := "snowfish" + ['/'] + ("1" + ['/'] + ("files" + ['/'] + "123.jpg"))

  /** "https://b.r.aliyuncs.com/snowfish/1/files/123.jpg": the sample key's
      public URL in bucket "b" of region "r". */
  const SampleUrl := Oss.PublicUrl("b", "r", SampleKey)

  lemma SnowfishIsPlain() ensures Url.IsPlainKey("snowfish") { Url.PlainWord("snowfish"); }
  lemma OneIsPlain() ensures Url.IsPlainKey("1") { Url.PlainWord("1"); }
  lemma FilesIsPlain() ensures Url.IsPlainKey("files") { Url.PlainWord("files"); }
  lemma JpgIsPlain() ensures Url.IsPlainKey("123.jpg") { Url.PlainWord("123.jpg"); }

  lemma SampleKeyIsPlain()
    ensures Url.IsPlainKey(SampleKey)
  {
    SampleTailIsPlain();
    SnowfishIsPlain();
    Url.PlainKeyOfJoin("snowfish", "1" + ['/'] + ("files" + ['/'] + "123.jpg"));
  }

  lemma SampleTailIsPlain()
    ensures Url.IsPlainKey("1" + ['/'] + ("files" + ['/'] + "123.jpg"))
  {
    SampleFileIsPlain();
    OneIsPlain();
    Url.PlainKeyOfJoin("1", "files" + ['/'] + "123.jpg");
  }

  lemma SampleFileIsPlain()
    ensures Url.IsPlainKey("files" + ['/'] + "123.jpg")
  {
    FilesIsPlain();
    JpgIsPlain();
    Url.PlainKeyOfJoin("files", "123.jpg");
  }

  lemma SampleUrlNamesSampleKey()
    ensures RecoverObjectKey(SampleUrl) == Some(SampleKey)
  {
    PublicHostIsHostName("b", "r");
    SampleKeyIsPlain();
    RecoverPublicUrl("b", "r", SampleKey);
  }

  /** A dry run on a URL the handler can read reports the key it names. */
  lemma DryRunReportsKey(publicUrl: string, objectKey: string, env: map<string, string>, clockMs: nat,
                         sign: Oss.Signer, outcome: FetchOutcome)
    requires RecoverObjectKey(publicUrl) == Some(objectKey)
    ensures HandleDelete(Request("POST", Json(DeleteBody(Some(publicUrl), Some(Bool(true))))), env, clockMs, sign, outcome)
         == DeleteRun(Response(200, DeleteSimulated(objectKey)), None, None)
  {
  }

  /** A dry run on "https://b.r.aliyuncs.com/snowfish/1/files/123.jpg" reports
      the key "snowfish/1/files/123.jpg" and touches nothing. */
  lemma DryRunScenario(env: map<string, string>, clockMs: nat, sign: Oss.Signer, outcome: FetchOutcome)
    ensures var body := DeleteBody(Some(SampleUrl), Some(Bool(true)));
      HandleDelete(Request("POST", Json(body)), env, clockMs, sign, outcome)
      == DeleteRun(Response(200, DeleteSimulated(SampleKey)), None, None)
  {
    SampleUrlNamesSampleKey();
  }

  /** Without OSS_ACCESS_KEY_SECRET, a real delete of a valid URL is refused
      with 500 before anything is signed or sent. */
  lemma MissingSecretScenario(env: map<string, string>, clockMs: nat, sign: Oss.Signer, outcome: FetchOutcome)
    requires Oss.AccessKeySecretVar !in env
    ensures var body := DeleteBody(Some(SampleUrl), None);
      HandleDelete(Request("POST", Json(body)), env, clockMs, sign, outcome)
      == DeleteRun(Response(500, Error("Missing OSS secrets in environment")), None, None)
  {
    SampleUrlNamesSampleKey();
  }
}
