/** The upload edge function: validates the request, repairs a bucket or region
    configured with the storage domain appended, derives the object key, and
    answers with a signed PUT URL together with the object's public URL. */
module Upload {
  import opened Prelude
  import opened Strings
  import Decimal
  import Oss
  import opened Http

  /** The body fields the handler destructures; an absent or `null` field is
      `None`, except the content type, which is kept as JSON because the
      canonical string renders `null` differently from an absent value. */
  datatype UploadBody = UploadBody(
    filename: Option<string>,
    contentType: Option<JsonValue>,
    ownerType: Option<string>,
    ownerId: Option<string>)

  /** What one invocation did: the response, and the signer call if it signed. */
  datatype UploadRun = UploadRun(response: Response, signing: Option<Oss.SignCall>)

  // ---------------------------------------------------------------------------
  // Configuration repair

  /** Removes the first ".aliyuncs.com" from a region that contains it, then
      trims white space; any other region is kept as it is. */
  function SanitizeRegion(region: string): (r: string)
    ensures !Contains(region, Oss.Domain) ==> r == region
    ensures Contains(region, Oss.Domain) ==>
      exists i: nat :: FirstOccurrence(region, Oss.Domain, i)
                    && r == Trim(region[..i] + region[i + |Oss.Domain|..])
    ensures Contains(region, Oss.Domain) ==> |r| <= |region| - |Oss.Domain|
  {
    if Contains(region, Oss.Domain) then
      RemoveFirstDomain(region);
      Trim(ReplaceFirst(region, Oss.Domain, ""))
    else region
  }

  lemma RemoveFirstDomain(region: string)
    requires Contains(region, Oss.Domain)
    ensures exists i: nat :: (FirstOccurrence(region, Oss.Domain, i)
      && Trim(ReplaceFirst(region, Oss.Domain, "")) == Trim(region[..i] + region[i + |Oss.Domain|..]))
  {
    var i := IndexOf(region, Oss.Domain).value;
    assert FirstOccurrence(region, Oss.Domain, i);
    assert ReplaceFirst(region, Oss.Domain, "") == region[..i] + "" + region[i + |Oss.Domain|..];
    assert region[..i] + "" + region[i + |Oss.Domain|..] == region[..i] + region[i + |Oss.Domain|..];
  }

  /** Cuts a bucket that contains ".aliyuncs.com" at its first '.'; any other
      bucket is kept as it is. */
  function SanitizeBucket(bucket: string): (r: string)
    ensures !Contains(bucket, Oss.Domain) ==> r == bucket
    ensures Contains(bucket, Oss.Domain) ==>
      '.' !in r && |r| < |bucket| && r == bucket[..|r|] && bucket[|r|] == '.'
  {
    if Contains(bucket, Oss.Domain) then
      assert bucket[IndexOf(bucket, Oss.Domain).value] == '.' by {
        var i := IndexOf(bucket, Oss.Domain).value;
        assert bucket[i..i + |Oss.Domain|][0] == bucket[i];
      }
      BeforeFirst(bucket, '.')
    else bucket
  }

  /** Trimming leaves a text without surrounding white space unchanged. */
  lemma TrimOfTrimmed(s: string)
    requires s == [] || (!IsWhiteSpace(s[0]) && !IsWhiteSpace(s[|s| - 1]))
    ensures Trim(s) == s
  {
  }

  /** A region configured as a name followed by the storage domain is repaired
      to the name, when the name does not itself contain the domain and has no
      surrounding white space. */
  lemma SanitizeRegionStripsDomain(name: string)
    requires !Contains(name, Oss.Domain)
    requires name == [] || (!IsWhiteSpace(name[0]) && !IsWhiteSpace(name[|name| - 1]))
    ensures SanitizeRegion(name + Oss.Domain) == name
  {
    var s := name + Oss.Domain;
    Oss.DomainFirstAtJoin(name, "");
    assert s == name + Oss.Domain + "";
    assert Contains(s, Oss.Domain);
    assert IndexOf(s, Oss.Domain) == Some(|name|) by {
      var k := IndexOf(s, Oss.Domain).value;
      assert FirstOccurrence(s, Oss.Domain, k);
    }
    assert s[..|name|] + "" + s[|name| + |Oss.Domain|..] == name;
    TrimOfTrimmed(name);
  }

  /** The first occurrence of a pattern in a text stays the first one when more
      text is appended. */
  lemma FirstOccurrenceExtends(a: string, b: string, p: string, i: nat)
    requires FirstOccurrence(a, p, i)
    ensures FirstOccurrence(a + b, p, i)
  {
    assert (a + b)[i..i + |p|] == a[i..i + |p|];
    forall j: nat | j < i ensures !OccursAt(a + b, p, j) {
      assert !OccursAt(a, p, j);
      assert (a + b)[j..j + |p|] == a[j..j + |p|];
    }
  }

  /** Region repair is not idempotent: a region with the domain written twice
      keeps one copy, which a second repair would remove. */
  lemma SanitizeRegionNotIdempotent()
    ensures var once := SanitizeRegion("x" + Oss.Domain + Oss.Domain);
      once == "x" + Oss.Domain && SanitizeRegion(once) == "x" && once != "x"
  {
    var one := "x" + Oss.Domain;
    assert !Contains("x", Oss.Domain);
    Oss.DomainFirstAtJoin("x", "");
    assert one == "x" + Oss.Domain + "";
    FirstOccurrenceExtends(one, Oss.Domain, Oss.Domain, 1);
    var s := one + Oss.Domain;
    assert IndexOf(s, Oss.Domain) == Some(1) by {
      var k := IndexOf(s, Oss.Domain).value;
      assert FirstOccurrence(s, Oss.Domain, k);
    }
    assert s[..1] + "" + s[1 + |Oss.Domain|..] == one;
    TrimOfTrimmed(one);
    SanitizeRegionStripsDomain("x");
  }

  /** Bucket repair is idempotent. */
  lemma SanitizeBucketIdempotent(bucket: string)
    ensures SanitizeBucket(SanitizeBucket(bucket)) == SanitizeBucket(bucket)
  {
    if Contains(bucket, Oss.Domain) {
      Oss.NoDotNoDomain(SanitizeBucket(bucket));
    }
  }

  /** Region repair is idempotent on a region configured with the domain
      appended once: the repaired name is repaired to itself. */
  lemma SanitizeRegionIdempotentOnce(name: string)
    requires !Contains(name, Oss.Domain)
    requires name == [] || (!IsWhiteSpace(name[0]) && !IsWhiteSpace(name[|name| - 1]))
    ensures SanitizeRegion(SanitizeRegion(name + Oss.Domain)) == SanitizeRegion(name + Oss.Domain)
  {
    SanitizeRegionStripsDomain(name);
  }

  // ---------------------------------------------------------------------------
  // Object key derivation

  /** The folders an object key can name. */
  const Folders: set<string> := {"files", "avatar", "cover", "videos"}

  /** The folder for an owner type, matched case-insensitively; a missing or
      empty owner type, or any unlisted one, means "files". */
  function FolderFor(ownerType: Option<string>): (folder: string)
    ensures folder in Folders
    ensures folder == "avatar" <==>
      Truthy(ownerType) && ToLower(ownerType.value) in {"avatar", "user_profiles"}
    ensures folder == "cover" <==> Truthy(ownerType) && ToLower(ownerType.value) == "cover"
    ensures folder == "videos" <==>
      Truthy(ownerType) && ToLower(ownerType.value) in {"video", "videos"}
  {
    var folderType := if Truthy(ownerType) then ToLower(ownerType.value) else "files";
    if folderType == "avatar" || folderType == "user_profiles" then "avatar"
    else if folderType == "cover" then "cover"
    else if folderType == "video" || folderType == "videos" then "videos"
    else "files"
  }

  /** The extension a content type implies when the filename has none. */
  function ContentTypeExtension(contentType: Option<JsonValue>): (ext: string)
    ensures ext in {"", ".jpg", ".png", ".mp4"}
    ensures ext == ".jpg" <==> contentType == Some(Str("image/jpeg"))
    ensures ext == ".png" <==> contentType == Some(Str("image/png"))
    ensures ext == ".mp4" <==> contentType == Some(Str("video/mp4"))
  {
    if contentType == Some(Str("image/jpeg")) then ".jpg"
    else if contentType == Some(Str("image/png")) then ".png"
    else if contentType == Some(Str("video/mp4")) then ".mp4"
    else ""
  }

  /** The object's extension: the filename from its last '.', else the one its
      content type implies, else nothing. */
  function Extension(filename: string, contentType: Option<JsonValue>): (ext: string)
    ensures ext == [] || ext[0] == '.'
    ensures '.' in filename ==>
      0 < |ext| <= |filename| && ext == filename[|filename| - |ext|..] && '.' !in ext[1..]
    ensures '.' !in filename ==> ext == ContentTypeExtension(contentType)
  {
    match LastIndexOf(filename, '.')
    case Some(pos) =>
      assert '.' !in filename[pos..][1..] by {
        assert forall k :: 0 <= k < |filename[pos..][1..]| ==> filename[pos..][1..][k] == filename[pos + 1 + k];
      }
      filename[pos..]
    case None => ContentTypeExtension(contentType)
  }

  /** A filename's own extension is found again whatever precedes it and
      whatever the content type says. */
  lemma ExtensionOfSuffix(stem: string, ext: string, contentType: Option<JsonValue>)
    requires |ext| > 0 && ext[0] == '.' && '.' !in ext[1..]
    ensures Extension(stem + ext, contentType) == ext
  {
    var filename := stem + ext;
    assert filename[|stem|] == '.';
  }

  /** The key template "snowfish/{ownerId}/{folder}/{timestamp}{ext}". */
  function ObjectKey(ownerId: string, folder: string, timestampMs: nat, ext: string): (key: string)
    ensures StripPrefix(key, "snowfish/" + ownerId + "/" + folder + "/")
         == Some(Decimal.NatToDecimal(timestampMs) + ext)
  {
    var prefix := "snowfish/" + ownerId + "/" + folder + "/";
    StripPrefixOfJoin(prefix, Decimal.NatToDecimal(timestampMs) + ext);
    assert prefix + Decimal.NatToDecimal(timestampMs) + ext == prefix + (Decimal.NatToDecimal(timestampMs) + ext);
    prefix + Decimal.NatToDecimal(timestampMs) + ext
  }

  /** The parts an object key is made of. */
  datatype KeyParts = KeyParts(ownerId: string, folder: string, timestampMs: nat, ext: string)

  /** The length of the run of digits at the start of `s`. */
  function DigitRun(s: string): (n: nat)
    ensures n <= |s|
    ensures Decimal.AllDigits(s[..n])
    ensures n < |s| ==> !Decimal.IsDigit(s[n])
  {
    if |s| == 0 || !Decimal.IsDigit(s[0]) then 0
    else
      var n := 1 + DigitRun(s[1..]);
      assert forall k :: 1 <= k < n ==> s[..n][k] == s[1..][..n - 1][k - 1];
      n
  }

  /** Reads owner id, folder, timestamp and extension back from a key. */
  function ParseObjectKey(key: string): Option<KeyParts>
  {
    match StripPrefix(key, "snowfish/")
    case None => None
    case Some(r1) =>
      match SplitAtFirst(r1, '/')
      case None => None
      case Some((ownerId, r2)) =>
        match SplitAtFirst(r2, '/')
        case None => None
        case Some((folder, r3)) =>
          match ParseTimestamp(r3)
          case None => None
          case Some((timestampMs, ext)) => Some(KeyParts(ownerId, folder, timestampMs, ext))
  }

  /** Reads a canonical decimal timestamp off the front of `s`, and what follows it. */
  function ParseTimestamp(s: string): Option<(nat, string)>
  {
    var digits := s[..DigitRun(s)];
    if Decimal.Canonical(digits) then Some((Decimal.DecimalValue(digits), s[|digits|..])) else None
  }

  lemma {:induction false} DigitRunOfJoin(digits: string, ext: string)
    requires Decimal.AllDigits(digits)
    requires ext == [] || !Decimal.IsDigit(ext[0])
    ensures DigitRun(digits + ext) == |digits|
    decreases |digits|
  {
    if |digits| > 0 {
      assert (digits + ext)[1..] == digits[1..] + ext;
      DigitRunOfJoin(digits[1..], ext);
    } else {
      assert digits + ext == ext;
    }
  }

  /** Timestamp and extension are read back from their concatenation. */
  lemma TimestampOfJoin(timestampMs: nat, ext: string)
    requires ext == [] || ext[0] == '.'
    ensures ParseTimestamp(Decimal.NatToDecimal(timestampMs) + ext) == Some((timestampMs, ext))
  {
    var d := Decimal.NatToDecimal(timestampMs);
    DigitRunOfJoin(d, ext);
    assert (d + ext)[..|d|] == d;
    assert (d + ext)[|d|..] == ext;
    Decimal.DecimalRoundTrip(timestampMs);
  }

  /** Every key the template builds matches "snowfish/{ownerId}/{folder}/{digits}{ext}"
      and gives back its parts, when the owner id holds no '/'. */
  lemma ObjectKeyRoundTrip(ownerId: string, folder: string, timestampMs: nat, ext: string)
    requires '/' !in ownerId
    requires folder in Folders
    requires ext == [] || ext[0] == '.'
    ensures ParseObjectKey(ObjectKey(ownerId, folder, timestampMs, ext))
         == Some(KeyParts(ownerId, folder, timestampMs, ext))
  {
    var tail := Decimal.NatToDecimal(timestampMs) + ext;
    KeyAfterRoot(ownerId, folder, timestampMs, ext);
    OwnerAndFolderOfJoin(ownerId, folder, tail);
    TimestampOfJoin(timestampMs, ext);
  }

  /** What follows "snowfish/" in a key is the owner id, the folder and the tail. */
  lemma KeyAfterRoot(ownerId: string, folder: string, timestampMs: nat, ext: string)
    ensures StripPrefix(ObjectKey(ownerId, folder, timestampMs, ext), "snowfish/")
         == Some(ownerId + ['/'] + (folder + ['/'] + (Decimal.NatToDecimal(timestampMs) + ext)))
  {
    var r1 := ownerId + ['/'] + (folder + ['/'] + (Decimal.NatToDecimal(timestampMs) + ext));
    assert ObjectKey(ownerId, folder, timestampMs, ext) == "snowfish/" + r1;
    StripPrefixOfJoin("snowfish/", r1);
  }

  /** The owner id and the folder are split off at the first two '/'. */
  lemma OwnerAndFolderOfJoin(ownerId: string, folder: string, tail: string)
    requires '/' !in ownerId
    requires folder in Folders
    ensures SplitAtFirst(ownerId + ['/'] + (folder + ['/'] + tail), '/') == Some((ownerId, folder + ['/'] + tail))
    ensures SplitAtFirst(folder + ['/'] + tail, '/') == Some((folder, tail))
  {
    SplitAtFirstOfJoin(ownerId, '/', folder + ['/'] + tail);
    FolderHasNoSlash(folder);
    SplitAtFirstOfJoin(folder, '/', tail);
  }

  lemma FolderHasNoSlash(folder: string)
    requires folder in Folders
    ensures '/' !in folder
  {
  }

  // ---------------------------------------------------------------------------
  // The handler

  /** A request the handler goes on to sign: a POST with a JSON body holding a
      filename and an owner id. */
  predicate Accepted(req: Request<UploadBody>)
  {
    req.verb == "POST" && req.body.Json? && Truthy(req.body.fields.filename) && Truthy(req.body.fields.ownerId)
  }

  /** The object key an accepted body gets at the given timestamp. */
  function UploadKey(body: UploadBody, timestampMs: nat): (key: string)
    requires Truthy(body.filename) && Truthy(body.ownerId)
  {
    ObjectKey(body.ownerId.value, FolderFor(body.ownerType), timestampMs,
              Extension(body.filename.value, body.contentType))
  }

  /** The bucket the upload handler builds URLs with: repaired when set,
      "undefined" when not. */
  function UploadBucket(env: map<string, string>): (bucket: string)
    ensures Oss.BucketVar !in env ==> bucket == "undefined"
    ensures Oss.BucketVar in env && !Contains(env[Oss.BucketVar], Oss.Domain) ==> bucket == env[Oss.BucketVar]
    ensures Oss.BucketVar in env && Contains(env[Oss.BucketVar], Oss.Domain) ==>
      '.' !in bucket && IsPrefix(bucket + ".", env[Oss.BucketVar])
  {
    match Oss.EnvGet(env, Oss.BucketVar)
    case None => "undefined"
    case Some(configured) =>
      var bucket := SanitizeBucket(configured);
      assert Contains(configured, Oss.Domain) ==> configured[..|bucket| + 1] == bucket + ".";
      bucket
  }

  /** The region the upload handler builds URLs with: repaired when set,
      "undefined" when not. */
  function UploadRegion(env: map<string, string>): (region: string)
    ensures Oss.RegionVar !in env ==> region == "undefined"
    ensures Oss.RegionVar in env && !Contains(env[Oss.RegionVar], Oss.Domain) ==> region == env[Oss.RegionVar]
    ensures Oss.RegionVar in env && Contains(env[Oss.RegionVar], Oss.Domain) ==>
      |region| <= |env[Oss.RegionVar]| - |Oss.Domain|
  {
    match Oss.EnvGet(env, Oss.RegionVar)
    case None => "undefined"
    case Some(region) => SanitizeRegion(region)
  }

  /** The key text the signer is given: an unset secret encodes as no bytes. */
  function SigningKey(secret: Option<string>): (key: string)
    ensures key == "" <==> !Truthy(secret)
    ensures Truthy(secret) ==> key == secret.value
  {
    match secret
    case None => ""
    case Some(text) => text
  }

  /** The canonical string of the PUT the upload handler signs. */
  function UploadCanonical(body: UploadBody, env: map<string, string>, timestampMs: nat, clockMs: nat): (data: string)
    requires Truthy(body.filename) && Truthy(body.ownerId)
    ensures data == "PUT\n\n" + TemplateText(body.contentType) + "\n" + Decimal.NatToDecimal(Oss.ExpiresAt(clockMs))
                    + "\n/" + UploadBucket(env) + "/" + UploadKey(body, timestampMs)
  {
    var req := Oss.SigningRequest(Oss.PUT, TemplateText(body.contentType), Oss.ExpiresAt(clockMs),
                                  Oss.Resource(UploadBucket(env), UploadKey(body, timestampMs)));
    Oss.CanonicalLayout(req, UploadBucket(env), UploadKey(body, timestampMs));
    assert Oss.VerbName(Oss.PUT) + "\n\n" == "PUT\n\n";
    Oss.CanonicalString(req)
  }

  /** The answer to an accepted request: sign the PUT, then build both URLs;
      a signer that throws is not caught, so the server answers 500. */
  function Grant(body: UploadBody, env: map<string, string>, timestampMs: nat, clockMs: nat,
                 sign: Oss.Signer): (run: UploadRun)
    requires Truthy(body.filename) && Truthy(body.ownerId)
    ensures run.signing.Some?
    ensures run.signing.value.key == SigningKey(Oss.EnvGet(env, Oss.AccessKeySecretVar))
    ensures run.signing.value.data == UploadCanonical(body, env, timestampMs, clockMs)
    ensures sign(run.signing.value.key, run.signing.value.data).Signed? <==> run.response.status == 200
    ensures run.response.status != 200 ==> run.response == InternalServerError
    ensures run.response.status == 200 ==>
      && run.response.body.UploadGranted?
      && run.response.body.objectKey == UploadKey(body, timestampMs)
      && run.response.body.expires == Oss.ExpiresAt(clockMs)
      && run.response.body.publicUrl == Oss.PublicUrl(UploadBucket(env), UploadRegion(env), run.response.body.objectKey)
      && IsPrefix(run.response.body.publicUrl, run.response.body.uploadUrl)
  {
    var key := SigningKey(Oss.EnvGet(env, Oss.AccessKeySecretVar));
    var data := UploadCanonical(body, env, timestampMs, clockMs);
    var call := Some(Oss.SignCall(key, data));
    match sign(key, data)
    case SignFailed(_) => UploadRun(InternalServerError, call)
    case Signed(signature) =>
      var objectKey := UploadKey(body, timestampMs);
      var expires := Oss.ExpiresAt(clockMs);
      var accessKeyId := Interpolate(Oss.EnvGet(env, Oss.AccessKeyIdVar));
      var uploadUrl := Oss.SignedUrl(UploadBucket(env), UploadRegion(env), objectKey, accessKeyId, expires, signature);
      var publicUrl := Oss.PublicUrl(UploadBucket(env), UploadRegion(env), objectKey);
      UploadRun(Response(200, UploadGranted(uploadUrl, publicUrl, objectKey, expires)), call)
  }

  /** The upload handler: method, JSON body, filename and owner id are checked
      in that order, and only a request passing all four is signed. */
  function HandleUpload(req: Request<UploadBody>, env: map<string, string>, timestampMs: nat,
                        clockMs: nat, sign: Oss.Signer): (run: UploadRun)
    ensures req.verb != "POST" ==> run == UploadRun(MethodNotAllowed, None)
    ensures req.verb == "POST" && req.body.NotJson? ==> run == UploadRun(InvalidJson, None)
    ensures req.verb == "POST" && req.body.JsonNull? ==> run == UploadRun(InternalServerError, None)
    ensures req.verb == "POST" && req.body.Json? && !Truthy(req.body.fields.filename) ==>
      run == UploadRun(Response(400, Error("filename required")), None)
    ensures req.verb == "POST" && req.body.Json? && Truthy(req.body.fields.filename)
            && !Truthy(req.body.fields.ownerId) ==>
      run == UploadRun(Response(400, Error("owner_id required")), None)
    ensures run.signing.Some? <==> Accepted(req)
    ensures run.response.status == 200 ==> Accepted(req) && run.response.body.UploadGranted?
    ensures 400 <= run.response.status < 500 ==> run.signing.None?
    ensures Accepted(req) ==> run == Grant(req.body.fields, env, timestampMs, clockMs, sign)
  {
    if req.verb != "POST" then UploadRun(MethodNotAllowed, None)
    else match req.body
      case NotJson => UploadRun(InvalidJson, None)
      case JsonNull => UploadRun(InternalServerError, None)
      case Json(body) =>
        if !Truthy(body.filename) then UploadRun(Response(400, Error("filename required")), None)
        else if !Truthy(body.ownerId) then UploadRun(Response(400, Error("owner_id required")), None)
        else Grant(body, env, timestampMs, clockMs, sign)
  }

  /** In an upload grant the object key, the expiry and the signature agree
      across the two URLs: the key is the public URL's path, and the upload URL
      is the public URL followed by a query that carries the access key id, the
      response's expiry and what the signer returned. Only an access key id
      holding '&' would make the query ambiguous. */
  lemma GrantUrlsConsistent(body: UploadBody, env: map<string, string>, timestampMs: nat, clockMs: nat,
                            sign: Oss.Signer)
    requires Truthy(body.filename) && Truthy(body.ownerId)
    requires '&' !in Interpolate(Oss.EnvGet(env, Oss.AccessKeyIdVar))
    requires Grant(body, env, timestampMs, clockMs, sign).response.status == 200
    ensures var run := Grant(body, env, timestampMs, clockMs, sign);
      var g := run.response.body;
      && StripPrefix(g.publicUrl, "https://" + Oss.Host(UploadBucket(env), UploadRegion(env)) + "/")
         == Some(g.objectKey)
      && |g.publicUrl| < |g.uploadUrl|
      && g.uploadUrl[..|g.publicUrl|] == g.publicUrl
      && Oss.ParseSignedQuery(g.uploadUrl[|g.publicUrl|..])
         == Some((Interpolate(Oss.EnvGet(env, Oss.AccessKeyIdVar)), g.expires,
                  sign(run.signing.value.key, run.signing.value.data).signature))
  {
    var run := Grant(body, env, timestampMs, clockMs, sign);
    var g := run.response.body;
    Oss.SignedQueryRoundTrip(Interpolate(Oss.EnvGet(env, Oss.AccessKeyIdVar)), g.expires,
                             sign(run.signing.value.key, run.signing.value.data).signature);
  }

  /** In an upload grant the signed text names the PUT, the content type as
      rendered, the response's expiry and the resource "/{bucket}/{key}" of the
      granted key, whenever the rendered content type holds no newline (a
      content type with one makes the canonical string ambiguous). */
  lemma GrantSignsRequest(body: UploadBody, env: map<string, string>, timestampMs: nat, clockMs: nat,
                          sign: Oss.Signer)
    requires Truthy(body.filename) && Truthy(body.ownerId)
    requires '\n' !in TemplateText(body.contentType)
    requires Grant(body, env, timestampMs, clockMs, sign).response.status == 200
    ensures var run := Grant(body, env, timestampMs, clockMs, sign);
      var g := run.response.body;
      Oss.ParseCanonical(run.signing.value.data)
      == Some(Oss.SigningRequest(Oss.PUT, TemplateText(body.contentType), g.expires,
                                 "/" + UploadBucket(env) + "/" + g.objectKey))
  {
    var run := Grant(body, env, timestampMs, clockMs, sign);
    var g := run.response.body;
    Oss.CanonicalStringRoundTrip(Oss.SigningRequest(Oss.PUT, TemplateText(body.contentType), g.expires,
                                                    Oss.Resource(UploadBucket(env), g.objectKey)));
  }

  /** Every granted object key has the shape "snowfish/{ownerId}/{folder}/{digits}{ext}"
      with the request's owner id, a folder from the closed set, the timestamp,
      and an extension that is empty or starts with '.'. */
  lemma UploadKeyShape(body: UploadBody, timestampMs: nat)
    requires Truthy(body.filename) && Truthy(body.ownerId)
    requires '/' !in body.ownerId.value
    ensures exists folder: string, ext: string ::
        && folder in Folders
        && (ext == [] || ext[0] == '.')
        && ParseObjectKey(UploadKey(body, timestampMs)) == Some(KeyParts(body.ownerId.value, folder, timestampMs, ext))
  {
    var folder := FolderFor(body.ownerType);
    var ext := Extension(body.filename.value, body.contentType);
    ObjectKeyRoundTrip(body.ownerId.value, folder, timestampMs, ext);
  }

  /** The key template written out as one concatenation. */
  lemma KeyLiteral(ownerId: string, folder: string, timestampMs: nat, ext: string, prefix: string)
    requires prefix == "snowfish/" + ownerId + "/" + folder + "/"
    ensures ObjectKey(ownerId, folder, timestampMs, ext) == prefix + Decimal.NatToDecimal(timestampMs) + ext
  {
  }

  lemma AvatarPrefix()
    ensures "snowfish/" + "42" + "/" + "avatar" + "/" == "snowfish/42/avatar/"
  {
    var p := "snowfish/" + "42" + "/" + "avatar" + "/";
    assert |p| == 19;
    assert forall i | 0 <= i < 19 :: p[i] == "snowfish/42/avatar/"[i];
  }

  /** Filename "photo.png", content type "image/png", owner type "avatar",
      owner id "42": the key is "snowfish/42/avatar/{timestamp}.png". */
  lemma AvatarPhotoScenario(timestampMs: nat)
    ensures UploadKey(UploadBody(Some("photo.png"), Some(Str("image/png")), Some("avatar"), Some("42")), timestampMs)
         == "snowfish/42/avatar/" + Decimal.NatToDecimal(timestampMs) + ".png"
  {
    assert Extension("photo.png", Some(Str("image/png"))) == ".png" by {
      ExtensionOfSuffix("photo", ".png", Some(Str("image/png")));
      assert "photo" + ".png" == "photo.png";
    }
    assert FolderFor(Some("avatar")) == "avatar" by {
      assert ToLower("avatar") == "avatar";
    }
    AvatarPrefix();
    KeyLiteral("42", "avatar", timestampMs, ".png", "snowfish/42/avatar/");
  }

  /** Filename "clip" without extension, content type "video/mp4", owner type
      "videos", owner id "7": the extension comes from the content type. */
  lemma ClipScenario(timestampMs: nat)
    ensures UploadKey(UploadBody(Some("clip"), Some(Str("video/mp4")), Some("videos"), Some("7")), timestampMs)
         == "snowfish/7/videos/" + Decimal.NatToDecimal(timestampMs) + ".mp4"
  {
    ClipParts();
    ClipPrefix();
    KeyLiteral("7", "videos", timestampMs, ".mp4", "snowfish/7/videos/");
  }

  lemma ClipParts()
    ensures Extension("clip", Some(Str("video/mp4"))) == ".mp4"
    ensures FolderFor(Some("videos")) == "videos"
  {
    assert '.' !in "clip";
    assert ToLower("videos") == "videos";
  }

  lemma ClipPrefix()
    ensures "snowfish/" + "7" + "/" + "videos" + "/" == "snowfish/7/videos/"
  {
    var p := "snowfish/" + "7" + "/" + "videos" + "/";
    assert |p| == 18;
    assert forall i | 0 <= i < 18 :: p[i] == "snowfish/7/videos/"[i];
  }

  /** Region "oss-cn-hangzhou.aliyuncs.com" is repaired to "oss-cn-hangzhou". */
  lemma RegionScenario()
    ensures SanitizeRegion("oss-cn-hangzhou.aliyuncs.com") == "oss-cn-hangzhou"
  {
    var name := "oss-cn-hangzhou";
    Oss.NoDotNoDomain(name);
    assert name + Oss.Domain == "oss-cn-hangzhou.aliyuncs.com";
    SanitizeRegionStripsDomain(name);
  }
}
