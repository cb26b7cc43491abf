/** What the two handlers promise each other: the public URL the upload
    handler returns names, for the delete handler, exactly the object it
    uploaded to. */
module RoundTrip {
  import opened Prelude
  import opened Strings
  import Decimal
  import Url
  import Oss
  import opened Http
  import Upload
  import Delete

  /** A name that can be an owner id or a file name and stay as it is in a
      URL path: path characters, no '/' and no '%', not starting with '.'. */
  predicate IsPlainName(name: string)
  {
    && (forall i :: 0 <= i < |name| ==> Url.IsPathChar(name[i]) && name[i] != '/' && name[i] != '%')
    && (name == [] || name[0] != '.')
  }

  lemma AvatarIsPlain() ensures Url.IsPlainKey("avatar") { Url.PlainWord("avatar"); }
  lemma CoverIsPlain() ensures Url.IsPlainKey("cover") { Url.PlainWord("cover"); }
  lemma VideosIsPlain() ensures Url.IsPlainKey("videos") { Url.PlainWord("videos"); }

  lemma FolderIsPlain(folder: string)
    requires folder in Upload.Folders
    ensures Url.IsPlainKey(folder) && '/' !in folder
  {
    if folder == "files" { Delete.FilesIsPlain(); }
    else if folder == "avatar" { AvatarIsPlain(); }
    else if folder == "cover" { CoverIsPlain(); }
    else { VideosIsPlain(); }
  }

  /** The extension of a plain file name holds only path characters, and
      neither '/' nor '%'. */
  lemma ExtensionChars(filename: string, contentType: Option<JsonValue>)
    requires IsPlainName(filename)
    ensures var ext := Upload.Extension(filename, contentType);
      forall i :: 0 <= i < |ext| ==> Url.IsPathChar(ext[i]) && ext[i] != '/' && ext[i] != '%'
  {
    var ext := Upload.Extension(filename, contentType);
    if '.' in filename {
      forall i | 0 <= i < |ext| ensures Url.IsPathChar(ext[i]) && ext[i] != '/' && ext[i] != '%' {
        assert ext[i] == filename[|filename| - |ext| + i];
      }
    } else {
      assert ext in {"", ".jpg", ".png", ".mp4"};
    }
  }

  /** The timestamp and extension form a plain last segment. */
  lemma LastSegmentIsPlain(timestampMs: nat, ext: string)
    requires ext == [] || ext[0] == '.'
    requires forall i :: 0 <= i < |ext| ==> Url.IsPathChar(ext[i]) && ext[i] != '/' && ext[i] != '%'
    ensures var segment := Decimal.NatToDecimal(timestampMs) + ext;
      Url.IsPlainKey(segment) && '/' !in segment
  {
    var digits := Decimal.NatToDecimal(timestampMs);
    var segment := digits + ext;
    forall i | 0 <= i < |segment| ensures Url.IsPathChar(segment[i]) && segment[i] != '/' && segment[i] != '%' {
      if i < |digits| {
        assert segment[i] == digits[i] && Decimal.IsDigit(digits[i]);
      } else {
        assert segment[i] == ext[i - |digits|];
      }
    }
    assert segment[0] == digits[0] && Decimal.IsDigit(digits[0]);
    Url.PlainSegment(segment);
  }

  /** Every key the upload handler derives from a plain owner id and file name
      can be put in a URL path unchanged. */
  lemma ObjectKeyIsPlain(ownerId: string, folder: string, timestampMs: nat, ext: string)
    requires IsPlainName(ownerId)
    requires folder in Upload.Folders
    requires ext == [] || ext[0] == '.'
    requires forall i :: 0 <= i < |ext| ==> Url.IsPathChar(ext[i]) && ext[i] != '/' && ext[i] != '%'
    ensures Url.IsPlainKey(Upload.ObjectKey(ownerId, folder, timestampMs, ext))
  {
    var tail := Decimal.NatToDecimal(timestampMs) + ext;
    OwnedTailIsPlain(ownerId, folder, timestampMs, ext);
    Delete.SnowfishIsPlain();
    Url.PlainKeyOfJoin("snowfish", ownerId + ['/'] + (folder + ['/'] + tail));
    KeyAsSegments(ownerId, folder, tail);
  }

  /** The part of a key after "snowfish/" is a plain key. */
  lemma OwnedTailIsPlain(ownerId: string, folder: string, timestampMs: nat, ext: string)
    requires IsPlainName(ownerId)
    requires folder in Upload.Folders
    requires ext == [] || ext[0] == '.'
    requires forall i :: 0 <= i < |ext| ==> Url.IsPathChar(ext[i]) && ext[i] != '/' && ext[i] != '%'
    ensures Url.IsPlainKey(ownerId + ['/'] + (folder + ['/'] + (Decimal.NatToDecimal(timestampMs) + ext)))
  {
    var tail := Decimal.NatToDecimal(timestampMs) + ext;
    LastSegmentIsPlain(timestampMs, ext);
    FolderIsPlain(folder);
    Url.PlainKeyOfJoin(folder, tail);
    Url.PlainSegment(ownerId);
    Url.PlainKeyOfJoin(ownerId, folder + ['/'] + tail);
  }

  lemma KeyAsSegments(ownerId: string, folder: string, tail: string)
    ensures "snowfish/" + ownerId + "/" + folder + "/" + tail
         == "snowfish" + ['/'] + (ownerId + ['/'] + (folder + ['/'] + tail))
  {
    assert "snowfish/" == "snowfish" + ['/'];
  }

  /** The public URL of a successful upload, given to the delete handler as a
      dry run, reports exactly the uploaded object's key, whatever the delete
      side's environment, clock, signer or storage. */
  lemma UploadThenDryRun(body: Upload.UploadBody, env: map<string, string>, timestampMs: nat, clockMs: nat,
                         sign: Oss.Signer, deleteEnv: map<string, string>, deleteClockMs: nat,
                         deleteSign: Oss.Signer, outcome: Delete.FetchOutcome)
    requires Upload.Accepted(Request("POST", Json(body)))
    requires Upload.HandleUpload(Request("POST", Json(body)), env, timestampMs, clockMs, sign).response.status == 200
    requires Url.IsLabel(Upload.UploadBucket(env)) && Url.IsLabel(Upload.UploadRegion(env))
    requires IsPlainName(body.ownerId.value) && IsPlainName(body.filename.value)
    ensures var granted := Upload.HandleUpload(Request("POST", Json(body)), env, timestampMs, clockMs, sign).response.body;
      var dryRun := Request("POST", Json(Delete.DeleteBody(Some(granted.publicUrl), Some(Bool(true)))));
      Delete.HandleDelete(dryRun, deleteEnv, deleteClockMs, deleteSign, outcome)
      == Delete.DeleteRun(Response(200, DeleteSimulated(granted.objectKey)), None, None)
  {
    var granted := Upload.HandleUpload(Request("POST", Json(body)), env, timestampMs, clockMs, sign).response.body;
    PublicUrlNamesUploadedKey(body, env, timestampMs, clockMs, sign);
    Delete.DryRunReportsKey(granted.publicUrl, granted.objectKey, deleteEnv, deleteClockMs, deleteSign, outcome);
  }

  /** The delete handler recovers the uploaded key from the upload's public URL. */
  lemma PublicUrlNamesUploadedKey(body: Upload.UploadBody, env: map<string, string>, timestampMs: nat,
                                  clockMs: nat, sign: Oss.Signer)
    requires Upload.Accepted(Request("POST", Json(body)))
    requires Upload.HandleUpload(Request("POST", Json(body)), env, timestampMs, clockMs, sign).response.status == 200
    requires Url.IsLabel(Upload.UploadBucket(env)) && Url.IsLabel(Upload.UploadRegion(env))
    requires IsPlainName(body.ownerId.value) && IsPlainName(body.filename.value)
    ensures var granted := Upload.HandleUpload(Request("POST", Json(body)), env, timestampMs, clockMs, sign).response.body;
      Delete.RecoverObjectKey(granted.publicUrl) == Some(granted.objectKey)
  {
    var granted := Upload.HandleUpload(Request("POST", Json(body)), env, timestampMs, clockMs, sign).response.body;
    var folder := Upload.FolderFor(body.ownerType);
    var ext := Upload.Extension(body.filename.value, body.contentType);
    ExtensionChars(body.filename.value, body.contentType);
    ObjectKeyIsPlain(body.ownerId.value, folder, timestampMs, ext);
    Delete.PublicHostIsHostName(Upload.UploadBucket(env), Upload.UploadRegion(env));
    Delete.RecoverPublicUrl(Upload.UploadBucket(env), Upload.UploadRegion(env), granted.objectKey);
  }

  /** With a bucket and region that need no repair, a real delete of an
      upload's public URL signs the very resource the upload signed, and is
      sent to a URL that starts with that public URL. */
  lemma UploadThenDelete(body: Upload.UploadBody, env: map<string, string>, timestampMs: nat, clockMs: nat,
                         sign: Oss.Signer, deleteClockMs: nat, deleteSign: Oss.Signer,
                         outcome: Delete.FetchOutcome)
    requires Upload.Accepted(Request("POST", Json(body)))
    requires Upload.HandleUpload(Request("POST", Json(body)), env, timestampMs, clockMs, sign).response.status == 200
    requires Oss.Credentialed(env)
    requires Url.IsLabel(env[Oss.BucketVar]) && Url.IsLabel(env[Oss.RegionVar])
    requires IsPlainName(body.ownerId.value) && IsPlainName(body.filename.value)
    ensures var granted := Upload.HandleUpload(Request("POST", Json(body)), env, timestampMs, clockMs, sign).response.body;
      var run := Delete.HandleDelete(Request("POST", Json(Delete.DeleteBody(Some(granted.publicUrl), None))),
                                     env, deleteClockMs, deleteSign, outcome);
      && run.signing.Some?
      && Oss.ParseCanonical(run.signing.value.data)
         == Some(Oss.SigningRequest(Oss.DELETE, "", Oss.ExpiresAt(deleteClockMs),
                                    "/" + Upload.UploadBucket(env) + "/" + granted.objectKey))
      && (run.fetched.Some? ==> IsPrefix(granted.publicUrl, run.fetched.value))
  {
    var granted := Upload.HandleUpload(Request("POST", Json(body)), env, timestampMs, clockMs, sign).response.body;
    GrantedUrlIsPublicUrl(body, env, timestampMs, clockMs, sign);
    Delete.RealDeleteOfPublicUrl(granted.objectKey, env, deleteClockMs, deleteSign, outcome);
  }

  lemma GrantedUrlIsPublicUrl(body: Upload.UploadBody, env: map<string, string>, timestampMs: nat, clockMs: nat,
                              sign: Oss.Signer)
    requires Upload.Accepted(Request("POST", Json(body)))
    requires Upload.HandleUpload(Request("POST", Json(body)), env, timestampMs, clockMs, sign).response.status == 200
    requires Oss.Credentialed(env)
    requires Url.IsLabel(env[Oss.BucketVar]) && Url.IsLabel(env[Oss.RegionVar])
    requires IsPlainName(body.ownerId.value) && IsPlainName(body.filename.value)
    ensures var granted := Upload.HandleUpload(Request("POST", Json(body)), env, timestampMs, clockMs, sign).response.body;
      && Upload.UploadBucket(env) == env[Oss.BucketVar]
      && granted.publicUrl == Oss.PublicUrl(env[Oss.BucketVar], env[Oss.RegionVar], granted.objectKey)
      && Delete.RecoverObjectKey(granted.publicUrl) == Some(granted.objectKey)
  {
    var bucket := env[Oss.BucketVar];
    var region := env[Oss.RegionVar];
    assert Upload.UploadBucket(env) == bucket && Upload.UploadRegion(env) == region by {
      LabelNeedsNoRepair(bucket, region);
    }
    PublicUrlNamesUploadedKey(body, env, timestampMs, clockMs, sign);
  }

  /** A label holds no '.', so neither sanitiser changes it. */
  lemma LabelNeedsNoRepair(bucket: string, region: string)
    requires Url.IsLabel(bucket) && Url.IsLabel(region)
    ensures Upload.SanitizeBucket(bucket) == bucket
    ensures Upload.SanitizeRegion(region) == region
  {
    Oss.NoDotNoDomain(bucket);
    Oss.NoDotNoDomain(region);
  }

  /** The delete handler does not repair its bucket: configured as a name
      followed by ".aliyuncs.com", the upload handler signs and builds URLs with
      the name alone, while the delete handler signs a resource under the
      configured text, which is a different resource. */
  lemma DeleteSkipsBucketRepair(name: string, objectKey: string, env: map<string, string>, clockMs: nat)
    requires Oss.Credentialed(env)
    requires '.' !in name
    requires env[Oss.BucketVar] == name + Oss.Domain
    ensures Upload.UploadBucket(env) == name
    ensures Delete.DeleteCanonical(objectKey, env, clockMs)
         == "DELETE\n\n\n" + Decimal.NatToDecimal(Oss.ExpiresAt(clockMs)) + "\n" + Oss.Resource(name + Oss.Domain, objectKey)
    ensures Oss.Resource(name + Oss.Domain, objectKey) != Oss.Resource(Upload.UploadBucket(env), objectKey)
  {
    var configured := env[Oss.BucketVar];
    Oss.NoDotNoDomain(name);
    Oss.DomainFirstAtJoin(name, "");
    assert configured == name + Oss.Domain + "";
    var bucket := Upload.SanitizeBucket(configured);
    assert configured[|name|] == '.';
    assert bucket == name;
  }
}
