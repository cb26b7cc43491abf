# OSS signed-URL edge functions, modelled in Dafny

Two Deno edge functions let the app upload and delete objects in an Alibaba
Cloud OSS bucket without ever shipping the storage credentials to the client.
They use the OSS V1 query-string signature scheme.

- **Upload** (`functions/get-oss-upload-url/index.ts`):
  - checks the request, in this order: method, JSON body, `filename`, `owner_id`;
  - repairs a bucket or region configured with ".aliyuncs.com" appended;
  - derives the object key `snowfish/{owner_id}/{folder}/{timestamp}{ext}`;
  - signs the PUT canonical string;
  - answers with the signed upload URL, the public URL, the key and the expiry.
- **Delete** (`functions/delete-oss-object/index.ts`):
  - checks the method, the JSON body and `publicUrl`;
  - recovers the object key from the URL's path: one leading '/' is dropped, then the rest is percent-decoded;
  - for a dry run, stops and reports that key;
  - otherwise checks the four credentials, signs the DELETE canonical string, sends the DELETE, and maps storage's answer to 200 or 500.

Each handler is a total function in the model. It takes:
- the request: the method and the parsed body, which is either not JSON, the JSON literal `null`, or the fields the handler reads;
- the environment, as a map;
- the clock readings, as naturals in milliseconds;
- the signer, as a function parameter;
- for delete, the outcome of the `fetch`.

Each handler returns a record of what it did: the response, the call it made to the signer (if any) and, for delete, the URL it sent a DELETE to (if any).

Modules, one per file:
- `Prelude`: `Option`, JSON values, JavaScript truthiness, and how a template literal renders a value.
- `Strings`: the JavaScript string methods the handlers use.
- `Decimal`: rendering of numbers in templates, with its inverse.
- `Uri`: `encodeURIComponent` and `decodeURIComponent` over UTF-8, with the round trip.
- `Url`: the pathname of `new URL(...)` on a conservative fragment of the WHATWG URL Standard.
- `Http`: requests and responses as data.
- `Oss`: shared by both handlers — the environment, the expiry, the canonical string and its parser, the host, the public URL, and the signed URL and its query parser.
- `Upload` and `Delete`: the two handlers.
- `RoundTrip`: what the two handlers promise each other.

## Model

| member | source | states |
|---|---|---|
| Oss.ExpiresAt | functions/delete-oss-object/index.ts:100 | The expiry is the whole second of the clock plus 60: it lies more than 59 and at most 60 seconds after the clock reading. |
| Oss.CanonicalString | functions/delete-oss-object/index.ts:101 | The signed text is the verb, an empty line, the content type, the expiry in decimal and the resource, one per line. |
| Oss.CanonicalLayout | functions/get-oss-upload-url/index.ts:105-106 | For a resource built from a bucket and a key, the signed text ends in "\n/{bucket}/{key}". |
| Oss.PublicUrl | functions/get-oss-upload-url/index.ts:115-116 | Removing "https://{bucket}.{region}.aliyuncs.com/" from the public URL leaves exactly the object key. |
| Oss.PublicUrlLayout | functions/get-oss-upload-url/index.ts:115-116 | The public URL is "https://{bucket}.{region}.aliyuncs.com/{key}". |
| Oss.SignedUrl | functions/get-oss-upload-url/index.ts:109-113 | The signed URL is the public URL, strictly extended by the query with OSSAccessKeyId, Expires and Signature in that order. |
| Oss.SignedUrlLayout | functions/get-oss-upload-url/index.ts:109-113 | The signed URL is the public URL followed by "?OSSAccessKeyId=", the id, "&Expires=", the decimal expiry, "&Signature=" and the encoded signature. |
| Oss.CanonicalStringRoundTrip | functions/get-oss-upload-url/index.ts:105-106 | The signed text determines verb, content type, expiry and resource: parsing it gives back every field, provided the content type has no newline. |
| Oss.CanonicalStringInjective | functions/delete-oss-object/index.ts:101 | Two requests with newline-free content types share a canonical string only if every field is equal. |
| Oss.SignedQueryRoundTrip | functions/get-oss-upload-url/index.ts:111-113 | For an access key id without '&', the query gives back the access key id, the expiry and the signature it was built from; the percent-encoding of the signature is undone exactly, whatever characters it holds. |
| Oss.NoDotNoDomain | functions/get-oss-upload-url/index.ts:65-67 | A name without '.' cannot contain ".aliyuncs.com". |
| Oss.DomainFirstAtJoin | functions/get-oss-upload-url/index.ts:61-63 | When a name does not contain ".aliyuncs.com", the first occurrence of the domain in name + domain + anything is the appended one. |
| Decimal.NatToDecimal | functions/get-oss-upload-url/index.ts:101 | A rendered number is canonical decimal: non-empty digits without a leading zero. |
| Decimal.DecimalRoundTrip | functions/get-oss-upload-url/index.ts:101-102 | Reading back the rendering of a number gives that number. |
| Decimal.NatToDecimalInjective | functions/get-oss-upload-url/index.ts:101 | Different timestamps render differently. |
| Decimal.CanonicalRoundTrip | functions/get-oss-upload-url/index.ts:112 | Every canonical digit string is the rendering of the number it denotes. |
| Uri.EncodeUriComponent | functions/get-oss-upload-url/index.ts:113 | The encoding holds only unreserved characters and '%', is no shorter than its input, and leaves an all-unreserved text unchanged. |
| Uri.DecodeUriComponent | functions/delete-oss-object/index.ts:54 | A text without '%' decodes to itself; a decoding is never longer than its input. |
| Uri.DecodeEncodeRoundTrip | functions/get-oss-upload-url/index.ts:113 | Decoding the encoding of any string gives that string back. |
| Uri.DecodeEncodedChar | functions/delete-oss-object/index.ts:54 | Decoding one encoded character followed by anything yields the character followed by the decoding of the rest. |
| Uri.Utf8RoundTrip | functions/delete-oss-object/index.ts:54 | Each multi-byte UTF-8 encoding announces its own length, is followed by continuation bytes, and decodes to the character. |
| Uri.FirstEscapeNotDot | functions/get-oss-upload-url/index.ts:113 | An encoding that starts with an escape starts with the escape of a byte other than '.': '.' is never escaped. |
| Uri.BadEscapeFails | functions/delete-oss-object/index.ts:54 | A '%' anywhere in the text that is not followed by two hexadecimal digits makes decoding fail. |
| Uri.InvalidLeadFails | functions/delete-oss-object/index.ts:54 | An escaped byte that cannot start a UTF-8 sequence (0x80 to 0xBF, or 0xF8 and above) makes decoding fail. |
| Uri.OverlongLeadFails | functions/delete-oss-object/index.ts:54 | A two-byte sequence led by 0xC0 or 0xC1, an overlong form, makes decoding fail. |
| Uri.SurrogateFails | functions/delete-oss-object/index.ts:54 | 0xED followed by a byte of 0xA0 or above encodes a surrogate and makes decoding fail. |
| Uri.PlainPrefixKeepsFailure | functions/delete-oss-object/index.ts:54 | Text without '%' placed before an undecodable text leaves it undecodable. |
| Uri.MalformedEscapesFail | functions/delete-oss-object/index.ts:54 | "%" and "%zz" do not decode. |
| Uri.OverlongSampleFails | functions/delete-oss-object/index.ts:54 | "%C0%80" does not decode. |
| Uri.SurrogateSampleFails | functions/delete-oss-object/index.ts:54 | "%ED%A0%80" does not decode. |
| Url.EncodedPathKey | functions/delete-oss-object/index.ts:53 | Every encoded key except "." and ".." holds only path characters and no dot segment, so the URL parser keeps it. |
| Strings.ReplaceFirst | functions/get-oss-upload-url/index.ts:63 | Only the first occurrence of the pattern is replaced; a text without it is unchanged. |
| Strings.IndexOf | functions/get-oss-upload-url/index.ts:61 | The index found is the first occurrence of the pattern; no index is found only when the pattern occurs nowhere. |
| Strings.LastIndexOf | functions/get-oss-upload-url/index.ts:90 | The index found holds the character and none follows it; the result is absent exactly when the character is absent. |
| Strings.BeforeFirst | functions/get-oss-upload-url/index.ts:67 | The result is the longest prefix without the separator, and the separator follows it if anything does. |
| Strings.SplitAtFirstOfJoin | functions/delete-oss-object/index.ts:101 | Splitting a + separator + b at the separator gives back a and b when a does not hold it. |
| Strings.ToLower | functions/get-oss-upload-url/index.ts:77 | Lower-casing keeps the length and lowers each character in place. |
| Strings.TrimStart | functions/get-oss-upload-url/index.ts:63 | Exactly the leading white space is removed. |
| Strings.TrimEnd | functions/get-oss-upload-url/index.ts:63 | Exactly the trailing white space is removed. |
| Strings.Trim | functions/get-oss-upload-url/index.ts:63 | The result has no white space at either end and is the input with only white space removed before and after it. |
| Url.Pathname | functions/delete-oss-object/index.ts:53 | A parsed pathname starts with '/' and holds only path characters. |
| Url.PathnameOfPlainUrl | functions/delete-oss-object/index.ts:53 | The pathname of "https://" + host + "/" + key is "/" + key, for a valid host name and a key made only of path characters (no '?', '#' or space, among others) with no dot segments. |
| Url.PlainKeyOfJoin | functions/get-oss-upload-url/index.ts:101 | A plain segment, '/', and a plain key make a plain key. |
| Upload.SanitizeRegion | functions/get-oss-upload-url/index.ts:61-64 | A region without ".aliyuncs.com" is kept. Otherwise the first occurrence is removed and the rest trimmed, so the result is at least 13 characters shorter. |
| Upload.SanitizeRegionStripsDomain | functions/get-oss-upload-url/index.ts:61-64 | A region written as name + ".aliyuncs.com" is repaired to the name, when the name is trimmed and does not contain the domain. |
| Upload.SanitizeRegionNotIdempotent | functions/get-oss-upload-url/index.ts:61-64 | Repairing "x.aliyuncs.com.aliyuncs.com" once gives "x.aliyuncs.com", and repairing that gives "x". |
| Upload.SanitizeRegionIdempotentOnce | functions/get-oss-upload-url/index.ts:61-64 | For a trimmed name without the domain, repairing name + ".aliyuncs.com" twice equals repairing it once. |
| Upload.SanitizeBucket | functions/get-oss-upload-url/index.ts:65-68 | A bucket with ".aliyuncs.com" becomes its text before the first '.', so it holds no '.'; any other bucket is kept. |
| Upload.SanitizeBucketIdempotent | functions/get-oss-upload-url/index.ts:65-68 | Repairing a bucket twice equals repairing it once. |
| Upload.FolderFor | functions/get-oss-upload-url/index.ts:76-85 | The folder is one of files, avatar, cover, videos. A lower-cased owner type picks avatar for "avatar" or "user_profiles", cover for "cover", and videos for "video" or "videos", each if and only if; anything else, or no owner type, gives files. |
| Upload.ContentTypeExtension | functions/get-oss-upload-url/index.ts:94-97 | The extension is ".jpg", ".png" or ".mp4" exactly for "image/jpeg", "image/png" or "video/mp4", and empty for any other content type. |
| Upload.Extension | functions/get-oss-upload-url/index.ts:89-98 | The extension is empty or starts with '.'. For a filename with a '.', it is the filename's suffix with no other '.'; otherwise it comes from the content type. |
| Upload.ExtensionOfSuffix | functions/get-oss-upload-url/index.ts:90-92 | A filename's own extension is found whatever precedes it and whatever the content type. |
| Upload.ObjectKey | functions/get-oss-upload-url/index.ts:100-101 | The key starts with "snowfish/{ownerId}/{folder}/" and continues with the decimal timestamp and the extension. |
| Upload.ObjectKeyRoundTrip | functions/get-oss-upload-url/index.ts:100-101 | Parsing a key gives back its owner id, folder, timestamp and extension, when the owner id holds no '/'. |
| Upload.TimestampOfJoin | functions/get-oss-upload-url/index.ts:101 | The timestamp and the extension can be read back from their concatenation. |
| Upload.UploadKeyShape | functions/get-oss-upload-url/index.ts:76-101 | When the owner id holds no '/', every granted key parses as that owner id, a folder from the closed set, the timestamp, and an extension that is empty or starts with '.'. |
| Upload.UploadBucket | functions/get-oss-upload-url/index.ts:57-68 | An unset bucket is "undefined". A bucket without the domain is kept. A bucket with it becomes a '.'-free name that, followed by '.', starts the configured text. |
| Upload.UploadRegion | functions/get-oss-upload-url/index.ts:58-64 | An unset region is "undefined". A region without the domain is kept. A region with it loses at least the domain's 13 characters. |
| Upload.SigningKey | functions/get-oss-upload-url/index.ts:107 | The key is empty exactly when the secret is unset or empty, and is the secret otherwise. |
| Upload.UploadCanonical | functions/get-oss-upload-url/index.ts:105-106 | The signed text is "PUT", an empty line, the content type as the template renders it (including "null" and "undefined"), the expiry, and "/{bucket}/{key}" with the repaired bucket. |
| Upload.Grant | functions/get-oss-upload-url/index.ts:100-128 | The signer is called once, with the secret as key and the upload's canonical string as text. The answer is 200 exactly when signing succeeds, and 500 from the server when it throws. A 200 carries the derived key, the expiry, the public URL of that key under the repaired bucket and region, and an upload URL that starts with that public URL. |
| Upload.HandleUpload | functions/get-oss-upload-url/index.ts:28-53 | Method, JSON, filename and owner id are checked in that order, each with its own response. A JSON null body fails to destructure and gives the server's 500. The signer is called if and only if all four checks pass. A 4xx never signs. |
| Upload.GrantUrlsConsistent | functions/get-oss-upload-url/index.ts:100-127 | For an access key id without '&', a grant's key is the public URL's path, and the upload URL extends the public URL with a query carrying the access key id, the response's expiry and the signer's signature. |
| Upload.GrantSignsRequest | functions/get-oss-upload-url/index.ts:100-107 | For a content type whose rendering holds no newline, a grant's signed text parses as the PUT, that content type, the response's expiry and "/{bucket}/{key}" with the granted key. |
| Upload.AvatarPhotoScenario | functions/get-oss-upload-url/index.ts:77-101 | "photo.png" of owner "42" with owner type "avatar" is stored at "snowfish/42/avatar/{timestamp}.png". |
| Upload.ClipScenario | functions/get-oss-upload-url/index.ts:83-101 | "clip" of type "video/mp4" for owner "7" with owner type "videos" is stored at "snowfish/7/videos/{timestamp}.mp4". |
| Upload.RegionScenario | functions/get-oss-upload-url/index.ts:61-64 | Region "oss-cn-hangzhou.aliyuncs.com" is repaired to "oss-cn-hangzhou". |
| Delete.StripLeadingSlash | functions/delete-oss-object/index.ts:54 | Either the input is '/' followed by the result, or the input does not start with '/' and is the result. |
| Delete.StripLeadingSlashOnce | functions/delete-oss-object/index.ts:54 | Only one '/' is removed: stripping "/" + p gives p, even when p itself starts with '/'. |
| Delete.RecoverObjectKey | functions/delete-oss-object/index.ts:50-62 | A key is recovered only from a URL that parses, and it is shorter than the URL's pathname. |
| Delete.RecoverEncodedKey | functions/delete-oss-object/index.ts:53-54 | The URL "https://{host}/" + encodeURIComponent(key) names the key itself, for a valid host and every key except "." and "..". |
| Delete.BadEscapeRejected | functions/delete-oss-object/index.ts:50-62 | A public URL under a valid host whose path holds a '%' not followed by two hexadecimal digits is answered 400 "Invalid publicUrl", dry run or not, with no signing and no fetch. |
| Delete.OnlyTrueIsDryRun | functions/delete-oss-object/index.ts:65 | Once the URL is read, the answer is a dry-run report if and only if dryRun is the JSON literal true. |
| Delete.EachCredentialRequired | functions/delete-oss-object/index.ts:89-97 | On the real-delete path, any one of the four variables unset or empty gives the 500 about missing secrets, with no signing and no fetch. |
| Delete.DeleteCanonical | functions/delete-oss-object/index.ts:100-101 | The signed text is "DELETE", two empty lines, the expiry and "/{bucket}/{key}" with the bucket as configured. |
| Delete.DeleteUrl | functions/delete-oss-object/index.ts:106-110 | The DELETE URL is "https://{bucket}.{region}.aliyuncs.com/{key}" with the access key id, expiry and encoded signature as its query, all as configured. |
| Delete.Remove | functions/delete-oss-object/index.ts:99-144 | Exactly one signing of the DELETE canonical string, with the secret. The DELETE URL is fetched only if signing succeeds. The answer is 200 with the key if and only if storage answered ok. Otherwise it is 500: "OSS delete failed" with storage's status and text, or the message of the exception. |
| Delete.HandleDelete | functions/delete-oss-object/index.ts:22-145 | Method, JSON, publicUrl and URL parsing are checked in that order, each with its own response. A JSON null body fails to destructure and gives the server's 500. A dry run answers with the key and signs nothing. Missing credentials give 500 before signing. The signer is called if and only if a real delete passes all checks. Nothing is fetched unsigned. |
| Delete.ErrorTaxonomy | functions/delete-oss-object/index.ts:25-144 | A 4xx never signs or fetches. A 200 is either an untouched dry run or a DELETE storage answered ok. Every status is 200, 400, 405 or 500. |
| Delete.EarlyAnswersIgnoreServer | functions/delete-oss-object/index.ts:25-74 | Until the real-delete path, the answer depends on the request alone: not on the environment, the clock, the signer or storage. |
| Delete.DeleteSignatureConsistent | functions/delete-oss-object/index.ts:99-110 | The signed DELETE has an empty content type, the expiry, and the resource "/{bucket}/{key}" with the bucket unrepaired. For an access key id without '&', the URL fetched extends the key's public URL with a query carrying the access key id, the same expiry and the signer's signature. |
| Delete.RealDeleteOfPublicUrl | functions/delete-oss-object/index.ts:50-115 | A real delete of a public URL that names its key signs "/{bucket}/{key}" and is sent to a URL extending the public URL. |
| Delete.RecoverPublicUrl | functions/delete-oss-object/index.ts:53-54 | Under a valid host, the public URL of a key made only of path characters, without '%' and without dot segments, gives the key back. |
| Delete.PercentKeyDoesNotRoundTrip | functions/delete-oss-object/index.ts:54 | A key "a%20b" comes back as "a b", because the public URL is not percent-encoded but is decoded. |
| Delete.PublicHostIsHostName | functions/get-oss-upload-url/index.ts:110 | A host of two DNS labels followed by ".aliyuncs.com" is one the URL parser keeps unchanged. |
| Delete.RootUrlNamesEmptyKey | functions/delete-oss-object/index.ts:50-62 | A URL with no path, or with path "/", names the empty key and is not rejected. |
| Delete.DryRunScenario | functions/delete-oss-object/index.ts:64-74 | A dry run of "https://b.r.aliyuncs.com/snowfish/1/files/123.jpg" reports "snowfish/1/files/123.jpg" and touches nothing. |
| Delete.MissingSecretScenario | functions/delete-oss-object/index.ts:89-97 | Without OSS_ACCESS_KEY_SECRET, a real delete is refused with 500 before anything is signed or sent. |
| RoundTrip.ObjectKeyIsPlain | functions/get-oss-upload-url/index.ts:100-101 | A key derived from a plain owner id and extension can go into a URL path unchanged. |
| RoundTrip.UploadThenDryRun | functions/delete-oss-object/index.ts:50-74 | A dry-run delete of an upload's public URL reports exactly the uploaded key. The bucket and region must be labels, and the owner id and filename plain names. |
| RoundTrip.PublicUrlNamesUploadedKey | functions/delete-oss-object/index.ts:53-54 | The public URL an upload returns names the uploaded key for the delete handler, when the repaired bucket and region are DNS labels and the owner id and filename are plain names (path characters, no '/' or '%', no leading '.'). |
| RoundTrip.UploadThenDelete | functions/delete-oss-object/index.ts:99-115 | With all four variables set, a configured bucket and region that are DNS labels, and a plain owner id and filename, a real delete of an upload's public URL signs the same "/{bucket}/{key}" resource the upload signed, and is sent to a URL extending that public URL. |
| RoundTrip.LabelNeedsNoRepair | functions/get-oss-upload-url/index.ts:61-68 | A DNS label is left unchanged by both the bucket repair and the region repair. |
| RoundTrip.DeleteSkipsBucketRepair | functions/delete-oss-object/index.ts:101 | With the bucket configured as name + ".aliyuncs.com", the upload handler uses the name, but the delete handler signs a resource under the configured text, which differs from the uploaded object's resource. |

## Left out

- HMAC-SHA1 and base64 (`hmacSha1`, both files): the signer is a parameter of type `Oss.Signer`. It returns the signature or the message of the exception it throws, and nothing else is assumed about it.
- Deno's `serve`, `Request`/`Response` objects, headers and `req.json()`: a request is a method plus the parsed body (not JSON, the literal `null`, or the fields), and a response is a status plus a body datatype.
- The upload handler does not catch an exception thrown by signing. The standard-library server then answers 500 "Internal Server Error"; the model writes that answer down as `Http.InternalServerError`.
- `fetch` and `deleteResp.text()`: the outcome is an input. A failure of either is folded into `Failed(message)`, because both end in the same catch.
- `Deno.env.get` and `Date.now()`: these are a map and natural-number inputs. The upload handler reads the clock twice, so its timestamp and expiry clock are independent inputs.
- JSON body fields: a field that is absent or `null` is `None`, and the string fields are modelled as strings; the content type is kept as a JSON value, because the canonical string renders it. A number, boolean or object in `filename`, `owner_id` or `owner_type` is outside the model. The handler calls `lastIndexOf` on the filename, which a number, boolean or plain object lacks, so the call throws a TypeError and the server answers 500. The owner type goes through `toString()`, and the owner id through the template's string conversion.
- `Url.Pathname`: covers only "http(s)://host/path" with a plain ASCII host, no user info or port, and a path that needs neither percent-encoding nor dot-segment removal. Any other URL is reported as unparseable, where the WHATWG parser might accept it.
- Strings are sequences of Unicode scalar values, not UTF-16 code units. A lone surrogate, which makes `encodeURIComponent` throw, cannot occur.
- `Strings.ToLower`: lower-cases ASCII letters only, not the full Unicode mapping of `toLowerCase`.
- `Decimal.NatToDecimal`: renders every natural in plain digits. JavaScript switches to exponent notation from 10^21 on, which a millisecond clock does not reach.
- `console.log` and `console.error`: they have no effect on responses.
- `Prelude.TemplateText`: renders every array or object in the content type as "[object Object]", where JavaScript joins an array's elements; JSON numbers are integers, so fractional and exponent renderings are not modelled.

## Behaviour notes

Consequences of the code as written that a reader might not expect:

- Sanitising a region is not idempotent: a region with the domain written twice keeps one copy after the first repair (`Upload.SanitizeRegionNotIdempotent`). The bucket repair is idempotent (`Upload.SanitizeBucketIdempotent`).
- The public URL puts the object key in the path without percent-encoding it, and the delete handler percent-decodes the path. A key holding '%' therefore does not come back unchanged (`Delete.PercentKeyDoesNotRoundTrip`). A key encoded with `encodeURIComponent` would (`Delete.RecoverEncodedKey`).
- The upload-to-delete round trip needs its conditions: the bucket and region DNS labels, and the owner id and filename without '/', '%' or a leading '.' (`RoundTrip.PublicUrlNamesUploadedKey`).
- Only the upload handler repairs a bucket configured with ".aliyuncs.com" appended. With such a bucket, a real delete signs and addresses a resource under the configured text, not the object the upload stored (`RoundTrip.DeleteSkipsBucketRepair`).
- A public URL whose path does not percent-decode (a bad escape, an overlong form, a surrogate) is answered 400 "Invalid publicUrl", like one that does not parse (`Delete.BadEscapeRejected`, `Uri.BadEscapeFails`).
- The 405 answer of both handlers is plain text, not a JSON object with an `error` key.
- A body that is the JSON literal `null` makes the destructuring throw in both handlers, so the server answers 500 "Internal Server Error".
- A root URL is neither rejected nor special-cased. It names the empty key, and a real delete signs "/{bucket}/" (`Delete.RootUrlNamesEmptyKey`).
- An unset upload variable is interpolated as the text "undefined", and a `null` content type as "null". An unset secret signs with an empty key, which WebCrypto refuses, so the run ends in the server's 500.
