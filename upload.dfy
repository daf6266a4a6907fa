/**
 * The `storage-presigned-upload` function: check the file name and the
 * content type, sanitise the name, build the owner-prefixed storage path,
 * ask for a signed upload URL and insert the pending asset row.
 */
module StoragePresignedUpload {
  import opened Wrappers
  import opened Json
  import opened Text
  import opened Tables

  const AllowedContentTypes: seq<string> := [
    "image/jpeg",
    "image/png",
    "image/gif",
    "image/webp",
    "video/mp4",
    "video/webm",
    "audio/mpeg",
    "audio/wav",
    "application/pdf",
    "application/msword",
    "application/vnd.openxmlformats-officedocument.wordprocessingml.document",
    "text/plain",
    "text/csv"
  ]

  /** The version every new asset starts at. */
  const FirstVersion: nat := 1

  // ------------------------------------------------------------- file names

  /** The characters of `[a-zA-Z0-9._-]`. */
  predicate IsSafeChar(c: char) {
    ('a' <= c <= 'z') || ('A' <= c <= 'Z') || ('0' <= c <= '9') || c == '.' || c == '_' || c == '-'
  }

  /**
   * What `replace(/[^a-zA-Z0-9._-]/g, '_')` writes for one character: the
   * character when it is allowed, otherwise one `_` per UTF-16 code unit,
   * since the pattern matches code units.
   */
  function SanitizeChar(c: char): (r: string)
    ensures |r| == CodeUnits(c)
    ensures IsSafeChar(c) ==> r == [c]
    ensures !IsSafeChar(c) ==> forall i :: 0 <= i < |r| ==> r[i] == '_'
  {
    if IsSafeChar(c) then [c] else if CodeUnits(c) == 2 then "__" else "_"
  }

  /** `filename.replace(/[^a-zA-Z0-9._-]/g, '_')` */
  function Sanitize(s: string): (r: string)
    ensures |r| == Utf16Length(s)
    ensures forall i :: 0 <= i < |r| ==> IsSafeChar(r[i])
  {
    if s == [] then [] else SanitizeChar(s[0]) + Sanitize(s[1..])
  }

  /** The replacement works character by character. */
  lemma {:induction false} SanitizeConcat(a: string, b: string)
    ensures Sanitize(a + b) == Sanitize(a) + Sanitize(b)
  {
    if a == [] {
      assert a + b == b;
    } else {
      assert (a + b)[0] == a[0] && (a + b)[1..] == a[1..] + b;
      SanitizeConcat(a[1..], b);
    }
  }

  /**
   * On a name within the Basic Multilingual Plane the sanitised name has the
   * same length, keeps each allowed character in place and has `_` where the
   * name has any other.
   */
  lemma {:induction false} SanitizeInBmp(s: string)
    requires InBmp(s)
    ensures |Sanitize(s)| == |s|
    ensures forall i :: 0 <= i < |s| ==>
              (IsSafeChar(s[i]) ==> Sanitize(s)[i] == s[i]) && (!IsSafeChar(s[i]) ==> Sanitize(s)[i] == '_')
  {
    if s != [] {
      assert InBmp(s[1..]) by {
        forall i | 0 <= i < |s| - 1 ensures s[1..][i] as int < 0x1_0000 {
          assert s[1..][i] == s[i + 1];
        }
      }
      SanitizeInBmp(s[1..]);
      var r := Sanitize(s);
      assert |SanitizeChar(s[0])| == 1;
      forall i | 1 <= i < |s| ensures r[i] == Sanitize(s[1..])[i - 1] && s[i] == s[1..][i - 1] {
      }
    }
  }

  /** A character outside the Basic Multilingual Plane becomes two `_`, one per surrogate. */
  lemma AstralNameSanitized()
    ensures Sanitize("\U{1F600}.png") == "__.png"
  {
    var c := '\U{1F600}';
    assert "\U{1F600}.png" == [c] + ".png";
    SanitizeConcat([c], ".png");
    AstralCharSanitized();
    SanitizeKeepsSafeNames(".png");
  }

  /** The emoji alone becomes two underscores, one per UTF-16 code unit. */
  lemma AstralCharSanitized()
    ensures Sanitize(['\U{1F600}']) == "__"
  {
    var c := '\U{1F600}';
    assert [c][1..] == [];
    assert !IsSafeChar(c) && CodeUnits(c) == 2;
  }

  /** A name made of allowed characters only is left as it is. */
  lemma {:induction false} SanitizeKeepsSafeNames(s: string)
    requires forall i :: 0 <= i < |s| ==> IsSafeChar(s[i])
    ensures Sanitize(s) == s
  {
    if s != [] {
      assert forall i :: 0 <= i < |s| - 1 ==> s[1..][i] == s[i + 1];
      SanitizeKeepsSafeNames(s[1..]);
      assert s == [s[0]] + s[1..];
    }
  }

  /** Sanitising twice is sanitising once. */
  lemma SanitizeIdempotent(s: string)
    ensures Sanitize(Sanitize(s)) == Sanitize(s)
  {
    SanitizeKeepsSafeNames(Sanitize(s));
  }

  /** A sanitised name holds no `/`, so it cannot add a level to the storage path. */
  lemma SanitizedHasNoSlash(s: string)
    ensures '/' !in Sanitize(s)
  {
  }

  // ---------------------------------------------------------- storage paths

  /** `String(Date.now())` */
  function TimeToString(t: Time): (r: string)
    ensures '/' !in r
  {
    if t < 0 then "-" + NatToString(-t) else NatToString(t)
  }

  /** `${user.id}/${assetId}/v${version}/${Date.now()}_${sanitized}` with version 1. */
  function StoragePath(user: UserId, assetId: string, now: Time, sanitized: string): (p: string)
    ensures |user| < |p| && p[..|user| + 1] == user + "/"
    ensures |sanitized| < |p| && p[|p| - |sanitized|..] == sanitized
  {
    var t := TimeToString(now);
    PathPieces(user, assetId, t, sanitized);
    var p := user + "/" + assetId + "/v1/" + t + "_" + sanitized;
    assert p[..|user| + 1] == (user + ['/'])[..|user| + 1];
    assert p == (user + "/" + assetId + "/v1/" + t + "_") + sanitized;
    p
  }

  /** Every storage path lies under its owner's folder. */
  lemma PathStartsWithOwner(user: UserId, assetId: string, now: Time, sanitized: string)
    ensures StartsWith(StoragePath(user, assetId, now, sanitized), user + "/")
  {
    var p := StoragePath(user, assetId, now, sanitized);
    PathPieces(user, assetId, TimeToString(now), sanitized);
    assert p[..|user| + 1] == (user + ['/'])[..|user| + 1];
  }

  /** The path as the owner, then `/`, the uuid, `/`, `v1`, `/` and the leaf name. */
  lemma PathPieces(user: string, assetId: string, t: string, n: string)
    ensures user + "/" + assetId + "/v1/" + t + "_" + n
         == user + ['/'] + (assetId + ['/'] + ("v1" + ['/'] + (t + "_" + n)))
  {
    assert "/v1/" == ['/'] + "v1" + ['/'];
  }

  /**
   * When neither the user id nor the uuid holds a `/`, a path has exactly
   * four levels: the owner, the uuid, `v1`, and the time-stamped sanitised
   * name.
   */
  lemma PathLevels(user: UserId, assetId: string, now: Time, filename: string)
    requires '/' !in user && '/' !in assetId
    ensures Split(StoragePath(user, assetId, now, Sanitize(filename)), '/')
         == [user, assetId, "v1", TimeToString(now) + "_" + Sanitize(filename)]
  {
    var last := TimeToString(now) + "_" + Sanitize(filename);
    NameHasNoSlash(now, filename);
    SplitNoSep(last, '/');
    var r2 := "v1" + ['/'] + last;
    SplitAtFirst("v1", last, '/');
    var r1 := assetId + ['/'] + r2;
    SplitAtFirst(assetId, r2, '/');
    SplitAtFirst(user, r1, '/');
    PathPieces(user, assetId, TimeToString(now), Sanitize(filename));
  }

  lemma NameHasNoSlash(now: Time, filename: string)
    ensures '/' !in TimeToString(now) + "_" + Sanitize(filename)
  {
    var t, n := TimeToString(now), Sanitize(filename);
    SanitizedHasNoSlash(filename);
    forall i | 0 <= i < |t + "_" + n| ensures (t + "_" + n)[i] != '/' {
      if i < |t| {
        assert (t + "_" + n)[i] == t[i];
      } else if i > |t| {
        assert (t + "_" + n)[i] == n[i - |t| - 1];
      }
    }
  }

  // ------------------------------------------------------------ the handler

  /** The request body fields the handler reads; an absent field is `None`. */
  datatype UploadRequest = UploadRequest(filename: Option<Value>, contentType: Option<Value>,
                                         sizeBytes: Option<int>, folderId: Option<string>)

  /** What `createSignedUploadUrl` hands back. */
  datatype SignedData = SignedData(signedUrl: Option<string>, path: Option<string>, token: Option<string>)

  /**
   * What the handler's collaborators answer: the uuid `crypto.randomUUID()`
   * draws for the path, the clock, the signing result (`None` when it threw
   * or gave no data), whether the insert fails, and the id the backend gives
   * the new row.
   */
  datatype UploadEnv = UploadEnv(pathUuid: string, now: Time, signed: Option<SignedData>,
                                 insertFails: bool, newAssetId: Id)

  datatype UploadReply =
    | BadRequest(error: string)   // 400
    | ServerError                 // 500: the insert failed, or the name is not a string
    | Presigned(assetId: Id, path: string, uploadUrl: Option<string>, token: Option<string>,
                useDirectUpload: bool)  // 200

  /** `signedData?.signedUrl ?? signedData?.path`: the signed URL when there is one, else the path. */
  function UploadUrl(signed: Option<SignedData>): (u: Option<string>)
    ensures u.None? <==> signed.None? || (signed.value.signedUrl.None? && signed.value.path.None?)
    ensures signed.Some? && signed.value.signedUrl.Some? ==> u == signed.value.signedUrl
    ensures signed.Some? && signed.value.signedUrl.None? ==> u == signed.value.path
  {
    if signed.None? then None
    else if signed.value.signedUrl.Some? then signed.value.signedUrl
    else signed.value.path
  }

  /** `!uploadUrl`: the client uploads directly when no usable URL came back. */
  function UseDirectUpload(signed: Option<SignedData>): (b: bool)
    ensures b <==> (signed.None?
                    || (signed.value.signedUrl.None? && (signed.value.path.None? || signed.value.path.value == ""))
                    || signed.value.signedUrl == Some(""))
  {
    var u := UploadUrl(signed);
    u.None? || u.value == ""
  }

  /** `folder_id || null` */
  function FolderOrNull(folderId: Option<string>): Option<string> {
    if folderId.Some? && folderId.value != "" then folderId else None
  }

  /**
   * The row the insert writes: the caller's, pending at version 1, under the
   * caller's folder of the bucket, with the reported size or 0 and the
   * folder only when one is named.
   */
  function PendingAsset(user: UserId, req: UploadRequest, env: UploadEnv, sanitized: string, contentType: string): (a: Asset)
    ensures a.userId == user && a.status == "pending" && a.version == FirstVersion
    ensures StartsWith(a.storagePath, user + "/") && a.filename == sanitized
    ensures a.sizeBytes == req.sizeBytes.GetOr(0)
    ensures a.folderId.Some? <==> req.folderId.Some? && req.folderId.value != ""
  {
    Asset(env.newAssetId, user, FolderOrNull(req.folderId), StoragePath(user, env.pathUuid, env.now, sanitized),
          sanitized, contentType, req.sizeBytes.GetOr(0), FirstVersion, "pending", env.now, env.now)
  }

  /** One request, as a function of the assets table before it: the reply and the table after it. */
  function UploadStep(assets: seq<Asset>, user: UserId, req: UploadRequest, env: UploadEnv): (r: (UploadReply, seq<Asset>))
    ensures r.0.BadRequest? <==> !FieldTruthy(req.filename) || !FieldTruthy(req.contentType)
                                 || !(req.contentType.value.Str? && req.contentType.value.s in AllowedContentTypes)
    ensures r.0.Presigned? <==> && FieldTruthy(req.filename) && req.filename.value.Str?
                                && FieldTruthy(req.contentType) && req.contentType.value.Str?
                                && req.contentType.value.s in AllowedContentTypes
                                && !env.insertFails && !AssetIdTaken(assets, env.newAssetId)
    ensures !r.0.Presigned? ==> r.1 == assets
    ensures r.0.Presigned? ==> && |r.1| == |assets| + 1 && r.1[..|assets|] == assets
                               && r.0.assetId == env.newAssetId && r.1[|assets|].storagePath == r.0.path
  {
    if !FieldTruthy(req.filename) || !FieldTruthy(req.contentType) then
      (BadRequest("filename and content_type are required"), assets)
    else if !(req.contentType.value.Str? && req.contentType.value.s in AllowedContentTypes) then
      (BadRequest("Content type not allowed"), assets)
    else if !req.filename.value.Str? then
      (ServerError, assets)
    else
      var sanitized := Sanitize(req.filename.value.s);
      var row := PendingAsset(user, req, env, sanitized, req.contentType.value.s);
      if env.insertFails || AssetIdTaken(assets, row.id) then (ServerError, assets)
      else
        var signedToken := if env.signed.Some? then env.signed.value.token else None;
        (Presigned(row.id, row.storagePath, UploadUrl(env.signed), signedToken, UseDirectUpload(env.signed)),
         assets + [row])
  }

  /** The handler body after authentication (`user` is the caller). */
  method Upload(db: Database, user: UserId, req: UploadRequest, env: UploadEnv) returns (reply: UploadReply)
    requires db.Valid()
    modifies db
    ensures db.Valid()
    ensures db.jobs == old(db.jobs) && db.outputs == old(db.outputs)
         && db.usage == old(db.usage) && db.accounting == old(db.accounting)
    ensures (reply, db.assets) == UploadStep(old(db.assets), user, req, env)
  {
    if !FieldTruthy(req.filename) || !FieldTruthy(req.contentType) {
      return BadRequest("filename and content_type are required");
    }
    var contentType := req.contentType.value;
    if !(contentType.Str? && contentType.s in AllowedContentTypes) {
      return BadRequest("Content type not allowed");
    }
    if !req.filename.value.Str? {
      return ServerError;
    }
    var sanitized := Sanitize(req.filename.value.s);
    var storagePath := StoragePath(user, env.pathUuid, env.now, sanitized);

    var signedData := env.signed;

    var row := PendingAsset(user, req, env, sanitized, contentType.s);
    if env.insertFails || AssetIdTaken(db.assets, row.id) {
      return ServerError;
    }
    AppendFreshAsset(db.assets, row);
    db.assets := db.assets + [row];

    var uploadUrl := UploadUrl(signedData);
    var token := if signedData.Some? then signedData.value.token else None;
    reply := Presigned(row.id, storagePath, uploadUrl, token, uploadUrl.None? || uploadUrl.value == "");
  }

  // ------------------------------------------------------- what a step does

  /**
   * A missing name or content type, or a content type that is not exactly one
   * of the thirteen allowed strings, is a 400 before any row is written.
   */
  lemma RefusedBeforeInsert(assets: seq<Asset>, user: UserId, req: UploadRequest, env: UploadEnv)
    ensures var (reply, assets') := UploadStep(assets, user, req, env);
      && (!FieldTruthy(req.filename) || !FieldTruthy(req.contentType)
          ==> reply == BadRequest("filename and content_type are required"))
      && (FieldTruthy(req.filename) && FieldTruthy(req.contentType)
          && !(req.contentType.value.Str? && req.contentType.value.s in AllowedContentTypes)
          ==> reply == BadRequest("Content type not allowed"))
      && (!reply.Presigned? ==> assets' == assets)
  {
  }

  /**
   * A 200 reply inserts exactly one pending asset at version 1: its name is
   * the sanitised file name, its content type is allowed, its size is the
   * given one or 0, an empty folder becomes none, its path is the reply's
   * and lies under the caller's folder, and the reply's `asset_id` is the
   * new row's id.
   */
  lemma PendingAssetInserted(assets: seq<Asset>, user: UserId, req: UploadRequest, env: UploadEnv)
    ensures var (reply, assets') := UploadStep(assets, user, req, env);
      reply.Presigned? ==>
        && |assets'| == |assets| + 1 && assets'[..|assets|] == assets
        && var a := assets'[|assets|];
        && a.id == reply.assetId && a.userId == user
        && a.status == "pending" && a.version == 1
        && a.filename == Sanitize(req.filename.value.s)
        && a.contentType in AllowedContentTypes
        && a.sizeBytes == req.sizeBytes.GetOr(0)
        && a.folderId == (if req.folderId == Some("") then None else req.folderId)
        && a.storagePath == reply.path
        && StartsWith(reply.path, user + "/")
        && reply.useDirectUpload == (reply.uploadUrl.None? || reply.uploadUrl.value == "")
  {
    var (reply, assets') := UploadStep(assets, user, req, env);
    if reply.Presigned? {
      var a := assets'[|assets|];
      assert assets' == assets + [a];
      PathStartsWithOwner(user, env.pathUuid, env.now, a.filename);
    }
  }

  /** An upload keeps the asset ids unique. */
  lemma StepKeepsAssetIdsUnique(assets: seq<Asset>, user: UserId, req: UploadRequest, env: UploadEnv)
    requires AssetIdsUnique(assets)
    ensures AssetIdsUnique(UploadStep(assets, user, req, env).1)
  {
    var (reply, assets') := UploadStep(assets, user, req, env);
    if reply.Presigned? {
      PendingAssetInserted(assets, user, req, env);
      assert assets' == assets + [assets'[|assets|]];
      AppendFreshAsset(assets, assets'[|assets|]);
    }
  }
}
