/**
 * The `storage-presigned-download` function: a chain of guards on the
 * method, the path and its owner prefix, ending in one signing call.
 */
module StoragePresignedDownload {
  import opened Wrappers
  import opened Json
  import opened Text
  import opened Tables
  import StoragePresignedUpload

  /** The lifetime, in seconds, of a signed download URL. */
  const ExpiresIn: nat := 3600

  datatype HttpMethod = OPTIONS | POST | GET | OtherMethod

  /** The method, the body's `path` (for a POST) and the query string's `path` (for a GET). */
  datatype DownloadRequest = DownloadRequest(verb: HttpMethod, bodyPath: Option<Value>, queryPath: Option<string>)

  datatype DownloadReply =
    | NoContent                  // 204, the preflight
    | MethodNotAllowed           // 405
    | BadRequest(error: string)  // 400
    | Forbidden(error: string)   // 403
    | ServerError                // 500: signing failed, or the path is not a string
    | Signed(path: string, expiresIn: nat, signedUrl: string)  // 200

  /** `path = body.path` for a POST, `url.searchParams.get('path') ?? ''` for a GET. */
  function RequestedPath(req: DownloadRequest): Value
    requires req.verb == POST || req.verb == GET
  {
    if req.verb == POST then (if req.bodyPath.Some? then req.bodyPath.value else Null)
    else Str(req.queryPath.GetOr(""))
  }

  /** The owner check: the path lies under `<userId>/`. */
  predicate OwnedBy(path: string, user: UserId) {
    StartsWith(path, user + "/")
  }

  /**
   * The handler after authentication; `sign(path, expiresIn)` is the storage
   * backend's `createSignedUrl`, `None` when it reports an error.
   */
  function Download(user: UserId, req: DownloadRequest, sign: (string, nat) -> Option<string>): (r: DownloadReply)
    ensures r == MethodNotAllowed <==> req.verb == OtherMethod
    ensures r == NoContent <==> req.verb == OPTIONS
    ensures r.BadRequest? <==> (req.verb in {POST, GET} && !Truthy(RequestedPath(req)))
    ensures r.Forbidden? ==> req.verb in {POST, GET} && RequestedPath(req).Str?
                             && !OwnedBy(RequestedPath(req).s, user)
    ensures r.Signed? ==> && req.verb in {POST, GET} && RequestedPath(req) == Str(r.path)
                          && OwnedBy(r.path, user) && r.expiresIn == ExpiresIn
                          && sign(r.path, ExpiresIn) == Some(r.signedUrl)
  {
    if req.verb == OPTIONS then NoContent
    else if req.verb == OtherMethod then MethodNotAllowed
    else
      var path := RequestedPath(req);
      if !Truthy(path) then BadRequest("path is required")
      else if !path.Str? then ServerError
      else if !OwnedBy(path.s, user) then Forbidden("Access denied")
      else match sign(path.s, ExpiresIn)
        case None => ServerError
        case Some(url) => Signed(path.s, ExpiresIn, url)
  }

  /**
   * A caller who asks for a non-empty string path outside their folder is
   * refused with 403 and nothing is signed, whatever the signer would answer.
   */
  lemma ForeignPathForbidden(user: UserId, req: DownloadRequest, sign: (string, nat) -> Option<string>)
    requires req.verb in {POST, GET}
    requires RequestedPath(req).Str? && RequestedPath(req).s != "" && !OwnedBy(RequestedPath(req).s, user)
    ensures Download(user, req, sign) == Forbidden("Access denied")
  {
  }

  /**
   * An owner can always fetch their own upload: a path built by the upload
   * function for `user` passes both checks, so the reply is the signed URL,
   * or a 500 when the signer fails.
   */
  lemma OwnerCanDownload(user: UserId, assetId: string, now: Time, filename: string,
                         req: DownloadRequest, sign: (string, nat) -> Option<string>)
    requires req.verb in {POST, GET}
    requires RequestedPath(req) == Str(StoragePresignedUpload.StoragePath(user, assetId, now,
                                         StoragePresignedUpload.Sanitize(filename)))
    ensures var path := StoragePresignedUpload.StoragePath(user, assetId, now, StoragePresignedUpload.Sanitize(filename));
      match sign(path, ExpiresIn)
      case None => Download(user, req, sign) == ServerError
      case Some(url) => Download(user, req, sign) == Signed(path, ExpiresIn, url)
  {
    var path := StoragePresignedUpload.StoragePath(user, assetId, now, StoragePresignedUpload.Sanitize(filename));
    StoragePresignedUpload.PathStartsWithOwner(user, assetId, now, StoragePresignedUpload.Sanitize(filename));
    assert path != "" by {
      assert |path| >= |user + "/"|;
    }
  }

  /** In a path under `<user>/`, with no `/` in the id, the first `/` sits right after the id. */
  lemma FirstSlash(path: string, user: UserId)
    requires '/' !in user && OwnedBy(path, user)
    ensures |user| < |path| && path[|user|] == '/'
    ensures forall k :: 0 <= k < |user| ==> path[k] != '/'
    ensures path[..|user|] == user
  {
    assert path[..|user| + 1] == user + "/";
    forall k | 0 <= k < |user| ensures path[k] != '/' {
      assert path[k] == path[..|user| + 1][k] == user[k];
    }
    assert path[..|user|] == path[..|user| + 1][..|user|];
  }

  /** Two owner prefixes of one path name the same owner when neither id holds a `/`. */
  lemma OwnerPrefixUnique(path: string, user: UserId, other: UserId)
    requires '/' !in user && '/' !in other
    requires OwnedBy(path, user) && OwnedBy(path, other)
    ensures user == other
  {
    FirstSlash(path, user);
    FirstSlash(path, other);
    assert |user| == |other|;
  }

  /**
   * No one but the owner can fetch an upload: with user ids that hold no
   * `/`, another caller asking for a path the upload function built for
   * `owner` is refused with 403.
   */
  lemma OtherUserForbidden(owner: UserId, caller: UserId, assetId: string, now: Time, filename: string,
                           req: DownloadRequest, sign: (string, nat) -> Option<string>)
    requires '/' !in owner && '/' !in caller && owner != caller
    requires req.verb in {POST, GET}
    requires RequestedPath(req) == Str(StoragePresignedUpload.StoragePath(owner, assetId, now,
                                         StoragePresignedUpload.Sanitize(filename)))
    ensures Download(caller, req, sign) == Forbidden("Access denied")
  {
    var path := StoragePresignedUpload.StoragePath(owner, assetId, now, StoragePresignedUpload.Sanitize(filename));
    StoragePresignedUpload.PathStartsWithOwner(owner, assetId, now, StoragePresignedUpload.Sanitize(filename));
    assert |path| >= |owner + "/"|;
    if OwnedBy(path, caller) {
      OwnerPrefixUnique(path, owner, caller);
    }
  }
}
