/**
 * The `storage-confirm-upload` function: look up the caller's asset and mark
 * it active, with the size the client reports.
 */
module StorageConfirmUpload {
  import opened Wrappers
  import opened Tables
  import StoragePresignedUpload

  /** The request body fields the handler reads; an absent field is `None`. */
  datatype ConfirmRequest = ConfirmRequest(assetId: Option<string>, sizeBytes: Option<int>)

  /** What the handler's collaborators answer: the lookup, the update, and the clock. */
  datatype ConfirmEnv = ConfirmEnv(lookupFails: bool, updateFails: bool, now: Time)

  datatype ConfirmReply =
    | BadRequest(error: string)  // 400
    | NotFound(error: string)    // 404
    | ServerError                // 500, the backend's message is not modelled
    | Confirmed                  // 200, `success: true`

  /**
   * The update: status `active` and a fresh `updated_at`; `size_bytes ??
   * asset.size_bytes` reads a column the lookup never selected, so without a
   * reported size the update carries no size and the stored one stays.
   */
  function Activate(a: Asset, sizeBytes: Option<int>, now: Time): (r: Asset)
    ensures r.status == "active" && r.updatedAt == now
    ensures sizeBytes.Some? ==> r.sizeBytes == sizeBytes.value
    ensures sizeBytes.None? ==> r.sizeBytes == a.sizeBytes
    ensures r.id == a.id && r.userId == a.userId && r.storagePath == a.storagePath && r.version == a.version
  {
    a.(status := "active", sizeBytes := sizeBytes.GetOr(a.sizeBytes), updatedAt := now)
  }

  /** One request, as a function of the assets table before it: the reply and the table after it. */
  function ConfirmStep(assets: seq<Asset>, user: UserId, req: ConfirmRequest, env: ConfirmEnv): (r: (ConfirmReply, seq<Asset>))
    ensures r.0 == BadRequest("asset_id is required") <==> req.assetId.None? || req.assetId.value == ""
    ensures r.0 == Confirmed <==> && req.assetId.Some? && req.assetId.value != "" && !env.lookupFails && !env.updateFails
                                  && exists i :: 0 <= i < |assets| && assets[i].id == req.assetId.value
                                                                  && assets[i].userId == user
    ensures r.0 != Confirmed ==> r.1 == assets
    ensures |r.1| == |assets|
  {
    if req.assetId.None? || req.assetId.value == "" then (BadRequest("asset_id is required"), assets)
    else
      var at := FindAsset(assets, req.assetId.value, user);
      if env.lookupFails || at.None? then (NotFound("Asset not found"), assets)
      else if env.updateFails then (ServerError, assets)
      else (Confirmed, assets[at.value := Activate(assets[at.value], req.sizeBytes, env.now)])
  }

  /** The handler body after authentication (`user` is the caller). */
  method Confirm(db: Database, user: UserId, req: ConfirmRequest, env: ConfirmEnv) returns (reply: ConfirmReply)
    requires db.Valid()
    modifies db
    ensures db.Valid()
    ensures db.jobs == old(db.jobs) && db.outputs == old(db.outputs)
         && db.usage == old(db.usage) && db.accounting == old(db.accounting)
    ensures (reply, db.assets) == ConfirmStep(old(db.assets), user, req, env)
  {
    if req.assetId.None? || req.assetId.value == "" {
      return BadRequest("asset_id is required");
    }
    var assetId := req.assetId.value;
    var at := FindAsset(db.assets, assetId, user);
    if env.lookupFails || at.None? {
      return NotFound("Asset not found");
    }
    if env.updateFails {
      return ServerError;
    }
    var i := at.value;
    var updated := Activate(db.assets[i], req.sizeBytes, env.now);
    ReplaceKeepsAssetIdsUnique(db.assets, i, updated);
    db.assets := db.assets[i := updated];
    reply := Confirmed;
  }

  // ------------------------------------------------------- what a step does

  /** An asset that is absent or someone else's is a 404 and no row changes. */
  lemma NotOwnedNotFound(assets: seq<Asset>, user: UserId, req: ConfirmRequest, env: ConfirmEnv)
    requires req.assetId.Some? && req.assetId.value != ""
    requires forall i :: 0 <= i < |assets| ==> !(assets[i].id == req.assetId.value && assets[i].userId == user)
    ensures ConfirmStep(assets, user, req, env) == (NotFound("Asset not found"), assets)
  {
  }

  /**
   * A confirmed request changes one row only, the caller's asset with that
   * id: its status becomes `active` whatever it was, its size is the reported
   * one or stays, and every other column but `updated_at` is kept. Any other
   * reply changes nothing.
   */
  lemma ConfirmTouchesOnlyTarget(assets: seq<Asset>, user: UserId, req: ConfirmRequest, env: ConfirmEnv)
    ensures var (reply, assets') := ConfirmStep(assets, user, req, env);
      && (reply != Confirmed ==> assets' == assets)
      && (reply == Confirmed ==>
            && |assets'| == |assets|
            && (exists i :: 0 <= i < |assets| && assets[i].id == req.assetId.value && assets[i].userId == user
                            && assets'[i].status == "active"
                            && assets'[i].sizeBytes == req.sizeBytes.GetOr(assets[i].sizeBytes)
                            && assets'[i] == assets[i].(status := "active", sizeBytes := assets'[i].sizeBytes,
                                                        updatedAt := env.now))
            && (forall k :: 0 <= k < |assets| && assets'[k] != assets[k]
                  ==> assets[k].id == req.assetId.value && assets[k].userId == user))
  {
    var (reply, assets') := ConfirmStep(assets, user, req, env);
    if reply == Confirmed {
      var i := FindAsset(assets, req.assetId.value, user).value;
      assert assets'[i] == Activate(assets[i], req.sizeBytes, env.now);
    }
  }

  /** Confirming again succeeds and keeps the asset active, with the same size when the same size is reported. */
  lemma ConfirmTwice(assets: seq<Asset>, user: UserId, req: ConfirmRequest, now: Time, later: Time)
    ensures var (r1, once) := ConfirmStep(assets, user, req, ConfirmEnv(false, false, now));
      var (r2, twice) := ConfirmStep(once, user, req, ConfirmEnv(false, false, later));
      r1 == Confirmed ==> (r2 == Confirmed && |twice| == |once|
                           && forall k :: 0 <= k < |once| ==> (twice[k].status == once[k].status
                                                             && twice[k].sizeBytes == once[k].sizeBytes))
  {
    var (r1, once) := ConfirmStep(assets, user, req, ConfirmEnv(false, false, now));
    if r1 == Confirmed {
      var i := FindAsset(assets, req.assetId.value, user).value;
      assert once[i].id == req.assetId.value && once[i].userId == user;
      var j := FindAsset(once, req.assetId.value, user);
      assert j.Some?;
      AssetLookupFindsLast(assets, i, req.assetId.value, user, Activate(assets[i], req.sizeBytes, now));
    }
  }

  /** The lookup finds the same row again after that row was updated in place. */
  lemma AssetLookupFindsLast(assets: seq<Asset>, i: nat, id: Id, user: UserId, a: Asset)
    requires FindAsset(assets, id, user) == Some(i)
    requires a.id == id && a.userId == user
    ensures FindAsset(assets[i := a], id, user) == Some(i)
  {
    var after := assets[i := a];
    // `FindAsset` picks the last matching row; row `i` still matches, and
    // every later row is unchanged and did not match before.
    assert after[i] == a;
    assert forall k :: i < k < |after| ==> after[k] == assets[k];
  }

  /**
   * Upload then confirm: after a successful upload, the same caller confirming
   * the returned `asset_id` activates that new row and keeps its path and
   * version.
   */
  lemma UploadThenConfirm(assets: seq<Asset>, user: UserId, up: StoragePresignedUpload.UploadRequest,
                          upEnv: StoragePresignedUpload.UploadEnv, size: Option<int>, now: Time)
    ensures var (upReply, uploaded) := StoragePresignedUpload.UploadStep(assets, user, up, upEnv);
      upReply.Presigned? ==>
        var (reply, confirmed) := ConfirmStep(uploaded, user, ConfirmRequest(Some(upReply.assetId), size),
                                              ConfirmEnv(false, false, now));
        && (upReply.assetId != "" ==> reply == Confirmed)
        && (upReply.assetId != "" ==>
              && confirmed[|assets|].status == "active"
              && confirmed[|assets|].storagePath == upReply.path
              && confirmed[|assets|].version == 1
              && confirmed[..|assets|] == assets)
  {
    var (upReply, uploaded) := StoragePresignedUpload.UploadStep(assets, user, up, upEnv);
    if upReply.Presigned? && upReply.assetId != "" {
      StoragePresignedUpload.PendingAssetInserted(assets, user, up, upEnv);
      assert uploaded[|uploaded| - 1].id == upReply.assetId && uploaded[|uploaded| - 1].userId == user;
      assert FindAsset(uploaded, upReply.assetId, user) == Some(|assets|);
      var (reply, confirmed) := ConfirmStep(uploaded, user, ConfirmRequest(Some(upReply.assetId), size),
                                            ConfirmEnv(false, false, now));
      assert confirmed == uploaded[|assets| := Activate(uploaded[|assets|], size, now)];
      assert confirmed[..|assets|] == uploaded[..|assets|];
    }
  }
}
