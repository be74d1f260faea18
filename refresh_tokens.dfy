/** The `RefreshToken` model's queries and updates on `oauth_refresh_tokens`. */
module RefreshTokens {
  import opened Results
  import opened Schema
  import Query
  import Purging

  /** `findById`. */
  function FindById(rows: map<TokenId, RefreshToken>, id: TokenId): Option<RefreshToken>
  {
    Query.Find(rows, id)
  }

  /** `isRevoked` on a loaded refresh token. */
  function IsRevoked(t: RefreshToken): bool
  {
    t.revoked
  }

  /** The table after `revoke` of the loaded refresh token with key `id`. */
  function Revoked(rows: map<TokenId, RefreshToken>, id: TokenId): map<TokenId, RefreshToken>
  {
    Query.Update(rows, id, RevokeRefreshToken)
  }

  /** Revoking is idempotent and leaves every other column and row as it was. */
  lemma RevokeOnlyFlipsTheFlag(rows: map<TokenId, RefreshToken>, id: TokenId)
    ensures Revoked(Revoked(rows, id), id) == Revoked(rows, id)
    ensures Revoked(rows, id).Keys == rows.Keys
    ensures id in rows ==> Revoked(rows, id)[id] == rows[id].(revoked := true)
    ensures id in rows ==> IsRevoked(Revoked(rows, id)[id])
    ensures forall k :: k in rows && k != id ==> Revoked(rows, id)[k] == rows[k]
  {
    Query.UpdateTwice(rows, id, RevokeRefreshToken);
  }

  /** Selects the refresh tokens issued with one access token. */
  function OfAccessToken(accessTokenId: TokenId): RefreshToken -> bool
  {
    (t: RefreshToken) => t.accessTokenId == accessTokenId
  }

  /** The table after `revokeWithAccessTokenId`. */
  function RevokedWithAccessTokenId(rows: map<TokenId, RefreshToken>, accessTokenId: TokenId)
    : map<TokenId, RefreshToken>
  {
    Query.UpdateWhere(rows, OfAccessToken(accessTokenId), RevokeRefreshToken)
  }

  /** `revokeWithAccessTokenId` revokes the access token's refresh tokens and touches no other
      row or column; a second run changes nothing. */
  lemma RevokeWithAccessTokenIdEffect(rows: map<TokenId, RefreshToken>, accessTokenId: TokenId)
    ensures RevokedWithAccessTokenId(rows, accessTokenId).Keys == rows.Keys
    ensures forall id :: id in rows && rows[id].accessTokenId == accessTokenId
                         ==> RevokedWithAccessTokenId(rows, accessTokenId)[id] == rows[id].(revoked := true)
    ensures forall id :: id in rows && rows[id].accessTokenId != accessTokenId
                         ==> RevokedWithAccessTokenId(rows, accessTokenId)[id] == rows[id]
    ensures RevokedWithAccessTokenId(RevokedWithAccessTokenId(rows, accessTokenId), accessTokenId)
         == RevokedWithAccessTokenId(rows, accessTokenId)
  {
    Query.UpdateWhereTwice(rows, OfAccessToken(accessTokenId), RevokeRefreshToken);
  }

  /** `createRefreshToken`: INSERT a row holding exactly the arguments; a taken key throws. */
  method CreateRefreshToken(db: Database, id: TokenId, accessTokenId: TokenId, revoked: bool, expiresAt: int)
    returns (r: Result<RefreshToken>)
    requires db.Valid()
    modifies db`refreshTokens
    ensures db.Valid()
    ensures id in old(db.refreshTokens) <==> r == Err(DuplicateKey)
    ensures r.Err? ==> db.refreshTokens == old(db.refreshTokens)
    ensures r.Ok? ==> r.value == RefreshToken(id, accessTokenId, revoked, expiresAt)
    ensures r.Ok? ==> db.refreshTokens == old(db.refreshTokens)[id := r.value]
    ensures r.Ok? ==> FindById(db.refreshTokens, id) == Some(r.value)
  {
    if id in db.refreshTokens {
      return Err(DuplicateKey);
    }
    var token := RefreshToken(id, accessTokenId, revoked, expiresAt);
    db.refreshTokens := db.refreshTokens[id := token];
    r := Ok(token);
  }

  /** `revoke` on the loaded refresh token with key `id`. */
  method Revoke(db: Database, id: TokenId)
    requires db.Valid()
    modifies db`refreshTokens
    ensures db.Valid()
    ensures db.refreshTokens == Revoked(old(db.refreshTokens), id)
  {
    db.refreshTokens := Query.Update(db.refreshTokens, id, RevokeRefreshToken);
  }

  /** `revokeWithAccessTokenId`: a bulk UPDATE, answering how many rows matched. */
  method RevokeWithAccessTokenId(db: Database, accessTokenId: TokenId) returns (count: nat)
    requires db.Valid()
    modifies db`refreshTokens
    ensures db.Valid()
    ensures db.refreshTokens == RevokedWithAccessTokenId(old(db.refreshTokens), accessTokenId)
    ensures count == Query.CountWhere(old(db.refreshTokens), OfAccessToken(accessTokenId))
  {
    count := Query.CountWhere(db.refreshTokens, OfAccessToken(accessTokenId));
    db.refreshTokens := RevokedWithAccessTokenId(db.refreshTokens, accessTokenId);
  }

  /** `deleteRevoked`. */
  method DeleteRevoked(db: Database)
    requires db.Valid()
    modifies db`refreshTokens
    ensures db.Valid()
    ensures db.refreshTokens == Purging.DeleteRevoked(old(db.refreshTokens), RefreshTokenRevoked)
  {
    db.refreshTokens := Purging.DeleteRevoked(db.refreshTokens, RefreshTokenRevoked);
  }

  /** `deleteExpiredPriorTo`. */
  method DeleteExpiredPriorTo(db: Database, expired: int)
    requires db.Valid()
    modifies db`refreshTokens
    ensures db.Valid()
    ensures db.refreshTokens == Purging.DeleteExpiredPriorTo(old(db.refreshTokens), RefreshTokenExpiresAt, expired)
  {
    db.refreshTokens := Purging.DeleteExpiredPriorTo(db.refreshTokens, RefreshTokenExpiresAt, expired);
  }

  /** `deleteRevokedOrExpiredPriorTo`. */
  method DeleteRevokedOrExpiredPriorTo(db: Database, expired: int)
    requires db.Valid()
    modifies db`refreshTokens
    ensures db.Valid()
    ensures db.refreshTokens
         == Purging.DeleteRevokedOrExpiredPriorTo(old(db.refreshTokens), RefreshTokenRevoked, RefreshTokenExpiresAt, expired)
  {
    db.refreshTokens := Purging.DeleteRevokedOrExpiredPriorTo(db.refreshTokens, RefreshTokenRevoked, RefreshTokenExpiresAt, expired);
  }
}
