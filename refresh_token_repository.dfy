/** `RefreshTokenRepository`: the refresh-token operations the OAuth2 bridge calls. */
module RefreshTokenRepository {
  import opened Results
  import opened Schema
  import RefreshTokens

  /** `isRefreshTokenRevoked`: fail closed, an unknown id counts as revoked. */
  function IsRefreshTokenRevoked(rows: map<TokenId, RefreshToken>, id: TokenId): (r: bool)
    ensures id !in rows ==> r
    ensures id in rows ==> (r <==> rows[id].revoked)
    ensures !r <==> RefreshTokens.FindById(rows, id).Some? && !RefreshTokens.FindById(rows, id).value.revoked
  {
    match RefreshTokens.FindById(rows, id)
    case Some(token) => RefreshTokens.IsRevoked(token)
    case None => true
  }

  /** `create`. */
  method Create(db: Database, id: TokenId, accessTokenId: TokenId, revoked: bool, expiresAt: int)
    returns (r: Result<RefreshToken>)
    requires db.Valid()
    modifies db`refreshTokens
    ensures db.Valid()
    ensures id in old(db.refreshTokens) <==> r == Err(DuplicateKey)
    ensures r.Err? ==> db.refreshTokens == old(db.refreshTokens)
    ensures r.Ok? ==> db.refreshTokens == old(db.refreshTokens)[id := r.value]
    ensures r.Ok? ==> RefreshTokens.FindById(db.refreshTokens, id) == Some(RefreshToken(id, accessTokenId, revoked, expiresAt))
    ensures r.Ok? ==> IsRefreshTokenRevoked(db.refreshTokens, id) == revoked
  {
    r := RefreshTokens.CreateRefreshToken(db, id, accessTokenId, revoked, expiresAt);
  }

  /** `revokeRefreshToken`: revoke the row if there is one; `found` is the method's result. */
  method RevokeRefreshToken(db: Database, id: TokenId) returns (found: bool)
    requires db.Valid()
    modifies db`refreshTokens
    ensures db.Valid()
    ensures found <==> id in old(db.refreshTokens)
    ensures !found ==> db.refreshTokens == old(db.refreshTokens)
    ensures found ==> db.refreshTokens == RefreshTokens.Revoked(old(db.refreshTokens), id)
    ensures found ==> IsRefreshTokenRevoked(db.refreshTokens, id)
    ensures forall k :: k in old(db.refreshTokens) && k != id ==> db.refreshTokens[k] == old(db.refreshTokens)[k]
  {
    var token := RefreshTokens.FindById(db.refreshTokens, id);
    if token.Some? {
      RefreshTokens.Revoke(db, id);
      RefreshTokens.RevokeOnlyFlipsTheFlag(old(db.refreshTokens), id);
      return true;
    }
    return false;
  }

  /** `revokeRefreshTokensByAccessTokenId`. */
  method RevokeRefreshTokensByAccessTokenId(db: Database, accessTokenId: TokenId)
    requires db.Valid()
    modifies db`refreshTokens
    ensures db.Valid()
    ensures db.refreshTokens == RefreshTokens.RevokedWithAccessTokenId(old(db.refreshTokens), accessTokenId)
    ensures forall id :: id in old(db.refreshTokens) && old(db.refreshTokens)[id].accessTokenId == accessTokenId
                         ==> IsRefreshTokenRevoked(db.refreshTokens, id)
    ensures forall id :: id in old(db.refreshTokens) && old(db.refreshTokens)[id].accessTokenId != accessTokenId
                         ==> db.refreshTokens[id] == old(db.refreshTokens)[id]
  {
    var _ := RefreshTokens.RevokeWithAccessTokenId(db, accessTokenId);
    RefreshTokens.RevokeWithAccessTokenIdEffect(old(db.refreshTokens), accessTokenId);
  }
}
