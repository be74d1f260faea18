/** The OAuth2 server's refresh-token repository, a thin layer over `RefreshTokenRepository`. */
module BridgeRefreshTokenRepository {
  import opened Results
  import opened Schema
  import RefreshTokens
  import PassportRefreshTokens = RefreshTokenRepository

  /** What the OAuth2 server hands over: the entity's identifier, its access token's identifier
      and its expiry. */
  datatype RefreshTokenEntity = RefreshTokenEntity(identifier: TokenId, accessTokenIdentifier: TokenId, expiry: int)

  /** `persistNewRefreshToken`: create an unrevoked row for the entity. */
  method PersistNewRefreshToken(db: Database, entity: RefreshTokenEntity) returns (r: Outcome)
    requires db.Valid()
    modifies db`refreshTokens
    ensures db.Valid()
    ensures entity.identifier in old(db.refreshTokens) <==> r == Fail(DuplicateKey)
    ensures r.Fail? ==> db.refreshTokens == old(db.refreshTokens)
    ensures r.Pass? ==> db.refreshTokens == old(db.refreshTokens)[entity.identifier :=
              RefreshToken(entity.identifier, entity.accessTokenIdentifier, false, entity.expiry)]
    ensures r.Pass? ==> !IsRefreshTokenRevoked(db, entity.identifier)
  {
    var created := PassportRefreshTokens.Create(db, entity.identifier, entity.accessTokenIdentifier, false, entity.expiry);
    if created.Err? {
      return Fail(created.error);
    }
    r := Pass;
  }

  /** `revokeRefreshToken`: an unknown id changes nothing. */
  method RevokeRefreshToken(db: Database, id: TokenId)
    requires db.Valid()
    modifies db`refreshTokens
    ensures db.Valid()
    ensures id !in old(db.refreshTokens) ==> db.refreshTokens == old(db.refreshTokens)
    ensures id in old(db.refreshTokens) ==> db.refreshTokens == RefreshTokens.Revoked(old(db.refreshTokens), id)
    ensures IsRefreshTokenRevoked(db, id)
  {
    var _ := PassportRefreshTokens.RevokeRefreshToken(db, id);
  }

  /** `isRefreshTokenRevoked`: fail closed, a token the table does not hold reads as revoked. */
  predicate IsRefreshTokenRevoked(db: Database, id: TokenId): (r: bool)
    reads db
    ensures r <==> id !in db.refreshTokens || db.refreshTokens[id].revoked
  {
    PassportRefreshTokens.IsRefreshTokenRevoked(db.refreshTokens, id)
  }

  /** A persisted token reads as active until it is revoked, then as revoked. */
  lemma PersistThenRevoke(rows: map<TokenId, RefreshToken>, entity: RefreshTokenEntity)
    requires entity.identifier !in rows
    ensures var persisted := rows[entity.identifier :=
                               RefreshToken(entity.identifier, entity.accessTokenIdentifier, false, entity.expiry)];
      && !PassportRefreshTokens.IsRefreshTokenRevoked(persisted, entity.identifier)
      && PassportRefreshTokens.IsRefreshTokenRevoked(RefreshTokens.Revoked(persisted, entity.identifier), entity.identifier)
      && forall id :: id != entity.identifier ==>
           PassportRefreshTokens.IsRefreshTokenRevoked(persisted, id) == PassportRefreshTokens.IsRefreshTokenRevoked(rows, id)
  {
    var persisted := rows[entity.identifier :=
                          RefreshToken(entity.identifier, entity.accessTokenIdentifier, false, entity.expiry)];
    RefreshTokens.RevokeOnlyFlipsTheFlag(persisted, entity.identifier);
  }
}
