/** The `AuthCode` model's queries and updates on `oauth_auth_codes`. */
module AuthCodes {
  import opened Results
  import opened Schema
  import Query
  import Purging

  /** `findById`. */
  function FindById(codes: map<TokenId, AuthCode>, id: TokenId): Option<AuthCode>
  {
    Query.Find(codes, id)
  }

  /** `isRevoked` on a loaded code. */
  function IsRevoked(c: AuthCode): bool
  {
    c.revoked
  }

  /** The table after `revoke` of the loaded code with key `id`. */
  function Revoked(codes: map<TokenId, AuthCode>, id: TokenId): map<TokenId, AuthCode>
  {
    Query.Update(codes, id, RevokeAuthCode)
  }

  /** Revoking is idempotent and leaves every other column and row as it was. */
  lemma RevokeOnlyFlipsTheFlag(codes: map<TokenId, AuthCode>, id: TokenId)
    ensures Revoked(Revoked(codes, id), id) == Revoked(codes, id)
    ensures Revoked(codes, id).Keys == codes.Keys
    ensures id in codes ==> Revoked(codes, id)[id] == codes[id].(revoked := true)
    ensures id in codes ==> IsRevoked(Revoked(codes, id)[id])
    ensures forall k :: k in codes && k != id ==> Revoked(codes, id)[k] == codes[k]
  {
    Query.UpdateTwice(codes, id, RevokeAuthCode);
  }

  /** `createAuthCode`: INSERT a row holding exactly the arguments; a taken key throws. */
  method CreateAuthCode(db: Database, id: TokenId, userId: UserId, clientId: ClientId,
                        scopes: string, revoked: bool, expiresAt: int)
    returns (r: Result<AuthCode>)
    requires db.Valid()
    modifies db`authCodes
    ensures db.Valid()
    ensures id in old(db.authCodes) <==> r == Err(DuplicateKey)
    ensures r.Err? ==> db.authCodes == old(db.authCodes)
    ensures r.Ok? ==> r.value == AuthCode(id, userId, clientId, scopes, revoked, expiresAt)
    ensures r.Ok? ==> db.authCodes == old(db.authCodes)[id := r.value]
    ensures r.Ok? ==> FindById(db.authCodes, id) == Some(r.value)
  {
    if id in db.authCodes {
      return Err(DuplicateKey);
    }
    var code := AuthCode(id, userId, clientId, scopes, revoked, expiresAt);
    db.authCodes := db.authCodes[id := code];
    r := Ok(code);
  }

  /** `revoke` on the loaded code with key `id`. */
  method Revoke(db: Database, id: TokenId)
    requires db.Valid()
    modifies db`authCodes
    ensures db.Valid()
    ensures db.authCodes == Revoked(old(db.authCodes), id)
  {
    db.authCodes := Query.Update(db.authCodes, id, RevokeAuthCode);
  }

  /** `deleteRevoked`. */
  method DeleteRevoked(db: Database)
    requires db.Valid()
    modifies db`authCodes
    ensures db.Valid()
    ensures db.authCodes == Purging.DeleteRevoked(old(db.authCodes), AuthCodeRevoked)
  {
    db.authCodes := Purging.DeleteRevoked(db.authCodes, AuthCodeRevoked);
  }

  /** `deleteExpiredPriorTo`. */
  method DeleteExpiredPriorTo(db: Database, expired: int)
    requires db.Valid()
    modifies db`authCodes
    ensures db.Valid()
    ensures db.authCodes == Purging.DeleteExpiredPriorTo(old(db.authCodes), AuthCodeExpiresAt, expired)
  {
    db.authCodes := Purging.DeleteExpiredPriorTo(db.authCodes, AuthCodeExpiresAt, expired);
  }

  /** `deleteRevokedOrExpiredPriorTo`. */
  method DeleteRevokedOrExpiredPriorTo(db: Database, expired: int)
    requires db.Valid()
    modifies db`authCodes
    ensures db.Valid()
    ensures db.authCodes == Purging.DeleteRevokedOrExpiredPriorTo(old(db.authCodes), AuthCodeRevoked, AuthCodeExpiresAt, expired)
  {
    db.authCodes := Purging.DeleteRevokedOrExpiredPriorTo(db.authCodes, AuthCodeRevoked, AuthCodeExpiresAt, expired);
  }
}
