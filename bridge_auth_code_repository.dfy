/** The OAuth2 server's auth-code repository over the `AuthCode` model. */
module BridgeAuthCodeRepository {
  import opened Results
  import opened Schema
  import AuthCodes

  /** What the OAuth2 server hands over for a new authorization code. */
  datatype AuthCodeEntity = AuthCodeEntity(
    identifier: TokenId,
    userIdentifier: UserId,
    clientIdentifier: ClientId,
    scopes: seq<string>,
    expiry: int)

  /** `isAuthCodeRevoked`: fail closed, an unknown code counts as revoked. */
  function IsAuthCodeRevoked(codes: map<TokenId, AuthCode>, id: TokenId): (r: bool)
    ensures id !in codes ==> r
    ensures id in codes ==> (r <==> codes[id].revoked)
  {
    match AuthCodes.FindById(codes, id)
    case Some(code) => AuthCodes.IsRevoked(code)
    case None => true
  }

  /** The row `persistNewAuthCode` stores; `formatScopes` is the storage format of the scopes. */
  function PersistedCode(entity: AuthCodeEntity, formatScopes: seq<string> -> string): AuthCode
  {
    AuthCode(entity.identifier, entity.userIdentifier, entity.clientIdentifier, formatScopes(entity.scopes), false, entity.expiry)
  }

  /** `persistNewAuthCode`: create an unrevoked code for the entity. */
  method PersistNewAuthCode(db: Database, entity: AuthCodeEntity, formatScopes: seq<string> -> string)
    returns (r: Outcome)
    requires db.Valid()
    modifies db`authCodes
    ensures db.Valid()
    ensures entity.identifier in old(db.authCodes) <==> r == Fail(DuplicateKey)
    ensures r.Fail? ==> db.authCodes == old(db.authCodes)
    ensures r.Pass? ==> db.authCodes == old(db.authCodes)[entity.identifier := PersistedCode(entity, formatScopes)]
    ensures r.Pass? ==> !IsAuthCodeRevoked(db.authCodes, entity.identifier)
  {
    var created := AuthCodes.CreateAuthCode(db, entity.identifier, entity.userIdentifier, entity.clientIdentifier,
                                            formatScopes(entity.scopes), false, entity.expiry);
    if created.Err? {
      return Fail(created.error);
    }
    r := Pass;
  }

  /** `revokeAuthCode`: revoke the code if it exists; an unknown id changes nothing. */
  method RevokeAuthCode(db: Database, id: TokenId)
    requires db.Valid()
    modifies db`authCodes
    ensures db.Valid()
    ensures id !in old(db.authCodes) ==> db.authCodes == old(db.authCodes)
    ensures id in old(db.authCodes) ==> db.authCodes == AuthCodes.Revoked(old(db.authCodes), id)
    ensures IsAuthCodeRevoked(db.authCodes, id)
  {
    var code := AuthCodes.FindById(db.authCodes, id);
    if code.Some? {
      AuthCodes.Revoke(db, id);
      AuthCodes.RevokeOnlyFlipsTheFlag(old(db.authCodes), id);
    }
  }

  /** Persisting a code and then revoking it leaves it revoked, and no other code's answer changes. */
  lemma PersistThenRevoke(codes: map<TokenId, AuthCode>, entity: AuthCodeEntity, formatScopes: seq<string> -> string)
    requires entity.identifier !in codes
    ensures var persisted := codes[entity.identifier := PersistedCode(entity, formatScopes)];
      && !IsAuthCodeRevoked(persisted, entity.identifier)
      && IsAuthCodeRevoked(AuthCodes.Revoked(persisted, entity.identifier), entity.identifier)
      && forall id :: id != entity.identifier ==>
           IsAuthCodeRevoked(AuthCodes.Revoked(persisted, entity.identifier), id) == IsAuthCodeRevoked(codes, id)
  {
    var persisted := codes[entity.identifier := PersistedCode(entity, formatScopes)];
    AuthCodes.RevokeOnlyFlipsTheFlag(persisted, entity.identifier);
  }
}
