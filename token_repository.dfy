/** `TokenRepository`: the access-token operations the OAuth2 server calls. */
module TokenRepository {
  import opened Results
  import opened Schema
  import Tokens

  /** `isAccessTokenRevoked`: fail closed, an unknown id counts as revoked. */
  function IsAccessTokenRevoked(tokens: map<TokenId, Token>, id: TokenId): (r: bool)
    ensures id !in tokens ==> r
    ensures id in tokens ==> (r <==> tokens[id].revoked)
    ensures !r <==> Tokens.FindById(tokens, id).Some? && !Tokens.FindById(tokens, id).value.revoked
  {
    match Tokens.FindById(tokens, id)
    case Some(token) => Tokens.IsRevoked(token)
    case None => true
  }

  /** After `revoke`, the token reads as revoked and every other token reads as before. */
  lemma RevokedTokenReadsRevoked(tokens: map<TokenId, Token>, id: TokenId)
    ensures IsAccessTokenRevoked(Tokens.Revoked(tokens, id), id)
    ensures forall k :: k != id ==> IsAccessTokenRevoked(Tokens.Revoked(tokens, id), k) == IsAccessTokenRevoked(tokens, k)
  {
    Tokens.RevokeOnlyFlipsTheFlag(tokens, id);
  }

  /** `create`. */
  method Create(db: Database, id: TokenId, userId: Option<UserId>, clientId: ClientId,
                scopes: seq<string>, revoked: bool, createdAt: int, updatedAt: int, expiresAt: int)
    returns (r: Result<Token>)
    requires db.Valid()
    modifies db`tokens
    ensures db.Valid()
    ensures id in old(db.tokens) <==> r == Err(DuplicateKey)
    ensures r.Err? ==> db.tokens == old(db.tokens)
    ensures r.Ok? ==> db.tokens == old(db.tokens)[id := r.value]
    ensures r.Ok? ==> Tokens.FindById(db.tokens, id)
                      == Some(Token(id, userId, clientId, scopes, revoked, createdAt, updatedAt, expiresAt))
    ensures r.Ok? ==> IsAccessTokenRevoked(db.tokens, id) == revoked
  {
    r := Tokens.CreateToken(db, id, userId, clientId, scopes, revoked, createdAt, updatedAt, expiresAt);
  }

  /**
    `revokeAccessToken`: the source calls `revoke()` on the result of `findById` without a
    null check, so the token must exist.
   */
  method RevokeAccessToken(db: Database, id: TokenId)
    requires db.Valid()
    requires id in db.tokens
    modifies db`tokens
    ensures db.Valid()
    ensures db.tokens == Tokens.Revoked(old(db.tokens), id)
    ensures IsAccessTokenRevoked(db.tokens, id)
  {
    Tokens.Revoke(db, id);
    RevokedTokenReadsRevoked(old(db.tokens), id);
  }
}
