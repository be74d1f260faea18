/** The `Token` model's queries and updates on `oauth_access_tokens`. */
module Tokens {
  import opened Results
  import opened Schema
  import Query
  import Purging

  /** `findById`: the row with that key, or null. */
  function FindById(tokens: map<TokenId, Token>, id: TokenId): Option<Token>
  {
    Query.Find(tokens, id)
  }

  /** `findForUser`: the row with that key, only when it also belongs to that user. */
  function FindForUser(tokens: map<TokenId, Token>, tokenId: TokenId, userId: Option<UserId>): Option<Token>
  {
    Query.FindWhere(tokens, tokenId, (t: Token) => t.userId == userId)
  }

  /** `forUserId`: all rows of one user (a null user id selects the rows without a user). */
  function ForUserId(tokens: map<TokenId, Token>, userId: Option<UserId>): (r: map<TokenId, Token>)
    ensures forall id :: id in r <==> id in tokens && tokens[id].userId == userId
    ensures forall id :: id in r ==> r[id] == tokens[id]
  {
    Query.Where(tokens, (t: Token) => t.userId == userId)
  }

  /** A token `findValidToken` may return: the pair's, not revoked, expiring after `now`. */
  predicate ValidFor(t: Token, userId: UserId, clientId: ClientId, now: int)
  {
    t.userId == Some(userId) && t.clientId == clientId && t.expiresAt > now && !t.revoked
  }

  /** `findValidToken`: of the valid tokens of a (user, client) pair, one expiring last. */
  ghost function FindValidToken(tokens: map<TokenId, Token>, userId: UserId, clientId: ClientId, now: int)
    : (r: Option<Token>)
    ensures r.None? <==> forall id :: id in tokens ==> !ValidFor(tokens[id], userId, clientId, now)
    ensures r.Some? ==> ValidFor(r.value, userId, clientId, now)
    ensures r.Some? ==> exists id :: id in tokens && tokens[id] == r.value
    ensures r.Some? ==> forall id :: id in tokens && ValidFor(tokens[id], userId, clientId, now)
                                     ==> tokens[id].expiresAt <= r.value.expiresAt
  {
    var latest := Query.LatestWhere(tokens, (t: Token) => ValidFor(t, userId, clientId, now), TokenExpiresAt);
    if latest.None? then None else Some(tokens[latest.value])
  }

  /** `isRevoked` on a loaded token. */
  function IsRevoked(t: Token): bool
  {
    t.revoked
  }

  /** The table after `revoke` of the loaded token with key `id`: only its flag changes. */
  function Revoked(tokens: map<TokenId, Token>, id: TokenId): map<TokenId, Token>
  {
    Query.Update(tokens, id, RevokeToken)
  }

  /** Revoking is idempotent and leaves every other column and row as it was. */
  lemma RevokeOnlyFlipsTheFlag(tokens: map<TokenId, Token>, id: TokenId)
    ensures Revoked(Revoked(tokens, id), id) == Revoked(tokens, id)
    ensures Revoked(tokens, id).Keys == tokens.Keys
    ensures id in tokens ==> Revoked(tokens, id)[id] == tokens[id].(revoked := true)
    ensures id in tokens ==> IsRevoked(Revoked(tokens, id)[id])
    ensures forall k :: k in tokens && k != id ==> Revoked(tokens, id)[k] == tokens[k]
  {
    Query.UpdateTwice(tokens, id, RevokeToken);
  }

  /** `createToken`: INSERT a row holding exactly the arguments; a taken key throws. */
  method CreateToken(db: Database, id: TokenId, userId: Option<UserId>, clientId: ClientId,
                     scopes: seq<string>, revoked: bool, createdAt: int, updatedAt: int, expiresAt: int)
    returns (r: Result<Token>)
    requires db.Valid()
    modifies db`tokens
    ensures db.Valid()
    ensures id in old(db.tokens) <==> r == Err(DuplicateKey)
    ensures r.Err? ==> db.tokens == old(db.tokens)
    ensures r.Ok? ==> r.value == Token(id, userId, clientId, scopes, revoked, createdAt, updatedAt, expiresAt)
    ensures r.Ok? ==> db.tokens == old(db.tokens)[id := r.value]
    ensures r.Ok? ==> FindById(db.tokens, id) == Some(r.value)
  {
    if id in db.tokens {
      return Err(DuplicateKey);
    }
    var token := Token(id, userId, clientId, scopes, revoked, createdAt, updatedAt, expiresAt);
    db.tokens := db.tokens[id := token];
    r := Ok(token);
  }

  /** `revoke` on the loaded token with key `id`: UPDATE its `revoked` column to true. */
  method Revoke(db: Database, id: TokenId)
    requires db.Valid()
    modifies db`tokens
    ensures db.Valid()
    ensures db.tokens == Revoked(old(db.tokens), id)
  {
    db.tokens := Query.Update(db.tokens, id, RevokeToken);
  }

  /** `deleteRevoked`. */
  method DeleteRevoked(db: Database)
    requires db.Valid()
    modifies db`tokens
    ensures db.Valid()
    ensures db.tokens == Purging.DeleteRevoked(old(db.tokens), TokenRevoked)
  {
    db.tokens := Purging.DeleteRevoked(db.tokens, TokenRevoked);
  }

  /** `deleteExpiredPriorTo`. */
  method DeleteExpiredPriorTo(db: Database, expired: int)
    requires db.Valid()
    modifies db`tokens
    ensures db.Valid()
    ensures db.tokens == Purging.DeleteExpiredPriorTo(old(db.tokens), TokenExpiresAt, expired)
  {
    db.tokens := Purging.DeleteExpiredPriorTo(db.tokens, TokenExpiresAt, expired);
  }

  /** `deleteRevokedOrExpiredPriorTo`. */
  method DeleteRevokedOrExpiredPriorTo(db: Database, expired: int)
    requires db.Valid()
    modifies db`tokens
    ensures db.Valid()
    ensures db.tokens == Purging.DeleteRevokedOrExpiredPriorTo(old(db.tokens), TokenRevoked, TokenExpiresAt, expired)
  {
    db.tokens := Purging.DeleteRevokedOrExpiredPriorTo(db.tokens, TokenRevoked, TokenExpiresAt, expired);
  }
}
