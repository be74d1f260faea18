/**
  The relational schema: one record type per table, and the database holding the
  tables as maps from primary key to row. Timestamps are integers (seconds).
 */
module Schema {
  import opened Results

  type TokenId = string
  type ClientId = nat
  type UserId = int

  /** A row of `oauth_access_tokens`. */
  datatype Token = Token(
    id: TokenId,
    userId: Option<UserId>,
    clientId: ClientId,
    scopes: seq<string>,
    revoked: bool,
    createdAt: int,
    updatedAt: int,
    expiresAt: int)

  /** A row of `oauth_clients`; `secret` is null for public clients. */
  datatype Client = Client(
    id: ClientId,
    userId: Option<UserId>,
    name: string,
    secret: Option<string>,
    redirect: string,
    personalAccessClient: bool,
    passwordClient: bool,
    revoked: bool)

  /** A row of `oauth_refresh_tokens`. */
  datatype RefreshToken = RefreshToken(
    id: TokenId,
    accessTokenId: TokenId,
    revoked: bool,
    expiresAt: int)

  /** A row of `oauth_auth_codes`; `scopes` is the already formatted column text. */
  datatype AuthCode = AuthCode(
    id: TokenId,
    userId: UserId,
    clientId: ClientId,
    scopes: string,
    revoked: bool,
    expiresAt: int)

  /** A row of `oauth_personal_access_clients`. */
  datatype PersonalAccessClient = PersonalAccessClient(
    id: ClientId,
    clientId: ClientId,
    createdAt: int)

  /** The static settings of the `Passport` class that the modelled code consults. */
  datatype Config = Config(
    withInheritedScopes: bool,
    hashesClientSecrets: bool,
    personalAccessClientId: Option<ClientId>)

  // Column accessors, passed to the generic table operations.

  function TokenRevoked(t: Token): bool { t.revoked }
  function TokenExpiresAt(t: Token): int { t.expiresAt }
  function RevokeToken(t: Token): Token { t.(revoked := true) }

  function RefreshTokenRevoked(t: RefreshToken): bool { t.revoked }
  function RefreshTokenExpiresAt(t: RefreshToken): int { t.expiresAt }
  function RevokeRefreshToken(t: RefreshToken): RefreshToken { t.(revoked := true) }

  function AuthCodeRevoked(c: AuthCode): bool { c.revoked }
  function AuthCodeExpiresAt(c: AuthCode): int { c.expiresAt }
  function RevokeAuthCode(c: AuthCode): AuthCode { c.(revoked := true) }

  /** The database: every table keyed by its primary key. */
  class Database {
    var clients: map<ClientId, Client>
    var nextClientId: ClientId  // the auto-increment counter of `oauth_clients`
    var tokens: map<TokenId, Token>
    var refreshTokens: map<TokenId, RefreshToken>
    var authCodes: map<TokenId, AuthCode>
    var personalAccessClients: map<ClientId, PersonalAccessClient>

    /** Every row sits under its own primary key; client keys were handed out by the counter. */
    ghost predicate Valid()
      reads this
    {
      && (forall id :: id in clients ==> clients[id].id == id && id < nextClientId)
      && (forall id :: id in tokens ==> tokens[id].id == id)
      && (forall id :: id in refreshTokens ==> refreshTokens[id].id == id)
      && (forall id :: id in authCodes ==> authCodes[id].id == id)
      && (forall id :: id in personalAccessClients ==> personalAccessClients[id].id == id)
    }

    constructor ()
      ensures Valid()
      ensures clients == map[] && nextClientId == 1
      ensures tokens == map[] && refreshTokens == map[] && authCodes == map[]
      ensures personalAccessClients == map[]
    {
      clients, nextClientId := map[], 1;
      tokens, refreshTokens, authCodes := map[], map[], map[];
      personalAccessClients := map[];
    }
  }
}
