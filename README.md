# Passport token store, modelled in Dafny

This project models the token store of a Laravel Passport fork. The store holds OAuth2 clients, access tokens,
refresh tokens, authorization codes and personal access clients. The model covers:

- how a token's scopes authorize a requested scope, with `:`-separated hierarchical scopes and the `*` wildcard;
- how the valid token of a (user, client) pair is chosen;
- the fail-closed revocation checks, where an unknown id reads as revoked;
- single-row and bulk revocation, including the cascade from a deleted client to its tokens;
- the client-secret policy (which clients get a secret, and whether it is stored hashed);
- the `passport:purge` console command and its three delete predicates.

Each database table is a `map` from primary key to row, held by the `Schema.Database` class. The
model classes' operations are methods whose frames name exactly the table fields they change (for example,
`Tokens.Revoke` may change only the `tokens` field).
Queries are functions over the maps. Timestamps are integers (seconds). The clock, the random secret
generator, bcrypt and the scope storage format are parameters.

Modules by source file:

| module | models |
|---|---|
| `Schema`, `Results`, `Query` | the tables, the `Passport` settings, and the query-builder calls (where, update, bulk update, `latest()->first()`) |
| `Purging` | the three purge deletes that `Token`, `AuthCode` and `RefreshToken` each define with the same query |
| `Scopes`, `Tokens` | `src/Token.php` |
| `TokenRepository` | `src/TokenRepository.php` |
| `Clients`, `Collation` | `src/Client.php` (with the `orderBy('name')` order) |
| `ClientRepository` | `src/ClientRepository.php` |
| `PersonalAccessClients` | `src/PersonalAccessClient.php` |
| `RefreshTokens`, `RefreshTokenRepository` | `src/RefreshToken.php`, `src/RefreshTokenRepository.php` |
| `BridgeRefreshTokenRepository` | `src/Bridge/RefreshTokenRepository.php` |
| `AuthCodes`, `BridgeAuthCodeRepository` | `src/AuthCode.php`, `src/Bridge/AuthCodeRepository.php` |
| `PurgeCommand` | `src/Console/PurgeCommand.php` |

Behaviour of the code worth knowing, modelled as written:

- `confidential()` is PHP's `! empty($this->secret)`. A client whose stored secret is the string `"0"` is therefore
  not confidential, although it has a non-empty secret (`Clients.Confidential`).
- The default purge (both flags or neither) removes rows whose expiry DATE is before the cutoff's date
  (`orWhereDate`), while `--expired` compares whole timestamps (`where <`). The default mode is not the union of the
  two single modes. A row that expired a few hours before the cutoff, on the cutoff's own day, is removed by
  `--expired` but kept by the default mode (`Purging.SameDayExpirySurvivesCombined`). The default mode equals the
  revoked delete after an expiry delete at the start of the cutoff's day (`Purging.RevokedOrExpiredIsUnionAtStartOfDay`).
- `Passport::$personalAccessClientId` is read as a PHP truth value, so a configured key of 0 counts as unset
  (`ClientRepository.Configured`).
- `revokeAccessToken` calls `revoke()` on the result of `findById` without a null check. Its model therefore
  requires the token to exist; the other revoke operations check for the row.
- Inserting a row under a key that is already taken makes the database throw. This is modelled as
  `Err(DuplicateKey)` / `Fail(DuplicateKey)`, with the table unchanged. In `createPersonalAccessClient`, the client
  row stays stored when the second insert fails, because nothing wraps the two inserts in a transaction.

## Model

| member | source | states |
|---|---|---|
| Query.Find | src/Token.php:93-96 | some row iff the key is in the table, and then that row (the `findById` of every model) |
| Query.FindWhere | src/Token.php:105-110 | a row only when its key matches and it passes the extra condition (`findForUser` of tokens and clients: the user id must match too) |
| Query.Where | src/Token.php:150-153 | exactly the rows that pass the condition, unchanged |
| Query.Update | src/Token.php:187-190 | saving a loaded row changes that row only, and nothing when the row is gone |
| Query.UpdateWhere | src/Client.php:241-244 | a bulk update changes every matching row and no other, keeping the keys |
| Query.LatestWhere | src/Token.php:164-169 | none iff no row passes the condition; otherwise a passing row with the greatest ordering column |
| Scopes.Split | src/Token.php:257 | `explode(':', s)` yields at least one segment, and no segment contains `:` |
| Scopes.JoinSplit | src/Token.php:257-264 | imploding the exploded segments gives back the scope |
| Scopes.JoinAt | src/Token.php:264 | joining the first k segments and then the rest, with a `:` between, gives the whole |
| Scopes.BoundaryIsJoinedPrefix | src/Token.php:264 | every boundary position of a joined scope is the length of a joined first-k-segment prefix |
| Scopes.EntriesAreBoundaryPrefixes | src/Token.php:255-268 | the joined first-k-segment prefixes are exactly the prefixes of the scope that end at a `:` or at its end |
| Scopes.NextEntry | src/Token.php:263-265 | prefix k+1 is prefix k, a `:`, and segment k+1 |
| Scopes.ResolveInheritedScopes | src/Token.php:255-268 | one entry per segment; entry k joins the first k+1 segments; each entry extends the previous one; the last entry is the scope; the entries are exactly its boundary prefixes; `""` gives `[""]` |
| Scopes.Can | src/Token.php:230-247 | the result is true iff `*` is granted, or (inherited scopes on) a granted scope is a boundary prefix of the requested one, or (off) the requested scope itself is granted |
| Scopes.Cant | src/Token.php:276-279 | the negation of `Can`'s meaning |
| Scopes.AncestorGrantCoversDescendant | src/Token.php:236-246 | with inherited scopes on, granting `a` authorizes `a:x` for every `x` |
| Scopes.DescendantGrantDoesNotCoverAncestor | src/Token.php:236-246 | with no `*`, grants that are all longer than the requested scope never authorize it, in either mode |
| Scopes.FlatScopesAreExact | src/Token.php:236-246 | with inherited scopes off, a scope is authorized iff `*` or the scope itself is granted |
| Scopes.HierarchyExamples | src/Token.php:236-246 | `a:b` authorizes `a:b:c`; `a:b:c` does not authorize `a:b`; `a:b` does not authorize `a:bc` |
| Tokens.ForUserId | src/Token.php:150-153 | exactly the rows whose user id is the given one, unchanged |
| Tokens.FindValidToken | src/Token.php:162-170 | none iff no token of the pair is unrevoked and unexpired at `now`; otherwise such a token from the table whose expiry is the latest among them |
| Tokens.RevokeOnlyFlipsTheFlag | src/Token.php:187-190 | revoke keeps the keys, sets only the flag, leaves other rows alone, then reads revoked, and is idempotent |
| Tokens.CreateToken | src/Token.php:125-142 | duplicate key iff the id is taken, with the table unchanged; otherwise exactly the argument row is inserted and found by id |
| Tokens.Revoke | src/Token.php:187-190 | the new table is the old one with that token revoked |
| Tokens.DeleteRevoked | src/Token.php:197-200 | the new table is the revoked delete of the old one |
| Tokens.DeleteExpiredPriorTo | src/Token.php:208-211 | the new table is the strict expiry delete of the old one |
| Tokens.DeleteRevokedOrExpiredPriorTo | src/Token.php:219-222 | the new table is the revoked-or-earlier-day delete of the old one |
| Purging.DeleteRevoked | src/Token.php:197-200 | keeps exactly the unrevoked rows, unchanged |
| Purging.DeleteExpiredPriorTo | src/Token.php:208-211 | keeps exactly the rows with expiry ≥ cutoff, unchanged |
| Purging.DeleteRevokedOrExpiredPriorTo | src/Token.php:219-222 | keeps exactly the unrevoked rows whose expiry day is not before the cutoff's day, unchanged |
| Purging.StartOfDayBounds | src/Token.php:221 | a timestamp lies within the day that begins at its start of day |
| Purging.DayAtLeast | src/Token.php:221 | comparing days is comparing the timestamp with the start of the cutoff's day |
| Purging.RevokedOrExpiredIsUnionAtStartOfDay | src/Token.php:197-222 | the combined delete equals the revoked delete after an expiry delete at the start of the cutoff's day |
| Purging.RevokedOrExpiredRemovesLess | src/Token.php:197-222 | every row the combined delete removes, the revoked or the expiry delete also removes |
| Purging.SameDayExpirySurvivesCombined | src/Token.php:208-222 | an unrevoked row expiring on the cutoff's day before the cutoff is kept by the combined delete and removed by the expiry delete |
| Purging.PurgesAreIdempotent | src/Token.php:197-222 | each of the three deletes removes nothing on a second run |
| TokenRepository.IsAccessTokenRevoked | src/TokenRepository.php:92-99 | true for an unknown id, otherwise the stored flag; false iff the token exists unrevoked |
| TokenRepository.RevokedTokenReadsRevoked | src/TokenRepository.php:81-99 | after revoke the token reads revoked and every other id reads as before |
| TokenRepository.Create | src/TokenRepository.php:22-39 | after a successful create, find returns a record equal to the arguments, and its revocation reads as the given flag |
| TokenRepository.RevokeAccessToken | src/TokenRepository.php:81-84 | given an existing token, it is revoked and afterwards reads revoked |
| Clients.GeneratedSecret | src/Client.php:168 | a random secret when confidential or personal access, null otherwise |
| Clients.StoredSecret | src/Client.php:314-325 | the value itself when null or hashing is off, otherwise its hash |
| Clients.CreatedSecretPolicy | src/Client.php:163-177 | a created client has a stored secret, and is confidential, iff confidential or personal access; with hashing off the plain secret is stored; with bcrypt hashing the stored secret never equals the plain one |
| Clients.Confidential | src/Client.php:352-355 | true iff the secret is non-null, non-empty and not `"0"` |
| Clients.FirstParty | src/Client.php:332-335 | personal access or password client |
| Clients.SkipsAuthorization | src/Client.php:342-345 | never |
| Clients.InsertByName | src/Client.php:149 | inserting into a name-ordered list keeps it ordered and adds exactly that client |
| Clients.ListByName | src/Client.php:149 | the table's clients in ascending name order, each as often as rows hold it and nothing else |
| Clients.ForUser | src/Client.php:146-150 | in ascending name order, each client of that user as often as rows hold it, and no client of another user |
| Clients.RevokeTokensEffect | src/Client.php:241-244 | every token of the client is revoked with no other column changed; other tokens are unchanged; a second run changes nothing |
| Clients.ClientModel.SetSecretAttribute | src/Client.php:314-325 | the plain secret is the value; the stored secret is the value when null or hashing is off, otherwise its hash; no other attribute changes |
| Clients.ClientModel.RegenerateSecret | src/Client.php:217-224 | the plain secret is the new 40-character value; the stored secret is set through the setter; only the secret column of the row is saved |
| Clients.ClientModel.UpdateNameAndRedirect | src/Client.php:203-210 | only name and redirect change, in the object and in the row |
| Clients.ClientModel.Revoke | src/Client.php:231-234 | only the revoked flag changes and then reads true |
| Clients.ClientModel.RevokeTokens | src/Client.php:241-244 | the tokens table is bulk-revoked for this client; the result is the number of matching rows |
| Clients.ClientModel.CreatePersonalAccessClient | src/Client.php:185-194 | duplicate iff a personal access row with this key exists; otherwise a row whose id and client id are the client's key |
| Clients.CreateClient | src/Client.php:163-178 | a new row under the next key, holding exactly the arguments, the secret from the policy, and revoked = false |
| Collation.LeTotal | src/Client.php:149 | any two names are ordered one way or the other |
| Collation.LeTransitive | src/Client.php:149 | the name order is transitive |
| ClientRepository.FindActive | src/ClientRepository.php:26-31 | the client iff it exists and is not revoked, otherwise null |
| ClientRepository.Revoked | src/ClientRepository.php:169-174 | true iff the client is unknown or revoked, that is iff `FindActive` is null |
| ClientRepository.RejectRevoked | src/ClientRepository.php:64-67 | every unrevoked client as often as the input holds it, no revoked one, as a subsequence, so the order and the sortedness are kept |
| ClientRepository.ActiveForUser | src/ClientRepository.php:62-68 | each unrevoked client of the user as often as rows hold it and nothing else, name-ordered, a subsequence of `forUser` |
| ClientRepository.Configured | src/ClientRepository.php:79 | unset when the key is null or 0, set for any other key |
| ClientRepository.PersonalAccessClient | src/ClientRepository.php:77-90 | the configured client when set; otherwise failure iff there is no personal access row; otherwise the client of a latest-created row |
| ClientRepository.Delete | src/ClientRepository.php:182-186 | all the client's tokens read revoked; other tokens and clients are unchanged; the client reads revoked; the plain secret is unchanged |
| ClientRepository.CreatePersonalAccessClient | src/ClientRepository.php:118-124 | a personal access, non-password, first-party client with a secret (confidential when hashing is off or bcrypt), plus a personal access row keyed by its key unless that key is taken |
| ClientRepository.CreatePasswordGrantClient | src/ClientRepository.php:134-137 | a password, non-personal, first-party client with a non-null secret |
| ClientRepository.Update | src/ClientRepository.php:147-150 | only name and redirect change; the plain secret is unchanged |
| PersonalAccessClients.GetLatestCreated | src/PersonalAccessClient.php:39-42 | null iff the table is empty; otherwise a row of the table with the greatest created_at |
| PersonalAccessClients.ClientOf | src/PersonalAccessClient.php:29-32 | the client whose key is the row's client id, if it exists |
| RefreshTokens.RevokeOnlyFlipsTheFlag | src/RefreshToken.php:80-83 | revoke sets only the flag, leaves other rows alone, and is idempotent |
| RefreshTokens.RevokeWithAccessTokenIdEffect | src/RefreshToken.php:125-129 | every refresh token of that access token is revoked, no other row changes, and a second run changes nothing |
| RefreshTokens.CreateRefreshToken | src/RefreshToken.php:94-106 | duplicate iff the id is taken; otherwise exactly the argument row is inserted and found by id |
| RefreshTokens.Revoke | src/RefreshToken.php:80-83 | the new table is the old one with that row revoked |
| RefreshTokens.RevokeWithAccessTokenId | src/RefreshToken.php:125-129 | the table is bulk-revoked for the access token; the result is the number of matching rows |
| RefreshTokens.DeleteRevoked | src/RefreshToken.php:146-149 | the new table is the revoked delete of the old one |
| RefreshTokens.DeleteExpiredPriorTo | src/RefreshToken.php:157-160 | the new table is the strict expiry delete of the old one |
| RefreshTokens.DeleteRevokedOrExpiredPriorTo | src/RefreshToken.php:168-171 | the new table is the revoked-or-earlier-day delete of the old one |
| RefreshTokenRepository.IsRefreshTokenRevoked | src/RefreshTokenRepository.php:76-83 | true for an unknown id, otherwise the stored flag |
| RefreshTokenRepository.Create | src/RefreshTokenRepository.php:19-22 | after a successful create, find returns exactly the created record |
| RefreshTokenRepository.RevokeRefreshToken | src/RefreshTokenRepository.php:52-57 | false and no change for an unknown id; otherwise that row is revoked and reads revoked, and no other row changes |
| RefreshTokenRepository.RevokeRefreshTokensByAccessTokenId | src/RefreshTokenRepository.php:65-68 | all refresh tokens of the access token read revoked; the others are unchanged |
| BridgeRefreshTokenRepository.PersistNewRefreshToken | src/Bridge/RefreshTokenRepository.php:51-61 | stores the entity's id, its access token's id, revoked = false and its expiry; the token then reads unrevoked |
| BridgeRefreshTokenRepository.RevokeRefreshToken | src/Bridge/RefreshTokenRepository.php:66-69 | an unknown id leaves the store unchanged; afterwards the id reads revoked either way |
| BridgeRefreshTokenRepository.IsRefreshTokenRevoked | src/Bridge/RefreshTokenRepository.php:74-77 | true for an id the table does not hold, otherwise the stored flag |
| BridgeRefreshTokenRepository.PersistThenRevoke | tests/BridgeRefreshTokenRepositoryTest.php:19-41 | a persisted token reads active, then revoked after revoke; other ids read as before |
| AuthCodes.RevokeOnlyFlipsTheFlag | src/AuthCode.php:128-132 | revoke sets only the flag, leaves other codes alone, then reads revoked, and is idempotent |
| AuthCodes.CreateAuthCode | src/AuthCode.php:85-101 | duplicate iff the id is taken; otherwise exactly the argument row is inserted and found by id |
| AuthCodes.Revoke | src/AuthCode.php:128-132 | the new table is the old one with that code revoked |
| AuthCodes.DeleteRevoked | src/AuthCode.php:139-142 | the new table is the revoked delete of the old one |
| AuthCodes.DeleteExpiredPriorTo | src/AuthCode.php:150-153 | the new table is the strict expiry delete of the old one |
| AuthCodes.DeleteRevokedOrExpiredPriorTo | src/AuthCode.php:161-164 | the new table is the revoked-or-earlier-day delete of the old one |
| BridgeAuthCodeRepository.IsAuthCodeRevoked | src/Bridge/AuthCodeRepository.php:48-53 | true for a missing code, otherwise its flag |
| BridgeAuthCodeRepository.PersistNewAuthCode | src/Bridge/AuthCodeRepository.php:24-34 | stores the entity's id, user, client, formatted scopes and expiry with revoked = false; it then reads unrevoked |
| BridgeAuthCodeRepository.RevokeAuthCode | src/Bridge/AuthCodeRepository.php:39-43 | an unknown id changes nothing; a known one is revoked; afterwards the id reads revoked |
| BridgeAuthCodeRepository.PersistThenRevoke | src/Bridge/AuthCodeRepository.php:24-53 | persist then revoke leaves the code revoked, and every other id reads as before |
| PurgeCommand.SelectMode | src/Console/PurgeCommand.php:34-53 | both or neither flag: the combined delete; only `--revoked`: revoked; only `--expired`: expired; exactly one for each of the four combinations |
| PurgeCommand.Cutoff | src/Console/PurgeCommand.php:32 | seven days before now |
| PurgeCommand.Purge | src/Console/PurgeCommand.php:34-53 | in every mode only rows are removed, none altered; an unrevoked row expiring at or after the cutoff stays; a revoked row that expired before the cutoff's day goes |
| PurgeCommand.PurgeKeeps | src/Console/PurgeCommand.php:34-53 | `--revoked` keeps every unrevoked row however old; `--expired` keeps every row expiring at or after the cutoff, even a revoked one; the default keeps the unrevoked rows expiring from the start of the cutoff's day on; kept rows are unchanged |
| PurgeCommand.SevenDayWindow | src/Console/PurgeCommand.php:32-52 | a row expired 8 days ago goes in both expiry modes; an unrevoked row expired 6 days ago stays in every mode |
| PurgeCommand.PurgeIsIdempotent | src/Console/PurgeCommand.php:30-54 | a second run with the same clock and flags deletes nothing |
| PurgeCommand.Handle | src/Console/PurgeCommand.php:30-54 | each of the three tables becomes the delete chosen by the flags, at now minus seven days |

## Left out

- ORM plumbing (`forceFill`, `save`, the `Passport::*Model()` registry, relations, user model resolution) is replaced by
  updates of the table maps.
- Clients.ClientModel.SetSecretAttribute: changes the object only. Eloquent's `save()` writes every dirty attribute
  of the model and sets `updated_at`, so a secret set through the setter and not yet saved reaches the row at the next
  `revoke()` or `update()`. The model's writes store only the columns the calling method sets itself.
- `password_hash` and `Str::random(40)` are parameters: any function `hash`, and a caller-supplied string of 40
  characters. Only the output length of bcrypt (60) is assumed, through `Clients.BcryptShaped`.
- `Carbon::now()` is the `now` parameter. Dates are integer seconds, and `orWhereDate` compares `t / 86400` in one
  fixed time zone.
- Which of several rows with the same greatest `expires_at` (or `created_at`) comes first is left to the database.
  `Tokens.FindValidToken` and `PersonalAccessClients.GetLatestCreated` choose arbitrarily among them.
- `orderBy('name')` is modelled as ordinal character order. Database collations and the order of equal names are
  not modelled.
- `Clients.ClientModel.RevokeTokens` and `RefreshTokens.RevokeWithAccessTokenId` return the number of matching rows.
  Some databases report only the rows actually changed.
- The boolean results of `save()`, `revoke()` and the deletes are not modelled, except the found/not-found result
  of `RefreshTokenRepository.RevokeRefreshToken`.
- The `RefreshTokenCreated` event dispatch and the purge command's `info` messages and option parsing are not
  modelled. The mode selection is.
- `formatScopesForStorage` is the parameter `formatScopes`; stored auth-code scopes are opaque text.
- One-line delegations are modelled by the member they delegate to:
  - `ClientRepository.find`, `findForUser`, `forUser`, `create` and `regenerateSecret` by the `Clients` members.
  - `TokenRepository.find`, `findForUser`, `forUser` and `findValidToken` by the `Tokens` members.
  - `RefreshTokenRepository.find` by `RefreshTokens.FindById`.
  - `TokenRepository.save` and `RefreshTokenRepository.save` are a plain `save()`.
- Plain attribute getters (`secret`, `redirect`, `name`, `personalAccessClient`, `passwordClient`, `getClientSecret`)
  read a field of the row. `src/Contracts/*.php` declares signatures only.
- `transient()` of tokens and refresh tokens (src/Token.php:286-289, src/RefreshToken.php:178-181) returns the
  constant false and has no model.
- The client columns `grant_types` (read by `getGrantTypes`, src/Client.php:110-113), `created_at` and `updated_at`
  are not part of the `Client` record.
- Tokens.IsRevoked, Clients.IsRevoked, RefreshTokens.IsRevoked and AuthCodes.IsRevoked: `isRevoked()`
  (src/Token.php:177-180, src/Client.php:90-93, src/RefreshToken.php:136-139, src/AuthCode.php:119-122) reads the
  row's revoked flag. These are that field access with no contract of their own; the `RevokeOnlyFlipsTheFlag`
  lemmas and the repositories' fail-closed checks state what they return.
- Clients.ClientModel.GetPlainSecretAttribute: `getPlainSecretAttribute` (src/Client.php:303-306) returns the field
  kept by the secret setter. It has no contract of its own; the setter's and the creators' contracts state its value.
- Concurrency, and purging while tokens are being issued, are left to the database.
