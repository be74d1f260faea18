/** The `Client` model: secret policy, attribute predicates, queries and updates on `oauth_clients`. */
module Clients {
  import opened Results
  import opened Schema
  import Query
  import Collation

  /** Length of the secret `Str::random(40)` generates. */
  const SecretLength: nat := 40

  /** Length of every `password_hash(..., PASSWORD_BCRYPT)` result. */
  const BcryptLength: nat := 60

  /** The hash behaves like bcrypt in the one respect the model relies on: its output length. */
  ghost predicate BcryptShaped(hash: string -> string)
  {
    forall v :: |hash(v)| == BcryptLength
  }

  /** The value `createClient` hands to the `secret` setter: a random secret when confidential
      or personal access, null otherwise. */
  function GeneratedSecret(confidential: bool, personalAccess: bool, random: string): Option<string>
  {
    if confidential || personalAccess then Some(random) else None
  }

  /** The `secret` column `setSecretAttribute(value)` writes: null and, with hashing off, the value
      itself; otherwise its hash. */
  function StoredSecret(value: Option<string>, hashes: bool, hash: string -> string): Option<string>
  {
    if value.None? || !hashes then value else Some(hash(value.value))
  }

  /** PHP's `empty` on a nullable string: null, "" and "0" are all empty. */
  predicate EmptySecret(secret: Option<string>)
  {
    secret.None? || secret.value == "" || secret.value == "0"
  }

  /** `confidential`: the stored secret is not empty. */
  function Confidential(c: Client): (r: bool)
    ensures r <==> c.secret.Some? && c.secret.value != "" && c.secret.value != "0"
  {
    !EmptySecret(c.secret)
  }

  /** `firstParty`: a personal access client or a password client. */
  function FirstParty(c: Client): (r: bool)
    ensures r <==> c.personalAccessClient || c.passwordClient
  {
    c.personalAccessClient || c.passwordClient
  }

  /** `skipsAuthorization`: never. */
  function SkipsAuthorization(c: Client): (r: bool)
    ensures !r
  {
    false
  }

  /** `isRevoked` on a loaded client. */
  function IsRevoked(c: Client): bool
  {
    c.revoked
  }

  /**
    The secret policy of `createClient`: a client is stored with a secret, and is then
    confidential, exactly when it was asked to be confidential or is a personal access
    client; with hashing on, what is stored is never the plain secret.
   */
  lemma CreatedSecretPolicy(confidential: bool, personalAccess: bool, random: string,
                            hashes: bool, hash: string -> string)
    requires |random| == SecretLength
    requires hashes ==> BcryptShaped(hash)
    ensures var stored := StoredSecret(GeneratedSecret(confidential, personalAccess, random), hashes, hash);
      && (stored.Some? <==> confidential || personalAccess)
      && (!EmptySecret(stored) <==> confidential || personalAccess)
      && (!hashes ==> stored == GeneratedSecret(confidential, personalAccess, random))
      && (hashes && stored.Some? ==> stored.value != random)
  {
    if hashes && (confidential || personalAccess) {
      assert |hash(random)| == BcryptLength;
    }
  }

  /** `findById`. */
  function FindById(clients: map<ClientId, Client>, id: ClientId): Option<Client>
  {
    Query.Find(clients, id)
  }

  /** `findForUser`: the client with that key, only when it belongs to that user. */
  function FindForUser(clients: map<ClientId, Client>, clientId: ClientId, userId: Option<UserId>): Option<Client>
  {
    Query.FindWhere(clients, clientId, (c: Client) => c.userId == userId)
  }

  ghost predicate SortedByName(s: seq<Client>)
  {
    forall i, j :: 0 <= i < j < |s| ==> Collation.Le(s[i].name, s[j].name)
  }

  /** Insert a client into a name-ordered list. */
  function InsertByName(c: Client, s: seq<Client>): (r: seq<Client>)
    requires SortedByName(s)
    ensures SortedByName(r)
    ensures multiset(r) == multiset(s) + multiset{c}
  {
    if s == [] then [c]
    else if Collation.Le(c.name, s[0].name) then
      assert forall j :: 0 <= j < |s| ==> Collation.Le(c.name, s[j].name) by {
        forall j | 0 <= j < |s| ensures Collation.Le(c.name, s[j].name) {
          if j > 0 {
            Collation.LeTransitive(c.name, s[0].name, s[j].name);
          }
        }
      }
      [c] + s
    else
      Collation.LeTotal(c.name, s[0].name);
      var rest := InsertByName(c, s[1..]);
      assert s == [s[0]] + s[1..];
      assert forall x :: x in rest ==> Collation.Le(s[0].name, x.name) by {
        forall x | x in rest ensures Collation.Le(s[0].name, x.name) {
          assert x in multiset(rest);
          if x != c {
            assert x in multiset(s[1..]);
            assert x in s[1..];
          }
        }
      }
      [s[0]] + rest
  }

  /** The rows of a table listed in ascending name order (rows with equal names in any order):
      each client appears as often as rows hold it. */
  ghost function ListByName(rows: map<ClientId, Client>): (r: seq<Client>)
    ensures SortedByName(r)
    ensures forall c :: multiset(r)[c] == Query.Occurrences(rows, c)
    ensures forall c :: c in r <==> exists id :: id in rows && rows[id] == c
    ensures |r| == |rows|
    decreases rows.Keys
  {
    if rows == map[] then []
    else
      var id :| id in rows;
      var rest := rows - {id};
      var listed := ListByName(rest);
      var r := InsertByName(rows[id], listed);
      assert rows.Keys == rest.Keys + {id} && id !in rest.Keys;
      assert |r| == |multiset(r)| == |listed| + 1;
      assert forall c :: multiset(r)[c] == Query.Occurrences(rows, c) && (c in r <==> exists id :: id in rows && rows[id] == c) by {
        forall c ensures multiset(r)[c] == Query.Occurrences(rows, c) && (c in r <==> exists id :: id in rows && rows[id] == c) {
          Query.OccurrencesRemove(rows, id, c);
          Query.OccurrencesPositive(rows, c);
          assert c in r <==> multiset(r)[c] > 0;
        }
      }
      r
  }

  /** Selects the clients of one user: `where('user_id', $userId)`. */
  function OwnedBy(userId: Option<UserId>): Client -> bool
  {
    (c: Client) => c.userId == userId
  }

  /** `forUser`: the user's clients in ascending name order, each as often as rows hold it. */
  ghost function ForUser(clients: map<ClientId, Client>, userId: Option<UserId>): (r: seq<Client>)
    ensures SortedByName(r)
    ensures forall c :: multiset(r)[c] == if c.userId == userId then Query.Occurrences(clients, c) else 0
    ensures forall c :: c in r <==> exists id :: id in clients && clients[id] == c && c.userId == userId
    ensures |r| == |Query.Where(clients, OwnedBy(userId))|
  {
    var r := ListByName(Query.Where(clients, OwnedBy(userId)));
    assert forall c :: multiset(r)[c] == if c.userId == userId then Query.Occurrences(clients, c) else 0 by {
      forall c ensures multiset(r)[c] == if c.userId == userId then Query.Occurrences(clients, c) else 0 {
        Query.OccurrencesWhere(clients, OwnedBy(userId), c);
      }
    }
    r
  }

  /** Selects the tokens of one client: `$this->tokens()`. */
  function BelongsTo(clientId: ClientId): Token -> bool
  {
    (t: Token) => t.clientId == clientId
  }

  /** The tokens table after `revokeTokens` of a client. */
  function TokensRevokedFor(tokens: map<TokenId, Token>, clientId: ClientId): map<TokenId, Token>
  {
    Query.UpdateWhere(tokens, BelongsTo(clientId), RevokeToken)
  }

  /** `revokeTokens` revokes every token of the client, changes no other column or token, and
      a second run changes nothing. */
  lemma RevokeTokensEffect(tokens: map<TokenId, Token>, clientId: ClientId)
    ensures TokensRevokedFor(tokens, clientId).Keys == tokens.Keys
    ensures forall id :: id in tokens && tokens[id].clientId == clientId
                         ==> TokensRevokedFor(tokens, clientId)[id] == tokens[id].(revoked := true)
    ensures forall id :: id in tokens && tokens[id].clientId != clientId
                         ==> TokensRevokedFor(tokens, clientId)[id] == tokens[id]
    ensures TokensRevokedFor(TokensRevokedFor(tokens, clientId), clientId) == TokensRevokedFor(tokens, clientId)
  {
    Query.UpdateWhereTwice(tokens, BelongsTo(clientId), RevokeToken);
  }

  /** A loaded client: its attributes and the plain-text secret kept only in memory. */
  class ClientModel {
    var attributes: Client
    var plainSecret: Option<string>

    constructor (attributes: Client)
      ensures this.attributes == attributes && plainSecret == None
    {
      this.attributes := attributes;
      plainSecret := None;
    }

    /** `getPlainSecretAttribute`. */
    function GetPlainSecretAttribute(): Option<string>
      reads this
    {
      plainSecret
    }

    /** `setSecretAttribute`: remember the plain value, store it or its hash. */
    method SetSecretAttribute(value: Option<string>, config: Config, hash: string -> string)
      modifies this
      ensures GetPlainSecretAttribute() == value
      ensures attributes == old(attributes).(secret := StoredSecret(value, config.hashesClientSecrets, hash))
      ensures value.None? || !config.hashesClientSecrets ==> attributes.secret == value
      ensures value.Some? && config.hashesClientSecrets ==> attributes.secret == Some(hash(value.value))
    {
      plainSecret := value;
      if value.None? || !config.hashesClientSecrets {
        attributes := attributes.(secret := value);
        return;
      }
      attributes := attributes.(secret := Some(hash(value.value)));
    }

    /** `regenerateSecret`: a fresh 40-character secret through the setter, then saved. */
    method RegenerateSecret(db: Database, random: string, config: Config, hash: string -> string)
      requires db.Valid()
      requires |random| == SecretLength
      modifies this, db`clients
      ensures db.Valid()
      ensures GetPlainSecretAttribute() == Some(random)
      ensures attributes == old(attributes).(secret := StoredSecret(Some(random), config.hashesClientSecrets, hash))
      ensures attributes.id in old(db.clients)
              ==> db.clients == old(db.clients)[attributes.id := old(db.clients)[attributes.id].(secret := attributes.secret)]
      ensures attributes.id !in old(db.clients) ==> db.clients == old(db.clients)
    {
      SetSecretAttribute(Some(random), config, hash);
      var id := attributes.id;
      if id in db.clients {
        db.clients := db.clients[id := db.clients[id].(secret := attributes.secret)];
      }
    }

    /** `updateNameAndRedirect`: only the two columns change. */
    method UpdateNameAndRedirect(db: Database, name: string, redirect: string)
      requires db.Valid()
      modifies this, db`clients
      ensures db.Valid()
      ensures plainSecret == old(plainSecret)
      ensures attributes == old(attributes).(name := name, redirect := redirect)
      ensures attributes.id in old(db.clients)
              ==> db.clients == old(db.clients)[attributes.id := old(db.clients)[attributes.id].(name := name, redirect := redirect)]
      ensures attributes.id !in old(db.clients) ==> db.clients == old(db.clients)
    {
      attributes := attributes.(name := name, redirect := redirect);
      var id := attributes.id;
      if id in db.clients {
        db.clients := db.clients[id := db.clients[id].(name := name, redirect := redirect)];
      }
    }

    /** `revoke`: only the `revoked` column changes. */
    method Revoke(db: Database)
      requires db.Valid()
      modifies this, db`clients
      ensures db.Valid()
      ensures plainSecret == old(plainSecret)
      ensures attributes == old(attributes).(revoked := true) && IsRevoked(attributes)
      ensures attributes.id in old(db.clients)
              ==> db.clients == old(db.clients)[attributes.id := old(db.clients)[attributes.id].(revoked := true)]
      ensures attributes.id !in old(db.clients) ==> db.clients == old(db.clients)
    {
      attributes := attributes.(revoked := true);
      var id := attributes.id;
      if id in db.clients {
        db.clients := db.clients[id := db.clients[id].(revoked := true)];
      }
    }

    /** `revokeTokens`: bulk-revoke the client's tokens, answering how many rows matched. */
    method RevokeTokens(db: Database) returns (count: nat)
      requires db.Valid()
      modifies db`tokens
      ensures db.Valid()
      ensures db.tokens == TokensRevokedFor(old(db.tokens), attributes.id)
      ensures count == Query.CountWhere(old(db.tokens), BelongsTo(attributes.id))
    {
      count := Query.CountWhere(db.tokens, BelongsTo(attributes.id));
      db.tokens := TokensRevokedFor(db.tokens, attributes.id);
    }

    /** `createPersonalAccessClient`: INSERT a personal access row keyed by this client's key. */
    method CreatePersonalAccessClient(db: Database, now: int) returns (r: Outcome)
      requires db.Valid()
      modifies db`personalAccessClients
      ensures db.Valid()
      ensures attributes.id in old(db.personalAccessClients) <==> r == Fail(DuplicateKey)
      ensures r.Fail? ==> db.personalAccessClients == old(db.personalAccessClients)
      ensures r.Pass? ==> db.personalAccessClients
                          == old(db.personalAccessClients)[attributes.id := PersonalAccessClient(attributes.id, attributes.id, now)]
    {
      var id := attributes.id;
      if id in db.personalAccessClients {
        return Fail(DuplicateKey);
      }
      db.personalAccessClients := db.personalAccessClients[id := PersonalAccessClient(id, id, now)];
      r := Pass;
    }
  }

  /** `createClient`: INSERT a new client under the next auto-increment key. */
  method CreateClient(db: Database, userId: Option<UserId>, name: string, redirect: string,
                      personalAccess: bool, password: bool, confidential: bool,
                      random: string, config: Config, hash: string -> string)
    returns (c: ClientModel)
    requires db.Valid()
    requires |random| == SecretLength
    modifies db`clients, db`nextClientId
    ensures db.Valid() && fresh(c)
    ensures c.GetPlainSecretAttribute() == GeneratedSecret(confidential, personalAccess, random)
    ensures c.attributes == Client(old(db.nextClientId), userId, name,
                                   StoredSecret(c.plainSecret, config.hashesClientSecrets, hash),
                                   redirect, personalAccess, password, false)
    ensures old(db.nextClientId) !in old(db.clients)
    ensures db.clients == old(db.clients)[c.attributes.id := c.attributes]
    ensures db.nextClientId == old(db.nextClientId) + 1
  {
    var id := db.nextClientId;
    c := new ClientModel(Client(id, userId, name, None, redirect, personalAccess, password, false));
    c.SetSecretAttribute(GeneratedSecret(confidential, personalAccess, random), config, hash);
    db.clients := db.clients[id := c.attributes];
    db.nextClientId := id + 1;
  }
}
