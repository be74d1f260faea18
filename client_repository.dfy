/** `ClientRepository`: the client operations the rest of the system calls. */
module ClientRepository {
  import opened Results
  import opened Schema
  import Clients
  import PersonalAccessClients
  import TokenRepository
  import Collation
  import Query

  /** `findActive`: the client, only when it exists and is not revoked. */
  function FindActive(clients: map<ClientId, Client>, id: ClientId): (r: Option<Client>)
    ensures r.Some? <==> id in clients && !clients[id].revoked
    ensures r.Some? ==> r.value == clients[id]
  {
    match Clients.FindById(clients, id)
    case Some(client) => if Clients.IsRevoked(client) then None else Some(client)
    case None => None
  }

  /** `revoked`: fail closed, an unknown client counts as revoked. */
  function Revoked(clients: map<ClientId, Client>, id: ClientId): (r: bool)
    ensures r <==> id !in clients || clients[id].revoked
    ensures r <==> FindActive(clients, id).None?
  {
    match Clients.FindById(clients, id)
    case Some(client) => Clients.IsRevoked(client)
    case None => true
  }

  /** The `reject(isRevoked)->values()` step: drop revoked clients, keep the order. */
  function RejectRevoked(s: seq<Client>): (r: seq<Client>)
    ensures forall c :: c in r <==> c in s && !c.revoked
    ensures forall c :: multiset(r)[c] == if c.revoked then 0 else multiset(s)[c]
    ensures Collation.Subsequence(r, s)
    ensures Clients.SortedByName(s) ==> Clients.SortedByName(r)
  {
    if s == [] then []
    else
      var rest := RejectRevoked(s[1..]);
      Collation.MultisetHeadTail(s);
      if Clients.IsRevoked(s[0]) then
        assert Collation.Subsequence(rest, s);
        rest
      else
        var r := [s[0]] + rest;
        assert r[1..] == rest;
        Collation.MultisetHeadTail(r);
        assert Clients.SortedByName(s) ==> Clients.SortedByName(r) by {
          if Clients.SortedByName(s) {
            KeepHeadSorted(s, rest);
          }
        }
        r
  }

  /** Keeping the head of a name-ordered list in front of a sorted selection of its tail keeps the order. */
  lemma KeepHeadSorted(s: seq<Client>, rest: seq<Client>)
    requires s != [] && Clients.SortedByName(s)
    requires Clients.SortedByName(s[1..]) ==> Clients.SortedByName(rest)
    requires forall c :: c in rest ==> c in s[1..]
    ensures Clients.SortedByName([s[0]] + rest)
  {
    assert Clients.SortedByName(s[1..]) by {
      forall i, j | 0 <= i < j < |s[1..]| ensures Collation.Le(s[1..][i].name, s[1..][j].name) {
        assert s[1..][i] == s[i + 1] && s[1..][j] == s[j + 1];
      }
    }
    var r := [s[0]] + rest;
    forall i, j | 0 <= i < j < |r| ensures Collation.Le(r[i].name, r[j].name) {
      if i == 0 {
        assert r[j] in rest;
        var k :| 0 <= k < |s[1..]| && s[1..][k] == r[j];
        assert s[k + 1] == r[j];
      } else {
        assert r[i] == rest[i - 1] && r[j] == rest[j - 1];
      }
    }
  }

  /** `activeForUser`: the user's clients in name order without the revoked ones. */
  ghost function ActiveForUser(clients: map<ClientId, Client>, userId: Option<UserId>): (r: seq<Client>)
    ensures Clients.SortedByName(r)
    ensures Collation.Subsequence(r, Clients.ForUser(clients, userId))
    ensures forall c :: c in r <==> !c.revoked && c.userId == userId
                                    && exists id :: id in clients && clients[id] == c
    ensures forall c :: multiset(r)[c] ==
                        if c.revoked || c.userId != userId then 0 else Query.Occurrences(clients, c)
  {
    RejectRevoked(Clients.ForUser(clients, userId))
  }

  /** Whether `$personalAccessClientId` is set: PHP truthiness, so a key of 0 counts as unset. */
  predicate Configured(config: Config): (r: bool)
    ensures config.personalAccessClientId.None? ==> !r
    ensures config.personalAccessClientId == Some(0) ==> !r
    ensures forall id :: id != 0 && config.personalAccessClientId == Some(id) ==> r
  {
    config.personalAccessClientId.Some? && config.personalAccessClientId.value != 0
  }

  /**
    `personalAccessClient`: the configured client if one is set, otherwise the client of the
    latest-created personal access row; with neither, a failure.
   */
  ghost function PersonalAccessClient(clients: map<ClientId, Client>,
                                      pacs: map<ClientId, Schema.PersonalAccessClient>, config: Config)
    : (r: Result<Option<Client>>)
    ensures Configured(config) ==> r == Ok(Clients.FindById(clients, config.personalAccessClientId.value))
    ensures !Configured(config) ==> (r == Err(PersonalAccessClientNotFound) <==> pacs == map[])
    ensures !Configured(config) && pacs != map[] ==>
      exists k :: k in pacs && (forall j :: j in pacs ==> pacs[j].createdAt <= pacs[k].createdAt)
                 && r == Ok(PersonalAccessClients.ClientOf(clients, pacs[k]))
  {
    if Configured(config) then
      Ok(Clients.FindById(clients, config.personalAccessClientId.value))
    else if pacs == map[] then
      Err(PersonalAccessClientNotFound)
    else
      var latest := PersonalAccessClients.GetLatestCreated(pacs);
      Ok(PersonalAccessClients.ClientOf(clients, latest.value))
  }

  /** `delete`: revoke the client's tokens, then the client itself. */
  method Delete(db: Database, client: Clients.ClientModel)
    requires db.Valid()
    modifies client, db`tokens, db`clients
    ensures db.Valid()
    ensures client.attributes == old(client.attributes).(revoked := true)
    ensures db.tokens == Clients.TokensRevokedFor(old(db.tokens), client.attributes.id)
    ensures forall id :: id in old(db.tokens) && old(db.tokens)[id].clientId == client.attributes.id
                         ==> TokenRepository.IsAccessTokenRevoked(db.tokens, id)
    ensures forall id :: id in old(db.tokens) && old(db.tokens)[id].clientId != client.attributes.id
                         ==> db.tokens[id] == old(db.tokens)[id]
    ensures client.attributes.id in old(db.clients)
            ==> db.clients == old(db.clients)[client.attributes.id := old(db.clients)[client.attributes.id].(revoked := true)]
    ensures client.attributes.id !in old(db.clients) ==> db.clients == old(db.clients)
    ensures Revoked(db.clients, client.attributes.id)
    ensures client.plainSecret == old(client.plainSecret)
  {
    var _ := client.RevokeTokens(db);
    Clients.RevokeTokensEffect(old(db.tokens), client.attributes.id);
    client.Revoke(db);
  }

  /** `createPersonalAccessClient`: a personal access client plus its personal access row. The
      client row stays stored when the second INSERT fails. */
  method CreatePersonalAccessClient(db: Database, userId: Option<UserId>, name: string, redirect: string,
                                    random: string, config: Config, hash: string -> string, now: int)
    returns (client: Clients.ClientModel, r: Outcome)
    requires db.Valid()
    requires |random| == Clients.SecretLength
    modifies db`clients, db`nextClientId, db`personalAccessClients
    ensures db.Valid() && fresh(client)
    ensures client.attributes == Client(old(db.nextClientId), userId, name,
                                        Clients.StoredSecret(Some(random), config.hashesClientSecrets, hash),
                                        redirect, true, false, false)
    ensures client.GetPlainSecretAttribute() == Some(random)
    ensures !config.hashesClientSecrets || Clients.BcryptShaped(hash) ==> Clients.Confidential(client.attributes)
    ensures Clients.FirstParty(client.attributes)
    ensures db.clients == old(db.clients)[client.attributes.id := client.attributes]
    ensures r == Fail(DuplicateKey) <==> old(db.nextClientId) in old(db.personalAccessClients)
    ensures r.Fail? ==> db.personalAccessClients == old(db.personalAccessClients)
    ensures r.Pass? ==> db.personalAccessClients == old(db.personalAccessClients)[
                          client.attributes.id := Schema.PersonalAccessClient(client.attributes.id, client.attributes.id, now)]
  {
    client := Clients.CreateClient(db, userId, name, redirect, true, false, true, random, config, hash);
    if !config.hashesClientSecrets || Clients.BcryptShaped(hash) {
      Clients.CreatedSecretPolicy(true, true, random, config.hashesClientSecrets, hash);
    }
    r := client.CreatePersonalAccessClient(db, now);
  }

  /** `createPasswordGrantClient`: a confidential password client. */
  method CreatePasswordGrantClient(db: Database, userId: Option<UserId>, name: string, redirect: string,
                                   random: string, config: Config, hash: string -> string)
    returns (client: Clients.ClientModel)
    requires db.Valid()
    requires |random| == Clients.SecretLength
    modifies db`clients, db`nextClientId
    ensures db.Valid() && fresh(client)
    ensures client.attributes == Client(old(db.nextClientId), userId, name,
                                        Clients.StoredSecret(Some(random), config.hashesClientSecrets, hash),
                                        redirect, false, true, false)
    ensures client.attributes.secret.Some?
    ensures client.GetPlainSecretAttribute() == Some(random)
    ensures Clients.FirstParty(client.attributes)
    ensures db.clients == old(db.clients)[client.attributes.id := client.attributes]
  {
    client := Clients.CreateClient(db, userId, name, redirect, false, true, true, random, config, hash);
  }

  /** `update`. */
  method Update(db: Database, client: Clients.ClientModel, name: string, redirect: string)
    requires db.Valid()
    modifies client, db`clients
    ensures db.Valid()
    ensures client.attributes == old(client.attributes).(name := name, redirect := redirect)
    ensures client.attributes.id in old(db.clients)
            ==> db.clients == old(db.clients)[client.attributes.id := old(db.clients)[client.attributes.id].(name := name, redirect := redirect)]
    ensures client.attributes.id !in old(db.clients) ==> db.clients == old(db.clients)
    ensures client.plainSecret == old(client.plainSecret)
  {
    client.UpdateNameAndRedirect(db, name, redirect);
  }
}
