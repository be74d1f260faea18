/** The `PersonalAccessClient` model over `oauth_personal_access_clients`. */
module PersonalAccessClients {
  import opened Results
  import opened Schema
  import Query

  function AnyRow(p: PersonalAccessClient): bool { true }
  function CreatedAt(p: PersonalAccessClient): int { p.createdAt }

  /**
    `getLatestCreated`: a row created last, or null for an empty table. It only reads the
    table, which is a value here.
   */
  ghost function GetLatestCreated(pacs: map<ClientId, PersonalAccessClient>): (r: Option<PersonalAccessClient>)
    ensures r.None? <==> pacs == map[]
    ensures r.Some? ==> exists k :: k in pacs && pacs[k] == r.value
    ensures r.Some? ==> forall k :: k in pacs ==> pacs[k].createdAt <= r.value.createdAt
  {
    var latest := Query.LatestWhere(pacs, AnyRow, CreatedAt);
    assert pacs != map[] ==> exists k :: k in pacs && AnyRow(pacs[k]);
    if latest.None? then None else Some(pacs[latest.value])
  }

  /** The `client` relation: the client whose key is the row's `client_id`, if it still exists. */
  function ClientOf(clients: map<ClientId, Client>, row: PersonalAccessClient): (r: Option<Client>)
    ensures r.Some? <==> row.clientId in clients
    ensures r.Some? ==> r.value == clients[row.clientId]
  {
    if row.clientId in clients then Some(clients[row.clientId]) else None
  }
}
