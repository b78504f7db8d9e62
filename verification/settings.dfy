/** Connection settings, the pre-flight check `checkDbSettings`, and the credential choice of
    `getDatabase`. The build tool's server table becomes a map from server id to entry. */
module Settings {
  import opened Results
  import opened Failures
  import opened JavaText

  /** A `<server>` entry of the build settings. */
  datatype Server = Server(username: Option<string>, password: Option<string>)

  /** Opaque driver options (`MongoOptions`), passed through untouched. */
  datatype DriverOptions = DriverOptions(description: string)

  /** The `dbConnectionSettings` block; every field the build may leave unset is an `Option`. */
  datatype ConnectionSettings = ConnectionSettings(
    hostname: Option<string>,
    port: Option<int>,
    replicaSet: Option<string>,
    database: string,
    userName: Option<string>,
    password: Option<string>,
    serverId: Option<string>,
    options: Option<DriverOptions>)

  /** True when credentials are to be taken from the server table. */
  predicate UsesServer(cs: ConnectionSettings) {
    !IsEmpty(cs.serverId)
  }

  /** `checkDbSettings(cs, block)`: `None` when the settings pass, else the failure thrown. */
  function CheckDbSettings(cs: ConnectionSettings, servers: map<string, Server>, block: string)
    : (r: Option<Failure>)
    ensures r.Some? ==> ClassOf(r.value) == MojoFailureException
    // with a server id: the entry must exist and carry a non-empty user name; nothing else is looked at
    ensures UsesServer(cs) ==>
      (r == None <==> cs.serverId.value in servers && !IsEmpty(servers[cs.serverId.value].username))
    ensures UsesServer(cs) && cs.serverId.value !in servers ==>
      r == Some(ServerNotFound(block, cs.serverId.value))
    ensures UsesServer(cs) && cs.serverId.value in servers && IsEmpty(servers[cs.serverId.value].username) ==>
      r == Some(ServerUsernameEmpty(block, cs.serverId.value))
    // without one: a host name or a replica-set string must be set and non-empty (blank is enough)
    ensures !UsesServer(cs) ==>
      (r == None <==> !IsEmpty(cs.hostname) || !IsEmpty(cs.replicaSet))
    ensures !UsesServer(cs) && r.Some? ==> r.value == NoHostOrReplicaSet(block)
  {
    if UsesServer(cs) then
      var id := cs.serverId.value;
      if id !in servers then Some(ServerNotFound(block, id))
      else if IsEmpty(servers[id].username) then Some(ServerUsernameEmpty(block, id))
      else None
    else if IsEmpty(cs.hostname) && IsEmpty(cs.replicaSet) then Some(NoHostOrReplicaSet(block))
    else None
  }

  datatype Credentials = Credentials(username: string, password: string)

  /** The selected database, and the credentials it was authenticated with, if any. */
  datatype Session = Session(database: string, auth: Option<Credentials>)

  /** `getDatabase`: take the user name and password from the server entry when a server id is
      set, from the inline settings otherwise, and authenticate exactly when both are non-null.
      An absent server entry is dereferenced (a `NullPointerException`). */
  function GetDatabase(cs: ConnectionSettings, servers: map<string, Server>): (r: Result<Session, Failure>)
    ensures r.Err? <==> UsesServer(cs) && cs.serverId.value !in servers
    ensures r.Err? ==> r.error == ServerEntryMissing(cs.serverId.value)
    ensures r.Ok? ==> r.value.database == cs.database
    ensures r.Ok? && UsesServer(cs) ==>
      var server := servers[cs.serverId.value];
      (r.value.auth.Some? <==> server.username.Some? && server.password.Some?) &&
      (r.value.auth.Some? ==> r.value.auth.value == Credentials(server.username.value, server.password.value))
    ensures r.Ok? && !UsesServer(cs) ==>
      (r.value.auth.Some? <==> cs.userName.Some? && cs.password.Some?) &&
      (r.value.auth.Some? ==> r.value.auth.value == Credentials(cs.userName.value, cs.password.value))
  {
    if UsesServer(cs) && cs.serverId.value !in servers then Err(ServerEntryMissing(cs.serverId.value))
    else
      var (user, pass) :=
        if UsesServer(cs) then (servers[cs.serverId.value].username, servers[cs.serverId.value].password)
        else (cs.userName, cs.password);
      var auth := if user.Some? && pass.Some? then Some(Credentials(user.value, pass.value)) else None;
      Ok(Session(cs.database, auth))
  }

  /** Settings that pass the check never make `getDatabase` dereference a missing server, and a
      server-backed session that authenticates does so with a non-empty user name. */
  lemma {:induction false} CheckedSettingsOpenSession(cs: ConnectionSettings, servers: map<string, Server>, block: string)
    requires CheckDbSettings(cs, servers, block) == None
    ensures GetDatabase(cs, servers).Ok?
    ensures UsesServer(cs) && GetDatabase(cs, servers).value.auth.Some? ==>
      GetDatabase(cs, servers).value.auth.value.username != []
  {
  }
}
