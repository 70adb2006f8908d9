/** The two capability tiers of the RPC layer (server/src/protocols/rpc.ts): the
    public root, which authenticates by token or gets-or-creates a user by email,
    and the authenticated capability, which holds one user snapshot. */
module Rpc {
  import opened Wrappers
  import opened Models
  import opened Db

  /** The message `authenticate` throws when no user holds the token. */
  const NotFound: string := "404 NOT FOUND"

  /** The argument `getMyInfo` passes to the caller's callback. */
  const Greeting: string := "Hello from getMyInfo"

  /** A function reference supplied by the remote caller; only its identity matters. */
  datatype Callback = Callback(id: nat)

  /** One call the server made back into a caller-supplied callback. */
  datatype Invocation = Invocation(callback: Callback, argument: string)

  /** The calls flowing back to the caller, in the order they were made. */
  class CallbackChannel {
    var invocations: seq<Invocation>

    constructor ()
      ensures invocations == []
    {
      invocations := [];
    }
  }

  /** The user-scoped capability: it holds the row it was built from, detached
      from the table, so later changes to the table do not reach it. */
  datatype AuthenticatedApi = AuthenticatedApi(user: User)
  {
    /** Calls `cb` once with the greeting, then returns the held user's snapshot. */
    method GetMyInfo(cb: Callback, channel: CallbackChannel) returns (info: UserInfo)
      modifies channel
      ensures channel.invocations == old(channel.invocations) + [Invocation(cb, Greeting)]
      ensures info == user.ToJson()
    {
      channel.invocations := channel.invocations + [Invocation(cb, Greeting)];
      info := user.ToJson();
    }
  }

  /** Looks the caller up by bearer token; a missing user is the thrown error. */
  function Authenticate(rows: seq<User>, token: string): (r: Result<AuthenticatedApi, string>)
    ensures r.Failure? <==> forall i :: 0 <= i < |rows| ==> rows[i].token != token
    ensures r.Failure? ==> r.error == NotFound
    ensures r.Success? ==> exists i :: FirstMatchAt(rows, Token, token, i) && rows[i] == r.value.user
  {
    match SelectFirst(rows, Token, token)
    case None => Failure(NotFound)
    case Some(user) => Success(AuthenticatedApi(user))
  }

  /** The values the insert draws from outside the request: the two calls to
      `randomUUIDv7` and the table's timestamp column defaults. */
  datatype Generated = Generated(id: string, token: string, createdAt: string, updatedAt: string)

  /** The row the insert path creates. */
  function NewRow(name: string, email: string, g: Generated): (u: User)
  {
    User(g.id, name, email, g.token, g.createdAt, g.updatedAt)
  }

  /** The generated id and token occur in no existing row. */
  ghost predicate FreshFor(rows: seq<User>, g: Generated)
  {
    forall i :: 0 <= i < |rows| ==> rows[i].id != g.id && rows[i].token != g.token
  }

  /** The table after a get-or-create, and the user the capability is bound to. */
  datatype Creation = Creation(rows: seq<User>, user: User)

  /** Get-or-create keyed by email, as a function of the table. */
  function GetOrInsert(rows: seq<User>, name: string, email: string, g: Generated): (r: Creation)
    ensures r.user.email == email && r.user in r.rows
    ensures (exists i :: 0 <= i < |rows| && rows[i].email == email) ==>
              r.rows == rows && exists i :: FirstMatchAt(rows, Email, email, i) && rows[i] == r.user
    ensures (forall i :: 0 <= i < |rows| ==> rows[i].email != email) ==>
              r.rows == rows + [r.user] && r.user == NewRow(name, email, g)
  {
    match SelectFirst(rows, Email, email)
    case Some(existing) => Creation(rows, existing)
    case None => Creation(rows + [NewRow(name, email, g)], NewRow(name, email, g))
  }

  /** `createNewUser`: returns a capability for the row with this email, inserting
      that row first when there is none. */
  method CreateNewUser(db: Database, name: string, email: string, g: Generated) returns (api: AuthenticatedApi)
    requires db.Valid()
    requires FreshFor(db.rows, g)
    modifies db
    ensures db.Valid()
    ensures Creation(db.rows, api.user) == GetOrInsert(old(db.rows), name, email, g)
  {
    var user := SelectFirst(db.rows, Email, email);
    if user.Some? {
      return AuthenticatedApi(user.value);
    }
    GetOrInsertKeepsUnique(db.rows, Id, name, email, g);
    GetOrInsertKeepsUnique(db.rows, Email, name, email, g);
    GetOrInsertKeepsUnique(db.rows, Token, name, email, g);
    var createdUser := NewRow(name, email, g);
    db.rows := db.rows + [createdUser];
    api := AuthenticatedApi(createdUser);
  }

  /** Get-or-create keeps every uniqueness constraint: the email column
      unconditionally, the id and token columns when the generated values are fresh. */
  lemma GetOrInsertKeepsUnique(rows: seq<User>, c: Column, name: string, email: string, g: Generated)
    requires Unique(rows, c)
    requires c != Email ==> FreshFor(rows, g)
    ensures Unique(GetOrInsert(rows, name, email, g).rows, c)
  {
  }

  /** Idempotence: a second get-or-create with the same email, whatever its name
      and generated values, returns the same user and leaves the table alone. */
  lemma GetOrInsertIdempotent(rows: seq<User>, name1: string, name2: string, email: string, g1: Generated, g2: Generated)
    ensures var first := GetOrInsert(rows, name1, email, g1);
            var second := GetOrInsert(first.rows, name2, email, g2);
            second == first && second.user.id == first.user.id && second.user.token == first.user.token
  {
    if SelectFirst(rows, Email, email).None? {
      SelectFirstAppend(rows, NewRow(name1, email, g1), Email, email);
    }
  }

  /** Under unique tokens, authenticating with a row's token yields that row. */
  lemma AuthenticateFindsOwner(rows: seq<User>, k: int)
    requires Unique(rows, Token)
    requires 0 <= k < |rows|
    ensures Authenticate(rows, rows[k].token) == Success(AuthenticatedApi(rows[k]))
  {
    SelectFirstUnique(rows, Token, k);
  }

  /** Auth round trip: the token of the user a get-or-create returns authenticates
      as that same user; for a new email its snapshot carries the given name and email. */
  lemma GetOrInsertThenAuthenticate(rows: seq<User>, name: string, email: string, g: Generated)
    requires Unique(rows, Token)
    requires FreshFor(rows, g)
    ensures var c := GetOrInsert(rows, name, email, g);
            Authenticate(c.rows, c.user.token) == Success(AuthenticatedApi(c.user))
    ensures (forall i :: 0 <= i < |rows| ==> rows[i].email != email) ==>
              var info := GetOrInsert(rows, name, email, g).user.ToJson();
              info.name == name && info.email == email && info.token == g.token
  {
    var c := GetOrInsert(rows, name, email, g);
    GetOrInsertKeepsUnique(rows, Token, name, email, g);
    var k :| 0 <= k < |c.rows| && c.rows[k] == c.user;
    AuthenticateFindsOwner(c.rows, k);
  }
}
