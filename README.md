# Capability-based RPC server core, in Dafny

This project models the server side of a small capability-based RPC application
built on a WebSocket transport and a SQLite `User` table, and proves properties
of the model. Three pieces carry its logic:

- **The WebSocket adapter** (`WsAdapter`), which the RPC engine uses as its
  socket: a map from event type to an insertion-ordered set of listeners, a
  `dispatch` entry point for the host's hooks, and `send`/`close` forwarded to
  the host socket. Module `WsAdapters` (`ws_adapter.dfy`): class `WsAdapter`
  with a `map<string, seq<Listener>>` field whose sequences are kept free of
  duplicates (a JavaScript `Set` keeps insertion order, and adding a present
  element leaves it in place); the host socket is a class `Socket` whose `log`
  records what it was sent and how it was closed.
- **The two capability tiers** (`PublicAPIImpl`, `AuthenticatedAPIImpl`).
  Module `Rpc` (`rpc.dfy`): `Authenticate` looks a user up by bearer token and
  fails with `"404 NOT FOUND"`; `CreateNewUser` is get-or-create keyed by email,
  a method that updates the table object, specified by the function `GetOrInsert`;
  `AuthenticatedApi` is the user-scoped capability, a value wrapping the row it
  was built from, whose `GetMyInfo` records one call of the caller's callback
  with `"Hello from getMyInfo"` and returns the row's snapshot.
- **The `User` record** and its `toJSON` snapshot. Module `Models`
  (`models.dfy`).

Module `Db` (`db.dfy`) gives the table the RPC layer queries: a class
`Database` holding `rows: seq<User>`, whose invariant is that the id, email and
token columns have no duplicates. `SelectFirst` is the meaning of
`SELECT * FROM User WHERE <column> = $value` followed by `.get`: the first
matching row in the sequence, or none. SQLite promises no row order without
`ORDER BY`, so the order of `rows` is only the model's; under the uniqueness
invariant at most one row matches an email or a token, so that order never
shows in a result (`Db.SelectFirstUnique`). Module `Wrappers` holds `Option` and `Result`.

What comes from outside is a parameter: the two `randomUUIDv7` values and the
`createdAt`/`updatedAt` column defaults are the `Generated` argument of
`CreateNewUser` (the id and token required fresh, as the generator promises);
the callback is an identity (`Callback`) and its invocation is recorded in a
`CallbackChannel`; the event passed to `Dispatch` is of any type `E`, handed on
unchanged; listener calls made by `Dispatch` are returned as `(listener, event)`
pairs.

Because `Authenticate` is a function of the rows, it cannot change the table;
because `Dispatch` has no `modifies` clause, it cannot change the registry; and
because an `AuthenticatedApi` is a value holding its row, nothing done to the
table later changes what `GetMyInfo` returns.

`authenticate` fails by throwing a plain `Error` whose message is
`"404 NOT FOUND"` (server/src/protocols/rpc.ts:39); the model returns it as
the `Failure` of a `Result`.

The adapter exists in two copies, server/src/adapters/ws-adapter.ts and
server/src/ws-adapter.ts, which differ only in `unknown` versus `any` types
and in the order of the methods; the one class `WsAdapters.WsAdapter` models
both. In the second copy the members sit at these lines:

| member | server/src/ws-adapter.ts |
|---|---|
| `WsAdapters.WsAdapter.constructor` | 7-8 |
| `WsAdapters.WsAdapter.Send` | 10-13 |
| `WsAdapters.WsAdapter.Close` | 14-16 |
| `WsAdapters.WsAdapter.AddEventListener` | 18-22 |
| `WsAdapters.WsAdapter.RemoveEventListener` | 23-26 |
| `WsAdapters.WsAdapter.Dispatch` | 29-32 |

## Model

| member | source | states |
|---|---|---|
| Models.User.ToJson | server/src/db/models.ts:20-29 | the snapshot carries the id, token, name, email, createdAt and updatedAt of the user unchanged |
| Models.ToJsonInjective | server/src/db/models.ts:20-29 | two users have equal snapshots exactly when they are the same record, so the snapshot loses nothing |
| Db.SelectFirst | server/src/protocols/rpc.ts:33-36 | a lookup finds nothing exactly when no row holds the value; otherwise it returns the first row of the sequence that holds it (the only one, under the uniqueness invariant) |
| Db.SelectFirstAppend | server/src/protocols/rpc.ts:56-70 | appending a row keeps every answer that existed and only answers a lookup that had no match, with the new row if it matches |
| Db.SelectFirstUnique | server/src/protocols/rpc.ts:46-49 | in a column without duplicates, looking a row up by its own value returns that row |
| Rpc.Authenticate | server/src/protocols/rpc.ts:32-43 | fails with "404 NOT FOUND" exactly when no row holds the token; otherwise returns a capability bound to the first row that holds it |
| Rpc.AuthenticateFindsOwner | server/src/protocols/rpc.ts:32-42 | with unique tokens, authenticating with any row's token yields a capability bound to that very row |
| Rpc.AuthenticatedApi.GetMyInfo | server/src/protocols/rpc.ts:25-28 | the callback gets exactly one call, with "Hello from getMyInfo", and the result is the snapshot of the user held since construction |
| Rpc.GetOrInsert | server/src/protocols/rpc.ts:44-73 | an existing email returns the first row with it and leaves the table and the name argument alone; a new email appends exactly one row with the given name and email and the generated id, token and timestamps, and returns it |
| Rpc.CreateNewUser | server/src/protocols/rpc.ts:44-73 | the new table and the capability's user are what get-or-create gives for the old table, and the id, email and token uniqueness constraints still hold |
| Rpc.GetOrInsertKeepsUnique | server/src/protocols/rpc.ts:46-70 | get-or-create keeps emails unique unconditionally, and ids and tokens unique when the generated values are fresh |
| Rpc.GetOrInsertIdempotent | server/src/protocols/rpc.ts:46-70 | a second get-or-create with the same email, any name and any generated values, returns the same user (same id and token) and leaves the table as the first left it |
| Rpc.GetOrInsertThenAuthenticate | server/src/protocols/rpc.ts:32-72 | the token of the user get-or-create returns authenticates as that same user; for a new email its snapshot reports the given name, email and generated token |
| WsAdapters.SetAdd | server/src/adapters/ws-adapter.ts:13 | adding keeps the existing listeners in their places, adds at most one element at the end, makes the listener a member, leaves a set that already holds it unchanged, and keeps the set free of duplicates |
| WsAdapters.SetDelete | server/src/adapters/ws-adapter.ts:26 | deleting leaves exactly the members other than the listener, changes nothing when it is absent, and keeps the set free of duplicates |
| WsAdapters.SetDeleteAt | server/src/adapters/ws-adapter.ts:26 | deleting a member removes its one occurrence and keeps the other listeners in their relative order |
| WsAdapters.SetDeleteUndoesSetAdd | server/src/adapters/ws-adapter.ts:10-27 | removing a listener just added for the first time restores the set it was added to |
| WsAdapters.WsAdapter.constructor | server/src/adapters/ws-adapter.ts:7-8 | a new adapter holds the given socket and no listener sets |
| WsAdapters.WsAdapter.AddEventListener | server/src/adapters/ws-adapter.ts:10-14 | the set for the type is created on first use holding only the listener, a listener already present leaves the registry unchanged, and no other type's set changes |
| WsAdapters.WsAdapter.RemoveEventListener | server/src/adapters/ws-adapter.ts:24-27 | removes exactly the listener from the type's set; an unknown type or an absent listener is a no-op; the key stays and no other type's set changes |
| WsAdapters.WsAdapter.Dispatch | server/src/adapters/ws-adapter.ts:20-23 | calls each listener registered for the type exactly once, in insertion order, each with the event unchanged, and none when the type has no set |
| WsAdapters.WsAdapter.Send | server/src/adapters/ws-adapter.ts:29-32 | the socket receives the payload unchanged, as its one new operation |
| WsAdapters.WsAdapter.Close | server/src/adapters/ws-adapter.ts:15-17 | the socket receives a close with the optional code and reason unchanged, as its one new operation |

## Left out

- `getTodaysDate` (server/src/protocols/rpc.ts:74-76): it reads the wall clock.
- The `console.info` logging of the adapter methods: it has no effect on behaviour.
- Whether `User` fields are `readonly` (id, createdAt) or writable (name, email, token, updatedAt): no code of the core writes a field of a `User`, so the model's `User` is an immutable value and the distinction is not observable.
- The RPC engine (`RpcTarget`, stub disposal, promise pipelining, the routing of a callback call back to the caller, broken-connection handling): it is a foreign library; a callback call is modelled only as one recorded invocation with its argument.
- Opening the SQLite database, the WAL pragma and the migrations (server/src/db/index.ts): the migration file is not part of this model, so the table's uniqueness constraints are the `Database.Valid` invariant and its timestamp defaults are inputs.
- Rpc.CreateNewUser: an insert rejected by a uniqueness constraint is not modelled, because the generated id and token are required to be fresh.
- Atomicity of get-or-create across concurrent connections: the code is a sequential check-then-insert, and the model is sequential.
- WsAdapters.WsAdapter.Dispatch: listener bodies are foreign code and are not run, so a listener that throws, or that adds or removes listeners while `forEach` is iterating, is not modelled.
- Failures of the store itself (a locked or unavailable database making a query throw in `authenticate` or `createNewUser`): the store is an abstract sequence that always answers, so the model has no such error path.
- WsAdapters.WsAdapter.Close: the close code is a JavaScript number; the model takes an integer.
