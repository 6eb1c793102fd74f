# Game tracker backend: origin check, owner-scoped games, database bootstrap

A Dafny model of the logic of a media-tracker REST backend. The backend runs on
Express and Mongoose. Three pieces are modelled:

- **The serverless entry point** (`api/index.js`).
  - The origin allow-list that the CORS layer asks before it answers a
    cross-origin request. This covers the explicit origins, the loopback
    pattern `/^https?:\/\/(localhost|127\.0\.0\.1)(:\d+)?$/i` and the origin
    callback.
  - The memoised `ensureDBConnection`.
- **The games router** (`routes/gameRoutes.js`). List, get, create, update and
  delete work over a collection of records. Every operation is scoped to the
  authenticated caller.
- **The database connector** (`config/db.js`).
  - `connectDB`: choosing the connection string, and what happens when
    connecting fails.
  - `ensureDatabaseAndCollections`: the loop that creates the expected
    collections missing from the database.

Files:

- `js_values.dfy` (module `JsValues`): JavaScript truthiness of `undefined`
  or a string, and `filter(Boolean)`.
- `db.dfy` (module `Db`): the connector. A `Database` class holds the set of
  collection names and a log of `createCollection` calls.
- `api.dfy` (module `Api`): the origin check, and a `ConnectionMemo` class
  holding `dbConnectionPromise`.
- `games.dfy` (module `Games`): JSON values, the record built by `POST /`,
  and a `GameStore` class holding a `map` from id to record, with one method
  per handler.

The loopback pattern is modelled twice:

- `LocalhostShape` is a declarative description: scheme, `://`, host in any
  letter case, optional port, nothing else.
- `IsLocalhost` is a matcher that goes stage by stage, as the regular
  expression does.

`IsLocalhostMatchesShape` proves that the two agree on every string.
`Fold` maps `A`–`Z` to `a`–`z` and leaves every other character alone. This
is exact for this pattern. Without the `u` flag, the `i` flag compares
upper-cased characters and never maps a non-ASCII character to an ASCII one.
Every character of the pattern is ASCII. So a non-ASCII input character never
matches, whatever its case, and ASCII characters match exactly when they are
equal up to the case of `A`–`Z`.

These environment inputs and foreign calls are parameters:

- the caller id that the authentication middleware resolves;
- the clock value stamped as `createdAt`;
- the environment variables `MONGODB_URI`, `VERCEL` and `FRONTEND_ORIGIN`;
- the error `mongoose.connect` raises, if any;
- whether listing the collections fails;
- which `createCollection` calls throw.

A promise is identified with the outcome it settles to.

## Model

| member | source | states |
|---|---|---|
| `JsValues.Truthy` | api/index.js:17-29 | JavaScript truthiness of `undefined` or a string: set and non-empty; characterised through `FilterTruthy`, `ExplicitOrigins`, `OriginCallback` and `Db.ChooseUri` |
| `JsValues.FilterTruthy` | api/index.js:17-21 | keeps exactly the set, non-empty entries (both directions) and is never longer than its input |
| `JsValues.FilterTruthyAppend` | api/index.js:17-21 | filtering distributes over concatenation, so entry order is kept |
| `Api.ExplicitOrigins` | api/index.js:17-21 | always holds the deployed and local frontends, as its last two entries; holds `FRONTEND_ORIGIN` first exactly when it is set and non-empty; holds nothing else |
| `Api.IsLocalhost` | api/index.js:24-25 | `isLocalhost` itself, matched stage by stage; characterised by `IsLocalhostMatchesShape` (equal to `LocalhostShape` on every string) and the anchoring and case lemmas |
| `Api.LiteralMatchesPrefix` | api/index.js:25 | a literal step of the matcher succeeds exactly on a case-insensitive prefix match and leaves the rest of the input |
| `Api.IsLocalhostMatchesShape` | api/index.js:24-25 | the stage-by-stage matcher accepts an origin if and only if it is `http` or `https`, `://`, `localhost` or `127.0.0.1` in any case, then nothing or `:` and one or more digits, then the end |
| `Api.ShapeOfMatch` | api/index.js:25 | every origin the matcher accepts has that shape |
| `Api.MatchOfShape` | api/index.js:25 | every origin of that shape is accepted, so the greedy `s?` and the host alternation never need backtracking |
| `Api.IsLocalhostIgnoresCase` | api/index.js:25 | two origins equal up to ASCII letter case are both accepted or both rejected |
| `Api.ShapeIgnoresCase` | api/index.js:25 | the shape is closed under changes of ASCII letter case |
| `Api.AnchoredAtEnd` | api/index.js:25 | appending anything that does not begin with a digit or `:` to an accepted origin gets it rejected (`$` anchoring) |
| `Api.ShapeAnchoredAtEnd` | api/index.js:25 | the same anchoring, stated on the shape |
| `Api.ShapeUnique` | api/index.js:25 | an origin and any extension of it that both have the shape use the same scheme and host |
| `Api.PortSuffixAnchored` | api/index.js:25 | `(:\d+)?$` rejects a valid port suffix followed by a non-digit, non-colon character |
| `Api.EmptyOriginIsNotLocalhost` | api/index.js:24 | the default argument `''` is rejected |
| `Api.AcceptsDevFrontend` | api/index.js:25 | `http://localhost:5173` is accepted |
| `Api.AcceptsUpperCase` | api/index.js:25 | `HTTP://LOCALHOST:5173` is accepted |
| `Api.AcceptsLoopbackAddress` | api/index.js:25 | `https://127.0.0.1` is accepted |
| `Api.RejectsTrailingSlash` | api/index.js:25 | `http://localhost/` does not have the shape |
| `Api.RejectsLookalikeHost` | api/index.js:25 | `http://localhost.evil.com` does not have the shape |
| `Api.RejectsPath` | api/index.js:25 | `http://127.0.0.1:5173/api` does not have the shape |
| `Api.RejectsBareColon` | api/index.js:25 | `http://localhost:` (a colon with no digits) is rejected |
| `Api.RejectsOtherScheme` | api/index.js:25 | `ftp://localhost` is rejected |
| `Api.OriginCallback` | api/index.js:28-33 | allows exactly when the origin is absent or empty, is listed, or has the loopback shape; otherwise refuses with `Not allowed by CORS` |
| `Api.CorsPolicy` | api/index.js:17-33 | with the deployed allow-list, an origin is allowed exactly when it is absent or empty, the deployed frontend, the configured `FRONTEND_ORIGIN`, or loopback; the hard-coded local origin is already loopback |
| `Api.LookalikeRefused` | api/index.js:17-33 | `http://localhost.evil.com` is refused unless it is the configured origin |
| `Api.ConnectionMemo.constructor` | api/index.js:91 | the cache starts empty and `connectDB` has not run |
| `Api.ConnectionMemo.EnsureDBConnection` | api/index.js:91-97 | the first call runs `connectDB` once and caches its promise; on that call a failed connection leaves the database unchanged, and a successful one applies the bootstrap to both the call log and the collections; later calls return the cached promise, a rejected one included, and touch neither the counter nor the database; `connectDB` runs at most once |
| `Api.InvokeRepeatedly` | api/index.js:91-97 | over any run of invocations, `connectDB` runs at most once and every invocation gets the same promise; an empty run, or a run on a filled cache, changes neither the memo nor the database; from an empty cache, a non-empty run connects exactly once, with the first attempt's outcome even when later attempts would have connected, leaves the database unchanged if that attempt failed, and otherwise applies exactly one bootstrap to the call log and the collections |
| `Db.ChooseUri` | config/db.js:8-13 | uses `MONGODB_URI` when it is set and non-empty, otherwise the built-in fallback; never empty |
| `Db.ConnectOutcomeOf` | config/db.js:15-27 | connected with the chosen URI if and only if connecting raised nothing; on an error, exit with status 1 unless `VERCEL` is `'1'`, and in that case rethrow that error |
| `Db.Missing` | config/db.js:56-57 | the plan of the loop: the expected names absent from the listing, in order; never longer than the list; characterised by `MissingMembers`, `MissingDistinct` and `MissingAppend` |
| `Db.MissingMembers` | config/db.js:56-57 | the names planned for creation are exactly the expected names absent from the listing |
| `Db.MissingDistinct` | config/db.js:46-58 | with no repeated expected names, no name is planned twice |
| `Db.MissingAppend` | config/db.js:56-63 | planning distributes over concatenation of the name list, so planned names keep list order |
| `Db.UpToFailure` | config/db.js:56-68 | the calls made are a prefix of the plan; all but the last succeed; a shorter prefix ends at a rejected name; with no rejection it is the whole plan |
| `Db.UpToFailureAppend` | config/db.js:56-68 | a clean prefix of the plan is carried over unchanged |
| `Db.StopsAtFirstRejection` | config/db.js:56-68 | when the `i`-th name is missing and its creation throws after a clean prefix, that creation is the last call |
| `Db.BootstrapCalls` | config/db.js:30-69 | the `createCollection` calls of one bootstrap: none when listing fails, otherwise the plan up to the first throwing creation; characterised by `BootstrapCreatesOnlyMissing`, `BootstrapCompletes` and `EnsureDatabaseAndCollections` |
| `Db.Created` | config/db.js:56-61 | the collections those calls add: the called names whose creation does not throw; the effect `EnsureDatabaseAndCollections` and `BootstrapCompletes` state |
| `Db.ExpectedCollectionsDistinct` | config/db.js:46-54 | the seven expected collection names are distinct |
| `Db.BootstrapCreatesOnlyMissing` | config/db.js:56-61 | every `createCollection` call is for an expected name absent from the initial listing, and no name is created twice |
| `Db.BootstrapCompletes` | config/db.js:46-63 | when listing succeeds and no creation throws, every expected collection exists afterwards |
| `Db.Database.EnsureDatabaseAndCollections` | config/db.js:30-69 | the call log grows by exactly the planned calls, in list order, and stops at the first failing creation; the collections grow by the names created; a listing failure changes nothing; nothing is thrown |
| `Db.Database.ConnectDB` | config/db.js:6-28 | the outcome is `ConnectOutcomeOf`, whatever the bootstrap does; a failed connection leaves the database alone; otherwise the bootstrap's effect is applied |
| `Games.JsonTruthy` | routes/gameRoutes.js:55-67 | JavaScript truthiness of a JSON value: `undefined`, `null`, `false`, `0` and `''` are falsy; characterised through `Or`, `GameData` and `GameStore.Create` |
| `Games.Or` | routes/gameRoutes.js:64-67 | the JavaScript `or` of a field and its default is one of its two operands, and is truthy exactly when either operand is; it is the first operand whenever that one is truthy |
| `Games.GameData` | routes/gameRoutes.js:62-69 | the created record has exactly the keys title, platform, status, rating, image and user; title is copied; falsy platform, status, rating and image become `'PC'`, `'Plan to Play'`, `0` and the game emoji; user is always the caller |
| `Games.GameDataIgnoresOtherFields` | routes/gameRoutes.js:62-69 | bodies that agree on the five read fields create the same record: other body fields, `user` included, are dropped |
| `Games.CreateDefaultsExample` | routes/gameRoutes.js:62-69 | `{title: "Elden Ring"}` as user U creates platform `PC`, status `Plan to Play`, rating `0`, the emoji, and user U |
| `Games.InsertNewestFirst` | routes/gameRoutes.js:11 | insertion adds exactly the one entry (as a multiset) |
| `Games.InsertNewestFirstSorted` | routes/gameRoutes.js:11 | insertion keeps a sequence ordered by `createdAt`, newest first |
| `Games.InsertNewestFirstMembers` | routes/gameRoutes.js:11 | after insertion, the entries are the old ones plus the inserted one |
| `Games.InsertNewestFirstDistinct` | routes/gameRoutes.js:11 | inserting an entry with a new id keeps ids distinct |
| `Games.GameStore.List` | routes/gameRoutes.js:9-23 | 200 with exactly the caller's records and their ids (both directions), each once, ordered by `createdAt` descending |
| `Games.GameStore.Get` | routes/gameRoutes.js:25-50 | 200 with the record when the id exists and the caller owns it; otherwise the single 404 `Game not found`, identical for missing and foreign ids |
| `Games.GameStore.Create` | routes/gameRoutes.js:52-85 | a falsy title gives 400 `Title is required` and the store is unchanged; otherwise exactly one record, the `GameData` of the body, is added under a fresh id and returned with 201; existing records are untouched |
| `Games.GameStore.Update` | routes/gameRoutes.js:87-122 | a missing or foreign id gives the 404 and changes nothing; an owned id has the body's fields merged over its fields and is returned with 200; all other records are unchanged, and no record another user owns changes |
| `Games.GameStore.Delete` | routes/gameRoutes.js:124-151 | a missing or foreign id gives the 404 and changes nothing; an owned id is removed and nothing else, with 200 `Game deleted successfully` |

## Left out

- Express routing, the `cors` package and its preflight handling (the
  `optionsSuccessStatus` 204 at api/index.js:43), Mongoose query execution,
  and `dotenv`. These are library code. The CORS decision is modelled as the
  origin callback only.
- The header middleware at api/index.js:49-68 is not part of this model. At
  api/index.js:51 it reads `allowedOrigins`, a name that file never declares.
  Most requests never reach that read. The `cors` layer mounted at
  api/index.js:46 answers preflight `OPTIONS` requests itself with 204. A
  refused origin is passed on as an error from api/index.js:32 and skips the
  middleware. A request without a non-empty `Origin` header short-circuits the
  `&&`. What remains, an allowed non-`OPTIONS` request with an `Origin`
  header, throws a `ReferenceError` at api/index.js:51. So the middleware is
  not a working CORS policy.
- The 500 responses of every handler's `catch`. They come from store
  failures, and from Mongoose cast errors on malformed ids. Ids are modelled
  as always well-formed and the store as never failing.
- The authentication middleware (`protect`, routes/gameRoutes.js:3,7) is not
  part of this model. The caller id is a parameter.
- The `Game` schema (models/Game) is not part of this model. Update merges
  the body into the record verbatim, so `runValidators`, schema-strict
  dropping of unknown paths, casting, and Mongoose's handling of `createdAt`
  and `_id` in updates are not modelled.
- `Games.GameStore.Update`: does not promise that `user` survives an update.
  The body is not filtered, so a body carrying `user` moves the record to
  that owner.
- `Games.JsonTruthy`: JSON numbers are reals, so `NaN` and `-0` are not
  represented.
- Unique id generation (ObjectId) is a counter, and the creation timestamp is
  a parameter.
- Between the ownership check and the write, another request could change
  the record. The model treats every request as sequential, and the
  single-flight property of `ensureDBConnection` is likewise proved
  sequentially. Interleavings at each `await` are not modelled.
- Logging (`console.log`, `console.error`), `process.exit` as an effect (it
  is the `Exited(1)` outcome), and the host and name of the connection.
- The fallback connection string is a placeholder constant.
- app.js and server.js. app.js's `ensureDBConnection` (app.js:53-59) is the
  same code as api/index.js:91-97. Its origin check is handed to the `cors`
  library as a plain array. server.js only binds a socket.
