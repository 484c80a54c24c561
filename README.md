# Chat backend: users, message history and the chat proxy

This project models the request handling of `server.js`, an Express server that keeps two SQLite
tables and relays chat turns to a separate chat service:

- `users`: `id` is the primary key, `email` is unique, `created_at` is a timestamp.
- `messages`: `id` is an AUTOINCREMENT key, and each row holds `user_id`, `session_id`, `role`, `content` and `created_at`.

The database is a state machine over these two tables. Four handlers act on it:

- **register** normalises the e-mail, then either returns the existing row or inserts a new user.
- **get user** looks a user up by id.
- **chat** validates the request and picks a session id. It appends the user's message, then reads the chat service's answer and appends the assistant's reply.
- **clear** deletes all messages of one user.

The modules follow the program's layers:

- `Text`: the `trim()` and `toLowerCase()` of the register handler.
- `JsValues`: the request-body values the handlers read. This covers JavaScript truthiness, `||`, `String(v)`, and how better-sqlite3 binds a value into a TEXT column.
- `Tables`: both tables as one value (`Store`), with these parts:
  - their constraints (`WellFormed`): unique user ids and e-mails; message ids increasing and below the AUTOINCREMENT counter;
  - the SELECT, INSERT and DELETE statements the helpers run.
- `Handlers`: each handler as a function from the tables before the request to the tables after it and the response (`RegisterOutcome`, `GetUserResponse`, `ChatOutcome`, `ClearOutcome`), with the lemmas that state what the handlers promise.
- `Database`: the database handle as a class `Db` whose `users`, `messages` and `nextMessageId` fields the repository methods change in place.
- `Server`: the four handlers as methods on a `Db`. Each method is proved to leave exactly the tables and give exactly the response that its `Handlers` function describes, and to keep `WellFormed`.

Values the server gets from outside are parameters:

- the uuid that `uuidv4()` would return (`newId` for a new user, `drawn` for a new session);
- the `created_at` timestamps;
- what the POST to the chat service yields (`Upstream`). This is one of: the request fails; a raw body that is not JSON; JSON `null`; or JSON whose `reply` field holds some value, `Undefined` when it is missing.

Details of the code that the model follows:

- A newly registered user is answered with `{id, email}` only, without `created_at` (server.js:48, 72). A user who already exists is answered with the full row.
- Some request values cannot be bound. A request value that is the boolean `true` passes the truthiness checks but makes better-sqlite3 throw when it is bound:
  - In chat, this is caught and answered with a generic 500. Nothing is written if it happens on the user's row. Only the user's row is kept if it happens on the assistant's row.
  - Clear has no `try`, so the exception reaches Express's default error handler (`DefaultErrorPage`, status 500).
- Chat answers a generic 500 in two more cases, both after the user's row was written: the chat service's answer parses as JSON `null` (reading `data.reply` throws), and the call to the service fails.

## Definitions

These functions define the model. They carry no contract of their own; the lemmas in the table below state their properties.

| definition | source | what it is |
|---|---|---|
| JsValues.Truthy | server.js:66, 90-91, 131 | JavaScript truthiness of a request value: not `undefined`, `null`, `false` or `""` |
| JsValues.Or | server.js:65, 93, 117 | `a \|\| b`: `a` when truthy, otherwise `b` |
| JsValues.ToJsString | server.js:65 | `String(v)` |
| Text.Trim | server.js:65 | `trim()`; properties in TrimSpec, TrimSurrounded, TrimOfTrimmed |
| Text.Lower | server.js:65 | `toLowerCase()` on ASCII letters; properties in LowerSpec, LowerIdempotent |
| Text.NormalizeEmail | server.js:65 | `trim().toLowerCase()`; properties in NormalizeEmailShape, NormalizeIdempotent, NormalizeIgnoresCaseAndSpace |
| Handlers.EmailOf | server.js:65 | `String(req.body.email \|\| "").trim().toLowerCase()` |
| Handlers.RegisterNormalized | server.js:66-76 | register after normalisation: the blank check, the lookup and the insert |
| Handlers.RegisterOutcome | server.js:63-77 | the register handler; properties in the Register* lemmas |
| Handlers.GetUserResponse | server.js:80-84 | the get-user handler; properties in GetUserFinds |
| Handlers.ChatOutcome | server.js:87-126 | the chat handler; properties in the Chat* lemmas |
| Handlers.ClearOutcome | server.js:129-134 | the clear handler; properties in the Clear* lemmas |

## Model

| member | source | states |
|---|---|---|
| Text.LowerChar | server.js:65 | lower-casing one character turns each ASCII capital `A`-`Z` into its small letter `a`-`z`, leaves every other character as it is, and never yields a capital |
| Text.TrimStartSpec | server.js:65 | the start of `trim` removes exactly a white-space prefix and stops at the first other character |
| Text.TrimEndSpec | server.js:65 | the end of `trim` removes exactly a white-space suffix and stops at the last other character |
| Text.TrimSpec | server.js:65 | `trim()` is the slice between a white-space prefix and a white-space suffix, no end is white space, and it is empty exactly when the input is all white space |
| Text.LowerSpec | server.js:65 | `toLowerCase()` keeps the length and lowers every character in place |
| Text.LowerCharKeepsSpace | server.js:65 | lower-casing neither creates nor removes white space |
| Text.NormalizeEmailShape | server.js:65-66 | a normalised address has no capital and no white space at either end, and is empty exactly when the input was all white space (the 400 case) |
| Text.TrimOfTrimmed | server.js:65 | trimming a string with no white space at its ends returns it unchanged |
| Text.LowerIdempotent | server.js:65 | lower-casing twice equals lower-casing once |
| Text.NormalizeIdempotent | server.js:65 | normalising an already normalised address changes nothing |
| Text.TrimStartPrefix | server.js:65 | the start of `trim` removes exactly a white-space prefix in front of a non-space character |
| Text.TrimEndSuffix | server.js:65 | the end of `trim` removes exactly a white-space suffix behind a non-space character |
| Text.TrimSurrounded | server.js:65 | a string with no white space at either end, wrapped in any white space, trims back to itself |
| Text.NormalizeIgnoresCaseAndSpace | server.js:65 | two addresses that differ only in ASCII capitals and in the white space around them normalise to the same address |
| Text.LowerExample | server.js:65 | `"Foo@Bar.COM"` lower-cases to `"foo@bar.com"` |
| Text.NormalizeExample | server.js:65 | `"  Foo@Bar.COM "` normalises to `"foo@bar.com"` |
| JsValues.BindText | server.js:56-59 | binding succeeds exactly for strings and stores the string unchanged |
| Tables.EmptyWellFormed | server.js:25-42 | the freshly created tables satisfy the key, uniqueness and AUTOINCREMENT invariant |
| Tables.UserWithEmail | server.js:50-52 | the lookup by e-mail finds a row with that e-mail, and finds nothing exactly when no row has it |
| Tables.UserWithId | server.js:53-55 | the lookup by id finds a row with that id, and finds nothing exactly when no row has it |
| Tables.UserWithEmailIsThatRow | server.js:50-51 | under the UNIQUE constraint the lookup by e-mail returns the stored row with that e-mail |
| Tables.UserWithIdIsThatRow | server.js:53-54 | under the PRIMARY KEY the lookup by id returns the stored row with that id |
| Tables.InsertUser | server.js:47 | the insert fails exactly when the id or the e-mail is already in the table; otherwise it appends the one row, leaves `messages` alone and keeps the constraints |
| Tables.InsertMessage | server.js:57-59 | the insert appends one row with the next AUTOINCREMENT id, advances the counter, leaves `users` alone and keeps the invariant |
| Tables.SaveMessage | server.js:56-60 | `saveMessage` writes exactly when user id, session id and content all bind, and then inserts the bound strings |
| Tables.DeleteByUser | server.js:132 | the rows left are exactly the rows whose `user_id` differs, and none is added |
| Tables.DeleteKeepsIdsIncreasing | server.js:132 | deleting keeps the surviving rows in increasing id order |
| Tables.HeadIdBelowTail | server.js:35 | in an id-ordered table the first row's id is below every later row's id |
| Tables.ConsIdsIncreasing | server.js:35 | putting a row with a smaller id in front of an id-ordered table keeps it ordered |
| Tables.DeleteRemovesAll | server.js:132 | after the DELETE the user has no messages |
| Tables.DeleteKeepsOthers | server.js:132 | after the DELETE every other user's messages are exactly as before, order included |
| Tables.DeleteAbsentIsNoOp | server.js:132 | deleting for a user with no messages changes nothing |
| Database.Db.constructor | server.js:22-42 | opening a new file and creating both tables gives empty tables with the counter at 1 |
| Database.Db.GetUserByEmail | server.js:50-52 | returns the stored row with that e-mail, or nothing exactly when there is none |
| Database.Db.GetUserById | server.js:53-55 | returns the stored row with that id, or nothing exactly when there is none |
| Database.Db.CreateUser | server.js:45-49 | inserts exactly the new row when id and e-mail are both unused; otherwise the insert throws and the tables are unchanged |
| Database.Db.SaveMessage | server.js:56-60 | appends one row under the next id when every value binds; otherwise the tables are unchanged |
| Database.Db.DeleteMessagesOf | server.js:132 | `messages` becomes the rows of other users, in order; `users` and the counter stay |
| Handlers.ChooseSession | server.js:93 | a truthy client session id is used as it is, otherwise the drawn uuid is used |
| Handlers.AssistantReply | server.js:117 | the stored reply is `data.reply` when truthy, otherwise `"(no reply from Gemini)"` |
| Handlers.RegisterBlank | server.js:65-66 | register answers 400 `email required` exactly when the normalised address is empty, and then changes nothing |
| Handlers.RegisterExisting | server.js:68-69 | an address already stored answers that stored row and inserts nothing |
| Handlers.RegisterNew | server.js:71-72 | a new address with an unused uuid appends exactly one user with that fresh id and the normalised address, and answers `{id, email}` |
| Handlers.RegisterIdClash | server.js:71-75 | a new address whose uuid is already an id answers 500 `server error` and changes nothing |
| Handlers.RegisterKeepsWellFormed | server.js:63-77 | register keeps ids and e-mails unique and never touches `messages` |
| Handlers.RegisterIdempotent | server.js:68-72 | after one successful registration, a second one with an address that normalises the same answers the same id and changes nothing |
| Handlers.RegisterIgnoresCaseAndSpace | server.js:65-72 | once an address registered, the same address in other ASCII capitals and with other surrounding white space reaches the same account and inserts nothing |
| Handlers.GetUserFinds | server.js:80-84 | get user answers 404 exactly when no row has the id, and otherwise 200 with that row |
| Handlers.ChatValidation | server.js:89-91 | chat checks `user_id` first and `message` second; it answers 400 exactly when one is falsy, with the matching error, and writes nothing |
| Handlers.ChatSuccess | server.js:93-121 | chat answers 200 exactly when both fields are non-empty strings, the session id is a string, the reply is not `true` (a falsy reply becomes the placeholder), and the answer parses to a JSON value other than `null`; it then appends exactly two rows under the next two ids, the `user` row with the message and then the `assistant` row with the reply, both with that user and session, keeps the earlier rows, and answers that reply and that session id |
| Handlers.ChatSession | server.js:93-121 | on success the answered session id is the client's truthy one or the drawn uuid, and it is the session of both new rows |
| Handlers.ChatFreshSession | server.js:93-94 | when no client session was given and the drawn uuid was unused, the new session holds exactly the turn's two rows |
| Handlers.ChatFailureWritesNoReply | server.js:94-124 | every failed chat request leaves the tables unchanged or with only the user's row added; it never adds an assistant row |
| Handlers.ChatNonJson | server.js:103-115 | a non-JSON answer from the chat service gives 500 with `raw_response` equal to the raw body, after the user's row was appended and with no assistant row |
| Handlers.ChatKeepsWellFormed | server.js:87-126 | chat keeps the message invariant and never touches `users` |
| Handlers.ClearMissingUser | server.js:130-131 | clear without a truthy `user_id` answers 400 and deletes nothing |
| Handlers.ClearRemovesOnlyThatUser | server.js:129-133 | clear leaves the user no messages and every other user's messages as they were; it keeps `users` and the counter, and answers `{status: "cleared"}` |
| Handlers.ClearAbsentIsNoOp | server.js:132-133 | clearing a user without messages changes nothing |
| Handlers.ClearKeepsWellFormed | server.js:132 | clear keeps the message invariant |
| Server.Register | server.js:63-77 | the handler's new tables and response are exactly `RegisterOutcome`, and the constraints hold |
| Server.GetUser | server.js:80-84 | answers 404 exactly when no row has the id, otherwise 200 with that row; it writes nothing |
| Server.Chat | server.js:87-126 | the handler's new tables and response are exactly `ChatOutcome`, and the invariant holds |
| Server.Clear | server.js:129-134 | the handler's new tables and response are exactly `ClearOutcome`, and the invariant holds |

## Left out

- Express wiring, CORS, the static file server, dotenv and `app.listen` (server.js:2-19, 136-139) are framework plumbing.
- The SQLite engine is reduced to the effect of each statement on the two tables. These statements run one at a time.
- Reopening an existing database file keeps its rows. The handler methods therefore accept any well-formed starting state, not only the empty one.
- `created_at` values are abstract timestamps passed in as parameters.
- The outbound `fetch` and `JSON.parse` (server.js:97-108) are not modelled as code. Their result is the `Upstream` parameter.
- The request body sent to the chat service is not modelled. Neither is the service itself: `app.py` (a wrapper around a foreign SDK with floating-point sampling settings) is not part of this model.
- `uuidv4` is a parameter. The model does not assume it is unique; freshness appears as a hypothesis of the lemmas that need it.
- Text.Lower: lower-cases the ASCII letters only. Full Unicode case mapping, which can change a string's length, is not modelled.
- JSON numbers, objects and arrays as request fields or as the chat service's `reply` are not modelled. Their truthiness, `String()` form and SQLite storage are left out. Request fields are absent, `null`, booleans or strings.
- A request with no JSON body at all is not modelled.
- `console.log` and `console.error` have no effect on state or responses.
- A chat service that never answers is not modelled. `fetch` at server.js:97-101 has no timeout, so such a request hangs with the user's row already stored (server.js:94); `Upstream` has no case for it.
- Exhaustion of the AUTOINCREMENT counter is not modelled. At message id 2^63-1 SQLite refuses further inserts; the model's counter is an unbounded `nat` and never runs out.
- Interleaving of concurrent requests is not modelled. This includes the race between two registrations of one address on the UNIQUE constraint, and a chat request that is suspended while it waits for the chat service.
