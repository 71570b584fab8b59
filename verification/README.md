# mmwave occupancy service — Dafny model

A model of the occupancy service for presence sensors. Sensors post their
room's binary state (1 = occupied, 0 = free). The backend checks the
payload and the shared token, appends the event to a log, and upserts a
per-room "latest state" projection in one transaction. The room listing
reads the projection and derives how long each occupied room has been in
its state. The dashboard formats that duration and labels each room.

The model is functional:

- `options.dfy`: `Option`, used for SQL NULL and JavaScript null.
- `lex.dfy` (`Lex`): the order of `ORDER BY room_name`, taken as code-point
  lexicographic order. It is proved a total order, and `Ascending` lists a
  finite set of names in strictly ascending order.
- `decimal.dfy` (`Decimal`): the decimal text of a natural number, the
  reading of such text back, and the round trip between them.
- `occupancy.dfy` (`Occupancy`): the store is `Store(tokens, events, rooms)`.
  `Ingest` is the POST `/sensor/update` transition. It takes the clock `now`
  and a `Fault` naming the database step that fails, if any, and returns a
  tagged reply (`Ok(StatusOk)`, `Err(Validation)`, `Err(Unauthorized)` or
  `Err(StoreError)`) together with the resulting store. `ListRooms` is GET
  `/rooms`. `StatusCode` and `Detail` give the HTTP mapping of the errors.
- `invariants.dfy` (`Invariants`): invariants that ingest preserves. The
  main one is that the projection is the tail of the log: every room in the
  projection carries the state of the last logged event for that room, and
  no other room appears. The file also covers runs of many requests
  (`Replay`).
- `dashboard.dfy` (`Dashboard`): `formatDuration`, the per-room label and
  `renderRooms` without the DOM. `ParseDuration` is a reader for the
  formatter's output, used to prove that formatting loses nothing.
- `end_to_end.dfy` (`EndToEnd`): scenarios of an ingest followed by a
  listing, repeated pings, and what the dashboard shows for a listing.

Time is a `nat` count of seconds that the caller supplies. A database
failure is a parameter: `Fault` for an ingest, `storeFails` for a listing.

## Model

| member | source | states |
|---|---|---|
| Occupancy.Ingest | app/main.py:13-96 | An invalid payload (sensor id or room name not 1..128 characters, empty token, state outside 0..1) gives Validation, whatever the store does. A fault at or before the token lookup gives StoreError. An unknown token gives Unauthorized. A fault at insert, upsert or commit after a valid token gives StoreError. Each of these holds if and only if its condition holds, and every error leaves the store unchanged (a failed commit is taken to be rolled back). On success the tokens are unchanged, exactly one event `(sensor_id, room_name, state)` is appended with earlier events kept in place, and the room maps to `(state, now)` while all other rooms keep their rows. |
| Occupancy.StatusCode | app/main.py:64-96 | Every error has a 4xx or 5xx code, and only StoreError has a server (5xx) code. The code is 422 exactly for Validation, 401 exactly for Unauthorized and 500 exactly for StoreError. |
| Occupancy.Detail | app/main.py:64-96 | "Invalid token" is the message exactly for Unauthorized, and "Database error" exactly for StoreError. |
| Occupancy.RowsFor | app/main.py:117-124 | Each listed row keeps the room's state and timestamp. `occupied_seconds` is present exactly when the state is 1, and then equals `now - updated_at`. |
| Occupancy.Listing | app/main.py:115-129 | One row per projection entry (same count). Every row describes its own room's entry, and the rows are strictly ascending by room name. |
| Occupancy.ListingCoversRooms | app/main.py:115-129 | Every room of the projection appears in the listing. |
| Occupancy.ListRooms | app/main.py:107-139 | A store failure gives StoreError and no rows. Otherwise the reply is the full listing. |
| Lex.Ascending | app/main.py:126 | Lists a set of room names once each, in strictly ascending order. |
| Lex.LeReflexive | app/main.py:126 | The name order is reflexive. |
| Lex.LeAntisymmetric | app/main.py:126 | The name order is antisymmetric. |
| Lex.LeTransitive | app/main.py:126 | The name order is transitive. |
| Lex.LeTotal | app/main.py:126 | Any two names are comparable. |
| Invariants.IngestKeepsTail | app/main.py:68-86 | After any ingest, the projection still holds exactly the rooms the log names, each with the state of its last logged event. |
| Invariants.TailImpliesBacked | app/main.py:68-86 | A projection that is the tail of the log has every row backed by a logged event with the same room and state. |
| Invariants.IngestKeepsBacked | app/main.py:68-86 | Ingest preserves "every projection row is backed by a logged event with that room and state". |
| Invariants.IngestKeepsStatesBinary | app/main.py:17-86 | Only states 0 and 1 are ever logged or projected. |
| Invariants.IngestKeepsStamps | app/main.py:77-86 | An ingest at `now` stamps no row later than `now`. |
| Invariants.OccupiedNonNegative | app/main.py:121-124 | When no stamp is later than `now`, every derived `occupied_seconds` is at least 0. |
| Invariants.ReplayAppendOnly | app/main.py:68-74 | Over any run of requests, the tokens never change and earlier events stay in place. The log grows by exactly the number of accepted requests. |
| Invariants.ReplayKeepsInvariants | app/main.py:51-96 | A run from a store satisfying the invariants (tail, backed, binary states, stamps not after `now`) keeps them all. |
| Decimal.FromNat | frontend/app.js:17-22 | The text a template literal writes for a whole number of hours, minutes or seconds: at least one character, digits only, and no leading zero except for the count 0 itself. |
| Decimal.ToNatFromNat | frontend/app.js:17-22 | Reading back the decimal text of a count gives the count. |
| Decimal.ReadNatFromNat | frontend/app.js:17-22 | A count's text followed by a non-digit is read as exactly that count and that rest. |
| Decimal.FromNatToNat | frontend/app.js:17-22 | Digit text without a superfluous leading zero is the text of its own value, so a count has exactly one spelling. |
| Decimal.ReadNatShows | frontend/app.js:17-22 | Whatever is read as a number is that number's text followed by a rest that does not start with a digit. |
| Dashboard.SplitSeconds | frontend/app.js:12-14 | `hours*3600 + minutes*60 + remaining` equals the clamped seconds, with `minutes < 60` and `remaining < 60`. |
| Dashboard.SplitUnique | frontend/app.js:12-14 | The split is the only one with minutes and seconds below 60. |
| Dashboard.FormatDuration | frontend/app.js:6-23 | The text is empty exactly for null, and otherwise ends in `s`. |
| Dashboard.FormatSplit | frontend/app.js:16-22 | Every one of the three shapes is non-empty and ends in the seconds unit. |
| Dashboard.FormatIsShow | frontend/app.js:16-22 | The three shapes are the items of the largest non-zero unit and below, joined by single spaces: `{h}h {m}m {s}s`, `{m}m {s}s`, `{s}s`. |
| Dashboard.ReadItemsShow | frontend/app.js:16-22 | Space-separated `count unit` items are read back exactly. |
| Dashboard.ShowReadItems | frontend/app.js:16-22 | Text that reads as `count unit` items is exactly those items written with single spaces. |
| Dashboard.ParseOnlyFormatted | frontend/app.js:16-22 | The reader accepts only the formatter's spelling: text that reads as a split is that split formatted, so "05s" and "0h 0m 5s" are refused. |
| Dashboard.ParsedIsFormatDuration | frontend/app.js:6-23 | Text that reads as a split with minutes and seconds below 60 is, character for character, what formatDuration writes for that split's total. |
| Dashboard.ParseFormatSplit | frontend/app.js:16-22 | Each of the three shapes reads back as the split it was written from. |
| Dashboard.FormatDurationRoundTrip | frontend/app.js:6-23 | For any integer, the text reads back as the split of the value clamped at 0, so it stands for exactly `max(0, x)` seconds. |
| Dashboard.RoomLabel | frontend/app.js:55-60 | A room with state 1 is labelled "Ocupada há " followed by its formatted `occupied_seconds`. Any other state gives "Disponível". |
| Dashboard.LabelShowsState | frontend/app.js:55-60 | A label starts with "Ocupada há " exactly when the room's state is 1. Otherwise it is "Disponível". |
| Dashboard.LabelShowsDuration | frontend/app.js:55-57 | An occupied room's label, after the prefix, reads back as its clamped `occupied_seconds`. |
| Dashboard.RenderRooms | frontend/app.js:25-66 | An empty list gives the single notice "Sem salas registadas.". Otherwise there is one card per room in order, with its name, a busy flag that is set exactly when the state is 1, and its label. |
| EndToEnd.RepeatedPingRefreshes | app/main.py:77-86 | Two identical pings log two events, and the row's stamp moves to the second ping's time even though the state is unchanged. |
| EndToEnd.LobbyScenario | app/main.py:51-129 | With token "T" registered, ingesting `{s1, T, lobby, 1}` at `t` replies ok. A later listing is exactly `[lobby, 1, t, now - t]`. |
| EndToEnd.BadTokenScenario | app/main.py:59-65 | An unknown token gives 401 "Invalid token", and no room is listed afterwards. |
| EndToEnd.OutageScenario | app/main.py:137-139 | A listing during a store outage gives 500 "Database error" and no rows. |
| EndToEnd.OccupiedGrowsWithTime | app/main.py:121-124 | Between writes, rows keep their places, and an occupied room's seconds grow by exactly the elapsed time. |
| EndToEnd.DashboardShowsElapsed | frontend/app.js:55-57 | For a listing with no stamp in the future, the label of the occupied room at any position reads back as the time since that room's last update. |
| EndToEnd.FreshStoreShowsNotice | frontend/app.js:28-33 | A store with no room yet is shown as the empty-list notice. |

## Left out

- Connection setup, environment configuration (`get_db_config`, `get_connection`) and the cursor/connection cleanup in the `finally` blocks are I/O plumbing and are not modelled as code.
  - A failure to connect or to open a cursor is `ConnectFails` for an ingest and `storeFails` for a listing.
  - A failure during cleanup is swallowed by `except Exception: pass` (app/main.py:98-103, app/main.py:141-146) and leaves the reply as it was. This includes closing a cursor that was never opened.
  - A configuration value that does not parse, such as a non-numeric `MYSQL_PORT` (app/main.py:32), raises an exception that neither `except HTTPException` nor `except Error` catches (app/main.py:91-96, app/main.py:137-139). The reply is then the framework's bare 500 without "Database error". This path is not modelled: every 500 of the model is `StoreError` with "Database error".
- FastAPI routing, the `/health` endpoint and pydantic itself are not modelled. Only the field constraints of `SensorUpdate` are kept, as `WellFormed` on an already-typed payload. Pydantic's coercion of strings or booleans to `state` and the body of its 422 reply are not modelled, so `Detail` is None for Validation.
- Concurrent ingests (last-writer-wins at the database) are not modelled, because they depend on the store's isolation. Requests are served one after another.
- The event log's `recorded_at` column is not modelled. The insert does not set it and the table schema is not part of this model, so an event is `(sensor_id, room_name, state)`.
- MySQL collation is not modelled. Room names are ordered and compared by code point, as under a binary collation. A case- or accent-insensitive collation would order differently and would also merge keys such as "Lobby" and "lobby". The token lookup (`WHERE token = %s`, app/main.py:59-62) is modelled as exact membership in `tokens`. Under a case- or accent-insensitive collation the lookup would also accept a token that differs from a registered one only in case or accents, such as "t" when only "T" is registered, and the model would answer Unauthorized for it.
- Occupancy.Ingest: `CommitFails` stands for a commit the database rejected and rolled back, so the store is unchanged. An in-doubt commit (app/main.py:89) is not modelled: the connection drops after the server has applied the commit, the reply is 500 "Database error" (app/main.py:94-96), yet both the event insert and the upsert are durable. The model does not promise what the store holds in that case.
- The timestamp of a room's first row is not modelled as a column default. The upsert's insert branch (app/main.py:77-85) sets only `room_name` and `state`, so `updated_at` comes from the table's `DEFAULT CURRENT_TIMESTAMP`. The table schema is not part of this model, and the model assumes that default and stamps a new room with `now`. The update branch sets `updated_at = CURRENT_TIMESTAMP` itself.
- The `isoformat()` conversion of `updated_at` is library date formatting. `updated_at` stays a `nat` count of seconds.
- Dashboard fetching, the five-second polling, DOM construction and the "Erro ao carregar salas." message of a failed fetch are I/O. The `!rooms` test for a missing list is not modelled: the listing is always a sequence.
- Dashboard.FormatDuration: takes integral seconds only. JavaScript `Number` arithmetic is not modelled: fractional inputs, precision loss above 2^53, and exponent notation for values of 10^21 and more.

