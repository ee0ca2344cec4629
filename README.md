# Glide destination: a Dafny model

This project models the core of the Airbyte destination connector for Glide
Big Tables. The connector takes the records of an Airbyte sync and writes each
configured stream to a Glide Big Table. It does this in two phases:

- **Staging.** Rows are buffered in memory. When the buffer reaches the batch
  size, it is flushed to a server-side *stash* as numbered chunks
  (`PUT stashes/{stash_id}/{serial}`). A chunk the service rejects as too
  large (HTTP 413) is retried at half the size. The stash serial is written
  back only when the whole buffer went through.
- **Commit.** The client lists the tables, flushes what is left in the buffer,
  and then turns the stash into the table's contents. It overwrites the table
  of that name when one exists (`PUT tables/{id}`) and creates one otherwise
  (`POST tables`).

Modules, one file each:

- `Json`, `Errors`, `Http`: JSON values and rows, the exceptions the connector
  raises, and the HTTP service as an oracle `Server = Request -> Response`.
  `raise_for_status` is an error exactly for a status from 400 to 599.
- `Paths`: `url(path)` and the resource paths. Serials are written in decimal.
- `Columns`: `Column`, its allowed types and its equality.
- `Staging`: the client's protocol as pure functions on a session value
  (configuration, stash id, stash serial, buffer). The functions are `Flush`
  (with the chunking loop `FlushFrom`), `AddRows`, `FindTable`, `Finalize` and
  `Commit`. Each returns the new session, the exchanges made with the
  service, and whether it raised.
- `FlushProperties`, `SessionProperties`: what those functions guarantee.
  - A flush delivers exactly the buffered rows, in order, under consecutive
    serials, or raises.
  - Halving never sends an empty or oversized chunk.
  - A service that accepts every one-row chunk, and refuses larger ones only
    as too large, never makes a flush fail.
  - A commit finalizes at most once, only after a complete flush, and exactly
    once when the listing and the flush succeed.
  - Across any sequence of successful calls, the accepted chunks followed by
    the buffer are the rows added so far, under stash serials 0, 1, 2, ….
- `RestClient`: `GlideBigTableRestStrategy` as a class with the source's
  fields. Every method is proved to do what the `Staging` function for it
  says. The flush loop keeps its imperative shape (`PutChunks`).
- `TypeMapping`: `airbyteTypeToGlideType`, from a JSON-schema type to a Glide
  column type.
- `Destination`: `DestinationGlide.write`. It checks the sync modes, opens one
  client per stream, routes records to clients, and commits every client.

## Model

Source paths are relative to the repository root. `glide.py` and
`destination.py` stand for
`airbyte-integrations/connectors/destination-glide/destination_glide/glide.py`
and `.../destination.py` in the prose. The table gives the full paths.

| member | source | states |
|---|---|---|
| Columns.NewColumn | airbyte-integrations/connectors/destination-glide/destination_glide/glide.py:30-40 | A column is built iff its type is in the allowed list. It then has the given id, that type, and the id as display name. Otherwise the error names the rejected type. |
| Columns.EqualsIsStructural | airbyte-integrations/connectors/destination-glide/destination_glide/glide.py:42-45 | `==` holds iff the other operand is a Column with the same id, kind and display name. A non-Column is never equal. |
| Columns.ToJson | airbyte-integrations/connectors/destination-glide/destination_glide/glide.py:33-40 | A column is the dictionary with exactly the keys id, type and displayName. The id entry is the id, the type entry is exactly `{kind: type}`, and the displayName entry is the display name. |
| Columns.Equals | airbyte-integrations/connectors/destination-glide/destination_glide/glide.py:42-45 | `==` is never true against a non-Column, and a Column always equals itself. EqualsIsStructural gives the full condition. |
| Columns.NewColumnEquality | airbyte-integrations/connectors/destination-glide/destination_glide/glide.py:30-45 | Two valid columns built from (id, type) pairs are equal iff the ids and the types are equal. |
| Paths.Url | airbyte-integrations/connectors/destination-glide/destination_glide/glide.py:66-67 | The URL is host/path when the path root is empty, and host/root/path otherwise. |
| Paths.UrlDeterminesPath | airbyte-integrations/connectors/destination-glide/destination_glide/glide.py:66-67 | With the same host and root, equal URLs mean equal resource paths. |
| Paths.DecimalRoundTrip | airbyte-integrations/connectors/destination-glide/destination_glide/glide.py:135 | Reading back the decimal digits of a serial gives the serial. |
| Paths.StashPathInjective | airbyte-integrations/connectors/destination-glide/destination_glide/glide.py:135 | Different serials of one stash give different chunk paths, so a chunk never overwrites a chunk of another serial. |
| Staging.FlushFrom | airbyte-integrations/connectors/destination-glide/destination_glide/glide.py:133-154 | The flush loop as a recursive definition. It sends the chunk at the cursor under the current serial. On success the cursor and the serial advance. On 413 with chunk size above 1 the same cursor is retried at half size. Otherwise it raises with the chunk's path and the response text. It has no contract of its own; the FlushProperties lemmas below state what it guarantees. |
| Staging.RequestOf | airbyte-integrations/connectors/destination-glide/destination_glide/glide.py:135-216 | The wire request of each call: a PUT of the chunk's rows to the stash path of its serial, a GET of the listing, a POST of name, schema and stash reference, and a PUT of schema and stash reference to the table's path. It is a definition with no contract of its own. |
| Staging.Flush | airbyte-integrations/connectors/destination-glide/destination_glide/glide.py:124-158 | The buffer always ends empty. Configuration and stash id are kept. A failure keeps the old stash serial. Exchanges happen iff the buffer was non-empty. FlushEffect states the rest. |
| Staging.AddRows | airbyte-integrations/connectors/destination-glide/destination_glide/glide.py:160-168 | Configuration and stash id are kept. The buffer ends either empty or as the old buffer followed by the rows. It is empty whenever anything was sent. |
| Staging.Finalize | airbyte-integrations/connectors/destination-glide/destination_glide/glide.py:237-241 | Exactly one exchange, and the session is unchanged. The call is an overwrite of the found table, or a create when none was found. It passes iff that exchange did not answer with an HTTP error. |
| Staging.Commit | airbyte-integrations/connectors/destination-glide/destination_glide/glide.py:211-243 | The first exchange is always the table listing. Configuration and stash id are kept. A commit that passes leaves the buffer empty. CommitDecision and CommitDelivers state the rest. |
| Staging.FindTable | airbyte-integrations/connectors/destination-glide/destination_glide/glide.py:228-232 | The result is None iff no listed table has the name. Otherwise it is the id of the first table with that name. |
| FlushProperties.FlushFromPrefix | airbyte-integrations/connectors/destination-glide/destination_glide/glide.py:133-154 | The rows of the accepted chunks are always a prefix of the rows from the cursor on. |
| FlushProperties.FlushFromCount | airbyte-integrations/connectors/destination-glide/destination_glide/glide.py:133-154 | A flush that ends normally had every remaining row accepted. One that raises had fewer accepted. |
| FlushProperties.FlushFromDelivers | airbyte-integrations/connectors/destination-glide/destination_glide/glide.py:133-154 | The loop ends normally iff the accepted chunks are exactly the remaining rows, in order. |
| FlushProperties.FlushFromSerials | airbyte-integrations/connectors/destination-glide/destination_glide/glide.py:133-158 | Accepted chunks carry consecutive serials from the starting serial. On normal exit the next serial is the start plus their number. |
| FlushProperties.FlushFromAttempts | airbyte-integrations/connectors/destination-glide/destination_glide/glide.py:133-154 | The first attempt uses the starting serial. Each later attempt retries the same serial after a rejection, or uses the next serial after an acceptance. |
| FlushProperties.FlushFromChunkSizes | airbyte-integrations/connectors/destination-glide/destination_glide/glide.py:131-154 | Every attempt is a stash PUT whose chunk holds at least 1 row and at most min(chunk size, remaining rows). |
| FlushProperties.FlushFromFailure | airbyte-integrations/connectors/destination-glide/destination_glide/glide.py:143-150 | The loop raises iff its last attempt was rejected. The error names that attempt's stash path and response text. A 413 raises only for a one-row chunk. |
| FlushProperties.FlushFromSucceeds | airbyte-integrations/connectors/destination-glide/destination_glide/glide.py:146-149 | Against a service that accepts every single row and answers larger chunks with success or 413, the loop never raises. |
| FlushProperties.FlushEffect | airbyte-integrations/connectors/destination-glide/destination_glide/glide.py:124-158 | An empty buffer sends nothing. Otherwise the buffer ends empty whatever happens, and accepted serials are consecutive. It passes iff the accepted rows are the buffer. On success the stash serial advances by the number of accepted chunks. On failure the serial keeps its old value and the error is a failed put. |
| SessionProperties.AddRowsEffect | airbyte-integrations/connectors/destination-glide/destination_glide/glide.py:160-168 | Rows are appended to the buffer. Below the batch size nothing is sent. At or above it the buffer is flushed and ends empty. Exchanges happen iff the batch size was reached with a non-empty buffer. A failure keeps the serial and is a failed put. |
| SessionProperties.AddRowsDelivers | airbyte-integrations/connectors/destination-glide/destination_glide/glide.py:160-168 | After a successful call, the newly accepted rows followed by the buffer equal the old buffer followed by the new rows, under consecutive serials. |
| SessionProperties.FlushDoesNotFinalize | airbyte-integrations/connectors/destination-glide/destination_glide/glide.py:124-158 | A flush makes only stash PUTs, never a table create or overwrite. |
| SessionProperties.CommitDecision | airbyte-integrations/connectors/destination-glide/destination_glide/glide.py:211-241 | The first exchange is the table listing. An HTTP error raises at once. A body without "data" raises at once. Otherwise a failing flush raises with no finalization. After a successful flush exactly one finalization follows, and it is the last exchange: overwrite the first table of that name, or create one. Commit passes iff that exchange succeeded. |
| SessionProperties.CommitFailure | airbyte-integrations/connectors/destination-glide/destination_glide/glide.py:211-241 | A commit raises only with a listing, data, put, create or overwrite error. |
| SessionProperties.CommitFinalizes | airbyte-integrations/connectors/destination-glide/destination_glide/glide.py:211-243 | A commit that passes ends with an accepted create or overwrite, and that is its only finalising call. |
| SessionProperties.FinalizedEndsWithFinalization | airbyte-integrations/connectors/destination-glide/destination_glide/glide.py:211-243 | A history that ends with an accepted create or overwrite has a finalization, and its last finalization is that call. |
| SessionProperties.CommitDelivers | airbyte-integrations/connectors/destination-glide/destination_glide/glide.py:211-241 | A successful commit stashed exactly the buffer, under consecutive serials, and left the buffer empty. |
| SessionProperties.AddRowsKeepsConsistent | airbyte-integrations/connectors/destination-glide/destination_glide/glide.py:160-168 | A successful add keeps the invariant. The stashed rows followed by the buffer are all rows added. Stash serials are 0, 1, 2, … and their count is the stash serial. |
| SessionProperties.CommitKeepsConsistent | airbyte-integrations/connectors/destination-glide/destination_glide/glide.py:211-243 | After a successful commit the invariant holds and the stash holds exactly the rows ever added. |
| RestClient.FindTableId | airbyte-integrations/connectors/destination-glide/destination_glide/glide.py:222-232 | The scan with `break` returns the id of the first table with the name, or None. |
| RestClient.PutChunks | airbyte-integrations/connectors/destination-glide/destination_glide/glide.py:130-154 | The while loop makes exactly the exchanges and reaches exactly the outcome of the recursive flush definition. |
| RestClient.RestStrategy.constructor | airbyte-integrations/connectors/destination-glide/destination_glide/glide.py:117-122 | A new client has the given stash id, serial 0 and an empty buffer, and satisfies the invariant. |
| RestClient.RestStrategy.Init | airbyte-integrations/connectors/destination-glide/destination_glide/glide.py:69-82 | Stores the connection and table settings and leaves the stash and the buffer unchanged. |
| RestClient.RestStrategy.FlushBuffer | airbyte-integrations/connectors/destination-glide/destination_glide/glide.py:124-158 | The new state, the exchanges and the outcome are those of the session flush. |
| RestClient.RestStrategy.AddRow | airbyte-integrations/connectors/destination-glide/destination_glide/glide.py:160-163 | Behaves as the session add of one row, keeps the settings `init` stored, and keeps the invariant when it passes. |
| RestClient.RestStrategy.AddRows | airbyte-integrations/connectors/destination-glide/destination_glide/glide.py:165-168 | Behaves as the session add of the rows, and keeps the invariant when it passes. |
| RestClient.RestStrategy.CreateTableFromStash | airbyte-integrations/connectors/destination-glide/destination_glide/glide.py:170-190 | Makes one create request and raises, naming the table, iff it answers with an HTTP error. |
| RestClient.RestStrategy.OverwriteTableFromStash | airbyte-integrations/connectors/destination-glide/destination_glide/glide.py:192-209 | Makes one overwrite request for the table id and raises, naming the id, iff it answers with an HTTP error. |
| RestClient.RestStrategy.FinalizeStash | airbyte-integrations/connectors/destination-glide/destination_glide/glide.py:237-241 | Overwrites the found table or creates a new one, as the session finalization says. |
| RestClient.RestStrategy.Commit | airbyte-integrations/connectors/destination-glide/destination_glide/glide.py:211-243 | Behaves as the session commit and keeps the settings `init` stored. When it passes, the stash holds exactly the rows ever added. |
| TypeMapping.FirstSupported | airbyte-integrations/connectors/destination-glide/destination_glide/destination.py:42-46 | None iff no element is supported (not "null" and in the table). Otherwise it is the first supported element. |
| TypeMapping.GlideTypeOf | airbyte-integrations/connectors/destination-glide/destination_glide/destination.py:32-53 | The mapped type is always "string", "number" or "boolean", all of them allowed column types. |
| TypeMapping.AirbyteTypeToGlideType | airbyte-integrations/connectors/destination-glide/destination_glide/destination.py:32-53 | The loop that rewrites a list to its first supported element, and the lookup with its "string" fallback, compute the mapping. |
| TypeMapping.ScalarTypes | airbyte-integrations/connectors/destination-glide/destination_glide/destination.py:33-53 | "integer" maps to "number". "string", "number" and "boolean" map to themselves. Every other name maps to "string". |
| TypeMapping.ListTakesFirstSupported | airbyte-integrations/connectors/destination-glide/destination_glide/destination.py:39-50 | A list maps as its first supported element does. |
| TypeMapping.ListIgnoresLaterElements | airbyte-integrations/connectors/destination-glide/destination_glide/destination.py:42-46 | Elements after the first supported one do not change the mapping. |
| TypeMapping.ListWithoutSupportedType | airbyte-integrations/connectors/destination-glide/destination_glide/destination.py:48-53 | A list with no supported element maps to "string". |
| TypeMapping.MappedColumnIsValid | airbyte-integrations/connectors/destination-glide/destination_glide/destination.py:100-102 | A column built from a mapped type is never rejected, so the schema loop cannot raise. |
| Destination.SchemaColumns | airbyte-integrations/connectors/destination-glide/destination_glide/destination.py:95-102 | One valid column per property, in order, named by the property and typed by the mapping. |
| Destination.BuildColumns | airbyte-integrations/connectors/destination-glide/destination_glide/destination.py:95-102 | The appending loop builds exactly those columns. |
| Destination.FirstNonOverwrite | airbyte-integrations/connectors/destination-glide/destination_glide/destination.py:90-92 | None iff every stream is in overwrite mode. Otherwise it is the mode of the first stream that is not. |
| Destination.FirstNonOverwritePrefix | airbyte-integrations/connectors/destination-glide/destination_glide/destination.py:90-92 | A stream with a bad mode in a prefix of the catalog decides the error for the whole catalog. |
| Destination.TableOrder | airbyte-integrations/connectors/destination-glide/destination_glide/destination.py:88-135 | The commit order lists each stream name exactly once, and lists exactly the catalog's names. |
| Destination.LastIndex | airbyte-integrations/connectors/destination-glide/destination_glide/destination.py:104-105 | -1 iff the name is absent. Otherwise it is the last catalog position with that name, whose client the dictionary keeps. |
| Destination.CatalogStep | airbyte-integrations/connectors/destination-glide/destination_glide/destination.py:89-105 | One more stream adds its name to the name set and becomes that name's client. It extends the commit order only if the name is new, as a dictionary keeps a reassigned key in its first place. |
| Destination.RecordsFor | airbyte-integrations/connectors/destination-glide/destination_glide/destination.py:109-131 | The rows a stream's client is given: never more than there are messages, and each one is the data of a record message of that stream. |
| Destination.RecordsForAppend | airbyte-integrations/connectors/destination-glide/destination_glide/destination.py:109-131 | The records routed to a stream from two message runs are those of the first run followed by those of the second. |
| Destination.OpenClient | airbyte-integrations/connectors/destination-glide/destination_glide/destination.py:82-86 | A new client, initialized with the key, host, root, stream name and columns, with an untouched stash. |
| Destination.OpenClients | airbyte-integrations/connectors/destination-glide/destination_glide/destination.py:88-105 | The first stream not in overwrite mode raises, naming that mode. Otherwise there is one distinct, fresh, initialized client per stream name, opened from that name's last stream, and the commit order is the dictionary order. |
| Destination.RouteMessage | airbyte-integrations/connectors/destination-glide/destination_glide/destination.py:111-131 | Only the client of a configured record's stream may change. For such a record it is `add_row` on that client: its new state, exchanges and outcome are those of the session add of the record's data. A record of an unknown stream, a state message and any other message pass and change no client. Every client keeps its settings and commit count, the rows given to it grow by exactly its records, the invariant is kept, and a failure is a failed put. |
| Destination.RouteRecords | airbyte-integrations/connectors/destination-glide/destination_glide/destination.py:109-131 | Every client keeps its settings, its initialization and its commit count. When the loop passes, each client has been given exactly its stream's records, in order, and keeps the invariant. A failure is a failed put. |
| Destination.RouteAndCommit | airbyte-integrations/connectors/destination-glide/destination_glide/destination.py:109-135 | On clients not yet given any row: when nothing fails, each client is committed once, keeps its settings, and ends with an accepted create or overwrite; both the rows it was given and its stash are exactly its stream's records. A failure is a failed put or a commit error. |
| Destination.DistinctStashIds | airbyte-integrations/connectors/destination-glide/destination_glide/destination.py:82-86 | Clients opened with a distinct stash id per catalog position hold distinct stashes, so no two streams write to the same stash path. |
| Destination.CommitClient | airbyte-integrations/connectors/destination-glide/destination_glide/destination.py:134-135 | One `commit` call: a failure is a commit error. A success is one more commit whose last exchange is an accepted create or overwrite; the settings are kept, and a consistent history ends with every given row stashed. |
| Destination.CommitAll | airbyte-integrations/connectors/destination-glide/destination_glide/destination.py:134-135 | If every commit passes, each client is committed once more, keeps its settings, and its last exchange is an accepted create or overwrite. A client whose history was consistent stays consistent, and its stash holds exactly the rows it was given. A failure is a commit error. |
| Destination.Write | airbyte-integrations/connectors/destination-glide/destination_glide/destination.py:57-139 | Raises the sync-mode error iff some stream is not in overwrite mode, before any request. On success, every stream name n has a client committed once whose settings are the key, the host and root (or their defaults), table name n and the columns of the last stream named n, with the default batch size; its last exchange is an accepted create or overwrite, its stash holds exactly that stream's records, and no two clients share a stash. |

## Left out

- Destination.RouteRecords: on failure it states only the error kind, not how
  far routing got.
- Destination.CommitAll: on failure it states only the error kind, not which
  clients had already committed.
- Destination.Write: on a failure other than the sync-mode check it states
  only that the error is not a sync-mode error. The map of clients is a
  ghost out-parameter, since the source does not return it.
- RestClient.RestStrategy.AddRow, AddRows and Commit require `init` to have
  run. The source documents this protocol. Calling them earlier fails there
  with an attribute error, which is not modelled.
- HTTP transport: headers, the bearer token, timeouts, connection errors and
  exceptions thrown by `requests` itself are not modelled. The service is a
  pure function of the request, so it does not model a service whose
  answers change between identical requests.
- Response bodies: `r.json()` failing to parse, a body that is not an
  object, and listing entries without "name" or "id" are not modelled. The
  listing is the parsed "data" field or its absence.
- JSON numbers are integers only. Floats in rows are not modelled.
- `uuid.uuid4()` is a parameter. The stash id is given to the constructor,
  and `write` takes `stashIdFor`, mapping a catalog position to its stash id.
  `write` requires distinct positions to get distinct ids, as random
  version 4 UUIDs are assumed to be. The stash of a client is the chunks it
  had accepted; with distinct ids these are separate server-side stashes.
- Logging, `Column.__repr__`, `GlideBigTableBase.headers`, the abstract base
  class, `GlideBigTableFactory` (a constructor call here) and
  `DestinationGlide.check` are not modelled.
- `write` is a generator that yields nothing. The model runs its body
  eagerly and returns the outcome.
- JSON-schema properties are a list of (name, type) pairs. A property
  without "type", and list elements that are not strings, are not modelled.
- Reading the configuration mapping is reduced to its result: optional host
  and path root with their defaults, and the key.
