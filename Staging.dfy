/** The staged-commit protocol of `GlideBigTableRestStrategy` (glide.py:117-243)
    as functions on a session value: what one call does to the session, which
    exchanges with the service it makes, and whether it raises. The class in
    module RestClient is proved to behave exactly as these functions say. */
module Staging {
  import opened Json
  import opened Errors
  import opened Http
  import opened Paths
  import opened Columns

  /** DEFAULT_BATCH_SIZE (glide.py:22). */
  const DefaultBatchSize: int := 1500

  /** What `init` stores (glide.py:69-82). */
  datatype Config = Config(
    apiKey: string,
    apiHost: string,
    apiPathRoot: string,
    tableName: string,
    columns: seq<Column>,
    batchSize: int)

  /** The mutable state of one client: its configuration, stash identity,
      committed stash serial and buffered rows. */
  datatype Session = Session(config: Config, stashId: string, stashSerial: nat, buffer: seq<Row>)

  /** The calls the client makes to the service. */
  datatype Call =
    | PutStash(serial: nat, chunk: seq<Row>)
    | ListTables
    | CreateTable
    | OverwriteTable(tableId: string)

  /** One exchange: a call and the response the service gave to it. */
  datatype Event = Event(call: Call, response: Response)

  /** The `{columns: [...]}` schema object of create and overwrite bodies. */
  function SchemaJson(columns: seq<Column>): Json {
    JObj(map["columns" := JArr(seq(|columns|, i requires 0 <= i < |columns| => ToJson(columns[i])))])
  }

  /** The `{"$stashID": stash_id}` rows object of create and overwrite bodies. */
  function StashRef(stashId: string): Json {
    JObj(map["$stashID" := JStr(stashId)])
  }

  /** The wire request of a call (glide.py:138-142, 172-184, 194-205, 213-216). */
  function RequestOf(cfg: Config, stashId: string, call: Call): Request {
    match call
    case PutStash(serial, chunk) =>
      Put(Url(cfg.apiHost, cfg.apiPathRoot, StashPath(stashId, serial)), RowsArray(chunk))
    case ListTables =>
      Get(Url(cfg.apiHost, cfg.apiPathRoot, TablesPath))
    case CreateTable =>
      Post(Url(cfg.apiHost, cfg.apiPathRoot, CreateTablePath),
        JObj(map["name" := JStr(cfg.tableName), "schema" := SchemaJson(cfg.columns), "rows" := StashRef(stashId)]))
    case OverwriteTable(tableId) =>
      Put(Url(cfg.apiHost, cfg.apiPathRoot, OverwriteTablePath(tableId)),
        JObj(map["schema" := SchemaJson(cfg.columns), "rows" := StashRef(stashId)]))
  }

  /** The service as one session sees it: the answer to each of its calls. */
  type Responder = Call -> Response

  /** The responder of a session: each call goes out as its wire request. */
  function Via(cfg: Config, stashId: string, server: Server): Responder {
    call => server(RequestOf(cfg, stashId, call))
  }

  /** Applying the responder of a session is sending the wire request. */
  lemma ViaSends(cfg: Config, stashId: string, server: Server, call: Call)
    ensures Via(cfg, stashId, server)(call) == server(RequestOf(cfg, stashId, call))
  {
  }

  /** Makes a call and records the service's answer. */
  function Send(respond: Responder, call: Call): Event {
    Event(call, respond(call))
  }

  function Min(a: int, b: int): int { if a <= b then a else b }
  function Max(a: int, b: int): int { if a >= b then a else b }

  // ---------------------------------------------------------------------
  // Flushing the buffer (glide.py:124-158)
  // ---------------------------------------------------------------------

  /** The exchanges of a flush and how it ended: the next stash serial, or the
      error it raised. */
  datatype FlushRun = FlushRun(events: seq<Event>, outcome: Result<nat>)

  function Then(e: Event, run: FlushRun): FlushRun {
    FlushRun([e] + run.events, run.outcome)
  }

  /** The flush loop from cursor `start` with chunk size `size` and local
      serial `serial`: send the next chunk; on success advance the serial and
      the cursor; on 413 with a chunk size above 1 halve the size and retry at
      the same cursor and serial; on any other error raise. The loop ends when
      the cursor reaches (or passes) the end of the rows. */
  function FlushFrom(respond: Responder, stashId: string, rows: seq<Row>,
                     start: nat, size: nat, serial: nat): FlushRun
    requires size >= 1
    decreases |rows| - start, size
  {
    if start >= |rows| then FlushRun([], Ok(serial))
    else
      var chunk := rows[start..Min(start + size, |rows|)];
      var e := Send(respond, PutStash(serial, chunk));
      if !IsHttpError(e.response.status) then
        Then(e, FlushFrom(respond, stashId, rows, start + size, size, serial + 1))
      else if e.response.status == ContentTooLarge && size > 1 then
        Then(e, FlushFrom(respond, stashId, rows, start, Max(1, size / 2), serial))
      else
        FlushRun([e], Err(PutRowsFailed(StashPath(stashId, serial), e.response.text)))
  }

  /** One turn of the flush loop, as a fact to use without unfolding FlushFrom. */
  lemma FlushFromStep(respond: Responder, stashId: string, rows: seq<Row>,
                      start: nat, size: nat, serial: nat)
    requires size >= 1 && start < |rows|
    ensures var e := Send(respond, PutStash(serial, rows[start..Min(start + size, |rows|)]));
      FlushFrom(respond, stashId, rows, start, size, serial)
      == if !IsHttpError(e.response.status) then
           Then(e, FlushFrom(respond, stashId, rows, start + size, size, serial + 1))
         else if e.response.status == ContentTooLarge && size > 1 then
           Then(e, FlushFrom(respond, stashId, rows, start, Max(1, size / 2), serial))
         else
           FlushRun([e], Err(PutRowsFailed(StashPath(stashId, serial), e.response.text)))
  {
  }

  /** What a call does: the new session, the exchanges made, and whether it raised. */
  datatype Effect = Effect(session: Session, events: seq<Event>, outcome: Outcome)

  /** `_flush_buffer`: nothing for an empty buffer; otherwise the buffer is
      emptied and its rows sent from cursor 0 with one chunk of all of them,
      and the session's serial is replaced only if every chunk succeeded. */
  function Flush(s: Session, respond: Responder): (r: Effect)
    ensures r.session.buffer == [] && r.session.config == s.config && r.session.stashId == s.stashId
    ensures r.outcome.Fail? ==> r.session.stashSerial == s.stashSerial
    ensures r.events == [] <==> s.buffer == []
  {
    if s.buffer == [] then Effect(s, [], Pass)
    else
      var run := FlushFrom(respond, s.stashId, s.buffer, 0, |s.buffer|, s.stashSerial);
      match run.outcome
      case Ok(next) => Effect(s.(buffer := [], stashSerial := next), run.events, Pass)
      case Err(error) => Effect(s.(buffer := []), run.events, Fail(error))
  }

  /** `add_rows` (and `add_row`, with one row): append, then flush once if the
      buffer has reached the batch size. */
  function AddRows(s: Session, rows: seq<Row>, respond: Responder): (r: Effect)
    ensures r.session.config == s.config && r.session.stashId == s.stashId
    ensures r.session.buffer == [] || r.session.buffer == s.buffer + rows
    ensures r.events != [] ==> r.session.buffer == []
  {
    var grown := s.(buffer := s.buffer + rows);
    if |grown.buffer| >= s.config.batchSize then Flush(grown, respond) else Effect(grown, [], Pass)
  }

  // ---------------------------------------------------------------------
  // Committing (glide.py:170-243)
  // ---------------------------------------------------------------------

  /** The id of the first listed table named `name`, if any. */
  function FindTable(tables: seq<TableRef>, name: string): (r: Option<string>)
    ensures r.None? <==> forall j :: 0 <= j < |tables| ==> tables[j].name != name
    ensures r.Some? ==> exists k :: 0 <= k < |tables| && tables[k].name == name && tables[k].id == r.value
                                    && forall j :: 0 <= j < k ==> tables[j].name != name
  {
    if tables == [] then None
    else if tables[0].name == name then Some(tables[0].id)
    else
      var r := FindTable(tables[1..], name);
      assert forall j :: 1 <= j < |tables| ==> tables[j] == tables[1..][j - 1];
      r
  }

  /** `overwrite_table_from_stash(id)` or `create_table_from_stash()`. */
  function Finalize(s: Session, found: Option<string>, respond: Responder): (r: Effect)
    ensures r.session == s && |r.events| == 1
    ensures r.events[0].call == if found.Some? then OverwriteTable(found.value) else CreateTable
    ensures r.outcome.Pass? <==> !IsHttpError(r.events[0].response.status)
  {
    match found
    case Some(tableId) =>
      var e := Send(respond, OverwriteTable(tableId));
      Effect(s, [e], if IsHttpError(e.response.status) then Fail(OverwriteFailed(tableId, e.response.text)) else Pass)
    case None =>
      var e := Send(respond, CreateTable);
      Effect(s, [e], if IsHttpError(e.response.status) then Fail(CreateFailed(s.config.tableName, e.response.text)) else Pass)
  }

  /** `commit`: list the tables, find the session's table by name, flush what
      is left in the buffer, then overwrite the table found or create a new one. */
  function Commit(s: Session, respond: Responder): (r: Effect)
    ensures |r.events| >= 1 && r.events[0].call == ListTables
    ensures r.session.config == s.config && r.session.stashId == s.stashId
    ensures r.outcome.Pass? ==> r.session.buffer == []
  {
    var listing := Send(respond, ListTables);
    var r := listing.response;
    if IsHttpError(r.status) then Effect(s, [listing], Fail(ListTablesFailed(r.text)))
    else if r.tables.None? then Effect(s, [listing], Fail(TableDataMissing(r.status, r.text)))
    else
      var found := FindTable(r.tables.value, s.config.tableName);
      var f := Flush(s, respond);
      if f.outcome.Fail? then Effect(f.session, [listing] + f.events, f.outcome)
      else
        var fin := Finalize(f.session, found, respond);
        Effect(fin.session, [listing] + f.events + fin.events, fin.outcome)
  }

  // ---------------------------------------------------------------------
  // What reached the stash
  // ---------------------------------------------------------------------

  /** A stash PUT the service accepted. */
  predicate IsAccepted(e: Event) {
    e.call.PutStash? && !IsHttpError(e.response.status)
  }

  /** The rows the service accepted into the stash, in the order sent. */
  function Stashed(events: seq<Event>): seq<Row> {
    if events == [] then []
    else (if IsAccepted(events[0]) then events[0].call.chunk else []) + Stashed(events[1..])
  }

  /** The serials under which the service accepted chunks, in order. */
  function AcceptedSerials(events: seq<Event>): seq<nat> {
    if events == [] then []
    else (if IsAccepted(events[0]) then [events[0].call.serial] else []) + AcceptedSerials(events[1..])
  }

  /** The serials `from`, `from + 1`, ..., `from + n - 1`. */
  predicate Consecutive(serials: seq<nat>, from: nat) {
    forall i :: 0 <= i < |serials| ==> serials[i] == from + i
  }

  lemma {:induction false} StashedAppend(a: seq<Event>, b: seq<Event>)
    ensures Stashed(a + b) == Stashed(a) + Stashed(b)
    ensures AcceptedSerials(a + b) == AcceptedSerials(a) + AcceptedSerials(b)
  {
    if a != [] {
      assert (a + b)[1..] == a[1..] + b;
      StashedAppend(a[1..], b);
    } else {
      assert a + b == b;
    }
  }

  /** Exchanges that are not stash PUTs stash nothing. */
  lemma StashedSingle(e: Event)
    ensures Stashed([e]) == (if IsAccepted(e) then e.call.chunk else [])
    ensures AcceptedSerials([e]) == (if IsAccepted(e) then [e.call.serial] else [])
  {
    assert [e][1..] == [];
  }
}
