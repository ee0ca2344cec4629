/** `GlideBigTableRestStrategy` (glide.py:51-243): the client object whose
    fields the source updates in place. Every method is proved to do exactly
    what the functions of module Staging say of the session it holds. */
module RestClient {
  import opened Json
  import opened Errors
  import opened Http
  import opened Paths
  import opened Columns
  import opened Staging
  import SessionProperties

  /** The default API host of `init` (glide.py:69). */
  const DefaultApiHost: string := "https://api.glideapps.com"

  /** A flush run with exchanges `done` made before it. */
  function After(done: seq<Event>, run: FlushRun): FlushRun {
    FlushRun(done + run.events, run.outcome)
  }

  lemma AfterThen(done: seq<Event>, e: Event, run: FlushRun)
    ensures After(done, Then(e, run)) == After(done + [e], run)
  {
    assert done + ([e] + run.events) == (done + [e]) + run.events;
  }

  /** One turn of the flush loop, seen from the exchanges `done` made so far:
      an accepted chunk moves on to the next rows and serial, a 413 on a
      chunk of more than one row retries with half the size, and any other
      error ends the loop with that chunk's failure. */
  lemma AfterStep(done: seq<Event>, respond: Responder, stashId: string, rows: seq<Row>,
                  start: nat, size: nat, serial: nat)
    requires size >= 1 && start < |rows|
    ensures var e := Send(respond, PutStash(serial, rows[start..Min(start + size, |rows|)]));
      var here := After(done, FlushFrom(respond, stashId, rows, start, size, serial));
      if !IsHttpError(e.response.status) then
        here == After(done + [e], FlushFrom(respond, stashId, rows, start + size, size, serial + 1))
      else if e.response.status == ContentTooLarge && size > 1 then
        here == After(done + [e], FlushFrom(respond, stashId, rows, start, Max(1, size / 2), serial))
      else
        here == FlushRun(done + [e], Err(PutRowsFailed(StashPath(stashId, serial), e.response.text)))
  {
    var e := Send(respond, PutStash(serial, rows[start..Min(start + size, |rows|)]));
    FlushFromStep(respond, stashId, rows, start, size, serial);
    if !IsHttpError(e.response.status) {
      AfterThen(done, e, FlushFrom(respond, stashId, rows, start + size, size, serial + 1));
    } else if e.response.status == ContentTooLarge && size > 1 {
      AfterThen(done, e, FlushFrom(respond, stashId, rows, start, Max(1, size / 2), serial));
    }
  }

  /** The scan of `commit` (glide.py:228-232): the id of the first listed
      table named `name`, found by a loop that stops at the first match. */
  method FindTableId(tables: seq<TableRef>, name: string) returns (found: Option<string>)
    ensures found == FindTable(tables, name)
  {
    found := None;
    var i := 0;
    while i < |tables|
      invariant 0 <= i <= |tables|
      invariant found.None? ==> FindTable(tables, name) == FindTable(tables[i..], name)
      invariant found.Some? ==> found == FindTable(tables, name)
    {
      assert tables[i..][1..] == tables[i + 1..];
      if tables[i].name == name {
        found := Some(tables[i].id);
        break;
      }
      i := i + 1;
    }
  }

  /** The loop of `_flush_buffer` (glide.py:129-158): sends `rows` in chunks
      under the session's settings, halving the chunk size on 413, and
      returns the serial after the last accepted chunk, or the error that
      ended the loop, with the exchanges it made. */
  method PutChunks(cfg: Config, stashId: string, server: Server, rows: seq<Row>, first: nat)
    returns (sent: Result<nat>, ghost exchanged: seq<Event>)
    requires rows != []
    ensures FlushFrom(Via(cfg, stashId, server), stashId, rows, 0, |rows|, first) == FlushRun(exchanged, sent)
  {
    ghost var respond := Via(cfg, stashId, server);
    var start: nat, size: nat, serial: nat := 0, |rows|, first;
    exchanged := [];
    while start < |rows|
      invariant size >= 1
      invariant After(exchanged, FlushFrom(respond, stashId, rows, start, size, serial))
             == FlushFrom(respond, stashId, rows, 0, |rows|, first)
      decreases |rows| - start, size
    {
      var chunk := rows[start..Min(start + size, |rows|)];
      var path := StashPath(stashId, serial);
      var response := server(Put(Url(cfg.apiHost, cfg.apiPathRoot, path), RowsArray(chunk)));
      ghost var e := Event(PutStash(serial, chunk), response);
      ViaSends(cfg, stashId, server, PutStash(serial, chunk));
      assert e == Send(respond, PutStash(serial, chunk));
      AfterStep(exchanged, respond, stashId, rows, start, size, serial);
      exchanged := exchanged + [e];
      if IsHttpError(response.status) {
        if response.status == ContentTooLarge && size > 1 {
          size := Max(1, size / 2);
          continue;
        }
        return Err(PutRowsFailed(path, response.text)), exchanged;
      }
      serial := serial + 1;
      start := start + size;
    }
    assert exchanged + [] == exchanged;
    return Ok(serial), exchanged;
  }

  class RestStrategy {
    var apiKey: string
    var apiHost: string
    var apiPathRoot: string
    var tableName: string
    var columns: seq<Column>
    var batchSize: int
    const stashId: string
    var stashSerial: nat
    var buffer: seq<Row>

    /** Verification-only history: whether `init` has run, the exchanges made
        with the service, the rows handed to `add_row`/`add_rows`, and the
        number of `commit` calls. */
    ghost var initialized: bool
    ghost var events: seq<Event>
    ghost var added: seq<Row>
    ghost var commits: nat

    /** The connection and table settings `init` stores. */
    function Settings(): Config
      reads this`apiKey, this`apiHost, this`apiPathRoot, this`tableName, this`columns, this`batchSize
    {
      Config(apiKey, apiHost, apiPathRoot, tableName, columns, batchSize)
    }

    /** The session this object holds. */
    function Snapshot(): Session
      reads this
    {
      Session(Settings(), stashId, stashSerial, buffer)
    }

    /** The session invariant of SessionProperties, for this object's history. */
    ghost predicate Consistent()
      reads this
    {
      SessionProperties.Consistent(events, added, Snapshot())
    }

    /** `__init__`: a fresh stash (its id is generated by the caller), serial 0,
        an empty buffer. The connection fields stay unset until `init`. */
    constructor (stashId: string)
      ensures this.stashId == stashId && stashSerial == 0 && buffer == []
      ensures !initialized && events == [] && added == [] && commits == 0
      ensures Consistent()
    {
      this.stashId := stashId;
      stashSerial := 0;
      buffer := [];
      initialized := false;
      events := [];
      added := [];
      commits := 0;
    }

    /** `init`: stores the connection and table settings; the stash and the
        buffer are left as they are. */
    method Init(apiKey: string, tableName: string, columns: seq<Column>, apiHost: string := DefaultApiHost,
                apiPathRoot: string := "", batchSize: int := DefaultBatchSize)
      modifies this
      ensures Snapshot() == Session(Config(apiKey, apiHost, apiPathRoot, tableName, columns, batchSize),
                                    stashId, old(stashSerial), old(buffer))
      ensures initialized && events == old(events) && added == old(added) && commits == old(commits)
      ensures old(Consistent()) ==> Consistent()
    {
      this.apiKey := apiKey;
      this.apiHost := apiHost;
      this.apiPathRoot := apiPathRoot;
      this.tableName := tableName;
      this.columns := columns;
      this.batchSize := batchSize;
      initialized := true;
    }

    /** The service as this object's calls see it: each call is sent as the
        request its settings and stash build (see Staging.RequestOf). */
    function Responds(server: Server): Responder
      reads this
    {
      Via(Snapshot().config, stashId, server)
    }

    /** `url(path)` */
    function Url(path: string): string
      reads this
    {
      Paths.Url(apiHost, apiPathRoot, path)
    }

    /** `_flush_buffer`: takes the buffered rows and empties the buffer
        before sending anything; the stash serial is written back only when
        every chunk was accepted. */
    method FlushBuffer(server: Server) returns (outcome: Outcome)
      modifies this
      ensures var e := Flush(old(Snapshot()), old(Responds(server)));
        Snapshot() == e.session && events == old(events) + e.events && outcome == e.outcome
      ensures initialized == old(initialized) && added == old(added) && commits == old(commits)
    {
      var rows := buffer;
      if rows == [] {
        return Pass;
      }
      buffer := [];
      var sent, done := PutChunks(Snapshot().config, stashId, server, rows, stashSerial);
      events := events + done;
      match sent {
        case Ok(serial) =>
          stashSerial := serial;
          outcome := Pass;
        case Err(error) =>
          outcome := Fail(error);
      }
    }

    /** `add_row` */
    method AddRow(row: Row, server: Server) returns (outcome: Outcome)
      requires initialized
      modifies this
      ensures var e := Staging.AddRows(old(Snapshot()), [row], old(Responds(server)));
        Snapshot() == e.session && events == old(events) + e.events && outcome == e.outcome
      ensures initialized && added == old(added) + [row] && commits == old(commits) && Settings() == old(Settings())
      ensures outcome.Pass? && old(Consistent()) ==> Consistent()
    {
      ghost var s := Snapshot();
      ghost var log := events;
      buffer := buffer + [row];
      added := added + [row];
      if |buffer| >= batchSize {
        outcome := FlushBuffer(server);
      } else {
        outcome := Pass;
      }
      if outcome.Pass? && SessionProperties.Consistent(log, old(added), s) {
        SessionProperties.AddRowsKeepsConsistent(log, old(added), s, [row], Responds(server));
      }
    }

    /** `add_rows` */
    method AddRows(rows: seq<Row>, server: Server) returns (outcome: Outcome)
      requires initialized
      modifies this
      ensures var e := Staging.AddRows(old(Snapshot()), rows, old(Responds(server)));
        Snapshot() == e.session && events == old(events) + e.events && outcome == e.outcome
      ensures initialized && added == old(added) + rows && commits == old(commits)
      ensures outcome.Pass? && old(Consistent()) ==> Consistent()
    {
      ghost var s := Snapshot();
      ghost var log := events;
      buffer := buffer + rows;
      added := added + rows;
      if |buffer| >= batchSize {
        outcome := FlushBuffer(server);
      } else {
        outcome := Pass;
      }
      if outcome.Pass? && SessionProperties.Consistent(log, old(added), s) {
        SessionProperties.AddRowsKeepsConsistent(log, old(added), s, rows, Responds(server));
      }
    }

    /** `create_table_from_stash` */
    method CreateTableFromStash(server: Server) returns (outcome: Outcome)
      modifies this`events
      ensures var e := Send(Responds(server), CreateTable);
        events == old(events) + [e]
        && outcome == if IsHttpError(e.response.status) then Fail(CreateFailed(tableName, e.response.text)) else Pass
    {
      var body := JObj(map["name" := JStr(tableName), "schema" := SchemaJson(columns), "rows" := StashRef(stashId)]);
      var r := server(Post(Url(CreateTablePath), body));
      ViaSends(Snapshot().config, stashId, server, CreateTable);
      events := events + [Event(CreateTable, r)];
      if IsHttpError(r.status) {
        return Fail(CreateFailed(tableName, r.text));
      }
      return Pass;
    }

    /** `overwrite_table_from_stash` */
    method OverwriteTableFromStash(tableId: string, server: Server) returns (outcome: Outcome)
      modifies this`events
      ensures var e := Send(Responds(server), OverwriteTable(tableId));
        events == old(events) + [e]
        && outcome == if IsHttpError(e.response.status) then Fail(OverwriteFailed(tableId, e.response.text)) else Pass
    {
      var body := JObj(map["schema" := SchemaJson(columns), "rows" := StashRef(stashId)]);
      var r := server(Put(Url(OverwriteTablePath(tableId)), body));
      ViaSends(Snapshot().config, stashId, server, OverwriteTable(tableId));
      events := events + [Event(OverwriteTable(tableId), r)];
      if IsHttpError(r.status) {
        return Fail(OverwriteFailed(tableId, r.text));
      }
      return Pass;
    }

    /** The last step of `commit`: overwrite the table found, or create one. */
    method FinalizeStash(found: Option<string>, server: Server) returns (outcome: Outcome)
      modifies this`events
      ensures var e := Finalize(Snapshot(), found, Responds(server));
        events == old(events) + e.events && outcome == e.outcome
    {
      match found {
        case Some(tableId) =>
          outcome := OverwriteTableFromStash(tableId, server);
        case None =>
          outcome := CreateTableFromStash(server);
      }
    }

    /** `commit` */
    method Commit(server: Server) returns (outcome: Outcome)
      requires initialized
      modifies this
      ensures var e := Staging.Commit(old(Snapshot()), old(Responds(server)));
        Snapshot() == e.session && events == old(events) + e.events && outcome == e.outcome
      ensures initialized && added == old(added) && commits == old(commits) + 1 && Settings() == old(Settings())
      ensures outcome.Pass? && old(Consistent()) ==> Consistent() && Stashed(events) == added
    {
      ghost var s := Snapshot();
      ghost var respond := Responds(server);
      ghost var log := events;
      commits := commits + 1;
      var listing := server(Get(Url(TablesPath)));
      ghost var listed := Event(ListTables, listing);
      ViaSends(s.config, stashId, server, ListTables);
      events := events + [listed];
      if IsHttpError(listing.status) {
        return Fail(ListTablesFailed(listing.text));
      }
      if listing.tables.None? {
        return Fail(TableDataMissing(listing.status, listing.text));
      }
      var found := FindTableId(listing.tables.value, tableName);
      ghost var f := Flush(s, respond);
      outcome := FlushBuffer(server);
      assert events == log + ([listed] + f.events);
      assert Snapshot() == f.session && f.session.config == s.config;
      if outcome.Fail? {
        assert Staging.Commit(s, respond) == Effect(f.session, [listed] + f.events, f.outcome);
        return;
      }
      ghost var fin := Finalize(f.session, found, respond);
      assert Responds(server) == respond;
      outcome := FinalizeStash(found, server);
      assert events == log + ([listed] + f.events + fin.events);
      assert Staging.Commit(s, respond) == Effect(fin.session, [listed] + f.events + fin.events, fin.outcome);
      if outcome.Pass? && SessionProperties.Consistent(log, added, s) {
        SessionProperties.CommitKeepsConsistent(log, added, s, respond);
      }
    }
  }
}
