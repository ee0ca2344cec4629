/** What `add_row`/`add_rows` and `commit` guarantee (glide.py:160-243), and
    the invariant a session keeps while every call succeeds. */
module SessionProperties {
  import opened Json
  import opened Errors
  import opened Http
  import opened Staging
  import opened FlushProperties

  /** `add_rows` appends to the end of the buffer. It flushes exactly when the
      grown buffer has reached the batch size, and then sends something
      unless there was nothing to send; without a flush the buffer stays
      below the batch size. After a flush the buffer is empty, whether or not
      the flush succeeded. */
  lemma AddRowsEffect(s: Session, rows: seq<Row>, respond: Responder)
    ensures var e := AddRows(s, rows, respond);
      var grown := s.buffer + rows;
      e.session.config == s.config && e.session.stashId == s.stashId
      && (|grown| < s.config.batchSize ==> e == Effect(s.(buffer := grown), [], Pass))
      && (|grown| >= s.config.batchSize ==> e.session.buffer == [])
      && (e.events != [] <==> |grown| >= s.config.batchSize && grown != [])
      && (e.outcome.Fail? ==> e.session.stashSerial == s.stashSerial && e.outcome.error.PutRowsFailed?)
  {
    FlushEffect(s.(buffer := s.buffer + rows), respond);
  }

  /** On success, every row handed to `add_rows` is either stashed, in order
      after what was stashed before, or still buffered; and the chunks were
      accepted under the serials that follow the session's stash serial,
      which advances past them. */
  lemma AddRowsDelivers(s: Session, rows: seq<Row>, respond: Responder)
    ensures var e := AddRows(s, rows, respond);
      Consecutive(AcceptedSerials(e.events), s.stashSerial)
      && (e.outcome.Pass? ==>
        Stashed(e.events) + e.session.buffer == s.buffer + rows
        && e.session.stashSerial == s.stashSerial + |AcceptedSerials(e.events)|)
  {
    var grown := s.(buffer := s.buffer + rows);
    FlushEffect(grown, respond);
    if |grown.buffer| < s.config.batchSize {
      assert AddRows(s, rows, respond).events == [];
    }
  }

  /** The create or overwrite calls among some exchanges. */
  function Finalizations(events: seq<Event>): seq<Call> {
    if events == [] then []
    else (if events[0].call.CreateTable? || events[0].call.OverwriteTable? then [events[0].call] else [])
         + Finalizations(events[1..])
  }

  lemma {:induction false} FinalizationsAppend(a: seq<Event>, b: seq<Event>)
    ensures Finalizations(a + b) == Finalizations(a) + Finalizations(b)
  {
    if a != [] {
      assert (a + b)[1..] == a[1..] + b;
      FinalizationsAppend(a[1..], b);
    } else {
      assert a + b == b;
    }
  }

  lemma {:induction false} NoFinalizationsInStashPuts(ev: seq<Event>)
    requires forall i :: 0 <= i < |ev| ==> ev[i].call.PutStash?
    ensures Finalizations(ev) == []
  {
    if ev != [] {
      NoFinalizationsInStashPuts(ev[1..]);
    }
  }

  /** A flush makes no create or overwrite call. */
  lemma FlushDoesNotFinalize(s: Session, respond: Responder)
    ensures Finalizations(Flush(s, respond).events) == []
  {
    if s.buffer != [] {
      FlushFromAttempts(respond, s.stashId, s.buffer, 0, |s.buffer|, s.stashSerial);
      NoFinalizationsInStashPuts(Flush(s, respond).events);
    }
  }

  /** The call that commits the stash for a listing lookup. */
  function Target(found: Option<string>): Call {
    match found
    case Some(tableId) => OverwriteTable(tableId)
    case None => CreateTable
  }

  /** `commit` starts by listing the tables. If the listing fails or has no
      "data", it raises before any flush, leaving the session as it was.
      Otherwise it makes exactly one finalising call, once the remaining rows
      are flushed: an overwrite of the first table with the session's name if
      one is listed, a create if none is; never both, and none when the
      flush raises. It succeeds exactly when that call succeeds. */
  lemma CommitDecision(s: Session, respond: Responder)
    ensures var e := Commit(s, respond);
      var r := respond(ListTables);
      var listed := !IsHttpError(r.status) && r.tables.Some?;
      |e.events| >= 1 && e.events[0] == Event(ListTables, r)
      && (IsHttpError(r.status) ==> e == Effect(s, [e.events[0]], Fail(ListTablesFailed(r.text))))
      && (!IsHttpError(r.status) && r.tables.None? ==>
            e == Effect(s, [e.events[0]], Fail(TableDataMissing(r.status, r.text))))
      && (listed ==>
        var target := Target(FindTable(r.tables.value, s.config.tableName));
        var f := Flush(s, respond);
        (f.outcome.Fail? ==> e.outcome == f.outcome && Finalizations(e.events) == [])
        && (f.outcome.Pass? ==>
          Finalizations(e.events) == [target]
          && e.events[|e.events| - 1].call == target
          && (e.outcome.Pass? <==> !IsHttpError(e.events[|e.events| - 1].response.status))))
  {
    var e := Commit(s, respond);
    var r := respond(ListTables);
    if !IsHttpError(r.status) && r.tables.Some? {
      var found := FindTable(r.tables.value, s.config.tableName);
      var listing := Send(respond, ListTables);
      var f := Flush(s, respond);
      FlushDoesNotFinalize(s, respond);
      FinalizationsAppend([listing], f.events);
      assert Finalizations([listing]) == [] by { assert [listing][1..] == []; }
      if f.outcome.Pass? {
        var fin := Finalize(f.session, found, respond);
        FinalizationsAppend([listing] + f.events, fin.events);
        assert Finalizations(fin.events) == [Target(found)] by { assert fin.events[1..] == []; }
      }
    }
  }

  /** The exceptions `commit` can raise: a failed listing, a listing
      without data, a failed stash PUT, or a failed create or overwrite. */
  predicate CommitError(error: Error) {
    error.ListTablesFailed? || error.TableDataMissing? || error.PutRowsFailed?
    || error.CreateFailed? || error.OverwriteFailed?
  }

  /** The last exchange of `events` is a create or an overwrite of a table
      that the service accepted. */
  predicate Finalized(events: seq<Event>) {
    |events| >= 1
    && var last := events[|events| - 1];
    (last.call.CreateTable? || last.call.OverwriteTable?) && !IsHttpError(last.response.status)
  }

  /** Exchanges made before a finalised run do not change its last one. */
  lemma FinalizedAfter(log: seq<Event>, events: seq<Event>)
    requires Finalized(events)
    ensures Finalized(log + events)
  {
    assert (log + events)[|log + events| - 1] == events[|events| - 1];
  }

  /** A finalised history ends with its last finalising call. */
  lemma FinalizedEndsWithFinalization(events: seq<Event>)
    requires Finalized(events)
    ensures Finalizations(events) != [] && Finalizations(events)[|Finalizations(events)| - 1] == events[|events| - 1].call
  {
    var init, last := events[..|events| - 1], events[|events| - 1];
    assert events == init + [last];
    FinalizationsAppend(init, [last]);
    assert Finalizations([last]) == [last.call] by { assert [last][1..] == []; }
  }

  /** A `commit` that passes ends with an accepted create or overwrite, the
      only finalising call it makes. */
  lemma CommitFinalizes(s: Session, respond: Responder)
    ensures var e := Commit(s, respond);
      e.outcome.Pass? ==> Finalized(e.events) && Finalizations(e.events) == [e.events[|e.events| - 1].call]
  {
    CommitDecision(s, respond);
  }

  lemma CommitFailure(s: Session, respond: Responder)
    ensures var e := Commit(s, respond);
      e.outcome.Fail? ==> CommitError(e.outcome.error)
  {
    FlushEffect(s, respond);
  }

  /** A successful `commit` has flushed every buffered row, in order, under the
      serials that follow the session's stash serial, and leaves the buffer
      empty. */
  lemma CommitDelivers(s: Session, respond: Responder)
    ensures var e := Commit(s, respond);
      e.outcome.Pass? ==>
        Stashed(e.events) == s.buffer && e.session.buffer == []
        && Consecutive(AcceptedSerials(e.events), s.stashSerial)
        && e.session.stashSerial == s.stashSerial + |AcceptedSerials(e.events)|
  {
    var e := Commit(s, respond);
    var r := respond(ListTables);
    if e.outcome.Pass? {
      var listing := Send(respond, ListTables);
      var found := FindTable(r.tables.value, s.config.tableName);
      var f := Flush(s, respond);
      var fin := Finalize(f.session, found, respond);
      FlushEffect(s, respond);
      StashedSingle(listing);
      StashedSingle(fin.events[0]);
      assert fin.events == [fin.events[0]];
      StashedAppend([listing], f.events);
      StashedAppend([listing] + f.events, fin.events);
      assert e.events == [listing] + f.events + fin.events;
      assert AcceptedSerials(e.events) == AcceptedSerials(f.events) + [];
      assert AcceptedSerials(f.events) + [] == AcceptedSerials(f.events);
    }
  }

  /** The invariant of a session all of whose calls succeeded, given the
      exchanges `log` it made and the rows `added` it was handed: the stash
      holds the rows handed over, in order, except those still buffered, and
      its chunks were accepted under the serials 0, 1, ..., up to the session's
      stash serial, so no two of them share a stash path. */
  ghost predicate Consistent(log: seq<Event>, added: seq<Row>, s: Session) {
    Stashed(log) + s.buffer == added
    && Consecutive(AcceptedSerials(log), 0)
    && |AcceptedSerials(log)| == s.stashSerial
  }

  lemma ConsecutiveAppend(a: seq<nat>, b: seq<nat>, from: nat)
    requires Consecutive(a, from) && Consecutive(b, from + |a|)
    ensures Consecutive(a + b, from)
  {
    forall i | |a| <= i < |a + b|
      ensures (a + b)[i] == from + i
    {
      assert (a + b)[i] == b[i - |a|];
    }
  }

  lemma StashedStep(log: seq<Event>, ev: seq<Event>, buffer: seq<Row>, rows: seq<Row>, rest: seq<Row>)
    requires Stashed(ev) + rest == buffer + rows
    ensures Stashed(log + ev) + rest == (Stashed(log) + buffer) + rows
  {
    StashedAppend(log, ev);
    assert Stashed(log + ev) + rest == Stashed(log) + (Stashed(ev) + rest);
  }

  lemma SerialsStep(log: seq<Event>, ev: seq<Event>, serial: nat)
    requires Consecutive(AcceptedSerials(log), 0) && |AcceptedSerials(log)| == serial
    requires Consecutive(AcceptedSerials(ev), serial)
    ensures Consecutive(AcceptedSerials(log + ev), 0)
    ensures |AcceptedSerials(log + ev)| == serial + |AcceptedSerials(ev)|
  {
    StashedAppend(log, ev);
    ConsecutiveAppend(AcceptedSerials(log), AcceptedSerials(ev), 0);
  }

  /** Consistency carries over a step that stashed `ev`'s accepted chunks
      under the serials after the stash serial and handed over `rows`. */
  lemma ConsistentStep(log: seq<Event>, added: seq<Row>, s: Session, ev: seq<Event>, rows: seq<Row>, t: Session)
    requires Consistent(log, added, s)
    requires Stashed(ev) + t.buffer == s.buffer + rows
    requires Consecutive(AcceptedSerials(ev), s.stashSerial)
    requires t.stashSerial == s.stashSerial + |AcceptedSerials(ev)|
    ensures Consistent(log + ev, added + rows, t)
  {
    StashedStep(log, ev, s.buffer, rows, t.buffer);
    SerialsStep(log, ev, s.stashSerial);
  }

  /** A successful `add_rows` keeps the session consistent. */
  lemma AddRowsKeepsConsistent(log: seq<Event>, added: seq<Row>, s: Session, rows: seq<Row>, respond: Responder)
    requires Consistent(log, added, s)
    requires AddRows(s, rows, respond).outcome.Pass?
    ensures var e := AddRows(s, rows, respond);
      Consistent(log + e.events, added + rows, e.session)
  {
    var e := AddRows(s, rows, respond);
    AddRowsDelivers(s, rows, respond);
    ConsistentStep(log, added, s, e.events, rows, e.session);
  }

  /** A successful `commit` keeps the session consistent and leaves every
      handed row in the stash. */
  lemma CommitKeepsConsistent(log: seq<Event>, added: seq<Row>, s: Session, respond: Responder)
    requires Consistent(log, added, s)
    requires Commit(s, respond).outcome.Pass?
    ensures var e := Commit(s, respond);
      Consistent(log + e.events, added, e.session) && Stashed(log + e.events) == added
  {
    var e := Commit(s, respond);
    CommitDelivers(s, respond);
    ConsistentStep(log, added, s, e.events, [], e.session);
    assert added + [] == added;
  }
}
