/** What the flush loop of `_flush_buffer` guarantees (glide.py:124-158). */
module FlushProperties {
  import opened Json
  import opened Errors
  import opened Http
  import opened Paths
  import opened Staging

  /** The rows not yet sent when the cursor is at `start`. */
  function Rest(rows: seq<Row>, start: nat): seq<Row> {
    rows[Min(start, |rows|)..]
  }

  lemma PrefixAfter(a: seq<Row>, x: seq<Row>, y: seq<Row>)
    ensures x <= y <==> a + x <= a + y
    ensures x == y <==> a + x == a + y
  {
    if a + x == a + y {
      assert x == (a + x)[|a|..] && y == (a + y)[|a|..];
    }
    if a + x <= a + y {
      assert x == (a + x)[|a|..] && (a + y)[|a|..|a| + |x|] == y[..|x|];
    }
  }

  /** An accepted chunk that starts at the cursor, followed by exchanges
      whose accepted chunks are a prefix of the rows after it. */
  lemma PrefixCons(rows: seq<Row>, start: nat, size: nat, e: Event, later: seq<Event>)
    requires start < |rows| && size >= 1
    requires IsAccepted(e) && e.call.chunk == rows[start..Min(start + size, |rows|)]
    requires Stashed(later) <= Rest(rows, start + size)
    ensures Stashed([e] + later) <= Rest(rows, start)
  {
    var mid := Min(start + size, |rows|);
    var chunk := rows[start..mid];
    StashedSingle(e);
    StashedAppend([e], later);
    assert Rest(rows, start) == chunk + rows[mid..];
    assert Rest(rows, start + size) == rows[mid..];
    PrefixAfter(chunk, Stashed(later), rows[mid..]);
  }

  /** An accepted chunk that starts at the cursor adds its rows to the
      accepted ones and takes them from the unsent ones. */
  lemma CountCons(rows: seq<Row>, start: nat, size: nat, e: Event, later: seq<Event>)
    requires start < |rows| && size >= 1
    requires IsAccepted(e) && e.call.chunk == rows[start..Min(start + size, |rows|)]
    ensures |Stashed([e] + later)| - |Rest(rows, start)| == |Stashed(later)| - |Rest(rows, start + size)|
  {
    StashedSingle(e);
    StashedAppend([e], later);
  }

  /** An exchange that was not accepted stashes nothing. */
  lemma SkipRejected(e: Event, later: seq<Event>)
    requires !IsAccepted(e)
    ensures Stashed([e] + later) == Stashed(later)
    ensures AcceptedSerials([e] + later) == AcceptedSerials(later)
  {
    StashedSingle(e);
    StashedAppend([e], later);
  }

  /** The chunks the service accepted are contiguous and in order: together
      they are a prefix of the unsent rows. */
  lemma {:induction false} FlushFromPrefix(respond: Responder, stashId: string, rows: seq<Row>,
                                           start: nat, size: nat, serial: nat)
    requires size >= 1
    ensures Stashed(FlushFrom(respond, stashId, rows, start, size, serial).events) <= Rest(rows, start)
    decreases |rows| - start, size
  {
    if start < |rows| {
      var e := Send(respond, PutStash(serial, rows[start..Min(start + size, |rows|)]));
      FlushFromStep(respond, stashId, rows, start, size, serial);
      if !IsHttpError(e.response.status) {
        var sub := FlushFrom(respond, stashId, rows, start + size, size, serial + 1);
        FlushFromPrefix(respond, stashId, rows, start + size, size, serial + 1);
        PrefixCons(rows, start, size, e, sub.events);
      } else if e.response.status == ContentTooLarge && size > 1 {
        var sub := FlushFrom(respond, stashId, rows, start, Max(1, size / 2), serial);
        FlushFromPrefix(respond, stashId, rows, start, Max(1, size / 2), serial);
        SkipRejected(e, sub.events);
      } else {
        SkipRejected(e, []);
      }
    }
  }

  /** When the loop ends without raising, the accepted chunks hold as many
      rows as were unsent; when it raises, fewer. */
  lemma {:induction false} FlushFromCount(respond: Responder, stashId: string, rows: seq<Row>,
                                          start: nat, size: nat, serial: nat)
    requires size >= 1
    ensures var run := FlushFrom(respond, stashId, rows, start, size, serial);
      if run.outcome.Ok? then |Stashed(run.events)| == |Rest(rows, start)|
      else |Stashed(run.events)| < |Rest(rows, start)|
    decreases |rows| - start, size
  {
    if start < |rows| {
      var e := Send(respond, PutStash(serial, rows[start..Min(start + size, |rows|)]));
      var run := FlushFrom(respond, stashId, rows, start, size, serial);
      FlushFromStep(respond, stashId, rows, start, size, serial);
      if !IsHttpError(e.response.status) {
        var sub := FlushFrom(respond, stashId, rows, start + size, size, serial + 1);
        FlushFromCount(respond, stashId, rows, start + size, size, serial + 1);
        CountCons(rows, start, size, e, sub.events);
        assert run == Then(e, sub);
      } else if e.response.status == ContentTooLarge && size > 1 {
        var sub := FlushFrom(respond, stashId, rows, start, Max(1, size / 2), serial);
        FlushFromCount(respond, stashId, rows, start, Max(1, size / 2), serial);
        SkipRejected(e, sub.events);
        assert run == Then(e, sub);
      } else {
        SkipRejected(e, []);
        assert run.events == [e] + [] && run.outcome.Err?;
      }
    }
  }

  /** The accepted chunks are all of the unsent rows, in order, exactly when
      the loop ends without raising: a raise always leaves rows unsent. */
  lemma FlushFromDelivers(respond: Responder, stashId: string, rows: seq<Row>,
                          start: nat, size: nat, serial: nat)
    requires size >= 1
    ensures var run := FlushFrom(respond, stashId, rows, start, size, serial);
      run.outcome.Ok? <==> Stashed(run.events) == Rest(rows, start)
  {
    var run := FlushFrom(respond, stashId, rows, start, size, serial);
    FlushFromPrefix(respond, stashId, rows, start, size, serial);
    FlushFromCount(respond, stashId, rows, start, size, serial);
    if run.outcome.Ok? {
      assert Stashed(run.events) == Rest(rows, start)[..|Stashed(run.events)|];
    }
  }

  /** The accepted chunks carry the serials `serial`, `serial + 1`, ... in
      order, and a loop that ends without raising returns the serial after
      the last of them. */
  lemma {:induction false} FlushFromSerials(respond: Responder, stashId: string, rows: seq<Row>,
                                            start: nat, size: nat, serial: nat)
    requires size >= 1
    ensures var run := FlushFrom(respond, stashId, rows, start, size, serial);
      Consecutive(AcceptedSerials(run.events), serial)
      && (run.outcome.Ok? ==> run.outcome.value == serial + |AcceptedSerials(run.events)|)
    decreases |rows| - start, size
  {
    if start < |rows| {
      var e := Send(respond, PutStash(serial, rows[start..Min(start + size, |rows|)]));
      var run := FlushFrom(respond, stashId, rows, start, size, serial);
      FlushFromStep(respond, stashId, rows, start, size, serial);
      if !IsHttpError(e.response.status) {
        var sub := FlushFrom(respond, stashId, rows, start + size, size, serial + 1);
        FlushFromSerials(respond, stashId, rows, start + size, size, serial + 1);
        SerialCons(e, sub.events, serial);
        assert run == Then(e, sub);
      } else if e.response.status == ContentTooLarge && size > 1 {
        var sub := FlushFrom(respond, stashId, rows, start, Max(1, size / 2), serial);
        FlushFromSerials(respond, stashId, rows, start, Max(1, size / 2), serial);
        SkipRejected(e, sub.events);
        assert run == Then(e, sub);
      } else {
        SkipRejected(e, []);
        assert run.events == [e] + [] && run.outcome.Err?;
      }
    }
  }

  /** An accepted chunk under `serial`, followed by exchanges whose accepted
      chunks carry the serials from `serial + 1` on. */
  lemma SerialCons(e: Event, later: seq<Event>, serial: nat)
    requires IsAccepted(e) && e.call.serial == serial
    requires Consecutive(AcceptedSerials(later), serial + 1)
    ensures Consecutive(AcceptedSerials([e] + later), serial)
    ensures |AcceptedSerials([e] + later)| == 1 + |AcceptedSerials(later)|
  {
    StashedSingle(e);
    StashedAppend([e], later);
    var all := AcceptedSerials([e] + later);
    assert all == [serial] + AcceptedSerials(later);
    forall i | 1 <= i < |all|
      ensures all[i] == serial + i
    {
      assert all[i] == AcceptedSerials(later)[i - 1];
    }
  }

  /** How one exchange of the flush loop leads to the next: the chunk does not
      grow; after an accepted chunk the next one takes the next serial; after a
      refused one, the refusal was a 413 and the retry keeps the serial and
      sends a prefix of the refused chunk. */
  predicate NextAttempt(a: Event, b: Event)
    requires a.call.PutStash? && b.call.PutStash?
  {
    |b.call.chunk| <= |a.call.chunk|
    && if IsAccepted(a) then b.call.serial == a.call.serial + 1
       else a.response.status == ContentTooLarge && b.call.serial == a.call.serial && b.call.chunk <= a.call.chunk
  }

  /** Every exchange is a stash PUT and each leads to the next as above. */
  predicate Chained(ev: seq<Event>) {
    (forall i :: 0 <= i < |ev| ==> ev[i].call.PutStash?)
    && forall i :: 0 <= i < |ev| - 1 ==> NextAttempt(ev[i], ev[i + 1])
  }

  lemma ChainedCons(e: Event, ev: seq<Event>)
    requires e.call.PutStash? && Chained(ev)
    requires |ev| > 0 ==> NextAttempt(e, ev[0])
    ensures Chained([e] + ev)
  {
    var all := [e] + ev;
    forall i | 0 <= i < |all| - 1
      ensures NextAttempt(all[i], all[i + 1])
    {
      if i > 0 {
        assert all[i] == ev[i - 1] && all[i + 1] == ev[i];
      }
    }
  }

  /** Chunk lengths within `inner` stay within any larger `bound`. */
  lemma ChunksWithin(e: Event, ev: seq<Event>, inner: int, bound: int)
    requires e.call.PutStash? && 1 <= |e.call.chunk| <= bound && inner <= bound
    requires forall i :: 0 <= i < |ev| ==> ev[i].call.PutStash? && 1 <= |ev[i].call.chunk| <= inner
    ensures forall i :: 0 <= i < |[e] + ev| ==> ([e] + ev)[i].call.PutStash? && 1 <= |([e] + ev)[i].call.chunk| <= bound
  {
    forall i | 1 <= i < |[e] + ev|
      ensures ([e] + ev)[i] == ev[i - 1]
    {
    }
  }

  /** The shape of the exchanges of the flush loop: every one is a stash PUT,
      the first under `serial`, and each leads to the next as NextAttempt
      says (so the chunk lengths never grow and a 413 retry stays at the same
      cursor and serial). */
  lemma {:induction false} FlushFromAttempts(respond: Responder, stashId: string, rows: seq<Row>,
                                             start: nat, size: nat, serial: nat)
    requires size >= 1
    ensures var ev := FlushFrom(respond, stashId, rows, start, size, serial).events;
      Chained(ev) && (|ev| > 0 ==> ev[0].call.serial == serial)
    decreases |rows| - start, size
  {
    if start < |rows| {
      var chunk := rows[start..Min(start + size, |rows|)];
      var e := Send(respond, PutStash(serial, chunk));
      var run := FlushFrom(respond, stashId, rows, start, size, serial);
      FlushFromStep(respond, stashId, rows, start, size, serial);
      if !IsHttpError(e.response.status) {
        var sub := FlushFrom(respond, stashId, rows, start + size, size, serial + 1);
        FlushFromAttempts(respond, stashId, rows, start + size, size, serial + 1);
        FlushFromChunkSizes(respond, stashId, rows, start + size, size, serial + 1);
        assert |sub.events| > 0 ==> start + size < |rows| && |chunk| == size;
        ChainedCons(e, sub.events);
        assert run.events == [e] + sub.events;
      } else if e.response.status == ContentTooLarge && size > 1 {
        var sub := FlushFrom(respond, stashId, rows, start, Max(1, size / 2), serial);
        FlushFromAttempts(respond, stashId, rows, start, Max(1, size / 2), serial);
        assert |sub.events| > 0 ==> sub.events[0].call.chunk == rows[start..Min(start + Max(1, size / 2), |rows|)];
        ChainedCons(e, sub.events);
        assert run.events == [e] + sub.events;
      } else {
        ChainedCons(e, []);
        assert run.events == [e] + [];
      }
    }
  }

  /** Every exchange of the flush loop is a stash PUT of at least one and at
      most `size` rows. */
  lemma {:induction false} FlushFromChunkSizes(respond: Responder, stashId: string, rows: seq<Row>,
                                               start: nat, size: nat, serial: nat)
    requires size >= 1
    ensures var ev := FlushFrom(respond, stashId, rows, start, size, serial).events;
      forall i :: 0 <= i < |ev| ==> ev[i].call.PutStash? && 1 <= |ev[i].call.chunk| <= Min(size, |rows| - start)
    decreases |rows| - start, size
  {
    if start < |rows| {
      var e := Send(respond, PutStash(serial, rows[start..Min(start + size, |rows|)]));
      var run := FlushFrom(respond, stashId, rows, start, size, serial);
      var bound := Min(size, |rows| - start);
      FlushFromStep(respond, stashId, rows, start, size, serial);
      if !IsHttpError(e.response.status) {
        var sub := FlushFrom(respond, stashId, rows, start + size, size, serial + 1);
        FlushFromChunkSizes(respond, stashId, rows, start + size, size, serial + 1);
        ChunksWithin(e, sub.events, Min(size, |rows| - (start + size)), bound);
        assert run.events == [e] + sub.events;
      } else if e.response.status == ContentTooLarge && size > 1 {
        var sub := FlushFrom(respond, stashId, rows, start, Max(1, size / 2), serial);
        FlushFromChunkSizes(respond, stashId, rows, start, Max(1, size / 2), serial);
        ChunksWithin(e, sub.events, Min(Max(1, size / 2), |rows| - start), bound);
        assert run.events == [e] + sub.events;
      } else {
        ChunksWithin(e, [], bound, bound);
        assert run.events == [e] + [];
      }
    }
  }

  /** The loop raises exactly when its last exchange was refused, with the
      stash path of that exchange and the service's text; a 413 raises only
      when the chunk size had come down to one row. */
  lemma {:induction false} FlushFromFailure(respond: Responder, stashId: string, rows: seq<Row>,
                                            start: nat, size: nat, serial: nat)
    requires size >= 1
    ensures var run := FlushFrom(respond, stashId, rows, start, size, serial);
      var ev := run.events;
      run.outcome.Err? <==> |ev| > 0 && !IsAccepted(ev[|ev| - 1])
    ensures var run := FlushFrom(respond, stashId, rows, start, size, serial);
      var ev := run.events;
      run.outcome.Err? ==>
        var last := ev[|ev| - 1];
        last.call.PutStash?
        && run.outcome.error == PutRowsFailed(StashPath(stashId, last.call.serial), last.response.text)
        && (last.response.status == ContentTooLarge ==> |last.call.chunk| == 1)
    decreases |rows| - start, size
  {
    if start < |rows| {
      var chunk := rows[start..Min(start + size, |rows|)];
      var e := Send(respond, PutStash(serial, chunk));
      if !IsHttpError(e.response.status) {
        FlushFromFailure(respond, stashId, rows, start + size, size, serial + 1);
      } else if e.response.status == ContentTooLarge && size > 1 {
        FlushFromFailure(respond, stashId, rows, start, Max(1, size / 2), serial);
      }
    }
  }

  /** The response the service gives to a stash PUT. */
  function StashResponse(respond: Responder, serial: nat, chunk: seq<Row>): Response {
    respond(PutStash(serial, chunk))
  }

  /** A service whose only limit is a payload size that a single row never
      exceeds: it accepts every one-row chunk, and answers every larger chunk
      either by accepting it or with 413. */
  ghost predicate OnlySizeLimited(respond: Responder) {
    forall serial: nat, chunk: seq<Row> ::
      var status := StashResponse(respond, serial, chunk).status;
      |chunk| >= 1 ==> !IsHttpError(status) || (status == ContentTooLarge && |chunk| > 1)
  }

  /** Against such a service the adaptive halving always gets every row
      through: the loop never raises. */
  lemma {:induction false} FlushFromSucceeds(respond: Responder, stashId: string, rows: seq<Row>,
                                             start: nat, size: nat, serial: nat)
    requires size >= 1
    requires OnlySizeLimited(respond)
    ensures FlushFrom(respond, stashId, rows, start, size, serial).outcome.Ok?
    decreases |rows| - start, size
  {
    if start < |rows| {
      var chunk := rows[start..Min(start + size, |rows|)];
      assert StashResponse(respond, serial, chunk).status == respond(PutStash(serial, chunk)).status;
      var e := Send(respond, PutStash(serial, chunk));
      if !IsHttpError(e.response.status) {
        FlushFromSucceeds(respond, stashId, rows, start + size, size, serial + 1);
      } else {
        FlushFromSucceeds(respond, stashId, rows, start, Max(1, size / 2), serial);
      }
    }
  }

  /** `_flush_buffer` on the session: an empty buffer sends nothing and
      changes nothing. Otherwise the buffer ends empty whatever happens; on
      success the accepted chunks are exactly the buffered rows, under the
      serials from the old stash serial on, and the stash serial advances by
      their number; on failure the stash serial keeps its old value. */
  lemma FlushEffect(s: Session, respond: Responder)
    ensures var e := Flush(s, respond);
      (s.buffer == [] ==> e == Effect(s, [], Pass))
      && e.session == s.(buffer := [], stashSerial := e.session.stashSerial)
      && Consecutive(AcceptedSerials(e.events), s.stashSerial)
      && Stashed(e.events) <= s.buffer
      && (e.outcome.Pass? <==> Stashed(e.events) == s.buffer)
      && (e.outcome.Pass? ==> e.session.stashSerial == s.stashSerial + |AcceptedSerials(e.events)|)
      && (e.outcome.Fail? ==> e.session.stashSerial == s.stashSerial && e.outcome.error.PutRowsFailed?)
  {
    if s.buffer != [] {
      FlushFromPrefix(respond, s.stashId, s.buffer, 0, |s.buffer|, s.stashSerial);
      FlushFromDelivers(respond, s.stashId, s.buffer, 0, |s.buffer|, s.stashSerial);
      FlushFromSerials(respond, s.stashId, s.buffer, 0, |s.buffer|, s.stashSerial);
      FlushFromFailure(respond, s.stashId, s.buffer, 0, |s.buffer|, s.stashSerial);
    }
  }
}
