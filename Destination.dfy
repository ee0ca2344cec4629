/** `DestinationGlide.write` (destination.py:57-139): one client per
    configured stream, every record routed to the client of its stream, then
    one commit per client. The clients are RestClient.RestStrategy objects;
    each one's history (what it was handed, what reached its stash, how often
    it was committed) is what the contracts here speak about. */
module Destination {
  import opened Json
  import opened Errors
  import opened Http
  import opened Columns
  import opened Staging
  import opened TypeMapping
  import opened RestClient

  /** The default settings of destination.py:25-26. */
  const ConfigApiHostDefault: string := "https://api.glideapps.com"
  const ConfigApiPathRootDefault: string := ""

  /** The destination sync modes of the Airbyte protocol. */
  datatype SyncMode = Append | Overwrite | AppendDedup

  function ModeName(mode: SyncMode): string {
    match mode
    case Append => "append"
    case Overwrite => "overwrite"
    case AppendDedup => "append_dedup"
  }

  /** A property of a stream's JSON schema, in the order of "properties". */
  datatype Property = Property(name: string, schemaType: SchemaType)

  /** A stream of the configured catalog. */
  datatype ConfiguredStream = ConfiguredStream(name: string, properties: seq<Property>, syncMode: SyncMode)

  /** An input message: a record of a stream, a state checkpoint, or a message
      of any other type (log, trace, ...). */
  datatype Message = Record(stream: string, data: Row) | State | OtherMessage(kind: string)

  // ---------------------------------------------------------------------
  // What a catalog and a message sequence call for
  // ---------------------------------------------------------------------

  /** The columns of a stream: one per property, named after it, typed by
      the mapping of its schema type (destination.py:95-102). */
  function SchemaColumns(properties: seq<Property>): (columns: seq<Column>)
    ensures |columns| == |properties|
    ensures forall i :: 0 <= i < |properties| ==>
      NewColumn(properties[i].name, GlideTypeOf(properties[i].schemaType)) == Ok(columns[i])
  {
    seq(|properties|, i requires 0 <= i < |properties| =>
      NewColumn(properties[i].name, GlideTypeOf(properties[i].schemaType)).value)
  }

  /** The sync mode of the first stream whose mode is not overwrite, if any. */
  function FirstNonOverwrite(catalog: seq<ConfiguredStream>): (r: Option<SyncMode>)
    ensures r.None? <==> forall j :: 0 <= j < |catalog| ==> catalog[j].syncMode == Overwrite
    ensures r.Some? ==> exists k :: 0 <= k < |catalog| && catalog[k].syncMode == r.value && r.value != Overwrite
                                    && forall j :: 0 <= j < k ==> catalog[j].syncMode == Overwrite
  {
    if catalog == [] then None
    else
      var before := FirstNonOverwrite(catalog[..|catalog| - 1]);
      assert forall j :: 0 <= j < |catalog| - 1 ==> catalog[..|catalog| - 1][j] == catalog[j];
      if before.Some? then before
      else if catalog[|catalog| - 1].syncMode != Overwrite then Some(catalog[|catalog| - 1].syncMode)
      else None
  }

  /** `stream_names` (destination.py:89). */
  function StreamNames(catalog: seq<ConfiguredStream>): set<string> {
    set i | 0 <= i < |catalog| :: catalog[i].name
  }

  /** The keys of `table_clients` in insertion order: each stream name once,
      at its first occurrence in the catalog. */
  function TableOrder(catalog: seq<ConfiguredStream>): (order: seq<string>)
    ensures forall i, j :: 0 <= i < j < |order| ==> order[i] != order[j]
    ensures forall n :: n in order <==> n in StreamNames(catalog)
  {
    if catalog == [] then []
    else
      var init := catalog[..|catalog| - 1];
      var before := TableOrder(init);
      assert forall i :: 0 <= i < |init| ==> init[i] == catalog[i];
      assert StreamNames(catalog) == StreamNames(init) + {catalog[|catalog| - 1].name};
      if catalog[|catalog| - 1].name in before then before
      else before + [catalog[|catalog| - 1].name]
  }

  /** The position of the last stream named `name`, -1 when there is none:
      the stream whose client `table_clients[name]` ends up holding. */
  function LastIndex(catalog: seq<ConfiguredStream>, name: string): (k: int)
    ensures -1 <= k < |catalog|
    ensures k == -1 <==> name !in StreamNames(catalog)
    ensures k >= 0 ==> catalog[k].name == name && forall j :: k < j < |catalog| ==> catalog[j].name != name
  {
    if catalog == [] then -1
    else if catalog[|catalog| - 1].name == name then |catalog| - 1
    else
      var init := catalog[..|catalog| - 1];
      assert forall i :: 0 <= i < |init| ==> init[i] == catalog[i];
      assert StreamNames(catalog) == StreamNames(init) + {catalog[|catalog| - 1].name};
      LastIndex(init, name)
  }

  /** Appending a stream adds its name, moves the last position of that
      name to it, and adds the name to the order unless it was there. */
  lemma CatalogStep(catalog: seq<ConfiguredStream>, k: nat)
    requires k < |catalog|
    ensures StreamNames(catalog[..k + 1]) == StreamNames(catalog[..k]) + {catalog[k].name}
    ensures forall n :: LastIndex(catalog[..k + 1], n) == if n == catalog[k].name then k else LastIndex(catalog[..k], n)
    ensures TableOrder(catalog[..k + 1]) ==
      if catalog[k].name in TableOrder(catalog[..k]) then TableOrder(catalog[..k])
      else TableOrder(catalog[..k]) + [catalog[k].name]
  {
    var init := catalog[..k + 1];
    assert init[..k] == catalog[..k];
    forall n | n in StreamNames(init)
      ensures n in StreamNames(catalog[..k]) + {catalog[k].name}
    {
      var i :| 0 <= i < |init| && init[i].name == n;
      if i < k {
        assert catalog[..k][i] == init[i];
      }
    }
    forall n | n in StreamNames(catalog[..k])
      ensures n in StreamNames(init)
    {
      var i :| 0 <= i < k && catalog[..k][i].name == n;
      assert init[i] == catalog[..k][i];
    }
    assert init[k] == catalog[k];
    forall n
      ensures LastIndex(init, n) == if n == catalog[k].name then k else LastIndex(catalog[..k], n)
    {
      if n != catalog[k].name {
        assert LastIndex(init, n) == LastIndex(init[..k], n);
      }
    }
  }

  /** The data of the records of stream `name`, in message order. */
  function RecordsFor(messages: seq<Message>, name: string): (rows: seq<Row>)
    ensures |rows| <= |messages|
    ensures forall i :: 0 <= i < |rows| ==> Record(name, rows[i]) in messages
  {
    if messages == [] then []
    else
      var init := messages[..|messages| - 1];
      var m := messages[|messages| - 1];
      if m.Record? && m.stream == name then RecordsFor(init, name) + [m.data] else RecordsFor(init, name)
  }

  /** Every record message of a stream contributes its data to that stream's
      rows and to no other stream's, in message order. */
  lemma {:induction false} RecordsForAppend(a: seq<Message>, b: seq<Message>, name: string)
    ensures RecordsFor(a + b, name) == RecordsFor(a, name) + RecordsFor(b, name)
    decreases |b|
  {
    if b == [] {
      assert a + b == a;
    } else {
      var m := b[|b| - 1];
      assert (a + b)[..|a + b| - 1] == a + b[..|b| - 1];
      RecordsForAppend(a, b[..|b| - 1], name);
    }
  }

  /** Rows `given` earlier followed by the records of one more message are
      those followed by the records of the shorter prefix and then by that
      message's own. */
  lemma RecordsForPrefix(given: seq<Row>, messages: seq<Message>, i: nat, name: string)
    requires i < |messages|
    ensures given + RecordsFor(messages[..i + 1], name)
            == given + RecordsFor(messages[..i], name) + RecordsFor([messages[i]], name)
  {
    assert messages[..i + 1] == messages[..i] + [messages[i]];
    RecordsForAppend(messages[..i], [messages[i]], name);
  }

  // ---------------------------------------------------------------------
  // The clients
  // ---------------------------------------------------------------------

  /** No two stream names share a client. */
  ghost predicate Distinct(clients: map<string, RestStrategy>) {
    forall a, b :: a in clients && b in clients && a != b ==> clients[a] != clients[b]
  }

  /** A client just made and initialised for `stream`, the stream at
      position `k` of the catalog. */
  ghost predicate Opened(c: RestStrategy, stream: ConfiguredStream, k: nat, apiKey: string,
                         apiHost: string, apiPathRoot: string, stashIdFor: nat -> string)
    reads c
  {
    c.Snapshot() == Session(Config(apiKey, apiHost, apiPathRoot, stream.name, SchemaColumns(stream.properties),
                                   DefaultBatchSize), stashIdFor(k), 0, [])
    && c.initialized && c.events == [] && c.added == [] && c.commits == 0 && c.Consistent()
  }

  /** The column list of destination.py:95-102, built one property at a time. */
  method BuildColumns(properties: seq<Property>) returns (columns: seq<Column>)
    ensures columns == SchemaColumns(properties)
  {
    columns := [];
    for i := 0 to |properties|
      invariant |columns| == i
      invariant forall j :: 0 <= j < i ==>
        NewColumn(properties[j].name, GlideTypeOf(properties[j].schemaType)) == Ok(columns[j])
    {
      var glideType := AirbyteTypeToGlideType(properties[i].schemaType);
      var column := NewColumn(properties[i].name, glideType);
      columns := columns + [column.value];
    }
  }

  /** Every client is the one opened for the last stream of its name. */
  ghost predicate AllOpened(clients: map<string, RestStrategy>, catalog: seq<ConfiguredStream>, apiKey: string,
                            apiHost: string, apiPathRoot: string, stashIdFor: nat -> string)
    reads clients.Values
  {
    forall n :: n in clients ==>
      var k := LastIndex(catalog, n);
      k >= 0 && Opened(clients[n], catalog[k], k, apiKey, apiHost, apiPathRoot, stashIdFor)
  }

  /** Filing the client opened for stream `k` under its name keeps every
      client the one of the last stream of its name. */
  lemma AllOpenedStep(clients: map<string, RestStrategy>, catalog: seq<ConfiguredStream>, k: nat,
                      glide: RestStrategy, apiKey: string, apiHost: string, apiPathRoot: string,
                      stashIdFor: nat -> string)
    requires k < |catalog|
    requires AllOpened(clients, catalog[..k], apiKey, apiHost, apiPathRoot, stashIdFor)
    requires Opened(glide, catalog[k], k, apiKey, apiHost, apiPathRoot, stashIdFor)
    ensures AllOpened(clients[catalog[k].name := glide], catalog[..k + 1], apiKey, apiHost, apiPathRoot, stashIdFor)
  {
    var filed := clients[catalog[k].name := glide];
    var shorter, longer := catalog[..k], catalog[..k + 1];
    CatalogStep(catalog, k);
    forall n | n in filed
      ensures LastIndex(longer, n) >= 0
      ensures Opened(filed[n], longer[LastIndex(longer, n)], LastIndex(longer, n), apiKey, apiHost, apiPathRoot, stashIdFor)
    {
      if n == catalog[k].name {
        assert LastIndex(longer, n) == k && longer[k] == catalog[k];
      } else {
        var j := LastIndex(shorter, n);
        assert LastIndex(longer, n) == j;
        assert j >= 0 && Opened(clients[n], shorter[j], j, apiKey, apiHost, apiPathRoot, stashIdFor);
        assert longer[j] == shorter[j];
      }
    }
  }

  /** Distinct catalog positions get distinct stash ids, as `uuid4` gives. */
  ghost predicate FreshIds(stashIdFor: nat -> string) {
    forall i: nat, j: nat :: i != j ==> stashIdFor(i) != stashIdFor(j)
  }

  /** No two streams' clients share a stash, so no two write to the same
      stash path. */
  ghost predicate SeparateStashes(clients: map<string, RestStrategy>) {
    forall a, b :: a in clients && b in clients && a != b ==> clients[a].stashId != clients[b].stashId
  }

  /** Clients opened with distinct stash ids per catalog position hold
      distinct stashes. */
  lemma DistinctStashIds(clients: map<string, RestStrategy>, catalog: seq<ConfiguredStream>, apiKey: string,
                         apiHost: string, apiPathRoot: string, stashIdFor: nat -> string)
    requires AllOpened(clients, catalog, apiKey, apiHost, apiPathRoot, stashIdFor)
    requires FreshIds(stashIdFor)
    ensures SeparateStashes(clients)
  {
    forall a, b | a in clients && b in clients && a != b
      ensures clients[a].stashId != clients[b].stashId
    {
      var ka, kb := LastIndex(catalog, a), LastIndex(catalog, b);
      assert clients[a].Snapshot().stashId == stashIdFor(ka);
      assert clients[b].Snapshot().stashId == stashIdFor(kb);
    }
  }

  lemma DistinctStep(clients: map<string, RestStrategy>, name: string, glide: RestStrategy)
    requires Distinct(clients)
    requires forall n :: n in clients ==> clients[n] != glide
    ensures Distinct(clients[name := glide])
  {
  }

  /** `create_table_client_for_stream` (destination.py:82-86), with the
      columns of destination.py:95-102: a new client, initialised for the
      stream's table with the default batch size. */
  method OpenClient(apiKey: string, apiHost: string, apiPathRoot: string, stream: ConfiguredStream,
                    k: nat, stashIdFor: nat -> string)
    returns (glide: RestStrategy)
    ensures fresh(glide) && Opened(glide, stream, k, apiKey, apiHost, apiPathRoot, stashIdFor)
  {
    var columns := BuildColumns(stream.properties);
    glide := new RestStrategy(stashIdFor(k));
    glide.Init(apiKey, stream.name, columns, apiHost, apiPathRoot);
  }

  /** The first loop of `write` (destination.py:88-105): checks each stream's
      sync mode, raising at the first that is not overwrite, and otherwise
      makes, initialises and files a client under the stream's name; a later
      stream of the same name replaces the earlier one's client. Client `k`
      gets the stash id `stashIdFor(k)`. */
  method OpenClients(apiKey: string, apiHost: string, apiPathRoot: string,
                     catalog: seq<ConfiguredStream>, stashIdFor: nat -> string)
    returns (outcome: Outcome, order: seq<string>, clients: map<string, RestStrategy>)
    ensures outcome == match FirstNonOverwrite(catalog)
                       case Some(mode) => Fail(UnsupportedSyncMode(ModeName(mode)))
                       case None => Pass
    ensures forall n :: n in clients ==> fresh(clients[n]) && clients[n].events == [] && clients[n].commits == 0
    ensures outcome.Pass? ==>
      order == TableOrder(catalog) && clients.Keys == StreamNames(catalog) && Distinct(clients)
      && AllOpened(clients, catalog, apiKey, apiHost, apiPathRoot, stashIdFor)
  {
    order, clients := [], map[];
    for k := 0 to |catalog|
      invariant FirstNonOverwrite(catalog[..k]).None?
      invariant order == TableOrder(catalog[..k]) && clients.Keys == StreamNames(catalog[..k]) && Distinct(clients)
      invariant forall n :: n in clients ==> fresh(clients[n])
      invariant AllOpened(clients, catalog[..k], apiKey, apiHost, apiPathRoot, stashIdFor)
    {
      var stream := catalog[k];
      assert catalog[..k + 1][..k] == catalog[..k];
      if stream.syncMode != Overwrite {
        assert FirstNonOverwrite(catalog[..k + 1]) == Some(stream.syncMode);
        FirstNonOverwritePrefix(catalog, k + 1);
        return Fail(UnsupportedSyncMode(ModeName(stream.syncMode))), order, clients;
      }
      var glide := OpenClient(apiKey, apiHost, apiPathRoot, stream, k, stashIdFor);
      CatalogStep(catalog, k);
      AllOpenedStep(clients, catalog, k, glide, apiKey, apiHost, apiPathRoot, stashIdFor);
      DistinctStep(clients, stream.name, glide);
      clients := clients[stream.name := glide];
      if stream.name !in order {
        order := order + [stream.name];
      }
    }
    assert catalog[..|catalog|] == catalog;
    return Pass, order, clients;
  }

  /** Once a prefix of the catalog holds a stream that is not overwrite, the
      first such stream of the whole catalog is the prefix's. */
  lemma {:induction false} FirstNonOverwritePrefix(catalog: seq<ConfiguredStream>, k: nat)
    requires k <= |catalog| && FirstNonOverwrite(catalog[..k]).Some?
    ensures FirstNonOverwrite(catalog) == FirstNonOverwrite(catalog[..k])
    decreases |catalog| - k
  {
    if k < |catalog| {
      assert catalog[..k + 1][..k] == catalog[..k];
      FirstNonOverwritePrefix(catalog, k + 1);
    } else {
      assert catalog[..k] == catalog;
    }
  }

  /** The client a message is for: the client of its stream when it is a
      record of a configured stream, none otherwise. */
  function Recipient(message: Message, clients: map<string, RestStrategy>): set<RestStrategy> {
    if message.Record? && message.stream in clients then {clients[message.stream]} else {}
  }

  /** What one message does: a record of a configured stream is `add_row` on
      that stream's client, which behaves as the session add of its data;
      any other message passes. No other client is in the frame. */
  twostate predicate Delivered(message: Message, streamNames: set<string>, clients: map<string, RestStrategy>,
                               server: Server, outcome: Outcome)
    reads clients.Values
  {
    if message.Record? && message.stream in streamNames && message.stream in clients then
      var c := clients[message.stream];
      var e := Staging.AddRows(old(c.Snapshot()), [message.data], old(c.Responds(server)));
      c.Snapshot() == e.session && c.events == old(c.events) + e.events && outcome == e.outcome
    else
      outcome == Pass
  }

  /** One turn of the message loop of `write` (destination.py:110-131): a
      record of a configured stream is handed to that stream's client with
      `add_row`; a record of any other stream, a state message and every
      other message are passed over. Only that client is in the frame. */
  method RouteMessage(message: Message, streamNames: set<string>, clients: map<string, RestStrategy>,
                      server: Server)
    returns (outcome: Outcome)
    requires streamNames == clients.Keys && Distinct(clients)
    requires forall n :: n in clients ==> clients[n].initialized
    modifies Recipient(message, clients)
    ensures forall n :: n in clients ==>
      clients[n].initialized && clients[n].commits == old(clients[n].commits)
      && clients[n].Settings() == old(clients[n].Settings())
      && clients[n].added == old(clients[n].added) + RecordsFor([message], n)
    ensures outcome.Pass? ==> forall n :: n in clients ==> old(clients[n].Consistent()) ==> clients[n].Consistent()
    ensures outcome.Fail? ==> outcome.error.PutRowsFailed?
    ensures Delivered(message, streamNames, clients, server, outcome)
  {
    assert [message][..0] == [];
    outcome := Pass;
    match message {
      case Record(stream, data) =>
        if stream !in streamNames {
          return;
        }
        var client := clients[stream];
        ghost var session, respond := client.Snapshot(), client.Responds(server);
        outcome := client.AddRow(data, server);
        SessionProperties.AddRowsEffect(session, [data], respond);
      case State =>
      case OtherMessage(_) =>
    }
  }

  /** The message loop of `write` (destination.py:109-131), ended by the
      first failed flush. */
  method RouteRecords(messages: seq<Message>, streamNames: set<string>, clients: map<string, RestStrategy>,
                      server: Server)
    returns (outcome: Outcome)
    requires streamNames == clients.Keys && Distinct(clients)
    requires forall n :: n in clients ==> clients[n].initialized
    modifies clients.Values
    ensures forall n :: n in clients ==>
      clients[n].initialized && clients[n].commits == old(clients[n].commits)
      && clients[n].Settings() == old(clients[n].Settings())
    ensures outcome.Pass? ==> forall n :: n in clients ==>
      clients[n].added == old(clients[n].added) + RecordsFor(messages, n)
      && (old(clients[n].Consistent()) ==> clients[n].Consistent())
    ensures outcome.Fail? ==> outcome.error.PutRowsFailed?
  {
    for i := 0 to |messages|
      invariant forall n :: n in clients ==>
        clients[n].initialized && clients[n].commits == old(clients[n].commits)
        && clients[n].Settings() == old(clients[n].Settings())
      invariant forall n :: n in clients ==> clients[n].added == old(clients[n].added) + RecordsFor(messages[..i], n)
      invariant forall n :: n in clients ==> old(clients[n].Consistent()) ==> clients[n].Consistent()
    {
      outcome := RouteMessage(messages[i], streamNames, clients, server);
      if outcome.Fail? {
        return;
      }
      forall n | n in clients
        ensures clients[n].added == old(clients[n].added) + RecordsFor(messages[..i + 1], n)
      {
        RecordsForPrefix(old(clients[n].added), messages, i, n);
      }
    }
    assert messages[..|messages|] == messages;
    return Pass;
  }

  /** A client with one commit more than its earlier `commits0`, still
      holding the settings `settings0`, whose last exchange is an accepted
      create or overwrite, and, if it was consistent before, still consistent
      with all its rows in the stash. */
  ghost predicate Committed(c: RestStrategy, commits0: nat, settings0: Config, consistent0: bool)
    reads c
  {
    c.commits == commits0 + 1 && c.Settings() == settings0 && SessionProperties.Finalized(c.events)
    && (consistent0 ==> c.Consistent() && Stashed(c.events) == c.added)
  }

  /** One `commit` call of the last loop of `write` (destination.py:135): a
      failure is a commit error; a success is one more commit that ends with
      an accepted create or overwrite, keeps the settings, and, from a
      consistent history, stashes every row given. */
  method CommitClient(glide: RestStrategy, server: Server) returns (outcome: Outcome)
    requires glide.initialized
    modifies glide
    ensures glide.initialized && glide.added == old(glide.added) && glide.commits <= old(glide.commits) + 1
    ensures outcome.Fail? ==> SessionProperties.CommitError(outcome.error)
    ensures outcome.Pass? ==> Committed(glide, old(glide.commits), old(glide.Settings()), old(glide.Consistent()))
  {
    ghost var session, respond := glide.Snapshot(), glide.Responds(server);
    ghost var log := glide.events;
    outcome := glide.Commit(server);
    SessionProperties.CommitFailure(session, respond);
    if outcome.Pass? {
      SessionProperties.CommitFinalizes(session, respond);
      SessionProperties.FinalizedAfter(log, Staging.Commit(session, respond).events);
    }
  }

  /** The last loop of `write` (destination.py:134-135): commits each client
      once, in the order the stream names were first met. A failed commit
      ends the loop. */
  method CommitAll(order: seq<string>, clients: map<string, RestStrategy>, server: Server)
    returns (outcome: Outcome)
    requires forall i, j :: 0 <= i < j < |order| ==> order[i] != order[j]
    requires forall n :: n in order <==> n in clients
    requires Distinct(clients)
    requires forall n :: n in clients ==> clients[n].initialized
    modifies clients.Values
    ensures forall n :: n in clients ==>
      clients[n].added == old(clients[n].added) && clients[n].commits <= old(clients[n].commits) + 1
    ensures outcome.Fail? ==> SessionProperties.CommitError(outcome.error)
    ensures outcome.Pass? ==> forall n :: n in clients ==>
      Committed(clients[n], old(clients[n].commits), old(clients[n].Settings()), old(clients[n].Consistent()))
  {
    for j := 0 to |order|
      invariant forall n :: n in clients ==> clients[n].initialized && clients[n].added == old(clients[n].added)
      invariant forall i :: 0 <= i < j ==>
        Committed(clients[order[i]], old(clients[order[i]].commits), old(clients[order[i]].Settings()),
                  old(clients[order[i]].Consistent()))
      invariant forall i :: j <= i < |order| ==> unchanged(clients[order[i]])
    {
      var glide := clients[order[j]];
      outcome := CommitClient(glide, server);
      if outcome.Fail? {
        return;
      }
    }
    forall n | n in clients
      ensures Committed(clients[n], old(clients[n].commits), old(clients[n].Settings()), old(clients[n].Consistent()))
    {
      var i :| 0 <= i < |order| && order[i] == n;
    }
    return Pass;
  }

  /** The message loop and the commit loop of `write` (destination.py:109-135)
      on clients that have not yet been given a row: when nothing fails,
      each client is committed once and its stash holds exactly the data of
      its stream's records. */
  method RouteAndCommit(messages: seq<Message>, order: seq<string>, clients: map<string, RestStrategy>,
                        server: Server)
    returns (outcome: Outcome)
    requires forall i, j :: 0 <= i < j < |order| ==> order[i] != order[j]
    requires forall n :: n in order <==> n in clients
    requires Distinct(clients)
    requires forall n :: n in clients ==>
      clients[n].initialized && clients[n].commits == 0 && clients[n].added == [] && clients[n].Consistent()
    modifies clients.Values
    ensures outcome.Fail? ==> outcome.error.PutRowsFailed? || SessionProperties.CommitError(outcome.error)
    ensures outcome.Pass? ==> forall n :: n in clients ==>
      clients[n].commits == 1 && clients[n].added == RecordsFor(messages, n)
      && Stashed(clients[n].events) == RecordsFor(messages, n)
    ensures outcome.Pass? ==> forall n :: n in clients ==>
      clients[n].Settings() == old(clients[n].Settings()) && SessionProperties.Finalized(clients[n].events)
  {
    outcome := RouteRecords(messages, clients.Keys, clients, server);
    if outcome.Fail? {
      return;
    }
    label routed:
    assert forall n :: n in clients ==>
      clients[n].commits == 0 && clients[n].Consistent() && clients[n].added == RecordsFor(messages, n)
      && clients[n].Settings() == old(clients[n].Settings());
    outcome := CommitAll(order, clients, server);
    if outcome.Pass? {
      forall n | n in clients
        ensures clients[n].commits == 1 && clients[n].added == RecordsFor(messages, n)
        ensures Stashed(clients[n].events) == RecordsFor(messages, n)
        ensures clients[n].Settings() == old(clients[n].Settings())
        ensures SessionProperties.Finalized(clients[n].events)
      {
        var c := clients[n];
        assert old@routed(c.commits) == 0 && old@routed(c.Consistent());
        assert Committed(c, 0, old@routed(c.Settings()), true);
        assert Stashed(c.events) == c.added;
      }
    }
  }

  /** The value of an optional setting, or `fallback` when it is absent. */
  function Setting(value: Option<string>, fallback: string): string {
    if value.Some? then value.value else fallback
  }

  /** `write`: on a stream that is not overwrite, raises before any request
      is made; otherwise, when nothing fails, every configured stream's
      client is committed exactly once, still holds the settings it was
      opened with, has its table created or overwritten last, and its stash
      holds exactly the data of that stream's records, in message order.
      Records of streams that are not configured reach no client. `clients`
      are the clients made. */
  method Write(apiKey: string, apiHost: Option<string>, apiPathRoot: Option<string>,
               catalog: seq<ConfiguredStream>, messages: seq<Message>, stashIdFor: nat -> string, server: Server)
    returns (outcome: Outcome, ghost clients: map<string, RestStrategy>)
    requires FreshIds(stashIdFor)
    ensures outcome.Fail? && outcome.error.UnsupportedSyncMode? <==> FirstNonOverwrite(catalog).Some?
    ensures FirstNonOverwrite(catalog).Some? ==>
      outcome == Fail(UnsupportedSyncMode(ModeName(FirstNonOverwrite(catalog).value)))
      && forall n :: n in clients ==> clients[n].events == []
    ensures outcome.Pass? ==> clients.Keys == StreamNames(catalog) && forall n :: n in clients ==>
      clients[n].commits == 1 && clients[n].added == RecordsFor(messages, n)
      && Stashed(clients[n].events) == RecordsFor(messages, n)
    ensures outcome.Pass? ==> forall n :: n in clients ==>
      var k := LastIndex(catalog, n);
      k >= 0 && SessionProperties.Finalized(clients[n].events)
      && clients[n].Settings()
         == Config(apiKey, Setting(apiHost, ConfigApiHostDefault), Setting(apiPathRoot, ConfigApiPathRootDefault),
                   n, SchemaColumns(catalog[k].properties), DefaultBatchSize)
    ensures outcome.Pass? ==> SeparateStashes(clients)
  {
    var host := Setting(apiHost, ConfigApiHostDefault);
    var root := Setting(apiPathRoot, ConfigApiPathRootDefault);
    var order, tableClients;
    outcome, order, tableClients := OpenClients(apiKey, host, root, catalog, stashIdFor);
    clients := tableClients;
    if outcome.Fail? {
      return;
    }
    DistinctStashIds(tableClients, catalog, apiKey, host, root, stashIdFor);
    assert forall n :: n in clients ==> clients[n].initialized && clients[n].Consistent() && clients[n].added == [];
    label made:
    outcome := RouteAndCommit(messages, order, tableClients, server);
    if outcome.Pass? {
      forall n | n in clients
        ensures var k := LastIndex(catalog, n);
          k >= 0 && clients[n].Settings()
                    == Config(apiKey, host, root, n, SchemaColumns(catalog[k].properties), DefaultBatchSize)
      {
        var k := LastIndex(catalog, n);
        assert old@made(Opened(clients[n], catalog[k], k, apiKey, host, root, stashIdFor));
        assert clients[n].Settings() == old@made(clients[n].Settings());
      }
    }
  }
}
