/** The catch-all route of the harness API: every request, whatever its method
    and path, is checked against the configured API key and, when it passes,
    answered with the next stored record. */
module TestHarnessService {
  import opened Wrappers
  import opened DatabaseAdapter

  /** The configuration the service reads at start-up. */
  datatype Config = Config(tableName: string, apiKey: string)

  /** An inbound request. Header names are lower-case, as the HTTP framework
      delivers them. */
  datatype Request = Request(httpMethod: string, url: string, headers: map<string, string>)

  /** A reply body: one of the fixed text messages, or a record's response
      serialised as JSON. */
  datatype Body = Text(text: string) | Payload(json: Json)

  datatype Reply = Reply(status: int, body: Body)

  const ApiKeyHeader := "x-api-key"
  const MissingKeyMessage := "API key is missing"
  const NotAuthorisedMessage := "Not authorised"
  const ErrorMessage := "An error has occured"

  /** `request.headers['x-api-key']`, absent when the request has no such header. */
  function HeaderApiKey(request: Request): Option<string> {
    if ApiKeyHeader in request.headers then Some(request.headers[ApiKeyHeader]) else None
  }

  /** The two checks made before the store is touched: `Some` of the rejection
      reply, or `None` when the request may be served. An absent or empty
      header is missing (`!headerApiKey`); any other value must equal the
      configured key exactly. */
  function Authorise(config: Config, headerApiKey: Option<string>): (r: Option<Reply>)
    ensures r.None? <==> headerApiKey == Some(config.apiKey) && config.apiKey != ""
    ensures r == Some(Reply(401, Text(MissingKeyMessage))) <==> headerApiKey.None? || headerApiKey == Some("")
    ensures r == Some(Reply(403, Text(NotAuthorisedMessage))) <==>
              headerApiKey.Some? && headerApiKey.value != "" && headerApiKey.value != config.apiKey
  {
    if headerApiKey.None? || headerApiKey.value == "" then Some(Reply(401, Text(MissingKeyMessage)))
    else if headerApiKey.value != config.apiKey then Some(Reply(403, Text(NotAuthorisedMessage)))
    else None
  }

  /** The reply for the outcome of the store call: the record's own status and
      response, or a generic 500 that hides which error happened. */
  function ReplyFor(result: Result<DatabaseRecord, StoreError>): Reply {
    match result
    case Ok(record) => Reply(record.statusCode, Payload(record.response))
    case Err(_) => Reply(500, Text(ErrorMessage))
  }

  /** What one request does: the reply and the tables afterwards. */
  datatype Dispatched = Dispatched(reply: Reply, tables: map<string, seq<DatabaseRecord>>)

  /** The whole handler as a function of the request and the store's state. */
  function Dispatch(config: Config, request: Request, tables: map<string, seq<DatabaseRecord>>, faults: Faults): Dispatched {
    match Authorise(config, HeaderApiKey(request))
    case Some(rejection) => Dispatched(rejection, tables)
    case None =>
      var outcome := TakeNext(tables, config.tableName, faults);
      Dispatched(ReplyFor(outcome.result), outcome.tables)
  }

  /** The route handler registered for every method on every path. Errors thrown by
      the store are caught and answered with 500. */
  method Handle(config: Config, request: Request, db: Database, faults: Faults) returns (reply: Reply)
    requires db.Valid()
    modifies db
    ensures db.Valid()
    ensures reply == Dispatch(config, request, old(db.tables), faults).reply
    ensures db.tables == Dispatch(config, request, old(db.tables), faults).tables
  {
    var headerApiKey := HeaderApiKey(request);
    if headerApiKey.None? || headerApiKey.value == "" {
      return Reply(401, Text(MissingKeyMessage));
    }
    if headerApiKey.value != config.apiKey {
      return Reply(403, Text(NotAuthorisedMessage));
    }
    var result := db.GetAndDeleteLastRecord(config.tableName, faults);
    match result {
      case Ok(r) => reply := Reply(r.statusCode, Payload(r.response));
      case Err(_) => reply := Reply(500, Text(ErrorMessage));
    }
  }

  // ---------------------------------------------------------------------------
  // Properties of the handler
  // ---------------------------------------------------------------------------

  /** A request without a usable key gets 401 and consumes nothing; the body
      says the key is missing exactly when that is the case. */
  lemma MissingKeyRejected(config: Config, request: Request, tables: map<string, seq<DatabaseRecord>>, faults: Faults)
    ensures var h := HeaderApiKey(request);
            h.None? || h == Some("") ==>
              Dispatch(config, request, tables, faults) == Dispatched(Reply(401, Text(MissingKeyMessage)), tables)
    ensures Dispatch(config, request, tables, faults).reply.body == Text(MissingKeyMessage) <==>
              HeaderApiKey(request).None? || HeaderApiKey(request) == Some("")
  {
  }

  /** A request with a key other than the configured one gets 403 and consumes
      nothing; the body says so exactly when that is the case. */
  lemma WrongKeyRejected(config: Config, request: Request, tables: map<string, seq<DatabaseRecord>>, faults: Faults)
    ensures var h := HeaderApiKey(request);
            h.Some? && h.value != "" && h.value != config.apiKey ==>
              Dispatch(config, request, tables, faults) == Dispatched(Reply(403, Text(NotAuthorisedMessage)), tables)
    ensures Dispatch(config, request, tables, faults).reply.body == Text(NotAuthorisedMessage) <==>
              var h := HeaderApiKey(request);
              h.Some? && h.value != "" && h.value != config.apiKey
  {
  }

  /** The checks come before the store: a rejected request gives the same reply
      whatever the store holds and however it fails, and changes nothing. */
  lemma RejectionPrecedesStore(config: Config, request: Request,
                               tables1: map<string, seq<DatabaseRecord>>, faults1: Faults,
                               tables2: map<string, seq<DatabaseRecord>>, faults2: Faults)
    requires Authorise(config, HeaderApiKey(request)).Some?
    ensures Dispatch(config, request, tables1, faults1).reply == Dispatch(config, request, tables2, faults2).reply
    ensures Dispatch(config, request, tables1, faults1).tables == tables1
  {
  }

  /** With the configured key, the reply echoes the record served: its status
      and its response. That record is the minimum of the configured table and
      is the one removed from it. */
  lemma AuthorisedServesRecord(config: Config, request: Request, tables: map<string, seq<DatabaseRecord>>, faults: Faults)
    requires config.tableName in tables ==> KeysDistinct(tables[config.tableName])
    requires HeaderApiKey(request) == Some(config.apiKey) && config.apiKey != ""
    requires !faults.scanFails && !faults.deleteFails
    requires config.tableName in tables && |tables[config.tableName]| > 0
    ensures var d := Dispatch(config, request, tables, faults);
            var s := tables[config.tableName];
            var record := s[FirstMinIndex(s)];
            && d.reply == Reply(record.statusCode, Payload(record.response))
            && d.tables == tables[config.tableName := Take(s).value.rest]
            && multiset(d.tables[config.tableName]) == multiset(s) - multiset{record}
  {
    var s := tables[config.tableName];
    TakeServesMinimum(s);
    TakeRemovesServed(s);
  }

  /** With the configured key, any error of the store (an empty table, a failed
      scan, a failed delete) gives 500 with the fixed message, and the store is
      left as it was. */
  lemma StoreErrorGives500(config: Config, request: Request, tables: map<string, seq<DatabaseRecord>>, faults: Faults)
    requires config.tableName in tables ==> KeysDistinct(tables[config.tableName])
    requires HeaderApiKey(request) == Some(config.apiKey) && config.apiKey != ""
    requires faults.scanFails || faults.deleteFails || config.tableName !in tables || |tables[config.tableName]| == 0
    ensures Dispatch(config, request, tables, faults) == Dispatched(Reply(500, Text(ErrorMessage)), tables)
  {
    TakeNextEffect(tables, config.tableName, faults);
  }

  /** Only the configured table is ever touched, and one request consumes at
      most one record of it. */
  lemma OnlyConfiguredTable(config: Config, request: Request, tables: map<string, seq<DatabaseRecord>>, faults: Faults)
    requires config.tableName in tables ==> KeysDistinct(tables[config.tableName])
    ensures var after := Dispatch(config, request, tables, faults).tables;
            && after.Keys == tables.Keys
            && (forall name | name in tables && name != config.tableName :: after[name] == tables[name])
            && (config.tableName in tables ==>
                  |after[config.tableName]| == |tables[config.tableName]| ||
                  |after[config.tableName]| == |tables[config.tableName]| - 1)
  {
    TakeNextEffect(tables, config.tableName, faults);
    if config.tableName in tables && |tables[config.tableName]| > 0 {
      TakeRemovesServed(tables[config.tableName]);
    }
  }

  /** Method and path play no part: two requests with the same key header are
      handled alike. */
  lemma RouteAgnostic(config: Config, request1: Request, request2: Request,
                      tables: map<string, seq<DatabaseRecord>>, faults: Faults)
    requires HeaderApiKey(request1) == HeaderApiKey(request2)
    ensures Dispatch(config, request1, tables, faults) == Dispatch(config, request2, tables, faults)
  {
  }

  /** With no key configured (the configuration default is empty) no request is
      ever served. */
  lemma EmptyConfiguredKeyServesNothing(config: Config, request: Request,
                                        tables: map<string, seq<DatabaseRecord>>, faults: Faults)
    requires config.apiKey == ""
    ensures Dispatch(config, request, tables, faults).tables == tables
    ensures Dispatch(config, request, tables, faults).reply.status in {401, 403}
  {
  }
  /** The configuration of the service's own scenarios: table `test-table`,
      key `test-api-key`. */
  function ScenarioConfig(): Config {
    Config("test-table", "test-api-key")
  }

  /** `GET /` without a key header gets 401 `API key is missing`; with the
      key `wrong-key` it gets 403 `Not authorised`. */
  lemma ScenarioRejections(tables: map<string, seq<DatabaseRecord>>, faults: Faults)
    ensures Dispatch(ScenarioConfig(), Request("GET", "/", map[]), tables, faults)
              == Dispatched(Reply(401, Text("API key is missing")), tables)
    ensures Dispatch(ScenarioConfig(), Request("GET", "/", map["x-api-key" := "wrong-key"]), tables, faults)
              == Dispatched(Reply(403, Text("Not authorised")), tables)
  {
    assert "wrong-key"[0] != "test-api-key"[0];
  }

  /** With the right key and one record `{200, {message: "ok"}}` stored in
      `test-table`, `GET /` gets 200 with that body and empties the table. */
  lemma ScenarioServesRecord(pk: string, sk: int)
    ensures var record := DatabaseRecord(pk, sk, 200, JObject([("message", JString("ok"))]));
            var tables := map["test-table" := [record]];
            Dispatch(ScenarioConfig(), Request("GET", "/", map["x-api-key" := "test-api-key"]), tables, Faults(false, false))
              == Dispatched(Reply(200, Payload(JObject([("message", JString("ok"))]))), map["test-table" := []])
  {
    var record := DatabaseRecord(pk, sk, 200, JObject([("message", JString("ok"))]));
    assert SortBySk([record]) == [record];
    assert DeleteKey([record], pk, sk) == [];
  }

  /** With the right key, a store that throws gets 500 `An error has occured`. */
  lemma ScenarioStoreThrows(tables: map<string, seq<DatabaseRecord>>)
    ensures Dispatch(ScenarioConfig(), Request("GET", "/", map["x-api-key" := "test-api-key"]), tables, Faults(true, false))
              == Dispatched(Reply(500, Text("An error has occured")), tables)
  {
  }
}
