# api-test-harness in Dafny

`api-test-harness` is a CDK construct. It deploys a DynamoDB table and a Lambda
behind a function URL. The Lambda answers every HTTP request with the next
response seeded into the table. This project models three parts of it:

- **The take-next store** (`getAndDeleteLastRecord`). It scans the table and sorts
  the items in place by their numeric sort key `sk`. It takes element 0, deletes
  that `(pk, sk)` key and returns the record. It throws when the scan finds
  nothing, or when the scan or the delete fails.
  - Module `DatabaseAdapter`, file `database_adapter.dfy`.
  - The client is the class `Database`, whose field `tables` maps each table name
    to the records a scan returns, in scan order.
  - `GetAndDeleteLastRecord` sorts a fresh `array` in place with a stable
    insertion sort (`SortInPlace`). It is proved equal to the function `TakeNext`.
  - The properties proved about one call (`TakeNext`): the minimum is served,
    exactly that record is removed, and an empty table fails.
  - Successive calls without faults (`CallMany`) are proved to be `TakeMany`,
    successive take-next steps on the scanned items (`CallsAreTakeMany`). About
    `TakeMany` it is proved that N calls drain N records in order, with call
    N + 1 failing.
- **The catch-all route handler** of the Fastify app.
  - Module `TestHarnessService`, file `test_harness_service.dfy`.
  - `Handle` checks the `x-api-key` header: missing or empty gives 401, a
    mismatch gives 403.
  - Otherwise it calls the store and echoes the record's status and response.
    Any store error becomes 500 with a fixed body.
  - `Handle` is proved equal to the function `Dispatch`.
- **Name and default derivation** in the `ApiTestHarness` constructor.
  - Module `HarnessNames`, file `harness_names.dfy`.
  - This covers the resource names built from stage, id and optional prefix, and
    the `||` defaults of the optional properties.

`Wrappers` (`wrappers.dfy`) holds `Option`, which stands for `undefined`, and
`Result`, which stands for a thrown error.

The success or failure of the two DynamoDB commands is a parameter (`Faults`),
since the persistence layer is not part of the model. A scan of a table name the
client does not know fails like any other scan fault. The table's key schema
`(pk, sk)` is the class invariant `Valid()`: keys are distinct within a table.

Three facts about the code that the model keeps:

- The code scans the whole table and orders every record by `sk`, whatever its
  `pk`. It does not order within one partition. The delete is unconditional and
  keyed by the served record's `pk` and `sk`.
- The configured API key defaults to the empty string, and the code then serves
  no request at all (`EmptyConfiguredKeyServesNothing`). No non-empty key is
  enforced.
- An empty `x-api-key` header counts as missing, not as wrong: it gives 401.

## Model

| member | source | states |
|---|---|---|
| DatabaseAdapter.Database.GetAndDeleteLastRecord | src/adapters/secondary/database-adapter/database-adapter.ts:18-54 | the call returns `TakeNext`'s result and leaves `TakeNext`'s tables, and it keeps keys distinct. It scans, sorts the items in place, takes element 0, deletes its key, and throws when empty or on a fault |
| DatabaseAdapter.Database.constructor | src/adapters/secondary/database-adapter/database-adapter.ts:16 | the client starts on the seeded tables, whose keys are distinct |
| DatabaseAdapter.SortInPlace | src/adapters/secondary/database-adapter/database-adapter.ts:34 | the in-place sort of the items leaves exactly the stable sort by ascending `sk` of what the array held |
| DatabaseAdapter.InsertInPlace | src/adapters/secondary/database-adapter/database-adapter.ts:34 | one pass drops `a[i]` into the sorted prefix, and the elements behind it stay as they were |
| DatabaseAdapter.SortPermutation | src/adapters/secondary/database-adapter/database-adapter.ts:34 | sorting only reorders: the multiset of records is unchanged |
| DatabaseAdapter.SortAscending | src/adapters/secondary/database-adapter/database-adapter.ts:34 | the sorted items are in ascending order of `sk` |
| DatabaseAdapter.InsertPermutation | src/adapters/secondary/database-adapter/database-adapter.ts:34 | one insertion adds exactly the inserted record |
| DatabaseAdapter.InsertAscending | src/adapters/secondary/database-adapter/database-adapter.ts:34 | one insertion keeps an ascending sequence ascending |
| DatabaseAdapter.InsertMembers | src/adapters/secondary/database-adapter/database-adapter.ts:34 | one insertion introduces no record other than the inserted one |
| DatabaseAdapter.InsertAt | src/adapters/secondary/database-adapter/database-adapter.ts:34 | the insertion puts the record behind the last one with a sort key at most its own, in front of the run of larger ones |
| DatabaseAdapter.FirstMinIndex | src/adapters/secondary/database-adapter/database-adapter.ts:34-35 | the index holds the smallest `sk`, and every earlier record has a strictly larger `sk` |
| DatabaseAdapter.SortHead | src/adapters/secondary/database-adapter/database-adapter.ts:34-35 | element 0 of the sorted items is the first record in scan order with the smallest `sk` |
| DatabaseAdapter.DeleteKeyMembers | src/adapters/secondary/database-adapter/database-adapter.ts:37-45 | after the delete of a key, a record is stored if and only if it was stored and has another key |
| DatabaseAdapter.DeleteAbsentKey | src/adapters/secondary/database-adapter/database-adapter.ts:37-45 | deleting a key no record has changes nothing |
| DatabaseAdapter.DeleteStoredKey | src/adapters/secondary/database-adapter/database-adapter.ts:37-45 | with distinct keys, deleting a stored record's key removes exactly that one record |
| DatabaseAdapter.DeleteKeepsKeysDistinct | src/adapters/secondary/database-adapter/database-adapter.ts:37-45 | a delete keeps keys distinct |
| DatabaseAdapter.DeleteKeepsSortKeysDistinct | src/adapters/secondary/database-adapter/database-adapter.ts:37-45 | a delete keeps sort keys distinct |
| DatabaseAdapter.TakeServesMinimum | src/adapters/secondary/database-adapter/database-adapter.ts:30-35 | take-next fails with `no items to retrieve` if and only if the table is empty. Otherwise it returns a stored record, unaltered, with the minimum `sk`, the first such in scan order |
| DatabaseAdapter.TakeRemovesServed | src/adapters/secondary/database-adapter/database-adapter.ts:37-47 | the table left is the old one minus exactly the served record, one shorter, keys still distinct |
| DatabaseAdapter.TakeKeepsOthers | src/adapters/secondary/database-adapter/database-adapter.ts:37-47 | a record is left stored if and only if it was stored and is not the one served |
| DatabaseAdapter.TakeManyServesInOrder | src/adapters/secondary/database-adapter/database-adapter.ts:30-49 | up to N calls on N records all succeed. Every record is served or still stored, the served come in ascending `sk`, and none is larger than one still stored |
| DatabaseAdapter.TakeManyStrictlyAscending | src/adapters/secondary/database-adapter/database-adapter.ts:34-35 | with distinct sort keys, successive calls serve strictly ascending `sk` |
| DatabaseAdapter.TakeManyOneTooMany | src/adapters/secondary/database-adapter/database-adapter.ts:30-49 | call N + 1 on N records throws `no items to retrieve` |
| DatabaseAdapter.DrainTable | src/adapters/secondary/database-adapter/database-adapter.ts:30-49 | N calls serve every record once, in ascending `sk` (strictly so with distinct sort keys), and leave the table empty; call N + 1 throws |
| DatabaseAdapter.SeededOutOfOrder | src/adapters/secondary/database-adapter/database-adapter.ts:34-35 | records seeded with sort keys 3, 1, 2 are served as 1, 2, 3, and a fourth call throws |
| DatabaseAdapter.TakeNextEffect | src/adapters/secondary/database-adapter/database-adapter.ts:21-53 | a failed call changes no table. A call succeeds if and only if neither command fails and the named table is non-empty. A success serves the minimum of that table, removes exactly it, and leaves every other table alone |
| DatabaseAdapter.CallsAreTakeMany | src/adapters/secondary/database-adapter/database-adapter.ts:21-53 | successive calls without faults on an existing table fail exactly when `TakeMany` does, with its error; otherwise they serve `TakeMany`'s records and replace that table by its remainder, leaving the other tables alone |
| DatabaseAdapter.DeleteFailureServesAgain | src/adapters/secondary/database-adapter/database-adapter.ts:45-53 | a failed delete returns no record and keeps the record stored, so the next call serves it |
| TestHarnessService.Handle | src/adapters/primary/api-test-harness-service.ts:12-37 | the handler's reply and the store's new state are those of `Dispatch`, and the client's invariant is kept |
| TestHarnessService.Authorise | src/adapters/primary/api-test-harness-service.ts:14-22 | 401 if and only if the header is absent or empty; 403 if and only if it is non-empty and differs from the configured key; passes if and only if it equals a non-empty configured key |
| TestHarnessService.MissingKeyRejected | src/adapters/primary/api-test-harness-service.ts:16-18 | a missing or empty key gives 401 `API key is missing` and changes nothing; that body comes exactly in that case |
| TestHarnessService.WrongKeyRejected | src/adapters/primary/api-test-harness-service.ts:20-22 | a wrong key gives 403 `Not authorised` and changes nothing; that body comes exactly in that case |
| TestHarnessService.RejectionPrecedesStore | src/adapters/primary/api-test-harness-service.ts:16-24 | a rejected request gets the same reply whatever the store holds and however it fails, and the store is unchanged |
| TestHarnessService.AuthorisedServesRecord | src/adapters/primary/api-test-harness-service.ts:24-32 | with the right key and a non-empty table, the reply is the minimum record's own status and response, and exactly that record is removed |
| TestHarnessService.StoreErrorGives500 | src/adapters/primary/api-test-harness-service.ts:33-36 | with the right key, an empty table, a missing table or a failed command gives 500 `An error has occured`, and the store is unchanged |
| TestHarnessService.OnlyConfiguredTable | src/adapters/primary/api-test-harness-service.ts:6-24 | only the configured table is touched, and it loses at most one record per request |
| TestHarnessService.RouteAgnostic | src/adapters/primary/api-test-harness-service.ts:12 | method and path play no part: equal key headers give equal outcomes |
| TestHarnessService.EmptyConfiguredKeyServesNothing | src/config/config.ts:16-21 | with the default empty key, every request gets 401 or 403 and nothing is consumed |
| TestHarnessService.ScenarioRejections | src/adapters/primary/api-test-harness-service.test.ts:22-46 | `GET /` without a key gets 401 `API key is missing`; with `wrong-key` it gets 403 `Not authorised` |
| TestHarnessService.ScenarioServesRecord | src/adapters/primary/api-test-harness-service.test.ts:49-67 | with the right key and one record `{200, {message: "ok"}}` in `test-table`, the reply is 200 with that body and the table is left empty |
| TestHarnessService.ScenarioStoreThrows | src/adapters/primary/api-test-harness-service.test.ts:70-84 | a store that throws gives 500 `An error has occured` |
| HarnessNames.OrDefault | src/index.ts:98 | the logical-or default of a string takes a non-empty value and otherwise the fallback; with a non-empty fallback the result is never empty |
| HarnessNames.NumberOrDefault | src/index.ts:139 | the logical-or default of a number takes a value other than 0, while absent or 0 gives the fallback |
| HarnessNames.DefaultConstructNames | tests/api-test-harness.test.ts:15-28 | the construct `Harness` at stage `dev` gets the table `api-test-harness-table-dev-Harness` and the function `api-test-harness-dev-Harness` |
| HarnessNames.DefaultConstructUrlParameter | tests/api-test-harness.test.ts:96-100 | its URL parameter is `/dev/api-test-harness-url-Harness` |
| HarnessNames.DefaultConstructKeyParameter | tests/api-test-harness.test.ts:103-107 | its API-key parameter is `/dev/api-test-harness-api-key-Harness` |
| HarnessNames.DefaultConstructSettings | src/index.ts:119-139 | without options it gets log level `DEBUG`, log event, trace and capture `true`, sample rate `1`, the latest Node.js runtime and 1024 MB; the entry override is taken |
| HarnessNames.DefaultConstructServiceNames | src/index.ts:125-127 | its service name is `api-test-harness-service-dev-Harness` and its metrics namespace is `api-test-harness-dev-Harness` |
| HarnessNames.ConstructWithOptionsNames | tests/api-test-harness.test.ts:116-125 | with the prefix `custom-prefix`, the table is `custom-prefix-table-test-HarnessWithOptions` |
| HarnessNames.ConstructWithOptionsSettings | tests/api-test-harness.test.ts:116-137 | given options win over defaults (log level, sample rate, runtime, memory size) and an unset log event keeps `true` |
| HarnessNames.SettingsNeverEmpty | src/index.ts:98-139 | every defaulted setting is non-empty whatever is passed, because an empty string or 0 falls back |
| HarnessNames.NamesDistinct | src/index.ts:103-106 | the table name differs from the function name, and the URL parameter differs from the key parameter |
| HarnessNames.TableNameDeterminesSuffix | src/index.ts:97-103 | for one prefix, the table name determines `stage-id` |
| HarnessNames.SuffixCollision | src/index.ts:97-106 | stage `dev-a` with id `b`, and stage `dev` with id `a-b`, share the table and function names; their parameter names differ |

## Left out

- CDK resource declarations (index.ts lines 108-118 and 140-191): the table, the function, its permission, URL, environment, description, output, parameters and tags. They declare infrastructure and compute nothing beyond the names modelled.
- The API key itself (index.ts line 101) is a UUID v5 of `stage-id`, a SHA-1 based library call. It is not modelled. Since it depends only on `stage-id`, the constructs of `SuffixCollision` would also share a key.
- `path.join(__dirname, …)` for the entry: the model keeps the relative entry path.
- The DynamoDB SDK (`ScanCommand`, `DeleteItemCommand`, `unmarshall`): the model replaces it with the `tables` map and the `Faults` parameter.
- Scan paging: the source reads one scan page. The model takes the scan to return the whole table in a fixed order. An absent `Items` is treated like an empty one.
- DatabaseAdapter.TakeManyServesInOrder, DatabaseAdapter.TakeManyStrictlyAscending, DatabaseAdapter.TakeManyOneTooMany, DatabaseAdapter.DrainTable, DatabaseAdapter.SeededOutOfOrder, DatabaseAdapter.CallsAreTakeMany: every scan is taken to see every earlier delete, as a strongly consistent read would. The source's scan (database-adapter.ts lines 22-24) sets no `ConsistentRead`, so DynamoDB reads eventually consistently: a scan soon after a delete may still return the deleted record, which would then be served a second time. These lemmas state what holds when every scan is consistent.
- DatabaseAdapter.DeleteFailureServesAgain, DatabaseAdapter.TakeNextEffect, TestHarnessService.StoreErrorGives500: a delete that throws is taken to have removed nothing. In the source a delete that times out or loses its response may still have been applied, and the record may then not be served again.
- Concurrency: two concurrent calls can serve the same record before either delete lands. The model runs calls one after another.
- JavaScript numbers: `sk`, `statusCode` and the memory size are unbounded integers. NaN, fractions and the overflow of `a.sk - b.sk` are not modelled.
- Fastify: request parsing, reply serialisation and the check that `reply.status` makes on the status code are not modelled. A record's status is echoed as is. A header carried more than once (an array value) is not modelled.
- Configuration loading (`convict`) and logging: the configuration is the `Config` value given to `Handle`, and logging has no effect on results.
- DatabaseAdapter.Database.GetAndDeleteLastRecord: the error value thrown by a failing command is reduced to `ScanFailed` or `DeleteFailed`, without its message.
