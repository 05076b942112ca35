# Purchase cache and table importer of the Treasure Data Android SDK, in Dafny

This project models two small pieces of the Treasure Data Android SDK and
proves properties of them.

- **Purchase and SKU-detail caching** (`PurchaseEventManager`). Two filters
  diff the purchases reported by the billing library against a persisted
  SKU -> purchase-token namespace. One filter handles in-app purchases, the
  other subscriptions. A purchase is forwarded when its token differs from
  the cached one, and the tokens of forwarded purchases are committed in one
  batch. The in-app filter also drops purchases older than 24 hours.
  SKU details are cached as `"<seconds>;<payload>"` text. A read treats
  entries 24 hours old or older as misses. A fetch asks the billing library
  only about the misses and rewrites every returned entry with the current
  time. A lazy sweep records the time in a marker on its first run and wipes
  the detail namespace once more than 7 days have passed since the marker
  was last set.
- **Table import** (`TdTableImporter.output`). It imports a payload. When
  the table does not exist, it creates the table and retries the import
  once.

Everything is pure functions over immutable values:

- Each SharedPreferences namespace is a `map<string, string>`. An editor is
  the list of its `putString` calls, committed by `Prefs.Apply`.
- The clock is a parameter `nowSec`. Its type `EpochSec` is the range of
  `System.currentTimeMillis() / 1000L`.
- JSON decoding of a purchase is an abstract parameter `parse`.
- The billing library's SKU-detail query is an abstract parameter `billing`.
- The API client is a scripted oracle `respond(n, call)`. `Output` returns
  the trace of calls made and how the call ended.

Modules:

- `Wrappers`: `Option`.
- `JavaLong`: the `long` range, wrap-around subtraction, truncating
  division, and `Long.toString` / `Long.parseLong`.
- `Seqs`: order-preserving subsequence.
- `Prefs`: namespaces and batched commits.
- `PurchaseFilter`: the two purchase filters.
- `SkuDetailCache`: the SKU-detail cache and its sweep.
- `TableImporter`: the import fallback ladder and the repository's mock client.

Behaviour of the code worth knowing, each stated by a lemma:

- The repository test `testImportTableWithDatabaseNotFound` expects a
  `cd:testdb` event, but the code has only a TODO for a missing database and
  lets the failed table creation propagate.
  `TableImporter.DatabaseNotFoundScenario` states what the code does in that
  scenario.
- The purchase namespace remembers only the latest token per SKU, so a token
  that was replaced in between is forwarded again.
  `PurchaseFilter.OnlyLatestTokenRemembered` states this.
- Within one list, two purchases for the same SKU are each compared with the
  token cached before the call; both are forwarded and the later token is
  cached. `PurchaseFilter.SameSkuTwiceInOneList` states this.

## Model

| member | source | states |
|---|---|---|
| JavaLong.MillisToSec | src/main/java/com/treasuredata/android/billing/internal/PurchaseEventManager.java:70 | `purchaseTimeMillis / 1000L` truncates toward zero: the result times 1000 is within one second of the input, on the side of zero |
| JavaLong.LongSub | src/main/java/com/treasuredata/android/billing/internal/PurchaseEventManager.java:151 | `long` subtraction is the exact difference reduced modulo 2^64 into the `long` range, and is the exact difference whenever that fits |
| JavaLong.LongToString | src/main/java/com/treasuredata/android/billing/internal/PurchaseEventManager.java:165 | `Long.toString(n)`: non-empty, a leading '-' exactly for negative values followed by at least one digit, and nothing but digits otherwise; `LongTextRoundTrip` is its inverse |
| JavaLong.ParseLong | src/main/java/com/treasuredata/android/billing/internal/PurchaseEventManager.java:150 | `Long.parseLong`: succeeds only on an optional sign followed by at least one digit and nothing else; a negative result needs a '-' and a '-' gives a non-positive result; `LongTextRoundTrip` is its partner |
| JavaLong.EpochDifferenceExact | src/main/java/com/treasuredata/android/billing/internal/PurchaseEventManager.java:180 | for two clock readings in seconds the `long` subtraction never wraps |
| JavaLong.LongTextRoundTrip | src/main/java/com/treasuredata/android/billing/internal/PurchaseEventManager.java:150 | `Long.parseLong` reads back every `long` exactly as `Long.toString` (used by the `nowSec + ";"` concatenation) wrote it |
| Prefs.ApplyLastWins | src/main/java/com/treasuredata/android/billing/internal/PurchaseEventManager.java:81-88 | after `apply()`, a key holds the value of its last `putString`; a key never put keeps its old value or stays absent |
| Prefs.GetStringAfterApply | src/main/java/com/treasuredata/android/billing/internal/PurchaseEventManager.java:74 | `getString(key, default)` after the commit is the last put value of the key, else what it was before |
| Prefs.Apply | src/main/java/com/treasuredata/android/billing/internal/PurchaseEventManager.java:88 | `editor.apply()` of the batched `putString` calls, in order; it carries no contract of its own and is characterised by `ApplyLastWins` (the same commit at :116 and :168) |
| Prefs.GetString | src/main/java/com/treasuredata/android/billing/internal/PurchaseEventManager.java:74 | `getString(key, default)`: the stored value, else the default (also at :102); no contract of its own, characterised after a commit by `GetStringAfterApply` |
| PurchaseFilter.Scan | src/main/java/com/treasuredata/android/billing/internal/PurchaseEventManager.java:64-86 | the forwarded records are an order-preserving subsequence of the input holding every occurrence of exactly the records the per-record decision accepts |
| PurchaseFilter.IsExpired | src/main/java/com/treasuredata/android/billing/internal/PurchaseEventManager.java:70 | a purchase is expired iff its time in milliseconds is before the cutoff `1000 * (nowSec - 86400)`, or 999 ms before that when `nowSec - 86400` is not positive, as truncating `/ 1000L` implies |
| PurchaseFilter.Candidate | src/main/java/com/treasuredata/android/billing/internal/PurchaseEventManager.java:66-81 | the put a record leads to: none when it does not decode or (in-app) has expired, else `sku -> token`; no contract of its own, characterised by `InappForwardedIff` and `SubsForwardedIff` |
| PurchaseFilter.Forwards | src/main/java/com/treasuredata/android/billing/internal/PurchaseEventManager.java:66-78 | the per-record decision: a candidate whose token differs from `getString(sku, "")` in the namespace as it was before the call; no contract of its own, characterised by `InappForwardedIff` and `SubsForwardedIff` |
| PurchaseFilter.FilterAndCache | src/main/java/com/treasuredata/android/billing/internal/PurchaseEventManager.java:60-91 | the forwarded list is the accepted subsequence, every forwarded record decodes, and the committed namespace is the old one with one put per forwarded record, in order |
| PurchaseFilter.FilterAndCachePurchasesInapp | src/main/java/com/treasuredata/android/billing/internal/PurchaseEventManager.java:60-91 | forwards, in order and with repetitions, exactly the records that decode, are at most 86400 s old and carry a token other than the one cached before the call (missing SKU = ""); commits one `sku -> token` put per forwarded record |
| PurchaseFilter.FilterAndCachePurchasesSubs | src/main/java/com/treasuredata/android/billing/internal/PurchaseEventManager.java:93-119 | the same without any age condition |
| PurchaseFilter.ScanMembership | src/main/java/com/treasuredata/android/billing/internal/PurchaseEventManager.java:64-86 | a record is forwarded iff it is in the input and accepted |
| PurchaseFilter.InappForwardedIff | src/main/java/com/treasuredata/android/billing/internal/PurchaseEventManager.java:64-82 | in-app: forwarded iff in the input, decodable, not older than 24 h and with a new token; undecodable records never appear |
| PurchaseFilter.SubsForwardedIff | src/main/java/com/treasuredata/android/billing/internal/PurchaseEventManager.java:96-110 | subscriptions: forwarded iff in the input, decodable and with a new token, however old |
| PurchaseFilter.InappAgeBoundary | src/main/java/com/treasuredata/android/billing/internal/PurchaseEventManager.java:70-72 | a decodable in-app record with a new token is forwarded iff `nowSec - purchaseTime/1000 <= 86400`, so a purchase exactly 24 h old is kept |
| PurchaseFilter.KnownTokenNotForwarded | src/main/java/com/treasuredata/android/billing/internal/PurchaseEventManager.java:74-78 | a record whose token equals `getString(sku, "")` is never forwarded by either filter; in particular an empty token for an unseen SKU |
| PurchaseFilter.CommitUntouched | src/main/java/com/treasuredata/android/billing/internal/PurchaseEventManager.java:81-88 | a SKU no forwarded record names is unchanged by the commit |
| PurchaseFilter.CommitLastWins | src/main/java/com/treasuredata/android/billing/internal/PurchaseEventManager.java:81-88 | the last forwarded record of a SKU sets its cached token |
| PurchaseFilter.InappUntouchedSku | src/main/java/com/treasuredata/android/billing/internal/PurchaseEventManager.java:81-88 | in-app: every SKU that no forwarded record names keeps its cached token or stays absent |
| PurchaseFilter.InappLastTokenWins | src/main/java/com/treasuredata/android/billing/internal/PurchaseEventManager.java:81-88 | in-app: the SKU of the last forwarded record naming it holds that record's token |
| PurchaseFilter.SubsUntouchedSku | src/main/java/com/treasuredata/android/billing/internal/PurchaseEventManager.java:109-116 | subscriptions: every SKU that no forwarded record names is unchanged |
| PurchaseFilter.SubsLastTokenWins | src/main/java/com/treasuredata/android/billing/internal/PurchaseEventManager.java:109-116 | subscriptions: the last forwarded record of a SKU sets its token |
| PurchaseFilter.InappExpiredNotCached | src/main/java/com/treasuredata/android/billing/internal/PurchaseEventManager.java:70-72 | when every decodable record naming a SKU is older than 24 h, that SKU's cached token is unchanged: dropped purchases are not written |
| PurchaseFilter.ScanIdempotent | src/main/java/com/treasuredata/android/billing/internal/PurchaseEventManager.java:74-88 | with at most one candidate record per SKU, rerunning a filter against the namespace it committed forwards nothing |
| PurchaseFilter.InappIdempotent | src/main/java/com/treasuredata/android/billing/internal/PurchaseEventManager.java:60-91 | in-app filter rerun on the same list, committed namespace and clock forwards nothing, when no two decodable records share a SKU |
| PurchaseFilter.SubsIdempotent | src/main/java/com/treasuredata/android/billing/internal/PurchaseEventManager.java:93-119 | the same for the subscription filter |
| PurchaseFilter.SameSkuTwiceInOneList | src/main/java/com/treasuredata/android/billing/internal/PurchaseEventManager.java:102-110 | two new tokens for one SKU in one list are both forwarded (each compared with the pre-call token) and the later one is cached |
| PurchaseFilter.SameSkuTwiceNotIdempotent | src/main/java/com/treasuredata/android/billing/internal/PurchaseEventManager.java:102-116 | in that case a rerun forwards the earlier record again, so idempotence needs one record per SKU |
| PurchaseFilter.OnlyLatestTokenRemembered | src/main/java/com/treasuredata/android/billing/internal/PurchaseEventManager.java:102-110 | across calls only the latest token per SKU is remembered: a token replaced in between is forwarded again |
| SkuDetailCache.SplitFirst | src/main/java/com/treasuredata/android/billing/internal/PurchaseEventManager.java:149 | `split(";", 2)`: the head has no ';', and the text is the head alone or head + ";" + tail |
| SkuDetailCache.SplitAtFirst | src/main/java/com/treasuredata/android/billing/internal/PurchaseEventManager.java:149 | a text whose first ';' follows a ';'-free head splits into exactly that head and the rest |
| SkuDetailCache.EncodeEntry | src/main/java/com/treasuredata/android/billing/internal/PurchaseEventManager.java:165 | the text `nowSec + ";" + value` decodes back to exactly that time and value |
| SkuDetailCache.DecodeEntry | src/main/java/com/treasuredata/android/billing/internal/PurchaseEventManager.java:149-150 | an entry decodes iff it contains ';' and the text before the first ';' parses as a `long`; the payload is everything after that ';' |
| SkuDetailCache.LookupEntry | src/main/java/com/treasuredata/android/billing/internal/PurchaseEventManager.java:147-153 | an absent SKU is a miss; a decodable entry is its payload while fresh, else a miss; the loop throws iff the entry is present, does not decode, and either its head does not parse or it is fresh (a stale entry without ';' is skipped) |
| SkuDetailCache.IsFresh | src/main/java/com/treasuredata/android/billing/internal/PurchaseEventManager.java:151 | the freshness test `nowSec - timeSec < 86400` with the wrapping `long` subtraction; no contract of its own, characterised by `FreshnessBoundary` |
| SkuDetailCache.EntryRoundTrip | src/main/java/com/treasuredata/android/billing/internal/PurchaseEventManager.java:149-165 | an entry written as `ts + ";" + payload` decodes to exactly `ts` and `payload`, even when the payload contains ';' |
| SkuDetailCache.ReadSkuDetailsFromCache | src/main/java/com/treasuredata/android/billing/internal/PurchaseEventManager.java:140-158 | throws iff some requested entry has an unparsable timestamp or is fresh without a payload part; otherwise returns exactly the requested SKUs with a fresh entry, mapped to their payloads; unrequested keys never appear |
| SkuDetailCache.LookupDecodable | src/main/java/com/treasuredata/android/billing/internal/PurchaseEventManager.java:147-153 | a decodable entry reads as its payload while fresh and as a miss afterwards |
| SkuDetailCache.FreshnessBoundary | src/main/java/com/treasuredata/android/billing/internal/PurchaseEventManager.java:151 | for SDK-written timestamps, fresh iff `nowSec - ts < 86400`; an entry exactly 24 h old is a miss |
| SkuDetailCache.ReadWellFormed | src/main/java/com/treasuredata/android/billing/internal/PurchaseEventManager.java:140-158 | on a namespace whose entries all decode, the read does not throw and returns the requested SKUs whose entry is fresh, with their payloads |
| SkuDetailCache.WriteSkuDetailsToCache | src/main/java/com/treasuredata/android/billing/internal/PurchaseEventManager.java:160-169 | every given SKU's entry decodes to the current time and its payload; every other key and the marker are unchanged |
| SkuDetailCache.WritePreservesWellFormed | src/main/java/com/treasuredata/android/billing/internal/PurchaseEventManager.java:160-169 | writing keeps every entry decodable |
| SkuDetailCache.WriteThenRead | src/main/java/com/treasuredata/android/billing/internal/PurchaseEventManager.java:160-169 | an entry just written reads back at the same instant as a hit with the written payload |
| SkuDetailCache.Misses | src/main/java/com/treasuredata/android/billing/internal/PurchaseEventManager.java:126-131 | the query list is the requested list, in order and with repetitions, minus the SKUs found in the cache |
| SkuDetailCache.GetAndCacheSkuDetails | src/main/java/com/treasuredata/android/billing/internal/PurchaseEventManager.java:121-138 | throws iff the read throws; asks the billing library exactly about the requested SKUs, in order, that were not fresh hits; returns the fresh hits overlaid with the billing answers; rewrites every returned SKU with time `nowSec` and leaves other keys alone |
| SkuDetailCache.SecondFetchAsksOnlyUnresolved | src/main/java/com/treasuredata/android/billing/internal/PurchaseEventManager.java:121-138 | a fetch refreshes all it returns: a second fetch at the same instant does not throw and asks only about requested SKUs the first one did not return |
| SkuDetailCache.FetchPreservesWellFormed | src/main/java/com/treasuredata/android/billing/internal/PurchaseEventManager.java:121-138 | on a well-formed namespace a fetch does not throw and leaves the namespace well-formed |
| SkuDetailCache.ClearAllSkuDetailsCache | src/main/java/com/treasuredata/android/billing/internal/PurchaseEventManager.java:171-186 | the sweep either changes nothing or sets the marker to `nowSec`; entries are kept or all removed, and removed only when a marker was set and more than 604800 s have passed |
| SkuDetailCache.ClearCases | src/main/java/com/treasuredata/android/billing/internal/PurchaseEventManager.java:175-185 | marker 0: record `nowSec`, keep entries; more than 604800 s since the marker: wipe and record `nowSec`; exactly 7 days or less: no change |
| SkuDetailCache.ClearIdempotent | src/main/java/com/treasuredata/android/billing/internal/PurchaseEventManager.java:171-186 | a second sweep at the same instant is a no-op |
| SkuDetailCache.ClearPreservesWellFormed | src/main/java/com/treasuredata/android/billing/internal/PurchaseEventManager.java:171-186 | the sweep keeps every entry decodable |
| TableImporter.Output | src/main/java/com/treasure_data/androidsdk/apiclient/TdTableImporter.java:17-26 | the trace is a prefix (1 to 3 calls) of import, createTable, import; every call but the last got NotFound then Ok in turn; the result is the last call's reply; a stop before the end is on a reply that does not continue the ladder |
| TableImporter.OutputCalls | src/main/java/com/treasure_data/androidsdk/apiclient/TdTableImporter.java:17-26 | no `createDatabase`; every call uses the given database and table, imports the given data; at most two imports and one table creation |
| TableImporter.ImportSucceedsFirstTime | src/main/java/com/treasure_data/androidsdk/apiclient/TdTableImporter.java:19-21 | a successful first import is the only call and the output succeeds |
| TableImporter.OtherErrorPropagates | src/main/java/com/treasure_data/androidsdk/apiclient/TdTableImporter.java:17-22 | any other first-import error propagates with no creation and no retry |
| TableImporter.TableNotFoundCreatesAndRetries | src/main/java/com/treasure_data/androidsdk/apiclient/TdTableImporter.java:22-26 | NotFound then a successful creation: trace import, createTable, import; the retry's reply, NotFound included, is the result |
| TableImporter.CreateFailurePropagates | src/main/java/com/treasure_data/androidsdk/apiclient/TdTableImporter.java:24 | a failed table creation propagates and no second import is made |
| TableImporter.OutputSucceedsIff | src/main/java/com/treasure_data/androidsdk/apiclient/TdTableImporter.java:19-26 | success iff the first import succeeds, or it reports NotFound and both the creation and the retry succeed |
| TableImporter.MockReply | src/test/java/com/treasure_data/androidsdk/apiclient/TdTableImporterTest.java:18-55 | the mock client fails a call with `FileNotFoundException` when its call number is in the list for that call kind, else succeeds; a definition with no contract of its own |
| TableImporter.EventText | src/test/java/com/treasure_data/androidsdk/apiclient/TdTableImporterTest.java:34-52 | the mock's event texts `cd:db`, `ct:db#table` and `it:db#table#data`, the data read as ASCII by `Latin1`; no contract of its own, characterised by `TestImportEventText` |
| TableImporter.MockEvents | src/test/java/com/treasure_data/androidsdk/apiclient/TdTableImporterTest.java:18-55 | the recorded events are an ordered subsequence of the calls' event texts: all of them when every call succeeds, none when every call fails |
| TableImporter.TestImportTableWithoutException | src/test/java/com/treasure_data/androidsdk/apiclient/TdTableImporterTest.java:66-74 | with the mock client and no errors, the only event is `it:testdb#testtable#testdata` |
| TableImporter.TestImportTableWithTableNotFound | src/test/java/com/treasure_data/androidsdk/apiclient/TdTableImporterTest.java:77-87 | with the first import failing, the events are `ct:testdb#testtable` then `it:testdb#testtable#testdata` |
| TableImporter.DatabaseNotFoundScenario | src/test/java/com/treasure_data/androidsdk/apiclient/TdTableImporterTest.java:89-102 | with call 0 and call 1 failing, the code propagates NotFound and records no event (the test's expected `cd:testdb` event is not produced by the code) |

## Left out

- `TDHttpHandler` is not part of this model. It is HTTP transport, TLS set-up from a bundled certificate, and DEFLATE compression through library classes. Its swallowed SSL failure, which leaves the SSL context null, is a defect noted here and not modelled.
- JSON decoding is the abstract `parse` parameter. The `Log.e` on a decoding failure is not modelled; only the skip is.
- `editor.apply()` is an atomic commit at the end of the loop. Asynchronous persistence and races between threads are out of scope.
- `getPurchasesInapp`, `getPurchaseHistoryInapp` and `getPurchasesSubs` are not modelled separately. They only pass the billing library's list to a filter.
- `BillingDelegate` is not visible. Its SKU-detail query is the uninterpreted `billing` oracle; its purchase lists are the filters' inputs.
- SkuDetailCache.GetAndCacheSkuDetails: the Java code reads the clock twice, once for the read and once for the write. The model uses one instant `nowSec` for both.
- The last-cleared marker shares the detail namespace in the Java code. Here it is a separate field. A SKU literally named `SKU_DETAIL_LAST_CLEARED_TIME` would collide with it in Java; that collision is not modelled.
- JavaLong.ParseLong: accepts only ASCII digits. Java's `Long.parseLong` also accepts other Unicode decimal digits. This matters only for entries the SDK never writes.
- PurchaseFilter.IsExpired: the age `nowSec - purchaseTime/1000` is computed on unbounded integers. It cannot overflow a `long`, because both operands are a `long` divided by 1000.
- The crash of `readSkuDetailsFromCache` on a malformed entry is modelled as `None`. The exception type is not modelled.
- TableImporter.Output: `IOException` and `ApiError` other than `FileNotFoundException` are one `OtherError` reply. `Log.i` is not modelled.
