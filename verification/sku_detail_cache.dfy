/** The SKU-detail cache of `PurchaseEventManager`: each entry is stored as
    the text "<seconds>;<payload>", is read back only while younger than
    24 hours, is refreshed whenever it is returned by a fetch, and the whole
    namespace is wiped by a lazy sweep once more than 7 days have passed
    since its marker was last set. */
module SkuDetailCache {
  import opened Wrappers
  import opened JavaLong
  import opened Prefs
  import opened Seqs

  const SKU_DETAIL_EXPIRE_DURATION_SEC: int := 24 * 60 * 60
  const SKU_DETAIL_CACHE_CLEAR_DURATION_SEC: int := 7 * 24 * 60 * 60

  /** The detail namespace: the SKU entries and, kept apart from them, the
      time of the last wipe (`0` when no sweep has run yet). */
  datatype DetailStore = DetailStore(entries: Store, lastCleared: Long)

  // ---------------------------------------------------------------------
  // Entry text

  /** A decoded entry: when it was written and the detail payload. */
  datatype Entry = Entry(ts: Long, payload: string)

  /** What `writeSkuDetailsToCache` stores: `nowSec + ";" + payload`. */
  function EncodeEntry(ts: Long, payload: string): (raw: string)
    ensures DecodeEntry(raw) == Some(Entry(ts, payload))
  {
    var text := LongToString(ts);
    SplitAtFirst(text, payload);
    LongTextRoundTrip(ts);
    text + ";" + payload
  }

  /** The pieces of `s.split(";", 2)`: the text before the first ';' and,
      when there is a ';', everything after it. */
  datatype Split = Split(head: string, tail: Option<string>)

  function SplitFirst(s: string): (r: Split)
    ensures ';' !in r.head
    ensures r.tail.None? ==> r.head == s
    ensures r.tail.Some? ==> s == r.head + ";" + r.tail.value
  {
    if |s| == 0 then Split("", None)
    else if s[0] == ';' then Split("", Some(s[1..]))
    else
      var r := SplitFirst(s[1..]);
      Split([s[0]] + r.head, r.tail)
  }

  /** An entry whose timestamp parses and which has a payload part. */
  function DecodeEntry(raw: string): (r: Option<Entry>)
    ensures r.Some? <==> ';' in raw && ParseLong(SplitFirst(raw).head).Some?
    ensures r.Some? ==> ParseLong(SplitFirst(raw).head) == Some(r.value.ts)
    ensures r.Some? ==> raw == SplitFirst(raw).head + ";" + r.value.payload
  {
    var parts := SplitFirst(raw);
    match ParseLong(parts.head)
    case None => None
    case Some(ts) => if parts.tail.Some? then Some(Entry(ts, parts.tail.value)) else None
  }

  /** A text with no ';' before the first ';' is cut exactly there. */
  lemma {:induction false} SplitAtFirst(head: string, tail: string)
    requires ';' !in head
    ensures SplitFirst(head + ";" + tail) == Split(head, Some(tail))
    decreases |head|
  {
    var s := head + ";" + tail;
    if |head| > 0 {
      assert s[1..] == head[1..] + ";" + tail;
      SplitAtFirst(head[1..], tail);
      assert [head[0]] + head[1..] == head;
    } else {
      assert s[1..] == tail;
    }
  }

  /** The stored text decodes back to exactly the timestamp and payload
      written, whatever the payload contains (';' included). */
  lemma EntryRoundTrip(ts: Long, payload: string)
    ensures SplitFirst(EncodeEntry(ts, payload)) == Split(LongToString(ts), Some(payload))
    ensures DecodeEntry(EncodeEntry(ts, payload)) == Some(Entry(ts, payload))
  {
    var text := LongToString(ts);
    SplitAtFirst(text, payload);
    LongTextRoundTrip(ts);
  }

  // ---------------------------------------------------------------------
  // Reading

  /** What reading one requested SKU yields: nothing, its payload, or the
      exception the Java code throws (an unparsable timestamp, or a fresh
      entry without a ';'). A stale entry is skipped before its payload
      part is touched. */
  datatype Lookup = Miss | Hit(payload: string) | Crash

  /** The entry is fresh: strictly less than 24 hours old, the age being a
      `long` subtraction. */
  predicate IsFresh(nowSec: EpochSec, ts: Long) {
    LongSub(nowSec, ts) < SKU_DETAIL_EXPIRE_DURATION_SEC
  }

  /** One iteration of the read loop for `sku`. */
  function LookupEntry(entries: Store, sku: string, nowSec: EpochSec): (r: Lookup)
    ensures sku !in entries ==> r == Miss
    ensures sku in entries && DecodeEntry(entries[sku]).Some? ==>
      var e := DecodeEntry(entries[sku]).value;
      r == if IsFresh(nowSec, e.ts) then Hit(e.payload) else Miss
    ensures r.Crash? <==>
      sku in entries && DecodeEntry(entries[sku]).None? &&
      (ParseLong(SplitFirst(entries[sku]).head).Some? ==> IsFresh(nowSec, ParseLong(SplitFirst(entries[sku]).head).value))
  {
    if sku !in entries then Miss
    else
      var parts := SplitFirst(entries[sku]);
      match ParseLong(parts.head)
      case None => Crash
      case Some(ts) =>
        if !IsFresh(nowSec, ts) then Miss
        else if parts.tail.Some? then Hit(parts.tail.value)
        else Crash
  }

  /** `readSkuDetailsFromCache`: the fresh payloads of the requested SKUs,
      or `None` when the loop throws. */
  function ReadSkuDetailsFromCache(store: DetailStore, skuList: seq<string>, nowSec: EpochSec): (r: Option<map<string, string>>)
    ensures r.Some? <==> forall sku :: sku in skuList ==> !LookupEntry(store.entries, sku, nowSec).Crash?
    ensures r.Some? ==> forall sku :: sku in r.value <==> sku in skuList && LookupEntry(store.entries, sku, nowSec).Hit?
    ensures r.Some? ==> forall sku :: sku in r.value ==> r.value[sku] == LookupEntry(store.entries, sku, nowSec).payload
    decreases |skuList|
  {
    if |skuList| == 0 then Some(map[])
    else
      var sku := skuList[0];
      assert skuList == [sku] + skuList[1..];
      match LookupEntry(store.entries, sku, nowSec)
      case Crash => None
      case Miss => ReadSkuDetailsFromCache(store, skuList[1..], nowSec)
      case Hit(payload) =>
        match ReadSkuDetailsFromCache(store, skuList[1..], nowSec)
        case None => None
        case Some(rest) => Some(rest[sku := payload])
  }

  // ---------------------------------------------------------------------
  // Writing and fetching

  /** `writeSkuDetailsToCache`: every given SKU is (re)written with the
      current time; nothing else in the namespace changes. */
  function WriteSkuDetailsToCache(store: DetailStore, details: map<string, string>, nowSec: EpochSec): (r: DetailStore)
    ensures r.lastCleared == store.lastCleared
    ensures r.entries.Keys == store.entries.Keys + details.Keys
    ensures forall sku :: sku in details ==> DecodeEntry(r.entries[sku]) == Some(Entry(nowSec, details[sku]))
    ensures forall sku :: sku in store.entries && sku !in details ==> r.entries[sku] == store.entries[sku]
  {
    var written := map sku | sku in details :: EncodeEntry(nowSec, details[sku]);
    DetailStore(store.entries + written, store.lastCleared)
  }

  /** The requested SKUs that were not fresh hits, in request order and with
      their repetitions: the list handed to the billing library. */
  function Misses(skuList: seq<string>, cached: map<string, string>): (query: seq<string>)
    ensures Subseq(query, skuList)
    ensures forall sku :: multiset(query)[sku] == if sku in cached then 0 else multiset(skuList)[sku]
    decreases |skuList|
  {
    if |skuList| == 0 then []
    else
      var rest := Misses(skuList[1..], cached);
      assert skuList == [skuList[0]] + skuList[1..];
      if skuList[0] in cached then rest else [skuList[0]] + rest
  }

  /** The outcome of `getAndCacheSkuDetails`: the details returned, the
      namespace afterwards, and the SKU list the billing library was asked
      about. */
  datatype Fetched = Fetched(details: map<string, string>, store: DetailStore, query: seq<string>)

  /** `getAndCacheSkuDetails`, with the billing library's SKU-detail query
      as the oracle `billing`; `None` when the cache read throws. */
  function GetAndCacheSkuDetails(
    store: DetailStore, skuList: seq<string>, nowSec: EpochSec, billing: seq<string> -> map<string, string>): (r: Option<Fetched>)
    ensures r.Some? <==> ReadSkuDetailsFromCache(store, skuList, nowSec).Some?
    ensures r.Some? ==> Subseq(r.value.query, skuList)
    ensures r.Some? ==> forall sku ::
              multiset(r.value.query)[sku] == if LookupEntry(store.entries, sku, nowSec).Hit? then 0 else multiset(skuList)[sku]
    ensures r.Some? ==> forall sku :: sku in r.value.details <==>
      sku in billing(r.value.query) || (sku in skuList && LookupEntry(store.entries, sku, nowSec).Hit?)
    ensures r.Some? ==> forall sku :: sku in r.value.details ==>
      r.value.details[sku] ==
        if sku in billing(r.value.query) then billing(r.value.query)[sku]
        else LookupEntry(store.entries, sku, nowSec).payload
    ensures r.Some? ==> r.value.store == WriteSkuDetailsToCache(store, r.value.details, nowSec)
  {
    match ReadSkuDetailsFromCache(store, skuList, nowSec)
    case None => None
    case Some(cached) =>
      var query := Misses(skuList, cached);
      var details := cached + billing(query);
      assert forall sku :: multiset(skuList)[sku] > 0 <==> sku in skuList;
      Some(Fetched(details, WriteSkuDetailsToCache(store, details, nowSec), query))
  }

  // ---------------------------------------------------------------------
  // Maintenance sweep

  /** `clearAllSkuDetailsCache`: the first sweep only records the time; a
      later one wipes every entry once more than 7 days (a `long`
      subtraction) have passed since the last wipe. */
  function ClearAllSkuDetailsCache(store: DetailStore, nowSec: EpochSec): (r: DetailStore)
    ensures r == store || r.lastCleared == nowSec
    ensures r.entries == store.entries || r.entries == map[]
    ensures r.entries == map[] && store.entries != map[] ==>
      store.lastCleared != 0 && LongSub(nowSec, store.lastCleared) > SKU_DETAIL_CACHE_CLEAR_DURATION_SEC
  {
    if store.lastCleared == 0 then store.(lastCleared := nowSec)
    else if LongSub(nowSec, store.lastCleared) > SKU_DETAIL_CACHE_CLEAR_DURATION_SEC then DetailStore(map[], nowSec)
    else store
  }

  // ---------------------------------------------------------------------
  // Properties

  /** Every entry decodes, as every entry `writeSkuDetailsToCache` writes does. */
  predicate WellFormed(store: DetailStore) {
    forall sku :: sku in store.entries ==> DecodeEntry(store.entries[sku]).Some?
  }

  /** Reading a decodable entry: its payload while fresh, a miss afterwards. */
  lemma LookupDecodable(entries: Store, sku: string, nowSec: EpochSec)
    requires sku in entries && DecodeEntry(entries[sku]).Some?
    ensures var e := DecodeEntry(entries[sku]).value;
      LookupEntry(entries, sku, nowSec) == if IsFresh(nowSec, e.ts) then Hit(e.payload) else Miss
  {
  }

  /** For timestamps the SDK itself writes, freshness is the exact test
      `nowSec - ts < 86400`: an entry exactly 24 hours old is stale. */
  lemma FreshnessBoundary(nowSec: EpochSec, ts: EpochSec)
    ensures IsFresh(nowSec, ts) <==> nowSec - ts < 86400
  {
    EpochDifferenceExact(nowSec, ts);
  }

  /** On a well-formed namespace the read never throws, and it returns the
      payload of exactly the requested SKUs whose entry is fresh. */
  lemma ReadWellFormed(store: DetailStore, skuList: seq<string>, nowSec: EpochSec)
    requires WellFormed(store)
    ensures ReadSkuDetailsFromCache(store, skuList, nowSec).Some?
    ensures var m := ReadSkuDetailsFromCache(store, skuList, nowSec).value;
      forall sku :: sku in m <==>
        sku in skuList && sku in store.entries && IsFresh(nowSec, DecodeEntry(store.entries[sku]).value.ts)
    ensures var m := ReadSkuDetailsFromCache(store, skuList, nowSec).value;
      forall sku :: sku in m ==> m[sku] == DecodeEntry(store.entries[sku]).value.payload
  {
    forall sku | sku in store.entries
      ensures var e := DecodeEntry(store.entries[sku]).value;
        LookupEntry(store.entries, sku, nowSec) == if IsFresh(nowSec, e.ts) then Hit(e.payload) else Miss
    {
      LookupDecodable(store.entries, sku, nowSec);
    }
  }

  /** Writing keeps the namespace well-formed. */
  lemma WritePreservesWellFormed(store: DetailStore, details: map<string, string>, nowSec: EpochSec)
    requires WellFormed(store)
    ensures WellFormed(WriteSkuDetailsToCache(store, details, nowSec))
  {
  }

  /** What was just written reads back, at the same instant, as a hit with
      the payload written. */
  lemma WriteThenRead(store: DetailStore, details: map<string, string>, nowSec: EpochSec, sku: string)
    requires sku in details
    ensures LookupEntry(WriteSkuDetailsToCache(store, details, nowSec).entries, sku, nowSec) == Hit(details[sku])
  {
    var after := WriteSkuDetailsToCache(store, details, nowSec);
    LookupDecodable(after.entries, sku, nowSec);
    FreshnessBoundary(nowSec, nowSec);
  }

  /** A fetch refreshes every SKU it returns: a second fetch at the same
      instant asks the billing library only about the requested SKUs the
      first one could not resolve, and does not throw. */
  lemma SecondFetchAsksOnlyUnresolved(
    store: DetailStore, skuList: seq<string>, nowSec: EpochSec,
    billing: seq<string> -> map<string, string>, billingAgain: seq<string> -> map<string, string>)
    requires GetAndCacheSkuDetails(store, skuList, nowSec, billing).Some?
    ensures var first := GetAndCacheSkuDetails(store, skuList, nowSec, billing).value;
      var second := GetAndCacheSkuDetails(first.store, skuList, nowSec, billingAgain);
      && second.Some?
      && forall sku :: sku in second.value.query <==> sku in skuList && sku !in first.details
  {
    var first := GetAndCacheSkuDetails(store, skuList, nowSec, billing).value;
    forall sku | sku in skuList
      ensures LookupEntry(first.store.entries, sku, nowSec) ==
        if sku in first.details then Hit(first.details[sku]) else LookupEntry(store.entries, sku, nowSec)
      ensures !LookupEntry(first.store.entries, sku, nowSec).Crash?
    {
      if sku in first.details {
        WriteThenRead(store, first.details, nowSec, sku);
      }
    }
    var second := GetAndCacheSkuDetails(first.store, skuList, nowSec, billingAgain);
    assert second.Some?;
    forall sku
      ensures sku in second.value.query <==> sku in skuList && sku !in first.details
    {
      assert sku in second.value.query <==> multiset(second.value.query)[sku] > 0;
      assert sku in skuList <==> multiset(skuList)[sku] > 0;
    }
  }

  /** A fetch on a well-formed namespace succeeds and keeps it well-formed. */
  lemma FetchPreservesWellFormed(
    store: DetailStore, skuList: seq<string>, nowSec: EpochSec, billing: seq<string> -> map<string, string>)
    requires WellFormed(store)
    ensures GetAndCacheSkuDetails(store, skuList, nowSec, billing).Some?
    ensures WellFormed(GetAndCacheSkuDetails(store, skuList, nowSec, billing).value.store)
  {
    ReadWellFormed(store, skuList, nowSec);
  }

  /** The sweep, for a marker the SDK wrote itself (a clock reading): the
      first sweep records the time, a sweep more than 604800 s after the
      marker wipes the entries, and any other sweep changes nothing. */
  lemma ClearCases(store: DetailStore, nowSec: EpochSec)
    requires -MAX_EPOCH_SEC <= store.lastCleared <= MAX_EPOCH_SEC
    ensures store.lastCleared == 0 ==>
      ClearAllSkuDetailsCache(store, nowSec) == DetailStore(store.entries, nowSec)
    ensures store.lastCleared != 0 && nowSec - store.lastCleared > 604800 ==>
      ClearAllSkuDetailsCache(store, nowSec) == DetailStore(map[], nowSec)
    ensures store.lastCleared != 0 && nowSec - store.lastCleared <= 604800 ==>
      ClearAllSkuDetailsCache(store, nowSec) == store
  {
    EpochDifferenceExact(nowSec, store.lastCleared);
  }

  /** A second sweep at the same instant changes nothing. */
  lemma ClearIdempotent(store: DetailStore, nowSec: EpochSec)
    ensures var once := ClearAllSkuDetailsCache(store, nowSec);
      ClearAllSkuDetailsCache(once, nowSec) == once
  {
  }

  /** The sweep keeps the namespace well-formed. */
  lemma ClearPreservesWellFormed(store: DetailStore, nowSec: EpochSec)
    requires WellFormed(store)
    ensures WellFormed(ClearAllSkuDetailsCache(store, nowSec))
  {
  }
}
