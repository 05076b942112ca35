/** The purchase de-duplication of `PurchaseEventManager`: a list of raw
    purchase records from the billing library is diffed against a cached
    SKU -> purchase-token namespace; purchases with a new token are
    forwarded and their tokens written back in one batched commit.
    The in-app filter additionally drops purchases older than 24 hours. */
module PurchaseFilter {
  import opened Wrappers
  import opened JavaLong
  import opened Prefs
  import opened Seqs

  const PURCHASE_EXPIRE_DURATION_SEC: int := 24 * 60 * 60

  /** The fields the in-app filter reads from a purchase record. */
  datatype InappPurchase = InappPurchase(sku: string, token: string, timeMillis: Long)

  /** The fields the subscription filter reads from a purchase record. */
  datatype SubsPurchase = SubsPurchase(sku: string, token: string)

  /** Which filter runs, with its record decoder (`None` where the record is
      not a JSON object with the required fields) and, in-app, the clock. */
  datatype Policy =
    | Inapp(parseInapp: string -> Option<InappPurchase>, nowSec: EpochSec)
    | Subs(parseSubs: string -> Option<SubsPurchase>)

  /** What a filter hands back: the forwarded raw records and the namespace
      after the commit. */
  datatype Filtered = Filtered(forwarded: seq<string>, prefs: Store)

  /** Older than the in-app window; the age is computed in whole seconds
      with the purchase time truncated toward zero, and cannot overflow a
      `long` because both operands are a `long` divided by 1000. */
  function IsExpired(nowSec: EpochSec, p: InappPurchase): (expired: bool)
    ensures expired <==> p.timeMillis < ExpiryCutoffMillis(nowSec)
  {
    nowSec - MillisToSec(p.timeMillis) > PURCHASE_EXPIRE_DURATION_SEC
  }

  /** The earliest purchase time, in milliseconds, the in-app window keeps.
      When that second is not positive, the truncation toward zero keeps
      999 ms more. */
  function ExpiryCutoffMillis(nowSec: EpochSec): int {
    var k := nowSec - PURCHASE_EXPIRE_DURATION_SEC;
    if k >= 1 then 1000 * k else 1000 * k - 999
  }

  /** The SKU -> token write a raw record leads to when its token is new;
      `None` when it does not decode or, in-app, has expired. */
  function Candidate(policy: Policy, raw: string): Option<Put> {
    match policy
    case Inapp(parse, nowSec) =>
      (match parse(raw)
       case None => None
       case Some(p) => if IsExpired(nowSec, p) then None else Some(Put(p.sku, p.token)))
    case Subs(parse) =>
      (match parse(raw)
       case None => None
       case Some(p) => Some(Put(p.sku, p.token)))
  }

  /** Every record of `raws` leads to a cache write. */
  predicate AllCandidates(policy: Policy, raws: seq<string>) {
    forall i :: 0 <= i < |raws| ==> Candidate(policy, raws[i]).Some?
  }

  /** The per-record decision, taken against the namespace as it was when
      the call started (the editor's puts are invisible until the commit);
      a SKU with no cached token compares as the empty token. */
  predicate Forwards(policy: Policy, snapshot: Store, raw: string) {
    && Candidate(policy, raw).Some?
    && GetString(snapshot, Candidate(policy, raw).value.key, "") != Candidate(policy, raw).value.value
  }

  /** The loop over the records: the forwarded records are exactly those the
      decision accepts, every occurrence of them, in input order. */
  function Scan(policy: Policy, snapshot: Store, purchases: seq<string>): (fw: seq<string>)
    ensures Subseq(fw, purchases)
    ensures AllCandidates(policy, fw)
    ensures forall i :: 0 <= i < |fw| ==> Forwards(policy, snapshot, fw[i])
    ensures forall raw ::
              multiset(fw)[raw] == if Forwards(policy, snapshot, raw) then multiset(purchases)[raw] else 0
    decreases |purchases|
  {
    if |purchases| == 0 then []
    else
      var rest := Scan(policy, snapshot, purchases[1..]);
      assert purchases == [purchases[0]] + purchases[1..];
      if Forwards(policy, snapshot, purchases[0]) then [purchases[0]] + rest else rest
  }

  /** The editor's puts: one `putString(sku, token)` per forwarded record. */
  function WritesOf(policy: Policy, forwarded: seq<string>): (puts: seq<Put>)
    requires AllCandidates(policy, forwarded)
    ensures |puts| == |forwarded|
    ensures forall i :: 0 <= i < |forwarded| ==> puts[i] == Candidate(policy, forwarded[i]).value
  {
    seq(|forwarded|, i requires 0 <= i < |forwarded| => Candidate(policy, forwarded[i]).value)
  }

  /** One filter call: scan, then commit the puts of the forwarded records. */
  function FilterAndCache(policy: Policy, purchases: seq<string>, prefs: Store): (r: Filtered)
    ensures Subseq(r.forwarded, purchases)
    ensures AllCandidates(policy, r.forwarded)
    ensures forall i :: 0 <= i < |r.forwarded| ==> Forwards(policy, prefs, r.forwarded[i])
    ensures forall raw ::
              multiset(r.forwarded)[raw] == if Forwards(policy, prefs, raw) then multiset(purchases)[raw] else 0
    ensures r.prefs == Apply(prefs, WritesOf(policy, r.forwarded))
  {
    var fw := Scan(policy, prefs, purchases);
    Filtered(fw, Apply(prefs, WritesOf(policy, fw)))
  }

  // ---------------------------------------------------------------------
  // The two filters, stated in terms of the decoded purchase

  /** The in-app decision: decodes, is at most 24 hours old, and carries a
      token different from the cached one. */
  predicate InappForwards(parse: string -> Option<InappPurchase>, prefs: Store, nowSec: EpochSec, raw: string) {
    && parse(raw).Some?
    && nowSec - MillisToSec(parse(raw).value.timeMillis) <= PURCHASE_EXPIRE_DURATION_SEC
    && GetString(prefs, parse(raw).value.sku, "") != parse(raw).value.token
  }

  /** The subscription decision: decodes and carries a new token; no age check. */
  predicate SubsForwards(parse: string -> Option<SubsPurchase>, prefs: Store, raw: string) {
    && parse(raw).Some?
    && GetString(prefs, parse(raw).value.sku, "") != parse(raw).value.token
  }

  /** `filterAndCachePurchasesInapp`. */
  function FilterAndCachePurchasesInapp(
    purchases: seq<string>, parse: string -> Option<InappPurchase>, prefs: Store, nowSec: EpochSec): (r: Filtered)
    ensures Subseq(r.forwarded, purchases)
    ensures forall raw ::
              multiset(r.forwarded)[raw] == if InappForwards(parse, prefs, nowSec, raw) then multiset(purchases)[raw] else 0
    ensures forall i :: 0 <= i < |r.forwarded| ==> InappForwards(parse, prefs, nowSec, r.forwarded[i])
    ensures AllCandidates(Inapp(parse, nowSec), r.forwarded)
    ensures r.prefs == Apply(prefs, WritesOf(Inapp(parse, nowSec), r.forwarded))
  {
    var r := FilterAndCache(Inapp(parse, nowSec), purchases, prefs);
    assert forall raw :: Forwards(Inapp(parse, nowSec), prefs, raw) == InappForwards(parse, prefs, nowSec, raw);
    r
  }

  /** `filterAndCachePurchasesSubs`. */
  function FilterAndCachePurchasesSubs(
    purchases: seq<string>, parse: string -> Option<SubsPurchase>, prefs: Store): (r: Filtered)
    ensures Subseq(r.forwarded, purchases)
    ensures forall raw ::
              multiset(r.forwarded)[raw] == if SubsForwards(parse, prefs, raw) then multiset(purchases)[raw] else 0
    ensures forall i :: 0 <= i < |r.forwarded| ==> SubsForwards(parse, prefs, r.forwarded[i])
    ensures AllCandidates(Subs(parse), r.forwarded)
    ensures r.prefs == Apply(prefs, WritesOf(Subs(parse), r.forwarded))
  {
    var r := FilterAndCache(Subs(parse), purchases, prefs);
    assert forall raw :: Forwards(Subs(parse), prefs, raw) == SubsForwards(parse, prefs, raw);
    r
  }

  // ---------------------------------------------------------------------
  // Properties

  /** Multiset bookkeeping: a record is forwarded iff it is in the input
      and the decision accepts it. */
  lemma ScanMembership(policy: Policy, snapshot: Store, purchases: seq<string>, raw: string)
    ensures raw in Scan(policy, snapshot, purchases) <==> raw in purchases && Forwards(policy, snapshot, raw)
  {
    var fw := Scan(policy, snapshot, purchases);
    assert raw in fw <==> multiset(fw)[raw] > 0;
    assert raw in purchases <==> multiset(purchases)[raw] > 0;
  }

  /** After the commit, a SKU that no forwarded record names is left as it was. */
  lemma CommitUntouched(policy: Policy, forwarded: seq<string>, prefs: Store, key: string)
    requires AllCandidates(policy, forwarded)
    requires forall i :: 0 <= i < |forwarded| ==> Candidate(policy, forwarded[i]).value.key != key
    ensures var after := Apply(prefs, WritesOf(policy, forwarded));
      (key in after <==> key in prefs) && (key in prefs ==> after[key] == prefs[key])
  {
    ApplyLastWins(prefs, WritesOf(policy, forwarded), key);
  }

  /** After the commit, a SKU holds the token of the last forwarded record naming it. */
  lemma CommitLastWins(policy: Policy, forwarded: seq<string>, prefs: Store, i: nat)
    requires AllCandidates(policy, forwarded)
    requires i < |forwarded|
    requires forall j :: i < j < |forwarded| ==>
      Candidate(policy, forwarded[j]).value.key != Candidate(policy, forwarded[i]).value.key
    ensures var after := Apply(prefs, WritesOf(policy, forwarded));
      var c := Candidate(policy, forwarded[i]).value;
      c.key in after && after[c.key] == c.value
  {
    var puts := WritesOf(policy, forwarded);
    LastPutAt(puts, i);
    ApplyLastWins(prefs, puts, puts[i].key);
  }

  /** Two records with a candidate write for the same SKU are the same
      record, when the input names each SKU at most once. */
  predicate DistinctSkus(policy: Policy, purchases: seq<string>) {
    forall i, j ::
      0 <= i < |purchases| && 0 <= j < |purchases| && i != j &&
      Candidate(policy, purchases[i]).Some? && Candidate(policy, purchases[j]).Some? ==>
        Candidate(policy, purchases[i]).value.key != Candidate(policy, purchases[j]).value.key
  }

  /** Running a filter again on the same input, against the namespace the
      first run committed, forwards nothing. */
  lemma ScanIdempotent(policy: Policy, prefs: Store, purchases: seq<string>)
    requires DistinctSkus(policy, purchases)
    ensures var first := FilterAndCache(policy, purchases, prefs);
      FilterAndCache(policy, purchases, first.prefs).forwarded == []
  {
    var fw := Scan(policy, prefs, purchases);
    var puts := WritesOf(policy, fw);
    var after := Apply(prefs, puts);
    forall raw | raw in purchases
      ensures !Forwards(policy, after, raw)
    {
      if Candidate(policy, raw).Some? {
        var c := Candidate(policy, raw).value;
        GetStringAfterApply(prefs, puts, c.key, "");
        match LastPut(puts, c.key)
        case Some(v) =>
          var i :| 0 <= i < |puts| && puts[i] == Put(c.key, v);
          assert fw[i] in fw;
          ScanMembership(policy, prefs, purchases, fw[i]);
          var a :| 0 <= a < |purchases| && purchases[a] == raw;
          var b :| 0 <= b < |purchases| && purchases[b] == fw[i];
          assert a == b;
        case None =>
          ScanMembership(policy, prefs, purchases, raw);
      }
    }
    var again := Scan(policy, after, purchases);
    if |again| > 0 {
      ScanMembership(policy, after, purchases, again[0]);
    }
  }

  /** In-app membership: forwarded iff in the input, decodable, at most 24 h
      old, and carrying a token other than the cached one. */
  lemma InappForwardedIff(purchases: seq<string>, parse: string -> Option<InappPurchase>, prefs: Store, nowSec: EpochSec, raw: string)
    ensures raw in FilterAndCachePurchasesInapp(purchases, parse, prefs, nowSec).forwarded <==>
      raw in purchases && InappForwards(parse, prefs, nowSec, raw)
  {
    ScanMembership(Inapp(parse, nowSec), prefs, purchases, raw);
  }

  /** Subscription membership: the same without any age condition. */
  lemma SubsForwardedIff(purchases: seq<string>, parse: string -> Option<SubsPurchase>, prefs: Store, raw: string)
    ensures raw in FilterAndCachePurchasesSubs(purchases, parse, prefs).forwarded <==>
      raw in purchases && SubsForwards(parse, prefs, raw)
  {
    ScanMembership(Subs(parse), prefs, purchases, raw);
  }

  /** The age boundary is inclusive: for a decodable in-app record with a
      new token, it is forwarded exactly when it is at most 86400 s old. */
  lemma InappAgeBoundary(
    purchases: seq<string>, parse: string -> Option<InappPurchase>, prefs: Store, nowSec: EpochSec, raw: string)
    requires raw in purchases && parse(raw).Some?
    requires GetString(prefs, parse(raw).value.sku, "") != parse(raw).value.token
    ensures raw in FilterAndCachePurchasesInapp(purchases, parse, prefs, nowSec).forwarded <==>
      nowSec - MillisToSec(parse(raw).value.timeMillis) <= 86400
  {
    InappForwardedIff(purchases, parse, prefs, nowSec, raw);
  }

  /** A record whose token equals the cached one (an unseen SKU counting
      as the empty token) is never forwarded, by either filter. */
  lemma KnownTokenNotForwarded(
    purchases: seq<string>, parseInapp: string -> Option<InappPurchase>, parseSubs: string -> Option<SubsPurchase>,
    prefs: Store, nowSec: EpochSec, raw: string)
    ensures parseInapp(raw).Some? && GetString(prefs, parseInapp(raw).value.sku, "") == parseInapp(raw).value.token ==>
      raw !in FilterAndCachePurchasesInapp(purchases, parseInapp, prefs, nowSec).forwarded
    ensures parseSubs(raw).Some? && GetString(prefs, parseSubs(raw).value.sku, "") == parseSubs(raw).value.token ==>
      raw !in FilterAndCachePurchasesSubs(purchases, parseSubs, prefs).forwarded
    ensures parseInapp(raw).Some? && parseInapp(raw).value.token == "" && parseInapp(raw).value.sku !in prefs ==>
      raw !in FilterAndCachePurchasesInapp(purchases, parseInapp, prefs, nowSec).forwarded
  {
    InappForwardedIff(purchases, parseInapp, prefs, nowSec, raw);
    SubsForwardedIff(purchases, parseSubs, prefs, raw);
  }

  /** In-app cache update: a SKU that no forwarded record names keeps its
      cached token (or stays absent). */
  lemma InappUntouchedSku(
    purchases: seq<string>, parse: string -> Option<InappPurchase>, prefs: Store, nowSec: EpochSec, key: string)
    requires var r := FilterAndCachePurchasesInapp(purchases, parse, prefs, nowSec);
      forall i :: 0 <= i < |r.forwarded| ==> parse(r.forwarded[i]).value.sku != key
    ensures var r := FilterAndCachePurchasesInapp(purchases, parse, prefs, nowSec);
      (key in r.prefs <==> key in prefs) && (key in prefs ==> r.prefs[key] == prefs[key])
  {
    var r := FilterAndCachePurchasesInapp(purchases, parse, prefs, nowSec);
    CommitUntouched(Inapp(parse, nowSec), r.forwarded, prefs, key);
  }

  /** In-app cache update: the last forwarded record of a SKU sets its token. */
  lemma InappLastTokenWins(
    purchases: seq<string>, parse: string -> Option<InappPurchase>, prefs: Store, nowSec: EpochSec, i: nat)
    requires var r := FilterAndCachePurchasesInapp(purchases, parse, prefs, nowSec);
      && i < |r.forwarded|
      && forall j :: i < j < |r.forwarded| ==> parse(r.forwarded[j]).value.sku != parse(r.forwarded[i]).value.sku
    ensures var r := FilterAndCachePurchasesInapp(purchases, parse, prefs, nowSec);
      var p := parse(r.forwarded[i]).value;
      p.sku in r.prefs && r.prefs[p.sku] == p.token
  {
    var r := FilterAndCachePurchasesInapp(purchases, parse, prefs, nowSec);
    var policy := Inapp(parse, nowSec);
    forall j | i < j < |r.forwarded|
      ensures Candidate(policy, r.forwarded[j]).value.key != Candidate(policy, r.forwarded[i]).value.key
    {
      assert Candidate(policy, r.forwarded[j]).Some?;
    }
    CommitLastWins(policy, r.forwarded, prefs, i);
  }

  /** Subscription cache update: an SKU no forwarded record names is unchanged. */
  lemma SubsUntouchedSku(purchases: seq<string>, parse: string -> Option<SubsPurchase>, prefs: Store, key: string)
    requires var r := FilterAndCachePurchasesSubs(purchases, parse, prefs);
      forall i :: 0 <= i < |r.forwarded| ==> parse(r.forwarded[i]).value.sku != key
    ensures var r := FilterAndCachePurchasesSubs(purchases, parse, prefs);
      (key in r.prefs <==> key in prefs) && (key in prefs ==> r.prefs[key] == prefs[key])
  {
    var r := FilterAndCachePurchasesSubs(purchases, parse, prefs);
    CommitUntouched(Subs(parse), r.forwarded, prefs, key);
  }

  /** Subscription cache update: the last forwarded record of a SKU sets its token. */
  lemma SubsLastTokenWins(purchases: seq<string>, parse: string -> Option<SubsPurchase>, prefs: Store, i: nat)
    requires var r := FilterAndCachePurchasesSubs(purchases, parse, prefs);
      && i < |r.forwarded|
      && forall j :: i < j < |r.forwarded| ==> parse(r.forwarded[j]).value.sku != parse(r.forwarded[i]).value.sku
    ensures var r := FilterAndCachePurchasesSubs(purchases, parse, prefs);
      var p := parse(r.forwarded[i]).value;
      p.sku in r.prefs && r.prefs[p.sku] == p.token
  {
    var r := FilterAndCachePurchasesSubs(purchases, parse, prefs);
    var policy := Subs(parse);
    forall j | i < j < |r.forwarded|
      ensures Candidate(policy, r.forwarded[j]).value.key != Candidate(policy, r.forwarded[i]).value.key
    {
      assert Candidate(policy, r.forwarded[j]).Some?;
    }
    CommitLastWins(policy, r.forwarded, prefs, i);
  }

  /** An expired in-app purchase is not written: when every decodable record
      naming `key` is older than 24 h, the cached token of `key` is unchanged. */
  lemma InappExpiredNotCached(
    purchases: seq<string>, parse: string -> Option<InappPurchase>, prefs: Store, nowSec: EpochSec, key: string)
    requires forall raw :: raw in purchases && parse(raw).Some? && parse(raw).value.sku == key ==>
      IsExpired(nowSec, parse(raw).value)
    ensures var r := FilterAndCachePurchasesInapp(purchases, parse, prefs, nowSec);
      (key in r.prefs <==> key in prefs) && (key in prefs ==> r.prefs[key] == prefs[key])
  {
    var r := FilterAndCachePurchasesInapp(purchases, parse, prefs, nowSec);
    forall i | 0 <= i < |r.forwarded|
      ensures parse(r.forwarded[i]).value.sku != key
    {
      InappForwardedIff(purchases, parse, prefs, nowSec, r.forwarded[i]);
    }
    InappUntouchedSku(purchases, parse, prefs, nowSec, key);
  }

  /** The in-app filter is idempotent: rerun on the same list with the
      committed namespace and the same clock, it forwards nothing, provided
      no two decodable records name the same SKU. */
  lemma InappIdempotent(purchases: seq<string>, parse: string -> Option<InappPurchase>, prefs: Store, nowSec: EpochSec)
    requires forall i, j :: 0 <= i < j < |purchases| && parse(purchases[i]).Some? && parse(purchases[j]).Some? ==>
      parse(purchases[i]).value.sku != parse(purchases[j]).value.sku
    ensures var first := FilterAndCachePurchasesInapp(purchases, parse, prefs, nowSec);
      FilterAndCachePurchasesInapp(purchases, parse, first.prefs, nowSec).forwarded == []
  {
    ScanIdempotent(Inapp(parse, nowSec), prefs, purchases);
  }

  /** The subscription filter is idempotent under the same condition. */
  lemma SubsIdempotent(purchases: seq<string>, parse: string -> Option<SubsPurchase>, prefs: Store)
    requires forall i, j :: 0 <= i < j < |purchases| && parse(purchases[i]).Some? && parse(purchases[j]).Some? ==>
      parse(purchases[i]).value.sku != parse(purchases[j]).value.sku
    ensures var first := FilterAndCachePurchasesSubs(purchases, parse, prefs);
      FilterAndCachePurchasesSubs(purchases, parse, first.prefs).forwarded == []
  {
    ScanIdempotent(Subs(parse), prefs, purchases);
  }

  /** Two new tokens for one SKU in one list are both compared with the
      token cached before the call, so both are forwarded and the later one
      is cached. */
  lemma SameSkuTwiceInOneList(
    a: string, b: string, parse: string -> Option<SubsPurchase>, prefs: Store, sku: string, ta: string, tb: string)
    requires parse(a) == Some(SubsPurchase(sku, ta)) && parse(b) == Some(SubsPurchase(sku, tb))
    requires GetString(prefs, sku, "") != ta && GetString(prefs, sku, "") != tb
    ensures var first := FilterAndCachePurchasesSubs([a, b], parse, prefs);
      first.forwarded == [a, b] && first.prefs == prefs[sku := tb]
  {
    var policy := Subs(parse);
    assert Forwards(policy, prefs, a) && Forwards(policy, prefs, b);
    var fw := Scan(policy, prefs, [a, b]);
    assert fw == [a, b] by {
      assert [a, b][1..] == [b] && [b][1..] == [];
      assert Scan(policy, prefs, [b]) == [b];
    }
    assert WritesOf(policy, fw) == [Put(sku, ta), Put(sku, tb)];
    ApplyOverwrite(prefs, sku, ta, tb);
    assert FilterAndCachePurchasesSubs([a, b], parse, prefs) == FilterAndCache(policy, [a, b], prefs);
  }

  /** Hence, when the two tokens differ, a rerun on the same list forwards
      the earlier record again: idempotence needs one record per SKU. */
  lemma SameSkuTwiceNotIdempotent(
    a: string, b: string, parse: string -> Option<SubsPurchase>, prefs: Store, sku: string, ta: string, tb: string)
    requires parse(a) == Some(SubsPurchase(sku, ta)) && parse(b) == Some(SubsPurchase(sku, tb))
    requires ta != tb && GetString(prefs, sku, "") != ta && GetString(prefs, sku, "") != tb
    ensures var first := FilterAndCachePurchasesSubs([a, b], parse, prefs);
      FilterAndCachePurchasesSubs([a, b], parse, first.prefs).forwarded == [a]
  {
    SameSkuTwiceInOneList(a, b, parse, prefs, sku, ta, tb);
    var after := prefs[sku := tb];
    assert [a, b][1..] == [b] && [b][1..] == [];
    assert Scan(Subs(parse), after, [b]) == [];
    assert Scan(Subs(parse), after, [a, b]) == [a];
  }

  /** A single subscription record with a new token is forwarded and its
      token cached. */
  lemma SubsSingleNewToken(a: string, parse: string -> Option<SubsPurchase>, prefs: Store, sku: string, t: string)
    requires parse(a) == Some(SubsPurchase(sku, t)) && GetString(prefs, sku, "") != t
    ensures FilterAndCachePurchasesSubs([a], parse, prefs) == Filtered([a], prefs[sku := t])
  {
    var policy := Subs(parse);
    assert [a][1..] == [];
    var fw := Scan(policy, prefs, [a]);
    assert fw == [a];
    assert WritesOf(policy, fw) == [Put(sku, t)];
    assert Apply(prefs, [Put(sku, t)]) == Apply(prefs[sku := t], []);
    assert FilterAndCachePurchasesSubs([a], parse, prefs) == FilterAndCache(policy, [a], prefs);
  }

  /** The namespace remembers only the latest token per SKU: across three
      calls a token that was replaced in between is forwarded a second time. */
  lemma OnlyLatestTokenRemembered(
    a: string, b: string, parse: string -> Option<SubsPurchase>, prefs: Store, sku: string, ta: string, tb: string)
    requires parse(a) == Some(SubsPurchase(sku, ta)) && parse(b) == Some(SubsPurchase(sku, tb))
    requires ta != tb && GetString(prefs, sku, "") != ta
    ensures var first := FilterAndCachePurchasesSubs([a], parse, prefs);
      var second := FilterAndCachePurchasesSubs([b], parse, first.prefs);
      var third := FilterAndCachePurchasesSubs([a], parse, second.prefs);
      first.forwarded == [a] && second.forwarded == [b] && third.forwarded == [a]
  {
    var p1 := prefs[sku := ta];
    SubsSingleNewToken(a, parse, prefs, sku, ta);
    var p2 := p1[sku := tb];
    SubsSingleNewToken(b, parse, p1, sku, tb);
    SubsSingleNewToken(a, parse, p2, sku, ta);
  }
}
