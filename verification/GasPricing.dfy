/** The price that would have got a transaction into a block, and the three estimates made from the
    prices of recent blocks. */
module GasPricing {
  import opened Options
  import opened Ledger
  import opened BlockHistory

  datatype Config = Config(
    fullBlockTxns: nat,
    lowHistory: nat,
    marketHistory: nat,
    aggressiveHistory: nat,
    cacheExpirationMs: nat,
    buckets: seq<nat>)
  {
    /** What the configuration sanitizer checks at start-up. */
    predicate Sanitized() {
      && 1 <= lowHistory <= aggressiveHistory
      && 1 <= marketHistory <= aggressiveHistory
    }
  }

  /** The two on-chain settings the estimator reads, which are fixed within an epoch. */
  datatype EpochConfig = EpochConfig(minGasUnitPrice: nat, blockGasLimit: Option<nat>)

  datatype GasEstimation = GasEstimation(low: nat, market: nat, aggressive: nat)

  function Min(a: nat, b: nat): nat { if a < b then a else b }

  function Max(a: nat, b: nat): nat { if a < b then b else a }

  // ----- Price of one block -----

  /** First bucket above the price, or the price itself. */
  function NextBucket(buckets: seq<nat>, price: nat): nat {
    if buckets == [] then price
    else if buckets[0] > price then buckets[0]
    else NextBucket(buckets[1..], price)
  }

  /** With ascending buckets it is the least bucket above the price; in any case it is never below. */
  lemma {:induction false} NextBucketRoundsUp(buckets: seq<nat>, price: nat)
    ensures NextBucket(buckets, price) >= price
    ensures NextBucket(buckets, price) == price <==> forall b :: b in buckets ==> b <= price
    ensures NextBucket(buckets, price) == price || NextBucket(buckets, price) in buckets
    ensures (forall i, j :: 0 <= i < j < |buckets| ==> buckets[i] <= buckets[j]) ==>
              forall b :: b in buckets && b > price ==> NextBucket(buckets, price) <= b
  {
    if buckets != [] && buckets[0] <= price {
      NextBucketRoundsUp(buckets[1..], price);
      assert forall b :: b in buckets <==> b == buckets[0] || b in buckets[1..];
    } else if buckets != [] {
      assert buckets[0] in buckets;
    }
  }

  function UserPrices(txns: seq<Txn>): seq<(nat, nat)> {
    if txns == [] then []
    else (if txns[0].User? then [(txns[0].gasUnitPrice, txns[0].gasUsed)] else []) + UserPrices(txns[1..])
  }

  /** Price and gas of the user transactions in up to `limit` versions from `start`. */
  function GasPricesAndUsed(l: seq<Txn>, start: nat, limit: nat, ledgerVersion: nat): seq<(nat, nat)>
    requires ledgerVersion < |l|
  {
    if start > ledgerVersion || limit == 0 then []
    else UserPrices(l[start..start + Min(limit, ledgerVersion - start + 1)])
  }

  function TotalUsed(prices: seq<(nat, nat)>): nat {
    if prices == [] then 0 else prices[0].1 + TotalUsed(prices[1..])
  }

  function LeastPrice(prices: seq<(nat, nat)>): nat
    requires prices != []
  {
    if |prices| == 1 then prices[0].0 else Min(prices[0].0, LeastPrice(prices[1..]))
  }

  predicate IsFull(cfg: Config, ec: EpochConfig, prices: seq<(nat, nat)>) {
    |prices| >= cfg.fullBlockTxns || (ec.blockGasLimit.Some? && TotalUsed(prices) >= ec.blockGasLimit.value)
  }

  /** A full block costs the bucket above its cheapest transaction, any other the minimum. The
      cheapest transaction of a full block without transactions does not exist: `None` is that panic. */
  function InclusionPrice(cfg: Config, ec: EpochConfig, prices: seq<(nat, nat)>): Option<nat> {
    if !IsFull(cfg, ec, prices) then Some(ec.minGasUnitPrice)
    else if prices == [] then None
    else Some(NextBucket(cfg.buckets, LeastPrice(prices)))
  }

  /** The settings under which no block can make the estimator panic. */
  predicate Safe(cfg: Config, ec: EpochConfig) {
    cfg.fullBlockTxns >= 1 && ec.blockGasLimit != Some(0)
  }

  /** Some block makes the estimator panic exactly when the settings call an empty block full. */
  lemma PanicsIffUnsafe(cfg: Config, ec: EpochConfig)
    ensures (exists prices :: InclusionPrice(cfg, ec, prices).None?) <==> !Safe(cfg, ec)
  {
    assert InclusionPrice(cfg, ec, []).None? <==> !Safe(cfg, ec);
  }

  function PriceOf(cfg: Config, ec: EpochConfig, l: seq<Txn>, b: Block): nat
    requires Safe(cfg, ec) && b.first <= b.last < |l|
  {
    InclusionPrice(cfg, ec, UserPrices(l[b.first..b.last])).value
  }

  /** Reading a finished block is not cut short by the ledger version of the request. */
  lemma PriceAtAnyVersion(cfg: Config, ec: EpochConfig, l: seq<Txn>, b: Block, ledgerVersion: nat)
    requires Safe(cfg, ec) && b.first <= b.last < ledgerVersion < |l|
    ensures InclusionPrice(cfg, ec, GasPricesAndUsed(l, b.first, b.last - b.first, ledgerVersion))
            == Some(PriceOf(cfg, ec, l, b))
  {
    if b.first == b.last { assert l[b.first..b.last] == []; }
  }

  lemma PriceStable(cfg: Config, ec: EpochConfig, l: seq<Txn>, l': seq<Txn>, b: Block)
    requires Safe(cfg, ec) && b.first <= b.last < |l| && l <= l'
    ensures PriceOf(cfg, ec, l, b) == PriceOf(cfg, ec, l', b)
  {
    assert l[b.first..b.last] == l'[b.first..b.last];
  }

  lemma {:induction false} LeastPriceBound(prices: seq<(nat, nat)>, floor: nat)
    requires prices != [] && forall p :: p in prices ==> p.0 >= floor
    ensures LeastPrice(prices) >= floor
  {
    if |prices| > 1 {
      assert forall p :: p in prices[1..] ==> p in prices;
      LeastPriceBound(prices[1..], floor);
    }
  }

  lemma {:induction false} UserPricesFrom(txns: seq<Txn>)
    ensures forall p :: p in UserPrices(txns) ==> exists t :: t in txns && t.User? && p == (t.gasUnitPrice, t.gasUsed)
  {
    if txns != [] {
      UserPricesFrom(txns[1..]);
      forall p | p in UserPrices(txns) ensures exists t :: t in txns && t.User? && p == (t.gasUnitPrice, t.gasUsed) {
        if p in UserPrices(txns[1..]) {
          var t :| t in txns[1..] && t.User? && p == (t.gasUnitPrice, t.gasUsed);
          assert t in txns;
        } else {
          assert txns[0] in txns && txns[0].User? && p == (txns[0].gasUnitPrice, txns[0].gasUsed);
        }
      }
    }
  }

  /** No block is priced below the minimum if none of its transactions is. */
  lemma PriceFloor(cfg: Config, ec: EpochConfig, l: seq<Txn>, b: Block)
    requires Safe(cfg, ec) && b.first <= b.last < |l|
    requires forall t :: t in l[b.first..b.last] && t.User? ==> t.gasUnitPrice >= ec.minGasUnitPrice
    ensures PriceOf(cfg, ec, l, b) >= ec.minGasUnitPrice
  {
    var prices := UserPrices(l[b.first..b.last]);
    UserPricesFrom(l[b.first..b.last]);
    forall p | p in prices ensures p.0 >= ec.minGasUnitPrice {
      var t :| t in l[b.first..b.last] && t.User? && p == (t.gasUnitPrice, t.gasUsed);
    }
    if prices != [] {
      LeastPriceBound(prices, ec.minGasUnitPrice);
      NextBucketRoundsUp(cfg.buckets, LeastPrice(prices));
    }
  }

  // ----- Estimates -----

  function Insert(x: nat, s: seq<nat>): (r: seq<nat>)
    ensures |r| == |s| + 1
  {
    if s == [] || x <= s[0] then [x] + s else [s[0]] + Insert(x, s[1..])
  }

  function Sort(s: seq<nat>): (r: seq<nat>)
    ensures |r| == |s|
  {
    if s == [] then [] else Insert(s[0], Sort(s[1..]))
  }

  ghost predicate Ascending(s: seq<nat>) {
    forall i, j :: 0 <= i < j < |s| ==> s[i] <= s[j]
  }

  lemma {:induction false} InsertSorts(x: nat, s: seq<nat>)
    requires Ascending(s)
    ensures Ascending(Insert(x, s))
    ensures forall y :: y in Insert(x, s) ==> y == x || y in s
  {
    if !(s == [] || x <= s[0]) {
      InsertSorts(x, s[1..]);
      var t := Insert(x, s[1..]);
      assert forall i :: 0 <= i < |t| ==> t[i] in t;
      assert forall y :: y in s[1..] ==> y in s && s[0] <= y;
    }
  }

  lemma {:induction false} SortSorts(s: seq<nat>)
    ensures Ascending(Sort(s))
  {
    if s != [] {
      SortSorts(s[1..]);
      InsertSorts(s[0], Sort(s[1..]));
    }
  }

  function LeastOf(s: seq<nat>): nat
    requires s != []
  {
    if |s| == 1 then s[0] else Min(s[0], LeastOf(s[1..]))
  }

  function Latest(s: seq<nat>, n: nat): seq<nat> { s[..Min(n, |s|)] }

  function DefaultEstimation(cfg: Config, ec: EpochConfig): GasEstimation {
    GasEstimation(ec.minGasUnitPrice, ec.minGasUnitPrice, NextBucket(cfg.buckets, ec.minGasUnitPrice))
  }

  /** Estimates from block prices, newest first. */
  function Estimate(cfg: Config, prices: seq<nat>): GasEstimation
    requires cfg.Sanitized() && prices != []
  {
    var low := LeastOf(Latest(prices, cfg.lowHistory));
    var latest := Sort(Latest(prices, cfg.marketHistory));
    var market := Max(low, latest[|latest| / 2]);
    var p90 := Max(market, Sort(prices)[|prices| * 9 / 10]);
    GasEstimation(low, market, NextBucket(cfg.buckets, p90))
  }

  /** How many of the prices an offer covers. */
  function Covered(s: seq<nat>, offer: nat): nat {
    if s == [] then 0 else (if s[0] <= offer then 1 else 0) + Covered(s[1..], offer)
  }

  lemma {:induction false} CoveredOfInsert(x: nat, s: seq<nat>, offer: nat)
    ensures Covered(Insert(x, s), offer) == Covered([x] + s, offer)
  {
    if !(s == [] || x <= s[0]) {
      CoveredOfInsert(x, s[1..], offer);
      assert ([s[0]] + Insert(x, s[1..]))[1..] == Insert(x, s[1..]);
      assert ([x] + s[1..])[1..] == s[1..] && ([x] + s)[1..] == s;
    }
  }

  /** Sorting loses and invents nothing: every offer covers as many prices as before. */
  lemma {:induction false} CoveredOfSort(s: seq<nat>, offer: nat)
    ensures Covered(Sort(s), offer) == Covered(s, offer)
  {
    if s != [] {
      CoveredOfSort(s[1..], offer);
      CoveredOfInsert(s[0], Sort(s[1..]), offer);
      assert ([s[0]] + Sort(s[1..]))[1..] == Sort(s[1..]);
    }
  }

  lemma {:induction false} CoveredByRank(s: seq<nat>, k: nat, offer: nat)
    requires Ascending(s) && k < |s| && s[k] <= offer
    ensures Covered(s, offer) >= k + 1
  {
    if k > 0 {
      assert s[0] <= s[k];
      CoveredByRank(s[1..], k - 1, offer);
    }
  }

  lemma {:induction false} LeastOfIsLeast(s: seq<nat>)
    requires s != []
    ensures LeastOf(s) in s && forall x :: x in s ==> LeastOf(s) <= x
  {
    if |s| > 1 {
      LeastOfIsLeast(s[1..]);
      assert forall x :: x in s <==> x == s[0] || x in s[1..];
    }
  }

  lemma SortRankCovers(s: seq<nat>, k: nat, offer: nat)
    requires k < |s| && Sort(s)[k] <= offer
    ensures Covered(s, offer) >= k + 1
  {
    SortSorts(s);
    CoveredByRank(Sort(s), k, offer);
    CoveredOfSort(s, offer);
  }

  /** The estimates are ordered; the low one is the cheapest recent block; the market one covers more
      than half of the recent blocks and the aggressive one more than nine tenths of all sampled. */
  lemma EstimateQuality(cfg: Config, prices: seq<nat>)
    requires cfg.Sanitized() && prices != []
    ensures var est := Estimate(cfg, prices);
            && est.low <= est.market <= est.aggressive
            && est.low in Latest(prices, cfg.lowHistory)
            && (forall p :: p in Latest(prices, cfg.lowHistory) ==> est.low <= p)
            && Covered(Latest(prices, cfg.marketHistory), est.market)
               >= |Latest(prices, cfg.marketHistory)| / 2 + 1
            && Covered(prices, est.aggressive) >= |prices| * 9 / 10 + 1
  {
    var est, recent := Estimate(cfg, prices), Latest(prices, cfg.marketHistory);
    LeastOfIsLeast(Latest(prices, cfg.lowHistory));
    SortSorts(recent);
    SortSorts(prices);
    NextBucketRoundsUp(cfg.buckets, Max(est.market, Sort(prices)[|prices| * 9 / 10]));
    SortRankCovers(recent, |recent| / 2, est.market);
    SortRankCovers(prices, |prices| * 9 / 10, est.aggressive);
  }

  /** Estimates never fall below a floor under all block prices. */
  lemma EstimateFloor(cfg: Config, prices: seq<nat>, floor: nat)
    requires cfg.Sanitized() && prices != [] && forall p :: p in prices ==> p >= floor
    ensures floor <= Estimate(cfg, prices).low
  {
    assert forall p :: p in Latest(prices, cfg.lowHistory) ==> p in prices;
    LeastOfIsLeast(Latest(prices, cfg.lowHistory));
  }
}
