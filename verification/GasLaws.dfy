/** What a block costs and what the three estimates are, said of the ledger and of the prices themselves. */
module GasLaws {
  import opened Options
  import opened Ledger
  import opened BlockHistory
  import opened GasPricing

  // ----- Buckets -----

  /** The first bucket above a price, or the price if there is none. */
  ghost predicate BucketAbove(buckets: seq<nat>, price: nat, r: nat) {
    if forall i :: 0 <= i < |buckets| ==> buckets[i] <= price then r == price
    else exists k :: 0 <= k < |buckets| && r == buckets[k] > price && forall j :: 0 <= j < k ==> buckets[j] <= price
  }

  lemma {:induction false} NextBucketIs(buckets: seq<nat>, price: nat)
    ensures BucketAbove(buckets, price, NextBucket(buckets, price))
  {
    if buckets != [] && buckets[0] <= price {
      var rest, r := buckets[1..], NextBucket(buckets, price);
      NextBucketIs(rest, price);
      assert forall i :: 0 < i < |buckets| ==> buckets[i] == rest[i - 1];
      if k :| 0 <= k < |rest| && r == rest[k] > price && forall j :: 0 <= j < k ==> rest[j] <= price {
        assert buckets[k + 1] == r > price;
        assert forall j :: 0 <= j < k + 1 ==> buckets[j] <= price;
      }
    }
  }

  // ----- The price of a block -----

  /** The versions of the user transactions from `lo` up to `hi`. */
  ghost function Users(l: seq<Txn>, lo: nat, hi: nat): set<nat>
    requires hi <= |l|
  {
    set i: nat | lo <= i < hi && l[i].User?
  }

  /** The gas they used. */
  ghost function GasIn(l: seq<Txn>, lo: nat, hi: nat): nat
    requires hi <= |l|
  {
    if hi <= lo then 0 else GasIn(l, lo, hi - 1) + if l[hi - 1].User? then l[hi - 1].gasUsed else 0
  }

  /** A block counts as full if it has enough user transactions or they used enough gas. Its last version
      is left out. */
  ghost predicate Full(cfg: Config, ec: EpochConfig, l: seq<Txn>, b: Block)
    requires b.last <= |l|
  {
    || |Users(l, b.first, b.last)| >= cfg.fullBlockTxns
    || (ec.blockGasLimit.Some? && GasIn(l, b.first, b.last) >= ec.blockGasLimit.value)
  }

  /** The listed prices are those of the user transactions, each once and in order. */
  ghost predicate PricesAt(l: seq<Txn>, lo: nat, hi: nat, pos: seq<nat>, prices: seq<(nat, nat)>)
    requires hi <= |l|
  {
    && |pos| == |prices|
    && (forall i, j :: 0 <= i < j < |pos| ==> pos[i] < pos[j])
    && (forall j :: 0 <= j < |pos| ==>
          lo <= pos[j] < hi && l[pos[j]].User? && prices[j] == (l[pos[j]].gasUnitPrice, l[pos[j]].gasUsed))
    && (forall i :: lo <= i < hi && l[i].User? ==> i in pos)
  }

  lemma {:induction false} UserPricesSnoc(txns: seq<Txn>, t: Txn)
    ensures UserPrices(txns + [t]) == UserPrices(txns) + if t.User? then [(t.gasUnitPrice, t.gasUsed)] else []
  {
    if txns == [] {
      assert txns + [t] == [t];
    } else {
      UserPricesSnoc(txns[1..], t);
      assert (txns + [t])[1..] == txns[1..] + [t];
    }
  }

  lemma {:induction false} TotalUsedSnoc(prices: seq<(nat, nat)>, p: (nat, nat))
    ensures TotalUsed(prices + [p]) == TotalUsed(prices) + p.1
  {
    if prices == [] {
      assert prices + [p] == [p];
    } else {
      TotalUsedSnoc(prices[1..], p);
      assert (prices + [p])[1..] == prices[1..] + [p];
    }
  }

  /** What is read from a range of the ledger. */
  lemma {:induction false} UserPricesAt(l: seq<Txn>, lo: nat, hi: nat) returns (pos: seq<nat>)
    requires lo <= hi <= |l|
    ensures PricesAt(l, lo, hi, pos, UserPrices(l[lo..hi]))
    ensures TotalUsed(UserPrices(l[lo..hi])) == GasIn(l, lo, hi)
    ensures |Users(l, lo, hi)| == |UserPrices(l[lo..hi])|
  {
    hide PricesAt, UserPrices, TotalUsed, GasIn, Users;
    if hi == lo {
      pos := [];
      NothingRead(l, lo);
    } else {
      var front := UserPricesAt(l, lo, hi - 1);
      var t := l[hi - 1];
      pos := if t.User? then front + [hi - 1] else front;
      ReadOneMore(l, lo, hi, front);
    }
  }

  lemma NothingRead(l: seq<Txn>, lo: nat)
    requires lo <= |l|
    ensures PricesAt(l, lo, lo, [], UserPrices(l[lo..lo]))
    ensures TotalUsed(UserPrices(l[lo..lo])) == GasIn(l, lo, lo) == 0
    ensures |Users(l, lo, lo)| == |UserPrices(l[lo..lo])| == 0
  {
    assert l[lo..lo] == [] && Users(l, lo, lo) == {};
  }

  lemma ReadOneMore(l: seq<Txn>, lo: nat, hi: nat, front: seq<nat>)
    requires lo < hi <= |l|
    requires PricesAt(l, lo, hi - 1, front, UserPrices(l[lo..hi - 1]))
    requires TotalUsed(UserPrices(l[lo..hi - 1])) == GasIn(l, lo, hi - 1)
    requires |Users(l, lo, hi - 1)| == |UserPrices(l[lo..hi - 1])|
    ensures PricesAt(l, lo, hi, if l[hi - 1].User? then front + [hi - 1] else front, UserPrices(l[lo..hi]))
    ensures TotalUsed(UserPrices(l[lo..hi])) == GasIn(l, lo, hi)
    ensures |Users(l, lo, hi)| == |UserPrices(l[lo..hi])|
  {
    hide PricesAt, UserPrices, TotalUsed, Users;
    var t, prices := l[hi - 1], UserPrices(l[lo..hi - 1]);
    assert l[lo..hi] == l[lo..hi - 1] + [t];
    UserPricesSnoc(l[lo..hi - 1], t);
    UsersStep(l, lo, hi);
    PricesAtStep(l, lo, hi, front, prices);
    if t.User? { TotalUsedSnoc(prices, (t.gasUnitPrice, t.gasUsed)); } else { assert prices + [] == prices; }
  }

  lemma UsersStep(l: seq<Txn>, lo: nat, hi: nat)
    requires lo < hi <= |l|
    ensures |Users(l, lo, hi)| == |Users(l, lo, hi - 1)| + if l[hi - 1].User? then 1 else 0
  {
    assert Users(l, lo, hi) == Users(l, lo, hi - 1) + if l[hi - 1].User? then {hi - 1} else {};
  }

  lemma PricesAtStep(l: seq<Txn>, lo: nat, hi: nat, pos: seq<nat>, prices: seq<(nat, nat)>)
    requires lo < hi <= |l| && PricesAt(l, lo, hi - 1, pos, prices)
    ensures var t := l[hi - 1];
            if t.User? then PricesAt(l, lo, hi, pos + [hi - 1], prices + [(t.gasUnitPrice, t.gasUsed)])
            else PricesAt(l, lo, hi, pos, prices + [])
  {
    assert prices + [] == prices;
    if l[hi - 1].User? {
      assert (pos + [hi - 1])[|pos|] == hi - 1;
      assert forall i :: i in pos ==> i in pos + [hi - 1];
    }
  }

  lemma {:induction false} LeastPriceIs(prices: seq<(nat, nat)>) returns (k: nat)
    requires prices != []
    ensures k < |prices| && LeastPrice(prices) == prices[k].0
    ensures forall j :: 0 <= j < |prices| ==> LeastPrice(prices) <= prices[j].0
  {
    k := 0;
    if |prices| > 1 {
      var rest := prices[1..];
      var i := LeastPriceIs(rest);
      assert forall j :: 0 < j < |prices| ==> prices[j] == rest[j - 1];
      k := if prices[0].0 <= LeastPrice(rest) then 0 else i + 1;
    }
  }

  /** A block that is not full costs the minimum. A full one costs the bucket above the price of a user transaction
      in it that none in it is cheaper than. */
  lemma BlockPriceIs(cfg: Config, ec: EpochConfig, l: seq<Txn>, b: Block) returns (cheapest: nat)
    requires Safe(cfg, ec) && b.first <= b.last < |l|
    ensures !Full(cfg, ec, l, b) ==> PriceOf(cfg, ec, l, b) == ec.minGasUnitPrice
    ensures Full(cfg, ec, l, b) ==>
              && b.first <= cheapest < b.last && l[cheapest].User?
              && (forall i :: b.first <= i < b.last && l[i].User? ==> l[cheapest].gasUnitPrice <= l[i].gasUnitPrice)
              && BucketAbove(cfg.buckets, l[cheapest].gasUnitPrice, PriceOf(cfg, ec, l, b))
  {
    hide UserPrices, TotalUsed, LeastPrice, NextBucket, BucketAbove, Users, GasIn;
    var prices := UserPrices(l[b.first..b.last]);
    var pos := UserPricesAt(l, b.first, b.last);
    cheapest := b.first;
    if Full(cfg, ec, l, b) {
      NothingUsed();
      var k := LeastPriceIs(prices);
      cheapest := pos[k];
      NextBucketIs(cfg.buckets, LeastPrice(prices));
      forall i | b.first <= i < b.last && l[i].User?
        ensures l[cheapest].gasUnitPrice <= l[i].gasUnitPrice
      {
        var j :| 0 <= j < |pos| && pos[j] == i;
        assert prices[k].0 <= prices[j].0;
      }
    }
  }

  lemma NothingUsed()
    ensures TotalUsed([]) == 0
  {
  }

  // ----- The three estimates -----

  ghost function AtMost(s: seq<nat>, offer: nat): set<nat> {
    set i: nat | i < |s| && s[i] <= offer
  }

  lemma {:induction false} CoveredSnoc(s: seq<nat>, x: nat, offer: nat)
    ensures Covered(s + [x], offer) == Covered(s, offer) + if x <= offer then 1 else 0
  {
    if s == [] {
      assert s + [x] == [x];
    } else {
      CoveredSnoc(s[1..], x, offer);
      assert (s + [x])[1..] == s[1..] + [x];
    }
  }

  /** An offer covers as many prices as there are at or below it. */
  lemma {:induction false} CoveredIsCount(s: seq<nat>, offer: nat)
    ensures Covered(s, offer) == |AtMost(s, offer)|
  {
    if s == [] {
      assert AtMost(s, offer) == {};
    } else {
      var n := |s| - 1;
      CoveredIsCount(s[..n], offer);
      assert s == s[..n] + [s[n]];
      CoveredSnoc(s[..n], s[n], offer);
      assert AtMost(s, offer) == AtMost(s[..n], offer) + if s[n] <= offer then {n} else {};
    }
  }

  lemma {:induction false} CoveredBelowRank(s: seq<nat>, k: nat, offer: nat)
    requires Ascending(s) && k < |s| && offer < s[k]
    ensures Covered(s, offer) <= k
  {
    if s[0] <= offer {
      CoveredBelowRank(s[1..], k - 1, offer);
    } else {
      NothingCovered(s, offer);
    }
  }

  lemma {:induction false} NothingCovered(s: seq<nat>, offer: nat)
    requires forall i :: 0 <= i < |s| ==> s[i] > offer
    ensures Covered(s, offer) == 0
  {
    if s != [] { NothingCovered(s[1..], offer); }
  }

  /** The price of rank `k` in order is the least that covers more than `k` of the prices. */
  ghost predicate LeastCovering(s: seq<nat>, k: nat, price: nat) {
    Covered(s, price) >= k + 1 && forall offer: nat :: offer < price ==> Covered(s, offer) <= k
  }

  lemma RankIsLeastCovering(s: seq<nat>, k: nat)
    requires k < |s|
    ensures LeastCovering(s, k, Sort(s)[k])
  {
    SortSorts(s);
    SortRankCovers(s, k, Sort(s)[k]);
    forall offer: nat | offer < Sort(s)[k] ensures Covered(s, offer) <= k {
      CoveredBelowRank(Sort(s), k, offer);
      CoveredOfSort(s, offer);
    }
  }

  lemma RankExists(s: seq<nat>, k: nat) returns (price: nat)
    requires k < |s|
    ensures LeastCovering(s, k, price) && price == Sort(s)[k]
  {
    price := Sort(s)[k];
    RankIsLeastCovering(s, k);
  }

  /** The low estimate is the least of the newest prices. The market one is the least price that covers more than
      half of the newest prices, unless the low one is higher. The aggressive one is the bucket above the least
      price that covers more than nine tenths of all prices, unless the market one is higher. */
  lemma EstimateIs(cfg: Config, prices: seq<nat>) returns (median: nat, p90: nat)
    requires cfg.Sanitized() && prices != []
    ensures var est := Estimate(cfg, prices);
            var lows := prices[..Min(cfg.lowHistory, |prices|)];
            var recent := prices[..Min(cfg.marketHistory, |prices|)];
            && est.low in lows && (forall p :: p in lows ==> est.low <= p)
            && LeastCovering(recent, |recent| / 2, median) && est.market == Max(est.low, median)
            && LeastCovering(prices, |prices| * 9 / 10, p90)
            && BucketAbove(cfg.buckets, Max(est.market, p90), est.aggressive)
  {
    hide Sort, Covered, LeastCovering, BucketAbove, NextBucket;
    var recent := prices[..Min(cfg.marketHistory, |prices|)];
    LeastOfIsLeast(prices[..Min(cfg.lowHistory, |prices|)]);
    median := RankExists(recent, |recent| / 2);
    p90 := RankExists(prices, |prices| * 9 / 10);
    NextBucketIs(cfg.buckets, Max(Estimate(cfg, prices).market, p90));
  }

  /** Without finished blocks the estimates are the minimum, the minimum and the bucket above it. */
  lemma DefaultIs(cfg: Config, ec: EpochConfig)
    ensures var est := DefaultEstimation(cfg, ec);
            && est.low == est.market == ec.minGasUnitPrice
            && BucketAbove(cfg.buckets, ec.minGasUnitPrice, est.aggressive)
  {
    NextBucketIs(cfg.buckets, ec.minGasUnitPrice);
  }
}
