/** The gas estimator as the API context holds it: a lock-guarded cache that a full computation
    updates in place. */
module GasEstimator {
  import opened Options
  import opened Ledger
  import opened BlockHistory
  import opened GasPricing
  import opened PriceCache
  import opened WarmCold

  ghost function EstimateOrDefault(cfg: Config, ec: EpochConfig, prices: seq<nat>): GasEstimation
    requires cfg.Sanitized()
  {
    if prices == [] then DefaultEstimation(cfg, ec) else Estimate(cfg, prices)
  }

  /** The estimate the last full computation of a run produces. */
  ghost function Answer(st: Settings, calls: seq<Call>): GasEstimation
    requires st.Valid() && st.cfg.Sanitized() && Growing(calls) && calls != []
  {
    EstimateOrDefault(st.cfg, st.onChain(calls[|calls| - 1].Epoch()), WarmPrices(st, calls))
  }

  /** The estimate made from the ledger alone. */
  ghost function ColdAnswer(st: Settings, call: Call): GasEstimation
    requires st.Valid() && st.cfg.Sanitized() && call.Good()
  {
    EstimateOrDefault(st.cfg, st.onChain(call.Epoch()), ColdPrices(st, call))
  }

  /** With versions in order an estimate does not depend on the calls before it. */
  lemma AnswerInOrder(st: Settings, calls: seq<Call>)
    requires st.Valid() && st.cfg.Sanitized() && Growing(calls) && InOrder(calls) && calls != []
    ensures Answer(st, calls) == ColdAnswer(st, calls[|calls| - 1])
  {
    WarmEqualsColdInOrder(st, calls);
  }

  /** Every estimate is ordered, and none of the three is below the minimum price if no transaction
      in the blocks it is made from is. */
  lemma AnswerBounds(st: Settings, calls: seq<Call>)
    requires st.Valid() && st.cfg.Sanitized() && Growing(calls) && calls != []
    requires var call := calls[|calls| - 1];
             forall b, t :: b in call.History() && b.first <= b.last < |call.ledger|
                            && t in call.ledger[b.first..b.last] && t.User? ==>
               t.gasUnitPrice >= st.onChain(call.Epoch()).minGasUnitPrice
    ensures var est := Answer(st, calls);
            st.onChain(calls[|calls| - 1].Epoch()).minGasUnitPrice <= est.low <= est.market <= est.aggressive
  {
    var call, warm := calls[|calls| - 1], WarmPrices(st, calls);
    var ec, bs := st.onChain(call.Epoch()), Newest(call.History(), st.cfg.aggressiveHistory);
    if warm == [] {
      NextBucketRoundsUp(st.cfg.buckets, ec.minGasUnitPrice);
    } else {
      WarmEqualsCold(st, calls);
      HistoryReadable(call);
      EstimateQuality(st.cfg, warm);
      forall p | p in warm ensures p >= ec.minGasUnitPrice {
        var i :| 0 <= i < |warm| && warm[i] == p;
        assert p == ColdPrices(st, call)[i] == PriceOf(st.cfg, ec, call.ledger, bs[i]);
        assert bs[i] == call.History()[i] && bs[i] in call.History();
        PriceFloor(st.cfg, ec, call.ledger, bs[i]);
      }
      EstimateFloor(st.cfg, warm, ec.minGasUnitPrice);
    }
  }

  // ----- Facts the loops need -----

  lemma {:induction false} ScanEndsBefore(l: seq<Txn>, w: nat, e: nat, n: nat, prices: Prices)
    requires WellFormed(l) && e >= 1 && EndsBlock(l, w)
    ensures var scan := ScanBlocks(l, w, e, n, prices);
            && |scan.blocks| <= n
            && (forall i :: 0 <= i < |scan.blocks| ==> scan.blocks[i].last <= w)
            && (scan.hit ==> |scan.blocks| < n && Key(e, scan.lookup) in prices)
    decreases n
  {
    hide First, Last, EpochOf, EpochsRise, Back, ScanBlocks;
    if n == 0 || Key(e, w) in prices || EpochOf(l, w) != e {
      ScanStops(l, w, e, n, prices);
    } else {
      ScanUnfold(l, w, e, n, prices);
      var f := First(l, w);
      if f > 1 {
        ScanEndsBefore(l, f - 1, e, n - 1, prices);
        BoundedCons(ScanBlocks(l, f - 1, e, n - 1, prices).blocks, Block(f, w), w);
      }
    }
  }

  lemma BoundedCons(rest: seq<Block>, b: Block, w: nat)
    requires b.last <= w && forall i :: 0 <= i < |rest| ==> rest[i].last <= w
    ensures forall i :: 0 <= i < |[b] + rest| ==> ([b] + rest)[i].last <= w
  {
  }

  /** One entry further down the range. */
  lemma ReadStep(prices: Prices, e: nat, bound: nat, vs: set<nat>, v: nat)
    requires v in vs && vs <= VersionsUpTo(prices, e, bound) && forall x :: x in vs ==> x <= v
    ensures Key(e, v) in prices
    ensures ValuesAt(prices, e, Descending(vs)) == [prices[Key(e, v)]] + ValuesAt(prices, e, Descending(vs - {v}))
  {
    assert v in VersionsUpTo(prices, e, bound);
    assert v == Greatest(vs);
  }

  lemma NothingLeft(prices: Prices, e: nat)
    ensures ValuesAt(prices, e, Descending({})) == []
  {
  }

  /** A hit always yields at least one cached price, so the list is never empty after one. */
  lemma HitFindsPrice(prices: Prices, e: nat, bound: nat)
    requires Key(e, bound) in prices
    ensures CachedBelow(prices, e, bound) != []
  {
    assert bound in VersionsUpTo(prices, e, bound);
  }

  lemma StartsWithGenesis(call: Call)
    requires call.Good()
    ensures |call.ledger| > 0 && call.ledger[0].Genesis?
  {
  }

  lemma ExtendRun(st: Settings, calls: seq<Call>, call: Call)
    requires st.Valid() && Growing(calls + [call])
    ensures Growing(calls) && call.Good()
    ensures var (c', warm) := Refresh(st.cfg, st.onChain(call.Epoch()), call.ledger, call.version, call.Epoch(),
                                      CacheAfter(st, calls));
            && CacheAfter(st, calls + [call]) == c' && WarmPrices(st, calls + [call]) == warm
            && c'.epoch == Some(call.Epoch())
  {
    var all := calls + [call];
    assert all[|calls|] == call && all[..|all| - 1] == calls;
    forall i | 0 <= i < |calls| ensures calls[i].Good() { assert all[i].Good(); }
    assert forall i, j :: 0 <= i <= j < |calls| ==> all[i].ledger <= all[j].ledger;
  }

  /** The cache is of the epoch of the latest full computation. */
  lemma LastEpoch(st: Settings, calls: seq<Call>)
    requires st.Valid() && Growing(calls) && calls != []
    ensures calls[|calls| - 1].Good() && CacheAfter(st, calls).epoch == Some(calls[|calls| - 1].Epoch())
  {
    hide Window, CacheAfter;
    RunAtWindow(st, calls);
  }

  lemma SameFront(calls: seq<Call>, call: Call)
    requires Growing(calls + [call])
    ensures Growing(calls) && call.Good()
    ensures forall i :: 0 <= i < |calls| ==> calls[i].Good()
    ensures (calls + [call])[|calls|] == call
  {
    assert (calls + [call])[|calls|] == call;
    assert forall i :: 0 <= i < |calls| ==> (calls + [call])[i] == calls[i];
  }

  lemma {:induction false} InsertAllKeeps(
      cfg: Config, ec: EpochConfig, l: seq<Txn>, e: nat, bs: seq<Block>, prices: Prices, k: Key)
    requires Safe(cfg, ec) && Readable(l, bs) && k in prices
    ensures k in InsertAll(cfg, ec, l, e, bs, prices)
  {
    if bs != [] { InsertAllKeeps(cfg, ec, l, e, bs[..|bs| - 1], prices, k); }
  }

  class Estimator {
    const settings: Settings
    var lastUpdatedEpoch: Option<nat>
    var lastUpdatedTime: Option<nat>
    var estimation: Option<GasEstimation>
    var minInclusionPrices: Prices
    /** The full computations so far. */
    ghost var calls: seq<Call>

    ghost function View(): Cache
      reads this
    {
      Cache(lastUpdatedEpoch, minInclusionPrices)
    }

    ghost predicate Valid()
      reads this
    {
      && settings.Valid() && settings.cfg.Sanitized() && Growing(calls)
      && View() == CacheAfter(settings, calls)
      && (calls == [] ==> estimation.None?)
      && (calls != [] ==> lastUpdatedTime.Some? && estimation == Some(Answer(settings, calls)))
    }

    constructor (settings: Settings)
      requires settings.Valid() && settings.cfg.Sanitized()
      ensures Valid() && calls == [] && this.settings == settings
    {
      this.settings := settings;
      lastUpdatedEpoch, lastUpdatedTime, estimation, minInclusionPrices, calls := None, None, None, map[], [];
    }

    predicate Fresh(epoch: nat, now: nat)
      reads this
    {
      && lastUpdatedEpoch == Some(epoch) && lastUpdatedTime.Some? && estimation.Some?
      && now - lastUpdatedTime.value < settings.cfg.cacheExpirationMs
    }

    /** Serves the last estimate while it is younger than the expiration time and of the same epoch; otherwise makes a
        new one. Either way the answer is the one of the latest full computation, and of the caller's epoch. */
    method EstimateGasPrice(call: Call, now: nat) returns (r: GasEstimation)
      requires Valid() && call.Good() && Growing(calls + [call])
      requires lastUpdatedTime.Some? ==> lastUpdatedTime.value <= now
      modifies this
      ensures Valid() && calls != [] && r == Answer(settings, calls)
      ensures calls[|calls| - 1].Epoch() == call.Epoch()
      ensures if old(calls) != [] && old(calls)[|old(calls)| - 1].Epoch() == call.Epoch()
                 && now - old(lastUpdatedTime.value) < settings.cfg.cacheExpirationMs
              then unchanged(this)
              else calls == old(calls) + [call] && lastUpdatedTime == Some(now)
    {
      hide Growing, WellFormed, CacheAfter, WarmPrices, Refresh, Estimate, EpochOf;
      if calls != [] { LastEpoch(settings, calls); }
      SameFront(calls, call);
      StartsWithGenesis(call);
      var epoch := call.Epoch();
      if Fresh(epoch, now) {
        return estimation.value;
      }
      ExtendRun(settings, calls, call);
      var prices := Compute(call);
      var ec := settings.onChain(epoch);
      r := if prices == [] then DefaultEstimation(settings.cfg, ec) else Estimate(settings.cfg, prices);
      lastUpdatedEpoch, estimation, lastUpdatedTime := Some(epoch), Some(r), Some(now);
      calls := calls + [call];
    }

    /** The full computation under the write lock, up to the list of prices. */
    method Compute(call: Call) returns (prices: seq<nat>)
      requires settings.Valid() && call.Good()
      modifies this`minInclusionPrices
      ensures var (c', warm) := Refresh(settings.cfg, settings.onChain(call.Epoch()), call.ledger, call.version,
                                        call.Epoch(), old(View()));
              minInclusionPrices == c'.prices && prices == warm
    {
      hide WellFormed, Back, CachedBelow, Gc, InsertAll, ScanBlocks, PricesOf, EpochOf, Readable;
      StartsWithGenesis(call);
      var l, epoch, n := call.ledger, call.Epoch(), settings.cfg.aggressiveHistory;
      if lastUpdatedEpoch.Some? && lastUpdatedEpoch.value != epoch {
        minInclusionPrices := map[];
      }
      HistoryReadable(call);
      var scan := ScanBack(l, StartOf(l, call.version, epoch), epoch);
      ScanEndsBefore(l, StartOf(l, call.version, epoch), epoch, n, minInclusionPrices);
      if scan.blocks == [] && !scan.hit {
        return [];
      }
      ghost var base := minInclusionPrices;
      prices := PriceBlocks(l, epoch, call.version, scan.blocks);
      if scan.hit {
        InsertAllKeeps(settings.cfg, settings.onChain(epoch), l, epoch, scan.blocks, base, Key(epoch, scan.lookup));
        HitFindsPrice(minInclusionPrices, epoch, scan.lookup);
        var cached := ReadCached(epoch, scan.lookup, n - |scan.blocks|);
        assert cached != [];
        prices := prices + cached;
      }
      CollectGarbage(n);
    }

    method ScanBack(l: seq<Txn>, start: nat, epoch: nat) returns (scan: Scan)
      requires WellFormed(l) && start < |l|
      ensures scan == ScanBlocks(l, start, epoch, settings.cfg.aggressiveHistory, minInclusionPrices)
    {
      hide First, Last, EpochOf, EpochsRise, ScanBlocks;
      var n, blocks, hit := settings.cfg.aggressiveHistory, [], false;
      var i: nat, lookup: nat := 0, start;
      while i < n
        invariant 0 <= i <= n && lookup < |l| && !hit
        invariant ScanBlocks(l, start, epoch, n, minInclusionPrices) ==
                  var rest := ScanBlocks(l, lookup, epoch, n - i, minInclusionPrices);
                  Scan(blocks + rest.blocks, rest.lookup, rest.hit)
      {
        if Key(epoch, lookup) in minInclusionPrices {
          ScanStops(l, lookup, epoch, n - i, minInclusionPrices);
          hit := true;
          break;
        }
        var block := BlockAt(l, lookup);
        if EpochOf(l, lookup) != epoch {
          ScanStops(l, lookup, epoch, n - i, minInclusionPrices);
          break;
        }
        ScanStep(l, lookup, epoch, n - i, minInclusionPrices);
        lookup := if block.first == 0 then 0 else block.first - 1;
        blocks := blocks + [block];
        if lookup == 0 {
          break;
        }
        i := i + 1;
      }
      if i == n {
        ScanStops(l, lookup, epoch, 0, minInclusionPrices);
      }
      return Scan(blocks, lookup, hit);
    }

    method PriceBlocks(l: seq<Txn>, epoch: nat, ledgerVersion: nat, blocks: seq<Block>) returns (prices: seq<nat>)
      requires settings.Valid() && ledgerVersion < |l|
      requires Readable(l, blocks) && forall i :: 0 <= i < |blocks| ==> blocks[i].last < ledgerVersion
      modifies this`minInclusionPrices
      ensures prices == PricesOf(settings.cfg, settings.onChain(epoch), l, blocks)
      ensures minInclusionPrices
              == InsertAll(settings.cfg, settings.onChain(epoch), l, epoch, blocks, old(minInclusionPrices))
    {
      hide InclusionPrice, UserPrices, GasPricesAndUsed, PriceOf;
      var ec := settings.onChain(epoch);
      prices := [];
      for k := 0 to |blocks|
        invariant prices == PricesOf(settings.cfg, ec, l, blocks[..k])
        invariant minInclusionPrices == InsertAll(settings.cfg, ec, l, epoch, blocks[..k], old(minInclusionPrices))
      {
        var b := blocks[k];
        PriceAtAnyVersion(settings.cfg, ec, l, b, ledgerVersion);
        var used := GasPricesAndUsed(l, b.first, b.last - b.first, ledgerVersion);
        var price := InclusionPrice(settings.cfg, ec, used).value;
        prices := prices + [price];
        minInclusionPrices := minInclusionPrices[Key(epoch, b.last) := price];
        assert blocks[..k + 1][..k] == blocks[..k];
      }
      assert blocks[..|blocks|] == blocks;
    }

    /** Reads the cache downwards from a version, at most `remaining` entries. */
    method ReadCached(epoch: nat, bound: nat, remaining: nat) returns (out: seq<nat>)
      ensures out == Latest(CachedBelow(minInclusionPrices, epoch, bound), remaining)
    {
      hide Descending, ValuesAt, VersionsUpTo;
      var vs := VersionsUpTo(minInclusionPrices, epoch, bound);
      ghost var all := CachedBelow(minInclusionPrices, epoch, bound);
      out := [];
      NothingLeft(minInclusionPrices, epoch);
      while vs != {} && |out| < remaining
        invariant |out| <= remaining
        invariant vs <= VersionsUpTo(minInclusionPrices, epoch, bound)
        invariant all == out + ValuesAt(minInclusionPrices, epoch, Descending(vs))
        decreases vs
      {
        assert Greatest(vs) in vs;
        var v :| v in vs && forall x :: x in vs ==> x <= v;
        ReadStep(minInclusionPrices, epoch, bound, vs, v);
        out := out + [minInclusionPrices[Key(epoch, v)]];
        vs := vs - {v};
      }
    }

    method CollectGarbage(n: nat)
      modifies this`minInclusionPrices
      ensures minInclusionPrices == Gc(old(minInclusionPrices), n)
    {
      while |minInclusionPrices| > n
        invariant Gc(minInclusionPrices, n) == Gc(old(minInclusionPrices), n)
        decreases |minInclusionPrices|
      {
        FirstExists(minInclusionPrices);
        var k :| k in minInclusionPrices && forall k' :: k' in minInclusionPrices ==> KeyLe(k, k');
        GcStep(minInclusionPrices, n, k);
        assert (minInclusionPrices - {k}).Keys == minInclusionPrices.Keys - {k};
        minInclusionPrices := minInclusionPrices - {k};
      }
    }
  }
}
