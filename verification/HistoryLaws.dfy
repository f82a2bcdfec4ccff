/** The price list an estimate is made from, said of the ledger: the finished blocks of the epoch, newest first,
    starting with the one before the block the request is in. */
module HistoryLaws {
  import opened Options
  import opened Ledger
  import opened BlockHistory
  import opened GasPricing
  import opened PriceCache
  import opened WarmCold
  import opened GasLaws
  import opened GasEstimator

  /** The walk starts right before the block that holds the request's version, which may still grow. */
  lemma StartIs(call: Call)
    requires call.Good()
    ensures var start := StartOf(call.ledger, call.version, call.Epoch());
            && start < call.version && StartsBlock(call.ledger[start + 1])
            && forall i :: start + 1 < i <= call.version ==> !StartsBlock(call.ledger[i])
  {
    HistoryReadable(call);
    NoStartBelow(call.ledger, call.version);
  }

  /** The history of a request: the whole blocks of its epoch, from the one before its own back to the first. */
  lemma HistoryIs(call: Call)
    requires call.Good()
    ensures var start := StartOf(call.ledger, call.version, call.Epoch());
            start < |call.ledger| && EpochBlocks(call.ledger, start, call.Epoch(), call.History())
  {
    hide EpochsRise, First, Last, EpochOf, Back, StartOf, WholeBlock, Falling;
    HistoryReadable(call);
    BackIs(call.ledger, StartOf(call.ledger, call.version, call.Epoch()), call.Epoch());
  }

  /** The cold list holds the price of each of these blocks, newest first, up to the history limit. */
  lemma ColdPricesAre(st: Settings, call: Call)
    requires st.Valid() && call.Good()
    ensures var (bs, prices) := (call.History(), ColdPrices(st, call));
            && |prices| == (if |bs| < st.cfg.aggressiveHistory then |bs| else st.cfg.aggressiveHistory)
            && forall i :: 0 <= i < |prices| ==>
                 && bs[i].first <= bs[i].last < |call.ledger|
                 && prices[i] == PriceOf(st.cfg, st.onChain(call.Epoch()), call.ledger, bs[i])
  {
    HistoryReadable(call);
  }

  /** The answer of every full computation: without prices the minimum, the minimum and the bucket above; with prices
      the least of the newest ones, the least that covers more than half of the newest ones, and the bucket above the
      least that covers more than nine tenths of all, each no lower than the one before it. */
  lemma AnswerIs(st: Settings, calls: seq<Call>) returns (median: nat, p90: nat)
    requires st.Valid() && st.cfg.Sanitized() && Growing(calls) && calls != []
    ensures var (est, prices) := (Answer(st, calls), WarmPrices(st, calls));
            var (cfg, least) := (st.cfg, st.onChain(calls[|calls| - 1].Epoch()).minGasUnitPrice);
            if prices == [] then est.low == est.market == least && BucketAbove(cfg.buckets, least, est.aggressive)
            else
              var lows := prices[..Min(cfg.lowHistory, |prices|)];
              var recent := prices[..Min(cfg.marketHistory, |prices|)];
              && est.low in lows && (forall p :: p in lows ==> est.low <= p)
              && LeastCovering(recent, |recent| / 2, median) && est.market == Max(est.low, median)
              && LeastCovering(prices, |prices| * 9 / 10, p90)
              && BucketAbove(cfg.buckets, Max(est.market, p90), est.aggressive)
  {
    hide WarmPrices, Estimate, DefaultEstimation, LeastCovering, BucketAbove;
    median, p90 := 0, 0;
    if WarmPrices(st, calls) == [] {
      DefaultIs(st.cfg, st.onChain(calls[|calls| - 1].Epoch()));
    } else {
      median, p90 := EstimateIs(st.cfg, WarmPrices(st, calls));
    }
  }
}
