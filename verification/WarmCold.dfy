/** Warm equals cold: what the price cache changes about an estimate, over any run of full
    computations on a growing ledger, in any order of ledger versions. */
module WarmCold {
  import opened Options
  import opened Ledger
  import opened BlockHistory
  import opened GasPricing
  import opened PriceCache

  function Newest(bs: seq<Block>, n: nat): seq<Block> { bs[..Min(n, |bs|)] }

  ghost predicate GoodHistory(l: seq<Txn>, e: nat, bs: seq<Block>)
    requires |l| > 0 && l[0].Genesis?
  {
    && Readable(l, bs) && Falling(bs)
    && forall i :: 0 <= i < |bs| ==> EpochOf(l, bs[i].last) == e
  }

  /** The cache holds the newest blocks of history `bs`, up to the history limit, and nothing else. */
  ghost predicate Window(cfg: Config, ec: EpochConfig, l: seq<Txn>, e: nat, bs: seq<Block>, prices: Prices)
    requires |l| > 0 && l[0].Genesis? && Safe(cfg, ec)
  {
    && GoodHistory(l, e, bs)
    && Represents(prices, e, EntriesOf(cfg, ec, l, Newest(bs, cfg.aggressiveHistory)))
  }

  ghost predicate Holds(prices: Prices, e: nat, bs: seq<Block>) {
    forall v: nat :: Key(e, v) in prices <==> exists i :: 0 <= i < |bs| && bs[i].last == v
  }

  lemma RepresentsHolds(cfg: Config, ec: EpochConfig, l: seq<Txn>, e: nat, bs: seq<Block>, prices: Prices)
    requires Safe(cfg, ec) && Readable(l, bs) && Represents(prices, e, EntriesOf(cfg, ec, l, bs))
    ensures Holds(prices, e, bs)
  {
    var es := EntriesOf(cfg, ec, l, bs);
    forall v: nat ensures Key(e, v) in prices <==> exists i :: 0 <= i < |bs| && bs[i].last == v {
      if Key(e, v) in prices {
        assert Listed(es, v);
        var i :| 0 <= i < |es| && es[i].version == v;
        assert bs[i].last == v;
      }
      if i :| 0 <= i < |bs| && bs[i].last == v {
        assert es[i].version == v;
      }
    }
  }

  lemma WindowOfEpoch(cfg: Config, ec: EpochConfig, l: seq<Txn>, e: nat, bs: seq<Block>, prices: Prices)
    requires |l| > 0 && l[0].Genesis? && Safe(cfg, ec) && Window(cfg, ec, l, e, bs, prices)
    ensures OfEpoch(l, e, prices)
  {
    RepresentsHolds(cfg, ec, l, e, Newest(bs, cfg.aggressiveHistory), prices);
  }

  /** A caller at or past everything cached prices exactly the new blocks. */
  lemma MissesWhenAhead(e: nat, n: nat, known: seq<Block>, bs: seq<Block>, prices: Prices)
    requires n >= 1 && Falling(bs) && Suffix(known, bs) && Holds(prices, e, Newest(known, n))
    ensures Misses(bs, e, n, prices) == Min(|bs| - |known|, n)
  {
    var d, cached := |bs| - |known|, Newest(known, n);
    assert forall i :: 0 <= i < |known| ==> known[i] == bs[d + i];
    if known != [] {
      assert cached[0].last == bs[d].last;
      assert Cached(prices, e, bs[d]);
    }
    forall j | 0 <= j < d ensures !Cached(prices, e, bs[j]) {
      assert forall i :: 0 <= i < |cached| ==> cached[i].last < bs[j].last;
    }
  }

  /** A caller behind the cache hits at once inside the window, and never below it. */
  lemma MissesWhenBehind(e: nat, n: nat, known: seq<Block>, bs: seq<Block>, prices: Prices)
    requires n >= 1 && Falling(known) && Suffix(bs, known) && bs != [] && Holds(prices, e, Newest(known, n))
    ensures Misses(bs, e, n, prices) == if |known| - |bs| < n then 0 else Min(|bs|, n)
  {
    var d, cached := |known| - |bs|, Newest(known, n);
    assert forall i :: 0 <= i < |bs| ==> bs[i] == known[d + i];
    if d < n {
      assert cached[d].last == bs[0].last;
      assert Cached(prices, e, bs[0]);
    } else {
      forall j | 0 <= j < |bs| ensures !Cached(prices, e, bs[j]) {
        assert forall i :: 0 <= i < |cached| ==> cached[i].last > known[d + j].last;
      }
    }
  }

  lemma EntriesConcat(cfg: Config, ec: EpochConfig, l: seq<Txn>, a: seq<Block>, b: seq<Block>)
    requires Safe(cfg, ec) && Readable(l, a) && Readable(l, b)
    ensures Readable(l, a + b)
    ensures EntriesOf(cfg, ec, l, a + b) == EntriesOf(cfg, ec, l, a) + EntriesOf(cfg, ec, l, b)
    ensures PricesOf(cfg, ec, l, a + b) == PricesOf(cfg, ec, l, a) + PricesOf(cfg, ec, l, b)
  {
  }

  lemma EntriesSlice(cfg: Config, ec: EpochConfig, l: seq<Txn>, bs: seq<Block>, i: nat, j: nat)
    requires Safe(cfg, ec) && Readable(l, bs) && i <= j <= |bs|
    ensures Readable(l, bs[i..j])
    ensures EntriesOf(cfg, ec, l, bs)[i..j] == EntriesOf(cfg, ec, l, bs[i..j])
    ensures PricesIn(EntriesOf(cfg, ec, l, bs)[i..j]) == PricesOf(cfg, ec, l, bs[i..j])
  {
  }

  lemma FallingEntriesOf(cfg: Config, ec: EpochConfig, l: seq<Txn>, bs: seq<Block>)
    requires Safe(cfg, ec) && Readable(l, bs) && Falling(bs)
    ensures FallingEntries(EntriesOf(cfg, ec, l, bs))
  {
  }

  /** Pricing `add` next to a cached list leaves the newest blocks of both together. */
  lemma FillAndTrim(cfg: Config, ec: EpochConfig, l: seq<Txn>, e: nat, pre: seq<Block>, add: seq<Block>,
                    post: seq<Block>, base: Prices)
    requires Safe(cfg, ec) && Readable(l, pre) && Readable(l, add) && Readable(l, post) && Falling(pre + add + post)
    requires Readable(l, pre + post) && Represents(base, e, EntriesOf(cfg, ec, l, pre + post))
    ensures var all, n := pre + add + post, cfg.aggressiveHistory;
            var filled := InsertAll(cfg, ec, l, e, add, base);
            && Readable(l, all) && Readable(l, Newest(all, n))
            && Represents(filled, e, EntriesOf(cfg, ec, l, all))
            && Represents(Gc(filled, n), e, EntriesOf(cfg, ec, l, Newest(all, n)))
  {
    var all, n := pre + add + post, cfg.aggressiveHistory;
    EntriesConcat(cfg, ec, l, pre, post);
    EntriesConcat(cfg, ec, l, pre, add);
    EntriesConcat(cfg, ec, l, pre + add, post);
    FallingEntriesOf(cfg, ec, l, all);
    InsertAllRepresents(cfg, ec, l, e, add, base, EntriesOf(cfg, ec, l, pre), EntriesOf(cfg, ec, l, post));
    GcKeepsNewest(InsertAll(cfg, ec, l, e, add, base), e, EntriesOf(cfg, ec, l, all), n);
    EntriesSlice(cfg, ec, l, all, 0, Min(n, |all|));
  }

  lemma FillFront(cfg: Config, ec: EpochConfig, l: seq<Txn>, e: nat, add: seq<Block>, post: seq<Block>, base: Prices)
    requires Safe(cfg, ec) && Readable(l, add) && Readable(l, post) && Falling(add + post)
    requires Represents(base, e, EntriesOf(cfg, ec, l, post))
    ensures var all, n := add + post, cfg.aggressiveHistory;
            var filled := InsertAll(cfg, ec, l, e, add, base);
            && Readable(l, all) && Readable(l, Newest(all, n))
            && Represents(filled, e, EntriesOf(cfg, ec, l, all))
            && Represents(Gc(filled, n), e, EntriesOf(cfg, ec, l, Newest(all, n)))
  {
    hide Represents, FallingEntries, Falling;
    assert [] + post == post && [] + add + post == add + post;
    FillAndTrim(cfg, ec, l, e, [], add, post, base);
  }

  /** Reading the cache from its j-th block on. */
  lemma ReadFrom(cfg: Config, ec: EpochConfig, l: seq<Txn>, e: nat, all: seq<Block>, j: nat, prices: Prices)
    requires Safe(cfg, ec) && Readable(l, all) && j < |all| && Represents(prices, e, EntriesOf(cfg, ec, l, all))
    ensures Readable(l, all[j..])
    ensures CachedBelow(prices, e, all[j].last) == PricesOf(cfg, ec, l, all[j..])
  {
    EntriesSlice(cfg, ec, l, all, j, |all|);
    CachedBelowIsTail(prices, e, EntriesOf(cfg, ec, l, all), j);
    assert all[j..|all|] == all[j..];
    assert EntriesOf(cfg, ec, l, all)[j..|all|] == EntriesOf(cfg, ec, l, all)[j..];
  }

  lemma AheadLists(known: seq<Block>, bs: seq<Block>, n: nat)
    requires Suffix(known, bs) && Falling(bs)
    ensures var d, cached := |bs| - |known|, Newest(known, n);
            var add := bs[..Min(d, n)];
            && Falling(add + cached)
            && Newest(add + cached, n) == Newest(bs, n)
            && (d <= n ==> add + cached[..Min(n - d, |cached|)] == Newest(bs, n) && (add + cached)[d..] == cached)
  {
    var d, cached := |bs| - |known|, Newest(known, n);
    var add := bs[..Min(d, n)];
    AheadNewest(known, bs, n);
    AheadFalling(known, bs, n);
    hide Falling, Suffix;
  }

  lemma AheadIndex(known: seq<Block>, bs: seq<Block>, n: nat)
    requires Suffix(known, bs)
    ensures var d, cached := |bs| - |known|, Newest(known, n);
            var add := bs[..Min(d, n)];
            forall i :: 0 <= i < |add + cached| ==> (add + cached)[i] == bs[if i < |add| then i else d + i - |add|]
  {
    var d := |bs| - |known|;
    assert forall i :: 0 <= i < |known| ==> known[i] == bs[d..][i];
  }

  lemma AheadFalling(known: seq<Block>, bs: seq<Block>, n: nat)
    requires Suffix(known, bs) && Falling(bs)
    ensures Falling(bs[..Min(|bs| - |known|, n)] + Newest(known, n))
  {
    AheadIndex(known, bs, n);
    hide Suffix;
  }

  lemma AheadNewest(known: seq<Block>, bs: seq<Block>, n: nat)
    requires Suffix(known, bs)
    ensures var d, cached := |bs| - |known|, Newest(known, n);
            var add := bs[..Min(d, n)];
            && Newest(add + cached, n) == Newest(bs, n)
            && (d <= n ==> add + cached[..Min(n - d, |cached|)] == Newest(bs, n) && (add + cached)[d..] == cached)
  {
    var d, cached := |bs| - |known|, Newest(known, n);
    AheadIndex(known, bs, n);
    if d <= n {
      var add := bs[..d];
      assert (add + cached)[..Min(n, |add + cached|)] == add + cached[..Min(n - d, |cached|)];
    }
  }

  /** Pricing the new blocks moves the window up. */
  lemma AheadCache(cfg: Config, ec: EpochConfig, l: seq<Txn>, e: nat, known: seq<Block>, bs: seq<Block>, base: Prices)
    requires |l| > 0 && l[0].Genesis? && Safe(cfg, ec)
    requires Window(cfg, ec, l, e, known, base) && GoodHistory(l, e, bs) && Suffix(known, bs)
    ensures var n := cfg.aggressiveHistory;
            var add := bs[..Min(|bs| - |known|, n)];
            var filled := InsertAll(cfg, ec, l, e, add, base);
            && Readable(l, add + Newest(known, n))
            && Represents(filled, e, EntriesOf(cfg, ec, l, add + Newest(known, n)))
            && Window(cfg, ec, l, e, bs, Gc(filled, n))
  {
    hide Represents, FallingEntries, Falling, Readable;
    var n := cfg.aggressiveHistory;
    var add, cached := bs[..Min(|bs| - |known|, n)], Newest(known, n);
    AheadLists(known, bs, n);
    EntriesSlice(cfg, ec, l, bs, 0, |add|);
    EntriesSlice(cfg, ec, l, known, 0, |cached|);
    FillFront(cfg, ec, l, e, add, cached, base);
  }

  lemma PricesPrefix(cfg: Config, ec: EpochConfig, l: seq<Txn>, bs: seq<Block>, k: nat)
    requires Safe(cfg, ec) && Readable(l, bs) && k <= |bs|
    ensures Readable(l, bs[..k]) && |PricesOf(cfg, ec, l, bs)| == |bs|
    ensures PricesOf(cfg, ec, l, bs)[..k] == PricesOf(cfg, ec, l, bs[..k])
  {
    hide PriceOf;
  }

  lemma AheadPrices(cfg: Config, ec: EpochConfig, l: seq<Txn>, e: nat, known: seq<Block>, bs: seq<Block>,
                    filled: Prices)
    requires |l| > 0 && l[0].Genesis? && Safe(cfg, ec) && GoodHistory(l, e, bs) && Suffix(known, bs) && known != []
    requires |bs| - |known| < cfg.aggressiveHistory
    requires var add := bs[..|bs| - |known|];
             && Readable(l, add + Newest(known, cfg.aggressiveHistory))
             && Represents(filled, e, EntriesOf(cfg, ec, l, add + Newest(known, cfg.aggressiveHistory)))
    ensures var n, d := cfg.aggressiveHistory, |bs| - |known|;
            && Readable(l, bs[..d]) && Readable(l, Newest(bs, n))
            && PricesOf(cfg, ec, l, bs[..d]) + Latest(CachedBelow(filled, e, bs[d].last), n - d)
               == PricesOf(cfg, ec, l, Newest(bs, n))
  {
    hide Represents, FallingEntries, Falling, CachedBelow, EntriesOf, PricesOf;
    var n, d, cached := cfg.aggressiveHistory, |bs| - |known|, Newest(known, cfg.aggressiveHistory);
    var add, take := bs[..d], Min(n - d, |cached|);
    AheadLists(known, bs, n);
    assert (add + cached)[d] == known[0] == bs[d];
    ReadFrom(cfg, ec, l, e, add + cached, d, filled);
    PricesPrefix(cfg, ec, l, cached, take);
    EntriesConcat(cfg, ec, l, add, cached[..take]);
  }

  /** At or past the high-water mark the warm list is the cold list, and the window moves up to it. */
  lemma FinishAhead(cfg: Config, ec: EpochConfig, l: seq<Txn>, e: nat, known: seq<Block>, bs: seq<Block>,
                    base: Prices, scan: Scan)
    requires |l| > 0 && l[0].Genesis? && Safe(cfg, ec) && cfg.aggressiveHistory >= 1
    requires Window(cfg, ec, l, e, known, base) && GoodHistory(l, e, bs) && Suffix(known, bs)
    requires Follows(scan, bs, Misses(bs, e, cfg.aggressiveHistory, base), cfg.aggressiveHistory)
    ensures Readable(l, scan.blocks) && Readable(l, Newest(bs, cfg.aggressiveHistory))
    ensures var (c', prices) := Finish(cfg, ec, l, e, base, scan);
            && c'.epoch == Some(e) && Window(cfg, ec, l, e, bs, c'.prices)
            && prices == PricesOf(cfg, ec, l, Newest(bs, cfg.aggressiveHistory))
  {
    hide Represents, FallingEntries, Falling, CachedBelow, Gc, InsertAll, EntriesOf, Holds, Misses;
    var n, d := cfg.aggressiveHistory, |bs| - |known|;
    RepresentsHolds(cfg, ec, l, e, Newest(known, n), base);
    MissesWhenAhead(e, n, known, bs, base);
    AheadCache(cfg, ec, l, e, known, bs, base);
    if scan.hit {
      AheadPrices(cfg, ec, l, e, known, bs, InsertAll(cfg, ec, l, e, bs[..d], base));
    } else {
      assert scan.blocks == Newest(bs, n);
      if bs == [] { assert known == []; }
    }
  }

  // ----- Behind the high-water mark -----

  /** The blocks a caller behind the cache gets: inside the window the list ends where the window
      ends, below it nothing is cached. */
  function Seen(known: seq<Block>, bs: seq<Block>, n: nat): seq<Block>
    requires |bs| <= |known|
  {
    var d := |known| - |bs|;
    if d < n then bs[..Min(n, |known|) - d] else Newest(bs, n)
  }

  lemma SeenIsPrefix(known: seq<Block>, bs: seq<Block>, n: nat)
    requires |bs| <= |known|
    ensures Seen(known, bs, n) <= Newest(bs, n)
    ensures var d := |known| - |bs|;
            Seen(known, bs, n) == Newest(bs, n) <==> d == 0 || d >= n || |known| <= n
  {
  }

  lemma BehindInside(cfg: Config, ec: EpochConfig, l: seq<Txn>, e: nat, known: seq<Block>, bs: seq<Block>,
                     base: Prices, scan: Scan)
    requires |l| > 0 && l[0].Genesis? && Safe(cfg, ec)
    requires Window(cfg, ec, l, e, known, base) && Suffix(bs, known) && |known| - |bs| < cfg.aggressiveHistory
    requires bs != [] && scan == Scan([], bs[0].last, true)
    ensures Readable(l, scan.blocks) && Readable(l, Seen(known, bs, cfg.aggressiveHistory))
    ensures var (c', prices) := Finish(cfg, ec, l, e, base, scan);
            && c'.epoch == Some(e) && Window(cfg, ec, l, e, known, c'.prices)
            && prices == PricesOf(cfg, ec, l, Seen(known, bs, cfg.aggressiveHistory))
  {
    hide Represents, FallingEntries, Falling, CachedBelow, Gc, InsertAll, EntriesOf, PricesOf, Seen;
    var n, d := cfg.aggressiveHistory, |known| - |bs|;
    var cached := Newest(known, n);
    BehindLists(known, bs, n);
    NothingToTrim(cfg, ec, l, e, cached, base);
    ReadFrom(cfg, ec, l, e, cached, d, base);
    PricesPrefix(cfg, ec, l, cached[d..], |cached| - d);
    PricesPrefix(cfg, ec, l, [], 0);
  }

  lemma BehindLists(known: seq<Block>, bs: seq<Block>, n: nat)
    requires Suffix(bs, known) && |known| - |bs| < n && bs != []
    ensures var cached, d := Newest(known, n), |known| - |bs|;
            d < |cached| && cached[d] == bs[0] && cached[d..] == Seen(known, bs, n)
  {
    var cached, d := Newest(known, n), |known| - |bs|;
    assert forall i :: 0 <= i < |bs| ==> bs[i] == known[d..][i] == known[d + i];
    assert forall i :: 0 <= i < |cached| - d ==> cached[d..][i] == bs[..|cached| - d][i];
  }

  /** Pricing nothing and trimming to the size it has leaves a cache alone. */
  lemma NothingToTrim(cfg: Config, ec: EpochConfig, l: seq<Txn>, e: nat, cached: seq<Block>, base: Prices)
    requires Safe(cfg, ec) && Readable(l, cached) && |cached| <= cfg.aggressiveHistory
    requires Represents(base, e, EntriesOf(cfg, ec, l, cached))
    ensures InsertAll(cfg, ec, l, e, [], base) == base
    ensures Represents(Gc(base, cfg.aggressiveHistory), e, EntriesOf(cfg, ec, l, cached))
  {
    hide Represents;
    var es := EntriesOf(cfg, ec, l, cached);
    GcKeepsNewest(base, e, es, cfg.aggressiveHistory);
    assert es[..|es|] == es;
  }

  lemma BehindFalling(known: seq<Block>, bs: seq<Block>, n: nat)
    requires Suffix(bs, known) && |known| - |bs| >= n && Falling(known)
    ensures Falling(Newest(known, n) + Newest(bs, n) + [])
  {
    var d, all := |known| - |bs|, Newest(known, n) + Newest(bs, n);
    assert forall i :: 0 <= i < |bs| ==> bs[i] == known[d..][i];
    assert forall i :: 0 <= i < |all| ==> all[i] == known[if i < n then i else d + i - n];
    assert all + [] == all;
  }

  lemma BehindBelow(cfg: Config, ec: EpochConfig, l: seq<Txn>, e: nat, known: seq<Block>, bs: seq<Block>,
                    base: Prices, scan: Scan)
    requires |l| > 0 && l[0].Genesis? && Safe(cfg, ec) && cfg.aggressiveHistory >= 1
    requires Window(cfg, ec, l, e, known, base) && Suffix(bs, known) && |known| - |bs| >= cfg.aggressiveHistory
    requires bs != [] && scan.blocks == Newest(bs, cfg.aggressiveHistory) && !scan.hit
    ensures Readable(l, scan.blocks)
    ensures var (c', prices) := Finish(cfg, ec, l, e, base, scan);
            && c'.epoch == Some(e) && Window(cfg, ec, l, e, known, c'.prices)
            && prices == PricesOf(cfg, ec, l, scan.blocks)
  {
    hide Represents, FallingEntries, CachedBelow, Gc, InsertAll, EntriesOf, PricesOf;
    var n, d := cfg.aggressiveHistory, |known| - |bs|;
    var cached, add := Newest(known, n), scan.blocks;
    BehindFalling(known, bs, n);
    hide Falling;
    assert cached + [] == cached;
    FillAndTrim(cfg, ec, l, e, cached, add, [], base);
    assert Newest(cached + add + [], n) == cached;
  }

  /** Behind the high-water mark the window stays where it is, and the caller gets what it shows. */
  lemma FinishBehind(cfg: Config, ec: EpochConfig, l: seq<Txn>, e: nat, known: seq<Block>, bs: seq<Block>,
                     base: Prices, scan: Scan)
    requires |l| > 0 && l[0].Genesis? && Safe(cfg, ec) && cfg.aggressiveHistory >= 1
    requires Window(cfg, ec, l, e, known, base) && Suffix(bs, known)
    requires Follows(scan, bs, Misses(bs, e, cfg.aggressiveHistory, base), cfg.aggressiveHistory)
    ensures Readable(l, scan.blocks) && Readable(l, Seen(known, bs, cfg.aggressiveHistory))
    ensures var (c', prices) := Finish(cfg, ec, l, e, base, scan);
            && c'.epoch == Some(e) && Window(cfg, ec, l, e, known, c'.prices)
            && prices == PricesOf(cfg, ec, l, Seen(known, bs, cfg.aggressiveHistory))
  {
    hide Represents, FallingEntries, Falling;
    var n, d := cfg.aggressiveHistory, |known| - |bs|;
    if bs != [] {
      RepresentsHolds(cfg, ec, l, e, Newest(known, n), base);
      MissesWhenBehind(e, n, known, bs, base);
      if d < n {
        assert scan == Scan([], bs[0].last, true);
        BehindInside(cfg, ec, l, e, known, bs, base, scan);
      } else {
        BehindBelow(cfg, ec, l, e, known, bs, base, scan);
      }
    }
  }

  // ----- Runs -----

  /** A full computation: the ledger as the node has it, and the ledger version of the request. */
  datatype Call = Call(ledger: seq<Txn>, version: nat) {
    ghost predicate Good() {
      WellFormed(ledger) && version < |ledger| && EpochOf(ledger, version) >= 1
    }

    function Epoch(): nat
      requires version < |ledger| && ledger[0].Genesis?
    {
      EpochOf(ledger, version)
    }

    /** The finished blocks of the epoch before the one the request is in, newest first. */
    function History(): seq<Block>
      requires version < |ledger| && ledger[0].Genesis?
    {
      Back(ledger, StartOf(ledger, version, Epoch()), Epoch())
    }
  }

  /** The two configurations a run is computed under; the on-chain one depends on the epoch only. */
  datatype Settings = Settings(cfg: Config, onChain: nat -> EpochConfig) {
    ghost predicate Valid() {
      cfg.aggressiveHistory >= 1 && forall e :: Safe(cfg, onChain(e))
    }
  }

  /** Requests come in any order of versions; the ledger only grows. */
  ghost predicate Growing(calls: seq<Call>) {
    && (forall i :: 0 <= i < |calls| ==> calls[i].Good())
    && (forall i, j :: 0 <= i <= j < |calls| ==> calls[i].ledger <= calls[j].ledger)
  }

  ghost function CacheAfter(st: Settings, calls: seq<Call>): Cache
    requires st.Valid() && Growing(calls)
  {
    if calls == [] then Cache(None, map[]) else
    var call := calls[|calls| - 1];
    Refresh(st.cfg, st.onChain(call.Epoch()), call.ledger, call.version, call.Epoch(),
            CacheAfter(st, calls[..|calls| - 1])).0
  }

  /** The price list the last call of a run computes with the cache left by the calls before it. */
  ghost function WarmPrices(st: Settings, calls: seq<Call>): seq<nat>
    requires st.Valid() && Growing(calls) && calls != []
  {
    var call := calls[|calls| - 1];
    Refresh(st.cfg, st.onChain(call.Epoch()), call.ledger, call.version, call.Epoch(),
            CacheAfter(st, calls[..|calls| - 1])).1
  }

  /** The list computed from an empty cache, straight from the ledger. */
  ghost function ColdPrices(st: Settings, call: Call): seq<nat>
    requires st.Valid() && call.Good()
  {
    HistoryReadable(call);
    PricesOf(st.cfg, st.onChain(call.Epoch()), call.ledger, Newest(call.History(), st.cfg.aggressiveHistory))
  }

  lemma HistoryReadable(call: Call)
    requires call.Good()
    ensures LookupPoint(call.ledger, StartOf(call.ledger, call.version, call.Epoch()), call.Epoch())
    ensures StartOf(call.ledger, call.version, call.Epoch()) < call.version
    ensures GoodHistory(call.ledger, call.Epoch(), call.History())
    ensures forall n: nat :: Readable(call.ledger, Newest(call.History(), n))
  {
    BackFacts(call.ledger, StartOf(call.ledger, call.version, call.Epoch()), call.Epoch());
  }

  /** The highest version looked back from since the epoch of the last call was entered. */
  ghost function Top(calls: seq<Call>): nat
    requires Growing(calls) && calls != []
  {
    var call := calls[|calls| - 1];
    var w := StartOf(call.ledger, call.version, call.Epoch());
    if |calls| == 1 || calls[|calls| - 2].Epoch() != call.Epoch() then w
    else Max(w, Top(calls[..|calls| - 1]))
  }

  /** What the cache has seen before the last call: nothing, if that call enters another epoch. */
  ghost function KnownBefore(calls: seq<Call>): seq<Block>
    requires Growing(calls) && calls != []
  {
    var call := calls[|calls| - 1];
    if |calls| == 1 || calls[|calls| - 2].Epoch() != call.Epoch() || Top(calls[..|calls| - 1]) >= |call.ledger| then []
    else Back(call.ledger, Top(calls[..|calls| - 1]), call.Epoch())
  }

  /** A growing ledger does not disturb the window. */
  lemma WindowStable(cfg: Config, ec: EpochConfig, l: seq<Txn>, l': seq<Txn>, e: nat, bs: seq<Block>, prices: Prices)
    requires WellFormed(l) && WellFormed(l') && l <= l' && Safe(cfg, ec) && Window(cfg, ec, l, e, bs, prices)
    ensures Window(cfg, ec, l', e, bs, prices)
  {
    var cached := Newest(bs, cfg.aggressiveHistory);
    forall i | 0 <= i < |bs| ensures EpochOf(l', bs[i].last) == e { BlockStable(l, l', bs[i].last); }
    forall i | 0 <= i < |cached| ensures PriceOf(cfg, ec, l, cached[i]) == PriceOf(cfg, ec, l', cached[i]) {
      PriceStable(cfg, ec, l, l', cached[i]);
    }
    assert EntriesOf(cfg, ec, l, cached) == EntriesOf(cfg, ec, l', cached);
  }

  /** One call, from a window over `known`: the lists are related as suffixes one way or the other. */
  lemma OneCall(st: Settings, call: Call, c: Cache, known: seq<Block>)
    requires st.Valid() && call.Good()
    requires Window(st.cfg, st.onChain(call.Epoch()), call.ledger, call.Epoch(), known, BaseFor(c, call.Epoch()))
    requires Suffix(known, call.History()) || Suffix(call.History(), known)
    ensures var (l, e, ec) := (call.ledger, call.Epoch(), st.onChain(call.Epoch()));
            var (bs, n) := (call.History(), st.cfg.aggressiveHistory);
            var (c', prices) := Refresh(st.cfg, ec, l, call.version, e, c);
            && c'.epoch == Some(e)
            && if |known| <= |bs| then
                 prices == ColdPrices(st, call) && Window(st.cfg, ec, l, e, bs, c'.prices)
               else
                 && Readable(l, Seen(known, bs, n)) && prices == PricesOf(st.cfg, ec, l, Seen(known, bs, n))
                 && Window(st.cfg, ec, l, e, known, c'.prices)
  {
    hide Represents, FallingEntries, Falling;
    var (l, e, bs, n) := (call.ledger, call.Epoch(), call.History(), st.cfg.aggressiveHistory);
    var ec, base, w := st.onChain(e), BaseFor(c, e), StartOf(l, call.version, e);
    HistoryReadable(call);
    WindowOfEpoch(st.cfg, ec, l, e, known, base);
    ScanFollowsHistory(l, w, e, n, base);
    if |known| <= |bs| {
      assert Suffix(known, bs);
      FinishAhead(st.cfg, ec, l, e, known, bs, base, ScanFor(st.cfg, l, call.version, e, c));
    } else {
      FinishBehind(st.cfg, ec, l, e, known, bs, base, ScanFor(st.cfg, l, call.version, e, c));
    }
  }

  /** The state of a run: the cache is the window below the high-water mark of the current epoch. */
  ghost predicate AtWindow(st: Settings, calls: seq<Call>)
    requires st.Valid() && Growing(calls) && calls != []
  {
    var call, c := calls[|calls| - 1], CacheAfter(st, calls);
    && c.epoch == Some(call.Epoch())
    && LookupPoint(call.ledger, Top(calls), call.Epoch())
    && Window(st.cfg, st.onChain(call.Epoch()), call.ledger, call.Epoch(),
              Back(call.ledger, Top(calls), call.Epoch()), c.prices)
  }

  lemma EmptyWindow(cfg: Config, ec: EpochConfig, l: seq<Txn>, e: nat)
    requires |l| > 0 && l[0].Genesis? && Safe(cfg, ec)
    ensures Window(cfg, ec, l, e, [], map[])
  {
  }

  /** The cache shows `known`, and one of `known` and the caller's history continues the other. */
  ghost predicate Found(st: Settings, call: Call, c: Cache, known: seq<Block>)
    requires st.Valid() && call.Good()
  {
    var (e, bs) := (call.Epoch(), call.History());
    && Window(st.cfg, st.onChain(e), call.ledger, e, known, BaseFor(c, e))
    && if |known| <= |bs| then Suffix(known, bs) else Suffix(bs, known)
  }

  /** The high-water mark is where the longer of the two starts. */
  ghost predicate TopShows(call: Call, top: nat, known: seq<Block>)
    requires call.Good()
  {
    var (l, e, bs) := (call.ledger, call.Epoch(), call.History());
    LookupPoint(l, top, e) && Back(l, top, e) == if |known| <= |bs| then bs else known
  }

  /** What the last call of a run finds in the cache. */
  lemma Before(st: Settings, calls: seq<Call>)
    requires st.Valid() && Growing(calls) && calls != []
    requires |calls| > 1 ==> AtWindow(st, calls[..|calls| - 1])
    ensures Found(st, calls[|calls| - 1], CacheAfter(st, calls[..|calls| - 1]), KnownBefore(calls))
    ensures TopShows(calls[|calls| - 1], Top(calls), KnownBefore(calls))
    ensures var call := calls[|calls| - 1];
            |calls| > 1 && Top(calls[..|calls| - 1]) <= StartOf(call.ledger, call.version, call.Epoch()) ==>
              |KnownBefore(calls)| <= |call.History()|
  {
    hide Represents, FallingEntries, Falling, First, Last, EpochsRise;
    var call := calls[|calls| - 1];
    var (l, e) := (call.ledger, call.Epoch());
    var w := StartOf(l, call.version, e);
    HistoryReadable(call);
    EmptyWindow(st.cfg, st.onChain(e), l, e);
    assert Suffix([], call.History());
    if |calls| > 1 {
      var prev, front := calls[|calls| - 2], calls[..|calls| - 1];
      assert front[|front| - 1] == prev && prev.ledger <= l;
      var top := Top(front);
      if prev.Epoch() == e {
        BackStable(prev.ledger, l, top, e);
        assert LookupPoint(l, top, e);
        WindowStable(st.cfg, st.onChain(e), prev.ledger, l, e, Back(l, top, e), CacheAfter(st, front).prices);
        if top <= w { BackExtends(l, top, w, e); } else { BackExtends(l, w, top, e); }
      }
    }
  }

  lemma {:induction false} RunAtWindow(st: Settings, calls: seq<Call>)
    requires st.Valid() && Growing(calls) && calls != []
    ensures AtWindow(st, calls)
    decreases |calls|
  {
    hide Window;
    var front := calls[..|calls| - 1];
    if front != [] { RunAtWindow(st, front); }
    Before(st, calls);
    OneCall(st, calls[|calls| - 1], CacheAfter(st, front), KnownBefore(calls));
  }

  /** After every call the cache holds exactly the prices of the newest finished blocks of the current
      epoch below the high-water mark, as many as the history limit allows, and nothing else. */
  lemma {:induction false} CacheIsNewestBlocks(st: Settings, calls: seq<Call>)
    requires st.Valid() && Growing(calls) && calls != []
    ensures var call, c := calls[|calls| - 1], CacheAfter(st, calls);
            && Top(calls) < |call.ledger|
            && var bs := Newest(Back(call.ledger, Top(calls), call.Epoch()), st.cfg.aggressiveHistory);
               && Readable(call.ledger, bs)
               && c.epoch == Some(call.Epoch()) && |c.prices| == |bs|
               && (forall k :: k in c.prices <==>
                     k.epoch == call.Epoch() && exists i :: 0 <= i < |bs| && bs[i].last == k.version)
               && (forall i :: 0 <= i < |bs| ==>
                     && Key(call.Epoch(), bs[i].last) in c.prices
                     && c.prices[Key(call.Epoch(), bs[i].last)]
                        == PriceOf(st.cfg, st.onChain(call.Epoch()), call.ledger, bs[i]))
  {
    RunAtWindow(st, calls);
    var call, c := calls[|calls| - 1], CacheAfter(st, calls);
    var (l, e) := (call.ledger, call.Epoch());
    var bs := Newest(Back(l, Top(calls), e), st.cfg.aggressiveHistory);
    var es := EntriesOf(st.cfg, st.onChain(e), l, bs);
    RepresentsSize(c.prices, e, es);
    RepresentsHolds(st.cfg, st.onChain(e), l, e, bs, c.prices);
    forall i | 0 <= i < |bs|
      ensures Key(e, bs[i].last) in c.prices && c.prices[Key(e, bs[i].last)] == PriceOf(st.cfg, st.onChain(e), l, bs[i])
    {
      assert es[i].version == bs[i].last;
    }
    forall k ensures k in c.prices <==> k.epoch == e && exists i :: 0 <= i < |bs| && bs[i].last == k.version {
      assert k.epoch == e ==> k == Key(e, k.version);
    }
  }

  /** How many finished blocks the last caller is behind the newest one the cache has seen. */
  ghost function Behind(calls: seq<Call>): nat
    requires Growing(calls) && calls != []
  {
    var known, bs := KnownBefore(calls), calls[|calls| - 1].History();
    if |known| <= |bs| then 0 else |known| - |bs|
  }

  /** In any order of calls the warm list is a leading part of the cold one, and it is the whole cold
      list except in one case: the caller lags the cache by at least one block but fewer than the
      history limit, and the epoch has more finished blocks than the cache keeps. */
  lemma {:induction false} WarmEqualsCold(st: Settings, calls: seq<Call>)
    requires st.Valid() && Growing(calls) && calls != []
    ensures var warm, cold, n := WarmPrices(st, calls), ColdPrices(st, calls[|calls| - 1]), st.cfg.aggressiveHistory;
            && warm <= cold
            && (warm == [] <==> cold == [])
            && (warm == cold <==> Behind(calls) == 0 || Behind(calls) >= n || |KnownBefore(calls)| <= n)
  {
    hide Window, AtWindow, Top, KnownBefore, CacheAfter, Refresh, StartOf, Back, First, Last, EpochsRise;
    var call, front := calls[|calls| - 1], calls[..|calls| - 1];
    var n, bs := st.cfg.aggressiveHistory, call.History();
    if front != [] { RunAtWindow(st, front); }
    Before(st, calls);
    var known := KnownBefore(calls);
    OneCall(st, call, CacheAfter(st, front), known);
    if |known| > |bs| {
      SeenIsPrefix(known, bs, n);
      HistoryReadable(call);
      assert |Seen(known, bs, n)| == |Newest(bs, n)| <==> Seen(known, bs, n) == Newest(bs, n);
    }
  }

  // A run in which the lists differ: genesis and four empty blocks, with a history limit of two blocks.

  function FourBlocks(): (l: seq<Txn>)
    ensures |l| == 5
  {
    [Genesis, BlockMetadata(1, 1), BlockMetadata(1, 2), BlockMetadata(1, 3), BlockMetadata(1, 4)]
  }

  lemma FourBlocksFacts()
    ensures WellFormed(FourBlocks())
    ensures forall v :: 0 < v < 5 ==>
              First(FourBlocks(), v) == v == Last(FourBlocks(), v) && EpochOf(FourBlocks(), v) == 1
    ensures EpochOf(FourBlocks(), 0) == 0
  {
    var l := FourBlocks();
    assert EpochsRise(l, 0) && EpochsRise(l, 1) && EpochsRise(l, 2) && EpochsRise(l, 3) && EpochsRise(l, 4);
  }

  /** The block of each version up to `w`, newest first. */
  lemma {:induction false} FourBlocksBack(w: nat)
    requires w < 5
    ensures |Back(FourBlocks(), w, 1)| == w
  {
    FourBlocksFacts();
    hide First, Last, EpochOf, FourBlocks, EpochsRise, Back;
    BackStep(FourBlocks(), w, 1);
    if w > 0 { FourBlocksBack(w - 1); }
  }

  /** A caller at version 3 after one at version 4 gets less than the ledger alone would give it. */
  lemma LaggingCallerGetsLess(st: Settings)
    requires st.Valid() && st.cfg.aggressiveHistory == 2
    ensures var calls := [Call(FourBlocks(), 4), Call(FourBlocks(), 3)];
            Growing(calls) && WarmPrices(st, calls) < ColdPrices(st, calls[1])
  {
    var calls := [Call(FourBlocks(), 4), Call(FourBlocks(), 3)];
    FourBlocksFacts();
    FourBlocksBack(3);
    FourBlocksBack(2);
    hide First, Last, EpochOf, FourBlocks, Back, WarmPrices, ColdPrices, EpochsRise;
    assert Growing(calls);
    assert calls[..1] == [calls[0]];
    assert Top(calls[..1]) == 3 && |KnownBefore(calls)| == 3 && |calls[1].History()| == 2;
    WarmEqualsCold(st, calls);
  }

  /** With ledger versions that never go back, the cache changes nothing. */
  lemma {:induction false} WarmEqualsColdInOrder(st: Settings, calls: seq<Call>)
    requires st.Valid() && Growing(calls) && InOrder(calls) && calls != []
    ensures WarmPrices(st, calls) == ColdPrices(st, calls[|calls| - 1])
  {
    hide Window;
    var call := calls[|calls| - 1];
    if |calls| > 1 {
      RunAtWindow(st, calls[..|calls| - 1]);
      if calls[|calls| - 2].Epoch() == call.Epoch() { TopInOrder(calls); }
    }
    Before(st, calls);
    WarmEqualsCold(st, calls);
  }

  lemma StartMonotone(prev: Call, call: Call)
    requires prev.Good() && call.Good() && prev.ledger <= call.ledger
    requires prev.version <= call.version && prev.Epoch() == call.Epoch()
    ensures StartOf(prev.ledger, prev.version, prev.Epoch()) <= StartOf(call.ledger, call.version, call.Epoch())
  {
    hide EpochsRise;
    FirstStable(prev.ledger, call.ledger, prev.version);
    FirstIsLatest(call.ledger, call.version, First(call.ledger, prev.version));
  }

  ghost predicate InOrder(calls: seq<Call>) {
    forall i, j :: 0 <= i <= j < |calls| ==> calls[i].version <= calls[j].version
  }

  lemma OrderedFront(calls: seq<Call>)
    requires Growing(calls) && InOrder(calls) && |calls| > 1
    ensures Growing(calls[..|calls| - 1]) && InOrder(calls[..|calls| - 1])
    ensures var prev, call := calls[|calls| - 2], calls[|calls| - 1];
            prev.Good() && call.Good() && prev.ledger <= call.ledger && prev.version <= call.version
    ensures |calls| > 2 ==> calls[|calls| - 3].Good()
  {
  }

  lemma {:induction false} TopInOrder(calls: seq<Call>)
    requires Growing(calls) && InOrder(calls) && |calls| > 1
    requires calls[|calls| - 2].Epoch() == calls[|calls| - 1].Epoch()
    ensures var call := calls[|calls| - 1];
            Top(calls[..|calls| - 1]) <= StartOf(call.ledger, call.version, call.Epoch())
    decreases |calls|
  {
    hide StartOf, First, Last, EpochsRise, Growing, InOrder;
    var n := |calls|;
    var front, prev, call := calls[..n - 1], calls[n - 2], calls[n - 1];
    OrderedFront(calls);
    StartMonotone(prev, call);
    if n > 2 && calls[n - 3].Epoch() == prev.Epoch() {
      TopInOrder(front);
    }
  }
}
