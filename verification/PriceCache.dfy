/** The per-block price cache of the gas estimator: an ordered map from (epoch, last version of a
    block) to the price of that block, filled by scanning back and trimmed to the newest entries. */
module PriceCache {
  import opened Options
  import opened Ledger
  import opened BlockHistory
  import opened GasPricing

  datatype Key = Key(epoch: nat, version: nat)

  type Prices = map<Key, nat>

  datatype Cache = Cache(epoch: Option<nat>, prices: Prices)

  datatype Scan = Scan(blocks: seq<Block>, lookup: nat, hit: bool)

  predicate KeyLe(a: Key, b: Key) {
    a.epoch < b.epoch || (a.epoch == b.epoch && a.version <= b.version)
  }

  /** Where the scan begins: before the newest block, which may still grow. */
  function StartOf(l: seq<Txn>, ledgerVersion: nat, e: nat): nat
    requires ledgerVersion < |l| && l[0].Genesis?
  {
    if EpochOf(l, ledgerVersion) != e then ledgerVersion
    else if First(l, ledgerVersion) == 0 then 0
    else First(l, ledgerVersion) - 1
  }

  /** Walks back at most `n` blocks of the epoch, stopping at the first one already priced. */
  function ScanBlocks(l: seq<Txn>, w: nat, e: nat, n: nat, prices: Prices): (r: Scan)
    requires w < |l| && l[0].Genesis?
    ensures Readable(l, r.blocks)
    decreases n
  {
    if n == 0 then Scan([], w, false)
    else if Key(e, w) in prices then Scan([], w, true)
    else if EpochOf(l, w) != e then Scan([], w, false)
    else
      var b := BlockAt(l, w);
      if b.first <= 1 then Scan([b], 0, false)
      else
        var rest := ScanBlocks(l, b.first - 1, e, n - 1, prices);
        Scan([b] + rest.blocks, rest.lookup, rest.hit)
  }

  ghost predicate Readable(l: seq<Txn>, bs: seq<Block>) {
    forall i :: 0 <= i < |bs| ==> bs[i].first <= bs[i].last < |l|
  }

  ghost function PricesOf(cfg: Config, ec: EpochConfig, l: seq<Txn>, bs: seq<Block>): seq<nat>
    requires Safe(cfg, ec) && Readable(l, bs)
  {
    seq(|bs|, i requires 0 <= i < |bs| => PriceOf(cfg, ec, l, bs[i]))
  }

  ghost function InsertAll(cfg: Config, ec: EpochConfig, l: seq<Txn>, e: nat, bs: seq<Block>, prices: Prices): Prices
    requires Safe(cfg, ec) && Readable(l, bs)
  {
    if bs == [] then prices else
    var last := bs[|bs| - 1];
    InsertAll(cfg, ec, l, e, bs[..|bs| - 1], prices)[Key(e, last.last) := PriceOf(cfg, ec, l, last)]
  }

  ghost function Greatest(s: set<nat>): (m: nat)
    requires s != {}
    ensures m in s && forall x :: x in s ==> x <= m
  {
    var x :| x in s;
    if s == {x} then x else
    var m := Greatest(s - {x});
    assert forall y :: y in s <==> y == x || y in s - {x};
    if m < x then x else m
  }

  ghost function Descending(s: set<nat>): seq<nat> {
    if s == {} then [] else [Greatest(s)] + Descending(s - {Greatest(s)})
  }

  function VersionsUpTo(prices: Prices, e: nat, bound: nat): set<nat> {
    set k | k in prices && k.epoch == e && k.version <= bound :: k.version
  }

  /** The cached prices of an epoch at or below a version, newest first. */
  ghost function CachedBelow(prices: Prices, e: nat, bound: nat): seq<nat> {
    ValuesAt(prices, e, Descending(VersionsUpTo(prices, e, bound)))
  }

  ghost function ValuesAt(prices: Prices, e: nat, vs: seq<nat>): seq<nat> {
    seq(|vs|, i requires 0 <= i < |vs| => if Key(e, vs[i]) in prices then prices[Key(e, vs[i])] else 0)
  }

  ghost predicate IsFirst(prices: Prices, k: Key) {
    k in prices && forall k' :: k' in prices ==> KeyLe(k, k')
  }

  lemma {:induction false} FirstExists(prices: Prices)
    requires prices != map[]
    ensures exists k :: IsFirst(prices, k)
    decreases prices.Keys
  {
    var x :| x in prices;
    var rest := prices - {x};
    if rest == map[] {
      assert forall k :: k in prices ==> k == x || k in rest;
      assert IsFirst(prices, x);
    } else {
      FirstExists(rest);
      var k :| IsFirst(rest, k);
      var least := if KeyLe(k, x) then k else x;
      forall k' | k' in prices ensures KeyLe(least, k') { if k' != x { assert k' in rest; } }
      assert IsFirst(prices, least);
    }
  }

  /** Removes first entries until at most `n` are left. */
  ghost function Gc(prices: Prices, n: nat): Prices
    decreases |prices|
  {
    if |prices| <= n then prices else
    FirstExists(prices);
    var k :| IsFirst(prices, k);
    assert (prices - {k}).Keys == prices.Keys - {k};
    Gc(prices - {k}, n)
  }

  /** Prices the scanned blocks, completes the list from the cache and trims the cache. */
  ghost function Finish(cfg: Config, ec: EpochConfig, l: seq<Txn>, e: nat, base: Prices, scan: Scan)
    : (Cache, seq<nat>)
    requires Safe(cfg, ec) && Readable(l, scan.blocks)
  {
    var n := cfg.aggressiveHistory;
    if scan.blocks == [] && !scan.hit then (Cache(Some(e), base), []) else
    var filled := InsertAll(cfg, ec, l, e, scan.blocks, base);
    var cached := if scan.hit then Latest(CachedBelow(filled, e, scan.lookup), n - Min(n, |scan.blocks|)) else [];
    (Cache(Some(e), Gc(filled, n)), PricesOf(cfg, ec, l, scan.blocks) + cached)
  }

  /** One full computation: the new cache and the price list, newest block first. */
  ghost function Refresh(cfg: Config, ec: EpochConfig, l: seq<Txn>, ledgerVersion: nat, e: nat, c: Cache)
    : (Cache, seq<nat>)
    requires Safe(cfg, ec) && WellFormed(l) && ledgerVersion < |l|
  {
    Finish(cfg, ec, l, e, BaseFor(c, e), ScanFor(cfg, l, ledgerVersion, e, c))
  }

  /** The cache is dropped when it belongs to another epoch. */
  function BaseFor(c: Cache, e: nat): Prices {
    if c.epoch.Some? && c.epoch.value != e then map[] else c.prices
  }

  function ScanFor(cfg: Config, l: seq<Txn>, ledgerVersion: nat, e: nat, c: Cache): Scan
    requires ledgerVersion < |l| && l[0].Genesis?
  {
    ScanBlocks(l, StartOf(l, ledgerVersion, e), e, cfg.aggressiveHistory, BaseFor(c, e))
  }

  // ----- Caches as lists of entries -----

  datatype Entry = Entry(version: nat, price: nat)

  ghost predicate FallingEntries(es: seq<Entry>) {
    forall i, j :: 0 <= i < j < |es| ==> es[i].version > es[j].version
  }

  /** The cache holds exactly these entries, all of epoch `e`; they are listed newest first. */
  ghost predicate Represents(prices: Prices, e: nat, es: seq<Entry>) {
    && FallingEntries(es)
    && (forall i :: 0 <= i < |es| ==> Key(e, es[i].version) in prices && prices[Key(e, es[i].version)] == es[i].price)
    && (forall k :: k in prices ==> k.epoch == e && Listed(es, k.version))
  }

  ghost predicate Listed(es: seq<Entry>, v: nat) {
    exists i :: 0 <= i < |es| && es[i].version == v
  }

  ghost function EntriesOf(cfg: Config, ec: EpochConfig, l: seq<Txn>, bs: seq<Block>): seq<Entry>
    requires Safe(cfg, ec) && Readable(l, bs)
  {
    seq(|bs|, i requires 0 <= i < |bs| => Entry(bs[i].last, PriceOf(cfg, ec, l, bs[i])))
  }

  ghost function PricesIn(es: seq<Entry>): seq<nat> {
    seq(|es|, i requires 0 <= i < |es| => es[i].price)
  }

  lemma RepresentsDropLast(prices: Prices, e: nat, es: seq<Entry>)
    requires Represents(prices, e, es) && es != []
    ensures var k := Key(e, es[|es| - 1].version);
            IsFirst(prices, k) && Represents(prices - {k}, e, es[..|es| - 1])
  {
    var k, front := Key(e, es[|es| - 1].version), es[..|es| - 1];
    OldestIsFirst(prices, e, es);
    OthersListed(prices, e, es);
    assert forall i :: 0 <= i < |front| ==> front[i] == es[i] && es[i].version != k.version;
    hide Listed, IsFirst;
  }

  lemma OldestIsFirst(prices: Prices, e: nat, es: seq<Entry>)
    requires Represents(prices, e, es) && es != []
    ensures IsFirst(prices, Key(e, es[|es| - 1].version))
  {
    forall k | k in prices ensures KeyLe(Key(e, es[|es| - 1].version), k) {
      var i :| 0 <= i < |es| && es[i].version == k.version;
    }
  }

  lemma OthersListed(prices: Prices, e: nat, es: seq<Entry>)
    requires Represents(prices, e, es) && es != []
    ensures forall k :: k in prices && k != Key(e, es[|es| - 1].version) ==> Listed(es[..|es| - 1], k.version)
  {
    hide FallingEntries;
    forall k | k in prices && k != Key(e, es[|es| - 1].version) ensures Listed(es[..|es| - 1], k.version) {
      var i :| 0 <= i < |es| && es[i].version == k.version;
      assert es[..|es| - 1][i].version == k.version;
    }
  }

  lemma FirstUniqueKey(prices: Prices, k: Key, k': Key)
    requires IsFirst(prices, k) && IsFirst(prices, k')
    ensures k == k'
  {
  }

  lemma {:induction false} RepresentsSize(prices: Prices, e: nat, es: seq<Entry>)
    requires Represents(prices, e, es)
    ensures |prices| == |es|
    decreases |es|
  {
    if es == [] {
      forall k ensures k !in prices { assert k in prices ==> Listed(es, k.version); }
      assert prices == map[];
    } else {
      var k := Key(e, es[|es| - 1].version);
      RepresentsDropLast(prices, e, es);
      RepresentsSize(prices - {k}, e, es[..|es| - 1]);
      assert (prices - {k}).Keys == prices.Keys - {k};
    }
  }

  lemma GcStep(prices: Prices, n: nat, k: Key)
    requires |prices| > n && IsFirst(prices, k)
    ensures Gc(prices, n) == Gc(prices - {k}, n)
  {
    forall k' | IsFirst(prices, k') ensures k' == k { FirstUniqueKey(prices, k, k'); }
  }

  /** Garbage collection keeps exactly the newest entries. */
  lemma {:induction false} GcKeepsNewest(prices: Prices, e: nat, es: seq<Entry>, n: nat)
    requires Represents(prices, e, es)
    ensures Represents(Gc(prices, n), e, es[..Min(n, |es|)])
    decreases |es|, 1
  {
    RepresentsSize(prices, e, es);
    if |es| <= n {
      assert es[..Min(n, |es|)] == es;
      assert Gc(prices, n) == prices;
    } else {
      GcLonger(prices, e, es, n);
    }
  }

  lemma {:induction false} GcLonger(prices: Prices, e: nat, es: seq<Entry>, n: nat)
    requires Represents(prices, e, es) && |es| == |prices| > n
    ensures Represents(Gc(prices, n), e, es[..n])
    decreases |es|, 0
  {
    hide Represents, FallingEntries, Gc, IsFirst, Listed;
    var front, k := es[..|es| - 1], Key(e, es[|es| - 1].version);
    RepresentsDropLast(prices, e, es);
    GcStep(prices, n, k);
    GcKeepsNewest(prices - {k}, e, front, n);
    assert front[..Min(n, |front|)] == es[..n];
  }

  ghost predicate FallingVersions(vs: seq<nat>) {
    forall i, j :: 0 <= i < j < |vs| ==> vs[i] > vs[j]
  }

  lemma {:induction false} DescendingOfFalling(vs: seq<nat>, s: set<nat>)
    requires FallingVersions(vs) && forall v :: v in s <==> v in vs
    ensures Descending(s) == vs
  {
    if vs == [] {
      assert s == {};
    } else {
      assert vs[0] in s;
      assert Greatest(s) == vs[0];
      assert forall v :: v in vs <==> v == vs[0] || v in vs[1..];
      DescendingOfFalling(vs[1..], s - {vs[0]});
    }
  }

  ghost function VersionsIn(es: seq<Entry>): seq<nat> {
    seq(|es|, i requires 0 <= i < |es| => es[i].version)
  }

  lemma VersionsBelow(prices: Prices, e: nat, es: seq<Entry>, j: nat, v: nat)
    requires Represents(prices, e, es) && j < |es|
    ensures v in VersionsUpTo(prices, e, es[j].version) <==> v in VersionsIn(es[j..])
  {
    if v in VersionsUpTo(prices, e, es[j].version) { UpToIsBelow(prices, e, es, j, v); }
    if v in VersionsIn(es[j..]) { BelowIsUpTo(prices, e, es, j, v); }
  }

  lemma UpToIsBelow(prices: Prices, e: nat, es: seq<Entry>, j: nat, v: nat)
    requires Represents(prices, e, es) && j < |es| && v in VersionsUpTo(prices, e, es[j].version)
    ensures v in VersionsIn(es[j..])
  {
    hide Represents, FallingEntries;
    assert Key(e, v) in prices && v <= es[j].version;
    var i := EntryOf(prices, e, es, v);
    NewerBefore(prices, e, es, j);
    assert i >= j;
    assert VersionsIn(es[j..])[i - j] == v;
  }

  lemma EntryOf(prices: Prices, e: nat, es: seq<Entry>, v: nat) returns (i: nat)
    requires Represents(prices, e, es) && Key(e, v) in prices
    ensures i < |es| && es[i].version == v
  {
    hide FallingEntries;
    assert Listed(es, Key(e, v).version);
    i :| 0 <= i < |es| && es[i].version == v;
  }

  lemma NewerBefore(prices: Prices, e: nat, es: seq<Entry>, j: nat)
    requires Represents(prices, e, es) && j < |es|
    ensures forall i :: 0 <= i < j ==> es[i].version > es[j].version
  {
  }

  lemma BelowIsUpTo(prices: Prices, e: nat, es: seq<Entry>, j: nat, v: nat)
    requires Represents(prices, e, es) && j < |es| && v in VersionsIn(es[j..])
    ensures v in VersionsUpTo(prices, e, es[j].version)
  {
    var i :| 0 <= i < |es| - j && VersionsIn(es[j..])[i] == v;
    assert es[j + i].version == v && v <= es[j].version;
    assert Key(e, v) in prices;
  }

  /** A range read downwards from a cached version lists the entries from there on. */
  lemma CachedBelowIsTail(prices: Prices, e: nat, es: seq<Entry>, j: nat)
    requires Represents(prices, e, es) && j < |es|
    ensures CachedBelow(prices, e, es[j].version) == PricesIn(es[j..])
  {
    hide VersionsUpTo, Descending, Listed;
    var vs, below := VersionsIn(es[j..]), VersionsUpTo(prices, e, es[j].version);
    forall v ensures v in below <==> v in vs { VersionsBelow(prices, e, es, j, v); }
    DescendingOfFalling(vs, below);
  }

  lemma InsertOne(prices: Prices, e: nat, pre: seq<Entry>, x: Entry, post: seq<Entry>)
    requires Represents(prices, e, pre + post) && FallingEntries(pre + [x] + post)
    ensures Represents(prices[Key(e, x.version) := x.price], e, pre + [x] + post)
  {
    InsertedValues(prices, e, pre, x, post);
    InsertedKeys(prices, e, pre, x, post);
    hide FallingEntries, Listed;
  }

  lemma InsertedKeys(prices: Prices, e: nat, pre: seq<Entry>, x: Entry, post: seq<Entry>)
    requires forall k :: k in prices ==> k.epoch == e && Listed(pre + post, k.version)
    ensures forall k :: k in prices[Key(e, x.version) := x.price] ==>
              k.epoch == e && Listed(pre + [x] + post, k.version)
  {
    var es, es' := pre + post, pre + [x] + post;
    assert es'[|pre|] == x;
    forall k | k in prices ensures Listed(es', k.version) {
      var i :| 0 <= i < |es| && es[i].version == k.version;
      assert es'[if i < |pre| then i else i + 1].version == k.version;
    }
  }

  lemma InsertedValues(prices: Prices, e: nat, pre: seq<Entry>, x: Entry, post: seq<Entry>)
    requires Represents(prices, e, pre + post) && FallingEntries(pre + [x] + post)
    ensures var es', prices' := pre + [x] + post, prices[Key(e, x.version) := x.price];
            forall i :: 0 <= i < |es'| ==>
              Key(e, es'[i].version) in prices' && prices'[Key(e, es'[i].version)] == es'[i].price
  {
    var es, es' := pre + post, pre + [x] + post;
    forall i | 0 <= i < |es'| && i != |pre|
      ensures es'[i].version != x.version
      ensures Key(e, es'[i].version) in prices && prices[Key(e, es'[i].version)] == es'[i].price
    {
      assert es'[i] == es[if i < |pre| then i else i - 1];
      assert es'[|pre|] == x;
    }
  }

  lemma FallingWithout(pre: seq<Entry>, x: Entry, post: seq<Entry>)
    requires FallingEntries(pre + [x] + post)
    ensures FallingEntries(pre + post)
  {
    var es, es' := pre + post, pre + [x] + post;
    forall i, j | 0 <= i < j < |es| ensures es[i].version > es[j].version {
      assert es[i] == es'[if i < |pre| then i else i + 1] && es[j] == es'[if j < |pre| then j else j + 1];
    }
  }

  /** Pricing blocks puts their entries between the newer and the older ones already cached. */
  lemma {:induction false} InsertAllRepresents(
      cfg: Config, ec: EpochConfig, l: seq<Txn>, e: nat, bs: seq<Block>, prices: Prices,
      pre: seq<Entry>, post: seq<Entry>)
    requires Safe(cfg, ec) && Readable(l, bs) && Represents(prices, e, pre + post)
    requires FallingEntries(pre + EntriesOf(cfg, ec, l, bs) + post)
    ensures Represents(InsertAll(cfg, ec, l, e, bs, prices), e, pre + EntriesOf(cfg, ec, l, bs) + post)
  {
    var all := EntriesOf(cfg, ec, l, bs);
    if bs == [] {
      assert pre + all + post == pre + post;
    } else {
      var front, x := bs[..|bs| - 1], all[|bs| - 1];
      var fs := EntriesOf(cfg, ec, l, front);
      assert all == fs + [x];
      assert pre + all + post == (pre + fs) + [x] + post;
      FallingWithout(pre + fs, x, post);
      InsertAllRepresents(cfg, ec, l, e, front, prices, pre, post);
      InsertOne(InsertAll(cfg, ec, l, e, front, prices), e, pre + fs, x, post);
    }
  }

  // ----- The scan, seen on the list of finished blocks -----

  ghost predicate Cached(prices: Prices, e: nat, b: Block) {
    Key(e, b.last) in prices
  }

  /** The cache only speaks of blocks of epoch `e`. */
  ghost predicate OfEpoch(l: seq<Txn>, e: nat, prices: Prices)
    requires |l| > 0 && l[0].Genesis?
  {
    forall v: nat :: Key(e, v) in prices ==> v < |l| && EpochOf(l, v) == e
  }

  /** Blocks the scan prices anew: it runs to the first cached block, the end of the epoch or the
      history limit. */
  ghost function Misses(bs: seq<Block>, e: nat, n: nat, prices: Prices): (m: nat)
    ensures m <= |bs| && m <= n
    ensures forall i :: 0 <= i < m ==> !Cached(prices, e, bs[i])
    ensures m < |bs| && m < n ==> Cached(prices, e, bs[m])
  {
    if n == 0 || bs == [] || Cached(prices, e, bs[0]) then 0
    else 1 + Misses(bs[1..], e, n - 1, prices)
  }

  ghost predicate Follows(scan: Scan, bs: seq<Block>, m: nat, n: nat)
    requires m <= |bs|
  {
    && scan.blocks == bs[..m]
    && (scan.hit <==> m < |bs| && m < n)
    && (scan.hit ==> scan.lookup == bs[m].last)
  }

  lemma FollowsCons(scan: Scan, bs: seq<Block>, m: nat, n: nat, b: Block)
    requires m <= |bs| && Follows(scan, bs, m, n)
    ensures Follows(Scan([b] + scan.blocks, scan.lookup, scan.hit), [b] + bs, m + 1, n + 1)
  {
    assert ([b] + bs)[..m + 1] == [b] + bs[..m];
  }

  lemma MissesCons(b: Block, rest: seq<Block>, e: nat, n: nat, prices: Prices)
    requires n > 0 && !Cached(prices, e, b)
    ensures Misses([b] + rest, e, n, prices) == 1 + Misses(rest, e, n - 1, prices)
  {
    assert ([b] + rest)[1..] == rest;
  }

  /** The scan prices exactly the leading blocks of the history that are not cached. */
  lemma {:induction false} ScanFollowsHistory(l: seq<Txn>, w: nat, e: nat, n: nat, prices: Prices)
    requires WellFormed(l) && e >= 1 && EndsBlock(l, w) && OfEpoch(l, e, prices)
    ensures Follows(ScanBlocks(l, w, e, n, prices), Back(l, w, e), Misses(Back(l, w, e), e, n, prices), n)
    decreases n, 1
  {
    if EpochOf(l, w) != e {
      assert Back(l, w, e) == [];
    } else {
      BackFacts(l, w, e);
      assert Back(l, w, e)[0].last == w;
      if n == 0 || Key(e, w) in prices {
        assert Misses(Back(l, w, e), e, n, prices) == 0;
      } else {
        ScanMiss(l, w, e, n, prices);
      }
    }
  }

  lemma ScanStops(l: seq<Txn>, w: nat, e: nat, n: nat, prices: Prices)
    requires w < |l| && l[0].Genesis?
    requires n == 0 || Key(e, w) in prices || EpochOf(l, w) != e
    ensures ScanBlocks(l, w, e, n, prices) == Scan([], w, n > 0 && Key(e, w) in prices)
  {
    hide First, EpochOf, Last;
  }

  lemma ScanStep(l: seq<Txn>, w: nat, e: nat, n: nat, prices: Prices)
    requires w < |l| && l[0].Genesis?
    requires n > 0 && Key(e, w) !in prices && EpochOf(l, w) == e
    ensures var b := BlockAt(l, w);
            ScanBlocks(l, w, e, n, prices) ==
            if b.first <= 1 then Scan([b], 0, false)
            else
              var rest := ScanBlocks(l, b.first - 1, e, n - 1, prices);
              Scan([b] + rest.blocks, rest.lookup, rest.hit)
  {
    hide First, EpochOf, Last;
  }

  lemma ScanUnfold(l: seq<Txn>, w: nat, e: nat, n: nat, prices: Prices)
    requires WellFormed(l) && e >= 1 && EndsBlock(l, w)
    requires n > 0 && Key(e, w) !in prices && EpochOf(l, w) == e
    ensures First(l, w) > 0 && EndsBlock(l, First(l, w) - 1)
    ensures var f := First(l, w);
            && Back(l, w, e) == [Block(f, w)] + Back(l, f - 1, e)
            && (f == 1 ==> Back(l, f - 1, e) == [] && ScanBlocks(l, w, e, n, prices) == Scan([Block(f, w)], 0, false))
            && (f > 1 ==>
                  var rest := ScanBlocks(l, f - 1, e, n - 1, prices);
                  ScanBlocks(l, w, e, n, prices) == Scan([Block(f, w)] + rest.blocks, rest.lookup, rest.hit))
  {
    BackUnfold(l, w, e);
    ScanStep(l, w, e, n, prices);
    BackStep(l, 0, e);
    hide EpochsRise, ScanBlocks, Back;
  }

  lemma {:induction false} ScanMiss(l: seq<Txn>, w: nat, e: nat, n: nat, prices: Prices)
    requires WellFormed(l) && e >= 1 && EndsBlock(l, w) && OfEpoch(l, e, prices)
    requires n > 0 && Key(e, w) !in prices && EpochOf(l, w) == e
    ensures Follows(ScanBlocks(l, w, e, n, prices), Back(l, w, e), Misses(Back(l, w, e), e, n, prices), n)
    decreases n, 0
  {
    hide First, Last, EpochOf, OfEpoch, Back, ScanBlocks, EpochsRise, Follows, Misses;
    ScanUnfold(l, w, e, n, prices);
    var f := First(l, w);
    var rest := Back(l, f - 1, e);
    if f > 1 {
      ScanFollowsHistory(l, f - 1, e, n - 1, prices);
      ScanCons(ScanBlocks(l, f - 1, e, n - 1, prices), rest, e, n, prices, Block(f, w));
    } else {
      FollowsNothing(e, n - 1, prices);
      ScanCons(Scan([], 0, false), rest, e, n, prices, Block(f, w));
    }
  }

  lemma FollowsNothing(e: nat, n: nat, prices: Prices)
    ensures Follows(Scan([], 0, false), [], Misses([], e, n, prices), n)
  {
  }

  lemma ScanCons(scan: Scan, rest: seq<Block>, e: nat, n: nat, prices: Prices, b: Block)
    requires n > 0 && !Cached(prices, e, b) && Follows(scan, rest, Misses(rest, e, n - 1, prices), n - 1)
    ensures var bs := [b] + rest;
            Follows(Scan([b] + scan.blocks, scan.lookup, scan.hit), bs, Misses(bs, e, n, prices), n)
  {
    MissesCons(b, rest, e, n, prices);
    FollowsCons(scan, rest, Misses(rest, e, n - 1, prices), n - 1, b);
  }
}
