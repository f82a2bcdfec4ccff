/** Two ways to put block timestamps on a page of transactions. */
module Rendering {
  import opened Options
  import opened Ledger

  datatype OnChainData = OnChainData(version: nat, txn: Txn)

  type Converter<!R> = (nat, OnChainData) -> Option<R>

  /** The transactions at `start`, `start + 1`, ... */
  ghost predicate Page(l: seq<Txn>, start: nat, data: seq<OnChainData>) {
    && start + |data| <= |l|
    && forall i :: 0 <= i < |data| ==> data[i] == OnChainData(start + i, l[start + i])
  }

  /** Converts each transaction with the timestamp of its block; one failure fails the page. */
  function Rendered<R>(l: seq<Txn>, data: seq<OnChainData>, convert: Converter<R>): Option<seq<R>>
    requires |l| > 0 && l[0].Genesis?
    requires forall i :: 0 <= i < |data| ==> data[i].version < |l|
  {
    if data == [] then Some([]) else
    var last := data[|data| - 1];
    var front := Rendered(l, data[..|data| - 1], convert);
    var r := convert(BlockTimestamp(l, last.version), last);
    if front.Some? && r.Some? then Some(front.value + [r.value]) else None
  }

  lemma {:induction false} RenderedStep<R>(l: seq<Txn>, data: seq<OnChainData>, convert: Converter<R>, k: nat)
    requires |l| > 0 && l[0].Genesis?
    requires forall i :: 0 <= i < |data| ==> data[i].version < |l|
    requires k < |data|
    ensures var front, r := Rendered(l, data[..k], convert), convert(BlockTimestamp(l, data[k].version), data[k]);
            Rendered(l, data[..k + 1], convert) ==
            if front.Some? && r.Some? then Some(front.value + [r.value]) else None
  {
    assert data[..k + 1][..k] == data[..k];
  }

  lemma {:induction false} FailureSticks<R>(l: seq<Txn>, data: seq<OnChainData>, convert: Converter<R>, k: nat)
    requires |l| > 0 && l[0].Genesis?
    requires forall i :: 0 <= i < |data| ==> data[i].version < |l|
    requires k <= |data| && Rendered(l, data[..k], convert).None?
    ensures Rendered(l, data, convert).None?
    decreases |data|
  {
    if k == |data| {
      assert data[..k] == data;
    } else {
      assert data[..|data| - 1][..k] == data[..k];
      FailureSticks(l, data[..|data| - 1], convert, k);
    }
  }

  /** A page is rendered exactly if every transaction on it converts with the timestamp of its block, and then holds
      the conversions in order. */
  lemma {:induction false} RenderedIs<R>(l: seq<Txn>, data: seq<OnChainData>, convert: Converter<R>)
    requires |l| > 0 && l[0].Genesis?
    requires forall i :: 0 <= i < |data| ==> data[i].version < |l|
    ensures var out := Rendered(l, data, convert);
            && (out.Some? <==>
                  forall i :: 0 <= i < |data| ==> convert(BlockTimestamp(l, data[i].version), data[i]).Some?)
            && (out.Some? ==>
                  && |out.value| == |data|
                  && forall i :: 0 <= i < |data| ==>
                       convert(BlockTimestamp(l, data[i].version), data[i]) == Some(out.value[i]))
  {
    if data != [] {
      var n := |data| - 1;
      RenderedIs(l, data[..n], convert);
      assert forall i :: 0 <= i < n ==> data[..n][i] == data[i];
    }
  }

  /** The per-version renderer: it looks every timestamp up, so it takes any selection of versions. */
  method RenderNonSequential<R>(l: seq<Txn>, data: seq<OnChainData>, convert: Converter<R>)
    returns (out: Option<seq<R>>)
    requires |l| > 0 && l[0].Genesis?
    requires forall i :: 0 <= i < |data| ==> data[i].version < |l|
    ensures out == Rendered(l, data, convert)
  {
    var txns: seq<R> := [];
    for k := 0 to |data|
      invariant Rendered(l, data[..k], convert) == Some(txns)
    {
      RenderedStep(l, data, convert, k);
      var r := convert(BlockTimestamp(l, data[k].version), data[k]);
      if r.None? {
        FailureSticks(l, data, convert, k + 1);
        return None;
      }
      txns := txns + [r.value];
    }
    assert data[..|data|] == data;
    return Some(txns);
  }

  /** Time before the k-th transaction of a page that starts at `start`. */
  ghost function TimeBefore(l: seq<Txn>, start: nat, k: nat): nat
    requires |l| > 0 && l[0].Genesis? && start + k <= |l| && start < |l|
  {
    if k == 0 then BlockTimestamp(l, start) else TimeAt(l, start + k - 1)
  }

  /** One transaction further along a contiguous page. */
  lemma {:induction false} TimestampStep<R>(
      l: seq<Txn>, start: nat, data: seq<OnChainData>, convert: Converter<R>, k: nat, now: nat)
    requires WellFormed(l) && Page(l, start, data) && k < |data|
    requires now == if data[k].txn.BlockMetadata? then data[k].txn.timestamp else TimeBefore(l, start, k)
    ensures now == TimeBefore(l, start, k + 1)
    ensures var front, r := Rendered(l, data[..k], convert), convert(now, data[k]);
            && Rendered(l, data[..k + 1], convert) ==
               (if front.Some? && r.Some? then Some(front.value + [r.value]) else None)
            && (r.None? ==> Rendered(l, data, convert).None?)
  {
    hide Rendered, EpochsRise, First;
    BlockTimestampIsTime(l, start + k);
    if k > 0 { TimeStep(l, start + k); }
    RenderedStep(l, data, convert, k);
    if convert(now, data[k]).None? { FailureSticks(l, data, convert, k + 1); }
  }

  /** The running renderer: it starts from the timestamp of the first version and moves it at block
      metadata only, never touching storage. On a contiguous page it agrees with the lookup. */
  method RenderSequential<R>(
      data: seq<OnChainData>, timestamp: nat, convert: Converter<R>, ghost l: seq<Txn>, ghost start: nat)
    returns (out: Option<seq<R>>)
    requires WellFormed(l) && Page(l, start, data)
    requires data != [] ==> timestamp == BlockTimestamp(l, start)
    ensures out == Rendered(l, data, convert)
  {
    var txns: seq<R> := [];
    var now := timestamp;
    for k := 0 to |data|
      invariant Rendered(l, data[..k], convert) == Some(txns)
      invariant data != [] ==> now == TimeBefore(l, start, k)
    {
      if data[k].txn.BlockMetadata? {
        now := data[k].txn.timestamp;
      }
      TimestampStep(l, start, data, convert, k, now);
      var r := convert(now, data[k]);
      if r.None? {
        return None;
      }
      txns := txns + [r.value];
    }
    assert data[..|data|] == data;
    return Some(txns);
  }
}
