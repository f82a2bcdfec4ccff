/** The committed ledger as the API reads it: transactions by version, cut into blocks by the
    transactions that emit a new-block event. A node only ever appends. */
module Ledger {

  datatype Txn =
    | Genesis
    | BlockMetadata(epoch: nat, timestamp: nat)
    | WriteSet(epoch: nat)
    | User(gasUnitPrice: nat, gasUsed: nat)
    | Other

  /** Genesis, block metadata and direct write sets each emit a new-block event. */
  predicate StartsBlock(t: Txn) {
    t.Genesis? || t.BlockMetadata? || t.WriteSet?
  }

  function EventEpoch(t: Txn): nat
    requires StartsBlock(t)
  {
    if t.Genesis? then 0 else t.epoch
  }

  /** First version of the block that holds `v`. */
  function First(l: seq<Txn>, v: nat): (f: nat)
    requires v < |l| && l[0].Genesis?
    ensures f <= v && StartsBlock(l[f])
  {
    if StartsBlock(l[v]) then v else First(l, v - 1)
  }

  /** Last version of the block that holds `v`, so far. */
  function Last(l: seq<Txn>, v: nat): (z: nat)
    requires v < |l|
    ensures v <= z < |l|
    decreases |l| - v
  {
    if v + 1 == |l| || StartsBlock(l[v + 1]) then v else Last(l, v + 1)
  }

  function EpochOf(l: seq<Txn>, v: nat): nat
    requires v < |l| && l[0].Genesis?
  {
    EventEpoch(l[First(l, v)])
  }

  ghost predicate EpochsRise(l: seq<Txn>, v: nat)
    requires v < |l| && l[0].Genesis?
  {
    v == 0 || (EpochsRise(l, v - 1) && EpochOf(l, v - 1) <= EpochOf(l, v))
  }

  /** Version 0 is genesis and belongs to epoch 0; every later block belongs to epoch 1 or higher, and
      epochs never go back. */
  ghost predicate WellFormed(l: seq<Txn>) {
    && |l| > 0 && l[0].Genesis?
    && (forall i :: 0 < i < |l| ==> !l[i].Genesis? && (StartsBlock(l[i]) ==> EventEpoch(l[i]) >= 1))
    && EpochsRise(l, |l| - 1)
  }

  /** `v` is the last version of a block that is followed by another one. */
  ghost predicate EndsBlock(l: seq<Txn>, v: nat) {
    v + 1 < |l| && StartsBlock(l[v + 1])
  }

  lemma {:induction false} BlockBounds(l: seq<Txn>, v: nat)
    requires v < |l| && l[0].Genesis?
    ensures forall i :: First(l, v) < i <= Last(l, v) ==> !StartsBlock(l[i])
    ensures Last(l, v) + 1 < |l| ==> StartsBlock(l[Last(l, v) + 1])
  {
    NoStartAbove(l, v);
    NoStartBelow(l, v);
  }

  lemma {:induction false} NoStartBelow(l: seq<Txn>, v: nat)
    requires v < |l| && l[0].Genesis?
    ensures forall i :: First(l, v) < i <= v ==> !StartsBlock(l[i])
  {
    if !StartsBlock(l[v]) { NoStartBelow(l, v - 1); }
  }

  lemma {:induction false} NoStartAbove(l: seq<Txn>, v: nat)
    requires v < |l|
    ensures forall i :: v < i <= Last(l, v) ==> !StartsBlock(l[i])
    ensures Last(l, v) + 1 < |l| ==> StartsBlock(l[Last(l, v) + 1])
    decreases |l| - v
  {
    if Last(l, v) != v { NoStartAbove(l, v + 1); }
  }

  /** A version at or below `v` that starts a block is not above the start of the block of `v`. */
  lemma {:induction false} FirstIsLatest(l: seq<Txn>, v: nat, f: nat)
    requires f <= v < |l| && l[0].Genesis? && StartsBlock(l[f])
    ensures f <= First(l, v)
  {
    if !StartsBlock(l[v]) { FirstIsLatest(l, v - 1, f); }
  }

  lemma {:induction false} RiseMonotone(l: seq<Txn>, v: nat, w: nat)
    requires w < |l| && l[0].Genesis? && v <= w && EpochsRise(l, w)
    ensures EpochOf(l, v) <= EpochOf(l, w)
  {
    if v < w { RiseMonotone(l, v, w - 1); }
  }

  lemma {:induction false} RisePrefix(l: seq<Txn>, w: nat)
    requires w < |l| && l[0].Genesis? && EpochsRise(l, |l| - 1)
    ensures EpochsRise(l, w)
    decreases |l| - w
  {
    if w + 1 < |l| { RisePrefix(l, w + 1); }
  }

  lemma EpochMonotone(l: seq<Txn>, v: nat, w: nat)
    requires WellFormed(l) && v <= w < |l|
    ensures EpochOf(l, v) <= EpochOf(l, w)
  {
    RisePrefix(l, w);
    RiseMonotone(l, v, w);
  }

  lemma {:induction false} FirstStable(l: seq<Txn>, l': seq<Txn>, v: nat)
    requires v < |l| && l <= l' && l[0].Genesis?
    ensures First(l', v) == First(l, v)
  {
    if !StartsBlock(l[v]) { FirstStable(l, l', v - 1); }
  }

  /** Appending does not move the start of a block, nor the end of a finished one. */
  lemma BlockStable(l: seq<Txn>, l': seq<Txn>, v: nat)
    requires v < |l| && l <= l' && l[0].Genesis?
    ensures First(l', v) == First(l, v) && EpochOf(l', v) == EpochOf(l, v)
    ensures EndsBlock(l, v) ==> EndsBlock(l', v) && Last(l', v) == Last(l, v) == v
  {
    FirstStable(l, l', v);
  }

  // ----- Time -----

  /** On-chain time after the transaction at `v`: only block metadata moves it. */
  function TimeAt(l: seq<Txn>, v: nat): nat
    requires v < |l| && l[0].Genesis?
  {
    match l[v]
    case Genesis => 0
    case BlockMetadata(_, t) => t
    case _ => if v == 0 then 0 else TimeAt(l, v - 1)
  }

  /** The time in the new-block event at `f`. A write set reports the time already on chain. */
  function EventTime(l: seq<Txn>, f: nat): nat
    requires f < |l| && l[0].Genesis? && StartsBlock(l[f])
  {
    match l[f]
    case Genesis => 0
    case BlockMetadata(_, t) => t
    case WriteSet(_) => if f == 0 then 0 else TimeAt(l, f - 1)
  }

  /** The stored timestamp of the block that holds `v`. */
  function BlockTimestamp(l: seq<Txn>, v: nat): nat
    requires v < |l| && l[0].Genesis?
  {
    EventTime(l, First(l, v))
  }

  lemma TimeStep(l: seq<Txn>, v: nat)
    requires WellFormed(l) && 0 < v < |l|
    ensures TimeAt(l, v) == if l[v].BlockMetadata? then l[v].timestamp else TimeAt(l, v - 1)
  {
  }

  lemma {:induction false} BlockTimestampIsTime(l: seq<Txn>, v: nat)
    requires v < |l| && l[0].Genesis?
    ensures BlockTimestamp(l, v) == TimeAt(l, v)
  {
    if !StartsBlock(l[v]) {
      BlockTimestampIsTime(l, v - 1);
    }
  }
}
