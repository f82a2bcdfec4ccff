/** Epoch change proofs: chains of epoch-ending ledger infos, and the storage query that makes them. */
module EpochProofs {
  import opened Options

  /** A ledger info with signatures: its epoch, whether the validators of that epoch really signed it,
      and whether it carries the next validator set. */
  datatype LedgerInfo = LedgerInfo(epoch: nat, signed: bool, endsEpoch: bool)

  predicate Links(li: LedgerInfo, epoch: nat) {
    li.epoch == epoch && li.signed && li.endsEpoch
  }

  /** Each ledger info closes the epoch its predecessor opened. */
  ghost predicate Chain(lis: seq<LedgerInfo>, epoch: nat) {
    forall i :: 0 <= i < |lis| ==> Links(lis[i], epoch + i)
  }

  ghost predicate Stale(lis: seq<LedgerInfo>, epoch: nat) {
    forall i :: 0 <= i < |lis| ==> lis[i].epoch < epoch
  }

  /** A proof takes a node of the given epoch to epoch `next`: after a stale prefix, the rest is a
      non-empty chain from the node's epoch. */
  ghost predicate Proves(lis: seq<LedgerInfo>, epoch: nat, next: nat) {
    epoch < next <= epoch + |lis| &&
    var k := epoch + |lis| - next;
    Stale(lis[..k], epoch) && Chain(lis[k..], epoch)
  }

  lemma CutPoint(lis: seq<LedgerInfo>, epoch: nat, next: nat)
    requires Proves(lis, epoch, next)
    ensures var k := epoch + |lis| - next;
            lis[k].epoch == epoch && forall i :: 0 <= i < k ==> lis[i].epoch < epoch
  {
    var k := epoch + |lis| - next;
    assert lis[k..][0] == lis[k];
    assert forall i :: 0 <= i < k ==> lis[..k][i] == lis[i];
  }

  lemma ProvesUnique(lis: seq<LedgerInfo>, epoch: nat, next: nat, next': nat)
    requires Proves(lis, epoch, next) && Proves(lis, epoch, next')
    ensures next == next'
  {
    CutPoint(lis, epoch, next);
    CutPoint(lis, epoch, next');
  }

  /** Elementwise: a proof leads somewhere exactly if some number of ledger infos of older epochs is followed by at
      least one more, and each of those is signed, ends its epoch and is of the epoch the one before it opened. */
  lemma ProvesIff(lis: seq<LedgerInfo>, epoch: nat)
    ensures (exists next :: Proves(lis, epoch, next)) <==>
              exists k :: 0 <= k < |lis| && ProvesFrom(lis, epoch, k)
    ensures forall k: nat :: k < |lis| && ProvesFrom(lis, epoch, k) ==> Proves(lis, epoch, epoch + |lis| - k)
  {
    forall k: nat | k < |lis| && ProvesFrom(lis, epoch, k) ensures Proves(lis, epoch, epoch + |lis| - k) {
      assert forall i :: 0 <= i < |lis| - k ==> lis[k..][i] == lis[k + i];
    }
    if next :| Proves(lis, epoch, next) {
      var k := epoch + |lis| - next;
      forall i | k <= i < |lis| ensures lis[i].epoch == epoch + (i - k) && lis[i].signed && lis[i].endsEpoch {
        assert lis[k..][i - k] == lis[i];
        assert Links(lis[k..][i - k], epoch + (i - k));
      }
      assert ProvesFrom(lis, epoch, k);
    }
  }

  ghost predicate ProvesFrom(lis: seq<LedgerInfo>, epoch: nat, k: nat) {
    && k < |lis|
    && (forall i :: 0 <= i < k ==> lis[i].epoch < epoch)
    && (forall i :: k <= i < |lis| ==> lis[i].epoch == epoch + (i - k) && lis[i].signed && lis[i].endsEpoch)
  }

  /** Verification against the validators of `epoch`; on success, the epoch the proof opens. */
  method VerifyProof(lis: seq<LedgerInfo>, epoch: nat) returns (r: Option<nat>)
    ensures r.Some? ==> Proves(lis, epoch, r.value)
    ensures r.None? ==> forall next :: !Proves(lis, epoch, next)
  {
    if lis == [] {
      return None;
    }
    if lis[|lis| - 1].epoch < epoch {
      forall next | epoch < next <= epoch + |lis| ensures !Proves(lis, epoch, next) {
        var k := epoch + |lis| - next;
        assert lis[k..][|lis| - 1 - k] == lis[|lis| - 1];
      }
      return None;
    }
    var k := 0;
    while lis[k].epoch < epoch
      invariant 0 <= k < |lis| && Stale(lis[..k], epoch)
      decreases |lis| - k
    {
      assert lis[..k + 1] == lis[..k] + [lis[k]];
      k := k + 1;
    }
    var i, current := k, epoch;
    while i < |lis|
      invariant k <= i <= |lis| && current == epoch + i - k && Chain(lis[k..i], epoch)
    {
      if !Links(lis[i], current) {
        NotProved(lis, epoch, k, i);
        return None;
      }
      assert lis[k..i + 1] == lis[k..i] + [lis[i]];
      i, current := i + 1, current + 1;
    }
    assert lis[k..i] == lis[k..];
    return Some(current);
  }

  lemma NotProved(lis: seq<LedgerInfo>, epoch: nat, k: nat, i: nat)
    requires k <= i < |lis| && Stale(lis[..k], epoch) && lis[k].epoch >= epoch
    requires Chain(lis[k..i], epoch) && !Links(lis[i], epoch + i - k)
    ensures forall next :: !Proves(lis, epoch, next)
  {
    forall next | epoch < next <= epoch + |lis| ensures !Proves(lis, epoch, next) {
      var j := epoch + |lis| - next;
      if j < k {
        assert lis[..k][j] == lis[j..][0];
      } else if j == k {
        assert lis[j..][i - k] == lis[i];
      } else {
        assert lis[..j][k] == lis[k];
      }
    }
  }

  const MaxEndings := 100

  /** The proof storage hands out for epochs `start` up to `end`, at most a hundred at a time; an error
      for a reversed range or an epoch that has not ended. */
  function EndingLedgerInfos(start: nat, end: nat, latestEpoch: nat): Option<seq<LedgerInfo>> {
    if start > end || end > latestEpoch then None
    else
      var stop := if end - start > MaxEndings then start + MaxEndings else end;
      Some(seq(stop - start, i requires 0 <= i => LedgerInfo(start + i, true, true)))
  }

  /** Storage answers exactly for ranges that are not reversed and have ended, with the endings from the first on. */
  lemma EndingsAre(start: nat, end: nat, latestEpoch: nat)
    ensures var lis := EndingLedgerInfos(start, end, latestEpoch);
            && (lis.Some? <==> start <= end <= latestEpoch)
            && (lis.Some? ==>
                  && |lis.value| == (if end - start < 100 then end - start else 100)
                  && forall i :: 0 <= i < |lis.value| ==> lis.value[i] == LedgerInfo(start + i, true, true))
  {
  }

  /** What storage hands out takes a node at `start` exactly to the end of the page. */
  lemma PageProves(start: nat, end: nat, latestEpoch: nat)
    requires start < end <= latestEpoch
    ensures var next := if end - start > MaxEndings then start + MaxEndings else end;
            && EndingLedgerInfos(start, end, latestEpoch).Some?
            && var lis := EndingLedgerInfos(start, end, latestEpoch).value;
               lis != [] && lis[0].epoch == start && Proves(lis, start, next)
  {
    var lis := EndingLedgerInfos(start, end, latestEpoch).value;
    assert lis[0..] == lis;
  }
}
