/** Polling the quorum store for a proposal payload until there is one or the time is up. */
module PayloadClient {
  import opened Options

  /** Pause between two polls, in milliseconds. */
  const NoTxnDelay := 30

  type Payload = seq<nat>

  /** What the poll loop sees of the outside: the clock when poll `i` starts, and the quorum store's answer to
      poll `i` for either value of the return-non-full flag. */
  datatype Outside = Outside(elapsed: nat -> nat, pull: (nat, bool) -> Result<Payload, string>) {
    /** The loop sleeps between polls, so the clock advances by at least the pause. */
    ghost predicate Valid() {
      forall i: nat :: elapsed(i + 1) >= elapsed(i) + NoTxnDelay
    }
  }

  /** How full blocks have been and how many are piling up, against the thresholds from which a full one is wanted. */
  datatype Fill = Fill(recentMaxFraction: real, pendingBlocks: nat, fillThreshold: real, pendingThreshold: nat)

  lemma {:induction false} TimePasses(o: Outside, i: nat)
    requires o.Valid()
    ensures o.elapsed(i) >= NoTxnDelay * i
  {
    if i > 0 {
      TimePasses(o, i - 1);
      assert o.elapsed(i - 1 + 1) >= o.elapsed(i - 1) + NoTxnDelay;
    }
  }

  /** Returns the answer of the first poll that brings something, or an error, or may be empty, or is past the
      deadline. An empty payload is returned only when ordering is pending and blocks are not full, or the time is up;
      the wait callback is awaited once, before the second poll; and there are at most `maxPollTime / NoTxnDelay`
      polls, rounded up, plus one. */
  method PullPayload(o: Outside, fill: Fill, pendingOrdering: bool, maxPollTime: nat)
    returns (r: Result<Payload, string>, polls: nat, waits: nat)
    requires o.Valid()
    ensures polls >= 1
    ensures var nonFull := fill.recentMaxFraction < fill.fillThreshold && fill.pendingBlocks < fill.pendingThreshold;
            && r == o.pull(polls - 1, nonFull || o.elapsed(polls - 1) >= maxPollTime)
            && (r == Ok([]) ==> (pendingOrdering && nonFull) || o.elapsed(polls - 1) >= maxPollTime)
            && forall i :: 0 <= i < polls - 1 ==>
                 && o.pull(i, nonFull) == Ok([]) && o.elapsed(i) < maxPollTime
                 && !(pendingOrdering && nonFull)
    ensures waits == if polls > 1 then 1 else 0
    ensures polls > 1 ==> 30 * (polls - 2) < maxPollTime
  {
    var returnNonFull := fill.recentMaxFraction < fill.fillThreshold && fill.pendingBlocks < fill.pendingThreshold;
    var returnEmpty := pendingOrdering && returnNonFull;
    var callback := true;
    polls, waits := 0, 0;
    while true
      invariant forall i :: 0 <= i < polls ==>
                  o.pull(i, returnNonFull) == Ok([]) && o.elapsed(i) < maxPollTime && !returnEmpty
      invariant callback <==> polls == 0
      invariant waits == if callback then 0 else 1
      invariant polls > 0 ==> NoTxnDelay * (polls - 1) < maxPollTime
      decreases maxPollTime + NoTxnDelay - NoTxnDelay * polls
    {
      var done := o.elapsed(polls) >= maxPollTime;
      r := o.pull(polls, returnNonFull || returnEmpty || done);
      TimePasses(o, polls);
      polls := polls + 1;
      if r.Err? {
        return;
      }
      if r.value == [] && !returnEmpty && !done {
        if callback {
          callback, waits := false, waits + 1;
        }
        continue;
      }
      return;
    }
  }
}
