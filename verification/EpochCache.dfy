/** The double-checked caches for on-chain settings (gas schedule, block gas limit): read under the
    shared lock, and on a miss check again and load under the exclusive lock. */
module EpochCache {
  import opened Options

  datatype Cache<V> = Cache(lastUpdatedEpoch: Option<nat>, value: Option<V>) {
    function Lookup(epoch: nat): Option<V> {
      if lastUpdatedEpoch == Some(epoch) then value else None
    }
  }

  /** The section under the exclusive lock; `fetched` is what storage holds at the caller's version. */
  function Load<V>(c: Cache<V>, epoch: nat, fetched: Option<V>): (Cache<V>, Option<V>) {
    var cached := c.Lookup(epoch);
    if cached.Some? then (c, cached)
    else if fetched.None? then (c, None)
    else (Cache(Some(epoch), fetched), fetched)
  }

  class Store<V(==)> {
    var lastUpdatedEpoch: Option<nat>
    var value: Option<V>

    ghost function View(): Cache<V>
      reads this
    {
      Cache(lastUpdatedEpoch, value)
    }

    constructor ()
      ensures View() == Cache(None, None)
    {
      lastUpdatedEpoch, value := None, None;
    }

    /** Under the shared lock. */
    method Read(epoch: nat) returns (r: Option<V>)
      ensures r == View().Lookup(epoch)
    {
      if lastUpdatedEpoch.Some? && value.Some? {
        if lastUpdatedEpoch.value == epoch {
          return value;
        }
      }
      return None;
    }

    /** Under the exclusive lock. */
    method Refresh(epoch: nat, fetched: Option<V>) returns (r: Option<V>)
      modifies this
      ensures (View(), r) == Load(old(View()), epoch, fetched)
    {
      if lastUpdatedEpoch.Some? && value.Some? {
        if lastUpdatedEpoch.value == epoch {
          return value;
        }
      }
      if fetched.None? {
        return None;
      }
      value := fetched;
      lastUpdatedEpoch := Some(epoch);
      return fetched;
    }
  }

  // ----- Any interleaving of callers -----

  datatype Phase<V> = Arrived | Missed | Served(value: V) | Failed

  /** One request: the epoch and version of the ledger info it carries, and how far it got. */
  datatype Request<V> = Request(epoch: nat, version: nat, phase: Phase<V>)

  datatype World<V> = World(cache: Cache<V>, requests: seq<Request<V>>)

  datatype Event =
    | Arrive(epoch: nat, version: nat)
    | ReadShared(i: nat)
    | LoadExclusive(i: nat)

  function At<V>(w: World<V>, i: nat, phase: Phase<V>): seq<Request<V>>
    requires i < |w.requests|
  {
    w.requests[i := w.requests[i].(phase := phase)]
  }

  /** Events that do not apply leave the world as it is. */
  function Next<V>(onChain: nat -> Option<V>, w: World<V>, ev: Event): World<V> {
    match ev
    case Arrive(epoch, version) =>
      w.(requests := w.requests + [Request(epoch, version, Phase.Arrived)])
    case ReadShared(i) =>
      if i >= |w.requests| || !w.requests[i].phase.Arrived? then w else
      var r := w.cache.Lookup(w.requests[i].epoch);
      w.(requests := At(w, i, if r.Some? then Served(r.value) else Missed))
    case LoadExclusive(i) =>
      if i >= |w.requests| || !w.requests[i].phase.Missed? then w else
      var (c, r) := Load(w.cache, w.requests[i].epoch, onChain(w.requests[i].version));
      World(c, At(w, i, if r.Some? then Served(r.value) else Failed))
  }

  function Run<V>(onChain: nat -> Option<V>, evs: seq<Event>): World<V> {
    if evs == [] then World(Cache(None, None), [])
    else Next(onChain, Run(onChain, evs[..|evs| - 1]), evs[|evs| - 1])
  }

  /** Some request of this epoch found this value in storage at its own version. */
  ghost predicate Fetched<V>(onChain: nat -> Option<V>, reqs: seq<Request<V>>, epoch: nat, v: V) {
    exists i :: 0 <= i < |reqs| && reqs[i].epoch == epoch && onChain(reqs[i].version) == Some(v)
  }

  ghost predicate Sourced<V>(onChain: nat -> Option<V>, w: World<V>) {
    && (w.cache.lastUpdatedEpoch.Some? && w.cache.value.Some? ==>
          Fetched(onChain, w.requests, w.cache.lastUpdatedEpoch.value, w.cache.value.value))
    && (forall i :: 0 <= i < |w.requests| && w.requests[i].phase.Served? ==>
          Fetched(onChain, w.requests, w.requests[i].epoch, w.requests[i].phase.value))
  }

  lemma FetchedPersists<V>(onChain: nat -> Option<V>, a: seq<Request<V>>, b: seq<Request<V>>, epoch: nat, v: V)
    requires |a| <= |b| && Fetched(onChain, a, epoch, v)
    requires forall i :: 0 <= i < |a| ==> a[i].epoch == b[i].epoch && a[i].version == b[i].version
    ensures Fetched(onChain, b, epoch, v)
  {
    var i :| 0 <= i < |a| && a[i].epoch == epoch && onChain(a[i].version) == Some(v);
    assert b[i].epoch == epoch && onChain(b[i].version) == Some(v);
  }

  lemma NextSourced<V>(onChain: nat -> Option<V>, w: World<V>, ev: Event)
    requires Sourced(onChain, w)
    ensures Sourced(onChain, Next(onChain, w, ev))
  {
    var w' := Next(onChain, w, ev);
    if w' != w {
      assert forall i :: 0 <= i < |w.requests| ==>
        w.requests[i].epoch == w'.requests[i].epoch && w.requests[i].version == w'.requests[i].version;
      forall epoch, v | Fetched(onChain, w.requests, epoch, v) ensures Fetched(onChain, w'.requests, epoch, v) {
        FetchedPersists(onChain, w.requests, w'.requests, epoch, v);
      }
      if ev.LoadExclusive? && onChain(w.requests[ev.i].version).Some? {
        assert Fetched(onChain, w'.requests, w'.requests[ev.i].epoch, onChain(w.requests[ev.i].version).value);
      }
    }
  }

  lemma {:induction false} RunSourced<V>(onChain: nat -> Option<V>, evs: seq<Event>)
    ensures Sourced(onChain, Run(onChain, evs))
  {
    if evs != [] {
      RunSourced(onChain, evs[..|evs| - 1]);
      NextSourced(onChain, Run(onChain, evs[..|evs| - 1]), evs[|evs| - 1]);
    }
  }

  /** However callers of different epochs interleave, what one is served was read from storage by a
      caller of its own epoch. */
  lemma ServedFromOwnEpoch<V>(onChain: nat -> Option<V>, evs: seq<Event>, i: nat)
    requires i < |Run(onChain, evs).requests| && Run(onChain, evs).requests[i].phase.Served?
    ensures var r := Run(onChain, evs).requests[i];
            Fetched(onChain, Run(onChain, evs).requests, r.epoch, r.phase.value)
  {
    RunSourced(onChain, evs);
  }

  /** So when the setting is the same at all versions of an epoch, every caller gets the one that
      storage holds at its own version. */
  lemma ServedIsOnChain<V>(onChain: nat -> Option<V>, evs: seq<Event>, i: nat)
    requires i < |Run(onChain, evs).requests| && Run(onChain, evs).requests[i].phase.Served?
    requires var reqs := Run(onChain, evs).requests;
             forall j, k :: 0 <= j < |reqs| && 0 <= k < |reqs| && reqs[j].epoch == reqs[k].epoch ==>
               onChain(reqs[j].version) == onChain(reqs[k].version)
    ensures var r := Run(onChain, evs).requests[i];
            onChain(r.version) == Some(r.phase.value)
  {
    RunSourced(onChain, evs);
  }

  lemma RunExtend<V>(onChain: nat -> Option<V>, evs: seq<Event>, ev: Event)
    ensures Run(onChain, evs + [ev]) == Next(onChain, Run(onChain, evs), ev)
  {
    assert (evs + [ev])[..|evs|] == evs;
  }

  lemma {:induction false} RunFailsOnlyWithoutValue<V>(onChain: nat -> Option<V>, evs: seq<Event>)
    ensures forall i :: 0 <= i < |Run(onChain, evs).requests| && Run(onChain, evs).requests[i].phase.Failed? ==>
              onChain(Run(onChain, evs).requests[i].version).None?
  {
    if evs != [] { RunFailsOnlyWithoutValue(onChain, evs[..|evs| - 1]); }
  }

  /** Under any interleaving, a caller whose version has the setting in storage never fails. */
  lemma FailsOnlyWithoutValue<V>(onChain: nat -> Option<V>, evs: seq<Event>, i: nat)
    requires i < |Run(onChain, evs).requests| && onChain(Run(onChain, evs).requests[i].version).Some?
    ensures !Run(onChain, evs).requests[i].phase.Failed?
  {
    RunFailsOnlyWithoutValue(onChain, evs);
  }

  /** Every caller is done after its second section at the latest: served if storage has the setting at its version,
      and otherwise served or failed. */
  lemma TwoSectionsDecide<V>(onChain: nat -> Option<V>, evs: seq<Event>, i: nat)
    requires i < |Run(onChain, evs).requests| && Run(onChain, evs).requests[i].phase.Arrived?
    ensures var read := Run(onChain, evs + [ReadShared(i)]);
            var done := Run(onChain, evs + [ReadShared(i)] + [LoadExclusive(i)]);
            && i < |read.requests| && (read.requests[i].phase.Served? || read.requests[i].phase.Missed?)
            && i < |done.requests|
            && (onChain(done.requests[i].version).Some? ==> done.requests[i].phase.Served?)
            && (done.requests[i].phase.Served? || done.requests[i].phase.Failed?)
  {
    RunExtend(onChain, evs, ReadShared(i));
    RunExtend(onChain, evs + [ReadShared(i)], LoadExclusive(i));
  }

  /** Once a caller has loaded a setting, the next one is served the same without storage if it is of the same epoch,
      and is not served in its first section if it is of another. */
  lemma LoadedIsServed<V>(onChain: nat -> Option<V>, evs: seq<Event>, i: nat, j: nat)
    requires var w := Run(onChain, evs);
             i < |w.requests| && w.requests[i].phase.Missed? && j < |w.requests| && w.requests[j].phase.Arrived?
    requires onChain(Run(onChain, evs).requests[i].version).Some?
    ensures var loaded := Run(onChain, evs + [LoadExclusive(i)]);
            var read := Run(onChain, evs + [LoadExclusive(i)] + [ReadShared(j)]);
            && i < |loaded.requests| && loaded.requests[i].phase.Served? && j < |read.requests|
            && read.requests[j].phase == if read.requests[j].epoch == loaded.requests[i].epoch
                                         then loaded.requests[i].phase else Missed
  {
    RunExtend(onChain, evs, LoadExclusive(i));
    RunExtend(onChain, evs + [LoadExclusive(i)], ReadShared(j));
  }
}
