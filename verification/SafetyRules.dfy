/** Initialising and retrying the safety rules: the waypoint is walked forward page by page through the
    epoch endings in storage until it reaches the epoch the rules last signed in. */
module SafetyRules {
  import opened Options

  datatype Error =
    | NotInitialized
    | IncorrectEpoch(requested: nat, current: nat)
    | WaypointOutOfDate(prevVersion: nat, currVersion: nat, currentEpoch: nat, providedEpoch: nat)
    | InvalidEpochChangeProof
    | StorageError
    | KeyUnavailable
    | Refused

  datatype Unit = Unit

  /** `endings[e]` is the version at which epoch `e` ended; `latest` is the newest committed version. */
  datatype Storage = Storage(endings: seq<nat>, latest: nat) {
    ghost predicate Valid() {
      && (forall i, j :: 0 <= i < j < |endings| ==> endings[i] < endings[j])
      && (forall i :: 0 <= i < |endings| ==> endings[i] <= latest)
    }
  }

  /** The epoch a version belongs to: the first that ends at or after it. */
  function EpochOf(endings: seq<nat>, version: nat): nat {
    if endings == [] || version <= endings[0] then 0 else 1 + EpochOf(endings[1..], version)
  }

  const PageSize := 100

  /** Epochs whose endings a proof carries, as a half-open range; empty once all are known. */
  function PageEnd(s: Storage, epoch: nat): nat {
    if epoch + PageSize < |s.endings| then epoch + PageSize else |s.endings|
  }

  /** Keys for an epoch may be missing: the node is not a validator, or its key is not stored. */
  type Keys = nat -> bool

  /** The part of the inner rules that initialisation touches. */
  datatype Inner = Inner(waypoint: nat, epoch: nat, ready: bool)

  /** Checks a proof for the ended epochs from `start` on against the waypoint and moves to its end. */
  function Initialize(s: Storage, keys: Keys, inner: Inner, start: nat): (Inner, Result<Unit, Error>) {
    if start >= |s.endings| || s.endings[start] != inner.waypoint then (inner, Err(InvalidEpochChangeProof)) else
    var last := PageEnd(s, start) - 1;
    var moved := inner.(waypoint := if s.endings[last] > inner.waypoint then s.endings[last] else inner.waypoint);
    if inner.epoch > last + 1 then
      (moved, Err(WaypointOutOfDate(inner.waypoint, s.endings[last], inner.epoch, last + 1)))
    else
      (moved.(epoch := last + 1, ready := keys(last + 1)), if keys(last + 1) then Ok(Unit) else Err(KeyUnavailable))
  }

  lemma {:induction false} EpochOfEnding(endings: seq<nat>, version: nat)
    requires forall i, j :: 0 <= i < j < |endings| ==> endings[i] < endings[j]
    ensures EpochOf(endings, version) <= |endings|
    ensures forall i :: 0 <= i < |endings| ==> (endings[i] == version ==> EpochOf(endings, version) == i)
    ensures EpochOf(endings, version) < |endings| ==> endings[EpochOf(endings, version)] >= version
    ensures forall i :: 0 <= i < EpochOf(endings, version) ==> endings[i] < version
  {
    if endings != [] && version > endings[0] {
      EpochOfEnding(endings[1..], version);
      assert forall i :: 1 <= i < |endings| ==> endings[i] == endings[1..][i - 1];
    }
  }

  /** Where initialisation ends up: on the first page whose end reaches the epoch last signed in, or at
      the newest ending if none does. */
  function Reached(s: Storage, k: nat, epoch: nat): (last: nat)
    requires k < |s.endings|
    ensures k <= last < |s.endings|
    decreases |s.endings| - k
  {
    var last := PageEnd(s, k) - 1;
    if epoch <= last + 1 || last == k then last else Reached(s, last, epoch)
  }

  lemma {:induction false} ReachedFacts(s: Storage, k: nat, epoch: nat)
    requires k < |s.endings|
    ensures epoch <= |s.endings| <==> epoch <= Reached(s, k, epoch) + 1
    ensures epoch > |s.endings| ==> Reached(s, k, epoch) == |s.endings| - 1
    decreases |s.endings| - k
  {
    var last := PageEnd(s, k) - 1;
    if !(epoch <= last + 1 || last == k) { ReachedFacts(s, last, epoch); }
  }

  /** The epoch the waypoint is the ending of, if storage knows one. */
  function Start(s: Storage, inner: Inner): (r: Option<nat>)
    ensures r.Some? ==> r.value < |s.endings| && s.endings[r.value] == inner.waypoint
  {
    var k := EpochOf(s.endings, inner.waypoint);
    if k < |s.endings| && s.endings[k] == inner.waypoint then Some(k) else None
  }

  /** With a waypoint that storage knows the outcome is decided by storage: either it holds enough
      endings, and the rules are set up for an epoch at or past the one last signed in, or it does not and
      the waypoint rests on the newest ending. Otherwise nothing changes. */
  ghost predicate Settled(s: Storage, keys: Keys, before: Inner, after: Inner, r: Result<Unit, Error>) {
    match Start(s, before)
    case None =>
      after == before && r == Err(if before.waypoint > s.latest then StorageError else InvalidEpochChangeProof)
    case Some(k) =>
      var last := Reached(s, k, before.epoch);
      && k <= last < |s.endings|
      && if before.epoch <= |s.endings| then
           && after == Inner(s.endings[last], last + 1, keys(last + 1))
           && after.epoch >= before.epoch
           && r == if keys(last + 1) then Ok(Unit) else Err(KeyUnavailable)
         else
           && last == |s.endings| - 1
           && after == before.(waypoint := s.endings[last])
           && r == Err(WaypointOutOfDate(after.waypoint, after.waypoint, before.epoch, |s.endings|))
  }

  lemma StartFacts(s: Storage, inner: Inner)
    requires s.Valid()
    ensures EpochOf(s.endings, inner.waypoint) <= |s.endings|
    ensures Start(s, inner).Some? <==> inner.waypoint in s.endings
    ensures Start(s, inner).Some? ==> Start(s, inner).value == EpochOf(s.endings, inner.waypoint)
    ensures Start(s, inner).None? ==>
              EpochOf(s.endings, inner.waypoint) >= |s.endings|
              || s.endings[EpochOf(s.endings, inner.waypoint)] != inner.waypoint
  {
    EpochOfEnding(s.endings, inner.waypoint);
  }

  lemma NothingAhead(s: Storage, inner: Inner)
    requires s.Valid() && inner.waypoint > s.latest
    ensures Start(s, inner).None?
  {
    StartFacts(s, inner);
  }

  /** One page moves the waypoint to the page's last ending and leaves the destination alone. */
  lemma InitializeStep(s: Storage, keys: Keys, inner: Inner, k: nat)
    requires s.Valid() && Start(s, inner) == Some(k)
    ensures var last := PageEnd(s, k) - 1; var (next, r) := Initialize(s, keys, inner, k);
            && k <= last < |s.endings| && next.waypoint == s.endings[last] >= inner.waypoint
            && (k < last <==> inner.waypoint < s.endings[last])
            && Start(s, next) == Some(last) && EpochOf(s.endings, s.endings[last]) == last
            && (inner.epoch <= last + 1 || last == k ==> Reached(s, k, inner.epoch) == last)
            && (inner.epoch > last + 1 ==> Reached(s, last, inner.epoch) == Reached(s, k, inner.epoch))
  {
    var last := PageEnd(s, k) - 1;
    EpochOfEnding(s.endings, s.endings[last]);
    assert k < last ==> s.endings[k] < s.endings[last];
  }

  /** What is to be signed. Proposals, votes and timeouts are of an epoch, which the rules check; a commit vote is
      checked against the signatures it comes with only. */
  datatype Request = InEpoch(epoch: nat) | CommitVote

  predicate SetUpFor(inner: Inner, request: Request) {
    inner.ready && (request.InEpoch? ==> request.epoch == inner.epoch)
  }

  /** What the rules decide about a request once set up for it; it may depend on their epoch. */
  type Verdict = nat -> bool

  /** The inner rules' answer to a request. */
  function TrySign(inner: Inner, request: Request, accepts: Verdict): Result<Unit, Error> {
    if !inner.ready then Err(NotInitialized)
    else if request.InEpoch? && request.epoch != inner.epoch then Err(IncorrectEpoch(request.epoch, inner.epoch))
    else if accepts(inner.epoch) then Ok(Unit)
    else Err(Refused)
  }

  /** One past the last epoch on page `j` of the walk that starts at epoch `k`. */
  function WalkPageEnd(k: nat, j: nat): nat {
    k + 99 * j + PageSize
  }

  /** The walk ends at the newest ending exactly when no full page ends between the epoch last signed in and
      the newest one: the first page that reaches the former stops the walk. */
  lemma {:induction false} ReachesNewestIff(s: Storage, k: nat, epoch: nat)
    requires k < |s.endings| && epoch <= |s.endings|
    ensures Reached(s, k, epoch) == |s.endings| - 1
            <==> forall j: nat :: WalkPageEnd(k, j) < epoch || WalkPageEnd(k, j) >= |s.endings|
    decreases |s.endings| - k
  {
    var last := PageEnd(s, k) - 1;
    if epoch <= last + 1 {
      assert last < |s.endings| - 1 ==> WalkPageEnd(k, 0) == last + 1;
    } else {
      ReachesNewestIff(s, last, epoch);
      assert forall j: nat :: WalkPageEnd(last, j) == WalkPageEnd(k, j + 1);
      forall j: nat | WalkPageEnd(k, j) >= epoch
        ensures j > 0
      {
      }
      if forall j: nat :: WalkPageEnd(last, j) < epoch || WalkPageEnd(last, j) >= |s.endings| {
        forall j: nat
          ensures WalkPageEnd(k, j) < epoch || WalkPageEnd(k, j) >= |s.endings|
        {
          if j > 0 { assert WalkPageEnd(last, j - 1) == WalkPageEnd(k, j); }
        }
      }
    }
  }

  /** After initialisation the rules are ready to sign in the newest epoch exactly under that condition. */
  lemma ReadyForNewestEpochIff(s: Storage, keys: Keys, before: Inner, after: Inner, r: Result<Unit, Error>)
    requires Settled(s, keys, before, after, r) && Start(s, before).Some?
    requires before.epoch <= |s.endings| && keys(|s.endings|)
    ensures var k := Start(s, before).value;
            SetUpFor(after, InEpoch(|s.endings|))
            <==> forall j: nat :: WalkPageEnd(k, j) < before.epoch || WalkPageEnd(k, j) >= |s.endings|
  {
    ReachesNewestIff(s, Start(s, before).value, before.epoch);
  }

  /** A fresh node, whose safety data starts at epoch 1, with 150 ended epochs in storage initialises successfully,
      but for epoch 100. */
  lemma StopsShort(keys: Keys, after: Inner, r: Result<Unit, Error>) returns (s: Storage, before: Inner)
    requires keys(100)
    ensures s.Valid() && |s.endings| == 150 && before == Inner(0, 1, false)
    ensures Settled(s, keys, before, after, r) ==> r.Ok? && after.epoch == 100
  {
    s, before := Storage(seq(150, i => i), 149), Inner(0, 1, false);
    assert Start(s, before) == Some(0);
    assert Reached(s, 0, 1) == 99;
  }

  // ----- Repeated requests -----

  /** The rules after an initialisation. */
  function InitializedTo(s: Storage, keys: Keys, inner: Inner): Inner {
    match Start(s, inner)
    case None => inner
    case Some(k) =>
      var last := Reached(s, k, inner.epoch);
      if inner.epoch <= |s.endings| then Inner(s.endings[last], last + 1, keys(last + 1))
      else inner.(waypoint := s.endings[last])
  }

  lemma SettledIsInitialized(s: Storage, keys: Keys, before: Inner, after: Inner, r: Result<Unit, Error>)
    requires Settled(s, keys, before, after, r)
    ensures after == InitializedTo(s, keys, before)
  {
  }

  /** The rules after a number of requests for the newest epoch. */
  function Requested(s: Storage, keys: Keys, inner: Inner, requests: nat): Inner {
    if requests == 0 then inner else
    var before := Requested(s, keys, inner, requests - 1);
    if before.ready && before.epoch == |s.endings| then before else InitializedTo(s, keys, before)
  }

  /** The rules as an initialisation leaves them. */
  predicate ReadyFor(s: Storage, keys: Keys, inner: Inner) {
    1 <= inner.epoch <= |s.endings| && inner.waypoint == s.endings[inner.epoch - 1] && inner.ready == keys(inner.epoch)
  }

  /** From where an initialisation has led, the next one goes on by one page. */
  lemma NextPage(s: Storage, keys: Keys, inner: Inner)
    requires s.Valid() && ReadyFor(s, keys, inner)
    ensures var after := InitializedTo(s, keys, inner);
            && ReadyFor(s, keys, after)
            && after.epoch == if inner.epoch + 99 < |s.endings| then inner.epoch + 99 else |s.endings|
  {
    StartFacts(s, inner);
    EpochOfEnding(s.endings, inner.waypoint);
  }

  /** Every request for the newest epoch moves the rules on by one page until they are there, whether or not they
      have keys for the epochs on the way. */
  lemma {:induction false} RequestsAdvance(s: Storage, keys: Keys, inner: Inner, requests: nat)
    requires s.Valid() && Start(s, inner).Some? && inner.epoch <= |s.endings| && requests >= 1
    ensures var after, first := Requested(s, keys, inner, requests), Reached(s, Start(s, inner).value, inner.epoch) + 1;
            var due := first + 99 * (requests - 1);
            && after.epoch == (if due < |s.endings| then due else |s.endings|)
            && (ReadyFor(s, keys, after) || (after.ready && after.epoch == |s.endings|))
  {
    hide Storage.Valid, EpochOf;
    ReachedFacts(s, Start(s, inner).value, inner.epoch);
    if requests > 1 {
      RequestsAdvance(s, keys, inner, requests - 1);
      var before := Requested(s, keys, inner, requests - 1);
      hide InitializedTo, Reached;
      if !(before.ready && before.epoch == |s.endings|) { NextPage(s, keys, before); }
    }
  }

  /** So a request for the newest epoch repeated once per 99 epochs still to go is signed exactly if the rules accept
      it there, given keys for that epoch. */
  lemma RequestsGetSigned(s: Storage, keys: Keys, inner: Inner, requests: nat, accepts: Verdict)
    requires s.Valid() && Start(s, inner).Some? && inner.epoch <= |s.endings| && requests >= 1 && keys(|s.endings|)
    requires Reached(s, Start(s, inner).value, inner.epoch) + 1 + 99 * (requests - 1) >= |s.endings|
    ensures TrySign(Requested(s, keys, inner, requests), InEpoch(|s.endings|), accepts).Ok? <==> accepts(|s.endings|)
  {
    RequestsAdvance(s, keys, inner, requests);
  }

  class Metrics {
    const storage: Storage
    const keys: Keys
    var inner: Inner
    /** How many requests have been signed. */
    ghost var signings: nat

    constructor (storage: Storage, keys: Keys, inner: Inner)
      ensures this.storage == storage && this.keys == keys && this.inner == inner && signings == 0
    {
      this.storage, this.keys, this.inner, signings := storage, keys, inner, 0;
    }

    /** Walks the waypoint forward for as long as it moves. */
    method PerformInitialize() returns (r: Result<Unit, Error>)
      requires storage.Valid()
      modifies this`inner
      ensures Settled(storage, keys, old(inner), inner, r)
    {
      hide Storage.Valid, Reached, EpochOf;
      var waypointVersion := inner.waypoint;
      ghost var start := Start(storage, inner);
      StartFacts(storage, inner);
      while true
        invariant waypointVersion == inner.waypoint >= old(inner.waypoint)
        invariant inner == old(inner).(waypoint := waypointVersion)
        invariant start.None? ==> inner == old(inner)
        invariant start == Start(storage, old(inner))
        invariant Start(storage, inner).None? <==> start.None?
        invariant start.Some? ==>
                    Reached(storage, Start(storage, inner).value, inner.epoch)
                    == Reached(storage, start.value, inner.epoch)
        decreases |storage.endings| - EpochOf(storage.endings, waypointVersion)
      {
        if waypointVersion > storage.latest {
          NothingAhead(storage, inner);
          return Err(StorageError);
        }
        var epoch := EpochOf(storage.endings, waypointVersion);
        StartFacts(storage, inner);
        var (next, result) := Initialize(storage, keys, inner, epoch);
        if start.Some? {
          InitializeStep(storage, keys, inner, epoch);
          ReachedFacts(storage, start.value, inner.epoch);
        }
        inner := next;
        if result.Err? && result.error.WaypointOutOfDate? && result.error.prevVersion < result.error.currVersion {
          waypointVersion := result.error.currVersion;
          continue;
        }
        return result;
      }
    }

    /** One attempt of the inner rules. */
    method Attempt(request: Request, accepts: Verdict) returns (r: Result<Unit, Error>)
      modifies this`signings
      ensures r == TrySign(inner, request, accepts)
      ensures signings == old(signings) + if r.Ok? then 1 else 0
    {
      if !inner.ready {
        return Err(NotInitialized);
      }
      if request.InEpoch? && request.epoch != inner.epoch {
        return Err(IncorrectEpoch(request.epoch, inner.epoch));
      }
      if !accepts(inner.epoch) {
        return Err(Refused);
      }
      signings := signings + 1;
      return Ok(Unit);
    }

    /** A request is tried once, and once more after a successful initialisation (`init`) if the rules were
        not set up for it. It is signed at most once, and then accepted under the epoch the rules are set up for,
        which is its own if it has one. */
    method Sign(request: Request, accepts: Verdict)
      returns (r: Result<Unit, Error>, attempts: nat, ghost init: Result<Unit, Error>)
      requires storage.Valid()
      modifies this
      ensures signings == old(signings) + if r.Ok? then 1 else 0
      ensures r.Ok? ==> SetUpFor(inner, request) && accepts(inner.epoch)
      ensures if SetUpFor(old(inner), request) then
                attempts == 1 && inner == old(inner) && (r.Ok? <==> accepts(inner.epoch))
              else
                && Settled(storage, keys, old(inner), inner, init)
                && attempts == (if init.Ok? then 2 else 1)
                && r == (if init.Ok? then TrySign(inner, request, accepts) else init)
                && (init.Ok? && !SetUpFor(inner, request) ==>
                      request.InEpoch? && r == Err(IncorrectEpoch(request.epoch, inner.epoch)))
                && (init.Ok? && SetUpFor(inner, request) ==>
                      r == if accepts(inner.epoch) then Ok(Unit) else Err(Refused))
      ensures request == InEpoch(|storage.endings|) ==> inner == Requested(storage, keys, old(inner), 1)
    {
      assert Requested(storage, keys, inner, 0) == inner;
      r := Attempt(request, accepts);
      attempts, init := 1, r;
      if r.Err? && (r.error.NotInitialized? || r.error.IncorrectEpoch? || r.error.WaypointOutOfDate?) {
        var initialized := PerformInitialize();
        init := initialized;
        SettledIsInitialized(storage, keys, old(inner), inner, init);
        if initialized.Err? {
          return initialized, attempts, init;
        }
        attempts := 2;
        r := Attempt(request, accepts);
      }
    }
  }
}
