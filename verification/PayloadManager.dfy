/** Getting the transactions behind a block's batch certificates: a per-block status cell that
    prefetching fills and `get_transactions` takes and puts back. */
module PayloadManager {
  import opened Options

  type Digest = nat
  type Transaction = nat

  datatype ProofOfStore = ProofOfStore(digest: Digest, expiration: nat)

  datatype Block = Block(timestamp: nat, proofs: seq<ProofOfStore>)

  /** Batches are content-addressed: a digest has one list of transactions. */
  type Batches = Digest -> seq<Transaction>

  datatype DataStatus =
    | Cached(data: seq<Transaction>)
    | Requested(receivers: seq<Digest>)

  /** What a receiver yields: the batch, an error, or nothing because the sender is gone. */
  datatype Receipt = Arrived | Errored | Dropped

  datatype Error = DataNotFound(digest: Digest) | BatchError

  // ----- Reference: what a block's payload is -----

  function Live(proofs: seq<ProofOfStore>, timestamp: nat): seq<Digest> {
    if proofs == [] then [] else
    var last := proofs[|proofs| - 1];
    Live(proofs[..|proofs| - 1], timestamp) + if timestamp <= last.expiration then [last.digest] else []
  }

  function Concat(batches: Batches, ds: seq<Digest>): seq<Transaction> {
    if ds == [] then [] else Concat(batches, ds[..|ds| - 1]) + batches(ds[|ds| - 1])
  }

  /** The unexpired batches of the block, in order. */
  function Payload(batches: Batches, b: Block): seq<Transaction> {
    Concat(batches, Live(b.proofs, b.timestamp))
  }

  lemma ConcatStep(batches: Batches, ds: seq<Digest>, k: nat)
    requires k < |ds|
    ensures Concat(batches, ds[..k + 1]) == Concat(batches, ds[..k]) + batches(ds[k])
  {
    assert ds[..k + 1][..k] == ds[..k];
  }

  /** Concatenation, from either end. */
  lemma {:induction false} ConcatLaws(batches: Batches, a: seq<Digest>, b: seq<Digest>, d: Digest)
    ensures Concat(batches, []) == [] && Concat(batches, [d]) == batches(d)
    ensures Concat(batches, a + b) == Concat(batches, a) + Concat(batches, b)
    decreases |b|
  {
    assert [d][..0] == [];
    if b == [] {
      assert a + b == a;
    } else {
      var front := b[..|b| - 1];
      ConcatLaws(batches, a, front, d);
      assert (a + b)[..|a + b| - 1] == a + front;
    }
  }

  /** The positions of the certificates that have not expired, rising. */
  ghost predicate Unexpired(proofs: seq<ProofOfStore>, timestamp: nat, pos: seq<nat>) {
    && (forall j :: 0 <= j < |pos| ==> pos[j] < |proofs|)
    && (forall i, j :: 0 <= i < j < |pos| ==> pos[i] < pos[j])
    && (forall i: nat :: i in pos <==> i < |proofs| && timestamp <= proofs[i].expiration)
  }

  ghost function DigestsAt(proofs: seq<ProofOfStore>, pos: seq<nat>): (ds: seq<Digest>)
    requires forall j :: 0 <= j < |pos| ==> pos[j] < |proofs|
    ensures |ds| == |pos| && forall j :: 0 <= j < |pos| ==> ds[j] == proofs[pos[j]].digest
  {
    seq(|pos|, j requires 0 <= j < |pos| => proofs[pos[j]].digest)
  }

  /** The digests asked for are those of the unexpired certificates, each once for each of them and in their order. */
  lemma {:induction false} LivePositions(proofs: seq<ProofOfStore>, timestamp: nat) returns (pos: seq<nat>)
    ensures Unexpired(proofs, timestamp, pos)
    ensures Live(proofs, timestamp) == DigestsAt(proofs, pos)
  {
    hide Unexpired;
    if proofs == [] {
      pos := [];
      NoneUnexpired(timestamp);
    } else {
      var n := |proofs| - 1;
      var front := LivePositions(proofs[..n], timestamp);
      pos := front + if timestamp <= proofs[n].expiration then [n] else [];
      UnexpiredStep(proofs, timestamp, front);
    }
  }

  lemma NoneUnexpired(timestamp: nat)
    ensures Unexpired([], timestamp, [])
  {
  }

  lemma UnexpiredStep(proofs: seq<ProofOfStore>, timestamp: nat, front: seq<nat>)
    requires proofs != [] && Unexpired(proofs[..|proofs| - 1], timestamp, front)
    ensures var n := |proofs| - 1;
            var pos := front + if timestamp <= proofs[n].expiration then [n] else [];
            && Unexpired(proofs, timestamp, pos)
            && DigestsAt(proofs, pos) == DigestsAt(proofs[..n], front)
                                         + if timestamp <= proofs[n].expiration then [proofs[n].digest] else []
  {
    var n := |proofs| - 1;
    assert forall i: nat :: i < n ==> proofs[..n][i] == proofs[i];
    if timestamp <= proofs[n].expiration {
      assert forall i: nat :: i in front + [n] <==> i in front || i == n;
    } else {
      assert front + [] == front;
    }
  }

  // ----- One call of `get_transactions`, from taking the status to putting it back -----

  /** `receipts` tells what each receiver yields; the first failure ends the call. */
  function Outcome(batches: Batches, b: Block, status: DataStatus, receipts: nat -> Receipt)
    : (DataStatus, Result<seq<Transaction>, Error>)
  {
    match status
    case Cached(data) => (status, Ok(data))
    case Requested(rs) =>
      var k := FirstFailure(|rs|, receipts, 0);
      if k == |rs| then (Cached(Concat(batches, rs)), Ok(Concat(batches, rs)))
      else (Requested(Live(b.proofs, b.timestamp)),
            Err(if receipts(k).Dropped? then DataNotFound(rs[k]) else BatchError))
  }

  function FirstFailure(n: nat, receipts: nat -> Receipt, start: nat): (k: nat)
    requires start <= n
    ensures start <= k <= n
    decreases n - start
  {
    if start == n || !receipts(start).Arrived? then start else FirstFailure(n, receipts, start + 1)
  }

  /** A cached payload is handed out and kept. Otherwise, if all batches arrive, they are handed out in order and
      kept; if not, the first that does not decides the error, and all are asked for again. */
  ghost predicate Served(batches: Batches, b: Block, status: DataStatus, receipts: nat -> Receipt,
                         after: DataStatus, r: Result<seq<Transaction>, Error>)
  {
    match status
    case Cached(data) => after == status && r == Ok(data)
    case Requested(rs) =>
      && ((forall i: nat :: i < |rs| ==> receipts(i).Arrived?) ==>
            after == Cached(Concat(batches, rs)) && r == Ok(Concat(batches, rs)))
      && (forall k: nat :: k < |rs| && !receipts(k).Arrived? && (forall i: nat :: i < k ==> receipts(i).Arrived?) ==>
            && after == Requested(Live(b.proofs, b.timestamp))
            && r == Err(if receipts(k).Dropped? then DataNotFound(rs[k]) else BatchError))
  }

  lemma OutcomeServes(batches: Batches, b: Block, status: DataStatus, receipts: nat -> Receipt)
    ensures var (after, r) := Outcome(batches, b, status, receipts); Served(batches, b, status, receipts, after, r)
  {
    if status.Requested? { FirstFailureFacts(|status.receivers|, receipts, 0); }
  }

  class Cell {
    const block: Block
    const batches: Batches
    var status: Option<DataStatus>

    constructor (block: Block, batches: Batches)
      ensures this.block == block && this.batches == batches && status.None?
    {
      this.block, this.batches, status := block, batches, None;
    }

    method RequestTransactions() returns (receivers: seq<Digest>)
      ensures receivers == Live(block.proofs, block.timestamp)
    {
      receivers := [];
      for i := 0 to |block.proofs|
        invariant receivers == Live(block.proofs[..i], block.timestamp)
      {
        assert block.proofs[..i + 1][..i] == block.proofs[..i];
        if block.timestamp <= block.proofs[i].expiration {
          receivers := receivers + [block.proofs[i].digest];
        }
      }
      assert block.proofs[..|block.proofs|] == block.proofs;
    }

    /** Undisturbed prefetch: asks for the batches unless there is a status already. */
    method Prefetch()
      modifies this
      ensures status == if old(status).Some? then old(status)
                        else Some(Requested(Live(block.proofs, block.timestamp)))
    {
      if status.None? {
        var receivers := RequestTransactions();
        status := Some(Requested(receivers));
      }
    }

    method GetTransactions(receipts: nat -> Receipt) returns (r: Result<seq<Transaction>, Error>)
      requires status.Some?
      modifies this
      ensures status.Some? && (status.value, r) == Outcome(batches, block, old(status).value, receipts)
    {
      var taken := status.value;
      status := None;
      match taken {
        case Cached(data) =>
          status := Some(Cached(data));
          return Ok(data);
        case Requested(receivers) =>
          var ret := [];
          for i := 0 to |receivers|
            invariant status.None?
            invariant ret == Concat(batches, receivers[..i])
            invariant FirstFailure(|receivers|, receipts, 0) == FirstFailure(|receivers|, receipts, i)
          {
            if !receipts(i).Arrived? {
              var again := RequestTransactions();
              status := Some(Requested(again));
              return Err(if receipts(i).Dropped? then DataNotFound(receivers[i]) else BatchError);
            }
            ConcatStep(batches, receivers, i);
            ret := ret + batches(receivers[i]);
          }
          assert receivers[..|receivers|] == receivers;
          status := Some(Cached(ret));
          return Ok(ret);
      }
    }
  }

  // ----- Interleaved prefetches, failures and retries -----

  /** A `get_transactions` between taking the status and putting one back. */
  datatype Getting =
    | Idle
    | HoldsCached(data: seq<Transaction>)
    | Awaits(done: nat, receivers: seq<Digest>, collected: seq<Transaction>)

  datatype World = World(
    status: Option<DataStatus>,
    prefetching: nat,
    getting: Getting,
    prefetched: bool,
    results: seq<Result<seq<Transaction>, Error>>,
    panicked: bool)

  const Initial := World(None, 0, Idle, false, [], false)

  datatype Event =
    | PrefetchCheck
    | PrefetchStore
    | GetTake
    | GetReceive(receipt: Receipt)
    | GetPutBack

  /** Events that do not apply change nothing; in particular a second `get_transactions` on the block
      does not start while one is under way. */
  function Next(batches: Batches, b: Block, w: World, ev: Event): World {
    var asked := Some(Requested(Live(b.proofs, b.timestamp)));
    match ev
    case PrefetchCheck => if w.status.None? then w.(prefetching := w.prefetching + 1) else w
    case PrefetchStore =>
      if w.prefetching == 0 then w
      else w.(prefetching := w.prefetching - 1, status := asked, prefetched := true)
    case GetTake =>
      if !w.getting.Idle? then w
      else if w.status.None? then w.(panicked := true)
      else w.(status := None,
              getting := match w.status.value
                         case Cached(data) => HoldsCached(data)
                         case Requested(rs) => Awaits(0, rs, []))
    case GetReceive(receipt) =>
      if !w.getting.Awaits? || w.getting.done >= |w.getting.receivers| then w else
      var d := w.getting.receivers[w.getting.done];
      if receipt.Arrived? then
        w.(getting := Awaits(w.getting.done + 1, w.getting.receivers, w.getting.collected + batches(d)))
      else
        w.(getting := Idle, status := asked,
           results := w.results + [Err(if receipt.Dropped? then DataNotFound(d) else BatchError)])
    case GetPutBack =>
      match w.getting
      case Idle => w
      case HoldsCached(data) => w.(getting := Idle, status := Some(Cached(data)), results := w.results + [Ok(data)])
      case Awaits(done, rs, collected) =>
        if done < |rs| then w
        else w.(getting := Idle, status := Some(Cached(collected)), results := w.results + [Ok(collected)])
  }

  function Run(batches: Batches, b: Block, evs: seq<Event>): World {
    if evs == [] then Initial else Next(batches, b, Run(batches, b, evs[..|evs| - 1]), evs[|evs| - 1])
  }

  predicate GoodStatus(batches: Batches, b: Block, s: DataStatus) {
    match s
    case Cached(data) => data == Payload(batches, b)
    case Requested(rs) => rs == Live(b.proofs, b.timestamp)
  }

  predicate GoodGet(batches: Batches, b: Block, g: Getting) {
    match g
    case Idle => true
    case HoldsCached(data) => data == Payload(batches, b)
    case Awaits(done, rs, collected) =>
      done <= |rs| && rs == Live(b.proofs, b.timestamp) && collected == Concat(batches, rs[..done])
  }

  predicate Inv(batches: Batches, b: Block, w: World) {
    && (w.status.Some? ==> GoodStatus(batches, b, w.status.value) && w.prefetched)
    && GoodGet(batches, b, w.getting)
    && (w.status.None? ==> !w.prefetched || !w.getting.Idle?)
    && (!w.getting.Idle? ==> w.prefetched)
    && (forall i :: 0 <= i < |w.results| && w.results[i].Ok? ==> w.results[i].value == Payload(batches, b))
  }

  lemma NextKeepsInv(batches: Batches, b: Block, w: World, ev: Event)
    requires Inv(batches, b, w)
    ensures Inv(batches, b, Next(batches, b, w, ev))
  {
    hide Live;
    if w.getting.Awaits? {
      var rs := w.getting.receivers;
      if w.getting.done < |rs| { ConcatStep(batches, rs, w.getting.done); }
      assert rs[..|rs|] == rs;
    }
  }

  lemma {:induction false} RunKeepsInv(batches: Batches, b: Block, evs: seq<Event>)
    ensures Inv(batches, b, Run(batches, b, evs))
  {
    if evs != [] {
      RunKeepsInv(batches, b, evs[..|evs| - 1]);
      NextKeepsInv(batches, b, Run(batches, b, evs[..|evs| - 1]), evs[|evs| - 1]);
    }
  }

  /** Whatever fails, is retried or is prefetched meanwhile, every successful call returns the batches of the
      certificates that have not expired, in their order. */
  lemma PayloadDetermined(batches: Batches, b: Block, evs: seq<Event>, i: nat) returns (pos: seq<nat>)
    requires i < |Run(batches, b, evs).results| && Run(batches, b, evs).results[i].Ok?
    ensures Unexpired(b.proofs, b.timestamp, pos)
    ensures Run(batches, b, evs).results[i].value == Concat(batches, DigestsAt(b.proofs, pos))
  {
    RunKeepsInv(batches, b, evs);
    pos := LivePositions(b.proofs, b.timestamp);
  }

  /** The status is missing only before the first prefetch has finished or inside a
      `get_transactions`; so taking it fails exactly before the first prefetch has finished. */
  lemma StatusPresent(batches: Batches, b: Block, evs: seq<Event>)
    ensures var w := Run(batches, b, evs);
            && (w.status.None? ==> !w.prefetched || !w.getting.Idle?)
            && (w.getting.Idle? && !w.panicked ==>
                  (Next(batches, b, w, GetTake).panicked <==> !w.prefetched))
  {
    RunKeepsInv(batches, b, evs);
  }

  /** What `Live` keeps: the digests of exactly the certificates that have not expired. */
  lemma {:induction false} LiveIsUnexpired(proofs: seq<ProofOfStore>, timestamp: nat, d: Digest)
    ensures d in Live(proofs, timestamp) <==>
              exists i :: 0 <= i < |proofs| && proofs[i].digest == d && timestamp <= proofs[i].expiration
  {
    if proofs != [] {
      var front, last := proofs[..|proofs| - 1], proofs[|proofs| - 1];
      LiveIsUnexpired(front, timestamp, d);
      assert forall i :: 0 <= i < |front| ==> front[i] == proofs[i];
      if d in Live(front, timestamp) {
        var i :| 0 <= i < |front| && front[i].digest == d && timestamp <= front[i].expiration;
        assert proofs[i].digest == d;
      } else if timestamp <= last.expiration && last.digest == d {
        assert proofs[|proofs| - 1].digest == d;
      } else {
        forall i | 0 <= i < |proofs| && proofs[i].digest == d ensures timestamp > proofs[i].expiration {
          if i < |front| { assert front[i].digest == d; }
        }
      }
    }
  }

  // ----- The calls as objects make them, and as the interleaving splits them -----

  function Received(batches: Batches, b: Block, w: World, receipts: nat -> Receipt, n: nat): World {
    if n == 0 then w
    else Next(batches, b, Received(batches, b, w, receipts, n - 1), GetReceive(receipts(n - 1)))
  }

  lemma {:induction false} FirstFailureFacts(n: nat, receipts: nat -> Receipt, start: nat)
    requires start <= n
    ensures var k := FirstFailure(n, receipts, start);
            (k < n ==> !receipts(k).Arrived?) && forall i :: start <= i < k ==> receipts(i).Arrived?
    decreases n - start
  {
    if start < n && receipts(start).Arrived? { FirstFailureFacts(n, receipts, start + 1); }
  }

  lemma OneReceipt(batches: Batches, b: Block, w: World, receipt: Receipt)
    ensures w.getting.Idle? ==> Next(batches, b, w, GetReceive(receipt)) == w
    ensures w.getting.Awaits? && w.getting.done < |w.getting.receivers| ==>
              var (done, rs, collected) := (w.getting.done, w.getting.receivers, w.getting.collected);
              Next(batches, b, w, GetReceive(receipt)) ==
              if receipt.Arrived? then w.(getting := Awaits(done + 1, rs, collected + batches(rs[done])))
              else w.(getting := Idle, status := Some(Requested(Live(b.proofs, b.timestamp))),
                      results := w.results + [Err(if receipt.Dropped? then DataNotFound(rs[done]) else BatchError)])
  {
    hide Live;
  }

  lemma {:induction false} ReceivedState(
      batches: Batches, b: Block, w: World, rs: seq<Digest>, receipts: nat -> Receipt, n: nat)
    requires w.getting == Awaits(0, rs, []) && n <= |rs|
    ensures var k, w' := FirstFailure(|rs|, receipts, 0), Received(batches, b, w, receipts, n);
            if n <= k then w' == w.(getting := Awaits(n, rs, Concat(batches, rs[..n])))
            else w' == w.(getting := Idle, status := Some(Requested(Live(b.proofs, b.timestamp))),
                          results := w.results
                                     + [Err(if receipts(k).Dropped? then DataNotFound(rs[k]) else BatchError)])
  {
    FirstFailureFacts(|rs|, receipts, 0);
    hide FirstFailure, Live, Next;
    if n > 0 {
      ReceivedState(batches, b, w, rs, receipts, n - 1);
      ConcatStep(batches, rs, n - 1);
      hide Concat;
      OneReceipt(batches, b, Received(batches, b, w, receipts, n - 1), receipts(n - 1));
    }
  }

  /** Undisturbed, the split steps of a call add up to the call. */
  lemma StepsMakeTheCall(batches: Batches, b: Block, w: World, receipts: nat -> Receipt)
    requires w.getting.Idle? && w.status.Some?
    ensures var n := if w.status.value.Requested? then |w.status.value.receivers| else 0;
            var w' := Next(batches, b, Received(batches, b, Next(batches, b, w, GetTake), receipts, n), GetPutBack);
            var (status, r) := Outcome(batches, b, w.status.value, receipts);
            w' == w.(status := Some(status), results := w.results + [r])
  {
    if w.status.value.Requested? {
      var rs := w.status.value.receivers;
      ReceivedState(batches, b, Next(batches, b, w, GetTake), rs, receipts, |rs|);
      assert rs[..|rs|] == rs;
    }
  }
}
