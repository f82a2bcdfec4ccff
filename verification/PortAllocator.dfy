/** Unique ports across test processes: a shuffled port vector and a counter file, updated under a lock. */
module PortAllocator {
  import opened Options

  const MaxPortRetries := 1000
  const PortCount := 20000
  const FirstPort := 10000

  /** Counters wrap at the end of the port vector. */
  function Wrap(x: nat): (r: nat)
    ensures r < PortCount
  {
    x % 20000
  }

  lemma WrapStep(x: nat)
    ensures Wrap(x + 1) == if Wrap(x) + 1 == PortCount then 0 else Wrap(x) + 1
    ensures x < PortCount ==> Wrap(x) == x
  {
  }

  lemma WrapAdd(x: nat, y: nat)
    ensures Wrap(Wrap(x) + y) == Wrap(x + y)
  {
    assert x == 20000 * (x / 20000) + Wrap(x);
  }

  lemma WrapSame(x: nat, p: nat, q: nat)
    requires p <= q
    ensures Wrap(x + p) == Wrap(x + q) <==> Wrap(q - p) == 0
  {
    var a, b := x + p, x + q;
    assert a == 20000 * (a / 20000) + Wrap(a);
    assert b == 20000 * (b / 20000) + Wrap(b);
    assert q - p == 20000 * ((q - p) / 20000) + Wrap(q - p);
  }

  /** A shuffle of the unique port range. */
  ghost predicate Shuffled(ports: seq<nat>) {
    && |ports| == PortCount
    && (forall i :: 0 <= i < |ports| ==> FirstPort <= ports[i] < FirstPort + PortCount)
    && (forall i, j :: 0 <= i < j < |ports| ==> ports[i] != ports[j])
  }

  /** The counter a process starts from: an unreadable file or an out-of-range value restarts it. */
  function StartCounter(file: Option<nat>): nat {
    match file
    case Some(counter) => if counter >= PortCount then 0 else counter
    case None => 0
  }

  /** Probes ports from the counter on, wrapping at the end of the vector; `binds(k)` tells whether the probe
      after `k` failed ones succeeds. The result is the port of the first probe that succeeds, with the
      counter one past it; there is none exactly when every permitted probe fails. */
  method BindPortFromCounter(ports: seq<nat>, start: nat, binds: nat -> bool)
    returns (r: Option<(nat, nat)>)
    requires |ports| == PortCount && start < PortCount
    ensures r.None? <==> forall k: nat :: k < MaxPortRetries ==> !binds(k)
    ensures r.Some? ==> exists k: nat ::
              && k < MaxPortRetries && binds(k) && (forall j: nat :: j < k ==> !binds(j))
              && r.value == (ports[Wrap(start + k)], Wrap(start + k + 1))
  {
    hide Wrap;
    var counter: nat := start;
    WrapStep(start);
    for attempt: nat := 0 to MaxPortRetries
      invariant counter == Wrap(start + attempt)
      invariant forall j: nat :: j < attempt ==> !binds(j)
    {
      var port := ports[counter];
      counter := counter + 1;
      assert counter < 0x1_0000;
      WrapStep(start + attempt);
      if counter == PortCount {
        counter := 0;
      }
      if binds(attempt) {
        return Some((port, counter));
      }
    }
    return None;
  }

  /** The calls in the order the lock admits them: the failed probes before a success, or a panic. */
  datatype Call = Bound(failed: nat) | Panicked

  /** The counter file after one call; a call that panics does not write it. */
  function Next(file: Option<nat>, c: Call): Option<nat> {
    match c
    case Bound(failed) => Some(Wrap(StartCounter(file) + failed + 1))
    case Panicked => file
  }

  function Run(file: Option<nat>, calls: seq<Call>): Option<nat> {
    if calls == [] then file else Next(Run(file, calls[..|calls| - 1]), calls[|calls| - 1])
  }

  /** The port handed out by call `i`. */
  function PortOf(ports: seq<nat>, file: Option<nat>, calls: seq<Call>, i: nat): nat
    requires |ports| == PortCount && i < |calls| && calls[i].Bound?
  {
    ports[Wrap(StartCounter(Run(file, calls[..i])) + calls[i].failed)]
  }

  /** Probes made by the calls that succeeded. */
  function Probes(calls: seq<Call>): nat {
    if calls == [] then 0 else
    Probes(calls[..|calls| - 1]) + match calls[|calls| - 1] case Bound(failed) => failed + 1 case Panicked => 0
  }

  /** The counter is the number of probes, modulo the size of the vector. */
  lemma {:induction false} CounterCountsProbes(file: Option<nat>, calls: seq<Call>)
    ensures StartCounter(Run(file, calls)) == Wrap(StartCounter(file) + Probes(calls))
  {
    hide Wrap;
    WrapStep(StartCounter(file));
    if calls != [] {
      var before := calls[..|calls| - 1];
      CounterCountsProbes(file, before);
      match calls[|calls| - 1]
      case Bound(failed) => WrapAdd(StartCounter(file) + Probes(before), failed + 1);
      case Panicked =>
    }
  }

  lemma {:induction false} ProbesGrow(calls: seq<Call>, i: nat, j: nat)
    requires i < j <= |calls|
    ensures Probes(calls[..i]) <= Probes(calls[..j])
    ensures calls[i].Bound? ==> Probes(calls[..i]) + calls[i].failed + 1 <= Probes(calls[..j])
    decreases j
  {
    assert calls[..j][..j - 1] == calls[..j - 1];
    if i < j - 1 {
      ProbesGrow(calls, i, j - 1);
    }
  }

  /** Position of call `i`'s port in the endless repetition of the vector. */
  function Position(calls: seq<Call>, i: nat): nat
    requires i < |calls| && calls[i].Bound?
  {
    Probes(calls[..i]) + calls[i].failed
  }

  /** Two calls hand out the same port exactly when the probes from one to the other go round the whole
      vector a whole number of times. */
  lemma SamePortIffFullCircle(ports: seq<nat>, file: Option<nat>, calls: seq<Call>, i: nat, j: nat)
    requires Shuffled(ports) && i < j < |calls| && calls[i].Bound? && calls[j].Bound?
    ensures Position(calls, i) < Position(calls, j)
    ensures PortOf(ports, file, calls, i) == PortOf(ports, file, calls, j)
            <==> Wrap(Position(calls, j) - Position(calls, i)) == 0
  {
    hide Wrap, Run, StartCounter;
    CounterCountsProbes(file, calls[..i]);
    CounterCountsProbes(file, calls[..j]);
    ProbesGrow(calls, i, j);
    WrapAdd(StartCounter(file) + Probes(calls[..i]), calls[i].failed);
    WrapAdd(StartCounter(file) + Probes(calls[..j]), calls[j].failed);
    WrapSame(StartCounter(file), Position(calls, i), Position(calls, j));
  }

  /** From any counter file, any run of at most 20000 probes hands out pairwise different ports, all in the range. */
  lemma PortsUnique(ports: seq<nat>, file: Option<nat>, calls: seq<Call>, i: nat, j: nat)
    requires Shuffled(ports) && i < j < |calls| && calls[i].Bound? && calls[j].Bound?
    requires Probes(calls) <= PortCount
    ensures PortOf(ports, file, calls, i) != PortOf(ports, file, calls, j)
    ensures 10000 <= PortOf(ports, file, calls, i) < 30000
  {
    hide Wrap, Probes, Run, StartCounter;
    SamePortIffFullCircle(ports, file, calls, i, j);
    WrapStep(Position(calls, j) - Position(calls, i));
    assert calls == calls[..|calls|];
    ProbesGrow(calls, j, |calls|);
  }

  /** The counter file, seen by a process that holds the lock. */
  class CounterFile {
    var contents: Option<nat>

    constructor (contents: Option<nat>)
      ensures this.contents == contents
    {
      this.contents := contents;
    }

    /** The call that was made is one the run model admits, with the port that model gives it. */
    method GetUniquePort(ports: seq<nat>, binds: nat -> bool) returns (r: Option<nat>, ghost call: Call)
      requires |ports| == PortCount
      modifies this
      ensures contents == Next(old(contents), call)
      ensures r.Some? <==> call.Bound?
      ensures call.Panicked? <==> forall k: nat :: k < 1000 ==> !binds(k)
      ensures r.Some? ==>
                && call.failed < MaxPortRetries && binds(call.failed)
                && (forall k: nat :: k < call.failed ==> !binds(k))
                && var file := old(contents);
                   var start := if file.Some? && file.value < PortCount then file.value else 0;
                   && r.value == ports[Wrap(start + call.failed)]
                   && contents == Some(Wrap(start + call.failed + 1))
      ensures r.None? ==> contents == old(contents)
      ensures r.Some? ==> r.value == PortOf(ports, old(contents), [call], 0)
    {
      hide Wrap;
      var counter := match contents
        case Some(value) => (if value >= |ports| then 0 else value)
        case None => 0;
      var bound := BindPortFromCounter(ports, counter, binds);
      if bound.None? {
        return None, Panicked;
      }
      ghost var k: nat :| k < MaxPortRetries && binds(k) && (forall j: nat :: j < k ==> !binds(j))
                          && bound.value == (ports[Wrap(counter + k)], Wrap(counter + k + 1));
      call := Bound(k);
      assert [call][..0] == [];
      contents := Some(bound.value.1);
      r := Some(bound.value.0);
    }
  }
}
