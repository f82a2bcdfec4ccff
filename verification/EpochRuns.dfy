/** Whole runs of one epoch manager: network messages, timeouts, reconfigurations, components that stop one after
    the other, and signature checks that finish whenever they like, also in the middle of an epoch change. */
module EpochRuns {
  import opened Options
  import opened EpochManager

  /** `Waiting`: before the first start, and between a shutdown and the reconfiguration after it.
      `Idle`: at the head of the main loop. `Stopping`: inside a shutdown, with the components that have yet
      to acknowledge; nobody but the shutdown looks at the manager's fields until it is done. */
  datatype Phase = Waiting | Idle | Stopping(pending: seq<Component>)

  /** An event put into a channel, with the epoch whose validators it was verified under. */
  datatype Push = Push(target: Target, channel: Epoch, verifiedUnder: Epoch, inRecovery: bool)

  /** An event that the component behind a channel was there to read. */
  datatype Delivery = Delivery(component: Component, verifiedUnder: Epoch)

  /** `started` is what the latest epoch was entered with. */
  datatype World = World(
    node: Node,
    started: Option<Payload>,
    phase: Phase,
    live: set<Component>,
    inFlight: seq<Verification>,
    pushed: seq<Push>,
    delivered: seq<Delivery>,
    panicked: bool)

  const Initial := World(NotStarted, None, Waiting, {}, [], [], [], false)

  datatype Input =
    | Reconfig(payload: Payload)
    | Message(msg: Msg)
    | Acknowledge
    | LocalTimeout
    | Verified(i: nat, ok: bool)

  /** Reconfiguration notifications announce ever newer epochs. */
  predicate Newer(n: Node, p: Payload) {
    n.epochState.Some? ==> p.state.epoch > n.epochState.value.epoch
  }

  /** The order in which a shutdown stops the components. */
  function StopOrder(n: Node): seq<Component> {
    (if n.roundManagerCloseTx.Some? then [Processor(n.roundManagerCloseTx.value)] else [])
    + (if n.bufferManagerResetTx.Some? then [BufferManager(n.bufferManagerResetTx.value)] else [])
    + (if n.quorumStoreCoordinatorTx.Some?
       then [NetworkListener(n.quorumStoreCoordinatorTx.value), QuorumStore(n.quorumStoreCoordinatorTx.value)] else [])
  }

  /** The component that reads a channel. */
  function Reader(target: Target, channel: Epoch): Component {
    if target.ToQuorumStore? then NetworkListener(channel) else Processor(channel)
  }

  /** A push into the channel of a component that has stopped is lost. */
  function Put(w: World, p: Push): World {
    var reader := Reader(p.target, p.channel);
    w.(pushed := w.pushed + [p],
       delivered := w.delivered + if reader in w.live then [Delivery(reader, p.verifiedUnder)] else [])
  }

  /** Forwards an event with the senders its check took along. */
  function Forward(w: World, v: Verification): World {
    var tx := if v.target.ToQuorumStore? then v.quorumStoreMsgTx else v.roundManagerTx;
    if tx.Some? then Put(w, Push(v.target, tx.value, v.epoch, v.inRecovery)) else w
  }

  function OnMessage(w: World, m: Msg): World {
    if w.node.epochState.None? then w else
    match Dispatch(w.node, m)
    case Verify(v) => w.(inFlight := w.inFlight + [v])
    case NewEpoch => w.(phase := Stopping(StopOrder(w.node)))
    case _ => w
  }

  /** A component that is gone cannot acknowledge: the node panics. */
  function OnAcknowledge(w: World, pending: seq<Component>): World {
    if pending == [] then w.(node := Shutdown(w.node), phase := Waiting)
    else if pending[0] !in w.live then w.(panicked := true)
    else w.(phase := Stopping(pending[1..]), live := w.live - {pending[0]})
  }

  function OnTimeout(w: World): World {
    if w.node.epochState.None? || w.node.roundManagerTx.None? then w.(panicked := true)
    else Put(w, Push(ToRoundManager, w.node.roundManagerTx.value, w.node.epochState.value.epoch, w.node.recoveryMode))
  }

  /** Events that cannot happen in the current phase change nothing. */
  function Next(w: World, ev: Input): World {
    match ev
    case Verified(i, ok) =>
      if i >= |w.inFlight| then w else
      var w1 := w.(inFlight := w.inFlight[..i] + w.inFlight[i + 1..]);
      if ok then Forward(w1, w.inFlight[i]) else w1
    case Reconfig(p) =>
      if !w.phase.Waiting? || !Newer(w.node, p) then w
      else w.(node := Start(w.node, p), started := Some(p), phase := Idle, live := w.live + Started(p))
    case Message(m) => if w.phase.Idle? then OnMessage(w, m) else w
    case Acknowledge => if w.phase.Stopping? then OnAcknowledge(w, w.phase.pending) else w
    case LocalTimeout => if w.phase.Idle? then OnTimeout(w) else w
  }

  function Run(evs: seq<Input>): World {
    if evs == [] then Initial else Next(Run(evs[..|evs| - 1]), evs[|evs| - 1])
  }

  // ----- What holds in every run -----

  predicate OwnOrNone(c: Option<Epoch>, e: Epoch) {
    c.Some? ==> c.value == e
  }

  function Only(yes: bool, e: Epoch): Option<Epoch> {
    if yes then Some(e) else None
  }

  predicate WithQuorumStore(p: Payload) {
    p.storage.FullRecoveryData? && p.storage.quorumStore
  }

  predicate Decoupled(p: Payload) {
    p.storage.FullRecoveryData? && p.storage.decoupledExecution
  }

  /** At the loop head every sender is that of the current epoch or missing, as the epoch was entered. The
      quorum-store one is the exception: in recovery it may be left over from an older epoch. */
  predicate AtLoopHead(n: Node, p: Payload) {
    var e := p.state.epoch;
    && n.epochState == Some(p.state)
    && n.recoveryMode == p.storage.PartialRecoveryData?
    && n.roundManagerTx == n.roundManagerCloseTx == Some(e)
    && n.bufferManagerMsgTx == n.bufferManagerResetTx == Only(Decoupled(p), e)
    && n.blockRetrievalTx == Only(p.storage.FullRecoveryData?, e)
    && n.batchRetrievalTx == n.quorumStoreCoordinatorTx == Only(WithQuorumStore(p), e)
    && if n.recoveryMode
       then n.quorumStoreMsgTx.Some? ==> n.quorumStoreMsgTx.value < e
       else n.quorumStoreEnabled == WithQuorumStore(p) && n.quorumStoreMsgTx == Only(WithQuorumStore(p), e)
  }

  predicate BetweenEpochs(n: Node) {
    && n.roundManagerTx.None? && n.roundManagerCloseTx.None?
    && n.bufferManagerMsgTx.None? && n.bufferManagerResetTx.None?
    && n.blockRetrievalTx.None? && n.batchRetrievalTx.None? && n.quorumStoreCoordinatorTx.None?
    && (n.quorumStoreMsgTx.Some? ==>
          n.epochState.Some? && n.quorumStoreMsgTx.value <= n.epochState.value.epoch)
  }

  /** What a check in flight took along, and that it is of the current epoch or an earlier one. */
  predicate GoodVerification(n: Node, v: Verification) {
    && n.epochState.Some? && v.epoch <= n.epochState.value.epoch
    && (v.epoch == n.epochState.value.epoch ==>
          v.inRecovery == n.recoveryMode && v.quorumStoreMsgTx == n.quorumStoreMsgTx)
    && v.roundManagerTx == Some(v.epoch)
    && if v.inRecovery then v.quorumStoreMsgTx.Some? ==> v.quorumStoreMsgTx.value < v.epoch
       else OwnOrNone(v.quorumStoreMsgTx, v.epoch) && (v.target.ToQuorumStore? ==> v.quorumStoreMsgTx.Some?)
  }

  /** A quorum-store event is put into another epoch's channel exactly if it came in during recovery. */
  predicate GoodPush(p: Push) {
    if p.target.ToQuorumStore? && p.inRecovery then p.channel < p.verifiedUnder else p.channel == p.verifiedUnder
  }

  predicate Distinct(cs: seq<Component>) {
    forall i, j :: 0 <= i < j < |cs| ==> cs[i] != cs[j]
  }

  /** Which components are live, and what the manager's fields look like, in each phase. */
  predicate GoodPhase(w: World) {
    match w.phase
    case Waiting => BetweenEpochs(w.node) && w.live == {}
    case Idle => w.started.Some? && AtLoopHead(w.node, w.started.value) && w.live == Stopped(w.node)
    case Stopping(pending) =>
      && w.started.Some? && AtLoopHead(w.node, w.started.value) && w.live <= Stopped(w.node)
      && Distinct(pending) && w.live == set c | c in pending
  }

  predicate Inv(w: World) {
    && !w.panicked
    && GoodPhase(w)
    && (forall i :: 0 <= i < |w.inFlight| ==> GoodVerification(w.node, w.inFlight[i]))
    && (forall i :: 0 <= i < |w.pushed| ==> GoodPush(w.pushed[i]))
    && (forall i :: 0 <= i < |w.delivered| ==> w.delivered[i].component.epoch == w.delivered[i].verifiedUnder)
  }

  lemma StartFromBetween(n: Node, p: Payload)
    requires BetweenEpochs(n) && Newer(n, p)
    ensures AtLoopHead(Start(n, p), p) && Stopped(Start(n, p)) == Started(p)
  {
  }

  lemma StopOrderIsStopped(n: Node)
    ensures Distinct(StopOrder(n)) && (set c | c in StopOrder(n)) == Stopped(n)
  {
  }

  /** Live components are all of the current epoch, with a quorum store only outside recovery. */
  lemma LiveAreCurrent(w: World, c: Component)
    requires GoodPhase(w) && c in w.live
    ensures w.node.epochState.Some? && c.epoch == w.node.epochState.value.epoch
    ensures c.NetworkListener? || c.QuorumStore? ==> !w.node.recoveryMode
  {
  }

  /** A check that finishes reaches the component of its own epoch, if that is still there, and nothing else. */
  lemma ForwardOutcome(w: World, v: Verification)
    requires GoodPhase(w) && GoodVerification(w.node, v)
    ensures var reader, w' := Reader(v.target, v.epoch), Forward(w, v);
            && w' == w.(pushed := w'.pushed,
                        delivered := w.delivered + if reader in w.live then [Delivery(reader, v.epoch)] else [])
            && w.pushed <= w'.pushed && |w'.pushed| <= |w.pushed| + 1
            && (|w'.pushed| > |w.pushed| ==> GoodPush(w'.pushed[|w.pushed|]))
  {
    hide GoodPhase, AtLoopHead, BetweenEpochs;
    var own := w.node.epochState.value.epoch;
    if v.target.ToQuorumStore? {
      if NetworkListener(v.epoch) in w.live { LiveAreCurrent(w, NetworkListener(v.epoch)); }
      if v.quorumStoreMsgTx.Some? && NetworkListener(v.quorumStoreMsgTx.value) in w.live {
        LiveAreCurrent(w, NetworkListener(v.quorumStoreMsgTx.value));
      }
    }
  }

  lemma MessageKeepsInv(w: World, m: Msg)
    requires Inv(w) && w.phase.Idle?
    ensures Inv(OnMessage(w, m))
  {
    StopOrderIsStopped(w.node);
    hide Stopped, StopOrder, Distinct;
  }

  lemma AcknowledgeKeepsInv(w: World)
    requires Inv(w) && w.phase.Stopping?
    ensures Inv(OnAcknowledge(w, w.phase.pending))
  {
    var pending := w.phase.pending;
    if pending != [] {
      assert pending[0] in pending;
      assert pending == [pending[0]] + pending[1..];
      assert pending[0] !in pending[1..];
    }
  }

  lemma NextKeepsInv(w: World, ev: Input)
    requires Inv(w)
    ensures Inv(Next(w, ev))
  {
    hide Stopped, StopOrder, Start, Started, Forward;
    match ev {
      case Reconfig(p) =>
        if w.phase.Waiting? && Newer(w.node, p) {
          StartFromBetween(w.node, p);
          StartedEpoch(w.node, p);
        }
      case Message(m) => if w.phase.Idle? { MessageKeepsInv(w, m); }
      case Acknowledge => if w.phase.Stopping? { AcknowledgeKeepsInv(w); }
      case Verified(i, ok) =>
        if i < |w.inFlight| { ForwardOutcome(w.(inFlight := w.inFlight[..i] + w.inFlight[i + 1..]), w.inFlight[i]); }
      case LocalTimeout =>
    }
  }

  lemma StartedEpoch(n: Node, p: Payload)
    ensures Start(n, p).epochState == Some(p.state)
  {
  }

  lemma {:induction false} RunKeepsInv(evs: seq<Input>)
    ensures Inv(Run(evs))
  {
    hide Inv, Next;
    if evs != [] {
      RunKeepsInv(evs[..|evs| - 1]);
      NextKeepsInv(Run(evs[..|evs| - 1]), evs[|evs| - 1]);
    } else {
      InitialInv();
    }
  }

  lemma InitialInv()
    ensures Inv(Initial)
  {
  }

  /** In every run nothing unwraps a missing sender or fails to stop a component; there is never more
      than one round or recovery manager, and at the loop head exactly the one of the current epoch,
      with its sender in place. */
  lemma OneProcessor(evs: seq<Input>)
    ensures var w := Run(evs);
            && !w.panicked
            && (forall c, d :: c in w.live && d in w.live && c.Processor? && d.Processor? ==> c == d)
            && (w.phase.Waiting? ==> w.live == {})
            && (w.phase.Idle? ==>
                  && w.node.epochState.Some? && w.node.roundManagerTx == Some(w.node.epochState.value.epoch)
                  && Processor(w.node.epochState.value.epoch) in w.live
                  && forall c :: c in w.live ==> c.epoch == w.node.epochState.value.epoch)
  {
    RunKeepsInv(evs);
  }

  /** However checks interleave with epoch changes, a component only ever receives events that were verified
      under the validators of its own epoch. */
  lemma EpochIsolation(evs: seq<Input>, i: nat)
    requires i < |Run(evs).delivered|
    ensures Run(evs).delivered[i].component.epoch == Run(evs).delivered[i].verifiedUnder
  {
    RunKeepsInv(evs);
  }

  lemma CurrentReader(w: World, v: Verification)
    requires GoodPhase(w) && w.phase.Idle? && GoodVerification(w.node, v) && w.node.epochState.value.epoch == v.epoch
    ensures Reader(v.target, v.epoch) in w.live <==> v.target.ToRoundManager? || !v.inRecovery
  {
    if v.target.ToQuorumStore? && NetworkListener(v.epoch) in w.live { LiveAreCurrent(w, NetworkListener(v.epoch)); }
  }

  /** And at any point of any run, a check that succeeds delivers its event exactly if the component of its own
      epoch is still running; for a quorum-store event of the current epoch that is outside recovery only. */
  lemma ChecksReachTheirEpoch(evs: seq<Input>, i: nat)
    requires i < |Run(evs).inFlight|
    ensures var w, v := Run(evs), Run(evs).inFlight[i];
            var reader := Reader(v.target, v.epoch);
            && Run(evs + [Verified(i, true)]).delivered
               == w.delivered + (if reader in w.live then [Delivery(reader, v.epoch)] else [])
            && (w.phase.Idle? && w.node.epochState.Some? && w.node.epochState.value.epoch == v.epoch ==>
                  (reader in w.live <==> v.target.ToRoundManager? || !v.inRecovery))
  {
    RunKeepsInv(evs);
    RunExtend(evs, Verified(i, true));
    var w := Run(evs);
    assert GoodPhase(w.(inFlight := w.inFlight[..i] + w.inFlight[i + 1..]));
    hide GoodPhase, GoodVerification, GoodPush, Run, Forward, Reader;
    if w.phase.Idle? && w.node.epochState.Some? && w.node.epochState.value.epoch == w.inFlight[i].epoch {
      CurrentReader(w, w.inFlight[i]);
    }
    ForwardOutcome(w.(inFlight := w.inFlight[..i] + w.inFlight[i + 1..]), w.inFlight[i]);
  }

  /** What is running at the loop head: the round or recovery manager, and what the epoch was entered with. */
  lemma LiveAtLoopHead(evs: seq<Input>)
    requires Run(evs).phase.Idle?
    ensures var w := Run(evs);
            && w.started.Some? && w.node.epochState == Some(w.started.value.state)
            && var (p, e) := (w.started.value, w.started.value.state.epoch);
               forall c :: c in w.live <==>
                 || c == Processor(e)
                 || (c == BufferManager(e) && Decoupled(p))
                 || ((c == NetworkListener(e) || c == QuorumStore(e)) && WithQuorumStore(p))
  {
    RunKeepsInv(evs);
  }

  /** From the network to the component: in any run, at the loop head, a message and then the check it spawned add a
      delivery exactly if the message is an event of the current epoch, the check succeeds, and the component that
      reads such events is running. For the round manager it always is; for the quorum store exactly in an epoch
      entered with one. No other message delivers anything; and exactly a verified proof of the current epoch starts
      a shutdown. */
  lemma MessageDelivers(evs: seq<Input>, m: Msg, ok: bool)
    requires Run(evs).phase.Idle?
    ensures var w := Run(evs);
            var w1 := Run(evs + [Message(m)]);
            var w2 := Run(evs + [Message(m)] + [Verified(|w.inFlight|, ok)]);
            && w.started.Some?
            && var e := w.started.value.state.epoch;
               && w1.delivered == w.delivered
               && (w1.phase.Stopping? <==> m.EpochChangeProof? && m.epoch == Some(e) && m.verifies)
               && w2.delivered == w.delivered
                    + (if ok && m.Event? && m.epoch == Some(e)
                          && (m.target.ToRoundManager? || WithQuorumStore(w.started.value))
                       then [Delivery(if m.target.ToRoundManager? then Processor(e) else NetworkListener(e), e)]
                       else [])
  {
    var w, w1 := Run(evs), Run(evs + [Message(m)]);
    RunKeepsInv(evs);
    RunExtend(evs, Message(m));
    RunExtend(evs + [Message(m)], Verified(|w.inFlight|, ok));
    LiveAtLoopHead(evs);
    hide Run, GoodVerification, GoodPush, Stopped, Shutdown;
    MessageThenCheck(w, m, ok);
  }

  lemma MessageThenCheck(w: World, m: Msg, ok: bool)
    requires w.phase.Idle? && w.started.Some? && AtLoopHead(w.node, w.started.value)
    requires var (p, e) := (w.started.value, w.started.value.state.epoch);
             && Processor(e) in w.live && (NetworkListener(e) in w.live <==> WithQuorumStore(p))
             && forall c :: c in w.live ==> c.epoch == e
    ensures var w1 := OnMessage(w, m);
            var w2 := Next(w1, Verified(|w.inFlight|, ok));
            var e := w.started.value.state.epoch;
            && w1.delivered == w.delivered
            && (w1.phase.Stopping? <==> m.EpochChangeProof? && m.epoch == Some(e) && m.verifies)
            && w2.delivered == w.delivered
                 + (if ok && m.Event? && m.epoch == Some(e)
                       && (m.target.ToRoundManager? || WithQuorumStore(w.started.value))
                    then [Delivery(if m.target.ToRoundManager? then Processor(e) else NetworkListener(e), e)]
                    else [])
  {
    hide StopOrder;
    var w1 := OnMessage(w, m);
    assert w.delivered + [] == w.delivered;
  }

  /** A timeout of the node itself always reaches the current round or recovery manager. */
  lemma TimeoutDelivers(evs: seq<Input>)
    requires Run(evs).phase.Idle?
    ensures var w := Run(evs);
            && w.started.Some?
            && var e := w.started.value.state.epoch;
               Run(evs + [LocalTimeout]).delivered == w.delivered + [Delivery(Processor(e), e)]
  {
    RunKeepsInv(evs);
    RunExtend(evs, LocalTimeout);
    LiveAtLoopHead(evs);
  }

  /** In any run, at the loop head, a block request reaches the current epoch's channel exactly outside recovery, a
      batch request exactly with a quorum store, a commit message exactly with decoupled execution; otherwise they
      fail. */
  lemma RpcsReachTheirEpoch(evs: seq<Input>)
    requires Run(evs).phase.Idle?
    ensures var w := Run(evs);
            && w.started.Some? && w.node.epochState.Some?
            && var (n, p, e) := (w.node, w.started.value, w.started.value.state.epoch);
               && DispatchRpc(n, BlockRetrieval) == (if p.storage.FullRecoveryData? then Pushed(e) else Failed)
               && DispatchRpc(n, BatchRetrieval) == (if WithQuorumStore(p) then Pushed(e) else Failed)
               && DispatchRpc(n, CommitRequest) == (if Decoupled(p) then Pushed(e) else Failed)
  {
    RunKeepsInv(evs);
  }

  /** The channel an event is put into is that of its own epoch, except exactly for quorum-store events that came in
      during recovery: shutdown and recovery start leave the sender of an older epoch in place. */
  lemma PushesGoAstrayInRecovery(evs: seq<Input>, i: nat)
    requires i < |Run(evs).pushed|
    ensures var p := Run(evs).pushed[i];
            p.channel != p.verifiedUnder <==> p.target.ToQuorumStore? && p.inRecovery
  {
    RunKeepsInv(evs);
  }

  // ----- Runs in which no push goes astray -----

  /** Every epoch that is entered, but perhaps the first, starts from full recovery data. */
  ghost predicate LaterStartsFull(evs: seq<Input>) {
    forall i :: 0 <= i < |evs| && evs[i].Reconfig? && evs[i].payload.storage.PartialRecoveryData? ==>
      Run(evs[..i]).node.epochState.None?
  }

  /** Nothing that came in during recovery has a quorum-store sender. */
  predicate NoneAstray(w: World) {
    && (w.node.recoveryMode ==> w.node.quorumStoreMsgTx.None?)
    && (forall i :: 0 <= i < |w.inFlight| && w.inFlight[i].inRecovery ==> w.inFlight[i].quorumStoreMsgTx.None?)
    && (forall i :: 0 <= i < |w.pushed| && w.pushed[i].target.ToQuorumStore? ==> !w.pushed[i].inRecovery)
  }

  lemma NextNoneAstray(w: World, ev: Input)
    requires Inv(w) && NoneAstray(w)
    requires ev.Reconfig? && ev.payload.storage.PartialRecoveryData? ==> w.node.epochState.None?
    ensures NoneAstray(Next(w, ev))
  {
    hide Stopped, StopOrder, GoodVerification, GoodPush;
  }

  lemma {:induction false} RunNoneAstray(evs: seq<Input>)
    requires LaterStartsFull(evs)
    ensures NoneAstray(Run(evs))
  {
    hide Inv, Next;
    if evs != [] {
      var front := evs[..|evs| - 1];
      forall i | 0 <= i < |front| && front[i].Reconfig? && front[i].payload.storage.PartialRecoveryData?
        ensures Run(front[..i]).node.epochState.None?
      {
        assert evs[i] == front[i] && evs[..i] == front[..i];
      }
      RunNoneAstray(front);
      RunKeepsInv(front);
      NextNoneAstray(Run(front), evs[|evs| - 1]);
    }
  }

  /** So in runs where no epoch is entered in recovery after the first, no push goes astray. */
  lemma FullStartsKeepPushes(evs: seq<Input>, i: nat)
    requires LaterStartsFull(evs) && i < |Run(evs).pushed|
    ensures Run(evs).pushed[i].channel == Run(evs).pushed[i].verifiedUnder
  {
    RunNoneAstray(evs);
    RunKeepsInv(evs);
  }

  /** A run in which one does: epoch 1 with quorum store, then epoch 2 in recovery. A batch of epoch 2 is put into
      the channel of epoch 1, whose quorum store has stopped, and is lost. */
  lemma RecoveryPushGoesAstray() returns (evs: seq<Input>)
    ensures Run(evs).pushed == [Push(ToQuorumStore, 1, 2, true)] && Run(evs).delivered == []
  {
    var e1 := Reconfig(Payload(EpochState(1, true), FullRecoveryData(true, false)));
    var e2 := Message(EpochChangeProof(Some(1), true));
    var e3 := Reconfig(Payload(EpochState(2, true), PartialRecoveryData));
    var e4 := Message(Msg.Event(ToQuorumStore, Some(2)));
    var s2 := [] + [e1] + [e2];
    RunExtend([], e1);
    RunExtend([] + [e1], e2);
    FirstEpochStarts();
    var s5 := s2 + [Acknowledge] + [Acknowledge] + [Acknowledge] + [Acknowledge];
    RunExtend(s2, Acknowledge);
    RunExtend(s2 + [Acknowledge], Acknowledge);
    RunExtend(s2 + [Acknowledge] + [Acknowledge], Acknowledge);
    RunExtend(s2 + [Acknowledge] + [Acknowledge] + [Acknowledge], Acknowledge);
    FirstEpochStops(Run(s2));
    evs := s5 + [e3] + [e4] + [Verified(0, true)];
    RunExtend(s5, e3);
    RunExtend(s5 + [e3], e4);
    RunExtend(s5 + [e3] + [e4], Verified(0, true));
    SecondEpochPushes(Run(s5));
  }

  const FirstPayload := Payload(EpochState(1, true), FullRecoveryData(true, false))
  const FirstEpoch := Start(NotStarted, FirstPayload)

  lemma FirstEpochStarts()
    ensures var w1 := Next(Initial, Reconfig(Payload(EpochState(1, true), FullRecoveryData(true, false))));
            Next(w1, Message(EpochChangeProof(Some(1), true)))
            == Initial.(node := FirstEpoch, started := Some(FirstPayload),
                        phase := Stopping([Processor(1), NetworkListener(1), QuorumStore(1)]),
                        live := {Processor(1), NetworkListener(1), QuorumStore(1)})
  {
    var w1 := Next(Initial, Reconfig(Payload(EpochState(1, true), FullRecoveryData(true, false))));
    assert w1 == Initial.(node := FirstEpoch, started := Some(FirstPayload), phase := Idle,
                          live := {Processor(1), NetworkListener(1), QuorumStore(1)});
    assert StopOrder(FirstEpoch) == [Processor(1), NetworkListener(1), QuorumStore(1)];
  }

  lemma FirstEpochStops(w: World)
    requires w == Initial.(node := FirstEpoch, started := Some(FirstPayload),
                           phase := Stopping([Processor(1), NetworkListener(1), QuorumStore(1)]),
                           live := {Processor(1), NetworkListener(1), QuorumStore(1)})
    ensures Next(Next(Next(Next(w, Acknowledge), Acknowledge), Acknowledge), Acknowledge)
            == Initial.(node := Shutdown(FirstEpoch), started := Some(FirstPayload))
  {
    var w1 := Next(w, Acknowledge);
    assert w1.phase.pending == [NetworkListener(1), QuorumStore(1)] && w1.live == {NetworkListener(1), QuorumStore(1)};
    var w2 := Next(w1, Acknowledge);
    assert w2.phase.pending == [QuorumStore(1)] && w2.live == {QuorumStore(1)};
    var w3 := Next(w2, Acknowledge);
    assert w3.phase.pending == [] && w3.live == {};
  }

  lemma SecondEpochPushes(w: World)
    requires w == Initial.(node := Shutdown(FirstEpoch), started := Some(FirstPayload))
    ensures var w2 := Next(Next(w, Reconfig(Payload(EpochState(2, true), PartialRecoveryData))),
                           Message(Msg.Event(ToQuorumStore, Some(2))));
            var w3 := Next(w2, Verified(0, true));
            w3.pushed == [Push(ToQuorumStore, 1, 2, true)] && w3.delivered == []
  {
    var w1 := Next(w, Reconfig(Payload(EpochState(2, true), PartialRecoveryData)));
    assert w1.live == {Processor(2)};
    var w2 := Next(w1, Message(Msg.Event(ToQuorumStore, Some(2))));
    assert w2.inFlight == [Verification(ToQuorumStore, 2, Some(2), Some(1), true)];
  }

  lemma RunExtend(evs: seq<Input>, ev: Input)
    ensures Run(evs + [ev]) == Next(Run(evs), ev)
  {
    assert (evs + [ev])[..|evs|] == evs;
  }
}
