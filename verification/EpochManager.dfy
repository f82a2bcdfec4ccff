/** The epoch manager of one node: it starts and stops the per-epoch components and hands messages to
    them. Senders and components are named by the epoch that created them. */
module EpochManager {
  import opened Options

  type Epoch = nat

  /** The trusted validator set of an epoch, and whether this node is in it. */
  datatype EpochState = EpochState(epoch: Epoch, member: bool)

  /** What storage offers at the start of an epoch, with the on-chain settings that matter here. */
  datatype StorageData =
    | FullRecoveryData(quorumStore: bool, decoupledExecution: bool)
    | PartialRecoveryData

  datatype Payload = Payload(state: EpochState, storage: StorageData)

  datatype Node = Node(
    epochState: Option<EpochState>,
    recoveryMode: bool,
    quorumStoreEnabled: bool,
    roundManagerTx: Option<Epoch>,
    roundManagerCloseTx: Option<Epoch>,
    bufferManagerMsgTx: Option<Epoch>,
    bufferManagerResetTx: Option<Epoch>,
    blockRetrievalTx: Option<Epoch>,
    batchRetrievalTx: Option<Epoch>,
    quorumStoreMsgTx: Option<Epoch>,
    quorumStoreCoordinatorTx: Option<Epoch>)

  const NotStarted := Node(None, false, false, None, None, None, None, None, None, None, None)

  /** Components that run until they acknowledge a request to stop. A processor is a round manager or,
      in recovery mode, a recovery manager; a quorum store stops its network listener, which reads its channel,
      before it acknowledges. */
  datatype Component =
    | Processor(epoch: Epoch)
    | BufferManager(epoch: Epoch)
    | NetworkListener(epoch: Epoch)
    | QuorumStore(epoch: Epoch)

  /** The components that a shutdown asks to stop, and waits for. */
  function Stopped(n: Node): set<Component> {
    (if n.roundManagerCloseTx.Some? then {Processor(n.roundManagerCloseTx.value)} else {})
    + (if n.bufferManagerResetTx.Some? then {BufferManager(n.bufferManagerResetTx.value)} else {})
    + (if n.quorumStoreCoordinatorTx.Some?
       then {NetworkListener(n.quorumStoreCoordinatorTx.value), QuorumStore(n.quorumStoreCoordinatorTx.value)} else {})
  }

  /** Shutdown leaves the quorum-store sender and both mode flags alone. */
  function Shutdown(n: Node): Node {
    NotStarted.(epochState := n.epochState, recoveryMode := n.recoveryMode,
                quorumStoreEnabled := n.quorumStoreEnabled, quorumStoreMsgTx := n.quorumStoreMsgTx)
  }

  function Start(n: Node, p: Payload): Node {
    var e := p.state.epoch;
    var n1 := n.(epochState := Some(p.state), roundManagerTx := Some(e), roundManagerCloseTx := Some(e));
    match p.storage
    case PartialRecoveryData => n1.(recoveryMode := true)
    case FullRecoveryData(quorumStore, decoupled) =>
      var n2 := n1.(recoveryMode := false, quorumStoreEnabled := quorumStore, blockRetrievalTx := Some(e),
                    quorumStoreMsgTx := if quorumStore then Some(e) else None);
      var n3 := if decoupled then n2.(bufferManagerMsgTx := Some(e), bufferManagerResetTx := Some(e)) else n2;
      if quorumStore then n3.(quorumStoreCoordinatorTx := Some(e), batchRetrievalTx := Some(e)) else n3
  }

  function Started(p: Payload): set<Component> {
    var e := p.state.epoch;
    {Processor(e)}
    + (if p.storage.FullRecoveryData? && p.storage.decoupledExecution then {BufferManager(e)} else {})
    + (if p.storage.FullRecoveryData? && p.storage.quorumStore then {NetworkListener(e), QuorumStore(e)} else {})
  }

  // ----- Messages -----

  /** Batches and their certificates go to the quorum store, everything else to the round manager. */
  datatype Target = ToRoundManager | ToQuorumStore

  datatype Msg =
    | Event(target: Target, epoch: Option<Epoch>)
    | EpochChangeProof(epoch: Option<Epoch>, verifies: bool)
    | EpochRetrievalRequest(start: Epoch, end: Epoch)
    | UnexpectedMsg

  datatype Rpc = BlockRetrieval | BatchRetrieval | DagRequest(epoch: Epoch) | CommitRequest

  /** A signature check in flight, with the senders it took along when it was spawned. */
  datatype Verification = Verification(
    target: Target,
    epoch: Epoch,
    roundManagerTx: Option<Epoch>,
    quorumStoreMsgTx: Option<Epoch>,
    inRecovery: bool)

  datatype Outcome =
    | Verify(v: Verification)
    | SendRetrieval(start: Epoch, end: Epoch)
    | SendProof(start: Epoch, end: Epoch)
    | NewEpoch
    | Pushed(channel: Epoch)
    | Ignored
    | Failed
    | SameEpochBail

  function DifferentEpoch(n: Node, different: Epoch): Outcome
    requires n.epochState.Some?
  {
    var own := n.epochState.value;
    if different < own.epoch then
      if own.member then Ignored else SendProof(different, own.epoch)
    else if different > own.epoch then SendRetrieval(own.epoch, different)
    else SameEpochBail
  }

  /** Quorum-store events need the quorum store; in recovery mode they are dropped silently. */
  function Admit(n: Node, target: Target): Outcome
    requires n.epochState.Some?
  {
    if target.ToRoundManager? || n.quorumStoreEnabled then
      Verify(Verification(target, n.epochState.value.epoch, n.roundManagerTx, n.quorumStoreMsgTx, n.recoveryMode))
    else if n.recoveryMode then Ignored
    else Failed
  }

  function Dispatch(n: Node, m: Msg): Outcome
    requires n.epochState.Some?
  {
    var own := n.epochState.value.epoch;
    match m
    case Event(target, epoch) =>
      if epoch.None? then Failed
      else if epoch.value == own then Admit(n, target)
      else DifferentEpoch(n, epoch.value)
    case EpochChangeProof(epoch, verifies) =>
      if epoch == Some(own) && verifies then NewEpoch else Failed
    case EpochRetrievalRequest(start, end) =>
      if end <= own then SendProof(start, end) else Failed
    case UnexpectedMsg => Failed
  }

  function Push(c: Option<Epoch>): Outcome {
    if c.Some? then Pushed(c.value) else Failed
  }

  function DispatchRpc(n: Node, r: Rpc): Outcome
    requires n.epochState.Some?
  {
    match r
    case BlockRetrieval => Push(n.blockRetrievalTx)
    case BatchRetrieval => Push(n.batchRetrievalTx)
    case DagRequest(epoch) =>
      if epoch == n.epochState.value.epoch then Ignored else DifferentEpoch(n, epoch)
    case CommitRequest => Push(n.bufferManagerMsgTx)
  }

  /** The bail for a message of the node's own epoch cannot be reached from either caller. */
  lemma SameEpochUnreachable(n: Node, m: Msg, r: Rpc)
    requires n.epochState.Some?
    ensures Dispatch(n, m) != SameEpochBail && DispatchRpc(n, r) != SameEpochBail
  {
  }

  /** What comes of a message is decided by its epoch. Only events of the own epoch are checked, under the own
      validators and for the current channels; what is asked of others starts at the own epoch; what is offered to
      others ends at it or before; and only a proof that starts at it ends it. */
  lemma OutcomesByEpoch(n: Node, m: Msg)
    requires n.epochState.Some?
    ensures var r, own := Dispatch(n, m), n.epochState.value.epoch;
            && (r.Verify? ==>
                  && m.Event? && m.epoch == Some(own) && r.v.epoch == own && r.v.target == m.target
                  && r.v.roundManagerTx == n.roundManagerTx && r.v.quorumStoreMsgTx == n.quorumStoreMsgTx)
            && (r.SendRetrieval? <==> m.Event? && m.epoch.Some? && m.epoch.value > own)
            && (r.SendRetrieval? ==> r.start == own && r.end == m.epoch.value)
            && (r.SendProof? ==> r.end <= own && (m.Event? ==> r.start < r.end == own && !n.epochState.value.member))
            && (r.NewEpoch? <==> m.EpochChangeProof? && m.verifies && m.epoch == Some(own))
            && (r.Verify? <==> m.Event? && m.epoch == Some(own) && (m.target.ToRoundManager? || n.quorumStoreEnabled))
            && (r.Ignored? <==>
                  && m.Event? && m.epoch.Some?
                  && if m.epoch.value == own
                     then m.target.ToQuorumStore? && !n.quorumStoreEnabled && n.recoveryMode
                     else m.epoch.value < own && n.epochState.value.member)
            && (r.Failed? <==>
                  || m.UnexpectedMsg?
                  || (m.Event? && m.epoch.None?)
                  || (m.Event? && m.epoch == Some(own) && m.target.ToQuorumStore?
                      && !n.quorumStoreEnabled && !n.recoveryMode)
                  || (m.EpochChangeProof? && !(m.verifies && m.epoch == Some(own)))
                  || (m.EpochRetrievalRequest? && m.end > own))
  {
  }

  /** Two nodes in different epochs: a message from the one ahead makes the one behind ask for exactly the epochs
      between them, and the one ahead, then or in any later epoch, offers exactly those. A message from the one
      behind makes the one ahead offer them unasked, unless it is a validator. */
  lemma DifferentEpochsMeet(behind: Node, ahead: Node, later: Node, target: Target)
    requires behind.epochState.Some? && ahead.epochState.Some? && later.epochState.Some?
    requires behind.epochState.value.epoch < ahead.epochState.value.epoch <= later.epochState.value.epoch
    ensures var (a, b) := (behind.epochState.value.epoch, ahead.epochState.value.epoch);
            var asked := Dispatch(behind, Event(target, Some(b)));
            && asked.SendRetrieval?
            && Dispatch(later, EpochRetrievalRequest(asked.start, asked.end)) == SendProof(a, b)
            && Dispatch(ahead, Event(target, Some(a)))
               == if ahead.epochState.value.member then Ignored else SendProof(a, b)
  {
  }

  // ----- The manager as an object -----

  class Manager {
    var epochState: Option<EpochState>
    var recoveryMode: bool
    var quorumStoreEnabled: bool
    var roundManagerTx: Option<Epoch>
    var roundManagerCloseTx: Option<Epoch>
    var bufferManagerMsgTx: Option<Epoch>
    var bufferManagerResetTx: Option<Epoch>
    var blockRetrievalTx: Option<Epoch>
    var batchRetrievalTx: Option<Epoch>
    var quorumStoreMsgTx: Option<Epoch>
    var quorumStoreCoordinatorTx: Option<Epoch>

    ghost function View(): Node
      reads this
    {
      Node(epochState, recoveryMode, quorumStoreEnabled, roundManagerTx, roundManagerCloseTx, bufferManagerMsgTx,
           bufferManagerResetTx, blockRetrievalTx, batchRetrievalTx, quorumStoreMsgTx, quorumStoreCoordinatorTx)
    }

    constructor ()
      ensures View() == NotStarted
    {
      epochState, recoveryMode, quorumStoreEnabled := None, false, false;
      roundManagerTx, roundManagerCloseTx, bufferManagerMsgTx, bufferManagerResetTx := None, None, None, None;
      blockRetrievalTx, batchRetrievalTx, quorumStoreMsgTx, quorumStoreCoordinatorTx := None, None, None, None;
    }

    /** Returns the components that were asked to stop and have acknowledged. */
    method ShutdownCurrentProcessor() returns (acked: set<Component>)
      modifies this
      ensures View() == Shutdown(old(View())) && acked == Stopped(old(View()))
    {
      acked := {};
      if roundManagerCloseTx.Some? {
        acked := acked + {Processor(roundManagerCloseTx.value)};
        roundManagerCloseTx := None;
      }
      roundManagerTx := None;
      bufferManagerMsgTx := None;
      if bufferManagerResetTx.Some? {
        acked := acked + {BufferManager(bufferManagerResetTx.value)};
        bufferManagerResetTx := None;
      }
      blockRetrievalTx := None;
      batchRetrievalTx := None;
      if quorumStoreCoordinatorTx.Some? {
        acked := acked + {NetworkListener(quorumStoreCoordinatorTx.value), QuorumStore(quorumStoreCoordinatorTx.value)};
        quorumStoreCoordinatorTx := None;
      }
    }

    /** Returns the components that were spawned. */
    method StartNewEpoch(p: Payload) returns (spawned: set<Component>)
      modifies this
      ensures View() == Start(old(View()), p) && spawned == Started(p)
    {
      epochState := Some(p.state);
      if p.storage.FullRecoveryData? {
        quorumStoreEnabled := p.storage.quorumStore;
        recoveryMode := false;
        spawned := StartRoundManager(p.state.epoch, p.storage.decoupledExecution);
      } else {
        recoveryMode := true;
        roundManagerTx := Some(p.state.epoch);
        roundManagerCloseTx := Some(p.state.epoch);
        spawned := {Processor(p.state.epoch)};
      }
    }

    method StartRoundManager(epoch: Epoch, decoupled: bool) returns (spawned: set<Component>)
      modifies this
      ensures var n := old(View());
              View() == Start(n, Payload(EpochState(epoch, false), FullRecoveryData(n.quorumStoreEnabled, decoupled)))
                        .(epochState := n.epochState, recoveryMode := n.recoveryMode)
      ensures var storage := FullRecoveryData(old(quorumStoreEnabled), decoupled);
              spawned == Started(Payload(EpochState(epoch, false), storage))
    {
      spawned := {};
      quorumStoreMsgTx := if quorumStoreEnabled then Some(epoch) else None;
      if decoupled {
        bufferManagerMsgTx := Some(epoch);
        bufferManagerResetTx := Some(epoch);
        spawned := spawned + {BufferManager(epoch)};
      }
      if quorumStoreEnabled {
        quorumStoreCoordinatorTx := Some(epoch);
        batchRetrievalTx := Some(epoch);
        spawned := spawned + {NetworkListener(epoch), QuorumStore(epoch)};
      }
      roundManagerTx := Some(epoch);
      roundManagerCloseTx := Some(epoch);
      spawned := spawned + {Processor(epoch)};
      blockRetrievalTx := Some(epoch);
    }

    /** The checks on a message from the network, up to what is to be done with it. */
    method ProcessMessage(m: Msg) returns (r: Outcome)
      requires epochState.Some?
      ensures r == Dispatch(View(), m)
      ensures r != SameEpochBail
      ensures r.Verify? ==> r.v.epoch == epochState.value.epoch
      ensures r.SendRetrieval? ==> r.start == epochState.value.epoch < r.end
    {
      match m {
        case Event(target, epoch) =>
          if epoch.None? {
            return Failed;
          }
          if epoch.value != epochState.value.epoch {
            r := ProcessDifferentEpoch(epoch.value);
            return;
          }
          if target.ToQuorumStore? && !quorumStoreEnabled {
            return if recoveryMode then Ignored else Failed;
          }
          return Verify(Verification(target, epochState.value.epoch, roundManagerTx, quorumStoreMsgTx, recoveryMode));
        case EpochChangeProof(epoch, verifies) =>
          if epoch.None? || epoch.value != epochState.value.epoch || !verifies {
            return Failed;
          }
          return NewEpoch;
        case EpochRetrievalRequest(start, end) =>
          if end > epochState.value.epoch {
            return Failed;
          }
          return SendProof(start, end);
        case UnexpectedMsg =>
          return Failed;
      }
    }

    method ProcessDifferentEpoch(different: Epoch) returns (r: Outcome)
      requires epochState.Some?
      ensures r == DifferentEpoch(View(), different)
      ensures r == SameEpochBail <==> different == epochState.value.epoch
      ensures r.SendRetrieval? || r.SendProof? ==>
                r.start < r.end && {r.start, r.end} == {different, epochState.value.epoch}
    {
      var own := epochState.value;
      if different < own.epoch {
        return if own.member then Ignored else SendProof(different, own.epoch);
      } else if different > own.epoch {
        return SendRetrieval(own.epoch, different);
      }
      return SameEpochBail;
    }

    /** The sender is unwrapped: the source panics without one, so the caller must know it is there. */
    method ProcessLocalTimeout() returns (channel: Epoch)
      requires roundManagerTx.Some?
      ensures Some(channel) == View().roundManagerTx
    {
      channel := roundManagerTx.value;
    }
  }
}
