/** Epoch catch-up between any number of honest nodes, over a network that loses, repeats and reorders
    messages and to which Byzantine peers add whatever they like, short of forging signatures. Every
    honest node runs the message checks of the epoch manager. */
module CatchUp {
  import opened Options
  import EM = EpochManager
  import opened EpochProofs

  type Id = nat

  function Min(a: nat, b: nat): nat { if a < b then a else b }

  datatype Body =
    | Consensus(epoch: nat)
    | Retrieval(start: nat, end: nat)
    | Proof(lis: seq<LedgerInfo>)

  datatype Packet = Packet(src: Id, dst: Id, body: Body)

  /** The epoch a node runs, and the newest epoch its storage can prove. */
  datatype Peer = Peer(epoch: nat, latestEpoch: nat)

  /** Honest nodes, every packet ever sent, and the newest epoch that some honest node has opened. */
  datatype System = System(peers: map<Id, Peer>, net: set<Packet>, frontier: nat)

  datatype Step =
    | Gossip(src: Id, dst: Id)
    | EndEpoch(node: Id, audience: set<Id>)
    | Byzantine(forged: Packet)
    | Deliver(packet: Packet)

  /** Which nodes are validators in which epoch. */
  type Membership = (Id, nat) -> bool

  function NodeOf(members: Membership, id: Id, peer: Peer): EM.Node {
    EM.NotStarted.(epochState := Some(EM.EpochState(peer.epoch, members(id, peer.epoch))))
  }

  /** The epoch a proof opens for a node, if it verifies. */
  ghost function Opens(lis: seq<LedgerInfo>, epoch: nat): Option<nat> {
    if exists next :: Proves(lis, epoch, next) then
      var next :| Proves(lis, epoch, next);
      Some(next)
    else None
  }

  ghost function AsMsg(body: Body, epoch: nat): EM.Msg {
    match body
    case Consensus(e) => EM.Event(EM.ToRoundManager, Some(e))
    case Retrieval(start, end) => EM.EpochRetrievalRequest(start, end)
    case Proof(lis) =>
      EM.EpochChangeProof(if lis == [] then None else Some(lis[0].epoch), Opens(lis, epoch).Some?)
  }

  ghost function Handle(members: Membership, s: System, p: Packet): System
    requires p.dst in s.peers
  {
    var peer := s.peers[p.dst];
    match EM.Dispatch(NodeOf(members, p.dst, peer), AsMsg(p.body, peer.epoch))
    case SendRetrieval(start, end) => s.(net := s.net + {Packet(p.dst, p.src, Retrieval(start, end))})
    case SendProof(start, end) =>
      var lis := EndingLedgerInfos(start, end, peer.latestEpoch);
      if lis.Some? then s.(net := s.net + {Packet(p.dst, p.src, Proof(lis.value))}) else s
    case NewEpoch =>
      var next := Opens(p.body.lis, peer.epoch).value;
      s.(peers := s.peers[p.dst := Peer(next, if next > peer.latestEpoch then next else peer.latestEpoch)])
    case _ => s
  }

  /** Signatures are unforgeable: an epoch-ending ledger info that verifies is of an epoch that ended. */
  ghost predicate Genuine(body: Body, frontier: nat) {
    body.Proof? ==> forall i :: 0 <= i < |body.lis| && body.lis[i].signed && body.lis[i].endsEpoch ==>
                      body.lis[i].epoch < frontier
  }

  ghost function Next(members: Membership, s: System, action: Step): System {
    match action
    case Gossip(src, dst) =>
      if src in s.peers then s.(net := s.net + {Packet(src, dst, Consensus(s.peers[src].epoch))}) else s
    case EndEpoch(node, audience) =>
      if node !in s.peers then s else
      var peer := s.peers[node];
      var reached := peer.epoch + 1;
      System(s.peers[node := Peer(peer.epoch, if reached > peer.latestEpoch then reached else peer.latestEpoch)],
             s.net + set d | d in audience :: Packet(node, d, Proof([LedgerInfo(peer.epoch, true, true)])),
             if reached > s.frontier then reached else s.frontier)
    case Byzantine(p) =>
      if p.src !in s.peers && Genuine(p.body, s.frontier) then s.(net := s.net + {p}) else s
    case Deliver(p) =>
      if p in s.net && p.dst in s.peers then Handle(members, s, p) else s
  }

  // ----- Safety -----

  /** What an honest sender's packet says about its sender and, if honest, its receiver. */
  ghost predicate Honest(s: System, p: Packet) {
    p.src in s.peers ==>
      match p.body
      case Consensus(e) => e <= s.peers[p.src].epoch
      case Retrieval(start, end) =>
        start < end && start <= s.peers[p.src].epoch && (p.dst in s.peers ==> end <= s.peers[p.dst].epoch)
      case Proof(lis) => p.dst in s.peers ==> lis != [] && Chain(lis, lis[0].epoch)
  }

  ghost predicate PeerOk(peer: Peer, frontier: nat) {
    peer.epoch <= peer.latestEpoch <= frontier
  }

  ghost predicate Inv(s: System) {
    && (forall id :: id in s.peers ==> PeerOk(s.peers[id], s.frontier))
    && (forall p :: p in s.net ==> Genuine(p.body, s.frontier) && Honest(s, p))
  }

  /** No epoch goes back and none of the nodes disappears. */
  ghost predicate Advances(s: System, s': System) {
    && s.peers.Keys == s'.peers.Keys && s.frontier <= s'.frontier && s.net <= s'.net
    && forall id :: id in s.peers ==> s.peers[id].epoch <= s'.peers[id].epoch
  }

  lemma OldPacketsStayOk(s: System, s': System, p: Packet)
    requires Advances(s, s') && Genuine(p.body, s.frontier) && Honest(s, p)
    ensures Genuine(p.body, s'.frontier) && Honest(s', p)
  {
  }

  lemma OpensGenuine(lis: seq<LedgerInfo>, epoch: nat, frontier: nat)
    requires Opens(lis, epoch).Some? && Genuine(Proof(lis), frontier)
    ensures epoch < Opens(lis, epoch).value <= frontier
  {
    var next := Opens(lis, epoch).value;
    var k := epoch + |lis| - next;
    assert Links(lis[k..][|lis| - 1 - k], epoch + |lis| - 1 - k);
    assert lis[|lis| - 1] == lis[k..][|lis| - 1 - k];
  }

  lemma HandleAdvances(members: Membership, s: System, p: Packet)
    requires Inv(s) && p in s.net && p.dst in s.peers
    ensures var s' := Handle(members, s, p);
            && Advances(s, s')
            && (forall id :: id in s'.peers ==> PeerOk(s'.peers[id], s'.frontier))
            && (forall q :: q in s'.net && q !in s.net ==> Genuine(q.body, s'.frontier) && Honest(s', q))
  {
    var s', peer := Handle(members, s, p), s.peers[p.dst];
    if p.body.Proof? && Opens(p.body.lis, peer.epoch).Some? {
      OpensGenuine(p.body.lis, peer.epoch, s.frontier);
    }
  }

  lemma NextAdvances(members: Membership, s: System, step: Step)
    requires Inv(s)
    ensures Inv(Next(members, s, step)) && Advances(s, Next(members, s, step))
  {
    var s' := Next(members, s, step);
    if step.Deliver? && step.packet in s.net && step.packet.dst in s.peers {
      HandleAdvances(members, s, step.packet);
    }
    forall p | p in s'.net ensures Genuine(p.body, s'.frontier) && Honest(s', p) {
      if p in s.net { OldPacketsStayOk(s, s', p); }
    }
  }

  ghost function Run(members: Membership, s: System, steps: seq<Step>): System {
    if steps == [] then s else Next(members, Run(members, s, steps[..|steps| - 1]), steps[|steps| - 1])
  }

  /** At the start nothing has been sent and no node is past what its storage proves. */
  ghost predicate Fresh(s: System) {
    s.net == {} && forall id :: id in s.peers ==> PeerOk(s.peers[id], s.frontier)
  }

  lemma {:induction false} RunAdvances(members: Membership, s: System, steps: seq<Step>)
    requires Inv(s)
    ensures Inv(Run(members, s, steps)) && Advances(s, Run(members, s, steps))
  {
    hide Inv, Next;
    if steps != [] {
      RunAdvances(members, s, steps[..|steps| - 1]);
      NextAdvances(members, Run(members, s, steps[..|steps| - 1]), steps[|steps| - 1]);
    }
  }

  lemma RunInv(members: Membership, s: System, steps: seq<Step>)
    requires Fresh(s)
    ensures Inv(Run(members, s, steps)) && Advances(s, Run(members, s, steps))
  {
    RunAdvances(members, s, steps);
  }

  /** Whatever Byzantine peers and the network do, no honest node's epoch ever goes back or passes the
      newest epoch an honest node has opened. */
  lemma EpochsSafe(members: Membership, s: System, steps: seq<Step>, id: Id)
    requires Fresh(s) && id in s.peers
    ensures var s' := Run(members, s, steps);
            id in s'.peers && s.peers[id].epoch <= s'.peers[id].epoch <= s'.frontier
  {
    RunInv(members, s, steps);
    assert PeerOk(Run(members, s, steps).peers[id], Run(members, s, steps).frontier);
  }

  /** The proof that answers a request: the endings it asks for, as many as fit. */
  ghost function AnswerTo(p: Packet): Packet
    requires p.body.Retrieval? && p.body.start < p.body.end
  {
    Packet(p.dst, p.src, Proof(EndingLedgerInfos(p.body.start, p.body.end, p.body.end).value))
  }

  /** Every retrieval request of an honest node asks for a non-empty range. Sent to an honest node it asks for
      nothing that node lacks, and delivering it is always answered: with a chain that starts where the request
      does and proves the way to its end, or as far as a proof can hold. */
  lemma RequestsAnswered(members: Membership, s: System, steps: seq<Step>, p: Packet)
    requires Fresh(s) && p in Run(members, s, steps).net && p.src in s.peers && p.body.Retrieval?
    ensures p.body.start < p.body.end
    ensures p.dst in s.peers ==>
              && AnswerTo(p) in Next(members, Run(members, s, steps), Deliver(p)).net
              && var lis := AnswerTo(p).body.lis;
                 && lis != [] && lis[0].epoch == p.body.start
                 && Proves(lis, p.body.start, Min(p.body.end, p.body.start + MaxEndings))
  {
    RunInv(members, s, steps);
    var s' := Run(members, s, steps);
    assert Honest(s', p);
    if p.dst in s.peers { RequestAnswered(members, s', p); }
  }

  lemma RequestAnswered(members: Membership, s: System, p: Packet)
    requires Inv(s) && p in s.net && p.body.Retrieval? && p.src in s.peers && p.dst in s.peers
    ensures p.body.start < p.body.end && AnswerTo(p) in Next(members, s, Deliver(p)).net
    ensures var lis := AnswerTo(p).body.lis;
            && lis != [] && lis[0].epoch == p.body.start
            && Proves(lis, p.body.start, Min(p.body.end, p.body.start + MaxEndings))
  {
    assert Honest(s, p) && PeerOk(s.peers[p.dst], s.frontier);
    PageProves(p.body.start, p.body.end, p.body.end);
  }

  /** A proof changes the receiver exactly when its first ledger info is of the receiver's epoch and
      the chain verifies, and then it moves it forward to the epoch the chain opens. */
  lemma ProofEffect(members: Membership, s: System, p: Packet)
    requires p in s.net && p.dst in s.peers && p.body.Proof?
    ensures var s', own := Next(members, s, Deliver(p)), s.peers[p.dst].epoch;
            var accepted := p.body.lis != [] && p.body.lis[0].epoch == own && Opens(p.body.lis, own).Some?;
            && (!accepted ==> s' == s)
            && (accepted ==> s'.peers[p.dst].epoch > own && Proves(p.body.lis, own, s'.peers[p.dst].epoch))
  {
  }

  // ----- Progress -----

  /** One undisturbed exchange: the leading node's message, the request it triggers, the proof. */
  ghost function Exchange(members: Membership, s: System, behind: Id, ahead: Id): System
    requires behind in s.peers && ahead in s.peers
  {
    var a, b := s.peers[behind].epoch, s.peers[ahead].epoch;
    var s1 := Next(members, s, Gossip(ahead, behind));
    var s2 := Next(members, s1, Deliver(Packet(ahead, behind, Consensus(b))));
    var s3 := Next(members, s2, Deliver(Packet(behind, ahead, Retrieval(a, b))));
    var page := EndingLedgerInfos(a, b, s.peers[ahead].latestEpoch);
    if page.None? then s3 else Next(members, s3, Deliver(Packet(ahead, behind, Proof(page.value))))
  }

  /** An exchange lifts the lagging node by the whole gap, or by the hundred epochs a proof can hold,
      and touches no other node. */
  lemma ExchangeLifts(members: Membership, s: System, behind: Id, ahead: Id)
    requires Inv(s) && behind in s.peers && ahead in s.peers
    requires s.peers[behind].epoch < s.peers[ahead].epoch
    ensures var s' := Exchange(members, s, behind, ahead);
            && s'.peers.Keys == s.peers.Keys
            && s'.peers[behind].epoch == Min(s.peers[ahead].epoch, s.peers[behind].epoch + MaxEndings)
            && forall id :: id in s.peers && id != behind ==> s'.peers[id] == s.peers[id]
  {
    var a, b, latest := s.peers[behind].epoch, s.peers[ahead].epoch, s.peers[ahead].latestEpoch;
    assert PeerOk(s.peers[ahead], s.frontier);
    PageProves(a, b, latest);
    var lis := EndingLedgerInfos(a, b, latest).value;
    var next := Min(b, a + MaxEndings);
    assert Proves(lis, a, next);
    ProvesUnique(lis, a, next, Opens(lis, a).value);
    var s1 := Next(members, s, Gossip(ahead, behind));
    var s2 := Next(members, s1, Deliver(Packet(ahead, behind, Consensus(b))));
    assert Packet(behind, ahead, Retrieval(a, b)) in s2.net && s2.peers == s.peers;
    var s3 := Next(members, s2, Deliver(Packet(behind, ahead, Retrieval(a, b))));
    assert Packet(ahead, behind, Proof(lis)) in s3.net && s3.peers == s.peers;
  }

  lemma ExchangeInv(members: Membership, s: System, behind: Id, ahead: Id)
    requires Inv(s) && behind in s.peers && ahead in s.peers
    ensures Inv(Exchange(members, s, behind, ahead))
  {
    var a, b := s.peers[behind].epoch, s.peers[ahead].epoch;
    var s1 := Next(members, s, Gossip(ahead, behind));
    NextAdvances(members, s, Gossip(ahead, behind));
    var d1 := Deliver(Packet(ahead, behind, Consensus(b)));
    NextAdvances(members, s1, d1);
    var s2 := Next(members, s1, d1);
    var d2 := Deliver(Packet(behind, ahead, Retrieval(a, b)));
    NextAdvances(members, s2, d2);
    var page := EndingLedgerInfos(a, b, s.peers[ahead].latestEpoch);
    if page.Some? {
      NextAdvances(members, Next(members, s2, d2), Deliver(Packet(ahead, behind, Proof(page.value))));
    }
  }

  ghost function Exchanges(members: Membership, s: System, behind: Id, ahead: Id, k: nat): System
    requires behind in s.peers && ahead in s.peers
    decreases k
  {
    if k == 0 then s else
    var s1 := Exchange(members, s, behind, ahead);
    if behind in s1.peers && ahead in s1.peers then Exchanges(members, s1, behind, ahead, k - 1) else s1
  }

  /** Any gap closes: one exchange per hundred epochs brings the lagging node to the other's epoch. */
  lemma {:induction false} CatchesUp(members: Membership, s: System, behind: Id, ahead: Id, k: nat)
    requires Inv(s) && behind in s.peers && ahead in s.peers && behind != ahead
    requires s.peers[behind].epoch <= s.peers[ahead].epoch <= s.peers[behind].epoch + k * MaxEndings
    requires k > 0 ==> s.peers[behind].epoch + (k - 1) * MaxEndings < s.peers[ahead].epoch
    ensures var s' := Exchanges(members, s, behind, ahead, k);
            && behind in s'.peers && ahead in s'.peers
            && s'.peers[behind].epoch == s.peers[ahead].epoch && s'.peers[ahead] == s.peers[ahead]
    decreases k
  {
    if k > 0 {
      ExchangeLifts(members, s, behind, ahead);
      ExchangeInv(members, s, behind, ahead);
      CatchesUp(members, Exchange(members, s, behind, ahead), behind, ahead, k - 1);
    }
  }

  // ----- Progress in spite of everything else -----

  /** An answer lifts the node that asked to where its chain leads, if it is still where it was. */
  lemma AnswerLifts(members: Membership, s: System, p: Packet, start: nat, next: nat)
    requires p in s.net && p.dst in s.peers && p.body.Proof? && s.peers[p.dst].epoch == start
    requires p.body.lis != [] && p.body.lis[0].epoch == start && Proves(p.body.lis, start, next)
    ensures var s' := Next(members, s, Deliver(p)); p.dst in s'.peers && s'.peers[p.dst].epoch == next
  {
    ProvesUnique(p.body.lis, start, next, Opens(p.body.lis, start).value);
  }

  /** A message of a newer epoch makes the node that gets it ask for what it lacks. */
  lemma LaggardAsks(members: Membership, s: System, behind: Id, ahead: Id, b: nat)
    requires behind in s.peers && Packet(ahead, behind, Consensus(b)) in s.net && s.peers[behind].epoch < b
    ensures var s' := Next(members, s, Deliver(Packet(ahead, behind, Consensus(b))));
            Packet(behind, ahead, Retrieval(s.peers[behind].epoch, b)) in s'.net && s'.peers == s.peers
  {
  }

  /** A message, a request and an answer, with any other steps before the request and before the answer arrive. */
  ghost function Round(members: Membership, s: System, behind: Id, ahead: Id, b: nat,
                       first: seq<Step>, second: seq<Step>): System
    requires behind in s.peers
  {
    var a := s.peers[behind].epoch;
    var s1 := Run(members, Next(members, s, Deliver(Packet(ahead, behind, Consensus(b)))), first);
    if a >= b then s1 else
    var request := Packet(behind, ahead, Retrieval(a, b));
    var s2 := Run(members, Next(members, s1, Deliver(request)), second);
    Next(members, s2, Deliver(AnswerTo(request)))
  }

  /** Whatever else happens in between, a message of a newer epoch leads to an answer that lifts the node that
      got it, unless something else has lifted it before. */
  lemma RoundLifts(members: Membership, s: System, behind: Id, ahead: Id, b: nat, first: seq<Step>, second: seq<Step>)
    requires Inv(s) && behind in s.peers && ahead in s.peers
    requires Packet(ahead, behind, Consensus(b)) in s.net && s.peers[behind].epoch < b
    ensures var a, request := s.peers[behind].epoch, Packet(behind, ahead, Retrieval(s.peers[behind].epoch, b));
            var s1 := Run(members, Next(members, s, Deliver(Packet(ahead, behind, Consensus(b)))), first);
            var s2 := Run(members, Next(members, s1, Deliver(request)), second);
            var s3 := Next(members, s2, Deliver(AnswerTo(request)));
            && request in s1.net && AnswerTo(request) in s2.net
            && behind in s2.peers && behind in s3.peers && s3.peers[behind].epoch > a
            && (s2.peers[behind].epoch == a ==> s3.peers[behind].epoch == Min(b, a + MaxEndings))
  {
    hide Inv, Next, Run;
    var a, message := s.peers[behind].epoch, Deliver(Packet(ahead, behind, Consensus(b)));
    var request := Packet(behind, ahead, Retrieval(a, b));
    LaggardAsks(members, s, behind, ahead, b);
    NextAdvances(members, s, message);
    RunAdvances(members, Next(members, s, message), first);
    var s1 := Run(members, Next(members, s, message), first);
    RequestAnswered(members, s1, request);
    NextAdvances(members, s1, Deliver(request));
    RunAdvances(members, Next(members, s1, Deliver(request)), second);
    var s2 := Run(members, Next(members, s1, Deliver(request)), second);
    NextAdvances(members, s2, Deliver(AnswerTo(request)));
    if s2.peers[behind].epoch == a {
      AnswerLifts(members, s2, AnswerTo(request), a, Min(b, a + MaxEndings));
    }
  }

  lemma RoundKeeps(members: Membership, s: System, behind: Id, ahead: Id, b: nat, first: seq<Step>, second: seq<Step>)
    requires Inv(s) && behind in s.peers
    ensures var s' := Round(members, s, behind, ahead, b, first, second); Inv(s') && Advances(s, s')
  {
    hide Inv, Next, Run;
    var a, message := s.peers[behind].epoch, Deliver(Packet(ahead, behind, Consensus(b)));
    NextAdvances(members, s, message);
    RunAdvances(members, Next(members, s, message), first);
    if a < b {
      var request := Packet(behind, ahead, Retrieval(a, b));
      var s1 := Run(members, Next(members, s, message), first);
      NextAdvances(members, s1, Deliver(request));
      RunAdvances(members, Next(members, s1, Deliver(request)), second);
      var s2 := Run(members, Next(members, s1, Deliver(request)), second);
      NextAdvances(members, s2, Deliver(AnswerTo(request)));
    }
  }

  ghost function Rounds(members: Membership, s: System, behind: Id, ahead: Id, b: nat,
                        disturbances: seq<(seq<Step>, seq<Step>)>): System
    requires behind in s.peers
    decreases |disturbances|
  {
    if disturbances == [] then s else
    var s1 := Round(members, s, behind, ahead, b, disturbances[0].0, disturbances[0].1);
    if behind in s1.peers then Rounds(members, s1, behind, ahead, b, disturbances[1..]) else s1
  }

  /** One message of a newer epoch from an honest node is enough to get there: repeated as often as there are epochs
      to go, it leads the lagging node at least to that epoch, whatever else happens. */
  lemma {:induction false} RoundsCatchUp(members: Membership, s: System, behind: Id, ahead: Id, b: nat,
                                         disturbances: seq<(seq<Step>, seq<Step>)>)
    requires Inv(s) && behind in s.peers && ahead in s.peers && Packet(ahead, behind, Consensus(b)) in s.net
    ensures var s' := Rounds(members, s, behind, ahead, b, disturbances);
            behind in s'.peers && s'.peers[behind].epoch >= Min(b, s.peers[behind].epoch + |disturbances|)
    decreases |disturbances|
  {
    hide Inv, Next, Run;
    if disturbances != [] {
      var (first, second) := disturbances[0];
      RoundKeeps(members, s, behind, ahead, b, first, second);
      if s.peers[behind].epoch < b { RoundLifts(members, s, behind, ahead, b, first, second); }
      RoundsCatchUp(members, Round(members, s, behind, ahead, b, first, second), behind, ahead, b, disturbances[1..]);
    }
  }
}
