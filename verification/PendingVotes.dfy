/** Vote collection for one round: votes are kept per ledger-info digest until a quorum
    certificate, a timeout certificate or an echoed timeout comes out. */
module PendingVotes {
  import opened Options
  import opened Validators

  type Digest = nat
  type Signature = nat

  /** The 2-chain timeout a vote may carry: the signer's highest quorum-certificate round. */
  datatype Timeout = Timeout(hqcRound: nat, signature: Signature)

  datatype Vote = Vote(author: Author, digest: Digest, signature: Signature, timeout: Option<Timeout>) {
    predicate IsTimeout() { timeout.Some? }
  }

  datatype QuorumCert = QuorumCert(digest: Digest, signers: set<Author>)

  /** A timeout certificate under construction: the highest round seen, and the round each author
      signed. */
  datatype PartialTc = PartialTc(hqcRound: nat, rounds: map<Author, nat>)

  datatype VoteReceptionResult =
    | VoteAdded(power: nat)
    | DuplicateVote
    | EquivocateVote
    | NewQuorumCertificate(qc: QuorumCert)
    | New2ChainTimeoutCertificate(tc: PartialTc)
    | ErrorAddingVote
    | ErrorAggregatingSignature
    | ErrorAggregatingTimeoutCertificate
    | EchoTimeout(power: nat)

  /** One call: the vote, and whether signature aggregation would succeed in this call. */
  datatype Input = Input(vote: Vote, sigsAggregate: bool, timeoutsAggregate: bool)

  datatype State = State(
    votes: map<Digest, map<Author, Signature>>,
    tc: Option<PartialTc>,
    seen: map<Author, Vote>,
    echoed: bool)

  const Empty := State(map[], None, map[], false)

  /** Adding a signature never replaces an earlier one by the same author. */
  function AddSignature(votes: map<Digest, map<Author, Signature>>, vote: Vote)
    : map<Digest, map<Author, Signature>>
  {
    var sigs := if vote.digest in votes then votes[vote.digest] else map[];
    votes[vote.digest := if vote.author in sigs then sigs else sigs[vote.author := vote.signature]]
  }

  function AddTimeout(tc: Option<PartialTc>, a: Author, t: Timeout): PartialTc {
    var base := if tc.Some? then tc.value else PartialTc(t.hqcRound, map[]);
    PartialTc(if t.hqcRound > base.hqcRound then t.hqcRound else base.hqcRound,
              if a in base.rounds then base.rounds else base.rounds[a := t.hqcRound])
  }

  /** A vote by an author already heard is turned away, unless it is the first timeout for the
      digest that author chose. */
  function Rejection(s: State, vote: Vote): Option<VoteReceptionResult> {
    if vote.author !in s.seen then None
    else if s.seen[vote.author].digest != vote.digest then Some(EquivocateVote)
    else if vote.IsTimeout() && !s.seen[vote.author].IsTimeout() then None
    else Some(DuplicateVote)
  }

  function Record(s: State, vote: Vote): (s': State)
    ensures vote.digest in s'.votes
  {
    s.(seen := s.seen[vote.author := vote], votes := AddSignature(s.votes, vote))
  }

  ghost function Step(v: Verifier, s: State, i: Input): (State, VoteReceptionResult)
    requires v.Valid()
  {
    var rejected := Rejection(s, i.vote);
    if rejected.Some? then (s, rejected.value) else
    var s1 := Record(s, i.vote);
    var signers := s1.votes[i.vote.digest].Keys;
    match CheckSpec(v, signers)
    case Reached =>
      (s1, if i.sigsAggregate then NewQuorumCertificate(QuorumCert(i.vote.digest, signers))
           else ErrorAggregatingSignature)
    case UnknownAuthor => (s1, ErrorAddingVote)
    case TooLittle(power) =>
      if i.vote.IsTimeout() then StepTimeout(v, s1, i, power) else (s1, VoteAdded(power))
  }

  ghost function StepTimeout(v: Verifier, s: State, i: Input, power: nat): (State, VoteReceptionResult)
    requires v.Valid() && i.vote.IsTimeout()
  {
    var tc := AddTimeout(s.tc, i.vote.author, i.vote.timeout.value);
    var s1 := s.(tc := Some(tc));
    match CheckSpec(v, tc.rounds.Keys)
    case Reached =>
      (s1, if i.timeoutsAggregate then New2ChainTimeoutCertificate(tc)
           else ErrorAggregatingTimeoutCertificate)
    case UnknownAuthor => (s1, ErrorAddingVote)
    case TooLittle(tcPower) =>
      if !s1.echoed && tcPower >= v.FPlusOne() then (s1.(echoed := true), EchoTimeout(tcPower))
      else (s1, VoteAdded(power))
  }

  ghost function Signers(s: State, d: Digest): set<Author> {
    if d in s.votes then s.votes[d].Keys else {}
  }

  ghost function TcSigners(s: State): set<Author> {
    if s.tc.Some? then s.tc.value.rounds.Keys else {}
  }

  /** The vote index and the per-digest signatures describe the same choices. */
  ghost predicate Indexed(s: State) {
    && (forall a :: a in s.seen ==> s.seen[a].author == a && a in Signers(s, s.seen[a].digest))
    && (forall d, a :: a in Signers(s, d) ==> a in s.seen && s.seen[a].digest == d)
  }

  /** A partial timeout certificate passes the round check of its own verification: the round it
      carries is the largest one signed. */
  ghost predicate RoundIsMax(tc: PartialTc) {
    && (forall a :: a in tc.rounds ==> tc.rounds[a] <= tc.hqcRound)
    && (exists a :: a in tc.rounds && tc.rounds[a] == tc.hqcRound)
  }

  /** Timeout signatures come from known authors whose stored vote is that timeout; the only stored
      timeouts left out belong to digests that left the below-quorum stage. */
  ghost predicate TimeoutsTracked(v: Verifier, s: State) {
    && (s.tc.Some? ==> RoundIsMax(s.tc.value))
    && (forall a :: a in TcSigners(s) ==>
          && a in v.powers && a in s.seen && s.seen[a].IsTimeout()
          && s.tc.value.rounds[a] == s.seen[a].timeout.value.hqcRound)
    && (forall a :: a in s.seen && s.seen[a].IsTimeout() && a !in TcSigners(s) ==>
          !CheckSpec(v, Signers(s, s.seen[a].digest)).TooLittle?)
  }

  /** Until the echo has been sent, timeout power is not in the echo window. */
  ghost predicate EchoPending(v: Verifier, s: State)
    requires v.Valid()
  {
    s.echoed || Power(v, TcSigners(s)) < v.FPlusOne() || Power(v, TcSigners(s)) >= v.quorum
  }

  ghost predicate Inv(v: Verifier, s: State)
    requires v.Valid()
  {
    Indexed(s) && TimeoutsTracked(v, s) && EchoPending(v, s)
  }

  /** The signers of two digests never overlap, whatever was received. */
  lemma SignersDisjoint(s: State, d: Digest, e: Digest)
    requires Indexed(s) && d != e
    ensures Signers(s, d) !! Signers(s, e)
  {
    forall a | a in Signers(s, d) ensures a !in Signers(s, e) {
      assert s.seen[a].digest == d;
    }
  }

  lemma RecordSigners(s: State, vote: Vote)
    ensures Signers(Record(s, vote), vote.digest) == Signers(s, vote.digest) + {vote.author}
    ensures forall d :: d != vote.digest ==> Signers(Record(s, vote), d) == Signers(s, d)
  {
  }

  lemma RecordKeepsIndex(s: State, vote: Vote)
    requires Indexed(s) && Rejection(s, vote).None?
    ensures Indexed(Record(s, vote))
  {
    RecordSigners(s, vote);
    var s1 := Record(s, vote);
    forall a | a in s1.seen ensures s1.seen[a].author == a && a in Signers(s1, s1.seen[a].digest) {
      if a != vote.author { assert a in Signers(s, s.seen[a].digest); }
    }
    forall d, a | a in Signers(s1, d) ensures a in s1.seen && s1.seen[a].digest == d {
      if a in Signers(s, d) { assert s.seen[a].digest == d; }
    }
  }

  /** Leaving the below-quorum stage is permanent: signers are only ever added. */
  lemma CheckOnlyRises(v: Verifier, s: set<Author>, t: set<Author>)
    requires s <= t && !CheckSpec(v, s).TooLittle?
    ensures !CheckSpec(v, t).TooLittle?
  {
    PowerMonotone(v, s, t);
  }

  lemma RecordKeepsTimeouts(v: Verifier, s: State, vote: Vote)
    requires Indexed(s) && TimeoutsTracked(v, s) && Rejection(s, vote).None?
    ensures vote.author !in TcSigners(s)
    ensures var s1 := Record(s, vote);
            && TcSigners(s1) == TcSigners(s)
            && (forall a :: a in TcSigners(s) ==> s1.seen[a] == s.seen[a])
            && (forall a :: a != vote.author && a in s.seen && s.seen[a].IsTimeout() && a !in TcSigners(s) ==>
                  !CheckSpec(v, Signers(s1, s.seen[a].digest)).TooLittle?)
  {
    var s1 := Record(s, vote);
    RecordSigners(s, vote);
    forall a | a != vote.author && a in s.seen && s.seen[a].IsTimeout() && a !in TcSigners(s)
      ensures !CheckSpec(v, Signers(s1, s.seen[a].digest)).TooLittle?
    {
      CheckOnlyRises(v, Signers(s, s.seen[a].digest), Signers(s1, s.seen[a].digest));
    }
  }

  lemma AddTimeoutKeepsMax(tc: Option<PartialTc>, a: Author, t: Timeout)
    requires tc.Some? ==> RoundIsMax(tc.value) && a !in tc.value.rounds
    ensures var tc1 := AddTimeout(tc, a, t);
            && RoundIsMax(tc1)
            && tc1.rounds == (if tc.Some? then tc.value.rounds else map[])[a := t.hqcRound]
  {
    var tc1 := AddTimeout(tc, a, t);
    if tc.Some? && t.hqcRound <= tc.value.hqcRound {
      var b :| b in tc.value.rounds && tc.value.rounds[b] == tc.value.hqcRound;
      assert b in tc1.rounds && tc1.rounds[b] == tc1.hqcRound;
    } else {
      assert a in tc1.rounds && tc1.rounds[a] == tc1.hqcRound;
    }
  }

  lemma TimeoutExtendsTc(v: Verifier, s: State, vote: Vote, s2: State)
    requires Indexed(s) && TimeoutsTracked(v, s) && Rejection(s, vote).None?
    requires vote.IsTimeout() && vote.author in v.powers
    requires var tc := AddTimeout(s.tc, vote.author, vote.timeout.value);
             s2 == Record(s, vote).(tc := Some(tc), echoed := s2.echoed)
    ensures TimeoutsTracked(v, s2)
    ensures TcSigners(s2) == TcSigners(s) + {vote.author}
  {
    RecordKeepsTimeouts(v, s, vote);
    AddTimeoutKeepsMax(s.tc, vote.author, vote.timeout.value);
    var s1 := Record(s, vote);
    assert TcSigners(s2) == TcSigners(s) + {vote.author};
    forall a | a in s2.seen && s2.seen[a].IsTimeout() && a !in TcSigners(s2)
      ensures !CheckSpec(v, Signers(s2, s2.seen[a].digest)).TooLittle?
    {
      assert Signers(s2, s2.seen[a].digest) == Signers(s1, s.seen[a].digest);
    }
  }

  /** Every return path of an insertion keeps all three maps and the flag consistent. */
  lemma StepKeepsInv(v: Verifier, s: State, i: Input)
    requires v.Valid() && Inv(v, s)
    ensures Inv(v, Step(v, s, i).0)
  {
    if Rejection(s, i.vote).None? {
      var s1, s' := Record(s, i.vote), Step(v, s, i).0;
      RecordKeepsIndex(s, i.vote);
      var signers := s1.votes[i.vote.digest].Keys;
      assert signers == Signers(s1, i.vote.digest);
      if CheckSpec(v, signers).TooLittle? && i.vote.IsTimeout() {
        StepKeepsInvTimeout(v, s, i);
      } else {
        assert s' == s1;
        RecordKeepsTimeouts(v, s, i.vote);
      }
    }
  }

  lemma StepKeepsInvTimeout(v: Verifier, s: State, i: Input)
    requires v.Valid() && Inv(v, s) && Rejection(s, i.vote).None? && i.vote.IsTimeout()
    requires CheckSpec(v, Record(s, i.vote).votes[i.vote.digest].Keys).TooLittle?
    ensures Inv(v, Step(v, s, i).0)
  {
    hide Indexed, TimeoutsTracked, AddSignature;
    var s1, s' := Record(s, i.vote), Step(v, s, i).0;
    var tc := AddTimeout(s.tc, i.vote.author, i.vote.timeout.value);
    assert s' == s1.(tc := Some(tc), echoed := s'.echoed);
    RecordSigners(s, i.vote);
    assert i.vote.author in Signers(s1, i.vote.digest);
    TimeoutExtendsTc(v, s, i.vote, s');
    RecordKeepsIndex(s, i.vote);
    IndexedByVotes(s1, s');
    assert TcSigners(s') == tc.rounds.Keys;
  }

  lemma IndexedByVotes(s: State, s': State)
    requires Indexed(s) && s'.seen == s.seen && s'.votes == s.votes
    ensures Indexed(s')
  {
    assert forall d :: Signers(s', d) == Signers(s, d);
  }

  /** An admitted vote is recorded on every path; timeout signers only grow and the echo flag only
      turns on. */
  lemma StepRecords(v: Verifier, s: State, i: Input)
    requires v.Valid()
    ensures var s' := Step(v, s, i).0;
            && TcSigners(s) <= TcSigners(s')
            && (s.echoed ==> s'.echoed)
            && if Rejection(s, i.vote).None?
               then s'.seen == Record(s, i.vote).seen && s'.votes == Record(s, i.vote).votes
               else s' == s
  {
    hide CheckSpec, Power, AddSignature;
  }

  /** What the state holds when a timeout certificate or an echo comes out. */
  lemma TimeoutOutcome(v: Verifier, s: State, i: Input)
    requires v.Valid()
    ensures var (s', r) := Step(v, s, i);
            && (r.New2ChainTimeoutCertificate? ==>
                  && s'.tc == Some(r.tc)
                  && r.tc.rounds.Keys <= v.powers.Keys && Power(v, r.tc.rounds.Keys) >= v.quorum)
            && (r.EchoTimeout? ==>
                  && r.power == Power(v, TcSigners(s'))
                  && v.FPlusOne() <= r.power < v.quorum)
            && (r.EchoTimeout? <==> s'.echoed && !s.echoed)
  {
  }

  /** In a consistent state the error comes only from an unknown signer of the vote's own digest. */
  lemma ErrorMeansUnknown(v: Verifier, s: State, i: Input)
    requires v.Valid() && Inv(v, s)
    ensures var (s', r) := Step(v, s, i);
            r.ErrorAddingVote? <==>
              && Rejection(s, i.vote).None?
              && exists a :: a in Signers(s', i.vote.digest) && a !in v.powers
  {
    if Rejection(s, i.vote).None? {
      var s1 := Record(s, i.vote);
      StepRecords(v, s, i);
      var signers := s1.votes[i.vote.digest].Keys;
      assert signers == Signers(Step(v, s, i).0, i.vote.digest);
      if CheckSpec(v, signers).TooLittle? && i.vote.IsTimeout() {
        RecordSigners(s, i.vote);
        assert i.vote.author in Signers(s1, i.vote.digest);
        TimeoutExtendsTc(v, s, i.vote, s1.(tc := Some(AddTimeout(s.tc, i.vote.author, i.vote.timeout.value))));
      }
    }
  }

  /** The collector as the round state holds it. */
  class Collector {
    var liDigestToVotes: map<Digest, map<Author, Signature>>
    var maybePartialTc: Option<PartialTc>
    var authorToVote: map<Author, Vote>
    var echoTimeout: bool

    ghost function View(): State
      reads this
    {
      State(liDigestToVotes, maybePartialTc, authorToVote, echoTimeout)
    }

    constructor ()
      ensures View() == Empty
    {
      liDigestToVotes, maybePartialTc, authorToVote, echoTimeout := map[], None, map[], false;
    }

    method InsertVote(verifier: Verifier, i: Input) returns (r: VoteReceptionResult)
      requires verifier.Valid()
      modifies this
      ensures (View(), r) == Step(verifier, old(View()), i)
    {
      var vote := i.vote;
      if vote.author in authorToVote {
        var previous := authorToVote[vote.author];
        if vote.digest == previous.digest {
          var newTimeoutVote := vote.IsTimeout() && !previous.IsTimeout();
          if !newTimeoutVote {
            return DuplicateVote;
          }
        } else {
          return EquivocateVote;
        }
      }
      authorToVote := authorToVote[vote.author := vote];
      liDigestToVotes := AddSignature(liDigestToVotes, vote);
      var signers := liDigestToVotes[vote.digest].Keys;
      var check := CheckVotingPower(verifier, signers);
      if check.Reached? {
        return if i.sigsAggregate then NewQuorumCertificate(QuorumCert(vote.digest, signers))
               else ErrorAggregatingSignature;
      } else if check.UnknownAuthor? {
        return ErrorAddingVote;
      }
      var votingPower := check.power;
      if vote.timeout.Some? {
        var partialTc := AddTimeout(maybePartialTc, vote.author, vote.timeout.value);
        maybePartialTc := Some(partialTc);
        var tcCheck := CheckVotingPower(verifier, partialTc.rounds.Keys);
        if tcCheck.Reached? {
          return if i.timeoutsAggregate then New2ChainTimeoutCertificate(partialTc)
                 else ErrorAggregatingTimeoutCertificate;
        } else if tcCheck.UnknownAuthor? {
          return ErrorAddingVote;
        }
        if !echoTimeout {
          var fPlusOne := verifier.total - verifier.quorum + 1;
          if tcCheck.power >= fPlusOne {
            echoTimeout := true;
            return EchoTimeout(tcCheck.power);
          }
        }
      }
      return VoteAdded(votingPower);
    }

    /** Hands out what was collected; the author index and the echo flag stay behind. */
    method DrainVotes() returns (votes: map<Digest, map<Author, Signature>>, tc: Option<PartialTc>)
      modifies this
      ensures votes == old(View()).votes && tc == old(View()).tc
      ensures View() == old(View()).(votes := map[], tc := None)
    {
      votes, tc := liDigestToVotes, maybePartialTc;
      liDigestToVotes, maybePartialTc := map[], None;
    }
  }
}
