/** What vote collection guarantees over whole runs: any sequence of votes, in any order, with
    duplicates, equivocation and unknown authors. */
module VoteRuns {
  import opened Options
  import opened Validators
  import opened PendingVotes

  ghost function Run(v: Verifier, ins: seq<Input>): State
    requires v.Valid()
  {
    if ins == [] then Empty else Step(v, Run(v, ins[..|ins| - 1]), ins[|ins| - 1]).0
  }

  ghost function ResultAt(v: Verifier, ins: seq<Input>, k: nat): VoteReceptionResult
    requires v.Valid() && k < |ins|
  {
    Step(v, Run(v, ins[..k]), ins[k]).1
  }

  lemma RunStep(v: Verifier, ins: seq<Input>, k: nat)
    requires v.Valid() && k < |ins|
    ensures Run(v, ins[..k + 1]) == Step(v, Run(v, ins[..k]), ins[k]).0
  {
    assert ins[..k + 1][..k] == ins[..k];
  }

  lemma {:induction false} RunInv(v: Verifier, ins: seq<Input>)
    requires v.Valid()
    ensures Inv(v, Run(v, ins))
  {
    if ins == [] {
      assert Power(v, {}) == 0;
    } else {
      RunInv(v, ins[..|ins| - 1]);
      StepKeepsInv(v, Run(v, ins[..|ins| - 1]), ins[|ins| - 1]);
    }
  }

  // ----- The state as a function of the history -----

  /** The first vote of an author. */
  ghost function FirstVote(ins: seq<Input>, a: Author): Option<Vote> {
    if ins == [] then None else
    var earlier := FirstVote(ins[..|ins| - 1], a);
    var last := ins[|ins| - 1].vote;
    if earlier.None? && last.author == a then Some(last) else earlier
  }

  /** The first timeout vote of an author for a digest. */
  ghost function FirstTimeout(ins: seq<Input>, a: Author, d: Digest): Option<Vote> {
    if ins == [] then None else
    var earlier := FirstTimeout(ins[..|ins| - 1], a, d);
    var last := ins[|ins| - 1].vote;
    if earlier.None? && last.author == a && last.digest == d && last.IsTimeout() then Some(last) else earlier
  }

  ghost predicate Chose(ins: seq<Input>, a: Author, d: Digest) {
    FirstVote(ins, a).Some? && FirstVote(ins, a).value.digest == d
  }

  lemma {:induction false} FirstVoteFacts(ins: seq<Input>, a: Author)
    ensures FirstVote(ins, a).Some? <==> exists i :: 0 <= i < |ins| && ins[i].vote.author == a
    ensures FirstVote(ins, a).Some? ==>
              && FirstVote(ins, a).value.author == a
              && exists i :: 0 <= i < |ins| && ins[i].vote == FirstVote(ins, a).value
  {
    if ins != [] {
      var rest := ins[..|ins| - 1];
      FirstVoteFacts(rest, a);
      if FirstVote(rest, a).Some? {
        var i :| 0 <= i < |rest| && rest[i].vote == FirstVote(rest, a).value;
        assert ins[i].vote == FirstVote(ins, a).value;
      } else if ins[|ins| - 1].vote.author == a {
        assert ins[|ins| - 1].vote == FirstVote(ins, a).value;
      } else {
        forall i | 0 <= i < |ins| ensures ins[i].vote.author != a {
          if i < |rest| { assert rest[i] == ins[i]; }
        }
      }
    }
  }

  lemma {:induction false} FirstTimeoutFacts(ins: seq<Input>, a: Author, d: Digest)
    ensures FirstTimeout(ins, a, d).Some? <==>
              exists i :: 0 <= i < |ins| && ins[i].vote.author == a && ins[i].vote.digest == d
                          && ins[i].vote.IsTimeout()
    ensures FirstTimeout(ins, a, d).Some? ==>
              && FirstTimeout(ins, a, d).value.author == a && FirstTimeout(ins, a, d).value.digest == d
              && FirstTimeout(ins, a, d).value.IsTimeout()
  {
    if ins != [] {
      var rest := ins[..|ins| - 1];
      FirstTimeoutFacts(rest, a, d);
      if FirstTimeout(rest, a, d).Some? {
        var i :| 0 <= i < |rest| && rest[i].vote.author == a && rest[i].vote.digest == d && rest[i].vote.IsTimeout();
        assert ins[i].vote == rest[i].vote;
      } else if FirstTimeout(ins, a, d).None? {
        forall i | 0 <= i < |ins| && ins[i].vote.author == a && ins[i].vote.digest == d
          ensures !ins[i].vote.IsTimeout()
        {
          if i < |rest| { assert rest[i] == ins[i]; }
        }
      }
    }
  }

  /** The vote kept for an author: the first timeout for the first digest chosen, else the first vote. */
  ghost function Stored(ins: seq<Input>, a: Author): Option<Vote> {
    var first := FirstVote(ins, a);
    if first.None? then None else
    var timeout := FirstTimeout(ins, a, first.value.digest);
    if timeout.Some? then timeout else first
  }

  ghost predicate Mirrors(s: State, ins: seq<Input>) {
    && (forall a :: a in s.seen <==> Stored(ins, a).Some?)
    && (forall a :: a in s.seen ==> s.seen[a] == Stored(ins, a).value)
    && (forall a, d :: a in Signers(s, d) <==> Chose(ins, a, d))
    && (forall a, d :: a in Signers(s, d) ==> s.votes[d][a] == FirstVote(ins, a).value.signature)
  }

  lemma StoredFacts(ins: seq<Input>, a: Author)
    ensures Stored(ins, a).Some? <==> FirstVote(ins, a).Some?
    ensures Stored(ins, a).Some? ==> Stored(ins, a).value.digest == FirstVote(ins, a).value.digest
    ensures Stored(ins, a).Some? ==>
              (Stored(ins, a).value.IsTimeout() <==> FirstTimeout(ins, a, FirstVote(ins, a).value.digest).Some?)
  {
    if FirstVote(ins, a).Some? {
      var first := FirstVote(ins, a).value;
      FirstTimeoutFacts(ins, a, first.digest);
      FirstVoteFacts(ins, a);
      if first.IsTimeout() {
        var i :| 0 <= i < |ins| && ins[i].vote == first;
        assert ins[i].vote.author == a && ins[i].vote.digest == first.digest && ins[i].vote.IsTimeout();
      }
    }
  }

  lemma StoredStep(ins: seq<Input>, i: Input, a: Author)
    ensures FirstVote(ins + [i], a) ==
            if FirstVote(ins, a).None? && i.vote.author == a then Some(i.vote) else FirstVote(ins, a)
    ensures Stored(ins + [i], a) ==
            var kept := Stored(ins, a);
            if i.vote.author != a then kept
            else if kept.None? then Some(i.vote)
            else if kept.value.digest != i.vote.digest || !i.vote.IsTimeout() || kept.value.IsTimeout() then kept
            else Some(i.vote)
  {
    var all := ins + [i];
    assert all[..|all| - 1] == ins;
    StoredFacts(ins, a);
    FirstVoteFacts(ins, a);
    FirstTimeoutFacts(ins, a, i.vote.digest);
  }

  lemma SeenStep(v: Verifier, s: State, ins: seq<Input>, i: Input, a: Author)
    requires v.Valid() && Mirrors(s, ins)
    ensures var s' := Step(v, s, i).0;
            if a in s'.seen then Stored(ins + [i], a) == Some(s'.seen[a]) else Stored(ins + [i], a).None?
  {
    StepRecords(v, s, i);
    StoredStep(ins, i, a);
    assert a in s.seen <==> Stored(ins, a).Some?;
  }

  lemma SignersStep(v: Verifier, s: State, ins: seq<Input>, i: Input, a: Author, d: Digest)
    requires v.Valid() && Mirrors(s, ins)
    ensures var s' := Step(v, s, i).0;
            && (a in Signers(s', d) <==> Chose(ins + [i], a, d))
            && (a in Signers(s', d) ==> s'.votes[d][a] == FirstVote(ins + [i], a).value.signature)
  {
    var s' := Step(v, s, i).0;
    StepRecords(v, s, i);
    StoredStep(ins, i, a);
    StoredFacts(ins, a);
    assert a in Signers(s, d) <==> Chose(ins, a, d);
    if Rejection(s, i.vote).None? {
      RecordSigners(s, i.vote);
      assert Signers(s', d) == Signers(Record(s, i.vote), d);
    }
  }

  lemma MirrorsStep(v: Verifier, s: State, ins: seq<Input>, i: Input)
    requires v.Valid() && Mirrors(s, ins)
    ensures Mirrors(Step(v, s, i).0, ins + [i])
  {
    var all, s' := ins + [i], Step(v, s, i).0;
    forall a ensures if a in s'.seen then Stored(all, a) == Some(s'.seen[a]) else Stored(all, a).None? {
      SeenStep(v, s, ins, i, a);
    }
    forall a, d
      ensures a in Signers(s', d) <==> Chose(all, a, d)
      ensures a in Signers(s', d) ==> s'.votes[d][a] == FirstVote(all, a).value.signature
    {
      SignersStep(v, s, ins, i, a, d);
    }
  }

  /** After any run, who signed which digest, with which signature, and which vote is kept per
      author are given by the history alone. */
  lemma {:induction false} RunMirrorsHistory(v: Verifier, ins: seq<Input>)
    requires v.Valid()
    ensures Mirrors(Run(v, ins), ins)
  {
    if ins != [] {
      var rest := ins[..|ins| - 1];
      RunMirrorsHistory(v, rest);
      MirrorsStep(v, Run(v, rest), rest, ins[|ins| - 1]);
      assert rest + [ins[|ins| - 1]] == ins;
    }
  }

  // ----- Conservation of voting power -----

  ghost function SignedPower(v: Verifier, votes: map<Digest, map<Author, Signature>>): nat {
    if votes == map[] then 0 else
    var d :| d in votes;
    Power(v, votes[d].Keys) + SignedPower(v, votes - {d})
  }

  ghost predicate DisjointVotes(votes: map<Digest, map<Author, Signature>>) {
    forall d, e :: d in votes && e in votes && d != e ==> votes[d].Keys !! votes[e].Keys
  }

  ghost function AllSigners(votes: map<Digest, map<Author, Signature>>): set<Author> {
    set d, a | d in votes && a in votes[d] :: a
  }

  lemma AllSignersSplit(votes: map<Digest, map<Author, Signature>>, d: Digest)
    requires DisjointVotes(votes) && d in votes
    ensures AllSigners(votes) == AllSigners(votes - {d}) + votes[d].Keys
    ensures AllSigners(votes - {d}) * votes[d].Keys == {}
  {
    var rest := votes - {d};
    forall a | a in AllSigners(votes) ensures a in AllSigners(rest) + votes[d].Keys {
      var e :| e in votes && a in votes[e];
      if e != d { assert e in rest && a in rest[e]; }
    }
    forall a | a in AllSigners(rest) ensures a in AllSigners(votes) && a !in votes[d].Keys {
      var e :| e in rest && a in rest[e];
      assert e in votes && a in votes[e].Keys;
    }
  }

  lemma {:induction false} SignedPowerIsJoint(v: Verifier, votes: map<Digest, map<Author, Signature>>)
    requires DisjointVotes(votes)
    ensures SignedPower(v, votes) == Power(v, AllSigners(votes))
    decreases votes.Keys
  {
    if votes != map[] {
      var d :| d in votes && SignedPower(v, votes) == Power(v, votes[d].Keys) + SignedPower(v, votes - {d});
      SignedPowerIsJoint(v, votes - {d});
      AllSignersSplit(votes, d);
      PowerInclusionExclusion(v, AllSigners(votes - {d}), votes[d].Keys);
    }
  }

  /** Power signed over all digests together never exceeds the validators' total: nobody is counted
      twice, whatever was received. */
  lemma {:induction false} SignedPowerConserved(v: Verifier, ins: seq<Input>)
    requires v.Valid()
    ensures SignedPower(v, Run(v, ins).votes) <= v.total
  {
    var s := Run(v, ins);
    RunInv(v, ins);
    forall d, e | d in s.votes && e in s.votes && d != e ensures s.votes[d].Keys !! s.votes[e].Keys {
      SignersDisjoint(s, d, e);
      assert Signers(s, d) == s.votes[d].Keys && Signers(s, e) == s.votes[e].Keys;
    }
    SignedPowerIsJoint(v, s.votes);
    PowerBounded(v, AllSigners(s.votes));
  }

  // ----- Certificates -----

  /** A quorum certificate carries exactly the authors whose first vote was for its digest, all of
      them known and together at least a quorum. */
  lemma {:induction false} CertificateIsQuorum(v: Verifier, ins: seq<Input>, k: nat)
    requires v.Valid() && k < |ins| && ResultAt(v, ins, k).NewQuorumCertificate?
    ensures var qc := ResultAt(v, ins, k).qc;
            && qc.digest == ins[k].vote.digest
            && (forall a :: a in qc.signers <==> Chose(ins[..k + 1], a, qc.digest))
            && qc.signers <= v.powers.Keys
            && Power(v, qc.signers) >= v.quorum
  {
    RunStep(v, ins, k);
    RunMirrorsHistory(v, ins[..k + 1]);
    var s', qc := Run(v, ins[..k + 1]), ResultAt(v, ins, k).qc;
    assert qc.signers == Signers(s', qc.digest);
  }

  /** Choices are permanent. */
  lemma {:induction false} ChoicePersists(ins: seq<Input>, k: nat, a: Author, d: Digest)
    requires k <= |ins| && Chose(ins[..k], a, d)
    ensures Chose(ins, a, d)
    decreases |ins|
  {
    if k == |ins| {
      assert ins[..k] == ins;
    } else {
      assert ins[..|ins| - 1][..k] == ins[..k];
      ChoicePersists(ins[..|ins| - 1], k, a, d);
    }
  }

  /** If two collectors over one validator set certify different digests, the authors who signed both
      hold at least `2 * quorum - total`; each of them chose one digest in one run and the other in
      the other run. */
  lemma {:induction false} ConflictingCertificatesShareSigners(
      v: Verifier, ins: seq<Input>, k: nat, ins': seq<Input>, k': nat)
    requires v.Valid() && k < |ins| && k' < |ins'|
    requires ResultAt(v, ins, k).NewQuorumCertificate? && ResultAt(v, ins', k').NewQuorumCertificate?
    ensures var qc, qc' := ResultAt(v, ins, k).qc, ResultAt(v, ins', k').qc;
            && Power(v, qc.signers * qc'.signers) >= 2 * v.quorum - v.total
            && (forall a :: a in qc.signers * qc'.signers ==>
                  Chose(ins, a, qc.digest) && Chose(ins', a, qc'.digest))
  {
    CertificateIsQuorum(v, ins, k);
    CertificateIsQuorum(v, ins', k');
    var qc, qc' := ResultAt(v, ins, k).qc, ResultAt(v, ins', k').qc;
    QuorumsIntersect(v, qc.signers, qc'.signers);
    forall a | a in qc.signers * qc'.signers ensures Chose(ins, a, qc.digest) && Chose(ins', a, qc'.digest) {
      ChoicePersists(ins, k + 1, a, qc.digest);
      ChoicePersists(ins', k' + 1, a, qc'.digest);
    }
  }

  /** Agreement between collectors: while the authors who told them different things hold less than
      `2 * quorum - total`, every certificate either of them forms is for the same digest. */
  lemma {:induction false} Agreement(
      v: Verifier, ins: seq<Input>, k: nat, ins': seq<Input>, k': nat, twoFaced: set<Author>)
    requires v.Valid() && k < |ins| && k' < |ins'|
    requires ResultAt(v, ins, k).NewQuorumCertificate? && ResultAt(v, ins', k').NewQuorumCertificate?
    requires forall a, d, d' :: Chose(ins, a, d) && Chose(ins', a, d') && d != d' ==> a in twoFaced
    requires Power(v, twoFaced) < 2 * v.quorum - v.total
    ensures ResultAt(v, ins, k).qc.digest == ResultAt(v, ins', k').qc.digest
  {
    ConflictingCertificatesShareSigners(v, ins, k, ins', k');
    var qc, qc' := ResultAt(v, ins, k).qc, ResultAt(v, ins', k').qc;
    if qc.digest != qc'.digest {
      PowerMonotone(v, qc.signers * qc'.signers, twoFaced);
    }
  }

  /** Within one run no two digests are ever certified, once a quorum is more than half. */
  lemma {:induction false} CertificateUnique(v: Verifier, ins: seq<Input>, k: nat, k': nat)
    requires v.Valid() && 2 * v.quorum > v.total && k < |ins| && k' < |ins|
    requires ResultAt(v, ins, k).NewQuorumCertificate? && ResultAt(v, ins, k').NewQuorumCertificate?
    ensures ResultAt(v, ins, k).qc.digest == ResultAt(v, ins, k').qc.digest
  {
    assert Power(v, {}) == 0;
    Agreement(v, ins, k, ins, k', {});
  }

  /** Adding a vote fails exactly when the vote was admitted and the digest it is for has a signer
      outside the validator set; the timeout path never adds a failure of its own. So one unknown
      author keeps a digest from ever being certified. */
  lemma {:induction false} AddingFailsOnUnknownAuthor(v: Verifier, ins: seq<Input>, k: nat)
    requires v.Valid() && k < |ins|
    ensures ResultAt(v, ins, k).ErrorAddingVote? <==>
              && Rejection(Run(v, ins[..k]), ins[k].vote).None?
              && exists a :: Chose(ins[..k + 1], a, ins[k].vote.digest) && a !in v.powers
  {
    var s, vote := Run(v, ins[..k]), ins[k].vote;
    RunInv(v, ins[..k]);
    RunStep(v, ins, k);
    RunMirrorsHistory(v, ins[..k + 1]);
    ErrorMeansUnknown(v, s, ins[k]);
    var s' := Run(v, ins[..k + 1]);
    assert forall a :: a in Signers(s', vote.digest) <==> Chose(ins[..k + 1], a, vote.digest);
  }

  /** A timeout certificate has a quorum of known signers, each with the round of the timeout vote
      kept for it, and passes the highest-round check of its own verification. */
  lemma {:induction false} TimeoutCertificateSound(v: Verifier, ins: seq<Input>, k: nat)
    requires v.Valid() && k < |ins| && ResultAt(v, ins, k).New2ChainTimeoutCertificate?
    ensures var tc := ResultAt(v, ins, k).tc;
            && RoundIsMax(tc)
            && tc.rounds.Keys <= v.powers.Keys && Power(v, tc.rounds.Keys) >= v.quorum
            && (forall a :: a in tc.rounds ==>
                  && Stored(ins[..k + 1], a).Some? && Stored(ins[..k + 1], a).value.IsTimeout()
                  && tc.rounds[a] == Stored(ins[..k + 1], a).value.timeout.value.hqcRound)
  {
    RunInv(v, ins[..k + 1]);
    RunStep(v, ins, k);
    RunMirrorsHistory(v, ins[..k + 1]);
    TimeoutOutcome(v, Run(v, ins[..k]), ins[k]);
  }

  // ----- Echoed timeouts -----

  /** Once the echo has been sent, the timeout power that triggered it is never lost. */
  lemma {:induction false} EchoFlag(v: Verifier, ins: seq<Input>)
    requires v.Valid()
    ensures Run(v, ins).echoed ==> Power(v, TcSigners(Run(v, ins))) >= v.FPlusOne()
  {
    if ins != [] {
      var rest, i := ins[..|ins| - 1], ins[|ins| - 1];
      EchoFlag(v, rest);
      StepRecords(v, Run(v, rest), i);
      TimeoutOutcome(v, Run(v, rest), i);
      PowerMonotone(v, TcSigners(Run(v, rest)), TcSigners(Run(v, ins)));
    }
  }

  lemma {:induction false} EchoFlagPersists(v: Verifier, ins: seq<Input>, k: nat)
    requires v.Valid() && k <= |ins| && Run(v, ins[..k]).echoed
    ensures Run(v, ins).echoed
    decreases |ins|
  {
    if k == |ins| {
      assert ins[..k] == ins;
    } else {
      StepRecords(v, Run(v, ins[..|ins| - 1]), ins[|ins| - 1]);
      hide Step;
      assert ins[..|ins| - 1][..k] == ins[..k];
      EchoFlagPersists(v, ins[..|ins| - 1], k);
    }
  }

  /** A run echoes at most once. */
  lemma {:induction false} EchoOnce(v: Verifier, ins: seq<Input>, k: nat, k': nat)
    requires v.Valid() && k < k' < |ins|
    requires ResultAt(v, ins, k).EchoTimeout?
    ensures !ResultAt(v, ins, k').EchoTimeout?
  {
    RunStep(v, ins, k);
    TimeoutOutcome(v, Run(v, ins[..k]), ins[k]);
    TimeoutOutcome(v, Run(v, ins[..k']), ins[k']);
    assert ins[..k'][..k + 1] == ins[..k + 1];
    EchoFlagPersists(v, ins[..k'], k + 1);
  }

  /** An echo goes out only with timeout power of at least `total - quorum + 1` and below the quorum,
      held by authors that meet every quorum. */
  lemma {:induction false} EchoMeetsEveryQuorum(v: Verifier, ins: seq<Input>, k: nat, q: set<Author>)
    requires v.Valid() && k < |ins| && ResultAt(v, ins, k).EchoTimeout?
    requires Power(v, q) >= v.quorum
    ensures var signers := TcSigners(Run(v, ins[..k + 1]));
            && ResultAt(v, ins, k).power == Power(v, signers)
            && v.FPlusOne() <= Power(v, signers) < v.quorum
            && q * signers != {}
  {
    RunStep(v, ins, k);
    TimeoutOutcome(v, Run(v, ins[..k]), ins[k]);
    var signers := TcSigners(Run(v, ins[..k + 1]));
    PowerInclusionExclusion(v, q, signers);
    PowerBounded(v, q + signers);
    assert Power(v, {}) == 0;
  }

  // ----- Order independence -----

  ghost function VoteSet(ins: seq<Input>): set<Vote> {
    set i | 0 <= i < |ins| :: ins[i].vote
  }

  ghost function VotersOf(votes: set<Vote>, d: Digest): set<Author> {
    set x | x in votes && x.digest == d :: x.author
  }

  ghost function TimeoutVoters(votes: set<Vote>): set<Author> {
    set x | x in votes && x.IsTimeout() :: x.author
  }

  /** Known authors, nobody votes for two digests, and no digest has a quorum. */
  ghost predicate Undecided(v: Verifier, votes: set<Vote>) {
    && (forall x :: x in votes ==> x.author in v.powers)
    && (forall x, y :: x in votes && y in votes && x.author == y.author ==> x.digest == y.digest)
    && (forall d :: Power(v, VotersOf(votes, d)) < v.quorum)
  }

  lemma ChoseIffVoted(v: Verifier, ins: seq<Input>, a: Author, d: Digest)
    requires Undecided(v, VoteSet(ins))
    ensures Chose(ins, a, d) <==> a in VotersOf(VoteSet(ins), d)
  {
    var votes := VoteSet(ins);
    FirstVoteFacts(ins, a);
    if Chose(ins, a, d) {
      var i :| 0 <= i < |ins| && ins[i].vote == FirstVote(ins, a).value;
      assert ins[i].vote in votes;
    }
    if a in VotersOf(votes, d) {
      var x :| x in votes && x.digest == d && x.author == a;
      var i :| 0 <= i < |ins| && ins[i].vote == x;
      assert ins[i].vote.author == a;
      var j :| 0 <= j < |ins| && ins[j].vote == FirstVote(ins, a).value;
      assert ins[j].vote in votes;
    }
  }

  lemma StoredTimeoutIffVoted(v: Verifier, ins: seq<Input>, a: Author)
    requires Undecided(v, VoteSet(ins))
    ensures Stored(ins, a).Some? && Stored(ins, a).value.IsTimeout() <==> a in TimeoutVoters(VoteSet(ins))
  {
    var votes := VoteSet(ins);
    StoredFacts(ins, a);
    FirstVoteFacts(ins, a);
    if a in TimeoutVoters(votes) {
      var x :| x in votes && x.IsTimeout() && x.author == a;
      var i :| 0 <= i < |ins| && ins[i].vote == x;
      assert ins[i].vote.author == a;
      var j :| 0 <= j < |ins| && ins[j].vote == FirstVote(ins, a).value;
      assert ins[j].vote in votes;
      FirstTimeoutFacts(ins, a, x.digest);
    }
    if Stored(ins, a).Some? && Stored(ins, a).value.IsTimeout() {
      var d := FirstVote(ins, a).value.digest;
      FirstTimeoutFacts(ins, a, d);
      var i :| 0 <= i < |ins| && ins[i].vote.author == a && ins[i].vote.digest == d && ins[i].vote.IsTimeout();
      assert ins[i].vote in votes;
    }
  }

  /** While undecided, the signers per digest and of the timeout certificate are a closed form over
      the set of votes, and the echo has been sent exactly when their timeout power is in the window. */
  lemma {:induction false} UndecidedClosedForm(v: Verifier, ins: seq<Input>)
    requires v.Valid() && Undecided(v, VoteSet(ins))
    ensures forall d :: Signers(Run(v, ins), d) == VotersOf(VoteSet(ins), d)
    ensures TcSigners(Run(v, ins)) == TimeoutVoters(VoteSet(ins))
    ensures var tcPower := Power(v, TimeoutVoters(VoteSet(ins)));
            tcPower < v.quorum ==> (Run(v, ins).echoed <==> tcPower >= v.FPlusOne())
  {
    var s, votes := Run(v, ins), VoteSet(ins);
    RunInv(v, ins);
    RunMirrorsHistory(v, ins);
    EchoFlag(v, ins);
    forall d ensures Signers(s, d) == VotersOf(votes, d) {
      forall a ensures a in Signers(s, d) <==> a in VotersOf(votes, d) { ChoseIffVoted(v, ins, a, d); }
    }
    forall a ensures a in TcSigners(s) <==> a in TimeoutVoters(votes) {
      StoredTimeoutIffVoted(v, ins, a);
      if a in s.seen {
        var d := s.seen[a].digest;
        assert VotersOf(votes, d) <= v.powers.Keys;
        assert CheckSpec(v, Signers(s, d)).TooLittle?;
      }
    }
  }

  /** The same votes in any order, and with any repetition, leave the same signers behind. */
  lemma {:induction false} OrderIndependence(v: Verifier, ins: seq<Input>, ins': seq<Input>)
    requires v.Valid() && Undecided(v, VoteSet(ins)) && VoteSet(ins) == VoteSet(ins')
    ensures forall d :: Signers(Run(v, ins), d) == Signers(Run(v, ins'), d)
    ensures TcSigners(Run(v, ins)) == TcSigners(Run(v, ins'))
  {
    UndecidedClosedForm(v, ins);
    UndecidedClosedForm(v, ins');
  }
}
