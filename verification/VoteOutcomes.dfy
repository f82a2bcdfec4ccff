/** What each vote of a run is answered with, said in terms of the votes received: exactly when a certificate, an
    echo, a rejection or an error comes out, and with what in it. */
module VoteOutcomes {
  import opened Options
  import opened Validators
  import opened PendingVotes
  import opened VoteRuns

  // ----- The history, elementwise -----

  lemma {:induction false} FirstVoteIsFirst(ins: seq<Input>, a: Author, i: nat)
    requires i < |ins| && ins[i].vote.author == a
    requires forall j :: 0 <= j < i ==> ins[j].vote.author != a
    ensures FirstVote(ins, a) == Some(ins[i].vote)
  {
    var front := ins[..|ins| - 1];
    if i < |front| {
      FirstVoteIsFirst(front, a, i);
    } else {
      FirstVoteFacts(front, a);
      assert forall j :: 0 <= j < |front| ==> front[j] == ins[j];
    }
  }

  lemma {:induction false} FirstTimeoutIsFirst(ins: seq<Input>, a: Author, d: Digest, i: nat)
    requires i < |ins| && ins[i].vote.author == a && ins[i].vote.digest == d && ins[i].vote.IsTimeout()
    requires forall j :: 0 <= j < i ==>
               !(ins[j].vote.author == a && ins[j].vote.digest == d && ins[j].vote.IsTimeout())
    ensures FirstTimeout(ins, a, d) == Some(ins[i].vote)
  {
    var front := ins[..|ins| - 1];
    if i < |front| {
      FirstTimeoutIsFirst(front, a, d, i);
    } else {
      FirstTimeoutFacts(front, a, d);
      assert forall j :: 0 <= j < |front| ==> front[j] == ins[j];
    }
  }

  /** The authors whose first vote is for a digest. */
  ghost function Choosers(ins: seq<Input>, d: Digest): set<Author> {
    set i | 0 <= i < |ins| && Chose(ins, ins[i].vote.author, d) :: ins[i].vote.author
  }

  /** The author's first vote was for another digest. */
  ghost predicate Equivocates(ins: seq<Input>, vote: Vote) {
    FirstVote(ins, vote.author).Some? && FirstVote(ins, vote.author).value.digest != vote.digest
  }

  /** The author's first vote was for this digest, and this one is not its first timeout for it. */
  ghost predicate Repeats(ins: seq<Input>, vote: Vote) {
    && Chose(ins, vote.author, vote.digest)
    && (vote.IsTimeout() ==> FirstTimeout(ins, vote.author, vote.digest).Some?)
  }

  ghost predicate Admitted(ins: seq<Input>, vote: Vote) {
    !Equivocates(ins, vote) && !Repeats(ins, vote)
  }

  /** The k-th vote is admitted, and with it the choosers of its digest are known and below a quorum. */
  ghost predicate Short(v: Verifier, ins: seq<Input>, k: nat)
    requires k < |ins|
  {
    var choosers := Choosers(ins[..k + 1], ins[k].vote.digest);
    Admitted(ins[..k], ins[k].vote) && choosers <= v.powers.Keys && Power(v, choosers) < v.quorum
  }

  /** Only timeouts that come in while their digest is short of a quorum count towards a timeout certificate. */
  ghost predicate Counted(v: Verifier, ins: seq<Input>, k: nat)
    requires k < |ins|
  {
    ins[k].vote.IsTimeout() && Short(v, ins, k)
  }

  ghost function TimedOut(v: Verifier, ins: seq<Input>): set<Author> {
    set k | 0 <= k < |ins| && Counted(v, ins, k) :: ins[k].vote.author
  }

  /** The k-th vote is a timeout that counts, and brings timeout power into the echo window. */
  ghost predicate InEchoWindow(v: Verifier, ins: seq<Input>, k: nat)
    requires k < |ins|
  {
    Counted(v, ins, k) && v.total - v.quorum + 1 <= Power(v, TimedOut(v, ins[..k + 1])) < v.quorum
  }

  // ----- The state follows the history -----

  lemma SignersAreChoosers(s: State, ins: seq<Input>, d: Digest)
    requires Mirrors(s, ins)
    ensures Signers(s, d) == Choosers(ins, d)
  {
    hide Signers, FirstVote, FirstTimeout, Stored;
    forall a ensures a in Signers(s, d) <==> a in Choosers(ins, d) {
      FirstVoteFacts(ins, a);
    }
  }

  lemma RejectionFollows(s: State, ins: seq<Input>, vote: Vote)
    requires Mirrors(s, ins)
    ensures Rejection(s, vote) == Some(EquivocateVote) <==> Equivocates(ins, vote)
    ensures Rejection(s, vote) == Some(DuplicateVote) <==> Repeats(ins, vote)
    ensures Rejection(s, vote).None? <==> Admitted(ins, vote)
  {
    hide FirstVote, FirstTimeout, Stored, Signers;
    StoredFacts(ins, vote.author);
  }

  lemma CountedPrefix(v: Verifier, ins: seq<Input>, n: nat, k: nat)
    requires k < n <= |ins|
    ensures Counted(v, ins[..n], k) == Counted(v, ins, k)
    ensures InEchoWindow(v, ins[..n], k) == InEchoWindow(v, ins, k)
  {
    assert ins[..n][..k] == ins[..k] && ins[..n][..k + 1] == ins[..k + 1];
  }

  lemma TimedOutGrows(v: Verifier, ins: seq<Input>, k: nat)
    requires k < |ins|
    ensures TimedOut(v, ins[..k + 1])
            == TimedOut(v, ins[..k]) + if Counted(v, ins, k) then {ins[k].vote.author} else {}
  {
    hide Counted;
    forall j: nat | j < k + 1
      ensures Counted(v, ins[..k + 1], j) == Counted(v, ins, j)
      ensures j < k ==> Counted(v, ins[..k], j) == Counted(v, ins, j)
    {
      CountedPrefix(v, ins, k + 1, j);
      if j < k { CountedPrefix(v, ins, k, j); }
    }
    var more, less := TimedOut(v, ins[..k + 1]), TimedOut(v, ins[..k]);
    forall a ensures a in more <==> a in less || (Counted(v, ins, k) && a == ins[k].vote.author) {
      if a in more {
        var j :| 0 <= j < k + 1 && Counted(v, ins[..k + 1], j) && ins[..k + 1][j].vote.author == a;
        if j < k { assert Counted(v, ins[..k], j) && ins[..k][j].vote.author == a; }
      }
      if a in less {
        var j :| 0 <= j < k && Counted(v, ins[..k], j) && ins[..k][j].vote.author == a;
        assert Counted(v, ins[..k + 1], j) && ins[..k + 1][j].vote.author == a;
      }
      if Counted(v, ins, k) { assert Counted(v, ins[..k + 1], k) && ins[..k + 1][k].vote == ins[k].vote; }
    }
  }

  ghost predicate ShortOf(v: Verifier, signers: set<Author>) {
    signers <= v.powers.Keys && Power(v, signers) < v.quorum
  }

  lemma StepSigners(v: Verifier, s: State, i: Input)
    requires v.Valid() && Rejection(s, i.vote).None?
    ensures Signers(Step(v, s, i).0, i.vote.digest) == Record(s, i.vote).votes[i.vote.digest].Keys
  {
    hide Step, AddSignature;
    StepRecords(v, s, i);
  }

  /** A vote whose digest is no longer short of a quorum. */
  lemma StepDecided(v: Verifier, s: State, i: Input, signers: set<Author>)
    requires v.Valid() && Rejection(s, i.vote).None? && signers == Record(s, i.vote).votes[i.vote.digest].Keys
    requires !ShortOf(v, signers)
    ensures var (s', r) := Step(v, s, i);
            && s'.tc == s.tc && s'.echoed == s.echoed
            && r == if !(signers <= v.powers.Keys) then ErrorAddingVote
                    else if i.sigsAggregate then NewQuorumCertificate(QuorumCert(i.vote.digest, signers))
                    else ErrorAggregatingSignature
  {
    hide AddSignature, Power, AddTimeout;
  }

  /** A vote whose digest is short of a quorum, without a timeout. */
  lemma StepShort(v: Verifier, s: State, i: Input, signers: set<Author>)
    requires v.Valid() && Rejection(s, i.vote).None? && signers == Record(s, i.vote).votes[i.vote.digest].Keys
    requires ShortOf(v, signers) && !i.vote.IsTimeout()
    ensures var (s', r) := Step(v, s, i);
            s'.tc == s.tc && s'.echoed == s.echoed && r == VoteAdded(Power(v, signers))
  {
    hide AddSignature, Power, AddTimeout;
  }

  /** A timeout whose digest is short of a quorum. */
  lemma StepCounted(v: Verifier, s: State, i: Input, signers: set<Author>, timers: set<Author>)
    requires v.Valid() && Rejection(s, i.vote).None? && signers == Record(s, i.vote).votes[i.vote.digest].Keys
    requires ShortOf(v, signers) && i.vote.IsTimeout() && timers == TcSigners(s) + {i.vote.author}
    requires timers <= v.powers.Keys
    ensures var (s', r) := Step(v, s, i);
            var power := Power(v, timers);
            && TcSigners(s') == timers
            && s'.echoed == (s.echoed || r.EchoTimeout?)
            && (power >= v.quorum && i.timeoutsAggregate ==>
                  r.New2ChainTimeoutCertificate? && r.tc.rounds.Keys == timers)
            && (power >= v.quorum && !i.timeoutsAggregate ==> r.ErrorAggregatingTimeoutCertificate?)
            && (power < v.quorum ==>
                  r == if !s.echoed && power >= v.total - v.quorum + 1 then EchoTimeout(power)
                       else VoteAdded(Power(v, signers)))
  {
    hide AddSignature, Power;
    assert AddTimeout(s.tc, i.vote.author, i.vote.timeout.value).rounds.Keys == timers;
    hide AddTimeout;
  }

  lemma HistoryAt(v: Verifier, ins: seq<Input>, k: nat)
    requires v.Valid() && k < |ins|
    ensures var (s', r) := Step(v, Run(v, ins[..k]), ins[k]);
            && Mirrors(Run(v, ins[..k]), ins[..k]) && Inv(v, Run(v, ins[..k]))
            && s' == Run(v, ins[..k + 1]) && r == ResultAt(v, ins, k)
            && Signers(s', ins[k].vote.digest) == Choosers(ins[..k + 1], ins[k].vote.digest)
  {
    hide Step, Mirrors, Inv, Signers, Choosers;
    RunStep(v, ins, k);
    RunMirrorsHistory(v, ins[..k]);
    RunMirrorsHistory(v, ins[..k + 1]);
    RunInv(v, ins[..k]);
    SignersAreChoosers(Run(v, ins[..k + 1]), ins[..k + 1], ins[k].vote.digest);
  }

  /** In a consistent state, everything about the k-th step that the answers depend on. */
  lemma StepAt(v: Verifier, ins: seq<Input>, k: nat)
    requires v.Valid() && k < |ins| && Admitted(ins[..k], ins[k].vote)
    requires TcSigners(Run(v, ins[..k])) == TimedOut(v, ins[..k])
    ensures var (s, s', r) := (Run(v, ins[..k]), Run(v, ins[..k + 1]), ResultAt(v, ins, k));
            Answered(v, ins, k, s, s', r)
  {
    hide Mirrors, Signers, Choosers, Power, Equivocates, Repeats, AddSignature;
    var s, i := Run(v, ins[..k]), ins[k];
    HistoryAt(v, ins, k);
    RejectionFollows(s, ins[..k], i.vote);
    StepSigners(v, s, i);
    TimedOutGrows(v, ins, k);
    var signers := Choosers(ins[..k + 1], i.vote.digest);
    if !ShortOf(v, signers) {
      StepDecided(v, s, i, signers);
    } else if !i.vote.IsTimeout() {
      StepShort(v, s, i, signers);
    } else {
      TimersKnown(v, s, i);
      StepCounted(v, s, i, signers, TcSigners(s) + {i.vote.author});
    }
    hide Step, Run, TimedOut, Inv, Record;
  }

  /** What an admitted vote does to the timeout signers and the flag, and what it is answered with. */
  ghost predicate Answered(v: Verifier, ins: seq<Input>, k: nat, s: State, s': State, r: VoteReceptionResult)
    requires v.Valid() && k < |ins|
  {
    var vote, choosers := ins[k].vote, Choosers(ins[..k + 1], ins[k].vote.digest);
    var timers := TimedOut(v, ins[..k + 1]);
    && TcSigners(s') == timers
    && if !ShortOf(v, choosers) then
         && s'.echoed == s.echoed
         && r == if !(choosers <= v.powers.Keys) then ErrorAddingVote
                 else if ins[k].sigsAggregate then NewQuorumCertificate(QuorumCert(vote.digest, choosers))
                 else ErrorAggregatingSignature
       else if !vote.IsTimeout() then s'.echoed == s.echoed && r == VoteAdded(Power(v, choosers))
       else if Power(v, timers) < v.quorum then
         && s'.echoed == (s.echoed || r.EchoTimeout?)
         && r == if !s.echoed && Power(v, timers) >= v.total - v.quorum + 1 then EchoTimeout(Power(v, timers))
                 else VoteAdded(Power(v, choosers))
       else
         && s'.echoed == s.echoed
         && if ins[k].timeoutsAggregate then r.New2ChainTimeoutCertificate? && r.tc.rounds.Keys == timers
            else r.ErrorAggregatingTimeoutCertificate?
  }

  lemma TimersKnown(v: Verifier, s: State, i: Input)
    requires v.Valid() && Inv(v, s) && Rejection(s, i.vote).None? && i.vote.IsTimeout()
    requires Record(s, i.vote).votes[i.vote.digest].Keys <= v.powers.Keys
    ensures TcSigners(s) + {i.vote.author} <= v.powers.Keys
  {
    hide EchoPending, Indexed, Power;
  }

  lemma RejectedStays(v: Verifier, ins: seq<Input>, k: nat)
    requires v.Valid() && k < |ins| && !Admitted(ins[..k], ins[k].vote)
    ensures Run(v, ins[..k + 1]) == Run(v, ins[..k])
    ensures ResultAt(v, ins, k) == if Equivocates(ins[..k], ins[k].vote) then EquivocateVote else DuplicateVote
  {
    hide Mirrors, Inv, Equivocates, Repeats, StepTimeout, CheckSpec, AddSignature, Choosers, Signers;
    HistoryAt(v, ins, k);
    RejectionFollows(Run(v, ins[..k]), ins[..k], ins[k].vote);
  }

  /** The timeout signers, and the echo flag, are given by the history. */
  lemma {:induction false} TimeoutsFollow(v: Verifier, ins: seq<Input>, n: nat)
    requires v.Valid() && n <= |ins|
    ensures TcSigners(Run(v, ins[..n])) == TimedOut(v, ins[..n])
    ensures Run(v, ins[..n]).echoed <==> exists k :: 0 <= k < n && InEchoWindow(v, ins, k)
  {
    hide InEchoWindow, Step, Counted;
    if n > 0 {
      TimeoutsFollow(v, ins, n - 1);
      TimeoutsStep(v, ins, n - 1);
      ExistsStep(v, ins, n - 1);
      hide Run, TimedOut;
    }
  }

  lemma ExistsStep(v: Verifier, ins: seq<Input>, k: nat)
    requires k < |ins|
    ensures (exists j :: 0 <= j < k + 1 && InEchoWindow(v, ins, j))
            <==> (exists j :: 0 <= j < k && InEchoWindow(v, ins, j)) || InEchoWindow(v, ins, k)
  {
    hide InEchoWindow;
  }

  lemma TimeoutsStep(v: Verifier, ins: seq<Input>, k: nat)
    requires v.Valid() && k < |ins| && TcSigners(Run(v, ins[..k])) == TimedOut(v, ins[..k])
    ensures TcSigners(Run(v, ins[..k + 1])) == TimedOut(v, ins[..k + 1])
    ensures Run(v, ins[..k + 1]).echoed <==> Run(v, ins[..k]).echoed || InEchoWindow(v, ins, k)
  {
    hide Run, TcSigners, TimedOut, Choosers, Equivocates, Repeats, Power, ResultAt;
    TimedOutGrows(v, ins, k);
    if Admitted(ins[..k], ins[k].vote) { StepAt(v, ins, k); } else { RejectedStays(v, ins, k); }
  }

  // ----- The answers -----

  /** Votes are turned away exactly for what their author sent before. */
  lemma TurnedAwayIff(v: Verifier, ins: seq<Input>, k: nat)
    requires v.Valid() && k < |ins|
    ensures ResultAt(v, ins, k).EquivocateVote? <==> Equivocates(ins[..k], ins[k].vote)
    ensures ResultAt(v, ins, k).DuplicateVote? <==> Repeats(ins[..k], ins[k].vote)
  {
    hide Run, TcSigners, TimedOut, Choosers, FirstVote, FirstTimeout, Power, ResultAt;
    TimeoutsFollow(v, ins, k);
    if Admitted(ins[..k], ins[k].vote) { StepAt(v, ins, k); } else { RejectedStays(v, ins, k); }
  }

  /** A quorum certificate comes out exactly if the vote is admitted, the authors whose first vote is for its digest
      are known and have a quorum, and their signatures aggregate; it carries these authors. If only the last of
      these fails, that is the error; and an unknown author among them is the other error. */
  lemma QuorumCertificateIff(v: Verifier, ins: seq<Input>, k: nat)
    requires v.Valid() && k < |ins|
    ensures var r, vote := ResultAt(v, ins, k), ins[k].vote;
            var choosers := Choosers(ins[..k + 1], vote.digest);
            var quorum := Admitted(ins[..k], vote) && choosers <= v.powers.Keys && Power(v, choosers) >= v.quorum;
            && (r.NewQuorumCertificate? <==> quorum && ins[k].sigsAggregate)
            && (r.NewQuorumCertificate? ==> r.qc == QuorumCert(vote.digest, choosers))
            && (r.ErrorAggregatingSignature? <==> quorum && !ins[k].sigsAggregate)
            && (r.ErrorAddingVote? <==> Admitted(ins[..k], vote) && !(choosers <= v.powers.Keys))
  {
    hide Run, TcSigners, TimedOut, Choosers, Equivocates, Repeats, Power, ResultAt;
    TimeoutsFollow(v, ins, k);
    if Admitted(ins[..k], ins[k].vote) { StepAt(v, ins, k); } else { RejectedStays(v, ins, k); }
  }

  /** A timeout certificate comes out exactly if the vote is a timeout that counts, the timeouts counted so far have
      a quorum, and they aggregate; it carries their authors. An echo goes out exactly with the first timeout that
      brings the power of those counted from `total - quorum + 1` up to below the quorum. */
  lemma TimeoutCertificateIff(v: Verifier, ins: seq<Input>, k: nat)
    requires v.Valid() && k < |ins|
    ensures var r, timers := ResultAt(v, ins, k), TimedOut(v, ins[..k + 1]);
            var quorum := Counted(v, ins, k) && Power(v, timers) >= v.quorum;
            && (r.New2ChainTimeoutCertificate? <==> quorum && ins[k].timeoutsAggregate)
            && (r.New2ChainTimeoutCertificate? ==> r.tc.rounds.Keys == timers)
            && (r.ErrorAggregatingTimeoutCertificate? <==> quorum && !ins[k].timeoutsAggregate)
            && (r.EchoTimeout? <==>
                  InEchoWindow(v, ins, k) && forall j :: 0 <= j < k ==> !InEchoWindow(v, ins, j))
            && (r.EchoTimeout? ==> r.power == Power(v, timers))
  {
    hide Run, TcSigners, TimedOut, Choosers, Equivocates, Repeats, Power, ResultAt;
    TimeoutsFollow(v, ins, k);
    if Admitted(ins[..k], ins[k].vote) { StepAt(v, ins, k); } else { RejectedStays(v, ins, k); }
  }

  /** In all other cases of an admitted vote it is added, with the power of its digest's choosers. */
  lemma AddedIff(v: Verifier, ins: seq<Input>, k: nat)
    requires v.Valid() && k < |ins|
    ensures var r, timers := ResultAt(v, ins, k), TimedOut(v, ins[..k + 1]);
            && (r.VoteAdded? <==>
                  && Short(v, ins, k)
                  && (Counted(v, ins, k) ==> Power(v, timers) < v.quorum && !r.EchoTimeout?))
            && (r.VoteAdded? ==> r.power == Power(v, Choosers(ins[..k + 1], ins[k].vote.digest)))
  {
    hide Run, TcSigners, TimedOut, Choosers, Equivocates, Repeats, Power, ResultAt;
    TimeoutsFollow(v, ins, k);
    if Admitted(ins[..k], ins[k].vote) { StepAt(v, ins, k); } else { RejectedStays(v, ins, k); }
  }
}
