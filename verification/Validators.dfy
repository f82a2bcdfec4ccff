/** The validator set of an epoch as vote collection sees it: who is known, with what
    voting power, and how much of it makes a quorum. */
module Validators {

  type Author = nat

  datatype PowerCheck =
    | Reached
    | TooLittle(power: nat)
    | UnknownAuthor

  datatype Verifier = Verifier(powers: map<Author, nat>, total: nat, quorum: nat) {

    /** Voting power of an author; an author outside the set has none. */
    function PowerAt(a: Author): nat {
      if a in powers then powers[a] else 0
    }

    /** Every constructor sums up the powers once and stores the total. */
    ghost predicate Summed() {
      total == Power(this, powers.Keys)
    }

    /** The second conjunct is what `new_with_quorum_voting_power` checks, and what keeps
        `total - quorum + 1` from underflowing. */
    ghost predicate Valid() {
      Summed() && quorum <= total
    }

    /** The smallest power that every quorum must meet. */
    function FPlusOne(): nat
      requires quorum <= total
    {
      total - quorum + 1
    }
  }

  /** Joint power of a set of authors. */
  ghost function Power(v: Verifier, s: set<Author>): nat {
    if s == {} then 0 else
    var a :| a in s;
    v.PowerAt(a) + Power(v, s - {a})
  }

  ghost function CheckSpec(v: Verifier, s: set<Author>): PowerCheck {
    if !(s <= v.powers.Keys) then UnknownAuthor
    else if Power(v, s) < v.quorum then TooLittle(Power(v, s))
    else Reached
  }

  lemma {:induction false} PowerSplit(v: Verifier, s: set<Author>, a: Author)
    requires a in s
    ensures Power(v, s) == v.PowerAt(a) + Power(v, s - {a})
    decreases s
  {
    var b :| b in s && Power(v, s) == v.PowerAt(b) + Power(v, s - {b});
    if b != a {
      PowerSplit(v, s - {b}, a);
      PowerSplit(v, s - {a}, b);
      assert s - {a} - {b} == s - {b} - {a};
    }
  }

  lemma {:induction false} PowerAdd(v: Verifier, s: set<Author>, a: Author)
    requires a !in s
    ensures Power(v, s + {a}) == Power(v, s) + v.PowerAt(a)
  {
    PowerSplit(v, s + {a}, a);
    assert s + {a} - {a} == s;
  }

  /** Inclusion and exclusion for voting power. */
  lemma {:induction false} PowerInclusionExclusion(v: Verifier, s: set<Author>, t: set<Author>)
    ensures Power(v, s) + Power(v, t) == Power(v, s + t) + Power(v, s * t)
    decreases s
  {
    if s == {} {
      assert s + t == t && s * t == {};
    } else {
      var a :| a in s;
      var s' := s - {a};
      PowerInclusionExclusion(v, s', t);
      PowerSplit(v, s, a);
      if a in t {
        assert s' + t == s + t;
        assert s * t == s' * t + {a};
        PowerAdd(v, s' * t, a);
      } else {
        assert s + t == s' + t + {a};
        assert s * t == s' * t;
        PowerAdd(v, s' + t, a);
      }
    }
  }

  lemma {:induction false} PowerMonotone(v: Verifier, s: set<Author>, t: set<Author>)
    requires s <= t
    ensures Power(v, s) <= Power(v, t)
  {
    PowerInclusionExclusion(v, s, t - s);
    assert s + (t - s) == t && s * (t - s) == {};
  }

  /** Authors outside the validator set add nothing, so no set of authors outweighs the total. */
  lemma {:induction false} PowerBounded(v: Verifier, s: set<Author>)
    requires v.Summed()
    ensures Power(v, s) <= v.total
  {
    var known := s * v.powers.Keys;
    PowerInclusionExclusion(v, known, s - known);
    assert known + (s - known) == s && known * (s - known) == {};
    PowerOfUnknown(v, s - known);
    PowerMonotone(v, known, v.powers.Keys);
  }

  lemma {:induction false} PowerOfUnknown(v: Verifier, s: set<Author>)
    requires s !! v.powers.Keys
    ensures Power(v, s) == 0
    decreases s
  {
    if s != {} {
      var a :| a in s;
      PowerSplit(v, s, a);
      PowerOfUnknown(v, s - {a});
    }
  }

  /** Two quorums share at least `2 * quorum - total` of power. */
  lemma {:induction false} QuorumsIntersect(v: Verifier, s: set<Author>, t: set<Author>)
    requires v.Summed()
    requires Power(v, s) >= v.quorum && Power(v, t) >= v.quorum
    ensures Power(v, s * t) >= 2 * v.quorum - v.total
  {
    PowerInclusionExclusion(v, s, t);
    PowerBounded(v, s + t);
  }

  /** The default verifier takes two thirds of the power plus one as quorum. */
  ghost function NewVerifier(powers: map<Author, nat>): Verifier {
    var total := Power(Verifier(powers, 0, 0), powers.Keys);
    Verifier(powers, total, if powers == map[] then 0 else total * 2 / 3 + 1)
  }

  lemma {:induction false} PowerIgnoresThresholds(v: Verifier, w: Verifier, s: set<Author>)
    requires v.powers == w.powers
    ensures Power(v, s) == Power(w, s)
    decreases s
  {
    if s != {} {
      var a :| a in s;
      PowerSplit(v, s, a);
      PowerSplit(w, s, a);
      PowerIgnoresThresholds(v, w, s - {a});
    }
  }

  /** The default quorum is the least power above two thirds. It never exceeds the total unless validators exist but
      none has power, and with validators two default quorums share more than a third of all power. */
  lemma {:induction false} NewVerifierQuorum(powers: map<Author, nat>)
    ensures var v := NewVerifier(powers);
            && v.Summed()
            && (v.Valid() <==> powers == map[] || v.total > 0)
            && (powers == map[] ==> v.quorum == 0)
            && (powers != map[] ==> 3 * v.quorum > 2 * v.total && 3 * (v.quorum - 1) <= 2 * v.total)
            && (powers != map[] ==> 3 * (2 * v.quorum - v.total) > v.total)
  {
    PowerIgnoresThresholds(NewVerifier(powers), Verifier(powers, 0, 0), powers.Keys);
  }

  /** Adds up the power of the given authors, stopping at the first unknown one. */
  method CheckVotingPower(v: Verifier, authors: set<Author>) returns (r: PowerCheck)
    ensures r == CheckSpec(v, authors)
  {
    var rest, aggregated := authors, 0;
    while rest != {}
      invariant rest <= authors
      invariant authors - rest <= v.powers.Keys
      invariant Power(v, authors) == aggregated + Power(v, rest)
      decreases rest
    {
      var a :| a in rest;
      if a !in v.powers {
        return UnknownAuthor;
      }
      PowerSplit(v, rest, a);
      aggregated := aggregated + v.powers[a];
      rest := rest - {a};
    }
    return if aggregated < v.quorum then TooLittle(aggregated) else Reached;
  }
}
