/** What the answers of a round state mean, in terms of the messages it holds. */
module RoundMeaning {
  import opened Prelude
  import opened Validators
  import opened RoundState
  import opened RoundInvariant

  /** A proposal of the current round that the lock allows: nothing locked, the locked value, or
      a value re-proposed from a round at or after the lock. */
  ghost predicate Votable(s: State, p: Proposal, x: Hash32) {
    && p in s.proposals && p.round == s.round && p.blockHash == x
    && (s.lockedValue.None? || s.lockedValue == Some(x)
        || (s.lockedRound.Some? && p.validRound.Some? && p.validRound.value >= s.lockedRound.value))
  }

  lemma {:induction false} TheRoundsProposal(e: Engine, s: State, p: Proposal)
    requires TotalPower(e.validators) > 0 && ValidProposals(e, s) && p in s.proposals
    ensures FindProposal(s.proposals, p.round) == Some(p)
  {
    var found := FindProposal(s.proposals, p.round);
    assert found.Some?;
    var i :| 0 <= i < |s.proposals| && s.proposals[i] == p;
    var j :| 0 <= j < |s.proposals| && s.proposals[j] == found.value;
  }

  /** A live state prevotes x exactly when the current round's proposal is for x and the lock
      allows it, and nil otherwise. */
  lemma {:induction false} PrevoteValueExact(e: Engine, s: State, x: Hash32)
    requires Inv(e, s) && s.decision.None?
    ensures PrevoteValue(e, s) == Ok(Some(x)) <==> exists p :: Votable(s, p, x)
    ensures PrevoteValue(e, s).Ok?
  {
    PrevoteValueTotal(e, s);
    var found := FindProposal(s.proposals, s.round);
    if found.Some? {
      var p := found.value;
      assert ValidProposal(e, s, p);
      if p.validRound.Some? {
        VotePowerExact(e, s.votes, s.height, p.validRound.value, Prevote, Some(p.blockHash));
      }
      assert PrevoteValue(e, s) == Ok(Some(x)) <==> Votable(s, p, x);
      forall q | Votable(s, q, x)
        ensures q == p
      {
        TheRoundsProposal(e, s, q);
      }
    }
  }

  /** A proposal is accepted exactly when it is timely, verifies, contradicts no other and, if it
      is new and claims an earlier round, that round's prevote quorum is held. */
  lemma {:induction false} ProposalAcceptedExactly(e: Engine, s: State, p: Proposal)
    requires Inv(e, s)
    ensures ReceiveProposal(e, s, p).1.Ok? <==>
      && s.decision.None? && p.height == s.height && p.round == s.round && VerifyProposal(e, p).Ok?
      && (forall q :: q in s.proposals && q.round == p.round ==> q == p)
      && (p in s.proposals || p.validRound.None? || HasQuorum(e, s, p.validRound.value, Prevote, Some(p.blockHash)))
    ensures ReceiveProposal(e, s, p).0 ==
      if ReceiveProposal(e, s, p).1.Ok? && p !in s.proposals then s.(proposals := s.proposals + [p]) else s
  {
    if p.validRound.Some? {
      VotePowerExact(e, s.votes, s.height, p.validRound.value, Prevote, Some(p.blockHash));
    }
    var found := FindProposal(s.proposals, p.round);
    if found.Some? {
      forall q | q in s.proposals && q.round == p.round
        ensures q == found.value
      {
        TheRoundsProposal(e, s, q);
      }
    }
  }

  /** A vote is accepted exactly when it is timely, verifies and contradicts no other vote of the
      same validator, round and step; it is then held, once. */
  lemma {:induction false} VoteAcceptedExactly(e: Engine, s: State, v: Vote)
    requires Inv(e, s)
    ensures ReceiveVote(e, s, v).1.Ok? <==>
      && s.decision.None? && v.height == s.height && v.round <= s.round && VerifyVote(e, v).Ok?
      && (forall w :: w in s.votes && SameSlot(w, v.round, v.step, v.validatorId) ==> w == v)
    ensures ReceiveVote(e, s, v).0.votes ==
      if ReceiveVote(e, s, v).1.Ok? && v !in s.votes then s.votes + [v] else s.votes
  {
    var found := FindVote(s.votes, v.round, v.step, v.validatorId);
    if found.Some? {
      forall w | w in s.votes && SameSlot(w, v.round, v.step, v.validatorId)
        ensures w == found.value
      {
        SameSlotSameVote(s.votes, w, found.value);
      }
    } else if s.decision.None? && v.height == s.height && v.round <= s.round && VerifyVote(e, v).Ok? {
      PushedVoteCounts(e, s, v);
    }
  }

  lemma {:induction false} PushedVoteCounts(e: Engine, s: State, v: Vote)
    requires Inv(e, s) && s.decision.None? && v.height == s.height && v.round <= s.round && VerifyVote(e, v).Ok?
    requires FindVote(s.votes, v.round, v.step, v.validatorId).None?
    ensures var (s', r) := CountVote(e, s.(votes := s.votes + [v]), v); r.Ok? && s'.votes == s.votes + [v]
  {
    PushedVoteValid(e, s, v);
    CountVoteInv(e, s.(votes := s.votes + [v]), v);
  }

  // ------------------------------------------------------------- no missed decision

  /** Some block has a precommit quorum among the held votes. */
  ghost predicate QuorumHeld(e: Engine, s: State) {
    exists round: nat, x: Hash32 :: HasQuorum(e, s, round, Precommit, Some(x))
  }

  ghost predicate DecidedExactly(e: Engine, s: State) {
    s.decision.Some? <==> QuorumHeld(e, s)
  }

  /** One more vote can complete only its own quorum. */
  lemma {:induction false} OnlyItsOwnQuorum(e: Engine, s: State, v: Vote, round: nat, step: Step, value: Option<Hash32>)
    requires !Matches(v, s.height, round, step, value)
    ensures HasQuorum(e, s.(votes := s.votes + [v]), round, step, value) <==> HasQuorum(e, s, round, step, value)
  {
    assert Signers(s.votes + [v], s.height, round, step, value) == Signers(s.votes, s.height, round, step, value);
  }

  lemma {:induction false} CountedVoteDecides(e: Engine, s: State, v: Vote)
    requires Inv(e, s) && s.decision.None? && !QuorumHeld(e, s) && v.height == s.height && v.round <= s.round
    requires VerifyVote(e, v).Ok? && FindVote(s.votes, v.round, v.step, v.validatorId).None?
    ensures DecidedExactly(e, CountVote(e, s.(votes := s.votes + [v]), v).0)
  {
    var t := s.(votes := s.votes + [v]);
    PushedVoteValid(e, s, v);
    VotePowerExact(e, t.votes, t.height, v.round, v.step, v.value);
    var s' := CountVote(e, t, v).0;
    forall round: nat, x: Hash32 | HasQuorum(e, s', round, Precommit, Some(x))
      ensures Matches(v, s.height, round, Precommit, Some(x))
    {
      if !Matches(v, s.height, round, Precommit, Some(x)) {
        OnlyItsOwnQuorum(e, s, v, round, Precommit, Some(x));
      }
    }
    if s'.decision.Some? {
      assert HasQuorum(e, s', v.round, Precommit, Some(v.value.value));
    }
  }

  lemma {:induction false} StepDecides(e: Engine, s: State, op: Op)
    requires Inv(e, s) && DecidedExactly(e, s)
    ensures DecidedExactly(e, Apply(e, s, op))
  {
    var s' := Apply(e, s, op);
    if op.OnVote? && s.decision.None? {
      var v := op.v;
      if v.height == s.height && v.round <= s.round && VerifyVote(e, v).Ok?
         && FindVote(s.votes, v.round, v.step, v.validatorId).None? {
        CountedVoteDecides(e, s, v);
      }
    } else {
      assert s'.votes == s.votes && s'.height == s.height && s'.decision == s.decision;
      assert forall round: nat, x: Hash32 :: HasQuorum(e, s', round, Precommit, Some(x)) <==> HasQuorum(e, s, round, Precommit, Some(x));
    }
  }

  /** From a fresh round state, after any operations, the height is decided exactly when some
      block has a precommit quorum among the votes held: no decision is missed or premature. */
  lemma {:induction false} DecisionNeverMissed(e: Engine, height: nat, ops: seq<Op>)
    requires ValidEngine(e) && NewRoundState(e, height).Ok?
    ensures DecidedExactly(e, Run(e, NewRoundState(e, height).value, ops))
  {
    var s := NewRoundState(e, height).value;
    NewRoundStateInv(e, height);
    forall round: nat, x: Hash32
      ensures !HasQuorum(e, s, round, Precommit, Some(x))
    {
      assert Signers(s.votes, s.height, round, Precommit, Some(x)) == {};
      EmptyPower(e.validators);
    }
    RunDecides(e, s, ops);
  }

  lemma {:induction false} RunDecides(e: Engine, s: State, ops: seq<Op>)
    requires Inv(e, s) && DecidedExactly(e, s)
    ensures DecidedExactly(e, Run(e, s, ops))
    decreases |ops|
  {
    if ops != [] {
      StepDecides(e, s, ops[0]);
      ApplyInv(e, s, ops[0]);
      RunDecides(e, Apply(e, s, ops[0]), ops[1..]);
    }
  }

  // ---------------------------------------------------------- signatures and effects

  /** Some configured validator of that id made the signature over exactly that content. */
  ghost predicate SignedBy(e: Engine, id: ValidatorId, content: Digest, signature: Signature) {
    exists v :: v in e.validators && v.id == id && signature.Schnorr? && signature.key == v.publicKey && signature.digest == content
  }

  lemma {:induction false} FoundIsTheOne(e: Engine, v: Validator)
    requires Sorted(e.validators) && v in e.validators
    ensures Find(e.validators, v.id) == Some(v)
  {
    var found := Find(e.validators, v.id);
    var i :| 0 <= i < |e.validators| && e.validators[i] == v;
    var j :| 0 <= j < |e.validators| && e.validators[j] == found.value;
    SortedIdsDistinct(e.validators, i, j);
  }

  /** A vote verifies exactly when the validator it names signed its height, round, step and value. */
  lemma {:induction false} VoteVerifiesExactly(e: Engine, v: Vote)
    requires ValidEngine(e)
    ensures VerifyVote(e, v).Ok? <==>
      SignedBy(e, v.validatorId, VoteDigest(v.height, v.round, v.step, v.value, v.validatorId), v.signature)
  {
    forall w | w in e.validators && w.id == v.validatorId
      ensures Find(e.validators, v.validatorId) == Some(w)
    {
      FoundIsTheOne(e, w);
    }
  }

  /** A proposal verifies exactly when it comes from the proposer of its height and round, claims
      only an earlier round, and that validator signed all of it. */
  lemma {:induction false} ProposalVerifiesExactly(e: Engine, p: Proposal)
    requires ValidEngine(e)
    ensures VerifyProposal(e, p).Ok? <==>
      && ProposerId(e, p.height, p.round) == Ok(p.proposerId)
      && (p.validRound.Some? ==> p.validRound.value < p.round)
      && SignedBy(e, p.proposerId, ProposalDigest(p.height, p.round, p.blockHash, p.validRound, p.proposerId), p.signature)
  {
    forall w | w in e.validators && w.id == p.proposerId
      ensures Find(e.validators, p.proposerId) == Some(w)
    {
      FoundIsTheOne(e, w);
    }
  }

  /** What a newly accepted vote brings about: nothing but itself below a quorum; the valid value
      on a prevote quorum for a block; a decision carrying every matching precommit on a precommit
      quorum for a block. */
  lemma {:induction false} VoteEffects(e: Engine, s: State, v: Vote)
    requires Inv(e, s) && ReceiveVote(e, s, v).1.Ok? && v !in s.votes
    ensures var t := s.(votes := s.votes + [v]);
      var (s', r) := ReceiveVote(e, s, v);
      if !HasQuorum(e, t, v.round, v.step, v.value) then s' == t && r == Ok(VoteAccepted)
      else if v.step.Prevote? then
        && r == Ok(PrevoteQuorum(v.value))
        && s' == if v.value.Some? then t.(validValue := v.value, validRound := Some(v.round)) else t
      else if v.value.None? then s' == t && r == Ok(PrecommitQuorumNil)
      else
        && s'.decision.Some? && r == Ok(Decided(s'.decision.value)) && s' == t.(decision := s'.decision)
        && var d := s'.decision.value;
           && d.height == s.height && d.round == v.round && d.blockHash == v.value.value
           && forall w :: w in d.precommits <==> w in t.votes && Matches(w, s.height, v.round, Precommit, v.value)
  {
    VoteAcceptedExactly(e, s, v);
    var t := s.(votes := s.votes + [v]);
    assert ReceiveVote(e, s, v) == CountVote(e, t, v) by {
      assert FindVote(s.votes, v.round, v.step, v.validatorId).None?;
    }
    assert VotePower(e, t.votes, t.height, v.round, v.step, v.value) == Ok(Power(e.validators, Signers(t.votes, t.height, v.round, v.step, v.value))) by {
      PushedVoteValid(e, s, v);
      VotePowerExact(e, s.votes + [v], s.height, v.round, v.step, v.value);
    }
  }

  /** What a lock is for: once a state has answered a precommit on x, whatever it is fed afterwards,
      it prevotes another block only when a strictly later round shows a prevote quorum for it. */
  lemma {:induction false} LockHolds(e: Engine, s: State, ops: seq<Op>, x: Hash32, y: Hash32)
    requires Inv(e, s) && s.decision.None? && PrecommitValue(e, s).1 == Ok(Some(x)) && y != x
    requires PrevoteValue(e, Run(e, PrecommitValue(e, s).0, ops)) == Ok(Some(y))
    ensures exists round: nat :: s.round < round && HasQuorum(e, Run(e, PrecommitValue(e, s).0, ops), round, Prevote, Some(y))
  {
    var locked := PrecommitValue(e, s).0;
    var later := Run(e, locked, ops);
    PrecommitValueInv(e, s);
    PrecommitValueExact(e, s, Some(x));
    RunInv(e, locked, ops);
    QuorumGrows(e, s, later, s.round, Prevote, Some(x));
    var round := SupportForAnother(e, later, y);
    if round == s.round { QuorumUnique(e, later, round, Prevote, Some(x), Some(y)); }
  }

  /** A locked state prevotes y on the strength of a quorum for y no older than its lock. */
  lemma {:induction false} SupportForAnother(e: Engine, s: State, y: Hash32) returns (round: nat)
    requires Inv(e, s) && s.lockedRound.Some? && PrevoteValue(e, s) == Ok(Some(y))
    ensures s.lockedRound.value <= round && HasQuorum(e, s, round, Prevote, Some(y))
  {
    PrevoteValueExact(e, s, y);
    var p :| Votable(s, p, y);
    round := if s.lockedValue == Some(y) then s.lockedRound.value else p.validRound.value;
    assert ValidProposal(e, s, p);
  }
}
