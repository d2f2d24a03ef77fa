/** The valid value over whole runs, and what every refusal of a round state means. */
module RoundAnswers {
  import opened Prelude
  import opened Validators
  import opened RoundState
  import opened RoundInvariant
  import opened RoundMeaning
  import Proposer

  // -------------------------------------------------------------- the valid value

  /** Some block has a prevote quorum among the held votes. */
  ghost predicate PrevoteQuorumHeld(e: Engine, s: State) {
    exists round: nat, x: Hash32 :: HasQuorum(e, s, round, Prevote, Some(x))
  }

  /** A valid value is recorded exactly when some block has a prevote quorum, and under any lock. */
  ghost predicate ValidExactly(e: Engine, s: State) {
    (s.validValue.Some? <==> PrevoteQuorumHeld(e, s)) && (s.lockedValue.Some? ==> s.validValue.Some?)
  }

  lemma {:induction false} ValidIsHeld(e: Engine, s: State)
    requires Inv(e, s) && s.validValue.Some?
    ensures PrevoteQuorumHeld(e, s)
  {
    assert HasQuorum(e, s, s.validRound.value, Prevote, Some(s.validValue.value));
  }

  /** A vote that completes no prevote quorum of its own leaves none held. */
  lemma {:induction false} NoQuorumYet(e: Engine, s: State, v: Vote)
    requires !PrevoteQuorumHeld(e, s)
    requires v.step.Prevote? && v.value.Some? ==> !HasQuorum(e, s.(votes := s.votes + [v]), v.round, Prevote, v.value)
    ensures !PrevoteQuorumHeld(e, s.(votes := s.votes + [v]))
  {
    forall round: nat, x: Hash32
      ensures !HasQuorum(e, s.(votes := s.votes + [v]), round, Prevote, Some(x))
    {
      if !Matches(v, s.height, round, Prevote, Some(x)) { OnlyItsOwnQuorum(e, s, v, round, Prevote, Some(x)); }
    }
  }

  lemma {:induction false} SameVotesSameQuorums(e: Engine, s: State, s': State)
    requires s'.votes == s.votes && s'.height == s.height
    ensures PrevoteQuorumHeld(e, s') <==> PrevoteQuorumHeld(e, s)
  {
    assert forall round: nat, x: Hash32 :: HasQuorum(e, s', round, Prevote, Some(x)) <==> HasQuorum(e, s, round, Prevote, Some(x));
  }

  lemma {:induction false} CountedVoteValid(e: Engine, s: State, v: Vote)
    requires Inv(e, s) && s.decision.None? && ValidExactly(e, s) && v.height == s.height && v.round <= s.round
    requires VerifyVote(e, v).Ok? && FindVote(s.votes, v.round, v.step, v.validatorId).None?
    ensures ValidExactly(e, CountVote(e, s.(votes := s.votes + [v]), v).0)
  {
    var t := s.(votes := s.votes + [v]);
    var s' := CountVote(e, t, v).0;
    assert Inv(e, t) && Inv(e, s') by {
      PushedVoteValid(e, s, v);
      CountVoteInv(e, t, v);
    }
    if s'.validValue.Some? {
      ValidIsHeld(e, s');
    } else {
      VotePowerExact(e, t.votes, t.height, v.round, v.step, v.value);
      NoQuorumYet(e, s, v);
      SameVotesSameQuorums(e, t, s');
    }
  }

  lemma {:induction false} SameVotesValid(e: Engine, s: State, s': State)
    requires Inv(e, s) && Inv(e, s') && ValidExactly(e, s) && s'.votes == s.votes && s'.height == s.height
    requires s.validValue.Some? ==> s'.validValue.Some?
    requires s'.lockedValue.Some? ==> s'.validValue.Some?
    ensures ValidExactly(e, s')
  {
    if s'.validValue.Some? {
      ValidIsHeld(e, s');
    } else {
      SameVotesSameQuorums(e, s, s');
    }
  }

  lemma {:induction false} VoteStepValid(e: Engine, s: State, v: Vote)
    requires Inv(e, s) && ValidExactly(e, s)
    ensures ValidExactly(e, ReceiveVote(e, s, v).0)
  {
    if ReceiveVote(e, s, v).0 != s { CountedVoteValid(e, s, v); }
  }

  lemma {:induction false} PrecommitStepValid(e: Engine, s: State)
    requires Inv(e, s) && ValidExactly(e, s)
    ensures ValidExactly(e, PrecommitValue(e, s).0)
  {
    PrecommitValueInv(e, s);
    SameVotesValid(e, s, PrecommitValue(e, s).0);
  }

  lemma {:induction false} ProposalStepValid(e: Engine, s: State, p: Proposal)
    requires Inv(e, s) && ValidExactly(e, s)
    ensures ValidExactly(e, ReceiveProposal(e, s, p).0)
  {
    ReceiveProposalInv(e, s, p);
    SameVotesValid(e, s, ReceiveProposal(e, s, p).0);
  }

  lemma {:induction false} AdvanceStepValid(e: Engine, s: State)
    requires Inv(e, s) && ValidExactly(e, s)
    ensures ValidExactly(e, AdvanceRound(s).0)
  {
    AdvanceRoundInv(e, s);
    SameVotesValid(e, s, AdvanceRound(s).0);
  }

  lemma {:induction false} StepValid(e: Engine, s: State, op: Op)
    requires Inv(e, s) && ValidExactly(e, s)
    ensures ValidExactly(e, Apply(e, s, op))
  {
    match op
    case OnProposal(p) => ProposalStepValid(e, s, p);
    case OnVote(v) => VoteStepValid(e, s, v);
    case OnPrecommit => PrecommitStepValid(e, s);
    case OnAdvance => AdvanceStepValid(e, s);
  }

  lemma {:induction false} RunValid(e: Engine, s: State, ops: seq<Op>)
    requires Inv(e, s) && ValidExactly(e, s)
    ensures ValidExactly(e, Run(e, s, ops))
    decreases |ops|
  {
    if ops != [] {
      StepValid(e, s, ops[0]);
      ApplyInv(e, s, ops[0]);
      RunValid(e, Apply(e, s, ops[0]), ops[1..]);
    }
  }

  /** From a fresh round state, after any operations, a valid value is recorded exactly when some
      block has a prevote quorum among the votes held; the recorded one has its quorum at the
      recorded round, and a locked state always has one. */
  lemma {:induction false} ValidValueNeverMissed(e: Engine, height: nat, ops: seq<Op>)
    requires ValidEngine(e) && NewRoundState(e, height).Ok?
    ensures var s := Run(e, NewRoundState(e, height).value, ops);
      && (s.validValue.Some? <==> PrevoteQuorumHeld(e, s))
      && (s.validValue.Some? ==> s.validRound.Some? && HasQuorum(e, s, s.validRound.value, Prevote, s.validValue))
      && (s.lockedValue.Some? ==> s.validValue.Some?)
  {
    var s := NewRoundState(e, height).value;
    NewRoundStateInv(e, height);
    forall round: nat, x: Hash32
      ensures !HasQuorum(e, s, round, Prevote, Some(x))
    {
      assert Signers(s.votes, s.height, round, Prevote, Some(x)) == {};
      EmptyPower(e.validators);
    }
    RunValid(e, s, ops);
    RunInv(e, s, ops);
  }

  /** An operation moves the valid round back exactly when it is a new vote that completes a
      prevote quorum for a block of an older round. */
  lemma {:induction false} ValidRoundGoesBackExactly(e: Engine, s: State, op: Op)
    requires Inv(e, s) && s.validRound.Some?
    ensures var s' := Apply(e, s, op);
      && s'.validRound.Some?
      && (s'.validRound.value < s.validRound.value <==>
            && op.OnVote? && ReceiveVote(e, s, op.v).1.Ok? && op.v !in s.votes
            && op.v.step.Prevote? && op.v.value.Some? && op.v.round < s.validRound.value
            && HasQuorum(e, s.(votes := s.votes + [op.v]), op.v.round, Prevote, op.v.value))
  {
    if op.OnPrecommit? { PrecommitValueInv(e, s); }
    if op.OnVote? && ReceiveVote(e, s, op.v).1.Ok? {
      if op.v in s.votes {
        SameVoteAgain(e, s, op.v);
      } else {
        VoteEffects(e, s, op.v);
      }
    }
    if op.OnVote? && ReceiveVote(e, s, op.v).1.Err? { ReceiveVoteInv(e, s, op.v); }
  }

  lemma {:induction false} SameVoteAgain(e: Engine, s: State, v: Vote)
    requires v in s.votes
    ensures ReceiveVote(e, s, v).0 == s
  {
    assert FindVote(s.votes, v.round, v.step, v.validatorId).Some?;
  }

  function PrevoteOf(v: Validator, height: nat, round: nat, x: Hash32): Vote {
    Vote(height, round, Prevote, Some(x), v.id, Schnorr(v.publicKey, VoteDigest(height, round, Prevote, Some(x), v.id), 0))
  }

  lemma {:induction false} AloneIsQuorum(e: Engine, v: Validator, s: State, round: nat, x: Hash32)
    requires ValidEngine(e) && e.validators == [v] && e.quorumPower <= v.weight && PrevoteOf(v, s.height, round, x) in s.votes
    ensures HasQuorum(e, s, round, Prevote, Some(x))
  {
    var vote := PrevoteOf(v, s.height, round, x);
    assert Matches(vote, s.height, round, Prevote, Some(x));
    assert v.id in Signers(s.votes, s.height, round, Prevote, Some(x));
    assert e.validators[1..] == [];
  }

  /** A new prevote of the only validator makes its block the valid one. */
  lemma {:induction false} AloneMakesValid(e: Engine, v: Validator, s: State, round: nat, x: Hash32)
    requires Inv(e, s) && e.validators == [v] && e.quorumPower <= v.weight && s.decision.None? && round <= s.round
    requires forall w :: w in s.votes ==> w.round != round
    ensures var vote := PrevoteOf(v, s.height, round, x);
      Apply(e, s, OnVote(vote)) == s.(votes := s.votes + [vote], validValue := Some(x), validRound := Some(round))
  {
    var vote := PrevoteOf(v, s.height, round, x);
    assert VerifyVote(e, vote).Ok?;
    VoteAcceptedExactly(e, s, vote);
    VoteEffects(e, s, vote);
    AloneIsQuorum(e, v, s.(votes := s.votes + [vote]), round, x);
  }

  /** It does happen: with one validator, a prevote of round one and then a late one of round zero
      leave the block and the round of the late one. */
  lemma {:induction false} ValidRoundCanGoBack(e: Engine, v: Validator, height: nat, x: Hash32, y: Hash32)
    requires ValidEngine(e) && e.validators == [v] && NewRoundState(e, height).Ok?
    ensures var s := NewRoundState(e, height).value;
      var first := [OnAdvance, OnVote(PrevoteOf(v, height, 1, x))];
      && Run(e, s, first).validRound == Some(1) && Run(e, s, first).validValue == Some(x)
      && Run(e, s, first + [OnVote(PrevoteOf(v, height, 0, y))]).validRound == Some(0)
      && Run(e, s, first + [OnVote(PrevoteOf(v, height, 0, y))]).validValue == Some(y)
  {
    var s := NewRoundState(e, height).value;
    NewRoundStateInv(e, height);
    assert e.validators[1..] == [] && TotalPower(e.validators) == v.weight;
    var one := Apply(e, s, OnAdvance);
    ApplyInv(e, s, OnAdvance);
    var ahead, late := OnVote(PrevoteOf(v, height, 1, x)), OnVote(PrevoteOf(v, height, 0, y));
    AloneMakesValid(e, v, one, 1, x);
    var two := Apply(e, one, ahead);
    ApplyInv(e, one, ahead);
    AloneMakesValid(e, v, two, 0, y);
    ThreeOps(e, s, OnAdvance, ahead, late);
  }

  lemma {:induction false} ThreeOps(e: Engine, s: State, a: Op, b: Op, c: Op)
    requires TotalPower(e.validators) > 0
    ensures Run(e, s, [a, b]) == Apply(e, Apply(e, s, a), b)
    ensures Run(e, s, [a, b] + [c]) == Apply(e, Apply(e, Apply(e, s, a), b), c)
  {
    var one := Apply(e, s, a);
    var two := Apply(e, one, b);
    RunFirst(e, s, a, [b]);
    RunFirst(e, one, b, []);
    RunFirst(e, s, a, [b, c]);
    RunFirst(e, one, b, [c]);
    RunFirst(e, two, c, []);
    assert [a] + [b] == [a, b] && [b] + [] == [b] && [a] + [b, c] == [a, b] + [c] && [b] + [c] == [b, c] && [c] + [] == [c];
  }

  lemma {:induction false} RunFirst(e: Engine, s: State, a: Op, rest: seq<Op>)
    requires TotalPower(e.validators) > 0
    ensures Run(e, s, [a] + rest) == Run(e, Apply(e, s, a), rest)
  {
    assert ([a] + rest)[1..] == rest;
  }

  // --------------------------------------------------------------------- starting

  /** A fresh state is at round zero with nothing received, locked, valid or decided; the engines
      without one are those whose products leave 64 bits and those at or below two thirds. */
  lemma {:induction false} FreshExactly(e: Engine, height: nat)
    ensures NewRoundState(e, height).Ok? ==>
      NewRoundState(e, height).value == State(height, 0, None, None, None, None, [], [], None)
    ensures NewRoundState(e, height).Err? ==>
      match NewRoundState(e, height).error
      case Config(QuorumOverflow) => 3 * e.quorumPower >= U64_LIMIT
      case Config(PowerOverflow) => 2 * TotalPower(e.validators) >= U64_LIMIT
      case Config(UnsafeQuorum) => 3 * e.quorumPower <= 2 * TotalPower(e.validators)
      case _ => false
  {
  }

  // -------------------------------------------------------------------- refusals

  /** A decided height is closed: every operation is refused and nothing changes. */
  lemma {:induction false} DecidedIsClosed(e: Engine, s: State, p: Proposal, v: Vote)
    requires TotalPower(e.validators) > 0 && s.decision.Some?
    ensures ReceiveProposal(e, s, p) == (s, Err(AlreadyDecided)) && ReceiveVote(e, s, v) == (s, Err(AlreadyDecided))
    ensures PrevoteValue(e, s) == Err(AlreadyDecided) && PrecommitValue(e, s) == (s, Err(AlreadyDecided))
    ensures AdvanceRound(s) == (s, Err(AlreadyDecided))
  {
  }

  ghost predicate Member(e: Engine, id: ValidatorId) {
    exists w :: w in e.validators && w.id == id
  }

  /** What each refusal of a vote says is true of it; equivocation comes with a held vote of the
      same validator, round and step that differs. */
  lemma {:induction false} VoteRefusals(e: Engine, s: State, v: Vote)
    requires Inv(e, s) && s.decision.None? && ReceiveVote(e, s, v).1.Err?
    ensures match ReceiveVote(e, s, v).1.error
      case WrongHeight => v.height != s.height
      case WrongRound => v.round > s.round
      case UnknownValidator => !Member(e, v.validatorId)
      case InvalidSignature => Member(e, v.validatorId) && !SignedBy(e, v.validatorId, VoteContent(v), v.signature)
      case Equivocation(id, round) =>
        id == v.validatorId && round == v.round
        && exists w :: w in s.votes && w != v && w.validatorId == id && w.round == round && w.step == v.step
      case _ => false
  {
    VoteVerifiesExactly(e, v);
    MemberIsFound(e, v.validatorId);
    var found := FindVote(s.votes, v.round, v.step, v.validatorId);
    if v.height == s.height && v.round <= s.round && VerifyVote(e, v).Ok? && found.None? { PushedVoteCounts(e, s, v); }
  }

  lemma {:induction false} MemberIsFound(e: Engine, id: ValidatorId)
    ensures Find(e.validators, id).Some? <==> Member(e, id)
  {
  }

  /** What each refusal of a proposal says is true of it. */
  lemma {:induction false} ProposalRefusals(e: Engine, s: State, p: Proposal)
    requires Inv(e, s) && s.decision.None? && ReceiveProposal(e, s, p).1.Err?
    ensures match ReceiveProposal(e, s, p).1.error
      case WrongHeight => p.height != s.height
      case WrongRound => p.round != s.round
      case UnexpectedProposer => ProposerId(e, p.height, p.round) != Ok(p.proposerId)
      case BadValidRound => p.validRound.Some? && p.validRound.value >= p.round
      case InvalidSignature => !SignedBy(e, p.proposerId, ProposalContent(p), p.signature)
      case Equivocation(id, round) =>
        id == p.proposerId && round == p.round && exists q :: q in s.proposals && q != p && q.round == round
      case NoRetainedQuorum =>
        p.validRound.Some? && !HasQuorum(e, s, p.validRound.value, Prevote, Some(p.blockHash))
      case _ => false
  {
    Proposer.ProposerAtTotal(e.validators, Target(e, p.height, p.round));
    MemberIsFound(e, p.proposerId);
    ProposalVerifiesExactly(e, p);
    if p.validRound.Some? { VotePowerExact(e, s.votes, s.height, p.validRound.value, Prevote, Some(p.blockHash)); }
  }

  // ------------------------------------------------------------------- the rounds

  function Advances(n: nat): (ops: seq<Op>)
    ensures |ops| == n && forall op :: op in ops ==> op == OnAdvance
  {
    if n == 0 then [] else [OnAdvance] + Advances(n - 1)
  }

  /** An undecided state advances through every round that fits 32 bits and stops at the last:
      n more advances move it n rounds on, or to the last one, and change nothing else. */
  lemma {:induction false} AdvancesEveryRound(e: Engine, s: State, n: nat)
    requires TotalPower(e.validators) > 0 && s.decision.None? && s.round < U32_LIMIT
    ensures Run(e, s, Advances(n)) == s.(round := if s.round + n < U32_LIMIT then s.round + n else U32_LIMIT - 1)
    ensures AdvanceRound(s).1 == if s.round + 1 < U32_LIMIT then Ok(s.round + 1) else Err(RoundOverflow)
    decreases n
  {
    if n > 0 {
      assert Advances(n)[1..] == Advances(n - 1);
      AdvancesEveryRound(e, AdvanceRound(s).0, n - 1);
    }
  }
}
