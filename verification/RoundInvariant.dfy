/** What every reachable round state satisfies, whatever messages it was fed. */
module RoundInvariant {
  import opened Prelude
  import opened Validators
  import opened RoundState

  ghost predicate VotesVerify(e: Engine, votes: seq<Vote>) {
    forall v :: v in votes ==> VerifyVote(e, v).Ok?
  }

  /** One vote per validator, round and step. */
  ghost predicate SlotsDistinct(votes: seq<Vote>) {
    forall i, j :: 0 <= i < j < |votes| ==> !SameSlot(votes[i], votes[j].round, votes[j].step, votes[j].validatorId)
  }

  ghost predicate HasQuorum(e: Engine, s: State, round: nat, step: Step, value: Option<Hash32>) {
    Power(e.validators, Signers(s.votes, s.height, round, step, value)) >= e.quorumPower
  }

  ghost predicate ValidVotes(e: Engine, s: State) {
    && VotesVerify(e, s.votes)
    && SlotsDistinct(s.votes)
    && (forall v :: v in s.votes ==> v.height == s.height && v.round <= s.round)
  }

  /** A recorded (value, round) pair is backed by prevotes still held in the state. */
  ghost predicate Backed(e: Engine, s: State, value: Option<Hash32>, round: Option<nat>) {
    && (value.Some? <==> round.Some?)
    && (round.Some? ==> round.value <= s.round && HasQuorum(e, s, round.value, Prevote, value))
  }

  ghost predicate ValidProposal(e: Engine, s: State, p: Proposal)
    requires TotalPower(e.validators) > 0
  {
    && VerifyProposal(e, p).Ok?
    && p.height == s.height && p.round <= s.round
    && (p.validRound.Some? ==> p.validRound.value < p.round && HasQuorum(e, s, p.validRound.value, Prevote, Some(p.blockHash)))
  }

  ghost predicate ValidProposals(e: Engine, s: State)
    requires TotalPower(e.validators) > 0
  {
    && (forall p :: p in s.proposals ==> ValidProposal(e, s, p))
    && (forall i, j :: 0 <= i < j < |s.proposals| ==> s.proposals[i].round != s.proposals[j].round)
  }

  ghost predicate ValidDecision(e: Engine, s: State) {
    s.decision.Some? ==>
      var d := s.decision.value;
      && d.height == s.height
      && Certifies(e, d)
      && (forall v :: v in d.precommits ==> v in s.votes)
  }

  ghost predicate Inv(e: Engine, s: State) {
    && ValidEngine(e) && SafeQuorum(e)
    && s.round < U32_LIMIT
    && ValidVotes(e, s)
    && Backed(e, s, s.lockedValue, s.lockedRound)
    && Backed(e, s, s.validValue, s.validRound)
    && ValidProposals(e, s)
    && ValidDecision(e, s)
  }

  // ---------------------------------------------------- counting is exact

  lemma SignersSplit(votes: seq<Vote>, height: nat, round: nat, step: Step, value: Option<Hash32>)
    requires votes != []
    ensures Signers(votes, height, round, step, value)
         == Signers(votes[1..], height, round, step, value)
            + (if Matches(votes[0], height, round, step, value) then {votes[0].validatorId} else {})
  {
    assert votes == [votes[0]] + votes[1..];
  }

  lemma HeadSignerIsNew(votes: seq<Vote>, height: nat, round: nat, step: Step, value: Option<Hash32>)
    requires votes != [] && SlotsDistinct(votes) && Matches(votes[0], height, round, step, value)
    ensures votes[0].validatorId !in Signers(votes[1..], height, round, step, value)
  {
    forall v | v in votes[1..] && Matches(v, height, round, step, value) ensures v.validatorId != votes[0].validatorId {
      var j :| 0 <= j < |votes| - 1 && votes[1..][j] == v;
      assert votes[j + 1] == v;
    }
  }

  lemma {:induction false} VotePowerFromExact(e: Engine, votes: seq<Vote>, height: nat, round: nat, step: Step,
                                              value: Option<Hash32>, seen: set<ValidatorId>)
    requires ValidEngine(e) && VotesVerify(e, votes) && SlotsDistinct(votes)
    requires seen !! Signers(votes, height, round, step, value)
    ensures VotePowerFrom(e, votes, height, round, step, value, seen, Power(e.validators, seen))
         == Ok(Power(e.validators, seen + Signers(votes, height, round, step, value)))
  {
    var all := Signers(votes, height, round, step, value);
    if votes == [] {
      assert seen + all == seen;
    } else {
      var rest := Signers(votes[1..], height, round, step, value);
      SignersSplit(votes, height, round, step, value);
      assert VerifyVote(e, votes[0]).Ok?;
      if !Matches(votes[0], height, round, step, value) {
        VotePowerFromExact(e, votes[1..], height, round, step, value, seen);
        assert rest == all;
      } else {
        var id := votes[0].validatorId;
        HeadSignerIsNew(votes, height, round, step, value);
        PowerInsert(e.validators, seen, id);
        PowerAll(e.validators, seen + {id});
        VotePowerFromExact(e, votes[1..], height, round, step, value, seen + {id});
        assert seen + {id} + rest == seen + all;
      }
    }
  }

  /** `vote_power` never errs on retained votes and is the power of the distinct signers. */
  lemma VotePowerExact(e: Engine, votes: seq<Vote>, height: nat, round: nat, step: Step, value: Option<Hash32>)
    requires ValidEngine(e) && VotesVerify(e, votes) && SlotsDistinct(votes)
    ensures VotePower(e, votes, height, round, step, value)
         == Ok(Power(e.validators, Signers(votes, height, round, step, value)))
  {
    EmptyPower(e.validators);
    VotePowerFromExact(e, votes, height, round, step, value, {});
    assert {} + Signers(votes, height, round, step, value) == Signers(votes, height, round, step, value);
  }

  lemma QuorumGrows(e: Engine, s: State, s': State, round: nat, step: Step, value: Option<Hash32>)
    requires HasQuorum(e, s, round, step, value)
    requires s'.height == s.height && forall v :: v in s.votes ==> v in s'.votes
    ensures HasQuorum(e, s', round, step, value)
  {
    PowerMonotone(e.validators, Signers(s.votes, s.height, round, step, value), Signers(s'.votes, s'.height, round, step, value));
  }

  /** At most one value, nil included, reaches quorum per round and step. */
  lemma QuorumUnique(e: Engine, s: State, round: nat, step: Step, a: Option<Hash32>, b: Option<Hash32>)
    requires SafeQuorum(e) && SlotsDistinct(s.votes)
    requires HasQuorum(e, s, round, step, a) && HasQuorum(e, s, round, step, b)
    ensures a == b
  {
    var id := QuorumsMeet(e, Signers(s.votes, s.height, round, step, a), Signers(s.votes, s.height, round, step, b));
    var va :| va in s.votes && Matches(va, s.height, round, step, a) && va.validatorId == id;
    var vb :| vb in s.votes && Matches(vb, s.height, round, step, b) && vb.validatorId == id;
    SameSlotSameVote(s.votes, va, vb);
  }

  lemma SameSlotSameVote(votes: seq<Vote>, a: Vote, b: Vote)
    requires SlotsDistinct(votes) && a in votes && b in votes && SameSlot(a, b.round, b.step, b.validatorId)
    ensures a == b
  {
    var i :| 0 <= i < |votes| && votes[i] == a;
    var j :| 0 <= j < |votes| && votes[j] == b;
  }

  lemma QuorumHasVoter(e: Engine, s: State, round: nat, step: Step, value: Option<Hash32>) returns (v: Vote)
    requires ValidEngine(e) && HasQuorum(e, s, round, step, value)
    ensures v in s.votes && Matches(v, s.height, round, step, value)
  {
    var ids := Signers(s.votes, s.height, round, step, value);
    if ids == {} { EmptyPower(e.validators); }
    var id :| id in ids;
    v :| v in s.votes && Matches(v, s.height, round, step, value) && v.validatorId == id;
  }

  // -------------------------------------------------- precommit_value is exact

  lemma {:induction false} FirstQuorumExact(e: Engine, s: State, candidates: seq<Option<Hash32>>)
    requires ValidEngine(e) && ValidVotes(e, s)
    ensures var r := FirstQuorum(e, s, candidates);
      match r
      case Ok(x) => x in candidates && HasQuorum(e, s, s.round, Prevote, x)
      case Err(_) => r.error == NoPrevoteQuorum && forall x :: x in candidates ==> !HasQuorum(e, s, s.round, Prevote, x)
  {
    if candidates != [] {
      VotePowerExact(e, s.votes, s.height, s.round, Prevote, candidates[0]);
      FirstQuorumExact(e, s, candidates[1..]);
      assert candidates == [candidates[0]] + candidates[1..];
    }
  }

  /** `precommit_value` answers x exactly when x holds the prevote quorum of the
      current round: the order in which candidates are tried does not matter. */
  lemma PrecommitValueExact(e: Engine, s: State, x: Option<Hash32>)
    requires Inv(e, s) && s.decision.None?
    ensures PrecommitValue(e, s).1 == Ok(x) <==> HasQuorum(e, s, s.round, Prevote, x)
    ensures PrecommitValue(e, s).1.Err? ==> PrecommitValue(e, s) == (s, Err(NoPrevoteQuorum))
  {
    var candidates := Candidates(s.votes, s.height, s.round);
    FirstQuorumExact(e, s, candidates);
    var r := FirstQuorum(e, s, candidates);
    if HasQuorum(e, s, s.round, Prevote, x) {
      var v := QuorumHasVoter(e, s, s.round, Prevote, x);
      assert x in candidates;
      QuorumUnique(e, s, s.round, Prevote, x, r.value);
    }
  }

  // -------------------------------------------------------- each step keeps it

  lemma BackedGrows(e: Engine, s: State, s': State, value: Option<Hash32>, round: Option<nat>)
    requires Backed(e, s, value, round)
    requires s'.height == s.height && s.round <= s'.round && forall v :: v in s.votes ==> v in s'.votes
    ensures Backed(e, s', value, round)
  {
    if round.Some? { QuorumGrows(e, s, s', round.value, Prevote, value); }
  }

  lemma ProposalsGrow(e: Engine, s: State, s': State)
    requires ValidEngine(e) && ValidProposals(e, s)
    requires s'.height == s.height && s.round <= s'.round && (forall v :: v in s.votes ==> v in s'.votes)
    requires s'.proposals == s.proposals
    ensures ValidProposals(e, s')
  {
    forall p | p in s.proposals ensures ValidProposal(e, s', p) {
      if p.validRound.Some? { QuorumGrows(e, s, s', p.validRound.value, Prevote, Some(p.blockHash)); }
    }
  }

  lemma NewRoundStateInv(e: Engine, height: nat)
    requires ValidEngine(e)
    ensures NewRoundState(e, height).Ok? ==> Inv(e, NewRoundState(e, height).value)
    ensures NewRoundState(e, height).Ok? <==> 3 * e.quorumPower < U64_LIMIT && 2 * TotalPower(e.validators) < U64_LIMIT && SafeQuorum(e)
  {
  }

  lemma ReceiveProposalInv(e: Engine, s: State, p: Proposal)
    requires Inv(e, s)
    ensures Inv(e, ReceiveProposal(e, s, p).0)
    ensures ReceiveProposal(e, s, p).1.Err? ==> ReceiveProposal(e, s, p).0 == s
  {
    var (s', r) := ReceiveProposal(e, s, p);
    if s' != s {
      if p.validRound.Some? { VotePowerExact(e, s.votes, s.height, p.validRound.value, Prevote, Some(p.blockHash)); }
      assert ValidProposal(e, s', p);
      forall q | q in s'.proposals ensures ValidProposal(e, s', q) {
        if q != p { assert q in s.proposals; assert ValidProposal(e, s, q); }
      }
      BackedGrows(e, s, s', s.lockedValue, s.lockedRound);
      BackedGrows(e, s, s', s.validValue, s.validRound);
    }
  }

  lemma PushedVoteValid(e: Engine, s: State, v: Vote)
    requires Inv(e, s) && v.height == s.height && v.round <= s.round && VerifyVote(e, v).Ok?
    requires FindVote(s.votes, v.round, v.step, v.validatorId).None?
    ensures Inv(e, s.(votes := s.votes + [v]))
  {
    var s' := s.(votes := s.votes + [v]);
    forall i, j | 0 <= i < j < |s'.votes|
      ensures !SameSlot(s'.votes[i], s'.votes[j].round, s'.votes[j].step, s'.votes[j].validatorId)
    {
      if j == |s.votes| { assert s'.votes[i] in s.votes; }
    }
    BackedGrows(e, s, s', s.lockedValue, s.lockedRound);
    BackedGrows(e, s, s', s.validValue, s.validRound);
    ProposalsGrow(e, s, s');
  }

  lemma {:induction false} MatchingVotesDistinct(votes: seq<Vote>, height: nat, round: nat, step: Step, value: Option<Hash32>)
    requires SlotsDistinct(votes)
    ensures SlotsDistinct(MatchingVotes(votes, height, round, step, value))
  {
    if votes != [] {
      MatchingVotesDistinct(votes[1..], height, round, step, value);
      var rest := MatchingVotes(votes[1..], height, round, step, value);
      forall v | v in rest ensures !SameSlot(votes[0], v.round, v.step, v.validatorId) {
        assert v in votes[1..];
        var j :| 0 <= j < |votes| - 1 && votes[1..][j] == v;
        assert votes[j + 1] == v;
      }
    }
  }

  lemma DecisionCertifies(e: Engine, s: State, round: nat, x: Hash32)
    requires Inv(e, s) && HasQuorum(e, s, round, Precommit, Some(x))
    ensures var d := Decision(s.height, round, x, MatchingVotes(s.votes, s.height, round, Precommit, Some(x)));
      Certifies(e, d) && forall v :: v in d.precommits ==> v in s.votes
  {
    var ms := MatchingVotes(s.votes, s.height, round, Precommit, Some(x));
    MatchingVotesDistinct(s.votes, s.height, round, Precommit, Some(x));
    VotePowerExact(e, ms, s.height, round, Precommit, Some(x));
    assert Signers(ms, s.height, round, Precommit, Some(x)) == Signers(s.votes, s.height, round, Precommit, Some(x));
  }

  /** Counting a retained vote never fails, and records only backed values. */
  lemma CountVoteInv(e: Engine, s: State, v: Vote)
    requires Inv(e, s) && s.decision.None? && v.round <= s.round
    ensures CountVote(e, s, v).1.Ok? && Inv(e, CountVote(e, s, v).0)
  {
    VotePowerExact(e, s.votes, s.height, v.round, v.step, v.value);
    var (s', r) := CountVote(e, s, v);
    if HasQuorum(e, s, v.round, v.step, v.value) && v.value.Some? {
      BackedGrows(e, s, s', s.lockedValue, s.lockedRound);
      ProposalsGrow(e, s, s');
      if v.step.Prevote? {
        QuorumGrows(e, s, s', v.round, Prevote, v.value);
      } else {
        BackedGrows(e, s, s', s.validValue, s.validRound);
        DecisionCertifies(e, s, v.round, v.value.value);
      }
    }
  }

  /** A vote keeps the invariant, and a rejected vote leaves the state unchanged
      even though it is counted only after it was pushed. */
  lemma ReceiveVoteInv(e: Engine, s: State, v: Vote)
    requires Inv(e, s)
    ensures Inv(e, ReceiveVote(e, s, v).0)
    ensures ReceiveVote(e, s, v).1.Err? ==> ReceiveVote(e, s, v).0 == s
  {
    if s.decision.None? && v.height == s.height && v.round <= s.round && VerifyVote(e, v).Ok?
       && FindVote(s.votes, v.round, v.step, v.validatorId).None? {
      PushedVoteValid(e, s, v);
      CountVoteInv(e, s.(votes := s.votes + [v]), v);
    }
  }

  /** A vote touches neither the round nor the lock, and is kept only if it verifies. */
  lemma ReceiveVoteFrame(e: Engine, s: State, v: Vote)
    ensures var s' := ReceiveVote(e, s, v).0;
      && s'.height == s.height && s'.round == s.round
      && s'.lockedValue == s.lockedValue && s'.lockedRound == s.lockedRound && s'.proposals == s.proposals
      && (s'.votes == s.votes || (s'.votes == s.votes + [v] && VerifyVote(e, v).Ok?))
  {
  }

  /** A precommit on x makes x the locked and the valid value of the current round, both backed,
      and touches nothing else; any other answer changes nothing. */
  lemma PrecommitValueInv(e: Engine, s: State)
    requires Inv(e, s)
    ensures var (s', r) := PrecommitValue(e, s);
      && Inv(e, s')
      && (if r.Ok? && r.value.Some?
          then s' == State(s.height, s.round, r.value, Some(s.round), r.value, Some(s.round), s.proposals, s.votes, None)
          else s' == s)
  {
    var (s', r) := PrecommitValue(e, s);
    if r.Ok? && r.value.Some? {
      PrecommitValueExact(e, s, r.value);
      QuorumGrows(e, s, s', s.round, Prevote, r.value);
      ProposalsGrow(e, s, s');
    }
  }

  lemma AdvanceRoundInv(e: Engine, s: State)
    requires Inv(e, s)
    ensures Inv(e, AdvanceRound(s).0)
    ensures AdvanceRound(s).1.Err? ==> AdvanceRound(s).0 == s
  {
    var s' := AdvanceRound(s).0;
    BackedGrows(e, s, s', s.lockedValue, s.lockedRound);
    BackedGrows(e, s, s', s.validValue, s.validRound);
    ProposalsGrow(e, s, s');
  }

  /** `prevote_value` never errs on a live reachable state. */
  lemma PrevoteValueTotal(e: Engine, s: State)
    requires Inv(e, s) && s.decision.None?
    ensures PrevoteValue(e, s).Ok?
  {
    var found := FindProposal(s.proposals, s.round);
    if found.Some? && found.value.validRound.Some? {
      VotePowerExact(e, s.votes, s.height, found.value.validRound.value, Prevote, Some(found.value.blockHash));
    }
  }

  // ------------------------------------------------------------- whole runs

  datatype Op = OnProposal(p: Proposal) | OnVote(v: Vote) | OnPrecommit | OnAdvance

  function Apply(e: Engine, s: State, op: Op): State
    requires TotalPower(e.validators) > 0
  {
    match op
    case OnProposal(p) => ReceiveProposal(e, s, p).0
    case OnVote(v) => ReceiveVote(e, s, v).0
    case OnPrecommit => PrecommitValue(e, s).0
    case OnAdvance => AdvanceRound(s).0
  }

  function Run(e: Engine, s: State, ops: seq<Op>): State
    requires TotalPower(e.validators) > 0
    decreases |ops|
  {
    if ops == [] then s else Run(e, Apply(e, s, ops[0]), ops[1..])
  }

  /** How a later state of a run relates to an earlier one: messages are retained,
      rounds and lock rounds never go back, and a decided height never changes. */
  ghost predicate Extends(s: State, s': State) {
    && s.height == s'.height && s.round <= s'.round
    && s.votes <= s'.votes && s.proposals <= s'.proposals
    && (s.lockedRound.Some? ==> s'.lockedRound.Some? && s.lockedRound.value <= s'.lockedRound.value)
    && (s.decision.Some? ==> s' == s)
  }

  lemma ApplyExtends(e: Engine, s: State, op: Op)
    requires TotalPower(e.validators) > 0 && (s.lockedRound.Some? ==> s.lockedRound.value <= s.round)
    ensures Extends(s, Apply(e, s, op))
  {
  }

  lemma ApplyInv(e: Engine, s: State, op: Op)
    requires Inv(e, s)
    ensures Inv(e, Apply(e, s, op))
  {
    match op
    case OnProposal(p) => ReceiveProposalInv(e, s, p);
    case OnVote(v) => ReceiveVoteInv(e, s, v);
    case OnPrecommit => PrecommitValueInv(e, s);
    case OnAdvance => AdvanceRoundInv(e, s);
  }

  /** Every state reached from `new_round_state` by any operations satisfies the
      invariant, and every run only extends. */
  lemma {:induction false} RunInv(e: Engine, s: State, ops: seq<Op>)
    requires Inv(e, s)
    ensures Inv(e, Run(e, s, ops)) && Extends(s, Run(e, s, ops))
    decreases |ops|
  {
    if ops != [] {
      ApplyInv(e, s, ops[0]);
      ApplyExtends(e, s, ops[0]);
      RunInv(e, Apply(e, s, ops[0]), ops[1..]);
    }
  }

  /** Within a round the precommit answer is final: no further message changes it. */
  lemma PrecommitValueStable(e: Engine, s: State, ops: seq<Op>, x: Option<Hash32>)
    requires Inv(e, s) && PrecommitValue(e, s).1 == Ok(x)
    requires Run(e, s, ops).round == s.round && Run(e, s, ops).decision.None?
    ensures PrecommitValue(e, Run(e, s, ops)).1 == Ok(x)
  {
    var s' := Run(e, s, ops);
    RunInv(e, s, ops);
    PrecommitValueExact(e, s, x);
    QuorumGrows(e, s, s', s.round, Prevote, x);
    PrecommitValueExact(e, s', x);
  }
}
