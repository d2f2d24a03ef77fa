/** The mutable round state, proved step by step against the functions of `RoundState`. */
module RoundMachine {
  import opened Prelude
  import opened Validators
  import opened RoundState
  import opened RoundInvariant

  /** The accumulator loop of `vote_power`. */
  method CountPower(e: Engine, votes: seq<Vote>, height: nat, round: nat, step: Step, value: Option<Hash32>)
    returns (r: Result<nat, Error>)
    ensures r == VotePower(e, votes, height, round, step, value)
  {
    var seen: set<ValidatorId> := {};
    var power: nat := 0;
    assert votes[0..] == votes;
    for k := 0 to |votes|
      invariant VotePower(e, votes, height, round, step, value)
             == VotePowerFrom(e, votes[k..], height, round, step, value, seen, power)
    {
      var vote := votes[k];
      assert votes[k..][0] == vote && votes[k..][1..] == votes[k + 1..];
      if Matches(vote, height, round, step, value) {
        var checked := VerifyVote(e, vote);
        if checked.Err? { return Err(checked.error); }
        if vote.validatorId in seen { return Err(DuplicateVoter); }
        seen := seen + {vote.validatorId};
        var sum := power + Find(e.validators, vote.validatorId).value.weight;
        if sum >= U64_LIMIT { return Err(VotePowerOverflow); }
        power := sum;
      }
    }
    return Ok(power);
  }

  class TendermintRoundState {
    var height: nat
    var round: nat
    var lockedValue: Option<Hash32>
    var lockedRound: Option<nat>
    var validValue: Option<Hash32>
    var validRound: Option<nat>
    var proposals: seq<Proposal>
    var votes: seq<Vote>
    var decision: Option<Decision>

    ghost function Snapshot(): State
      reads this
    {
      State(height, round, lockedValue, lockedRound, validValue, validRound, proposals, votes, decision)
    }

    constructor (e: Engine, height: nat)
      requires ValidEngine(e) && ValidateQuorum(e).Ok?
      ensures NewRoundState(e, height) == Ok(Snapshot()) && Inv(e, Snapshot())
    {
      this.height, round := height, 0;
      lockedValue, lockedRound, validValue, validRound := None, None, None, None;
      proposals, votes, decision := [], [], None;
      new;
      NewRoundStateInv(e, height);
    }

    method ReceiveProposal(e: Engine, p: Proposal) returns (r: Result<Progress, Error>)
      requires TotalPower(e.validators) > 0
      modifies this`proposals
      ensures Inv(e, old(Snapshot())) ==> Inv(e, Snapshot())
      ensures (Snapshot(), r) == RoundState.ReceiveProposal(e, old(Snapshot()), p)
    {
      if Inv(e, Snapshot()) { ReceiveProposalInv(e, Snapshot(), p); }
      if decision.Some? { return Err(AlreadyDecided); }
      if p.height != height { return Err(WrongHeight); }
      if p.round != round { return Err(WrongRound); }
      var checked := VerifyProposal(e, p);
      if checked.Err? { return Err(checked.error); }
      var existing := FindProposal(proposals, p.round);
      if existing.Some? {
        if existing.value == p { return Ok(ProposalAccepted); }
        return Err(Equivocation(p.proposerId, p.round));
      }
      if p.validRound.Some? {
        var power := CountPower(e, votes, height, p.validRound.value, Prevote, Some(p.blockHash));
        if power.Err? { return Err(power.error); }
        if power.value < e.quorumPower { return Err(NoRetainedQuorum); }
      }
      proposals := proposals + [p];
      return Ok(ProposalAccepted);
    }

    method PrevoteValue(e: Engine) returns (r: Result<Option<Hash32>, Error>)
      ensures r == RoundState.PrevoteValue(e, Snapshot())
    {
      if decision.Some? { return Err(AlreadyDecided); }
      var found := FindProposal(proposals, round);
      if found.None? { return Ok(None); }
      var p := found.value;
      if lockedValue.None? || lockedValue.value == p.blockHash { return Ok(Some(p.blockHash)); }
      if lockedRound.None? { return Err(LockWithoutRound); }
      if p.validRound.None? || p.validRound.value < lockedRound.value { return Ok(None); }
      var power := CountPower(e, votes, height, p.validRound.value, Prevote, Some(p.blockHash));
      if power.Err? { return Err(power.error); }
      return Ok(if power.value >= e.quorumPower then Some(p.blockHash) else None);
    }

    method ReceiveVote(e: Engine, v: Vote) returns (r: Result<Progress, Error>)
      modifies this`votes, this`validValue, this`validRound, this`decision
      ensures Inv(e, old(Snapshot())) ==> Inv(e, Snapshot()) && (r.Err? ==> Snapshot() == old(Snapshot()))
      ensures (Snapshot(), r) == RoundState.ReceiveVote(e, old(Snapshot()), v)
    {
      if Inv(e, Snapshot()) { ReceiveVoteInv(e, Snapshot(), v); }
      if decision.Some? { return Err(AlreadyDecided); }
      if v.height != height { return Err(WrongHeight); }
      if v.round > round { return Err(WrongRound); }
      var checked := VerifyVote(e, v);
      if checked.Err? { return Err(checked.error); }
      var existing := FindVote(votes, v.round, v.step, v.validatorId);
      if existing.Some? {
        if existing.value == v { return Ok(VoteAccepted); }
        return Err(Equivocation(v.validatorId, v.round));
      }
      votes := votes + [v];
      var power := CountPower(e, votes, height, v.round, v.step, v.value);
      if power.Err? { return Err(power.error); }
      if power.value < e.quorumPower { return Ok(VoteAccepted); }
      if v.step.Prevote? {
        if v.value.Some? { validValue, validRound := v.value, Some(v.round); }
        return Ok(PrevoteQuorum(v.value));
      }
      if v.value.None? { return Ok(PrecommitQuorumNil); }
      var d := Decision(height, v.round, v.value.value, MatchingVotes(votes, height, v.round, Precommit, v.value));
      decision := Some(d);
      return Ok(Decided(d));
    }

    method PrecommitValue(e: Engine) returns (r: Result<Option<Hash32>, Error>)
      modifies this`lockedValue, this`lockedRound, this`validValue, this`validRound
      ensures Inv(e, old(Snapshot())) ==> Inv(e, Snapshot())
      ensures Inv(e, old(Snapshot())) && r.Ok? && r.value.Some? ==>
        lockedValue == validValue == r.value && lockedRound == validRound == Some(round)
      ensures (Snapshot(), r) == RoundState.PrecommitValue(e, old(Snapshot()))
    {
      if Inv(e, Snapshot()) { PrecommitValueInv(e, Snapshot()); }
      if decision.Some? { return Err(AlreadyDecided); }
      var candidates := Candidates(votes, height, round);
      assert candidates[0..] == candidates;
      for k := 0 to |candidates|
        invariant Snapshot() == old(Snapshot())
        invariant FirstQuorum(e, Snapshot(), candidates) == FirstQuorum(e, Snapshot(), candidates[k..])
      {
        assert candidates[k..][0] == candidates[k] && candidates[k..][1..] == candidates[k + 1..];
        var value := candidates[k];
        var power := CountPower(e, votes, height, round, Prevote, value);
        if power.Err? { return Err(power.error); }
        if power.value >= e.quorumPower {
          if value.Some? {
            lockedValue, lockedRound := value, Some(round);
            validValue, validRound := value, Some(round);
          }
          return Ok(value);
        }
      }
      return Err(NoPrevoteQuorum);
    }

    method AdvanceRound() returns (r: Result<nat, Error>)
      modifies this`round
      ensures (Snapshot(), r) == RoundState.AdvanceRound(old(Snapshot()))
      ensures r.Ok? ==> round == old(round) + 1 == r.value
    {
      if decision.Some? { return Err(AlreadyDecided); }
      if round + 1 >= U32_LIMIT { return Err(RoundOverflow); }
      round := round + 1;
      return Ok(round);
    }
  }

  /** A round state for the engines whose quorum checks out, and the reason for the others. */
  method CreateRoundState(e: Engine, height: nat) returns (r: Result<TendermintRoundState, Error>)
    requires ValidEngine(e)
    ensures r.Ok? ==> fresh(r.value) && NewRoundState(e, height) == Ok(r.value.Snapshot()) && Inv(e, r.value.Snapshot())
    ensures r.Err? ==> NewRoundState(e, height) == Err(r.error)
  {
    var quorum := ValidateQuorum(e);
    if quorum.Err? { return Err(Config(quorum.error)); }
    var state := new TendermintRoundState(e, height);
    r := Ok(state);
  }
}
