/** The Tendermint round state and its transitions as functions of values. */
module RoundState {
  import opened Prelude
  import opened Validators

  datatype Step = Prevote | Precommit

  /** The content bound by a signature; the two constructors are the two domains. */
  datatype Digest =
    | ProposalDigest(height: nat, round: nat, blockHash: Hash32, validRound: Option<nat>, proposerId: ValidatorId)
    | VoteDigest(height: nat, round: nat, step: Step, value: Option<Hash32>, validatorId: ValidatorId)

  /** Ideal signatures: a signature names its key and content.  One key may sign
      one content in several ways, told apart by `nonce`. */
  datatype Signature = Malformed | Schnorr(key: PublicKey, digest: Digest, nonce: nat)

  datatype Proposal = Proposal(height: nat, round: nat, blockHash: Hash32, validRound: Option<nat>,
                               proposerId: ValidatorId, signature: Signature)

  datatype Vote = Vote(height: nat, round: nat, step: Step, value: Option<Hash32>,
                       validatorId: ValidatorId, signature: Signature)

  datatype Decision = Decision(height: nat, round: nat, blockHash: Hash32, precommits: seq<Vote>)

  datatype State = State(height: nat, round: nat,
                         lockedValue: Option<Hash32>, lockedRound: Option<nat>,
                         validValue: Option<Hash32>, validRound: Option<nat>,
                         proposals: seq<Proposal>, votes: seq<Vote>, decision: Option<Decision>)

  datatype Progress =
    | ProposalAccepted | VoteAccepted | PrevoteQuorum(value: Option<Hash32>) | PrecommitQuorumNil | Decided(decision: Decision)

  datatype Error =
    | AlreadyDecided | WrongHeight | WrongRound | UnexpectedProposer | BadValidRound | UnknownValidator
    | InvalidSignature | Equivocation(validatorId: ValidatorId, round: nat) | NoRetainedQuorum | DuplicateVoter
    | VotePowerOverflow | LockWithoutRound | NoPrevoteQuorum | RoundOverflow | NoProposer
    | Config(config: ConfigError)

  // ---------------------------------------------------------------- proposer

  /** Walk the id-sorted validators until the running power passes `target`. */
  function ProposerAt(vs: seq<Validator>, target: nat): Result<ValidatorId, Error> {
    if vs == [] then Err(NoProposer)
    else if target < vs[0].weight then Ok(vs[0].id)
    else ProposerAt(vs[1..], target - vs[0].weight)
  }

  function Target(e: Engine, height: nat, round: nat): (t: nat)
    requires TotalPower(e.validators) > 0
    ensures t < TotalPower(e.validators)
  {
    var total := TotalPower(e.validators);
    (height % total + round % total) % total
  }

  function ProposerId(e: Engine, height: nat, round: nat): Result<ValidatorId, Error>
    requires TotalPower(e.validators) > 0
  {
    ProposerAt(e.validators, Target(e, height, round))
  }

  // ------------------------------------------------------------ verification

  function ProposalContent(p: Proposal): Digest {
    ProposalDigest(p.height, p.round, p.blockHash, p.validRound, p.proposerId)
  }

  function VoteContent(v: Vote): Digest {
    VoteDigest(v.height, v.round, v.step, v.value, v.validatorId)
  }

  predicate Verifies(key: PublicKey, content: Digest, s: Signature) {
    s.Schnorr? && s.key == key && s.digest == content
  }

  function VerifyProposal(e: Engine, p: Proposal): Result<(), Error>
    requires TotalPower(e.validators) > 0
  {
    var expected := ProposerId(e, p.height, p.round);
    if expected.Err? then Err(expected.error)
    else if p.proposerId != expected.value then Err(UnexpectedProposer)
    else if p.validRound.Some? && p.validRound.value >= p.round then Err(BadValidRound)
    else
      var validator := Find(e.validators, p.proposerId);
      if validator.None? then Err(UnknownValidator)
      else if !Verifies(validator.value.publicKey, ProposalContent(p), p.signature) then Err(InvalidSignature)
      else Ok(())
  }

  function VerifyVote(e: Engine, v: Vote): Result<(), Error> {
    var validator := Find(e.validators, v.validatorId);
    if validator.None? then Err(UnknownValidator)
    else if !Verifies(validator.value.publicKey, VoteContent(v), v.signature) then Err(InvalidSignature)
    else Ok(())
  }

  // -------------------------------------------------------------- vote power

  predicate Matches(v: Vote, height: nat, round: nat, step: Step, value: Option<Hash32>) {
    v.height == height && v.round == round && v.step == step && v.value == value
  }

  /** The fold of `vote_power`: `seen` and `power` summarise the votes before `votes`. */
  function VotePowerFrom(e: Engine, votes: seq<Vote>, height: nat, round: nat, step: Step, value: Option<Hash32>,
                         seen: set<ValidatorId>, power: nat): Result<nat, Error>
  {
    if votes == [] then Ok(power)
    else if !Matches(votes[0], height, round, step, value) then
      VotePowerFrom(e, votes[1..], height, round, step, value, seen, power)
    else
      var checked := VerifyVote(e, votes[0]);
      if checked.Err? then Err(checked.error)
      else if votes[0].validatorId in seen then Err(DuplicateVoter)
      else
        var sum := power + Find(e.validators, votes[0].validatorId).value.weight;
        if sum >= U64_LIMIT then Err(VotePowerOverflow)
        else VotePowerFrom(e, votes[1..], height, round, step, value, seen + {votes[0].validatorId}, sum)
  }

  function VotePower(e: Engine, votes: seq<Vote>, height: nat, round: nat, step: Step, value: Option<Hash32>): Result<nat, Error> {
    VotePowerFrom(e, votes, height, round, step, value, {}, 0)
  }

  function Signers(votes: seq<Vote>, height: nat, round: nat, step: Step, value: Option<Hash32>): set<ValidatorId> {
    set v | v in votes && Matches(v, height, round, step, value) :: v.validatorId
  }

  // ------------------------------------------------------------- transitions

  function NewRoundState(e: Engine, height: nat): Result<State, Error> {
    var quorum := ValidateQuorum(e);
    if quorum.Err? then Err(Config(quorum.error))
    else Ok(State(height, 0, None, None, None, None, [], [], None))
  }

  function FindProposal(ps: seq<Proposal>, round: nat): (r: Option<Proposal>)
    ensures r.Some? ==> r.value in ps && r.value.round == round
    ensures r.None? ==> forall p :: p in ps ==> p.round != round
  {
    if ps == [] then None
    else if ps[0].round == round then Some(ps[0])
    else FindProposal(ps[1..], round)
  }

  predicate SameSlot(a: Vote, round: nat, step: Step, id: ValidatorId) {
    a.round == round && a.step == step && a.validatorId == id
  }

  function FindVote(votes: seq<Vote>, round: nat, step: Step, id: ValidatorId): (r: Option<Vote>)
    ensures r.Some? ==> r.value in votes && SameSlot(r.value, round, step, id)
    ensures r.None? ==> forall v :: v in votes ==> !SameSlot(v, round, step, id)
  {
    if votes == [] then None
    else if SameSlot(votes[0], round, step, id) then Some(votes[0])
    else FindVote(votes[1..], round, step, id)
  }

  function ReceiveProposal(e: Engine, s: State, p: Proposal): (State, Result<Progress, Error>)
    requires TotalPower(e.validators) > 0
  {
    if s.decision.Some? then (s, Err(AlreadyDecided))
    else if p.height != s.height then (s, Err(WrongHeight))
    else if p.round != s.round then (s, Err(WrongRound))
    else
      var checked := VerifyProposal(e, p);
      if checked.Err? then (s, Err(checked.error))
      else
        var existing := FindProposal(s.proposals, p.round);
        if existing.Some? then
          (s, if existing.value == p then Ok(ProposalAccepted) else Err(Equivocation(p.proposerId, p.round)))
        else
          var accepted := s.(proposals := s.proposals + [p]);
          if p.validRound.None? then (accepted, Ok(ProposalAccepted))
          else
            var power := VotePower(e, s.votes, s.height, p.validRound.value, Prevote, Some(p.blockHash));
            if power.Err? then (s, Err(power.error))
            else if power.value < e.quorumPower then (s, Err(NoRetainedQuorum))
            else (accepted, Ok(ProposalAccepted))
  }

  function PrevoteValue(e: Engine, s: State): Result<Option<Hash32>, Error> {
    if s.decision.Some? then Err(AlreadyDecided)
    else
      var found := FindProposal(s.proposals, s.round);
      if found.None? then Ok(None)
      else
        var p := found.value;
        if s.lockedValue.None? || s.lockedValue.value == p.blockHash then Ok(Some(p.blockHash))
        else if s.lockedRound.None? then Err(LockWithoutRound)
        else if p.validRound.None? || p.validRound.value < s.lockedRound.value then Ok(None)
        else
          var power := VotePower(e, s.votes, s.height, p.validRound.value, Prevote, Some(p.blockHash));
          if power.Err? then Err(power.error)
          else Ok(if power.value >= e.quorumPower then Some(p.blockHash) else None)
  }

  function MatchingVotes(votes: seq<Vote>, height: nat, round: nat, step: Step, value: Option<Hash32>): (r: seq<Vote>)
    ensures forall v :: v in r <==> v in votes && Matches(v, height, round, step, value)
  {
    if votes == [] then []
    else (if Matches(votes[0], height, round, step, value) then [votes[0]] else [])
         + MatchingVotes(votes[1..], height, round, step, value)
  }

  function ReceiveVote(e: Engine, s: State, v: Vote): (State, Result<Progress, Error>) {
    if s.decision.Some? then (s, Err(AlreadyDecided))
    else if v.height != s.height then (s, Err(WrongHeight))
    else if v.round > s.round then (s, Err(WrongRound))
    else
      var checked := VerifyVote(e, v);
      if checked.Err? then (s, Err(checked.error))
      else
        var existing := FindVote(s.votes, v.round, v.step, v.validatorId);
        if existing.Some? then
          (s, if existing.value == v then Ok(VoteAccepted) else Err(Equivocation(v.validatorId, v.round)))
        else CountVote(e, s.(votes := s.votes + [v]), v)
  }

  /** The part of `receive_vote` that runs after the vote has been pushed. */
  function CountVote(e: Engine, s: State, v: Vote): (State, Result<Progress, Error>) {
    var power := VotePower(e, s.votes, s.height, v.round, v.step, v.value);
    if power.Err? then (s, Err(power.error))
    else if power.value < e.quorumPower then (s, Ok(VoteAccepted))
    else if v.step.Prevote? then
      (if v.value.Some? then s.(validValue := v.value, validRound := Some(v.round)) else s, Ok(PrevoteQuorum(v.value)))
    else if v.value.None? then (s, Ok(PrecommitQuorumNil))
    else
      var d := Decision(s.height, v.round, v.value.value, MatchingVotes(s.votes, s.height, v.round, Precommit, v.value));
      (s.(decision := Some(d)), Ok(Decided(d)))
  }

  predicate ValueLess(a: Option<Hash32>, b: Option<Hash32>) {
    b.Some? && (a.None? || a.value < b.value)
  }

  /** One step of sort-and-dedup: insert into an ascending list unless present. */
  function InsertValue(vs: seq<Option<Hash32>>, v: Option<Hash32>): (r: seq<Option<Hash32>>)
    ensures forall w :: w in r <==> w == v || w in vs
  {
    if vs == [] || ValueLess(v, vs[0]) then [v] + vs
    else if vs[0] == v then vs
    else
      assert vs == [vs[0]] + vs[1..];
      [vs[0]] + InsertValue(vs[1..], v)
  }

  /** The distinct prevote values of one round, ascending with nil first. */
  function Candidates(votes: seq<Vote>, height: nat, round: nat): (r: seq<Option<Hash32>>)
    ensures forall w :: w in r <==> exists v :: v in votes && Matches(v, height, round, Prevote, w)
  {
    if votes == [] then []
    else
      assert votes == [votes[0]] + votes[1..];
      var rest := Candidates(votes[1..], height, round);
      if Matches(votes[0], height, round, Prevote, votes[0].value) then InsertValue(rest, votes[0].value) else rest
  }

  function FirstQuorum(e: Engine, s: State, candidates: seq<Option<Hash32>>): Result<Option<Hash32>, Error> {
    if candidates == [] then Err(NoPrevoteQuorum)
    else
      var power := VotePower(e, s.votes, s.height, s.round, Prevote, candidates[0]);
      if power.Err? then Err(power.error)
      else if power.value >= e.quorumPower then Ok(candidates[0])
      else FirstQuorum(e, s, candidates[1..])
  }

  function PrecommitValue(e: Engine, s: State): (State, Result<Option<Hash32>, Error>) {
    if s.decision.Some? then (s, Err(AlreadyDecided))
    else
      var r := FirstQuorum(e, s, Candidates(s.votes, s.height, s.round));
      (if r.Ok? && r.value.Some?
       then s.(lockedValue := r.value, lockedRound := Some(s.round), validValue := r.value, validRound := Some(s.round))
       else s, r)
  }

  function AdvanceRound(s: State): (State, Result<nat, Error>) {
    if s.decision.Some? then (s, Err(AlreadyDecided))
    else if s.round + 1 >= U32_LIMIT then (s, Err(RoundOverflow))
    else (s.(round := s.round + 1), Ok(s.round + 1))
  }

  // ------------------------------------------------------------ certificates

  /** The checks of `finalise_block_with_decision` on the decision alone. */
  predicate Certifies(e: Engine, d: Decision) {
    var power := VotePower(e, d.precommits, d.height, d.round, Precommit, Some(d.blockHash));
    power.Ok? && power.value >= e.quorumPower
  }
}
