/** Tendermint agreement over whole runs of a network at one height.

    Correct validators run the round state; everything else, including every
    message, belongs to the adversary.  The only limits on the adversary are that
    its validators hold at most a third of the power and that a vote which
    verifies under a correct validator's id was signed by that validator. */
module Agreement {
  import opened Prelude
  import opened Validators
  import opened RoundState
  import opened RoundInvariant

  datatype Setup = Setup(engine: Engine, height: nat, correct: set<ValidatorId>)

  ghost function Faulty(c: Setup): set<ValidatorId> {
    Ids(c.engine.validators) - c.correct
  }

  ghost predicate ValidSetup(c: Setup) {
    && ValidEngine(c.engine)
    && NewRoundState(c.engine, c.height).Ok?
    && c.correct <= Ids(c.engine.validators)
    && 3 * Power(c.engine.validators, Faulty(c)) <= TotalPower(c.engine.validators)
  }

  /** The round state of every correct validator and every vote content that a
      correct validator has signed. */
  datatype World = World(states: map<ValidatorId, State>, signed: set<Digest>)

  ghost function Init(c: Setup): World
    requires ValidSetup(c)
  {
    World(map v | v in c.correct :: NewRoundState(c.engine, c.height).value, {})
  }

  datatype Action =
    | DeliverProposal(who: ValidatorId, p: Proposal)
    | DeliverVote(who: ValidatorId, vote: Vote)
    | SignPrevote(who: ValidatorId)
    | CallPrecommit(who: ValidatorId)
    | SignPrecommit(who: ValidatorId)
    | Advance(who: ValidatorId)

  ghost function Actor(a: Action): ValidatorId {
    match a
    case DeliverProposal(who, _) => who
    case DeliverVote(who, _) => who
    case SignPrevote(who) => who
    case CallPrecommit(who) => who
    case SignPrecommit(who) => who
    case Advance(who) => who
  }

  /** Ideal signatures: a vote that verifies as a correct validator's was signed by it. */
  ghost predicate Unforged(c: Setup, w: World, vote: Vote) {
    vote.validatorId in c.correct && VerifyVote(c.engine, vote).Ok? ==> VoteContent(vote) in w.signed
  }

  ghost predicate HasSigned(c: Setup, w: World, v: ValidatorId, round: nat, step: Step) {
    exists value :: VoteDigest(c.height, round, step, value, v) in w.signed
  }

  /** Sign a value for the current round unless this slot was signed before. */
  ghost function Sign(c: Setup, w: World, v: ValidatorId, step: Step, r: Result<Option<Hash32>, Error>): World
    requires v in w.states
  {
    var round := w.states[v].round;
    if r.Ok? && !HasSigned(c, w, v, round, step)
    then w.(signed := w.signed + {VoteDigest(c.height, round, step, r.value, v)})
    else w
  }

  /** One step of the network; a step that is not enabled changes nothing. */
  ghost function Next(c: Setup, w: World, a: Action): World
    requires ValidSetup(c)
  {
    var v := Actor(a);
    if v !in w.states then w
    else
      var s := w.states[v];
      match a
      case DeliverProposal(_, p) => w.(states := w.states[v := ReceiveProposal(c.engine, s, p).0])
      case DeliverVote(_, vote) =>
        if Unforged(c, w, vote) then w.(states := w.states[v := ReceiveVote(c.engine, s, vote).0]) else w
      case SignPrevote(_) => Sign(c, w, v, Prevote, PrevoteValue(c.engine, s))
      case CallPrecommit(_) => w.(states := w.states[v := PrecommitValue(c.engine, s).0])
      case SignPrecommit(_) =>
        var (s', r) := PrecommitValue(c.engine, s);
        Sign(c, w.(states := w.states[v := s']), v, Precommit, r)
      case Advance(_) => w.(states := w.states[v := AdvanceRound(s).0])
  }

  ghost function Execute(c: Setup, w: World, actions: seq<Action>): World
    requires ValidSetup(c)
    decreases |actions|
  {
    if actions == [] then w else Execute(c, Next(c, w, actions[0]), actions[1..])
  }

  // --------------------------------------------------------------- quorums

  ghost predicate Signed(c: Setup, w: World, v: ValidatorId, round: nat, step: Step, x: Hash32) {
    VoteDigest(c.height, round, step, Some(x), v) in w.signed
  }

  /** Everyone whose vote for x could be shown: correct signers and the faulty. */
  ghost function Backers(c: Setup, w: World, round: nat, step: Step, x: Hash32): set<ValidatorId> {
    (set v | v in c.correct && Signed(c, w, v, round, step, x)) + Faulty(c)
  }

  ghost predicate PossibleQuorum(c: Setup, w: World, round: nat, step: Step, x: Hash32) {
    Power(c.engine.validators, Backers(c, w, round, step, x)) >= c.engine.quorumPower
  }

  /** Correct validators that precommitted x in `round` or are still free to. */
  ghost function Precommitters(c: Setup, w: World, round: nat, x: Hash32): set<ValidatorId>
    requires w.states.Keys == c.correct
  {
    (set v | v in c.correct
             && (Signed(c, w, v, round, Precommit, x)
                 || (w.states[v].round <= round && !HasSigned(c, w, v, round, Precommit)))) + Faulty(c)
  }

  /** Some continuation could still decide x in `round`. */
  ghost predicate Decidable(c: Setup, w: World, round: nat, x: Hash32)
    requires w.states.Keys == c.correct
  {
    Power(c.engine.validators, Precommitters(c, w, round, x)) >= c.engine.quorumPower
  }

  // -------------------------------------------------------------- invariant

  ghost predicate LocalInv(c: Setup, w: World, v: ValidatorId)
    requires v in w.states
  {
    var s := w.states[v];
    && Inv(c.engine, s) && s.height == c.height
    && (forall vote :: vote in s.votes && vote.validatorId in c.correct ==> VoteContent(vote) in w.signed)
  }

  /** Signed votes come from rounds already entered, one value per slot; a signed
      precommit is backed by a prevote quorum and leaves a lock at its round or later. */
  ghost predicate SignedInv(c: Setup, w: World)
    requires w.states.Keys == c.correct
  {
    && (forall v, round: nat, step, a, b ::
          VoteDigest(c.height, round, step, a, v) in w.signed && VoteDigest(c.height, round, step, b, v) in w.signed ==> a == b)
    && (forall v, round: nat, step, a :: v in c.correct && VoteDigest(c.height, round, step, a, v) in w.signed
          ==> round <= w.states[v].round)
    && (forall v, round: nat, x: nat :: v in c.correct && Signed(c, w, v, round, Precommit, x)
          ==> PossibleQuorum(c, w, round, Prevote, x)
              && w.states[v].lockedRound.Some? && round <= w.states[v].lockedRound.value)
  }

  /** Some round in [from, before) could show a prevote quorum for y. */
  ghost predicate QuorumWithin(c: Setup, w: World, from: nat, before: nat, y: Hash32) {
    exists r: nat :: from <= r < before && PossibleQuorum(c, w, r, Prevote, y)
  }

  /** A correct validator that precommitted x leaves it for y only on seeing a
      prevote quorum for y from the precommit round or later. */
  ghost predicate ExcuseInv(c: Setup, w: World) {
    forall v, round: nat, x: nat, later: nat, y: nat ::
      v in c.correct && Signed(c, w, v, round, Precommit, x) && Signed(c, w, v, later, Prevote, y) && round < later && x != y
      ==> QuorumWithin(c, w, round, later + 1, y)
  }

  /** A prevote quorum for y rules out every decision for another value in an earlier round. */
  ghost predicate SafeInv(c: Setup, w: World)
    requires w.states.Keys == c.correct
  {
    forall round: nat, x: nat, later: nat, y: nat ::
      round < later && x != y && PossibleQuorum(c, w, later, Prevote, y) ==> !Decidable(c, w, round, x)
  }

  ghost predicate WorldInv(c: Setup, w: World) {
    && ValidSetup(c)
    && w.states.Keys == c.correct
    && (forall v :: v in c.correct ==> LocalInv(c, w, v))
    && SignedInv(c, w)
    && ExcuseInv(c, w)
    && SafeInv(c, w)
  }

  // ----------------------------------------------------------- monotonicity

  /** Signed votes accumulate and rounds only advance. */
  ghost predicate Grows(c: Setup, w: World, w': World) {
    && w.states.Keys == w'.states.Keys == c.correct
    && w.signed <= w'.signed
    && (forall v :: v in c.correct ==> w.states[v].round <= w'.states[v].round)
    && (forall v, round: nat, step, a :: VoteDigest(c.height, round, step, a, v) in w'.signed - w.signed
          ==> v in c.correct && round == w.states[v].round && !HasSigned(c, w, v, round, step))
  }

  lemma BackersGrow(c: Setup, w: World, w': World, round: nat, step: Step, x: Hash32)
    requires w.signed <= w'.signed && PossibleQuorum(c, w, round, step, x)
    ensures PossibleQuorum(c, w', round, step, x)
  {
    PowerMonotone(c.engine.validators, Backers(c, w, round, step, x), Backers(c, w', round, step, x));
  }

  lemma DecidableShrinks(c: Setup, w: World, w': World, round: nat, x: Hash32)
    requires Grows(c, w, w') && Decidable(c, w', round, x)
    ensures Decidable(c, w, round, x)
  {
    forall v | v in Precommitters(c, w', round, x) ensures v in Precommitters(c, w, round, x) {
      if v in c.correct && !Signed(c, w', v, round, Precommit, x) {
        if HasSigned(c, w, v, round, Precommit) {
          var value :| VoteDigest(c.height, round, Precommit, value, v) in w.signed;
          assert HasSigned(c, w', v, round, Precommit);
        }
      }
    }
    PowerMonotone(c.engine.validators, Precommitters(c, w', round, x), Precommitters(c, w, round, x));
  }

  /** A quorum held in one correct state is a possible quorum of the world. */
  lemma StateQuorumPossible(c: Setup, w: World, s: State, round: nat, step: Step, x: Hash32)
    requires s.height == c.height && VotesVerify(c.engine, s.votes)
    requires forall vote :: vote in s.votes && vote.validatorId in c.correct ==> VoteContent(vote) in w.signed
    requires HasQuorum(c.engine, s, round, step, Some(x))
    ensures PossibleQuorum(c, w, round, step, x)
  {
    var ids := Signers(s.votes, s.height, round, step, Some(x));
    forall id | id in ids ensures id in Backers(c, w, round, step, x) {
      var vote :| vote in s.votes && Matches(vote, s.height, round, step, Some(x)) && vote.validatorId == id;
      assert VoteContent(vote) == VoteDigest(c.height, round, step, Some(x), id);
      assert VerifyVote(c.engine, vote).Ok?;
    }
    PowerMonotone(c.engine.validators, ids, Backers(c, w, round, step, x));
  }

  lemma CorrectCommon(c: Setup, w: World, a: set<ValidatorId>, b: set<ValidatorId>) returns (v: ValidatorId)
    requires ValidSetup(c)
    requires a <= c.correct + Faulty(c)
    requires Power(c.engine.validators, a) >= c.engine.quorumPower && Power(c.engine.validators, b) >= c.engine.quorumPower
    ensures v in c.correct && v in a && v in b
  {
    v := QuorumIntersection(c.engine, a, b, Faulty(c));
  }

  /** Two prevote quorums of one round agree. */
  lemma SameRoundQuorum(c: Setup, w: World, round: nat, step: Step, x: Hash32, y: Hash32)
    requires ValidSetup(c) && w.states.Keys == c.correct && SignedInv(c, w)
    requires PossibleQuorum(c, w, round, step, x) && PossibleQuorum(c, w, round, step, y)
    ensures x == y
  {
    var v := CorrectCommon(c, w, Backers(c, w, round, step, x), Backers(c, w, round, step, y));
    assert VoteDigest(c.height, round, step, Some(x), v) in w.signed && VoteDigest(c.height, round, step, Some(y), v) in w.signed;
  }

  // ------------------------------------------------- steps that sign nothing

  /** A step that only moves one round state along keeps the invariant. */
  lemma LocalStepInv(c: Setup, w: World, v: ValidatorId, s': State)
    requires WorldInv(c, w) && v in c.correct
    requires Inv(c.engine, s') && s'.height == c.height && w.states[v].round <= s'.round
    requires forall vote :: vote in s'.votes && vote.validatorId in c.correct ==> VoteContent(vote) in w.signed
    requires w.states[v].lockedRound.Some? ==> s'.lockedRound.Some? && w.states[v].lockedRound.value <= s'.lockedRound.value
    ensures WorldInv(c, w.(states := w.states[v := s'])) && Grows(c, w, w.(states := w.states[v := s']))
  {
    var w' := w.(states := w.states[v := s']);
    LocalStepGrows(c, w, v, s');
    LocalStepLocals(c, w, v, s');
    LocalStepWorld(c, w, w');
  }

  lemma LocalStepGrows(c: Setup, w: World, v: ValidatorId, s': State)
    requires w.states.Keys == c.correct && v in c.correct && w.states[v].round <= s'.round
    ensures Grows(c, w, w.(states := w.states[v := s']))
  {
    var w' := w.(states := w.states[v := s']);
    assert w'.states.Keys == c.correct && w'.signed - w.signed == {};
  }

  lemma LocalStepLocals(c: Setup, w: World, v: ValidatorId, s': State)
    requires w.states.Keys == c.correct && v in c.correct && forall u :: u in c.correct ==> LocalInv(c, w, u)
    requires Inv(c.engine, s') && s'.height == c.height
    requires forall vote :: vote in s'.votes && vote.validatorId in c.correct ==> VoteContent(vote) in w.signed
    ensures forall u :: u in c.correct ==> LocalInv(c, w.(states := w.states[v := s']), u)
  {
    var w' := w.(states := w.states[v := s']);
    forall u | u in c.correct ensures LocalInv(c, w', u) {
      if u != v { LocalInvCarries(c, w, w', u); }
    }
  }

  /** Moving round states along without signing keeps the network-wide invariants. */
  lemma LocalStepWorld(c: Setup, w: World, w': World)
    requires w'.signed == w.signed && Grows(c, w, w') && SignedInv(c, w) && ExcuseInv(c, w) && SafeInv(c, w)
    requires forall u :: u in c.correct && w.states[u].lockedRound.Some? ==>
               w'.states[u].lockedRound.Some? && w.states[u].lockedRound.value <= w'.states[u].lockedRound.value
    ensures SignedInv(c, w') && ExcuseInv(c, w') && SafeInv(c, w')
  {
    SameSignedQuorums(c, w, w');
    SafeStep(c, w, w');
    SameSignedBookkeeping(c, w, w');
  }

  lemma LocalInvCarries(c: Setup, w: World, w': World, u: ValidatorId)
    requires u in w.states && u in w'.states && w'.states[u] == w.states[u] && w.signed <= w'.signed
    requires LocalInv(c, w, u)
    ensures LocalInv(c, w', u)
  {
  }

  lemma SameSignedBookkeeping(c: Setup, w: World, w': World)
    requires w'.signed == w.signed && Grows(c, w, w') && SignedInv(c, w)
    requires forall r: nat, step, x: nat :: PossibleQuorum(c, w', r, step, x) == PossibleQuorum(c, w, r, step, x)
    requires forall u :: u in c.correct && w.states[u].lockedRound.Some? ==>
               w'.states[u].lockedRound.Some? && w.states[u].lockedRound.value <= w'.states[u].lockedRound.value
    ensures SignedInv(c, w')
  {
    forall u, round: nat, x: nat | u in c.correct && Signed(c, w', u, round, Precommit, x)
      ensures PossibleQuorum(c, w', round, Prevote, x)
              && w'.states[u].lockedRound.Some? && round <= w'.states[u].lockedRound.value
    {
      assert Signed(c, w, u, round, Precommit, x);
    }
  }

  /** Possible quorums and excuses depend on the signed votes alone. */
  lemma SameSignedQuorums(c: Setup, w: World, w': World)
    requires w'.signed == w.signed && ExcuseInv(c, w)
    ensures forall r: nat, step, x: nat :: PossibleQuorum(c, w', r, step, x) == PossibleQuorum(c, w, r, step, x)
    ensures ExcuseInv(c, w')
  {
    forall r: nat, step, x: nat ensures PossibleQuorum(c, w', r, step, x) == PossibleQuorum(c, w, r, step, x) {
      assert Backers(c, w', r, step, x) == Backers(c, w, r, step, x);
    }
    forall u, round: nat, x: nat, later: nat, y: nat | u in c.correct && Signed(c, w', u, round, Precommit, x)
        && Signed(c, w', u, later, Prevote, y) && round < later && x != y
      ensures QuorumWithin(c, w', round, later + 1, y)
    {
      assert Signed(c, w, u, round, Precommit, x) && Signed(c, w, u, later, Prevote, y);
      assert QuorumWithin(c, w, round, later + 1, y);
    }
  }

  /** Without a new prevote quorum, `SafeInv` carries over. */
  lemma SafeStep(c: Setup, w: World, w': World)
    requires Grows(c, w, w') && SafeInv(c, w)
    requires forall r: nat, y: nat :: PossibleQuorum(c, w', r, Prevote, y) ==> PossibleQuorum(c, w, r, Prevote, y)
    ensures SafeInv(c, w')
  {
    forall round: nat, x: nat, later: nat, y: nat | round < later && x != y && PossibleQuorum(c, w', later, Prevote, y)
      ensures !Decidable(c, w', round, x)
    {
      assert !Decidable(c, w, round, x);
      if Decidable(c, w', round, x) { DecidableShrinks(c, w, w', round, x); }
    }
  }

  // ------------------------------------------------------- signing a prevote

  /** What a correct validator can show when it prevotes y: its lock is not above
      the round of a prevote quorum for y, and that round is not in the future. */
  lemma PrevoteExcuse(c: Setup, w: World, v: ValidatorId, y: Hash32, round: nat, x: Hash32)
    requires WorldInv(c, w) && v in c.correct
    requires PrevoteValue(c.engine, w.states[v]) == Ok(Some(y))
    requires Signed(c, w, v, round, Precommit, x) && round < w.states[v].round
    ensures QuorumWithin(c, w, round, w.states[v].round + 1, y)
  {
    var s := w.states[v];
    assert LocalInv(c, w, v);
    var p := FindProposal(s.proposals, s.round).value;
    var shown := if s.lockedValue == Some(y) then s.lockedRound.value else p.validRound.value;
    if s.lockedValue != Some(y) {
      assert ValidProposal(c.engine, s, p);
      VotePowerExact(c.engine, s.votes, s.height, p.validRound.value, Prevote, Some(p.blockHash));
    }
    StateQuorumPossible(c, w, s, shown, Prevote, y);
  }

  lemma SignedPrevoteExcuse(c: Setup, w: World, w': World, v: ValidatorId, value: Option<Hash32>)
    requires WorldInv(c, w) && v in c.correct
    requires PrevoteValue(c.engine, w.states[v]) == Ok(value)
    requires w' == w.(signed := w.signed + {VoteDigest(c.height, w.states[v].round, Prevote, value, v)})
    ensures ExcuseInv(c, w')
  {
    forall u, round: nat, x: nat, later: nat, y: nat | u in c.correct && Signed(c, w', u, round, Precommit, x)
        && Signed(c, w', u, later, Prevote, y) && round < later && x != y
      ensures QuorumWithin(c, w', round, later + 1, y)
    {
      assert Signed(c, w, u, round, Precommit, x);
      if !Signed(c, w, u, later, Prevote, y) { PrevoteExcuse(c, w, v, y, round, x); }
      assert QuorumWithin(c, w, round, later + 1, y);
      var r: nat :| round <= r < later + 1 && PossibleQuorum(c, w, r, Prevote, y);
      BackersGrow(c, w, w', r, Prevote, y);
    }
  }

  /** The heart of the argument: a prevote quorum that forms in this very step
      cannot contradict a value that is still decidable in an earlier round. */
  lemma NewQuorumSafe(c: Setup, w: World, w': World, round: nat, x: Hash32, later: nat, y: Hash32)
    requires WorldInv(c, w) && Grows(c, w, w') && SignedInv(c, w')
    requires forall u :: u in c.correct && Signed(c, w', u, round, Precommit, x) ==> Signed(c, w, u, round, Precommit, x)
    requires forall u, r: nat | u in c.correct && round < r && Signed(c, w, u, round, Precommit, x)
                                && Signed(c, w', u, r, Prevote, y) && !Signed(c, w, u, r, Prevote, y)
                              :: QuorumWithin(c, w, round, r + 1, y)
    requires round < later && x != y
    requires PossibleQuorum(c, w', later, Prevote, y) && !PossibleQuorum(c, w, later, Prevote, y)
    ensures !Decidable(c, w', round, x)
  {
    if Decidable(c, w', round, x) {
      var u := CorrectCommon(c, w', Backers(c, w', later, Prevote, y), Precommitters(c, w', round, x));
      assert Signed(c, w', u, later, Prevote, y);
      assert later <= w'.states[u].round;
      assert Signed(c, w, u, round, Precommit, x);
      assert QuorumWithin(c, w, round, later + 1, y);
      var r: nat :| round <= r < later + 1 && PossibleQuorum(c, w, r, Prevote, y);
      if r == round {
        SameRoundQuorum(c, w, round, Prevote, x, y);
      } else {
        assert !Decidable(c, w, round, x);
        DecidableShrinks(c, w, w', round, x);
      }
    }
  }

  lemma SignPrevoteInv(c: Setup, w: World, v: ValidatorId)
    requires WorldInv(c, w) && v in c.correct
    ensures WorldInv(c, Sign(c, w, v, Prevote, PrevoteValue(c.engine, w.states[v])))
  {
    var s := w.states[v];
    var r := PrevoteValue(c.engine, s);
    var w' := Sign(c, w, v, Prevote, r);
    if w' != w {
      var digest := VoteDigest(c.height, s.round, Prevote, r.value, v);
      assert w'.signed == w.signed + {digest};
      assert forall u, round: nat, x: nat :: Signed(c, w', u, round, Precommit, x) <==> Signed(c, w, u, round, Precommit, x);
      SignedGrows(c, w, v, Prevote, r.value);
      SignedPrevoteExcuse(c, w, w', v, r.value);
      forall round: nat, x: nat, later: nat, y: nat | round < later && x != y && PossibleQuorum(c, w', later, Prevote, y)
        ensures !Decidable(c, w', round, x)
      {
        if PossibleQuorum(c, w, later, Prevote, y) {
          if Decidable(c, w', round, x) { DecidableShrinks(c, w, w', round, x); }
        } else {
          if r.value == Some(y) && Signed(c, w, v, round, Precommit, x) && round < s.round { PrevoteExcuse(c, w, v, y, round, x); }
          NewQuorumSafe(c, w, w', round, x, later, y);
        }
      }
    }
  }

  /** Signing one fresh slot of the current round keeps the bookkeeping invariants. */
  lemma SignedGrows(c: Setup, w: World, v: ValidatorId, step: Step, value: Option<Hash32>)
    requires ValidSetup(c) && w.states.Keys == c.correct && v in c.correct && SignedInv(c, w)
    requires forall u :: u in c.correct ==> LocalInv(c, w, u)
    requires !HasSigned(c, w, v, w.states[v].round, step)
    requires step.Precommit? && value.Some? ==>
      PossibleQuorum(c, w, w.states[v].round, Prevote, value.value) && w.states[v].lockedRound == Some(w.states[v].round)
    ensures var w' := w.(signed := w.signed + {VoteDigest(c.height, w.states[v].round, step, value, v)});
      Grows(c, w, w') && SignedInv(c, w') && forall u :: u in c.correct ==> LocalInv(c, w', u)
  {
    var w' := w.(signed := w.signed + {VoteDigest(c.height, w.states[v].round, step, value, v)});
    forall u, round: nat, x: nat | u in c.correct && Signed(c, w', u, round, Precommit, x)
      ensures PossibleQuorum(c, w', round, Prevote, x)
              && w'.states[u].lockedRound.Some? && round <= w'.states[u].lockedRound.value
    {
      BackersGrow(c, w, w', round, Prevote, x);
    }
    forall u | u in c.correct ensures LocalInv(c, w', u) {
      LocalInvCarries(c, w, w', u);
    }
  }

  // ----------------------------------------------------- signing a precommit

  lemma SignPrecommitInv(c: Setup, w: World, v: ValidatorId)
    requires WorldInv(c, w) && v in c.correct
    requires PrecommitValue(c.engine, w.states[v]).0 == w.states[v]
    ensures WorldInv(c, Sign(c, w, v, Precommit, PrecommitValue(c.engine, w.states[v]).1))
  {
    var s := w.states[v];
    assert LocalInv(c, w, v);
    PrecommitValueInv(c.engine, s);
    var r := PrecommitValue(c.engine, s).1;
    var w' := Sign(c, w, v, Precommit, r);
    if w' != w {
      if r.value.Some? {
        PrecommitValueExact(c.engine, s, r.value);
        StateQuorumPossible(c, w, s, s.round, Prevote, r.value.value);
      }
      SignedGrows(c, w, v, Precommit, r.value);
      assert forall u, round: nat, y: nat :: Signed(c, w', u, round, Prevote, y) <==> Signed(c, w, u, round, Prevote, y);
      assert forall round: nat, y: nat :: Backers(c, w', round, Prevote, y) == Backers(c, w, round, Prevote, y);
      SafeStep(c, w, w');
      forall u, round: nat, x: nat, later: nat, y: nat | u in c.correct && Signed(c, w', u, round, Precommit, x)
          && Signed(c, w', u, later, Prevote, y) && round < later && x != y
        ensures QuorumWithin(c, w', round, later + 1, y)
      {
        assert later <= w.states[u].round;
        assert Signed(c, w, u, round, Precommit, x);
        assert QuorumWithin(c, w, round, later + 1, y);
        var q: nat :| round <= q < later + 1 && PossibleQuorum(c, w, q, Prevote, y);
        BackersGrow(c, w, w', q, Prevote, y);
      }
    }
  }

  // ------------------------------------------------------------- every step

  /** After `precommit_value` has taken its lock, calling it again changes nothing. */
  lemma PrecommitValueIdempotent(e: Engine, s: State)
    requires Inv(e, s)
    ensures var (s', r) := PrecommitValue(e, s); PrecommitValue(e, s') == (s', r)
  {
    var (s', r) := PrecommitValue(e, s);
    PrecommitValueInv(e, s);
    if s.decision.None? && r.Ok? {
      PrecommitValueExact(e, s, r.value);
      QuorumGrows(e, s, s', s.round, Prevote, r.value);
      PrecommitValueExact(e, s', r.value);
    }
  }

  lemma PrecommitStepInv(c: Setup, w: World, v: ValidatorId)
    requires WorldInv(c, w) && v in c.correct
    ensures var w' := w.(states := w.states[v := PrecommitValue(c.engine, w.states[v]).0]);
      WorldInv(c, w') && Grows(c, w, w')
  {
    assert LocalInv(c, w, v);
    PrecommitValueInv(c.engine, w.states[v]);
    LocalStepInv(c, w, v, PrecommitValue(c.engine, w.states[v]).0);
  }

  lemma DeliverProposalInv(c: Setup, w: World, v: ValidatorId, p: Proposal)
    requires WorldInv(c, w) && v in c.correct
    ensures WorldInv(c, w.(states := w.states[v := ReceiveProposal(c.engine, w.states[v], p).0]))
  {
    assert LocalInv(c, w, v);
    ReceiveProposalInv(c.engine, w.states[v], p);
    LocalStepInv(c, w, v, ReceiveProposal(c.engine, w.states[v], p).0);
  }

  lemma DeliverVoteInv(c: Setup, w: World, v: ValidatorId, vote: Vote)
    requires WorldInv(c, w) && v in c.correct && Unforged(c, w, vote)
    ensures WorldInv(c, w.(states := w.states[v := ReceiveVote(c.engine, w.states[v], vote).0]))
  {
    assert LocalInv(c, w, v);
    ReceiveVoteInv(c.engine, w.states[v], vote);
    ReceiveVoteFrame(c.engine, w.states[v], vote);
    LocalStepInv(c, w, v, ReceiveVote(c.engine, w.states[v], vote).0);
  }

  lemma AdvanceInv(c: Setup, w: World, v: ValidatorId)
    requires WorldInv(c, w) && v in c.correct
    ensures WorldInv(c, w.(states := w.states[v := AdvanceRound(w.states[v]).0]))
  {
    assert LocalInv(c, w, v);
    AdvanceRoundInv(c.engine, w.states[v]);
    LocalStepInv(c, w, v, AdvanceRound(w.states[v]).0);
  }

  lemma PrecommitThenSignInv(c: Setup, w: World, v: ValidatorId)
    requires WorldInv(c, w) && v in c.correct
    ensures WorldInv(c, Next(c, w, SignPrecommit(v)))
  {
    assert LocalInv(c, w, v);
    PrecommitStepInv(c, w, v);
    PrecommitValueIdempotent(c.engine, w.states[v]);
    var (s', r) := PrecommitValue(c.engine, w.states[v]);
    var w1 := w.(states := w.states[v := s']);
    SignPrecommitInv(c, w1, v);
    assert Next(c, w, SignPrecommit(v)) == Sign(c, w1, v, Precommit, r);
  }

  lemma NextInv(c: Setup, w: World, a: Action)
    requires WorldInv(c, w)
    ensures WorldInv(c, Next(c, w, a))
  {
    var v := Actor(a);
    if v in w.states {
      match a
      case DeliverProposal(_, p) => DeliverProposalInv(c, w, v, p);
      case DeliverVote(_, vote) => if Unforged(c, w, vote) { DeliverVoteInv(c, w, v, vote); }
      case SignPrevote(_) => SignPrevoteInv(c, w, v);
      case CallPrecommit(_) => PrecommitStepInv(c, w, v);
      case SignPrecommit(_) => PrecommitThenSignInv(c, w, v);
      case Advance(_) => AdvanceInv(c, w, v);
    }
  }

  lemma InitInv(c: Setup)
    requires ValidSetup(c)
    ensures WorldInv(c, Init(c))
  {
    var w := Init(c);
    NewRoundStateInv(c.engine, c.height);
    forall round, step, x ensures !PossibleQuorum(c, w, round, step, x) {
      assert Backers(c, w, round, step, x) == Faulty(c);
    }
  }

  lemma {:induction false} ExecuteInv(c: Setup, w: World, actions: seq<Action>)
    requires WorldInv(c, w)
    ensures WorldInv(c, Execute(c, w, actions))
    decreases |actions|
  {
    if actions != [] {
      NextInv(c, w, actions[0]);
      ExecuteInv(c, Next(c, w, actions[0]), actions[1..]);
    }
  }

  // -------------------------------------------------------------- agreement

  /** A decision that passes the certificate check, no matter who assembled it,
      as long as its correct signatures are genuine. */
  ghost predicate Shown(c: Setup, w: World, d: Decision) {
    && d.height == c.height
    && Certifies(c.engine, d)
    && (forall vote :: vote in d.precommits ==> Unforged(c, w, vote))
  }

  lemma {:induction false} CertifiedSigners(e: Engine, votes: seq<Vote>, height: nat, round: nat, step: Step,
                                            value: Option<Hash32>, seen: set<ValidatorId>)
    requires ValidEngine(e)
    requires VotePowerFrom(e, votes, height, round, step, value, seen, Power(e.validators, seen)).Ok?
    ensures VotePowerFrom(e, votes, height, round, step, value, seen, Power(e.validators, seen)).value
         == Power(e.validators, seen + Signers(votes, height, round, step, value))
    ensures forall v :: v in votes && Matches(v, height, round, step, value) ==> VerifyVote(e, v).Ok?
  {
    var all := Signers(votes, height, round, step, value);
    if votes == [] {
      assert seen + all == seen;
    } else {
      var rest := Signers(votes[1..], height, round, step, value);
      assert votes == [votes[0]] + votes[1..];
      if !Matches(votes[0], height, round, step, value) {
        assert all == rest;
        CertifiedSigners(e, votes[1..], height, round, step, value, seen);
      } else {
        var id := votes[0].validatorId;
        assert all == {id} + rest;
        PowerInsert(e.validators, seen, id);
        CertifiedSigners(e, votes[1..], height, round, step, value, seen + {id});
        assert seen + {id} + rest == seen + all;
      }
    }
  }

  lemma ShownIsPossible(c: Setup, w: World, d: Decision)
    requires ValidSetup(c) && Shown(c, w, d)
    ensures PossibleQuorum(c, w, d.round, Precommit, d.blockHash)
  {
    var ids := Signers(d.precommits, d.height, d.round, Precommit, Some(d.blockHash));
    EmptyPower(c.engine.validators);
    CertifiedSigners(c.engine, d.precommits, d.height, d.round, Precommit, Some(d.blockHash), {});
    assert {} + ids == ids;
    forall id | id in ids ensures id in Backers(c, w, d.round, Precommit, d.blockHash) {
      var vote :| vote in d.precommits && Matches(vote, d.height, d.round, Precommit, Some(d.blockHash)) && vote.validatorId == id;
      assert Unforged(c, w, vote);
    }
    PowerMonotone(c.engine.validators, ids, Backers(c, w, d.round, Precommit, d.blockHash));
  }

  /** A precommit quorum rests on a prevote quorum of the same round. */
  lemma PrecommitNeedsPrevotes(c: Setup, w: World, round: nat, x: Hash32)
    requires WorldInv(c, w) && PossibleQuorum(c, w, round, Precommit, x)
    ensures PossibleQuorum(c, w, round, Prevote, x)
  {
    var b := Backers(c, w, round, Precommit, x);
    var v := CorrectCommon(c, w, b, b);
    assert Signed(c, w, v, round, Precommit, x);
  }

  lemma LaterDecisionAgrees(c: Setup, w: World, d: Decision, d': Decision)
    requires WorldInv(c, w) && Shown(c, w, d) && Shown(c, w, d') && d.round <= d'.round
    ensures d.blockHash == d'.blockHash
  {
    ShownIsPossible(c, w, d);
    ShownIsPossible(c, w, d');
    PrecommitNeedsPrevotes(c, w, d.round, d.blockHash);
    PrecommitNeedsPrevotes(c, w, d'.round, d'.blockHash);
    if d.round == d'.round {
      SameRoundQuorum(c, w, d.round, Prevote, d.blockHash, d'.blockHash);
    } else if d.blockHash != d'.blockHash {
      assert !Decidable(c, w, d.round, d.blockHash);
      PowerMonotone(c.engine.validators, Backers(c, w, d.round, Precommit, d.blockHash),
                    Precommitters(c, w, d.round, d.blockHash));
    }
  }

  /** AGREEMENT.  After any run, any two decisions that pass the certificate check,
      in any rounds and assembled by anyone, name the same block. */
  lemma CertificatesAgree(c: Setup, actions: seq<Action>, d: Decision, d': Decision)
    requires ValidSetup(c)
    requires Shown(c, Execute(c, Init(c), actions), d) && Shown(c, Execute(c, Init(c), actions), d')
    ensures d.blockHash == d'.blockHash
  {
    var w := Execute(c, Init(c), actions);
    InitInv(c);
    ExecuteInv(c, Init(c), actions);
    if d.round <= d'.round { LaterDecisionAgrees(c, w, d, d'); } else { LaterDecisionAgrees(c, w, d', d); }
  }

  /** AGREEMENT among correct validators: their decisions name the same block. */
  lemma ValidatorsAgree(c: Setup, actions: seq<Action>, v: ValidatorId, u: ValidatorId)
    requires ValidSetup(c) && v in c.correct && u in c.correct
    ensures var w := Execute(c, Init(c), actions);
      && v in w.states && u in w.states
      && (w.states[v].decision.Some? && w.states[u].decision.Some?
          ==> w.states[v].decision.value.blockHash == w.states[u].decision.value.blockHash)
  {
    var w := Execute(c, Init(c), actions);
    InitInv(c);
    ExecuteInv(c, Init(c), actions);
    assert LocalInv(c, w, v) && LocalInv(c, w, u);
    if w.states[v].decision.Some? && w.states[u].decision.Some? {
      CertificatesAgree(c, actions, w.states[v].decision.value, w.states[u].decision.value);
    }
  }

  // ------------------------------------------------------------------ a setup exists

  lemma {:induction false} FourWeights(a: Validator, b: Validator, d: Validator, f: Validator)
    requires a.weight == b.weight == d.weight == f.weight == 1 && f.id !in {a.id, b.id, d.id}
    ensures TotalPower([a, b, d, f]) == 4 && Power([a, b, d, f], {f.id}) == 1
  {
    assert [f][1..] == [] && [d, f][1..] == [f] && [b, d, f][1..] == [d, f] && [a, b, d, f][1..] == [b, d, f];
    assert TotalPower([f]) == 1 && TotalPower([d, f]) == 2 && TotalPower([b, d, f]) == 3;
    assert Power([f], {f.id}) == 1 && Power([d, f], {f.id}) == 1 && Power([b, d, f], {f.id}) == 1;
  }

  lemma {:induction false} FourIds(a: Validator, b: Validator, d: Validator, f: Validator)
    ensures Ids([a, b, d, f]) == {a.id, b.id, d.id, f.id}
  {
    var vs := [a, b, d, f];
    assert a in vs && b in vs && d in vs && f in vs;
  }

  lemma {:induction false} FourSetup(c: Setup, a: Validator, b: Validator, d: Validator, f: Validator)
    requires a.weight == b.weight == d.weight == f.weight == 1 && f.id !in {a.id, b.id, d.id}
    requires Admissible(a) && Admissible(b) && Admissible(d) && Admissible(f) && Sorted([a, b, d, f])
    requires c.engine == Engine([a, b, d, f], 3) && c.correct == {a.id, b.id, d.id}
    ensures ValidSetup(c) && Faulty(c) == {f.id} && c.correct != {}
  {
    FourWeights(a, b, d, f);
    FourIds(a, b, d, f);
    assert Faulty(c) == {f.id} && a.id in c.correct;
  }

  /** Four validators of power one with quorum three, one of them faulty, meet every assumption. */
  lemma {:induction false} SetupExists()
    ensures exists c: Setup :: ValidSetup(c) && Faulty(c) != {} && c.correct != {}
  {
    var a, b, d, f := Validator([1], Point(1), 1), Validator([2], Point(2), 1), Validator([3], Point(3), 1), Validator([4], Point(4), 1);
    FourSetup(Setup(Engine([a, b, d, f], 3), 0, {[1], [2], [3]}), a, b, d, f);
  }
}
