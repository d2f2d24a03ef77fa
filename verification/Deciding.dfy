/** Decisions are reached: in every setup with a correct validator, and for every block, some run of
    the network decides that block in the first round. */
module Deciding {
  import opened Prelude
  import opened Validators
  import opened RoundState
  import opened RoundInvariant
  import opened Agreement
  import Proposer

  // ------------------------------------------------------------------- the messages

  ghost function KeyOf(e: Engine, id: ValidatorId): PublicKey {
    var found := Find(e.validators, id);
    if found.Some? then found.value.publicKey else OffCurve(0)
  }

  /** The honest first-round vote of a validator for block x. */
  ghost function VoteFor(c: Setup, step: Step, x: Hash32, id: ValidatorId): Vote {
    Vote(c.height, 0, step, Some(x), id, Schnorr(KeyOf(c.engine, id), VoteDigest(c.height, 0, step, Some(x), id), 0))
  }

  ghost function VotesFor(c: Setup, step: Step, x: Hash32, vs: seq<Validator>): (votes: seq<Vote>)
    ensures |votes| == |vs| && forall i :: 0 <= i < |vs| ==> votes[i] == VoteFor(c, step, x, vs[i].id)
  {
    seq(|vs|, i requires 0 <= i < |vs| => VoteFor(c, step, x, vs[i].id))
  }

  ghost function ProposalFor(c: Setup, x: Hash32, id: ValidatorId): Proposal {
    Proposal(c.height, 0, x, None, id, Schnorr(KeyOf(c.engine, id), ProposalDigest(c.height, 0, x, None, id), 0))
  }

  lemma {:induction false} VoteVerifies(c: Setup, step: Step, x: Hash32, v: Validator)
    requires v in c.engine.validators
    ensures VerifyVote(c.engine, VoteFor(c, step, x, v.id)).Ok?
  {
  }

  lemma {:induction false} ProposalVerifies(c: Setup, x: Hash32) returns (p: Proposal)
    requires ValidSetup(c)
    ensures VerifyProposal(c.engine, p).Ok? && p.height == c.height && p.round == 0 && p.blockHash == x && p.validRound.None?
  {
    Proposer.ProposerAtTotal(c.engine.validators, Target(c.engine, c.height, 0));
    p := ProposalFor(c, x, ProposerId(c.engine, c.height, 0).value);
  }

  // ----------------------------------------------------------------- one round state

  /** A first-round state that has seen nothing but honest votes for x. */
  ghost predicate OnlyFor(c: Setup, x: Hash32, s: State) {
    && Inv(c.engine, s) && s.height == c.height && s.round == 0
    && forall v :: v in s.votes ==> v == VoteFor(c, v.step, x, v.validatorId)
  }

  ghost function Collect(e: Engine, s: State, votes: seq<Vote>): State
    decreases |votes|
  {
    if votes == [] then s else Collect(e, ReceiveVote(e, s, votes[0]).0, votes[1..])
  }

  lemma {:induction false} ReceivePrevote(c: Setup, x: Hash32, s: State, v: Validator)
    requires OnlyFor(c, x, s) && s.decision.None? && v in c.engine.validators
    ensures var vote := VoteFor(c, Prevote, x, v.id);
      var s' := ReceiveVote(c.engine, s, vote).0;
      && OnlyFor(c, x, s') && s'.decision.None? && vote in s'.votes && forall u :: u in s.votes ==> u in s'.votes
  {
    var vote := VoteFor(c, Prevote, x, v.id);
    VoteVerifies(c, Prevote, x, v);
    ReceiveVoteInv(c.engine, s, vote);
    ReceiveVoteFrame(c.engine, s, vote);
    var existing := FindVote(s.votes, 0, Prevote, v.id);
    if existing.None? {
      PushedVoteValid(c.engine, s, vote);
      CountVoteInv(c.engine, s.(votes := s.votes + [vote]), vote);
    }
  }

  lemma {:induction false} CollectPrevotes(c: Setup, x: Hash32, s: State, vs: seq<Validator>)
    requires OnlyFor(c, x, s) && s.decision.None? && forall v :: v in vs ==> v in c.engine.validators
    ensures var s' := Collect(c.engine, s, VotesFor(c, Prevote, x, vs));
      && OnlyFor(c, x, s') && s'.decision.None? && (forall u :: u in s.votes ==> u in s'.votes)
      && forall v :: v in vs ==> VoteFor(c, Prevote, x, v.id) in s'.votes
    decreases |vs|
  {
    if vs != [] {
      var votes := VotesFor(c, Prevote, x, vs);
      var next := ReceiveVote(c.engine, s, votes[0]).0;
      assert votes[1..] == VotesFor(c, Prevote, x, vs[1..]);
      assert OnlyFor(c, x, next) && next.decision.None? && votes[0] in next.votes && (forall u :: u in s.votes ==> u in next.votes) by {
        ReceivePrevote(c, x, s, vs[0]);
      }
      CollectPrevotes(c, x, next, vs[1..]);
      assert vs == [vs[0]] + vs[1..];
    }
  }

  /** Votes of all validators are a quorum. */
  lemma {:induction false} EveryVoteIsQuorum(c: Setup, x: Hash32, s: State, step: Step)
    requires ValidEngine(c.engine) && s.height == c.height
    requires forall v :: v in c.engine.validators ==> VoteFor(c, step, x, v.id) in s.votes
    ensures HasQuorum(c.engine, s, 0, step, Some(x))
  {
    var ids := Signers(s.votes, s.height, 0, step, Some(x));
    forall v | v in c.engine.validators
      ensures v.id in ids
    {
      assert Matches(VoteFor(c, step, x, v.id), s.height, 0, step, Some(x));
    }
    PowerAll(c.engine.validators, ids);
  }

  ghost predicate DecidedOn(s: State, x: Hash32) {
    s.decision.Some? && s.decision.value.blockHash == x
  }

  lemma {:induction false} ReceivePrecommit(c: Setup, x: Hash32, s: State, v: Validator)
    requires OnlyFor(c, x, s) && s.decision.None? && v in c.engine.validators && !HasQuorum(c.engine, s, 0, Precommit, Some(x))
    ensures var vote := VoteFor(c, Precommit, x, v.id);
      var s' := ReceiveVote(c.engine, s, vote).0;
      && (forall u :: u in s.votes ==> u in s'.votes)
      && (DecidedOn(s', x)
          || (OnlyFor(c, x, s') && s'.decision.None? && vote in s'.votes && !HasQuorum(c.engine, s', 0, Precommit, Some(x))))
  {
    var vote := VoteFor(c, Precommit, x, v.id);
    VoteVerifies(c, Precommit, x, v);
    ReceiveVoteInv(c.engine, s, vote);
    ReceiveVoteFrame(c.engine, s, vote);
    var existing := FindVote(s.votes, 0, Precommit, v.id);
    if existing.None? {
      var pushed := s.(votes := s.votes + [vote]);
      PushedVoteValid(c.engine, s, vote);
      CountVoteInv(c.engine, pushed, vote);
      VotePowerExact(c.engine, pushed.votes, pushed.height, 0, Precommit, Some(x));
    }
  }

  lemma {:induction false} StaysDecided(e: Engine, s: State, votes: seq<Vote>)
    requires s.decision.Some?
    ensures Collect(e, s, votes) == s
    decreases |votes|
  {
    if votes != [] { StaysDecided(e, s, votes[1..]); }
  }

  lemma {:induction false} CollectPrecommits(c: Setup, x: Hash32, s: State, vs: seq<Validator>)
    requires OnlyFor(c, x, s) && s.decision.None? && !HasQuorum(c.engine, s, 0, Precommit, Some(x))
    requires forall v :: v in vs ==> v in c.engine.validators
    ensures var s' := Collect(c.engine, s, VotesFor(c, Precommit, x, vs));
      || DecidedOn(s', x)
      || (&& s'.height == c.height && !HasQuorum(c.engine, s', 0, Precommit, Some(x))
          && (forall u :: u in s.votes ==> u in s'.votes)
          && forall v :: v in vs ==> VoteFor(c, Precommit, x, v.id) in s'.votes)
    decreases |vs|
  {
    if vs != [] {
      var votes := VotesFor(c, Precommit, x, vs);
      assert votes[1..] == VotesFor(c, Precommit, x, vs[1..]);
      assert vs == [vs[0]] + vs[1..];
      var s' := ReceiveVote(c.engine, s, votes[0]).0;
      ReceivePrecommit(c, x, s, vs[0]);
      if DecidedOn(s', x) {
        StaysDecided(c.engine, s', votes[1..]);
      } else {
        CollectPrecommits(c, x, s', vs[1..]);
      }
    }
  }

  /** The states a correct validator goes through. */
  ghost function Proposed(c: Setup, p: Proposal): State {
    State(c.height, 0, None, None, None, None, [p], [], None)
  }

  ghost function Prevoted(c: Setup, x: Hash32, p: Proposal): State {
    Collect(c.engine, Proposed(c, p), VotesFor(c, Prevote, x, c.engine.validators))
  }

  ghost function Precommitted(c: Setup, x: Hash32, p: Proposal): State {
    PrecommitValue(c.engine, Prevoted(c, x, p)).0
  }

  ghost predicate GoodProposal(c: Setup, x: Hash32, p: Proposal)
    requires ValidSetup(c)
  {
    VerifyProposal(c.engine, p).Ok? && p.height == c.height && p.round == 0 && p.blockHash == x && p.validRound.None?
  }

  lemma {:induction false} ProposedState(c: Setup, x: Hash32, p: Proposal)
    requires ValidSetup(c) && GoodProposal(c, x, p)
    ensures ReceiveProposal(c.engine, NewRoundState(c.engine, c.height).value, p).0 == Proposed(c, p)
    ensures PrevoteValue(c.engine, Proposed(c, p)) == Ok(Some(x)) && OnlyFor(c, x, Proposed(c, p))
  {
    var s := NewRoundState(c.engine, c.height).value;
    NewRoundStateInv(c.engine, c.height);
    ReceiveProposalInv(c.engine, s, p);
    assert s.proposals + [p] == [p];
    assert FindProposal([p], 0) == Some(p);
  }

  lemma {:induction false} PrecommittedState(c: Setup, x: Hash32, p: Proposal)
    requires ValidSetup(c) && GoodProposal(c, x, p)
    ensures PrecommitValue(c.engine, Prevoted(c, x, p)).1 == Ok(Some(x))
    ensures var s := Precommitted(c, x, p);
      OnlyFor(c, x, s) && s.decision.None? && forall v :: v in s.votes ==> v.step == Prevote
  {
    ProposedState(c, x, p);
    var s := Prevoted(c, x, p);
    CollectPrevotes(c, x, Proposed(c, p), c.engine.validators);
    EveryVoteIsQuorum(c, x, s, Prevote);
    PrecommitValueExact(c.engine, s, Some(x));
    PrecommitValueInv(c.engine, s);
    PrevotesOnly(c, x, Proposed(c, p), c.engine.validators);
  }

  lemma {:induction false} PrevotesOnly(c: Setup, x: Hash32, s: State, vs: seq<Validator>)
    requires forall v :: v in s.votes ==> v.step == Prevote
    ensures forall v :: v in Collect(c.engine, s, VotesFor(c, Prevote, x, vs)).votes ==> v.step == Prevote
    decreases |vs|
  {
    if vs != [] {
      assert VotesFor(c, Prevote, x, vs)[1..] == VotesFor(c, Prevote, x, vs[1..]);
      ReceiveVoteFrame(c.engine, s, VotesFor(c, Prevote, x, vs)[0]);
      PrevotesOnly(c, x, ReceiveVote(c.engine, s, VotesFor(c, Prevote, x, vs)[0]).0, vs[1..]);
    }
  }

  lemma {:induction false} DecidesLocally(c: Setup, x: Hash32, p: Proposal)
    requires ValidSetup(c) && GoodProposal(c, x, p)
    ensures DecidedOn(Collect(c.engine, Precommitted(c, x, p), VotesFor(c, Precommit, x, c.engine.validators)), x)
  {
    var s := Precommitted(c, x, p);
    PrecommittedState(c, x, p);
    assert Signers(s.votes, s.height, 0, Precommit, Some(x)) == {};
    EmptyPower(c.engine.validators);
    CollectPrecommits(c, x, s, c.engine.validators);
    var s' := Collect(c.engine, s, VotesFor(c, Precommit, x, c.engine.validators));
    if !DecidedOn(s', x) { EveryVoteIsQuorum(c, x, s', Precommit); }
  }

  // ------------------------------------------------------------------- the network

  lemma {:induction false} ExecuteConcat(c: Setup, w: World, a: seq<Action>, b: seq<Action>)
    requires ValidSetup(c)
    ensures Execute(c, w, a + b) == Execute(c, Execute(c, w, a), b)
    decreases |a|
  {
    if a == [] {
      assert a + b == b;
    } else {
      assert (a + b)[0] == a[0] && (a + b)[1..] == a[1..] + b;
      ExecuteConcat(c, Next(c, w, a[0]), a[1..], b);
    }
  }

  ghost function Deliveries(who: ValidatorId, votes: seq<Vote>): (actions: seq<Action>)
    ensures |actions| == |votes| && forall i :: 0 <= i < |votes| ==> actions[i] == DeliverVote(who, votes[i])
  {
    seq(|votes|, i requires 0 <= i < |votes| => DeliverVote(who, votes[i]))
  }

  /** Votes that no one forged reach the state they are delivered to, and nothing else changes. */
  lemma {:induction false} DeliverAll(c: Setup, w: World, who: ValidatorId, votes: seq<Vote>)
    requires ValidSetup(c) && who in w.states && forall v :: v in votes ==> Unforged(c, w, v)
    ensures Execute(c, w, Deliveries(who, votes))
         == w.(states := w.states[who := Collect(c.engine, w.states[who], votes)])
    decreases |votes|
  {
    if votes == [] {
      assert w.states[who := w.states[who]] == w.states;
    } else {
      var next := Next(c, w, DeliverVote(who, votes[0]));
      assert votes[0] in votes;
      forall v | v in votes[1..]
        ensures Unforged(c, next, v)
      {
        assert v in votes && Unforged(c, w, v);
      }
      assert Deliveries(who, votes)[1..] == Deliveries(who, votes[1..]);
      DeliverAll(c, next, who, votes[1..]);
      assert next.states[who := Collect(c.engine, next.states[who], votes[1..])]
          == w.states[who := Collect(c.engine, w.states[who], votes)];
    }
  }

  ghost predicate DistinctIds(ids: seq<ValidatorId>) {
    forall i, j :: 0 <= i < j < |ids| ==> ids[i] != ids[j]
  }

  /** The states of the listed validators, all others being as in `before`. */
  ghost predicate StatesSet(before: World, after: World, ids: seq<ValidatorId>, s: State) {
    && after.states.Keys == before.states.Keys
    && forall v :: v in before.states ==> after.states[v] == if v in ids then s else before.states[v]
  }

  /** Exactly the listed validators have signed this first-round vote since. */
  ghost predicate SignedSet(c: Setup, before: World, after: World, ids: seq<ValidatorId>, step: Step, x: Hash32) {
    forall d :: d in after.signed <==> d in before.signed || exists v :: v in ids && d == VoteDigest(c.height, 0, step, Some(x), v)
  }

  lemma {:induction false} StatesSetCons(w: World, one: World, after: World, first: ValidatorId, rest: seq<ValidatorId>, s: State)
    requires first in w.states && one.states == w.states[first := s] && StatesSet(one, after, rest, s)
    ensures StatesSet(w, after, [first] + rest, s)
  {
  }

  lemma {:induction false} SignedSetCons(
      c: Setup, w: World, one: World, after: World, first: ValidatorId, rest: seq<ValidatorId>, step: Step, x: Hash32)
    requires one.signed == w.signed + {VoteDigest(c.height, 0, step, Some(x), first)}
    requires SignedSet(c, one, after, rest, step, x)
    ensures SignedSet(c, w, after, [first] + rest, step, x)
  {
    forall d
      ensures d in after.signed
         <==> d in w.signed || exists v :: v in [first] + rest && d == VoteDigest(c.height, 0, step, Some(x), v)
    {
      if d == VoteDigest(c.height, 0, step, Some(x), first) { assert first in [first] + rest; }
      if v :| v in rest && d == VoteDigest(c.height, 0, step, Some(x), v) { assert v in [first] + rest; }
    }
  }

  /** The validators in the list have not signed this step, and are in the given state. */
  ghost predicate Waiting(c: Setup, w: World, ids: seq<ValidatorId>, step: Step, s: State) {
    DistinctIds(ids) && forall v :: v in ids ==> v in w.states && w.states[v] == s && !HasSigned(c, w, v, 0, step)
  }

  lemma {:induction false} StillUnsigned(c: Setup, w: World, one: World, v: ValidatorId, first: ValidatorId, step: Step, x: Hash32)
    requires one.signed == w.signed + {VoteDigest(c.height, 0, step, Some(x), first)} && v != first
    requires !HasSigned(c, w, v, 0, step)
    ensures !HasSigned(c, one, v, 0, step)
  {
  }

  lemma {:induction false} RestWaits(c: Setup, w: World, one: World, ids: seq<ValidatorId>, step: Step, s: State, s': State, x: Hash32)
    requires ids != [] && Waiting(c, w, ids, step, s)
    requires one.states == w.states[ids[0] := s'] && one.signed == w.signed + {VoteDigest(c.height, 0, step, Some(x), ids[0])}
    ensures Waiting(c, one, ids[1..], step, s) && ids == [ids[0]] + ids[1..]
  {
    forall v | v in ids[1..]
      ensures v in one.states && one.states[v] == s && !HasSigned(c, one, v, 0, step)
    {
      var i :| 0 <= i < |ids| - 1 && ids[1..][i] == v;
      assert ids[i + 1] == v && v in ids && v != ids[0];
      StillUnsigned(c, w, one, v, ids[0], step, x);
    }
  }

  ghost function Propose(p: Proposal, ids: seq<ValidatorId>): seq<Action> {
    if ids == [] then [] else [DeliverProposal(ids[0], p), SignPrevote(ids[0])] + Propose(p, ids[1..])
  }

  lemma {:induction false} SameSigned(c: Setup, w: World, w': World, v: ValidatorId, step: Step)
    requires w'.signed == w.signed && !HasSigned(c, w, v, 0, step)
    ensures !HasSigned(c, w', v, 0, step)
  {
  }

  lemma {:induction false} TwoActions(c: Setup, w: World, a: Action, b: Action)
    requires ValidSetup(c)
    ensures Execute(c, w, [a, b]) == Next(c, Next(c, w, a), b)
  {
    assert [a, b][1..] == [b] && [b][1..] == [];
    assert Execute(c, Next(c, w, a), [b]) == Execute(c, Next(c, Next(c, w, a), b), []);
  }

  lemma {:induction false} PrevoteSigned(c: Setup, x: Hash32, p: Proposal, w: World, v: ValidatorId)
    requires ValidSetup(c) && v in w.states && w.states[v] == Proposed(c, p) && !HasSigned(c, w, v, 0, Prevote)
    requires PrevoteValue(c.engine, Proposed(c, p)) == Ok(Some(x))
    ensures Next(c, w, SignPrevote(v)) == w.(signed := w.signed + {VoteDigest(c.height, 0, Prevote, Some(x), v)})
  {
  }

  lemma {:induction false} ProposeOne(c: Setup, x: Hash32, p: Proposal, w: World, v: ValidatorId)
    requires ValidSetup(c) && GoodProposal(c, x, p) && v in w.states
    requires w.states[v] == NewRoundState(c.engine, c.height).value && !HasSigned(c, w, v, 0, Prevote)
    ensures Execute(c, w, [DeliverProposal(v, p), SignPrevote(v)])
         == World(w.states[v := Proposed(c, p)], w.signed + {VoteDigest(c.height, 0, Prevote, Some(x), v)})
  {
    ProposedState(c, x, p);
    var one := w.(states := w.states[v := Proposed(c, p)]);
    assert Next(c, w, DeliverProposal(v, p)) == one;
    SameSigned(c, w, one, v, Prevote);
    PrevoteSigned(c, x, p, one, v);
    TwoActions(c, w, DeliverProposal(v, p), SignPrevote(v));
  }

  lemma {:induction false} ProposeEach(c: Setup, x: Hash32, p: Proposal, w: World, ids: seq<ValidatorId>)
    requires ValidSetup(c) && GoodProposal(c, x, p)
    requires Waiting(c, w, ids, Prevote, NewRoundState(c.engine, c.height).value)
    ensures var after := Execute(c, w, Propose(p, ids));
      StatesSet(w, after, ids, Proposed(c, p)) && SignedSet(c, w, after, ids, Prevote, x)
    decreases |ids|
  {
    if ids != [] {
      var script, rest := [DeliverProposal(ids[0], p), SignPrevote(ids[0])], Propose(p, ids[1..]);
      var one := Execute(c, w, script);
      assert ids[0] in ids;
      ProposeOne(c, x, p, w, ids[0]);
      RestWaits(c, w, one, ids, Prevote, NewRoundState(c.engine, c.height).value, Proposed(c, p), x);
      ProposeEach(c, x, p, one, ids[1..]);
      ExecuteConcat(c, w, script, rest);
      StatesSetCons(w, one, Execute(c, one, rest), ids[0], ids[1..], Proposed(c, p));
      SignedSetCons(c, w, one, Execute(c, one, rest), ids[0], ids[1..], Prevote, x);
    }
  }

  ghost function DeliverEach(votes: seq<Vote>, ids: seq<ValidatorId>): seq<Action> {
    if ids == [] then [] else Deliveries(ids[0], votes) + DeliverEach(votes, ids[1..])
  }

  lemma {:induction false} PrevoteEach(c: Setup, w: World, ids: seq<ValidatorId>, votes: seq<Vote>, s: State)
    requires ValidSetup(c) && DistinctIds(ids) && forall v :: v in ids ==> v in w.states && w.states[v] == s
    requires forall v :: v in votes ==> Unforged(c, w, v)
    ensures var after := Execute(c, w, DeliverEach(votes, ids));
      StatesSet(w, after, ids, Collect(c.engine, s, votes)) && after.signed == w.signed
    decreases |ids|
  {
    if ids != [] {
      var first, rest := ids[0], ids[1..];
      var one := w.(states := w.states[first := Collect(c.engine, s, votes)]);
      assert ids == [first] + rest && forall v :: v in rest ==> v in ids && v != first;
      forall v | v in votes
        ensures Unforged(c, one, v)
      {
        assert Unforged(c, w, v);
      }
      DeliverAll(c, w, first, votes);
      PrevoteEach(c, one, rest, votes, s);
      ExecuteConcat(c, w, Deliveries(first, votes), DeliverEach(votes, rest));
      StatesSetCons(w, one, Execute(c, one, DeliverEach(votes, rest)), first, rest, Collect(c.engine, s, votes));
    }
  }

  ghost function PrecommitEach(ids: seq<ValidatorId>): seq<Action> {
    if ids == [] then [] else [SignPrecommit(ids[0])] + PrecommitEach(ids[1..])
  }

  lemma {:induction false} PrecommitOne(c: Setup, x: Hash32, w: World, v: ValidatorId, s: State)
    requires ValidSetup(c) && v in w.states && w.states[v] == s && !HasSigned(c, w, v, 0, Precommit)
    requires PrecommitValue(c.engine, s).1 == Ok(Some(x)) && PrecommitValue(c.engine, s).0.round == 0
    ensures Next(c, w, SignPrecommit(v)) == World(w.states[v := PrecommitValue(c.engine, s).0],
                                                  w.signed + {VoteDigest(c.height, 0, Precommit, Some(x), v)})
  {
    SameSigned(c, w, w.(states := w.states[v := PrecommitValue(c.engine, s).0]), v, Precommit);
  }

  lemma {:induction false} PrecommitAll(c: Setup, x: Hash32, w: World, ids: seq<ValidatorId>, s: State)
    requires ValidSetup(c) && Waiting(c, w, ids, Precommit, s)
    requires PrecommitValue(c.engine, s).1 == Ok(Some(x)) && PrecommitValue(c.engine, s).0.round == 0
    ensures var after := Execute(c, w, PrecommitEach(ids));
      StatesSet(w, after, ids, PrecommitValue(c.engine, s).0) && SignedSet(c, w, after, ids, Precommit, x)
    decreases |ids|
  {
    if ids != [] {
      var s', rest := PrecommitValue(c.engine, s).0, PrecommitEach(ids[1..]);
      var one := Next(c, w, SignPrecommit(ids[0]));
      assert ids[0] in ids;
      PrecommitOne(c, x, w, ids[0], s);
      RestWaits(c, w, one, ids, Precommit, s, s', x);
      PrecommitAll(c, x, one, ids[1..], s);
      assert PrecommitEach(ids)[0] == SignPrecommit(ids[0]) && PrecommitEach(ids)[1..] == rest;
      StatesSetCons(w, one, Execute(c, one, rest), ids[0], ids[1..], s');
      SignedSetCons(c, w, one, Execute(c, one, rest), ids[0], ids[1..], Precommit, x);
    }
  }

  // ------------------------------------------------------------------- the whole run

  lemma {:induction false} Listed(ids: set<ValidatorId>) returns (s: seq<ValidatorId>)
    ensures DistinctIds(s) && forall v :: v in s <==> v in ids
    decreases ids
  {
    if ids == {} {
      s := [];
    } else {
      var v :| v in ids;
      s := Listed(ids - {v});
      s := [v] + s;
    }
  }

  /** Every honest vote for x that correct validators have all signed can be delivered. */
  lemma {:induction false} SignedVotesUnforged(c: Setup, x: Hash32, w: World, step: Step)
    requires forall v :: v in c.correct ==> VoteDigest(c.height, 0, step, Some(x), v) in w.signed
    ensures forall vote :: vote in VotesFor(c, step, x, c.engine.validators) ==> Unforged(c, w, vote)
  {
  }

  ghost function DecidingRun(c: Setup, x: Hash32, p: Proposal, ids: seq<ValidatorId>, who: ValidatorId): seq<Action> {
    Propose(p, ids) + DeliverEach(VotesFor(c, Prevote, x, c.engine.validators), ids)
    + PrecommitEach(ids) + Deliveries(who, VotesFor(c, Precommit, x, c.engine.validators))
  }

  /** In every setup, for every block and every correct validator, some run ends with that validator
      deciding that block. */
  lemma {:induction false} SomeRunDecides(c: Setup, x: Hash32, who: ValidatorId) returns (actions: seq<Action>)
    requires ValidSetup(c) && who in c.correct
    ensures var w := Execute(c, Init(c), actions);
      who in w.states && DecidedOn(w.states[who], x)
  {
    var p := ProposalVerifies(c, x);
    var ids := Listed(c.correct);
    actions := DecidingRun(c, x, p, ids, who);
    RunDecides(c, x, p, ids, who);
  }

  ghost predicate Lists(c: Setup, ids: seq<ValidatorId>) {
    DistinctIds(ids) && forall v :: v in ids <==> v in c.correct
  }

  /** All correct validators have signed this vote for x. */
  ghost predicate AllSigned(c: Setup, w: World, step: Step, x: Hash32) {
    forall v :: v in c.correct ==> VoteDigest(c.height, 0, step, Some(x), v) in w.signed
  }

  ghost predicate AllAt(c: Setup, w: World, s: State) {
    w.states.Keys == c.correct && forall v :: v in c.correct ==> w.states[v] == s
  }

  lemma {:induction false} AfterProposals(c: Setup, x: Hash32, p: Proposal, ids: seq<ValidatorId>)
    requires ValidSetup(c) && GoodProposal(c, x, p) && Lists(c, ids)
    ensures var w := Execute(c, Init(c), Propose(p, ids));
      && AllAt(c, w, Proposed(c, p)) && AllSigned(c, w, Prevote, x)
      && forall v :: v in ids ==> !HasSigned(c, w, v, 0, Precommit)
  {
    ProposeEach(c, x, p, Init(c), ids);
  }

  lemma {:induction false} AfterPrevotes(c: Setup, x: Hash32, p: Proposal, ids: seq<ValidatorId>, w: World)
    requires ValidSetup(c) && GoodProposal(c, x, p) && Lists(c, ids)
    requires AllAt(c, w, Proposed(c, p)) && AllSigned(c, w, Prevote, x)
    ensures var w' := Execute(c, w, DeliverEach(VotesFor(c, Prevote, x, c.engine.validators), ids));
      AllAt(c, w', Prevoted(c, x, p)) && w'.signed == w.signed
  {
    SignedVotesUnforged(c, x, w, Prevote);
    PrevoteEach(c, w, ids, VotesFor(c, Prevote, x, c.engine.validators), Proposed(c, p));
  }

  lemma {:induction false} AfterPrecommits(c: Setup, x: Hash32, s: State, ids: seq<ValidatorId>, w: World)
    requires ValidSetup(c) && Lists(c, ids) && AllAt(c, w, s) && forall v :: v in ids ==> !HasSigned(c, w, v, 0, Precommit)
    requires PrecommitValue(c.engine, s).1 == Ok(Some(x)) && PrecommitValue(c.engine, s).0.round == 0
    ensures var w' := Execute(c, w, PrecommitEach(ids));
      AllAt(c, w', PrecommitValue(c.engine, s).0) && AllSigned(c, w', Precommit, x)
  {
    PrecommitAll(c, x, w, ids, s);
  }

  lemma {:induction false} FourParts(c: Setup, w: World, a: seq<Action>, b: seq<Action>, d: seq<Action>, f: seq<Action>)
    requires ValidSetup(c)
    ensures Execute(c, w, a + b + d + f) == Execute(c, Execute(c, Execute(c, Execute(c, w, a), b), d), f)
  {
    ExecuteConcat(c, w, a + b + d, f);
    ExecuteConcat(c, w, a + b, d);
    ExecuteConcat(c, w, a, b);
  }

  lemma {:induction false} RunDecides(c: Setup, x: Hash32, p: Proposal, ids: seq<ValidatorId>, who: ValidatorId)
    requires ValidSetup(c) && GoodProposal(c, x, p) && who in c.correct && Lists(c, ids)
    ensures var w := Execute(c, Init(c), DecidingRun(c, x, p, ids, who));
      who in w.states && DecidedOn(w.states[who], x)
  {
    var prevotes, precommits := VotesFor(c, Prevote, x, c.engine.validators), VotesFor(c, Precommit, x, c.engine.validators);
    var w1 := Execute(c, Init(c), Propose(p, ids));
    var w2 := Execute(c, w1, DeliverEach(prevotes, ids));
    var w3 := Execute(c, w2, PrecommitEach(ids));
    AfterProposals(c, x, p, ids);
    AfterPrevotes(c, x, p, ids, w1);
    forall v | v in ids
      ensures !HasSigned(c, w2, v, 0, Precommit)
    {
      SameSigned(c, w1, w2, v, Precommit);
    }
    PrecommittedState(c, x, p);
    AfterPrecommits(c, x, Prevoted(c, x, p), ids, w2);
    SignedVotesUnforged(c, x, w3, Precommit);
    DeliverAll(c, w3, who, precommits);
    DecidesLocally(c, x, p);
    FourParts(c, Init(c), Propose(p, ids), DeliverEach(prevotes, ids), PrecommitEach(ids), Deliveries(who, precommits));
  }

  /** Runs that end in a decision exist in setups with a faulty validator. */
  lemma {:induction false} DecisionsExist(x: Hash32)
    ensures exists c: Setup, actions: seq<Action>, who: ValidatorId ::
      && ValidSetup(c) && Faulty(c) != {} && who in Execute(c, Init(c), actions).states
      && DecidedOn(Execute(c, Init(c), actions).states[who], x)
  {
    SetupExists();
    var c: Setup :| ValidSetup(c) && Faulty(c) != {} && c.correct != {};
    var who :| who in c.correct;
    var actions := SomeRunDecides(c, x, who);
  }
}
