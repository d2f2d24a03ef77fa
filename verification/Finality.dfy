/** From agreement on a hash to agreement on a block: what a finalised block certifies. */
module Finality {
  import opened Prelude
  import opened Validators
  import opened RoundState
  import opened RoundInvariant
  import opened Agreement
  import M = Molecule

  datatype FinalityError = WrongEngine | Round(error: Error) | WrongBlockHash | QuorumNotMet

  datatype Finalised = Finalised(block: M.Block, blockHash: Hash32, round: nat, signers: seq<(ValidatorId, Signature)>)

  /** The block hash, over the canonical bytes. */
  type Digester = M.Bytes -> Hash32

  /** Finalising a block with a decision, checks in order. */
  function FinaliseBlock(e: Engine, digest: Digester, block: M.Block, d: Decision): Result<Finalised, FinalityError> {
    var power := VotePower(e, d.precommits, d.height, d.round, Precommit, Some(digest(M.BlockBytes(block))));
    if block.consensusKind != M.Tendermint then Err(WrongEngine)
    else if d.height != block.number then Err(Round(WrongHeight))
    else if d.blockHash != digest(M.BlockBytes(block)) then Err(WrongBlockHash)
    else if power.Err? then Err(Round(power.error))
    else if power.value < e.quorumPower then Err(QuorumNotMet)
    else if exists vote :: vote in d.precommits && vote.signature.Malformed? then Err(Round(InvalidSignature))
    else Ok(Finalised(block, d.blockHash, d.round,
      seq(|d.precommits|, i requires 0 <= i < |d.precommits| => (d.precommits[i].validatorId, d.precommits[i].signature))))
  }

  // ------------------------------------------------------------- when it goes through

  /** Every vote for the value verifies, comes from a validator not yet seen, and is its only one. */
  ghost predicate EachOnce(e: Engine, votes: seq<Vote>, height: nat, round: nat, step: Step, value: Option<Hash32>, seen: set<ValidatorId>) {
    && (forall i :: 0 <= i < |votes| && Matches(votes[i], height, round, step, value) ==>
          VerifyVote(e, votes[i]).Ok? && votes[i].validatorId !in seen)
    && (forall i, j :: 0 <= i < j < |votes| && Matches(votes[i], height, round, step, value) && Matches(votes[j], height, round, step, value) ==>
          votes[i].validatorId != votes[j].validatorId)
  }

  lemma {:induction false} EachOnceSkips(
      e: Engine, votes: seq<Vote>, height: nat, round: nat, step: Step, value: Option<Hash32>, seen: set<ValidatorId>)
    requires votes != [] && !Matches(votes[0], height, round, step, value)
    ensures EachOnce(e, votes, height, round, step, value, seen) <==> EachOnce(e, votes[1..], height, round, step, value, seen)
  {
    var rest := votes[1..];
    assert forall i :: 0 <= i < |rest| ==> rest[i] == votes[i + 1];
    if EachOnce(e, rest, height, round, step, value, seen) {
      assert forall i :: 0 < i < |votes| ==> votes[i] == rest[i - 1];
    }
  }

  lemma {:induction false} EachOnceCounts(
      e: Engine, votes: seq<Vote>, height: nat, round: nat, step: Step, value: Option<Hash32>, seen: set<ValidatorId>)
    requires votes != [] && Matches(votes[0], height, round, step, value)
    ensures EachOnce(e, votes, height, round, step, value, seen) <==>
      && VerifyVote(e, votes[0]).Ok? && votes[0].validatorId !in seen
      && EachOnce(e, votes[1..], height, round, step, value, seen + {votes[0].validatorId})
  {
    var rest := votes[1..];
    assert forall i :: 0 <= i < |rest| ==> rest[i] == votes[i + 1];
    assert forall i :: 0 < i < |votes| ==> votes[i] == rest[i - 1];
  }

  /** Counting goes through exactly when each vote for the value verifies and no validator has two. */
  lemma {:induction false} CountsExactly(
      e: Engine, votes: seq<Vote>, height: nat, round: nat, step: Step, value: Option<Hash32>, seen: set<ValidatorId>)
    requires ValidEngine(e)
    ensures VotePowerFrom(e, votes, height, round, step, value, seen, Power(e.validators, seen)).Ok?
       <==> EachOnce(e, votes, height, round, step, value, seen)
  {
    if votes != [] {
      if !Matches(votes[0], height, round, step, value) {
        EachOnceSkips(e, votes, height, round, step, value, seen);
        CountsExactly(e, votes[1..], height, round, step, value, seen);
      } else {
        var id := votes[0].validatorId;
        EachOnceCounts(e, votes, height, round, step, value, seen);
        if VerifyVote(e, votes[0]).Ok? && id !in seen {
          PowerInsert(e.validators, seen, id);
          PowerAll(e.validators, seen + {id});
          CountsExactly(e, votes[1..], height, round, step, value, seen + {id});
        }
      }
    }
  }

  /** The decision carries a quorum for its block: a genuine precommit each, from enough validators. */
  ghost predicate Carries(e: Engine, d: Decision) {
    && EachOnce(e, d.precommits, d.height, d.round, Precommit, Some(d.blockHash), {})
    && Power(e.validators, Signers(d.precommits, d.height, d.round, Precommit, Some(d.blockHash))) >= e.quorumPower
  }

  lemma {:induction false} CertifiesExactly(e: Engine, d: Decision)
    requires ValidEngine(e)
    ensures Certifies(e, d) <==> Carries(e, d)
  {
    EmptyPower(e.validators);
    CountsExactly(e, d.precommits, d.height, d.round, Precommit, Some(d.blockHash), {});
    if EachOnce(e, d.precommits, d.height, d.round, Precommit, Some(d.blockHash), {}) {
      CertifiedSigners(e, d.precommits, d.height, d.round, Precommit, Some(d.blockHash), {});
      var ids := Signers(d.precommits, d.height, d.round, Precommit, Some(d.blockHash));
      assert {} + ids == ids;
    }
  }

  /** A block is finalised exactly when it is a Tendermint block of the decided height and hash, and
      the decision carries a quorum and no malformed signature; what comes out is that block with
      that hash, the round of the decision and the signatures in its order. */
  lemma {:induction false} FinalisedExactly(e: Engine, digest: Digester, block: M.Block, d: Decision)
    requires ValidEngine(e)
    ensures var r := FinaliseBlock(e, digest, block, d);
      && (r.Ok? <==>
            && block.consensusKind == M.Tendermint && d.height == block.number && d.blockHash == digest(M.BlockBytes(block))
            && Carries(e, d) && forall i :: 0 <= i < |d.precommits| ==> !d.precommits[i].signature.Malformed?)
      && (r.Ok? ==>
            && r.value.block == block && r.value.blockHash == digest(M.BlockBytes(block)) && r.value.round == d.round
            && |r.value.signers| == |d.precommits|
            && forall i :: 0 <= i < |d.precommits| ==> r.value.signers[i] == (d.precommits[i].validatorId, d.precommits[i].signature))
  {
    CertifiesExactly(e, d);
    assert (exists vote :: vote in d.precommits && vote.signature.Malformed?)
      <==> (exists i :: 0 <= i < |d.precommits| && d.precommits[i].signature.Malformed?);
  }

  /** What each refusal says is true of the block or the decision; a block of another engine is
      never finalised, whatever the decision. */
  lemma {:induction false} FinalityRefusals(e: Engine, digest: Digester, block: M.Block, d: Decision)
    requires ValidEngine(e)
    ensures FinaliseBlock(e, digest, block, d) == Err(WrongEngine) <==> block.consensusKind != M.Tendermint
    ensures FinaliseBlock(e, digest, block, d).Err? ==>
      match FinaliseBlock(e, digest, block, d).error
      case WrongEngine => block.consensusKind != M.Tendermint
      case WrongBlockHash => d.blockHash != digest(M.BlockBytes(block))
      case QuorumNotMet => !Carries(e, d)
      case Round(error) => d.height != block.number || !Carries(e, d) || exists vote :: vote in d.precommits && vote.signature.Malformed?
  {
    CertifiesExactly(e, d);
  }

  /** A Tendermint block of the height with the decided hash. */
  ghost predicate Decided(digest: Digester, block: M.Block, height: nat, s: State) {
    && s.decision.Some? && block.consensusKind == M.Tendermint && block.number == height
    && digest(M.BlockBytes(block)) == s.decision.value.blockHash
  }

  /** What comes out is the block itself, with its hash and the decision's round, signed by votes that
      the state holds. */
  ghost predicate FinalisedBy(digest: Digester, block: M.Block, s: State, f: Finalised) {
    && s.decision.Some? && f.block == block && f.blockHash == digest(M.BlockBytes(block)) && f.round == s.decision.value.round
    && forall signer :: signer in f.signers ==> HeldSignature(s.votes, signer.0, signer.1)
  }

  ghost predicate HeldSignature(votes: seq<Vote>, id: ValidatorId, signature: Signature) {
    exists vote :: vote in votes && vote.validatorId == id && vote.signature == signature
  }

  lemma {:induction false} HeldDecision(e: Engine, s: State, digest: Digester, block: M.Block)
    requires Inv(e, s) && s.decision.Some?
    ensures var r := FinaliseBlock(e, digest, block, s.decision.value);
      (r.Ok? <==> Decided(digest, block, s.height, s)) && (r.Ok? ==> FinalisedBy(digest, block, s, r.value))
  {
    var d := s.decision.value;
    FinalisedExactly(e, digest, block, d);
    CertifiesExactly(e, d);
    forall i | 0 <= i < |d.precommits|
      ensures d.precommits[i] in s.votes && !d.precommits[i].signature.Malformed?
    {
      assert d.precommits[i] in d.precommits;
      assert VerifyVote(e, d.precommits[i]).Ok?;
    }
  }

  /** THE DECISION FINALISES ITS BLOCK.  After any run, whatever the others do, the decision of a
      correct validator finalises exactly the Tendermint block of that height with the decided hash:
      no block of another engine, and nothing but that block comes out. */
  lemma {:induction false} DecisionFinalises(c: Setup, actions: seq<Action>, digest: Digester, v: ValidatorId, block: M.Block)
    requires ValidSetup(c) && v in c.correct
    ensures v in Execute(c, Init(c), actions).states
    ensures var s := Execute(c, Init(c), actions).states[v];
      s.decision.Some? ==>
        var r := FinaliseBlock(c.engine, digest, block, s.decision.value);
        && (r.Ok? <==>
              && block.consensusKind == M.Tendermint && block.number == c.height
              && digest(M.BlockBytes(block)) == s.decision.value.blockHash)
        && (r.Ok? ==> FinalisedBy(digest, block, s, r.value))
  {
    var w := Execute(c, Init(c), actions);
    InitInv(c);
    ExecuteInv(c, Init(c), actions);
    assert LocalInv(c, w, v);
    if w.states[v].decision.Some? { HeldDecision(c.engine, w.states[v], digest, block); }
  }

  ghost predicate Injective(digest: Digester) {
    forall a, b :: digest(a) == digest(b) ==> a == b
  }

  /** A finalised block is one that a quorum signed: there are validators with quorum power, each of
      whom precommitted this very block, by the hash of its canonical bytes, at its own height and in
      the round reported, and each of whose signatures the result carries. */
  lemma {:induction false} FinalisedIsSigned(e: Engine, digest: Digester, block: M.Block, d: Decision) returns (ids: set<ValidatorId>)
    requires ValidEngine(e) && FinaliseBlock(e, digest, block, d).Ok?
    ensures FinaliseBlock(e, digest, block, d).value.block == block
    ensures FinaliseBlock(e, digest, block, d).value.blockHash == digest(M.BlockBytes(block))
    ensures Power(e.validators, ids) >= e.quorumPower
    ensures forall id :: id in ids ==> SignedFor(e, FinaliseBlock(e, digest, block, d).value, digest(M.BlockBytes(block)), id)
  {
    var hash, f := digest(M.BlockBytes(block)), FinaliseBlock(e, digest, block, d).value;
    ids := Signers(d.precommits, d.height, d.round, Precommit, Some(hash));
    EmptyPower(e.validators);
    CertifiedSigners(e, d.precommits, d.height, d.round, Precommit, Some(hash), {});
    assert {} + ids == ids;
    forall id | id in ids
      ensures SignedFor(e, f, hash, id)
    {
      var vote :| vote in d.precommits && Matches(vote, d.height, d.round, Precommit, Some(hash)) && vote.validatorId == id;
      var i :| 0 <= i < |d.precommits| && d.precommits[i] == vote;
      assert VerifyVote(e, vote).Ok? && f.signers[i] == (id, vote.signature);
    }
  }

  /** The result carries this validator's signature of a precommit on the block. */
  ghost predicate SignedFor(e: Engine, f: Finalised, hash: Hash32, id: ValidatorId) {
    exists v, s: Signature :: v in e.validators && v.id == id && (id, s) in f.signers
      && Verifies(v.publicKey, VoteDigest(f.block.number, f.round, Precommit, Some(hash), id), s)
  }

  /** ONE BLOCK PER HEIGHT: after any run with at most one third of the power faulty, two blocks
      finalised at the height, by whomever and in whatever rounds, are the same in every field. */
  lemma {:induction false} FinalisedBlocksEqual(
      c: Setup, actions: seq<Action>, digest: Digester, b: M.Block, d: Decision, b': M.Block, d': Decision)
    requires ValidSetup(c) && Injective(digest) && M.Encodable(b) && M.Encodable(b')
    requires FinaliseBlock(c.engine, digest, b, d).Ok? && FinaliseBlock(c.engine, digest, b', d').Ok?
    requires b.number == c.height && b'.number == c.height
    requires forall vote :: vote in d.precommits || vote in d'.precommits ==> Unforged(c, Execute(c, Init(c), actions), vote)
    ensures b == b'
  {
    CertificatesAgree(c, actions, d, d');
    M.BlockBytesInjective(b, b');
  }
}
