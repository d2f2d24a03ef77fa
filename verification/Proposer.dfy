/** Proposer selection: total, overflow-free where it matters, and proportional. */
module Proposer {
  import opened Prelude
  import opened Validators
  import opened RoundState
  import Arith

  lemma {:induction false} ProposerAtTotal(vs: seq<Validator>, target: nat)
    requires target < TotalPower(vs)
    ensures ProposerAt(vs, target).Ok? && exists v :: v in vs && v.id == ProposerAt(vs, target).value
  {
    if target >= vs[0].weight {
      ProposerAtTotal(vs[1..], target - vs[0].weight);
      var v :| v in vs[1..] && v.id == ProposerAt(vs, target).value;
      assert v in vs;
    } else {
      assert vs[0] in vs;
    }
  }

  /** The sum of residues inside `proposer_id` fits 64 bits; otherwise the addition panics. */
  predicate SumFits(e: Engine, height: nat, round: nat)
    requires TotalPower(e.validators) > 0
  {
    var total := TotalPower(e.validators);
    height % total + round % total < 0x1_0000_0000_0000_0000
  }

  /** The walk of `proposer_id`: where the sum fits it never falls through and no cursor leaves 64 bits. */
  method SelectProposer(e: Engine, height: nat, round: nat) returns (id: Option<ValidatorId>)
    requires ValidEngine(e)
    ensures id.Some? <==> SumFits(e, height, round)
    ensures id.Some? ==> ProposerId(e, height, round) == Ok(id.value) && exists v :: v in e.validators && v.id == id.value
  {
    var total := TotalPower(e.validators);
    var sum := height % total + round % total;
    if sum >= U64_LIMIT { return None; }
    var found := Walk(e.validators, total, sum % total);
    id := Some(found);
  }

  method Walk(vs: seq<Validator>, total: nat, target: nat) returns (id: ValidatorId)
    requires target < total == TotalPower(vs) < U64_LIMIT
    ensures ProposerAt(vs, target) == Ok(id) && exists v :: v in vs && v.id == id
  {
    ProposerAtTotal(vs, target);
    var cursor, k := 0, 0;
    assert vs[0..] == vs;
    while k < |vs|
      invariant k <= |vs| && cursor <= target
      invariant cursor + TotalPower(vs[k..]) == total
      invariant ProposerAt(vs, target) == ProposerAt(vs[k..], target - cursor)
    {
      assert vs[k..][1..] == vs[k + 1..];
      assert cursor + vs[k].weight < U64_LIMIT;
      cursor := cursor + vs[k].weight;
      if target < cursor { return vs[k].id; }
      k := k + 1;
    }
    assert false;
    id := [];
  }

  /** The sum fits for every height and round exactly when the total power leaves room for the
      largest round residue. */
  lemma SumFitsExactly(e: Engine)
    requires 0 < TotalPower(e.validators) < U64_LIMIT
    ensures (forall height: nat, round: nat :: height < U64_LIMIT && round < U32_LIMIT ==> SumFits(e, height, round))
        <==> TotalPower(e.validators) < U64_LIMIT - U32_LIMIT + 2
  {
    var total := TotalPower(e.validators);
    if total < U64_LIMIT - U32_LIMIT + 2 {
      forall height: nat, round: nat | height < U64_LIMIT && round < U32_LIMIT
        ensures SumFits(e, height, round)
      {
        ResidueBound(round, total);
      }
    } else {
      LargestResiduesOverflow(e);
    }
  }

  /** In every engine beyond that bound the last height residue and the last round do not fit. */
  lemma {:induction false} LargestResiduesOverflow(e: Engine)
    requires U64_LIMIT - U32_LIMIT + 2 <= TotalPower(e.validators)
    ensures !SumFits(e, TotalPower(e.validators) - 1, U32_LIMIT - 1)
  {
    var total := TotalPower(e.validators);
    Arith.SmallMod(total - 1, total);
    Arith.SmallMod(U32_LIMIT - 1, total);
  }

  /** Such engines are built: one validator with all the power there is. At this height and round
      its selection overflows. */
  method OverflowingEngine() returns (e: Engine, height: nat, round: nat)
    ensures ValidEngine(e) && height < U64_LIMIT && round < U32_LIMIT && !SumFits(e, height, round)
  {
    var all := Validator([1], Point(1), 0xFFFF_FFFF_FFFF_FFFF);
    assert TotalPower([all]) == all.weight + TotalPower([all][1..]);
    var r := New([all], 1);
    e, height, round := r.value, 0xFFFF_FFFF_FFFF_FFFE, 0xFFFF_FFFF;
    LargestResiduesOverflow(e);
  }

  lemma ResidueBound(a: nat, m: nat)
    requires m > 0
    ensures a % m <= a
  {
  }

  /** `new_round_state` accepts only engines whose selection never overflows. */
  lemma AcceptedEnginesFit(e: Engine, height: nat, round: nat)
    requires ValidEngine(e) && NewRoundState(e, height).Ok?
    ensures height % TotalPower(e.validators) + round % TotalPower(e.validators) < U64_LIMIT
  {
  }

  // ------------------------------------------------------------ proportionality

  /** How many of the targets [from, from + n) fall to `id`. */
  function OwnedTargets(vs: seq<Validator>, from: nat, n: nat, id: ValidatorId): nat
    decreases n
  {
    if n == 0 then 0
    else (if ProposerAt(vs, from) == Ok(id) then 1 else 0) + OwnedTargets(vs, from + 1, n - 1, id)
  }

  lemma {:induction false} OwnedShift(vs: seq<Validator>, from: nat, n: nat, id: ValidatorId)
    requires vs != [] && from >= vs[0].weight
    ensures OwnedTargets(vs, from, n, id) == OwnedTargets(vs[1..], from - vs[0].weight, n, id)
    decreases n
  {
    if n > 0 { OwnedShift(vs, from + 1, n - 1, id); }
  }

  lemma {:induction false} OwnedHead(vs: seq<Validator>, from: nat, n: nat, id: ValidatorId)
    requires vs != [] && from + n <= vs[0].weight
    ensures OwnedTargets(vs, from, n, id) == if vs[0].id == id then n else 0
    decreases n
  {
    if n > 0 { OwnedHead(vs, from + 1, n - 1, id); }
  }

  lemma {:induction false} OwnedSplit(vs: seq<Validator>, from: nat, a: nat, b: nat, id: ValidatorId)
    ensures OwnedTargets(vs, from, a + b, id) == OwnedTargets(vs, from, a, id) + OwnedTargets(vs, from + a, b, id)
    decreases a
  {
    if a > 0 { OwnedSplit(vs, from + 1, a - 1, b, id); }
  }

  lemma {:induction false} OwnedIsPower(vs: seq<Validator>, id: ValidatorId)
    ensures OwnedTargets(vs, 0, TotalPower(vs), id) == Power(vs, {id})
  {
    if vs != [] {
      OwnedSplit(vs, 0, vs[0].weight, TotalPower(vs[1..]), id);
      OwnedHead(vs, 0, vs[0].weight, id);
      OwnedShift(vs, vs[0].weight, TotalPower(vs[1..]), id);
      OwnedIsPower(vs[1..], id);
    }
  }

  /** How many of the rounds [start, start + n) are proposed by `id`. */
  function Turns(e: Engine, height: nat, start: nat, n: nat, id: ValidatorId): nat
    requires TotalPower(e.validators) > 0
    decreases n
  {
    if n == 0 then 0
    else (if ProposerId(e, height, start) == Ok(id) then 1 else 0) + Turns(e, height, start + 1, n - 1, id)
  }

  lemma {:induction false} ModuloSum(a: nat, b: nat, m: nat)
    requires m > 0
    ensures (a % m + b % m) % m == (a + b) % m
  {
    var q, r := a / m + b / m, a % m + b % m;
    Arith.Distribute(m, a / m, b / m);
    assert a + b == m * q + r;
    Arith.ModAddMultiple(q, r, m);
  }

  lemma {:induction false} ModuloPeriod(a: nat, m: nat)
    requires m > 0
    ensures (a + m) % m == a % m
  {
    Arith.ModAddMultiple(1, a, m);
  }

  lemma {:induction false} TargetIsSum(e: Engine, height: nat, round: nat, sum: nat)
    requires TotalPower(e.validators) > 0 && sum == height + round
    ensures Target(e, height, round) == sum % TotalPower(e.validators)
  {
    ModuloSum(height, round, TotalPower(e.validators));
  }

  lemma {:induction false} TurnsAppend(e: Engine, height: nat, start: nat, n: nat, id: ValidatorId)
    requires TotalPower(e.validators) > 0
    ensures Turns(e, height, start, n + 1, id)
         == Turns(e, height, start, n, id) + (if ProposerId(e, height, start + n) == Ok(id) then 1 else 0)
    decreases n
  {
    if n > 0 { TurnsAppend(e, height, start + 1, n - 1, id); }
  }

  /** A full window counts the same wherever it starts. */
  lemma {:induction false} WindowSlides(e: Engine, height: nat, start: nat, id: ValidatorId)
    requires TotalPower(e.validators) > 0
    ensures Turns(e, height, start, TotalPower(e.validators), id) == Turns(e, height, start + 1, TotalPower(e.validators), id)
  {
    var total := TotalPower(e.validators);
    TurnsAppend(e, height, start + 1, total - 1, id);
    ModuloPeriod(start, total);
    assert Target(e, height, start + total) == Target(e, height, start);
  }

  lemma {:induction false} WindowAnywhere(e: Engine, height: nat, start: nat, k: nat, id: ValidatorId)
    requires TotalPower(e.validators) > 0
    ensures Turns(e, height, start, TotalPower(e.validators), id) == Turns(e, height, start + k, TotalPower(e.validators), id)
    decreases k
  {
    if k > 0 {
      WindowSlides(e, height, start, id);
      WindowAnywhere(e, height, start + 1, k - 1, id);
    }
  }

  /** From a round whose target is 0, the targets of a window are 0, 1, 2, ... */
  lemma {:induction false} AlignedTurns(e: Engine, height: nat, start: nat, i: nat, n: nat, id: ValidatorId)
    requires TotalPower(e.validators) > 0 && i + n <= TotalPower(e.validators)
    requires (height + start) % TotalPower(e.validators) == 0
    ensures Turns(e, height, start + i, n, id) == OwnedTargets(e.validators, i, n, id)
    decreases n
  {
    if n > 0 {
      var total := TotalPower(e.validators);
      TargetIsSum(e, height, start + i, height + start + i);
      ModuloSum(height + start, i, total);
      Arith.SmallMod(i, total);
      assert Target(e, height, start + i) == i;
      AlignedTurns(e, height, start, i + 1, n - 1, id);
    }
  }

  /** PROPORTIONAL ROTATION.  Over any window of total-power consecutive rounds
      each validator proposes exactly as many times as its weight. */
  lemma ProportionalRotation(e: Engine, height: nat, start: nat, v: Validator)
    requires ValidEngine(e) && v in e.validators
    ensures Turns(e, height, start, TotalPower(e.validators), v.id) == v.weight
  {
    var total := TotalPower(e.validators);
    var q := (height + start) / total + 1;
    var gap := total * q - (height + start);
    assert gap >= 0 by { assert height + start == total * ((height + start) / total) + (height + start) % total; }
    Arith.ModAddMultiple(q, 0, total);
    assert height + (start + gap) == total * q + 0;
    WindowAnywhere(e, height, start, gap, v.id);
    AlignedTurns(e, height, start + gap, 0, total, v.id);
    OwnedIsPower(e.validators, v.id);
    SoloPower(e.validators, v);
  }

  lemma SoloPower(vs: seq<Validator>, v: Validator)
    requires Sorted(vs) && v in vs
    ensures Power(vs, {v.id}) == v.weight
  {
    var found := Find(vs, v.id);
    var i :| 0 <= i < |vs| && vs[i] == v;
    var j :| 0 <= j < |vs| && vs[j] == found.value;
    SortedIdsDistinct(vs, i, j);
    EmptyPower(vs);
    PowerInsert(vs, {}, v.id);
    assert {} + {v.id} == {v.id};
  }

  /** A later height starts further along the same rotation: height and round count alike. */
  lemma {:induction false} HeightShiftsRotation(e: Engine, height: nat, round: nat, k: nat)
    requires TotalPower(e.validators) > 0
    ensures ProposerId(e, height + k, round) == ProposerId(e, height, round + k)
  {
    TargetIsSum(e, height + k, round, height + k + round);
    TargetIsSum(e, height, round + k, height + k + round);
  }
}
