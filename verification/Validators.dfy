/** Byte-wise lexicographic order, the order Rust gives to strings. */
module LexOrder {
  import opened Prelude

  predicate Less(a: seq<Byte>, b: seq<Byte>) {
    b != [] && (a == [] || a[0] < b[0] || (a[0] == b[0] && Less(a[1..], b[1..])))
  }

  lemma {:induction false} Irreflexive(a: seq<Byte>)
    ensures !Less(a, a)
  {
    if a != [] { Irreflexive(a[1..]); }
  }

  lemma {:induction false} Transitive(a: seq<Byte>, b: seq<Byte>, c: seq<Byte>)
    requires Less(a, b) && Less(b, c)
    ensures Less(a, c)
  {
    if a != [] && a[0] == b[0] == c[0] { Transitive(a[1..], b[1..], c[1..]); }
  }

  lemma {:induction false} Total(a: seq<Byte>, b: seq<Byte>)
    ensures Less(a, b) || a == b || Less(b, a)
  {
    if a != [] && b != [] && a[0] == b[0] {
      Total(a[1..], b[1..]);
      if a[1..] == b[1..] { assert a == [a[0]] + a[1..] == b; }
    }
  }
}

/** The weighted validator set of a Tendermint engine and its arithmetic. */
module Validators {
  import opened Prelude
  import LexOrder

  type ValidatorId = seq<Byte>

  datatype Validator = Validator(id: ValidatorId, publicKey: PublicKey, weight: nat)

  /** The source keeps validators in a hash map keyed by id; it is observed only
      through lookups and through an id-sorted walk, so the entries are held sorted. */
  datatype Engine = Engine(validators: seq<Validator>, quorumPower: nat)

  datatype ConfigError =
    | ZeroQuorum | EmptyId | ZeroWeight(id: ValidatorId) | InvalidKey(badKey: ValidatorId)
    | PowerOverflow | DuplicateValidator | NoValidators | QuorumExceedsPower | QuorumOverflow | UnsafeQuorum

  predicate Sorted(vs: seq<Validator>) {
    forall i, j :: 0 <= i < j < |vs| ==> LexOrder.Less(vs[i].id, vs[j].id)
  }

  function Find(vs: seq<Validator>, id: ValidatorId): (r: Option<Validator>)
    ensures r.Some? ==> r.value in vs && r.value.id == id
    ensures r.None? ==> forall v :: v in vs ==> v.id != id
  {
    if vs == [] then None
    else if vs[0].id == id then Some(vs[0])
    else Find(vs[1..], id)
  }

  /** Voting power of a set of ids; ids outside the validator set weigh nothing. */
  function Power(vs: seq<Validator>, ids: set<ValidatorId>): nat {
    if vs == [] then 0 else (if vs[0].id in ids then vs[0].weight else 0) + Power(vs[1..], ids)
  }

  function TotalPower(vs: seq<Validator>): nat {
    if vs == [] then 0 else vs[0].weight + TotalPower(vs[1..])
  }

  ghost function Ids(vs: seq<Validator>): set<ValidatorId> {
    set v | v in vs :: v.id
  }

  lemma {:induction false} PowerAll(vs: seq<Validator>, ids: set<ValidatorId>)
    ensures Power(vs, ids) <= TotalPower(vs)
    ensures Ids(vs) <= ids ==> Power(vs, ids) == TotalPower(vs)
  {
    if vs != [] {
      PowerAll(vs[1..], ids);
      assert vs == [vs[0]] + vs[1..];
    }
  }

  lemma {:induction false} PowerMonotone(vs: seq<Validator>, a: set<ValidatorId>, b: set<ValidatorId>)
    requires a <= b
    ensures Power(vs, a) <= Power(vs, b)
  {
    if vs != [] { PowerMonotone(vs[1..], a, b); }
  }

  lemma {:induction false} PowerInclusionExclusion(vs: seq<Validator>, a: set<ValidatorId>, b: set<ValidatorId>)
    ensures Power(vs, a) + Power(vs, b) == Power(vs, a + b) + Power(vs, a * b)
  {
    if vs != [] { PowerInclusionExclusion(vs[1..], a, b); }
  }

  lemma SortedIdsDistinct(vs: seq<Validator>, i: nat, j: nat)
    requires Sorted(vs) && i < |vs| && j < |vs| && vs[i].id == vs[j].id
    ensures i == j
  {
    if i != j { LexOrder.Irreflexive(vs[i].id); }
  }

  lemma {:induction false} PowerAbsent(vs: seq<Validator>, a: set<ValidatorId>, id: ValidatorId)
    requires id !in Ids(vs)
    ensures Power(vs, a + {id}) == Power(vs, a)
  {
    if vs != [] {
      assert vs[0] in vs && forall v :: v in vs[1..] ==> v in vs;
      PowerAbsent(vs[1..], a, id);
    }
  }

  /** Adding one new signer adds exactly its weight. */
  lemma {:induction false} PowerInsert(vs: seq<Validator>, a: set<ValidatorId>, id: ValidatorId)
    requires Sorted(vs) && id !in a && Find(vs, id).Some?
    ensures Power(vs, a + {id}) == Power(vs, a) + Find(vs, id).value.weight
  {
    if vs[0].id == id {
      forall v | v in vs[1..] ensures v.id != id {
        var j :| 0 <= j < |vs| - 1 && vs[1..][j] == v;
        assert vs[j + 1] == v;
        if v.id == id { SortedIdsDistinct(vs, 0, j + 1); }
      }
      PowerAbsent(vs[1..], a, id);
    } else {
      PowerInsert(vs[1..], a, id);
    }
  }

  /** Strictly more than two thirds, as the round state demands of its engine. */
  predicate SafeQuorum(e: Engine) {
    3 * e.quorumPower > 2 * TotalPower(e.validators)
  }

  predicate ValidEngine(e: Engine) {
    && Sorted(e.validators)
    && e.validators != []
    && (forall v :: v in e.validators ==> Admissible(v))
    && TotalPower(e.validators) < U64_LIMIT
    && 0 < e.quorumPower <= TotalPower(e.validators)
  }

  /** Two quorums share a validator outside any set holding at most a third of the power. */
  lemma QuorumIntersection(e: Engine, a: set<ValidatorId>, b: set<ValidatorId>, faulty: set<ValidatorId>)
    returns (id: ValidatorId)
    requires SafeQuorum(e)
    requires Power(e.validators, a) >= e.quorumPower && Power(e.validators, b) >= e.quorumPower
    requires 3 * Power(e.validators, faulty) <= TotalPower(e.validators)
    ensures id in a && id in b && id !in faulty
  {
    PowerInclusionExclusion(e.validators, a, b);
    PowerAll(e.validators, a + b);
    if a * b <= faulty { PowerMonotone(e.validators, a * b, faulty); }
    id :| id in a * b && id !in faulty;
  }

  /** One set cannot hold two disjoint quorums. */
  lemma QuorumsMeet(e: Engine, a: set<ValidatorId>, b: set<ValidatorId>) returns (id: ValidatorId)
    requires SafeQuorum(e)
    requires Power(e.validators, a) >= e.quorumPower && Power(e.validators, b) >= e.quorumPower
    ensures id in a && id in b
  {
    EmptyPower(e.validators);
    id := QuorumIntersection(e, a, b, {});
  }

  lemma {:induction false} EmptyPower(vs: seq<Validator>)
    ensures Power(vs, {}) == 0
  {
    if vs != [] { EmptyPower(vs[1..]); }
  }

  // ---------------------------------------------------------------- building

  function InsertById(vs: seq<Validator>, v: Validator): seq<Validator> {
    if vs == [] || LexOrder.Less(v.id, vs[0].id) then [v] + vs
    else [vs[0]] + InsertById(vs[1..], v)
  }

  lemma {:induction false} InsertByIdHolds(vs: seq<Validator>, v: Validator)
    ensures forall w :: w in InsertById(vs, v) <==> w == v || w in vs
    ensures TotalPower(InsertById(vs, v)) == TotalPower(vs) + v.weight
  {
    var r := InsertById(vs, v);
    if vs == [] || LexOrder.Less(v.id, vs[0].id) {
      assert r[1..] == vs;
    } else {
      InsertByIdHolds(vs[1..], v);
      assert r[1..] == InsertById(vs[1..], v);
      assert vs == [vs[0]] + vs[1..];
    }
  }

  lemma SortedCons(v: Validator, vs: seq<Validator>)
    requires Sorted(vs) && forall w :: w in vs ==> LexOrder.Less(v.id, w.id)
    ensures Sorted([v] + vs)
  {
  }

  lemma {:induction false} InsertByIdSorted(vs: seq<Validator>, v: Validator)
    requires Sorted(vs) && Find(vs, v.id).None?
    ensures Sorted(InsertById(vs, v))
  {
    if vs != [] {
      assert forall w :: w in vs[1..] ==> w in vs;
      if LexOrder.Less(v.id, vs[0].id) {
        forall w | w in vs ensures LexOrder.Less(v.id, w.id) {
          if w != vs[0] { LexOrder.Transitive(v.id, vs[0].id, w.id); }
        }
        SortedCons(v, vs);
      } else {
        LexOrder.Total(v.id, vs[0].id);
        InsertByIdSorted(vs[1..], v);
        InsertByIdHolds(vs[1..], v);
        SortedCons(vs[0], InsertById(vs[1..], v));
      }
    }
  }

  predicate Admissible(v: Validator) {
    v.id != [] && v.weight > 0 && v.publicKey.Point?
  }

  predicate DistinctIds(vs: seq<Validator>) {
    forall i, j :: 0 <= i < j < |vs| ==> vs[i].id != vs[j].id
  }

  lemma {:induction false} TotalAppend(vs: seq<Validator>, v: Validator)
    ensures TotalPower(vs + [v]) == TotalPower(vs) + v.weight
  {
    if vs == [] {
      assert vs + [v] == [v];
    } else {
      TotalAppend(vs[1..], v);
      assert (vs + [v])[1..] == vs[1..] + [v];
    }
  }

  lemma {:induction false} TotalPrefix(vs: seq<Validator>, k: nat)
    requires k <= |vs|
    ensures TotalPower(vs[..k]) <= TotalPower(vs)
  {
    if k > 0 {
      TotalPrefix(vs[1..], k - 1);
      assert vs[..k][1..] == vs[1..][..k - 1];
    }
  }

  /** What is demanded of the configured validators. */
  predicate Buildable(config: seq<Validator>) {
    TotalPower(config) < U64_LIMIT && (forall v :: v in config ==> Admissible(v)) && DistinctIds(config)
  }

  /** What each refusal says is true of the configuration. */
  predicate Justified(config: seq<Validator>, quorumPower: nat, error: ConfigError) {
    match error
    case ZeroQuorum => quorumPower == 0
    case EmptyId => exists v :: v in config && v.id == []
    case ZeroWeight(id) => exists v :: v in config && v.id == id && v.weight == 0
    case InvalidKey(id) => exists v :: v in config && v.id == id && !v.publicKey.Point?
    case PowerOverflow => TotalPower(config) >= U64_LIMIT
    case DuplicateValidator => !DistinctIds(config)
    case NoValidators => config == []
    case QuorumExceedsPower => quorumPower > TotalPower(config)
    case _ => false
  }

  /** The first k configured validators, held sorted, and their power. */
  ghost predicate Collected(config: seq<Validator>, k: nat, validators: seq<Validator>, totalPower: nat)
    requires k <= |config|
  {
    && Sorted(validators) && (forall v :: v in validators <==> v in config[..k])
    && totalPower == TotalPower(validators) == TotalPower(config[..k]) && Buildable(config[..k])
  }

  lemma {:induction false} CollectNext(config: seq<Validator>, k: nat, validators: seq<Validator>, totalPower: nat)
    requires k < |config| && Collected(config, k, validators, totalPower) && Admissible(config[k])
    requires totalPower + config[k].weight < U64_LIMIT && Find(validators, config[k].id).None?
    ensures Collected(config, k + 1, InsertById(validators, config[k]), totalPower + config[k].weight)
  {
    var v := config[k];
    assert config[..k + 1] == config[..k] + [v];
    TotalAppend(config[..k], v);
    InsertByIdSorted(validators, v);
    InsertByIdHolds(validators, v);
    DistinctAppend(config[..k], v);
  }

  lemma {:induction false} DistinctAppend(front: seq<Validator>, v: Validator)
    requires DistinctIds(front) && forall w :: w in front ==> w.id != v.id
    ensures DistinctIds(front + [v])
  {
    assert forall i :: 0 <= i < |front| ==> front[i] in front;
  }

  lemma {:induction false} SomethingCollected(config: seq<Validator>, validators: seq<Validator>, totalPower: nat)
    requires Collected(config, |config|, validators, totalPower) && config != []
    ensures validators != []
  {
    assert config[0] in config[..|config|];
  }

  lemma {:induction false} RepeatedId(config: seq<Validator>, k: nat, validators: seq<Validator>, totalPower: nat)
    requires k < |config| && Collected(config, k, validators, totalPower) && Find(validators, config[k].id).Some?
    ensures !DistinctIds(config)
  {
    var existing := Find(validators, config[k].id).value;
    var i :| 0 <= i < k && config[i] == existing;
  }

  lemma {:induction false} PowerLeavesWord(config: seq<Validator>, k: nat)
    requires k < |config| && TotalPower(config[..k]) + config[k].weight >= U64_LIMIT
    ensures TotalPower(config) >= U64_LIMIT
  {
    assert config[..k + 1] == config[..k] + [config[k]];
    TotalAppend(config[..k], config[k]);
    TotalPrefix(config, k + 1);
  }

  /** One more validator, or the reason against it. */
  method AddValidator(config: seq<Validator>, k: nat, validators: seq<Validator>, totalPower: nat, ghost quorumPower: nat)
    returns (error: Option<ConfigError>, more: seq<Validator>, power: nat)
    requires k < |config| && Collected(config, k, validators, totalPower)
    ensures error.None? ==> Collected(config, k + 1, more, power)
    ensures error.Some? ==> Justified(config, quorumPower, error.value) && !Buildable(config)
  {
    var v := config[k];
    more, power := validators, totalPower + v.weight;
    assert v in config;
    if v.id == [] { return Some(EmptyId), more, power; }
    if v.weight == 0 { return Some(ZeroWeight(v.id)), more, power; }
    if !v.publicKey.Point? { return Some(InvalidKey(v.id)), more, power; }
    if power >= U64_LIMIT {
      PowerLeavesWord(config, k);
      return Some(PowerOverflow), more, power;
    }
    var existing := Find(validators, v.id);
    if existing.Some? {
      RepeatedId(config, k, validators, totalPower);
      return Some(DuplicateValidator), more, power;
    }
    CollectNext(config, k, validators, totalPower);
    return None, InsertById(validators, v), power;
  }

  /** Validate and build an engine: it holds exactly the configured validators, it is built exactly
      when the configuration meets every demand, and a refusal names a demand that is not met. */
  method New(config: seq<Validator>, quorumPower: nat) returns (r: Result<Engine, ConfigError>)
    ensures r.Ok? ==> ValidEngine(r.value) && r.value.quorumPower == quorumPower
    ensures r.Ok? ==> TotalPower(r.value.validators) == TotalPower(config)
    ensures r.Ok? ==> forall v :: v in r.value.validators <==> v in config
    ensures r.Ok? <==> 0 < quorumPower <= TotalPower(config) && Buildable(config)
    ensures r.Err? ==> Justified(config, quorumPower, r.error)
  {
    if quorumPower == 0 { return Err(ZeroQuorum); }
    var validators: seq<Validator>, totalPower := [], 0;
    for k := 0 to |config|
      invariant Collected(config, k, validators, totalPower)
    {
      var error;
      error, validators, totalPower := AddValidator(config, k, validators, totalPower, quorumPower);
      if error.Some? { return Err(error.value); }
    }
    assert config[..|config|] == config;
    if config != [] { SomethingCollected(config, validators, totalPower); }
    if validators == [] { return Err(NoValidators); }
    if quorumPower > totalPower { return Err(QuorumExceedsPower); }
    return Ok(Engine(validators, quorumPower));
  }

  /** The two-thirds rule with the source's checked multiplications. */
  function ValidateQuorum(e: Engine): Result<(), ConfigError> {
    if 3 * e.quorumPower >= U64_LIMIT then Err(QuorumOverflow)
    else if 2 * TotalPower(e.validators) >= U64_LIMIT then Err(PowerOverflow)
    else if 3 * e.quorumPower <= 2 * TotalPower(e.validators) then Err(UnsafeQuorum)
    else Ok(())
  }
}
