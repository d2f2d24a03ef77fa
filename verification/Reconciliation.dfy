/** Signed observations of a submission's commands, and their verification. */
module Reconciliation {
  import opened Prelude
  import opened Authority
  import opened AuthorityProofs
  import Counting

  const MAX_COMMANDS := 256
  const MAX_RECORD_BYTES := 33554432

  datatype CommandReceipt = CommandReceipt(sessionId: Hash32, command: Command, inputPosition: nat,
                                           blockHeight: nat, blockHash: Hash32, frameCommitment: Hash32)

  function ForRecord(r: Record, index: nat): Option<CommandReceipt> {
    if index >= |r.commands| then None
    else Some(CommandReceipt(r.sessionId, r.commands[index], r.inputStart + index, r.number, r.hash, r.frameCommitment))
  }

  function IndexOf(commands: seq<Command>, id: Hash32): (r: Option<nat>)
    ensures r.Some? ==> r.value < |commands| && commands[r.value].id == id
    ensures r.None? ==> forall k :: k in commands ==> k.id != id
  {
    if commands == [] then None
    else if commands[0].id == id then Some(0)
    else
      var rest := IndexOf(commands[1..], id);
      if rest.None? then None else Some(rest.value + 1)
  }

  /** The store's command index: written in the same transaction as the block. */
  function LoadReceipt(history: seq<Record>, id: Hash32): (r: Option<CommandReceipt>)
    ensures r.None? ==> !HasCommand(history, id)
    ensures r.Some? ==> r.value.command.id == id && HasCommand(history, id)
  {
    if history == [] then None
    else
      var last := history[|history| - 1];
      var found := IndexOf(last.commands, id);
      if found.Some? then
        assert last in history && last.commands[found.value] in last.commands && Carries(last, id);
        ForRecord(last, found.value)
      else
        assert history == history[..|history| - 1] + [last];
        LoadReceipt(history[..|history| - 1], id)
  }

  datatype Status = Missing | Committed(receipt: CommandReceipt) | IdentityConflict(receipt: CommandReceipt)

  function StatusOf(history: seq<Record>, k: Command): Status {
    var r := LoadReceipt(history, k.id);
    if r.None? then Missing
    else if r.value.command.payloadHash == k.payloadHash then Committed(r.value)
    else IdentityConflict(r.value)
  }

  datatype Observed =
    | SawMissing | SawCommitted(receipt: CommandReceipt, blockIndex: nat) | SawConflict(receipt: CommandReceipt, blockIndex: nat)

  datatype Observation = Observation(command: Command, status: Observed)

  /** An encoded block: its bytes decode to one record or to none. */
  datatype BlockBytes = BlockBytes(record: Option<Record>, size: nat)

  datatype Body = Body(policy: Policy, submission: Digest, submittedEpoch: nat, observedEpoch: nat,
                       observedHead: HeadBytes, observations: seq<Observation>, blocks: seq<BlockBytes>)

  datatype CertificateSignature = NoSignature | CertifiedBy(key: PublicKey, body: Body)

  datatype Certificate = Certificate(body: Body, signature: CertificateSignature)

  datatype Verified = VerifiedMissing(command: Command) | VerifiedCommitted(receipt: CommandReceipt, record: Record)
                    | VerifiedConflict(receipt: CommandReceipt)

  predicate ValidCommands(commands: seq<Command>) {
    && 0 < |commands| <= MAX_COMMANDS
    && ValidFrame(commands)
  }

  /** One to 256 commands with real ids and payload hashes, no id twice. */
  ghost predicate Askable(commands: seq<Command>) {
    && 0 < |commands| <= 256
    && (forall i :: 0 <= i < |commands| ==> commands[i].id != 0 && commands[i].payloadHash != 0)
    && (forall i, j :: 0 <= i < j < |commands| ==> commands[i].id != commands[j].id)
  }

  predicate GrantVerifies(policy: Policy, g: Grant) {
    && g.request.policy == policy && g.epoch != 0 && g.request.expectedEpoch + 1 == g.epoch
    && g.request.anchor.Decodes? && g.request.anchor.head.sessionId == policy.sessionId
    && Verifies(policy.administrator, GrantContent(g.request), g.request.signature)
  }

  /** `verify_binding`: the submission is signed by the owner of the grant of its epoch. */
  predicate Binds(policy: Policy, a: Authorization, g: Grant) {
    && GrantVerifies(policy, g)
    && a.policy == policy && a.epoch == g.epoch && a.owner == g.request.owner
    && a.baseHead.Decodes? && a.baseHead.head.sessionId == policy.sessionId
    && Verifies(a.owner, CommitContent(a), a.signature)
  }

  // ------------------------------------------------------ producing a certificate

  /** Observation i tells the canonical status of its command and points at the
      block that proves it. */
  ghost predicate Faithful(history: seq<Record>, blocks: seq<BlockBytes>, o: Observation) {
    match StatusOf(history, o.command)
    case Missing => o.status == SawMissing
    case Committed(receipt) =>
      o.status.SawCommitted? && o.status.receipt == receipt && PointsAt(history, blocks, receipt, o.status.blockIndex)
    case IdentityConflict(receipt) =>
      o.status.SawConflict? && o.status.receipt == receipt && PointsAt(history, blocks, receipt, o.status.blockIndex)
  }

  ghost predicate PointsAt(history: seq<Record>, blocks: seq<BlockBytes>, receipt: CommandReceipt, index: nat) {
    index < |blocks| && receipt.blockHeight < |history| && blocks[index].record == Some(history[receipt.blockHeight])
  }

  ghost predicate Used(observations: seq<Observation>, index: nat) {
    exists o :: o in observations && !o.status.SawMissing? && o.status.blockIndex == index
  }

  /** The attached blocks are canonical, pairwise distinct, all referenced, and small. */
  ghost predicate ValidBlocks(history: seq<Record>, observations: seq<Observation>, blocks: seq<BlockBytes>) {
    && (forall i :: 0 <= i < |blocks| ==>
          blocks[i].record.Some? && blocks[i].record.value.number < |history|
          && blocks[i].record.value == history[blocks[i].record.value.number])
    && (forall i, j :: 0 <= i < j < |blocks| ==> blocks[i].record.value.number != blocks[j].record.value.number)
    && (forall i {:trigger Used(observations, i)} :: 0 <= i < |blocks| ==> Used(observations, i))
    && TotalSize(blocks) <= MAX_RECORD_BYTES
    && |blocks| <= |observations|
  }

  function TotalSize(blocks: seq<BlockBytes>): nat {
    if blocks == [] then 0 else TotalSize(blocks[..|blocks| - 1]) + blocks[|blocks| - 1].size
  }

  /** What a produced certificate says, beyond its signature. */
  ghost predicate Truthful(c: Config, w: World, a: Authorization, commands: seq<Command>, body: Body) {
    && w.ownership.Some? && w.ownership.value.grants != []
    && body.policy == c.policy && body.submission == CommitContent(a)
    && body.submittedEpoch == a.epoch && 1 <= a.epoch <= body.observedEpoch == |w.ownership.value.grants|
    && body.observedHead == Decodes(HeadOf(c, w.history))
    && |body.observations| == |commands|
    && (forall i :: 0 <= i < |commands| ==> body.observations[i].command == commands[i])
    && (forall i :: 0 <= i < |commands| ==> Faithful(w.history, body.blocks, body.observations[i]))
    && ValidBlocks(w.history, body.observations, body.blocks)
  }

  lemma {:induction false} LoadReceiptAt(history: seq<Record>, id: Hash32)
    requires forall h :: 0 <= h < |history| ==> history[h].number == h
    requires LoadReceipt(history, id).Some?
    ensures var r := LoadReceipt(history, id).value;
      && r.blockHeight < |history|
      && history[r.blockHeight].inputStart <= r.inputPosition
      && ForRecord(history[r.blockHeight], r.inputPosition - history[r.blockHeight].inputStart) == Some(r)
  {
    var last := |history| - 1;
    if IndexOf(history[last].commands, id).None? {
      LoadReceiptAt(history[..last], id);
    }
  }

  lemma {:induction false} OldObservationsStay(history: seq<Record>, blocks: seq<BlockBytes>, b: BlockBytes, o: Observation)
    requires Faithful(history, blocks, o)
    ensures Faithful(history, blocks + [b], o)
  {
  }

  lemma {:induction false} UsedStays(observations: seq<Observation>, o: Observation, index: nat)
    requires Used(observations, index)
    ensures Used(observations + [o], index)
  {
    var u :| u in observations && !u.status.SawMissing? && u.status.blockIndex == index;
    assert u in observations + [o];
  }

  /** The position of the block at `height` among the attached ones. */
  ghost predicate Indexes(indices: map<nat, nat>, blocks: seq<BlockBytes>) {
    && (forall h :: h in indices ==> indices[h] < |blocks| && blocks[indices[h]].record.Some?
                                     && blocks[indices[h]].record.value.number == h)
    && (forall i :: 0 <= i < |blocks| ==> blocks[i].record.Some? && blocks[i].record.value.number in indices)
  }

  lemma {:induction false} AppendedBlock(history: seq<Record>, observations: seq<Observation>, blocks: seq<BlockBytes>, b: BlockBytes, o: Observation)
    requires ValidBlocks(history, observations, blocks)
    requires b.record.Some? && b.record.value.number < |history| && b.record.value == history[b.record.value.number]
    requires forall i :: 0 <= i < |blocks| ==> blocks[i].record.value.number != b.record.value.number
    requires TotalSize(blocks) + b.size <= MAX_RECORD_BYTES
    requires !o.status.SawMissing? && o.status.blockIndex == |blocks|
    ensures ValidBlocks(history, observations + [o], blocks + [b])
  {
    assert (blocks + [b])[..|blocks|] == blocks;
    AllUsed(observations, |blocks|, o);
  }

  lemma {:induction false} AllUsed(observations: seq<Observation>, n: nat, o: Observation)
    requires forall i {:trigger Used(observations, i)} :: 0 <= i < n ==> Used(observations, i)
    requires !o.status.SawMissing? && o.status.blockIndex == n
    ensures forall i {:trigger Used(observations + [o], i)} :: 0 <= i < n + 1 ==> Used(observations + [o], i)
  {
    forall i | 0 <= i < n + 1 ensures Used(observations + [o], i) {
      if i < n { UsedStays(observations, o, i); } else { assert o in observations + [o]; }
    }
  }

  lemma {:induction false} KeptBlocks(history: seq<Record>, observations: seq<Observation>, blocks: seq<BlockBytes>, o: Observation)
    requires ValidBlocks(history, observations, blocks)
    ensures ValidBlocks(history, observations + [o], blocks)
  {
    forall i | 0 <= i < |blocks| ensures Used(observations + [o], i) {
      UsedStays(observations, o, i);
    }
  }

  /** Heights of the blocks that prove the commands' statuses. */
  ghost function NeededHeights(history: seq<Record>, commands: seq<Command>): set<nat> {
    set k | k in commands && !StatusOf(history, k).Missing? :: StatusOf(history, k).receipt.blockHeight
  }

  /** Encoded size of the blocks at the given heights. */
  ghost function BytesAt(history: seq<Record>, heights: set<nat>, sizeOf: Record -> nat): nat {
    if history == [] then 0
    else
      var n := |history| - 1;
      BytesAt(history[..n], heights, sizeOf) + if n in heights then sizeOf(history[n]) else 0
  }

  lemma {:induction false} BytesInsert(history: seq<Record>, heights: set<nat>, h: nat, sizeOf: Record -> nat)
    requires h !in heights
    ensures BytesAt(history, heights + {h}, sizeOf)
         == BytesAt(history, heights, sizeOf) + if h < |history| then sizeOf(history[h]) else 0
  {
    if history != [] { BytesInsert(history[..|history| - 1], heights, h, sizeOf); }
  }

  lemma {:induction false} BytesMonotone(history: seq<Record>, a: set<nat>, b: set<nat>, sizeOf: Record -> nat)
    requires a <= b
    ensures BytesAt(history, a, sizeOf) <= BytesAt(history, b, sizeOf)
  {
    if history != [] { BytesMonotone(history[..|history| - 1], a, b, sizeOf); }
  }

  lemma {:induction false} BytesNone(history: seq<Record>, sizeOf: Record -> nat)
    ensures BytesAt(history, {}, sizeOf) == 0
  {
    if history != [] { BytesNone(history[..|history| - 1], sizeOf); }
  }

  lemma {:induction false} NeededNext(history: seq<Record>, commands: seq<Command>, n: nat)
    requires n < |commands|
    ensures NeededHeights(history, commands[..n + 1]) == NeededHeights(history, commands[..n])
      + (if StatusOf(history, commands[n]).Missing? then {} else {StatusOf(history, commands[n]).receipt.blockHeight})
    ensures NeededHeights(history, commands[..n + 1]) <= NeededHeights(history, commands)
  {
    assert commands[..n + 1] == commands[..n] + [commands[n]];
  }

  /** The submission is one that the ownership history vouches for. */
  ghost predicate Vouched(c: Config, w: World, a: Authorization) {
    && w.live.Some? && !w.live.value.uncertain
    && exists g :: g in w.live.value.ownership.grants && g.epoch == a.epoch && Binds(c.policy, a, g)
  }

  /** Epochs are positions, so the search by epoch finds the only grant of that epoch. */
  lemma {:induction false} EpochIsPosition(c: Config, o: Ownership, history: seq<Record>, g: Grant)
    requires Audits(c, o, history) && g in o.grants
    ensures 1 <= g.epoch <= |o.grants| && o.grants[g.epoch - 1] == g
  {
    var i :| 0 <= i < |o.grants| && o.grants[i] == g;
    assert GrantAudits(c, o, history, i);
  }

  /** In terms of the ownership record: the submission names a grant that was given, by its epoch and
      owner, is signed by that owner, and is based on a head of this session. */
  lemma {:induction false} VouchedExactly(c: Config, w: World, a: Authorization)
    requires ValidConfig(c) && Inv(c, w)
    ensures Vouched(c, w, a) <==>
      && w.live.Some? && !w.live.value.uncertain && 1 <= a.epoch <= |Grants(w)|
      && a.policy == c.policy && a.owner == Grants(w)[a.epoch - 1].request.owner
      && Verifies(a.owner, CommitContent(a), a.signature)
      && a.baseHead.Decodes? && a.baseHead.head.sessionId == c.policy.sessionId
  {
    if w.live.Some? && !w.live.value.uncertain {
      var o := w.live.value.ownership;
      forall g | g in o.grants && g.epoch == a.epoch
        ensures 1 <= a.epoch <= |o.grants| && g == o.grants[a.epoch - 1]
      {
        EpochIsPosition(c, o, w.history, g);
      }
      if 1 <= a.epoch <= |o.grants| { GivenGrantVerifies(c, w, a.epoch); }
    }
  }

  lemma {:induction false} GivenGrantVerifies(c: Config, w: World, epoch: nat)
    requires ValidConfig(c) && Inv(c, w) && 1 <= epoch <= |Grants(w)|
    ensures var g := Grants(w)[epoch - 1]; g.epoch == epoch && GrantVerifies(c.policy, g)
  {
    assert GrantAudits(c, w.ownership.value, w.history, epoch - 1);
  }

  method FindEpoch(c: Config, w: World, a: Authorization) returns (found: Option<Grant>)
    requires Inv(c, w) && w.live.Some? && !w.live.value.uncertain
    ensures found.Some? <==> Vouched(c, w, a)
    ensures found.Some? ==> found.value in w.live.value.ownership.grants && Binds(c.policy, a, found.value)
  {
    var o := w.live.value.ownership;
    var i := 0;
    while i < |o.grants| && o.grants[i].epoch != a.epoch
      invariant i <= |o.grants|
      invariant forall j :: 0 <= j < i ==> o.grants[j].epoch != a.epoch
    {
      i := i + 1;
    }
    if i == |o.grants| { return None; }
    forall g | g in o.grants && g.epoch == a.epoch ensures g == o.grants[i] {
      EpochIsPosition(c, o, w.history, g);
      EpochIsPosition(c, o, w.history, o.grants[i]);
    }
    if !Binds(c.policy, a, o.grants[i]) { return None; }
    return Some(o.grants[i]);
  }

  lemma {:induction false} SheetIsTruthful(c: Config, w: World, a: Authorization, commands: seq<Command>,
                                           observations: seq<Observation>, blocks: seq<BlockBytes>)
    requires w.ownership.Some? && 1 <= a.epoch <= |w.ownership.value.grants| && |observations| == |commands|
    requires exists indices :: Observing(w.history, commands, observations, blocks, indices)
    ensures Truthful(c, w, a, commands, Body(c.policy, CommitContent(a), a.epoch, |w.ownership.value.grants|,
                                             Decodes(HeadOf(c, w.history)), observations, blocks))
  {
  }

  /** The epoch and head that a certificate for this submission reports, if the ownership history
      vouches for the submission. */
  method ObservedPosition(c: Config, w: World, a: Authorization) returns (r: Result<(nat, Head), Error>)
    requires ValidConfig(c) && Inv(c, w)
    ensures r.Ok? <==> Vouched(c, w, a)
    ensures r.Ok? ==> w.ownership.Some? && 1 <= a.epoch <= |w.ownership.value.grants| && a.policy == c.policy
    ensures r.Ok? ==> r.value == (|w.ownership.value.grants|, HeadOf(c, w.history))
  {
    if w.live.None? { return Err(NotRunning); }
    var inner := w.live.value;
    if inner.uncertain { return Err(Uncertain); }
    var submitted := FindEpoch(c, w, a);
    if submitted.None? { return Err(Invalid); }
    EpochIsPosition(c, inner.ownership, w.history, submitted.value);
    LastEpoch(c, inner.ownership, w.history);
    var grants := inner.ownership.grants;
    return Ok((grants[|grants| - 1].epoch, inner.head));
  }

  method ObserveAndSign(c: Config, w: World, a: Authorization, commands: seq<Command>, sizeOf: Record -> nat, epoch: nat, head: Head)
    returns (r: Option<Certificate>)
    requires Linked(c, w.history) && w.ownership.Some? && 1 <= a.epoch <= |w.ownership.value.grants|
    requires epoch == |w.ownership.value.grants| && head == HeadOf(c, w.history)
    ensures r.Some? <==> BytesAt(w.history, NeededHeights(w.history, commands), sizeOf) <= MAX_RECORD_BYTES
    ensures r.Some? ==> Truthful(c, w, a, commands, r.value.body)
    ensures r.Some? ==> r.value.signature == CertifiedBy(c.policy.certificateKey, r.value.body)
  {
    var observations, blocks, fits := ObserveCommands(c, w.history, commands, sizeOf);
    if !fits { return None; }
    SheetIsTruthful(c, w, a, commands, observations, blocks);
    var body := Body(c.policy, CommitContent(a), a.epoch, epoch, Decodes(head), observations, blocks);
    return Some(Certificate(body, CertifiedBy(c.policy.certificateKey, body)));
  }

  lemma {:induction false} InvLinked(c: Config, w: World)
    requires Inv(c, w)
    ensures Linked(c, w.history)
  {
  }

  /** One observation under the authority lock. */
  method ReconcileSubmission(c: Config, w: World, a: Authorization, commands: seq<Command>, sizeOf: Record -> nat)
    returns (r: Result<Certificate, Error>)
    requires ValidConfig(c) && Inv(c, w)
    ensures r.Ok? <==> ValidCommands(commands) && Vouched(c, w, a)
                       && BytesAt(w.history, NeededHeights(w.history, commands), sizeOf) <= MAX_RECORD_BYTES
    ensures r.Ok? ==> a.policy == c.policy && Truthful(c, w, a, commands, r.value.body)
    ensures r.Ok? ==> r.value.signature == CertifiedBy(c.policy.certificateKey, r.value.body)
  {
    if !ValidCommands(commands) { return Err(Invalid); }
    var position := ObservedPosition(c, w, a);
    if position.Err? { return Err(position.error); }
    InvLinked(c, w);
    var cert := ObserveAndSign(c, w, a, commands, sizeOf, position.value.0, position.value.1);
    r := if cert.None? then Err(Invalid) else Ok(cert.value);
  }

  /** What the observation loop has established so far. */
  ghost predicate Observing(history: seq<Record>, commands: seq<Command>, observations: seq<Observation>,
                            blocks: seq<BlockBytes>, indices: map<nat, nat>) {
    && |observations| <= |commands|
    && (forall i :: 0 <= i < |observations| ==> observations[i].command == commands[i])
    && (forall i :: 0 <= i < |observations| ==> Faithful(history, blocks, observations[i]))
    && ValidBlocks(history, observations, blocks)
    && Indexes(indices, blocks)
  }

  lemma {:induction false} ObserveKnown(history: seq<Record>, commands: seq<Command>, observations: seq<Observation>,
                                        blocks: seq<BlockBytes>, indices: map<nat, nat>, o: Observation)
    requires Observing(history, commands, observations, blocks, indices) && |observations| < |commands|
    requires o.command == commands[|observations|] && Faithful(history, blocks, o)
    ensures Observing(history, commands, observations + [o], blocks, indices)
  {
    KeptBlocks(history, observations, blocks, o);
  }

  lemma {:induction false} IndexNew(indices: map<nat, nat>, blocks: seq<BlockBytes>, b: BlockBytes, h: nat)
    requires Indexes(indices, blocks) && h !in indices && b.record.Some? && b.record.value.number == h
    ensures Indexes(indices[h := |blocks|], blocks + [b])
    ensures forall i :: 0 <= i < |blocks| ==> blocks[i].record.Some? && blocks[i].record.value.number != h
  {
  }

  lemma {:induction false} ObserveNew(history: seq<Record>, commands: seq<Command>, observations: seq<Observation>,
                                      blocks: seq<BlockBytes>, indices: map<nat, nat>, o: Observation, b: BlockBytes, h: nat)
    requires Observing(history, commands, observations, blocks, indices) && |observations| < |commands|
    requires h !in indices && h < |history| && history[h].number == h && b.record == Some(history[h])
    requires TotalSize(blocks) + b.size <= MAX_RECORD_BYTES
    requires o.command == commands[|observations|] && Faithful(history, blocks + [b], o)
    requires !o.status.SawMissing? && o.status.blockIndex == |blocks|
    ensures Observing(history, commands, observations + [o], blocks + [b], indices[h := |blocks|])
    ensures TotalSize(blocks + [b]) == TotalSize(blocks) + b.size
  {
    assert (blocks + [b])[..|blocks|] == blocks;
    IndexNew(indices, blocks, b, h);
    AppendedBlock(history, observations, blocks, b, o);
    forall i | 0 <= i < |observations| ensures Faithful(history, blocks + [b], observations[i]) {
      OldObservationsStay(history, blocks, b, observations[i]);
    }
  }

  /** The heights indexed so far are those the first n commands need, and `total` is their size. */
  ghost predicate Tally(history: seq<Record>, commands: seq<Command>, n: nat, heights: set<nat>, total: nat, sizeOf: Record -> nat)
    requires n <= |commands|
  {
    heights == NeededHeights(history, commands[..n]) && total == BytesAt(history, heights, sizeOf)
  }

  lemma {:induction false} TallyKnown(history: seq<Record>, commands: seq<Command>, n: nat, heights: set<nat>, total: nat, sizeOf: Record -> nat)
    requires n < |commands| && Tally(history, commands, n, heights, total, sizeOf)
    requires StatusOf(history, commands[n]).Missing? || StatusOf(history, commands[n]).receipt.blockHeight in heights
    ensures Tally(history, commands, n + 1, heights, total, sizeOf)
  {
    NeededNext(history, commands, n);
  }

  lemma {:induction false} TallyNew(history: seq<Record>, commands: seq<Command>, n: nat, heights: set<nat>, total: nat, h: nat, sizeOf: Record -> nat)
    requires n < |commands| && Tally(history, commands, n, heights, total, sizeOf)
    requires !StatusOf(history, commands[n]).Missing? && StatusOf(history, commands[n]).receipt.blockHeight == h
    requires h !in heights && h < |history|
    ensures Tally(history, commands, n + 1, heights + {h}, total + sizeOf(history[h]), sizeOf)
    ensures total + sizeOf(history[h]) <= BytesAt(history, NeededHeights(history, commands), sizeOf)
  {
    NeededNext(history, commands, n);
    BytesInsert(history, heights, h, sizeOf);
    BytesMonotone(history, heights + {h}, NeededHeights(history, commands), sizeOf);
  }

  /** The certificate under construction, with its index map and byte count. */
  datatype Sheet = Sheet(observations: seq<Observation>, blocks: seq<BlockBytes>, indices: map<nat, nat>, total: nat)

  ghost predicate ValidSheet(history: seq<Record>, commands: seq<Command>, s: Sheet, sizeOf: Record -> nat) {
    && Observing(history, commands, s.observations, s.blocks, s.indices)
    && Tally(history, commands, |s.observations|, s.indices.Keys, s.total, sizeOf)
    && s.total == TotalSize(s.blocks) <= MAX_RECORD_BYTES
  }

  /** Block h is the one the next command needs, and it is not attached yet. */
  ghost predicate NeedsBlock(history: seq<Record>, commands: seq<Command>, s: Sheet, h: nat) {
    && |s.observations| < |commands| && h < |history| && history[h].number == h && h !in s.indices
    && var status := StatusOf(history, commands[|s.observations|]);
       !status.Missing? && status.receipt.blockHeight == h
  }

  function Attached(history: seq<Record>, commands: seq<Command>, s: Sheet, h: nat, sizeOf: Record -> nat): Sheet
    requires NeedsBlock(history, commands, s, h)
  {
    var n, size := |s.observations|, sizeOf(history[h]);
    Sheet(s.observations + [Saw(commands[n], StatusOf(history, commands[n]), |s.blocks|)],
          s.blocks + [BlockBytes(Some(history[h]), size)], s.indices[h := |s.blocks|], s.total + size)
  }

  lemma {:induction false} AttachTally(history: seq<Record>, commands: seq<Command>, s: Sheet, h: nat, sizeOf: Record -> nat)
    requires NeedsBlock(history, commands, s, h) && Tally(history, commands, |s.observations|, s.indices.Keys, s.total, sizeOf)
    ensures var next := Attached(history, commands, s, h, sizeOf);
      && Tally(history, commands, |next.observations|, next.indices.Keys, next.total, sizeOf)
      && next.total <= BytesAt(history, NeededHeights(history, commands), sizeOf)
  {
    TallyNew(history, commands, |s.observations|, s.indices.Keys, s.total, h, sizeOf);
    assert s.indices[h := |s.blocks|].Keys == s.indices.Keys + {h};
  }

  lemma {:induction false} AttachObserves(history: seq<Record>, commands: seq<Command>, s: Sheet, h: nat, sizeOf: Record -> nat)
    requires NeedsBlock(history, commands, s, h) && Observing(history, commands, s.observations, s.blocks, s.indices)
    requires TotalSize(s.blocks) + sizeOf(history[h]) <= MAX_RECORD_BYTES
    ensures var next := Attached(history, commands, s, h, sizeOf);
      && Observing(history, commands, next.observations, next.blocks, next.indices)
      && TotalSize(next.blocks) == TotalSize(s.blocks) + sizeOf(history[h])
  {
    var next := Attached(history, commands, s, h, sizeOf);
    ObserveNew(history, commands, s.observations, s.blocks, s.indices,
      next.observations[|s.observations|], next.blocks[|s.blocks|], h);
  }

  lemma {:induction false} AttachKeepsSheet(history: seq<Record>, commands: seq<Command>, s: Sheet, h: nat, sizeOf: Record -> nat)
    requires ValidSheet(history, commands, s, sizeOf) && NeedsBlock(history, commands, s, h)
    requires s.total + sizeOf(history[h]) <= MAX_RECORD_BYTES
    ensures ValidSheet(history, commands, Attached(history, commands, s, h, sizeOf), sizeOf)
  {
    AttachTally(history, commands, s, h, sizeOf);
    AttachObserves(history, commands, s, h, sizeOf);
  }

  lemma {:induction false} AttachTooLarge(history: seq<Record>, commands: seq<Command>, s: Sheet, h: nat, sizeOf: Record -> nat)
    requires ValidSheet(history, commands, s, sizeOf) && NeedsBlock(history, commands, s, h)
    ensures s.total + sizeOf(history[h]) <= BytesAt(history, NeededHeights(history, commands), sizeOf)
  {
    AttachTally(history, commands, s, h, sizeOf);
  }

  /** Attach the block of a status that is not yet indexed, if it still fits. */
  method AttachBlock(history: seq<Record>, commands: seq<Command>, s: Sheet, h: nat, sizeOf: Record -> nat)
    returns (r: Option<Sheet>)
    requires ValidSheet(history, commands, s, sizeOf) && NeedsBlock(history, commands, s, h)
    ensures r.None? ==> BytesAt(history, NeededHeights(history, commands), sizeOf) > MAX_RECORD_BYTES
    ensures r.Some? ==> ValidSheet(history, commands, r.value, sizeOf) && |r.value.observations| == |s.observations| + 1
  {
    AttachTooLarge(history, commands, s, h, sizeOf);
    if s.total + sizeOf(history[h]) > MAX_RECORD_BYTES { return None; }
    AttachKeepsSheet(history, commands, s, h, sizeOf);
    return Some(Attached(history, commands, s, h, sizeOf));
  }

  lemma {:induction false} KnownKeepsSheet(history: seq<Record>, commands: seq<Command>, s: Sheet, saw: Observation, sizeOf: Record -> nat)
    requires ValidSheet(history, commands, s, sizeOf) && |s.observations| < |commands|
    requires saw.command == commands[|s.observations|] && Faithful(history, s.blocks, saw)
    requires var status := StatusOf(history, commands[|s.observations|]);
      status.Missing? || status.receipt.blockHeight in s.indices
    ensures ValidSheet(history, commands, s.(observations := s.observations + [saw]), sizeOf)
  {
    assert Tally(history, commands, |s.observations| + 1, s.indices.Keys, s.total, sizeOf) by {
      TallyKnown(history, commands, |s.observations|, s.indices.Keys, s.total, sizeOf);
    }
    assert Observing(history, commands, s.observations + [saw], s.blocks, s.indices) by {
      ObserveKnown(history, commands, s.observations, s.blocks, s.indices, saw);
    }
  }

  lemma {:induction false} KnownIsFaithful(history: seq<Record>, commands: seq<Command>, s: Sheet, sizeOf: Record -> nat)
    requires ValidSheet(history, commands, s, sizeOf) && |s.observations| < |commands|
    requires forall h :: 0 <= h < |history| ==> history[h].number == h
    ensures var k := commands[|s.observations|];
      var status := StatusOf(history, k);
      if status.Missing? then Faithful(history, s.blocks, Observation(k, SawMissing))
      else status.receipt.blockHeight in s.indices ==>
        Faithful(history, s.blocks, Saw(k, status, s.indices[status.receipt.blockHeight]))
  {
    var k := commands[|s.observations|];
    if !StatusOf(history, k).Missing? { LoadReceiptAt(history, k.id); }
  }

  /** The next command, looked up and recorded. */
  method ObserveNext(history: seq<Record>, commands: seq<Command>, s: Sheet, sizeOf: Record -> nat) returns (r: Option<Sheet>)
    requires ValidSheet(history, commands, s, sizeOf) && |s.observations| < |commands|
    requires forall h :: 0 <= h < |history| ==> history[h].number == h
    ensures r.None? ==> BytesAt(history, NeededHeights(history, commands), sizeOf) > MAX_RECORD_BYTES
    ensures r.Some? ==> ValidSheet(history, commands, r.value, sizeOf) && |r.value.observations| == |s.observations| + 1
  {
    var k := commands[|s.observations|];
    var status := StatusOf(history, k);
    KnownIsFaithful(history, commands, s, sizeOf);
    if !status.Missing? && status.receipt.blockHeight !in s.indices {
      LoadReceiptAt(history, k.id);
      r := AttachBlock(history, commands, s, status.receipt.blockHeight, sizeOf);
    } else {
      var saw := if status.Missing? then Observation(k, SawMissing) else Saw(k, status, s.indices[status.receipt.blockHeight]);
      KnownKeepsSheet(history, commands, s, saw, sizeOf);
      r := Some(s.(observations := s.observations + [saw]));
    }
  }

  /** The observation loop; it gives up when the records do not fit. */
  method ObserveCommands(c: Config, history: seq<Record>, commands: seq<Command>, sizeOf: Record -> nat)
    returns (observations: seq<Observation>, blocks: seq<BlockBytes>, fits: bool)
    requires Linked(c, history)
    ensures fits <==> BytesAt(history, NeededHeights(history, commands), sizeOf) <= MAX_RECORD_BYTES
    ensures fits ==> |observations| == |commands|
    ensures fits ==> exists indices :: Observing(history, commands, observations, blocks, indices)
  {
    var s := Sheet([], [], map[], 0);
    BytesNone(history, sizeOf);
    assert s.indices.Keys == {} == NeededHeights(history, commands[..0]);
    for n := 0 to |commands|
      invariant |s.observations| == n && ValidSheet(history, commands, s, sizeOf)
    {
      var next := ObserveNext(history, commands, s, sizeOf);
      if next.None? { return [], [], false; }
      s := next.value;
    }
    assert commands[..|commands|] == commands;
    return s.observations, s.blocks, true;
  }

  function Saw(k: Command, status: Status, index: nat): Observation
    requires !status.Missing?
  {
    Observation(k, if status.Committed? then SawCommitted(status.receipt, index) else SawConflict(status.receipt, index))
  }

  // ------------------------------------------------------- verifying a certificate

  /** The scope checks of `verify`. */
  ghost predicate ScopeOk(policy: Policy, cert: Certificate, a: Authorization, commands: seq<Command>) {
    var b := cert.body;
    && ValidCommands(commands)
    && b.policy == policy && a.policy == b.policy && b.submission == CommitContent(a)
    && b.submittedEpoch == a.epoch && b.submittedEpoch != 0 && b.observedEpoch >= b.submittedEpoch
    && |b.observations| == |commands| && |b.blocks| <= |commands| && TotalSize(b.blocks) <= MAX_RECORD_BYTES
    && policy.certificateKey.Point? && cert.signature == CertifiedBy(policy.certificateKey, b)
    && b.observedHead.Decodes? && b.observedHead.head.sessionId == policy.sessionId
  }

  ghost predicate BlockOk(policy: Policy, head: Head, blocks: seq<BlockBytes>, i: nat)
    requires i < |blocks|
  {
    && blocks[i].record.Some?
    && var r := blocks[i].record.value;
       && r.sessionId == policy.sessionId
       && (forall j :: 0 <= j < i ==> blocks[j].record.Some? && blocks[j].record.value.number != r.number)
       && head.finalisedHeight.Some? && r.number <= head.finalisedHeight.value
       && (head.finalisedHeight == Some(r.number) ==> r.hash == head.blockHash)
  }

  ghost predicate ObservationOk(policy: Policy, blocks: seq<BlockBytes>, o: Observation, k: Command) {
    && o.command == k
    && (!o.status.SawMissing? ==>
          && o.status.blockIndex < |blocks| && blocks[o.status.blockIndex].record.Some?
          && var r, block := o.status.receipt, blocks[o.status.blockIndex].record.value;
             && block.inputStart <= r.inputPosition
             && r.sessionId == policy.sessionId && r.command.id == k.id
             && ((r.command.payloadHash == k.payloadHash) <==> o.status.SawCommitted?)
             && ForRecord(block, r.inputPosition - block.inputStart) == Some(r))
  }

  /** Exactly the certificates that `verify` accepts. */
  ghost predicate Accepts(policy: Policy, cert: Certificate, a: Authorization, commands: seq<Command>) {
    && ScopeOk(policy, cert, a, commands)
    && var b := cert.body;
       && (forall i :: 0 <= i < |b.blocks| ==> BlockOk(policy, b.observedHead.head, b.blocks, i))
       && (forall i :: 0 <= i < |commands| ==> ObservationOk(policy, b.blocks, b.observations[i], commands[i]))
       && (forall i {:trigger Used(b.observations, i)} :: 0 <= i < |b.blocks| ==> Used(b.observations, i))
  }

  function Outcome(blocks: seq<BlockBytes>, o: Observation): Verified
    requires !o.status.SawMissing? ==> o.status.blockIndex < |blocks| && blocks[o.status.blockIndex].record.Some?
  {
    match o.status
    case SawMissing => VerifiedMissing(o.command)
    case SawCommitted(receipt, i) => VerifiedCommitted(receipt, blocks[i].record.value)
    case SawConflict(receipt, i) => VerifiedConflict(receipt)
  }

  /** The heights of the first i blocks. */
  ghost predicate SeenIn(seen: set<nat>, blocks: seq<BlockBytes>, i: nat)
    requires i <= |blocks|
  {
    forall n :: n in seen <==> exists j :: 0 <= j < i && blocks[j].record.Some? && blocks[j].record.value.number == n
  }

  lemma {:induction false} SeenNext(seen: set<nat>, blocks: seq<BlockBytes>, i: nat)
    requires i < |blocks| && SeenIn(seen, blocks, i) && blocks[i].record.Some?
    ensures SeenIn(seen + {blocks[i].record.value.number}, blocks, i + 1)
  {
  }

  /** The checks of one block, against the heights of those before it. */
  method VerifyBlock(policy: Policy, head: Head, blocks: seq<BlockBytes>, i: nat, seen: set<nat>) returns (ok: bool)
    requires i < |blocks| && SeenIn(seen, blocks, i) && forall j :: 0 <= j < i ==> blocks[j].record.Some?
    ensures ok <==> BlockOk(policy, head, blocks, i)
  {
    if blocks[i].record.None? {
      return false;
    }
    var r := blocks[i].record.value;
    ok := !(r.sessionId != policy.sessionId || r.number in seen || head.finalisedHeight.None?
            || r.number > head.finalisedHeight.value || (head.finalisedHeight == Some(r.number) && r.hash != head.blockHash));
  }

  method VerifyBlocks(policy: Policy, head: Head, blocks: seq<BlockBytes>) returns (ok: bool)
    ensures ok <==> forall i :: 0 <= i < |blocks| ==> BlockOk(policy, head, blocks, i)
  {
    var seen: set<nat> := {};
    for i := 0 to |blocks|
      invariant forall j :: 0 <= j < i ==> blocks[j].record.Some? && BlockOk(policy, head, blocks, j)
      invariant SeenIn(seen, blocks, i)
    {
      ok := VerifyBlock(policy, head, blocks, i, seen);
      if !ok { return; }
      SeenNext(seen, blocks, i);
      seen := seen + {blocks[i].record.value.number};
    }
    return true;
  }

  method VerifyCertificate(policy: Policy, cert: Certificate, a: Authorization, commands: seq<Command>)
    returns (r: Result<seq<Verified>, Error>)
    ensures r.Ok? <==> Accepts(policy, cert, a, commands)
    ensures r.Ok? ==> |r.value| == |commands| && forall i :: 0 <= i < |commands| ==>
      ObservationOk(policy, cert.body.blocks, cert.body.observations[i], commands[i])
      && r.value[i] == Outcome(cert.body.blocks, cert.body.observations[i])
  {
    var b := cert.body;
    if !ValidCommands(commands) || b.policy != policy || a.policy != b.policy || b.submission != CommitContent(a)
       || b.submittedEpoch != a.epoch || b.submittedEpoch == 0 || b.observedEpoch < b.submittedEpoch
       || |b.observations| != |commands| || |b.blocks| > |commands| || TotalSize(b.blocks) > MAX_RECORD_BYTES
       || !policy.certificateKey.Point? || cert.signature != CertifiedBy(policy.certificateKey, b)
       || !b.observedHead.Decodes? || b.observedHead.head.sessionId != policy.sessionId
    {
      return Err(Invalid);
    }
    var blocksOk := VerifyBlocks(policy, b.observedHead.head, b.blocks);
    if !blocksOk { return Err(Invalid); }
    forall i | 0 <= i < |b.blocks| ensures b.blocks[i].record.Some? {
      assert BlockOk(policy, b.observedHead.head, b.blocks, i);
    }
    var used, result := VerifyObservations(policy, b.blocks, b.observations, commands);
    if result.None? { return Err(Invalid); }
    Counting.FullCount(used, |b.blocks|);
    if |used| != |b.blocks| { return Err(Invalid); }
    return Ok(result.value);
  }

  /** The observation loop of `verify`; it fails on the first observation that does not hold up. */
  method VerifyObservations(policy: Policy, blocks: seq<BlockBytes>, observations: seq<Observation>, commands: seq<Command>)
    returns (used: set<nat>, result: Option<seq<Verified>>)
    requires |observations| == |commands| && forall i :: 0 <= i < |blocks| ==> blocks[i].record.Some?
    ensures result.Some? <==> forall i :: 0 <= i < |commands| ==> ObservationOk(policy, blocks, observations[i], commands[i])
    ensures result.Some? ==> |result.value| == |commands| && forall i :: 0 <= i < |commands| ==>
      ObservationOk(policy, blocks, observations[i], commands[i]) && result.value[i] == Outcome(blocks, observations[i])
    ensures result.Some? ==> (forall i :: i in used ==> i < |blocks|) && forall i: nat :: i in used <==> Used(observations, i)
  {
    used := {};
    var verified: seq<Verified> := [];
    assert observations[..0] == [];
    for n := 0 to |commands|
      invariant |verified| == n
      invariant forall i :: 0 <= i < n ==> ObservationOk(policy, blocks, observations[i], commands[i])
                                           && verified[i] == Outcome(blocks, observations[i])
      invariant forall i: nat :: i in used <==> Used(observations[..n], i)
      invariant forall i :: i in used ==> i < |blocks|
    {
      var observed, command := observations[n], commands[n];
      if observed.command != command { return {}, None; }
      UsedNext(observations, n);
      if !observed.status.SawMissing? {
        var receipt, index := observed.status.receipt, observed.status.blockIndex;
        if index >= |blocks| { return {}, None; }
        var block := blocks[index].record.value;
        used := used + {index};
        if receipt.inputPosition < block.inputStart { return {}, None; }
        var position := receipt.inputPosition - block.inputStart;
        if receipt.sessionId != policy.sessionId || receipt.command.id != command.id
           || (receipt.command.payloadHash == command.payloadHash) != observed.status.SawCommitted?
           || ForRecord(block, position) != Some(receipt)
        {
          return {}, None;
        }
      }
      verified := verified + [Outcome(blocks, observed)];
    }
    assert observations[..|commands|] == observations;
    result := Some(verified);
  }

  lemma {:induction false} UsedNext(observations: seq<Observation>, n: nat)
    requires n < |observations|
    ensures forall i: nat :: Used(observations[..n + 1], i) <==>
      Used(observations[..n], i) || (!observations[n].status.SawMissing? && observations[n].status.blockIndex == i)
  {
    assert observations[..n + 1] == observations[..n] + [observations[n]];
    forall i: nat | Used(observations[..n], i) ensures Used(observations[..n + 1], i) {
      UsedStays(observations[..n], observations[n], i);
    }
    forall i: nat | Used(observations[..n + 1], i)
      ensures Used(observations[..n], i) || (!observations[n].status.SawMissing? && observations[n].status.blockIndex == i)
    {
      var u :| u in observations[..n + 1] && !u.status.SawMissing? && u.status.blockIndex == i;
      assert u in observations[..n] || u == observations[n];
    }
    if !observations[n].status.SawMissing? {
      assert observations[n] in observations[..n + 1];
      assert Used(observations[..n + 1], observations[n].status.blockIndex);
    }
  }

  // ------------------------------------------------------------------ the promises

  lemma {:induction false} CanonicalBlockVerifies(c: Config, history: seq<Record>, observations: seq<Observation>,
                                                  blocks: seq<BlockBytes>, i: nat)
    requires ValidConfig(c) && Linked(c, history) && ValidBlocks(history, observations, blocks) && i < |blocks|
    ensures BlockOk(c.policy, HeadOf(c, history), blocks, i)
  {
    HeadHeight(c, history);
    var r := blocks[i].record.value;
    assert r == history[r.number];
  }

  lemma {:induction false} FaithfulVerifies(c: Config, history: seq<Record>, blocks: seq<BlockBytes>, o: Observation)
    requires ValidConfig(c) && Linked(c, history) && Faithful(history, blocks, o)
    ensures ObservationOk(c.policy, blocks, o, o.command)
  {
    if LoadReceipt(history, o.command.id).Some? { LoadReceiptAt(history, o.command.id); }
  }

  /** `verify` accepts every certificate that `reconcile_submission` produces. */
  lemma {:induction false} ProducedCertificatesVerify(c: Config, w: World, a: Authorization, commands: seq<Command>, cert: Certificate)
    requires ValidConfig(c) && Linked(c, w.history) && ValidCommands(commands) && a.policy == c.policy
    requires Truthful(c, w, a, commands, cert.body) && cert.signature == CertifiedBy(c.policy.certificateKey, cert.body)
    ensures Accepts(c.policy, cert, a, commands)
  {
    var b := cert.body;
    HeadHeight(c, w.history);
    forall i | 0 <= i < |b.blocks| ensures BlockOk(c.policy, b.observedHead.head, b.blocks, i) {
      CanonicalBlockVerifies(c, w.history, b.observations, b.blocks, i);
    }
    forall i | 0 <= i < |commands| ensures ObservationOk(c.policy, b.blocks, b.observations[i], commands[i]) {
      FaithfulVerifies(c, w.history, b.blocks, b.observations[i]);
    }
  }

  /** Observe, then verify: the round trip returns the canonical status of every command. */
  method ReconcileAndVerify(c: Config, w: World, a: Authorization, commands: seq<Command>, sizeOf: Record -> nat)
    returns (r: Result<seq<Verified>, Error>)
    requires ValidConfig(c) && Inv(c, w)
    ensures r.Ok? <==> Askable(commands) && Vouched(c, w, a)
                       && BytesAt(w.history, NeededHeights(w.history, commands), sizeOf) <= 33_554_432
    ensures r.Ok? ==> |r.value| == |commands| && forall i :: 0 <= i < |commands| ==>
      match StatusOf(w.history, commands[i])
      case Missing => r.value[i] == VerifiedMissing(commands[i])
      case Committed(receipt) => receipt.blockHeight < |w.history|
                                 && r.value[i] == VerifiedCommitted(receipt, w.history[receipt.blockHeight])
      case IdentityConflict(receipt) => r.value[i] == VerifiedConflict(receipt)
  {
    assert ValidCommands(commands) <==> Askable(commands);
    var cert := ReconcileSubmission(c, w, a, commands, sizeOf);
    if cert.Err? { return Err(cert.error); }
    ProducedCertificatesVerify(c, w, a, commands, cert.value);
    r := VerifyCertificate(c.policy, cert.value, a, commands);
    forall i | 0 <= i < |commands| ensures Faithful(w.history, cert.value.body.blocks, cert.value.body.observations[i]) {
    }
  }

  // ------------------------------------------------------------- Missing is final

  lemma {:induction false} CommitShape(c: Config, w: World, a: Authorization, q: Request, x: Execution, f: Faults)
    ensures var w' := CommitBlock(c, w, a, q, x, f).0;
      w'.history == w.history || exists r: Record :: w'.history == w.history + [r] && r.commands == q.commands
  {
    var w' := CommitBlock(c, w, a, q, x, f).0;
    if w'.history != w.history {
      var inner := w.live.value;
      var stamp := StampOf(Authorized(c, inner, a, q).value, NextHeight(inner.head), inner.head.blockHash);
      var r := Prepare(inner.head, w.history, q.(dataCommitments := q.dataCommitments + [stamp]), x).value;
      assert w'.history == w.history + [r] && r.commands == q.commands;
    }
  }

  lemma {:induction false} MissingNotCarried(history: seq<Record>, k: Command)
    requires StatusOf(history, k) == Missing
    ensures forall h :: 0 <= h < |history| ==> !Carries(history[h], k.id)
  {
    assert forall h :: 0 <= h < |history| ==> history[h] in history;
  }

  /** MISSING IS FINAL.  A command seen missing after its submission's epoch was
      revoked is never committed by that submission; if it ever appears, a strictly
      newer epoch authorised it. */
  lemma {:induction false} MissingIsFinal(c: Config, w: World, ops: seq<Op>, a: Authorization, k: Command)
    requires ValidConfig(c) && Inv(c, w) && forall op :: op in ops ==> ValidOp(op)
    requires StatusOf(w.history, k) == Missing && a.epoch < |Grants(w)|
    ensures var w' := Run(c, w, ops);
      && (forall q, x, f :: CommitBlock(c, w', a, q, x, f).0 == w')
      && (forall h :: 0 <= h < |w'.history| && Carries(w'.history[h], k.id) ==> h < |w'.authors| && w'.authors[h] > a.epoch)
  {
    var w' := Run(c, w, ops);
    MissingNotCarried(w.history, k);
    RunFences(c, w, ops);
    assert |w.authors| == |w.history| && |w'.authors| == |w'.history| by { RunInv(c, w, ops); }
    assert forall h :: 0 <= h < |w.history| ==> w'.history[h] == w.history[h];
    forall q, x, f ensures CommitBlock(c, w', a, q, x, f).0 == w' {
      RevokedNeverCommits(c, w, ops, a, q, x, f);
    }
  }

  /** The converse boundary: while the submission's epoch is still the newest, a
      missing command can be committed by that very submission in the next step. */
  lemma {:induction false} MissingIsNotFinalInItsOwnEpoch(c: Config, w: World, a: Authorization, q: Request, x: Execution, k: Command)
    requires ValidConfig(c) && Inv(c, w) && x.hash != 0 && k in q.commands && StatusOf(w.history, k) == Missing
    requires w.live.Some? && !w.live.value.uncertain && Authorized(c, w.live.value, a, q).Ok?
    requires Prepare(w.live.value.head, w.history,
               q.(dataCommitments := q.dataCommitments
                    + [StampOf(Authorized(c, w.live.value, a, q).value, NextHeight(w.live.value.head), w.live.value.head.blockHash)]), x).Some?
    ensures a.epoch == |Grants(w)|
    ensures StatusOf(CommitBlock(c, w, a, q, x, NoFaults).0.history, k) != Missing
  {
    HealthyCommitSucceeds(c, w, a, q, x);
    CommitFences(c, w, a, q, x, NoFaults);
    CommitShape(c, w, a, q, x, NoFaults);
    var w' := CommitBlock(c, w, a, q, x, NoFaults).0;
    var r: Record :| w'.history == w.history + [r] && r.commands == q.commands;
    assert r in w'.history && Carries(r, k.id);
    assert HasCommand(w'.history, k.id);
  }
}
