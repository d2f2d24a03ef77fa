/** Every command is committed at most once, and its status says exactly where. */
module CommandHistory {
  import opened Prelude
  import opened Authority
  import opened AuthorityProofs
  import opened Reconciliation

  /** The receipt names the command, its input position, and the session, height, hash and frame of
      the block that holds it. */
  ghost predicate Tells(receipt: CommandReceipt, r: Record) {
    && receipt.sessionId == r.sessionId && receipt.blockHeight == r.number && receipt.blockHash == r.hash
    && receipt.frameCommitment == r.frameCommitment
    && r.inputStart <= receipt.inputPosition < r.inputStart + |r.commands|
    && receipt.command == r.commands[receipt.inputPosition - r.inputStart]
  }

  lemma {:induction false} ForRecordExactly(r: Record, index: nat, receipt: CommandReceipt)
    ensures ForRecord(r, index) == Some(receipt) <==> Tells(receipt, r) && receipt.inputPosition == r.inputStart + index
  {
  }

  // ----------------------------------------------------------------- at most once

  ghost predicate At(history: seq<Record>, h: nat, i: nat, id: Hash32) {
    h < |history| && i < |history[h].commands| && history[h].commands[i].id == id
  }

  /** No command id stands at two places of the history. */
  ghost predicate OncePerId(history: seq<Record>) {
    forall h: nat, i: nat, h': nat, i': nat, id :: At(history, h, i, id) && At(history, h', i', id) ==> h == h' && i == i'
  }

  lemma {:induction false} StandsSomewhere(history: seq<Record>, h: nat, i: nat, id: Hash32)
    requires At(history, h, i, id)
    ensures HasCommand(history, id)
  {
    assert history[h] in history && history[h].commands[i] in history[h].commands;
    assert Carries(history[h], id);
  }

  lemma {:induction false} NotAgain(history: seq<Record>, r: Record, h: nat, i: nat, j: nat, id: Hash32)
    requires At(history, h, i, id) && forall k :: k in r.commands ==> !HasCommand(history, k.id)
    ensures j < |r.commands| ==> r.commands[j].id != id
  {
    StandsSomewhere(history, h, i, id);
    if j < |r.commands| { assert r.commands[j] in r.commands; }
  }

  lemma {:induction false} AppendedOnce(history: seq<Record>, r: Record)
    requires OncePerId(history) && ValidFrame(r.commands)
    requires forall k :: k in r.commands ==> !HasCommand(history, k.id)
    ensures OncePerId(history + [r])
  {
    var longer := history + [r];
    forall h: nat, i: nat, h': nat, i': nat, id | At(longer, h, i, id) && At(longer, h', i', id)
      ensures h == h' && i == i'
    {
      if h < |history| && h' < |history| {
        assert At(history, h, i, id) && At(history, h', i', id);
      } else if h < |history| {
        NotAgain(history, r, h, i, i', id);
      } else if h' < |history| {
        NotAgain(history, r, h', i', i, id);
      }
    }
  }

  lemma {:induction false} CommitOnce(c: Config, w: World, a: Authorization, q: Request, x: Execution, f: Faults)
    requires OncePerId(w.history)
    ensures OncePerId(CommitBlock(c, w, a, q, x, f).0.history)
  {
    if CommitBlock(c, w, a, q, x, f).0.history != w.history {
      var inner := w.live.value;
      var stamp := StampOf(Authorized(c, inner, a, q).value, NextHeight(inner.head), inner.head.blockHash);
      var r := Prepare(inner.head, w.history, q.(dataCommitments := q.dataCommitments + [stamp]), x).value;
      assert CommitBlock(c, w, a, q, x, f).0.history == w.history + [r];
      AppendedOnce(w.history, r);
    }
  }

  lemma {:induction false} StepOnce(c: Config, w: World, op: Op)
    requires OncePerId(w.history)
    ensures OncePerId(Step(c, w, op).history)
  {
    match op
    case OpOpen(restored, create, watermark) =>
    case OpGrant(q, f) =>
    case OpCommit(a, q, x, f) => CommitOnce(c, w, a, q, x, f);
    case OpKill =>
  }

  /** EXACTLY ONCE.  Whatever is submitted, resubmitted, crashed or reopened, no command id ever
      stands at two places of the canonical history. */
  lemma {:induction false} CommandsCommitOnce(c: Config, w: World, ops: seq<Op>)
    requires OncePerId(w.history)
    ensures OncePerId(Run(c, w, ops).history)
    decreases |ops|
  {
    if ops != [] {
      StepOnce(c, w, ops[0]);
      CommandsCommitOnce(c, Step(c, w, ops[0]), ops[1..]);
    }
  }

  // ------------------------------------------------------------------- the status

  ghost predicate Numbered(history: seq<Record>) {
    forall h :: 0 <= h < |history| ==> history[h].number == h
  }

  /** The block at its own height holds the command, and the receipt tells so. */
  ghost predicate Receipted(history: seq<Record>, receipt: CommandReceipt, id: Hash32) {
    receipt.command.id == id && receipt.blockHeight < |history| && Tells(receipt, history[receipt.blockHeight])
  }

  lemma {:induction false} LoadedTells(history: seq<Record>, id: Hash32)
    requires Numbered(history) && LoadReceipt(history, id).Some?
    ensures Receipted(history, LoadReceipt(history, id).value, id)
  {
    LoadReceiptAt(history, id);
  }

  lemma {:induction false} ReceiptUnique(history: seq<Record>, a: CommandReceipt, b: CommandReceipt, id: Hash32)
    requires OncePerId(history) && Receipted(history, a, id) && Receipted(history, b, id)
    ensures a == b
  {
    var h, h' := a.blockHeight, b.blockHeight;
    assert At(history, h, a.inputPosition - history[h].inputStart, id);
    assert At(history, h', b.inputPosition - history[h'].inputStart, id);
  }

  lemma {:induction false} ReceiptedStands(history: seq<Record>, receipt: CommandReceipt, id: Hash32)
    requires Receipted(history, receipt, id)
    ensures HasCommand(history, id)
  {
    var r := history[receipt.blockHeight];
    StandsSomewhere(history, receipt.blockHeight, receipt.inputPosition - r.inputStart, id);
  }

  /** After any run the status of a command is missing exactly when no block holds its id, committed
      with a receipt exactly when that receipt tells of a block that holds this very command, and in
      conflict exactly when it tells of one that holds the id with another payload. */
  lemma {:induction false} StatusExactly(c: Config, ops: seq<Op>, k: Command, receipt: CommandReceipt)
    requires ValidConfig(c) && forall op :: op in ops ==> ValidOp(op)
    ensures var history := Run(c, Empty, ops).history;
      && (StatusOf(history, k) == Missing <==> !HasCommand(history, k.id))
      && (StatusOf(history, k) == Committed(receipt) <==> Receipted(history, receipt, k.id) && receipt.command == k)
      && (StatusOf(history, k) == IdentityConflict(receipt) <==>
            Receipted(history, receipt, k.id) && receipt.command.payloadHash != k.payloadHash)
  {
    var history := Run(c, Empty, ops).history;
    CommandsCommitOnce(c, Empty, ops);
    assert Numbered(history) by { RunInv(c, Empty, ops); }
    StatusOfHistory(history, k, receipt);
  }

  lemma {:induction false} StatusOfHistory(history: seq<Record>, k: Command, receipt: CommandReceipt)
    requires OncePerId(history) && Numbered(history)
    ensures StatusOf(history, k) == Missing <==> !HasCommand(history, k.id)
    ensures StatusOf(history, k) == Committed(receipt) <==> Receipted(history, receipt, k.id) && receipt.command == k
    ensures StatusOf(history, k) == IdentityConflict(receipt) <==>
      Receipted(history, receipt, k.id) && receipt.command.payloadHash != k.payloadHash
  {
    var loaded := LoadReceipt(history, k.id);
    if Receipted(history, receipt, k.id) { ReceiptedStands(history, receipt, k.id); }
    if loaded.Some? {
      LoadedTells(history, k.id);
      if Receipted(history, receipt, k.id) { ReceiptUnique(history, receipt, loaded.value, k.id); }
    }
  }

  // --------------------------------------------------------- an accepted certificate

  /** The observation of the command comes with a block of the certificate that tells of it. */
  ghost predicate Evidenced(blocks: seq<BlockBytes>, o: Observation, k: Command) {
    && o.command == k
    && (!o.status.SawMissing? ==>
          && o.status.blockIndex < |blocks| && blocks[o.status.blockIndex].record.Some?
          && o.status.receipt.command.id == k.id && Tells(o.status.receipt, blocks[o.status.blockIndex].record.value)
          && (o.status.SawCommitted? <==> o.status.receipt.command == k))
  }

  /** A block of this session at or below the head, and the head's own block at its height. */
  ghost predicate OnTheWay(policy: Policy, head: Head, b: BlockBytes) {
    && b.record.Some? && b.record.value.sessionId == policy.sessionId
    && head.finalisedHeight.Some? && b.record.value.number <= head.finalisedHeight.value
    && (b.record.value.number == head.finalisedHeight.value ==> b.record.value.hash == head.blockHash)
  }

  ghost predicate Apart(a: BlockBytes, b: BlockBytes) {
    a.record.Some? && b.record.Some? && a.record.value.number != b.record.value.number
  }

  /** Whoever verifies a certificate may rely on this much, whoever made it: it is signed for this
      submission by the authority's key at an epoch not before it, its blocks are of this session, at
      different heights up to the observed head and none in conflict with that head, and every status
      but missing is told by one of them. */
  lemma {:induction false} AcceptedMeans(policy: Policy, cert: Certificate, a: Authorization, commands: seq<Command>)
    requires Accepts(policy, cert, a, commands)
    ensures cert.signature == CertifiedBy(policy.certificateKey, cert.body) && cert.body.submission == CommitContent(a)
    ensures 1 <= a.epoch <= cert.body.observedEpoch && cert.body.observedHead.Decodes?
    ensures forall i :: 0 <= i < |cert.body.blocks| ==> OnTheWay(policy, cert.body.observedHead.head, cert.body.blocks[i])
    ensures forall i, j :: 0 <= i < j < |cert.body.blocks| ==> Apart(cert.body.blocks[i], cert.body.blocks[j])
    ensures |cert.body.observations| == |commands|
    ensures forall i :: 0 <= i < |commands| ==> Evidenced(cert.body.blocks, cert.body.observations[i], commands[i])
  {
    var b := cert.body;
    forall i | 0 <= i < |b.blocks|
      ensures OnTheWay(policy, b.observedHead.head, b.blocks[i])
    {
      assert BlockOk(policy, b.observedHead.head, b.blocks, i);
    }
    forall i, j | 0 <= i < j < |b.blocks|
      ensures Apart(b.blocks[i], b.blocks[j])
    {
      assert BlockOk(policy, b.observedHead.head, b.blocks, j);
    }
    forall i | 0 <= i < |commands|
      ensures Evidenced(b.blocks, b.observations[i], commands[i])
    {
      ObservedTells(policy, b.blocks, b.observations[i], commands[i]);
    }
  }

  lemma {:induction false} ObservedTells(policy: Policy, blocks: seq<BlockBytes>, o: Observation, k: Command)
    requires ObservationOk(policy, blocks, o, k)
    ensures Evidenced(blocks, o, k)
  {
  }
}
