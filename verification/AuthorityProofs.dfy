/** Crash consistency, fencing and attribution over every run of the authority. */
module AuthorityProofs {
  import opened Prelude
  import opened Authority

  ghost predicate ValidConfig(c: Config) {
    && c.initialHead.finalisedHeight.None? && c.initialHead.sealedBySuccessor.None? && c.initialHead.blockHash == 0
    && c.initialHead.sessionId == c.policy.sessionId
    && c.policy.certificateKey.Point?
  }

  /** Block hashes are outputs of a hash function and never the all-zero marker. */
  ghost predicate ValidOp(op: Op) {
    op.OpCommit? ==> op.x.hash != 0
  }

  // -------------------------------------------------------------- the invariant

  ghost predicate LinksToParent(c: Config, history: seq<Record>, h: nat)
    requires h < |history|
  {
    history[h].parentHash == if h == 0 then c.initialHead.blockHash else history[h - 1].hash
  }

  /** The canonical history is a chain from the genesis head. */
  ghost predicate Linked(c: Config, history: seq<Record>) {
    && (forall h :: 0 <= h < |history| ==>
          history[h].number == h && history[h].sessionId == c.initialHead.sessionId && history[h].hash != 0)
    && (forall h {:trigger LinksToParent(c, history, h)} :: 0 <= h < |history| ==> LinksToParent(c, history, h))
  }

  /** The recorded head is the canonical head with at most an exact intent beyond
      it, or the canonical head is exactly the recorded intent. */
  ghost predicate HeadsMatch(c: Config, o: Ownership, history: seq<Record>) {
    || (o.canonicalHead == HeadOf(c, history) && (o.pendingHead.Some? ==> ExactNextStep(o.canonicalHead, o.pendingHead.value)))
    || (history != [] && o.canonicalHead == HeadOf(c, history[..|history| - 1]) && o.pendingHead == Some(HeadOf(c, history)))
  }

  /** Every block is attributed to the grant of the epoch that authorised it. */
  ghost predicate Attributed(grants: seq<Grant>, authors: seq<nat>) {
    forall h :: 0 <= h < |authors| ==> 1 <= authors[h] <= |grants| && GrantFor(grants, h) == Some(grants[authors[h] - 1])
  }

  /** The ownership record agrees with the canonical history. */
  ghost predicate Recorded(c: Config, o: Ownership, history: seq<Record>, authors: seq<nat>) {
    && o.policy == c.policy && |o.grants| <= MAX_EPOCHS
    && Audits(c, o, history)
    && HeadsMatch(c, o, history)
    && Attributed(o.grants, authors)
  }

  ghost predicate Inv(c: Config, w: World) {
    && |w.authors| == |w.history|
    && Linked(c, w.history)
    && (w.ownership.None? ==> w.history == [] && w.live.None?)
    && (w.ownership.Some? ==> Recorded(c, w.ownership.value, w.history, w.authors))
    && (w.live.Some? && !w.live.value.uncertain ==> LiveMatches(c, w))
  }

  /** A process that is up and unpoisoned has caught up with both stores. */
  ghost predicate LiveMatches(c: Config, w: World)
    requires w.live.Some?
  {
    && w.ownership == Some(w.live.value.ownership)
    && w.live.value.head == HeadOf(c, w.history)
    && w.live.value.ownership.pendingHead.None?
    && w.live.value.ownership.canonicalHead == w.live.value.head
  }

  // --------------------------------------------------------- facts about grants

  lemma {:induction false} HeadHeight(c: Config, history: seq<Record>)
    requires ValidConfig(c) && Linked(c, history)
    ensures NextHeight(HeadOf(c, history)) == |history|
    ensures HeadOf(c, history).sealedBySuccessor.None? && HeadOf(c, history).sessionId == c.initialHead.sessionId
  {
  }

  lemma {:induction false} AuditedHeights(c: Config, o: Ownership, history: seq<Record>, i: nat)
    requires ValidConfig(c) && i < |o.grants| && GrantAudits(c, o, history, i)
    ensures FirstHeight(o.grants[i]).Some? && FirstHeight(o.grants[i]).value <= |history|
  {
  }

  lemma {:induction false} GrantForExtends(grants: seq<Grant>, g: Grant, height: nat)
    requires FirstHeight(g).Some?
    ensures GrantFor(grants + [g], height) == if FirstHeight(g).value <= height then Some(g) else GrantFor(grants, height)
  {
    assert (grants + [g])[..|grants|] == grants;
  }

  lemma {:induction false} OccurrencesAppend(cs: seq<Commitment>, c: Commitment)
    requires c !in cs
    ensures Occurrences(cs + [c], c) == 1
  {
    if cs == [] {
      assert cs + [c] == [c];
    } else {
      OccurrencesAppend(cs[1..], c);
      assert (cs + [c])[1..] == cs[1..] + [c];
    }
  }

  // -------------------------------------------------------------------- granting

  lemma {:induction false} GrantKeepsAudit(c: Config, o: Ownership, history: seq<Record>, g: Grant)
    requires ValidConfig(c) && Linked(c, history) && Audits(c, o, history)
    requires g.epoch == |o.grants| + 1 && g.request.expectedEpoch == |o.grants| && g.request.policy == o.policy
    requires Verifies(o.policy.administrator, GrantContent(g.request), g.request.signature)
    requires g.request.anchor == Decodes(HeadOf(c, history))
    ensures Audits(c, o.(grants := o.grants + [g]), history)
    ensures forall h :: 0 <= h < |history| ==> GrantFor(o.grants + [g], h) == GrantFor(o.grants, h)
  {
    var o' := o.(grants := o.grants + [g]);
    HeadHeight(c, history);
    forall i | 0 <= i < |o'.grants| ensures GrantAudits(c, o', history, i) {
      if i < |o.grants| {
        assert GrantAudits(c, o, history, i);
        assert i > 0 ==> o'.grants[i - 1] == o.grants[i - 1];
      } else if i > 0 {
        assert GrantAudits(c, o, history, i - 1);
        AuditedHeights(c, o, history, i - 1);
      }
    }
    forall h | 0 <= h < |history|
      ensures GrantFor(o'.grants, h) == GrantFor(o.grants, h) && BlockAudits(o', history[h])
    {
      GrantForExtends(o.grants, g, h);
      assert BlockAudits(o, history[h]);
    }
  }

  lemma {:induction false} LastEpoch(c: Config, o: Ownership, history: seq<Record>)
    requires Audits(c, o, history) && o.grants != []
    ensures o.grants[|o.grants| - 1].epoch == |o.grants|
  {
    assert GrantAudits(c, o, history, |o.grants| - 1);
  }

  lemma {:induction false} GrantRecorded(c: Config, o: Ownership, history: seq<Record>, authors: seq<nat>, g: Grant)
    requires ValidConfig(c) && Linked(c, history) && Recorded(c, o, history, authors) && |authors| == |history|
    requires |o.grants| < MAX_EPOCHS
    requires g.epoch == |o.grants| + 1 && g.request.expectedEpoch == |o.grants| && g.request.policy == o.policy
    requires Verifies(o.policy.administrator, GrantContent(g.request), g.request.signature)
    requires g.request.anchor == Decodes(HeadOf(c, history))
    ensures Recorded(c, o.(grants := o.grants + [g]), history, authors)
  {
    GrantKeepsAudit(c, o, history, g);
  }

  /** Writing a record that agrees with the history is safe however the write ends. */
  lemma {:induction false} PersistInv(c: Config, w: World, o: Ownership, outcome: Write)
    requires Inv(c, w) && w.live.Some? && !w.live.value.uncertain
    requires Recorded(c, o, w.history, w.authors) && o.pendingHead.None? && o.canonicalHead == HeadOf(c, w.history)
    ensures Inv(c, Persist(w, o, outcome)) && Inv(c, Crash(Persist(w, o, outcome)))
  {
  }

  lemma {:induction false} GrantInv(c: Config, w: World, q: GrantRequest, f: Faults)
    requires ValidConfig(c) && Inv(c, w)
    ensures Inv(c, GrantWriter(c, w, q, f).0)
  {
    var w' := GrantWriter(c, w, q, f).0;
    if w.live.Some? && !w.live.value.uncertain && w' != w && !f.crash.BeforeGrant? {
      var o := w.live.value.ownership;
      if o.grants != [] { LastEpoch(c, o, w.history); }
      var o' := o.(grants := o.grants + [Grant(|o.grants| + 1, q)]);
      GrantRecorded(c, o, w.history, w.authors, Grant(|o.grants| + 1, q));
      PersistInv(c, w, o', f.intent);
      assert w' == Persist(w, o', f.intent) || w' == Crash(Persist(w, o', f.intent));
    }
  }

  // ------------------------------------------------------------------ committing

  lemma {:induction false} PreparedRecord(c: Config, w: World, a: Authorization, q: Request, x: Execution)
    returns (g: Grant, r: Record)
    requires ValidConfig(c) && Inv(c, w) && x.hash != 0
    requires w.live.Some? && !w.live.value.uncertain && Authorized(c, w.live.value, a, q).Ok?
    requires Prepare(w.live.value.head, w.history,
               q.(dataCommitments := q.dataCommitments
                    + [StampOf(Authorized(c, w.live.value, a, q).value, NextHeight(w.live.value.head), w.live.value.head.blockHash)]), x).Some?
    ensures g == Authorized(c, w.live.value, a, q).value
    ensures r == Prepare(w.live.value.head, w.history,
               q.(dataCommitments := q.dataCommitments + [StampOf(g, NextHeight(w.live.value.head), w.live.value.head.blockHash)]), x).value
    ensures var o := w.live.value.ownership;
      && o.grants != [] && g == o.grants[|o.grants| - 1] && a.epoch == g.epoch == |o.grants|
    ensures Appendable(c, w.history, r, g)
  {
    g := Authorized(c, w.live.value, a, q).value;
    LastEpoch(c, w.live.value.ownership, w.history);
    HeadHeight(c, w.history);
    var stamp := StampOf(g, NextHeight(w.live.value.head), w.live.value.head.blockHash);
    OccurrencesAppend(q.dataCommitments, stamp);
    r := Prepare(w.live.value.head, w.history, q.(dataCommitments := q.dataCommitments + [stamp]), x).value;
  }

  /** A record that extends the chain and carries the stamp of grant g. */
  ghost predicate Appendable(c: Config, history: seq<Record>, r: Record, g: Grant) {
    && r.number == |history|
    && r.sessionId == c.initialHead.sessionId
    && r.parentHash == HeadOf(c, history).blockHash
    && r.hash != 0
    && CheckStamp(r, g)
  }

  lemma {:induction false} AppendKeepsAudit(c: Config, o: Ownership, history: seq<Record>, r: Record)
    requires ValidConfig(c) && Linked(c, history) && Audits(c, o, history)
    requires o.grants != [] && Appendable(c, history, r, o.grants[|o.grants| - 1])
    ensures Linked(c, history + [r]) && Audits(c, o, history + [r])
    ensures GrantFor(o.grants, |history|) == Some(o.grants[|o.grants| - 1])
  {
    var history' := history + [r];
    var last := |o.grants| - 1;
    assert GrantAudits(c, o, history, last);
    AuditedHeights(c, o, history, last);
    forall i | 0 <= i < |o.grants| ensures GrantAudits(c, o, history', i) {
      assert GrantAudits(c, o, history, i);
    }
    forall h | 0 <= h < |history'| ensures BlockAudits(o, history'[h]) {
      if h < |history| { assert BlockAudits(o, history[h]); }
    }
    forall h | 0 <= h < |history'| ensures LinksToParent(c, history', h) {
      if h < |history| { assert LinksToParent(c, history, h); }
    }
  }

  lemma {:induction false} SameGrantsAudit(c: Config, o: Ownership, o': Ownership, history: seq<Record>)
    requires Audits(c, o, history) && o'.grants == o.grants && o'.policy == o.policy
    ensures Audits(c, o', history)
  {
    forall i | 0 <= i < |o'.grants| ensures GrantAudits(c, o', history, i) { assert GrantAudits(c, o, history, i); }
    forall h | 0 <= h < |history| ensures BlockAudits(o', history[h]) { assert BlockAudits(o, history[h]); }
  }

  /** Recording the intent to append r. */
  lemma {:induction false} IntentRecorded(c: Config, o: Ownership, history: seq<Record>, authors: seq<nat>, r: Record, g: Grant)
    requires ValidConfig(c) && Linked(c, history) && Recorded(c, o, history, authors)
    requires o.canonicalHead == HeadOf(c, history) && Appendable(c, history, r, g)
    ensures Recorded(c, o.(pendingHead := Some(HeadAfter(r))), history, authors)
  {
    HeadHeight(c, history);
    SameGrantsAudit(c, o, o.(pendingHead := Some(HeadAfter(r))), history);
  }

  /** Appending r while its intent is on record. */
  lemma {:induction false} AppendRecorded(c: Config, o: Ownership, history: seq<Record>, authors: seq<nat>, r: Record)
    requires ValidConfig(c) && Linked(c, history) && Recorded(c, o, history, authors) && |authors| == |history|
    requires o.canonicalHead == HeadOf(c, history) && o.pendingHead == Some(HeadAfter(r))
    requires o.grants != [] && Appendable(c, history, r, o.grants[|o.grants| - 1])
    ensures Linked(c, history + [r]) && Recorded(c, o, history + [r], authors + [|o.grants|])
  {
    AppendKeepsAudit(c, o, history, r);
    assert (history + [r])[..|history|] == history;
  }

  /** Moving the watermark to the canonical head. */
  lemma {:induction false} WatermarkRecorded(c: Config, o: Ownership, history: seq<Record>, authors: seq<nat>)
    requires Recorded(c, o, history, authors)
    ensures Recorded(c, o.(canonicalHead := HeadOf(c, history), pendingHead := None), history, authors)
  {
    SameGrantsAudit(c, o, o.(canonicalHead := HeadOf(c, history), pendingHead := None), history);
  }

  /** The recovery test of `reconcile_pending` passes on every recorded pair of stores. */
  lemma {:induction false} RecordedReconciles(c: Config, o: Ownership, history: seq<Record>, authors: seq<nat>)
    requires ValidConfig(c) && Linked(c, history) && Recorded(c, o, history, authors)
    ensures o.pendingHead.Some? ==> ExactNextStep(o.canonicalHead, o.pendingHead.value)
    ensures HeadOf(c, history) == o.canonicalHead || o.pendingHead == Some(HeadOf(c, history))
  {
    if HeadOf(c, history) != o.canonicalHead {
      LinkedPrefix(c, history, |history| - 1);
      HeadHeight(c, history[..|history| - 1]);
      HeadHeight(c, history);
    }
  }

  /** Reconciling the watermark of a caught-up process succeeds unless its write fails. */
  lemma {:induction false} ReconcileInv(c: Config, w: World, outcome: Write)
    requires ValidConfig(c) && Inv(c, Crash(w)) && w.live.Some? && !w.live.value.uncertain
    requires w.ownership == Some(w.live.value.ownership) && w.live.value.head == HeadOf(c, w.history)
    ensures var (w', r) := ReconcilePending(w, outcome);
      && Inv(c, w')
      && w'.history == w.history && w'.authors == w.authors && w'.live.Some?
      && (outcome.Written? ==> r.Ok?)
      && (r.Ok? ==> !w'.live.value.uncertain && LiveMatches(c, w'))
  {
    var o := w.live.value.ownership;
    RecordedReconciles(c, o, w.history, w.authors);
    WatermarkRecorded(c, o, w.history, w.authors);
  }

  lemma {:induction false} LinkedPrefix(c: Config, history: seq<Record>, n: nat)
    requires Linked(c, history) && n <= |history|
    ensures Linked(c, history[..n])
  {
    forall h | 0 <= h < n ensures LinksToParent(c, history[..n], h) {
      assert LinksToParent(c, history, h);
    }
  }

  lemma {:induction false} CommitInv(c: Config, w: World, a: Authorization, q: Request, x: Execution, f: Faults)
    requires ValidConfig(c) && Inv(c, w) && x.hash != 0
    ensures Inv(c, CommitBlock(c, w, a, q, x, f).0)
  {
    var (w', res) := CommitBlock(c, w, a, q, x, f);
    if w' != w {
      var g, r := PreparedRecord(c, w, a, q, x);
      CommitPreparedInv(c, w, r, f);
    }
  }

  lemma {:induction false} CommitPreparedInv(c: Config, w: World, r: Record, f: Faults)
    requires ValidConfig(c) && Inv(c, w) && w.live.Some? && !w.live.value.uncertain
    requires w.live.value.ownership.grants != []
    requires Appendable(c, w.history, r, w.live.value.ownership.grants[|w.live.value.ownership.grants| - 1])
    ensures Inv(c, CommitPrepared(w, |w.live.value.ownership.grants|, r, f).0)
  {
    var o := w.live.value.ownership;
    IntentRecorded(c, o, w.history, w.authors, r, o.grants[|o.grants| - 1]);
    if f.intent.Written? && !f.crash.BeforeIntent? {
      CommitIntendedInv(c, Persist(w, o.(pendingHead := Some(HeadAfter(r))), f.intent), r, f);
    }
  }

  /** The intent for r is durable and cached. */
  ghost predicate Intended(c: Config, w: World, r: Record) {
    && Inv(c, Crash(w)) && w.live.Some? && !w.live.value.uncertain
    && w.ownership == Some(w.live.value.ownership)
    && var o := w.live.value.ownership;
       && o.canonicalHead == HeadOf(c, w.history) && o.pendingHead == Some(HeadAfter(r))
       && o.grants != [] && Appendable(c, w.history, r, o.grants[|o.grants| - 1])
  }

  lemma {:induction false} CommitIntendedInv(c: Config, w: World, r: Record, f: Faults)
    requires ValidConfig(c) && Intended(c, w, r)
    ensures Inv(c, CommitIntended(w, |w.live.value.ownership.grants|, r, f).0)
  {
    var w' := AppendBlock(w, |w.live.value.ownership.grants|, r, f.canonical);
    AppendInv(c, w, r, f.canonical);
    if f.canonical.Written? { CommitAppendedInv(c, w', r, f); }
  }

  lemma {:induction false} AppendInv(c: Config, w: World, r: Record, outcome: Write)
    requires ValidConfig(c) && Intended(c, w, r)
    ensures var w' := AppendBlock(w, |w.live.value.ownership.grants|, r, outcome);
      Inv(c, Crash(w')) && (!outcome.Written? ==> Inv(c, w'))
  {
    AppendRecorded(c, w.live.value.ownership, w.history, w.authors, r);
  }

  lemma {:induction false} CommitAppendedInv(c: Config, w: World, r: Record, f: Faults)
    requires ValidConfig(c) && Inv(c, Crash(w)) && w.live.Some? && !w.live.value.uncertain
    requires w.ownership == Some(w.live.value.ownership) && w.live.value.head == HeadOf(c, w.history)
    ensures Inv(c, CommitAppended(w, r, f).0)
  {
    ReconcileInv(c, w, f.watermark);
  }

  // --------------------------------------------------------------------- opening

  lemma {:induction false} RecoverInv(c: Config, w: World, restored: bool, watermark: Write)
    requires ValidConfig(c) && Inv(c, w) && w.ownership.Some? && w.live.None?
    ensures Inv(c, Recover(c, w, restored, watermark).0)
    ensures restored && watermark.Written? ==> Recover(c, w, restored, watermark).1.Ok?
    ensures Recover(c, w, restored, watermark).1.Ok? ==>
      var w' := Recover(c, w, restored, watermark).0;
      w'.live.Some? && !w'.live.value.uncertain && LiveMatches(c, w')
    ensures Recover(c, w, restored, watermark).0.history == w.history
  {
    var up := w.(live := Some(Inner(w.ownership.value, HeadOf(c, w.history), false)));
    assert Crash(up) == w;
    ReconcileInv(c, up, watermark);
  }

  lemma {:induction false} OpenInv(c: Config, w: World, restored: bool, create: Write, watermark: Write)
    requires ValidConfig(c) && Inv(c, w)
    ensures Inv(c, Open(c, w, restored, create, watermark).0)
  {
    if w.live.None? {
      if w.ownership.Some? {
        RecoverInv(c, w, restored, watermark);
      } else {
        var w' := w.(ownership := Some(Ownership(c.policy, [], c.initialHead, None)));
        if create.Written? { RecoverInv(c, w', restored, watermark); }
      }
    }
  }

  // ------------------------------------------------------------------ whole runs

  lemma {:induction false} StepInv(c: Config, w: World, op: Op)
    requires ValidConfig(c) && Inv(c, w) && ValidOp(op)
    ensures Inv(c, Step(c, w, op))
  {
    match op
    case OpOpen(restored, create, watermark) => OpenInv(c, w, restored, create, watermark);
    case OpGrant(q, f) => GrantInv(c, w, q, f);
    case OpCommit(a, q, x, f) => CommitInv(c, w, a, q, x, f);
    case OpKill =>
  }

  lemma {:induction false} RunInv(c: Config, w: World, ops: seq<Op>)
    requires ValidConfig(c) && Inv(c, w) && forall op :: op in ops ==> ValidOp(op)
    ensures Inv(c, Run(c, w, ops))
    decreases |ops|
  {
    if ops != [] {
      StepInv(c, w, ops[0]);
      RunInv(c, Step(c, w, ops[0]), ops[1..]);
    }
  }

  /** CRASH CONSISTENCY.  After any run of grants, commits, crashes and ambiguous
      writes the two stores differ by at most one exact pending step, and reopening
      succeeds with every committed block in place. */
  lemma {:induction false} ReopenAlwaysSucceeds(c: Config, ops: seq<Op>)
    requires ValidConfig(c) && forall op :: op in ops ==> ValidOp(op)
    ensures var w := Crash(Run(c, Empty, ops));
      && (w.ownership.Some? ==> HeadsMatch(c, w.ownership.value, w.history))
      && var (w', r) := Open(c, w, true, Written, Written);
         r.Ok? && w'.history == w.history && w'.live.Some? && !w'.live.value.uncertain && LiveMatches(c, w')
  {
    RunInv(c, Empty, ops);
    var w := Crash(Run(c, Empty, ops));
    assert Inv(c, w);
    if w.ownership.Some? {
      RecoverInv(c, w, true, Written);
    } else {
      var w' := w.(ownership := Some(Ownership(c.policy, [], c.initialHead, None)));
      RecoverInv(c, w', true, Written);
    }
  }

  // --------------------------------------------------------------------- fencing

  ghost function Grants(w: World): seq<Grant> {
    if w.ownership.None? then [] else w.ownership.value.grants
  }

  /** Later worlds keep every block, author and grant of earlier ones, and every
      block appended since was authorised under an epoch at least as new as the
      grants that were durable then. */
  ghost predicate Fences(w: World, w': World) {
    && w.history <= w'.history && w.authors <= w'.authors && Grants(w) <= Grants(w')
    && (forall h :: |w.authors| <= h < |w'.authors| ==> w'.authors[h] >= |Grants(w)|)
  }

  lemma {:induction false} FencesCompose(a: World, b: World, d: World)
    requires Fences(a, b) && Fences(b, d)
    ensures Fences(a, d)
  {
    assert |Grants(a)| <= |Grants(b)|;
    forall h | |a.authors| <= h < |d.authors| ensures d.authors[h] >= |Grants(a)| {
      if h < |b.authors| { assert d.authors[h] == b.authors[h]; }
    }
  }

  /** Whatever goes wrong, a commit appends its block or nothing and leaves the grants alone. */
  lemma {:induction false} CommitPreparedShape(w: World, epoch: nat, r: Record, f: Faults)
    requires w.live.Some? && w.ownership == Some(w.live.value.ownership)
    ensures var w' := CommitPrepared(w, epoch, r, f).0;
      && Grants(w') == Grants(w)
      && ((w'.history == w.history && w'.authors == w.authors)
          || (w'.history == w.history + [r] && w'.authors == w.authors + [epoch]))
  {
  }

  lemma {:induction false} CommitFences(c: Config, w: World, a: Authorization, q: Request, x: Execution, f: Faults)
    requires ValidConfig(c) && Inv(c, w) && x.hash != 0
    ensures Fences(w, CommitBlock(c, w, a, q, x, f).0)
    ensures CommitBlock(c, w, a, q, x, f).0.history != w.history ==> a.epoch == |Grants(w)|
  {
    var (w', res) := CommitBlock(c, w, a, q, x, f);
    if w' != w {
      var g, r := PreparedRecord(c, w, a, q, x);
      CommitPreparedShape(w, a.epoch, r, f);
    }
  }

  lemma {:induction false} OpenFences(c: Config, w: World, restored: bool, create: Write, watermark: Write)
    ensures Fences(w, Open(c, w, restored, create, watermark).0)
  {
  }

  lemma {:induction false} GrantFences(c: Config, w: World, q: GrantRequest, f: Faults)
    requires w.live.Some? && !w.live.value.uncertain ==> w.ownership == Some(w.live.value.ownership)
    ensures Fences(w, GrantWriter(c, w, q, f).0)
  {
  }

  lemma {:induction false} StepFences(c: Config, w: World, op: Op)
    requires ValidConfig(c) && Inv(c, w) && ValidOp(op)
    ensures Fences(w, Step(c, w, op))
  {
    match op
    case OpOpen(restored, create, watermark) => OpenFences(c, w, restored, create, watermark);
    case OpGrant(q, f) => GrantFences(c, w, q, f);
    case OpCommit(a, q, x, f) => CommitFences(c, w, a, q, x, f);
    case OpKill =>
  }

  /** FENCING.  Once an epoch is durable no continuation, crashes and reopens
      included, appends a block authorised under an older epoch. */
  lemma {:induction false} RunFences(c: Config, w: World, ops: seq<Op>)
    requires ValidConfig(c) && Inv(c, w) && forall op :: op in ops ==> ValidOp(op)
    ensures Fences(w, Run(c, w, ops))
    decreases |ops|
  {
    if ops != [] {
      StepInv(c, w, ops[0]);
      StepFences(c, w, ops[0]);
      RunFences(c, Step(c, w, ops[0]), ops[1..]);
      FencesCompose(w, Step(c, w, ops[0]), Run(c, w, ops));
    }
  }

  /** An authorization of any epoch but the newest durable one changes nothing. */
  lemma {:induction false} StaleEpochRejected(c: Config, w: World, a: Authorization, q: Request, x: Execution, f: Faults)
    requires Inv(c, w) && a.epoch != |Grants(w)|
    ensures CommitBlock(c, w, a, q, x, f).0 == w && CommitBlock(c, w, a, q, x, f).1.Err?
  {
    if w.live.Some? && !w.live.value.uncertain && w.live.value.ownership.grants != [] {
      LastEpoch(c, w.live.value.ownership, w.history);
    }
  }

  /** A revoked submission is dead: in no continuation does it change anything. */
  lemma {:induction false} RevokedNeverCommits(c: Config, w: World, ops: seq<Op>, a: Authorization, q: Request, x: Execution, f: Faults)
    requires ValidConfig(c) && Inv(c, w) && forall op :: op in ops ==> ValidOp(op)
    requires a.epoch < |Grants(w)|
    ensures CommitBlock(c, Run(c, w, ops), a, q, x, f).0 == Run(c, w, ops)
    ensures CommitBlock(c, Run(c, w, ops), a, q, x, f).1.Err?
  {
    RunInv(c, w, ops);
    RunFences(c, w, ops);
    assert |Grants(w)| <= |Grants(Run(c, w, ops))|;
    StaleEpochRejected(c, Run(c, w, ops), a, q, x, f);
  }

  // ----------------------------------------------------------------- attribution

  /** Attribution is the grant of the authorising epoch, and it never changes:
      receipts issued for one height at any two times are equal. */
  lemma {:induction false} StableReceipts(c: Config, w: World, ops: seq<Op>, height: nat)
    requires ValidConfig(c) && Inv(c, w) && (forall op :: op in ops ==> ValidOp(op))
    requires height < |w.history|
    ensures var w' := Run(c, w, ops);
      && w.ownership.Some? && w'.ownership.Some?
      && ReceiptAt(w.ownership.value, w.history, height).Ok?
      && ReceiptAt(w'.ownership.value, w'.history, height) == ReceiptAt(w.ownership.value, w.history, height)
      && ReceiptAt(w.ownership.value, w.history, height).value.epoch == w.authors[height]
      && ReceiptAt(w.ownership.value, w.history, height).value.blockHash == w.history[height].hash
  {
    RunInv(c, w, ops);
    RunFences(c, w, ops);
    var w' := Run(c, w, ops);
    var o, o' := w.ownership.value, w'.ownership.value;
    assert w'.history[height] == w.history[height] && w'.authors[height] == w.authors[height];
    assert GrantFor(o.grants, height) == Some(o.grants[w.authors[height] - 1]);
    assert GrantFor(o'.grants, height) == Some(o'.grants[w.authors[height] - 1]);
    assert o'.grants[w.authors[height] - 1] == o.grants[w.authors[height] - 1];
    assert GrantAudits(c, o, w.history, w.authors[height] - 1);
    assert BlockAudits(o, w.history[height]);
  }

  // -------------------------------------------------------------------- progress

  const NoFaults := Faults(NoCrash, true, true, Written, Written, Written)

  /** An authorised, executable request on a healthy process is appended and its
      receipt names the current epoch, its owner and the new block. */
  lemma {:induction false} HealthyCommitSucceeds(c: Config, w: World, a: Authorization, q: Request, x: Execution)
    requires ValidConfig(c) && Inv(c, w) && x.hash != 0
    requires w.live.Some? && !w.live.value.uncertain && Authorized(c, w.live.value, a, q).Ok?
    requires Prepare(w.live.value.head, w.history,
               q.(dataCommitments := q.dataCommitments
                    + [StampOf(Authorized(c, w.live.value, a, q).value, NextHeight(w.live.value.head), w.live.value.head.blockHash)]), x).Some?
    ensures var (w', r) := CommitBlock(c, w, a, q, x, NoFaults);
      && |w'.history| == |w.history| + 1 && w.history <= w'.history && w'.authors == w.authors + [a.epoch]
      && r == Ok(Receipt(c.policy, a.epoch, a.owner, |w.history|, x.hash, x.stateRoot))
  {
    var g, r := PreparedRecord(c, w, a, q, x);
    HealthyAppend(c, w, r);
  }

  lemma {:induction false} HealthyAppend(c: Config, w: World, r: Record)
    requires ValidConfig(c) && Inv(c, w) && w.live.Some? && !w.live.value.uncertain
    requires w.live.value.ownership.grants != []
    requires Appendable(c, w.history, r, w.live.value.ownership.grants[|w.live.value.ownership.grants| - 1])
    ensures var o := w.live.value.ownership;
      var g := o.grants[|o.grants| - 1];
      var (w', receipt) := CommitPrepared(w, |o.grants|, r, NoFaults);
      && w'.history == w.history + [r] && w'.authors == w.authors + [|o.grants|]
      && receipt == Ok(Receipt(c.policy, g.epoch, g.request.owner, |w.history|, r.hash, r.stateRootAfter))
  {
    var o := w.live.value.ownership;
    var o1 := o.(pendingHead := Some(HeadAfter(r)));
    HeadHeight(c, w.history);
    AppendKeepsAudit(c, o, w.history, r);
    assert (w.history + [r])[|w.history|] == r;
    assert ExactNextStep(o1.canonicalHead, HeadAfter(r));
  }

  // ----------------------------------------------------- where the promise ends

  /** No process is up, and the durable intent names the all-zero hash. */
  predicate Wedged(w: World) {
    && w.live.None? && w.ownership.Some?
    && w.ownership.value.pendingHead.Some? && w.ownership.value.pendingHead.value.blockHash == 0
  }

  /** Nothing moves a wedged world: no operation changes it and no open succeeds, ever. */
  lemma {:induction false} WedgedForGood(c: Config, w: World, ops: seq<Op>, restored: bool, create: Write, watermark: Write)
    requires Wedged(w)
    ensures Run(c, w, ops) == w && Open(c, Run(c, w, ops), restored, create, watermark).1.Err?
    decreases |ops|
  {
    if ops != [] {
      assert Step(c, w, ops[0]) == w;
      WedgedForGood(c, w, ops[1..], restored, create, watermark);
    }
  }

  /** The one block that recovery cannot absorb is one whose hash is the all-zero marker: once its
      intent is durable, reopening succeeds exactly for the others, and for this one no open
      succeeds again whatever is tried before it. */
  lemma {:induction false} ZeroHashWedges(c: Config, w: World, r: Record)
    requires ValidConfig(c) && Inv(c, w) && w.live.Some? && !w.live.value.uncertain
    requires r.sessionId == c.initialHead.sessionId && r.number == |w.history|
    ensures var stuck := Crash(Persist(w, w.live.value.ownership.(pendingHead := Some(HeadAfter(r))), Written));
      && (Open(c, stuck, true, Written, Written).1.Ok? <==> r.hash != 0)
      && (r.hash == 0 ==> forall ops: seq<Op>, restored, create, watermark ::
            Open(c, Run(c, stuck, ops), restored, create, watermark).1.Err?)
  {
    HeadHeight(c, w.history);
    var o := w.live.value.ownership;
    SameGrantsAudit(c, o, o.(pendingHead := Some(HeadAfter(r))), w.history);
    var stuck := Crash(Persist(w, o.(pendingHead := Some(HeadAfter(r))), Written));
    if r.hash == 0 {
      forall ops: seq<Op>, restored, create, watermark
        ensures Open(c, Run(c, stuck, ops), restored, create, watermark).1.Err?
      {
        WedgedForGood(c, stuck, ops, restored, create, watermark);
      }
    }
  }
}
