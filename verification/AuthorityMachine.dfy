/** The authority as a mutable object, proved against the functions of `Authority`. */
module AuthorityMachine {
  import opened Prelude
  import opened Authority
  import opened AuthorityProofs
  import opened AuthorityFaults

  const PAGE := 128

  /** The backwards scan of `grant_for`. */
  method FindGrant(grants: seq<Grant>, height: nat) returns (r: Option<Grant>)
    ensures r == GrantFor(grants, height)
  {
    var i := |grants|;
    assert grants[..i] == grants;
    while i > 0
      invariant 0 <= i <= |grants|
      invariant GrantFor(grants, height) == GrantFor(grants[..i], height)
    {
      assert grants[..i][..i - 1] == grants[..i - 1] && grants[..i][i - 1] == grants[i - 1];
      i := i - 1;
      var first := FirstHeight(grants[i]);
      if first.None? { return None; }
      if first.value <= height { return Some(grants[i]); }
    }
    return None;
  }

  method AuditGrants(c: Config, o: Ownership, history: seq<Record>) returns (ok: bool)
    ensures ok <==> forall i :: 0 <= i < |o.grants| ==> GrantAudits(c, o, history, i)
  {
    var previousHeight := 0;
    for i := 0 to |o.grants|
      invariant forall j :: 0 <= j < i ==> GrantAudits(c, o, history, j)
      invariant i > 0 ==> FirstHeight(o.grants[i - 1]) == Some(previousHeight)
      invariant i == 0 ==> previousHeight == 0
    {
      var g := o.grants[i];
      if g.epoch != i + 1 || g.request.expectedEpoch != i || g.request.policy != o.policy
         || !Verifies(o.policy.administrator, GrantContent(g.request), g.request.signature)
         || !g.request.anchor.Decodes?
      {
        assert !GrantAudits(c, o, history, i);
        return false;
      }
      var anchor := g.request.anchor.head;
      var expected := ExpectedAnchor(c, history, anchor);
      if expected != Some(anchor) || anchor.sealedBySuccessor.Some? || FirstHeight(g).value < previousHeight {
        assert !GrantAudits(c, o, history, i);
        return false;
      }
      previousHeight := FirstHeight(g).value;
    }
    return true;
  }

  /** The paged walk over the canonical history. */
  method AuditBlocks(o: Ownership, history: seq<Record>) returns (ok: bool)
    ensures ok <==> forall h :: 0 <= h < |history| ==> BlockAudits(o, history[h])
  {
    var start := 0;
    while true
      invariant 0 <= start <= |history|
      invariant forall h :: 0 <= h < start ==> BlockAudits(o, history[h])
      decreases |history| - start
    {
      var end := if start + PAGE <= |history| then start + PAGE else |history|;
      var page := history[start..end];
      if page == [] { return true; }
      for k := 0 to |page|
        invariant forall h :: 0 <= h < start + k ==> BlockAudits(o, history[h])
      {
        var g := FindGrant(o.grants, page[k].number);
        assert page[k] == history[start + k];
        if g.None? || !CheckStamp(page[k], g.value) { return false; }
      }
      start := end;
    }
  }

  class SessionAuthority {
    const config: Config
    var stored: Option<Ownership>
    var history: seq<Record>
    ghost var authors: seq<nat>
    var live: Option<Inner>

    ghost function Snapshot(): World
      reads this
    {
      World(stored, history, authors, live)
    }

    constructor (config: Config)
      requires ValidConfig(config)
      ensures this.config == config && Snapshot() == Empty && Inv(config, Snapshot())
    {
      this.config := config;
      stored, history, authors, live := None, [], [], None;
    }

    method Kill()
      modifies this`live
      ensures Snapshot() == Crash(old(Snapshot()))
    {
      live := None;
    }

    /** A durable write of the ownership record by the live process. */
    method Persist(o: Ownership, outcome: Write) returns (ok: bool)
      requires live.Some?
      modifies this`stored, this`live
      ensures Snapshot() == Authority.Persist(old(Snapshot()), o, outcome) && (ok <==> outcome.Written?)
    {
      if !outcome.ErrorLost? { stored := Some(o); }
      if outcome.Written? {
        live := Some(live.value.(ownership := o));
      } else {
        live := Some(live.value.(uncertain := true));
      }
      ok := outcome.Written?;
    }

    method ReconcilePending(outcome: Write) returns (r: Result<(), Error>)
      requires live.Some?
      modifies this`stored, this`live
      ensures (Snapshot(), r) == Authority.ReconcilePending(old(Snapshot()), outcome)
    {
      var before, pending := live.value.ownership.canonicalHead, live.value.ownership.pendingHead;
      var head := live.value.head;
      if pending.Some? && !ExactNextStep(before, pending.value) {
        live := Some(live.value.(uncertain := true));
        return Err(Invalid);
      }
      if head != before && pending != Some(head) {
        live := Some(live.value.(uncertain := true));
        return Err(Invalid);
      }
      if pending.Some? {
        var ok := Persist(live.value.ownership.(canonicalHead := head, pendingHead := None), outcome);
        if !ok { return Err(Uncertain); }
      }
      return Ok(());
    }

    method Open(restored: bool, create: Write, watermark: Write) returns (r: Result<(), Error>)
      requires ValidConfig(config)
      modifies this`stored, this`live
      ensures (Snapshot(), r) == Authority.Open(config, old(Snapshot()), restored, create, watermark)
      ensures Inv(config, old(Snapshot())) ==> Inv(config, Snapshot())
    {
      if Inv(config, Snapshot()) { OpenInv(config, Snapshot(), restored, create, watermark); }
      if live.Some? { return Err(AlreadyLive); }
      if stored.None? {
        if history != [] { return Err(Invalid); }
        if !create.ErrorLost? { stored := Some(Ownership(config.policy, [], config.initialHead, None)); }
        if !create.Written? { return Err(Storage); }
      }
      var o := stored.value;
      if |o.grants| > MAX_EPOCHS || o.policy != config.policy { return Err(Invalid); }
      if !restored { return Err(SessionFailed); }
      var grantsOk := AuditGrants(config, o, history);
      if !grantsOk { return Err(Invalid); }
      var blocksOk := AuditBlocks(o, history);
      if !blocksOk { return Err(Invalid); }
      live := Some(Inner(o, HeadOf(config, history), false));
      r := ReconcilePending(watermark);
      if r.Err? { live := None; }
    }

    method GrantWriter(q: GrantRequest, f: Faults) returns (r: Result<Grant, Error>)
      requires ValidConfig(config)
      modifies this`stored, this`live
      ensures (Snapshot(), r) == Authority.GrantWriter(config, old(Snapshot()), q, f)
      ensures Inv(config, old(Snapshot())) ==> Inv(config, Snapshot())
    {
      if Inv(config, Snapshot()) { GrantInv(config, Snapshot(), q, f); }
      if live.None? { return Err(NotRunning); }
      if live.value.uncertain { return Err(Uncertain); }
      var o := live.value.ownership;
      var epoch := if o.grants == [] then 0 else o.grants[|o.grants| - 1].epoch;
      if q.policy != config.policy || !Verifies(config.policy.administrator, GrantContent(q), q.signature) {
        return Err(Unauthorized);
      }
      if o.grants != [] && o.grants[|o.grants| - 1].request == q { return Ok(o.grants[|o.grants| - 1]); }
      if q.expectedEpoch != epoch { return Err(Fenced); }
      if !q.anchor.Decodes? { return Err(SessionFailed); }
      if q.anchor.head != live.value.head { return Err(Fenced); }
      if q.owner == config.policy.administrator || q.owner == config.policy.certificateKey || q.owner == config.finalityKey {
        return Err(Invalid);
      }
      if !q.owner.Point? || |o.grants| >= MAX_EPOCHS { return Err(Invalid); }
      var g := Grant(epoch + 1, q);
      if f.crash.BeforeGrant? {
        live := None;
        return Err(Crashed);
      }
      var ok := Persist(o.(grants := o.grants + [g]), f.intent);
      if !ok { return Err(Uncertain); }
      if f.crash.AfterGrant? {
        live := None;
        return Err(Crashed);
      }
      return Ok(g);
    }

    method Commit(a: Authorization, q: Request, x: Execution, f: Faults) returns (r: Result<Receipt, Error>)
      requires ValidConfig(config)
      modifies this`stored, this`live, this`history, this`authors
      ensures (Snapshot(), r) == CommitBlock(config, old(Snapshot()), a, q, x, f)
      ensures Inv(config, old(Snapshot())) && x.hash != 0 ==> CommitKeeps(config, old(Snapshot()), Snapshot(), r)
    {
      ghost var before := Snapshot();
      r := Submit(a, q, x, f);
      if Inv(config, before) && x.hash != 0 { CommitAlwaysKeeps(config, before, a, q, x, f); }
    }

    /** Authorise, prepare, then record, seal and append. */
    method Submit(a: Authorization, q: Request, x: Execution, f: Faults) returns (r: Result<Receipt, Error>)
      modifies this`stored, this`live, this`history, this`authors
      ensures (Snapshot(), r) == CommitBlock(config, old(Snapshot()), a, q, x, f)
    {
      if live.None? { return Err(NotRunning); }
      if live.value.uncertain { return Err(Uncertain); }
      var grant := Authorized(config, live.value, a, q);
      if grant.Err? { return Err(grant.error); }
      var stamp := StampOf(grant.value, NextHeight(live.value.head), live.value.head.blockHash);
      var prepared := Prepare(live.value.head, history, q.(dataCommitments := q.dataCommitments + [stamp]), x);
      if prepared.None? { return Err(SessionFailed); }
      r := CommitPrepared(a.epoch, prepared.value, f);
    }

    method CommitPrepared(epoch: nat, record: Record, f: Faults) returns (r: Result<Receipt, Error>)
      requires live.Some?
      modifies this`stored, this`live, this`history, this`authors
      ensures (Snapshot(), r) == Authority.CommitPrepared(old(Snapshot()), epoch, record, f)
    {
      if f.crash.BeforeIntent? {
        live := None;
        return Err(Crashed);
      }
      var intent := Persist(live.value.ownership.(pendingHead := Some(HeadAfter(record))), f.intent);
      if !intent { return Err(Uncertain); }
      if f.crash.AfterIntent? || (f.sealed && f.crash.AfterSign?) {
        live := None;
        return Err(Crashed);
      }
      if !f.sealed || !f.locked {
        live := Some(live.value.(uncertain := true));
        return Err(Uncertain);
      }
      if !f.canonical.ErrorLost? { history, authors := history + [record], authors + [epoch]; }
      if !f.canonical.Written? {
        live := Some(live.value.(uncertain := true));
        return Err(Uncertain);
      }
      live := Some(live.value.(head := HeadAfter(record)));
      if f.crash.AfterCommit? {
        live := None;
        return Err(Crashed);
      }
      var done := ReconcilePending(f.watermark);
      if done.Err? { return Err(done.error); }
      if f.crash.AfterWatermark? || f.crash.AfterReceipt? {
        live := None;
        return Err(Crashed);
      }
      r := IssueReceipt(record.number);
    }

    /** A receipt for any canonical height, as issued by the live process. */
    method IssueReceipt(height: nat) returns (r: Result<Receipt, Error>)
      requires live.Some?
      ensures r == ReceiptAt(live.value.ownership, history, height)
    {
      if height >= |history| { return Err(SessionFailed); }
      var g := FindGrant(live.value.ownership.grants, height);
      if g.None? || !CheckStamp(history[height], g.value) { return Err(Invalid); }
      return Ok(Receipt(live.value.ownership.policy, g.value.epoch, g.value.request.owner, height,
                        history[height].hash, history[height].stateRootAfter));
    }
  }
}
