/** What the authority answers when something goes wrong, and what an answer is worth afterwards. */
module AuthorityFaults {
  import opened Prelude
  import opened Authority
  import opened AuthorityProofs
  import opened AuthorityMeaning

  // ----------------------------------------------------------------- committing

  /** The process dies inside a commit exactly when all that comes before its crash point goes well. */
  ghost predicate DiesCommitting(f: Faults) {
    match f.crash
    case BeforeIntent => true
    case AfterIntent => f.intent.Written?
    case AfterSign => f.intent.Written? && f.sealed
    case AfterCommit => f.intent.Written? && f.sealed && f.locked && f.canonical.Written?
    case AfterWatermark => AllWritten(f)
    case AfterReceipt => AllWritten(f)
    case _ => false
  }

  ghost predicate AllWritten(f: Faults) {
    f.intent.Written? && f.sealed && f.locked && f.canonical.Written? && f.watermark.Written?
  }

  /** The canonical store takes the block, whether or not it says so. */
  ghost predicate StoreTakesBlock(f: Faults) {
    && f.intent.Written? && f.sealed && f.locked && !f.canonical.ErrorLost?
    && !f.crash.BeforeIntent? && !f.crash.AfterIntent? && !f.crash.AfterSign?
  }

  /** The block a submission asks for, told from the two stores. */
  ghost function NextBlock(c: Config, w: World, q: Request, x: Execution): Record
    requires Grants(w) != []
  {
    var head := HeadOf(c, w.history);
    var asked := q.dataCommitments + [StampOf(Grants(w)[|Grants(w)| - 1], |w.history|, head.blockHash)];
    Record(c.policy.sessionId, |w.history|, head.blockHash, x.hash, x.stateRoot, x.timestampMs,
           q.startPosition, q.endPosition, x.logicalTimeEnd, q.commands, asked, asked + x.extra, x.frameCommitment)
  }

  ghost function ReceiptOfNext(c: Config, w: World, a: Authorization, x: Execution): Receipt {
    Receipt(c.policy, |Grants(w)|, a.owner, |w.history|, x.hash, x.stateRoot)
  }

  /** A submission that may be committed, told from the two stores. */
  ghost predicate Committable(c: Config, w: World, a: Authorization, q: Request, x: Execution) {
    MaySubmit(c, w, a, q) && Executes(c, w, q, x)
  }

  lemma {:induction false} CommitsNextBlock(c: Config, w: World, a: Authorization, q: Request, x: Execution, f: Faults)
    requires Healthy(c, w) && Committable(c, w, a, q, x)
    ensures CommitBlock(c, w, a, q, x, f) == CommitPrepared(w, |Grants(w)|, NextBlock(c, w, q, x), f)
    ensures CheckStamp(NextBlock(c, w, q, x), Grants(w)[|Grants(w)| - 1])
  {
    AuthorizedExactly(c, w, a, q);
    HeadHeight(c, w.history);
    var g := Grants(w)[|Grants(w)| - 1];
    var stamp := StampOf(g, |w.history|, HeadOf(c, w.history).blockHash);
    PreparesExactly(c, w, q, x, stamp);
    OccurrencesAppend(q.dataCommitments, stamp);
  }

  /** A refused submission is refused the same way whatever would have gone wrong later. */
  lemma {:induction false} RefusalsIgnoreFaults(c: Config, w: World, a: Authorization, q: Request, x: Execution, f: Faults)
    requires Healthy(c, w) && !Committable(c, w, a, q, x)
    ensures var (w', r) := CommitBlock(c, w, a, q, x, f);
      w' == w && r.Err? && r.error in {Fenced, Unauthorized, Invalid, SessionFailed}
    ensures CommitBlock(c, w, a, q, x, f) == CommitBlock(c, w, a, q, x, NoFaults)
  {
    AuthorizedExactly(c, w, a, q);
    if MaySubmit(c, w, a, q) {
      var g := Grants(w)[|Grants(w)| - 1];
      PreparesExactly(c, w, q, x, StampOf(g, NextHeight(w.live.value.head), w.live.value.head.blockHash));
    }
  }

  lemma {:induction false} NextStep(c: Config, w: World, r: Record)
    requires Healthy(c, w) && Grants(w) != [] && Appendable(c, w.history, r, Grants(w)[|Grants(w)| - 1])
    ensures var g := Grants(w)[|Grants(w)| - 1];
      && ExactNextStep(HeadOf(c, w.history), HeadAfter(r))
      && GrantFor(Grants(w), |w.history|) == Some(g)
      && g.epoch == |Grants(w)|
  {
    HeadHeight(c, w.history);
    AppendKeepsAudit(c, w.live.value.ownership, w.history, r);
    LastEpoch(c, w.live.value.ownership, w.history);
  }

  /** A process that has caught up with its stores, under the grant g and about to append r. */
  ghost predicate Ready(w: World, r: Record, g: Grant) {
    && w.live.Some? && !w.live.value.uncertain
    && var o := w.live.value.ownership;
       && w.ownership == Some(o) && o.pendingHead.None? && o.canonicalHead == w.live.value.head
       && ExactNextStep(w.live.value.head, HeadAfter(r)) && r.number == |w.history|
       && GrantFor(o.grants, |w.history|) == Some(g) && CheckStamp(r, g)
  }

  lemma {:induction false} PreparedAnswer(w: World, epoch: nat, r: Record, g: Grant, f: Faults)
    requires Ready(w, r, g)
    ensures CommitPrepared(w, epoch, r, f).1
         == (if DiesCommitting(f) then Err(Crashed)
             else if AllWritten(f)
             then Ok(Receipt(w.live.value.ownership.policy, g.epoch, g.request.owner, |w.history|, r.hash, r.stateRootAfter))
             else Err(Uncertain))
  {
    assert (w.history + [r])[|w.history|] == r;
  }

  lemma {:induction false} PreparedWorld(w: World, epoch: nat, r: Record, g: Grant, f: Faults)
    requires Ready(w, r, g)
    ensures var w' := CommitPrepared(w, epoch, r, f).0;
      && (if DiesCommitting(f) then w'.live.None?
          else w'.live.Some? && (AllWritten(f) <==> !w'.live.value.uncertain))
      && (if StoreTakesBlock(f) then w'.history == w.history + [r] && w'.authors == w.authors + [epoch]
          else w'.history == w.history && w'.authors == w.authors)
      && Grants(w') == Grants(w)
  {
  }

  lemma {:induction false} NextBlockAppendable(c: Config, w: World, a: Authorization, q: Request, x: Execution)
    requires Healthy(c, w) && Committable(c, w, a, q, x) && x.hash != 0
    ensures Appendable(c, w.history, NextBlock(c, w, q, x), Grants(w)[|Grants(w)| - 1])
  {
    CommitsNextBlock(c, w, a, q, x, NoFaults);
  }

  /** Which fault gives which answer.  The process is gone exactly when the answer is a crash and
      poisoned exactly when it is uncertain; a receipt is answered exactly when every write went
      through, and it names the block that was appended. */
  lemma {:induction false} CommitUnderFaults(c: Config, w: World, a: Authorization, q: Request, x: Execution, f: Faults)
    requires Healthy(c, w) && Committable(c, w, a, q, x) && x.hash != 0
    ensures var (w', r) := CommitBlock(c, w, a, q, x, f);
      && (if DiesCommitting(f) then r == Err(Crashed) && w'.live.None?
          else if AllWritten(f) then
            && r == Ok(ReceiptOfNext(c, w, a, x)) && Healthy(c, w')
            && w'.live.value.head == Head(c.policy.sessionId, Some(|w.history|), x.hash, x.stateRoot, x.timestampMs,
                                          q.endPosition, x.logicalTimeEnd, None)
          else r == Err(Uncertain) && w'.live.Some? && w'.live.value.uncertain)
      && (if StoreTakesBlock(f)
          then w'.history == w.history + [NextBlock(c, w, q, x)] && w'.authors == w.authors + [|Grants(w)|]
          else w'.history == w.history && w'.authors == w.authors)
      && Grants(w') == Grants(w)
  {
    var r := NextBlock(c, w, q, x);
    CommitsNextBlock(c, w, a, q, x, f);
    NextBlockAppendable(c, w, a, q, x);
    NextStep(c, w, r);
    var g := Grants(w)[|Grants(w)| - 1];
    PreparedAnswer(w, |Grants(w)|, r, g, f);
    PreparedWorld(w, |Grants(w)|, r, g, f);
    CommitInv(c, w, a, q, x, f);
  }

  /** A block with the all-zero hash is never answered with a receipt: a commit that gets past the
      canonical store is refused at the watermark and the process is poisoned. */
  lemma {:induction false} ZeroHashNeverReceipted(c: Config, w: World, a: Authorization, q: Request, x: Execution, f: Faults)
    requires Healthy(c, w) && Committable(c, w, a, q, x) && x.hash == 0
    ensures var (w', r) := CommitBlock(c, w, a, q, x, f);
      if DiesCommitting(f) && !f.crash.AfterWatermark? && !f.crash.AfterReceipt? then r == Err(Crashed) && w'.live.None?
      else
        && w'.live.Some? && w'.live.value.uncertain
        && r == (if f.intent.Written? && f.sealed && f.locked && f.canonical.Written? then Err(Invalid) else Err(Uncertain))
  {
    CommitsNextBlock(c, w, a, q, x, f);
    PreparedZero(w, |Grants(w)|, NextBlock(c, w, q, x), f);
  }

  lemma {:induction false} PreparedZero(w: World, epoch: nat, r: Record, f: Faults)
    requires w.live.Some? && !w.live.value.uncertain && r.hash == 0
    ensures var (w', answer) := CommitPrepared(w, epoch, r, f);
      if DiesCommitting(f) && !f.crash.AfterWatermark? && !f.crash.AfterReceipt? then answer == Err(Crashed) && w'.live.None?
      else
        && w'.live.Some? && w'.live.value.uncertain
        && answer == (if f.intent.Written? && f.sealed && f.locked && f.canonical.Written? then Err(Invalid) else Err(Uncertain))
  {
  }

  /** NO RECEIPT BEFORE THE BLOCK.  Whatever goes wrong, a receipt is answered only once the block
      it names is the last of the canonical history, by the epoch and the owner it names, with the
      ownership record caught up. */
  lemma {:induction false} ReceiptMeansCommitted(c: Config, w: World, a: Authorization, q: Request, x: Execution, f: Faults)
    requires ValidConfig(c) && Inv(c, w)
    ensures var (w', r) := CommitBlock(c, w, a, q, x, f);
      r.Ok? ==>
        && r.value.height == |w.history| && |w'.history| == |w.history| + 1
        && w'.history[..r.value.height] == w.history
        && w'.history[r.value.height].hash == r.value.blockHash
        && w'.history[r.value.height].stateRootAfter == r.value.stateRoot
        && w'.history[r.value.height].commands == q.commands
        && w'.authors == w.authors + [r.value.epoch]
        && r.value.policy == c.policy
        && 1 <= r.value.epoch <= |Grants(w')| && Grants(w')[r.value.epoch - 1].request.owner == r.value.owner
        && x.hash != 0 && Healthy(c, w')
  {
    if w.live.Some? && !w.live.value.uncertain {
      if !Committable(c, w, a, q, x) {
        RefusalsIgnoreFaults(c, w, a, q, x, f);
      } else if x.hash == 0 {
        ZeroHashNeverReceipted(c, w, a, q, x, f);
      } else {
        CommitUnderFaults(c, w, a, q, x, f);
      }
    }
  }

  // ------------------------------------------------------------ receipts over runs

  /** Whatever state the process is in, killing it and opening again succeeds and loses nothing. */
  lemma {:induction false} ReopensWithEverything(c: Config, w: World)
    requires ValidConfig(c) && Inv(c, w)
    ensures var (w', r) := Open(c, Crash(w), true, Written, Written);
      && r.Ok? && Healthy(c, w') && w'.history == w.history && w'.authors == w.authors && Grants(w') == Grants(w)
  {
    var down := Crash(w);
    OpenInv(c, down, true, Written, Written);
    OpenFences(c, down, true, Written, Written);
    if w.ownership.Some? {
      RecoverInv(c, down, true, Written);
    } else {
      RecoverInv(c, down.(ownership := Some(Ownership(c.policy, [], c.initialHead, None))), true, Written);
    }
  }

  /** The receipt a live process issues for a committed height. */
  lemma {:induction false} IssuedReceipt(c: Config, w: World, h: nat)
    requires Healthy(c, w) && h < |w.history|
    ensures 1 <= w.authors[h] <= |Grants(w)|
    ensures ReceiptAt(w.live.value.ownership, w.history, h)
         == Ok(Receipt(c.policy, w.authors[h], Grants(w)[w.authors[h] - 1].request.owner, h, w.history[h].hash, w.history[h].stateRootAfter))
  {
    StableReceipts(c, w, [], h);
    assert GrantFor(Grants(w), h) == Some(Grants(w)[w.authors[h] - 1]);
  }

  /** The receipt names its block: of the history, the author and the grant that are stored. */
  ghost predicate Names(c: Config, w: World, rc: Receipt) {
    && rc.height < |w.history| == |w.authors| && rc.epoch == w.authors[rc.height] && 1 <= rc.epoch <= |Grants(w)|
    && rc == Receipt(c.policy, rc.epoch, Grants(w)[rc.epoch - 1].request.owner, rc.height,
                     w.history[rc.height].hash, w.history[rc.height].stateRootAfter)
  }

  /** Everything a caller of commit may rely on, whatever goes wrong. */
  ghost predicate CommitKeeps(c: Config, w: World, w': World, r: Result<Receipt, Error>) {
    && Inv(c, w') && Fences(w, w')
    && (r.Ok? ==> Names(c, w', r.value) && r.value.height == |w.history| && w'.history[..r.value.height] == w.history)
  }

  lemma {:induction false} CommitAlwaysKeeps(c: Config, w: World, a: Authorization, q: Request, x: Execution, f: Faults)
    requires ValidConfig(c) && Inv(c, w) && x.hash != 0
    ensures CommitKeeps(c, w, CommitBlock(c, w, a, q, x, f).0, CommitBlock(c, w, a, q, x, f).1)
  {
    CommitInv(c, w, a, q, x, f);
    CommitFences(c, w, a, q, x, f);
    ReceiptMeansCommitted(c, w, a, q, x, f);
  }

  lemma {:induction false} ReceiptLasts(c: Config, w: World, rc: Receipt, later: seq<Op>)
    requires ValidConfig(c) && Inv(c, w) && Names(c, w, rc) && forall op :: op in later ==> ValidOp(op)
    ensures var (w', up) := Open(c, Crash(Run(c, w, later)), true, Written, Written);
      up.Ok? && w'.live.Some? && ReceiptAt(w'.live.value.ownership, w'.history, rc.height) == Ok(rc)
  {
    RunInv(c, w, later);
    RunFences(c, w, later);
    var later' := Run(c, w, later);
    assert Names(c, later', rc);
    ReopensWithEverything(c, later');
    IssuedReceipt(c, Open(c, Crash(later'), true, Written, Written).0, rc.height);
  }

  /** A RECEIPT IS FOR GOOD.  In any run from an empty deployment, a receipt a commit hands out is
      the receipt that the authority reopened after any further operations, crashes and failed
      writes included, issues for that height. */
  lemma {:induction false} ReceiptIsForGood(c: Config, before: seq<Op>, a: Authorization, q: Request, x: Execution, f: Faults, later: seq<Op>)
    requires ValidConfig(c)
    requires (forall op :: op in before ==> ValidOp(op)) && (forall op :: op in later ==> ValidOp(op))
    ensures var (w, r) := CommitBlock(c, Run(c, Empty, before), a, q, x, f);
      var (w', up) := Open(c, Crash(Run(c, w, later)), true, Written, Written);
      r.Ok? ==> up.Ok? && w'.live.Some? && ReceiptAt(w'.live.value.ownership, w'.history, r.value.height) == r
  {
    RunInv(c, Empty, before);
    var w0 := Run(c, Empty, before);
    var (w, r) := CommitBlock(c, w0, a, q, x, f);
    ReceiptMeansCommitted(c, w0, a, q, x, f);
    if r.Ok? { ReceiptLasts(c, w, r.value, later); }
  }

  // ------------------------------------------------------------ refusals by name

  /** The submission names the current grant. */
  ghost predicate NamesOwner(c: Config, w: World, a: Authorization) {
    && Grants(w) != [] && a.policy == c.policy && a.epoch == |Grants(w)|
    && a.owner == Grants(w)[|Grants(w)| - 1].request.owner
  }

  ghost predicate Signed(c: Config, w: World, a: Authorization) {
    NamesOwner(c, w, a) && Verifies(a.owner, CommitContent(a), a.signature)
  }

  ghost predicate AtHead(c: Config, w: World, a: Authorization) {
    Signed(c, w, a) && a.baseHead == Decodes(HeadOf(c, w.history))
  }

  ghost predicate CarriesNextStamp(c: Config, w: World, q: Request)
    requires Grants(w) != []
  {
    StampOf(Grants(w)[|Grants(w)| - 1], |w.history|, HeadOf(c, w.history).blockHash) in q.dataCommitments
  }

  /** Each refusal of a submission names what is wrong with it, and only that. */
  lemma {:induction false} CommitRefusals(c: Config, w: World, a: Authorization, q: Request, x: Execution, f: Faults)
    requires Healthy(c, w) && !Committable(c, w, a, q, x)
    ensures var r := CommitBlock(c, w, a, q, x, f).1;
      && (r == Err(Fenced) <==>
            !NamesOwner(c, w, a) || (Signed(c, w, a) && a.baseHead.Decodes? && a.baseHead.head != HeadOf(c, w.history)))
      && (r == Err(Unauthorized) <==>
            NamesOwner(c, w, a) && (!Signed(c, w, a) || (AtHead(c, w, a) && !q.successor && a.request != q)))
      && (r == Err(Invalid) <==>
            AtHead(c, w, a) && (q.successor || (a.request == q && CarriesNextStamp(c, w, q))))
      && (r == Err(SessionFailed) <==>
            Signed(c, w, a) && (!a.baseHead.Decodes? || (MaySubmit(c, w, a, q) && !Executes(c, w, q, x))))
  {
    AuthorizedExactly(c, w, a, q);
    HeadHeight(c, w.history);
    if Grants(w) != [] {
      LastEpoch(c, w.live.value.ownership, w.history);
      var g := Grants(w)[|Grants(w)| - 1];
      PreparesExactly(c, w, q, x, StampOf(g, NextHeight(w.live.value.head), w.live.value.head.blockHash));
    }
  }

  // ---------------------------------------------------------- unknown outcomes

  /** Once its base is no longer the head, a submission of the current owner is fenced. */
  lemma {:induction false} StaleBaseFenced(c: Config, w: World, a: Authorization, q: Request, x: Execution, f: Faults)
    requires Healthy(c, w) && Signed(c, w, a) && a.baseHead.Decodes? && a.baseHead.head != HeadOf(c, w.history)
    ensures CommitBlock(c, w, a, q, x, f).1 == Err(Fenced)
  {
    CommitRefusals(c, w, a, q, x, f);
  }

  lemma {:induction false} CommittedCannotRepeat(c: Config, w: World, w': World, a: Authorization, q: Request, x: Execution)
    requires Healthy(c, w) && Healthy(c, w') && Committable(c, w, a, q, x)
    requires |w'.history| == |w.history| + 1 && Grants(w') == Grants(w)
    ensures CommitBlock(c, w', a, q, x, NoFaults).1 == Err(Fenced)
  {
    HeadHeight(c, w.history);
    HeadHeight(c, w'.history);
    StaleBaseFenced(c, w', a, q, x, NoFaults);
  }

  lemma {:induction false} LostCanRepeat(c: Config, w: World, w': World, a: Authorization, q: Request, x: Execution)
    requires Healthy(c, w) && Healthy(c, w') && Committable(c, w, a, q, x) && x.hash != 0
    requires w'.history == w.history && Grants(w') == Grants(w)
    ensures CommitBlock(c, w', a, q, x, NoFaults).1 == Ok(ReceiptOfNext(c, w, a, x))
  {
    CommitUnderFaults(c, w', a, q, x, NoFaults);
  }

  lemma {:induction false} CommittedReceipt(c: Config, w: World, w': World, a: Authorization, q: Request, x: Execution)
    requires Healthy(c, w) && Healthy(c, w') && Committable(c, w, a, q, x)
    requires w'.history == w.history + [NextBlock(c, w, q, x)] && w'.authors == w.authors + [|Grants(w)|] && Grants(w') == Grants(w)
    ensures ReceiptAt(w'.live.value.ownership, w'.history, |w.history|) == Ok(ReceiptOfNext(c, w, a, x))
  {
    IssuedReceipt(c, w', |w.history|);
  }

  /** AN UNKNOWN OUTCOME RESOLVES.  After a commit that answered with no receipt, reopening says
      which it was: the receipt the commit withheld if the store took the block, and otherwise the
      very same submission is accepted; either way it commits once. */
  lemma {:induction false} UnknownOutcomeResolves(c: Config, w: World, a: Authorization, q: Request, x: Execution, f: Faults)
    requires Healthy(c, w) && Committable(c, w, a, q, x) && x.hash != 0
    ensures var (w', up) := Open(c, Crash(CommitBlock(c, w, a, q, x, f).0), true, Written, Written);
      && up.Ok? && Healthy(c, w')
      && ReceiptAt(w'.live.value.ownership, w'.history, |w.history|)
         == (if StoreTakesBlock(f) then Ok(ReceiptOfNext(c, w, a, x)) else Err(SessionFailed))
      && CommitBlock(c, w', a, q, x, NoFaults).1
         == (if StoreTakesBlock(f) then Err(Fenced) else Ok(ReceiptOfNext(c, w, a, x)))
  {
    CommitUnderFaults(c, w, a, q, x, f);
    CommitInv(c, w, a, q, x, f);
    var w1 := CommitBlock(c, w, a, q, x, f).0;
    ReopensWithEverything(c, w1);
    var w' := Open(c, Crash(w1), true, Written, Written).0;
    if StoreTakesBlock(f) {
      CommittedReceipt(c, w, w', a, q, x);
      CommittedCannotRepeat(c, w, w', a, q, x);
    } else {
      LostCanRepeat(c, w, w', a, q, x);
    }
  }

  // ------------------------------------------------------------------- granting

  ghost predicate FromAdministrator(c: Config, q: GrantRequest) {
    q.policy == c.policy && Verifies(c.policy.administrator, GrantContent(q), q.signature)
  }

  /** What the current owner's request is measured against. */
  ghost predicate CaughtUp(c: Config, w: World) {
    && w.live.Some? && !w.live.value.uncertain && w.ownership == Some(w.live.value.ownership)
    && w.live.value.head == HeadOf(c, w.history)
    && (Grants(w) != [] ==> Grants(w)[|Grants(w)| - 1].epoch == |Grants(w)|)
  }

  ghost predicate Grantable(c: Config, w: World, q: GrantRequest) {
    FromAdministrator(c, q) && MovesOn(c, w, q) && !Repeats(w, q)
  }

  lemma {:induction false} NewGrantUnderFaults(c: Config, w: World, q: GrantRequest, f: Faults)
    requires CaughtUp(c, w) && Grantable(c, w, q)
    ensures var (w', r) := GrantWriter(c, w, q, f);
      var grant := Grant(|Grants(w)| + 1, q);
      && (if f.crash.BeforeGrant? || (f.crash.AfterGrant? && f.intent.Written?) then r == Err(Crashed) && w'.live.None?
          else if f.intent.Written? then r == Ok(grant) && w'.live.Some? && !w'.live.value.uncertain
          else r == Err(Uncertain) && w'.live.Some? && w'.live.value.uncertain)
      && Grants(w') == (if f.crash.BeforeGrant? || f.intent.ErrorLost? then Grants(w) else Grants(w) + [grant])
      && w'.history == w.history && w'.authors == w.authors
  {
  }

  lemma {:induction false} OtherGrantsMeetNoFault(c: Config, w: World, q: GrantRequest, f: Faults)
    requires CaughtUp(c, w) && !Grantable(c, w, q)
    ensures GrantWriter(c, w, q, f) == GrantWriter(c, w, q, NoFaults) && GrantWriter(c, w, q, f).0 == w
  {
  }

  /** A new grant is durable exactly when its write is not lost and is answered only when it is
      durable; a repeated or refused request meets no fault. */
  lemma {:induction false} GrantUnderFaults(c: Config, w: World, q: GrantRequest, f: Faults)
    requires Healthy(c, w)
    ensures var (w', r) := GrantWriter(c, w, q, f);
      var grant := Grant(|Grants(w)| + 1, q);
      if Grantable(c, w, q) then
        && (if f.crash.BeforeGrant? || (f.crash.AfterGrant? && f.intent.Written?) then r == Err(Crashed) && w'.live.None?
            else if f.intent.Written? then r == Ok(grant) && Healthy(c, w')
            else r == Err(Uncertain) && w'.live.Some? && w'.live.value.uncertain)
        && Grants(w') == (if f.crash.BeforeGrant? || f.intent.ErrorLost? then Grants(w) else Grants(w) + [grant])
        && w'.history == w.history && w'.authors == w.authors
      else w' == w && r == GrantWriter(c, w, q, NoFaults).1
  {
    if Grants(w) != [] { LastEpoch(c, w.live.value.ownership, w.history); }
    assert CaughtUp(c, w);
    if Grantable(c, w, q) {
      NewGrantUnderFaults(c, w, q, f);
      GrantInv(c, w, q, f);
    } else {
      OtherGrantsMeetNoFault(c, w, q, f);
    }
  }

  /** Each refusal of a grant names what is wrong with the request, and only that. */
  lemma {:induction false} GrantRefusals(c: Config, w: World, q: GrantRequest)
    requires Healthy(c, w) && !Repeats(w, q)
    ensures var r := GrantWriter(c, w, q, NoFaults).1;
      var next := q.expectedEpoch == |Grants(w)|;
      && (r == Err(Unauthorized) <==> !FromAdministrator(c, q))
      && (r == Err(SessionFailed) <==> FromAdministrator(c, q) && next && !q.anchor.Decodes?)
      && (r == Err(Fenced) <==>
            FromAdministrator(c, q) && (!next || (q.anchor.Decodes? && q.anchor.head != HeadOf(c, w.history))))
      && (r == Err(Invalid) <==>
            && FromAdministrator(c, q) && next && q.anchor == Decodes(HeadOf(c, w.history))
            && (!WorkerKey(c, q.owner) || |Grants(w)| == 1024))
  {
    if Grants(w) != [] { LastEpoch(c, w.live.value.ownership, w.history); }
  }

  // -------------------------------------------------------------------- opening

  /** On the stores of any run, opening fails only for a reason outside them, and says which. */
  lemma {:induction false} OpenUnderFaults(c: Config, w: World, restored: bool, create: Write, watermark: Write)
    requires ValidConfig(c) && Inv(c, w)
    ensures var (w', r) := Open(c, w, restored, create, watermark);
      && (if w.live.Some? then r == Err(AlreadyLive) && w' == w
          else if w.ownership.None? && !create.Written? then r == Err(Storage)
          else if !restored then r == Err(SessionFailed)
          else if w.ownership.Some? && w.ownership.value.pendingHead.Some? && !watermark.Written? then r == Err(Uncertain)
          else r == Ok(()) && Healthy(c, w'))
      && (w.live.None? && r.Err? ==> w'.live.None?)
      && (w'.ownership.None? <==> w.ownership.None? && (w.live.Some? || create.ErrorLost?))
      && w'.history == w.history && w'.authors == w.authors && Grants(w') == Grants(w)
  {
    OpenInv(c, w, restored, create, watermark);
    OpenFences(c, w, restored, create, watermark);
    if w.live.None? {
      var o := if w.ownership.Some? then w.ownership.value else Ownership(c.policy, [], c.initialHead, None);
      if w.ownership.Some? || create.Written? {
        RecoverInv(c, w.(ownership := Some(o)), restored, watermark);
        RecordedReconciles(c, o, w.history, w.authors);
      }
    }
  }
}
