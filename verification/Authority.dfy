/** The single-writer authority: two durable stores, one live process, and every
    fault that can fall between their writes.

    Operations serialise under one lock, so a run is a sequence of operations; what
    can go wrong inside one is a crash at a failpoint or a write that reports an
    error whether or not it was applied. */
module Authority {
  import opened Prelude

  // ------------------------------------------------------------------ values

  datatype Head = Head(sessionId: Hash32, finalisedHeight: Option<nat>, blockHash: Hash32, stateRoot: Hash32,
                       timestampMs: nat, inputPosition: nat, logicalTime: nat, sealedBySuccessor: Option<Hash32>)

  function NextHeight(h: Head): nat {
    if h.finalisedHeight.None? then 0 else h.finalisedHeight.value + 1
  }

  /** Supplied head bytes: checksummed records either decode to one head or not at all. */
  datatype HeadBytes = Decodes(head: Head) | Undecodable(raw: nat)

  /** The policy stands for its own commitment: the hash is taken as injective. */
  datatype Policy = Policy(sessionId: Hash32, genesisCommitment: Hash32, administrator: PublicKey,
                           certificateKey: PublicKey, effectDomain: Hash32)

  /** Data commitments of a block.  Anyone can compute a stamp, workers included. */
  datatype Commitment = Stamp(policy: Policy, epoch: nat, owner: PublicKey, height: nat, parent: Hash32) | Opaque(raw: nat)

  datatype Command = Command(id: Hash32, payloadHash: Hash32)

  /** A worker's block request; it stands for its own digest. */
  datatype Request = Request(commands: seq<Command>, startPosition: nat, endPosition: nat,
                             dataCommitments: seq<Commitment>, payload: nat, successor: bool)

  datatype Digest =
    | GrantDigest(policy: Policy, expectedEpoch: nat, owner: PublicKey, anchor: HeadBytes)
    | CommitDigest(policy: Policy, epoch: nat, owner: PublicKey, baseHead: HeadBytes, request: Request)
    | OtherDigest(raw: nat)

  datatype Signature = Malformed | SignedBy(key: PublicKey, digest: Digest)

  predicate Verifies(key: PublicKey, digest: Digest, s: Signature) {
    s.SignedBy? && key.Point? && s.key == key && s.digest == digest
  }

  datatype GrantRequest = GrantRequest(policy: Policy, expectedEpoch: nat, owner: PublicKey, anchor: HeadBytes, signature: Signature)

  function GrantContent(r: GrantRequest): Digest {
    GrantDigest(r.policy, r.expectedEpoch, r.owner, r.anchor)
  }

  datatype Grant = Grant(epoch: nat, request: GrantRequest)

  /** First height the grant authorises; undefined when its anchor does not decode. */
  function FirstHeight(g: Grant): Option<nat> {
    if g.request.anchor.Decodes? then Some(NextHeight(g.request.anchor.head)) else None
  }

  function StampOf(g: Grant, height: nat, parent: Hash32): Commitment {
    Stamp(g.request.policy, g.epoch, g.request.owner, height, parent)
  }

  datatype Authorization = Authorization(policy: Policy, epoch: nat, owner: PublicKey, baseHead: HeadBytes,
                                         request: Request, signature: Signature)

  function CommitContent(a: Authorization): Digest {
    CommitDigest(a.policy, a.epoch, a.owner, a.baseHead, a.request)
  }

  datatype Record = Record(sessionId: Hash32, number: nat, parentHash: Hash32, hash: Hash32, stateRootAfter: Hash32,
                           timestampMs: nat, inputStart: nat, inputEnd: nat, logicalTimeEnd: nat, commands: seq<Command>,
                           requestDataCommitments: seq<Commitment>, dataCommitments: seq<Commitment>, frameCommitment: Hash32)

  datatype Ownership = Ownership(policy: Policy, grants: seq<Grant>, canonicalHead: Head, pendingHead: Option<Head>)

  datatype Receipt = Receipt(policy: Policy, epoch: nat, owner: PublicKey, height: nat, blockHash: Hash32, stateRoot: Hash32)

  datatype Config = Config(policy: Policy, finalityKey: PublicKey, initialHead: Head)

  const MAX_EPOCHS := 1024

  datatype Error = NotRunning | AlreadyLive | Invalid | Unauthorized | Fenced | Storage | SessionFailed | Uncertain | Crashed

  /** The live process: its cached ownership, its chain head, and its poison flag. */
  datatype Inner = Inner(ownership: Ownership, head: Head, uncertain: bool)

  /** `authors[h]` is the epoch of the authorization that appended block h. */
  datatype World = World(ownership: Option<Ownership>, history: seq<Record>, authors: seq<nat>, live: Option<Inner>)

  /** A write either succeeds or reports an error, applied or lost. */
  datatype Write = Written | ErrorApplied | ErrorLost

  datatype CrashPoint =
    | NoCrash | BeforeGrant | AfterGrant | BeforeIntent | AfterIntent | AfterSign | AfterCommit | AfterWatermark | AfterReceipt

  datatype Faults = Faults(crash: CrashPoint, sealed: bool, locked: bool, intent: Write, canonical: Write, watermark: Write)

  /** What block execution contributes; `ok` is false when preparation is refused. */
  datatype Execution = Execution(ok: bool, hash: Hash32, stateRoot: Hash32, timestampMs: nat, logicalTimeEnd: nat,
                                 frameCommitment: Hash32, extra: seq<Commitment>)

  // ------------------------------------------------------------ the canonical store

  function HeadAfter(r: Record): Head {
    Head(r.sessionId, Some(r.number), r.hash, r.stateRootAfter, r.timestampMs, r.inputEnd, r.logicalTimeEnd, None)
  }

  function HeadOf(c: Config, history: seq<Record>): Head {
    if history == [] then c.initialHead else HeadAfter(history[|history| - 1])
  }

  predicate Carries(r: Record, id: Hash32) {
    exists k :: k in r.commands && k.id == id
  }

  predicate HasCommand(history: seq<Record>, id: Hash32) {
    exists r :: r in history && Carries(r, id)
  }

  predicate ValidFrame(commands: seq<Command>) {
    && (forall k :: k in commands ==> k.id != 0 && k.payloadHash != 0)
    && (forall i, j :: 0 <= i < j < |commands| ==> commands[i].id != commands[j].id)
  }

  /** Preparation at the current head, as the session chain does it. */
  function Prepare(head: Head, history: seq<Record>, q: Request, x: Execution): Option<Record> {
    if !x.ok || head.sealedBySuccessor.Some? || !ValidFrame(q.commands)
       || (exists k :: k in q.commands && HasCommand(history, k.id))
       || q.startPosition != head.inputPosition || q.endPosition < q.startPosition
       || (q.commands != [] && |q.commands| != q.endPosition - q.startPosition)
    then None
    else Some(Record(head.sessionId, NextHeight(head), head.blockHash, x.hash, x.stateRoot, x.timestampMs,
                     q.startPosition, q.endPosition, x.logicalTimeEnd, q.commands,
                     q.dataCommitments, q.dataCommitments + x.extra, x.frameCommitment))
  }

  // ---------------------------------------------------------------- attribution

  /** The latest grant whose first height is not above `height`; an anchor that does
      not decode makes the search fail. */
  function GrantFor(grants: seq<Grant>, height: nat): Option<Grant> {
    if grants == [] then None
    else
      var g := grants[|grants| - 1];
      if FirstHeight(g).None? then None
      else if FirstHeight(g).value <= height then Some(g)
      else GrantFor(grants[..|grants| - 1], height)
  }

  function Occurrences(cs: seq<Commitment>, c: Commitment): nat {
    if cs == [] then 0 else (if cs[0] == c then 1 else 0) + Occurrences(cs[1..], c)
  }

  predicate CheckStamp(r: Record, g: Grant) {
    var stamp := StampOf(g, r.number, r.parentHash);
    Occurrences(r.requestDataCommitments, stamp) == 1 && stamp in r.dataCommitments
  }

  function ReceiptAt(o: Ownership, history: seq<Record>, height: nat): Result<Receipt, Error> {
    if height >= |history| then Err(SessionFailed)
    else
      var g := GrantFor(o.grants, height);
      if g.None? || !CheckStamp(history[height], g.value) then Err(Invalid)
      else Ok(Receipt(o.policy, g.value.epoch, g.value.request.owner, height, history[height].hash, history[height].stateRootAfter))
  }

  // ---------------------------------------------------------------------- audit

  /** The recovery anchor a grant must name: the genesis head or the head after a stored block. */
  function ExpectedAnchor(c: Config, history: seq<Record>, anchor: Head): Option<Head> {
    if anchor.finalisedHeight.None? then Some(c.initialHead)
    else if anchor.finalisedHeight.value >= |history| then None
    else Some(HeadAfter(history[anchor.finalisedHeight.value]).(finalisedHeight := anchor.finalisedHeight))
  }

  predicate GrantAudits(c: Config, o: Ownership, history: seq<Record>, i: nat)
    requires i < |o.grants|
  {
    var g := o.grants[i];
    && g.epoch == i + 1
    && g.request.expectedEpoch == i
    && g.request.policy == o.policy
    && Verifies(o.policy.administrator, GrantContent(g.request), g.request.signature)
    && g.request.anchor.Decodes?
    && ExpectedAnchor(c, history, g.request.anchor.head) == Some(g.request.anchor.head)
    && g.request.anchor.head.sealedBySuccessor.None?
    && (i > 0 ==> FirstHeight(o.grants[i - 1]).Some? && FirstHeight(o.grants[i - 1]).value <= FirstHeight(g).value)
  }

  predicate BlockAudits(o: Ownership, r: Record) {
    GrantFor(o.grants, r.number).Some? && CheckStamp(r, GrantFor(o.grants, r.number).value)
  }

  predicate Audits(c: Config, o: Ownership, history: seq<Record>) {
    && (forall i :: 0 <= i < |o.grants| ==> GrantAudits(c, o, history, i))
    && (forall h :: 0 <= h < |history| ==> BlockAudits(o, history[h]))
  }

  // ----------------------------------------------------------------- operations

  function Crash(w: World): World {
    w.(live := None)
  }

  /** Write the ownership record, then go on as `after` or poison the process. */
  function Persist(w: World, o: Ownership, outcome: Write): World
    requires w.live.Some?
  {
    var stored := if outcome.ErrorLost? then w.ownership else Some(o);
    var inner := w.live.value;
    w.(ownership := stored,
       live := Some(if outcome.Written? then inner.(ownership := o) else inner.(uncertain := true)))
  }

  predicate ExactNextStep(before: Head, after: Head) {
    && after.sessionId == before.sessionId
    && after.finalisedHeight == Some(NextHeight(before))
    && after.sealedBySuccessor.None?
    && after.blockHash != 0
  }

  function ReconcilePending(w: World, outcome: Write): (World, Result<(), Error>)
    requires w.live.Some?
  {
    var inner := w.live.value;
    var poisoned := w.(live := Some(inner.(uncertain := true)));
    var before, pending := inner.ownership.canonicalHead, inner.ownership.pendingHead;
    if pending.Some? && !ExactNextStep(before, pending.value) then (poisoned, Err(Invalid))
    else if inner.head != before && pending != Some(inner.head) then (poisoned, Err(Invalid))
    else if pending.None? then (w, Ok(()))
    else
      var w' := Persist(w, inner.ownership.(canonicalHead := inner.head, pendingHead := None), outcome);
      (w', if outcome.Written? then Ok(()) else Err(Uncertain))
  }

  /** Open: create the ownership record on an empty deployment, or recover and audit. */
  function Open(c: Config, w: World, restored: bool, create: Write, watermark: Write): (World, Result<(), Error>) {
    if w.live.Some? then (w, Err(AlreadyLive))
    else if w.ownership.None? then
      if w.history != [] then (w, Err(Invalid))
      else
        var o := Ownership(c.policy, [], c.initialHead, None);
        var w' := if create.ErrorLost? then w else w.(ownership := Some(o));
        if !create.Written? then (w', Err(Storage)) else Recover(c, w', restored, watermark)
    else Recover(c, w, restored, watermark)
  }

  function Recover(c: Config, w: World, restored: bool, watermark: Write): (World, Result<(), Error>)
    requires w.ownership.Some? && w.live.None?
  {
    var o := w.ownership.value;
    if |o.grants| > MAX_EPOCHS || o.policy != c.policy then (w, Err(Invalid))
    else if !restored then (w, Err(SessionFailed))
    else if !Audits(c, o, w.history) then (w, Err(Invalid))
    else
      var up := w.(live := Some(Inner(o, HeadOf(c, w.history), false)));
      var (w', r) := ReconcilePending(up, watermark);
      if r.Ok? then (w', r) else (Crash(w'), r)
  }

  function GrantWriter(c: Config, w: World, q: GrantRequest, f: Faults): (World, Result<Grant, Error>) {
    if w.live.None? then (w, Err(NotRunning))
    else if w.live.value.uncertain then (w, Err(Uncertain))
    else
      var inner := w.live.value;
      var grants := inner.ownership.grants;
      var epoch := if grants == [] then 0 else grants[|grants| - 1].epoch;
      if q.policy != c.policy || !Verifies(c.policy.administrator, GrantContent(q), q.signature) then (w, Err(Unauthorized))
      else if grants != [] && grants[|grants| - 1].request == q then (w, Ok(grants[|grants| - 1]))
      else if q.expectedEpoch != epoch then (w, Err(Fenced))
      else if !q.anchor.Decodes? then (w, Err(SessionFailed))
      else if q.anchor.head != inner.head then (w, Err(Fenced))
      else if q.owner == c.policy.administrator || q.owner == c.policy.certificateKey || q.owner == c.finalityKey
              || !q.owner.Point? || |grants| >= MAX_EPOCHS then (w, Err(Invalid))
      else
        var g := Grant(epoch + 1, q);
        if f.crash.BeforeGrant? then (Crash(w), Err(Crashed))
        else
          var w' := Persist(w, inner.ownership.(grants := grants + [g]), f.intent);
          if !f.intent.Written? then (w', Err(Uncertain))
          else if f.crash.AfterGrant? then (Crash(w'), Err(Crashed))
          else (w', Ok(g))
  }

  /** The checks of `commit` before anything is executed. */
  function Authorized(c: Config, inner: Inner, a: Authorization, q: Request): Result<Grant, Error> {
    var grants := inner.ownership.grants;
    if grants == [] then Err(Fenced)
    else
      var g := grants[|grants| - 1];
      if a.policy != c.policy || a.epoch != g.epoch || a.owner != g.request.owner then Err(Fenced)
      else if !Verifies(g.request.owner, CommitContent(a), a.signature) then Err(Unauthorized)
      else if !a.baseHead.Decodes? then Err(SessionFailed)
      else if a.baseHead.head != inner.head then Err(Fenced)
      else if q.successor then Err(Invalid)
      else if a.request != q then Err(Unauthorized)
      else if StampOf(g, NextHeight(inner.head), inner.head.blockHash) in q.dataCommitments then Err(Invalid)
      else Ok(g)
  }

  function CommitBlock(c: Config, w: World, a: Authorization, q: Request, x: Execution, f: Faults): (World, Result<Receipt, Error>) {
    if w.live.None? then (w, Err(NotRunning))
    else if w.live.value.uncertain then (w, Err(Uncertain))
    else
      var inner := w.live.value;
      var grant := Authorized(c, inner, a, q);
      if grant.Err? then (w, Err(grant.error))
      else
        var stamp := StampOf(grant.value, NextHeight(inner.head), inner.head.blockHash);
        var prepared := Prepare(inner.head, w.history, q.(dataCommitments := q.dataCommitments + [stamp]), x);
        if prepared.None? then (w, Err(SessionFailed))
        else CommitPrepared(w, a.epoch, prepared.value, f)
  }

  /** Record the intent, then go on to sealing. */
  function CommitPrepared(w: World, epoch: nat, r: Record, f: Faults): (World, Result<Receipt, Error>)
    requires w.live.Some?
  {
    if f.crash.BeforeIntent? then (Crash(w), Err(Crashed))
    else
      var w' := Persist(w, w.live.value.ownership.(pendingHead := Some(HeadAfter(r))), f.intent);
      if !f.intent.Written? then (w', Err(Uncertain))
      else CommitIntended(w', epoch, r, f)
  }

  /** Seal, take the ledger lock and run the canonical store transaction. */
  function CommitIntended(w: World, epoch: nat, r: Record, f: Faults): (World, Result<Receipt, Error>)
    requires w.live.Some?
  {
    if f.crash.AfterIntent? || (f.sealed && f.crash.AfterSign?) then (Crash(w), Err(Crashed))
    else if !f.sealed || !f.locked then (w.(live := Some(w.live.value.(uncertain := true))), Err(Uncertain))
    else
      var w' := AppendBlock(w, epoch, r, f.canonical);
      if !f.canonical.Written? then (w', Err(Uncertain))
      else CommitAppended(w', r, f)
  }

  /** Advance the watermark and issue the receipt. */
  function CommitAppended(w: World, r: Record, f: Faults): (World, Result<Receipt, Error>)
    requires w.live.Some?
  {
    if f.crash.AfterCommit? then (Crash(w), Err(Crashed))
    else
      var (w', done) := ReconcilePending(w, f.watermark);
      if done.Err? then (w', Err(done.error))
      else if f.crash.AfterWatermark? || f.crash.AfterReceipt? then (Crash(w'), Err(Crashed))
      else (w', ReceiptAt(w'.live.value.ownership, w'.history, r.number))
  }

  /** The atomic store transaction; the in-memory head moves only on success. */
  function AppendBlock(w: World, epoch: nat, r: Record, outcome: Write): World
    requires w.live.Some?
  {
    var inner := w.live.value;
    var w' := if outcome.ErrorLost? then w else w.(history := w.history + [r], authors := w.authors + [epoch]);
    w'.(live := Some(if outcome.Written? then inner.(head := HeadAfter(r)) else inner.(uncertain := true)))
  }

  // ----------------------------------------------------------------------- runs

  datatype Op =
    | OpOpen(restored: bool, create: Write, watermark: Write)
    | OpGrant(q: GrantRequest, f: Faults)
    | OpCommit(a: Authorization, request: Request, x: Execution, f: Faults)
    | OpKill

  function Step(c: Config, w: World, op: Op): World {
    match op
    case OpOpen(restored, create, watermark) => Open(c, w, restored, create, watermark).0
    case OpGrant(q, f) => GrantWriter(c, w, q, f).0
    case OpCommit(a, q, x, f) => CommitBlock(c, w, a, q, x, f).0
    case OpKill => Crash(w)
  }

  function Run(c: Config, w: World, ops: seq<Op>): World
    decreases |ops|
  {
    if ops == [] then w else Run(c, Step(c, w, ops[0]), ops[1..])
  }

  const Empty: World := World(None, [], [], None)
}
