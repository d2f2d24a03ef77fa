/** When a healthy authority says yes, in terms of the two durable stores alone. */
module AuthorityMeaning {
  import opened Prelude
  import opened Authority
  import opened AuthorityProofs

  ghost predicate Healthy(c: Config, w: World) {
    ValidConfig(c) && Inv(c, w) && w.live.Some? && !w.live.value.uncertain
  }

  /** A worker key: usable, and none of the keys with another duty. */
  ghost predicate WorkerKey(c: Config, key: PublicKey) {
    key.Point? && key != c.policy.administrator && key != c.policy.certificateKey && key != c.finalityKey
  }

  /** The request that made the newest grant, sent again. */
  ghost predicate Repeats(w: World, q: GrantRequest) {
    Grants(w) != [] && Grants(w)[|Grants(w)| - 1].request == q
  }

  /** The administrator moves ownership on from the epoch and the head the stores are at. */
  ghost predicate MovesOn(c: Config, w: World, q: GrantRequest) {
    && q.expectedEpoch == |Grants(w)| < 1024 && q.anchor == Decodes(HeadOf(c, w.history)) && WorkerKey(c, q.owner)
  }

  /** A grant is given exactly to a signed request that repeats the newest one or moves on from
      it; a repeat changes nothing, and a new one adds the next epoch and touches no block. */
  lemma {:induction false} GrantExactly(c: Config, w: World, q: GrantRequest)
    requires Healthy(c, w)
    ensures var (w', r) := GrantWriter(c, w, q, NoFaults);
      && (r.Ok? <==>
            && q.policy == c.policy && Verifies(c.policy.administrator, GrantContent(q), q.signature)
            && (Repeats(w, q) || MovesOn(c, w, q)))
      && w'.history == w.history && w'.authors == w.authors
      && (r.Err? || Repeats(w, q) ==> w' == w)
      && (r.Ok? ==> r.value == Grants(w')[|Grants(w')| - 1] && r.value.request == q)
      && (r.Ok? && !Repeats(w, q) ==> Grants(w') == Grants(w) + [Grant(|Grants(w)| + 1, q)])
  {
    if Grants(w) != [] { LastEpoch(c, w.live.value.ownership, w.history); }
  }

  /** The submission is the current owner's, for the block after the canonical head, and does not
      already carry the stamp the authority adds. */
  ghost predicate MaySubmit(c: Config, w: World, a: Authorization, q: Request) {
    && Grants(w) != []
    && var g := Grants(w)[|Grants(w)| - 1];
       var head := HeadOf(c, w.history);
       && a.policy == c.policy && a.epoch == |Grants(w)| && a.owner == g.request.owner
       && Verifies(a.owner, CommitContent(a), a.signature)
       && a.baseHead == Decodes(head) && a.request == q && !q.successor
       && StampOf(g, |w.history|, head.blockHash) !in q.dataCommitments
  }

  /** The commands are well formed, new, and continue the input at the canonical head. */
  ghost predicate Executes(c: Config, w: World, q: Request, x: Execution) {
    var head := HeadOf(c, w.history);
    && x.ok && head.sealedBySuccessor.None?
    && (forall i :: 0 <= i < |q.commands| ==> q.commands[i].id != 0 && q.commands[i].payloadHash != 0)
    && (forall i, j :: 0 <= i < j < |q.commands| ==> q.commands[i].id != q.commands[j].id)
    && (forall k :: k in q.commands ==> !HasCommand(w.history, k.id))
    && q.startPosition == head.inputPosition <= q.endPosition
    && (q.commands != [] ==> |q.commands| == q.endPosition - q.startPosition)
  }

  lemma {:induction false} AuthorizedExactly(c: Config, w: World, a: Authorization, q: Request)
    requires Healthy(c, w)
    ensures Authorized(c, w.live.value, a, q).Ok? <==> MaySubmit(c, w, a, q)
    ensures MaySubmit(c, w, a, q) ==> Authorized(c, w.live.value, a, q).value == Grants(w)[|Grants(w)| - 1]
  {
    HeadHeight(c, w.history);
    if Grants(w) != [] { LastEpoch(c, w.live.value.ownership, w.history); }
  }

  lemma {:induction false} PreparesExactly(c: Config, w: World, q: Request, x: Execution, stamp: Commitment)
    requires Healthy(c, w)
    ensures Prepare(w.live.value.head, w.history, q.(dataCommitments := q.dataCommitments + [stamp]), x).Some?
        <==> Executes(c, w, q, x)
  {
  }

  /** Without faults a submission is committed exactly when it may be submitted and executes; it
      then appends one block under the current epoch, and otherwise changes nothing. */
  lemma {:induction false} CommitExactly(c: Config, w: World, a: Authorization, q: Request, x: Execution)
    requires Healthy(c, w) && x.hash != 0
    ensures var (w', r) := CommitBlock(c, w, a, q, x, NoFaults);
      && (r.Ok? <==> MaySubmit(c, w, a, q) && Executes(c, w, q, x))
      && (r.Err? ==> w' == w)
      && (r.Ok? ==>
            && |w'.history| == |w.history| + 1 && w.history <= w'.history && w'.authors == w.authors + [|Grants(w)|]
            && r.value == Receipt(c.policy, |Grants(w)|, a.owner, |w.history|, x.hash, x.stateRoot))
  {
    AuthorizedExactly(c, w, a, q);
    if MaySubmit(c, w, a, q) {
      var g := Authorized(c, w.live.value, a, q).value;
      var stamp := StampOf(g, NextHeight(w.live.value.head), w.live.value.head.blockHash);
      PreparesExactly(c, w, q, x, stamp);
      if Executes(c, w, q, x) {
        HealthyCommitSucceeds(c, w, a, q, x);
      }
    }
  }

  // -------------------------------------------------------------------- opening

  /** One block further in the same session, open, and with a real hash. */
  ghost predicate Follows(before: Head, next: Head) {
    && next.sessionId == before.sessionId && next.sealedBySuccessor.None? && next.blockHash != 0
    && next.finalisedHeight == Some(if before.finalisedHeight.None? then 0 else before.finalisedHeight.value + 1)
  }

  /** The record and the chain head agree: nothing pending and equal, or one exact step pending
      that the chain has or has not taken. */
  ghost predicate Agrees(o: Ownership, head: Head) {
    match o.pendingHead
    case None => head == o.canonicalHead
    case Some(next) => Follows(o.canonicalHead, next) && (head == o.canonicalHead || head == next)
  }

  ghost predicate MayRecover(c: Config, o: Ownership, history: seq<Record>) {
    o.policy == c.policy && |o.grants| <= 1024 && Audits(c, o, history) && Agrees(o, HeadOf(c, history))
  }

  /** On any stores at all, tampered ones included, opening succeeds exactly when the record is
      this policy's, audits against the history and agrees with its head; the process that comes
      up has caught up with both. */
  lemma {:induction false} OpenExactly(c: Config, w: World)
    requires w.live.None?
    ensures var (w', r) := Open(c, w, true, Written, Written);
      && (r.Ok? <==>
            if w.ownership.Some? then MayRecover(c, w.ownership.value, w.history)
            else w.history == [] && MayRecover(c, Ownership(c.policy, [], c.initialHead, None), w.history))
      && w'.history == w.history && w'.authors == w.authors
      && (r.Ok? ==> w'.live.Some? && !w'.live.value.uncertain && LiveMatches(c, w'))
      && (r.Err? ==> r.error == Invalid && w'.live.None?)
  {
    var o := if w.ownership.Some? then w.ownership.value else Ownership(c.policy, [], c.initialHead, None);
    var up := World(Some(o), w.history, w.authors, Some(Inner(o, HeadOf(c, w.history), false)));
    assert ReconcilePending(up, Written).1.Ok? <==> Agrees(o, HeadOf(c, w.history));
  }

  // --------------------------------------------------------------------- stamps

  lemma {:induction false} OccurrencesCount(cs: seq<Commitment>, x: Commitment)
    ensures Occurrences(cs, x) == multiset(cs)[x]
  {
    if cs != [] {
      OccurrencesCount(cs[1..], x);
      assert cs == [cs[0]] + cs[1..];
    }
  }

  /** In every reachable world each block carries the stamp of the grant that authorised it, for
      its own height and parent, exactly once among the commitments it was asked for. */
  lemma {:induction false} StampedOnce(c: Config, ops: seq<Op>, h: nat)
    requires ValidConfig(c) && (forall op :: op in ops ==> ValidOp(op)) && h < |Run(c, Empty, ops).history|
    ensures var w := Run(c, Empty, ops);
      && h < |w.authors| && 1 <= w.authors[h] <= |Grants(w)|
      && var g, r := Grants(w)[w.authors[h] - 1], w.history[h];
         var stamp := Stamp(c.policy, w.authors[h], g.request.owner, h, r.parentHash);
         multiset(r.requestDataCommitments)[stamp] == 1 && stamp in r.dataCommitments
  {
    RunInv(c, Empty, ops);
    var w := Run(c, Empty, ops);
    var o, r := w.ownership.value, w.history[h];
    var g := o.grants[w.authors[h] - 1];
    assert r.number == h && GrantFor(o.grants, h) == Some(g);
    assert BlockAudits(o, r);
    assert GrantAudits(c, o, w.history, w.authors[h] - 1);
    OccurrencesCount(r.requestDataCommitments, StampOf(g, h, r.parentHash));
  }
}
