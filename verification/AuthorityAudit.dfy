/** What the audit of the two stores asks for, told from the stored values alone. */
module AuthorityAudit {
  import opened Prelude
  import opened Authority
  import opened AuthorityProofs
  import opened AuthorityMeaning

  /** Grant i is the newest whose first height is not above h; every later one starts above it. */
  ghost predicate InForce(grants: seq<Grant>, h: nat, i: nat) {
    && i < |grants| && StartsBy(grants[i], h)
    && forall j :: i < j < |grants| ==> grants[j].request.anchor.Decodes? && !StartsBy(grants[j], h)
  }

  /** The block after the grant's anchor is at or below h. */
  ghost predicate StartsBy(g: Grant, h: nat) {
    g.request.anchor.Decodes? && match g.request.anchor.head.finalisedHeight
                                 case None => true
                                 case Some(last) => last < h
  }

  /** Attribution picks exactly the grant in force at the height. */
  lemma {:induction false} AttributionExactly(grants: seq<Grant>, h: nat, g: Grant)
    ensures GrantFor(grants, h) == Some(g) <==> exists i: nat :: InForce(grants, h, i) && grants[i] == g
  {
    if grants != [] {
      var n := |grants| - 1;
      var front, last := grants[..n], grants[n];
      if StartsBy(last, h) {
        assert InForce(grants, h, n);
      } else if last.request.anchor.Decodes? {
        AttributionExactly(front, h, g);
        forall i: nat
          ensures InForce(grants, h, i) <==> InForce(front, h, i)
        {
          LaterStarts(grants, h, i);
        }
      }
    }
  }

  lemma {:induction false} LaterStarts(grants: seq<Grant>, h: nat, i: nat)
    requires grants != [] && grants[|grants| - 1].request.anchor.Decodes? && !StartsBy(grants[|grants| - 1], h)
    ensures InForce(grants, h, i) <==> InForce(grants[..|grants| - 1], h, i)
  {
    var front := grants[..|grants| - 1];
    assert forall j :: 0 <= j < |front| ==> front[j] == grants[j];
  }

  /** The head before any block, or the head right after stored block h. */
  ghost predicate CanonicalAnchor(c: Config, history: seq<Record>, a: Head) {
    match a.finalisedHeight
    case None => a == c.initialHead
    case Some(h) =>
      && h < |history|
      && var r := history[h];
         a == Head(r.sessionId, Some(h), r.hash, r.stateRootAfter, r.timestampMs, r.inputEnd, r.logicalTimeEnd, None)
  }

  /** The i-th grant is the administrator's own move from epoch i to i + 1, from a canonical head no
      earlier than the grant before it. */
  ghost predicate GrantStands(c: Config, o: Ownership, history: seq<Record>, i: nat)
    requires i < |o.grants|
  {
    var g := o.grants[i];
    && g.epoch == i + 1 && g.request.expectedEpoch == i && g.request.policy == o.policy
    && o.policy.administrator.Point?
    && g.request.signature == SignedBy(o.policy.administrator, GrantDigest(o.policy, i, g.request.owner, g.request.anchor))
    && g.request.anchor.Decodes? && g.request.anchor.head.sealedBySuccessor.None?
    && CanonicalAnchor(c, history, g.request.anchor.head)
    && (i > 0 ==> o.grants[i - 1].request.anchor.Decodes?
                  && NotLater(o.grants[i - 1].request.anchor.head, g.request.anchor.head))
  }

  ghost predicate NotLater(a: Head, b: Head) {
    match a.finalisedHeight
    case None => true
    case Some(h) => b.finalisedHeight.Some? && h <= b.finalisedHeight.value
  }

  /** The block carries the stamp of the grant in force at its height, asked for exactly once. */
  ghost predicate BlockStands(o: Ownership, r: Record) {
    exists i: nat :: InForce(o.grants, r.number, i) && StampedBy(r, o.grants[i])
  }

  ghost predicate StampedBy(r: Record, g: Grant) {
    var stamp := Stamp(g.request.policy, g.epoch, g.request.owner, r.number, r.parentHash);
    multiset(r.requestDataCommitments)[stamp] == 1 && stamp in r.dataCommitments
  }

  lemma {:induction false} AnchorExactly(c: Config, history: seq<Record>, a: Head)
    requires ValidConfig(c)
    ensures ExpectedAnchor(c, history, a) == Some(a) <==> CanonicalAnchor(c, history, a)
  {
  }

  lemma {:induction false} GrantExactlyStands(c: Config, o: Ownership, history: seq<Record>, i: nat)
    requires ValidConfig(c) && i < |o.grants|
    ensures GrantAudits(c, o, history, i) <==> GrantStands(c, o, history, i)
  {
    var g := o.grants[i];
    if g.request.anchor.Decodes? { AnchorExactly(c, history, g.request.anchor.head); }
  }

  lemma {:induction false} BlockExactlyStands(o: Ownership, r: Record)
    ensures BlockAudits(o, r) <==> BlockStands(o, r)
  {
    if BlockAudits(o, r) {
      var g := GrantFor(o.grants, r.number).value;
      AttributionExactly(o.grants, r.number, g);
      StampExactly(r, g);
    }
    if i: nat :| InForce(o.grants, r.number, i) && StampedBy(r, o.grants[i]) {
      AttributionExactly(o.grants, r.number, o.grants[i]);
      StampExactly(r, o.grants[i]);
    }
  }

  lemma {:induction false} StampExactly(r: Record, g: Grant)
    ensures CheckStamp(r, g) <==> StampedBy(r, g)
  {
    OccurrencesCount(r.requestDataCommitments, StampOf(g, r.number, r.parentHash));
  }

  /** On any stores, tampered ones included, the audit passes exactly when every grant is the
      administrator's next move from a canonical head and every block carries the stamp of the grant
      in force at its height. */
  lemma {:induction false} AuditExactly(c: Config, o: Ownership, history: seq<Record>)
    requires ValidConfig(c)
    ensures Audits(c, o, history) <==>
      && (forall i: nat :: i < |o.grants| ==> GrantStands(c, o, history, i))
      && (forall h :: 0 <= h < |history| ==> BlockStands(o, history[h]))
  {
    forall i: nat | i < |o.grants|
      ensures GrantAudits(c, o, history, i) <==> GrantStands(c, o, history, i)
    {
      GrantExactlyStands(c, o, history, i);
    }
    forall h | 0 <= h < |history|
      ensures BlockAudits(o, history[h]) <==> BlockStands(o, history[h])
    {
      BlockExactlyStands(o, history[h]);
    }
  }
}
