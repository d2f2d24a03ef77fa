/** No collection loses history: whatever an intact archive held for good is, after any sequence of
    runs, in an intact archive. */
module CollectionSurvival {
  import opened Prelude
  import opened Manifest
  import opened Collection
  import opened ArchiveDisk
  import opened CollectionSafety

  /** A test of a directory against a manifest. */
  type Test = (Directory, BundleManifest) -> bool

  /** An archive that opens for reading, under some limits. */
  ghost function Intact(rules: Rules): Test {
    (d, m) => exists limits :: Archive(rules, limits, d, m)
  }

  /** Some directory that passes the test has this session, or one that extends it. */
  ghost predicate SessionKept(test: Test, disk: Disk, s: Session) {
    exists path, m, kept :: SessionAt(test, disk, path, m, kept) && kept.id == s.id && Continues(kept, s)
  }

  ghost predicate SessionAt(test: Test, disk: Disk, path: nat, m: BundleManifest, s: Session) {
    test(DirectoryAt(disk, path), m) && s in m.sessions
  }

  /** Some directory that passes the test has this blob, with its length, all its roles and all its
      dependencies. */
  ghost predicate BlobKept(test: Test, disk: Disk, blob: Blob) {
    exists path, m, kept :: BlobAt(test, disk, path, m, kept) && kept.id == blob.id && Preserves(kept, blob)
  }

  ghost predicate BlobAt(test: Test, disk: Disk, path: nat, m: BundleManifest, blob: Blob) {
    test(DirectoryAt(disk, path), m) && blob in m.blobs
  }

  // -------------------------------------------------------------------- one run

  /** A change of the disk that touches only directories covered by others it does not touch. */
  ghost predicate CoveredChange(test: Test, disk: Disk, disk': Disk, touched: seq<nat>, kept: seq<nat>, keepers: seq<BundleManifest>) {
    && |kept| == |keepers|
    && (forall path :: path !in touched ==> DirectoryAt(disk', path) == DirectoryAt(disk, path))
    && (forall path, m :: path in touched && test(DirectoryAt(disk, path), m) ==> Covered(keepers, m))
    && (forall k :: 0 <= k < |keepers| ==> test(DirectoryAt(disk', kept[k]), keepers[k]))
  }

  lemma {:induction false} SessionSurvivesChange(
      test: Test, disk: Disk, disk': Disk, touched: seq<nat>, paths: seq<nat>, keepers: seq<BundleManifest>, x: Session)
    requires CoveredChange(test, disk, disk', touched, paths, keepers) && SessionKept(test, disk, x)
    ensures SessionKept(test, disk', x)
  {
    var path, m, kept :| SessionAt(test, disk, path, m, kept) && kept.id == x.id && Continues(kept, x);
    if path in touched {
      assert test(DirectoryAt(disk, path), m) && Covered(keepers, m) && SessionCovered(keepers, kept);
      var next :| SessionKeptIn(keepers, next) && next.id == kept.id && Continues(next, kept);
      var k :| 0 <= k < |keepers| && next in keepers[k].sessions;
      assert SessionAt(test, disk', paths[k], keepers[k], next);
    } else {
      assert SessionAt(test, disk', path, m, kept);
    }
  }

  lemma {:induction false} BlobSurvivesChange(
      test: Test, disk: Disk, disk': Disk, touched: seq<nat>, paths: seq<nat>, keepers: seq<BundleManifest>, blob: Blob)
    requires CoveredChange(test, disk, disk', touched, paths, keepers) && BlobKept(test, disk, blob) && Lasting(blob)
    ensures BlobKept(test, disk', blob)
  {
    var path, m, kept :| BlobAt(test, disk, path, m, kept) && kept.id == blob.id && Preserves(kept, blob);
    if path in touched {
      assert test(DirectoryAt(disk, path), m) && Covered(keepers, m) && Lasting(kept) && BlobCovered(keepers, kept);
      var next :| KeptIn(keepers, next) && next.id == kept.id && Preserves(next, kept);
      var k :| 0 <= k < |keepers| && next in keepers[k].blobs;
      assert BlobAt(test, disk', paths[k], keepers[k], next);
    } else {
      assert BlobAt(test, disk', path, m, kept);
    }
  }

  /** An intact candidate of a passing plan is the one whose coverage was checked. */
  lemma {:induction false} IntactCandidate(rules: Rules, disk: Disk, plan: Plan, path: nat, m: BundleManifest)
    requires CandidatesOpen(rules, plan, disk) && CandidatesCovered(plan, disk)
    requires path in Paths(plan.candidates) && DirectoryAt(disk, path).manifest == Some(Readable(m))
    ensures Covered(KeeperManifests(disk, plan.archives), m)
  {
    var k :| 0 <= k < |plan.candidates| && plan.candidates[k].path == path;
    var c := plan.candidates[k];
    assert c in plan.candidates && CandidateOpens(rules, plan.limits, disk, c);
    assert CandidateManifest(disk, c) == m;
  }

  /** Every run of a passing plan, wherever it stops, is such a change. */
  lemma {:induction false} RunIsCoveredChange(rules: Rules, s: State, plan: Plan, n: nat)
    requires Passes(rules, plan, s.disk)
    ensures CoveredChange(Intact(rules), s.disk, Run(rules, s, plan, n).disk,
              Paths(plan.candidates), Paths(plan.archives), KeeperManifests(s.disk, plan.archives))
  {
    var disk' := Run(rules, s, plan, n).disk;
    RunLater(rules, s, plan, n);
    forall path | path !in Paths(plan.candidates)
      ensures DirectoryAt(disk', path) == DirectoryAt(s.disk, path)
    {
      assert LaterAt(plan.candidates, s.disk, disk', path);
    }
    forall path, m | path in Paths(plan.candidates) && Intact(rules)(DirectoryAt(s.disk, path), m)
      ensures Covered(KeeperManifests(s.disk, plan.archives), m)
    {
      IntactCandidate(rules, s.disk, plan, path, m);
    }
    forall k | 0 <= k < |plan.archives|
      ensures Intact(rules)(DirectoryAt(disk', plan.archives[k].path), KeeperManifest(s.disk, plan.archives[k]))
    {
      KeeperStays(rules, plan, s.disk, disk', plan.archives[k]);
    }
  }

  lemma {:induction false} KeeperStays(rules: Rules, plan: Plan, disk: Disk, disk': Disk, c: Catalog)
    requires Separate(plan) && DiskLater(plan.candidates, disk, disk') && c in plan.archives && KeeperOpens(rules, plan.limits, disk, c)
    ensures Archive(rules, plan.limits, DirectoryAt(disk', c.path), KeeperManifest(disk, c))
  {
    KeepersApart(plan, c);
    assert LaterAt(plan.candidates, disk, disk', c.path);
  }

  // ---------------------------------------------------------------- what intact means

  /** A file with the content its name says. */
  ghost predicate Exact(d: Directory, id: Hash32) {
    id in d.blobs && d.blobs[id].digest == id
  }

  lemma {:induction false} RoleIsFile(d: Directory, m: BundleManifest, id: Hash32, role: BlobKind)
    requires Holds(d, m) && HasRole(m, id, role)
    ensures Exact(d, id)
  {
    var b :| b in m.blobs && b.id == id && role in b.roles;
    assert FileHolds(d.blobs, b);
  }

  /** In an intact archive every block of every session is an exact file, and so are the genesis and
      the consensus record. */
  lemma {:induction false} SessionIsWhole(rules: Rules, limits: Limits, d: Directory, m: BundleManifest, s: Session)
    requires Archive(rules, limits, d, m) && s in m.sessions
    ensures Exact(d, s.genesis) && Exact(d, s.consensus) && forall h :: h in s.blocks ==> Exact(d, h)
  {
    assert SessionNamed(m, s);
    RoleIsFile(d, m, s.genesis, Genesis);
    RoleIsFile(d, m, s.consensus, Consensus);
    forall h | h in s.blocks
      ensures Exact(d, h)
    {
      RoleIsFile(d, m, h, Block);
    }
  }

  /** In an intact archive every blob is an exact file of its length, next to exact files of all its
      dependencies: the inventory checks leave no dependency outside the manifest. */
  lemma {:induction false} BlobIsWhole(rules: Rules, limits: Limits, d: Directory, m: BundleManifest, blob: Blob)
    requires Archive(rules, limits, d, m) && blob in m.blobs
    ensures FileHolds(d.blobs, blob) && forall need :: need in blob.dependencies ==> Exact(d, need)
  {
    var i :| 0 <= i < |m.blobs| && m.blobs[i] == blob;
    NoErrorBefore(m.blobs, limits, i, |m.blobs|);
    forall need | need in blob.dependencies
      ensures Exact(d, need)
    {
      assert Contains(m.blobs, need);
      var j :| 0 <= j < |m.blobs| && m.blobs[j].id == need;
      assert m.blobs[j] in m.blobs && FileHolds(d.blobs, m.blobs[j]);
    }
  }

  // ------------------------------------------------------------------- every sequence

  /** One directory holds a history that extends this session's, block for block, with its genesis
      and consensus record. */
  ghost predicate HistoryReadable(disk: Disk, s: Session) {
    exists path, kept: Session :: HistoryIn(DirectoryAt(disk, path), kept, s)
  }

  ghost predicate HistoryIn(d: Directory, kept: Session, s: Session) {
    && kept.id == s.id && Continues(kept, s) && Exact(d, s.genesis) && Exact(d, s.consensus)
    && forall h :: h in kept.blocks ==> Exact(d, h)
  }

  lemma {:induction false} SessionsSurvive(rules: Rules, s: State, attempts: seq<Attempt>, x: Session)
    requires SessionKept(Intact(rules), s.disk, x)
    ensures SessionKept(Intact(rules), Runs(rules, s, attempts).disk, x)
  {
    if attempts != [] {
      var n := |attempts| - 1;
      var before, plan := Runs(rules, s, attempts[..n]), attempts[n].plan;
      SessionsSurvive(rules, s, attempts[..n], x);
      if Passes(rules, plan, before.disk) {
        RunIsCoveredChange(rules, before, plan, attempts[n].steps);
        SessionSurvivesChange(Intact(rules), before.disk, Runs(rules, s, attempts).disk,
          Paths(plan.candidates), Paths(plan.archives), KeeperManifests(before.disk, plan.archives), x);
      }
    }
  }

  lemma {:induction false} BlobsSurvive(rules: Rules, s: State, attempts: seq<Attempt>, blob: Blob)
    requires BlobKept(Intact(rules), s.disk, blob) && Lasting(blob)
    ensures BlobKept(Intact(rules), Runs(rules, s, attempts).disk, blob)
  {
    if attempts != [] {
      var n := |attempts| - 1;
      var before, plan := Runs(rules, s, attempts[..n]), attempts[n].plan;
      BlobsSurvive(rules, s, attempts[..n], blob);
      if Passes(rules, plan, before.disk) {
        RunIsCoveredChange(rules, before, plan, attempts[n].steps);
        BlobSurvivesChange(Intact(rules), before.disk, Runs(rules, s, attempts).disk,
          Paths(plan.candidates), Paths(plan.archives), KeeperManifests(before.disk, plan.archives), blob);
      }
    }
  }

  lemma {:induction false} KeptIsReadable(rules: Rules, disk: Disk, x: Session)
    requires SessionKept(Intact(rules), disk, x)
    ensures HistoryReadable(disk, x)
  {
    var path, m, kept :| SessionAt(Intact(rules), disk, path, m, kept) && kept.id == x.id && Continues(kept, x);
    var limits :| Archive(rules, limits, DirectoryAt(disk, path), m);
    SessionIsWhole(rules, limits, DirectoryAt(disk, path), m, kept);
    assert HistoryIn(DirectoryAt(disk, path), kept, x);
  }

  /** The whole history of a session of an intact archive can be read from one directory after any
      sequence of runs, of any plans, stopped anywhere. */
  lemma {:induction false} HistoriesSurvive(
      rules: Rules, limits: Limits, s: State, attempts: seq<Attempt>, path: nat, m: BundleManifest, x: Session)
    requires Archive(rules, limits, DirectoryAt(s.disk, path), m) && x in m.sessions
    ensures HistoryReadable(Runs(rules, s, attempts).disk, x)
  {
    assert SessionAt(Intact(rules), s.disk, path, m, x);
    SessionsSurvive(rules, s, attempts, x);
    KeptIsReadable(rules, Runs(rules, s, attempts).disk, x);
  }

  /** One directory holds the blob's file, a descriptor that preserves it, and the files of its
      dependencies. */
  ghost predicate BlobReadable(disk: Disk, blob: Blob) {
    exists path :: BlobIn(DirectoryAt(disk, path), blob)
  }

  ghost predicate BlobIn(d: Directory, blob: Blob) {
    && FileHolds(d.blobs, blob) && (forall need :: need in blob.dependencies ==> Exact(d, need))
    && exists kept :: kept in Read(d.manifest).blobs && kept.id == blob.id && Preserves(kept, blob)
  }

  lemma {:induction false} PreservedIsIn(rules: Rules, limits: Limits, d: Directory, m: BundleManifest, kept: Blob, blob: Blob)
    requires Archive(rules, limits, d, m) && kept in m.blobs && kept.id == blob.id && Preserves(kept, blob)
    ensures BlobIn(d, blob)
  {
    BlobIsWhole(rules, limits, d, m, kept);
    assert Read(d.manifest) == m;
  }

  lemma {:induction false} KeptBlobIsReadable(rules: Rules, disk: Disk, blob: Blob)
    requires BlobKept(Intact(rules), disk, blob)
    ensures BlobReadable(disk, blob)
  {
    var path, m, kept :| BlobAt(Intact(rules), disk, path, m, kept) && kept.id == blob.id && Preserves(kept, blob);
    var limits :| Archive(rules, limits, DirectoryAt(disk, path), m);
    PreservedIsIn(rules, limits, DirectoryAt(disk, path), m, kept, blob);
  }

  /** Every blob of an intact archive that is more than an operational snapshot is, after any sequence
      of runs, an exact file of its length, recorded with its roles and dependencies, next to the
      files it depends on: so each single dependency of it can still be followed in one directory. */
  lemma {:induction false} LastingBlobsSurvive(
      rules: Rules, limits: Limits, s: State, attempts: seq<Attempt>, path: nat, m: BundleManifest, blob: Blob)
    requires Archive(rules, limits, DirectoryAt(s.disk, path), m) && blob in m.blobs && Lasting(blob)
    ensures BlobReadable(Runs(rules, s, attempts).disk, blob)
  {
    assert BlobAt(Intact(rules), s.disk, path, m, blob);
    BlobsSurvive(rules, s, attempts, blob);
    KeptBlobIsReadable(rules, Runs(rules, s, attempts).disk, blob);
  }

  // ------------------------------------------------------------------ while a plan runs

  lemma {:induction false} CoveredNow(rules: Rules, plan: Plan, disk: Disk, m: BundleManifest, blob: Blob)
    requires KeepersOpen(rules, plan, disk) && Covered(KeeperManifests(disk, plan.archives), m)
    requires blob in m.blobs && !IsSnapshot(m, blob)
    ensures exists k :: k in plan.archives && BlobIn(DirectoryAt(disk, k.path), blob)
  {
    var keepers := KeeperManifests(disk, plan.archives);
    assert BlobCovered(keepers, blob);
    var kept :| KeptIn(keepers, kept) && kept.id == blob.id && Preserves(kept, blob);
    var k :| 0 <= k < |keepers| && kept in keepers[k].blobs;
    assert plan.archives[k] in plan.archives && KeeperOpens(rules, plan.limits, disk, plan.archives[k]);
    PreservedIsIn(rules, plan.limits, DirectoryAt(disk, plan.archives[k].path), keepers[k], kept, blob);
  }

  /** On every disk that a passing plan and its restarts can leave, each blob of a candidate that is
      not a superseded snapshot is an exact file of one of the plan's keepers. */
  lemma {:induction false} CoveredThroughout(
      rules: Rules, s: State, plan: Plan, attempts: seq<Attempt>, c: Catalog, blob: Blob)
    requires Passes(rules, plan, s.disk) && SamePlan(attempts, plan)
    requires c in plan.candidates && blob in CandidateManifest(s.disk, c).blobs && !IsSnapshot(CandidateManifest(s.disk, c), blob)
    ensures exists k :: k in plan.archives && BlobIn(DirectoryAt(Runs(rules, s, attempts).disk, k.path), blob)
  {
    var disk := Runs(rules, s, attempts).disk;
    RestartPasses(rules, s, plan, attempts);
    SameManifests(plan, s.disk, disk);
    CoveredNow(rules, plan, disk, CandidateManifest(disk, c), blob);
  }

  /** The block a database points at is an exact file of an intact archive with the pinned identity. */
  ghost predicate PinReads(rules: Rules, disk: Disk, pin: Pin) {
    exists limits, path, m :: PinReadsAt(rules, limits, DirectoryAt(disk, path), m, pin)
  }

  ghost predicate PinReadsAt(rules: Rules, limits: Limits, d: Directory, m: BundleManifest, pin: Pin) {
    && Archive(rules, limits, d, m) && rules.commitment(m) == pin.archive
    && pin.blob in d.blobs && d.blobs[pin.blob] == File(pin.blob, pin.bytes)
  }

  lemma {:induction false} ResolvedPinReads(rules: Rules, plan: Plan, disk: Disk, pin: Pin)
    requires KeepersOpen(rules, plan, disk) && PinResolves(disk, plan.archives, pin)
    ensures PinReads(rules, disk, pin)
  {
    var c :| c in plan.archives && c.commitment == pin.archive && NamesBlock(KeeperManifest(disk, c), pin);
    var d, m := DirectoryAt(disk, c.path), KeeperManifest(disk, c);
    assert KeeperOpens(rules, plan.limits, disk, c);
    var b :| b in m.blobs && b.id == pin.blob && b.bytes == pin.bytes;
    assert FileHolds(d.blobs, b);
    assert PinReadsAt(rules, plan.limits, d, m, pin);
  }

  /** If every plan lists a database, then after any sequence of runs each of its pins still reads
      back the block it points at. */
  lemma {:induction false} PinsSurvive(rules: Rules, s: State, attempts: seq<Attempt>, path: nat, pin: Pin)
    requires forall k :: 0 <= k < |attempts| ==> path in attempts[k].plan.databases
    requires path in s.disk.databases && pin in s.disk.databases[path] && PinReads(rules, s.disk, pin)
    ensures var after := Runs(rules, s, attempts).disk;
      after.databases == s.disk.databases && PinReads(rules, after, pin)
  {
    if attempts != [] {
      var n := |attempts| - 1;
      var before, plan := Runs(rules, s, attempts[..n]), attempts[n].plan;
      PinsSurvive(rules, s, attempts[..n], path, pin);
      RunLater(rules, before, plan, attempts[n].steps);
      if Passes(rules, plan, before.disk) {
        var after := Runs(rules, s, attempts).disk;
        StillPasses(rules, plan, before.disk, after);
        assert DatabaseKept(after, plan.archives, path);
        ResolvedPinReads(rules, plan, after, pin);
      }
    }
  }
}
