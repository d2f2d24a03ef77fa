/** When a dependency path stays whole in one archive through collection, and when it is split. */
module CollectionPaths {
  import opened Prelude
  import opened Manifest
  import opened Collection
  import opened ArchiveDisk
  import opened CollectionSafety
  import opened CollectionSurvival

  /** Some intact archive has the whole path. */
  ghost predicate PathWhole(rules: Rules, disk: Disk, path: seq<Blob>) {
    exists at, m :: PathAt(Intact(rules), disk, at, m, path)
  }

  ghost predicate PathAt(test: Test, disk: Disk, at: nat, m: BundleManifest, path: seq<Blob>) {
    test(DirectoryAt(disk, at), m) && HoldsPath(m, path)
  }

  /** For each candidate one keeper has every lasting blob of it and records every edge between them. */
  ghost predicate KeepsPaths(plan: Plan, disk: Disk) {
    forall c :: c in plan.candidates ==> exists k :: k in plan.archives && HoldsEdges(KeeperManifest(disk, k), CandidateManifest(disk, c))
  }

  /** The plan keeps paths, unless it does not pass and changes nothing. */
  ghost predicate KeepsPathsIfRun(rules: Rules, plan: Plan, disk: Disk) {
    Passes(rules, plan, disk) ==> KeepsPaths(plan, disk)
  }

  // --------------------------------------------------------------- what whole means

  ghost predicate PathIn(d: Directory, path: seq<Blob>) {
    (forall i :: 0 <= i < |path| ==> FileHolds(d.blobs, path[i])) && RecordsPath(Read(d.manifest), path)
  }

  /** A whole path can be followed in one directory: every blob is an exact file of its length, and
      every step is recorded there. */
  lemma {:induction false} WholeIsReadable(rules: Rules, disk: Disk, path: seq<Blob>)
    requires PathWhole(rules, disk, path)
    ensures exists at :: PathIn(DirectoryAt(disk, at), path)
  {
    var at, m :| PathAt(Intact(rules), disk, at, m, path);
    var limits :| Archive(rules, limits, DirectoryAt(disk, at), m);
    var copy :| LastingPath(m, copy) && CopyOf(copy, path);
    CopyIsFiles(DirectoryAt(disk, at), m, copy, path);
    CopyIsRecorded(m, copy, path);
  }

  lemma {:induction false} CopyIsFiles(d: Directory, m: BundleManifest, copy: seq<Blob>, path: seq<Blob>)
    requires Holds(d, m) && LastingPath(m, copy) && CopyOf(copy, path)
    ensures forall i :: 0 <= i < |path| ==> FileHolds(d.blobs, path[i])
  {
    forall i | 0 <= i < |path|
      ensures FileHolds(d.blobs, path[i])
    {
      assert FileHolds(d.blobs, copy[i]) && SameBlob(copy[i], path[i]);
    }
  }

  lemma {:induction false} CopyIsRecorded(m: BundleManifest, copy: seq<Blob>, path: seq<Blob>)
    requires LastingPath(m, copy) && CopyOf(copy, path)
    ensures RecordsPath(m, path)
  {
    forall i: nat | i + 1 < |path|
      ensures RecordedAt(m, path, i)
    {
      assert StepAt(copy, i) && SameBlob(copy[i], path[i]) && SameBlob(copy[i + 1], path[i + 1]);
    }
  }

  // ------------------------------------------------------------------------ one run

  lemma {:induction false} HeldByKeeper(k: BundleManifest, m: BundleManifest, path: seq<Blob>)
    requires SortedIds(k.blobs) && HoldsEdges(k, m) && HoldsPath(m, path)
    ensures HoldsPath(k, path)
  {
    var copy :| LastingPath(m, copy) && CopyOf(copy, path);
    PathCopied(k, m, copy);
    var second :| LastingPath(k, second) && CopyOf(second, copy);
    CopyHolds(second, copy, path);
  }

  lemma {:induction false} KeeperHoldsPath(rules: Rules, s: State, plan: Plan, n: nat, c: Catalog, path: seq<Blob>)
    requires Passes(rules, plan, s.disk) && KeepsPaths(plan, s.disk) && c in plan.candidates
    requires HoldsPath(CandidateManifest(s.disk, c), path)
    ensures PathWhole(rules, Run(rules, s, plan, n).disk, path)
  {
    var k :| k in plan.archives && HoldsEdges(KeeperManifest(s.disk, k), CandidateManifest(s.disk, c));
    var m, after := KeeperManifest(s.disk, k), Run(rules, s, plan, n).disk;
    assert KeeperOpens(rules, plan.limits, s.disk, k);
    HeldByKeeper(m, CandidateManifest(s.disk, c), path);
    RunLater(rules, s, plan, n);
    KeeperStays(rules, plan, s.disk, after, k);
    assert PathAt(Intact(rules), after, k.path, m, path);
  }

  lemma {:induction false} OtherArchiveHoldsPath(rules: Rules, s: State, plan: Plan, n: nat, at: nat, m: BundleManifest, path: seq<Blob>)
    requires at !in Paths(plan.candidates) && PathAt(Intact(rules), s.disk, at, m, path)
    ensures PathAt(Intact(rules), Run(rules, s, plan, n).disk, at, m, path)
  {
    RunLater(rules, s, plan, n);
    assert LaterAt(plan.candidates, s.disk, Run(rules, s, plan, n).disk, at);
  }

  lemma {:induction false} CandidateOf(rules: Rules, plan: Plan, disk: Disk, at: nat, m: BundleManifest) returns (c: Catalog)
    requires CandidatesOpen(rules, plan, disk) && at in Paths(plan.candidates) && Intact(rules)(DirectoryAt(disk, at), m)
    ensures c in plan.candidates && c.path == at && CandidateManifest(disk, c) == m
  {
    var i :| 0 <= i < |plan.candidates| && plan.candidates[i].path == at;
    c := plan.candidates[i];
    assert CandidateOpens(rules, plan.limits, disk, c);
  }

  lemma {:induction false} PathSurvivesRun(rules: Rules, s: State, plan: Plan, n: nat, path: seq<Blob>)
    requires PathWhole(rules, s.disk, path) && KeepsPathsIfRun(rules, plan, s.disk)
    ensures PathWhole(rules, Run(rules, s, plan, n).disk, path)
  {
    if Passes(rules, plan, s.disk) {
      var at, m :| PathAt(Intact(rules), s.disk, at, m, path);
      if at in Paths(plan.candidates) {
        var c := CandidateOf(rules, plan, s.disk, at, m);
        KeeperHoldsPath(rules, s, plan, n, c, path);
      } else {
        OtherArchiveHoldsPath(rules, s, plan, n, at, m, path);
      }
    }
  }

  // ----------------------------------------------------------------- every sequence

  /** Every plan of the sequence that passes where it is run keeps paths. */
  ghost predicate AllKeepPaths(rules: Rules, s: State, attempts: seq<Attempt>) {
    forall i: nat :: i < |attempts| ==> AttemptKeepsPaths(rules, s, attempts, i)
  }

  ghost predicate AttemptKeepsPaths(rules: Rules, s: State, attempts: seq<Attempt>, i: nat)
    requires i < |attempts|
  {
    KeepsPathsIfRun(rules, attempts[i].plan, Runs(rules, s, attempts[..i]).disk)
  }

  lemma {:induction false} KeepersBefore(rules: Rules, s: State, attempts: seq<Attempt>, n: nat)
    requires AllKeepPaths(rules, s, attempts) && n < |attempts|
    ensures AllKeepPaths(rules, s, attempts[..n])
    ensures KeepsPathsIfRun(rules, attempts[n].plan, Runs(rules, s, attempts[..n]).disk)
  {
    assert AttemptKeepsPaths(rules, s, attempts, n);
    forall i: nat | i < n
      ensures AttemptKeepsPaths(rules, s, attempts[..n], i)
    {
      assert AttemptKeepsPaths(rules, s, attempts, i) && attempts[..n][..i] == attempts[..i];
    }
  }

  lemma {:induction false} WholePathsStay(rules: Rules, s: State, attempts: seq<Attempt>, path: seq<Blob>)
    requires PathWhole(rules, s.disk, path) && AllKeepPaths(rules, s, attempts)
    ensures PathWhole(rules, Runs(rules, s, attempts).disk, path)
  {
    if attempts != [] {
      var n := |attempts| - 1;
      KeepersBefore(rules, s, attempts, n);
      WholePathsStay(rules, s, attempts[..n], path);
      PathSurvivesRun(rules, Runs(rules, s, attempts[..n]), attempts[n].plan, attempts[n].steps, path);
    }
  }

  /** While every plan has, for each candidate, a keeper that records its lasting edges, every
      dependency path of an intact archive stays whole through any sequence of runs, stopped
      anywhere: one directory has all its blobs as exact files and records all its steps. */
  lemma {:induction false} PathsStayWhole(
      rules: Rules, limits: Limits, s: State, attempts: seq<Attempt>, at: nat, m: BundleManifest, path: seq<Blob>)
    requires Archive(rules, limits, DirectoryAt(s.disk, at), m) && LastingPath(m, path) && AllKeepPaths(rules, s, attempts)
    ensures exists at' :: PathIn(DirectoryAt(Runs(rules, s, attempts).disk, at'), path)
  {
    assert CopyOf(path, path);
    assert PathAt(Intact(rules), s.disk, at, m, path);
    WholePathsStay(rules, s, attempts, path);
    WholeIsReadable(rules, Runs(rules, s, attempts).disk, path);
  }

  /** Plans with a single keeper always do. */
  lemma {:induction false} SingleKeeperKeepsPaths(rules: Rules, plan: Plan, disk: Disk)
    requires Passes(rules, plan, disk) && |plan.archives| == 1
    ensures KeepsPaths(plan, disk)
  {
    var k := plan.archives[0];
    assert KeeperManifests(disk, plan.archives) == [KeeperManifest(disk, k)];
    forall c | c in plan.candidates
      ensures k in plan.archives && HoldsEdges(KeeperManifest(disk, k), CandidateManifest(disk, c))
    {
      OnlyKeeperHolds(KeeperManifest(disk, k), CandidateManifest(disk, c));
    }
  }

  // ----------------------------------------------------------------- a finished run

  /** A path is whole after a finished run if and only if an intact archive that is no candidate of
      the plan had it before. */
  lemma {:induction false} WholeAfterExactly(rules: Rules, s: State, plan: Plan, n: nat, path: seq<Blob>)
    requires Passes(rules, plan, s.disk) && n >= |Actions(s.disk, plan.candidates)|
    ensures PathWhole(rules, Run(rules, s, plan, n).disk, path)
       <==> exists at, m :: at !in Paths(plan.candidates) && PathAt(Intact(rules), s.disk, at, m, path)
  {
    var after := Run(rules, s, plan, n).disk;
    if PathWhole(rules, after, path) {
      var at, m :| PathAt(Intact(rules), after, at, m, path);
      NotACandidate(rules, s, plan, n, at);
      assert PathAt(Intact(rules), s.disk, at, m, path);
    }
    if at, m :| at !in Paths(plan.candidates) && PathAt(Intact(rules), s.disk, at, m, path) {
      OtherArchiveHoldsPath(rules, s, plan, n, at, m, path);
    }
  }

  /** A directory that still has manifest.json after a finished run is no candidate, and as it was. */
  lemma {:induction false} NotACandidate(rules: Rules, s: State, plan: Plan, n: nat, at: nat)
    requires Passes(rules, plan, s.disk) && n >= |Actions(s.disk, plan.candidates)|
    requires DirectoryAt(Run(rules, s, plan, n).disk, at).manifest.Some?
    ensures at !in Paths(plan.candidates) && DirectoryAt(Run(rules, s, plan, n).disk, at) == DirectoryAt(s.disk, at)
  {
    var after := Run(rules, s, plan, n).disk;
    FinishedRun(rules, s, plan, n);
    RunLater(rules, s, plan, n);
    assert LaterAt(plan.candidates, s.disk, after, at);
    if at in Paths(plan.candidates) {
      MarkedHasNoManifest(rules, plan, s.disk, at);
    }
  }

  lemma {:induction false} MarkedHasNoManifest(rules: Rules, plan: Plan, disk: Disk, at: nat)
    requires CandidatesOpen(rules, plan, disk) && at in Paths(plan.candidates)
    ensures Marked(DirectoryAt(disk, at)).manifest.None?
  {
    var i :| 0 <= i < |plan.candidates| && plan.candidates[i].path == at;
    assert plan.candidates[i] in plan.candidates && CandidateOpens(rules, plan.limits, disk, plan.candidates[i]);
  }
}
