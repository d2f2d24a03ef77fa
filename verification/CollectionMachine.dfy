/** The collection command as it runs: check everything, then mark and unlink file by file. */
module CollectionMachine {
  import opened Prelude
  import opened Manifest
  import opened Collection
  import opened ArchiveDisk
  import opened CollectionSafety

  // ------------------------------------------------------------------------ checks

  function BlobIds(blobs: seq<Blob>): (s: seq<Hash32>)
    ensures |s| == |blobs| && forall i :: 0 <= i < |s| ==> s[i] == blobs[i].id
  {
    seq(|blobs|, i requires 0 <= i < |blobs| => blobs[i].id)
  }

  method NoRepeat(ids: seq<Hash32>) returns (ok: bool)
    ensures ok <==> DistinctSeq(ids)
  {
    var seen: set<Hash32> := {};
    for i := 0 to |ids|
      invariant DistinctSeq(ids[..i]) && forall x :: x in seen <==> x in ids[..i]
    {
      assert ids[..i + 1] == ids[..i] + [ids[i]];
      if ids[i] in seen {
        var k :| 0 <= k < i && ids[..i][k] == ids[i];
        assert ids[k] == ids[i];
        return false;
      }
      seen := seen + {ids[i]};
    }
    assert ids[..|ids|] == ids;
    ok := true;
  }

  method CheckSession(m: BundleManifest, s: Session) returns (ok: bool)
    ensures ok <==> SessionNamed(m, s) && SessionLists(s)
  {
    var blocks := NoRepeat(s.blocks);
    var handoffs := NoRepeat(s.handoffs);
    var evidence := NoRepeat(s.evidence);
    var runtime := SortedUnique(s.execution.runtime);
    ok := SessionNamed(m, s) && blocks && handoffs && evidence && runtime;
  }

  /** Every session, and the blocks they have together. */
  method CheckInventories(m: BundleManifest, limit: nat) returns (ok: bool)
    ensures ok <==> (forall s :: s in m.sessions ==> SessionNamed(m, s) && SessionLists(s)) && BlockCount(m.sessions) <= limit
  {
    var count := 0;
    for i := 0 to |m.sessions|
      invariant count == BlockCount(m.sessions[..i])
      invariant forall k :: 0 <= k < i ==> SessionNamed(m, m.sessions[k]) && SessionLists(m.sessions[k])
    {
      assert m.sessions[i] in m.sessions && m.sessions[..i + 1][..i] == m.sessions[..i];
      ok := CheckSession(m, m.sessions[i]);
      if !ok {
        return;
      }
      count := count + |m.sessions[i].blocks|;
    }
    assert m.sessions[..|m.sessions|] == m.sessions;
    ok := count <= limit;
  }

  method CheckListed(limits: Limits, m: BundleManifest) returns (ok: bool)
    ensures ok <==> Listed(limits, m)
  {
    var blobs := SortedUnique(BlobIds(m.blobs));
    var sessions := SortedUnique(SessionIds(m));
    var roots := SortedUnique(m.roots);
    SortedByIds(m.blobs);
    ok := blobs && sessions && roots && m.blobs != [] && m.sessions != [] && m.roots != []
      && |m.blobs| <= limits.nodes && |m.sessions| <= limits.sessions && forall r :: r in m.roots ==> r in SessionIds(m);
  }

  method CheckStructure(rules: Rules, limits: Limits, m: BundleManifest) returns (ok: bool)
    ensures ok <==> Structured(rules, limits, m)
  {
    if !rules.wellFormed(limits, m) {
      return false;
    }
    ok := CheckListed(limits, m);
    if !ok {
      return;
    }
    ok := CheckInventories(m, limits.blocks);
    if !ok {
      return;
    }
    var graph := ValidateGraph(m.blobs, Used(m), limits);
    ok := graph.Ok?;
  }

  lemma {:induction false} SortedByIds(blobs: seq<Blob>)
    ensures Ascending(BlobIds(blobs)) <==> SortedIds(blobs)
  {
    var ids := BlobIds(blobs);
    assert forall i :: 0 <= i < |blobs| ==> ids[i] == blobs[i].id;
  }

  /** Every artifact against its descriptor. */
  method VerifyFiles(d: Directory, m: BundleManifest) returns (ok: bool)
    ensures ok <==> Holds(d, m)
  {
    for i := 0 to |m.blobs|
      invariant forall k :: 0 <= k < i ==> FileHolds(d.blobs, m.blobs[k])
    {
      var b := m.blobs[i];
      assert b in m.blobs;
      if b.id !in d.blobs || d.blobs[b.id].length != b.bytes || d.blobs[b.id].digest != b.id {
        return false;
      }
    }
    ok := true;
  }

  method OpenKeeper(rules: Rules, limits: Limits, disk: Disk, c: Catalog) returns (ok: bool)
    ensures ok <==> KeeperOpens(rules, limits, disk, c)
  {
    var d, m := DirectoryAt(disk, c.path), KeeperManifest(disk, c);
    if d.manifest != Some(Readable(m)) {
      return false;
    }
    var structured := CheckStructure(rules, limits, m);
    if !structured || !Identified(rules, c, m) {
      return false;
    }
    var whole := VerifyFiles(d, m);
    ok := whole && rules.audited(m);
  }

  /** A test passed by each of the first catalogs. */
  ghost predicate AllPass(test: Catalog -> bool, catalogs: seq<Catalog>) {
    forall c :: c in catalogs ==> test(c)
  }

  lemma {:induction false} OneMorePasses(test: Catalog -> bool, catalogs: seq<Catalog>, i: nat)
    requires i < |catalogs|
    ensures AllPass(test, catalogs[..i + 1]) <==> AllPass(test, catalogs[..i]) && test(catalogs[i])
    ensures AllPass(test, catalogs) ==> AllPass(test, catalogs[..i + 1])
  {
    assert catalogs[..i + 1] == catalogs[..i] + [catalogs[i]];
  }

  ghost function KeeperTest(rules: Rules, limits: Limits, disk: Disk): Catalog -> bool {
    c => KeeperOpens(rules, limits, disk, c)
  }

  method OpenKeepers(rules: Rules, limits: Limits, disk: Disk, catalogs: seq<Catalog>) returns (ok: bool)
    ensures ok <==> AllPass(KeeperTest(rules, limits, disk), catalogs)
  {
    for i := 0 to |catalogs|
      invariant AllPass(KeeperTest(rules, limits, disk), catalogs[..i])
    {
      ok := OpenKeeper(rules, limits, disk, catalogs[i]);
      OneMorePasses(KeeperTest(rules, limits, disk), catalogs, i);
      if !ok {
        return;
      }
    }
    assert catalogs[..|catalogs|] == catalogs;
    ok := true;
  }

  /** Every blob file by name and length. */
  method CheckMembers(blobs: map<Hash32, File>, m: BundleManifest) returns (ok: bool)
    ensures ok <==> Described(blobs, m)
  {
    var left := blobs.Keys;
    while left != {}
      invariant left <= blobs.Keys
      invariant forall id :: id in blobs.Keys - left ==> exists b :: b in m.blobs && b.id == id && blobs[id].length == b.bytes
      decreases left
    {
      var id :| id in left;
      if !exists b :: b in m.blobs && b.id == id && blobs[id].length == b.bytes {
        return false;
      }
      left := left - {id};
    }
    ok := true;
  }

  method OpenCandidate(rules: Rules, limits: Limits, disk: Disk, c: Catalog) returns (ok: bool)
    ensures ok <==> CandidateOpens(rules, limits, disk, c)
  {
    var d, m := DirectoryAt(disk, c.path), CandidateManifest(disk, c);
    var pending := d.marker.Some?;
    if d.others != {} || d.manifest.Some? == pending || Found(d) != Some(Readable(m)) {
      return false;
    }
    var structured := CheckStructure(rules, limits, m);
    if !structured || !Identified(rules, c, m) {
      return false;
    }
    var described := CheckMembers(d.blobs, m);
    if !described {
      return false;
    }
    if !pending {
      var whole := VerifyFiles(d, m);
      return whole && rules.audited(m);
    }
    ok := true;
  }

  method CheckPins(disk: Disk, archives: seq<Catalog>, path: nat) returns (ok: bool)
    ensures ok <==> DatabaseKept(disk, archives, path)
  {
    if path !in disk.databases {
      return false;
    }
    var pins := disk.databases[path];
    for i := 0 to |pins|
      invariant forall k :: 0 <= k < i ==> PinResolves(disk, archives, pins[k])
    {
      if !PinResolves(disk, archives, pins[i]) {
        assert pins[i] in pins;
        return false;
      }
    }
    ok := true;
  }

  method CheckDatabases(rules: Rules, disk: Disk, plan: Plan) returns (ok: bool)
    ensures ok <==> DatabasesKept(rules, plan, disk)
  {
    for i := 0 to |plan.databases|
      invariant forall k :: 0 <= k < i ==> DatabaseKept(disk, plan.archives, plan.databases[k])
    {
      var kept := CheckPins(disk, plan.archives, plan.databases[i]);
      if !kept {
        assert plan.databases[i] in plan.databases;
        return false;
      }
    }
    ok := rules.databaseBudget(plan.limits, AllPins(disk, plan.databases));
  }

  method CheckCandidate(rules: Rules, limits: Limits, disk: Disk, index: Index, keepers: seq<BundleManifest>, c: Catalog) returns (ok: bool)
    requires IndexesKeepers(index, keepers)
    ensures ok <==> CandidateOpens(rules, limits, disk, c) && Covered(keepers, CandidateManifest(disk, c))
  {
    ok := OpenCandidate(rules, limits, disk, c);
    if ok {
      ok := CheckCoverage(index, keepers, CandidateManifest(disk, c));
    }
  }

  ghost function CandidateTest(rules: Rules, limits: Limits, disk: Disk, keepers: seq<BundleManifest>): Catalog -> bool {
    c => CandidateOpens(rules, limits, disk, c) && Covered(keepers, CandidateManifest(disk, c))
  }

  /** Open each candidate and hold it against the keepers. */
  method CheckCandidates(rules: Rules, limits: Limits, disk: Disk, keepers: seq<BundleManifest>, candidates: seq<Catalog>) returns (ok: bool)
    ensures ok <==> AllPass(CandidateTest(rules, limits, disk, keepers), candidates)
  {
    var index := NewCoverage(keepers);
    for i := 0 to |candidates|
      invariant AllPass(CandidateTest(rules, limits, disk, keepers), candidates[..i])
    {
      ok := CheckCandidate(rules, limits, disk, index, keepers, candidates[i]);
      OneMorePasses(CandidateTest(rules, limits, disk, keepers), candidates, i);
      if !ok {
        return;
      }
    }
    assert candidates[..|candidates|] == candidates;
    ok := true;
  }

  /** Everything before the first change. */
  method CheckPlan(rules: Rules, plan: Plan, disk: Disk) returns (ok: bool)
    ensures ok <==> Passes(rules, plan, disk)
  {
    var error := ValidatePlan(plan);
    if error.Some? {
      return false;
    }
    var keepers := OpenKeepers(rules, plan.limits, disk, plan.archives);
    if !keepers {
      return false;
    }
    var databases := CheckDatabases(rules, disk, plan);
    if !databases {
      return false;
    }
    var candidates := CheckCandidates(rules, plan.limits, disk, KeeperManifests(disk, plan.archives), plan.candidates);
    assert keepers <==> KeepersOpen(rules, plan, disk);
    assert candidates <==> CandidatesOpen(rules, plan, disk) && CandidatesCovered(plan, disk);
    ok := candidates
      && rules.catalogBudget(plan.limits, KeeperManifests(disk, plan.archives) + CandidateManifests(disk, plan.candidates));
  }

  // ---------------------------------------------------------------------- deletion

  datatype Progress = Progress(completed: nat, blobsRemoved: nat, alreadyMissing: nat, unlinkedBytes: nat)

  /** Rejected before any change, stopped by a file that changed, cut off, or finished. */
  datatype Outcome =
    | Rejected
    | Changed(progress: Progress)
    | CutOff(progress: Progress)
    | Collected(progress: Progress)

  ghost function BytesIn(log: seq<Unlink>): nat {
    if log == [] then 0 else BytesIn(log[..|log| - 1]) + log[|log| - 1].bytes
  }

  /** The counters say how many of the visits since `before` unlinked a file, and of how many bytes. */
  ghost predicate Tallied(before: seq<Unlink>, after: seq<Unlink>, visits: nat, p: Progress) {
    && before <= after && p.blobsRemoved == |after| - |before| && p.blobsRemoved + p.alreadyMissing == visits
    && p.unlinkedBytes == BytesIn(after[|before|..])
  }

  lemma {:induction false} TallyUnlink(before: seq<Unlink>, after: seq<Unlink>, visits: nat, p: Progress, u: Unlink)
    requires Tallied(before, after, visits, p)
    ensures Tallied(before, after + [u], visits + 1,
              p.(blobsRemoved := p.blobsRemoved + 1, unlinkedBytes := p.unlinkedBytes + u.bytes))
  {
    var longer := (after + [u])[|before|..];
    assert longer[..|longer| - 1] == after[|before|..];
  }

  /** The file is there with a length the manifest does not give. */
  predicate WrongLength(disk: Disk, path: nat, blob: Blob) {
    var blobs := DirectoryAt(disk, path).blobs;
    blob.id in blobs && blobs[blob.id].length != blob.bytes
  }

  lemma {:induction false} NextAction(s: State, sweep: seq<Action>, n: nat)
    requires n < |sweep|
    ensures Exec(s, sweep[..n + 1]) == Do(Exec(s, sweep[..n]), sweep[n])
  {
    assert sweep[..n + 1][..n] == sweep[..n];
  }

  lemma {:induction false} ExecAppend(s: State, a: seq<Action>, b: seq<Action>)
    ensures Exec(s, a + b) == Exec(Exec(s, a), b)
  {
    if b == [] {
      assert a + b == a;
    } else {
      var n := |b| - 1;
      assert (a + b)[..|a + b| - 1] == a + b[..n];
      ExecAppend(s, a, b[..n]);
    }
  }

  lemma {:induction false} NextSweep(disk: Disk, candidates: seq<Catalog>, k: nat)
    requires k < |candidates|
    ensures Actions(disk, candidates[..k + 1])
         == Actions(disk, candidates[..k]) + Sweep(candidates[k].path, CandidateManifest(disk, candidates[k]).blobs)
    ensures Actions(disk, candidates[..k + 1]) <= Actions(disk, candidates)
    decreases |candidates|
  {
    assert candidates[..k + 1][..k] == candidates[..k];
    if k + 1 < |candidates| {
      var front := candidates[..|candidates| - 1];
      NextSweep(disk, front, k);
      assert front[..k + 1] == candidates[..k + 1] && front[..k] == candidates[..k];
    } else {
      assert candidates[..k + 1] == candidates;
    }
  }

  /** The first k candidates are swept, and the first `partial` actions of the next one are done. */
  ghost predicate ValidStage(disk: Disk, candidates: seq<Catalog>, k: nat, partial: nat) {
    && k <= |candidates|
    && if k < |candidates| then partial <= |CandidateManifest(disk, candidates[k]).blobs| else partial == 0
  }

  ghost function Stage(disk: Disk, candidates: seq<Catalog>, k: nat, partial: nat): seq<Action>
    requires ValidStage(disk, candidates, k, partial)
  {
    Actions(disk, candidates[..k])
    + if k < |candidates| then Sweep(candidates[k].path, CandidateManifest(disk, candidates[k]).blobs)[..partial] else []
  }

  ghost function Visits(actions: seq<Action>): nat {
    if actions == [] then 0 else Visits(actions[..|actions| - 1]) + if actions[|actions| - 1].Visit? then 1 else 0
  }

  lemma {:induction false} VisitsAppend(a: seq<Action>, b: seq<Action>)
    ensures Visits(a + b) == Visits(a) + Visits(b)
  {
    if b == [] {
      assert a + b == a;
    } else {
      assert (a + b)[..|a + b| - 1] == a + b[..|b| - 1];
      VisitsAppend(a, b[..|b| - 1]);
    }
  }

  lemma {:induction false} VisitsSweep(path: nat, blobs: seq<Blob>, n: nat)
    requires n <= |blobs| + 1
    ensures Visits(Sweep(path, blobs)[..n]) == if n == 0 then 0 else n - 1
  {
    if n > 0 {
      VisitsSweep(path, blobs, n - 1);
      assert Sweep(path, blobs)[..n][..n - 1] == Sweep(path, blobs)[..n - 1];
    }
  }

  /** What the sweep of candidate k adds, up to its done-th action. */
  lemma {:induction false} StageStep(s: State, disk: Disk, candidates: seq<Catalog>, k: nat, done: nat)
    requires k < |candidates| && done <= |CandidateManifest(disk, candidates[k]).blobs| + 1
    ensures var blobs := CandidateManifest(disk, candidates[k]).blobs;
      var before := Stage(disk, candidates, k, 0);
      var next := if done == |blobs| + 1 then Stage(disk, candidates, k + 1, 0) else Stage(disk, candidates, k, done);
      && Exec(s, next) == Exec(Exec(s, before), Sweep(candidates[k].path, blobs)[..done])
      && |next| == |before| + done && Visits(next) == Visits(before) + if done == 0 then 0 else done - 1
  {
    var blobs := CandidateManifest(disk, candidates[k]).blobs;
    var front, part := Actions(disk, candidates[..k]), Sweep(candidates[k].path, blobs)[..done];
    assert Stage(disk, candidates, k, 0) == front;
    NextSweep(disk, candidates, k);
    if done == |blobs| + 1 {
      assert part == Sweep(candidates[k].path, blobs);
      assert Stage(disk, candidates, k + 1, 0) == front + part;
    }
    ExecAppend(s, front, part);
    VisitsAppend(front, part);
    VisitsSweep(candidates[k].path, blobs, done);
  }

  /** So many candidates are complete after so many steps. */
  ghost predicate CompletedBy(disk: Disk, candidates: seq<Catalog>, steps: nat, k: nat) {
    && k <= |candidates| && |Actions(disk, candidates[..k])| <= steps
    && (k < |candidates| ==> steps < |Actions(disk, candidates[..k + 1])|)
  }

  lemma {:induction false} StageIsPrefix(disk: Disk, candidates: seq<Catalog>, k: nat, partial: nat, steps: nat)
    requires ValidStage(disk, candidates, k, partial)
    requires if k < |candidates| then steps == |Stage(disk, candidates, k, partial)| else steps >= |Stage(disk, candidates, k, partial)|
    ensures Stage(disk, candidates, k, partial) == Take(Actions(disk, candidates), steps)
    ensures k == |candidates| <==> steps >= |Actions(disk, candidates)|
    ensures CompletedBy(disk, candidates, steps, k)
  {
    if k < |candidates| {
      NextSweep(disk, candidates, k);
    } else {
      assert candidates[..k] == candidates;
    }
  }

  /** No file a passing plan visits has changed its length, at whatever point of the sweep. */
  lemma {:induction false} LengthsHold(rules: Rules, limits: Limits, s: State, c: Catalog, actions: seq<Action>, blob: Blob)
    requires CandidateOpens(rules, limits, s.disk, c) && blob in CandidateManifest(s.disk, c).blobs
    ensures !WrongLength(Exec(s, actions).disk, c.path, blob)
  {
    FilesOnlyGo(s, actions, c.path);
    var before, m := DirectoryAt(s.disk, c.path).blobs, CandidateManifest(s.disk, c);
    if blob.id in before {
      var b :| b in m.blobs && b.id == blob.id && before[blob.id].length == b.bytes;
      assert b == blob by {
        var i :| 0 <= i < |m.blobs| && m.blobs[i] == b;
        var j :| 0 <= j < |m.blobs| && m.blobs[j] == blob;
        assert i == j;
      }
    }
  }

  lemma {:induction false} CandidatesThere(rules: Rules, limits: Limits, candidates: seq<Catalog>, disk: Disk)
    requires forall c :: c in candidates ==> CandidateOpens(rules, limits, disk, c)
    ensures forall c :: c in candidates ==> c.path in disk.directories
  {
  }

  class Collector {
    var disk: Disk
    ghost var log: seq<Unlink>

    ghost function Now(): State
      reads this
    {
      State(disk, log)
    }

    constructor (disk: Disk)
      ensures Now() == State(disk, [])
    {
      this.disk, log := disk, [];
    }

    /** Rename the manifest to the marker, unless that has been done. */
    method Begin(path: nat)
      requires path in disk.directories
      modifies this
      ensures Now() == Do(old(Now()), Mark(path))
    {
      var d := disk.directories[path];
      if d.marker.None? {
        disk := disk.(directories := disk.directories[path := d.(manifest := None, marker := d.manifest)]);
      } else {
        assert disk.directories[path := d] == disk.directories;
      }
    }

    /** Unlink one blob file if it is there; refuse a file whose length is not the manifest's. */
    method RemoveBlob(path: nat, blob: Blob, before: Progress, ghost start: seq<Unlink>, ghost visits: nat)
      returns (halted: bool, progress: Progress)
      requires path in disk.directories && Tallied(start, log, visits, before)
      modifies this
      ensures halted <==> WrongLength(old(disk), path, blob)
      ensures halted ==> Now() == old(Now()) && progress == before
      ensures !halted ==> Now() == Do(old(Now()), Visit(path, blob))
      ensures !halted ==> Tallied(start, log, visits + 1, progress) && progress.completed == before.completed
    {
      var d := disk.directories[path];
      halted, progress := false, before;
      if blob.id in d.blobs {
        if d.blobs[blob.id].length != blob.bytes {
          return true, before;
        }
        TallyUnlink(start, log, visits, before, Unlink(path, blob.id, blob.bytes));
        disk := disk.(directories := disk.directories[path := d.(blobs := d.blobs - {blob.id})]);
        log := log + [Unlink(path, blob.id, blob.bytes)];
        progress := before.(blobsRemoved := before.blobsRemoved + 1, unlinkedBytes := before.unlinkedBytes + blob.bytes);
      } else {
        progress := before.(alreadyMissing := before.alreadyMissing + 1);
      }
    }

    /** Mark a candidate and visit its blobs until done, until a file has changed, or until the
        steps run out; the process may die before any of them. */
    method SweepCandidate(path: nat, blobs: seq<Blob>, fuel: nat, before: Progress, ghost start: seq<Unlink>, ghost visits: nat)
      returns (halted: bool, done: nat, progress: Progress)
      requires path in disk.directories && Tallied(start, log, visits, before)
      modifies this
      ensures done <= fuel && done <= |blobs| + 1 && Now() == Exec(old(Now()), Sweep(path, blobs)[..done])
      ensures halted ==> 0 < done <= |blobs| && WrongLength(disk, path, blobs[done - 1])
      ensures !halted ==> done == fuel || done == |blobs| + 1
      ensures Tallied(start, log, visits + if done == 0 then 0 else done - 1, progress)
      ensures progress.completed == before.completed && disk.directories.Keys == old(disk.directories.Keys)
    {
      halted, done, progress := false, 0, before;
      if fuel == 0 {
        return;
      }
      ghost var sweep, s := Sweep(path, blobs), Now();
      NextAction(s, sweep, 0);
      Begin(path);
      done := 1;
      while done < fuel && done <= |blobs|
        invariant 0 < done <= fuel && done <= |blobs| + 1 && Now() == Exec(s, sweep[..done])
        invariant Tallied(start, log, visits + (done - 1), progress) && progress.completed == before.completed
        invariant disk.directories.Keys == old(disk.directories.Keys)
      {
        NextAction(s, sweep, done);
        halted, progress := RemoveBlob(path, blobs[done - 1], progress, start, visits + (done - 1));
        if halted {
          return;
        }
        done := done + 1;
      }
    }

    /** The whole command, dying after the given number of file operations. Nothing changes unless
        every check passes; what then happens is a prefix of the sweep, no file turns out changed,
        and the counters are exact. */
    method Collect(rules: Rules, plan: Plan, steps: nat) returns (r: Outcome)
      modifies this
      ensures Now() == Run(rules, old(Now()), plan, steps)
      ensures r.Rejected? <==> !Passes(rules, plan, old(disk))
      ensures !r.Changed?
      ensures r.Collected? <==> Passes(rules, plan, old(disk)) && steps >= |Actions(old(disk), plan.candidates)|
      ensures !r.Rejected? ==>
        && Tallied(old(log), log, Visits(Take(Actions(old(disk), plan.candidates), steps)), r.progress)
        && CompletedBy(old(disk), plan.candidates, steps, r.progress.completed)
    {
      var ok := CheckPlan(rules, plan, disk);
      if !ok {
        return Rejected;
      }
      CandidatesThere(rules, plan.limits, plan.candidates, disk);
      var halted, k, partial, progress := SweepAll(plan.candidates, CandidateManifests(disk, plan.candidates), steps);
      ghost var was := old(disk);
      if halted {
        ghost var c := plan.candidates[k];
        assert c in plan.candidates;
        LengthsHold(rules, plan.limits, old(Now()), c, Stage(was, plan.candidates, k, partial), CandidateManifest(was, c).blobs[partial - 1]);
      }
      StageIsPrefix(was, plan.candidates, k, partial, steps);
      r := if halted then Changed(progress) else if k < |plan.candidates| then CutOff(progress) else Collected(progress);
    }

    /** Candidate after candidate, in the manifests that were opened. */
    method SweepAll(candidates: seq<Catalog>, manifests: seq<BundleManifest>, steps: nat)
      returns (halted: bool, k: nat, partial: nat, progress: Progress)
      requires manifests == CandidateManifests(disk, candidates)
      requires forall c :: c in candidates ==> c.path in disk.directories
      modifies this
      ensures ValidStage(old(disk), candidates, k, partial) && Now() == Exec(old(Now()), Stage(old(disk), candidates, k, partial))
      ensures halted ==> (
        && k < |candidates| && 0 < partial <= |manifests[k].blobs|
        && WrongLength(disk, candidates[k].path, manifests[k].blobs[partial - 1]))
      ensures !halted ==> if k < |candidates| then steps == |Stage(old(disk), candidates, k, partial)|
                          else steps >= |Stage(old(disk), candidates, k, partial)|
      ensures Tallied(old(log), log, Visits(Stage(old(disk), candidates, k, partial)), progress) && progress.completed == k
    {
      halted, k, partial, progress := false, 0, 0, Progress(0, 0, 0, 0);
      var fuel: nat, stopped := steps, false;
      ghost var was, start := disk, Now();
      while k < |candidates| && !stopped
        invariant ValidStage(was, candidates, k, partial) && (!stopped ==> partial == 0 && !halted)
        invariant Now() == Exec(start, Stage(was, candidates, k, partial))
        invariant steps == fuel + |Stage(was, candidates, k, partial)|
        invariant stopped ==> k < |candidates|
        invariant stopped && !halted ==> fuel == 0
        invariant halted ==> 0 < partial && WrongLength(disk, candidates[k].path, manifests[k].blobs[partial - 1])
        invariant Tallied(start.log, log, Visits(Stage(was, candidates, k, partial)), progress) && progress.completed == k
        invariant disk.directories.Keys == was.directories.Keys
        decreases |candidates| - k, !stopped
      {
        var c, blobs, done := candidates[k], manifests[k].blobs, 0;
        assert c in candidates;
        halted, done, progress :=
          SweepCandidate(c.path, blobs, fuel, progress, start.log, Visits(Stage(was, candidates, k, 0)));
        StageStep(start, was, candidates, k, done);
        fuel := fuel - done;
        if done == |blobs| + 1 {
          k, progress := k + 1, progress.(completed := progress.completed + 1);
        } else {
          stopped, partial := true, done;
        }
      }
    }
  }
}
