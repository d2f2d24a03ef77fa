/** What collection keeps over every sequence of runs, each with its own plan and each stopped
    anywhere: other directories, one unlink per file, the same end after any restart, and every
    session and lasting blob. */
module CollectionSafety {
  import opened Prelude
  import opened Manifest
  import opened Collection
  import opened ArchiveDisk

  // ----------------------------------------------------------- what a run may change

  ghost predicate Submap(part: map<Hash32, File>, whole: map<Hash32, File>) {
    forall id :: id in part ==> id in whole && part[id] == whole[id]
  }

  /** The directory as it was, or marked and with part of its files. */
  ghost predicate Later(d: Directory, d': Directory) {
    d' == d || (d' == Marked(d).(blobs := d'.blobs) && Submap(d'.blobs, d.blobs))
  }

  ghost predicate LaterAt(candidates: seq<Catalog>, disk: Disk, disk': Disk, path: nat) {
    && (path in disk'.directories <==> path in disk.directories)
    && if path in Paths(candidates) then Later(DirectoryAt(disk, path), DirectoryAt(disk', path))
       else DirectoryAt(disk', path) == DirectoryAt(disk, path)
  }

  /** Only candidate directories differ, and those only as a sweep changes them. */
  ghost predicate DiskLater(candidates: seq<Catalog>, disk: Disk, disk': Disk) {
    disk'.databases == disk.databases && forall path :: LaterAt(candidates, disk, disk', path)
  }

  ghost predicate IsMarked(d: Directory) {
    Marked(d) == d
  }

  ghost predicate MarkedBefore(actions: seq<Action>, i: nat)
    requires i < |actions|
  {
    actions[i].Visit? ==> Mark(actions[i].path) in actions[..i]
  }

  /** No blob is visited before its directory is marked. */
  ghost predicate MarkFirst(actions: seq<Action>) {
    forall i: nat :: i < |actions| ==> MarkedBefore(actions, i)
  }

  ghost predicate OnPaths(actions: seq<Action>, candidates: seq<Catalog>) {
    forall a :: a in actions ==> a.path in Paths(candidates)
  }

  /** The directories marked so far. */
  ghost predicate MarksDone(actions: seq<Action>, disk: Disk) {
    forall path :: Mark(path) in actions ==> IsMarked(DirectoryAt(disk, path))
  }

  lemma {:induction false} LaterDo(d: Directory, d': Directory, s: State, a: Action)
    requires a.path in s.disk.directories && d' == DirectoryAt(s.disk, a.path) && Later(d, d')
    requires a.Visit? ==> IsMarked(d')
    ensures var d'' := DirectoryAt(Do(s, a).disk, a.path);
      Later(d, d'') && (a.Mark? || IsMarked(d') ==> IsMarked(d''))
  {
  }

  lemma {:induction false} OneActionLater(candidates: seq<Catalog>, disk: Disk, s: State, a: Action)
    requires DiskLater(candidates, disk, s.disk) && a.path in Paths(candidates)
    requires a.Visit? ==> IsMarked(DirectoryAt(s.disk, a.path))
    ensures DiskLater(candidates, disk, Do(s, a).disk)
  {
    var after := Do(s, a).disk;
    forall path
      ensures LaterAt(candidates, disk, after, path)
    {
      assert LaterAt(candidates, disk, s.disk, path);
      if path == a.path && path in s.disk.directories {
        LaterDo(DirectoryAt(disk, path), DirectoryAt(s.disk, path), s, a);
      }
    }
  }

  lemma {:induction false} OneActionMarks(actions: seq<Action>, s: State, a: Action)
    requires MarksDone(actions, s.disk)
    ensures MarksDone(actions + [a], Do(s, a).disk)
  {
    forall path | Mark(path) in actions + [a]
      ensures IsMarked(DirectoryAt(Do(s, a).disk, path))
    {
      if Mark(path) in actions { assert IsMarked(DirectoryAt(s.disk, path)); }
    }
  }

  lemma {:induction false} MarkFirstPrefix(actions: seq<Action>, n: nat)
    requires MarkFirst(actions) && n <= |actions|
    ensures MarkFirst(actions[..n])
  {
    forall i: nat | i < n
      ensures MarkedBefore(actions[..n], i)
    {
      assert MarkedBefore(actions, i);
      assert actions[..n][..i] == actions[..i];
    }
  }

  /** Wherever a sweep stops, the disk is the one it started on with some candidates marked and
      some of their files gone. */
  lemma {:induction false} ExecLater(candidates: seq<Catalog>, s: State, actions: seq<Action>)
    requires MarkFirst(actions) && OnPaths(actions, candidates)
    ensures DiskLater(candidates, s.disk, Exec(s, actions).disk) && MarksDone(actions, Exec(s, actions).disk)
  {
    if actions != [] {
      var n := |actions| - 1;
      var front, last := actions[..n], actions[n];
      MarkFirstPrefix(actions, n);
      ExecLater(candidates, s, front);
      assert MarkedBefore(actions, n);
      assert actions == front + [last];
      OneActionLater(candidates, s.disk, Exec(s, front), last);
      OneActionMarks(front, Exec(s, front), last);
    }
  }

  // --------------------------------------------------------- the actions of a plan

  lemma {:induction false} MarkFirstAppend(a: seq<Action>, b: seq<Action>)
    requires MarkFirst(a) && MarkFirst(b)
    ensures MarkFirst(a + b)
  {
    var all := a + b;
    forall i: nat | i < |all|
      ensures MarkedBefore(all, i)
    {
      if i < |a| {
        assert MarkedBefore(a, i);
        assert all[..i] == a[..i];
      } else {
        assert MarkedBefore(b, i - |a|);
        assert all[..i] == a + b[..i - |a|];
      }
    }
  }

  lemma {:induction false} SweepFits(path: nat, blobs: seq<Blob>)
    ensures MarkFirst(Sweep(path, blobs)) && forall a :: a in Sweep(path, blobs) ==> a.path == path
  {
    var actions := Sweep(path, blobs);
    forall i: nat | i < |actions|
      ensures MarkedBefore(actions, i)
    {
      if i > 0 { assert actions[..i][0] == Mark(path); }
    }
  }

  lemma {:induction false} ActionsFit(disk: Disk, candidates: seq<Catalog>)
    ensures MarkFirst(Actions(disk, candidates)) && OnPaths(Actions(disk, candidates), candidates)
  {
    if candidates != [] {
      var n := |candidates| - 1;
      var blobs := CandidateManifest(disk, candidates[n]).blobs;
      ActionsFit(disk, candidates[..n]);
      SweepFits(candidates[n].path, blobs);
      MarkFirstAppend(Actions(disk, candidates[..n]), Sweep(candidates[n].path, blobs));
      PathsPrefix(candidates, n);
      assert Paths(candidates)[n] == candidates[n].path;
    }
  }

  lemma {:induction false} PathsPrefix(candidates: seq<Catalog>, n: nat)
    requires n <= |candidates|
    ensures forall path :: path in Paths(candidates[..n]) ==> path in Paths(candidates)
  {
    forall path | path in Paths(candidates[..n])
      ensures path in Paths(candidates)
    {
      var i :| 0 <= i < n && Paths(candidates[..n])[i] == path;
      assert Paths(candidates)[i] == path;
    }
  }

  lemma {:induction false} ActionsCover(disk: Disk, candidates: seq<Catalog>, k: nat, blob: Blob)
    requires k < |candidates| && blob in CandidateManifest(disk, candidates[k]).blobs
    ensures Mark(candidates[k].path) in Actions(disk, candidates)
    ensures Visit(candidates[k].path, blob) in Actions(disk, candidates)
    decreases |candidates|
  {
    var n := |candidates| - 1;
    var blobs := CandidateManifest(disk, candidates[n]).blobs;
    if k < n {
      ActionsCover(disk, candidates[..n], k, blob);
    } else {
      var i :| 0 <= i < |blobs| && blobs[i] == blob;
      var sweep := Sweep(candidates[n].path, blobs);
      assert sweep[0] in sweep && sweep[i + 1] in sweep;
    }
  }

  lemma {:induction false} SameActions(disk: Disk, disk': Disk, candidates: seq<Catalog>)
    requires forall c :: c in candidates ==> CandidateManifest(disk', c) == CandidateManifest(disk, c)
    ensures Actions(disk', candidates) == Actions(disk, candidates)
  {
    if candidates != [] {
      SameActions(disk, disk', candidates[..|candidates| - 1]);
    }
  }

  lemma {:induction false} StoppedFits(disk: Disk, candidates: seq<Catalog>, n: nat)
    ensures MarkFirst(Take(Actions(disk, candidates), n)) && OnPaths(Take(Actions(disk, candidates), n), candidates)
  {
    ActionsFit(disk, candidates);
    if n <= |Actions(disk, candidates)| {
      MarkFirstPrefix(Actions(disk, candidates), n);
    }
  }

  // ----------------------------------------------------------------- other directories

  /** A run, wherever it stops, leaves the databases and every directory that is not a candidate
      as they were. */
  lemma {:induction false} RunLater(rules: Rules, s: State, plan: Plan, n: nat)
    ensures DiskLater(plan.candidates, s.disk, Run(rules, s, plan, n).disk)
  {
    if Passes(rules, plan, s.disk) {
      StoppedFits(s.disk, plan.candidates, n);
      ExecLater(plan.candidates, s, Take(Actions(s.disk, plan.candidates), n));
    }
  }

  /** Over any sequence of runs, a directory that is a candidate of none of them never changes. */
  lemma {:induction false} OthersUntouched(rules: Rules, s: State, attempts: seq<Attempt>, path: nat)
    requires forall k :: 0 <= k < |attempts| ==> path !in Paths(attempts[k].plan.candidates)
    ensures var after := Runs(rules, s, attempts).disk;
      DirectoryAt(after, path) == DirectoryAt(s.disk, path) && after.databases == s.disk.databases
  {
    if attempts != [] {
      var n := |attempts| - 1;
      var before := Runs(rules, s, attempts[..n]);
      OthersUntouched(rules, s, attempts[..n], path);
      RunLater(rules, before, attempts[n].plan, attempts[n].steps);
      assert LaterAt(attempts[n].plan.candidates, before.disk, Runs(rules, s, attempts).disk, path);
    }
  }

  /** No keeper is a candidate of the same plan. */
  lemma {:induction false} KeepersApart(plan: Plan, c: Catalog)
    requires Separate(plan) && c in plan.archives
    ensures c.path !in Paths(plan.candidates)
  {
    var i :| 0 <= i < |plan.archives| && plan.archives[i] == c;
    var all := Paths(plan.archives + plan.candidates) + plan.databases;
    assert all[i] == c.path;
    forall j | 0 <= j < |plan.candidates|
      ensures plan.candidates[j].path != c.path
    {
      assert all[|plan.archives| + j] == plan.candidates[j].path;
    }
  }

  // ----------------------------------------------------------------------- restarts

  lemma {:induction false} LaterFound(d: Directory, d': Directory)
    requires Later(d, d')
    ensures Found(d') == Found(d) && Submap(d'.blobs, d.blobs)
  {
  }

  lemma {:induction false} SameManifests(plan: Plan, disk: Disk, disk': Disk)
    requires Separate(plan) && DiskLater(plan.candidates, disk, disk')
    ensures forall c :: c in plan.archives ==> DirectoryAt(disk', c.path) == DirectoryAt(disk, c.path)
    ensures forall c :: c in plan.candidates ==> CandidateManifest(disk', c) == CandidateManifest(disk, c)
    ensures KeeperManifests(disk', plan.archives) == KeeperManifests(disk, plan.archives)
    ensures CandidateManifests(disk', plan.candidates) == CandidateManifests(disk, plan.candidates)
  {
    forall c | c in plan.archives
      ensures DirectoryAt(disk', c.path) == DirectoryAt(disk, c.path)
    {
      KeepersApart(plan, c);
      assert LaterAt(plan.candidates, disk, disk', c.path);
    }
    forall c | c in plan.candidates
      ensures CandidateManifest(disk', c) == CandidateManifest(disk, c)
    {
      CandidateLater(plan.candidates, disk, disk', c);
    }
  }

  lemma {:induction false} CandidateLater(candidates: seq<Catalog>, disk: Disk, disk': Disk, c: Catalog)
    requires DiskLater(candidates, disk, disk') && c in candidates
    ensures Later(DirectoryAt(disk, c.path), DirectoryAt(disk', c.path))
    ensures CandidateManifest(disk', c) == CandidateManifest(disk, c)
  {
    var i :| 0 <= i < |candidates| && candidates[i] == c;
    assert Paths(candidates)[i] == c.path;
    assert LaterAt(candidates, disk, disk', c.path);
    LaterFound(DirectoryAt(disk, c.path), DirectoryAt(disk', c.path));
  }

  lemma {:induction false} StillDescribed(blobs: map<Hash32, File>, less: map<Hash32, File>, m: BundleManifest)
    requires Described(blobs, m) && Submap(less, blobs)
    ensures Described(less, m)
  {
  }

  lemma {:induction false} CandidateStillOpens(rules: Rules, limits: Limits, candidates: seq<Catalog>, disk: Disk, disk': Disk, c: Catalog)
    requires DiskLater(candidates, disk, disk') && c in candidates && CandidateOpens(rules, limits, disk, c)
    ensures CandidateOpens(rules, limits, disk', c)
  {
    CandidateLater(candidates, disk, disk', c);
    var d, d' := DirectoryAt(disk, c.path), DirectoryAt(disk', c.path);
    LaterFound(d, d');
    StillDescribed(d.blobs, d'.blobs, CandidateManifest(disk, c));
  }

  lemma {:induction false} PinsStillResolve(archives: seq<Catalog>, disk: Disk, disk': Disk, pin: Pin)
    requires forall c :: c in archives ==> DirectoryAt(disk', c.path) == DirectoryAt(disk, c.path)
    requires PinResolves(disk, archives, pin)
    ensures PinResolves(disk', archives, pin)
  {
    var c :| c in archives && c.commitment == pin.archive && NamesBlock(KeeperManifest(disk, c), pin);
    assert NamesBlock(KeeperManifest(disk', c), pin);
  }

  lemma {:induction false} DatabasesStillKept(rules: Rules, plan: Plan, disk: Disk, disk': Disk)
    requires disk'.databases == disk.databases && DatabasesKept(rules, plan, disk)
    requires forall c :: c in plan.archives ==> DirectoryAt(disk', c.path) == DirectoryAt(disk, c.path)
    ensures DatabasesKept(rules, plan, disk')
  {
    forall path | path in plan.databases
      ensures DatabaseKept(disk', plan.archives, path)
    {
      assert DatabaseKept(disk, plan.archives, path);
      forall pin | pin in disk.databases[path]
        ensures PinResolves(disk', plan.archives, pin)
      {
        PinsStillResolve(plan.archives, disk, disk', pin);
      }
    }
    assert AllPins(disk', plan.databases) == AllPins(disk, plan.databases);
  }

  /** A plan that passed passes every check again on whatever a stopped run of it left behind. */
  lemma {:induction false} StillPasses(rules: Rules, plan: Plan, disk: Disk, disk': Disk)
    requires Passes(rules, plan, disk) && DiskLater(plan.candidates, disk, disk')
    ensures Passes(rules, plan, disk')
  {
    SameManifests(plan, disk, disk');
    DatabasesStillKept(rules, plan, disk, disk');
    forall c | c in plan.candidates
      ensures CandidateOpens(rules, plan.limits, disk', c)
    {
      CandidateStillOpens(rules, plan.limits, plan.candidates, disk, disk', c);
    }
    assert KeepersOpen(rules, plan, disk') && CandidatesCovered(plan, disk') && WithinBudget(rules, plan, disk');
  }

  /** The end of a run: every candidate marked and without files. */
  ghost function Emptied(candidates: seq<Catalog>, disk: Disk): Disk {
    disk.(directories := map path | path in disk.directories ::
      if path in Paths(candidates) then Marked(disk.directories[path]).(blobs := map[]) else disk.directories[path])
  }

  lemma {:induction false} SameEnd(candidates: seq<Catalog>, disk: Disk, disk': Disk)
    requires DiskLater(candidates, disk, disk')
    ensures Emptied(candidates, disk') == Emptied(candidates, disk)
  {
    forall path
      ensures path in disk'.directories <==> path in disk.directories
      ensures path in disk.directories ==>
        Emptied(candidates, disk').directories[path] == Emptied(candidates, disk).directories[path]
    {
      assert LaterAt(candidates, disk, disk', path);
    }
    assert Emptied(candidates, disk').directories == Emptied(candidates, disk).directories;
  }

  lemma {:induction false} DiskLaterTrans(candidates: seq<Catalog>, a: Disk, b: Disk, c: Disk)
    requires DiskLater(candidates, a, b) && DiskLater(candidates, b, c)
    ensures DiskLater(candidates, a, c)
  {
    forall path
      ensures LaterAt(candidates, a, c, path)
    {
      assert LaterAt(candidates, a, b, path) && LaterAt(candidates, b, c, path);
    }
  }

  /** A file that was visited with its manifest length is gone, and stays gone. */
  lemma {:induction false} VisitedIsGone(s: State, actions: seq<Action>, path: nat, blob: Blob)
    requires Visit(path, blob) in actions
    requires blob.id in DirectoryAt(s.disk, path).blobs ==> DirectoryAt(s.disk, path).blobs[blob.id].length == blob.bytes
    ensures blob.id !in DirectoryAt(Exec(s, actions).disk, path).blobs
  {
    var n := |actions| - 1;
    var front := actions[..n];
    assert actions == front + [actions[n]];
    FilesOnlyGo(s, front, path);
    if Visit(path, blob) in front {
      VisitedIsGone(s, front, path, blob);
    }
  }

  lemma {:induction false} FilesOnlyGo(s: State, actions: seq<Action>, path: nat)
    ensures Submap(DirectoryAt(Exec(s, actions).disk, path).blobs, DirectoryAt(s.disk, path).blobs)
  {
    if actions != [] { FilesOnlyGo(s, actions[..|actions| - 1], path); }
  }

  /** Every file of a candidate is one of the blobs the sweep visits. */
  lemma {:induction false} AllGone(rules: Rules, limits: Limits, s: State, candidates: seq<Catalog>, k: nat)
    requires k < |candidates| && CandidateOpens(rules, limits, s.disk, candidates[k])
    ensures DirectoryAt(Exec(s, Actions(s.disk, candidates)).disk, candidates[k].path).blobs == map[]
  {
    var path, m := candidates[k].path, CandidateManifest(s.disk, candidates[k]);
    var actions := Actions(s.disk, candidates);
    var before, after := DirectoryAt(s.disk, path).blobs, DirectoryAt(Exec(s, actions).disk, path).blobs;
    FilesOnlyGo(s, actions, path);
    forall id | id in before
      ensures id !in after
    {
      var b :| b in m.blobs && b.id == id && before[id].length == b.bytes;
      ActionsCover(s.disk, candidates, k, b);
      VisitedIsGone(s, actions, path, b);
    }
  }

  lemma {:induction false} MarkedAndGone(rules: Rules, limits: Limits, s: State, candidates: seq<Catalog>, path: nat)
    requires forall c :: c in candidates ==> CandidateOpens(rules, limits, s.disk, c)
    requires path in Paths(candidates) && path in s.disk.directories
    ensures DirectoryAt(Exec(s, Actions(s.disk, candidates)).disk, path) == Marked(DirectoryAt(s.disk, path)).(blobs := map[])
  {
    var k :| 0 <= k < |candidates| && candidates[k].path == path;
    var actions := Actions(s.disk, candidates);
    assert candidates[k] in candidates;
    AllGone(rules, limits, s, candidates, k);
    ActionsFit(s.disk, candidates);
    ExecLater(candidates, s, actions);
    assert LaterAt(candidates, s.disk, Exec(s, actions).disk, path);
    var blobs := CandidateManifest(s.disk, candidates[k]).blobs;
    assert blobs[0] in blobs;
    ActionsCover(s.disk, candidates, k, blobs[0]);
    assert IsMarked(DirectoryAt(Exec(s, actions).disk, path));
  }

  /** A run with enough steps leaves every candidate marked and empty, and nothing else changed. */
  lemma {:induction false} FinishedRun(rules: Rules, s: State, plan: Plan, n: nat)
    requires Passes(rules, plan, s.disk) && n >= |Actions(s.disk, plan.candidates)|
    ensures Run(rules, s, plan, n).disk == Emptied(plan.candidates, s.disk)
  {
    var after := Run(rules, s, plan, n).disk;
    RunLater(rules, s, plan, n);
    var actions := Actions(s.disk, plan.candidates);
    assert Take(actions, n) == actions;
    forall path
      ensures path in after.directories <==> path in s.disk.directories
      ensures path in after.directories ==> after.directories[path] == Emptied(plan.candidates, s.disk).directories[path]
    {
      assert LaterAt(plan.candidates, s.disk, after, path);
      if path in Paths(plan.candidates) && path in s.disk.directories {
        MarkedAndGone(rules, plan.limits, s, plan.candidates, path);
      }
    }
    assert after.directories == Emptied(plan.candidates, s.disk).directories;
  }

  ghost predicate SamePlan(attempts: seq<Attempt>, plan: Plan) {
    forall k :: 0 <= k < |attempts| ==> attempts[k].plan == plan
  }

  /** However often a plan that passed is stopped and started again, it still passes every check,
      and nothing but a stage of its sweep is left behind. */
  lemma {:induction false} RestartPasses(rules: Rules, s: State, plan: Plan, attempts: seq<Attempt>)
    requires Passes(rules, plan, s.disk) && SamePlan(attempts, plan)
    ensures var after := Runs(rules, s, attempts).disk;
      && DiskLater(plan.candidates, s.disk, after) && Passes(rules, plan, after)
      && Actions(after, plan.candidates) == Actions(s.disk, plan.candidates)
  {
    if attempts != [] {
      var n := |attempts| - 1;
      var before, after := Runs(rules, s, attempts[..n]), Runs(rules, s, attempts);
      RestartPasses(rules, s, plan, attempts[..n]);
      RunLater(rules, before, plan, attempts[n].steps);
      DiskLaterTrans(plan.candidates, s.disk, before.disk, after.disk);
    }
    StillPasses(rules, plan, s.disk, Runs(rules, s, attempts).disk);
    SameManifests(plan, s.disk, Runs(rules, s, attempts).disk);
    SameActions(s.disk, Runs(rules, s, attempts).disk, plan.candidates);
  }

  /** Whatever crashes came before, a run that finishes ends on the disk that a single
      uninterrupted run would have left. */
  lemma {:induction false} RestartReachesTheSameEnd(rules: Rules, s: State, plan: Plan, attempts: seq<Attempt>, n: nat)
    requires Passes(rules, plan, s.disk) && SamePlan(attempts, plan) && n >= |Actions(s.disk, plan.candidates)|
    ensures Runs(rules, s, attempts + [Attempt(plan, n)]).disk == Run(rules, s, plan, n).disk == Emptied(plan.candidates, s.disk)
  {
    var before := Runs(rules, s, attempts);
    assert (attempts + [Attempt(plan, n)])[..|attempts|] == attempts;
    RestartPasses(rules, s, plan, attempts);
    FinishedRun(rules, before, plan, n);
    SameEnd(plan.candidates, s.disk, before.disk);
    FinishedRun(rules, s, plan, n);
  }

  // ------------------------------------------------------------------ the unlink calls

  /** How many of the unlink calls were for this file. */
  ghost function Unlinks(log: seq<Unlink>, path: nat, id: Hash32): nat {
    if log == [] then 0 else
      var last := log[|log| - 1];
      Unlinks(log[..|log| - 1], path, id) + if last.path == path && last.id == id then 1 else 0
  }

  ghost function Present(disk: Disk, path: nat, id: Hash32): nat {
    if id in DirectoryAt(disk, path).blobs then 1 else 0
  }

  lemma {:induction false} UnlinksAppend(log: seq<Unlink>, u: Unlink, path: nat, id: Hash32)
    ensures Unlinks(log + [u], path, id) == Unlinks(log, path, id) + if u.path == path && u.id == id then 1 else 0
  {
    assert (log + [u])[..|log|] == log;
  }

  lemma {:induction false} DoConserves(s: State, a: Action, path: nat, id: Hash32)
    ensures var after := Do(s, a);
      Unlinks(after.log, path, id) + Present(after.disk, path, id) == Unlinks(s.log, path, id) + Present(s.disk, path, id)
  {
    if a.Visit? {
      UnlinksAppend(s.log, Unlink(a.path, a.blob.id, a.blob.bytes), path, id);
    }
  }

  lemma {:induction false} ExecConserves(s: State, actions: seq<Action>, path: nat, id: Hash32)
    ensures var after := Exec(s, actions);
      Unlinks(after.log, path, id) + Present(after.disk, path, id) == Unlinks(s.log, path, id) + Present(s.disk, path, id)
  {
    if actions != [] {
      var n := |actions| - 1;
      ExecConserves(s, actions[..n], path, id);
      DoConserves(Exec(s, actions[..n]), actions[n], path, id);
    }
  }

  /** Over any sequence of runs of any plans, a file is there at the end or was unlinked, once, if
      it was there at the start; and a file that was not there is never unlinked. */
  lemma {:induction false} UnlinkedOnceOrKept(rules: Rules, s: State, attempts: seq<Attempt>, path: nat, id: Hash32)
    ensures var after := Runs(rules, s, attempts);
      Unlinks(after.log, path, id) + Present(after.disk, path, id) == Unlinks(s.log, path, id) + Present(s.disk, path, id)
  {
    if attempts != [] {
      var n := |attempts| - 1;
      var before := Runs(rules, s, attempts[..n]);
      UnlinkedOnceOrKept(rules, s, attempts[..n], path, id);
      ExecConserves(before, Take(Actions(before.disk, attempts[n].plan.candidates), attempts[n].steps), path, id);
    }
  }

  /** When a plan that passed has been run to its end, through whatever crashes, each file the
      candidates had was unlinked exactly once, and no other file was unlinked. */
  lemma {:induction false} CandidateFilesUnlinkedOnce(
      rules: Rules, disk: Disk, plan: Plan, attempts: seq<Attempt>, n: nat, path: nat, id: Hash32)
    requires Passes(rules, plan, disk) && SamePlan(attempts, plan) && n >= |Actions(disk, plan.candidates)|
    ensures Unlinks(Runs(rules, State(disk, []), attempts + [Attempt(plan, n)]).log, path, id)
         == if path in Paths(plan.candidates) && id in DirectoryAt(disk, path).blobs then 1 else 0
  {
    var all, start := attempts + [Attempt(plan, n)], State(disk, []);
    assert SamePlan(all, plan);
    UnlinkedOnceOrKept(rules, start, all, path, id);
    if path in Paths(plan.candidates) {
      RestartReachesTheSameEnd(rules, start, plan, attempts, n);
    } else {
      OthersUntouched(rules, start, all, path);
    }
  }

  lemma {:induction false} EntriesCount(log: seq<Unlink>, i: nat, path: nat, id: Hash32)
    requires i < |log| && log[i].path == path && log[i].id == id
    ensures Unlinks(log, path, id) > Unlinks(log[..i], path, id)
    decreases |log|
  {
    var n := |log| - 1;
    if i < n {
      assert log[..n][..i] == log[..i];
      EntriesCount(log[..n], i, path, id);
    }
  }

  /** The log of any sequence of runs of any plans names no file twice, and only files that were
      there at the start and are gone at the end. */
  lemma {:induction false} NoFileUnlinkedTwice(rules: Rules, disk: Disk, attempts: seq<Attempt>, i: nat, j: nat)
    requires i < j < |Runs(rules, State(disk, []), attempts).log|
    ensures var after := Runs(rules, State(disk, []), attempts);
      && (after.log[i].path, after.log[i].id) != (after.log[j].path, after.log[j].id)
      && Present(disk, after.log[i].path, after.log[i].id) == 1
      && Present(after.disk, after.log[i].path, after.log[i].id) == 0
  {
    var after := Runs(rules, State(disk, []), attempts);
    var path, id := after.log[i].path, after.log[i].id;
    UnlinkedOnceOrKept(rules, State(disk, []), attempts, path, id);
    EntriesCount(after.log, i, path, id);
    if (path, id) == (after.log[j].path, after.log[j].id) {
      EntriesCount(after.log, j, path, id);
      EntriesCount(after.log[..j], i, path, id);
    }
  }

  // ------------------------------------------------------------------- what was unlinked

  /** Every file of the later disk is one of the earlier, unchanged. */
  ghost predicate FilesFrom(disk: Disk, later: Disk) {
    forall path, id {:trigger Present(later, path, id)} :: Present(later, path, id) == 1 ==>
      id in DirectoryAt(disk, path).blobs && DirectoryAt(later, path).blobs[id] == DirectoryAt(disk, path).blobs[id]
  }

  /** Every unlink call was for a file of the disk, and reports the length it had there. */
  ghost predicate TellsLengths(disk: Disk, log: seq<Unlink>) {
    forall i :: 0 <= i < |log| ==> TellsLength(disk, log[i])
  }

  ghost predicate TellsLength(disk: Disk, u: Unlink) {
    u.id in DirectoryAt(disk, u.path).blobs && DirectoryAt(disk, u.path).blobs[u.id].length == u.bytes
  }

  lemma {:induction false} DoTells(disk: Disk, s: State, a: Action)
    requires FilesFrom(disk, s.disk) && TellsLengths(disk, s.log)
    ensures FilesFrom(disk, Do(s, a).disk) && TellsLengths(disk, Do(s, a).log)
  {
    var after := Do(s, a);
    forall path, id | Present(after.disk, path, id) == 1
      ensures id in DirectoryAt(disk, path).blobs && DirectoryAt(after.disk, path).blobs[id] == DirectoryAt(disk, path).blobs[id]
    {
      assert Present(s.disk, path, id) == 1;
    }
    if a.Visit? && after != s { assert Present(s.disk, a.path, a.blob.id) == 1; }
  }

  lemma {:induction false} ExecTells(disk: Disk, s: State, actions: seq<Action>)
    requires FilesFrom(disk, s.disk) && TellsLengths(disk, s.log)
    ensures FilesFrom(disk, Exec(s, actions).disk) && TellsLengths(disk, Exec(s, actions).log)
  {
    if actions != [] {
      var n := |actions| - 1;
      ExecTells(disk, s, actions[..n]);
      DoTells(disk, Exec(s, actions[..n]), actions[n]);
    }
  }

  /** Over any sequence of runs of any plans, every unlink call was for a file of the first disk and
      reports its true length, and no file that is left was changed. */
  lemma {:induction false} UnlinksTellLengths(rules: Rules, disk: Disk, attempts: seq<Attempt>)
    ensures var after := Runs(rules, State(disk, []), attempts);
      FilesFrom(disk, after.disk) && TellsLengths(disk, after.log)
  {
    if attempts != [] {
      var n := |attempts| - 1;
      var before := Runs(rules, State(disk, []), attempts[..n]);
      UnlinksTellLengths(rules, disk, attempts[..n]);
      ExecTells(disk, before, Take(Actions(before.disk, attempts[n].plan.candidates), attempts[n].steps));
    }
  }

  // -------------------------------------------------------------- what a pass vouches for

  /** The manifest is the catalogued one, from trusted sessions, and within its limits. */
  ghost predicate Catalogued(rules: Rules, limits: Limits, c: Catalog, m: BundleManifest) {
    && rules.commitment(m) == c.commitment
    && (forall i :: 0 <= i < |m.sessions| ==> m.sessions[i].anchor in c.trust)
    && 0 < |m.blobs| <= limits.nodes && 0 < |m.sessions| <= limits.sessions && 0 < |m.roots|
    && TotalBytes(m.blobs) <= limits.totalBytes && TotalEdges(m.blobs) <= limits.edges && BlockCount(m.sessions) <= limits.blocks
  }

  /** Every list of every session names blobs of the manifest that have the list's role. */
  ghost predicate Furnished(m: BundleManifest, s: Session) {
    && (forall i :: 0 <= i < |s.blocks| ==> HasRole(m, s.blocks[i], Block))
    && (forall i :: 0 <= i < |s.handoffs| ==> HasRole(m, s.handoffs[i], Handoff))
    && (forall i :: 0 <= i < |s.evidence| ==> HasRole(m, s.evidence[i], Evidence))
    && (forall i :: 0 <= i < |s.execution.runtime| ==> HasRole(m, s.execution.runtime[i], RuntimeDependency))
  }

  lemma {:induction false} TotalsWithin(blobs: seq<Blob>, limits: Limits)
    requires blobs != [] && InventoryCheck(blobs, limits, |blobs|).None?
    ensures TotalBytes(blobs) <= limits.totalBytes && TotalEdges(blobs) <= limits.edges
  {
    assert blobs[..|blobs|] == blobs;
    assert BlobError(blobs, limits, |blobs| - 1).None?;
  }

  lemma {:induction false} NamedIsFurnished(m: BundleManifest, s: Session)
    requires SessionNamed(m, s)
    ensures Furnished(m, s)
  {
    InIndex(m, s.blocks, Block);
    InIndex(m, s.handoffs, Handoff);
    InIndex(m, s.evidence, Evidence);
    InIndex(m, s.execution.runtime, RuntimeDependency);
  }

  lemma {:induction false} InIndex(m: BundleManifest, ids: seq<Hash32>, role: BlobKind)
    requires AllHaveRole(m, ids, role)
    ensures forall i :: 0 <= i < |ids| ==> HasRole(m, ids[i], role)
  {
    assert forall i :: 0 <= i < |ids| ==> ids[i] in ids;
  }

  lemma {:induction false} ListedMeans(rules: Rules, limits: Limits, c: Catalog, m: BundleManifest)
    requires Listed(limits, m) && Identified(rules, c, m) && BlockCount(m.sessions) <= limits.blocks
    requires InventoryCheck(m.blobs, limits, |m.blobs|).None?
    ensures Catalogued(rules, limits, c, m)
  {
    TotalsWithin(m.blobs, limits);
    assert forall i :: 0 <= i < |m.sessions| ==> m.sessions[i] in m.sessions;
  }

  lemma {:induction false} StructuredMeans(rules: Rules, limits: Limits, c: Catalog, m: BundleManifest)
    requires Structured(rules, limits, m) && Identified(rules, c, m)
    ensures Catalogued(rules, limits, c, m) && forall i :: 0 <= i < |m.sessions| ==> Furnished(m, m.sessions[i])
  {
    ListedMeans(rules, limits, c, m);
    forall i | 0 <= i < |m.sessions|
      ensures Furnished(m, m.sessions[i])
    {
      assert m.sessions[i] in m.sessions;
      NamedIsFurnished(m, m.sessions[i]);
    }
  }

  /** A session names a blob exactly by one of its nine fields or at a place of one of its lists. */
  lemma {:induction false} NamedExactly(s: Session, id: Hash32)
    ensures NamedBy(s, id) <==>
      || id == s.genesis || id == s.consensus || id == s.head || id == s.checkpoint
      || id == s.execution.program || id == s.execution.replayer || id == s.execution.rules
      || id == s.execution.buildInputs || id == s.execution.toolchain
      || (exists i :: 0 <= i < |s.blocks| && s.blocks[i] == id) || (exists i :: 0 <= i < |s.handoffs| && s.handoffs[i] == id)
      || (exists i :: 0 <= i < |s.evidence| && s.evidence[i] == id)
      || (exists i :: 0 <= i < |s.execution.runtime| && s.execution.runtime[i] == id)
  {
  }

  /** Before a plan that passes changes anything, every archive in it is the catalogued one, within
      limits and furnished, and each candidate's directory holds nothing but one document and blobs
      that the document lists. */
  lemma {:induction false} PassVouches(rules: Rules, plan: Plan, disk: Disk, c: Catalog)
    requires Passes(rules, plan, disk)
    ensures c in plan.archives ==>
      var m := KeeperManifest(disk, c);
      Catalogued(rules, plan.limits, c, m) && forall i :: 0 <= i < |m.sessions| ==> Furnished(m, m.sessions[i])
    ensures c in plan.candidates ==>
      var d, m := DirectoryAt(disk, c.path), CandidateManifest(disk, c);
      && Catalogued(rules, plan.limits, c, m) && (forall i :: 0 <= i < |m.sessions| ==> Furnished(m, m.sessions[i]))
      && d.others == {} && (d.manifest.None? || d.marker.None?)
      && forall id :: id in d.blobs ==> exists b :: b in m.blobs && b.id == id && b.bytes == d.blobs[id].length
  {
    if c in plan.archives { StructuredMeans(rules, plan.limits, c, KeeperManifest(disk, c)); }
    if c in plan.candidates { StructuredMeans(rules, plan.limits, c, CandidateManifest(disk, c)); }
  }
}
