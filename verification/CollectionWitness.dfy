/** A plan that passes every check and whose finished run splits a dependency path. Three archives
    record the same session and blobs. Only the first records the chain of three runtime
    dependencies whole; each of the other two records one of its links. */
module CollectionWitness {
  import opened Prelude
  import opened Manifest
  import opened DependencyGraph
  import opened Collection
  import opened ArchiveDisk
  import opened CollectionSafety
  import opened CollectionSurvival
  import opened CollectionPaths

  // ------------------------------------------------------------------- the inventory

  const BLOBS: nat := 11
  const BYTES: nat := 64

  /** Runtime dependencies 1 to 3, program, rules, build kit, consensus, genesis, block, head and
      checkpoint, with ids 1 to 11. */
  function RolesAt(i: nat): seq<BlobKind> {
    if i < 3 then [RuntimeDependency]
    else if i == 3 then [Program, Replayer]
    else if i == 4 then [BlobKind.Rules]
    else if i == 5 then [BuildInputs, Toolchain]
    else if i == 6 then [Consensus]
    else if i == 7 then [Genesis]
    else if i == 8 then [Block]
    else if i == 9 then [Head]
    else [Checkpoint]
  }

  /** Genesis needs all artifacts, and each later record the one before it. The links from 3 to 2 and
      from 2 to 1 may be recorded or not. */
  function NeedsAt(i: nat, upper: bool, lower: bool): seq<Hash32> {
    if i == 1 then (if lower then [1] else [])
    else if i == 2 then (if upper then [2] else [])
    else if i == 7 then [1, 2, 3, 4, 5, 6, 7]
    else if i > 7 then [i]
    else []
  }

  function BlobAtPosition(i: nat, upper: bool, lower: bool): Blob {
    Blob(i + 1, BYTES, RolesAt(i), NeedsAt(i, upper, lower))
  }

  function TheSession(): Session {
    Session(5, 6, 8, 7, 10, 11, [9], [], [], Execution(4, 4, 5, 6, 6, [1, 2, 3]))
  }

  function Inventory(upper: bool, lower: bool): (m: BundleManifest)
    ensures |m.blobs| == BLOBS && forall i :: 0 <= i < BLOBS ==> m.blobs[i] == BlobAtPosition(i, upper, lower)
  {
    BundleManifest([5], [TheSession()], seq(BLOBS, i requires 0 <= i < BLOBS => BlobAtPosition(i, upper, lower)))
  }

  function DefaultLimits(): Limits {
    Limits(8 * 1024 * 1024, 256 * 1024 * 1024, 8 * 1024 * 1024 * 1024, 65_536, 262_144, 1024, 256, 60_000)
  }

  // --------------------------------------------------------------- it is accepted

  ghost predicate EarlierId(blobs: seq<Blob>, i: nat, d: Hash32) {
    exists j: nat :: j < i && j < |blobs| && blobs[j].id == d
  }

  /** Small blobs in id order, each with a role or two and dependencies on earlier ones only. */
  ghost predicate TidyAt(blobs: seq<Blob>, i: nat)
    requires i < |blobs|
  {
    var b := blobs[i];
    && b.bytes == BYTES && 1 <= |b.roles| <= 2 && DistinctRoles(b.roles)
    && Ascending(b.dependencies) && |b.dependencies| <= 7
    && forall d :: d in b.dependencies ==> EarlierId(blobs, i, d)
  }

  ghost predicate Tidy(blobs: seq<Blob>) {
    SortedIds(blobs) && blobs != [] && forall i: nat :: i < |blobs| ==> TidyAt(blobs, i)
  }

  /** The limits leave room for all the blobs, perhaps no more. */
  ghost predicate Roomy(limits: Limits, blobs: seq<Blob>) {
    && BYTES <= limits.blobBytes && BYTES * |blobs| <= limits.totalBytes && TotalEdges(blobs) <= limits.edges
    && limits.totalBytes < U64_LIMIT && limits.edges < U64_LIMIT
  }

  lemma {:induction false} TidyTotals(blobs: seq<Blob>, n: nat)
    requires n <= |blobs| && Tidy(blobs)
    ensures TotalBytes(blobs[..n]) == BYTES * n && TotalEdges(blobs[..n]) <= 7 * n
  {
    if n > 0 {
      TidyTotals(blobs, n - 1);
      assert blobs[..n][..n - 1] == blobs[..n - 1];
      assert TidyAt(blobs, n - 1);
    }
  }

  lemma {:induction false} EdgesGrow(blobs: seq<Blob>, n: nat)
    requires n <= |blobs|
    ensures TotalEdges(blobs[..n]) <= TotalEdges(blobs)
    decreases |blobs| - n
  {
    if n < |blobs| {
      EdgesGrow(blobs, n + 1);
      assert blobs[..n + 1][..n] == blobs[..n];
    } else {
      assert blobs[..n] == blobs;
    }
  }

  lemma {:induction false} NoBlobError(blobs: seq<Blob>, limits: Limits, i: nat)
    requires Tidy(blobs) && Roomy(limits, blobs) && i < |blobs|
    ensures BlobError(blobs, limits, i).None?
  {
    TidyTotals(blobs, i + 1);
    EdgesGrow(blobs, i + 1);
    assert TidyAt(blobs, i);
    forall d | d in blobs[i].dependencies
      ensures Contains(blobs, d)
    {
      assert EarlierId(blobs, i, d);
    }
  }

  lemma {:induction false} NoInventoryError(blobs: seq<Blob>, limits: Limits, n: nat)
    requires Tidy(blobs) && Roomy(limits, blobs) && n <= |blobs|
    ensures InventoryCheck(blobs, limits, n).None?
  {
    if n > 0 {
      NoInventoryError(blobs, limits, n - 1);
      NoBlobError(blobs, limits, n - 1);
    }
  }

  /** A graph whose edges all go to earlier nodes. */
  ghost predicate Backwards(g: Graph) {
    forall i, j :: 0 <= i < |g| && j in g[i] ==> j < i
  }

  lemma {:induction false} BackwardsWalk(g: Graph, w: seq<nat>)
    requires Backwards(g) && Walk(g, w)
    ensures |w| <= w[0] + 1 && (|w| > 1 ==> w[|w| - 1] < w[0])
    decreases |w|
  {
    if |w| > 1 {
      Tail(g, w);
      BackwardsWalk(g, w[1..]);
    }
  }

  lemma {:induction false} BackwardsIsAcyclic(g: Graph)
    requires Backwards(g)
    ensures Acyclic(g) && Bounded(g, |g|)
  {
    forall w | Walk(g, w)
      ensures |w| <= |g| && (|w| > 1 ==> w[0] != w[|w| - 1])
    {
      BackwardsWalk(g, w);
    }
  }

  lemma {:induction false} TidyBackwards(blobs: seq<Blob>)
    requires Tidy(blobs)
    ensures Backwards(GraphOf(blobs))
  {
    var g := GraphOf(blobs);
    forall i, j | 0 <= i < |g| && j in g[i]
      ensures j < i
    {
      assert DependsOn(blobs, i, j) && TidyAt(blobs, i) && EarlierId(blobs, i, blobs[j].id);
    }
  }

  lemma {:induction false} ShallowEnough(g: Graph, d: nat, e: nat)
    requires Bounded(g, d) && d <= e
    ensures Bounded(g, e)
  {
  }

  /** One of the sessions names the blob. */
  ghost predicate Named(m: BundleManifest, id: Hash32) {
    exists s :: s in m.sessions && NamedBy(s, id)
  }

  lemma {:induction false} AllUsed(m: BundleManifest)
    requires forall i: nat :: i < |m.blobs| ==> Named(m, m.blobs[i].id)
    ensures AllReferenced(GraphOf(m.blobs), Used(m))
  {
    var g := GraphOf(m.blobs);
    forall i: nat | i < |g|
      ensures Reached(g, Used(m), i)
    {
      assert Named(m, m.blobs[i].id) && i in Used(m);
      assert WalkBetween(g, Used(m), [i], i);
    }
  }

  /** A tidy inventory whose blobs are all named and within limits is accepted. */
  lemma {:induction false} TidyAccepted(m: BundleManifest, limits: Limits)
    requires Tidy(m.blobs) && Roomy(limits, m.blobs) && Bounded(GraphOf(m.blobs), limits.dependencyDepth)
    requires forall i: nat :: i < |m.blobs| ==> Named(m, m.blobs[i].id)
    ensures Accepted(m.blobs, Used(m), limits)
  {
    NoInventoryError(m.blobs, limits, |m.blobs|);
    TidyBackwards(m.blobs);
    BackwardsIsAcyclic(GraphOf(m.blobs));
    AllUsed(m);
  }

  lemma {:induction false} NeedsInOrder(i: nat, upper: bool, lower: bool)
    ensures Ascending(NeedsAt(i, upper, lower)) && |NeedsAt(i, upper, lower)| <= 7
    ensures forall d :: d in NeedsAt(i, upper, lower) ==> 1 <= d <= i
  {
  }

  lemma {:induction false} InventoryTidyAt(upper: bool, lower: bool, i: nat)
    requires i < BLOBS
    ensures TidyAt(Inventory(upper, lower).blobs, i)
  {
    var blobs := Inventory(upper, lower).blobs;
    NeedsInOrder(i, upper, lower);
    forall d | d in blobs[i].dependencies
      ensures EarlierId(blobs, i, d)
    {
      assert blobs[d - 1].id == d;
    }
  }

  lemma {:induction false} EveryBlobNamed(id: Hash32)
    requires 1 <= id <= BLOBS
    ensures NamedBy(TheSession(), id)
  {
    var s := TheSession();
    assert s.execution.runtime == [1, 2, 3] && s.blocks == [9];
  }

  lemma {:induction false} InventoryRoomy(blobs: seq<Blob>)
    requires Tidy(blobs) && |blobs| == BLOBS
    ensures Roomy(DefaultLimits(), blobs) && Bounded(GraphOf(blobs), DefaultLimits().dependencyDepth)
  {
    TidyTotals(blobs, BLOBS);
    assert blobs[..BLOBS] == blobs;
    TidyBackwards(blobs);
    BackwardsIsAcyclic(GraphOf(blobs));
    ShallowEnough(GraphOf(blobs), BLOBS, DefaultLimits().dependencyDepth);
  }

  lemma {:induction false} InventoryAccepted(upper: bool, lower: bool)
    ensures Accepted(Inventory(upper, lower).blobs, Used(Inventory(upper, lower)), DefaultLimits())
  {
    var m := Inventory(upper, lower);
    forall i: nat | i < BLOBS
      ensures TidyAt(m.blobs, i) && Named(m, m.blobs[i].id)
    {
      InventoryTidyAt(upper, lower, i);
      EveryBlobNamed(m.blobs[i].id);
      assert TheSession() in m.sessions;
    }
    InventoryRoomy(m.blobs);
    TidyAccepted(m, DefaultLimits());
  }

  lemma {:induction false} RoleAt(upper: bool, lower: bool, id: Hash32, role: BlobKind)
    requires 1 <= id <= BLOBS && role in RolesAt(id - 1)
    ensures HasRole(Inventory(upper, lower), id, role)
  {
    var m := Inventory(upper, lower);
    assert m.blobs[id - 1] in m.blobs && m.blobs[id - 1].id == id;
  }

  lemma {:induction false} SessionFits(upper: bool, lower: bool)
    ensures SessionNamed(Inventory(upper, lower), TheSession()) && SessionLists(TheSession())
  {
    var s := TheSession();
    RoleAt(upper, lower, 8, Genesis);
    RoleAt(upper, lower, 7, Consensus);
    RoleAt(upper, lower, 10, Head);
    RoleAt(upper, lower, 11, Checkpoint);
    RoleAt(upper, lower, 4, Program);
    RoleAt(upper, lower, 4, Replayer);
    RoleAt(upper, lower, 5, BlobKind.Rules);
    RoleAt(upper, lower, 6, BuildInputs);
    RoleAt(upper, lower, 6, Toolchain);
    RoleAt(upper, lower, 9, Block);
    RoleAt(upper, lower, 1, RuntimeDependency);
    RoleAt(upper, lower, 2, RuntimeDependency);
    RoleAt(upper, lower, 3, RuntimeDependency);
  }

  lemma {:induction false} InventoryListed(upper: bool, lower: bool)
    ensures Listed(DefaultLimits(), Inventory(upper, lower))
  {
    var m := Inventory(upper, lower);
    assert m.roots == [5] && m.sessions == [TheSession()] && SessionIds(m) == [5];
  }

  lemma {:induction false} InventoryStructured(rules: Rules, upper: bool, lower: bool)
    requires rules.wellFormed(DefaultLimits(), Inventory(upper, lower))
    ensures Structured(rules, DefaultLimits(), Inventory(upper, lower))
  {
    var m := Inventory(upper, lower);
    InventoryListed(upper, lower);
    SessionFits(upper, lower);
    InventoryAccepted(upper, lower);
    assert m.sessions[..0] == [] && BlockCount(m.sessions) == 1;
  }

  // ---------------------------------------------------------------------- the disk

  /** The manifest with every blob it lists. */
  function WholeArchive(m: BundleManifest): Directory {
    Directory(Some(Readable(m)), None, {}, map id | id in (set b | b in m.blobs :: b.id) :: File(id, BYTES))
  }

  lemma {:induction false} WholeOnDisk(rules: Rules, limits: Limits, m: BundleManifest)
    requires Structured(rules, limits, m) && forall b :: b in m.blobs ==> b.bytes == BYTES
    ensures Archive(rules, limits, WholeArchive(m), m) && Described(WholeArchive(m).blobs, m)
  {
    var d := WholeArchive(m);
    forall b | b in m.blobs
      ensures FileHolds(d.blobs, b)
    {
    }
  }

  lemma {:induction false} InventoryOnDisk(rules: Rules, upper: bool, lower: bool)
    requires rules.wellFormed(DefaultLimits(), Inventory(upper, lower))
    ensures var m := Inventory(upper, lower);
      Archive(rules, DefaultLimits(), WholeArchive(m), m) && Described(WholeArchive(m).blobs, m)
  {
    InventoryStructured(rules, upper, lower);
    WholeOnDisk(rules, DefaultLimits(), Inventory(upper, lower));
  }

  lemma {:induction false} BetweenThem(k0: BundleManifest, k1: BundleManifest, b: Blob)
    requires b in k0.blobs || b in k1.blobs
    ensures BlobCovered([k0, k1], b)
  {
    assert [k0, k1][0] == k0 && [k0, k1][1] == k1;
    assert KeptIn([k0, k1], b);
  }

  /** Between them the two keepers cover the archive that records both links. */
  lemma {:induction false} BothLinksCovered()
    ensures Covered([Inventory(true, false), Inventory(false, true)], Inventory(true, true))
  {
    var k0, k1, m := Inventory(true, false), Inventory(false, true), Inventory(true, true);
    forall b | b in m.blobs
      ensures BlobCovered([k0, k1], b)
    {
      var i :| 0 <= i < BLOBS && m.blobs[i] == b;
      assert if i == 1 then k1.blobs[i] == b else k0.blobs[i] == b;
      BetweenThem(k0, k1, b);
    }
    assert [k0, k1][0] == k0 && TheSession() in k0.sessions;
    assert SessionKeptIn([k0, k1], TheSession());
  }

  const KEEPER_ONE := Catalog(1, 2, {6})
  const KEEPER_TWO := Catalog(2, 3, {6})
  const CANDIDATE := Catalog(3, 1, {6})

  function SplitPlan(): Plan {
    Plan([4], [KEEPER_ONE, KEEPER_TWO], [CANDIDATE], [], DefaultLimits())
  }

  function SplitDisk(): Disk {
    Disk(map[1 := WholeArchive(Inventory(true, false)), 2 := WholeArchive(Inventory(false, true)),
             3 := WholeArchive(Inventory(true, true))], map[4 := []])
  }

  /** Commitments tell the three manifests apart; nothing else is refused. */
  function SplitRules(): Rules {
    Rules.Rules(
      m => if m == Inventory(true, true) then 1 else if m == Inventory(true, false) then 2 else 3,
      (_, _) => true, _ => true, (_, _) => true, (_, _) => true)
  }

  lemma {:induction false} SplitPlanValid()
    ensures ValidPlan(SplitPlan())
  {
    var p := SplitPlan();
    var catalogs := p.archives + p.candidates;
    assert catalogs == [KEEPER_ONE, KEEPER_TWO, CANDIDATE];
    assert Paths(catalogs) + p.databases == [1, 2, 3, 4] && Commitments(catalogs) == [2, 3, 1];
  }

  lemma {:induction false} Distinguished()
    ensures SplitRules().commitment(Inventory(true, true)) == 1
    ensures SplitRules().commitment(Inventory(true, false)) == 2
    ensures SplitRules().commitment(Inventory(false, true)) == 3
  {
    assert Inventory(true, true).blobs[1].dependencies == [1] && Inventory(true, false).blobs[1].dependencies == [];
    assert Inventory(true, true).blobs[2].dependencies == [2] && Inventory(false, true).blobs[2].dependencies == [];
    assert Inventory(true, false).blobs[2].dependencies == [2];
  }

  /** A whole, structured, identified and audited archive opens as a keeper and as a candidate. */
  lemma {:induction false} WholeOpens(rules: Rules, limits: Limits, disk: Disk, c: Catalog, m: BundleManifest)
    requires DirectoryAt(disk, c.path) == WholeArchive(m) && Structured(rules, limits, m)
    requires (forall b :: b in m.blobs ==> b.bytes == BYTES) && Identified(rules, c, m) && rules.audited(m)
    ensures KeeperOpens(rules, limits, disk, c) && KeeperManifest(disk, c) == m
    ensures CandidateOpens(rules, limits, disk, c) && CandidateManifest(disk, c) == m
  {
    WholeOnDisk(rules, limits, m);
  }

  lemma {:induction false} InventoryOpens(rules: Rules, disk: Disk, c: Catalog, upper: bool, lower: bool)
    requires c.trust == {6} && rules.commitment(Inventory(upper, lower)) == c.commitment
    requires rules.wellFormed(DefaultLimits(), Inventory(upper, lower)) && rules.audited(Inventory(upper, lower))
    requires DirectoryAt(disk, c.path) == WholeArchive(Inventory(upper, lower))
    ensures var m := Inventory(upper, lower);
      && KeeperOpens(rules, DefaultLimits(), disk, c) && KeeperManifest(disk, c) == m
      && CandidateOpens(rules, DefaultLimits(), disk, c) && CandidateManifest(disk, c) == m
  {
    InventoryStructured(rules, upper, lower);
    assert Identified(rules, c, Inventory(upper, lower));
    WholeOpens(rules, DefaultLimits(), disk, c, Inventory(upper, lower));
  }

  /** A plan with one candidate and one database passes once all its parts do. */
  lemma {:induction false} PlanPasses(rules: Rules, plan: Plan, disk: Disk, c: Catalog, keepers: seq<BundleManifest>)
    requires ValidPlan(plan) && plan.candidates == [c] && plan.databases == [4]
    requires KeepersOpen(rules, plan, disk) && KeeperManifests(disk, plan.archives) == keepers
    requires CandidateOpens(rules, plan.limits, disk, c) && Covered(keepers, CandidateManifest(disk, c))
    requires DatabaseKept(disk, plan.archives, 4)
    requires rules.databaseBudget(plan.limits, AllPins(disk, plan.databases)) && WithinBudget(rules, plan, disk)
    ensures Passes(rules, plan, disk)
  {
  }

  lemma {:induction false} TwoManifests(disk: Disk, one: Catalog, two: Catalog, k0: BundleManifest, k1: BundleManifest)
    requires KeeperManifest(disk, one) == k0 && KeeperManifest(disk, two) == k1
    ensures KeeperManifests(disk, [one, two]) == [k0, k1]
  {
  }

  lemma {:induction false} TwoKeepersPass(
      rules: Rules, plan: Plan, disk: Disk, one: Catalog, two: Catalog, c: Catalog, k0: BundleManifest, k1: BundleManifest)
    requires ValidPlan(plan) && plan.archives == [one, two] && plan.candidates == [c] && plan.databases == [4]
    requires KeeperOpens(rules, plan.limits, disk, one) && KeeperOpens(rules, plan.limits, disk, two)
    requires KeeperManifest(disk, one) == k0 && KeeperManifest(disk, two) == k1
    requires CandidateOpens(rules, plan.limits, disk, c) && Covered([k0, k1], CandidateManifest(disk, c))
    requires DatabaseKept(disk, [one, two], 4)
    requires rules.databaseBudget(plan.limits, AllPins(disk, plan.databases)) && WithinBudget(rules, plan, disk)
    ensures Passes(rules, plan, disk)
  {
    TwoManifests(disk, one, two, k0, k1);
    assert KeepersOpen(rules, plan, disk);
    PlanPasses(rules, plan, disk, c, [k0, k1]);
  }

  lemma {:induction false} OneKeeperPasses(rules: Rules, plan: Plan, disk: Disk, one: Catalog, c: Catalog, k: BundleManifest)
    requires ValidPlan(plan) && plan.archives == [one] && plan.candidates == [c] && plan.databases == [4]
    requires KeeperOpens(rules, plan.limits, disk, one) && KeeperManifest(disk, one) == k
    requires CandidateOpens(rules, plan.limits, disk, c) && Covered([k], CandidateManifest(disk, c))
    requires DatabaseKept(disk, [one], 4)
    requires rules.databaseBudget(plan.limits, AllPins(disk, plan.databases)) && WithinBudget(rules, plan, disk)
    ensures Passes(rules, plan, disk)
  {
    assert KeeperManifests(disk, plan.archives) == [k];
    PlanPasses(rules, plan, disk, c, [k]);
  }

  /** Rules that accept the three manifests and tell them apart. */
  ghost predicate Accepting(rules: Rules) {
    && (forall upper, lower :: rules.wellFormed(DefaultLimits(), Inventory(upper, lower)) && rules.audited(Inventory(upper, lower)))
    && rules.commitment(Inventory(true, true)) == CANDIDATE.commitment
    && rules.commitment(Inventory(true, false)) == KEEPER_ONE.commitment
    && rules.commitment(Inventory(false, true)) == KEEPER_TWO.commitment
    && rules.databaseBudget(DefaultLimits(), AllPins(SplitDisk(), [4])) && WithinBudget(rules, SplitPlan(), SplitDisk())
  }

  lemma {:induction false} SomeRulesAccept()
    ensures Accepting(SplitRules())
  {
    Distinguished();
  }

  lemma {:induction false} SplitPlanPasses(rules: Rules)
    requires Accepting(rules)
    ensures Passes(rules, SplitPlan(), SplitDisk())
  {
    SplitPlanValid();
    InventoryOpens(rules, SplitDisk(), KEEPER_ONE, true, false);
    InventoryOpens(rules, SplitDisk(), KEEPER_TWO, false, true);
    InventoryOpens(rules, SplitDisk(), CANDIDATE, true, true);
    BothLinksCovered();
    TwoKeepersPass(rules, SplitPlan(), SplitDisk(), KEEPER_ONE, KEEPER_TWO, CANDIDATE, Inventory(true, false), Inventory(false, true));
  }

  // --------------------------------------------------------------------- the split

  /** Runtime dependency 3 needs 2, which needs 1. */
  function SplitPath(): seq<Blob> {
    [BlobAtPosition(2, true, true), BlobAtPosition(1, true, true), BlobAtPosition(0, true, true)]
  }

  lemma {:induction false} CandidateHasPath()
    ensures LastingPath(Inventory(true, true), SplitPath())
  {
    var m, path := Inventory(true, true), SplitPath();
    forall i | 0 <= i < 3
      ensures path[i] in m.blobs && Lasting(path[i])
    {
      assert m.blobs[2 - i] == path[i] && RuntimeDependency in path[i].roles;
    }
    assert StepAt(path, 0) && StepAt(path, 1);
  }

  lemma {:induction false} LinkMissing(upper: bool, lower: bool)
    requires !upper || !lower
    ensures !RecordsPath(Inventory(upper, lower), SplitPath())
  {
    var m, path := Inventory(upper, lower), SplitPath();
    var i: nat := if upper then 1 else 0;
    forall x | x in m.blobs && x.id == path[i].id
      ensures path[i + 1].id !in x.dependencies
    {
      var j :| 0 <= j < BLOBS && m.blobs[j] == x;
    }
    assert !RecordedAt(m, path, i);
  }

  lemma {:induction false} NothingRecorded()
    ensures !RecordsPath(BundleManifest([], [], []), SplitPath())
  {
    assert !RecordedAt(BundleManifest([], [], []), SplitPath(), 0);
  }

  lemma {:induction false} OutsideCandidates(at: nat)
    requires at !in Paths(SplitPlan().candidates)
    ensures !RecordsPath(Read(DirectoryAt(SplitDisk(), at).manifest), SplitPath())
  {
    assert Paths(SplitPlan().candidates)[0] == 3;
    if at == 1 {
      LinkMissing(true, false);
    } else if at == 2 {
      LinkMissing(false, true);
    } else {
      NothingRecorded();
    }
  }

  /** The candidate, an intact archive, has the path. The plan passes every check. Once its run is
      finished, no directory on the disk records the path. */
  lemma {:induction false} TwoKeepersSplitPath(rules: Rules, n: nat, at: nat)
    requires Accepting(rules) && n >= |Actions(SplitDisk(), SplitPlan().candidates)|
    ensures Archive(rules, DefaultLimits(), DirectoryAt(SplitDisk(), CANDIDATE.path), Inventory(true, true))
    ensures LastingPath(Inventory(true, true), SplitPath())
    ensures Passes(rules, SplitPlan(), SplitDisk())
    ensures var after := Run(rules, State(SplitDisk(), []), SplitPlan(), n).disk;
      !RecordsPath(Read(DirectoryAt(after, at).manifest), SplitPath())
  {
    var s := State(SplitDisk(), []);
    InventoryOnDisk(rules, true, true);
    CandidateHasPath();
    SplitPlanPasses(rules);
    var d := DirectoryAt(Run(rules, s, SplitPlan(), n).disk, at);
    if d.manifest.Some? {
      NotACandidate(rules, s, SplitPlan(), n, at);
      OutsideCandidates(at);
    } else {
      NothingRecorded();
    }
  }

  /** Plans that pass exist. */
  lemma {:induction false} SomePlanPasses()
    ensures exists rules: Rules, plan: Plan, disk: Disk :: Passes(rules, plan, disk)
  {
    SomeRulesAccept();
    SplitPlanPasses(SplitRules());
  }
}
