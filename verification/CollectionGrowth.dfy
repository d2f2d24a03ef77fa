/** The case collection exists for: a session's archive is superseded by a later archive of the same
    session with more blocks, which a database already refers to. For any two lengths the plan that
    keeps the longer and collects the shorter passes every check, even under limits that the longer
    archive uses up to the last node, edge, byte, block and level. */
module CollectionGrowth {
  import opened Prelude
  import opened Manifest
  import opened DependencyGraph
  import opened Collection
  import opened ArchiveDisk
  import opened CollectionWitness

  // ------------------------------------------------------- an archive after n blocks

  const ARTIFACTS: nat := 8
  const HEADS: nat := 1_000_000
  const LONGEST: nat := 262_134

  /** The artifacts up to genesis, n blocks that each need what precedes them, and the head and
      checkpoint after the last. */
  function GrownBlob(n: nat, i: nat): Blob {
    if i < ARTIFACTS then BlobAtPosition(i, true, true)
    else if i < ARTIFACTS + n then Blob(i + 1, BYTES, [Block], [i])
    else if i == ARTIFACTS + n then Blob(HEADS + 2 * n, BYTES, [Head], [i])
    else Blob(HEADS + 2 * n + 1, BYTES, [Checkpoint], [HEADS + 2 * n])
  }

  function GrownBlocks(n: nat): (blocks: seq<Hash32>)
    ensures |blocks| == n && forall h :: 0 <= h < n ==> blocks[h] == ARTIFACTS + 1 + h
  {
    seq(n, h => ARTIFACTS + 1 + h)
  }

  function GrownSession(n: nat): Session {
    Session(5, 6, 8, 7, HEADS + 2 * n, HEADS + 2 * n + 1, GrownBlocks(n), [], [], Execution(4, 4, 5, 6, 6, [1, 2, 3]))
  }

  function Grown(n: nat): (m: BundleManifest)
    ensures m.roots == [5] && m.sessions == [GrownSession(n)]
    ensures |m.blobs| == ARTIFACTS + n + 2 && forall i: nat :: i < |m.blobs| ==> m.blobs[i] == GrownBlob(n, i)
  {
    BundleManifest([5], [GrownSession(n)], seq(ARTIFACTS + n + 2, i requires 0 <= i < ARTIFACTS + n + 2 => GrownBlob(n, i)))
  }

  lemma {:induction false} GrownTidyAt(n: nat, i: nat)
    requires i < ARTIFACTS + n + 2
    ensures TidyAt(Grown(n).blobs, i)
  {
    var blobs := Grown(n).blobs;
    assert blobs[i] == GrownBlob(n, i);
    if i < ARTIFACTS {
      NeedsInOrder(i, true, true);
    }
    forall d | d in blobs[i].dependencies
      ensures EarlierId(blobs, i, d)
    {
      var j: nat := if i <= ARTIFACTS + n then d - 1 else ARTIFACTS + n;
      assert blobs[j] == GrownBlob(n, j) && blobs[j].id == d;
    }
  }

  lemma {:induction false} GrownNamed(n: nat, i: nat)
    requires i < ARTIFACTS + n + 2
    ensures Named(Grown(n), Grown(n).blobs[i].id)
  {
    var s := GrownSession(n);
    assert Grown(n).blobs[i] == GrownBlob(n, i) && s in Grown(n).sessions;
    if i < 3 {
      assert s.execution.runtime[i] == i + 1;
    } else if ARTIFACTS <= i < ARTIFACTS + n {
      assert s.blocks[i - ARTIFACTS] == i + 1;
    }
    assert NamedBy(s, GrownBlob(n, i).id);
  }

  lemma {:induction false} GrownTidy(n: nat)
    requires n <= LONGEST
    ensures Tidy(Grown(n).blobs)
  {
    forall i: nat | i < |Grown(n).blobs|
      ensures TidyAt(Grown(n).blobs, i)
    {
      GrownTidyAt(n, i);
    }
    GrownSorted(n);
  }

  lemma {:induction false} GrownSorted(n: nat)
    requires n <= LONGEST
    ensures SortedIds(Grown(n).blobs)
  {
  }

  /** Exactly the room that an archive of n blocks takes. */
  function Tight(n: nat): Limits {
    Limits(1, BYTES, BYTES * (n + 10), n + 10, n + 11, n + 6, 1, n)
  }

  /** The dependencies of the first k blobs. */
  function EdgesUpTo(k: nat): nat {
    if k < 2 then 0 else if k == 2 then 1 else if k < ARTIFACTS then 2 else k + 1
  }

  lemma {:induction false} GrownEdges(n: nat, k: nat)
    requires k <= ARTIFACTS + n + 2
    ensures TotalEdges(Grown(n).blobs[..k]) == EdgesUpTo(k)
  {
    if k > 0 {
      GrownEdges(n, k - 1);
      var blobs := Grown(n).blobs;
      assert blobs[..k][..k - 1] == blobs[..k - 1];
      assert blobs[k - 1] == GrownBlob(n, k - 1);
    }
  }

  lemma {:induction false} GrownRoomy(m: nat, n: nat)
    requires m <= n <= LONGEST
    ensures Roomy(Tight(n), Grown(m).blobs)
  {
    var blobs := Grown(m).blobs;
    GrownEdges(m, |blobs|);
    assert blobs[..|blobs|] == blobs;
  }

  /** How long a chain of dependencies can get below blob i. */
  function Level(i: nat): nat {
    if i < 3 then i else if i < 7 then 0 else i - 4
  }

  lemma {:induction false} EdgeDescends(n: nat, i: nat, j: nat)
    requires n <= LONGEST && i < ARTIFACTS + n + 2 && j < ARTIFACTS + n + 2 && DependsOn(Grown(n).blobs, i, j)
    ensures Level(j) < Level(i)
  {
    var blobs := Grown(n).blobs;
    assert blobs[i] == GrownBlob(n, i) && blobs[j] == GrownBlob(n, j);
    if i < ARTIFACTS { NeedsInOrder(i, true, true); }
  }

  lemma {:induction false} LevelsBound(n: nat, w: seq<nat>)
    requires n <= LONGEST && Walk(GraphOf(Grown(n).blobs), w)
    ensures |w| <= Level(w[0]) + 1
    decreases |w|
  {
    var g := GraphOf(Grown(n).blobs);
    if |w| > 1 {
      Tail(g, w);
      LevelsBound(n, w[1..]);
      assert w[1] in g[w[0]] && w[0] < |g|;
      EdgeDescends(n, w[0], w[1]);
    }
  }

  lemma {:induction false} GrownShallow(m: nat, n: nat)
    requires m <= n <= LONGEST
    ensures Bounded(GraphOf(Grown(m).blobs), Tight(n).dependencyDepth)
  {
    var g := GraphOf(Grown(m).blobs);
    forall w | Walk(g, w)
      ensures |w| <= m + 6
    {
      LevelsBound(m, w);
      assert w[0] < |g|;
    }
  }

  lemma {:induction false} GrownAccepted(m: nat, n: nat)
    requires m <= n <= LONGEST
    ensures Accepted(Grown(m).blobs, Used(Grown(m)), Tight(n))
  {
    var grown := Grown(m);
    GrownTidy(m);
    forall i: nat | i < |grown.blobs|
      ensures Named(grown, grown.blobs[i].id)
    {
      GrownNamed(m, i);
    }
    GrownRoomy(m, n);
    GrownShallow(m, n);
    TidyAccepted(grown, Tight(n));
  }

  lemma {:induction false} GrownRole(n: nat, i: nat, role: BlobKind)
    requires i < ARTIFACTS + n + 2 && role in GrownBlob(n, i).roles
    ensures HasRole(Grown(n), GrownBlob(n, i).id, role)
  {
    assert Grown(n).blobs[i] == GrownBlob(n, i);
  }

  lemma {:induction false} GrownBlocksFit(n: nat)
    ensures AllHaveRole(Grown(n), GrownBlocks(n), Block) && DistinctSeq(GrownBlocks(n))
  {
    forall id | id in GrownBlocks(n)
      ensures HasRole(Grown(n), id, Block)
    {
      GrownRole(n, id - 1, Block);
    }
  }

  lemma {:induction false} GrownRuntimeFits(n: nat)
    ensures AllHaveRole(Grown(n), [1, 2, 3], RuntimeDependency)
  {
    GrownRole(n, 0, RuntimeDependency);
    GrownRole(n, 1, RuntimeDependency);
    GrownRole(n, 2, RuntimeDependency);
  }

  lemma {:induction false} GrownExecutionFits(n: nat)
    ensures HasRole(Grown(n), 4, Program) && HasRole(Grown(n), 4, Replayer) && HasRole(Grown(n), 5, BlobKind.Rules)
    ensures HasRole(Grown(n), 6, BuildInputs) && HasRole(Grown(n), 6, Toolchain)
  {
    GrownRole(n, 3, Program);
    GrownRole(n, 3, Replayer);
    GrownRole(n, 4, BlobKind.Rules);
    GrownRole(n, 5, BuildInputs);
    GrownRole(n, 5, Toolchain);
  }

  lemma {:induction false} GrownSessionFits(n: nat)
    ensures SessionNamed(Grown(n), GrownSession(n)) && SessionLists(GrownSession(n))
  {
    GrownRole(n, 7, Genesis);
    GrownRole(n, 6, Consensus);
    GrownRole(n, ARTIFACTS + n, Head);
    GrownRole(n, ARTIFACTS + n + 1, Checkpoint);
    GrownExecutionFits(n);
    GrownRuntimeFits(n);
    GrownBlocksFit(n);
  }

  lemma {:induction false} GrownStructured(rules: Rules, m: nat, n: nat)
    requires m <= n <= LONGEST && rules.wellFormed(Tight(n), Grown(m))
    ensures Structured(rules, Tight(n), Grown(m))
  {
    var grown := Grown(m);
    GrownAccepted(m, n);
    GrownSorted(m);
    GrownSessionFits(m);
    assert SessionIds(grown) == [5];
    assert grown.sessions[..0] == [] && BlockCount(grown.sessions) == m;
  }

  // ----------------------------------------------------------- the later covers the earlier

  lemma {:induction false} LaterHasBlob(m: nat, n: nat, i: nat)
    requires m <= n && i < ARTIFACTS + m
    ensures ArtifactKept([Grown(n)], GrownBlob(m, i))
  {
    var b := GrownBlob(m, i);
    assert Grown(n).blobs[i] == GrownBlob(n, i) == b;
    assert [Grown(n)][0] == Grown(n) && KeptIn([Grown(n)], b) && HasAllOf(b, b);
  }

  /** The history of the shorter begins the longer, and only its head and checkpoint are gone. */
  lemma {:induction false} LaterCoversEarlier(m: nat, n: nat)
    requires m <= n
    ensures NothingLost([Grown(n)], Grown(m))
  {
    var early, late := Grown(m), Grown(n);
    assert SessionKeptIn([late], GrownSession(n)) by { assert [late][0] == late; }
    assert BeginsWith(GrownSession(n), GrownSession(m));
    forall i | 0 <= i < |early.blobs|
      ensures Superseded(early, early.blobs[i]) || ArtifactKept([late], early.blobs[i])
    {
      assert early.blobs[i] == GrownBlob(m, i);
      if i < ARTIFACTS + m {
        LaterHasBlob(m, n, i);
      } else {
        assert early.sessions[0] == GrownSession(m);
      }
    }
  }

  // -------------------------------------------------------------------------- the plan

  const LATER := Catalog(1, 2, {6})
  const EARLIER := Catalog(3, 1, {6})

  /** Keep the later archive, protect it, and collect the earlier. */
  function GrowthPlan(n: nat): Plan {
    Plan([4], [LATER], [EARLIER], [LATER.commitment], Tight(n))
  }

  /** References to every block of the session, all into the later archive. */
  function Pins(n: nat): (pins: seq<Pin>)
    ensures |pins| == n && forall h: nat :: h < n ==> pins[h] == Pin(LATER.commitment, 5, h, GrownBlocks(n)[h], BYTES)
  {
    seq(n, h requires 0 <= h < n => Pin(LATER.commitment, 5, h, GrownBlocks(n)[h], BYTES))
  }

  function GrowthDisk(m: nat, n: nat): Disk {
    Disk(map[LATER.path := WholeArchive(Grown(n)), EARLIER.path := WholeArchive(Grown(m))], map[4 := Pins(n)])
  }

  /** Rules that accept the two manifests and tell them apart. */
  ghost predicate AcceptsBoth(rules: Rules, m: nat, n: nat) {
    && rules.wellFormed(Tight(n), Grown(m)) && rules.audited(Grown(m)) && rules.commitment(Grown(m)) == EARLIER.commitment
    && rules.wellFormed(Tight(n), Grown(n)) && rules.audited(Grown(n)) && rules.commitment(Grown(n)) == LATER.commitment
    && rules.databaseBudget(Tight(n), AllPins(GrowthDisk(m, n), [4])) && WithinBudget(rules, GrowthPlan(n), GrowthDisk(m, n))
  }

  lemma {:induction false} GrowthPlanValid(n: nat)
    requires 0 < n <= LONGEST
    ensures ValidPlan(GrowthPlan(n))
  {
    var p := GrowthPlan(n);
    var catalogs := p.archives + p.candidates;
    assert catalogs == [LATER, EARLIER];
    assert Paths(catalogs) + p.databases == [1, 3, 4] && Commitments(catalogs) == [2, 1];
    assert Commitments(catalogs)[0] == 2;
  }

  lemma {:induction false} GrownBytes(n: nat, b: Blob)
    requires b in Grown(n).blobs
    ensures b.bytes == BYTES
  {
    var i :| 0 <= i < |Grown(n).blobs| && Grown(n).blobs[i] == b;
  }

  lemma {:induction false} GrownOpens(rules: Rules, disk: Disk, c: Catalog, m: nat, n: nat)
    requires m <= n <= LONGEST && c.trust == {6} && rules.commitment(Grown(m)) == c.commitment
    requires rules.wellFormed(Tight(n), Grown(m)) && rules.audited(Grown(m))
    requires DirectoryAt(disk, c.path) == WholeArchive(Grown(m))
    ensures KeeperOpens(rules, Tight(n), disk, c) && KeeperManifest(disk, c) == Grown(m)
    ensures CandidateOpens(rules, Tight(n), disk, c) && CandidateManifest(disk, c) == Grown(m)
  {
    var grown := Grown(m);
    assert Structured(rules, Tight(n), grown) by { GrownStructured(rules, m, n); }
    forall b | b in grown.blobs
      ensures b.bytes == BYTES
    {
      GrownBytes(m, b);
    }
    assert Identified(rules, c, grown);
    WholeOpens(rules, Tight(n), disk, c, grown);
  }

  lemma {:induction false} PinsResolve(disk: Disk, n: nat, h: nat)
    requires KeeperManifest(disk, LATER) == Grown(n) && h < n
    ensures PinResolves(disk, [LATER], Pins(n)[h])
  {
    var m, pin := Grown(n), Pins(n)[h];
    assert GrownSession(n) in m.sessions && GrownSession(n).blocks[h] == pin.blob;
    assert m.blobs[ARTIFACTS + h] == GrownBlob(n, ARTIFACTS + h);
    assert LATER in [LATER] && NamesBlock(m, pin);
  }

  lemma {:induction false} GrowthPinned(m: nat, n: nat)
    requires KeeperManifest(GrowthDisk(m, n), LATER) == Grown(n)
    ensures DatabaseKept(GrowthDisk(m, n), [LATER], 4)
  {
    forall pin | pin in Pins(n)
      ensures PinResolves(GrowthDisk(m, n), [LATER], pin)
    {
      var h :| 0 <= h < n && Pins(n)[h] == pin;
      PinsResolve(GrowthDisk(m, n), n, h);
    }
  }

  /** COLLECTION GOES AHEAD.  Whatever the two lengths, the plan passes although the kept archive has
      strictly more blocks than the collected one. */
  lemma {:induction false} LongerKeeperPasses(rules: Rules, m: nat, n: nat)
    requires m < n <= LONGEST && AcceptsBoth(rules, m, n)
    ensures Passes(rules, GrowthPlan(n), GrowthDisk(m, n))
    ensures KeeperManifest(GrowthDisk(m, n), LATER) == Grown(n) && |Grown(n).sessions[0].blocks| == n
    ensures CandidateManifest(GrowthDisk(m, n), EARLIER) == Grown(m) && |Grown(m).sessions[0].blocks| == m
  {
    var disk, plan := GrowthDisk(m, n), GrowthPlan(n);
    GrowthPlanValid(n);
    GrownOpens(rules, disk, LATER, n, n);
    GrownOpens(rules, disk, EARLIER, m, n);
    GrowthPinned(m, n);
    assert Covered([Grown(n)], Grown(m)) by {
      LaterCoversEarlier(m, n);
      CoverageExactly([Grown(n)], Grown(m));
    }
    OneKeeperPasses(rules, plan, disk, LATER, EARLIER, Grown(n));
  }

  /** Commitments tell the longer manifest from the others; nothing is refused. */
  function GrowthRules(n: nat): Rules {
    Rules.Rules(x => if x == Grown(n) then LATER.commitment else EARLIER.commitment,
                (_, _) => true, _ => true, (_, _) => true, (_, _) => true)
  }

  lemma {:induction false} GrowthRulesAccept(m: nat, n: nat)
    requires m < n
    ensures AcceptsBoth(GrowthRules(n), m, n)
  {
    assert |Grown(m).blobs| != |Grown(n).blobs|;
  }

  /** There are such rules, so for every pair of lengths the plan does pass. */
  lemma {:induction false} GrowthAlwaysCollectable(m: nat, n: nat)
    requires m < n <= LONGEST
    ensures exists rules: Rules :: Passes(rules, GrowthPlan(n), GrowthDisk(m, n))
  {
    GrowthRulesAccept(m, n);
    LongerKeeperPasses(GrowthRules(n), m, n);
  }
}
