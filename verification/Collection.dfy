/** Reclaiming superseded archives: the plan, and the check that keepers cover a candidate. */
module Collection {
  import opened Prelude
  import opened Manifest

  datatype Execution = Execution(
    program: Hash32, replayer: Hash32, rules: Hash32, buildInputs: Hash32, toolchain: Hash32, runtime: seq<Hash32>)

  datatype Session = Session(
    id: Hash32, anchor: Hash32, genesis: Hash32, consensus: Hash32, head: Hash32, checkpoint: Hash32,
    blocks: seq<Hash32>, handoffs: seq<Hash32>, evidence: seq<Hash32>, execution: Execution)

  datatype BundleManifest = BundleManifest(roots: seq<Hash32>, sessions: seq<Session>, blobs: seq<Blob>)

  /** Path 0 is the empty path, commitment 0 the all-zero one. */
  datatype Catalog = Catalog(path: nat, commitment: Hash32, trust: set<Hash32>)

  datatype Plan = Plan(databases: seq<nat>, archives: seq<Catalog>, candidates: seq<Catalog>, protected: seq<Hash32>, limits: Limits)

  // ----------------------------------------------------------------------- the plan

  ghost predicate DistinctSeq<T>(s: seq<T>) {
    forall i, j :: 0 <= i < j < |s| ==> s[i] != s[j]
  }

  function Paths(catalogs: seq<Catalog>): (s: seq<nat>)
    ensures |s| == |catalogs| && forall i :: 0 <= i < |s| ==> s[i] == catalogs[i].path
  {
    seq(|catalogs|, i requires 0 <= i < |catalogs| => catalogs[i].path)
  }

  function Commitments(catalogs: seq<Catalog>): (s: seq<Hash32>)
    ensures |s| == |catalogs| && forall i :: 0 <= i < |s| ==> s[i] == catalogs[i].commitment
  {
    seq(|catalogs|, i requires 0 <= i < |catalogs| => catalogs[i].commitment)
  }

  predicate Sized(p: Plan) {
    && 0 < |p.databases| <= 1024 && p.archives != [] && p.candidates != []
    && |p.archives| + |p.candidates| <= 1024 && |p.protected| <= 1024 && ValidLimits(p.limits)
  }

  /** Every path and every commitment of the plan is present and used once. */
  ghost predicate Separate(p: Plan) {
    var catalogs := p.archives + p.candidates;
    && DistinctSeq(Paths(catalogs) + p.databases) && 0 !in Paths(catalogs) + p.databases
    && DistinctSeq(Commitments(catalogs)) && 0 !in Commitments(catalogs)
  }

  ghost predicate ProtectedListed(p: Plan) {
    && Ascending(p.protected)
    && forall id :: id in p.protected ==> id in Commitments(p.archives + p.candidates)
  }

  ghost predicate ProtectedKept(p: Plan) {
    forall c :: c in p.candidates ==> c.commitment !in p.protected
  }

  ghost predicate ValidPlan(p: Plan) {
    Sized(p) && Separate(p) && ProtectedListed(p) && ProtectedKept(p)
  }

  /** Collect distinct nonzero values; false at the first repeated or zero one. */
  method InsertAll(values: seq<nat>, seen: set<nat>, ghost before: seq<nat>) returns (ok: bool, all: set<nat>)
    requires DistinctSeq(before) && 0 !in before && forall x :: x in seen <==> x in before
    ensures ok <==> DistinctSeq(before + values) && 0 !in before + values
    ensures ok ==> forall x :: x in all <==> x in before + values
  {
    all := seen;
    for i := 0 to |values|
      invariant DistinctSeq(before + values[..i]) && 0 !in before + values[..i]
      invariant forall x :: x in all <==> x in before + values[..i]
    {
      var whole, part := before + values, before + values[..i];
      assert forall k :: 0 <= k < |part| ==> whole[k] == part[k];
      assert whole[|part|] == values[i] && values[i] in whole;
      if values[i] == 0 || values[i] in all {
        if values[i] in part {
          var k :| 0 <= k < |part| && part[k] == values[i];
          assert whole[k] == whole[|part|];
        }
        return false, all;
      }
      all := all + {values[i]};
      assert before + values[..i + 1] == part + [values[i]];
    }
    assert values[..|values|] == values;
    ok := true;
  }

  method ValidatePlan(p: Plan) returns (error: Option<InventoryError>)
    ensures error.None? <==> ValidPlan(p)
    ensures error == Some(Limit) <==> !Sized(p)
    ensures error == Some(MissingDependency) <==> Sized(p) && Separate(p) && ProtectedListed(p) && !ProtectedKept(p)
  {
    if !(0 < |p.databases| <= 1024 && p.archives != [] && p.candidates != []
         && |p.archives| + |p.candidates| <= 1024 && |p.protected| <= 1024 && ValidLimits(p.limits)) {
      return Some(Limit);
    }
    var separate, identities := CheckNames(p);
    if !separate {
      return Some(Format);
    }
    var sorted := SortedUnique(p.protected);
    if !sorted || exists id :: id in p.protected && id !in identities {
      return Some(Format);
    }
    if exists c :: c in p.candidates && c.commitment in p.protected {
      return Some(MissingDependency);
    }
    error := None;
  }

  /** Paths and commitments of the catalogs, then the database paths against the same set. */
  method CheckNames(p: Plan) returns (ok: bool, identities: set<Hash32>)
    ensures ok <==> Separate(p)
    ensures ok ==> forall id :: id in identities <==> id in Commitments(p.archives + p.candidates)
  {
    var catalogs := p.archives + p.candidates;
    var pathsOk, paths := InsertAll(Paths(catalogs), {}, []);
    var identitiesOk;
    identitiesOk, identities := InsertAll(Commitments(catalogs), {}, []);
    assert [] + Paths(catalogs) == Paths(catalogs) && [] + Commitments(catalogs) == Commitments(catalogs);
    PathsOfCatalogs(p);
    if !pathsOk || !identitiesOk {
      return false, identities;
    }
    var all;
    ok, all := InsertAll(p.databases, paths, Paths(catalogs));
  }

  /** The paths of the catalogs are a prefix of all paths, so they too are distinct. */
  lemma {:induction false} PathsOfCatalogs(p: Plan)
    ensures Separate(p) ==> DistinctSeq(Paths(p.archives + p.candidates)) && 0 !in Paths(p.archives + p.candidates)
  {
    var front, all := Paths(p.archives + p.candidates), Paths(p.archives + p.candidates) + p.databases;
    assert forall k :: 0 <= k < |front| ==> all[k] == front[k];
    assert forall x :: x in front ==> x in all;
  }

  // ---------------------------------------------------------------------- coverage

  /** A kept session with the same anchor whose blocks extend the candidate's. */
  predicate Continues(kept: Session, session: Session) {
    && kept.anchor == session.anchor && kept.genesis == session.genesis
    && kept.consensus == session.consensus && session.blocks <= kept.blocks
  }

  /** A kept copy with the same size, all the roles and all the direct dependencies. */
  predicate Preserves(kept: Blob, blob: Blob) {
    && kept.bytes == blob.bytes
    && (forall r :: r in blob.roles ==> r in kept.roles)
    && (forall d :: d in blob.dependencies ==> d in kept.dependencies)
  }

  /** An operational snapshot: only a head or checkpoint, and named as one by a session. */
  predicate IsSnapshot(m: BundleManifest, blob: Blob) {
    && (forall r :: r in blob.roles ==> r == Head || r == Checkpoint)
    && (exists s :: s in m.sessions && (s.head == blob.id || s.checkpoint == blob.id))
  }

  ghost predicate KeptIn(keepers: seq<BundleManifest>, kept: Blob) {
    exists k :: 0 <= k < |keepers| && kept in keepers[k].blobs
  }

  ghost predicate SessionKeptIn(keepers: seq<BundleManifest>, kept: Session) {
    exists k :: 0 <= k < |keepers| && kept in keepers[k].sessions
  }

  ghost predicate BlobCovered(keepers: seq<BundleManifest>, blob: Blob) {
    exists kept :: KeptIn(keepers, kept) && kept.id == blob.id && Preserves(kept, blob)
  }

  ghost predicate SessionCovered(keepers: seq<BundleManifest>, s: Session) {
    exists kept :: SessionKeptIn(keepers, kept) && kept.id == s.id && Continues(kept, s)
  }

  /** Everything but superseded snapshots survives in the keepers. */
  ghost predicate Covered(keepers: seq<BundleManifest>, m: BundleManifest) {
    && (forall s :: s in m.sessions ==> SessionCovered(keepers, s))
    && (forall b :: b in m.blobs ==> IsSnapshot(m, b) || BlobCovered(keepers, b))
  }

  /** A keeper has a session of that id, anchor, genesis and consensus whose block list begins with
      the candidate's. */
  ghost predicate HistoryKept(keepers: seq<BundleManifest>, s: Session) {
    exists kept :: SessionKeptIn(keepers, kept) && BeginsWith(kept, s)
  }

  ghost predicate BeginsWith(kept: Session, s: Session) {
    && kept.id == s.id && kept.anchor == s.anchor && kept.genesis == s.genesis && kept.consensus == s.consensus
    && |s.blocks| <= |kept.blocks| && forall i :: 0 <= i < |s.blocks| ==> kept.blocks[i] == s.blocks[i]
  }

  /** A keeper has a blob of that id and size with at least the roles and dependencies. */
  ghost predicate ArtifactKept(keepers: seq<BundleManifest>, b: Blob) {
    exists kept :: KeptIn(keepers, kept) && HasAllOf(kept, b)
  }

  ghost predicate HasAllOf(kept: Blob, b: Blob) {
    && kept.id == b.id && kept.bytes == b.bytes
    && (forall i :: 0 <= i < |b.roles| ==> b.roles[i] in kept.roles)
    && (forall i :: 0 <= i < |b.dependencies| ==> b.dependencies[i] in kept.dependencies)
  }

  /** Nothing but a head or a checkpoint, and a session's own. */
  ghost predicate Superseded(m: BundleManifest, b: Blob) {
    && (forall i :: 0 <= i < |b.roles| ==> b.roles[i] == Head || b.roles[i] == Checkpoint)
    && exists i :: 0 <= i < |m.sessions| && (m.sessions[i].head == b.id || m.sessions[i].checkpoint == b.id)
  }

  /** What coverage is for: every history is the beginning of a kept one, and every blob but
      superseded snapshots has a kept copy that can stand in for it. */
  ghost predicate NothingLost(keepers: seq<BundleManifest>, m: BundleManifest) {
    && (forall i :: 0 <= i < |m.sessions| ==> HistoryKept(keepers, m.sessions[i]))
    && (forall i :: 0 <= i < |m.blobs| ==> Superseded(m, m.blobs[i]) || ArtifactKept(keepers, m.blobs[i]))
  }

  lemma {:induction false} HistoryExactly(keepers: seq<BundleManifest>, s: Session)
    ensures SessionCovered(keepers, s) <==> HistoryKept(keepers, s)
  {
    if kept :| SessionKeptIn(keepers, kept) && kept.id == s.id && Continues(kept, s) {
      assert BeginsWith(kept, s);
    }
    if kept :| SessionKeptIn(keepers, kept) && BeginsWith(kept, s) {
      assert kept.blocks[..|s.blocks|] == s.blocks;
      assert Continues(kept, s);
    }
  }

  lemma {:induction false} ArtifactExactly(keepers: seq<BundleManifest>, b: Blob)
    ensures BlobCovered(keepers, b) <==> ArtifactKept(keepers, b)
  {
    if kept :| KeptIn(keepers, kept) && kept.id == b.id && Preserves(kept, b) {
      assert HasAllOf(kept, b);
    }
    if kept :| KeptIn(keepers, kept) && HasAllOf(kept, b) {
      assert Preserves(kept, b);
    }
  }

  lemma {:induction false} SnapshotExactly(m: BundleManifest, b: Blob)
    ensures IsSnapshot(m, b) <==> Superseded(m, b)
  {
    if IsSnapshot(m, b) {
      var s :| s in m.sessions && (s.head == b.id || s.checkpoint == b.id);
      var i :| 0 <= i < |m.sessions| && m.sessions[i] == s;
      assert forall k :: 0 <= k < |b.roles| ==> b.roles[k] in b.roles;
    }
    if Superseded(m, b) {
      var i :| 0 <= i < |m.sessions| && (m.sessions[i].head == b.id || m.sessions[i].checkpoint == b.id);
      assert m.sessions[i] in m.sessions;
      forall r | r in b.roles
        ensures r == Head || r == Checkpoint
      {
        var k :| 0 <= k < |b.roles| && b.roles[k] == r;
      }
    }
  }

  /** The check asks for exactly that nothing is lost. */
  lemma {:induction false} CoverageExactly(keepers: seq<BundleManifest>, m: BundleManifest)
    ensures Covered(keepers, m) <==> NothingLost(keepers, m)
  {
    forall s
      ensures SessionCovered(keepers, s) <==> HistoryKept(keepers, s)
    {
      HistoryExactly(keepers, s);
    }
    forall b
      ensures BlobCovered(keepers, b) <==> ArtifactKept(keepers, b)
      ensures IsSnapshot(m, b) <==> Superseded(m, b)
    {
      ArtifactExactly(keepers, b);
      SnapshotExactly(m, b);
    }
    assert (forall s :: s in m.sessions ==> SessionCovered(keepers, s)) <==> (forall i :: 0 <= i < |m.sessions| ==> HistoryKept(keepers, m.sessions[i]));
    assert (forall b :: b in m.blobs ==> IsSnapshot(m, b) || BlobCovered(keepers, b))
       <==> (forall i :: 0 <= i < |m.blobs| ==> Superseded(m, m.blobs[i]) || ArtifactKept(keepers, m.blobs[i]));
  }

  datatype Index = Index(sessions: map<Hash32, seq<Session>>, blobs: map<Hash32, seq<Blob>>)

  function Copies<T>(index: map<Hash32, seq<T>>, id: Hash32): seq<T> {
    if id in index then index[id] else []
  }

  ghost predicate IndexesKeepers(index: Index, keepers: seq<BundleManifest>) {
    && (forall id, s :: s in Copies(index.sessions, id) <==> SessionKeptIn(keepers, s) && s.id == id)
    && (forall id, b :: b in Copies(index.blobs, id) <==> KeptIn(keepers, b) && b.id == id)
  }

  /** The index built so far: all earlier keepers, and the first n sessions or blobs of this one. */
  method IndexSessions(sessions: seq<Session>, before: map<Hash32, seq<Session>>) returns (index: map<Hash32, seq<Session>>)
    ensures forall id, s :: s in Copies(index, id) <==> s in Copies(before, id) || (s in sessions && s.id == id)
  {
    index := before;
    for i := 0 to |sessions|
      invariant forall id, s :: s in Copies(index, id) <==> s in Copies(before, id) || (s in sessions[..i] && s.id == id)
    {
      var one := sessions[i];
      assert sessions[..i + 1] == sessions[..i] + [one];
      index := index[one.id := Copies(index, one.id) + [one]];
    }
    assert sessions[..|sessions|] == sessions;
  }

  method IndexBlobs(blobs: seq<Blob>, before: map<Hash32, seq<Blob>>) returns (index: map<Hash32, seq<Blob>>)
    ensures forall id, b :: b in Copies(index, id) <==> b in Copies(before, id) || (b in blobs && b.id == id)
  {
    index := before;
    for i := 0 to |blobs|
      invariant forall id, b :: b in Copies(index, id) <==> b in Copies(before, id) || (b in blobs[..i] && b.id == id)
    {
      var one := blobs[i];
      assert blobs[..i + 1] == blobs[..i] + [one];
      index := index[one.id := Copies(index, one.id) + [one]];
    }
    assert blobs[..|blobs|] == blobs;
  }

  lemma {:induction false} OneMoreKeeper(keepers: seq<BundleManifest>, i: nat)
    requires i < |keepers|
    ensures forall s :: SessionKeptIn(keepers[..i + 1], s) <==> SessionKeptIn(keepers[..i], s) || s in keepers[i].sessions
    ensures forall b :: KeptIn(keepers[..i + 1], b) <==> KeptIn(keepers[..i], b) || b in keepers[i].blobs
  {
    var front, all := keepers[..i], keepers[..i + 1];
    assert forall k :: 0 <= k < i ==> all[k] == front[k];
    assert all[i] == keepers[i];
  }

  method NewCoverage(keepers: seq<BundleManifest>) returns (index: Index)
    ensures IndexesKeepers(index, keepers)
  {
    var sessions: map<Hash32, seq<Session>>, blobs: map<Hash32, seq<Blob>> := map[], map[];
    for i := 0 to |keepers|
      invariant IndexesKeepers(Index(sessions, blobs), keepers[..i])
    {
      OneMoreKeeper(keepers, i);
      sessions := IndexSessions(keepers[i].sessions, sessions);
      blobs := IndexBlobs(keepers[i].blobs, blobs);
    }
    assert keepers[..|keepers|] == keepers;
    index := Index(sessions, blobs);
  }

  method CheckSessions(index: Index, ghost keepers: seq<BundleManifest>, m: BundleManifest) returns (ok: bool, snapshots: set<Hash32>)
    requires IndexesKeepers(index, keepers)
    ensures ok <==> forall s :: s in m.sessions ==> SessionCovered(keepers, s)
    ensures ok ==> forall id :: id in snapshots <==> exists s :: s in m.sessions && (s.head == id || s.checkpoint == id)
  {
    snapshots := {};
    for i := 0 to |m.sessions|
      invariant forall k :: 0 <= k < i ==> SessionCovered(keepers, m.sessions[k])
      invariant forall id :: id in snapshots <==> exists k :: 0 <= k < i && (m.sessions[k].head == id || m.sessions[k].checkpoint == id)
    {
      var s := m.sessions[i];
      var copies := Copies(index.sessions, s.id);
      var kept := exists c :: c in copies && Continues(c, s);
      if !kept {
        assert !SessionCovered(keepers, s) && s in m.sessions;
        return false, snapshots;
      }
      assert SessionCovered(keepers, s);
      snapshots := snapshots + {s.head, s.checkpoint};
    }
    ok := true;
  }

  method CheckCoverage(index: Index, ghost keepers: seq<BundleManifest>, m: BundleManifest) returns (ok: bool)
    requires IndexesKeepers(index, keepers)
    ensures ok <==> Covered(keepers, m)
    ensures ok <==> NothingLost(keepers, m)
  {
    CoverageExactly(keepers, m);
    var sessionsOk, snapshots := CheckSessions(index, keepers, m);
    if !sessionsOk {
      return false;
    }
    for i := 0 to |m.blobs|
      invariant forall k :: 0 <= k < i ==> IsSnapshot(m, m.blobs[k]) || BlobCovered(keepers, m.blobs[k])
    {
      var blob := m.blobs[i];
      assert blob in m.blobs;
      var snapshot := (forall r :: r in blob.roles ==> r == Head || r == Checkpoint) && blob.id in snapshots;
      assert snapshot <==> IsSnapshot(m, blob);
      var copies := Copies(index.blobs, blob.id);
      if !snapshot && !exists kept :: kept in copies && Preserves(kept, blob) {
        assert !BlobCovered(keepers, blob);
        return false;
      }
    }
    ok := true;
  }

  // ---------------------------------------------------------- what coverage preserves

  /** A role that no operational snapshot has: the blob must never be lost. */
  predicate Lasting(blob: Blob) {
    exists r :: r in blob.roles && r != Head && r != Checkpoint
  }

  /** The manifest records that blob a needs blob b. */
  ghost predicate Needs(m: BundleManifest, a: Hash32, b: Hash32) {
    exists x :: x in m.blobs && x.id == a && b in x.dependencies
  }

  ghost predicate StepAt(path: seq<Blob>, i: nat)
    requires i + 1 < |path|
  {
    path[i + 1].id in path[i].dependencies
  }

  /** A dependency path over blobs that must never be lost. */
  ghost predicate LastingPath(m: BundleManifest, path: seq<Blob>) {
    && (forall i :: 0 <= i < |path| ==> path[i] in m.blobs && Lasting(path[i]))
    && (forall i: nat :: i + 1 < |path| ==> StepAt(path, i))
  }

  ghost predicate RecordedAt(m: BundleManifest, path: seq<Blob>, i: nat)
    requires i + 1 < |path|
  {
    Needs(m, path[i].id, path[i + 1].id)
  }

  /** The same path, step by step, in one manifest. */
  ghost predicate RecordsPath(m: BundleManifest, path: seq<Blob>) {
    forall i: nat :: i + 1 < |path| ==> RecordedAt(m, path, i)
  }

  /** The manifest records every edge of the other between lasting blobs. */
  ghost predicate RecordsEdges(k: BundleManifest, m: BundleManifest) {
    forall a, b :: a in m.blobs && Lasting(a) && b in m.blobs && Lasting(b) && b.id in a.dependencies ==> Needs(k, a.id, b.id)
  }

  /** One manifest records every lasting path of another if and only if it records every edge of it
      between lasting blobs. */
  lemma {:induction false} RecordsPathsExactly(k: BundleManifest, m: BundleManifest)
    ensures (forall path :: LastingPath(m, path) ==> RecordsPath(k, path)) <==> RecordsEdges(k, m)
  {
    forall path | RecordsEdges(k, m) && LastingPath(m, path)
      ensures RecordsPath(k, path)
    {
      forall i: nat | i + 1 < |path|
        ensures RecordedAt(k, path, i)
      {
        assert StepAt(path, i);
      }
    }
    forall a, b | (forall path :: LastingPath(m, path) ==> RecordsPath(k, path))
                  && a in m.blobs && Lasting(a) && b in m.blobs && Lasting(b) && b.id in a.dependencies
      ensures Needs(k, a.id, b.id)
    {
      EdgeIsPath(m, a, b);
      assert RecordedAt(k, [a, b], 0);
    }
  }

  lemma {:induction false} EdgeIsPath(m: BundleManifest, a: Blob, b: Blob)
    requires a in m.blobs && Lasting(a) && b in m.blobs && Lasting(b) && b.id in a.dependencies
    ensures LastingPath(m, [a, b])
  {
    assert StepAt([a, b], 0);
  }

  // --------------------------------------------------------------- a path held whole

  /** The same blob, with its length and all its roles. */
  predicate SameBlob(kept: Blob, blob: Blob) {
    kept.id == blob.id && kept.bytes == blob.bytes && forall r :: r in blob.roles ==> r in kept.roles
  }

  ghost predicate CopyOf(copy: seq<Blob>, path: seq<Blob>) {
    |copy| == |path| && forall i :: 0 <= i < |path| ==> SameBlob(copy[i], path[i])
  }

  /** The manifest has the path: the same blobs, lasting there too, with the same steps. */
  ghost predicate HoldsPath(k: BundleManifest, path: seq<Blob>) {
    exists copy :: LastingPath(k, copy) && CopyOf(copy, path)
  }

  ghost predicate HoldsBlob(k: BundleManifest, blob: Blob) {
    exists x :: x in k.blobs && SameBlob(x, blob)
  }

  /** The manifest has every lasting blob of the other and records every edge between them. */
  ghost predicate HoldsEdges(k: BundleManifest, m: BundleManifest) {
    (forall a :: a in m.blobs && Lasting(a) ==> HoldsBlob(k, a)) && RecordsEdges(k, m)
  }

  lemma {:induction false} CopyHolds(a: seq<Blob>, b: seq<Blob>, c: seq<Blob>)
    requires CopyOf(a, b) && CopyOf(b, c)
    ensures CopyOf(a, c)
  {
  }

  lemma {:induction false} OneBlobPerId(blobs: seq<Blob>, x: Blob, y: Blob)
    requires SortedIds(blobs) && x in blobs && y in blobs && x.id == y.id
    ensures x == y
  {
    var i :| 0 <= i < |blobs| && blobs[i] == x;
    var j :| 0 <= j < |blobs| && blobs[j] == y;
  }

  ghost function CopyIn(k: BundleManifest, blob: Blob): (x: Blob)
    requires HoldsBlob(k, blob)
    ensures x in k.blobs && SameBlob(x, blob)
  {
    var x :| x in k.blobs && SameBlob(x, blob);
    x
  }

  lemma {:induction false} PathCopied(k: BundleManifest, m: BundleManifest, path: seq<Blob>)
    requires SortedIds(k.blobs) && HoldsEdges(k, m) && LastingPath(m, path)
    ensures HoldsPath(k, path)
  {
    var copy := seq(|path|, i requires 0 <= i < |path| => CopyIn(k, path[i]));
    assert CopyOf(copy, path) && forall i :: 0 <= i < |path| ==> copy[i] in k.blobs;
    forall i: nat | i + 1 < |copy|
      ensures StepAt(copy, i)
    {
      assert StepAt(path, i);
      var x :| x in k.blobs && x.id == path[i].id && path[i + 1].id in x.dependencies;
      OneBlobPerId(k.blobs, x, copy[i]);
    }
    assert LastingPath(k, copy);
  }

  lemma {:induction false} EdgeHeld(k: BundleManifest, m: BundleManifest, a: Blob, b: Blob)
    requires a in m.blobs && Lasting(a) && b in m.blobs && Lasting(b) && b.id in a.dependencies
    requires HoldsPath(k, [a, b])
    ensures Needs(k, a.id, b.id)
  {
    var copy :| LastingPath(k, copy) && CopyOf(copy, [a, b]);
    assert StepAt(copy, 0) && SameBlob(copy[0], a) && SameBlob(copy[1], b);
  }

  lemma {:induction false} BlobHeld(k: BundleManifest, a: Blob)
    requires HoldsPath(k, [a])
    ensures HoldsBlob(k, a)
  {
    var copy :| LastingPath(k, copy) && CopyOf(copy, [a]);
    assert SameBlob(copy[0], a);
  }

  /** Among any keepers, one holds every lasting path of a candidate whole if and only if it has
      every lasting blob of it and records every edge between them. */
  lemma {:induction false} HoldsPathsExactly(k: BundleManifest, m: BundleManifest)
    requires SortedIds(k.blobs)
    ensures (forall path :: LastingPath(m, path) ==> HoldsPath(k, path)) <==> HoldsEdges(k, m)
  {
    forall path | HoldsEdges(k, m) && LastingPath(m, path)
      ensures HoldsPath(k, path)
    {
      PathCopied(k, m, path);
    }
    if forall path :: LastingPath(m, path) ==> HoldsPath(k, path) {
      forall a | a in m.blobs && Lasting(a)
        ensures HoldsBlob(k, a)
      {
        assert LastingPath(m, [a]);
        BlobHeld(k, a);
      }
      forall a, b | a in m.blobs && Lasting(a) && b in m.blobs && Lasting(b) && b.id in a.dependencies
        ensures Needs(k, a.id, b.id)
      {
        EdgeIsPath(m, a, b);
        EdgeHeld(k, m, a, b);
      }
    }
  }

  /** A keeper that is the only one holds every lasting path of what it covers. */
  lemma {:induction false} OnlyKeeperHolds(keeper: BundleManifest, m: BundleManifest)
    requires Covered([keeper], m)
    ensures HoldsEdges(keeper, m)
  {
    forall a | a in m.blobs && Lasting(a)
      ensures exists x :: x in keeper.blobs && x.id == a.id && Preserves(x, a)
    {
      assert BlobCovered([keeper], a);
      var kept :| KeptIn([keeper], kept) && kept.id == a.id && Preserves(kept, a);
      assert kept in keeper.blobs;
    }
    forall a | a in m.blobs && Lasting(a)
      ensures HoldsBlob(keeper, a)
    {
      var x :| x in keeper.blobs && x.id == a.id && Preserves(x, a);
      assert SameBlob(x, a);
    }
  }
}
