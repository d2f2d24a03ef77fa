/** The disk a collection works on, everything it checks before the first change, and what its
    file operations do. */
module ArchiveDisk {
  import opened Prelude
  import opened Manifest
  import opened Collection

  /** A file, by the digest of its content and its length. */
  datatype File = File(digest: Hash32, length: nat)

  datatype Document = Readable(manifest: BundleManifest) | Unreadable

  /** An archive directory: manifest.json, gc.pending, any other member, and the blob files. */
  datatype Directory = Directory(
    manifest: Option<Document>, marker: Option<Document>, others: set<nat>, blobs: map<Hash32, File>)

  /** A database's reference to a block it no longer holds itself. */
  datatype Pin = Pin(archive: Hash32, session: Hash32, height: nat, blob: Hash32, bytes: nat)

  datatype Disk = Disk(directories: map<nat, Directory>, databases: map<nat, seq<Pin>>)

  /** What is decided outside this model: the manifest commitment, its format and the descriptions
      in its sessions, the audit of recognised content, and the budgets. */
  datatype Rules = Rules(
    commitment: BundleManifest -> Hash32,
    wellFormed: (Limits, BundleManifest) -> bool,
    audited: BundleManifest -> bool,
    catalogBudget: (Limits, seq<BundleManifest>) -> bool,
    databaseBudget: (Limits, seq<seq<Pin>>) -> bool)

  // ----------------------------------------------------------------- opening archives

  predicate HasRole(m: BundleManifest, id: Hash32, role: BlobKind) {
    exists b :: b in m.blobs && b.id == id && role in b.roles
  }

  predicate AllHaveRole(m: BundleManifest, ids: seq<Hash32>, role: BlobKind) {
    forall id :: id in ids ==> HasRole(m, id, role)
  }

  /** Every blob a session names is there with the role it is named for. */
  predicate SessionNamed(m: BundleManifest, s: Session) {
    && HasRole(m, s.genesis, Genesis) && HasRole(m, s.consensus, Consensus)
    && HasRole(m, s.head, Head) && HasRole(m, s.checkpoint, Checkpoint)
    && HasRole(m, s.execution.program, Program) && HasRole(m, s.execution.replayer, Replayer)
    && HasRole(m, s.execution.rules, BlobKind.Rules) && HasRole(m, s.execution.buildInputs, BuildInputs)
    && HasRole(m, s.execution.toolchain, Toolchain)
    && AllHaveRole(m, s.blocks, Block) && AllHaveRole(m, s.handoffs, Handoff)
    && AllHaveRole(m, s.evidence, Evidence) && AllHaveRole(m, s.execution.runtime, RuntimeDependency)
  }

  /** No list of a session names a blob twice, and runtime dependencies ascend. */
  ghost predicate SessionLists(s: Session) {
    DistinctSeq(s.blocks) && DistinctSeq(s.handoffs) && DistinctSeq(s.evidence) && Ascending(s.execution.runtime)
  }

  predicate NamedBy(s: Session, id: Hash32) {
    var x := s.execution;
    || id in [s.genesis, s.consensus, s.head, s.checkpoint, x.program, x.replayer, x.rules, x.buildInputs, x.toolchain]
    || id in s.blocks || id in s.handoffs || id in s.evidence || id in x.runtime
  }

  /** The positions of the blobs that sessions name. */
  function Used(m: BundleManifest): (used: set<nat>)
    ensures forall i :: i in used ==> i < |m.blobs|
  {
    set i: nat | i < |m.blobs| && exists s :: s in m.sessions && NamedBy(s, m.blobs[i].id)
  }

  function SessionIds(m: BundleManifest): (ids: seq<Hash32>)
    ensures |ids| == |m.sessions| && forall i :: 0 <= i < |ids| ==> ids[i] == m.sessions[i].id
  {
    seq(|m.sessions|, i requires 0 <= i < |m.sessions| => m.sessions[i].id)
  }

  function BlockCount(sessions: seq<Session>): nat {
    if sessions == [] then 0 else BlockCount(sessions[..|sessions| - 1]) + |sessions[|sessions| - 1].blocks|
  }

  ghost predicate Listed(limits: Limits, m: BundleManifest) {
    && m.blobs != [] && |m.blobs| <= limits.nodes && SortedIds(m.blobs)
    && m.sessions != [] && |m.sessions| <= limits.sessions && Ascending(SessionIds(m))
    && m.roots != [] && Ascending(m.roots) && (forall r :: r in m.roots ==> r in SessionIds(m))
  }

  /** The validation of a manifest. */
  ghost predicate Structured(rules: Rules, limits: Limits, m: BundleManifest) {
    && rules.wellFormed(limits, m) && Listed(limits, m)
    && (forall s :: s in m.sessions ==> SessionNamed(m, s) && SessionLists(s)) && BlockCount(m.sessions) <= limits.blocks
    && Accepted(m.blobs, Used(m), limits)
  }

  predicate FileHolds(blobs: map<Hash32, File>, b: Blob) {
    b.id in blobs && blobs[b.id] == File(b.id, b.bytes)
  }

  /** Every blob of the manifest is a file with its length and digest. */
  ghost predicate Holds(d: Directory, m: BundleManifest) {
    forall b :: b in m.blobs ==> FileHolds(d.blobs, b)
  }

  /** A directory that opens for reading: whole, and not marked for collection. */
  ghost predicate Archive(rules: Rules, limits: Limits, d: Directory, m: BundleManifest) {
    d.manifest == Some(Readable(m)) && Structured(rules, limits, m) && Holds(d, m)
  }

  predicate Identified(rules: Rules, c: Catalog, m: BundleManifest) {
    rules.commitment(m) == c.commitment && forall s :: s in m.sessions ==> s.anchor in c.trust
  }

  function DirectoryAt(disk: Disk, path: nat): Directory {
    if path in disk.directories then disk.directories[path] else Directory(None, None, {}, map[])
  }

  function Read(document: Option<Document>): BundleManifest {
    match document
    case Some(Readable(m)) => m
    case _ => BundleManifest([], [], [])
  }

  /** gc.pending where there is one, otherwise manifest.json. */
  function Found(d: Directory): Option<Document> {
    if d.marker.Some? then d.marker else d.manifest
  }

  function KeeperManifest(disk: Disk, c: Catalog): BundleManifest {
    Read(DirectoryAt(disk, c.path).manifest)
  }

  function CandidateManifest(disk: Disk, c: Catalog): BundleManifest {
    Read(Found(DirectoryAt(disk, c.path)))
  }

  ghost predicate KeeperOpens(rules: Rules, limits: Limits, disk: Disk, c: Catalog) {
    var m := KeeperManifest(disk, c);
    Archive(rules, limits, DirectoryAt(disk, c.path), m) && Identified(rules, c, m) && rules.audited(m)
  }

  /** Blob files carry an id of the manifest and the length it gives. */
  ghost predicate Described(blobs: map<Hash32, File>, m: BundleManifest) {
    forall id :: id in blobs ==> exists b :: b in m.blobs && b.id == id && blobs[id].length == b.bytes
  }

  /** A candidate holds one of the two documents and blobs, nothing else. Without the marker it is
      audited in full; with it any part of the blobs may be gone. */
  ghost predicate CandidateOpens(rules: Rules, limits: Limits, disk: Disk, c: Catalog) {
    var d, m := DirectoryAt(disk, c.path), CandidateManifest(disk, c);
    && d.others == {} && (d.manifest.Some? <==> d.marker.None?) && Found(d) == Some(Readable(m))
    && Structured(rules, limits, m) && Identified(rules, c, m) && Described(d.blobs, m)
    && (d.marker.None? ==> Holds(d, m) && rules.audited(m))
  }

  // ------------------------------------------------------------------- the whole plan

  function KeeperManifests(disk: Disk, catalogs: seq<Catalog>): (s: seq<BundleManifest>)
    ensures |s| == |catalogs| && forall i :: 0 <= i < |s| ==> s[i] == KeeperManifest(disk, catalogs[i])
  {
    seq(|catalogs|, i requires 0 <= i < |catalogs| => KeeperManifest(disk, catalogs[i]))
  }

  function CandidateManifests(disk: Disk, catalogs: seq<Catalog>): (s: seq<BundleManifest>)
    ensures |s| == |catalogs| && forall i :: 0 <= i < |s| ==> s[i] == CandidateManifest(disk, catalogs[i])
  {
    seq(|catalogs|, i requires 0 <= i < |catalogs| => CandidateManifest(disk, catalogs[i]))
  }

  /** The keeper names this block of this session, with this length. */
  predicate NamesBlock(m: BundleManifest, pin: Pin) {
    && (exists s :: s in m.sessions && s.id == pin.session && pin.height < |s.blocks| && s.blocks[pin.height] == pin.blob)
    && (exists b :: b in m.blobs && b.id == pin.blob && b.bytes == pin.bytes)
  }

  predicate PinResolves(disk: Disk, archives: seq<Catalog>, pin: Pin) {
    exists c :: c in archives && c.commitment == pin.archive && NamesBlock(KeeperManifest(disk, c), pin)
  }

  function PinsOf(disk: Disk, path: nat): seq<Pin> {
    if path in disk.databases then disk.databases[path] else []
  }

  function AllPins(disk: Disk, paths: seq<nat>): (s: seq<seq<Pin>>)
    ensures |s| == |paths| && forall i :: 0 <= i < |s| ==> s[i] == PinsOf(disk, paths[i])
  {
    seq(|paths|, i requires 0 <= i < |paths| => PinsOf(disk, paths[i]))
  }

  ghost predicate DatabaseKept(disk: Disk, archives: seq<Catalog>, path: nat) {
    path in disk.databases && forall pin :: pin in disk.databases[path] ==> PinResolves(disk, archives, pin)
  }

  ghost predicate KeepersOpen(rules: Rules, plan: Plan, disk: Disk) {
    forall c :: c in plan.archives ==> KeeperOpens(rules, plan.limits, disk, c)
  }

  ghost predicate DatabasesKept(rules: Rules, plan: Plan, disk: Disk) {
    && (forall path :: path in plan.databases ==> DatabaseKept(disk, plan.archives, path))
    && rules.databaseBudget(plan.limits, AllPins(disk, plan.databases))
  }

  ghost predicate CandidatesOpen(rules: Rules, plan: Plan, disk: Disk) {
    forall c :: c in plan.candidates ==> CandidateOpens(rules, plan.limits, disk, c)
  }

  ghost predicate CandidatesCovered(plan: Plan, disk: Disk) {
    forall c :: c in plan.candidates ==> Covered(KeeperManifests(disk, plan.archives), CandidateManifest(disk, c))
  }

  ghost predicate WithinBudget(rules: Rules, plan: Plan, disk: Disk) {
    rules.catalogBudget(plan.limits, KeeperManifests(disk, plan.archives) + CandidateManifests(disk, plan.candidates))
  }

  /** Everything that is checked before the first change. */
  ghost predicate Passes(rules: Rules, plan: Plan, disk: Disk) {
    && ValidPlan(plan) && KeepersOpen(rules, plan, disk) && DatabasesKept(rules, plan, disk)
    && CandidatesOpen(rules, plan, disk) && CandidatesCovered(plan, disk) && WithinBudget(rules, plan, disk)
  }

  // -------------------------------------------------------------------- the deletion

  /** One unlink call. */
  datatype Unlink = Unlink(path: nat, id: Hash32, bytes: nat)

  datatype State = State(disk: Disk, log: seq<Unlink>)

  /** Mark a candidate, or visit one of its blobs. */
  datatype Action = Mark(path: nat) | Visit(path: nat, blob: Blob)

  /** The file is there with the length the manifest gives. */
  predicate Unlinkable(disk: Disk, path: nat, blob: Blob) {
    var blobs := DirectoryAt(disk, path).blobs;
    blob.id in blobs && blobs[blob.id].length == blob.bytes
  }

  function Marked(d: Directory): Directory {
    if d.marker.Some? then d else d.(manifest := None, marker := d.manifest)
  }

  function SetDirectory(disk: Disk, path: nat, d: Directory): Disk {
    disk.(directories := disk.directories[path := d])
  }

  function Do(s: State, a: Action): State {
    var d := DirectoryAt(s.disk, a.path);
    if a.path !in s.disk.directories then s else
      match a
      case Mark(path) => s.(disk := SetDirectory(s.disk, path, Marked(d)))
      case Visit(path, blob) =>
        if !Unlinkable(s.disk, path, blob) then s
        else State(SetDirectory(s.disk, path, d.(blobs := d.blobs - {blob.id})), s.log + [Unlink(path, blob.id, blob.bytes)])
  }

  function Exec(s: State, actions: seq<Action>): State {
    if actions == [] then s else Do(Exec(s, actions[..|actions| - 1]), actions[|actions| - 1])
  }

  /** Mark, then the blobs in manifest order. */
  function Sweep(path: nat, blobs: seq<Blob>): (actions: seq<Action>)
    ensures |actions| == |blobs| + 1 && actions[0] == Mark(path)
    ensures forall i :: 0 < i < |actions| ==> actions[i] == Visit(path, blobs[i - 1])
  {
    [Mark(path)] + seq(|blobs|, i requires 0 <= i < |blobs| => Visit(path, blobs[i]))
  }

  /** Candidate after candidate. */
  function Actions(disk: Disk, candidates: seq<Catalog>): seq<Action> {
    if candidates == [] then [] else
      var n := |candidates| - 1;
      Actions(disk, candidates[..n]) + Sweep(candidates[n].path, CandidateManifest(disk, candidates[n]).blobs)
  }

  function Take<T>(s: seq<T>, n: nat): seq<T> {
    if n <= |s| then s[..n] else s
  }

  /** A run of the command that dies after n file operations, or finishes before that. A plan that
      does not pass changes nothing. */
  ghost function Run(rules: Rules, s: State, plan: Plan, n: nat): State {
    if Passes(rules, plan, s.disk) then Exec(s, Take(Actions(s.disk, plan.candidates), n)) else s
  }

  datatype Attempt = Attempt(plan: Plan, steps: nat)

  /** One run after the other, each with its own plan, each stopped anywhere. */
  ghost function Runs(rules: Rules, s: State, attempts: seq<Attempt>): State {
    if attempts == [] then s
    else Run(rules, Runs(rules, s, attempts[..|attempts| - 1]), attempts[|attempts| - 1].plan, attempts[|attempts| - 1].steps)
  }
}
