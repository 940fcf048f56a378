/** The file manifest and its difference to a new inventory: crates/workflow-code-intel/src/manifest.rs. */
module ManifestDiff {
  import opened Sequences
  import opened Bytes

  type Path = bytes

  datatype FileMetadata = FileMetadata(length: nat, modified: Option<nat>)

  datatype InventoryEntry = InventoryEntry(path: Path, metadata: FileMetadata)

  datatype ManifestEntry = ManifestEntry(hash: ContentDigest, metadata: FileMetadata, path: Path)

  type Entries = map<Path, ManifestEntry>

  datatype FileChange =
    | ToAdd(metadata: FileMetadata, path: Path)
    | ToHash(metadata: FileMetadata, path: Path)
    | ToDelete(path: Path)

  datatype ManifestPlan = ManifestPlan(changes: seq<FileChange>, kept: seq<ManifestEntry>)

  datatype ResolvedChange =
    | Added(path: Path)
    | Deleted(path: Path)
    | Modified(path: Path)
    | Renamed(from: Path, to: Path)

  datatype ManifestError = ChangedDuringRead | Unreadable

  datatype ManifestUpdate = ManifestUpdate(changes: seq<ResolvedChange>, entries: Entries)

  /** What reading and hashing a path gives; files may change or vanish between the inventory and the read. */
  type Observation = Path -> Result<(FileMetadata, ContentDigest), ManifestError>

  ghost predicate WellKeyed(entries: Entries) {
    forall p :: p in entries ==> entries[p].path == p
  }

  ghost predicate DistinctPaths(inventory: seq<InventoryEntry>) {
    forall i, j :: 0 <= i < j < |inventory| ==> inventory[i].path != inventory[j].path
  }

  ghost function PathsOf(inventory: seq<InventoryEntry>): set<Path> {
    set e | e in inventory :: e.path
  }

  function Hashes(entries: Entries): map<Path, ContentDigest> {
    map p | p in entries :: entries[p].hash
  }

  // ----- plan

  predicate Trusted(prior: Entries, e: InventoryEntry, trust: bool) {
    e.path in prior && trust && prior[e.path].metadata == e.metadata
  }

  function Change(prior: Entries, e: InventoryEntry): FileChange {
    if e.path in prior then ToHash(e.metadata, e.path) else ToAdd(e.metadata, e.path)
  }

  function Scanned(prior: Entries, inventory: seq<InventoryEntry>, trust: bool): seq<FileChange> {
    if inventory == [] then []
    else
      var last := inventory[|inventory| - 1];
      var before := Scanned(prior, inventory[..|inventory| - 1], trust);
      if Trusted(prior, last, trust) then before else before + [Change(prior, last)]
  }

  function Kept(prior: Entries, inventory: seq<InventoryEntry>, trust: bool): seq<ManifestEntry> {
    if inventory == [] then []
    else
      var last := inventory[|inventory| - 1];
      var before := Kept(prior, inventory[..|inventory| - 1], trust);
      if Trusted(prior, last, trust) then before + [prior[last.path]] else before
  }

  function Deletions(paths: seq<Path>): seq<FileChange> {
    seq(|paths|, i requires 0 <= i < |paths| => ToDelete(paths[i]))
  }

  ghost function Vanished(prior: Entries, inventory: seq<InventoryEntry>): set<Path> {
    prior.Keys - PathsOf(inventory)
  }

  ghost function PlanOf(prior: Entries, inventory: seq<InventoryEntry>, trust: bool): ManifestPlan {
    ManifestPlan(
      Scanned(prior, inventory, trust) + Deletions(InOrder(Vanished(prior, inventory))),
      Kept(prior, inventory, trust))
  }

  // ----- what a list of changes does

  function ObservedHash(observe: Observation, path: Path): ContentDigest {
    match observe(path) case Ok(seen) => seen.1 case Err(_) => []
  }

  /** Why a file cannot be taken as the inventory saw it. */
  function ReadError(observe: Observation, metadata: FileMetadata, path: Path): Option<ManifestError> {
    match observe(path)
    case Ok(seen) => if seen.0 == metadata then None else Some(ChangedDuringRead)
    case Err(error) => Some(error)
  }

  predicate Readable(observe: Observation, metadata: FileMetadata, path: Path) {
    ReadError(observe, metadata, path).None?
  }

  /** A rename carries the hash of its source along; only additions and modifications bring a new hash. */
  function ApplyOne(observe: Observation, m: map<Path, ContentDigest>, c: ResolvedChange): map<Path, ContentDigest> {
    match c
    case Added(p) => m[p := ObservedHash(observe, p)]
    case Modified(p) => m[p := ObservedHash(observe, p)]
    case Deleted(p) => m - {p}
    case Renamed(from, to) => if from in m then (m - {from})[to := m[from]] else m
  }

  function Apply(
      observe: Observation, m: map<Path, ContentDigest>, changes: seq<ResolvedChange>): map<Path, ContentDigest>
  {
    if changes == [] then m
    else ApplyOne(observe, Apply(observe, m, changes[..|changes| - 1]), changes[|changes| - 1])
  }

  /** The paths that changes remove: deleted, or the source of a rename. */
  function Removed(changes: seq<ResolvedChange>): seq<Path> {
    if changes == [] then []
    else
      var before := Removed(changes[..|changes| - 1]);
      match changes[|changes| - 1]
      case Deleted(p) => before + [p]
      case Renamed(from, _) => before + [from]
      case _ => before
  }

  lemma AppliedNext(observe: Observation, m: map<Path, ContentDigest>, changes: seq<ResolvedChange>, c: ResolvedChange)
    ensures Apply(observe, m, changes + [c]) == ApplyOne(observe, Apply(observe, m, changes), c)
    ensures
      Removed(changes + [c]) ==
      Removed(changes) + (match c case Deleted(p) => [p] case Renamed(from, _) => [from] case _ => [])
  {
    assert (changes + [c])[..|changes + [c]| - 1] == changes;
  }

  // ----- resolve

  /** In the middle of `resolve`: the paths in `hashed` are done, those in `left` are vanished and unclaimed. */
  ghost function Midway(
      prior: Entries, observe: Observation, hashed: set<Path>, left: set<Path>, vanished: set<Path>)
    : map<Path, ContentDigest>
  {
    map p | p in hashed + (prior.Keys - (vanished - left)) ::
      if p in hashed then ObservedHash(observe, p) else if p in prior then prior[p].hash else []
  }

  ghost predicate Faithful(prior: Entries, observe: Observation, c: ResolvedChange) {
    match c
    case Added(p) => p !in prior
    case Modified(p) => p in prior && prior[p].hash != ObservedHash(observe, p)
    case Renamed(from, to) => from in prior && to !in prior && prior[from].hash == ObservedHash(observe, to)
    case Deleted(p) => p in prior
  }

  /** An addition is reported only when no vanished file with the same content is left to be its source. */
  ghost predicate NoMissedRename(prior: Entries, observe: Observation, c: ResolvedChange, left: set<Path>) {
    c.Added? ==> forall d :: d in left ==> d in prior && prior[d].hash != ObservedHash(observe, c.path)
  }

  ghost predicate Resolving(
      prior: Entries, observe: Observation, vanished: set<Path>, hashed: set<Path>, left: set<Path>,
      resolved: seq<ResolvedChange>)
  {
    && left <= vanished <= prior.Keys && hashed !! vanished
    && Apply(observe, Hashes(prior), resolved) == Midway(prior, observe, hashed, left, vanished)
    && NoDup(Removed(resolved)) && Elems(Removed(resolved)) == vanished - left
    && forall c :: c in resolved ==> Faithful(prior, observe, c) && NoMissedRename(prior, observe, c, left)
  }

  lemma StartResolving(prior: Entries, observe: Observation, vanished: set<Path>)
    requires vanished <= prior.Keys
    ensures Resolving(prior, observe, vanished, {}, vanished, [])
  {
    assert Hashes(prior) == Midway(prior, observe, {}, vanished, vanished);
  }

  lemma MidwayHashed(
      prior: Entries, observe: Observation, vanished: set<Path>, hashed: set<Path>, left: set<Path>, p: Path)
    requires left <= vanished <= prior.Keys && p !in vanished
    ensures
      Midway(prior, observe, hashed + {p}, left, vanished) ==
      Midway(prior, observe, hashed, left, vanished)[p := ObservedHash(observe, p)]
    ensures p in prior && prior[p].hash == ObservedHash(observe, p) ==>
              Midway(prior, observe, hashed + {p}, left, vanished) == Midway(prior, observe, hashed, left, vanished)
  {
    hide ObservedHash;
    var before, after :=
      Midway(prior, observe, hashed, left, vanished), Midway(prior, observe, hashed + {p}, left, vanished);
    assert p in prior ==> p in before;
    forall q ensures (q in after <==> q in before || q == p) && (q in after && q != p ==> after[q] == before[q]) {}
    assert after[p] == ObservedHash(observe, p);
  }

  lemma ResolveAdded(
      prior: Entries, observe: Observation, vanished: set<Path>, hashed: set<Path>, left: set<Path>,
      resolved: seq<ResolvedChange>, p: Path)
    requires Resolving(prior, observe, vanished, hashed, left, resolved) && p !in prior
    requires forall d :: d in left ==> prior[d].hash != ObservedHash(observe, p)
    ensures Resolving(prior, observe, vanished, hashed + {p}, left, resolved + [Added(p)])
  {
    hide Apply, Midway, NoDup, Removed, ObservedHash;
    AppliedNext(observe, Hashes(prior), resolved, Added(p));
    assert Removed(resolved) + [] == Removed(resolved);
    MidwayHashed(prior, observe, vanished, hashed, left, p);
    StillFaithful(prior, observe, resolved, left, left, Added(p));
  }

  lemma MidwayRenamed(
      prior: Entries, observe: Observation, vanished: set<Path>, hashed: set<Path>, left: set<Path>, from: Path,
      p: Path)
    requires left <= vanished <= prior.Keys && hashed !! vanished && p !in prior && from in left
    requires prior[from].hash == ObservedHash(observe, p)
    ensures
      var before := Midway(prior, observe, hashed, left, vanished);
      && from in before
      && Midway(prior, observe, hashed + {p}, left - {from}, vanished) == (before - {from})[p := before[from]]
  {
    hide ObservedHash;
    var before, after :=
      Midway(prior, observe, hashed, left, vanished), Midway(prior, observe, hashed + {p}, left - {from}, vanished);
    assert from in before && before[from] == prior[from].hash;
    var expected := (before - {from})[p := before[from]];
    forall q ensures (q in after <==> q in expected) && (q in after ==> after[q] == expected[q]) {}
  }

  lemma StillFaithful(
      prior: Entries, observe: Observation, resolved: seq<ResolvedChange>, left: set<Path>, left': set<Path>,
      last: ResolvedChange)
    requires left' <= left
    requires forall c :: c in resolved ==> Faithful(prior, observe, c) && NoMissedRename(prior, observe, c, left)
    requires Faithful(prior, observe, last) && NoMissedRename(prior, observe, last, left')
    ensures forall c ::
        c in resolved + [last] ==> Faithful(prior, observe, c) && NoMissedRename(prior, observe, c, left')
  {}

  lemma ResolveRenamed(
      prior: Entries, observe: Observation, vanished: set<Path>, hashed: set<Path>, left: set<Path>,
      resolved: seq<ResolvedChange>, from: Path, p: Path)
    requires Resolving(prior, observe, vanished, hashed, left, resolved) && p !in prior && from in left
    requires prior[from].hash == ObservedHash(observe, p)
    ensures Resolving(prior, observe, vanished, hashed + {p}, left - {from}, resolved + [Renamed(from, p)])
  {
    hide Apply, Midway, NoDup, Removed, ObservedHash;
    AppliedNext(observe, Hashes(prior), resolved, Renamed(from, p));
    MidwayRenamed(prior, observe, vanished, hashed, left, from, p);
    RemovedOnce(Removed(resolved), from, vanished - left);
    StillFaithful(prior, observe, resolved, left, left - {from}, Renamed(from, p));
    assert vanished - left + {from} == vanished - (left - {from});
  }

  lemma RemovedOnce(removed: seq<Path>, p: Path, all: set<Path>)
    requires NoDup(removed) && Elems(removed) == all && p !in all
    ensures NoDup(removed + [p]) && Elems(removed + [p]) == all + {p}
  {
    assert forall q :: q in removed ==> q in Elems(removed);
  }

  lemma ResolveHashed(
      prior: Entries, observe: Observation, vanished: set<Path>, hashed: set<Path>, left: set<Path>,
      resolved: seq<ResolvedChange>, p: Path)
    requires Resolving(prior, observe, vanished, hashed, left, resolved) && p in prior && p !in vanished
    ensures
      prior[p].hash == ObservedHash(observe, p) ==> Resolving(prior, observe, vanished, hashed + {p}, left, resolved)
    ensures
      prior[p].hash != ObservedHash(observe, p) ==>
        Resolving(prior, observe, vanished, hashed + {p}, left, resolved + [Modified(p)])
  {
    hide Apply, Midway, NoDup, Removed, ObservedHash;
    AppliedNext(observe, Hashes(prior), resolved, Modified(p));
    assert Removed(resolved) + [] == Removed(resolved);
    MidwayHashed(prior, observe, vanished, hashed, left, p);
    if prior[p].hash != ObservedHash(observe, p) {
      StillFaithful(prior, observe, resolved, left, left, Modified(p));
    }
  }

  // ----- the scanned changes

  ghost predicate IsScanned(prior: Entries, inventory: seq<InventoryEntry>, trust: bool, c: FileChange) {
    exists e :: e in inventory && !Trusted(prior, e, trust) && c == Change(prior, e)
  }

  ghost predicate IsKept(prior: Entries, inventory: seq<InventoryEntry>, trust: bool, m: ManifestEntry) {
    exists e :: e in inventory && Trusted(prior, e, trust) && m == prior[e.path]
  }

  lemma {:induction false} ScannedMembers(prior: Entries, inventory: seq<InventoryEntry>, trust: bool, c: FileChange)
    ensures c in Scanned(prior, inventory, trust) <==> IsScanned(prior, inventory, trust, c)
  {
    hide Change;
    if inventory != [] {
      var n := |inventory| - 1;
      ScannedMembers(prior, inventory[..n], trust, c);
      assert forall e :: e in inventory <==> e in inventory[..n] || e == inventory[n];
    }
  }

  lemma {:induction false} KeptMembers(prior: Entries, inventory: seq<InventoryEntry>, trust: bool, m: ManifestEntry)
    ensures m in Kept(prior, inventory, trust) <==> IsKept(prior, inventory, trust, m)
  {
    if inventory != [] {
      var n := |inventory| - 1;
      KeptMembers(prior, inventory[..n], trust, m);
      assert forall e :: e in inventory <==> e in inventory[..n] || e == inventory[n];
    }
  }

  ghost predicate DistinctChanges(changes: seq<FileChange>) {
    forall i, j :: 0 <= i < j < |changes| ==> changes[i].path != changes[j].path
  }

  lemma {:induction false} ScannedDistinct(prior: Entries, inventory: seq<InventoryEntry>, trust: bool)
    requires DistinctPaths(inventory)
    ensures DistinctChanges(Scanned(prior, inventory, trust))
  {
    if inventory != [] {
      var n := |inventory| - 1;
      ScannedDistinct(prior, inventory[..n], trust);
      var before := Scanned(prior, inventory[..n], trust);
      forall i | 0 <= i < |before| ensures before[i].path != inventory[n].path {
        ScannedMembers(prior, inventory[..n], trust, before[i]);
      }
    }
  }

  ghost function ChangedPaths(changes: seq<FileChange>): set<Path> {
    set c | c in changes && !c.ToDelete? :: c.path
  }

  /** Whether every file the plan wants hashed can be read and is as the inventory saw it. */
  ghost predicate AllReadable(observe: Observation, changes: seq<FileChange>) {
    forall c :: c in changes && !c.ToDelete? ==> Readable(observe, c.metadata, c.path)
  }

  /** The first file that cannot be read is the one reported. */
  ghost predicate FailsAt(observe: Observation, changes: seq<FileChange>, n: nat, error: ManifestError) {
    && n < |changes| && !changes[n].ToDelete? && AllReadable(observe, changes[..n])
    && ReadError(observe, changes[n].metadata, changes[n].path) == Some(error)
  }

  lemma ResolveDeleted(
      prior: Entries, observe: Observation, vanished: set<Path>, hashed: set<Path>, left: set<Path>,
      resolved: seq<ResolvedChange>, p: Path)
    requires Resolving(prior, observe, vanished, hashed, left, resolved) && p in left
    ensures Resolving(prior, observe, vanished, hashed, left - {p}, resolved + [Deleted(p)])
  {
    hide Apply, NoDup, Removed, ObservedHash;
    AppliedNext(observe, Hashes(prior), resolved, Deleted(p));
    assert Midway(prior, observe, hashed, left - {p}, vanished) == Midway(prior, observe, hashed, left, vanished) - {p};
    RemovedOnce(Removed(resolved), p, vanished - left);
    StillFaithful(prior, observe, resolved, left, left - {p}, Deleted(p));
    assert vanished - left + {p} == vanished - (left - {p});
  }

  // ----- the new entries

  function NewEntry(prior: Entries, observe: Observation, e: InventoryEntry, trust: bool): ManifestEntry {
    if Trusted(prior, e, trust) then prior[e.path] else ManifestEntry(ObservedHash(observe, e.path), e.metadata, e.path)
  }

  ghost predicate Settled(prior: Entries, trust: bool, hashed: set<Path>, e: InventoryEntry) {
    Trusted(prior, e, trust) || e.path in hashed
  }

  ghost predicate Filled(
      prior: Entries, inventory: seq<InventoryEntry>, trust: bool, observe: Observation, hashed: set<Path>,
      entries: Entries)
  {
    && (forall e ::
          e in inventory && Settled(prior, trust, hashed, e) ==>
            e.path in entries && entries[e.path] == NewEntry(prior, observe, e, trust))
    && forall p :: p in entries ==> exists e :: e in inventory && e.path == p && Settled(prior, trust, hashed, e)
  }

  lemma SamePathSameEntry(inventory: seq<InventoryEntry>, a: InventoryEntry, b: InventoryEntry)
    requires DistinctPaths(inventory) && a in inventory && b in inventory && a.path == b.path
    ensures a == b
  {}

  function ByPath(kept: seq<ManifestEntry>): Entries {
    if kept == [] then map[] else ByPath(kept[..|kept| - 1])[kept[|kept| - 1].path := kept[|kept| - 1]]
  }

  lemma {:induction false} ByPathMembers(kept: seq<ManifestEntry>, p: Path)
    ensures p in ByPath(kept) <==> exists i :: 0 <= i < |kept| && kept[i].path == p
    ensures p in ByPath(kept) ==> ByPath(kept)[p] in kept && ByPath(kept)[p].path == p
  {
    if kept != [] {
      var n := |kept| - 1;
      ByPathMembers(kept[..n], p);
      if p in ByPath(kept) && p != kept[n].path {
        var i :| 0 <= i < n && kept[..n][i].path == p;
        assert kept[i].path == p;
      }
      if i :| 0 <= i < n && kept[i].path == p { assert kept[..n][i].path == p; }
    }
  }

  method Collect(kept: seq<ManifestEntry>) returns (entries: Entries)
    ensures entries == ByPath(kept)
  {
    entries := map[];
    for n := 0 to |kept|
      invariant entries == ByPath(kept[..n])
    {
      assert kept[..n + 1][..n] == kept[..n];
      entries := entries[kept[n].path := kept[n]];
    }
    assert kept[..|kept|] == kept;
  }

  lemma StartFilled(prior: Entries, inventory: seq<InventoryEntry>, trust: bool, observe: Observation)
    requires WellKeyed(prior) && DistinctPaths(inventory)
    ensures Filled(prior, inventory, trust, observe, {}, ByPath(Kept(prior, inventory, trust)))
  {
    hide DistinctPaths, Kept, ByPath;
    var kept := Kept(prior, inventory, trust);
    forall e | e in inventory && Settled(prior, trust, {}, e)
      ensures e.path in ByPath(kept) && ByPath(kept)[e.path] == NewEntry(prior, observe, e, trust)
    {
      KeptMembers(prior, inventory, trust, prior[e.path]);
      assert IsKept(prior, inventory, trust, prior[e.path]);
      ByPathMembers(kept, e.path);
      var i :| 0 <= i < |kept| && kept[i] == prior[e.path];
      KeptMembers(prior, inventory, trust, ByPath(kept)[e.path]);
    }
    forall p | p in ByPath(kept) ensures exists e :: e in inventory && e.path == p && Settled(prior, trust, {}, e) {
      ByPathMembers(kept, p);
      KeptMembers(prior, inventory, trust, ByPath(kept)[p]);
      var e :| e in inventory && Trusted(prior, e, trust) && ByPath(kept)[p] == prior[e.path];
      assert Settled(prior, trust, {}, e);
    }
  }

  lemma FillNext(
      prior: Entries, inventory: seq<InventoryEntry>, trust: bool, observe: Observation, hashed: set<Path>,
      entries: Entries, c: FileChange)
    requires DistinctPaths(inventory) && IsScanned(prior, inventory, trust, c)
    requires Filled(prior, inventory, trust, observe, hashed, entries)
    ensures
      Filled(
        prior, inventory, trust, observe, hashed + {c.path},
        entries[c.path := ManifestEntry(ObservedHash(observe, c.path), c.metadata, c.path)])
  {
    hide DistinctPaths, ObservedHash;
    var own :| own in inventory && !Trusted(prior, own, trust) && c == Change(prior, own);
    forall e | e in inventory && e.path == c.path ensures e == own {
      SamePathSameEntry(inventory, e, own);
    }
    var next := entries[c.path := ManifestEntry(ObservedHash(observe, c.path), c.metadata, c.path)];
    forall p | p in next
      ensures exists e :: e in inventory && e.path == p && Settled(prior, trust, hashed + {c.path}, e)
    {
      if p == c.path {
        assert Settled(prior, trust, hashed + {c.path}, own);
      } else {
        var e :| e in inventory && e.path == p && Settled(prior, trust, hashed, e);
        assert Settled(prior, trust, hashed + {c.path}, e);
      }
    }
  }

  // ----- resolve

  /** The first vanished file, in path order, whose content is that of a new one. */
  method FindSource(deleted: Entries, hash: ContentDigest) returns (from: Option<Path>)
    ensures from.None? ==> forall d :: d in deleted ==> deleted[d].hash != hash
    ensures from.Some? ==> from.value in deleted && deleted[from.value].hash == hash
    ensures
      from.Some? ==> forall d :: d in deleted && deleted[d].hash == hash ==> d == from.value || Less(from.value, d)
  {
    var order := InOrder(deleted.Keys);
    for i := 0 to |order|
      invariant forall k :: 0 <= k < i ==> order[k] in deleted && deleted[order[k]].hash != hash
    {
      assert order[i] in order;
      if deleted[order[i]].hash == hash {
        forall d | d in deleted && deleted[d].hash == hash ensures d == order[i] || Less(order[i], d) {
          assert d in order;
          var k :| 0 <= k < |order| && order[k] == d;
        }
        return Some(order[i]);
      }
    }
    forall d | d in deleted ensures deleted[d].hash != hash {
      assert d in order;
    }
    return None;
  }

  /** What the resolved update says about the files. */
  ghost predicate GoodUpdate(
      prior: Entries, inventory: seq<InventoryEntry>, trust: bool, observe: Observation, update: ManifestUpdate)
  {
    && update.entries.Keys == PathsOf(inventory)
    && (forall e ::
          e in inventory ==> e.path in update.entries && update.entries[e.path] == NewEntry(prior, observe, e, trust))
    && Apply(observe, Hashes(prior), update.changes) == Hashes(update.entries)
    && NoDup(Removed(update.changes)) && Elems(Removed(update.changes)) == Vanished(prior, inventory)
    && (forall c :: c in update.changes ==> Faithful(prior, observe, c))
    && forall a, d ::
         Added(a) in update.changes && Deleted(d) in update.changes ==>
           d in prior && prior[d].hash != ObservedHash(observe, a)
  }

  ghost predicate NoDeletes(resolved: seq<ResolvedChange>) {
    forall c :: c in resolved ==> !c.Deleted?
  }

  ghost predicate Unclaimed(prior: Entries, left: set<Path>, deleted: Entries) {
    deleted.Keys == left && forall d :: d in deleted ==> d in prior && deleted[d] == prior[d]
  }

  /** One hashed file: an addition, a rename, a modification, or nothing to report. */
  method ResolveOne(
      prior: Entries, observe: Observation, ghost vanished: set<Path>, ghost hashed: set<Path>, deleted0: Entries,
      resolved0: seq<ResolvedChange>, c: FileChange)
    returns (deleted: Entries, resolved: seq<ResolvedChange>)
    requires Resolving(prior, observe, vanished, hashed, deleted0.Keys, resolved0) && NoDeletes(resolved0)
    requires
      && Unclaimed(prior, deleted0.Keys, deleted0) && !c.ToDelete? && c.path !in vanished
      && (c.ToAdd? <==> c.path !in prior)
    ensures Resolving(prior, observe, vanished, hashed + {c.path}, deleted.Keys, resolved) && NoDeletes(resolved)
    ensures Unclaimed(prior, deleted.Keys, deleted)
  {
    hide Resolving, ObservedHash;
    deleted, resolved := deleted0, resolved0;
    var hash := ObservedHash(observe, c.path);
    if c.ToAdd? {
      var from := FindSource(deleted, hash);
      if from.Some? {
        ResolveRenamed(prior, observe, vanished, hashed, deleted.Keys, resolved, from.value, c.path);
        assert (deleted - {from.value}).Keys == deleted.Keys - {from.value};
        deleted := deleted - {from.value};
        resolved := resolved + [Renamed(from.value, c.path)];
      } else {
        ResolveAdded(prior, observe, vanished, hashed, deleted.Keys, resolved, c.path);
        resolved := resolved + [Added(c.path)];
      }
    } else {
      ResolveHashed(prior, observe, vanished, hashed, deleted.Keys, resolved, c.path);
      if prior[c.path].hash != hash {
        resolved := resolved + [Modified(c.path)];
      }
    }
  }

  lemma ScannedChange(prior: Entries, inventory: seq<InventoryEntry>, trust: bool, n: nat)
    requires n < |Scanned(prior, inventory, trust)|
    ensures
      var c := Scanned(prior, inventory, trust)[n];
      && !c.ToDelete? && (c.ToAdd? <==> c.path !in prior) && c.path !in Vanished(prior, inventory)
      && IsScanned(prior, inventory, trust, c)
  {
    hide Scanned;
    ScannedMembers(prior, inventory, trust, Scanned(prior, inventory, trust)[n]);
  }

  lemma AllScanned(prior: Entries, inventory: seq<InventoryEntry>, trust: bool)
    requires DistinctPaths(inventory)
    ensures forall e :: e in inventory ==> Settled(prior, trust, ChangedPaths(Scanned(prior, inventory, trust)), e)
    ensures forall e ::
        e in inventory && Trusted(prior, e, trust) ==> e.path !in ChangedPaths(Scanned(prior, inventory, trust))
    ensures ChangedPaths(Scanned(prior, inventory, trust)) <= PathsOf(inventory)
  {
    hide Scanned, DistinctPaths, Trusted;
    var scanned := Scanned(prior, inventory, trust);
    forall e | e in inventory ensures Settled(prior, trust, ChangedPaths(scanned), e) {
      if !Trusted(prior, e, trust) {
        ScannedMembers(prior, inventory, trust, Change(prior, e));
        assert IsScanned(prior, inventory, trust, Change(prior, e));
        assert Change(prior, e) in scanned && Change(prior, e).path == e.path;
      }
    }
    forall c | c in scanned ensures exists e :: e in inventory && !Trusted(prior, e, trust) && c.path == e.path {
      ScannedMembers(prior, inventory, trust, c);
    }
    forall e | e in inventory && Trusted(prior, e, trust) ensures e.path !in ChangedPaths(scanned) {
      if c :| c in scanned && !c.ToDelete? && c.path == e.path {
        var f :| f in inventory && !Trusted(prior, f, trust) && c.path == f.path;
        SamePathSameEntry(inventory, e, f);
      }
    }
  }

  lemma {:induction false} EntriesAreApplied(
      prior: Entries, inventory: seq<InventoryEntry>, trust: bool, observe: Observation, hashed: set<Path>,
      entries: Entries)
    requires DistinctPaths(inventory) && hashed == ChangedPaths(Scanned(prior, inventory, trust))
    requires Filled(prior, inventory, trust, observe, hashed, entries)
    ensures entries.Keys == PathsOf(inventory)
    ensures forall e :: e in inventory ==> e.path in entries && entries[e.path] == NewEntry(prior, observe, e, trust)
    ensures Hashes(entries) == Midway(prior, observe, hashed, {}, Vanished(prior, inventory))
  {
    hide Scanned, DistinctPaths, ObservedHash, Trusted, Settled;
    AllScanned(prior, inventory, trust);
    forall p ensures p in entries <==> p in PathsOf(inventory) {
      if p in PathsOf(inventory) { var e :| e in inventory && e.path == p; }
    }
    var target := Midway(prior, observe, hashed, {}, Vanished(prior, inventory));
    forall p | p in entries ensures p in target && target[p] == entries[p].hash {
      var e :| e in inventory && e.path == p;
      TrustedOrHashed(prior, observe, hashed, e, trust);
    }
    forall p | p in target ensures p in entries {}
  }

  lemma TrustedOrHashed(prior: Entries, observe: Observation, hashed: set<Path>, e: InventoryEntry, trust: bool)
    requires Settled(prior, trust, hashed, e) && (Trusted(prior, e, trust) ==> e.path !in hashed)
    ensures if e.path in hashed then NewEntry(prior, observe, e, trust).hash == ObservedHash(observe, e.path)
            else e.path in prior && NewEntry(prior, observe, e, trust).hash == prior[e.path].hash
  {}

  /** `extend(deleted.keys().map(Deleted))` */
  method AppendDeletions(
      prior: Entries, observe: Observation, ghost vanished: set<Path>, ghost hashed: set<Path>, deleted: Entries,
      resolved0: seq<ResolvedChange>)
    returns (resolved: seq<ResolvedChange>)
    requires Resolving(prior, observe, vanished, hashed, deleted.Keys, resolved0) && NoDeletes(resolved0)
    ensures Resolving(prior, observe, vanished, hashed, {}, resolved)
    ensures forall a, d ::
        Added(a) in resolved && Deleted(d) in resolved ==> d in prior && prior[d].hash != ObservedHash(observe, a)
  {
    hide Resolving, NoDup;
    var order := InOrder(deleted.Keys);
    OrderedDistinct(order);
    resolved := resolved0;
    ghost var left := deleted.Keys;
    for i := 0 to |order|
      invariant left == deleted.Keys - Elems(order[..i])
      invariant Resolving(prior, observe, vanished, hashed, left, resolved)
      invariant forall c :: c in resolved ==> c in resolved0 || (c.Deleted? && c.path in deleted)
    {
      assert order[i] in order && order[i] !in order[..i];
      ResolveDeleted(prior, observe, vanished, hashed, left, resolved, order[i]);
      resolved := resolved + [Deleted(order[i])];
      left := left - {order[i]};
      assert order[..i + 1] == order[..i] + [order[i]];
    }
    assert order[..|order|] == order;
    assert left == {};
    forall a, d | Added(a) in resolved && Deleted(d) in resolved
      ensures d in prior && prior[d].hash != ObservedHash(observe, a)
    {
      AdditionsUnmatched(prior, observe, vanished, hashed, deleted.Keys, resolved0, a, d);
    }
  }

  lemma AdditionsUnmatched(
      prior: Entries, observe: Observation, vanished: set<Path>, hashed: set<Path>, left: set<Path>,
      resolved: seq<ResolvedChange>, a: Path, d: Path)
    requires Resolving(prior, observe, vanished, hashed, left, resolved) && Added(a) in resolved && d in left
    ensures d in prior && prior[d].hash != ObservedHash(observe, a)
  {
    assert NoMissedRename(prior, observe, Added(a), left);
  }

  lemma OrderedDistinct(order: seq<Path>)
    requires Ordered(order)
    ensures NoDup(order)
  {
    forall i, j | 0 <= i < j < |order| ensures order[i] != order[j] {
      LessIrreflexive(order[i]);
    }
  }

  /** Fails exactly when a file to hash cannot be read as the inventory saw it. Otherwise the changes turn the
      prior hashes into those of the new manifest, which has exactly the inventory's paths. */
  method Resolve(
      plan: ManifestPlan, prior: Entries, observe: Observation, ghost inventory: seq<InventoryEntry>,
      ghost trust: bool)
    returns (r: Result<ManifestUpdate, ManifestError>)
    requires WellKeyed(prior) && DistinctPaths(inventory) && plan == PlanOf(prior, inventory, trust)
    ensures r.Ok? <==> AllReadable(observe, plan.changes)
    ensures r.Ok? ==> GoodUpdate(prior, inventory, trust, observe, r.value)
    ensures r.Err? ==> exists n :: FailsAt(observe, plan.changes, n, r.error)
    ensures r.Ok? <==>
              forall e :: e in inventory && !(trust && e.path in prior && prior[e.path].metadata == e.metadata) ==>
                observe(e.path).Ok? && observe(e.path).value.0 == e.metadata
    ensures r.Err? ==> exists e :: e in inventory && FailsBecause(observe, e, r.error)
  {
    hide Resolving, Filled, WellKeyed, DistinctPaths, ObservedHash, Scanned, Kept, NoDeletes, Unclaimed, IsScanned,
      ReadError, AllReadable, FailsAt, ChangedPaths;
    ghost var scanned := Scanned(prior, inventory, trust);
    ghost var vanished := Vanished(prior, inventory);
    var entries := Collect(plan.kept);
    var deleted := DeletedEntries(plan, prior, inventory, trust);
    var resolved: seq<ResolvedChange> := [];
    StartFilled(prior, inventory, trust, observe);
    StartResolving(prior, observe, vanished);
    NothingYet(observe, plan.changes);
    ReadableIff(prior, inventory, trust, observe);
    for n := 0 to |plan.changes|
      invariant AllReadable(observe, plan.changes[..n])
      invariant Filled(prior, inventory, trust, observe, ChangedPaths(plan.changes[..n]), entries)
      invariant
        && Resolving(prior, observe, vanished, ChangedPaths(plan.changes[..n]), deleted.Keys, resolved)
        && NoDeletes(resolved)
      invariant Unclaimed(prior, deleted.Keys, deleted)
    {
      var c := plan.changes[n];
      ChangedPathsNext(plan.changes, n);
      if c.ToDelete? {
        ReadableNext(observe, plan.changes, n);
        continue;
      }
      NotDeletion(prior, inventory, trust, n);
      var failure := ReadError(observe, c.metadata, c.path);
      ReadableNext(observe, plan.changes, n);
      if failure.Some? {
        FailureSeen(prior, inventory, trust, observe, n, failure.value);
        return Err(failure.value);
      }
      FillNext(prior, inventory, trust, observe, ChangedPaths(plan.changes[..n]), entries, c);
      deleted, resolved := ResolveOne(prior, observe, vanished, ChangedPaths(plan.changes[..n]), deleted, resolved, c);
      entries := entries[c.path := ManifestEntry(ObservedHash(observe, c.path), c.metadata, c.path)];
    }
    assert plan.changes[..|plan.changes|] == plan.changes;
    DeletionsChangeNothing(prior, inventory, trust);
    EntriesAreApplied(prior, inventory, trust, observe, ChangedPaths(scanned), entries);
    resolved := AppendDeletions(prior, observe, vanished, ChangedPaths(scanned), deleted, resolved);
    Conclude(prior, inventory, trust, observe, ChangedPaths(scanned), resolved, entries);
    return Ok(ManifestUpdate(resolved, entries));
  }

  /** The file could not be read, for this reason, or had changed since the inventory. */
  ghost predicate FailsBecause(observe: Observation, e: InventoryEntry, error: ManifestError) {
    match observe(e.path)
    case Ok(seen) => seen.0 != e.metadata && error == ChangedDuringRead
    case Err(reason) => error == reason
  }

  lemma ReadableIff(prior: Entries, inventory: seq<InventoryEntry>, trust: bool, observe: Observation)
    ensures AllReadable(observe, PlanOf(prior, inventory, trust).changes) <==>
              forall e :: e in inventory && !(trust && e.path in prior && prior[e.path].metadata == e.metadata) ==>
                observe(e.path).Ok? && observe(e.path).value.0 == e.metadata
  {
    hide PlanOf;
    PlanMembers(prior, inventory, trust);
    var changes := PlanOf(prior, inventory, trust).changes;
    forall e | e in inventory && !Trusted(prior, e, trust) ensures Change(prior, e) in changes {
      assert IsScanned(prior, inventory, trust, Change(prior, e));
    }
  }

  lemma FailureSeen(
      prior: Entries, inventory: seq<InventoryEntry>, trust: bool, observe: Observation, n: nat, error: ManifestError)
    requires FailsAt(observe, PlanOf(prior, inventory, trust).changes, n, error)
    requires IsScanned(prior, inventory, trust, PlanOf(prior, inventory, trust).changes[n])
    ensures exists e :: e in inventory && FailsBecause(observe, e, error)
  {
    hide PlanOf;
    var c := PlanOf(prior, inventory, trust).changes[n];
    var e :| e in inventory && !Trusted(prior, e, trust) && c == Change(prior, e);
    assert c.path == e.path && c.metadata == e.metadata;
    assert ReadError(observe, e.metadata, e.path) == Some(error);
    assert FailsBecause(observe, e, error);
  }

  lemma ReadableNext(observe: Observation, changes: seq<FileChange>, n: nat)
    requires n < |changes| && AllReadable(observe, changes[..n])
    ensures changes[n].ToDelete? ==> AllReadable(observe, changes[..n + 1])
    ensures !changes[n].ToDelete? ==>
              var failure := ReadError(observe, changes[n].metadata, changes[n].path);
              if failure.None? then AllReadable(observe, changes[..n + 1])
              else FailsAt(observe, changes, n, failure.value) && !AllReadable(observe, changes)
  {
    hide ReadError;
    assert changes[..n + 1] == changes[..n] + [changes[n]];
    assert changes[n] in changes;
  }

  lemma NothingYet(observe: Observation, changes: seq<FileChange>)
    ensures AllReadable(observe, changes[..0]) && ChangedPaths(changes[..0]) == {} && NoDeletes([])
  {}

  lemma ChangedPathsNext(changes: seq<FileChange>, n: nat)
    requires n < |changes|
    ensures changes[n].ToDelete? ==> ChangedPaths(changes[..n + 1]) == ChangedPaths(changes[..n])
    ensures !changes[n].ToDelete? ==> ChangedPaths(changes[..n + 1]) == ChangedPaths(changes[..n]) + {changes[n].path}
  {
    assert changes[..n + 1] == changes[..n] + [changes[n]];
  }

  lemma NotDeletion(prior: Entries, inventory: seq<InventoryEntry>, trust: bool, n: nat)
    requires n < |PlanOf(prior, inventory, trust).changes| && !PlanOf(prior, inventory, trust).changes[n].ToDelete?
    ensures
      var c := PlanOf(prior, inventory, trust).changes[n];
      && (c.ToAdd? <==> c.path !in prior) && c.path !in Vanished(prior, inventory)
      && IsScanned(prior, inventory, trust, c)
  {
    hide Scanned, IsScanned;
    var scanned := Scanned(prior, inventory, trust);
    ScannedChange(prior, inventory, trust, n);
  }

  lemma DeletionsChangeNothing(prior: Entries, inventory: seq<InventoryEntry>, trust: bool)
    ensures ChangedPaths(PlanOf(prior, inventory, trust).changes) == ChangedPaths(Scanned(prior, inventory, trust))
  {
    hide Scanned;
    var gone := Deletions(InOrder(Vanished(prior, inventory)));
    assert forall c :: c in gone ==> c.ToDelete?;
    assert forall c ::
        c in PlanOf(prior, inventory, trust).changes <==> c in Scanned(prior, inventory, trust) || c in gone;
  }

  /** The deleted entries of the plan, looked up in the prior manifest. */
  method DeletedEntries(plan: ManifestPlan, prior: Entries, ghost inventory: seq<InventoryEntry>, ghost trust: bool)
    returns (deleted: Entries)
    requires plan == PlanOf(prior, inventory, trust)
    ensures deleted.Keys == Vanished(prior, inventory) && Unclaimed(prior, deleted.Keys, deleted)
  {
    hide PlanOf, Vanished;
    deleted := map[];
    for n := 0 to |plan.changes|
      invariant IsDeleted(prior, plan.changes[..n], deleted)
    {
      var c := plan.changes[n];
      assert plan.changes[..n + 1] == plan.changes[..n] + [c];
      if c.ToDelete? && c.path in prior {
        deleted := deleted[c.path := prior[c.path]];
      }
    }
    assert plan.changes[..|plan.changes|] == plan.changes;
    AllDeleted(prior, inventory, trust, deleted);
  }

  ghost predicate IsDeleted(prior: Entries, changes: seq<FileChange>, deleted: Entries) {
    && (forall p :: p in deleted <==> p in prior && ToDelete(p) in changes)
    && forall p :: p in deleted ==> deleted[p] == prior[p]
  }

  lemma AllDeleted(prior: Entries, inventory: seq<InventoryEntry>, trust: bool, deleted: Entries)
    requires IsDeleted(prior, PlanOf(prior, inventory, trust).changes, deleted)
    ensures deleted.Keys == Vanished(prior, inventory) && Unclaimed(prior, deleted.Keys, deleted)
  {
    hide PlanOf;
    forall p ensures p in deleted <==> p in Vanished(prior, inventory) {
      DeletionListed(prior, inventory, trust, p);
    }
  }

  lemma DeletionListed(prior: Entries, inventory: seq<InventoryEntry>, trust: bool, p: Path)
    ensures ToDelete(p) in PlanOf(prior, inventory, trust).changes <==> p in Vanished(prior, inventory)
  {
    hide Scanned, Change, Trusted;
    ScannedMembers(prior, inventory, trust, ToDelete(p));
    NeverScansDeletion(prior, inventory, trust, p);
    var order := InOrder(Vanished(prior, inventory));
    if p in order {
      var k :| 0 <= k < |order| && order[k] == p;
      assert Deletions(order)[k] == ToDelete(p);
    }
  }

  lemma NeverScansDeletion(prior: Entries, inventory: seq<InventoryEntry>, trust: bool, p: Path)
    ensures !IsScanned(prior, inventory, trust, ToDelete(p))
  {}

  lemma Conclude(
      prior: Entries, inventory: seq<InventoryEntry>, trust: bool, observe: Observation, hashed: set<Path>,
      resolved: seq<ResolvedChange>, entries: Entries)
    requires Resolving(prior, observe, Vanished(prior, inventory), hashed, {}, resolved)
    requires entries.Keys == PathsOf(inventory)
    requires forall e :: e in inventory ==> e.path in entries && entries[e.path] == NewEntry(prior, observe, e, trust)
    requires Hashes(entries) == Midway(prior, observe, hashed, {}, Vanished(prior, inventory))
    requires forall a, d ::
        Added(a) in resolved && Deleted(d) in resolved ==> d in prior && prior[d].hash != ObservedHash(observe, a)
    ensures GoodUpdate(prior, inventory, trust, observe, ManifestUpdate(resolved, entries))
  {
    assert Vanished(prior, inventory) - {} == Vanished(prior, inventory);
  }

  /** What is added and what is hashed, in terms of the prior entries and the inventory. */
  lemma PlanByEntry(prior: Entries, inventory: seq<InventoryEntry>, trust: bool)
    ensures
      var plan := PlanOf(prior, inventory, trust);
      && (forall e :: e in inventory ==> (ToAdd(e.metadata, e.path) in plan.changes <==> e.path !in prior))
      && forall e :: e in inventory ==>
           (ToHash(e.metadata, e.path) in plan.changes <==>
              e.path in prior && !(trust && prior[e.path].metadata == e.metadata))
  {
    hide PlanOf, Vanished;
    PlanMembers(prior, inventory, trust);
  }

  lemma PlanMembers(prior: Entries, inventory: seq<InventoryEntry>, trust: bool)
    ensures
      var plan := PlanOf(prior, inventory, trust);
      && (forall m :: m in plan.kept <==> IsKept(prior, inventory, trust, m))
      && (forall c :: c in plan.changes && !c.ToDelete? <==> IsScanned(prior, inventory, trust, c))
      && forall p :: ToDelete(p) in plan.changes <==> p in Vanished(prior, inventory)
  {
    hide Scanned, Kept, IsScanned, IsKept, Vanished;
    var plan := PlanOf(prior, inventory, trust);
    forall m ensures m in plan.kept <==> IsKept(prior, inventory, trust, m) {
      KeptMembers(prior, inventory, trust, m);
    }
    forall c ensures c in plan.changes && !c.ToDelete? <==> IsScanned(prior, inventory, trust, c) {
      ScannedMembers(prior, inventory, trust, c);
      if c.ToDelete? { NeverScansDeletion(prior, inventory, trust, c.path); }
      assert forall d :: d in Deletions(InOrder(Vanished(prior, inventory))) ==> d.ToDelete?;
    }
    forall p ensures ToDelete(p) in plan.changes <==> p in Vanished(prior, inventory) {
      DeletionListed(prior, inventory, trust, p);
    }
  }

  /** Exactly the trusted entries are kept, every other inventory path is to be hashed or added, and exactly the
      vanished paths are to be deleted. */
  method Plan(prior: Entries, inventory: seq<InventoryEntry>, trust: bool) returns (plan: ManifestPlan)
    ensures plan == PlanOf(prior, inventory, trust)
    ensures forall m :: m in plan.kept <==> IsKept(prior, inventory, trust, m)
    ensures forall c :: c in plan.changes && !c.ToDelete? <==> IsScanned(prior, inventory, trust, c)
    ensures forall p :: ToDelete(p) in plan.changes <==> p in Vanished(prior, inventory)
    ensures forall e :: e in inventory ==> (ToAdd(e.metadata, e.path) in plan.changes <==> e.path !in prior)
    ensures forall e :: e in inventory ==>
              (ToHash(e.metadata, e.path) in plan.changes <==>
                 e.path in prior && !(trust && prior[e.path].metadata == e.metadata))
  {
    hide InOrder, IsKept, IsScanned;
    var seen: set<Path> := {};
    var changes: seq<FileChange> := [];
    var kept: seq<ManifestEntry> := [];
    for n := 0 to |inventory|
      invariant seen == PathsOf(inventory[..n])
      invariant changes == Scanned(prior, inventory[..n], trust)
      invariant kept == Kept(prior, inventory[..n], trust)
    {
      var e := inventory[n];
      assert inventory[..n + 1][..n] == inventory[..n] && inventory[..n + 1] == inventory[..n] + [e];
      seen := seen + {e.path};
      if e.path in prior && trust && prior[e.path].metadata == e.metadata {
        kept := kept + [prior[e.path]];
      } else if e.path in prior {
        changes := changes + [ToHash(e.metadata, e.path)];
      } else {
        changes := changes + [ToAdd(e.metadata, e.path)];
      }
    }
    assert inventory[..|inventory|] == inventory;
    var gone := InOrder(prior.Keys - seen);
    ghost var scanned := changes;
    for i := 0 to |gone|
      invariant changes == scanned + Deletions(gone[..i])
    {
      assert Deletions(gone[..i + 1]) == Deletions(gone[..i]) + [ToDelete(gone[i])];
      changes := changes + [ToDelete(gone[i])];
    }
    assert gone[..|gone|] == gone;
    plan := ManifestPlan(changes, kept);
    PlanMembers(prior, inventory, trust);
    PlanByEntry(prior, inventory, trust);
  }

  /** The new entry records the metadata of the inventory, and keeps the prior hash only where it was trusted. */
  lemma UpdateIsCurrent(
      prior: Entries, inventory: seq<InventoryEntry>, trust: bool, observe: Observation, update: ManifestUpdate,
      e: InventoryEntry)
    requires GoodUpdate(prior, inventory, trust, observe, update) && e in inventory && WellKeyed(prior)
    ensures update.entries[e.path].metadata == e.metadata && update.entries[e.path].path == e.path
    ensures update.entries[e.path].hash ==
              if trust && e.path in prior && prior[e.path].metadata == e.metadata then prior[e.path].hash
              else ObservedHash(observe, e.path)
  {}

  /** A prior manifest that tells the truth: a file with the metadata it lists has the hash it lists. */
  ghost predicate Truthful(prior: Entries, observe: Observation) {
    forall p :: p in prior && observe(p).Ok? && observe(p).value.0 == prior[p].metadata ==>
      prior[p].hash == observe(p).value.1
  }

  /** Trusting metadata spares reading files, and costs nothing as long as the prior manifest tells the truth: the new
      entries are those of a run that reads every file. */
  lemma TrustIsSafe(
      prior: Entries, inventory: seq<InventoryEntry>, observe: Observation, quick: ManifestUpdate,
      thorough: ManifestUpdate)
    requires WellKeyed(prior) && Truthful(prior, observe)
    requires forall e :: e in inventory ==> observe(e.path).Ok? && observe(e.path).value.0 == e.metadata
    requires GoodUpdate(prior, inventory, true, observe, quick)
    requires GoodUpdate(prior, inventory, false, observe, thorough)
    ensures quick.entries == thorough.entries
  {
    forall p | p in quick.entries ensures p in thorough.entries && quick.entries[p] == thorough.entries[p] {
      var e :| e in inventory && e.path == p;
      UpdateIsCurrent(prior, inventory, true, observe, quick, e);
      UpdateIsCurrent(prior, inventory, false, observe, thorough, e);
    }
  }
}
