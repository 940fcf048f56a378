/** `index_project`: loops that fill the scopes, the worker pool, and one transaction on the store. */
module ProjectIndexer {
  import opened Sequences
  import opened Bytes
  import opened ManifestDiff
  import opened ProjectIndexes
  import opened IndexWorkers

  datatype IndexError = SourceChanged | ManifestConflict

  // ----- the supported files of an inventory

  ghost function FilesOf(env: Sources, inventory: seq<InventoryEntry>): Files {
    if inventory == [] then map[]
    else
      var last := inventory[|inventory| - 1];
      var before := FilesOf(env, inventory[..|inventory| - 1]);
      if env.supported(last.path) then before[last.path := last.metadata] else before
  }

  ghost function ScopeFiles(env: Sources, inventory: seq<InventoryEntry>, scope: Scope): seq<InventoryEntry> {
    if inventory == [] then []
    else
      var last := inventory[|inventory| - 1];
      var before := ScopeFiles(env, inventory[..|inventory| - 1], scope);
      if env.supported(last.path) && ScopeOf(last.path) == scope then before + [last] else before
  }

  function Grouped(scopes: map<Scope, seq<InventoryEntry>>, scope: Scope): seq<InventoryEntry> {
    if scope in scopes then scopes[scope] else []
  }

  ghost predicate IsGrouping(env: Sources, inventory: seq<InventoryEntry>, scopes: map<Scope, seq<InventoryEntry>>) {
    forall s ::
      Grouped(scopes, s) == ScopeFiles(env, inventory, s) && (s in scopes <==> ScopeFiles(env, inventory, s) != [])
  }

  method Group(env: Sources, inventory: seq<InventoryEntry>)
    returns (scopes: map<Scope, seq<InventoryEntry>>, current: Files)
    ensures IsGrouping(env, inventory, scopes) && current == FilesOf(env, inventory)
  {
    hide ScopeOf;
    scopes, current := map[], map[];
    for n := 0 to |inventory|
      invariant IsGrouping(env, inventory[..n], scopes) && current == FilesOf(env, inventory[..n])
    {
      var entry := inventory[n];
      assert inventory[..n + 1][..n] == inventory[..n];
      if env.supported(entry.path) {
        var scope := ScopeOf(entry.path);
        scopes := scopes[scope := Grouped(scopes, scope) + [entry]];
        current := current[entry.path := entry.metadata];
      }
    }
    assert inventory[..|inventory|] == inventory;
  }

  ghost predicate InScopeFiles(env: Sources, inventory: seq<InventoryEntry>, scope: Scope, e: InventoryEntry) {
    e in inventory && env.supported(e.path) && ScopeOf(e.path) == scope
  }

  lemma {:induction false} ScopeFilesMembers(
      env: Sources, inventory: seq<InventoryEntry>, scope: Scope, e: InventoryEntry)
    ensures e in ScopeFiles(env, inventory, scope) <==> InScopeFiles(env, inventory, scope, e)
  {
    hide ScopeOf;
    if inventory != [] {
      var n := |inventory| - 1;
      assert inventory == inventory[..n] + [inventory[n]];
      ScopeFilesMembers(env, inventory[..n], scope, e);
    }
  }

  lemma {:induction false} ScopeFilesDistinct(env: Sources, inventory: seq<InventoryEntry>, scope: Scope)
    requires DistinctPaths(inventory)
    ensures DistinctPaths(ScopeFiles(env, inventory, scope))
  {
    hide ScopeOf;
    if inventory != [] {
      var n := |inventory| - 1;
      ScopeFilesDistinct(env, inventory[..n], scope);
      var before := ScopeFiles(env, inventory[..n], scope);
      forall i | 0 <= i < |before| ensures before[i].path != inventory[n].path {
        ScopeFilesMembers(env, inventory[..n], scope, before[i]);
      }
    }
  }

  lemma {:induction false} FilesMembers(env: Sources, inventory: seq<InventoryEntry>, p: Path)
    requires DistinctPaths(inventory)
    ensures p in FilesOf(env, inventory) <==> exists m :: InventoryEntry(p, m) in inventory && env.supported(p)
    ensures
      p in FilesOf(env, inventory) ==> env.supported(p) && InventoryEntry(p, FilesOf(env, inventory)[p]) in inventory
  {
    if inventory != [] {
      var n := |inventory| - 1;
      var last := inventory[n];
      assert inventory == inventory[..n] + [last];
      FilesMembers(env, inventory[..n], p);
      if p == last.path { assert last == InventoryEntry(p, last.metadata); }
    }
  }

  /** The files of a scope, as entries and as a map, are the same. */
  lemma ScopeFilesAreFiles(env: Sources, inventory: seq<InventoryEntry>, scope: Scope, p: Path, m: FileMetadata)
    requires DistinctPaths(inventory)
    ensures InventoryEntry(p, m) in ScopeFiles(env, inventory, scope) <==>
              p in FilesOf(env, inventory) && FilesOf(env, inventory)[p] == m && ScopeOf(p) == scope
  {
    hide ScopeOf;
    ScopeFilesMembers(env, inventory, scope, InventoryEntry(p, m));
    FilesMembers(env, inventory, p);
    if InventoryEntry(p, m) in inventory && p in FilesOf(env, inventory) {
      SamePathSameEntry(inventory, InventoryEntry(p, m), InventoryEntry(p, FilesOf(env, inventory)[p]));
    }
  }

  // ----- index_scope

  datatype IndexedScope = IndexedScope(partition: set<Fact>, manifest: seq<ManifestEntry>)

  function FactsOf(env: Sources, scope: Scope, files: seq<InventoryEntry>): set<Fact> {
    if files == [] then {}
    else
      FactsOf(env, scope, files[..|files| - 1]) + env.facts(
        scope, files[|files| - 1].path, files[|files| - 1].metadata)
  }

  function EntriesOf(env: Sources, files: seq<InventoryEntry>): seq<ManifestEntry> {
    seq(|files|, i requires 0 <= i < |files| => FreshEntry(env, files[i].path, files[i].metadata))
  }

  /** `observed` says whether a file is still as the inventory saw it when it is read. */
  predicate AllObserved(observed: InventoryEntry -> bool, files: seq<InventoryEntry>) {
    forall i :: 0 <= i < |files| ==> observed(files[i])
  }

  method IndexScope(env: Sources, observed: InventoryEntry -> bool, scope: Scope, files: seq<InventoryEntry>)
    returns (r: Result<IndexedScope, IndexError>)
    ensures r.Ok? <==> AllObserved(observed, files)
    ensures r.Ok? ==> r.value == IndexedScope(FactsOf(env, scope, files), EntriesOf(env, files))
    ensures r.Err? ==> r.error == SourceChanged
  {
    var partition: set<Fact> := {};
    var manifest: seq<ManifestEntry> := [];
    for i := 0 to |files|
      invariant AllObserved(observed, files[..i])
      invariant partition == FactsOf(env, scope, files[..i]) && manifest == EntriesOf(env, files[..i])
    {
      if !observed(files[i]) { return Err(SourceChanged); }
      assert files[..i + 1][..i] == files[..i];
      partition := partition + env.facts(scope, files[i].path, files[i].metadata);
      manifest := manifest + [FreshEntry(env, files[i].path, files[i].metadata)];
    }
    assert files[..|files|] == files;
    return Ok(IndexedScope(partition, manifest));
  }

  lemma {:induction false} FactsMembers(env: Sources, scope: Scope, files: seq<InventoryEntry>, f: Fact)
    ensures f in FactsOf(env, scope, files) <==> exists e :: e in files && f in env.facts(scope, e.path, e.metadata)
  {
    if files != [] {
      var n := |files| - 1;
      assert files == files[..n] + [files[n]];
      FactsMembers(env, scope, files[..n], f);
    }
  }

  lemma FactsAreBuilt(env: Sources, inventory: seq<InventoryEntry>, scope: Scope)
    requires DistinctPaths(inventory)
    ensures FactsOf(env, scope, ScopeFiles(env, inventory, scope)) == Built(env, FilesOf(env, inventory), scope)
  {
    hide ScopeOf, ScopeFiles, FilesOf, FactsOf;
    var files, current := ScopeFiles(env, inventory, scope), FilesOf(env, inventory);
    forall f ensures f in FactsOf(env, scope, files) <==> f in Built(env, current, scope) {
      FactsMembers(env, scope, files, f);
      if f in FactsOf(env, scope, files) {
        var e :| e in files && f in env.facts(scope, e.path, e.metadata);
        assert e == InventoryEntry(e.path, e.metadata);
        ScopeFilesAreFiles(env, inventory, scope, e.path, e.metadata);
      }
      if f in Built(env, current, scope) {
        var p :| p in current && ScopeOf(p) == scope && f in env.facts(scope, p, current[p]);
        ScopeFilesAreFiles(env, inventory, scope, p, current[p]);
        assert InventoryEntry(p, current[p]) in files;
      }
    }
  }

  // ----- which scopes are affected

  method AffectedScopes(current: Files, prior: Entries, forced: set<Path>, scopes: set<Scope>)
    returns (affected: set<Scope>)
    requires scopes == set p | p in current :: ScopeOf(p)
    ensures affected == Affected(current, prior, forced)
  {
    hide ScopeOf;
    affected := {};
    var rest := current.Keys;
    while rest != {}
      invariant rest <= current.Keys
      invariant affected == set p | p in current && p !in rest && Moved(current, prior, p) :: ScopeOf(p)
    {
      var p :| p in rest;
      if Moved(current, prior, p) { affected := affected + {ScopeOf(p)}; }
      rest := rest - {p};
    }
    ghost var moved := affected;
    assert moved == set p | p in current && Moved(current, prior, p) :: ScopeOf(p);
    rest := prior.Keys;
    while rest != {}
      invariant rest <= prior.Keys
      invariant affected == moved + set p | p in prior && p !in rest && p !in current :: ScopeOf(p)
    {
      var p :| p in rest;
      if p !in current { affected := affected + {ScopeOf(p)}; }
      rest := rest - {p};
    }
    affected := affected + set p | p in forced :: ScopeOf(p);
    if prior == map[] { affected := affected + scopes; }
  }

  // ----- the transaction

  ghost predicate EntriesFor(
      env: Sources, inventory: seq<InventoryEntry>, order: seq<Scope>, done: seq<nat>, entries: seq<ManifestEntry>)
  {
    && (forall k :: k in done ==> k < |order|)
    && (forall i, j :: 0 <= i < j < |entries| ==> entries[i].path != entries[j].path)
    && (forall m :: m in entries ==> IsEntryFor(env, inventory, order, done, m))
    && forall k, p ::
         k in done && p in FilesOf(env, inventory) && ScopeOf(p) == order[k] ==>
           FreshEntry(env, p, FilesOf(env, inventory)[p]) in entries
  }

  ghost predicate IsEntryFor(
      env: Sources, inventory: seq<InventoryEntry>, order: seq<Scope>, done: seq<nat>, m: ManifestEntry)
    requires forall k :: k in done ==> k < |order|
  {
    && m.path in FilesOf(env, inventory) && m == FreshEntry(env, m.path, FilesOf(env, inventory)[m.path])
    && exists k :: k in done && order[k] == ScopeOf(m.path)
  }

  lemma {:induction false} NextEntries(
      env: Sources, inventory: seq<InventoryEntry>, order: seq<Scope>, done: seq<nat>, entries: seq<ManifestEntry>,
      k: nat)
    requires DistinctPaths(inventory) && NoDup(order) && k < |order| && k !in done
    requires EntriesFor(env, inventory, order, done, entries)
    ensures
      EntriesFor(env, inventory, order, done + [k], entries + EntriesOf(env, ScopeFiles(env, inventory, order[k])))
  {
    hide ScopeOf, ScopeFiles, FilesOf, IsEntryFor;
    var files := ScopeFiles(env, inventory, order[k]);
    var more := EntriesOf(env, files);
    ScopeFilesDistinct(env, inventory, order[k]);
    forall i | 0 <= i < |files| ensures FileEntryFor(env, inventory, order[k], more[i]) {
      assert files[i] == InventoryEntry(files[i].path, files[i].metadata) && files[i] in files;
      ScopeFilesAreFiles(env, inventory, order[k], files[i].path, files[i].metadata);
    }
    forall m | m in entries + more ensures IsEntryFor(env, inventory, order, done + [k], m) {
      if m in entries {
        StillEntryFor(env, inventory, order, done, k, m);
      } else {
        assert FileEntryFor(env, inventory, order[k], m);
        NewEntryFor(env, inventory, order, done, k, m);
      }
    }
    forall i, j | 0 <= i < |entries| && 0 <= j < |more| ensures entries[i].path != more[j].path {
      assert IsEntryFor(env, inventory, order, done, entries[i]);
      OldScope(env, inventory, order, done, k, entries[i]);
      assert FileEntryFor(env, inventory, order[k], more[j]);
    }
    DistinctConcat(entries, more);
    forall l, p | l in done + [k] && p in FilesOf(env, inventory) && ScopeOf(p) == order[l]
      ensures FreshEntry(env, p, FilesOf(env, inventory)[p]) in entries + more
    {
      if l !in done {
        ScopeFilesAreFiles(env, inventory, order[k], p, FilesOf(env, inventory)[p]);
        var i :| 0 <= i < |files| && files[i] == InventoryEntry(p, FilesOf(env, inventory)[p]);
        assert more[i] == FreshEntry(env, p, FilesOf(env, inventory)[p]);
      }
    }
  }

  ghost predicate FileEntryFor(env: Sources, inventory: seq<InventoryEntry>, scope: Scope, m: ManifestEntry) {
    && m.path in FilesOf(env, inventory) && m == FreshEntry(env, m.path, FilesOf(env, inventory)[m.path])
    && ScopeOf(m.path) == scope
  }

  lemma StillEntryFor(
      env: Sources, inventory: seq<InventoryEntry>, order: seq<Scope>, done: seq<nat>, k: nat, m: ManifestEntry)
    requires (forall l :: l in done ==> l < |order|) && k < |order| && IsEntryFor(env, inventory, order, done, m)
    ensures IsEntryFor(env, inventory, order, done + [k], m)
  {
    hide ScopeOf, FilesOf;
    var l :| l in done && order[l] == ScopeOf(m.path);
    assert l in done + [k];
  }

  lemma NewEntryFor(
      env: Sources, inventory: seq<InventoryEntry>, order: seq<Scope>, done: seq<nat>, k: nat, m: ManifestEntry)
    requires (forall l :: l in done ==> l < |order|) && k < |order| && FileEntryFor(env, inventory, order[k], m)
    ensures IsEntryFor(env, inventory, order, done + [k], m)
  {
    hide ScopeOf, FilesOf;
    assert k in done + [k];
  }

  lemma OldScope(
      env: Sources, inventory: seq<InventoryEntry>, order: seq<Scope>, done: seq<nat>, k: nat, m: ManifestEntry)
    requires (forall l :: l in done ==> l < |order|) && k < |order| && k !in done && NoDup(order)
    requires IsEntryFor(env, inventory, order, done, m)
    ensures ScopeOf(m.path) != order[k]
  {
    hide ScopeOf, FilesOf;
    var l :| l in done && order[l] == ScopeOf(m.path);
    if l < k { assert order[l] != order[k]; } else { assert order[k] != order[l]; }
  }

  lemma DistinctConcat(a: seq<ManifestEntry>, b: seq<ManifestEntry>)
    requires forall i, j :: 0 <= i < j < |a| ==> a[i].path != a[j].path
    requires forall i, j :: 0 <= i < j < |b| ==> b[i].path != b[j].path
    requires forall i, j :: 0 <= i < |a| && 0 <= j < |b| ==> a[i].path != b[j].path
    ensures forall i, j :: 0 <= i < j < |a + b| ==> (a + b)[i].path != (a + b)[j].path
  {}

  method SweepManifest(prior: Entries, affected: set<Scope>) returns (swept: Entries)
    ensures swept == map p | p in prior && !Swept(affected, p) :: prior[p]
  {
    hide Sweeps;
    swept := prior;
    var rest := affected;
    while rest != {}
      invariant rest <= affected
      invariant swept == map p | p in prior && !Swept(affected - rest, p) :: prior[p]
    {
      var scope :| scope in rest;
      forall p ensures Swept(affected - (rest - {scope}), p) <==> Swept(affected - rest, p) || Sweeps(scope, p) {
        if Sweeps(scope, p) { assert scope in affected - (rest - {scope}); }
        if s :| s in affected - rest && Sweeps(s, p) { assert s in affected - (rest - {scope}); }
      }
      swept := map p | p in swept && !Sweeps(scope, p) :: swept[p];
      rest := rest - {scope};
    }
    assert affected - rest == affected;
  }

  ghost predicate HasPath(entries: seq<ManifestEntry>, p: Path) {
    exists i :: 0 <= i < |entries| && entries[i].path == p
  }

  ghost predicate Inserted(before: Entries, entries: seq<ManifestEntry>, after: Entries) {
    && (forall p :: p in after <==> p in before || HasPath(entries, p))
    && (forall p :: p in before ==> after[p] == before[p])
    && forall i :: 0 <= i < |entries| ==> entries[i].path in after && after[entries[i].path] == entries[i]
  }

  /** Plain inserts: a path that is already there violates the primary key. */
  method InsertEntries(before: Entries, entries: seq<ManifestEntry>) returns (after: Option<Entries>)
    requires forall i, j :: 0 <= i < j < |entries| ==> entries[i].path != entries[j].path
    ensures after.None? <==> exists i :: 0 <= i < |entries| && entries[i].path in before
    ensures after.Some? ==> Inserted(before, entries, after.value)
  {
    var manifest := before;
    for n := 0 to |entries|
      invariant Inserted(before, entries[..n], manifest)
      invariant forall i :: 0 <= i < n ==> entries[i].path !in before
    {
      if entries[n].path in manifest {
        return None;
      }
      manifest := manifest[entries[n].path := entries[n]];
      InsertedNext(before, entries, n, manifest - {entries[n].path}, manifest);
    }
    assert entries[..|entries|] == entries;
    return Some(manifest);
  }

  lemma InsertedNext(before: Entries, entries: seq<ManifestEntry>, n: nat, a: Entries, b: Entries)
    requires n < |entries| && entries[n].path !in a && b == a[entries[n].path := entries[n]]
    requires Inserted(before, entries[..n], a)
    ensures Inserted(before, entries[..n + 1], b)
  {
    assert entries[..n + 1] == entries[..n] + [entries[n]];
    forall p ensures p in b <==> p in before || HasPath(entries[..n + 1], p) {
      if p == entries[n].path { assert entries[..n + 1][n].path == p; }
      if HasPath(entries[..n], p) {
        var i :| 0 <= i < n && entries[..n][i].path == p;
        assert entries[..n + 1][i].path == p;
      }
    }
  }

  lemma InsertedIsNext(
      env: Sources, inventory: seq<InventoryEntry>, prior: Entries, affected: set<Scope>, order: seq<Scope>,
      done: seq<nat>, entries: seq<ManifestEntry>, swept: Entries)
    requires EntriesFor(env, inventory, order, done, entries) && (forall k: nat :: k < |order| ==> k in done)
    requires forall s :: s in order <==> s in affected
    requires swept == map p | p in prior && !Swept(affected, p) :: prior[p]
    ensures
      (exists i :: 0 <= i < |entries| && entries[i].path in swept) <==>
      Conflict(FilesOf(env, inventory), prior, affected)
    ensures forall after ::
        Inserted(swept, entries, after) ==> after == NextManifest(env, FilesOf(env, inventory), prior, affected)
  {
    hide ScopeOf, FilesOf, Sweeps, Swept, IsEntryFor;
    var files := FilesOf(env, inventory);
    forall p ensures HasPath(entries, p) <==> p in files && ScopeOf(p) in affected {
      EntryListed(env, inventory, affected, order, done, entries, p);
    }
    forall i | 0 <= i < |entries|
      ensures entries[i].path in files && entries[i] == FreshEntry(env, entries[i].path, files[entries[i].path])
    {
      assert entries[i] in entries;
      EntryIsFile(env, inventory, order, done, entries[i]);
    }
    if Conflict(files, prior, affected) {
      var p :| p in files && ScopeOf(p) in affected && p in prior && !Swept(affected, p);
      var i :| 0 <= i < |entries| && entries[i].path == p;
      assert entries[i].path in swept;
    }
    forall after | Inserted(swept, entries, after) ensures after == NextManifest(env, files, prior, affected) {
      InsertedMap(env, files, prior, affected, entries, swept, after);
    }
  }

  lemma InsertedMap(
      env: Sources, files: Files, prior: Entries, affected: set<Scope>, entries: seq<ManifestEntry>, swept: Entries,
      after: Entries)
    requires Inserted(swept, entries, after) && swept == map p | p in prior && !Swept(affected, p) :: prior[p]
    requires forall p :: HasPath(entries, p) <==> p in files && ScopeOf(p) in affected
    requires forall i ::
        0 <= i < |entries| ==>
          entries[i].path in files && entries[i] == FreshEntry(env, entries[i].path, files[entries[i].path])
    ensures after == NextManifest(env, files, prior, affected)
  {
    hide ScopeOf, Sweeps, Swept;
    var next := NextManifest(env, files, prior, affected);
    forall p ensures (p in after <==> p in next) && (p in after ==> after[p] == next[p]) {
      if p in files && ScopeOf(p) in affected {
        var i :| 0 <= i < |entries| && entries[i].path == p;
      }
    }
  }

  lemma EntryIsFile(env: Sources, inventory: seq<InventoryEntry>, order: seq<Scope>, done: seq<nat>, m: ManifestEntry)
    requires (forall k :: k in done ==> k < |order|) && IsEntryFor(env, inventory, order, done, m)
    ensures m.path in FilesOf(env, inventory) && m == FreshEntry(env, m.path, FilesOf(env, inventory)[m.path])
    ensures ScopeOf(m.path) in order
  {
    hide ScopeOf, FilesOf;
  }

  lemma EntryListed(
      env: Sources, inventory: seq<InventoryEntry>, affected: set<Scope>, order: seq<Scope>, done: seq<nat>,
      entries: seq<ManifestEntry>, p: Path)
    requires EntriesFor(env, inventory, order, done, entries) && (forall k: nat :: k < |order| ==> k in done)
    requires forall s :: s in order <==> s in affected
    ensures HasPath(entries, p) <==> p in FilesOf(env, inventory) && ScopeOf(p) in affected
  {
    hide ScopeOf, FilesOf, IsEntryFor;
    if i :| 0 <= i < |entries| && entries[i].path == p {
      assert entries[i] in entries;
      EntryIsFile(env, inventory, order, done, entries[i]);
    }
    if p in FilesOf(env, inventory) && ScopeOf(p) in affected {
      var k :| 0 <= k < |order| && order[k] == ScopeOf(p);
      var m := FreshEntry(env, p, FilesOf(env, inventory)[p]);
      assert m in entries;
      var i :| 0 <= i < |entries| && entries[i] == m;
    }
  }

  // ----- the store

  ghost predicate Replaced(
      env: Sources, inventory: seq<InventoryEntry>, before: map<Scope, set<Fact>>, order: seq<Scope>, done: seq<nat>,
      batch: map<Scope, set<Fact>>)
  {
    && (forall k ::
          k in done ==>
            k < |order| && order[k] in batch && batch[order[k]] == Built(env, FilesOf(env, inventory), order[k]))
    && (forall s :: s in batch ==> s in before || s in order)
    && (forall s :: s in before ==> s in batch && (s !in order ==> batch[s] == before[s]))
  }

  lemma ReplaceNext(
      env: Sources, inventory: seq<InventoryEntry>, before: map<Scope, set<Fact>>, order: seq<Scope>, done: seq<nat>,
      batch: map<Scope, set<Fact>>, k: nat)
    requires DistinctPaths(inventory) && k < |order| && Replaced(env, inventory, before, order, done, batch)
    ensures
      Replaced(
        env, inventory, before, order, done + [k],
        batch[order[k] := FactsOf(env, order[k], ScopeFiles(env, inventory, order[k]))])
  {
    hide Built, FilesOf, FactsOf, ScopeFiles;
    FactsAreBuilt(env, inventory, order[k]);
    assert order[k] in order;
  }

  lemma AllReplaced(
      env: Sources, inventory: seq<InventoryEntry>, before: map<Scope, set<Fact>>, affected: set<Scope>,
      order: seq<Scope>, done: seq<nat>, batch: map<Scope, set<Fact>>)
    requires Replaced(env, inventory, before, order, done, batch) && (forall k: nat :: k < |order| ==> k in done)
    requires forall s :: s in order <==> s in affected
    ensures batch == NextPartitions(env, FilesOf(env, inventory), before, affected)
  {
    hide Built, FilesOf;
    var next := NextPartitions(env, FilesOf(env, inventory), before, affected);
    forall s ensures (s in batch <==> s in next) && (s in batch ==> batch[s] == next[s]) {
      if s in affected {
        var k :| 0 <= k < |order| && order[k] == s;
        assert k in done;
      }
    }
  }

  /** What a run needs of the files it reads: those of the affected scopes are still as the inventory saw them. */
  ghost predicate Undisturbed(
      env: Sources, observed: InventoryEntry -> bool, inventory: seq<InventoryEntry>, affected: set<Scope>)
  {
    forall s :: s in affected ==> AllObserved(observed, ScopeFiles(env, inventory, s))
  }

  lemma ForcedAreBuilt(env: Sources, ix: Index, files: Files, forced: set<Path>)
    ensures
      var next := Indexed(env, ix, files, forced);
      forall p :: p in forced ==>
        ScopeOf(p) in next.partitions && next.partitions[ScopeOf(p)] == Built(env, files, ScopeOf(p))
  {
    hide Indexed, Built, ScopeOf;
    forall p | p in forced
      ensures
        var next := Indexed(env, ix, files, forced);
        ScopeOf(p) in next.partitions && next.partitions[ScopeOf(p)] == Built(env, files, ScopeOf(p))
    {
      ForcedIsRebuilt(env, ix, files, forced, p);
    }
  }

  class ProjectIndex {
    var partitions: map<Scope, set<Fact>>
    var manifest: Entries

    constructor ()
      ensures partitions == map[] && manifest == map[]
    {
      partitions, manifest := map[], map[];
    }

    ghost function Now(): Index
      reads this
    {
      Index(partitions, manifest)
    }

    /** Index every affected scope once, in whatever order the workers finish, then replace all of them in one
        transaction. On any error the store stays as it was. */
    method IndexProject(
        env: Sources, observed: InventoryEntry -> bool, inventory: seq<InventoryEntry>, forced: set<Path>,
        workerLimit: nat)
      returns (r: Result<nat, IndexError>)
      requires DistinctPaths(inventory) && workerLimit > 0
      modifies this
      ensures
        var files, affected := FilesOf(env, inventory), Affected(FilesOf(env, inventory), old(manifest), forced);
        r.Ok? <==> Undisturbed(env, observed, inventory, affected) && !Conflict(files, old(manifest), affected)
      ensures r.Ok? ==> Now() == Indexed(env, old(Now()), FilesOf(env, inventory), forced)
      ensures
        r.Ok? ==>
          forall p :: p in forced ==>
            ScopeOf(p) in partitions && partitions[ScopeOf(p)] == Built(env, FilesOf(env, inventory), ScopeOf(p))
      ensures r.Ok? ==> r.value == |Affected(FilesOf(env, inventory), old(manifest), forced)|
      ensures r.Err? ==> Now() == old(Now())
    {
      hide ScopeOf, FilesOf, ScopeFiles, Affected, Conflict, Undisturbed, IsGrouping, NextManifest, NextPartitions,
        Replaced, EntriesFor, DistinctPaths;
      var scopes, current := Group(env, inventory);
      GroupingKeys(env, inventory, scopes);
      var affected := AffectedScopes(current, manifest, forced, scopes.Keys);
      var order := InOrder(affected);
      OrderedDistinct(order);
      InOrderLength(affected, order);
      var work := Work(scopes, order, env, inventory);
      var fails: nat -> bool := (i: nat) => i < |work| && !AllObserved(observed, work[i]);
      var limit := if |work| > 0 then |work| else 1;
      var failed, received := RunPool(|work|, fails, if workerLimit < limit then workerLimit else limit);
      WhoFails(env, observed, inventory, affected, order, work, fails);
      if failed.Some? {
        return Err(SourceChanged);
      }
      ReceivedAll(|work|, received);
      var batch, entries := ReceiveAll(env, observed, inventory, partitions, order, work, received);
      AllReplaced(env, inventory, partitions, affected, order, received, batch);
      var swept := SweepManifest(manifest, affected);
      InsertedIsNext(env, inventory, manifest, affected, order, received, entries, swept);
      EntriesDistinct(env, inventory, order, received, entries);
      var inserted := InsertEntries(swept, entries);
      if inserted.None? {
        return Err(ManifestConflict);
      }
      ForcedAreBuilt(env, Now(), FilesOf(env, inventory), forced);
      partitions, manifest := batch, inserted.value;
      return Ok(|received|);
    }
  }

  lemma GroupingKeys(env: Sources, inventory: seq<InventoryEntry>, scopes: map<Scope, seq<InventoryEntry>>)
    requires IsGrouping(env, inventory, scopes) && DistinctPaths(inventory)
    ensures scopes.Keys == set p | p in FilesOf(env, inventory) :: ScopeOf(p)
  {
    hide ScopeOf, FilesOf, ScopeFiles, DistinctPaths;
    forall s ensures s in scopes <==> exists p :: p in FilesOf(env, inventory) && ScopeOf(p) == s {
      var files := ScopeFiles(env, inventory, s);
      if files != [] {
        assert files[0] == InventoryEntry(files[0].path, files[0].metadata) && files[0] in files;
        ScopeFilesAreFiles(env, inventory, s, files[0].path, files[0].metadata);
      }
      if p :| p in FilesOf(env, inventory) && ScopeOf(p) == s {
        ScopeFilesAreFiles(env, inventory, s, p, FilesOf(env, inventory)[p]);
      }
    }
  }

  lemma InOrderLength(affected: set<Scope>, order: seq<Scope>)
    requires NoDup(order) && forall s :: s in order <==> s in affected
    ensures |order| == |affected|
  {
    NoDupSize(order);
    assert Elems(order) == affected;
  }

  /** The affected scopes with their files; a scope without files is indexed too, as empty. */
  method Work(
      scopes: map<Scope, seq<InventoryEntry>>, order: seq<Scope>, ghost env: Sources,
      ghost inventory: seq<InventoryEntry>)
    returns (work: seq<seq<InventoryEntry>>)
    requires IsGrouping(env, inventory, scopes)
    ensures |work| == |order| && forall k :: 0 <= k < |order| ==> work[k] == ScopeFiles(env, inventory, order[k])
  {
    hide ScopeFiles;
    work := [];
    for k := 0 to |order|
      invariant |work| == k && forall l :: 0 <= l < k ==> work[l] == ScopeFiles(env, inventory, order[l])
    {
      work := work + [Grouped(scopes, order[k])];
    }
  }

  lemma WhoFails(
      env: Sources, observed: InventoryEntry -> bool, inventory: seq<InventoryEntry>, affected: set<Scope>,
      order: seq<Scope>, work: seq<seq<InventoryEntry>>, fails: nat -> bool)
    requires forall s :: s in order <==> s in affected
    requires |work| == |order| && forall k :: 0 <= k < |order| ==> work[k] == ScopeFiles(env, inventory, order[k])
    requires forall i: nat :: fails(i) <==> i < |work| && !AllObserved(observed, work[i])
    ensures (forall i: nat :: i < |work| ==> !fails(i)) <==> Undisturbed(env, observed, inventory, affected)
    ensures
      (forall i: nat :: i < |work| ==> !fails(i)) ==> forall k :: 0 <= k < |work| ==> AllObserved(observed, work[k])
  {
    hide ScopeFiles, AllObserved;
    if forall i: nat :: i < |work| ==> !fails(i) {
      forall s | s in affected ensures AllObserved(observed, ScopeFiles(env, inventory, s)) {
        var k :| 0 <= k < |order| && order[k] == s;
        assert !fails(k);
      }
      forall k | 0 <= k < |work| ensures AllObserved(observed, work[k]) { assert !fails(k); }
    }
    if Undisturbed(env, observed, inventory, affected) {
      forall i: nat | i < |work| ensures !fails(i) { assert order[i] in order; }
    }
  }

  lemma ReceivedAll(n: nat, received: seq<nat>)
    requires ExactlyOnce(n, received)
    ensures |received| == n && NoDup(received)
    ensures forall k: nat :: k < n ==> k in received
    ensures forall k :: k in received ==> k < n
  {
    assert |multiset(received)| == |received| && |multiset(Range(n))| == |Range(n)| == n;
    forall k: nat ensures k in received <==> k < n {
      RangeMembers(n, k);
      assert k in received <==> k in multiset(received);
    }
    forall i, j | 0 <= i < j < |received| ensures received[i] != received[j] {
      if received[i] == received[j] {
        RangeMembers(n, received[i]);
        Twice(received, i, j);
      }
    }
  }

  lemma Twice(s: seq<nat>, i: nat, j: nat)
    requires i < j < |s| && s[i] == s[j]
    ensures multiset(s)[s[i]] >= 2
  {
    assert s == s[..j] + [s[j]] + s[j + 1..];
    assert s[i] in s[..j];
  }

  /** The receiver: replace the partition of every scope as it arrives, and collect its manifest entries. */
  method ReceiveAll(
      env: Sources, observed: InventoryEntry -> bool, ghost inventory: seq<InventoryEntry>,
      before: map<Scope, set<Fact>>, order: seq<Scope>, work: seq<seq<InventoryEntry>>, received: seq<nat>)
    returns (batch: map<Scope, set<Fact>>, entries: seq<ManifestEntry>)
    requires DistinctPaths(inventory) && NoDup(order) && NoDup(received) && forall k :: k in received ==> k < |order|
    requires |work| == |order| && forall k :: 0 <= k < |order| ==> work[k] == ScopeFiles(env, inventory, order[k])
    requires forall k :: 0 <= k < |work| ==> AllObserved(observed, work[k])
    ensures
      Replaced(env, inventory, before, order, received, batch) && EntriesFor(env, inventory, order, received, entries)
  {
    hide DistinctPaths, ScopeFiles, FactsOf, Replaced, EntriesFor, AllObserved;
    batch, entries := before, [];
    NothingReceived(env, inventory, before, order);
    for n := 0 to |received|
      invariant Replaced(env, inventory, before, order, received[..n], batch)
      invariant EntriesFor(env, inventory, order, received[..n], entries)
    {
      var k := received[n];
      assert k in received && k !in received[..n];
      assert received[..n + 1] == received[..n] + [k];
      var indexed := IndexScope(env, observed, order[k], work[k]);
      ReplaceNext(env, inventory, before, order, received[..n], batch, k);
      NextEntries(env, inventory, order, received[..n], entries, k);
      batch := batch[order[k] := indexed.value.partition];
      entries := entries + indexed.value.manifest;
    }
    assert received[..|received|] == received;
  }

  lemma NothingReceived(env: Sources, inventory: seq<InventoryEntry>, before: map<Scope, set<Fact>>, order: seq<Scope>)
    ensures Replaced(env, inventory, before, order, [], before) && EntriesFor(env, inventory, order, [], [])
  {}

  lemma EntriesDistinct(
      env: Sources, inventory: seq<InventoryEntry>, order: seq<Scope>, done: seq<nat>, entries: seq<ManifestEntry>)
    requires EntriesFor(env, inventory, order, done, entries)
    ensures forall i, j :: 0 <= i < j < |entries| ==> entries[i].path != entries[j].path
  {}
}
