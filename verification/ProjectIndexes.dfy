/** What an incremental index holds after any history of runs: crates/workflow-code-intel/src/index.rs and the
    manifest sweep of crates/workflow-code-intel/src/graph/store.rs. */
module ProjectIndexes {
  import opened Sequences
  import opened Bytes
  import opened ManifestDiff
  import LikePatterns

  type Scope = bytes
  type Fact = nat
  type Files = map<Path, FileMetadata>

  const ROOT: Scope := [114, 111, 111, 116]

  /** Reading and extracting a file, as functions of its path and metadata: equal metadata means equal bytes. */
  datatype Sources = Sources(
    supported: Path -> bool, digest: (Path, FileMetadata) -> ContentDigest,
    facts: (Scope, Path, FileMetadata) -> set<Fact>)

  datatype Index = Index(partitions: map<Scope, set<Fact>>, manifest: Entries)

  // ----- scopes

  function LastSlash(path: Path): (k: Option<nat>)
    ensures
      k.Some? ==> k.value < |path| && path[k.value] == SLASH && forall i :: k.value < i < |path| ==> path[i] != SLASH
    ensures k.None? <==> SLASH !in path
  {
    if path == [] then None
    else if path[|path| - 1] == SLASH then Some(|path| - 1)
    else LastSlash(path[..|path| - 1])
  }

  /** The directory of a path, and `root` for a path without one. */
  function ScopeOf(path: Path): Scope {
    match LastSlash(path) case Some(k) => path[..k] case None => ROOT
  }

  function LowerByte(b: byte): byte {
    if 65 <= b <= 90 then b + 32 else b
  }

  function Lower(s: bytes): bytes {
    seq(|s|, i requires 0 <= i < |s| => LowerByte(s[i]))
  }

  /** What replacing a scope deletes from the manifest: for `root` the paths without a slash, otherwise
      `LIKE 'scope/%'`, which ignores ASCII case and does not stop at the next slash. */
  predicate Sweeps(scope: Scope, path: Path) {
    if scope == ROOT then SLASH !in path
    else |scope| < |path| && Lower(path[..|scope| + 1]) == Lower(scope + [SLASH])
  }

  /** The sweep is what the store's statement matches: the escaped scope, a slash and `%`, whatever bytes the scope
      holds. */
  lemma SweepsByPattern(scope: Scope, path: Path)
    requires scope != ROOT
    ensures Sweeps(scope, path) <==> LikePatterns.LikeMatch(LikePatterns.EscapeLike(scope) + [SLASH, 37], path)
  {
    LikePatterns.DirectoryPattern(scope, path);
    var n := |scope|;
    if n < |path| {
      assert Lower(scope + [SLASH])[n] == LowerByte(SLASH) && Lower(path[..n + 1])[n] == LowerByte(path[n]);
      if Sweeps(scope, path) {
        forall i | 0 <= i < n ensures LikePatterns.SameLetter(scope[i], path[i]) {
          assert Lower(path[..n + 1])[i] == Lower(scope + [SLASH])[i];
        }
      }
      if LikePatterns.IsBelow(scope, path) {
        forall i | 0 <= i <= n ensures Lower(path[..n + 1])[i] == Lower(scope + [SLASH])[i] {
          if i < n { assert LikePatterns.SameLetter(scope[i], path[i]); }
        }
        assert Lower(path[..n + 1]) == Lower(scope + [SLASH]);
      }
    }
  }

  /** A file directly inside a top-level directory named `root` shares the scope of the files without directory. */
  predicate InRootDirectory(path: Path) {
    SLASH in path && ScopeOf(path) == ROOT
  }

  lemma OwnSweep(path: Path)
    ensures Sweeps(ScopeOf(path), path) <==> !InRootDirectory(path)
  {
    match LastSlash(path)
    case Some(k) => assert path[..k + 1] == path[..k] + [SLASH];
    case None =>
  }

  /** A scope is swept as a whole or not at all. */
  lemma SweepsWhole(scope: Scope, p: Path, q: Path)
    requires ScopeOf(p) == ScopeOf(q) && !InRootDirectory(p) && !InRootDirectory(q)
    ensures Sweeps(scope, p) <==> Sweeps(scope, q)
  {
    if Sweeps(scope, p) { SweepsSibling(scope, p, q); }
    if Sweeps(scope, q) { SweepsSibling(scope, q, p); }
  }

  lemma SweepsSibling(scope: Scope, p: Path, q: Path)
    requires ScopeOf(p) == ScopeOf(q) && !InRootDirectory(p) && !InRootDirectory(q) && Sweeps(scope, p)
    ensures Sweeps(scope, q)
  {
    if scope != ROOT {
      var n := |scope|;
      assert Lower(p[..n + 1])[n] == Lower(scope + [SLASH])[n] == SLASH;
      assert p[n] == SLASH;
      var k, l := LastSlash(p).value, LastSlash(q).value;
      assert k == l && n <= k;
      assert p[..k] == q[..k];
      assert p[..n + 1] == q[..n + 1] by {
        if n < k { assert p[..n + 1] == p[..k][..n + 1] && q[..n + 1] == q[..k][..n + 1]; }
      }
    }
  }

  // ----- one run

  ghost function Built(env: Sources, files: Files, scope: Scope): set<Fact> {
    set p, f | p in files && ScopeOf(p) == scope && f in env.facts(scope, p, files[p]) :: f
  }

  function FreshEntry(env: Sources, path: Path, metadata: FileMetadata): ManifestEntry {
    ManifestEntry(env.digest(path, metadata), metadata, path)
  }

  predicate Moved(files: Files, prior: Entries, path: Path) {
    path in files && (path !in prior || prior[path].metadata != files[path])
  }

  function Affected(files: Files, prior: Entries, forced: set<Path>): set<Scope> {
    (set p | p in files && Moved(files, prior, p) :: ScopeOf(p))
    + (set p | p in prior && p !in files :: ScopeOf(p))
    + (set p | p in forced :: ScopeOf(p))
    + (if prior == map[] then set p | p in files :: ScopeOf(p) else {})
  }

  predicate Swept(affected: set<Scope>, path: Path) {
    exists s :: s in affected && Sweeps(s, path)
  }

  function NextManifest(env: Sources, files: Files, prior: Entries, affected: set<Scope>): Entries {
    map p |
      && p in files.Keys + prior.Keys
      && ((p in files && ScopeOf(p) in affected) || (p in prior && !Swept(affected, p))) ::
      if p in files && ScopeOf(p) in affected then FreshEntry(env, p, files[p]) else prior[p]
  }

  ghost function NextPartitions(
      env: Sources, files: Files, partitions: map<Scope, set<Fact>>, affected: set<Scope>)
    : map<Scope, set<Fact>>
  {
    map s | s in partitions.Keys + affected :: if s in affected then Built(env, files, s) else partitions[s]
  }

  /** An insertion meets an entry that the sweep left behind. */
  ghost predicate Conflict(files: Files, prior: Entries, affected: set<Scope>) {
    exists p :: p in files && ScopeOf(p) in affected && p in prior && !Swept(affected, p)
  }

  ghost function Indexed(env: Sources, ix: Index, files: Files, forced: set<Path>): Index {
    var affected := Affected(files, ix.manifest, forced);
    Index(NextPartitions(env, files, ix.partitions, affected), NextManifest(env, files, ix.manifest, affected))
  }

  // ----- what a run rebuilds, from any index

  /** A reason to index a scope: one of its paths is forced, new, gone, or has other metadata than listed. */
  ghost predicate IsAsked(files: Files, prior: Entries, forced: set<Path>, scope: Scope) {
    exists p :: ScopeOf(p) == scope && AsksFor(files, prior, forced, p)
  }

  predicate AsksFor(files: Files, prior: Entries, forced: set<Path>, p: Path) {
    || p in forced
    || (p in files && p !in prior)
    || (p in prior && p !in files)
    || (p in files && p in prior && files[p] != prior[p].metadata)
  }

  lemma AffectedExactly(files: Files, prior: Entries, forced: set<Path>, scope: Scope)
    ensures scope in Affected(files, prior, forced) <==> IsAsked(files, prior, forced, scope)
  {
    hide ScopeOf;
    if scope in Affected(files, prior, forced) {
      var p :| ScopeOf(p) == scope && (p in files || p in prior || p in forced) && AsksFor(files, prior, forced, p);
    }
    if p :| ScopeOf(p) == scope && AsksFor(files, prior, forced, p) {
      assert p in files && (p !in prior || files[p] != prior[p].metadata) ==> Moved(files, prior, p);
    }
  }

  /** From any index, genuine or not: a scope with a forced, new, vanished or moved path ends with exactly the facts of
      its current files, and every other scope is left as it is. */
  lemma RebuildsExactly(env: Sources, ix: Index, files: Files, forced: set<Path>, scope: Scope)
    ensures
      var next := Indexed(env, ix, files, forced);
      if IsAsked(files, ix.manifest, forced, scope) then
        && scope in next.partitions
        && forall f :: f in next.partitions[scope] <==>
             exists p :: p in files && ScopeOf(p) == scope && f in env.facts(scope, p, files[p])
      else
        && (scope in next.partitions <==> scope in ix.partitions)
        && (scope in ix.partitions ==> next.partitions[scope] == ix.partitions[scope])
  {
    hide ScopeOf, Affected, IsAsked, NextManifest;
    AffectedExactly(files, ix.manifest, forced, scope);
  }

  /** Forcing a path thus repairs what metadata would never touch again: whatever its partition held, and whatever its
      entry said, both are those of a rebuild afterwards. */
  lemma ForcedIsRebuilt(env: Sources, ix: Index, files: Files, forced: set<Path>, path: Path)
    requires path in forced
    ensures
      var next := Indexed(env, ix, files, forced);
      && ScopeOf(path) in next.partitions
      && next.partitions[ScopeOf(path)] == Built(env, files, ScopeOf(path))
      && (path in files ==> path in next.manifest && next.manifest[path] == FreshEntry(env, path, files[path]))
      && (path !in files && !InRootDirectory(path) ==> path !in next.manifest)
  {
    hide ScopeOf, Swept, InRootDirectory, Built;
    var affected := Affected(files, ix.manifest, forced);
    assert ScopeOf(path) in affected;
    if path !in files && !InRootDirectory(path) { AffectedSweptOwn(affected, path); }
  }

  /** Without forced paths nothing ever looks at a partition again whose files are listed as they are. */
  lemma UnforcedStays(env: Sources, ix: Index, files: Files, scope: Scope)
    requires scope in ix.partitions
    requires forall p :: ScopeOf(p) == scope ==> (p in files <==> p in ix.manifest)
    requires forall p :: ScopeOf(p) == scope && p in files ==> files[p] == ix.manifest[p].metadata
    ensures
      var next := Indexed(env, ix, files, {});
      scope in next.partitions && next.partitions[scope] == ix.partitions[scope]
  {
    hide ScopeOf, Indexed;
    RebuildsExactly(env, ix, files, {}, scope);
  }

  // ----- what every history keeps

  ghost function MetadataOf(manifest: Entries): Files {
    map p | p in manifest :: manifest[p].metadata
  }

  ghost predicate NoRootDirectory(paths: set<Path>) {
    forall p :: p in paths ==> !InRootDirectory(p)
  }

  /** The partition of a listed scope was built from exactly the files the manifest lists for it. */
  ghost predicate Listed(env: Sources, ix: Index, path: Path)
    requires path in ix.manifest
  {
    && ix.manifest[path] == FreshEntry(env, path, ix.manifest[path].metadata)
    && ScopeOf(path) in ix.partitions
    && ix.partitions[ScopeOf(path)] == Built(env, MetadataOf(ix.manifest), ScopeOf(path))
  }

  ghost predicate Genuine(env: Sources, ix: Index) {
    NoRootDirectory(ix.manifest.Keys) && forall p :: p in ix.manifest ==> Listed(env, ix, p)
  }

  /** The partition of every current scope, and every manifest entry there is, are those of a rebuild. */
  ghost predicate Fresh(env: Sources, ix: Index, files: Files) {
    && (forall p ::
          p in files ==> ScopeOf(p) in ix.partitions && ix.partitions[ScopeOf(p)] == Built(env, files, ScopeOf(p)))
    && forall p :: p in ix.manifest ==> p in files && ix.manifest[p] == FreshEntry(env, p, files[p])
  }

  lemma Unaffected(files: Files, prior: Entries, forced: set<Path>, path: Path)
    requires ScopeOf(path) !in Affected(files, prior, forced)
    ensures path in files <==> path in prior
    ensures path in prior ==> prior[path].metadata == files[path]
  {
    assert !Moved(files, prior, path);
  }

  lemma AffectedSweptOwn(affected: set<Scope>, path: Path)
    requires ScopeOf(path) in affected && !InRootDirectory(path)
    ensures Swept(affected, path)
  {
    OwnSweep(path);
  }

  /** Without files directly inside a top-level `root` directory, no insertion ever conflicts. */
  lemma NoConflict(files: Files, prior: Entries, affected: set<Scope>)
    requires NoRootDirectory(prior.Keys)
    ensures !Conflict(files, prior, affected)
  {
    forall p | p in files && ScopeOf(p) in affected && p in prior ensures Swept(affected, p) {
      AffectedSweptOwn(affected, p);
    }
  }

  lemma {:induction false} EntryIsFresh(env: Sources, ix: Index, files: Files, forced: set<Path>, path: Path)
    requires Genuine(env, ix) && path in Indexed(env, ix, files, forced).manifest
    ensures path in files && Indexed(env, ix, files, forced).manifest[path] == FreshEntry(env, path, files[path])
  {
    hide Built, Swept, InRootDirectory, ScopeOf;
    var affected := Affected(files, ix.manifest, forced);
    if !(path in files && ScopeOf(path) in affected) {
      assert path in ix.manifest && Listed(env, ix, path);
      if ScopeOf(path) in affected {
        AffectedSweptOwn(affected, path);
      } else {
        Unaffected(files, ix.manifest, forced, path);
      }
    }
  }

  lemma SameBuilt(env: Sources, a: Files, b: Files, scope: Scope)
    requires forall p :: ScopeOf(p) == scope ==> (p in a <==> p in b) && (p in a ==> a[p] == b[p])
    ensures Built(env, a, scope) == Built(env, b, scope)
  {
    hide ScopeOf;
  }

  lemma {:induction false} PartitionIsFresh(env: Sources, ix: Index, files: Files, forced: set<Path>, path: Path)
    requires Genuine(env, ix) && path in files
    ensures
      var next := Indexed(env, ix, files, forced);
      ScopeOf(path) in next.partitions && next.partitions[ScopeOf(path)] == Built(env, files, ScopeOf(path))
  {
    hide Built, Swept, InRootDirectory, ScopeOf, Affected;
    var affected := Affected(files, ix.manifest, forced);
    var scope := ScopeOf(path);
    if scope !in affected {
      forall p | ScopeOf(p) == scope
        ensures
          (p in MetadataOf(ix.manifest) <==> p in files) && (p in files ==> MetadataOf(ix.manifest)[p] == files[p])
      {
        Unaffected(files, ix.manifest, forced, p);
      }
      assert path in ix.manifest && Listed(env, ix, path);
      SameBuilt(env, MetadataOf(ix.manifest), files, scope);
    }
  }

  /** What a run drops from the manifest it drops for whole scopes. */
  lemma {:induction false} KeptWhole(
      env: Sources, ix: Index, files: Files, forced: set<Path>, path: Path, sibling: Path)
    requires Genuine(env, ix) && NoRootDirectory(files.Keys)
    requires path in Indexed(env, ix, files, forced).manifest && ScopeOf(sibling) == ScopeOf(path)
    ensures sibling in Indexed(env, ix, files, forced).manifest <==> sibling in files
  {
    hide Built, InRootDirectory, ScopeOf, Affected, Sweeps;
    var affected := Affected(files, ix.manifest, forced);
    EntryIsFresh(env, ix, files, forced, path);
    if sibling in Indexed(env, ix, files, forced).manifest {
      EntryIsFresh(env, ix, files, forced, sibling);
    }
    if sibling in files && ScopeOf(path) !in affected {
      Unaffected(files, ix.manifest, forced, sibling);
      forall s | s in affected ensures !Sweeps(s, sibling) {
        SweepsWhole(s, path, sibling);
      }
    }
  }

  lemma {:induction false} IndexedIsFresh(env: Sources, ix: Index, files: Files, forced: set<Path>)
    requires Genuine(env, ix)
    ensures Fresh(env, Indexed(env, ix, files, forced), files)
  {
    hide Indexed, Genuine, Built, ScopeOf;
    var next := Indexed(env, ix, files, forced);
    forall p | p in files
      ensures ScopeOf(p) in next.partitions && next.partitions[ScopeOf(p)] == Built(env, files, ScopeOf(p))
    {
      PartitionIsFresh(env, ix, files, forced, p);
    }
    forall p | p in next.manifest ensures p in files && next.manifest[p] == FreshEntry(env, p, files[p]) {
      EntryIsFresh(env, ix, files, forced, p);
    }
  }

  lemma {:induction false} IndexedIsGenuine(env: Sources, ix: Index, files: Files, forced: set<Path>)
    requires Genuine(env, ix) && NoRootDirectory(files.Keys)
    ensures Genuine(env, Indexed(env, ix, files, forced))
  {
    hide Indexed, Built, ScopeOf, InRootDirectory;
    var next := Indexed(env, ix, files, forced);
    IndexedIsFresh(env, ix, files, forced);
    forall p | p in next.manifest ensures Listed(env, next, p) {
      forall q | ScopeOf(q) == ScopeOf(p)
        ensures
          && (q in MetadataOf(next.manifest) <==> q in files)
          && (q in files ==> MetadataOf(next.manifest)[q] == files[q])
      {
        KeptWhole(env, ix, files, forced, p, q);
      }
      SameBuilt(env, MetadataOf(next.manifest), files, ScopeOf(p));
    }
  }

  // ----- histories

  /** One call: what the inventory found, the forced paths, and whether the call succeeded. A failed call
      leaves the store as it was. */
  datatype Run = Run(files: Files, forced: set<Path>, succeeds: bool)

  ghost function After(env: Sources, runs: seq<Run>): Index {
    if runs == [] then Index(map[], map[])
    else
      var before := After(env, runs[..|runs| - 1]);
      var last := runs[|runs| - 1];
      if last.succeeds then Indexed(env, before, last.files, last.forced) else before
  }

  ghost predicate NoRootDirectories(runs: seq<Run>) {
    forall i :: 0 <= i < |runs| ==> NoRootDirectory(runs[i].files.Keys)
  }

  lemma {:induction false} HistoryIsGenuine(env: Sources, runs: seq<Run>)
    requires NoRootDirectories(runs)
    ensures Genuine(env, After(env, runs))
  {
    hide Indexed, Listed, InRootDirectory;
    if runs != [] {
      var n := |runs| - 1;
      HistoryIsGenuine(env, runs[..n]);
      if runs[n].succeeds {
        IndexedIsGenuine(env, After(env, runs[..n]), runs[n].files, runs[n].forced);
      }
    }
  }

  lemma FreshEntries(env: Sources, ix: Index, files: Files)
    requires Fresh(env, ix, files)
    ensures
      forall p :: p in ix.manifest ==>
        p in files && ix.manifest[p] == ManifestEntry(env.digest(p, files[p]), files[p], p)
  {
    hide Built, ScopeOf;
  }

  /** After any history of edits and runs, failed ones included, a successful run leaves every current partition
      and every manifest entry as a rebuild from scratch would. */
  lemma {:induction false} FreshAfterEveryHistory(env: Sources, runs: seq<Run>)
    requires runs != [] && NoRootDirectories(runs) && runs[|runs| - 1].succeeds
    ensures Fresh(env, After(env, runs), runs[|runs| - 1].files)
    ensures
      var ix, files := After(env, runs), runs[|runs| - 1].files;
      forall p :: p in ix.manifest ==>
        p in files && ix.manifest[p] == ManifestEntry(env.digest(p, files[p]), files[p], p)
    ensures
      var before := After(env, runs[..|runs| - 1]);
      var last := runs[|runs| - 1];
      !Conflict(last.files, before.manifest, Affected(last.files, before.manifest, last.forced))
  {
    hide Indexed, Listed, InRootDirectory, Fresh, Conflict, Affected;
    var n := |runs| - 1;
    assert NoRootDirectories(runs[..n]);
    HistoryIsGenuine(env, runs[..n]);
    var before := After(env, runs[..n]);
    IndexedIsFresh(env, before, runs[n].files, runs[n].forced);
    FreshEntries(env, After(env, runs), runs[n].files);
    NoConflict(runs[n].files, before.manifest, Affected(runs[n].files, before.manifest, runs[n].forced));
  }

  /** The manifest of a rebuild. */
  ghost function Rebuilt(env: Sources, files: Files): Entries {
    map p | p in files :: FreshEntry(env, p, files[p])
  }

  /** When nothing is missing: no affected scope sweeps a file of an unaffected one. */
  ghost predicate SweepsStayHome(files: Files, affected: set<Scope>) {
    forall p :: p in files && ScopeOf(p) !in affected ==> !Swept(affected, p)
  }

  /** The manifest equals that of a rebuild exactly when no affected scope sweeps a file of an unaffected one. */
  lemma {:induction false} ManifestComplete(env: Sources, ix: Index, files: Files, forced: set<Path>)
    requires Genuine(env, ix)
    ensures
      Indexed(env, ix, files, forced).manifest == Rebuilt(env, files) <==>
      SweepsStayHome(files, Affected(files, ix.manifest, forced))
  {
    hide Built, Swept, InRootDirectory, ScopeOf, Affected;
    var next := Indexed(env, ix, files, forced);
    var affected := Affected(files, ix.manifest, forced);
    forall p | p in files && ScopeOf(p) !in affected ensures p in next.manifest <==> !Swept(affected, p) {
      Unaffected(files, ix.manifest, forced, p);
    }
    forall p | p in next.manifest ensures p in files && next.manifest[p] == FreshEntry(env, p, files[p]) {
      EntryIsFresh(env, ix, files, forced, p);
    }
    if SweepsStayHome(files, affected) {
      assert next.manifest.Keys == files.Keys;
    }
  }

  /** A scope that vanished while the manifest listed it ends with an empty partition. */
  lemma VanishedIsEmptied(env: Sources, ix: Index, files: Files, forced: set<Path>, path: Path)
    requires path in ix.manifest && forall p :: p in files ==> ScopeOf(p) != ScopeOf(path)
    ensures
      var next := Indexed(env, ix, files, forced);
      ScopeOf(path) in next.partitions && next.partitions[ScopeOf(path)] == {}
  {
    hide ScopeOf, Sweeps;
    assert ScopeOf(path) in Affected(files, ix.manifest, forced);
    assert Built(env, files, ScopeOf(path)) == {};
  }

  /** A partition holds facts although its scope has no file any more. */
  ghost predicate IsStale(ix: Index, files: Files, scope: Scope) {
    scope in ix.partitions && ix.partitions[scope] != {} && forall p :: p in files ==> ScopeOf(p) != scope
  }

  /** A run leaves no stale partition exactly when every partition that would be stale is among the affected. */
  lemma NoStaleAfterRunIff(env: Sources, ix: Index, files: Files, forced: set<Path>)
    ensures (forall s :: !IsStale(Indexed(env, ix, files, forced), files, s)) <==>
              forall s :: IsStale(ix, files, s) ==> s in Affected(files, ix.manifest, forced)
  {
    hide ScopeOf, Affected, NextManifest;
    var next, affected := Indexed(env, ix, files, forced), Affected(files, ix.manifest, forced);
    forall s ensures IsStale(next, files, s) <==> IsStale(ix, files, s) && s !in affected {
      if (forall p :: p in files ==> ScopeOf(p) != s) { assert Built(env, files, s) == {}; }
    }
  }

  /** Every partition with facts has a listed file. */
  ghost predicate IsBacked(ix: Index, scope: Scope) {
    scope in ix.partitions && ix.partitions[scope] != {} ==> exists p :: p in ix.manifest && ScopeOf(p) == scope
  }

  lemma StaysBacked(env: Sources, ix: Index, files: Files, forced: set<Path>, scope: Scope)
    requires IsBacked(ix, scope) && SweepsStayHome(files, Affected(files, ix.manifest, forced))
    ensures IsBacked(Indexed(env, ix, files, forced), scope)
  {
    hide ScopeOf, Affected, Swept;
    var next, affected := Indexed(env, ix, files, forced), Affected(files, ix.manifest, forced);
    if scope in next.partitions && next.partitions[scope] != {} {
      if scope in affected {
        var f :| f in Built(env, files, scope);
        var p :| p in files && ScopeOf(p) == scope && f in env.facts(scope, p, files[p]);
        assert p in next.manifest;
      } else {
        var p :| p in ix.manifest && ScopeOf(p) == scope;
        Unaffected(files, ix.manifest, forced, p);
        assert p in next.manifest;
      }
    }
  }

  /** In no successful run does an affected scope sweep a file of an unaffected one. */
  ghost predicate AllStayHome(env: Sources, runs: seq<Run>) {
    forall i :: 0 <= i < |runs| && runs[i].succeeds ==> StaysHome(env, runs[..i], runs[i])
  }

  ghost predicate StaysHome(env: Sources, before: seq<Run>, run: Run) {
    var prior := After(env, before).manifest;
    SweepsStayHome(run.files, Affected(run.files, prior, run.forced))
  }

  lemma PrefixStaysHome(env: Sources, runs: seq<Run>, n: nat)
    requires n <= |runs| && AllStayHome(env, runs)
    ensures AllStayHome(env, runs[..n])
  {
    hide StaysHome;
    forall i | 0 <= i < n && runs[..n][i].succeeds ensures StaysHome(env, runs[..n][..i], runs[..n][i]) {
      assert runs[..n][..i] == runs[..i];
    }
  }

  lemma {:induction false} HistoryIsBacked(env: Sources, runs: seq<Run>, scope: Scope)
    requires AllStayHome(env, runs)
    ensures IsBacked(After(env, runs), scope)
  {
    hide Indexed, IsBacked, SweepsStayHome;
    if runs != [] {
      var n := |runs| - 1;
      PrefixStaysHome(env, runs, n);
      HistoryIsBacked(env, runs[..n], scope);
      if runs[n].succeeds {
        assert StaysHome(env, runs[..n], runs[n]);
        StaysBacked(env, After(env, runs[..n]), runs[n].files, runs[n].forced, scope);
      }
    } else {
      NothingToBack(scope);
    }
  }

  lemma NothingToBack(scope: Scope)
    ensures IsBacked(Index(map[], map[]), scope)
  {}

  /** As long as no affected scope sweeps a file of an unaffected one, every successful run leaves exactly what a
      rebuild would, apart from empty partitions of scopes that have vanished. */
  lemma RebuiltAfterHomeHistory(env: Sources, runs: seq<Run>)
    requires runs != [] && NoRootDirectories(runs) && AllStayHome(env, runs) && runs[|runs| - 1].succeeds
    ensures
      var ix, files := After(env, runs), runs[|runs| - 1].files;
      && Fresh(env, ix, files) && ix.manifest == Rebuilt(env, files)
      && forall s :: !IsStale(ix, files, s)
  {
    hide Indexed, Listed, InRootDirectory, Affected, Fresh, Rebuilt, SweepsStayHome, AllStayHome;
    var n := |runs| - 1;
    FreshAfterEveryHistory(env, runs);
    assert NoRootDirectories(runs[..n]);
    HistoryIsGenuine(env, runs[..n]);
    LastStaysHome(env, runs);
    ManifestComplete(env, After(env, runs[..n]), runs[n].files, runs[n].forced);
    forall s ensures !IsStale(After(env, runs), runs[n].files, s) {
      HistoryIsBacked(env, runs, s);
      BackedIsNotStale(env, After(env, runs), runs[n].files, s);
    }
  }

  lemma LastStaysHome(env: Sources, runs: seq<Run>)
    requires runs != [] && AllStayHome(env, runs) && runs[|runs| - 1].succeeds
    ensures StaysHome(env, runs[..|runs| - 1], runs[|runs| - 1])
  {
    hide StaysHome;
  }

  lemma BackedIsNotStale(env: Sources, ix: Index, files: Files, scope: Scope)
    requires IsBacked(ix, scope) && ix.manifest == Rebuilt(env, files)
    ensures !IsStale(ix, files, scope)
  {}

  // ----- where the sweep loses entries

  const OUTER: Path := [115, 47, 97]
  const INNER: Path := [115, 47, 120, 47, 98]

  lemma NestedPaths()
    ensures ScopeOf(OUTER) == [115] && ScopeOf(INNER) == [115, 47, 120]
    ensures
      Sweeps([115], INNER) && Sweeps([115], OUTER) && !Sweeps([115, 47, 120], OUTER) && Sweeps([115, 47, 120], INNER)
  {
    LastSlashAt(OUTER, 1);
    LastSlashAt(INNER, 3);
    assert INNER[..3] == [115, 47, 120] && OUTER[..1] == [115];
    assert INNER[..2] == [115] + [SLASH] == OUTER[..2];
    assert INNER[..4] == [115, 47, 120] + [SLASH];
  }

  lemma LastSlashAt(path: Path, k: nat)
    requires k < |path| && path[k] == SLASH && forall i :: k < i < |path| ==> path[i] != SLASH
    ensures LastSlash(path) == Some(k)
  {
    assert path[k] in path;
    assert path[LastSlash(path).value] == SLASH;
  }

  /** Editing `s/a` makes the run forget `s/x/b`: its scope is unaffected, yet `LIKE 's/%'` sweeps its entry. When
      `s/x/b` is then deleted, no later run notices, and its facts stay in the index. */
  lemma {:induction false} SweepForgetsNestedScope(
      env: Sources, early: FileMetadata, late: FileMetadata, inner: FileMetadata, first: Run, edited: Run, gone: Run)
    requires early != late && env.facts([115, 47, 120], INNER, inner) != {}
    requires first == Run(map[OUTER := early, INNER := inner], {}, true)
    requires edited == Run(map[OUTER := late, INNER := inner], {}, true)
    requires gone == Run(map[OUTER := late], {}, true)
    ensures INNER in After(env, [first]).manifest && INNER !in After(env, [first, edited]).manifest
    ensures
      var ix := After(env, [first, edited, gone]);
      [115, 47, 120] in ix.partitions && ix.partitions[[115, 47, 120]] != {}
  {
    hide ScopeOf, Sweeps, Indexed;
    NestedPaths();
    var one, two := After(env, [first]), After(env, [first, edited]);
    assert [first][..0] == [] && [first, edited][..1] == [first] && [first, edited, gone][..2] == [first, edited];
    ForgetFirst(env, first.files, early, inner);
    assert After(env, []) == Index(map[], map[]);
    assert one == Indexed(env, After(env, [first][..0]), first.files, {});
    ForgetSecond(env, one, edited.files, early, late, inner);
    assert two == Indexed(env, one, edited.files, {});
    ForgetThird(env, two, gone.files, late);
    assert After(env, [first, edited, gone]) == Indexed(env, two, gone.files, {});
  }

  lemma {:induction false} ForgetFirst(env: Sources, files: Files, early: FileMetadata, inner: FileMetadata)
    requires files == map[OUTER := early, INNER := inner] && env.facts([115, 47, 120], INNER, inner) != {}
    ensures
      var one := Indexed(env, Index(map[], map[]), files, {});
      && one.manifest.Keys == {OUTER, INNER} && one.manifest[OUTER].metadata == early
      && one.manifest[INNER].metadata == inner && [115, 47, 120] in one.partitions
      && one.partitions[[115, 47, 120]] != {}
  {
    hide ScopeOf, Sweeps;
    NestedPaths();
    var affected := Affected(files, map[], {});
    assert ScopeOf(OUTER) in affected && ScopeOf(INNER) in affected;
    var f :| f in env.facts([115, 47, 120], INNER, inner);
    assert f in Built(env, files, [115, 47, 120]);
  }

  lemma {:induction false} ForgetSecond(
      env: Sources, one: Index, files: Files, early: FileMetadata, late: FileMetadata, inner: FileMetadata)
    requires early != late && files == map[OUTER := late, INNER := inner] && one.manifest.Keys == {OUTER, INNER}
    requires one.manifest[OUTER].metadata == early && one.manifest[INNER].metadata == inner
    requires [115, 47, 120] in one.partitions && one.partitions[[115, 47, 120]] != {}
    ensures
      var two := Indexed(env, one, files, {});
      && two.manifest.Keys == {OUTER} && two.manifest[OUTER].metadata == late && [115, 47, 120] in two.partitions
      && two.partitions[[115, 47, 120]] != {}
  {
    hide ScopeOf, Sweeps, Built;
    NestedPaths();
    var affected := Affected(files, one.manifest, {});
    assert Moved(files, one.manifest, OUTER) && !Moved(files, one.manifest, INNER);
    assert affected == {[115]} by {
      assert ScopeOf(OUTER) in affected;
      assert OUTER in one.manifest;
    }
    assert Swept(affected, INNER);
  }

  lemma ForgetThird(env: Sources, two: Index, files: Files, late: FileMetadata)
    requires files == map[OUTER := late] && two.manifest.Keys == {OUTER} && two.manifest[OUTER].metadata == late
    requires [115, 47, 120] in two.partitions && two.partitions[[115, 47, 120]] != {}
    ensures
      var three := Indexed(env, two, files, {});
      [115, 47, 120] in three.partitions && three.partitions[[115, 47, 120]] != {}
  {
    hide ScopeOf, Sweeps, Built;
    assert OUTER in two.manifest;
    assert Affected(files, two.manifest, {}) == {};
  }

  // ----- files directly inside a top-level directory named root

  lemma RootDirectoryPath(path: Path)
    requires InRootDirectory(path)
    ensures
      && |path| > 4 && path[..4] == ROOT && path[4] == SLASH
      && forall i :: 0 <= i < |path| && i != 4 ==> path[i] != SLASH
  {
    var k := LastSlash(path).value;
    assert path[..k] == ROOT && |path[..k]| == k;
  }

  /** Only the directory itself, in another spelling, sweeps such a file. */
  lemma SweepsRootDirectory(scope: Scope, path: Path)
    requires InRootDirectory(path)
    ensures Sweeps(scope, path) <==> scope != ROOT && Lower(scope) == ROOT
  {
    RootDirectoryPath(path);
    hide InRootDirectory;
    if scope != ROOT {
      assert Lower(ROOT) == ROOT;
      if Sweeps(scope, path) {
        var n := |scope|;
        assert Lower(path[..n + 1])[n] == Lower(scope + [SLASH])[n] == SLASH;
        assert n == 4;
        assert Lower(scope) == Lower(scope + [SLASH])[..4] == Lower(path[..5])[..4] == Lower(path[..4]);
      }
      if Lower(scope) == ROOT {
        assert |scope| == |Lower(scope)| == 4;
        assert path[..5] == ROOT + [SLASH];
        assert Lower(ROOT + [SLASH]) == Lower(ROOT) + [SLASH];
        assert Lower(scope + [SLASH]) == Lower(scope) + [SLASH];
      }
    }
  }

  /** An insertion conflicts exactly when the scope `root` is affected, no other affected scope spells it in another
      case, and some listed file is still there directly inside a top-level directory `root`. */
  lemma ConflictsExactly(files: Files, prior: Entries, affected: set<Scope>)
    ensures Conflict(files, prior, affected) <==>
              && ROOT in affected
              && (forall s :: s in affected && s != ROOT ==> Lower(s) != ROOT)
              && exists p :: p in files && p in prior && InRootDirectory(p)
  {
    hide Sweeps, Lower;
    forall p | p in files && p in prior && ScopeOf(p) in affected
      ensures !Swept(affected, p) <==> InRootDirectory(p) && forall s :: s in affected && s != ROOT ==> Lower(s) != ROOT
    {
      if InRootDirectory(p) {
        forall s | s in affected ensures Sweeps(s, p) <==> s != ROOT && Lower(s) == ROOT {
          SweepsRootDirectory(s, p);
        }
      } else {
        AffectedSweptOwn(affected, p);
      }
    }
  }

  /** A file directly inside `root`: once it is listed, editing it makes the next run fail. */
  lemma RootDirectoryFails(env: Sources, early: FileMetadata, late: FileMetadata, inside: Path, first: Run)
    requires early != late && InRootDirectory(inside) && first == Run(map[inside := early], {}, true)
    ensures
      var ix, edited := After(env, [first]), map[inside := late];
      Conflict(edited, ix.manifest, Affected(edited, ix.manifest, {}))
  {
    hide Sweeps, LastSlash;
    var ix, edited: Files := After(env, [first]), map[inside := late];
    assert [first][..0] == [] && After(env, []) == Index(map[], map[]);
    assert ix == Indexed(env, Index(map[], map[]), first.files, {});
    assert inside in first.files && ScopeOf(inside) in Affected(first.files, map[], {});
    assert inside in ix.manifest && ix.manifest[inside].metadata == early;
    var affected := Affected(edited, ix.manifest, {});
    assert Moved(edited, ix.manifest, inside) && ScopeOf(inside) in affected;
    forall s | s in affected ensures s == ROOT {
      assert forall p :: p in ix.manifest ==> p == inside;
    }
    ConflictsExactly(edited, ix.manifest, affected);
  }
}
