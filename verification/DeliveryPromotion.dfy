/** A whole promotion: the comparison with what was approved, and what a completed one leaves. */
module DeliveryPromotion {
  import opened Sequences
  import opened Bytes
  import opened DeliverySteps
  import opened DeliveryReplay
  import opened DeliveryRecovery
  import opened DeliveryLanding
  import opened DeliveryGuarantees

  // ----- the comparison before the first write

  ghost predicate Differs(w: World, path: Path) {
    !(At(w.disk, path) == At(w.repo.index, path) == At(w.repo.head, path))
  }

  /** `git status` reports a renamed file in one record, and the parser drops its origin: of the paths that differ,
      the origins of renames are not listed unless they are on disk again. */
  ghost predicate IsListed(w: World, origins: set<Path>, path: Path) {
    Differs(w, path) && !(path in origins && path !in w.disk)
  }

  ghost predicate ApprovedChange(hash: Hash, disk: Files, files: seq<FileEntry>, path: Path) {
    exists i :: 0 <= i < |files| && files[i].path == path && DigestAt(hash, disk, path) == files[i].digest
  }

  /** `assertUnchanged`: the base revision is current, and every listed change is an approved file with its
      approved digest. */
  ghost predicate Unchanged(hash: Hash, w: World, base: nat, files: seq<FileEntry>, origins: set<Path>) {
    && w.repo.revision == base
    && forall p :: IsListed(w, origins, p) ==> ApprovedChange(hash, w.disk, files, p)
  }

  /** The world once the intent is recorded: from here on recovery finishes what a crash interrupts. */
  function Promised(w: World): World {
    w.(row := Some(Row(Prepared, [])))
  }

  // ----- temporary files

  predicate IsWritten(file: FileEntry, payloads: Payloads) {
    !file.deleted && file.path in payloads
  }

  ghost predicate WrittenTemporary(files: seq<FileEntry>, payloads: Payloads, k: nat, path: Path)
    requires k <= |files|
  {
    exists i :: 0 <= i < k && IsWritten(files[i], payloads) && Temporary(files[i].path) == path
  }

  lemma TouchOneElsewhere(
    before: seq<Effect>, file: FileEntry, payloads: Payloads, written: seq<Path>, path: Path)
    requires file.path != path
    ensures Touch(before + FileEffects(file, payloads, written), path) ==
              if IsWritten(file, payloads) && Temporary(file.path) == path then Some(None) else Touch(before, path)
  {
    hide Touch, Temporary;
    if IsWritten(file, payloads) && Temporary(file.path) == path {
      var two := before + [WriteTemporary(file.path, payloads[file.path])] + [Rename(file.path)];
      TouchByRename(before, file.path, payloads[file.path]);
      TouchLast(two, Journal(Prepared, written), path);
      assert before + FileEffects(file, payloads, written) == two + [Journal(Prepared, written)];
    } else {
      TouchUnmentioned(before, FileEffects(file, payloads, written), path);
    }
  }

  /** Outside the manifest the writes touch exactly the temporary files they use, and leave them absent. */
  lemma {:induction false} TouchElsewhere(files: seq<FileEntry>, payloads: Payloads, k: nat, path: Path)
    requires k <= |files| && !InManifest(files, path)
    ensures Touch(WriteEffects(files[..k], payloads), path) ==
              if WrittenTemporary(files, payloads, k, path) then Some(None) else None
  {
    hide Delivered, Touch, FileEffects, Temporary, IsWritten;
    if k > 0 {
      TouchElsewhere(files, payloads, k - 1, path);
      WriteEffectsNext(files, payloads, k - 1);
      assert files[k - 1].path != path;
      TouchOneElsewhere(
        WriteEffects(files[..k - 1], payloads), files[k - 1], payloads, Delivered(files[..k], payloads), path);
    } else {
      assert WriteEffects(files[..0], payloads) == [];
      TouchNothing(path);
    }
  }

  lemma DiskElsewhere(hash: Hash, w: World, files: seq<FileEntry>, payloads: Payloads, path: Path)
    requires !InManifest(files, path) && Exec(hash, w, Script(files, payloads)).status == Running
    ensures At(Exec(hash, w, Script(files, payloads)).world.disk, path) ==
              if WrittenTemporary(files, payloads, |files|, path) then None else At(w.disk, path)
  {
    hide Delivered, WriteEffects, Script, Exec, Touch, WrittenTemporary, InManifest;
    var script := Script(files, payloads);
    ScriptRenames(files, payloads);
    DiskAfter(hash, w, script, path);
    assert script[..|script|] == script && files[..|files|] == files;
    ScriptParts(files, payloads);
    TailTouchesNothing(files, payloads, |script|, path);
    TouchElsewhere(files, payloads, |files|, path);
  }

  // ----- what a completed promotion leaves

  lemma HeadAfter(hash: Hash, w: World, files: seq<FileEntry>, payloads: Payloads, path: Path)
    requires SeparatePaths(files) && InFlight(w.row) && !w.committing
    requires Exec(hash, w, Script(files, payloads)).status == Running
    ensures
      var v := Exec(hash, w, Script(files, payloads)).world;
      At(v.repo.head, path) == if InManifest(files, path) then At(v.disk, path) else At(w.repo.head, path)
  {
    hide Delivered, Script, Prelude, Exec, SeparatePaths, CanStage, CanCommit, Snapshot;
    var paths := PathsOf(files);
    StartsOnCourse(hash, w, files, payloads);
    CourseEnds(hash, w, w, files, payloads);
    PreludeShape(files, payloads);
    RepositoryApart(hash, w, w.repo, Prelude(files, payloads));
    var g := Exec(hash, w, Prelude(files, payloads)).world;
    CommittedIsClean(g.disk, w.repo, paths);
    SnapshotAt(w.repo.head, g.disk, paths, path);
    PathsListed(files);
    assert InManifest(files, path) <==> path in paths;
  }

  /** An origin of a rename that the manifest does not name, although the commit still holds it. */
  ghost predicate LeftInHead(w: World, files: seq<FileEntry>, origins: set<Path>, path: Path) {
    path in origins && path !in w.disk && path in w.repo.head && !InManifest(files, path)
  }

  lemma NoDestinationIsTemporary(files: seq<FileEntry>, payloads: Payloads, path: Path)
    requires SeparatePaths(files) && InManifest(files, path)
    ensures !WrittenTemporary(files, payloads, |files|, path)
  {}

  lemma SameAfter(
    hash: Hash, w: World, base: nat, files: seq<FileEntry>, payloads: Payloads, origins: set<Path>, path: Path)
    requires SeparatePaths(files) && InFlight(w.row) && !w.committing && Unchanged(hash, w, base, files, origins)
    requires Exec(hash, w, Script(files, payloads)).status == Running
    ensures
      var v := Exec(hash, w, Script(files, payloads)).world;
      At(v.disk, path) != At(v.repo.head, path) <==>
        || LeftInHead(w, files, origins, path)
        || (WrittenTemporary(files, payloads, |files|, path) && path in w.repo.head)
  {
    hide Script, Exec, Delivered, InFlight;
    HeadAfter(hash, w, files, payloads, path);
    if InManifest(files, path) {
      NoDestinationIsTemporary(files, payloads, path);
    } else {
      DiskElsewhere(hash, w, files, payloads, path);
      assert !ApprovedChange(hash, w.disk, files, path);
      assert !IsListed(w, origins, path);
    }
  }

  /** After a promotion that passed the comparison and completed, the commit differs from its parent in manifest paths
      only, and equals the working tree exactly when no origin of a rename was left out of the manifest and no
      temporary file has the name of a tracked one. */
  lemma PromotedTreeIsClean(
    hash: Hash, w: World, base: nat, files: seq<FileEntry>, payloads: Payloads, origins: set<Path>)
    requires SeparatePaths(files) && InFlight(w.row) && !w.committing && Unchanged(hash, w, base, files, origins)
    requires Exec(hash, w, Script(files, payloads)).status == Running
    ensures
      var v := Exec(hash, w, Script(files, payloads)).world;
      && (v.disk == v.repo.head <==>
            && (forall p :: !LeftInHead(w, files, origins, p))
            && (forall p :: WrittenTemporary(files, payloads, |files|, p) ==> p !in w.repo.head))
      && (forall p :: !InManifest(files, p) ==> At(v.repo.head, p) == At(w.repo.head, p))
  {
    hide Script, Exec, Delivered, SeparatePaths, InFlight, Unchanged, LeftInHead, WrittenTemporary, At, InManifest;
    var v := Exec(hash, w, Script(files, payloads)).world;
    forall p
      ensures At(v.disk, p) != At(v.repo.head, p) <==>
                LeftInHead(w, files, origins, p) || (WrittenTemporary(files, payloads, |files|, p) && p in w.repo.head)
      ensures !InManifest(files, p) ==> At(v.repo.head, p) == At(w.repo.head, p)
    {
      SameAfter(hash, w, base, files, payloads, origins, p);
      HeadAfter(hash, w, files, payloads, p);
    }
    if forall p :: At(v.disk, p) == At(v.repo.head, p) { SameFiles(v.disk, v.repo.head); }
  }

  /** From the recorded intent on, whatever kills and recoveries: a deliverable candidate that removes nothing ends
      completed, with at most one new revision, and with a working tree equal to the commit unless a rename's origin
      was left out or a temporary file has a tracked name. */
  lemma PromotionSurvivesCrashes(
    hash: Hash, w: World, base: nat, files: seq<FileEntry>, payloads: Payloads, origins: set<Path>, kills: seq<Kill>)
    requires SeparatePaths(files) && KillsFit(Script(files, payloads), kills) && !w.committing
    requires Unchanged(hash, w, base, files, origins) && Deliverable(hash, w, files, payloads)
    requires NothingAbsent(w.disk, files, payloads) || IsLanded(w.repo, w.disk, files, payloads)
    ensures
      var script := Script(files, payloads);
      var v := Recover(hash, Killed(hash, Promised(w), script, kills), script);
      && IsCompleted(v) && v.repo.revision <= base + 1
      && (v.disk == v.repo.head <==>
            && (forall p :: !LeftInHead(w, files, origins, p))
            && (forall p :: WrittenTemporary(files, payloads, |files|, p) ==> p !in w.repo.head))
  {
    hide Exec, Script, Killed, SeparatePaths, Deliverable, IsLanded, Recover, LeftInHead, WrittenTemporary, ResultOf;
    var start := Promised(w);
    assert InFlight(start.row) && start.disk == w.disk && start.repo == w.repo && !start.committing;
    PromisedAlike(hash, w, base, files, payloads, origins);
    RecoversWithoutDeletions(hash, start, files, payloads, kills);
    CompletesExactly(hash, start, files, payloads);
    RunIsOver(hash, start, files, payloads);
    PromotedTreeIsClean(hash, start, base, files, payloads, origins);
    OneCommitAtMost(hash, start, files, payloads, kills);
  }

  lemma PromisedAlike(
    hash: Hash, w: World, base: nat, files: seq<FileEntry>, payloads: Payloads, origins: set<Path>)
    ensures Unchanged(hash, Promised(w), base, files, origins) <==> Unchanged(hash, w, base, files, origins)
    ensures Deliverable(hash, Promised(w), files, payloads) <==> Deliverable(hash, w, files, payloads)
    ensures forall p :: LeftInHead(Promised(w), files, origins, p) <==> LeftInHead(w, files, origins, p)
  {
    hide AllMatch, IsLanded, IsStageable, IsCommittable;
    assert forall p :: IsListed(Promised(w), origins, p) <==> IsListed(w, origins, p);
  }

  // ----- witnesses

  const OLD_NAME: Path := "a"
  const NEW_NAME: Path := "b"

  /** `git mv a b`: status names only `b`, the comparison passes, and the completed delivery leaves `a` in the
      commit although it is gone from the working tree. */
  lemma RenameLeavesItsOrigin(hash: Hash, content: Content)
    ensures
      var repo := Repository(map[NEW_NAME := content], map[OLD_NAME := content], 0);
      var w := World(map[NEW_NAME := content], repo, Some(Row(Prepared, [])), false);
      var files, payloads := [FileEntry(NEW_NAME, false, Some(hash(content)))], map[NEW_NAME := content];
      && SeparatePaths(files) && Unchanged(hash, w, 0, files, {OLD_NAME}) && Deliverable(hash, w, files, payloads)
      && var v := Exec(hash, w, Script(files, payloads)).world;
         IsCompleted(v) && OLD_NAME in v.repo.head && OLD_NAME !in v.disk
  {
    var repo := Repository(map[NEW_NAME := content], map[OLD_NAME := content], 0);
    var w := World(map[NEW_NAME := content], repo, Some(Row(Prepared, [])), false);
    var files, payloads := [FileEntry(NEW_NAME, false, Some(hash(content)))], map[NEW_NAME := content];
    hide Exec, Script, Delivered;
    assert Temporary(NEW_NAME) != NEW_NAME by { TemporaryDiffers(NEW_NAME); }
    assert Temporary(NEW_NAME) != OLD_NAME by { assert |Temporary(NEW_NAME)| > 1; }
    assert files[0].path == NEW_NAME;
    assert ApprovedChange(hash, w.disk, files, NEW_NAME);
    assert ResultOf(files[0], payloads, w.disk) == Some(content) != At(repo.head, NEW_NAME);
    assert Deliverable(hash, w, files, payloads);
    CompletesExactly(hash, w, files, payloads);
    RunIsOver(hash, w, files, payloads);
    HeadAfter(hash, w, files, payloads, OLD_NAME);
    DiskElsewhere(hash, w, files, payloads, OLD_NAME);
    var v := Exec(hash, w, Script(files, payloads)).world;
    assert At(v.repo.head, OLD_NAME) == Some(content) && At(v.disk, OLD_NAME) == None;
  }

  /** Deleting a committed file: the delivery completes when it is left alone, but killed between `git add` and
      `git commit` it can never be finished, and the commit keeps the file. */
  lemma DeletionNeverRecovers(hash: Hash, content: Content)
    ensures
      var repo := Repository(map[OLD_NAME := content], map[OLD_NAME := content], 0);
      var w := World(map[], repo, Some(Row(Prepared, [])), false);
      var script := Script([FileEntry(OLD_NAME, true, None)], map[]);
      && IsCompleted(Exec(hash, w, script).world) && OLD_NAME !in Exec(hash, w, script).world.repo.head
      && exists kills ::
           && KillsFit(script, kills)
           && var u := Recover(hash, Killed(hash, w, script, kills), script);
              IsStuck(hash, u, script) && OLD_NAME in u.repo.head
  {
    var repo := Repository(map[OLD_NAME := content], map[OLD_NAME := content], 0);
    var w := World(map[], repo, Some(Row(Prepared, [])), false);
    var files, payloads: Payloads := [FileEntry(OLD_NAME, true, None)], map[];
    hide Exec, Script, Prelude, Killed, Recover, IsStuck;
    TemporaryDiffers(OLD_NAME);
    assert files[0].path == OLD_NAME && ResultOf(files[0], payloads, w.disk) == None;
    assert At(repo.head, OLD_NAME) == Some(content);
    assert IsCommittable(repo, w.disk, files, payloads);
    assert Deliverable(hash, w, files, payloads) && !IsLanded(repo, w.disk, files, payloads);
    CompletesExactly(hash, w, files, payloads);
    RunIsOver(hash, w, files, payloads);
    HeadAfter(hash, w, files, payloads, OLD_NAME);
    DeletedAfter(hash, w, files, payloads, 0);
    StagedDeletionIsStuck(hash, w, files, payloads, 0);
    var kills := [Kill(|Prelude(files, payloads)| + 1, None)];
    assert KillsFit(Script(files, payloads), kills);
  }

  lemma DeletedAfter(hash: Hash, w: World, files: seq<FileEntry>, payloads: Payloads, i: nat)
    requires SeparatePaths(files) && InFlight(w.row) && !w.committing && i < |files|
    requires Exec(hash, w, Script(files, payloads)).status == Running
    ensures At(Exec(hash, w, Script(files, payloads)).world.disk, files[i].path) == ResultOf(files[i], payloads, w.disk)
  {
    hide Exec, Script, Prelude, SeparatePaths, ResultOf, IsClean, CanStage, CanCommit, Snapshot, Reached;
    StartsOnCourse(hash, w, files, payloads);
    CourseEnds(hash, w, w, files, payloads);
    GuardsAfterPrelude(hash, w, w.repo, files, payloads);
  }
}
