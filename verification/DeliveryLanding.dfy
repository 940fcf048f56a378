/** The end of a promotion, where it stages and commits its paths, and what kills there leave in the repository. */
module DeliveryLanding {
  import opened Sequences
  import opened DeliverySteps
  import opened DeliveryReplay
  import opened DeliveryRecovery

  // ----- staging and committing

  lemma SnapshotTwice(tree: Files, disk: Files, paths: seq<Path>)
    ensures Snapshot(Snapshot(tree, disk, paths), disk, paths) == Snapshot(tree, disk, paths)
  {
    forall p
      ensures At(Snapshot(Snapshot(tree, disk, paths), disk, paths), p) == At(Snapshot(tree, disk, paths), p)
    {}
    SameFiles(Snapshot(Snapshot(tree, disk, paths), disk, paths), Snapshot(tree, disk, paths));
  }

  lemma SnapshotAt(tree: Files, disk: Files, paths: seq<Path>, p: Path)
    ensures At(Snapshot(tree, disk, paths), p) == if p in paths then At(disk, p) else At(tree, p)
  {}

  /** Staging again changes nothing, and what is committed does not depend on what was staged. */
  lemma StagedTwice(disk: Files, repo: Repository, paths: seq<Path>)
    ensures Staged(disk, Staged(disk, repo, paths), paths) == Staged(disk, repo, paths)
    ensures Committed(disk, Staged(disk, repo, paths), paths) == Committed(disk, repo, paths)
  {
    SnapshotTwice(repo.index, disk, paths);
  }

  /** What a commit leaves is clean, so committing again makes no second revision. */
  lemma CommittedIsClean(disk: Files, repo: Repository, paths: seq<Path>)
    ensures IsClean(disk, Committed(disk, repo, paths), paths)
  {
    hide Snapshot;
    forall p | p in paths
      ensures At(disk, p) == At(Committed(disk, repo, paths).index, p) == At(Committed(disk, repo, paths).head, p)
    {
      SnapshotAt(repo.index, disk, paths, p);
      SnapshotAt(repo.head, disk, paths, p);
    }
  }

  /** Once staged, a path is in the index exactly when it is in the working tree. */
  lemma StagedKnows(disk: Files, repo: Repository, paths: seq<Path>)
    ensures CanStage(disk, Staged(disk, repo, paths), paths) <==> forall p :: p in paths ==> p in disk
    ensures CanCommit(disk, Staged(disk, repo, paths), paths) <==>
              && (forall p :: p in paths ==> p in disk || p in repo.head)
              && exists p :: p in paths && At(disk, p) != At(repo.head, p)
    ensures IsClean(disk, Staged(disk, repo, paths), paths) <==>
              forall p :: p in paths ==> At(disk, p) == At(repo.head, p)
  {
    hide Snapshot;
    var index := Staged(disk, repo, paths).index;
    forall p | p in paths ensures At(index, p) == At(disk, p) && (p in index <==> p in disk) {
      SnapshotAt(repo.index, disk, paths, p);
      assert p in index <==> At(index, p).Some?;
    }
  }

  // ----- the whole ending

  /** How the last three effects end when nothing kills them. */
  function Land(g: World, paths: seq<Path>, written: seq<Path>): Outcome {
    if paths == [] then Outcome(g, Threw(NothingToCommit))
    else if IsClean(g.disk, g.repo, paths) then Outcome(g.(row := Some(Row(Completed, written))), Running)
    else if !CanStage(g.disk, g.repo, paths) then Outcome(g, Threw(NotStaged))
    else if !CanCommit(g.disk, Staged(g.disk, g.repo, paths), paths) then
      Outcome(g.(repo := Staged(g.disk, g.repo, paths)), Threw(NotCommitted))
    else Outcome(g.(repo := Committed(g.disk, g.repo, paths), row := Some(Row(Completed, written))), Running)
  }

  lemma FirstOfLanding(hash: Hash, g: World, paths: seq<Path>, written: seq<Path>)
    ensures Exec(hash, g, Landing(paths, written)[..0]) == Outcome(g, Running)
    ensures Exec(hash, g, Landing(paths, written)[..1]) == StagePaths(g, paths)
  {
    var landing := Landing(paths, written);
    assert landing[..1][..0] == landing[..0] == [];
  }

  lemma LandingPrefix(hash: Hash, g: World, paths: seq<Path>, written: seq<Path>)
    requires !g.committing
    ensures Exec(hash, g, Landing(paths, written)) == Land(g, paths, written)
    ensures Exec(hash, g, Landing(paths, written)[..2]) ==
              var staged := StagePaths(g, paths);
              if staged.status == Running then CommitPaths(staged.world, paths) else staged
  {
    hide Exec, StagePaths, CommitPaths;
    var landing := Landing(paths, written);
    FirstOfLanding(hash, g, paths, written);
    StepOf(hash, g, landing, 1);
    StepOf(hash, g, landing, 2);
    assert landing[..3] == landing;
    LandsAs(g, paths, written);
  }

  lemma LandsAs(g: World, paths: seq<Path>, written: seq<Path>)
    requires !g.committing
    ensures
      var staged := StagePaths(g, paths);
      var committed := if staged.status == Running then CommitPaths(staged.world, paths) else staged;
      Land(g, paths, written) ==
        if committed.status == Running then
          Outcome(committed.world.(row := Some(Row(Completed, written))), Running)
        else committed
  {
    hide IsClean, CanStage, CanCommit, Snapshot;
    StagedTwice(g.disk, g.repo, paths);
  }

  // ----- how far the repository can come

  /** From `r0`: untouched, staged, or committed. */
  ghost predicate Reached(disk: Files, r0: Repository, r: Repository, paths: seq<Path>) {
    || r == r0
    || (&& paths != [] && !IsClean(disk, r0, paths) && CanStage(disk, r0, paths)
        && (|| r == Staged(disk, r0, paths)
            || (CanCommit(disk, Staged(disk, r0, paths), paths) && r == Committed(disk, r0, paths))))
  }

  lemma ReachedTransitive(disk: Files, r0: Repository, r1: Repository, r2: Repository, paths: seq<Path>)
    requires Reached(disk, r0, r1, paths) && Reached(disk, r1, r2, paths)
    ensures Reached(disk, r0, r2, paths)
  {
    hide IsClean, CanStage, CanCommit, Snapshot;
    StagedTwice(disk, r0, paths);
    CommittedIsClean(disk, r0, paths);
  }

  /** A kill in the ending leaves the files and the repository somewhere on this way, or everything done. */
  lemma LandingKilled(hash: Hash, g: World, paths: seq<Path>, written: seq<Path>, k: nat, torn: Option<nat>)
    requires !g.committing && InFlight(g.row) && k <= 3
    ensures
      var v := Crash(hash, g, Landing(paths, written), k, torn);
      && Reached(g.disk, g.repo, v.repo, paths)
      && if InFlight(v.row) then v == g.(repo := v.repo) else CompletedFrom(g, v, paths, written)
  {
    hide Exec, IsClean, CanStage, CanCommit, Snapshot;
    var landing := Landing(paths, written);
    FirstOfLanding(hash, g, paths, written);
    LandingPrefix(hash, g, paths, written);
    assert landing[..3] == landing;
    StagedTwice(g.disk, g.repo, paths);
    CommittedIsClean(g.disk, g.repo, paths);
    if k < 3 { assert !landing[k].WriteTemporary?; }
  }

  /** The delivery is over: only the repository and the row differ from `g`, and nothing is left to commit. */
  ghost predicate CompletedFrom(g: World, v: World, paths: seq<Path>, written: seq<Path>) {
    && v == g.(repo := v.repo, row := Some(Row(Completed, written)))
    && paths != [] && IsClean(g.disk, v.repo, paths)
  }

  // ----- any history of kills

  ghost predicate KillsFit(script: seq<Effect>, kills: seq<Kill>) {
    forall k :: k in kills ==> k.after <= |script|
  }

  /** `v` is unfinished, and doing the prelude again leads where it led from `w`, in the repository of `v`. */
  ghost predicate OnCourse(hash: Hash, w: World, v: World, files: seq<FileEntry>, payloads: Payloads) {
    var first := Exec(hash, w, Prelude(files, payloads));
    && !v.committing && InFlight(v.row)
    && Exec(hash, v, Prelude(files, payloads)) == Outcome(first.world.(repo := v.repo), first.status)
    && if first.status == Running then Reached(first.world.disk, w.repo, v.repo, PathsOf(files)) else v.repo == w.repo
  }

  ghost predicate IsOver(hash: Hash, w: World, v: World, files: seq<FileEntry>, payloads: Payloads) {
    var first := Exec(hash, w, Prelude(files, payloads));
    && !InFlight(v.row)
    && if first.status != Running then v == first.world
       else
         && Reached(first.world.disk, w.repo, v.repo, PathsOf(files))
         && CompletedFrom(first.world, v, PathsOf(files), Delivered(files, payloads))
  }

  lemma ScriptIsPreludeAndLanding(files: seq<FileEntry>, payloads: Payloads)
    ensures Script(files, payloads) == Prelude(files, payloads) + Landing(PathsOf(files), Delivered(files, payloads))
  {}

  /** A kill within the prelude. */
  lemma KillInPrelude(
    hash: Hash, w: World, v: World, files: seq<FileEntry>, payloads: Payloads, m: nat, torn: Option<nat>)
    requires SeparatePaths(files) && OnCourse(hash, w, v, files, payloads) && m <= |Prelude(files, payloads)|
    ensures
      var u := Crash(hash, v, Prelude(files, payloads), m, torn);
      OnCourse(hash, w, u, files, payloads) || IsOver(hash, w, u, files, payloads)
  {
    hide Exec, Prelude, Crash, SeparatePaths, InFlight, Replayable, Reached;
    PreludeReplayable(files, payloads);
    PreludeShape(files, payloads);
    RepositoryApart(hash, w, w.repo, Prelude(files, payloads));
    KilledOnce(hash, v, Prelude(files, payloads), m, torn);
  }

  lemma CrashInPrelude(hash: Hash, v: World, a: seq<Effect>, b: seq<Effect>, m: nat, torn: Option<nat>)
    requires m <= |a| && (b != [] ==> !b[0].WriteTemporary?)
    ensures Crash(hash, v, a + b, m, torn) == Crash(hash, v, a, m, torn)
  {
    hide Exec;
    assert (a + b)[..m] == a[..m];
    if m < |a| { assert (a + b)[m] == a[m]; }
  }

  lemma CrashBeyond(hash: Hash, v: World, a: seq<Effect>, b: seq<Effect>, k: nat, torn: Option<nat>)
    requires k <= |b|
    ensures Exec(hash, v, a).status == Running ==>
              Crash(hash, v, a + b, |a| + k, torn) == Crash(hash, Exec(hash, v, a).world, b, k, torn)
    ensures Exec(hash, v, a).status != Running ==> Crash(hash, v, a + b, |a| + k, torn) == Crash(hash, v, a, |a|, None)
  {
    hide Exec;
    assert (a + b)[..|a| + k] == a + b[..k] && a[..|a|] == a;
    ExecConcat(hash, v, a, b[..k]);
    if k < |b| { assert (a + b)[|a| + k] == b[k]; }
  }

  lemma PreludeAgain(hash: Hash, v: World, files: seq<FileEntry>, payloads: Payloads)
    requires SeparatePaths(files) && InFlight(v.row) && !v.committing
    requires Exec(hash, v, Prelude(files, payloads)).status == Running
    ensures
      var h := Exec(hash, v, Prelude(files, payloads)).world;
      && h.repo == v.repo && !h.committing && InFlight(h.row)
      && Exec(hash, h, Prelude(files, payloads)) == Outcome(h, Running)
  {
    hide Exec, Prelude, SeparatePaths, InFlight, ReadsSettled, RenamesFollowWrites, RecordsInFlight;
    var prelude := Prelude(files, payloads);
    PreludeReplayable(files, payloads);
    assert prelude[..|prelude|] == prelude;
    KilledOnce(hash, v, prelude, |prelude|, None);
    RepositoryApart(hash, v, v.repo, prelude);
  }

  lemma NextKill(
    hash: Hash, w: World, v: World, files: seq<FileEntry>, payloads: Payloads, m: nat, torn: Option<nat>)
    requires SeparatePaths(files) && OnCourse(hash, w, v, files, payloads) && m <= |Script(files, payloads)|
    ensures
      var u := Crash(hash, v, Script(files, payloads), m, torn);
      OnCourse(hash, w, u, files, payloads) || IsOver(hash, w, u, files, payloads)
  {
    hide Exec, Prelude, Script, Crash, SeparatePaths, InFlight, Reached, CompletedFrom;
    var prelude, landing := Prelude(files, payloads), Landing(PathsOf(files), Delivered(files, payloads));
    ScriptIsPreludeAndLanding(files, payloads);
    if m <= |prelude| {
      CrashInPrelude(hash, v, prelude, landing, m, torn);
      KillInPrelude(hash, w, v, files, payloads, m, torn);
    } else {
      CrashBeyond(hash, v, prelude, landing, m - |prelude|, torn);
      if Exec(hash, v, prelude).status != Running {
        KillInPrelude(hash, w, v, files, payloads, |prelude|, None);
      } else {
        PreludeAgain(hash, v, files, payloads);
        PreludeShape(files, payloads);
        KillInLanding(hash, w, v, files, payloads, m - |prelude|, torn);
      }
    }
  }

  lemma KillInLanding(
    hash: Hash, w: World, v: World, files: seq<FileEntry>, payloads: Payloads, k: nat, torn: Option<nat>)
    requires OnCourse(hash, w, v, files, payloads) && k <= 3
    requires Exec(hash, v, Prelude(files, payloads)).status == Running
    requires var h := Exec(hash, v, Prelude(files, payloads)).world;
             && h.repo == v.repo && !h.committing && InFlight(h.row)
             && Exec(hash, h, Prelude(files, payloads)) == Outcome(h, Running)
    requires NoGit(Prelude(files, payloads))
    ensures
      var h := Exec(hash, v, Prelude(files, payloads)).world;
      var u := Crash(hash, h, Landing(PathsOf(files), Delivered(files, payloads)), k, torn);
      OnCourse(hash, w, u, files, payloads) || IsOver(hash, w, u, files, payloads)
  {
    hide Exec, Prelude, InFlight, Reached, NoGit;
    var paths, written := PathsOf(files), Delivered(files, payloads);
    var g := Exec(hash, w, Prelude(files, payloads)).world;
    var h := Exec(hash, v, Prelude(files, payloads)).world;
    var u := Crash(hash, h, Landing(paths, written), k, torn);
    LandingKilled(hash, h, paths, written, k, torn);
    ReachedTransitive(g.disk, w.repo, v.repo, u.repo, paths);
    RepositoryApart(hash, h, u.repo, Prelude(files, payloads));
  }

  lemma StartsOnCourse(hash: Hash, w: World, files: seq<FileEntry>, payloads: Payloads)
    requires SeparatePaths(files) && InFlight(w.row) && !w.committing
    ensures OnCourse(hash, w, w, files, payloads)
  {
    hide Exec, Prelude, SeparatePaths, InFlight, ReadsSettled, RenamesFollowWrites, RecordsInFlight;
    PreludeReplayable(files, payloads);
    RepositoryApart(hash, w, w.repo, Prelude(files, payloads));
  }

  /** After any number of kills a delivery is over, or a further run does what the first would have done, in a
      repository that is untouched, staged or committed. */
  lemma {:induction false} KilledOnCourse(
    hash: Hash, w: World, files: seq<FileEntry>, payloads: Payloads, kills: seq<Kill>)
    requires SeparatePaths(files) && KillsFit(Script(files, payloads), kills) && InFlight(w.row) && !w.committing
    ensures
      var v := Killed(hash, w, Script(files, payloads), kills);
      OnCourse(hash, w, v, files, payloads) || IsOver(hash, w, v, files, payloads)
  {
    hide Exec, Script, Crash, SeparatePaths, OnCourse, IsOver;
    if kills == [] {
      StartsOnCourse(hash, w, files, payloads);
    } else {
      var n := |kills| - 1;
      KilledOnCourse(hash, w, files, payloads, kills[..n]);
      var before := Killed(hash, w, Script(files, payloads), kills[..n]);
      if InFlight(before.row) {
        NotBoth(hash, w, before, files, payloads);
        NextKill(hash, w, before, files, payloads, kills[n].after, kills[n].torn);
      }
    }
  }

  lemma NotBoth(hash: Hash, w: World, v: World, files: seq<FileEntry>, payloads: Payloads)
    requires OnCourse(hash, w, v, files, payloads) || IsOver(hash, w, v, files, payloads)
    ensures InFlight(v.row) <==> OnCourse(hash, w, v, files, payloads)
    ensures !InFlight(v.row) <==> IsOver(hash, w, v, files, payloads)
  {
    hide Exec;
  }

  /** A run from `v` ends as `Land` says, after the prelude of `w`, in the repository of `v`. */
  lemma CourseEnds(hash: Hash, w: World, v: World, files: seq<FileEntry>, payloads: Payloads)
    requires SeparatePaths(files) && OnCourse(hash, w, v, files, payloads)
    ensures
      var first := Exec(hash, w, Prelude(files, payloads));
      Exec(hash, v, Script(files, payloads)) ==
        if first.status == Running then
          Land(first.world.(repo := v.repo), PathsOf(files), Delivered(files, payloads))
        else Outcome(first.world.(repo := v.repo), first.status)
  {
    hide Exec, Prelude, Script, SeparatePaths, InFlight, Reached, Land;
    var prelude, landing := Prelude(files, payloads), Landing(PathsOf(files), Delivered(files, payloads));
    ScriptIsPreludeAndLanding(files, payloads);
    ExecConcat(hash, v, prelude, landing);
    if Exec(hash, v, prelude).status == Running {
      PreludeAgain(hash, v, files, payloads);
      LandingPrefix(hash, Exec(hash, v, prelude).world, PathsOf(files), Delivered(files, payloads));
    }
  }

  /** The recovery theorem: whatever kills came before, an unfinished delivery that runs again ends exactly as an
      uninterrupted run that finds the repository as it is now. */
  lemma RecoveryResumes(hash: Hash, w: World, files: seq<FileEntry>, payloads: Payloads, kills: seq<Kill>)
    requires SeparatePaths(files) && KillsFit(Script(files, payloads), kills) && InFlight(w.row) && !w.committing
    requires InFlight(Killed(hash, w, Script(files, payloads), kills).row)
    ensures
      var v := Killed(hash, w, Script(files, payloads), kills);
      Exec(hash, v, Script(files, payloads)) == Exec(hash, w.(repo := v.repo), Script(files, payloads))
  {
    hide Exec, Script, Prelude, Killed, SeparatePaths, InFlight, Reached, Land;
    var v := Killed(hash, w, Script(files, payloads), kills);
    KilledOnCourse(hash, w, files, payloads, kills);
    NotBoth(hash, w, v, files, payloads);
    CourseEnds(hash, w, v, files, payloads);
    var x := w.(repo := v.repo);
    StartsOnCourse(hash, x, files, payloads);
    CourseEnds(hash, x, x, files, payloads);
    PreludeShape(files, payloads);
    RepositoryApart(hash, w, v.repo, Prelude(files, payloads));
  }

  // ----- when the second run ends as the first

  /** Of a landing that succeeds, killed on its way: the next one succeeds exactly when every path is still known to
      the working tree or the index, or nothing is left to commit; and then it ends alike. */
  lemma LandingResumes(g: World, repo: Repository, paths: seq<Path>, written: seq<Path>)
    requires Land(g, paths, written).status == Running && Reached(g.disk, g.repo, repo, paths)
    ensures
      var again := Land(g.(repo := repo), paths, written);
      && (again.status == Running <==> CanStage(g.disk, repo, paths) || IsClean(g.disk, repo, paths))
      && (again.status == Running ==> again == Land(g, paths, written))
      && (again.status != Running ==> again == Outcome(g.(repo := repo), Threw(NotStaged)))
  {
    hide Snapshot;
    StagedTwice(g.disk, g.repo, paths);
    StagedKnows(g.disk, g.repo, paths);
    CommittedIsClean(g.disk, g.repo, paths);
  }

  /** Every further recovery fails in the same way and changes nothing. */
  ghost predicate IsStuck(hash: Hash, u: World, script: seq<Effect>) {
    InFlight(u.row) && Exec(hash, u, script) == Outcome(u, Threw(NotStaged))
  }

  lemma CourseResumes(hash: Hash, w: World, v: World, files: seq<FileEntry>, payloads: Payloads)
    requires SeparatePaths(files) && InFlight(w.row) && !w.committing
    requires OnCourse(hash, w, v, files, payloads) && Exec(hash, w, Script(files, payloads)).status == Running
    ensures Exec(hash, w, Prelude(files, payloads)).status == Running
    ensures
      var again, disk := Exec(hash, v, Script(files, payloads)), Exec(hash, w, Prelude(files, payloads)).world.disk;
      && (again.status == Running <==> CanStage(disk, v.repo, PathsOf(files)) || IsClean(disk, v.repo, PathsOf(files)))
      && (again.status == Running ==> again == Exec(hash, w, Script(files, payloads)))
      && (again.status != Running ==> IsStuck(hash, again.world, Script(files, payloads)) && again.world.repo == v.repo)
  {
    hide Exec, Script, Prelude, SeparatePaths, Land, Reached, CanStage, IsClean;
    var first := Exec(hash, w, Prelude(files, payloads));
    StartsOnCourse(hash, w, files, payloads);
    CourseEnds(hash, w, w, files, payloads);
    CourseEnds(hash, w, v, files, payloads);
    PreludeShape(files, payloads);
    RepositoryApart(hash, w, w.repo, Prelude(files, payloads));
    if first.status == Running {
      LandingResumes(first.world, v.repo, PathsOf(files), Delivered(files, payloads));
      var again := Exec(hash, v, Script(files, payloads));
      if again.status != Running {
        PreludeAgain(hash, v, files, payloads);
        CourseEnds(hash, w, again.world, files, payloads);
      }
    }
  }
}
