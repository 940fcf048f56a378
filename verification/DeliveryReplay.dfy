/** Running effects again after they were killed: why the second run ends where the first would have. This is about
    everything a delivery does before it touches the repository. */
module DeliveryReplay {
  import opened Sequences
  import opened Bytes
  import opened DeliverySteps

  /** Whatever the script does to `path`, it has done before the effect at `i`. */
  ghost predicate Settled(effects: seq<Effect>, i: nat, path: Path)
    requires i <= |effects|
  {
    Touch(effects[..i], path).Some? || Touch(effects, path).None?
  }

  ghost predicate ReadsSettled(effects: seq<Effect>, i: nat)
    requires i < |effects|
  {
    match effects[i]
    case Confirm(path, _) => Settled(effects, i, path)
    case Verify(entry, _) => Settled(effects, i, entry.path)
    case _ => true
  }

  ghost predicate RecordsInFlight(effects: seq<Effect>) {
    forall i ::
      0 <= i < |effects| && effects[i].Journal? ==> effects[i].state == Prepared || effects[i].state == Written
  }

  ghost predicate Replayable(effects: seq<Effect>) {
    && RenamesFollowWrites(effects)
    && (forall i: nat :: i < |effects| ==> ReadsSettled(effects, i))
    && NoGit(effects)
    && RecordsInFlight(effects)
  }

  /** `v` is what a killed run from `w` left: its files differ only where the first `n` effects write, and
      its row is that after `m` effects. */
  ghost predicate LeftBehind(hash: Hash, w: World, v: World, effects: seq<Effect>, m: nat, n: nat)
    requires m <= n <= |effects|
  {
    && v.row == Exec(hash, w, effects[..m]).world.row
    && v.repo == w.repo && v.committing == w.committing
    && forall p :: Touch(effects[..n], p).None? ==> At(v.disk, p) == At(w.disk, p)
  }

  lemma RunsSoFar(hash: Hash, w: World, effects: seq<Effect>, i: nat)
    requires i <= |effects| && Exec(hash, w, effects).status == Running
    ensures Exec(hash, w, effects[..i]).status == Running
  {
    ThrewStays(hash, w, effects, i);
  }

  lemma StepOf(hash: Hash, w: World, effects: seq<Effect>, i: nat)
    requires i < |effects|
    ensures Exec(hash, w, effects[..i]).status == Running ==>
              Exec(hash, w, effects[..i + 1]) == Step(hash, Exec(hash, w, effects[..i]).world, effects[i])
    ensures
      Exec(hash, w, effects[..i]).status != Running ==> Exec(hash, w, effects[..i + 1]) == Exec(hash, w, effects[..i])
  {
    var longer := effects[..i + 1];
    assert longer[..i] == effects[..i] && longer[i] == effects[i];
  }

  /** A settled file reads the same in both runs. */
  lemma ReadsAgree(hash: Hash, w: World, v: World, effects: seq<Effect>, m: nat, n: nat, i: nat, path: Path)
    requires RenamesFollowWrites(effects) && m <= n <= |effects| && i <= n
    requires LeftBehind(hash, w, v, effects, m, n) && Settled(effects, i, path)
    requires Exec(hash, w, effects[..i]).status == Running && Exec(hash, v, effects[..i]).status == Running
    ensures At(Exec(hash, v, effects[..i]).world.disk, path) == At(Exec(hash, w, effects[..i]).world.disk, path)
  {
    hide Exec, Touch;
    PrefixRenames(effects, i);
    DiskAfter(hash, w, effects[..i], path);
    DiskAfter(hash, v, effects[..i], path);
    if Touch(effects[..i], path).None? && Touch(effects[..n], path).Some? { TouchGrows(effects, n, path); }
  }

  lemma SameDigest(hash: Hash, a: Files, b: Files, path: Path)
    requires At(a, path) == At(b, path)
    ensures DigestAt(hash, a, path) == DigestAt(hash, b, path)
  {}

  /** The second run gets as far as the first did. */
  lemma {:induction false} ReplayRuns(hash: Hash, w: World, v: World, effects: seq<Effect>, m: nat, n: nat, i: nat)
    requires Replayable(effects) && m <= n <= |effects| && i <= n
    requires LeftBehind(hash, w, v, effects, m, n) && Exec(hash, w, effects[..n]).status == Running
    ensures Exec(hash, v, effects[..i]).status == Running && Exec(hash, w, effects[..i]).status == Running
  {
    hide Exec, Touch, LeftBehind, Settled, RenamesFollowWrites, RecordsInFlight;
    assert effects[..n][..i] == effects[..i];
    RunsSoFar(hash, w, effects[..n], i);
    if i > 0 {
      ReplayRuns(hash, w, v, effects, m, n, i - 1);
      StepOf(hash, w, effects, i - 1);
      StepOf(hash, v, effects, i - 1);
      var e := effects[i - 1];
      assert ReadsSettled(effects, i - 1);
      match e
      case Confirm(path, _) =>
        ReadsAgree(hash, w, v, effects, m, n, i - 1, path);
        SameDigest(hash, Exec(hash, v, effects[..i - 1]).world.disk, Exec(hash, w, effects[..i - 1]).world.disk, path);
      case Verify(entry, _) =>
        ReadsAgree(hash, w, v, effects, m, n, i - 1, entry.path);
        SameDigest(
          hash, Exec(hash, v, effects[..i - 1]).world.disk, Exec(hash, w, effects[..i - 1]).world.disk, entry.path);
      case _ =>
    } else {
      NothingRun(hash, v, effects);
    }
  }

  lemma NothingRun(hash: Hash, w: World, effects: seq<Effect>)
    ensures Exec(hash, w, effects[..0]) == Outcome(w, Running)
  {}

  lemma ReplayDisk(hash: Hash, w: World, v: World, effects: seq<Effect>, m: nat, n: nat)
    requires RenamesFollowWrites(effects) && m <= n <= |effects| && LeftBehind(hash, w, v, effects, m, n)
    requires Exec(hash, w, effects[..n]).status == Running && Exec(hash, v, effects[..n]).status == Running
    ensures Exec(hash, v, effects[..n]).world.disk == Exec(hash, w, effects[..n]).world.disk
  {
    hide Exec, Touch;
    PrefixRenames(effects, n);
    forall p ensures At(Exec(hash, v, effects[..n]).world.disk, p) == At(Exec(hash, w, effects[..n]).world.disk, p) {
      DiskAfter(hash, w, effects[..n], p);
      DiskAfter(hash, v, effects[..n], p);
    }
    SameFiles(Exec(hash, v, effects[..n]).world.disk, Exec(hash, w, effects[..n]).world.disk);
  }

  lemma ReplayRow(hash: Hash, w: World, v: World, effects: seq<Effect>, m: nat, n: nat)
    requires m <= n <= |effects| && LeftBehind(hash, w, v, effects, m, n)
    requires Exec(hash, w, effects[..n]).status == Running && Exec(hash, v, effects[..n]).status == Running
    ensures Exec(hash, v, effects[..n]).world.row == Exec(hash, w, effects[..n]).world.row
  {
    hide Exec, Touch, LastRow;
    RowAfter(hash, w, effects[..n]);
    RowAfter(hash, v, effects[..n]);
    assert effects[..n][..m] == effects[..m];
    RunsSoFar(hash, w, effects[..n], m);
    RowAfter(hash, w, effects[..m]);
    LastRowAgain(effects[..n], m, w.row);
  }

  lemma ReplayRepository(hash: Hash, w: World, v: World, effects: seq<Effect>, m: nat, n: nat)
    requires NoGit(effects) && m <= n <= |effects| && LeftBehind(hash, w, v, effects, m, n)
    ensures Exec(hash, v, effects[..n]).world.repo == Exec(hash, w, effects[..n]).world.repo
    ensures Exec(hash, v, effects[..n]).world.committing == Exec(hash, w, effects[..n]).world.committing
  {
    hide Exec, Touch;
    assert NoGit(effects[..n]);
    RepositoryApart(hash, w, w.repo, effects[..n]);
    RepositoryApart(hash, v, v.repo, effects[..n]);
  }

  lemma Replay(hash: Hash, w: World, v: World, effects: seq<Effect>, m: nat, n: nat)
    requires Replayable(effects) && m <= n <= |effects| && LeftBehind(hash, w, v, effects, m, n)
    requires Exec(hash, w, effects[..n]).status == Running
    ensures Exec(hash, v, effects) == Exec(hash, w, effects)
  {
    hide Exec, LeftBehind, ReadsSettled, RenamesFollowWrites, NoGit, RecordsInFlight;
    ReplayRuns(hash, w, v, effects, m, n, n);
    ReplayDisk(hash, w, v, effects, m, n);
    ReplayRow(hash, w, v, effects, m, n);
    ReplayRepository(hash, w, v, effects, m, n);
    ExecFrom(hash, v, w, effects, n);
  }

  // ----- a kill anywhere

  lemma StoppedLeftBehind(hash: Hash, w: World, effects: seq<Effect>, m: nat)
    requires m <= |effects| && RenamesFollowWrites(effects) && NoGit(effects)
    requires Exec(hash, w, effects[..m]).status == Running
    ensures LeftBehind(hash, w, Exec(hash, w, effects[..m]).world, effects, m, m)
  {
    hide Exec, Touch;
    PrefixRenames(effects, m);
    assert NoGit(effects[..m]);
    RepositoryApart(hash, w, w.repo, effects[..m]);
    forall p | Touch(effects[..m], p).None? ensures At(Exec(hash, w, effects[..m]).world.disk, p) == At(w.disk, p) {
      DiskAfter(hash, w, effects[..m], p);
    }
  }

  lemma TornLeftBehind(hash: Hash, w: World, effects: seq<Effect>, m: nat, length: nat)
    requires m < |effects| && RenamesFollowWrites(effects) && NoGit(effects)
    requires Exec(hash, w, effects[..m]).status == Running && effects[m].WriteTemporary?
    ensures LeftBehind(hash, w, Torn(Exec(hash, w, effects[..m]).world, effects[m], length), effects, m, m + 1)
    ensures Exec(hash, w, effects[..m + 1]).status == Running
  {
    hide Exec;
    PrefixRenames(effects, m);
    StepOf(hash, w, effects, m);
    assert NoGit(effects[..m]);
    RepositoryApart(hash, w, w.repo, effects[..m]);
    var reached := Exec(hash, w, effects[..m]).world;
    var v := Torn(reached, effects[m], length);
    forall p | Touch(effects[..m + 1], p).None? ensures At(v.disk, p) == At(w.disk, p) {
      TouchOfNext(effects, m, p);
      DiskAfter(hash, w, effects[..m], p);
    }
  }

  lemma TouchOfNext(effects: seq<Effect>, m: nat, path: Path)
    requires m < |effects| && effects[m].WriteTemporary? && Touch(effects[..m + 1], path).None?
    ensures Touch(effects[..m], path).None? && path != Temporary(effects[m].path)
  {
    assert effects[..m + 1][..m] == effects[..m];
  }

  lemma {:induction false} RowInFlight(effects: seq<Effect>, m: nat, before: Option<Row>)
    requires m <= |effects| && RecordsInFlight(effects) && InFlight(before)
    ensures InFlight(LastRow(effects[..m], before))
  {
    if m > 0 {
      assert effects[..m][..m - 1] == effects[..m - 1];
      RowInFlight(effects, m - 1, before);
    }
  }

  /** A step that throws leaves the world as it is, or records that the delivery was aborted. */
  lemma ThrowingStep(hash: Hash, w: World, e: Effect)
    requires Step(hash, w, e).status != Running && !e.CommitOnly?
    ensures Step(hash, w, e).world == w || !InFlight(Step(hash, w, e).world.row)
  {}

  lemma StoppedRun(hash: Hash, w: World, effects: seq<Effect>)
    requires Replayable(effects) && Exec(hash, w, effects).status != Running
    ensures
      var v := Exec(hash, w, effects).world;
      InFlight(v.row) ==> Exec(hash, v, effects) == Exec(hash, w, effects)
  {
    hide Exec, LeftBehind, ReadsSettled, RecordsInFlight;
    StopAtIsFirst(hash, w, effects);
    var k := StopAt(hash, w, effects);
    StepOf(hash, w, effects, k);
    ThrewStays(hash, w, effects, k + 1);
    ThrowingStep(hash, Exec(hash, w, effects[..k]).world, effects[k]);
    StoppedLeftBehind(hash, w, effects, k);
    if InFlight(Exec(hash, w, effects).world.row) {
      Replay(hash, w, Exec(hash, w, effects[..k]).world, effects, k, k);
    }
  }

  /** A run ended here, by a kill or by throwing: either the delivery is over, or doing the same effects again ends
      as doing them once. */
  lemma KilledOnce(hash: Hash, w: World, effects: seq<Effect>, m: nat, torn: Option<nat>)
    requires Replayable(effects) && m <= |effects| && InFlight(w.row) && !w.committing
    ensures
      var v := Crash(hash, w, effects, m, torn);
      && v.repo == w.repo && !v.committing
      && if InFlight(v.row) then Exec(hash, v, effects) == Exec(hash, w, effects)
         else v == Exec(hash, w, effects).world && Exec(hash, w, effects).status != Running
  {
    hide Exec, LeftBehind, ReadsSettled, InFlight, RenamesFollowWrites, RecordsInFlight;
    var v := Crash(hash, w, effects, m, torn);
    assert NoGit(effects[..m]);
    RepositoryApart(hash, w, w.repo, effects[..m]);
    if Exec(hash, w, effects[..m]).status != Running {
      ThrewStays(hash, w, effects, m);
      if InFlight(v.row) { StoppedRun(hash, w, effects); }
    } else {
      RowAfter(hash, w, effects[..m]);
      RowInFlight(effects, m, w.row);
      if m < |effects| && torn.Some? && effects[m].WriteTemporary? {
        TornLeftBehind(hash, w, effects, m, torn.value);
        Replay(hash, w, v, effects, m, m + 1);
      } else {
        StoppedLeftBehind(hash, w, effects, m);
        Replay(hash, w, v, effects, m, m);
      }
    }
  }
}
