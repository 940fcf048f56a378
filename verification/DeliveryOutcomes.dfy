/** What a reader of the working tree or of the journal may rely on, at any moment of a promotion. */
module DeliveryOutcomes {
  import opened Sequences
  import opened Bytes
  import opened DeliverySteps
  import opened DeliveryReplay
  import opened DeliveryRecovery
  import opened DeliveryLanding
  import opened DeliveryGuarantees
  import opened DeliveryPromotion

  // ----- the list of delivered paths

  /** Removed or rewritten, and not just confirmed. */
  predicate IsDelivered(file: FileEntry, payloads: Payloads) {
    file.deleted || file.path in payloads
  }

  /** The positions of the delivered files. */
  ghost function Positions(files: seq<FileEntry>, payloads: Payloads): (r: seq<nat>)
    ensures forall i :: i in r <==> 0 <= i < |files| && IsDelivered(files[i], payloads)
  {
    if files == [] then []
    else
      var n := |files| - 1;
      assert forall i :: 0 <= i < n ==> files[..n][i] == files[i];
      Positions(files[..n], payloads) + if IsDelivered(files[n], payloads) then [n] else []
  }

  ghost predicate ListedAt(files: seq<FileEntry>, positions: seq<nat>, listed: seq<Path>) {
    && |positions| == |listed| && Increasing(positions)
    && forall j :: 0 <= j < |listed| ==> positions[j] < |files| && files[positions[j]].path == listed[j]
  }

  /** The delivered paths are those of the files that are deleted or have kept bytes, in manifest order. */
  lemma {:induction false} DeliveredExactly(files: seq<FileEntry>, payloads: Payloads)
    ensures ListedAt(files, Positions(files, payloads), Delivered(files, payloads))
  {
    hide ListedAt, Positions, IsDelivered;
    if files == [] {
      NothingListed(payloads);
    } else {
      var n := |files| - 1;
      DeliveredExactly(files[..n], payloads);
      NextListed(files, payloads);
    }
  }

  lemma NothingListed(payloads: Payloads)
    ensures ListedAt([], Positions([], payloads), Delivered([], payloads))
  {}

  lemma Unrolled(files: seq<FileEntry>, payloads: Payloads)
    requires files != []
    ensures
      var n := |files| - 1;
      if IsDelivered(files[n], payloads) then
        && Positions(files, payloads) == Positions(files[..n], payloads) + [n]
        && Delivered(files, payloads) == Delivered(files[..n], payloads) + [files[n].path]
      else
        && Positions(files, payloads) == Positions(files[..n], payloads)
        && Delivered(files, payloads) == Delivered(files[..n], payloads)
  {}

  lemma ListedLonger(files: seq<FileEntry>, n: nat, positions: seq<nat>, listed: seq<Path>)
    requires n < |files| && ListedAt(files[..n], positions, listed)
    ensures ListedAt(files, positions, listed)
    ensures ListedAt(files, positions + [n], listed + [files[n].path])
  {
    forall j | 0 <= j < |listed| ensures files[positions[j]] == files[..n][positions[j]] {}
  }

  lemma NextListed(files: seq<FileEntry>, payloads: Payloads)
    requires files != []
    requires var before := files[..|files| - 1];
             ListedAt(before, Positions(before, payloads), Delivered(before, payloads))
    ensures ListedAt(files, Positions(files, payloads), Delivered(files, payloads))
  {
    hide ListedAt, Positions, Delivered, IsDelivered;
    var n := |files| - 1;
    Unrolled(files, payloads);
    ListedLonger(files, n, Positions(files[..n], payloads), Delivered(files[..n], payloads));
  }

  lemma DeliveredListed(files: seq<FileEntry>, payloads: Payloads, path: Path)
    ensures path in Delivered(files, payloads) <==>
              exists i :: 0 <= i < |files| && files[i].path == path && IsDelivered(files[i], payloads)
  {
    hide Delivered, IsDelivered, Positions;
    DeliveredExactly(files, payloads);
    var positions, listed := Positions(files, payloads), Delivered(files, payloads);
    if i :| 0 <= i < |files| && files[i].path == path && IsDelivered(files[i], payloads) {
      assert i in positions;
      var j :| 0 <= j < |positions| && positions[j] == i;
      assert listed[j] == path;
    }
    if j :| 0 <= j < |listed| && listed[j] == path {
      assert positions[j] in positions;
    }
  }

  // ----- what the journal row says about the files

  /** An effect that writes the row, if it does anything. */
  predicate Records(e: Effect) {
    e.Journal? || e.Verify?
  }

  /** The row after a run is the old one, or some effect that was reached wrote it. */
  ghost predicate RowFrom(hash: Hash, w: World, effects: seq<Effect>, j: nat, row: Option<Row>) {
    && j < |effects| && Records(effects[j]) && Exec(hash, w, effects[..j]).status == Running
    && row == Some(Row(if effects[j].Journal? then effects[j].state else Aborted, effects[j].written))
  }

  lemma {:induction false} RowSource(hash: Hash, w: World, effects: seq<Effect>)
    ensures
      var row := Exec(hash, w, effects).world.row;
      row == w.row || exists j: nat :: RowFrom(hash, w, effects, j, row)
  {
    if effects != [] {
      var n := |effects| - 1;
      var before, row := Exec(hash, w, effects[..n]), Exec(hash, w, effects).world.row;
      RowSource(hash, w, effects[..n]);
      if row == before.world.row {
        if row != w.row {
          var j: nat :| RowFrom(hash, w, effects[..n], j, row);
          assert effects[..n][..j] == effects[..j];
          assert RowFrom(hash, w, effects, j, row);
        }
      } else {
        assert RowFrom(hash, w, effects, n, row);
      }
    }
  }

  /** When an effect of the script lists a path as written, the script has settled that path before. */
  lemma {:induction false} ListedIsWritten(files: seq<FileEntry>, payloads: Payloads, k: nat, j: nat, i: nat)
    requires SeparatePaths(files) && k <= |files| && i < |files| && j < |WriteEffects(files[..k], payloads)|
    requires Records(WriteEffects(files[..k], payloads)[j])
    ensures
      var effects := WriteEffects(files[..k], payloads);
      && effects[j].Journal? && effects[j].state == Prepared
      && (files[i].path in effects[j].written ==> Touch(effects[..j], files[i].path).Some?)
      && forall p :: p in effects[j].written ==> p in Delivered(files, payloads)
    decreases k
  {
    hide Delivered, SeparatePaths, Touch, Approved, IsDelivered;
    if k > 0 {
      WriteEffectsNext(files, payloads, k - 1);
      var before, all := WriteEffects(files[..k - 1], payloads), WriteEffects(files[..k], payloads);
      if j < |before| {
        assert all[j] == before[j] && all[..j] == before[..j];
        ListedIsWritten(files, payloads, k - 1, j, i);
      } else {
        LastOfOne(files, payloads, k, j);
        ListedSoFar(files, payloads, k, i);
        PrefixDelivered(files, payloads, k);
      }
    }
  }

  /** Among the effects of one file only the last records, and it follows what writes the file. */
  lemma LastOfOne(files: seq<FileEntry>, payloads: Payloads, k: nat, j: nat)
    requires 0 < k <= |files| && |WriteEffects(files[..k - 1], payloads)| <= j < |WriteEffects(files[..k], payloads)|
    requires Records(WriteEffects(files[..k], payloads)[j])
    ensures
      var before, file := WriteEffects(files[..k - 1], payloads), files[k - 1];
      && !file.deleted && file.path in payloads
      && WriteEffects(files[..k], payloads)[j] == Journal(Prepared, Delivered(files[..k], payloads))
      && WriteEffects(files[..k], payloads)[..j] ==
           before + [WriteTemporary(file.path, payloads[file.path])] + [Rename(file.path)]
  {
    hide Delivered;
    WriteEffectsNext(files, payloads, k - 1);
    var before, all := WriteEffects(files[..k - 1], payloads), WriteEffects(files[..k], payloads);
    var own := FileEffects(files[k - 1], payloads, Delivered(files[..k], payloads));
    assert all[j] == own[j - |before|];
    assert all[..j] == before + own[..2];
  }

  lemma ListedSoFar(files: seq<FileEntry>, payloads: Payloads, k: nat, i: nat)
    requires SeparatePaths(files) && 0 < k <= |files| && i < |files|
    requires !files[k - 1].deleted && files[k - 1].path in payloads
    ensures
      var before, file := WriteEffects(files[..k - 1], payloads), files[k - 1];
      var two := before + [WriteTemporary(file.path, payloads[file.path])] + [Rename(file.path)];
      files[i].path in Delivered(files[..k], payloads) ==> Touch(two, files[i].path).Some?
  {
    hide Delivered, Touch, FileEffects, WriteEffects;
    var before, file := WriteEffects(files[..k - 1], payloads), files[k - 1];
    var one := before + [WriteTemporary(file.path, payloads[file.path])];
    DeliveredListed(files[..k], payloads, files[i].path);
    if files[i].path in Delivered(files[..k], payloads) {
      var m :| 0 <= m < k && files[..k][m].path == files[i].path && IsDelivered(files[..k][m], payloads);
      assert m == i;
      if i == k - 1 {
        TouchByRename(before, file.path, payloads[file.path]);
      } else {
        WrittenAs(files, payloads, i, k - 1);
        TouchLast(before, WriteTemporary(file.path, payloads[file.path]), files[i].path);
        TouchLast(one, Rename(file.path), files[i].path);
      }
    }
  }

  lemma PrefixDelivered(files: seq<FileEntry>, payloads: Payloads, k: nat)
    requires k <= |files|
    ensures forall p :: p in Delivered(files[..k], payloads) ==> p in Delivered(files, payloads)
  {
    hide Delivered, IsDelivered;
    forall p | p in Delivered(files[..k], payloads) ensures p in Delivered(files, payloads) {
      DeliveredListed(files[..k], payloads, p);
      DeliveredListed(files, payloads, p);
      var i :| 0 <= i < k && files[..k][i].path == p && IsDelivered(files[..k][i], payloads);
      assert files[i] == files[..k][i];
    }
  }

  /** In the whole script: what records lists settled paths only, and after the writes exactly the delivered ones. */
  lemma RecordsInScript(files: seq<FileEntry>, payloads: Payloads, j: nat, i: nat)
    requires SeparatePaths(files) && i < |files| && j < |Script(files, payloads)| && Records(Script(files, payloads)[j])
    ensures
      var e := Script(files, payloads)[j];
      && (files[i].path in e.written ==> Touch(Script(files, payloads)[..j], files[i].path).Some?)
      && (forall p :: p in e.written ==> p in Delivered(files, payloads))
      && ((e.Journal? && e.state == Prepared) || e.written == Delivered(files, payloads))
      && (e.Journal? ==> e.state != Aborted)
  {
    hide Delivered, WriteEffects, Tail, Script, Touch, SeparatePaths, Approved, IsDelivered;
    ScriptParts(files, payloads);
    TailParts(files, payloads);
    assert files[..|files|] == files;
    var script, head := Script(files, payloads), WriteEffects(files, payloads);
    if j < |head| {
      assert script[j] == head[j] && script[..j] == head[..j];
      ListedIsWritten(files, payloads, |files|, j, i);
    } else {
      assert script[j] == Tail(files, payloads)[j - |head|];
      if 0 < j - |head| <= |files| {
        assert Tail(files, payloads)[1 + (j - |head| - 1)] == script[j];
      }
      TailTouchesNothing(files, payloads, j, files[i].path);
      DeliveredListed(files, payloads, files[i].path);
      if files[i].path in Delivered(files, payloads) {
        WrittenAs(files, payloads, i, |files|);
        SettledIfDelivered(files, payloads, i);
      }
    }
  }

  lemma SettledIfDelivered(files: seq<FileEntry>, payloads: Payloads, i: nat)
    requires SeparatePaths(files) && i < |files| && files[i].path in Delivered(files, payloads)
    ensures IsDelivered(files[i], payloads) && Approved(files[i], payloads).Some?
  {
    hide Delivered;
    DeliveredListed(files, payloads, files[i].path);
  }

  /** Every path the row lists is a delivered one and holds what was approved; a row that says more than
      `prepared` lists all delivered paths in manifest order. */
  ghost predicate RowHolds(w: World, files: seq<FileEntry>, payloads: Payloads) {
    && w.row.Some?
    && (forall p :: p in w.row.value.written ==> p in Delivered(files, payloads))
    && (w.row.value.state == Prepared || w.row.value.written == Delivered(files, payloads))
  }

  ghost predicate HoldsApproved(w: World, files: seq<FileEntry>, payloads: Payloads, i: nat)
    requires i < |files|
  {
    && w.row.Some?
    && (files[i].path in w.row.value.written ==> Approved(files[i], payloads) == Some(At(w.disk, files[i].path)))
  }

  lemma RowAfterKill(
      hash: Hash, w: World, files: seq<FileEntry>, payloads: Payloads, kill: Kill, i: nat)
    requires SeparatePaths(files) && kill.after <= |Script(files, payloads)| && i < |files|
    requires RowHolds(w, files, payloads) && HoldsApproved(w, files, payloads, i)
    ensures
      var v := Crash(hash, w, Script(files, payloads), kill.after, kill.torn);
      RowHolds(v, files, payloads) && HoldsApproved(v, files, payloads, i)
  {
    hide Delivered, Script, Exec, Touch, SeparatePaths, Approved;
    var script, path := Script(files, payloads), files[i].path;
    var part := script[..kill.after];
    var row := Exec(hash, w, part).world.row;
    DestinationIsNoTemporary(files, i);
    NotATemporary(files, payloads, path);
    ScriptRenames(files, payloads);
    var n := CrashedFile(hash, w, script, kill.after, kill.torn, path);
    ScriptTouch(files, payloads, n, i);
    RowSource(hash, w, part);
    assert Crash(hash, w, script, kill.after, kill.torn).row == row;
    if row != w.row {
      var j: nat :| RowFrom(hash, w, part, j, row);
      assert part[..j] == script[..j] && part[j] == script[j];
      RecordsInScript(files, payloads, j, i);
      if n < j {
        assert script[..j][..n + 1] == script[..n + 1];
        ThrewStays(hash, w, script[..j], n + 1);
      }
      if path in row.value.written {
        assert script[..n][..j] == script[..j];
        TouchGrows(script[..n], j, path);
      }
    }
  }

  /** At every moment of every pattern of kills: each path that the row lists holds the approved content (for a
      deletion: nothing), and a row that is written, completed or aborted lists exactly the delivered paths. */
  lemma {:induction false} RowTellsTheTruth(
      hash: Hash, w: World, files: seq<FileEntry>, payloads: Payloads, kills: seq<Kill>, i: nat)
    requires SeparatePaths(files) && KillsFit(Script(files, payloads), kills) && i < |files|
    ensures
      var v := Killed(hash, Promised(w), Script(files, payloads), kills);
      && v.row.Some?
      && (files[i].path in v.row.value.written ==> Approved(files[i], payloads) == Some(At(v.disk, files[i].path)))
      && (forall p :: p in v.row.value.written ==> p in Delivered(files, payloads))
      && (v.row.value.state == Prepared || v.row.value.written == Delivered(files, payloads))
  {
    hide Delivered, Script, Crash, SeparatePaths, Approved, InFlight;
    if kills != [] {
      var n := |kills| - 1;
      RowTellsTheTruth(hash, w, files, payloads, kills[..n], i);
      var before := Killed(hash, Promised(w), Script(files, payloads), kills[..n]);
      if InFlight(before.row) {
        RowAfterKill(hash, before, files, payloads, kills[n], i);
      }
    }
  }

  // ----- what is staged and committed

  lemma ReachedElsewhere(disk: Files, r0: Repository, r: Repository, paths: seq<Path>, p: Path)
    requires Reached(disk, r0, r, paths) && p !in paths
    ensures At(r.index, p) == At(r0.index, p) && At(r.head, p) == At(r0.head, p)
  {
    hide IsClean, CanStage, CanCommit, Snapshot;
    SnapshotAt(r0.index, disk, paths, p);
    SnapshotAt(r0.head, disk, paths, p);
  }

  /** At every moment of every pattern of kills, index and commit hold outside the manifest what they held before. */
  lemma NothingElseCommitted(
      hash: Hash, w: World, files: seq<FileEntry>, payloads: Payloads, kills: seq<Kill>, p: Path)
    requires SeparatePaths(files) && KillsFit(Script(files, payloads), kills) && InFlight(w.row) && !w.committing
    requires !InManifest(files, p)
    ensures
      var v := Killed(hash, w, Script(files, payloads), kills);
      At(v.repo.index, p) == At(w.repo.index, p) && At(v.repo.head, p) == At(w.repo.head, p)
  {
    hide Exec, Script, Prelude, Killed, SeparatePaths, InFlight, Reached;
    KilledOnCourse(hash, w, files, payloads, kills);
    PathsListed(files);
    var first, v := Exec(hash, w, Prelude(files, payloads)), Killed(hash, w, Script(files, payloads), kills);
    PreludeShape(files, payloads);
    RepositoryApart(hash, w, w.repo, Prelude(files, payloads));
    if first.status == Running { ReachedElsewhere(first.world.disk, w.repo, v.repo, PathsOf(files), p); }
  }

  // ----- how a delivery fails

  /** Bytes that were not kept, and are not on disk any more. */
  ghost predicate IsLost(hash: Hash, disk: Files, file: FileEntry, payloads: Payloads) {
    IsConfirmed(file, payloads) && DigestAt(hash, disk, file.path) != file.digest
  }

  lemma {:induction false} ConfirmAt(files: seq<FileEntry>, payloads: Payloads, k: nat, i: nat) returns (t: nat)
    requires i < k <= |files| && IsConfirmed(files[i], payloads)
    ensures t < |WriteEffects(files[..k], payloads)|
    ensures WriteEffects(files[..k], payloads)[t] == Confirm(files[i].path, files[i].digest)
    decreases k
  {
    hide Delivered;
    WriteEffectsNext(files, payloads, k - 1);
    if i == k - 1 {
      t := |WriteEffects(files[..k - 1], payloads)|;
    } else {
      t := ConfirmAt(files, payloads, k - 1, i);
    }
  }

  /** A lost file stops the delivery while it writes. */
  lemma LostStopsEarly(hash: Hash, w: World, files: seq<FileEntry>, payloads: Payloads, i: nat)
    requires SeparatePaths(files) && i < |files| && IsLost(hash, w.disk, files[i], payloads)
    ensures StopAt(hash, w, Prelude(files, payloads)) < |WriteEffects(files, payloads)|
  {
    hide Delivered, WriteEffects, Prelude, Exec, SeparatePaths, Tail, Script;
    var prelude := Prelude(files, payloads);
    assert files[..|files|] == files;
    var t := ConfirmAt(files, payloads, |files|, i);
    ScriptParts(files, payloads);
    assert prelude[t] == Script(files, payloads)[t] == WriteEffects(files, payloads)[t];
    StopAtIsFirst(hash, w, prelude);
    var n := StopAt(hash, w, prelude);
    if n > t {
      assert prelude[..n][..t] == prelude[..t] && prelude[..n][..t + 1] == prelude[..t + 1];
      ThrewStays(hash, w, prelude[..n], t);
      ThrewStays(hash, w, prelude[..n], t + 1);
      StepOf(hash, w, prelude, t);
      ConfirmedOnDisk(hash, w, files, payloads, t, i);
      DigestOfAt(hash, w.disk, files[i].path);
      DigestOfAt(hash, Exec(hash, w, prelude[..t]).world.disk, files[i].path);
    }
  }

  lemma StoppedAt(hash: Hash, w: World, files: seq<FileEntry>, payloads: Payloads)
    requires SeparatePaths(files) && InFlight(w.row) && Exec(hash, w, Prelude(files, payloads)).status != Running
    ensures
      var first, t := Exec(hash, w, Prelude(files, payloads)), StopAt(hash, w, Prelude(files, payloads));
      && t < |Prelude(files, payloads)|
      && if t < |WriteEffects(files, payloads)| then
           first.status.error.NoLongerMatches? && InFlight(first.world.row)
           && exists i :: 0 <= i < |files| && IsLost(hash, w.disk, files[i], payloads)
         else
           first.status.error.NotVerified? && first.world.row == Some(Row(Aborted, Delivered(files, payloads)))
           && exists i :: 0 <= i < |files| && !FileMatches(hash, w.disk, files[i], payloads)
  {
    hide Delivered, WriteEffects, Prelude, Exec, SeparatePaths, ResultOf, FileMatches, IsConfirmed;
    var prelude := Prelude(files, payloads);
    StopAtIsFirst(hash, w, prelude);
    var t := StopAt(hash, w, prelude);
    StepOf(hash, w, prelude, t);
    ThrewStays(hash, w, prelude, t + 1);
    Throwers(files, payloads, t);
    RecordsUntil(hash, w, files, payloads, t);
    var reached := Exec(hash, w, prelude[..t]).world;
    match prelude[t]
    case Confirm(path, digest) =>
      var i :|
        0 <= i < |files| && IsConfirmed(files[i], payloads) && files[i].path == path && files[i].digest == digest;
      ConfirmedOnDisk(hash, w, files, payloads, t, i);
      DigestOfAt(hash, w.disk, path);
      DigestOfAt(hash, reached.disk, path);
      assert IsLost(hash, w.disk, files[i], payloads);
    case Verify(entry, written) =>
      var i := EntryAt(files, entry);
      DiskInTail(hash, w, files, payloads, t, i);
      MatchesResult(hash, w.disk, files[i], payloads);
    case _ =>
  }

  lemma RecordsUntil(hash: Hash, w: World, files: seq<FileEntry>, payloads: Payloads, t: nat)
    requires InFlight(w.row) && t <= |Prelude(files, payloads)|
    requires Exec(hash, w, Prelude(files, payloads)[..t]).status == Running
    ensures InFlight(Exec(hash, w, Prelude(files, payloads)[..t]).world.row)
  {
    hide Delivered, Prelude, Exec;
    PreludeShape(files, payloads);
    RowAfter(hash, w, Prelude(files, payloads)[..t]);
    RowInFlight(Prelude(files, payloads), t, w.row);
  }

  /** How a delivery fails before it touches the repository: it stops while writing, and may be tried again, exactly
      when a file whose bytes were not kept is lost; otherwise it is aborted for good exactly when some kept bytes are
      not the approved ones. */
  lemma FailsExactly(hash: Hash, w: World, files: seq<FileEntry>, payloads: Payloads)
    requires SeparatePaths(files) && InFlight(w.row)
    ensures
      var first := Exec(hash, w, Prelude(files, payloads));
      var lost := exists i :: 0 <= i < |files| && IsLost(hash, w.disk, files[i], payloads);
      && (first.status.Threw? && first.status.error.NoLongerMatches? <==> lost)
      && (first.status.Threw? && first.status.error.NotVerified? <==>
            !lost && exists i :: 0 <= i < |files| && !FileMatches(hash, w.disk, files[i], payloads))
      && (first.status.Threw? ==> first.status.error.NoLongerMatches? || first.status.error.NotVerified?)
      && (lost ==> InFlight(first.world.row))
      && (first.status.Threw? && !lost ==> first.world.row == Some(Row(Aborted, Delivered(files, payloads))))
  {
    hide Delivered, WriteEffects, Prelude, Exec, SeparatePaths, FileMatches, InFlight, IsLost, StopAt;
    StopAtIsFirst(hash, w, Prelude(files, payloads));
    if i :| 0 <= i < |files| && IsLost(hash, w.disk, files[i], payloads) {
      LostStopsEarly(hash, w, files, payloads, i);
      PreludeIsLonger(files, payloads);
      StoppedAt(hash, w, files, payloads);
    } else if Exec(hash, w, Prelude(files, payloads)).status != Running {
      StoppedAt(hash, w, files, payloads);
    } else {
      PreludeRunsOnlyIf(hash, w, files, payloads);
    }
  }

  lemma PreludeIsLonger(files: seq<FileEntry>, payloads: Payloads)
    ensures |WriteEffects(files, payloads)| < |Prelude(files, payloads)|
  {
    hide Delivered, WriteEffects;
  }

  /** While the files are written, the row lists all that is done after every file whose bytes were put in place. */
  lemma ProgressIsRecorded(hash: Hash, w: World, files: seq<FileEntry>, payloads: Payloads, k: nat)
    requires 0 < k <= |files| && !files[k - 1].deleted && files[k - 1].path in payloads
    requires Exec(hash, w, WriteEffects(files[..k], payloads)).status == Running
    ensures
      var row := Exec(hash, w, WriteEffects(files[..k], payloads)).world.row;
      row == Some(Row(Prepared, Delivered(files[..k], payloads)))
  {
    hide Delivered, Exec;
    WriteEffectsNext(files, payloads, k - 1);
    RowAfter(hash, w, WriteEffects(files[..k], payloads));
    var own := FileEffects(files[k - 1], payloads, Delivered(files[..k], payloads));
    var all := WriteEffects(files[..k], payloads);
    assert all[|all| - 1] == own[2];
  }

  /** Once everything is written the row says so, until the repository has taken it. */
  lemma WrittenIsRecorded(hash: Hash, w: World, files: seq<FileEntry>, payloads: Payloads)
    requires Exec(hash, w, Prelude(files, payloads)).status == Running
    ensures Exec(hash, w, Prelude(files, payloads)).world.row == Some(Row(Written, Delivered(files, payloads)))
  {
    hide Delivered, WriteEffects, Exec, VerifyEffects;
    var written := Delivered(files, payloads);
    var head := WriteEffects(files, payloads) + [Journal(Written, written)];
    RowAfter(hash, w, Prelude(files, payloads));
    assert Prelude(files, payloads) == head + VerifyEffects(files, written);
    VerifyKeepsRow(files, written, head, w.row);
    assert head[|head| - 1] == Journal(Written, written);
  }

  lemma VerifyKeepsRow(files: seq<FileEntry>, written: seq<Path>, head: seq<Effect>, row: Option<Row>)
    ensures LastRow(head + VerifyEffects(files, written), row) == LastRow(head, row)
  {
    var verify := VerifyEffects(files, written);
    NoRecords(head, verify, row);
  }

  lemma {:induction false} NoRecords(a: seq<Effect>, b: seq<Effect>, row: Option<Row>)
    requires forall i :: 0 <= i < |b| ==> !b[i].Journal?
    ensures LastRow(a + b, row) == LastRow(a, row)
    decreases |b|
  {
    if b == [] {
      assert a + b == a;
    } else {
      var n := |b| - 1;
      assert (a + b)[..|a + b| - 1] == a + b[..n] && (a + b)[|a + b| - 1] == b[n];
      NoRecords(a, b[..n], row);
    }
  }

  // ----- what the comparison before the first write protects

  /** A deletion carries no digest, as `digestOf` gives none for a file that is gone. */
  ghost predicate AbsentWithoutDigest(files: seq<FileEntry>) {
    forall i :: 0 <= i < |files| && files[i].deleted ==> files[i].digest.None?
  }

  /** The kept bytes are the approved ones. */
  ghost predicate PayloadsGenuine(hash: Hash, files: seq<FileEntry>, payloads: Payloads) {
    forall i :: 0 <= i < |files| && !files[i].deleted && files[i].path in payloads ==>
      files[i].digest == Some(hash(payloads[files[i].path]))
  }

  /** A promotion that passed the comparison never replaces listed bytes by others: once it has completed, however
      often it was killed and recovered, and if the kept bytes are genuine at every moment before, too, every path
      that the comparison listed has the digest it had. */
  lemma ListedBytesSurvive(
      hash: Hash, w: World, base: nat, files: seq<FileEntry>, payloads: Payloads, origins: set<Path>,
      kills: seq<Kill>, p: Path)
    requires SeparatePaths(files) && AbsentWithoutDigest(files) && KillsFit(Script(files, payloads), kills)
    requires !w.committing && Unchanged(hash, w, base, files, origins) && IsListed(w, origins, p)
    ensures
      var v := Killed(hash, Promised(w), Script(files, payloads), kills);
      IsCompleted(v) || PayloadsGenuine(hash, files, payloads) ==>
        DigestAt(hash, v.disk, p) == DigestAt(hash, w.disk, p)
  {
    hide Script, Killed, SeparatePaths, Differs, Delivered;
    var v := Killed(hash, Promised(w), Script(files, payloads), kills);
    assert ApprovedChange(hash, w.disk, files, p);
    var i :| 0 <= i < |files| && files[i].path == p && DigestAt(hash, w.disk, p) == files[i].digest;
    if IsCompleted(v) {
      CompletedMatches(hash, Promised(w), files, payloads, kills, i);
    } else {
      DestinationIsWhole(hash, Promised(w), files, payloads, kills, i);
      if PayloadsGenuine(hash, files, payloads) { DigestFromWhole(hash, w.disk, v.disk, files, payloads, i); }
    }
  }

  lemma DigestFromWhole(
      hash: Hash, old0: Files, disk: Files, files: seq<FileEntry>, payloads: Payloads, i: nat)
    requires AbsentWithoutDigest(files) && PayloadsGenuine(hash, files, payloads) && i < |files|
    requires DigestAt(hash, old0, files[i].path) == files[i].digest
    requires At(disk, files[i].path) == At(old0, files[i].path) ||
             Approved(files[i], payloads) == Some(At(disk, files[i].path))
    ensures DigestAt(hash, disk, files[i].path) == DigestAt(hash, old0, files[i].path)
  {
    DigestOfAt(hash, disk, files[i].path);
    DigestOfAt(hash, old0, files[i].path);
  }

  /** What a completed promotion replaces, exactly: the manifest paths whose bytes did not have the approved digest;
      none of them was listed, so each stood as in the index and in the commit, or was the lost origin of a rename. */
  lemma ReplacedExactly(
      hash: Hash, w: World, base: nat, files: seq<FileEntry>, payloads: Payloads, origins: set<Path>,
      kills: seq<Kill>, i: nat)
    requires SeparatePaths(files) && AbsentWithoutDigest(files) && KillsFit(Script(files, payloads), kills)
    requires !w.committing && Unchanged(hash, w, base, files, origins) && i < |files|
    requires IsCompleted(Killed(hash, Promised(w), Script(files, payloads), kills))
    ensures
      var v := Killed(hash, Promised(w), Script(files, payloads), kills);
      && (DigestAt(hash, v.disk, files[i].path) != DigestAt(hash, w.disk, files[i].path) <==>
            DigestAt(hash, w.disk, files[i].path) != files[i].digest)
      && (DigestAt(hash, v.disk, files[i].path) != DigestAt(hash, w.disk, files[i].path) ==>
            !IsListed(w, origins, files[i].path))
  {
    hide Script, Killed, SeparatePaths, Differs, Delivered;
    CompletedMatches(hash, Promised(w), files, payloads, kills, i);
    if IsListed(w, origins, files[i].path) {
      ListedBytesSurvive(hash, w, base, files, payloads, origins, kills, files[i].path);
    }
  }

  /** The comparison spelled out: refused exactly when the base moved, or when some path on which working tree, index
      and commit do not agree, other than the lost origin of a rename, is approved with no digest it now has. */
  lemma RefusedExactly(hash: Hash, w: World, base: nat, files: seq<FileEntry>, origins: set<Path>)
    ensures !Unchanged(hash, w, base, files, origins) <==>
              || w.repo.revision != base
              || exists p ::
                   && !(At(w.disk, p) == At(w.repo.index, p) == At(w.repo.head, p))
                   && (p !in origins || p in w.disk)
                   && forall i :: 0 <= i < |files| && files[i].path == p ==>
                        files[i].digest != (if p in w.disk then Some(hash(w.disk[p])) else None)
  {
    forall p
      ensures IsListed(w, origins, p) && !ApprovedChange(hash, w.disk, files, p) <==>
                && !(At(w.disk, p) == At(w.repo.index, p) == At(w.repo.head, p))
                && (p !in origins || p in w.disk)
                && forall i :: 0 <= i < |files| && files[i].path == p ==>
                     files[i].digest != (if p in w.disk then Some(hash(w.disk[p])) else None)
    {}
  }

  /** Some listed path is approved with no digest that it now has. */
  ghost predicate EditedSince(hash: Hash, w: World, files: seq<FileEntry>, origins: set<Path>) {
    exists p :: IsListed(w, origins, p) &&
      forall i :: 0 <= i < |files| && files[i].path == p ==> files[i].digest != DigestAt(hash, w.disk, p)
  }

  lemma EditedIsRefused(hash: Hash, w: World, base: nat, files: seq<FileEntry>, origins: set<Path>)
    ensures EditedSince(hash, w, files, origins) ==> !Unchanged(hash, w, base, files, origins)
  {
    hide IsListed;
    if EditedSince(hash, w, files, origins) {
      var p :| IsListed(w, origins, p) &&
        forall i :: 0 <= i < |files| && files[i].path == p ==> files[i].digest != DigestAt(hash, w.disk, p);
      assert !ApprovedChange(hash, w.disk, files, p);
    }
  }

  /** The same for a first run that returns. */
  lemma CompletedKeepsListed(
      hash: Hash, w: World, base: nat, files: seq<FileEntry>, payloads: Payloads, origins: set<Path>,
      budget: nat, torn: Option<nat>)
    requires SeparatePaths(files) && AbsentWithoutDigest(files) && !w.committing
    requires Unchanged(hash, w, base, files, origins)
    requires Exec(hash, Promised(w), Script(files, payloads)).status == Running
    requires
      var script := Script(files, payloads);
      budget < |script| ==> Exec(hash, Promised(w), script[..budget]).status != Running
    ensures
      var script := Script(files, payloads);
      var v := Crash(hash, Promised(w), script, Least(budget, |script|), torn);
      forall p :: IsListed(w, origins, p) ==> DigestAt(hash, v.disk, p) == DigestAt(hash, w.disk, p)
  {
    hide Script, SeparatePaths, AbsentWithoutDigest, Unchanged, IsListed, Exec;
    var script := Script(files, payloads);
    if budget < |script| {
      ThrewStays(hash, Promised(w), script, budget);
    } else {
      var kill := Kill(|script|, torn);
      assert script[..|script|] == script;
      KilledOnlyOnce(hash, Promised(w), script, kill);
      RunIsOver(hash, Promised(w), files, payloads);
      forall p | IsListed(w, origins, p)
        ensures DigestAt(hash, Killed(hash, Promised(w), script, [kill]).disk, p) == DigestAt(hash, w.disk, p)
      {
        ListedBytesSurvive(hash, w, base, files, payloads, origins, [kill], p);
      }
    }
  }

  /** Editing an approved file after the approval: as long as the new bytes are not those of index and commit, the
      comparison refuses. */
  lemma EditIsRefused(
      hash: Hash, w: World, base: nat, files: seq<FileEntry>, origins: set<Path>, i: nat, content: Content)
    requires SeparatePaths(files) && i < |files| && files[i].digest != Some(hash(content))
    requires !(Some(content) == At(w.repo.index, files[i].path) == At(w.repo.head, files[i].path))
    ensures !Unchanged(hash, w.(disk := w.disk[files[i].path := content]), base, files, origins)
  {
    var edited, p := w.(disk := w.disk[files[i].path := content]), files[i].path;
    assert IsListed(edited, origins, p);
    assert !ApprovedChange(hash, edited.disk, files, p);
  }

  /** Putting an approved file back as the commit has it is not noticed: status lists nothing, the comparison passes,
      and the delivery writes the approved bytes over it. */
  lemma RevertIsOverwritten(hash: Hash, committed: Content, approved: Content)
    requires hash(committed) != hash(approved)
    ensures
      var tree: Files := map[OLD_NAME := committed];
      var w := World(tree, Repository(tree, tree, 0), None, false);
      var files, payloads := [FileEntry(OLD_NAME, false, Some(hash(approved)))], map[OLD_NAME := approved];
      && Unchanged(hash, w, 0, files, {})
      && var v := Exec(hash, Promised(w), Script(files, payloads)).world;
         IsCompleted(v) && OLD_NAME in v.disk && v.disk[OLD_NAME] == approved
  {
    var tree: Files := map[OLD_NAME := committed];
    var w := World(tree, Repository(tree, tree, 0), None, false);
    var files, payloads := [FileEntry(OLD_NAME, false, Some(hash(approved)))], map[OLD_NAME := approved];
    hide Exec, Script, Delivered;
    TemporaryDiffers(OLD_NAME);
    assert files[0].path == OLD_NAME && ResultOf(files[0], payloads, w.disk) == Some(approved);
    assert At(tree, OLD_NAME) == Some(committed);
    assert Deliverable(hash, Promised(w), files, payloads);
    CompletesExactly(hash, Promised(w), files, payloads);
    RunIsOver(hash, Promised(w), files, payloads);
    DeletedAfter(hash, Promised(w), files, payloads, 0);
  }
}
