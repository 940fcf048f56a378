/** The guarantees of a promotion over every pattern of crashes. */
module DeliveryGuarantees {
  import opened Sequences
  import opened Bytes
  import opened DeliverySteps
  import opened DeliveryReplay
  import opened DeliveryRecovery
  import opened DeliveryLanding

  // ----- no destination ever holds a partial file

  lemma PartOfOne(before: seq<Effect>, file: FileEntry, payloads: Payloads, delivered: seq<Path>, n: nat)
    requires Touch(before, file.path).None? && n <= |FileEffects(file, payloads, delivered)|
    ensures
      var t := Touch(before + FileEffects(file, payloads, delivered)[..n], file.path);
      t.None? || t == Approved(file, payloads)
  {
    hide Delivered, Touch;
    var own := FileEffects(file, payloads, delivered);
    if n == |own| {
      assert own[..n] == own;
      TouchOne(before, file, payloads, delivered);
    } else if n == 0 {
      assert before + own[..0] == before;
    } else {
      var content := payloads[file.path];
      TouchByRename(before, file.path, content);
      if n == 1 {
        assert own[..1] == [WriteTemporary(file.path, content)];
      } else {
        assert before + own[..2] == before + [WriteTemporary(file.path, content)] + [Rename(file.path)];
      }
    }
  }

  lemma {:induction false} PartlyWritten(files: seq<FileEntry>, payloads: Payloads, k: nat, n: nat, i: nat)
    requires SeparatePaths(files) && k <= |files| && n <= |WriteEffects(files[..k], payloads)| && i < |files|
    ensures
      var t := Touch(WriteEffects(files[..k], payloads)[..n], files[i].path);
      t.None? || t == Approved(files[i], payloads)
    decreases k
  {
    hide Delivered, FileEffects, SeparatePaths, Touch, Approved;
    if k == 0 {
      assert WriteEffects(files[..k], payloads)[..n] == [];
      TouchNothing(files[i].path);
    } else {
      WriteEffectsNext(files, payloads, k - 1);
      var before, all := WriteEffects(files[..k - 1], payloads), WriteEffects(files[..k], payloads);
      var own := FileEffects(files[k - 1], payloads, Delivered(files[..k], payloads));
      if n <= |before| {
        assert all[..n] == before[..n];
        PartlyWritten(files, payloads, k - 1, n, i);
      } else {
        assert all[..n] == before + own[..n - |before|];
        if i == k - 1 {
          EarlierDiffer(files, i);
          Untouched(files, payloads, i, files[i].path);
          PartOfOne(before, files[i], payloads, Delivered(files[..k], payloads), n - |before|);
        } else {
          assert before[..|before|] == before;
          PartlyWritten(files, payloads, k - 1, |before|, i);
          OtherUnmentioned(files, payloads, k, i);
          TouchUnmentioned(before, own[..n - |before|], files[i].path);
        }
      }
    }
  }

  lemma OtherUnmentioned(files: seq<FileEntry>, payloads: Payloads, k: nat, i: nat)
    requires SeparatePaths(files) && 0 < k <= |files| && i < |files| && i != k - 1
    ensures forall e ::
        e in FileEffects(files[k - 1], payloads, Delivered(files[..k], payloads)) ==> !Mentions(e, files[i].path)
  {
    hide Delivered, FileEffects;
    OwnEffects(files, payloads, k - 1, files[i].path);
  }

  lemma TouchNothing(path: Path)
    ensures Touch([], path) == None
  {}

  lemma ScriptTouch(files: seq<FileEntry>, payloads: Payloads, n: nat, i: nat)
    requires SeparatePaths(files) && n <= |Script(files, payloads)| && i < |files|
    ensures var t := Touch(Script(files, payloads)[..n], files[i].path); t.None? || t == Approved(files[i], payloads)
  {
    hide Delivered, WriteEffects, Tail, Script, Touch, SeparatePaths, Approved;
    ScriptParts(files, payloads);
    assert files[..|files|] == files;
    var head := WriteEffects(files, payloads);
    if n <= |head| {
      assert Script(files, payloads)[..n] == head[..n];
      PartlyWritten(files, payloads, |files|, n, i);
    } else {
      assert head[..|head|] == head;
      PartlyWritten(files, payloads, |files|, |head|, i);
      TailTouchesNothing(files, payloads, n, files[i].path);
    }
  }

  lemma {:induction false} WriteElsewhere(files: seq<FileEntry>, payloads: Payloads, k: nat, path: Path)
    requires k <= |files| && !InManifest(files, path) && !IsTemporary(files, path)
    ensures forall e :: e in WriteEffects(files[..k], payloads) ==> !Mentions(e, path)
  {
    hide Delivered;
    if k > 0 {
      WriteElsewhere(files, payloads, k - 1, path);
      WriteEffectsNext(files, payloads, k - 1);
      assert files[k - 1].path != path && Temporary(files[k - 1].path) != path;
    } else {
      assert WriteEffects(files[..0], payloads) == [];
    }
  }

  lemma ScriptElsewhere(files: seq<FileEntry>, payloads: Payloads, n: nat, path: Path)
    requires n <= |Script(files, payloads)| && !InManifest(files, path) && !IsTemporary(files, path)
    ensures Touch(Script(files, payloads)[..n], path).None?
  {
    hide Delivered, WriteEffects, Tail, Script, InManifest, IsTemporary, Touch;
    ScriptParts(files, payloads);
    assert files[..|files|] == files;
    WriteElsewhere(files, payloads, |files|, path);
    TailReads(files, payloads);
    var part := Script(files, payloads)[..n];
    forall e | e in part ensures !Mentions(e, path) {
      assert e in WriteEffects(files, payloads) || e in Tail(files, payloads);
    }
    TouchUnmentioned([], part, path);
    TouchNothing(path);
    assert [] + part == part;
  }

  /** After a kill a file other than a temporary one is as after some prefix of the script. */
  lemma CrashedFile(hash: Hash, w: World, script: seq<Effect>, m: nat, torn: Option<nat>, path: Path) returns (n: nat)
    requires RenamesFollowWrites(script) && m <= |script|
    requires forall e :: e in script && e.WriteTemporary? ==> Temporary(e.path) != path
    ensures n <= m && At(Crash(hash, w, script, m, torn).disk, path) == Left(script[..n], w.disk, path)
    ensures n < m ==> Exec(hash, w, script[..n + 1]).status != Running
  {
    hide Exec, Touch, Left, RenamesFollowWrites;
    if Exec(hash, w, script[..m]).status == Running {
      n := m;
      PrefixRenames(script, m);
      DiskAfter(hash, w, script[..m], path);
      if m < |script| { assert script[m] in script; }
    } else {
      StopAtIsFirst(hash, w, script[..m]);
      n := StopAt(hash, w, script[..m]);
      assert script[..m][..n] == script[..n] && script[..m][..n + 1] == script[..n + 1];
      StepOf(hash, w, script, n);
      assert script[..n + 1] == script[..m][..n + 1];
      ThrewStays(hash, w, script[..m], n + 1);
      ThrowKeepsDisk(hash, Exec(hash, w, script[..n]).world, script[n]);
      PrefixRenames(script, n);
      DiskAfter(hash, w, script[..n], path);
    }
  }

  lemma ThrowKeepsDisk(hash: Hash, w: World, e: Effect)
    requires Step(hash, w, e).status != Running
    ensures Step(hash, w, e).world.disk == w.disk
  {}

  lemma {:induction false} TemporariesWritten(files: seq<FileEntry>, payloads: Payloads, k: nat)
    requires k <= |files|
    ensures forall e ::
        e in WriteEffects(files[..k], payloads) && e.WriteTemporary? ==> IsTemporary(files, Temporary(e.path))
  {
    hide Delivered;
    if k > 0 {
      TemporariesWritten(files, payloads, k - 1);
      WriteEffectsNext(files, payloads, k - 1);
    } else {
      assert WriteEffects(files[..0], payloads) == [];
    }
  }

  lemma NotATemporary(files: seq<FileEntry>, payloads: Payloads, path: Path)
    requires !IsTemporary(files, path)
    ensures forall e :: e in Script(files, payloads) && e.WriteTemporary? ==> Temporary(e.path) != path
  {
    hide Delivered, WriteEffects, Tail, Script, IsTemporary;
    ScriptParts(files, payloads);
    assert files[..|files|] == files;
    TemporariesWritten(files, payloads, |files|);
    TailReads(files, payloads);
    forall e | e in Script(files, payloads) && e.WriteTemporary? ensures Temporary(e.path) != path {
      assert e in WriteEffects(files, payloads) || e in Tail(files, payloads);
    }
  }

  lemma DestinationIsNoTemporary(files: seq<FileEntry>, i: nat)
    requires SeparatePaths(files) && i < |files|
    ensures !IsTemporary(files, files[i].path)
  {}

  /** At every moment of every pattern of crashes, a destination holds what it held before or exactly the
      approved content (for a deletion: nothing), never part of it. */
  lemma {:induction false} DestinationIsWhole(
      hash: Hash, w: World, files: seq<FileEntry>, payloads: Payloads, kills: seq<Kill>, i: nat)
    requires SeparatePaths(files) && KillsFit(Script(files, payloads), kills) && i < |files|
    ensures
      var now := At(Killed(hash, w, Script(files, payloads), kills).disk, files[i].path);
      now == At(w.disk, files[i].path) || Approved(files[i], payloads) == Some(now)
  {
    hide Delivered, Script, Exec, Crash, SeparatePaths, Approved, Touch, InFlight;
    if kills != [] {
      var n := |kills| - 1;
      var script, path := Script(files, payloads), files[i].path;
      DestinationIsWhole(hash, w, files, payloads, kills[..n], i);
      var before := Killed(hash, w, script, kills[..n]);
      if InFlight(before.row) {
        DestinationIsNoTemporary(files, i);
        NotATemporary(files, payloads, path);
        ScriptRenames(files, payloads);
        var m := CrashedFile(hash, before, script, kills[n].after, kills[n].torn, path);
        ScriptTouch(files, payloads, m, i);
      }
    }
  }

  /** Nothing but destinations and their temporary files is ever changed. */
  lemma {:induction false} NothingElseTouched(
      hash: Hash, w: World, files: seq<FileEntry>, payloads: Payloads, kills: seq<Kill>, path: Path)
    requires KillsFit(Script(files, payloads), kills)
    requires !InManifest(files, path) && !IsTemporary(files, path)
    ensures At(Killed(hash, w, Script(files, payloads), kills).disk, path) == At(w.disk, path)
  {
    hide Delivered, Script, Exec, Crash, InManifest, IsTemporary, Touch, InFlight;
    if kills != [] {
      var n := |kills| - 1;
      var script := Script(files, payloads);
      NothingElseTouched(hash, w, files, payloads, kills[..n], path);
      var before := Killed(hash, w, script, kills[..n]);
      if InFlight(before.row) {
        NotATemporary(files, payloads, path);
        ScriptRenames(files, payloads);
        var m := CrashedFile(hash, before, script, kills[n].after, kills[n].torn, path);
        ScriptElsewhere(files, payloads, m, path);
      }
    }
  }

  // ----- when a delivery completes

  /** What the destination holds once the files are written. */
  function ResultOf(file: FileEntry, payloads: Payloads, disk: Files): Option<Content> {
    match Approved(file, payloads)
    case Some(v) => v
    case None => At(disk, file.path)
  }

  /** Decided before the first write: the kept bytes hash to the approved digest, and a file whose bytes were
      not kept still has it. */
  predicate FileMatches(hash: Hash, disk: Files, file: FileEntry, payloads: Payloads) {
    if file.deleted then true
    else if file.path in payloads then file.digest == Some(hash(payloads[file.path]))
    else DigestAt(hash, disk, file.path) == file.digest
  }

  predicate AllMatch(hash: Hash, disk: Files, files: seq<FileEntry>, payloads: Payloads) {
    forall i :: 0 <= i < |files| ==> FileMatches(hash, disk, files[i], payloads)
  }

  /** Index and tree already hold what was approved. */
  predicate IsLanded(repo: Repository, disk: Files, files: seq<FileEntry>, payloads: Payloads) {
    forall i :: 0 <= i < |files| ==>
      ResultOf(files[i], payloads, disk) == At(repo.index, files[i].path) == At(repo.head, files[i].path)
  }

  /** Every path that is to be absent is still in the index. */
  predicate IsStageable(repo: Repository, disk: Files, files: seq<FileEntry>, payloads: Payloads) {
    forall i :: 0 <= i < |files| && ResultOf(files[i], payloads, disk).None? ==> files[i].path in repo.index
  }

  /** Every path that is to be absent is in the tree, and something differs from the tree. */
  predicate IsCommittable(repo: Repository, disk: Files, files: seq<FileEntry>, payloads: Payloads) {
    && (forall i :: 0 <= i < |files| && ResultOf(files[i], payloads, disk).None? ==> files[i].path in repo.head)
    && exists i :: 0 <= i < |files| && ResultOf(files[i], payloads, disk) != At(repo.head, files[i].path)
  }

  predicate Deliverable(hash: Hash, w: World, files: seq<FileEntry>, payloads: Payloads) {
    && files != [] && AllMatch(hash, w.disk, files, payloads)
    && (|| IsLanded(w.repo, w.disk, files, payloads)
        || (IsStageable(w.repo, w.disk, files, payloads) && IsCommittable(w.repo, w.disk, files, payloads)))
  }

  function DigestOf(hash: Hash, content: Option<Content>): Option<Digest> {
    match content case Some(c) => Some(hash(c)) case None => None
  }

  lemma MatchesResult(hash: Hash, disk: Files, file: FileEntry, payloads: Payloads)
    ensures
      FileMatches(hash, disk, file, payloads) <==> DigestOf(hash, ResultOf(file, payloads, disk)) == Expected(file)
  {}

  lemma DiskInTail(hash: Hash, w: World, files: seq<FileEntry>, payloads: Payloads, t: nat, i: nat)
    requires SeparatePaths(files) && i < |files|
    requires |WriteEffects(files, payloads)| <= t <= |Prelude(files, payloads)|
    requires Exec(hash, w, Prelude(files, payloads)[..t]).status == Running
    ensures
      var disk := Exec(hash, w, Prelude(files, payloads)[..t]).world.disk;
      && At(disk, files[i].path) == ResultOf(files[i], payloads, w.disk)
      && DigestAt(hash, disk, files[i].path) == DigestOf(hash, ResultOf(files[i], payloads, w.disk))
  {
    hide Delivered, WriteEffects, Script, Prelude, Exec, Touch, SeparatePaths, Approved;
    var script := Script(files, payloads);
    ScriptRenames(files, payloads);
    ScriptParts(files, payloads);
    assert Prelude(files, payloads)[..t] == script[..t];
    PrefixRenames(script, t);
    DiskAfter(hash, w, script[..t], files[i].path);
    TailTouchesNothing(files, payloads, t, files[i].path);
    assert files[..|files|] == files;
    WrittenAs(files, payloads, i, |files|);
  }

  lemma ConfirmedOnDisk(hash: Hash, w: World, files: seq<FileEntry>, payloads: Payloads, t: nat, i: nat)
    requires SeparatePaths(files) && i < |files| && IsConfirmed(files[i], payloads) && t <= |Prelude(files, payloads)|
    requires Exec(hash, w, Prelude(files, payloads)[..t]).status == Running
    ensures At(Exec(hash, w, Prelude(files, payloads)[..t]).world.disk, files[i].path) == At(w.disk, files[i].path)
  {
    hide Delivered, WriteEffects, Script, Prelude, Exec, Touch, SeparatePaths;
    var script := Script(files, payloads);
    ScriptRenames(files, payloads);
    ScriptParts(files, payloads);
    assert Prelude(files, payloads)[..t] == script[..t];
    PrefixRenames(script, t);
    DiskAfter(hash, w, script[..t], files[i].path);
    ConfirmedUntouched(files, payloads, i);
    if Touch(script[..t], files[i].path).Some? { TouchGrows(script, t, files[i].path); }
  }

  lemma VerifyAt(files: seq<FileEntry>, payloads: Payloads, i: nat) returns (t: nat)
    requires i < |files|
    ensures |WriteEffects(files, payloads)| <= t < |Prelude(files, payloads)|
    ensures Prelude(files, payloads)[t] == Verify(files[i], Delivered(files, payloads))
  {
    hide Delivered, WriteEffects, Script, Prelude, Tail;
    ScriptParts(files, payloads);
    TailParts(files, payloads);
    t := |WriteEffects(files, payloads)| + 1 + i;
    assert Prelude(files, payloads)[t] == Script(files, payloads)[t] == Tail(files, payloads)[1 + i];
  }

  lemma PreludeRunsOnlyIf(hash: Hash, w: World, files: seq<FileEntry>, payloads: Payloads)
    requires SeparatePaths(files) && Exec(hash, w, Prelude(files, payloads)).status == Running
    ensures AllMatch(hash, w.disk, files, payloads)
  {
    hide Delivered, WriteEffects, Prelude, Exec, SeparatePaths, ResultOf, FileMatches;
    var prelude := Prelude(files, payloads);
    forall i | 0 <= i < |files| ensures FileMatches(hash, w.disk, files[i], payloads) {
      var t := VerifyAt(files, payloads, i);
      RunsSoFar(hash, w, prelude, t);
      RunsSoFar(hash, w, prelude, t + 1);
      StepOf(hash, w, prelude, t);
      DiskInTail(hash, w, files, payloads, t, i);
      MatchesResult(hash, w.disk, files[i], payloads);
    }
  }

  /** Which effects of the prelude may throw, and at which file. */
  lemma Throwers(files: seq<FileEntry>, payloads: Payloads, t: nat)
    requires t < |Prelude(files, payloads)|
    ensures
      var e := Prelude(files, payloads)[t];
      && (e.Confirm? ==> ConfirmsKept(files, payloads, e) && t < |WriteEffects(files, payloads)|)
      && (e.Verify? ==>
            e.entry in files && |WriteEffects(files, payloads)| <= t && e.written == Delivered(files, payloads))
      && !e.Stage? && !e.CommitOnly?
  {
    hide Delivered, WriteEffects, Script, Prelude, Tail, WriteShape, ConfirmsKept;
    ScriptParts(files, payloads);
    TailParts(files, payloads);
    PreludeShape(files, payloads);
    assert files[..|files|] == files;
    WriteShapes(files, payloads, |files|);
    var n := |WriteEffects(files, payloads)|;
    var e := Prelude(files, payloads)[t];
    assert e == Script(files, payloads)[t];
    if t < n {
      assert e == WriteEffects(files, payloads)[t];
      WriteNeverVerifies(files, e);
    } else {
      assert e == Tail(files, payloads)[t - n];
      if n < t {
        var j := t - n - 1;
        assert Tail(files, payloads)[1 + j] == Verify(files[j], Delivered(files, payloads));
      }
    }
  }

  lemma WriteNeverVerifies(files: seq<FileEntry>, e: Effect)
    requires WriteShape(files, e)
    ensures !e.Verify?
  {}

  lemma EntryAt(files: seq<FileEntry>, entry: FileEntry) returns (i: nat)
    requires entry in files
    ensures i < |files| && files[i] == entry
  {
    i :| i < |files| && files[i] == entry;
  }

  lemma PreludeRunsIf(hash: Hash, w: World, files: seq<FileEntry>, payloads: Payloads)
    requires SeparatePaths(files) && AllMatch(hash, w.disk, files, payloads)
    ensures Exec(hash, w, Prelude(files, payloads)).status == Running
  {
    hide Delivered, WriteEffects, Prelude, Exec, SeparatePaths, ResultOf, FileMatches;
    var prelude := Prelude(files, payloads);
    StopAtIsFirst(hash, w, prelude);
    var t := StopAt(hash, w, prelude);
    if t < |prelude| {
      StepOf(hash, w, prelude, t);
      Throwers(files, payloads, t);
      var reached := Exec(hash, w, prelude[..t]).world;
      match prelude[t]
      case Confirm(path, digest) =>
        var i :|
          0 <= i < |files| && IsConfirmed(files[i], payloads) && files[i].path == path && files[i].digest == digest;
        ConfirmedOnDisk(hash, w, files, payloads, t, i);
        ConfirmedMatches(hash, w.disk, reached.disk, files[i], payloads);
      case Verify(entry, _) =>
        var i := EntryAt(files, entry);
        DiskInTail(hash, w, files, payloads, t, i);
        MatchesResult(hash, w.disk, files[i], payloads);
      case _ =>
    }
  }

  lemma ConfirmedMatches(hash: Hash, a: Files, b: Files, file: FileEntry, payloads: Payloads)
    requires FileMatches(hash, a, file, payloads) && IsConfirmed(file, payloads) && At(b, file.path) == At(a, file.path)
    ensures DigestAt(hash, b, file.path) == file.digest
  {}

  /** Where the paths hold their results, the questions git asks about them are questions about the results. */
  lemma GuardsOfResults(disk: Files, start: Files, repo: Repository, files: seq<FileEntry>, payloads: Payloads)
    requires forall i :: 0 <= i < |files| ==> At(disk, files[i].path) == ResultOf(files[i], payloads, start)
    ensures IsClean(disk, repo, PathsOf(files)) <==> IsLanded(repo, start, files, payloads)
    ensures CanStage(disk, repo, PathsOf(files)) <==> IsStageable(repo, start, files, payloads)
    ensures CanCommit(disk, Staged(disk, repo, PathsOf(files)), PathsOf(files)) <==>
              IsCommittable(repo, start, files, payloads)
  {
    hide ResultOf, Staged, Snapshot, CanCommit, CanStage, IsStageable, IsCommittable, PathsOf, At;
    PathsListed(files);
    StageableOfResults(disk, start, repo, files, payloads);
    CommittableOfResults(disk, start, repo, files, payloads);
  }

  lemma StageableOfResults(disk: Files, start: Files, repo: Repository, files: seq<FileEntry>, payloads: Payloads)
    requires forall i :: 0 <= i < |files| ==> At(disk, files[i].path) == ResultOf(files[i], payloads, start)
    ensures CanStage(disk, repo, PathsOf(files)) <==> IsStageable(repo, start, files, payloads)
  {
    hide ResultOf, PathsOf, At;
    PathsListed(files);
    forall i | 0 <= i < |files|
      ensures files[i].path in disk <==> ResultOf(files[i], payloads, start).Some?
    {
      AtOfKey(disk, files[i].path);
    }
  }

  lemma CommittableOfResults(disk: Files, start: Files, repo: Repository, files: seq<FileEntry>, payloads: Payloads)
    requires forall i :: 0 <= i < |files| ==> At(disk, files[i].path) == ResultOf(files[i], payloads, start)
    ensures CanCommit(disk, Staged(disk, repo, PathsOf(files)), PathsOf(files)) <==>
              IsCommittable(repo, start, files, payloads)
  {
    hide ResultOf, PathsOf, At, Staged, CanCommit;
    StagedKnows(disk, repo, PathsOf(files));
    PathsListed(files);
    forall i | 0 <= i < |files|
      ensures files[i].path in disk <==> ResultOf(files[i], payloads, start).Some?
    {
      AtOfKey(disk, files[i].path);
    }
  }

  lemma AtOfKey(files: Files, p: Path)
    ensures p in files <==> At(files, p).Some?
  {}

  lemma GuardsAfterPrelude(hash: Hash, w: World, repo: Repository, files: seq<FileEntry>, payloads: Payloads)
    requires SeparatePaths(files) && Exec(hash, w, Prelude(files, payloads)).status == Running
    ensures
      var disk, paths := Exec(hash, w, Prelude(files, payloads)).world.disk, PathsOf(files);
      && (forall i :: 0 <= i < |files| ==> At(disk, files[i].path) == ResultOf(files[i], payloads, w.disk))
      && (IsClean(disk, repo, paths) <==> IsLanded(repo, w.disk, files, payloads))
      && (CanStage(disk, repo, paths) <==> IsStageable(repo, w.disk, files, payloads))
      && (CanCommit(disk, Staged(disk, repo, paths), paths) <==> IsCommittable(repo, w.disk, files, payloads))
  {
    hide Delivered, WriteEffects, Prelude, Exec, SeparatePaths, ResultOf, Staged, Snapshot, CanCommit, CanStage,
      IsClean;
    hide IsLanded, IsStageable, IsCommittable;
    var prelude := Prelude(files, payloads);
    var disk := Exec(hash, w, prelude).world.disk;
    ScriptParts(files, payloads);
    assert prelude[..|prelude|] == prelude;
    forall i | 0 <= i < |files| ensures At(disk, files[i].path) == ResultOf(files[i], payloads, w.disk) {
      DiskInTail(hash, w, files, payloads, |prelude|, i);
    }
    GuardsOfResults(disk, w.disk, repo, files, payloads);
  }

  lemma PathsListed(files: seq<FileEntry>)
    ensures forall p :: p in PathsOf(files) ==> exists i :: 0 <= i < |files| && files[i].path == p
    ensures forall i :: 0 <= i < |files| ==> files[i].path in PathsOf(files)
  {
    forall i | 0 <= i < |files| ensures files[i].path in PathsOf(files) {
      assert PathsOf(files)[i] == files[i].path;
    }
  }

  /** A delivery completes exactly when there is something to deliver, every file matches beforehand, and the
      repository already holds the result or can take it: what is to be absent is in the index and in the tree, and
      something differs from the tree. */
  lemma CompletesExactly(hash: Hash, w: World, files: seq<FileEntry>, payloads: Payloads)
    requires SeparatePaths(files) && InFlight(w.row) && !w.committing
    ensures Exec(hash, w, Script(files, payloads)).status == Running <==> Deliverable(hash, w, files, payloads)
  {
    hide Exec, Script, Prelude, SeparatePaths, InFlight, Reached, IsClean, CanStage, CanCommit, Staged, Committed;
    hide AllMatch, IsLanded, IsStageable, IsCommittable;
    StartsOnCourse(hash, w, files, payloads);
    CourseEnds(hash, w, w, files, payloads);
    if AllMatch(hash, w.disk, files, payloads) { PreludeRunsIf(hash, w, files, payloads); }
    if Exec(hash, w, Prelude(files, payloads)).status == Running {
      PreludeRunsOnlyIf(hash, w, files, payloads);
      GuardsAfterPrelude(hash, w, w.repo, files, payloads);
    }
  }

  // ----- recovery

  /** Whatever kills came before: the recovery of a delivery that would have completed does complete, and ends
      exactly as the uninterrupted run, if and only if every path to be absent is still in the index of the
      repository it finds, or nothing is left to commit there. Otherwise every recovery fails alike, for good. */
  lemma RecoversExactlyIf(hash: Hash, w: World, files: seq<FileEntry>, payloads: Payloads, kills: seq<Kill>)
    requires SeparatePaths(files) && KillsFit(Script(files, payloads), kills) && InFlight(w.row) && !w.committing
    requires Deliverable(hash, w, files, payloads)
    requires InFlight(Killed(hash, w, Script(files, payloads), kills).row)
    ensures
      var script := Script(files, payloads);
      var v := Killed(hash, w, script, kills);
      && (Exec(hash, v, script).status == Running <==>
            IsStageable(v.repo, w.disk, files, payloads) || IsLanded(v.repo, w.disk, files, payloads))
      && (Exec(hash, v, script).status == Running ==> Exec(hash, v, script) == Exec(hash, w, script))
      && (Exec(hash, v, script).status != Running ==>
            IsStuck(hash, Exec(hash, v, script).world, script) && Exec(hash, v, script).world.repo == v.repo)
  {
    hide Exec, Script, Prelude, Killed, SeparatePaths, InFlight, OnCourse, IsOver, IsStuck;
    hide Deliverable, IsStageable, IsLanded, IsCommittable, IsClean, CanStage, CanCommit, Staged;
    var v := Killed(hash, w, Script(files, payloads), kills);
    KilledOnCourse(hash, w, files, payloads, kills);
    NotBoth(hash, w, v, files, payloads);
    CompletesExactly(hash, w, files, payloads);
    CourseResumes(hash, w, v, files, payloads);
    GuardsAfterPrelude(hash, w, v.repo, files, payloads);
  }

  /** A delivery that is over by itself ended as the uninterrupted run. */
  lemma OverIsDone(hash: Hash, w: World, files: seq<FileEntry>, payloads: Payloads, kills: seq<Kill>)
    requires SeparatePaths(files) && KillsFit(Script(files, payloads), kills) && InFlight(w.row) && !w.committing
    requires Deliverable(hash, w, files, payloads)
    requires !InFlight(Killed(hash, w, Script(files, payloads), kills).row)
    ensures Killed(hash, w, Script(files, payloads), kills) == Exec(hash, w, Script(files, payloads)).world
  {
    hide Exec, Script, Prelude, Killed, SeparatePaths, InFlight, Deliverable, IsClean, CanStage, CanCommit, Snapshot;
    var v := Killed(hash, w, Script(files, payloads), kills);
    KilledOnCourse(hash, w, files, payloads, kills);
    NotBoth(hash, w, v, files, payloads);
    CompletesExactly(hash, w, files, payloads);
    StartsOnCourse(hash, w, files, payloads);
    CourseResumes(hash, w, w, files, payloads);
    CourseEnds(hash, w, w, files, payloads);
    var g := Exec(hash, w, Prelude(files, payloads)).world;
    PreludeShape(files, payloads);
    RepositoryApart(hash, w, w.repo, Prelude(files, payloads));
    LandedOnce(g, v.repo, PathsOf(files), Delivered(files, payloads));
  }

  lemma LandedOnce(g: World, repo: Repository, paths: seq<Path>, written: seq<Path>)
    requires Land(g, paths, written).status == Running && Reached(g.disk, g.repo, repo, paths)
    requires IsClean(g.disk, repo, paths)
    ensures Land(g, paths, written).world == g.(repo := repo, row := Some(Row(Completed, written)))
  {
    hide Snapshot;
    StagedTwice(g.disk, g.repo, paths);
    StagedKnows(g.disk, g.repo, paths);
  }

  /** No path is to be absent. */
  predicate NothingAbsent(disk: Files, files: seq<FileEntry>, payloads: Payloads) {
    forall i :: 0 <= i < |files| ==> ResultOf(files[i], payloads, disk).Some?
  }

  lemma RecoversWithoutDeletions(hash: Hash, w: World, files: seq<FileEntry>, payloads: Payloads, kills: seq<Kill>)
    requires SeparatePaths(files) && KillsFit(Script(files, payloads), kills) && InFlight(w.row) && !w.committing
    requires Deliverable(hash, w, files, payloads)
    requires NothingAbsent(w.disk, files, payloads) || IsLanded(w.repo, w.disk, files, payloads)
    ensures
      var script := Script(files, payloads);
      Recover(hash, Killed(hash, w, script, kills), script) == Exec(hash, w, script).world
  {
    hide Exec, Script, Prelude, Killed, SeparatePaths, InFlight, OnCourse, IsOver, IsStuck, ResultOf;
    hide Deliverable, IsLanded, IsCommittable;
    var v := Killed(hash, w, Script(files, payloads), kills);
    if InFlight(v.row) {
      RecoversExactlyIf(hash, w, files, payloads, kills);
      if IsLanded(w.repo, w.disk, files, payloads) { LandedStays(hash, w, files, payloads, kills); }
    } else {
      OverIsDone(hash, w, files, payloads, kills);
    }
  }

  lemma LandedStays(hash: Hash, w: World, files: seq<FileEntry>, payloads: Payloads, kills: seq<Kill>)
    requires SeparatePaths(files) && KillsFit(Script(files, payloads), kills) && InFlight(w.row) && !w.committing
    requires Deliverable(hash, w, files, payloads) && IsLanded(w.repo, w.disk, files, payloads)
    ensures Killed(hash, w, Script(files, payloads), kills).repo == w.repo
  {
    hide Exec, Script, Prelude, Killed, SeparatePaths, InFlight, IsLanded, IsStageable, IsCommittable, Staged,
      Committed;
    hide IsClean, CanStage, CanCommit;
    KilledOnCourse(hash, w, files, payloads, kills);
    PreludeRunsIf(hash, w, files, payloads);
    GuardsAfterPrelude(hash, w, w.repo, files, payloads);
  }

  /** Killed between `git add` and `git commit`, a delivery that removes a path never recovers: the path is in
      neither the working tree nor the index any more, and `git add` refuses it every time. */
  lemma StagedDeletionIsStuck(hash: Hash, w: World, files: seq<FileEntry>, payloads: Payloads, i: nat)
    requires SeparatePaths(files) && InFlight(w.row) && !w.committing
    requires Deliverable(hash, w, files, payloads) && !IsLanded(w.repo, w.disk, files, payloads)
    requires i < |files| && ResultOf(files[i], payloads, w.disk).None?
    ensures
      var script, kills := Script(files, payloads), [Kill(|Prelude(files, payloads)| + 1, None)];
      && KillsFit(script, kills)
      && IsStuck(hash, Recover(hash, Killed(hash, w, script, kills), script), script)
      && Recover(hash, Killed(hash, w, script, kills), script).repo.head == w.repo.head
  {
    hide Exec, Script, Prelude, SeparatePaths, InFlight, OnCourse, IsOver, IsStuck, ResultOf, Crash, Delivered;
    hide IsCommittable, IsClean, CanStage, CanCommit, Snapshot, AllMatch;
    var script, n := Script(files, payloads), |Prelude(files, payloads)|;
    var kills := [Kill(n + 1, None)];
    ScriptParts(files, payloads);
    var v := Killed(hash, w, script, kills);
    KilledAfterStaging(hash, w, files, payloads);
    KilledOnlyOnce(hash, w, script, Kill(n + 1, None));
    var g := Exec(hash, w, Prelude(files, payloads)).world;
    RecoversExactlyIf(hash, w, files, payloads, kills);
    GuardsAfterPrelude(hash, w, w.repo, files, payloads);
    GuardsAfterPrelude(hash, w, v.repo, files, payloads);
    StagedKnows(g.disk, w.repo, PathsOf(files));
    PathsListed(files);
    assert files[i].path in PathsOf(files) && At(g.disk, files[i].path) == None;
  }

  lemma KilledOnlyOnce(hash: Hash, w: World, script: seq<Effect>, kill: Kill)
    requires kill.after <= |script| && InFlight(w.row)
    ensures Killed(hash, w, script, [kill]) == Crash(hash, w, script, kill.after, kill.torn)
  {
    hide Crash, InFlight;
    assert [kill][..0] == [];
  }

  lemma KilledAfterStaging(hash: Hash, w: World, files: seq<FileEntry>, payloads: Payloads)
    requires SeparatePaths(files) && InFlight(w.row) && !w.committing
    requires Deliverable(hash, w, files, payloads) && !IsLanded(w.repo, w.disk, files, payloads)
    ensures |Prelude(files, payloads)| + 1 <= |Script(files, payloads)|
    ensures
      var g := Exec(hash, w, Prelude(files, payloads)).world;
      && Exec(hash, w, Prelude(files, payloads)).status == Running && InFlight(g.row)
      && CanCommit(g.disk, Staged(g.disk, w.repo, PathsOf(files)), PathsOf(files))
      && Crash(hash, w, Script(files, payloads), |Prelude(files, payloads)| + 1, None)
           == g.(repo := Staged(g.disk, w.repo, PathsOf(files)))
  {
    hide Exec, Script, Prelude, SeparatePaths, InFlight, IsStageable, IsLanded, IsCommittable, Snapshot, AllMatch;
    hide IsClean, CanStage, CanCommit;
    var prelude, landing := Prelude(files, payloads), Landing(PathsOf(files), Delivered(files, payloads));
    ScriptParts(files, payloads);
    ScriptIsPreludeAndLanding(files, payloads);
    PreludeRunsIf(hash, w, files, payloads);
    GuardsAfterPrelude(hash, w, w.repo, files, payloads);
    PreludeAgain(hash, w, files, payloads);
    CrashBeyond(hash, w, prelude, landing, 1, None);
    FirstOfLanding(hash, Exec(hash, w, prelude).world, PathsOf(files), Delivered(files, payloads));
  }

  /** A deliverable candidate ends as an uninterrupted delivery after every history of kills, exactly when it removes
      nothing or is in the repository already. */
  lemma AlwaysRecoversIff(hash: Hash, w: World, files: seq<FileEntry>, payloads: Payloads)
    requires SeparatePaths(files) && InFlight(w.row) && !w.committing && Deliverable(hash, w, files, payloads)
    ensures
      (forall kills :: KillsFit(Script(files, payloads), kills) ==> RecoversFrom(hash, w, files, payloads, kills)) <==>
        NothingAbsent(w.disk, files, payloads) || IsLanded(w.repo, w.disk, files, payloads)
  {
    hide Exec, Script, Prelude, Killed, SeparatePaths, InFlight, ResultOf, Deliverable, IsLanded;
    if NothingAbsent(w.disk, files, payloads) || IsLanded(w.repo, w.disk, files, payloads) {
      forall kills | KillsFit(Script(files, payloads), kills) ensures RecoversFrom(hash, w, files, payloads, kills) {
        RecoversWithoutDeletions(hash, w, files, payloads, kills);
      }
    } else {
      var i :| 0 <= i < |files| && ResultOf(files[i], payloads, w.disk).None?;
      StagedDeletionIsStuck(hash, w, files, payloads, i);
      CompletesExactly(hash, w, files, payloads);
      var kills := [Kill(|Prelude(files, payloads)| + 1, None)];
      var end := Recover(hash, Killed(hash, w, Script(files, payloads), kills), Script(files, payloads));
      if end == Exec(hash, w, Script(files, payloads)).world { RunIsOver(hash, w, files, payloads); }
    }
  }

  ghost predicate RecoversFrom(hash: Hash, w: World, files: seq<FileEntry>, payloads: Payloads, kills: seq<Kill>)
    requires KillsFit(Script(files, payloads), kills)
  {
    var script := Script(files, payloads);
    Recover(hash, Killed(hash, w, script, kills), script) == Exec(hash, w, script).world
  }

  // ----- what a completed row says

  ghost predicate IsCompleted(w: World) {
    w.row.Some? && w.row.value.state == Completed
  }

  lemma RunIsOver(hash: Hash, w: World, files: seq<FileEntry>, payloads: Payloads)
    requires SeparatePaths(files) && InFlight(w.row) && !w.committing
    requires Exec(hash, w, Script(files, payloads)).status == Running
    ensures IsCompleted(Exec(hash, w, Script(files, payloads)).world)
    ensures !InFlight(Exec(hash, w, Script(files, payloads)).world.row)
  {
    hide Exec, Script, Prelude, SeparatePaths, IsClean, CanStage, CanCommit, Snapshot, Reached;
    StartsOnCourse(hash, w, files, payloads);
    CourseEnds(hash, w, w, files, payloads);
  }

  /** Whenever the row says completed, each file matches its approved digest on disk and in the commit. */
  lemma CompletedMatches(
    hash: Hash, w: World, files: seq<FileEntry>, payloads: Payloads, kills: seq<Kill>, i: nat)
    requires SeparatePaths(files) && KillsFit(Script(files, payloads), kills) && InFlight(w.row) && !w.committing
    requires i < |files| && IsCompleted(Killed(hash, w, Script(files, payloads), kills))
    ensures
      var v := Killed(hash, w, Script(files, payloads), kills);
      && DigestAt(hash, v.disk, files[i].path) == Expected(files[i])
      && At(v.repo.head, files[i].path) == At(v.disk, files[i].path) == At(v.repo.index, files[i].path)
  {
    hide Delivered, Script, Prelude, Exec, Killed, SeparatePaths, ResultOf, FileMatches, Reached;
    var v := Killed(hash, w, Script(files, payloads), kills);
    KilledOnCourse(hash, w, files, payloads, kills);
    NotBoth(hash, w, v, files, payloads);
    if Exec(hash, w, Prelude(files, payloads)).status != Running {
      ThrownIsNotCompleted(hash, w, files, payloads);
    }
    PreludeRunsOnlyIf(hash, w, files, payloads);
    GuardsAfterPrelude(hash, w, v.repo, files, payloads);
    MatchesResult(hash, w.disk, files[i], payloads);
    PathsListed(files);
    DigestOfAt(hash, v.disk, files[i].path);
  }

  lemma DigestOfAt(hash: Hash, disk: Files, path: Path)
    ensures DigestAt(hash, disk, path) == DigestOf(hash, At(disk, path))
  {}

  lemma ThrownIsNotCompleted(hash: Hash, w: World, files: seq<FileEntry>, payloads: Payloads)
    requires SeparatePaths(files) && InFlight(w.row) && Exec(hash, w, Prelude(files, payloads)).status != Running
    ensures !IsCompleted(Exec(hash, w, Prelude(files, payloads)).world)
  {
    hide Exec, Prelude, ReadsSettled, RenamesFollowWrites, NoGit, RecordsInFlight;
    var prelude := Prelude(files, payloads);
    PreludeReplayable(files, payloads);
    StopAtIsFirst(hash, w, prelude);
    var k := StopAt(hash, w, prelude);
    StepOf(hash, w, prelude, k);
    ThrewStays(hash, w, prelude, k + 1);
    RowAfter(hash, w, prelude[..k]);
    RowInFlight(prelude, k, w.row);
    NeverThrowsCompleted(hash, Exec(hash, w, prelude[..k]).world, prelude[k]);
  }

  lemma NeverThrowsCompleted(hash: Hash, w: World, e: Effect)
    requires Step(hash, w, e).status != Running && InFlight(w.row)
    ensures !IsCompleted(Step(hash, w, e).world)
  {}

  // ----- one commit at most

  /** However often it is killed and recovered, a delivery makes at most one commit. */
  lemma OneCommitAtMost(hash: Hash, w: World, files: seq<FileEntry>, payloads: Payloads, kills: seq<Kill>)
    requires SeparatePaths(files) && KillsFit(Script(files, payloads), kills) && InFlight(w.row) && !w.committing
    ensures
      var v := Killed(hash, w, Script(files, payloads), kills);
      var recovered := Recover(hash, v, Script(files, payloads));
      w.repo.revision <= v.repo.revision <= recovered.repo.revision <= w.repo.revision + 1
  {
    hide Delivered, Script, Prelude, Exec, Killed, SeparatePaths, InFlight, Reached, Land;
    var v := Killed(hash, w, Script(files, payloads), kills);
    var first := Exec(hash, w, Prelude(files, payloads));
    KilledOnCourse(hash, w, files, payloads, kills);
    NotBoth(hash, w, v, files, payloads);
    PreludeShape(files, payloads);
    RepositoryApart(hash, w, w.repo, Prelude(files, payloads));
    RevisionOfReached(first.world.disk, w.repo, v.repo, PathsOf(files));
    if InFlight(v.row) {
      CourseEnds(hash, w, v, files, payloads);
      if first.status == Running {
        var g := first.world.(repo := v.repo);
        var end := Land(g, PathsOf(files), Delivered(files, payloads)).world;
        LandReaches(g, PathsOf(files), Delivered(files, payloads));
        ReachedTransitive(g.disk, w.repo, v.repo, end.repo, PathsOf(files));
        RevisionOfReached(g.disk, w.repo, end.repo, PathsOf(files));
        RevisionOfReached(g.disk, v.repo, end.repo, PathsOf(files));
      }
    }
  }

  lemma RevisionOfReached(disk: Files, r0: Repository, r: Repository, paths: seq<Path>)
    ensures Reached(disk, r0, r, paths) ==> r0.revision <= r.revision <= r0.revision + 1
  {
    hide Snapshot, IsClean, CanStage, CanCommit;
  }

  lemma LandReaches(g: World, paths: seq<Path>, written: seq<Path>)
    ensures Reached(g.disk, g.repo, Land(g, paths, written).world.repo, paths)
  {
    hide Snapshot, IsClean, CanStage, CanCommit;
  }
}
