/** The program text of a promotion: loops over the manifest that change the working tree, the repository and
    the journal one effect at a time, proved equal to the script. */
module Delivery {
  import opened Sequences
  import opened Bytes
  import opened DeliverySteps
  import opened DeliveryReplay
  import opened DeliveryRecovery
  import opened DeliveryLanding
  import opened DeliveryGuarantees
  import opened DeliveryPromotion
  import opened DeliveryOutcomes

  /** How a call ends: by returning, by throwing, or because the process is killed inside it. */
  datatype Ending = Returned | Raised(error: DeliveryError) | Dead

  ghost predicate SameEnding(ending: Ending, status: Status) {
    match status
    case Running => ending == Returned
    case Threw(error) => ending == Raised(error)
  }

  lemma ExecNext(hash: Hash, w: World, done: seq<Effect>, e: Effect)
    requires Exec(hash, w, done).status == Running
    ensures Exec(hash, w, done + [e]) == Step(hash, Exec(hash, w, done).world, e)
  {
    assert (done + [e])[..|done + [e]| - 1] == done;
  }

  class Promotion {
    const hash: Hash
    var disk: Files
    var index: Files
    var head: Files
    var revision: nat
    var row: Option<Row>
    /** The local knowledge of `commitCandidate` that the paths have just been staged. */
    var committing: bool
    /** How many more effects the process lives for, and how much of a file it writes while it is killed. */
    var life: nat
    const torn: Option<nat>
    ghost var start: World
    ghost var done: seq<Effect>

    constructor (hash: Hash, w: World, life: nat, torn: Option<nat>)
      ensures this.hash == hash && Now() == w && this.life == life && this.torn == torn
      ensures start == w && done == []
    {
      this.hash := hash;
      disk, index, head, revision := w.disk, w.repo.index, w.repo.head, w.repo.revision;
      row, committing := w.row, w.committing;
      this.life := life;
      this.torn := torn;
      start := w;
      done := [];
    }

    ghost function Now(): World
      reads this
    {
      World(disk, Repository(index, head, revision), row, committing)
    }

    /** The effects done so far ran without throwing and led here. */
    ghost predicate OnTrack()
      reads this
    {
      Exec(hash, start, done) == Outcome(Now(), Running)
    }

    /** The process died when `e` was next. */
    ghost predicate DiedBefore(e: Effect)
      reads this
    {
      && life == 0
      && Exec(hash, start, done).status == Running
      && var reached := Exec(hash, start, done).world;
         Now() == Died(if torn.Some? && e.WriteTemporary? then Torn(reached, e, torn.value) else reached)
    }

    /** With `life0` effects left to live after `done0`, `e` was tried. */
    ghost predicate Did(done0: seq<Effect>, life0: nat, e: Effect, ending: Ending)
      reads this
    {
      if life0 == 0 then ending == Dead && life == 0 && done == done0 && DiedBefore(e)
      else
        && life == life0 - 1 && done == done0 + [e]
        && SameEnding(ending, Exec(hash, start, done).status)
        && Now() == Exec(hash, start, done).world
    }

    /** `rm(target, { force: true })` */
    method RemoveFile(path: Path) returns (ending: Ending)
      requires OnTrack()
      modifies this
      ensures start == old(start) && Did(old(done), old(life), Remove(path), ending)
    {
      hide Exec;
      if life == 0 {
        committing := false;
        return Dead;
      }
      ExecNext(hash, start, done, Remove(path));
      life := life - 1;
      disk := disk - {path};
      done := done + [Remove(path)];
      return Returned;
    }

    /** `writeFile(temporary, bytes)` */
    method WriteTemporaryFile(path: Path, content: Content) returns (ending: Ending)
      requires OnTrack()
      modifies this
      ensures start == old(start) && Did(old(done), old(life), WriteTemporary(path, content), ending)
    {
      hide Exec;
      if life == 0 {
        if torn.Some? {
          disk := disk[Temporary(path) := content[..Least(torn.value, |content|)]];
        }
        committing := false;
        return Dead;
      }
      ExecNext(hash, start, done, WriteTemporary(path, content));
      life := life - 1;
      disk := disk[Temporary(path) := content];
      done := done + [WriteTemporary(path, content)];
      return Returned;
    }

    /** `rename(temporary, target)` */
    method RenameFile(path: Path) returns (ending: Ending)
      requires OnTrack()
      modifies this
      ensures start == old(start) && Did(old(done), old(life), Rename(path), ending)
    {
      hide Exec;
      if life == 0 {
        committing := false;
        return Dead;
      }
      ExecNext(hash, start, done, Rename(path));
      life := life - 1;
      disk := Moved(disk, path);
      done := done + [Rename(path)];
      return Returned;
    }

    /** A file whose bytes were not kept. */
    method ConfirmFile(path: Path, digest: Option<Digest>) returns (ending: Ending)
      requires OnTrack()
      modifies this
      ensures start == old(start) && Did(old(done), old(life), Confirm(path, digest), ending)
    {
      hide Exec;
      if life == 0 {
        committing := false;
        return Dead;
      }
      ExecNext(hash, start, done, Confirm(path, digest));
      life := life - 1;
      done := done + [Confirm(path, digest)];
      if DigestAt(hash, disk, path) != digest { return Raised(NoLongerMatches(path)); }
      return Returned;
    }

    method Record(state: DeliveryState, written: seq<Path>) returns (ending: Ending)
      requires OnTrack()
      modifies this
      ensures start == old(start) && Did(old(done), old(life), Journal(state, written), ending)
    {
      hide Exec;
      if life == 0 {
        committing := false;
        return Dead;
      }
      ExecNext(hash, start, done, Journal(state, written));
      life := life - 1;
      row := Some(Row(state, written));
      done := done + [Journal(state, written)];
      return Returned;
    }

    /** Compare one delivered file with its approved digest; a mismatch aborts the delivery. */
    method VerifyFile(entry: FileEntry, written: seq<Path>) returns (ending: Ending)
      requires OnTrack()
      modifies this
      ensures start == old(start) && Did(old(done), old(life), Verify(entry, written), ending)
    {
      hide Exec;
      if life == 0 {
        committing := false;
        return Dead;
      }
      ExecNext(hash, start, done, Verify(entry, written));
      life := life - 1;
      done := done + [Verify(entry, written)];
      if DigestAt(hash, disk, entry.path) != Expected(entry) {
        row := Some(Row(Aborted, written));
        return Raised(NotVerified(entry.path));
      }
      return Returned;
    }

    /** `git status` and `git add` on the paths. */
    method StageFiles(paths: seq<Path>) returns (ending: Ending)
      requires OnTrack()
      modifies this
      ensures start == old(start) && Did(old(done), old(life), Stage(paths), ending)
    {
      hide Exec, Snapshot, At;
      if life == 0 {
        committing := false;
        return Dead;
      }
      ExecNext(hash, start, done, Stage(paths));
      life := life - 1;
      done := done + [Stage(paths)];
      if paths == [] { return Raised(NothingToCommit); }
      if forall p :: p in paths ==> At(disk, p) == At(index, p) == At(head, p) { return Returned; }
      if exists p :: p in paths && p !in disk && p !in index { return Raised(NotStaged); }
      index := Snapshot(index, disk, paths);
      committing := true;
      return Returned;
    }

    /** `git commit --only`, unless the status was clean. */
    method CommitFiles(paths: seq<Path>) returns (ending: Ending)
      requires OnTrack()
      modifies this
      ensures start == old(start) && Did(old(done), old(life), CommitOnly(paths), ending)
    {
      hide Exec, Snapshot, At;
      var staged := committing;
      committing := false;
      if life == 0 { return Dead; }
      ExecNext(hash, start, done, CommitOnly(paths));
      life := life - 1;
      done := done + [CommitOnly(paths)];
      if !staged { return Returned; }
      var unknown := exists p :: p in paths && p !in index && p !in head;
      var nothing := forall p :: p in paths ==> At(disk, p) == At(head, p);
      if unknown || nothing { return Raised(NotCommitted); }
      index, head := Snapshot(index, disk, paths), Snapshot(head, disk, paths);
      revision := revision + 1;
      return Returned;
    }

    /** Where a call that did not return left things: `script` is cut off, by a throw or by a kill. */
    ghost predicate CutOff(script: seq<Effect>, ending: Ending)
      reads this
    {
      && done <= script
      && match ending
         case Returned => false
         case Raised(error) => Exec(hash, start, done) == Outcome(Now(), Threw(error))
         case Dead => |done| < |script| && DiedBefore(script[|done|])
    }

    /** One effect of the script done: either it is the next prefix, or the script is cut off here. */
    lemma Advance(script: seq<Effect>, done0: seq<Effect>, life0: nat, e: Effect, ending: Ending)
      requires done0 + [e] <= script && Did(done0, life0, e, ending)
      ensures life + |done| == life0 + |done0|
      ensures ending == Returned ==> OnTrack() && done == done0 + [e]
      ensures ending != Returned ==> CutOff(script, ending)
    {
      hide Exec;
      if life0 == 0 {
        assert (done0 + [e])[|done0|] == e;
      }
    }

    /** The first loop of `write`. */
    method WriteFiles(files: seq<FileEntry>, payloads: Payloads) returns (ending: Ending, delivered: seq<Path>)
      requires OnTrack() && done == []
      modifies this
      ensures start == old(start) && life + |done| == old(life)
      ensures ending == Returned ==>
                && OnTrack() && done == WriteEffects(files, payloads)
                && delivered == Delivered(files, payloads)
      ensures ending != Returned ==> CutOff(Script(files, payloads), ending)
    {
      hide Exec, Script, Did, OnTrack, CutOff;
      delivered := [];
      ending := Returned;
      for i := 0 to |files|
        invariant start == old(start) && OnTrack() && ending == Returned
        invariant life + |done| == old(life)
        invariant done == WriteEffects(files[..i], payloads) && delivered == Delivered(files[..i], payloads)
      {
        ending, delivered := WriteOne(files, payloads, i, delivered);
        if ending != Returned { return; }
      }
      assert files[..|files|] == files;
    }

    method WriteOne(files: seq<FileEntry>, payloads: Payloads, i: nat, before: seq<Path>)
      returns (ending: Ending, delivered: seq<Path>)
      requires OnTrack() && i < |files|
      requires done == WriteEffects(files[..i], payloads) && before == Delivered(files[..i], payloads)
      modifies this
      ensures start == old(start) && life + |done| == old(life) + |old(done)|
      ensures ending == Returned ==>
                && OnTrack() && done == WriteEffects(files[..i + 1], payloads)
                && delivered == Delivered(files[..i + 1], payloads)
      ensures ending != Returned ==> CutOff(Script(files, payloads), ending)
    {
      hide Exec, Script, WriteEffects, Did, OnTrack, CutOff;
      var file := files[i];
      ghost var script := Script(files, payloads);
      delivered := if file.deleted || file.path in payloads then before + [file.path] else before;
      assert delivered == Delivered(files[..i + 1], payloads) by { assert files[..i + 1][..i] == files[..i]; }
      WriteEffectsNext(files, payloads, i);
      FirstFiles(files, payloads, i + 1);
      if file.deleted {
        ending := RemoveOne(script, file.path);
      } else if file.path !in payloads {
        ending := ConfirmOne(script, file.path, file.digest);
      } else {
        ending := WritePayload(script, file.path, payloads[file.path], delivered);
      }
    }

    method RemoveOne(ghost script: seq<Effect>, path: Path) returns (ending: Ending)
      requires OnTrack() && done + [Remove(path)] <= script
      modifies this
      ensures start == old(start) && life + |done| == old(life) + |old(done)|
      ensures ending == Returned ==> OnTrack() && done == old(done) + [Remove(path)]
      ensures ending != Returned ==> CutOff(script, ending)
    {
      hide Exec, Did, OnTrack, CutOff;
      ending := RemoveFile(path);
      Advance(script, old(done), old(life), Remove(path), ending);
    }

    method ConfirmOne(ghost script: seq<Effect>, path: Path, digest: Option<Digest>) returns (ending: Ending)
      requires OnTrack() && done + [Confirm(path, digest)] <= script
      modifies this
      ensures start == old(start) && life + |done| == old(life) + |old(done)|
      ensures ending == Returned ==> OnTrack() && done == old(done) + [Confirm(path, digest)]
      ensures ending != Returned ==> CutOff(script, ending)
    {
      hide Exec, Did, OnTrack, CutOff;
      ending := ConfirmFile(path, digest);
      Advance(script, old(done), old(life), Confirm(path, digest), ending);
    }

    /** Write beside the destination, rename over it, and record what is delivered so far. */
    method WritePayload(ghost script: seq<Effect>, path: Path, content: Content, delivered: seq<Path>)
      returns (ending: Ending)
      requires OnTrack()
      requires done + [WriteTemporary(path, content), Rename(path), Journal(Prepared, delivered)] <= script
      modifies this
      ensures start == old(start) && life + |done| == old(life) + |old(done)|
      ensures ending == Returned ==>
                && OnTrack()
                && done == old(done) + [WriteTemporary(path, content), Rename(path), Journal(Prepared, delivered)]
      ensures ending != Returned ==> CutOff(script, ending)
    {
      hide Exec, Did, OnTrack, CutOff;
      ThreeSteps(script, done, WriteTemporary(path, content), Rename(path), Journal(Prepared, delivered));
      ghost var done0, life0 := done, life;
      ending := WriteTemporaryFile(path, content);
      Advance(script, done0, life0, WriteTemporary(path, content), ending);
      if ending != Returned { return; }
      ghost var done1, life1 := done, life;
      ending := RenameFile(path);
      Advance(script, done1, life1, Rename(path), ending);
      if ending != Returned { return; }
      ghost var done2, life2 := done, life;
      ending := Record(Prepared, delivered);
      Advance(script, done2, life2, Journal(Prepared, delivered), ending);
    }

    /** `write`: the whole promotion, killed after `life` effects if it lasts that long. */
    method Write(files: seq<FileEntry>, payloads: Payloads) returns (ending: Ending)
      requires OnTrack() && done == []
      modifies this
      ensures start == old(Now())
      ensures
        var script := Script(files, payloads);
        Now() == Crash(hash, old(Now()), script, Least(old(life), |script|), torn)
      ensures ending != Dead ==> SameEnding(ending, Exec(hash, old(Now()), Script(files, payloads)).status)
      ensures ending == Dead <==>
                && old(life) < |Script(files, payloads)|
                && Exec(hash, old(Now()), Script(files, payloads)[..old(life)]).status == Running
    {
      hide Exec, Script, WriteEffects, Did, OnTrack, CutOff, Tail;
      ghost var script := Script(files, payloads);
      StartsHere();
      var delivered;
      ending, delivered := WriteFiles(files, payloads);
      if ending == Returned {
        ending := Finish(files, payloads, delivered);
      }
      Concluded(script, ending, old(life));
      committing := false;
    }

    /** `assertUnchanged`: compare every listed change with the approved files. */
    method AssertUnchanged(base: nat, files: seq<FileEntry>, origins: set<Path>) returns (error: Option<DeliveryError>)
      ensures error.None? <==> Unchanged(hash, Now(), base, files, origins)
      ensures error.Some? ==> error.value == if revision != base then BaseMoved else ChangedAfterApproval
    {
      if revision != base { return Some(BaseMoved); }
      var listed := ChangedFiles(origins);
      var rest := listed;
      while rest != {}
        invariant rest <= listed
        invariant forall p :: p in listed && p !in rest ==> ApprovedChange(hash, disk, files, p)
      {
        var p :| p in rest;
        if !exists i :: 0 <= i < |files| && files[i].path == p && DigestAt(hash, disk, p) == files[i].digest {
          assert !ApprovedChange(hash, disk, files, p);
          assert IsListed(Now(), origins, p);
          return Some(ChangedAfterApproval);
        }
        rest := rest - {p};
      }
      return None;
    }

    /** `changedFiles`: what the status lists once the origins of renames are dropped. */
    method ChangedFiles(origins: set<Path>) returns (listed: set<Path>)
      ensures forall p :: p in listed <==> IsListed(Now(), origins, p)
    {
      listed := set p | p in disk.Keys + index.Keys + head.Keys
                        && !(At(disk, p) == At(index, p) == At(head, p)) && !(p in origins && p !in disk);
    }

    /** `promote`: compare with what was approved, record the intent, then write. */
    method Promote(base: nat, files: seq<FileEntry>, payloads: Payloads, origins: set<Path>) returns (ending: Ending)
      modifies this
      ensures !Unchanged(hash, old(Now()), base, files, origins) ==>
                && Now() == old(Now())
                && ending == Raised(if old(revision) != base then BaseMoved else ChangedAfterApproval)
      ensures Unchanged(hash, old(Now()), base, files, origins) && old(life) == 0 ==>
                Now() == old(Now()) && ending == Dead
      ensures Unchanged(hash, old(Now()), base, files, origins) && old(life) > 0 ==>
                && Now() == CrashOf(old(Now()), files, payloads, old(life) - 1)
                && (ending != Dead ==>
                      SameEnding(ending, Exec(hash, Promised(old(Now())), Script(files, payloads)).status))
      ensures old(revision) == base && EditedSince(hash, old(Now()), files, origins) ==>
                ending == Raised(ChangedAfterApproval) && Now() == old(Now())
      ensures ending == Returned && SeparatePaths(files) && AbsentWithoutDigest(files) && !old(committing) ==>
                forall p :: IsListed(old(Now()), origins, p) ==> DigestAt(hash, disk, p) == DigestAt(hash, old(disk), p)
    {
      hide Unchanged, Script, Crash, EditedSince, IsListed, SeparatePaths, AbsentWithoutDigest;
      var error := AssertUnchanged(base, files, origins);
      EditedIsRefused(hash, Now(), base, files, origins);
      if error.Some? { return Raised(error.value); }
      if life == 0 { return Dead; }
      ghost var before, budget := Now(), life - 1;
      row := Some(Row(Prepared, []));
      life := life - 1;
      start, done := Now(), [];
      ending := Write(files, payloads);
      if ending == Returned && SeparatePaths(files) && AbsentWithoutDigest(files) && !before.committing {
        CompletedKeepsListed(hash, before, base, files, payloads, origins, budget, torn);
      }
    }

    /** Where `write` leaves a promised world when it lives for `budget` effects. */
    ghost function CrashOf(w: World, files: seq<FileEntry>, payloads: Payloads, budget: nat): World {
      var script := Script(files, payloads);
      Crash(hash, Promised(w), script, Least(budget, |script|), torn)
    }

    /** `recoverDelivery`: nothing to do unless a delivery is unfinished. */
    method RecoverDelivery(files: seq<FileEntry>, payloads: Payloads) returns (ending: Option<Ending>)
      modifies this
      ensures !InFlight(old(row)) ==> Now() == old(Now()) && ending == None
      ensures InFlight(old(row)) ==>
                && ending.Some?
                && var script := Script(files, payloads);
                   Now() == Crash(hash, old(Now()), script, Least(old(life), |script|), torn)
    {
      hide Script, Crash;
      if !InFlight(row) { return None; }
      start, done := Now(), [];
      var written := Write(files, payloads);
      return Some(written);
    }

    ghost predicate Ended(script: seq<Effect>, ending: Ending)
      reads this
    {
      if ending == Returned then OnTrack() && done == script else CutOff(script, ending)
    }

    lemma StartsHere()
      requires OnTrack() && done == []
      ensures start == Now()
    {}

    lemma Concluded(script: seq<Effect>, ending: Ending, budget: nat)
      requires Ended(script, ending) && life + |done| == budget
      ensures Died(Now()) == Crash(hash, start, script, Least(budget, |script|), torn)
      ensures ending != Dead ==> SameEnding(ending, Exec(hash, start, script).status)
      ensures ending == Dead <==> budget < |script| && Exec(hash, start, script[..budget]).status == Running
    {
      hide Exec;
      if ending == Returned {
        assert script[..|script|] == script;
      } else {
        assert script[..|done|] == done;
        if ending != Dead {
          ThrewStays(hash, start, script, |done|);
          var cut := script[..Least(budget, |script|)];
          assert cut[..|done|] == done;
          ThrewStays(hash, start, cut, |done|);
        }
      }
    }

    /** Everything after the first loop: the journal, the verification and the commit. */
    method Finish(files: seq<FileEntry>, payloads: Payloads, delivered: seq<Path>) returns (ending: Ending)
      requires OnTrack() && done == WriteEffects(files, payloads) && delivered == Delivered(files, payloads)
      modifies this
      ensures start == old(start) && life + |done| == old(life) + |old(done)|
      ensures Ended(Script(files, payloads), ending)
    {
      hide Exec, Script, WriteEffects, Delivered, Did, OnTrack, CutOff, Tail;
      ghost var script, tail := Script(files, payloads), Tail(files, payloads);
      ghost var first := done;
      ScriptParts(files, payloads);
      TailParts(files, payloads);
      assert first + tail[..0] == first;
      ghost var done0, life0 := done, life;
      NextInTail(script, first, tail, 0);
      ending := Record(Written, delivered);
      Advance(script, done0, life0, Journal(Written, delivered), ending);
      if ending != Returned { return; }
      for i := 0 to |files|
        invariant start == old(start) && OnTrack() && ending == Returned
        invariant life + |done| == old(life) + |old(done)|
        invariant done == first + tail[..i + 1]
      {
        ghost var doneI, lifeI := done, life;
        NextInTail(script, first, tail, i + 1);
        ending := VerifyFile(files[i], delivered);
        Advance(script, doneI, lifeI, Verify(files[i], delivered), ending);
        if ending != Returned { return; }
      }
      ghost var done1, life1 := done, life;
      NextInTail(script, first, tail, |files| + 1);
      ending := StageFiles(PathsOf(files));
      Advance(script, done1, life1, Stage(PathsOf(files)), ending);
      if ending != Returned { return; }
      ghost var done2, life2 := done, life;
      NextInTail(script, first, tail, |files| + 2);
      ending := CommitFiles(PathsOf(files));
      Advance(script, done2, life2, CommitOnly(PathsOf(files)), ending);
      if ending != Returned { return; }
      ghost var done3, life3 := done, life;
      NextInTail(script, first, tail, |files| + 3);
      ending := Record(Completed, delivered);
      Advance(script, done3, life3, Journal(Completed, delivered), ending);
      assert tail[..|files| + 4] == tail;
    }
  }

  lemma NextInTail(script: seq<Effect>, first: seq<Effect>, tail: seq<Effect>, i: nat)
    requires script == first + tail && i < |tail|
    ensures first + tail[..i] + [tail[i]] <= script
    ensures first + tail[..i] + [tail[i]] == first + tail[..i + 1]
  {
    assert tail[..i + 1] == tail[..i] + [tail[i]];
    assert script == first + tail[..i + 1] + tail[i + 1..];
  }

  lemma ThreeSteps(script: seq<Effect>, before: seq<Effect>, a: Effect, b: Effect, c: Effect)
    requires before + [a, b, c] <= script
    ensures before + [a] <= script && before + [a] + [b] <= script
    ensures before + [a] + [b] + [c] == before + [a, b, c]
  {
    assert before + [a, b, c] == before + [a] + [b, c];
    assert before + [a, b, c] == before + [a] + [b] + [c];
  }

  lemma {:induction false} FirstFiles(files: seq<FileEntry>, payloads: Payloads, k: nat)
    requires k <= |files|
    ensures WriteEffects(files[..k], payloads) <= Script(files, payloads)
    decreases |files| - k
  {
    hide WriteEffects, Script, FileEffects, Delivered, Tail;
    if k == |files| {
      assert files[..k] == files;
      ScriptParts(files, payloads);
    } else {
      WriteEffectsNext(files, payloads, k);
      FirstFiles(files, payloads, k + 1);
    }
  }
}
