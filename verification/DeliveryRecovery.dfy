/** The script of a promotion: it writes every destination once, and reads a file only when it is done with it. */
module DeliveryRecovery {
  import opened Sequences
  import opened Bytes
  import opened DeliverySteps
  import opened DeliveryReplay

  /** Manifest paths are different files, and none is the temporary file of another. */
  ghost predicate SeparatePaths(files: seq<FileEntry>) {
    && (forall i, j :: 0 <= i < j < |files| ==> files[i].path != files[j].path)
    && forall i, j :: 0 <= i < |files| && 0 <= j < |files| ==> files[i].path != Temporary(files[j].path)
  }

  ghost predicate InManifest(files: seq<FileEntry>, path: Path) {
    exists i :: 0 <= i < |files| && files[i].path == path
  }

  ghost predicate IsTemporary(files: seq<FileEntry>, path: Path) {
    exists i :: 0 <= i < |files| && Temporary(files[i].path) == path
  }

  /** What one file's effects leave at its path: nothing done for a file whose bytes were not kept. */
  function Approved(file: FileEntry, payloads: Payloads): Option<Option<Content>> {
    if file.deleted then Some(None)
    else if file.path in payloads then Some(Some(payloads[file.path]))
    else None
  }

  // ----- the script writes every destination once, with the approved bytes

  predicate Mentions(e: Effect, path: Path) {
    match e
    case Remove(p) => p == path
    case WriteTemporary(p, _) => Temporary(p) == path
    case Rename(p) => p == path || Temporary(p) == path
    case _ => false
  }

  lemma {:induction false} TouchUnmentioned(a: seq<Effect>, b: seq<Effect>, path: Path)
    requires forall e :: e in b ==> !Mentions(e, path)
    ensures Touch(a + b, path) == Touch(a, path)
  {
    if b == [] {
      assert a + b == a;
    } else {
      var n := |b| - 1;
      assert (a + b)[..|a + b| - 1] == a + b[..n] && (a + b)[|a + b| - 1] == b[n];
      assert !Mentions(b[n], path);
      TouchUnmentioned(a, b[..n], path);
    }
  }

  /** The effects of one file mention no other destination. */
  lemma OwnEffects(files: seq<FileEntry>, payloads: Payloads, k: nat, path: Path)
    requires SeparatePaths(files) && k < |files| && InManifest(files, path) && path != files[k].path
    ensures forall e :: e in FileEffects(files[k], payloads, Delivered(files[..k + 1], payloads)) ==> !Mentions(e, path)
  {
    hide Delivered;
  }

  lemma TouchLast(before: seq<Effect>, e: Effect, path: Path)
    ensures Touch(before + [e], path) ==
              match e
              case Remove(p) => if p == path then Some(None) else Touch(before, path)
              case WriteTemporary(p, content) =>
                if Temporary(p) == path then Some(Some(content)) else Touch(before, path)
              case Rename(p) =>
                if p == path then (match Touch(before, Temporary(p)) case Some(v) => Some(v) case None => Some(None))
                else if Temporary(p) == path then Some(None)
                else Touch(before, path)
              case _ => Touch(before, path)
  {
    var all := before + [e];
    assert all[..|all| - 1] == before;
  }

  /** Writing a temporary file and renaming it over its destination. */
  lemma TouchByRename(before: seq<Effect>, path: Path, content: Content)
    ensures var one := before + [WriteTemporary(path, content)]; Touch(one, path) == Touch(before, path)
    ensures
      var two := before + [WriteTemporary(path, content)] + [Rename(path)];
      Touch(two, path) == Some(Some(content)) && Touch(two, Temporary(path)) == Some(None)
  {
    hide Touch;
    TemporaryDiffers(path);
    var one := before + [WriteTemporary(path, content)];
    TouchLast(before, WriteTemporary(path, content), path);
    TouchLast(before, WriteTemporary(path, content), Temporary(path));
    TouchLast(one, Rename(path), path);
    TouchLast(one, Rename(path), Temporary(path));
  }

  lemma TouchOne(before: seq<Effect>, file: FileEntry, payloads: Payloads, delivered: seq<Path>)
    requires Touch(before, file.path).None?
    ensures Touch(before + FileEffects(file, payloads, delivered), file.path) == Approved(file, payloads)
  {
    hide Touch;
    if file.deleted {
      TouchLast(before, Remove(file.path), file.path);
    } else if file.path !in payloads {
      TouchLast(before, Confirm(file.path, file.digest), file.path);
    } else {
      var two := before + [WriteTemporary(file.path, payloads[file.path])] + [Rename(file.path)];
      TouchByRename(before, file.path, payloads[file.path]);
      TouchLast(two, Journal(Prepared, delivered), file.path);
      assert before + FileEffects(file, payloads, delivered) == two + [Journal(Prepared, delivered)];
    }
  }

  ghost predicate NotBefore(files: seq<FileEntry>, k: nat, path: Path)
    requires k <= |files|
  {
    forall i :: 0 <= i < k ==> files[i].path != path
  }

  lemma WriteEffectsNext(files: seq<FileEntry>, payloads: Payloads, k: nat)
    requires k < |files|
    ensures WriteEffects(files[..k + 1], payloads) ==
              WriteEffects(files[..k], payloads) + FileEffects(files[k], payloads, Delivered(files[..k + 1], payloads))
  {
    assert files[..k + 1][..k] == files[..k];
  }

  /** Before its turn a destination is untouched. */
  lemma {:induction false} Untouched(files: seq<FileEntry>, payloads: Payloads, k: nat, path: Path)
    requires SeparatePaths(files) && k <= |files| && InManifest(files, path) && NotBefore(files, k, path)
    ensures Touch(WriteEffects(files[..k], payloads), path).None?
  {
    hide Delivered, FileEffects, SeparatePaths;
    if k > 0 {
      Untouched(files, payloads, k - 1, path);
      WriteEffectsNext(files, payloads, k - 1);
      OwnEffects(files, payloads, k - 1, path);
      TouchUnmentioned(
        WriteEffects(files[..k - 1], payloads), FileEffects(files[k - 1], payloads, Delivered(files[..k], payloads)),
        path);
    } else {
      assert WriteEffects(files[..0], payloads) == [];
    }
  }

  lemma EarlierDiffer(files: seq<FileEntry>, i: nat)
    requires SeparatePaths(files) && i < |files|
    ensures InManifest(files, files[i].path) && NotBefore(files, i, files[i].path)
  {}

  /** From its turn on it holds what was approved. */
  lemma {:induction false} WrittenAs(files: seq<FileEntry>, payloads: Payloads, i: nat, k: nat)
    requires SeparatePaths(files) && i < k <= |files|
    ensures Touch(WriteEffects(files[..k], payloads), files[i].path) == Approved(files[i], payloads)
  {
    hide Delivered, FileEffects, Touch, SeparatePaths, WriteEffects, Approved;
    WriteEffectsNext(files, payloads, k - 1);
    EarlierDiffer(files, i);
    if i == k - 1 {
      Untouched(files, payloads, i, files[i].path);
      TouchOne(WriteEffects(files[..i], payloads), files[i], payloads, Delivered(files[..k], payloads));
    } else {
      WrittenAs(files, payloads, i, k - 1);
      EarlierDiffer(files, k - 1);
      OwnEffects(files, payloads, k - 1, files[i].path);
      TouchUnmentioned(
        WriteEffects(files[..k - 1], payloads), FileEffects(files[k - 1], payloads, Delivered(files[..k], payloads)),
        files[i].path);
    }
  }

  /** The script after its writes. */
  function Tail(files: seq<FileEntry>, payloads: Payloads): (r: seq<Effect>)
    ensures |r| == |files| + 4
  {
    var written := Delivered(files, payloads);
    [Journal(Written, written)] + VerifyEffects(files, written) + Landing(PathsOf(files), written)
  }

  lemma TailParts(files: seq<FileEntry>, payloads: Payloads)
    ensures Tail(files, payloads)[0] == Journal(Written, Delivered(files, payloads))
    ensures forall i ::
        0 <= i < |files| ==> Tail(files, payloads)[1 + i] == Verify(files[i], Delivered(files, payloads))
    ensures Tail(files, payloads)[|files| + 1] == Stage(PathsOf(files))
    ensures Tail(files, payloads)[|files| + 2] == CommitOnly(PathsOf(files))
    ensures Tail(files, payloads)[|files| + 3] == Journal(Completed, Delivered(files, payloads))
  {
    hide Delivered, PathsOf;
    var written := Delivered(files, payloads);
    forall i | 0 <= i < |files| ensures Tail(files, payloads)[1 + i] == Verify(files[i], written) {
      assert Tail(files, payloads)[1 + i] == VerifyEffects(files, written)[i];
    }
  }

  predicate ReadsOnly(e: Effect) {
    e.Journal? || e.Verify? || e.Stage? || e.CommitOnly?
  }

  lemma TailReads(files: seq<FileEntry>, payloads: Payloads)
    ensures forall e :: e in Tail(files, payloads) ==> ReadsOnly(e)
  {
    hide Delivered, PathsOf, Tail;
    TailParts(files, payloads);
    var tail := Tail(files, payloads);
    forall i | 0 <= i < |tail| ensures ReadsOnly(tail[i]) {
      if 0 < i <= |files| {
        var j := i - 1;
        assert tail[1 + j] == Verify(files[j], Delivered(files, payloads));
      }
    }
  }

  lemma ScriptParts(files: seq<FileEntry>, payloads: Payloads)
    ensures Script(files, payloads) == WriteEffects(files, payloads) + Tail(files, payloads)
    ensures |Script(files, payloads)| == |WriteEffects(files, payloads)| + |files| + 4
    ensures |Prelude(files, payloads)| == |Script(files, payloads)| - 3
    ensures Prelude(files, payloads) == Script(files, payloads)[..|Prelude(files, payloads)|]
  {
    hide Delivered, WriteEffects, VerifyEffects, PathsOf;
    var written := Delivered(files, payloads);
    assert Script(files, payloads) == WriteEffects(files, payloads) + Tail(files, payloads);
  }

  /** The tail writes no file. */
  lemma TailTouchesNothing(files: seq<FileEntry>, payloads: Payloads, i: nat, path: Path)
    requires |WriteEffects(files, payloads)| <= i <= |Script(files, payloads)|
    ensures Touch(Script(files, payloads)[..i], path) == Touch(WriteEffects(files, payloads), path)
  {
    hide Delivered, WriteEffects, Tail, Script;
    ScriptParts(files, payloads);
    var head, tail := WriteEffects(files, payloads), Tail(files, payloads);
    assert Script(files, payloads)[..i] == head + tail[..i - |head|];
    TailReads(files, payloads);
    forall e | e in tail[..i - |head|] ensures !Mentions(e, path) {
      assert e in tail;
    }
    TouchUnmentioned(head, tail[..i - |head|], path);
  }

  // ----- the script may be replayed

  /** The parts of `Replayable` that speak of single effects. */
  ghost predicate WriteShape(files: seq<FileEntry>, e: Effect) {
    && !e.Stage? && !e.CommitOnly? && !e.Verify?
    && (e.Journal? ==> e.state == Prepared)
    && (e.Confirm? ==> exists i :: 0 <= i < |files| && files[i].path == e.path)
  }

  ghost predicate ConfirmsKept(files: seq<FileEntry>, payloads: Payloads, e: Effect) {
    e.Confirm? ==>
      exists i ::
        0 <= i < |files| && IsConfirmed(files[i], payloads) && files[i].path == e.path && files[i].digest == e.digest
  }

  predicate IsConfirmed(file: FileEntry, payloads: Payloads) {
    !file.deleted && file.path !in payloads
  }

  lemma {:induction false} WriteShapes(files: seq<FileEntry>, payloads: Payloads, k: nat)
    requires k <= |files|
    ensures forall e ::
        e in WriteEffects(files[..k], payloads) ==> WriteShape(files, e) && ConfirmsKept(files, payloads, e)
    ensures RenamesFollowWrites(WriteEffects(files[..k], payloads))
  {
    hide Delivered;
    if k > 0 {
      WriteShapes(files, payloads, k - 1);
      WriteEffectsNext(files, payloads, k - 1);
      var own := FileEffects(files[k - 1], payloads, Delivered(files[..k], payloads));
      forall e | e in own ensures WriteShape(files, e) && ConfirmsKept(files, payloads, e) {
        assert e.Journal? || e.path == files[k - 1].path;
      }
      RenamesConcat(WriteEffects(files[..k - 1], payloads), own);
    } else {
      assert WriteEffects(files[..0], payloads) == [];
    }
  }

  lemma RenamesConcat(a: seq<Effect>, b: seq<Effect>)
    requires RenamesFollowWrites(a) && RenamesFollowWrites(b)
    ensures RenamesFollowWrites(a + b)
  {
    forall i | 0 <= i < |a + b| && (a + b)[i].Rename?
      ensures 0 < i && (a + b)[i - 1].WriteTemporary? && (a + b)[i - 1].path == (a + b)[i].path
    {
      if i >= |a| { assert b[i - |a|] == (a + b)[i]; }
    }
  }

  lemma ConfirmedUntouched(files: seq<FileEntry>, payloads: Payloads, i: nat)
    requires SeparatePaths(files) && i < |files| && IsConfirmed(files[i], payloads)
    ensures Touch(Script(files, payloads), files[i].path).None?
  {
    hide Delivered, WriteEffects, Tail, Script;
    assert files[..|files|] == files;
    WrittenAs(files, payloads, i, |files|);
    var s := Script(files, payloads);
    ScriptParts(files, payloads);
    assert s[..|s|] == s;
    TailTouchesNothing(files, payloads, |s|, files[i].path);
  }

  lemma TailSettled(files: seq<FileEntry>, payloads: Payloads, i: nat, path: Path)
    requires |WriteEffects(files, payloads)| <= i <= |Prelude(files, payloads)|
    ensures Settled(Prelude(files, payloads), i, path)
  {
    hide Delivered, WriteEffects, Tail, Script, Prelude, Touch;
    var prelude := Prelude(files, payloads);
    ScriptParts(files, payloads);
    assert prelude[..i] == Script(files, payloads)[..i];
    TailTouchesNothing(files, payloads, i, path);
    assert prelude[..|prelude|] == prelude == Script(files, payloads)[..|prelude|];
    TailTouchesNothing(files, payloads, |prelude|, path);
  }

  lemma PreludeReads(files: seq<FileEntry>, payloads: Payloads, i: nat)
    requires SeparatePaths(files) && i < |Prelude(files, payloads)|
    ensures ReadsSettled(Prelude(files, payloads), i)
  {
    hide Delivered, WriteEffects, Tail, Script, Prelude, Touch, SeparatePaths, WriteShape;
    var prelude := Prelude(files, payloads);
    var n := |WriteEffects(files, payloads)|;
    ScriptParts(files, payloads);
    if i < n {
      assert files[..|files|] == files;
      WriteShapes(files, payloads, |files|);
      assert prelude[i] == Script(files, payloads)[i] == WriteEffects(files, payloads)[i];
      assert WriteShape(files, prelude[i]) && ConfirmsKept(files, payloads, prelude[i]);
      if prelude[i].Confirm? {
        var k :| 0 <= k < |files| && IsConfirmed(files[k], payloads) && files[k].path == prelude[i].path;
        PreludeUntouched(files, payloads, k);
      } else {
        OnlyConfirmsRead(files, prelude, i);
      }
    } else {
      forall p ensures Settled(prelude, i, p) {
        TailSettled(files, payloads, i, p);
      }
    }
  }

  lemma PreludeUntouched(files: seq<FileEntry>, payloads: Payloads, i: nat)
    requires SeparatePaths(files) && i < |files| && IsConfirmed(files[i], payloads)
    ensures Touch(Prelude(files, payloads), files[i].path).None?
  {
    hide Delivered, WriteEffects, Tail, Script, Prelude, Touch;
    ScriptParts(files, payloads);
    ConfirmedUntouched(files, payloads, i);
    var n := |Prelude(files, payloads)|;
    if Touch(Script(files, payloads)[..n], files[i].path).Some? {
      TouchGrows(Script(files, payloads), n, files[i].path);
    }
  }

  lemma OnlyConfirmsRead(files: seq<FileEntry>, effects: seq<Effect>, i: nat)
    requires i < |effects| && WriteShape(files, effects[i]) && !effects[i].Confirm?
    ensures ReadsSettled(effects, i)
  {}

  lemma PreludeShape(files: seq<FileEntry>, payloads: Payloads)
    ensures NoGit(Prelude(files, payloads)) && RecordsInFlight(Prelude(files, payloads))
  {
    hide Delivered, WriteEffects, Tail, Script, Prelude, ConfirmsKept;
    var prelude := Prelude(files, payloads);
    var head := WriteEffects(files, payloads);
    ScriptParts(files, payloads);
    assert files[..|files|] == files;
    WriteShapes(files, payloads, |files|);
    TailParts(files, payloads);
    forall i | 0 <= i < |prelude|
      ensures !prelude[i].Stage? && !prelude[i].CommitOnly?
      ensures prelude[i].Journal? ==> prelude[i].state == Prepared || prelude[i].state == Written
    {
      assert prelude[i] == Script(files, payloads)[i];
      if i < |head| {
        assert prelude[i] == head[i] && WriteShape(files, head[i]);
      } else {
        assert prelude[i] == Tail(files, payloads)[i - |head|];
        if |head| < i {
          var j := i - |head| - 1;
          assert Tail(files, payloads)[1 + j] == Verify(files[j], Delivered(files, payloads));
        }
      }
    }
  }

  lemma ScriptRenames(files: seq<FileEntry>, payloads: Payloads)
    ensures RenamesFollowWrites(Script(files, payloads))
  {
    hide Delivered, WriteEffects, Tail, Script, ConfirmsKept, WriteShape;
    ScriptParts(files, payloads);
    assert files[..|files|] == files;
    WriteShapes(files, payloads, |files|);
    TailHasNoRename(files, payloads);
    RenamesConcat(WriteEffects(files, payloads), Tail(files, payloads));
  }

  lemma TailHasNoRename(files: seq<FileEntry>, payloads: Payloads)
    ensures RenamesFollowWrites(Tail(files, payloads))
  {
    hide Delivered, Tail;
    TailReads(files, payloads);
    forall i | 0 <= i < |Tail(files, payloads)| ensures !Tail(files, payloads)[i].Rename? {
      assert Tail(files, payloads)[i] in Tail(files, payloads);
    }
  }

  /** Everything before the repository is touched may be done again. */
  lemma PreludeReplayable(files: seq<FileEntry>, payloads: Payloads)
    requires SeparatePaths(files)
    ensures Replayable(Prelude(files, payloads))
  {
    hide Prelude, Script, ReadsSettled, SeparatePaths;
    PreludeShape(files, payloads);
    ScriptRenames(files, payloads);
    ScriptParts(files, payloads);
    PrefixRenames(Script(files, payloads), |Prelude(files, payloads)|);
    forall i: nat | i < |Prelude(files, payloads)| ensures ReadsSettled(Prelude(files, payloads), i) {
      PreludeReads(files, payloads, i);
    }
  }
}
