/** The promotion of an approved candidate, src/evidence/delivery.ts, as a script of atomic effects on the
    working tree, the repository and the journal row. A crash may fall between any two effects. */
module DeliverySteps {
  import opened Sequences
  import opened Bytes

  type Path = string
  type Content = bytes
  type Digest = string
  type Hash = Content -> Digest
  type Files = map<Path, Content>

  datatype DeliveryState = Prepared | Written | Completed | Aborted

  datatype Row = Row(state: DeliveryState, written: seq<Path>)

  /** The staging area and the tree of the current revision; every commit makes a new revision. */
  datatype Repository = Repository(index: Files, head: Files, revision: nat)

  /** `committing` lives in the process: `commitCandidate` has staged the paths and is about to commit them. */
  datatype World = World(disk: Files, repo: Repository, row: Option<Row>, committing: bool)

  /** `digest` is absent where the program stores null. */
  datatype FileEntry = FileEntry(path: Path, deleted: bool, digest: Option<Digest>)

  datatype DeliveryError =
    | NoLongerMatches(path: Path)
    | NotVerified(path: Path)
    | NothingToCommit
    | NotStaged
    | NotCommitted
    | BaseMoved
    | ChangedAfterApproval

  datatype Effect =
    | Remove(path: Path)
    | WriteTemporary(path: Path, content: Content)
    | Rename(path: Path)
    | Confirm(path: Path, digest: Option<Digest>)
    | Journal(state: DeliveryState, written: seq<Path>)
    | Verify(entry: FileEntry, written: seq<Path>)
    | Stage(paths: seq<Path>)
    | CommitOnly(paths: seq<Path>)

  datatype Status = Running | Threw(error: DeliveryError)

  datatype Outcome = Outcome(world: World, status: Status)

  function Temporary(path: Path): Path {
    path + ".cycle-delivery"
  }

  function At(files: Files, path: Path): Option<Content> {
    if path in files then Some(files[path]) else None
  }

  /** `digestOf`: absent when there is no such file. */
  function DigestAt(hash: Hash, files: Files, path: Path): Option<Digest> {
    if path in files then Some(hash(files[path])) else None
  }

  function Expected(entry: FileEntry): Option<Digest> {
    if entry.deleted then None else entry.digest
  }

  /** `git status` on the paths reports nothing: working tree, index and tree agree on them. */
  predicate IsClean(disk: Files, repo: Repository, paths: seq<Path>) {
    forall p :: p in paths ==> At(disk, p) == At(repo.index, p) == At(repo.head, p)
  }

  /** `git add` knows every path, from the working tree or from the index; otherwise it refuses all of them. */
  predicate CanStage(disk: Files, repo: Repository, paths: seq<Path>) {
    forall p :: p in paths ==> p in disk || p in repo.index
  }

  /** `git commit --only` knows every path, from the index or from the tree, and finds something to commit. */
  predicate CanCommit(disk: Files, repo: Repository, paths: seq<Path>) {
    && (forall p :: p in paths ==> p in repo.index || p in repo.head)
    && exists p :: p in paths && At(disk, p) != At(repo.head, p)
  }

  /** A tree that takes exactly the given paths from the working tree. */
  function Snapshot(tree: Files, disk: Files, paths: seq<Path>): Files {
    map p | p in tree.Keys + disk.Keys && (if p in paths then p in disk else p in tree)
      :: if p in paths then disk[p] else tree[p]
  }

  function Staged(disk: Files, repo: Repository, paths: seq<Path>): Repository {
    repo.(index := Snapshot(repo.index, disk, paths))
  }

  /** Both the new tree and the index take the paths from the working tree. */
  function Committed(disk: Files, repo: Repository, paths: seq<Path>): Repository {
    Repository(Snapshot(repo.index, disk, paths), Snapshot(repo.head, disk, paths), repo.revision + 1)
  }

  function Moved(disk: Files, path: Path): Files {
    var temporary := Temporary(path);
    if temporary in disk then (disk - {temporary})[path := disk[temporary]] else disk
  }

  function Step(hash: Hash, w: World, e: Effect): Outcome {
    match e
    case Remove(path) => Outcome(w.(disk := w.disk - {path}), Running)
    case WriteTemporary(path, content) => Outcome(w.(disk := w.disk[Temporary(path) := content]), Running)
    case Rename(path) => Outcome(w.(disk := Moved(w.disk, path)), Running)
    case Confirm(path, digest) =>
      Outcome(w, if DigestAt(hash, w.disk, path) == digest then Running else Threw(NoLongerMatches(path)))
    case Journal(state, written) => Outcome(w.(row := Some(Row(state, written))), Running)
    case Verify(entry, written) =>
      if DigestAt(hash, w.disk, entry.path) == Expected(entry) then Outcome(w, Running)
      else Outcome(w.(row := Some(Row(Aborted, written))), Threw(NotVerified(entry.path)))
    case Stage(paths) => StagePaths(w, paths)
    case CommitOnly(paths) => CommitPaths(w, paths)
  }

  /** Ask for the status of the paths, and stage them unless there is nothing to do. */
  function StagePaths(w: World, paths: seq<Path>): Outcome {
    if paths == [] then Outcome(w, Threw(NothingToCommit))
    else if IsClean(w.disk, w.repo, paths) then Outcome(w, Running)
    else if !CanStage(w.disk, w.repo, paths) then Outcome(w, Threw(NotStaged))
    else Outcome(w.(repo := Staged(w.disk, w.repo, paths), committing := true), Running)
  }

  /** Commit what has just been staged; after a clean status there is nothing to do. */
  function CommitPaths(w: World, paths: seq<Path>): Outcome {
    if !w.committing then Outcome(w, Running)
    else if !CanCommit(w.disk, w.repo, paths) then Outcome(w.(committing := false), Threw(NotCommitted))
    else Outcome(w.(repo := Committed(w.disk, w.repo, paths), committing := false), Running)
  }

  /** Effects in order, up to the first one that throws. */
  function Exec(hash: Hash, w: World, effects: seq<Effect>): Outcome {
    if effects == [] then Outcome(w, Running)
    else
      var before := Exec(hash, w, effects[..|effects| - 1]);
      if before.status == Running then Step(hash, before.world, effects[|effects| - 1]) else before
  }

  // ----- the script of `write`

  type Payloads = map<Path, Content>

  /** `delivered` after the first files: what was removed or rewritten. */
  function Delivered(files: seq<FileEntry>, payloads: Payloads): seq<Path> {
    if files == [] then []
    else
      var last := files[|files| - 1];
      var before := Delivered(files[..|files| - 1], payloads);
      if last.deleted || last.path in payloads then before + [last.path] else before
  }

  /** The effects for one file, `delivered` being the list after it. */
  function FileEffects(file: FileEntry, payloads: Payloads, delivered: seq<Path>): seq<Effect> {
    if file.deleted then [Remove(file.path)]
    else if file.path !in payloads then [Confirm(file.path, file.digest)]
    else [WriteTemporary(file.path, payloads[file.path]), Rename(file.path), Journal(Prepared, delivered)]
  }

  function WriteEffects(files: seq<FileEntry>, payloads: Payloads): seq<Effect> {
    if files == [] then []
    else
      var n := |files| - 1;
      WriteEffects(files[..n], payloads) + FileEffects(files[n], payloads, Delivered(files, payloads))
  }

  function VerifyEffects(files: seq<FileEntry>, written: seq<Path>): seq<Effect> {
    seq(|files|, i requires 0 <= i < |files| => Verify(files[i], written))
  }

  function PathsOf(files: seq<FileEntry>): seq<Path> {
    seq(|files|, i requires 0 <= i < |files| => files[i].path)
  }

  /** Everything before the repository is touched: write, record, verify. */
  function Prelude(files: seq<FileEntry>, payloads: Payloads): seq<Effect> {
    var written := Delivered(files, payloads);
    WriteEffects(files, payloads) + [Journal(Written, written)] + VerifyEffects(files, written)
  }

  function Landing(paths: seq<Path>, written: seq<Path>): seq<Effect> {
    [Stage(paths), CommitOnly(paths), Journal(Completed, written)]
  }

  function Script(files: seq<FileEntry>, payloads: Payloads): seq<Effect> {
    Prelude(files, payloads) + Landing(PathsOf(files), Delivered(files, payloads))
  }

  // ----- crashes

  function Least(a: nat, b: nat): nat {
    if a < b then a else b
  }

  /** What outlives the process. */
  function Died(w: World): World {
    w.(committing := false)
  }

  /** The world a kill leaves after `n` effects. With `torn`, it falls in the middle of the next one, and a
      temporary file being written holds only its first bytes. */
  function Crash(hash: Hash, w: World, script: seq<Effect>, n: nat, torn: Option<nat>): World
    requires n <= |script|
  {
    var done := Exec(hash, w, script[..n]);
    if done.status == Running && n < |script| && torn.Some? && script[n].WriteTemporary? then
      Died(Torn(done.world, script[n], torn.value))
    else Died(done.world)
  }

  function Torn(w: World, e: Effect, length: nat): World
    requires e.WriteTemporary?
  {
    w.(disk := w.disk[Temporary(e.path) := e.content[..Least(length, |e.content|)]])
  }

  predicate InFlight(row: Option<Row>) {
    row.Some? && (row.value.state == Prepared || row.value.state == Written)
  }

  /** `recoverDelivery`: run the whole script again while the row says it is unfinished. */
  function Recover(hash: Hash, w: World, script: seq<Effect>): World {
    if InFlight(w.row) then Exec(hash, w, script).world else w
  }

  datatype Kill = Kill(after: nat, torn: Option<nat>)

  /** A first run and then recovery after recovery, every one of them killed somewhere. */
  function Killed(hash: Hash, w: World, script: seq<Effect>, kills: seq<Kill>): World
    requires forall k :: k in kills ==> k.after <= |script|
  {
    if kills == [] then w
    else
      var last := kills[|kills| - 1];
      var before := Killed(hash, w, script, kills[..|kills| - 1]);
      if InFlight(before.row) then Crash(hash, before, script, last.after, last.torn) else before
  }

  // ----- which files a script writes

  /** What the effects leave at `path`: nothing known, or that it is absent, or its content. */
  ghost function Touch(effects: seq<Effect>, path: Path): Option<Option<Content>> {
    if effects == [] then None
    else
      var n := |effects| - 1;
      match effects[n]
      case Remove(p) => if p == path then Some(None) else Touch(effects[..n], path)
      case WriteTemporary(p, content) => if Temporary(p) == path then Some(Some(content)) else Touch(effects[..n], path)
      case Rename(p) =>
        if p == path then (match Touch(effects[..n], Temporary(p)) case Some(v) => Some(v) case None => Some(None))
        else if Temporary(p) == path then Some(None)
        else Touch(effects[..n], path)
      case _ => Touch(effects[..n], path)
  }

  /** Every rename moves the temporary file written just before it. */
  ghost predicate RenamesFollowWrites(effects: seq<Effect>) {
    forall i :: 0 <= i < |effects| && effects[i].Rename? ==>
      0 < i && effects[i - 1].WriteTemporary? && effects[i - 1].path == effects[i].path
  }

  lemma PrefixRenames(effects: seq<Effect>, n: nat)
    requires n <= |effects| && RenamesFollowWrites(effects)
    ensures RenamesFollowWrites(effects[..n])
  {}

  lemma TemporaryDiffers(path: Path)
    ensures Temporary(path) != path
  {
    assert |Temporary(path)| > |path|;
  }

  ghost function Left(effects: seq<Effect>, before: Files, path: Path): Option<Content> {
    match Touch(effects, path)
    case Some(v) => v
    case None => At(before, path)
  }

  /** The working tree after a run is the old one except where the effects wrote, and there it does not
      depend on the old one. */
  lemma {:induction false} DiskAfter(hash: Hash, w: World, effects: seq<Effect>, path: Path)
    requires RenamesFollowWrites(effects) && Exec(hash, w, effects).status == Running
    ensures At(Exec(hash, w, effects).world.disk, path) == Left(effects, w.disk, path)
  {
    if effects != [] {
      var n := |effects| - 1;
      PrefixRenames(effects, n);
      DiskAfter(hash, w, effects[..n], path);
      match effects[n]
      case Rename(p) =>
        TemporaryDiffers(p);
        DiskAfter(hash, w, effects[..n], Temporary(p));
        assert effects[..n][n - 1] == effects[n - 1];
      case _ =>
    }
  }

  lemma SameFiles(a: Files, b: Files)
    requires forall p :: At(a, p) == At(b, p)
    ensures a == b
  {
    assert forall p :: (p in a <==> At(a, p).Some?) && (p in b <==> At(b, p).Some?);
    assert a.Keys == b.Keys;
    forall p | p in a ensures a[p] == b[p] {
      assert At(a, p) == At(b, p);
    }
  }

  /** What was touched stays touched. */
  lemma {:induction false} TouchGrows(effects: seq<Effect>, n: nat, path: Path)
    requires n <= |effects| && Touch(effects[..n], path).Some?
    ensures Touch(effects, path).Some?
    decreases |effects|
  {
    if n < |effects| {
      assert effects[..|effects| - 1][..n] == effects[..n];
      TouchGrows(effects[..|effects| - 1], n, path);
    } else {
      assert effects[..n] == effects;
    }
  }

  // ----- the journal row and the repository after a run

  ghost function LastRow(effects: seq<Effect>, before: Option<Row>): Option<Row> {
    if effects == [] then before
    else
      var n := |effects| - 1;
      if effects[n].Journal? then Some(Row(effects[n].state, effects[n].written)) else LastRow(effects[..n], before)
  }

  lemma {:induction false} RowAfter(hash: Hash, w: World, effects: seq<Effect>)
    requires Exec(hash, w, effects).status == Running
    ensures Exec(hash, w, effects).world.row == LastRow(effects, w.row)
  {
    if effects != [] { RowAfter(hash, w, effects[..|effects| - 1]); }
  }

  /** Recording the same prefix again leaves the same row. */
  lemma {:induction false} LastRowAgain(effects: seq<Effect>, n: nat, before: Option<Row>)
    requires n <= |effects|
    ensures LastRow(effects, LastRow(effects[..n], before)) == LastRow(effects, before)
    decreases |effects|
  {
    if n == |effects| {
      assert effects[..n] == effects;
      RowIsFixed(effects, before);
    } else {
      assert effects[..|effects| - 1][..n] == effects[..n];
      LastRowAgain(effects[..|effects| - 1], n, before);
    }
  }

  lemma {:induction false} RowIsFixed(effects: seq<Effect>, before: Option<Row>)
    ensures LastRow(effects, LastRow(effects, before)) == LastRow(effects, before)
  {
    if effects != [] && !effects[|effects| - 1].Journal? {
      var n := |effects| - 1;
      RowIsFixed(effects[..n], before);
    }
  }

  /** Effects that do not look at the repository. */
  ghost predicate NoGit(effects: seq<Effect>) {
    forall i :: 0 <= i < |effects| ==> !effects[i].Stage? && !effects[i].CommitOnly?
  }

  /** Such effects run alike whatever the repository holds, and leave it as it is. */
  lemma {:induction false} RepositoryApart(hash: Hash, w: World, repo: Repository, effects: seq<Effect>)
    requires NoGit(effects)
    ensures Exec(hash, w, effects).world.repo == w.repo && Exec(hash, w, effects).world.committing == w.committing
    ensures Exec(hash, w.(repo := repo), effects) ==
              Outcome(Exec(hash, w, effects).world.(repo := repo), Exec(hash, w, effects).status)
  {
    if effects != [] {
      var n := |effects| - 1;
      assert NoGit(effects[..n]);
      RepositoryApart(hash, w, repo, effects[..n]);
    }
  }

  /** A run of two parts is a run of the first, and of the second from there unless the first threw. */
  lemma {:induction false} ExecConcat(hash: Hash, w: World, a: seq<Effect>, b: seq<Effect>)
    ensures Exec(hash, w, a + b) ==
              if Exec(hash, w, a).status == Running then Exec(hash, Exec(hash, w, a).world, b) else Exec(hash, w, a)
  {
    if b == [] {
      assert a + b == a;
    } else {
      var n := |b| - 1;
      assert (a + b)[..|a + b| - 1] == a + b[..n] && (a + b)[|a + b| - 1] == b[n];
      ExecConcat(hash, w, a, b[..n]);
    }
  }

  /** A run that throws stops there for good. */
  lemma {:induction false} ThrewStays(hash: Hash, w: World, effects: seq<Effect>, n: nat)
    requires n <= |effects|
    ensures Exec(hash, w, effects[..n]).status != Running ==> Exec(hash, w, effects) == Exec(hash, w, effects[..n])
    decreases |effects|
  {
    if n == |effects| {
      assert effects[..n] == effects;
    } else {
      var m := |effects| - 1;
      assert effects[..m][..n] == effects[..n];
      ThrewStays(hash, w, effects[..m], n);
    }
  }

  /** Runs from the same world agree from there on. */
  lemma {:induction false} ExecFrom(hash: Hash, v: World, w: World, effects: seq<Effect>, n: nat)
    requires n <= |effects| && Exec(hash, v, effects[..n]) == Exec(hash, w, effects[..n])
    ensures Exec(hash, v, effects) == Exec(hash, w, effects)
    decreases |effects|
  {
    if n == |effects| {
      assert effects[..n] == effects;
    } else {
      var m := |effects| - 1;
      assert effects[..m][..n] == effects[..n];
      ExecFrom(hash, v, w, effects[..m], n);
    }
  }

  /** The first effect that throws, or the length of the script. */
  ghost function StopAt(hash: Hash, w: World, effects: seq<Effect>): (n: nat)
    ensures n <= |effects|
  {
    if effects == [] then 0
    else
      var m := |effects| - 1;
      if Exec(hash, w, effects[..m]).status != Running then StopAt(hash, w, effects[..m])
      else if Exec(hash, w, effects).status == Running then m + 1
      else m
  }

  lemma {:induction false} StopAtIsFirst(hash: Hash, w: World, effects: seq<Effect>)
    ensures var n := StopAt(hash, w, effects); Exec(hash, w, effects[..n]).status == Running
    ensures Exec(hash, w, effects).status == Running <==> StopAt(hash, w, effects) == |effects|
    ensures var n := StopAt(hash, w, effects); n < |effects| ==> Exec(hash, w, effects[..n + 1]).status != Running
  {
    if effects != [] {
      var m := |effects| - 1;
      assert effects[..m + 1] == effects;
      if Exec(hash, w, effects[..m]).status != Running {
        StopAtIsFirst(hash, w, effects[..m]);
        var n := StopAt(hash, w, effects[..m]);
        assert effects[..m][..n] == effects[..n];
        if n < m { assert effects[..m][..n + 1] == effects[..n + 1]; }
      }
    }
  }
}
