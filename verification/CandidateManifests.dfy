/** The candidate manifest of crates/workflow-core/src/candidate.rs: canonical order and canonical bytes.
    Paths and revisions are UTF-8 bytes; an evidence identifier is the 16 bytes of its UUID. */
module CandidateManifests {
  import opened Sequences
  import opened Bytes
  import opened Digests
  import Ledger = LedgerChaining

  const CANDIDATE_DOMAIN: bytes := Ascii("opencode-workflow/candidate/v1")

  datatype Kind = Added | Deleted | Generated | Modified

  datatype CandidateFile = CandidateFile(executable: bool, path: bytes, digest: Option<digest>, kind: Kind)

  datatype CandidateDigests = CandidateDigests(
    configuration: digest, dependencyState: digest, diff: digest, environment: digest)

  datatype CandidateManifest = CandidateManifest(
    candidateId: bytes,
    baseRevision: Option<bytes>,
    files: seq<CandidateFile>,
    digests: CandidateDigests,
    deliveryPayload: Option<digest>,
    evidenceIds: seq<bytes>)

  datatype CandidateError = DuplicatePath(path: bytes) | DuplicateEvidence(id: bytes)

  // ----- sorting by a key

  /** Non-decreasing in byte order. */
  ghost predicate Sorted(keys: seq<bytes>) {
    forall i, j :: 0 <= i < j < |keys| ==> !Less(keys[j], keys[i])
  }

  ghost predicate SortedCopy<T>(key: T -> bytes, sorted: seq<T>, items: seq<T>) {
    multiset(sorted) == multiset(items) && Sorted(Keys(key, sorted))
  }

  function Keys<T>(key: T -> bytes, items: seq<T>): (k: seq<bytes>)
    ensures |k| == |items|
    ensures forall i :: 0 <= i < |items| ==> k[i] == key(items[i])
  {
    if items == [] then [] else [key(items[0])] + Keys(key, items[1..])
  }

  function Insert<T>(key: T -> bytes, x: T, sorted: seq<T>): (r: seq<T>)
    ensures multiset(r) == multiset(sorted) + multiset{x}
  {
    if sorted == [] then [x]
    else if Less(key(sorted[0]), key(x)) then
      assert sorted == [sorted[0]] + sorted[1..];
      [sorted[0]] + Insert(key, x, sorted[1..])
    else [x] + sorted
  }

  function SortBy<T>(key: T -> bytes, items: seq<T>): (r: seq<T>)
    ensures multiset(r) == multiset(items)
  {
    if items == [] then []
    else
      assert items == [items[0]] + items[1..];
      Insert(key, items[0], SortBy(key, items[1..]))
  }

  lemma NotLessTransitive(a: bytes, b: bytes, c: bytes)
    requires !Less(b, a) && !Less(c, b)
    ensures !Less(c, a)
  {
    LessTotal(a, b);
    if Less(c, a) && Less(a, b) { LessTransitive(c, a, b); }
  }

  ghost predicate NoneBelow<T>(key: T -> bytes, x: T, items: seq<T>) {
    forall j :: 0 <= j < |items| ==> !Less(key(items[j]), key(x))
  }

  lemma PrependSorted<T>(key: T -> bytes, x: T, sorted: seq<T>)
    requires Sorted(Keys(key, sorted)) && NoneBelow(key, x, sorted)
    ensures Sorted(Keys(key, [x] + sorted))
  {
    assert Keys(key, [x] + sorted) == [key(x)] + Keys(key, sorted);
  }

  lemma SortedTail<T>(key: T -> bytes, sorted: seq<T>)
    requires sorted != [] && Sorted(Keys(key, sorted))
    ensures Sorted(Keys(key, sorted[1..])) && NoneBelow(key, sorted[0], sorted[1..])
  {
    var keys := Keys(key, sorted);
    assert Keys(key, sorted[1..]) == keys[1..];
    forall j | 0 <= j < |sorted[1..]| ensures !Less(key(sorted[1..][j]), key(sorted[0])) {
      assert !Less(keys[j + 1], keys[0]);
    }
  }

  lemma {:induction false} InsertAbove<T>(key: T -> bytes, low: T, x: T, sorted: seq<T>)
    requires NoneBelow(key, low, sorted) && !Less(key(x), key(low))
    ensures NoneBelow(key, low, Insert(key, x, sorted))
  {
    if sorted != [] && Less(key(sorted[0]), key(x)) {
      assert NoneBelow(key, low, sorted[1..]);
      InsertAbove(key, low, x, sorted[1..]);
    }
  }

  lemma {:induction false} InsertSorted<T>(key: T -> bytes, x: T, sorted: seq<T>)
    requires Sorted(Keys(key, sorted))
    ensures Sorted(Keys(key, Insert(key, x, sorted)))
  {
    if sorted == [] {
    } else if Less(key(sorted[0]), key(x)) {
      SortedTail(key, sorted);
      InsertSorted(key, x, sorted[1..]);
      if Less(key(x), key(sorted[0])) {
        LessTransitive(key(x), key(sorted[0]), key(x));
        LessIrreflexive(key(x));
      }
      InsertAbove(key, sorted[0], x, sorted[1..]);
      PrependSorted(key, sorted[0], Insert(key, x, sorted[1..]));
    } else {
      SortedTail(key, sorted);
      forall j | 0 <= j < |sorted| ensures !Less(key(sorted[j]), key(x)) {
        if j > 0 {
          assert sorted[1..][j - 1] == sorted[j];
          NotLessTransitive(key(x), key(sorted[0]), key(sorted[j]));
        }
      }
      PrependSorted(key, x, sorted);
    }
  }

  lemma {:induction false} SortBySorts<T>(key: T -> bytes, items: seq<T>)
    ensures SortedCopy(key, SortBy(key, items), items)
  {
    if items != [] {
      SortBySorts(key, items[1..]);
      InsertSorted(key, items[0], SortBy(key, items[1..]));
    }
  }

  /** A multiset of keys has one sorted listing. */
  lemma {:induction false} SortedUnique(a: seq<bytes>, b: seq<bytes>)
    requires Sorted(a) && Sorted(b) && multiset(a) == multiset(b)
    ensures a == b
  {
    if a == [] {
      assert |multiset(b)| == 0;
    } else {
      assert a == [a[0]] + a[1..];
      assert |multiset(b)| == |multiset(a)| > 0;
      assert b == [b[0]] + b[1..];
      assert a[0] in multiset(b) && b[0] in multiset(a);
      LessTotal(a[0], b[0]);
      assert a[0] == b[0];
      assert multiset(a[1..]) == multiset(a) - multiset{a[0]};
      SortedUnique(a[1..], b[1..]);
    }
  }

  lemma {:induction false} KeysRemove<T>(key: T -> bytes, items: seq<T>, i: nat, rest: seq<T>)
    requires i < |items| && rest == items[..i] + items[i + 1..]
    ensures multiset(items) == multiset(rest) + multiset{items[i]}
    ensures multiset(Keys(key, items)) == multiset(Keys(key, rest)) + multiset{key(items[i])}
  {
    var head, tail := items[..i], items[i + 1..];
    assert items == head + ([items[i]] + tail);
    KeysConcat(key, head, [items[i]] + tail);
    KeysConcat(key, head, tail);
    assert Keys(key, [items[i]] + tail) == [key(items[i])] + Keys(key, tail);
  }

  lemma CancelOne<T>(a: multiset<T>, b: multiset<T>, x: T)
    requires a + multiset{x} == b + multiset{x}
    ensures a == b
  {
    assert a == (a + multiset{x}) - multiset{x} && b == (b + multiset{x}) - multiset{x};
  }

  lemma {:induction false} KeysMultiset<T>(key: T -> bytes, a: seq<T>, b: seq<T>)
    requires multiset(a) == multiset(b)
    ensures multiset(Keys(key, a)) == multiset(Keys(key, b))
    decreases |a|
  {
    hide Keys;
    if a == [] {
      assert |multiset(b)| == 0;
    } else {
      assert a[0] in multiset(a);
      var i :| 0 <= i < |b| && b[i] == a[0];
      var rest := b[..i] + b[i + 1..];
      KeysRemove(key, b, i, rest);
      assert a[1..] == a[..0] + a[1..];
      KeysRemove(key, a, 0, a[1..]);
      CancelOne(multiset(a[1..]), multiset(rest), a[0]);
      KeysMultiset(key, a[1..], rest);
    }
  }

  lemma KeysConcat<T>(key: T -> bytes, a: seq<T>, b: seq<T>)
    ensures Keys(key, a + b) == Keys(key, a) + Keys(key, b)
  {}

  /** With distinct keys every sorted copy is the same sequence, and its keys are the same in any case. */
  lemma {:induction false} SortedCopyUnique<T(!new)>(key: T -> bytes, a: seq<T>, b: seq<T>, items: seq<T>)
    requires SortedCopy(key, a, items) && SortedCopy(key, b, items)
    ensures Keys(key, a) == Keys(key, b)
    ensures NoDup(Keys(key, a)) ==> a == b
  {
    KeysMultiset(key, a, b);
    SortedUnique(Keys(key, a), Keys(key, b));
    if NoDup(Keys(key, a)) { SameRecords(key, a, b); }
  }

  lemma SameRecords<T(!new)>(key: T -> bytes, a: seq<T>, b: seq<T>)
    requires multiset(a) == multiset(b) && Keys(key, a) == Keys(key, b) && NoDup(Keys(key, a))
    ensures a == b
  {
    hide Keys;
    forall i | 0 <= i < |a| ensures a[i] == b[i] {
      assert a[i] in multiset(a);
      var j :| 0 <= j < |b| && b[j] == a[i];
      assert Keys(key, b)[j] == Keys(key, a)[i];
    }
  }

  /** The first key that equals its successor, as an adjacent scan finds it. */
  function AdjacentRepeat(keys: seq<bytes>): Option<bytes> {
    if |keys| < 2 then None
    else if keys[0] == keys[1] then Some(keys[0])
    else AdjacentRepeat(keys[1..])
  }

  lemma {:induction false} NoRepeatBefore(keys: seq<bytes>, n: nat)
    requires n <= |keys| && forall i :: 0 < i < n ==> keys[i - 1] != keys[i]
    ensures n == |keys| ==> AdjacentRepeat(keys) == None
    ensures 0 < n < |keys| && keys[n - 1] == keys[n] ==> AdjacentRepeat(keys) == Some(keys[n])
  {
    if n > 1 {
      assert forall i :: 0 <= i < |keys[1..]| ==> keys[1..][i] == keys[i + 1];
      NoRepeatBefore(keys[1..], n - 1);
    }
  }

  /** In sorted keys a key that has occurred before has occurred just before. */
  lemma SortedRepeat(keys: seq<bytes>, i: nat, j: nat)
    requires Sorted(keys) && i < j < |keys| && keys[i] == keys[j]
    ensures keys[j - 1] == keys[j]
  {
    LessTotal(keys[j - 1], keys[j]);
    assert i < j - 1 ==> !Less(keys[j - 1], keys[i]);
    assert !Less(keys[j], keys[j - 1]);
  }

  lemma {:induction false} RepeatFound(keys: seq<bytes>)
    requires Sorted(keys)
    ensures AdjacentRepeat(keys).None? <==> NoDup(keys)
  {
    if i, j :| 0 <= i < j < |keys| && keys[i] == keys[j] {
      SortedRepeat(keys, i, j);
      FirstAdjacent(keys, j);
    } else {
      NoRepeatBefore(keys, |keys|);
    }
  }

  lemma {:induction false} FirstAdjacent(keys: seq<bytes>, j: nat)
    requires 0 < j < |keys| && keys[j - 1] == keys[j]
    ensures AdjacentRepeat(keys).Some?
  {
    if keys[0] != keys[1] { FirstAdjacent(keys[1..], j - 1); }
  }

  // ----- construction

  function PathOf(file: CandidateFile): bytes { file.path }

  function IdOf(id: bytes): bytes { id }

  /** `CandidateManifest::new` of files and evidence whose sorted copies are given. */
  function NewFromSorted(
      candidateId: bytes, base: Option<bytes>, files: seq<CandidateFile>, digests: CandidateDigests,
      evidence: seq<bytes>)
    : Result<CandidateManifest, CandidateError>
  {
    match AdjacentRepeat(Keys(PathOf, files))
    case Some(path) => Err(DuplicatePath(path))
    case None =>
      match AdjacentRepeat(evidence)
      case Some(id) => Err(DuplicateEvidence(id))
      case None => Ok(CandidateManifest(candidateId, base, files, digests, None, evidence))
  }

  lemma {:induction false} IdKeys(ids: seq<bytes>)
    ensures Keys(IdOf, ids) == ids
  {
    if ids != [] { IdKeys(ids[1..]); }
  }

  /** An unstable sort: the caller learns only that some sorted copy comes out. */
  method SortUnstable<T>(key: T -> bytes, items: seq<T>) returns (sorted: seq<T>)
    ensures SortedCopy(key, sorted, items)
  {
    SortBySorts(key, items);
    sorted := SortBy(key, items);
  }

  /** The scan over adjacent paths. */
  method RepeatedPath(files: seq<CandidateFile>) returns (r: Option<bytes>)
    ensures r == AdjacentRepeat(Keys(PathOf, files))
  {
    hide AdjacentRepeat;
    var i := 1;
    while i < |files|
      invariant 1 <= i && (i <= |files| || files == [])
      invariant forall j :: 0 < j < i && j < |files| ==> files[j - 1].path != files[j].path
    {
      if files[i - 1].path == files[i].path {
        NoRepeatBefore(Keys(PathOf, files), i);
        return Some(files[i - 1].path);
      }
      i := i + 1;
    }
    NoRepeatBefore(Keys(PathOf, files), |files|);
    return None;
  }

  /** The scan that remembers the identifiers it has seen. */
  method RepeatedEvidence(ids: seq<bytes>) returns (r: Option<bytes>)
    requires Sorted(ids)
    ensures r == AdjacentRepeat(ids)
  {
    hide AdjacentRepeat, Sorted;
    var seen := {};
    for k := 0 to |ids|
      invariant forall x :: x in seen <==> x in ids[..k]
      invariant forall j :: 0 < j < k ==> ids[j - 1] != ids[j]
    {
      if ids[k] in seen {
        var earlier :| 0 <= earlier < k && ids[earlier] == ids[k];
        SortedRepeat(ids, earlier, k);
        NoRepeatBefore(ids, k);
        return Some(ids[k]);
      }
      assert k > 0 ==> ids[..k][k - 1] in ids[..k];
      seen := seen + {ids[k]};
      assert ids[..k + 1] == ids[..k] + [ids[k]];
    }
    NoRepeatBefore(ids, |ids|);
    return None;
  }

  method New(
      candidateId: bytes, base: Option<bytes>, files: seq<CandidateFile>, digests: CandidateDigests,
      evidence: seq<bytes>)
    returns (r: Result<CandidateManifest, CandidateError>)
    ensures r == NewFromSorted(candidateId, base, SortBy(PathOf, files), digests, SortBy(IdOf, evidence))
    ensures IsOutcome(candidateId, base, files, digests, evidence, r)
  {
    hide AdjacentRepeat, Keys, IsOutcome;
    NewExactly(candidateId, base, files, digests, evidence);
    var sortedFiles := SortUnstable(PathOf, files);
    SameSorted(PathOf, sortedFiles, files);
    var path := RepeatedPath(sortedFiles);
    if path.Some? {
      return Err(DuplicatePath(path.value));
    }
    var sortedEvidence := SortUnstable(IdOf, evidence);
    SameSorted(IdOf, sortedEvidence, evidence);
    IdKeys(sortedEvidence);
    IdKeys(SortBy(IdOf, evidence));
    var id := RepeatedEvidence(sortedEvidence);
    if id.Some? {
      return Err(DuplicateEvidence(id.value));
    }
    return Ok(CandidateManifest(candidateId, base, sortedFiles, digests, None, sortedEvidence));
  }

  lemma {:induction false} SameSorted<T(!new)>(key: T -> bytes, sorted: seq<T>, items: seq<T>)
    requires SortedCopy(key, sorted, items)
    ensures Keys(key, SortBy(key, items)) == Keys(key, sorted)
    ensures AdjacentRepeat(Keys(key, sorted)).None? ==> SortBy(key, items) == sorted
  {
    SortBySorts(key, items);
    SortedCopyUnique(key, sorted, SortBy(key, items), items);
    RepeatFound(Keys(key, sorted));
  }

  /** The order in which files and evidence are supplied does not matter, nor which one is reported
      when the construction is refused. */
  lemma {:induction false} NewIgnoresOrder(candidateId: bytes, base: Option<bytes>, digests: CandidateDigests,
    files: seq<CandidateFile>, files': seq<CandidateFile>, evidence: seq<bytes>, evidence': seq<bytes>)
    requires multiset(files) == multiset(files') && multiset(evidence) == multiset(evidence')
    ensures NewFromSorted(candidateId, base, SortBy(PathOf, files), digests, SortBy(IdOf, evidence))
         == NewFromSorted(candidateId, base, SortBy(PathOf, files'), digests, SortBy(IdOf, evidence'))
  {
    SortBySorts(PathOf, files');
    SameSorted(PathOf, SortBy(PathOf, files'), files);
    SortBySorts(IdOf, evidence');
    SameSorted(IdOf, SortBy(IdOf, evidence'), evidence);
    IdKeys(SortBy(IdOf, evidence));
    IdKeys(SortBy(IdOf, evidence'));
  }

  ghost predicate IsRepeated(keys: seq<bytes>, key: bytes) {
    exists i, j :: 0 <= i < j < |keys| && keys[i] == key == keys[j]
  }

  lemma CountedApart(a: seq<bytes>, key: bytes, b: seq<bytes>)
    ensures multiset(a + ([key] + b))[key] == multiset(a)[key] + 1 + multiset(b)[key]
  {
    assert multiset(a + ([key] + b)) == multiset(a) + multiset([key] + b);
    assert multiset([key] + b) == multiset{key} + multiset(b);
  }

  lemma RepeatedIsCounted(keys: seq<bytes>, key: bytes)
    ensures IsRepeated(keys, key) <==> multiset(keys)[key] >= 2
  {
    hide IsRepeated;
    RepeatedOnlyIf(keys, key);
    if multiset(keys)[key] >= 2 { RepeatedIf(keys, key); }
  }

  lemma RepeatedOnlyIf(keys: seq<bytes>, key: bytes)
    ensures IsRepeated(keys, key) ==> multiset(keys)[key] >= 2
  {
    if i, j :| 0 <= i < j < |keys| && keys[i] == key == keys[j] {
      assert keys == keys[..j] + ([key] + keys[j + 1..]);
      CountedApart(keys[..j], key, keys[j + 1..]);
      assert keys[..j][i] in keys[..j];
      assert key in multiset(keys[..j]);
    }
  }

  lemma RepeatedIf(keys: seq<bytes>, key: bytes)
    requires multiset(keys)[key] >= 2
    ensures IsRepeated(keys, key)
  {
    assert key in multiset(keys);
    var i :| 0 <= i < |keys| && keys[i] == key;
    assert keys == keys[..i] + ([key] + keys[i + 1..]);
    CountedApart(keys[..i], key, keys[i + 1..]);
    var before, after := keys[..i], keys[i + 1..];
    hide IsRepeated;
    if key in multiset(before) {
      var h :| 0 <= h < |before| && before[h] == key;
      RepeatedAt(keys, key, h, i);
    } else {
      assert key in multiset(after);
      var j :| 0 <= j < |after| && after[j] == key;
      RepeatedAt(keys, key, i, i + 1 + j);
    }
  }

  lemma RepeatedAt(keys: seq<bytes>, key: bytes, i: nat, j: nat)
    requires i < j < |keys| && keys[i] == key == keys[j]
    ensures IsRepeated(keys, key)
  {}

  /** In sorted keys the adjacent scan finds the least repeated one. */
  lemma {:induction false} LeastRepeat(keys: seq<bytes>)
    requires Sorted(keys) && AdjacentRepeat(keys).Some?
    ensures IsRepeated(keys, AdjacentRepeat(keys).value)
    ensures forall key :: IsRepeated(keys, key) ==> !Less(key, AdjacentRepeat(keys).value)
  {
    hide Less;
    var found := AdjacentRepeat(keys).value;
    if keys[0] == keys[1] {
      forall key | IsRepeated(keys, key) ensures !Less(key, found) {
        var i, j :| 0 <= i < j < |keys| && keys[i] == key == keys[j];
        LessIrreflexive(key);
      }
    } else {
      var rest := keys[1..];
      forall i, j | 0 <= i < j < |rest| ensures !Less(rest[j], rest[i]) { assert !Less(keys[j + 1], keys[i + 1]); }
      LeastRepeat(rest);
      var i, j :| 0 <= i < j < |rest| && rest[i] == found == rest[j];
      assert keys[i + 1] == found == keys[j + 1];
      forall key | IsRepeated(keys, key) ensures !Less(key, found) {
        var k, l :| 0 <= k < l < |keys| && keys[k] == key == keys[l];
        if k > 0 {
          assert rest[k - 1] == key == rest[l - 1];
        } else {
          SortedRepeatAtStart(keys, l);
        }
      }
    }
  }

  lemma SortedRepeatAtStart(keys: seq<bytes>, l: nat)
    requires Sorted(keys) && 0 < l < |keys| && keys[0] == keys[l]
    ensures keys[0] == keys[1]
  {
    LessTotal(keys[0], keys[1]);
    assert !Less(keys[1], keys[0]);
    assert 1 < l ==> !Less(keys[l], keys[1]);
  }

  /** What a construction gives: with distinct paths and distinct evidence, the same files and evidence in strictly
      increasing order and every other field as given; otherwise the least repeated path, and where no path is
      repeated the least repeated evidence. */
  ghost predicate IsOutcome(
      candidateId: bytes, base: Option<bytes>, files: seq<CandidateFile>, digests: CandidateDigests,
      evidence: seq<bytes>, r: Result<CandidateManifest, CandidateError>)
  {
    var paths := Keys(PathOf, files);
    if r.Ok? then
      && (forall key :: !IsRepeated(paths, key) && !IsRepeated(evidence, key))
      && multiset(r.value.files) == multiset(files) && multiset(r.value.evidenceIds) == multiset(evidence)
      && (forall i, j :: 0 <= i < j < |r.value.files| ==> Less(r.value.files[i].path, r.value.files[j].path))
      && (forall i, j ::
            0 <= i < j < |r.value.evidenceIds| ==> Less(r.value.evidenceIds[i], r.value.evidenceIds[j]))
      && r.value.candidateId == candidateId && r.value.baseRevision == base && r.value.digests == digests
      && r.value.deliveryPayload == None
    else if r.error.DuplicatePath? then
      IsRepeated(paths, r.error.path) && forall key :: IsRepeated(paths, key) ==> !Less(key, r.error.path)
    else
      && (forall key :: !IsRepeated(paths, key))
      && IsRepeated(evidence, r.error.id) && forall key :: IsRepeated(evidence, key) ==> !Less(key, r.error.id)
  }

  lemma NewExactly(
      candidateId: bytes, base: Option<bytes>, files: seq<CandidateFile>, digests: CandidateDigests,
      evidence: seq<bytes>)
    ensures
      IsOutcome(
        candidateId, base, files, digests, evidence,
        NewFromSorted(candidateId, base, SortBy(PathOf, files), digests, SortBy(IdOf, evidence)))
  {
    hide AdjacentRepeat, Keys, IsRepeated, Sorted, Less, SortBy;
    SortBySorts(PathOf, files);
    SortBySorts(IdOf, evidence);
    IdKeys(SortBy(IdOf, evidence));
    SortedScan(PathOf, SortBy(PathOf, files), files);
    IdKeys(evidence);
    SortedScan(IdOf, SortBy(IdOf, evidence), evidence);
    var sorted := SortBy(PathOf, files);
    assert forall i :: 0 <= i < |sorted| ==> Keys(PathOf, sorted)[i] == sorted[i].path;
  }

  /** What the adjacent scan of a sorted copy says about the original. */
  lemma SortedScan<T(!new)>(key: T -> bytes, sorted: seq<T>, items: seq<T>)
    requires SortedCopy(key, sorted, items)
    ensures
      match AdjacentRepeat(Keys(key, sorted))
      case Some(k) =>
        IsRepeated(Keys(key, items), k) && forall l :: IsRepeated(Keys(key, items), l) ==> !Less(l, k)
      case None =>
        && (forall l :: !IsRepeated(Keys(key, items), l))
        && forall i, j :: 0 <= i < j < |sorted| ==> Less(Keys(key, sorted)[i], Keys(key, sorted)[j])
  {
    hide AdjacentRepeat, Keys, Less, IsRepeated;
    KeysMultiset(key, sorted, items);
    forall l ensures IsRepeated(Keys(key, items), l) <==> IsRepeated(Keys(key, sorted), l) {
      RepeatedIsCounted(Keys(key, items), l);
      RepeatedIsCounted(Keys(key, sorted), l);
    }
    RepeatFound(Keys(key, sorted));
    if AdjacentRepeat(Keys(key, sorted)).Some? {
      LeastRepeat(Keys(key, sorted));
    } else {
      DistinctNotRepeated(Keys(key, sorted));
      StrictlySorted(Keys(key, sorted));
    }
  }

  lemma DistinctNotRepeated(keys: seq<bytes>)
    requires NoDup(keys)
    ensures forall l :: !IsRepeated(keys, l)
  {}

  lemma StrictlySorted(keys: seq<bytes>)
    requires Sorted(keys) && NoDup(keys)
    ensures forall i, j :: 0 <= i < j < |keys| ==> Less(keys[i], keys[j])
  {
    hide Less;
    forall i, j | 0 <= i < j < |keys| ensures Less(keys[i], keys[j]) {
      LessTotal(keys[i], keys[j]);
    }
  }

  // ----- canonical bytes

  predicate Encodable(m: CandidateManifest) {
    && (m.baseRevision.Some? ==> FitsU64(|m.baseRevision.value|))
    && FitsU64(|m.files|) && FitsU64(|m.evidenceIds|)
    && (forall i :: 0 <= i < |m.files| ==> FitsU64(|m.files[i].path|))
    && (forall i :: 0 <= i < |m.evidenceIds| ==> |m.evidenceIds[i]| == 16)
  }

  function KindName(kind: Kind): (name: bytes)
    ensures FitsU64(|name|)
  {
    WordSizes();
    match kind
    case Added => Ascii("added")
    case Deleted => Ascii("deleted")
    case Generated => Ascii("generated")
    case Modified => Ascii("modified")
  }

  function FileFields(file: CandidateFile): bytes
    requires FitsU64(|file.path|)
  {
    Field(file.path) +
    (match file.digest
     case Some(d) => Flag(true) + DigestField(d)
     case None => Flag(false)) +
    Field(KindName(file.kind))
  }

  function FilesFields(files: seq<CandidateFile>): bytes
    requires forall i :: 0 <= i < |files| ==> FitsU64(|files[i].path|)
  {
    if files == [] then [] else FileFields(files[0]) + FilesFields(files[1..])
  }

  function EvidenceFields(ids: seq<bytes>): bytes
    requires forall i :: 0 <= i < |ids| ==> |ids[i]| == 16
  {
    WordSizes();
    if ids == [] then [] else Field(ids[0]) + EvidenceFields(ids[1..])
  }

  function DigestsFields(d: CandidateDigests): bytes {
    DigestField(d.diff) + DigestField(d.dependencyState) + DigestField(d.configuration) + DigestField(d.environment)
  }

  function PayloadFields(d: Option<digest>): bytes {
    match d
    case Some(d) => Flag(true) + DigestField(d)
    case None => []
  }

  function Preimage(m: CandidateManifest): bytes
    requires Encodable(m)
  {
    WordSizes();
    Field(CANDIDATE_DOMAIN) + OptionalField(m.baseRevision) + U64(|m.files|) + FilesFields(m.files) +
    DigestsFields(m.digests) + U64(|m.evidenceIds|) + EvidenceFields(m.evidenceIds) + PayloadFields(m.deliveryPayload)
  }

  lemma {:induction false} ZeroStartsWithZero(width: nat)
    requires 0 < width
    ensures 0 < Pow256(width) && BigEndian(0, width)[0] == 0
  {
    if width > 1 { ZeroStartsWithZero(width - 1); }
  }

  /** No candidate and no ledger entry are hashed from the same bytes: a candidate's start with the length of its
      domain, an entry's with a letter of its own. */
  lemma ApartFromLedger(m: CandidateManifest, sequence: nat, previous: Option<digest>, event: bytes)
    requires Encodable(m) && FitsU64(sequence) && FitsU64(|event|)
    ensures Preimage(m) != Ledger.Preimage(sequence, previous, event)
  {
    hide OptionalField, FilesFields, DigestsFields, EvidenceFields, PayloadFields;
    WordSizes();
    var n := |CANDIDATE_DOMAIN|;
    assert n == 30;
    ZeroStartsWithZero(7);
    assert BigEndian(n, 8) == BigEndian(0, 7) + [30];
    assert Field(CANDIDATE_DOMAIN)[0] == BigEndian(n, 8)[0] == 0;
    assert Preimage(m)[0] == Field(CANDIDATE_DOMAIN)[0];
    assert Ledger.ENTRY_DOMAIN[0] == 'o' as int % 256 == 111;
    assert Ledger.Preimage(sequence, previous, event)[0] == Ledger.ENTRY_DOMAIN[0];
  }

  /** `digest` feeds the hasher field by field, exactly the canonical bytes. */
  method Digest(m: CandidateManifest, hash: Hash) returns (d: digest)
    requires Encodable(m)
    ensures d == hash(Preimage(m))
  {
    hide Field, OptionalField, U64, FilesFields, EvidenceFields, DigestsFields, PayloadFields;
    WordSizes();
    var hasher := new CanonicalHasher(CANDIDATE_DOMAIN);
    hasher.WriteOptional(m.baseRevision);
    hasher.WriteU64(|m.files|);
    WriteFiles(hasher, m.files);
    WriteDigests(hasher, m.digests);
    hasher.WriteU64(|m.evidenceIds|);
    WriteEvidence(hasher, m.evidenceIds);
    WritePayload(hasher, m.deliveryPayload);
    d := hasher.Finish(hash);
  }

  method WriteDigests(hasher: CanonicalHasher, d: CandidateDigests)
    modifies hasher
    ensures hasher.input == old(hasher.input) + DigestsFields(d)
  {
    hide DigestField;
    hasher.WriteDigest(d.diff);
    hasher.WriteDigest(d.dependencyState);
    hasher.WriteDigest(d.configuration);
    hasher.WriteDigest(d.environment);
  }

  method WritePayload(hasher: CanonicalHasher, d: Option<digest>)
    modifies hasher
    ensures hasher.input == old(hasher.input) + PayloadFields(d)
  {
    hide DigestField, Flag;
    if d.Some? {
      hasher.WriteBool(true);
      hasher.WriteDigest(d.value);
    }
  }

  method WriteFile(hasher: CanonicalHasher, file: CandidateFile)
    requires FitsU64(|file.path|)
    modifies hasher
    ensures hasher.input == old(hasher.input) + FileFields(file)
  {
    hide DigestField, Flag, Field, KindName;
    hasher.WriteBytes(file.path);
    hasher.WriteBool(file.digest.Some?);
    if file.digest.Some? {
      hasher.WriteDigest(file.digest.value);
    }
    hasher.WriteBytes(KindName(file.kind));
  }

  method WriteFiles(hasher: CanonicalHasher, files: seq<CandidateFile>)
    requires forall i :: 0 <= i < |files| ==> FitsU64(|files[i].path|)
    modifies hasher
    ensures hasher.input == old(hasher.input) + FilesFields(files)
  {
    hide FileFields;
    assert files[0..] == files;
    for n := 0 to |files|
      invariant hasher.input + FilesFields(files[n..]) == old(hasher.input) + FilesFields(files)
    {
      assert files[n..][1..] == files[n + 1..];
      WriteFile(hasher, files[n]);
    }
  }

  method WriteEvidence(hasher: CanonicalHasher, ids: seq<bytes>)
    requires forall i :: 0 <= i < |ids| ==> |ids[i]| == 16
    modifies hasher
    ensures hasher.input == old(hasher.input) + EvidenceFields(ids)
  {
    hide Field;
    assert FitsU64(16) by { WordSizes(); }
    assert ids[0..] == ids;
    for n := 0 to |ids|
      invariant hasher.input + EvidenceFields(ids[n..]) == old(hasher.input) + EvidenceFields(ids)
    {
      assert ids[n..][1..] == ids[n + 1..];
      hasher.WriteBytes(ids[n]);
    }
  }

  // ----- reading the canonical bytes back

  /** Every field of a manifest that its digest covers. */
  datatype Covered = Covered(
    baseRevision: Option<bytes>,
    files: seq<(bytes, Option<digest>, Kind)>,
    digests: CandidateDigests,
    evidenceIds: seq<bytes>,
    deliveryPayload: Option<digest>)

  function CoveredFile(file: CandidateFile): (bytes, Option<digest>, Kind) {
    (file.path, file.digest, file.kind)
  }

  function CoveredFiles(files: seq<CandidateFile>): seq<(bytes, Option<digest>, Kind)> {
    if files == [] then [] else [CoveredFile(files[0])] + CoveredFiles(files[1..])
  }

  /** All but `candidateId` and the `executable` flags. */
  function CoveredBy(m: CandidateManifest): Covered {
    Covered(m.baseRevision, CoveredFiles(m.files), m.digests, m.evidenceIds, m.deliveryPayload)
  }

  function ReadKind(s: bytes): Read<Kind> {
    match ReadField(s)
    case None => None
    case Some((name, rest)) =>
      if name == KindName(Added) then Some((Added, rest))
      else if name == KindName(Deleted) then Some((Deleted, rest))
      else if name == KindName(Generated) then Some((Generated, rest))
      else if name == KindName(Modified) then Some((Modified, rest))
      else None
  }

  function ReadOptionalDigest(s: bytes): Read<Option<digest>> {
    match ReadFlag(s)
    case None => None
    case Some((false, rest)) => Some((None, rest))
    case Some((true, rest)) =>
      match ReadDigest(rest)
      case None => None
      case Some((d, rest)) => Some((Some(d), rest))
  }

  function ReadFile(s: bytes): Read<(bytes, Option<digest>, Kind)> {
    match ReadField(s)
    case None => None
    case Some((path, rest)) =>
      match ReadOptionalDigest(rest)
      case None => None
      case Some((d, rest)) =>
        match ReadKind(rest)
        case None => None
        case Some((kind, rest)) => Some(((path, d, kind), rest))
  }

  function ReadFiles(n: nat, s: bytes): Read<seq<(bytes, Option<digest>, Kind)>> {
    if n == 0 then Some(([], s))
    else
      match ReadFile(s)
      case None => None
      case Some((file, rest)) =>
        match ReadFiles(n - 1, rest)
        case None => None
        case Some((files, rest)) => Some(([file] + files, rest))
  }

  function ReadEvidence(n: nat, s: bytes): Read<seq<bytes>> {
    if n == 0 then Some(([], s))
    else
      match ReadField(s)
      case None => None
      case Some((id, rest)) =>
        match ReadEvidence(n - 1, rest)
        case None => None
        case Some((ids, rest)) => Some(([id] + ids, rest))
  }

  function ReadDigests(s: bytes): Read<CandidateDigests> {
    match ReadDigest(s)
    case None => None
    case Some((diff, rest)) =>
      match ReadDigest(rest)
      case None => None
      case Some((dependencies, rest)) =>
        match ReadDigest(rest)
        case None => None
        case Some((configuration, rest)) =>
          match ReadDigest(rest)
          case None => None
          case Some((environment, rest)) =>
            Some((CandidateDigests(configuration, dependencies, diff, environment), rest))
  }

  function ReadTail(s: bytes): Option<(seq<bytes>, Option<digest>)> {
    match ReadU64(s)
    case None => None
    case Some((n, rest)) =>
      match ReadEvidence(n, rest)
      case None => None
      case Some((ids, rest)) =>
        if rest == [] then Some((ids, None))
        else
          match ReadOptionalDigest(rest)
          case None => None
          case Some((d, rest)) => if rest == [] then Some((ids, d)) else None
  }

  function ReadBody(s: bytes): Option<Covered> {
    match ReadOptionalField(s)
    case None => None
    case Some((base, rest)) =>
      match ReadU64(rest)
      case None => None
      case Some((n, rest)) =>
        match ReadFiles(n, rest)
        case None => None
        case Some((files, rest)) =>
          match ReadDigests(rest)
          case None => None
          case Some((digests, rest)) =>
            match ReadTail(rest)
            case None => None
            case Some((ids, payload)) => Some(Covered(base, files, digests, ids, payload))
  }

  /** A reader of canonical bytes, independent of how they are written. */
  function ReadManifest(s: bytes): Option<Covered> {
    match ReadField(s)
    case None => None
    case Some((domain, rest)) => if domain == CANDIDATE_DOMAIN then ReadBody(rest) else None
  }

  lemma KindNames()
    ensures KindName(Added) != KindName(Deleted) && KindName(Added) != KindName(Generated)
    ensures KindName(Added) != KindName(Modified) && KindName(Deleted) != KindName(Generated)
    ensures KindName(Deleted) != KindName(Modified) && KindName(Generated) != KindName(Modified)
  {
    assert
      |KindName(Added)| == 5 && |KindName(Deleted)| == 7 && |KindName(Generated)| == 9 && |KindName(Modified)| == 8;
  }

  lemma ReadKindBack(kind: Kind, rest: bytes)
    ensures ReadKind(Field(KindName(kind)) + rest) == Some((kind, rest))
  {
    hide KindName;
    ReadFieldBack(KindName(kind), rest);
    KindNames();
  }

  function OptionalDigestFields(d: Option<digest>): bytes {
    match d
    case Some(d) => Flag(true) + DigestField(d)
    case None => Flag(false)
  }

  lemma ReadOptionalDigestBack(d: Option<digest>, rest: bytes)
    ensures ReadOptionalDigest(OptionalDigestFields(d) + rest) == Some((d, rest))
  {
    match d
    case None => ReadFlagBack(false, rest);
    case Some(v) =>
      assert OptionalDigestFields(d) + rest == Flag(true) + (DigestField(v) + rest);
      ReadFlagBack(true, DigestField(v) + rest);
      ReadDigestBack(v, rest);
  }

  lemma {:induction false} ReadFileBack(file: CandidateFile, rest: bytes)
    requires FitsU64(|file.path|)
    ensures ReadFile(FileFields(file) + rest) == Some((CoveredFile(file), rest))
  {
    hide Field, OptionalDigestFields, KindName, ReadField, ReadOptionalDigest, ReadKind;
    var kind := Field(KindName(file.kind)) + rest;
    var d := OptionalDigestFields(file.digest) + kind;
    assert FileFields(file) + rest == Field(file.path) + d by { FileFieldsParts(file); }
    ReadFieldBack(file.path, d);
    ReadOptionalDigestBack(file.digest, kind);
    ReadKindBack(file.kind, rest);
  }

  lemma FileFieldsParts(file: CandidateFile)
    requires FitsU64(|file.path|)
    ensures FileFields(file) == Field(file.path) + OptionalDigestFields(file.digest) + Field(KindName(file.kind))
  {}

  lemma {:induction false} ReadFilesBack(files: seq<CandidateFile>, rest: bytes)
    requires forall i :: 0 <= i < |files| ==> FitsU64(|files[i].path|)
    ensures ReadFiles(|files|, FilesFields(files) + rest) == Some((CoveredFiles(files), rest))
  {
    hide FileFields, ReadFile;
    if files == [] {
      assert FilesFields(files) + rest == rest;
    } else {
      assert FilesFields(files) + rest == FileFields(files[0]) + (FilesFields(files[1..]) + rest);
      ReadFileBack(files[0], FilesFields(files[1..]) + rest);
      ReadFilesBack(files[1..], rest);
    }
  }

  lemma {:induction false} ReadEvidenceBack(ids: seq<bytes>, rest: bytes)
    requires forall i :: 0 <= i < |ids| ==> |ids[i]| == 16
    ensures ReadEvidence(|ids|, EvidenceFields(ids) + rest) == Some((ids, rest))
  {
    hide Field, ReadField;
    WordSizes();
    if ids == [] {
      assert EvidenceFields(ids) + rest == rest;
    } else {
      assert EvidenceFields(ids) + rest == Field(ids[0]) + (EvidenceFields(ids[1..]) + rest);
      ReadFieldBack(ids[0], EvidenceFields(ids[1..]) + rest);
      ReadEvidenceBack(ids[1..], rest);
      assert ids == [ids[0]] + ids[1..];
    }
  }

  lemma ReadDigestsBack(d: CandidateDigests, rest: bytes)
    ensures ReadDigests(DigestsFields(d) + rest) == Some((d, rest))
  {
    hide DigestField, ReadDigest;
    var r3 := DigestField(d.environment) + rest;
    var r2 := DigestField(d.configuration) + r3;
    var r1 := DigestField(d.dependencyState) + r2;
    assert DigestsFields(d) + rest == DigestField(d.diff) + r1;
    ReadDigestBack(d.diff, r1);
    ReadDigestBack(d.dependencyState, r2);
    ReadDigestBack(d.configuration, r3);
    ReadDigestBack(d.environment, rest);
  }

  function TailFields(m: CandidateManifest): bytes
    requires Encodable(m)
  {
    U64(|m.evidenceIds|) + (EvidenceFields(m.evidenceIds) + PayloadFields(m.deliveryPayload))
  }

  lemma ReadTailBack(m: CandidateManifest)
    requires Encodable(m)
    ensures ReadTail(TailFields(m)) == Some((m.evidenceIds, m.deliveryPayload))
  {
    hide EvidenceFields, ReadEvidence, ReadOptionalDigest, ReadU64, U64;
    var payload := PayloadFields(m.deliveryPayload);
    ReadU64Back(|m.evidenceIds|, EvidenceFields(m.evidenceIds) + payload);
    ReadEvidenceBack(m.evidenceIds, payload);
    if m.deliveryPayload.Some? {
      assert payload == OptionalDigestFields(m.deliveryPayload) + [];
      ReadOptionalDigestBack(m.deliveryPayload, []);
      assert |payload| > 0;
    }
  }

  /** The canonical bytes decode back to every covered field. */
  lemma ReadManifestBack(m: CandidateManifest)
    requires Encodable(m)
    ensures ReadManifest(Preimage(m)) == Some(CoveredBy(m))
  {
    WordSizes();
    ReadBodyBack(m);
    PreimageParts(m);
    ReadFieldBack(CANDIDATE_DOMAIN, BodyFields(m));
  }

  function BodyFields(m: CandidateManifest): bytes
    requires Encodable(m)
  {
    OptionalField(m.baseRevision) + (
      U64(|m.files|) + (FilesFields(m.files) + (DigestsFields(m.digests) + TailFields(m))))
  }

  lemma {:induction false} PreimageParts(m: CandidateManifest)
    requires Encodable(m)
    ensures FitsU64(|CANDIDATE_DOMAIN|) && Preimage(m) == Field(CANDIDATE_DOMAIN) + BodyFields(m)
  {
    hide Field, OptionalField, U64, FilesFields, DigestsFields, EvidenceFields, PayloadFields;
    WordSizes();
  }

  lemma ReadBodyBack(m: CandidateManifest)
    requires Encodable(m)
    ensures ReadBody(BodyFields(m)) == Some(CoveredBy(m))
  {
    hide OptionalField, U64, FilesFields, DigestsFields, TailFields, CoveredFiles;
    hide ReadOptionalField, ReadU64, ReadFiles, ReadDigests, ReadTail;
    var r3 := DigestsFields(m.digests) + TailFields(m);
    var r2 := FilesFields(m.files) + r3;
    var r1 := U64(|m.files|) + r2;
    ReadOptionalFieldBack(m.baseRevision, r1);
    ReadU64Back(|m.files|, r2);
    ReadFilesBack(m.files, r3);
    ReadDigestsBack(m.digests, TailFields(m));
    ReadTailBack(m);
  }

  /** Equal digests mean equal covered fields, unless the hash collides on these two manifests. */
  lemma DigestPinsManifest(hash: Hash, a: CandidateManifest, b: CandidateManifest)
    requires Encodable(a) && Encodable(b) && CollisionFree(hash, {Preimage(a), Preimage(b)})
    ensures hash(Preimage(a)) == hash(Preimage(b)) <==> CoveredBy(a) == CoveredBy(b)
  {
    ReadManifestBack(a);
    ReadManifestBack(b);
    if CoveredBy(a) == CoveredBy(b) { SamePreimage(a, b); }
  }

  lemma {:induction false} SamePreimage(a: CandidateManifest, b: CandidateManifest)
    requires Encodable(a) && Encodable(b) && CoveredBy(a) == CoveredBy(b)
    ensures Preimage(a) == Preimage(b)
  {
    SameFilesFields(a.files, b.files);
  }

  lemma {:induction false} SameFilesFields(a: seq<CandidateFile>, b: seq<CandidateFile>)
    requires forall i :: 0 <= i < |a| ==> FitsU64(|a[i].path|)
    requires forall i :: 0 <= i < |b| ==> FitsU64(|b[i].path|)
    requires CoveredFiles(a) == CoveredFiles(b)
    ensures |a| == |b| && FilesFields(a) == FilesFields(b)
  {
    if a != [] && b != [] {
      assert CoveredFiles(a)[0] == CoveredFiles(b)[0];
      assert CoveredFiles(a)[1..] == CoveredFiles(a[1..]) && CoveredFiles(b)[1..] == CoveredFiles(b[1..]);
      SameFilesFields(a[1..], b[1..]);
    }
  }
}
