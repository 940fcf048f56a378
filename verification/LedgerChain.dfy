/** The hash chain of crates/workflow-ledger/src/chain.rs. An event stands for its canonical bytes:
    its JSON serialisation is not part of this model. */
module LedgerChaining {
  import opened Sequences
  import opened Bytes
  import opened Digests

  const ENTRY_DOMAIN: bytes := Ascii("opencode-workflow-ledger-entry-v1")

  datatype LedgerEntry = LedgerEntry(event: bytes, hash: digest, previousHash: Option<digest>, sequence: nat)

  datatype LedgerError = Capacity

  datatype ChainFailure = EntryHash | PreviousHash | Sequence

  datatype ChainVerification =
    | Valid(entries: nat, head: Option<digest>)
    | Broken(reason: ChainFailure, sequence: nat)
    | HeadMismatch(actual: Option<digest>, expected: Option<digest>)

  function PreviousField(previous: Option<digest>): bytes {
    match previous
    case Some(d) => [1] + d
    case None => [0]
  }

  /** The bytes whose digest is an entry's hash. */
  function Preimage(sequence: nat, previous: Option<digest>, event: bytes): bytes
    requires FitsU64(sequence) && FitsU64(|event|)
  {
    ENTRY_DOMAIN + (U64(sequence) + (PreviousField(previous) + Field(event)))
  }

  /** The preimage determines the sequence number, the previous hash and the event. */
  lemma PreimageInjective(s0: nat, p0: Option<digest>, e0: bytes, s1: nat, p1: Option<digest>, e1: bytes)
    requires FitsU64(s0) && FitsU64(|e0|) && FitsU64(s1) && FitsU64(|e1|)
    requires Preimage(s0, p0, e0) == Preimage(s1, p1, e1)
    ensures s0 == s1 && p0 == p1 && e0 == e1
  {
    var t0, t1 := PreviousField(p0) + Field(e0), PreviousField(p1) + Field(e1);
    Cancel(ENTRY_DOMAIN, U64(s0) + t0, U64(s1) + t1);
    ReadU64Back(s0, t0);
    ReadU64Back(s1, t1);
    assert t0 == t1 && t0[0] == PreviousField(p0)[0] && t1[0] == PreviousField(p1)[0];
    var n := |PreviousField(p0)|;
    assert t0[..n] == PreviousField(p0) && t1[..n] == PreviousField(p1);
    assert t0[n..] == Field(e0) && t1[n..] == Field(e1);
    if p0.Some? { assert p0.value == t0[..n][1..] && p1.value == t1[..n][1..]; }
    ReadFieldBack(e0, []);
    ReadFieldBack(e1, []);
    assert Field(e0) + [] == Field(e1) + [];
  }

  lemma Cancel(prefix: bytes, a: bytes, b: bytes)
    requires prefix + a == prefix + b
    ensures a == b
  {
    assert a == (prefix + a)[|prefix|..] && b == (prefix + b)[|prefix|..];
  }

  function CalculateHash(
      hash: Hash, sequence: nat, previous: Option<digest>, event: bytes): (r: Result<digest, LedgerError>)
    requires FitsU64(sequence)
    ensures r.Ok? <==> FitsU64(|event|)
  {
    if !FitsU64(|event|) then Err(Capacity) else Ok(hash(Preimage(sequence, previous, event)))
  }

  function Head(entries: seq<LedgerEntry>): Option<digest> {
    if entries == [] then None else Some(entries[|entries| - 1].hash)
  }

  /** Entry `i` continues the entries before it. */
  predicate Continues(hash: Hash, entries: seq<LedgerEntry>, i: nat)
    requires i < |entries|
  {
    && FitsU64(i)
    && entries[i].sequence == i
    && entries[i].previousHash == Head(entries[..i])
    && CalculateHash(hash, i, entries[i].previousHash, entries[i].event) == Ok(entries[i].hash)
  }

  ghost predicate ValidChain(hash: Hash, entries: seq<LedgerEntry>) {
    forall i :: 0 <= i < |entries| ==> Continues(hash, entries, i)
  }

  lemma ValidPrefix(hash: Hash, entries: seq<LedgerEntry>, n: nat)
    requires ValidChain(hash, entries) && n <= |entries|
    ensures ValidChain(hash, entries[..n])
  {
    forall i | 0 <= i < n ensures Continues(hash, entries[..n], i) {
      assert Continues(hash, entries, i);
      assert entries[..n][..i] == entries[..i];
    }
  }

  ghost function Preimages(entries: seq<LedgerEntry>): set<bytes> {
    set i | 0 <= i < |entries| && FitsU64(entries[i].sequence) && FitsU64(|entries[i].event|) ::
      Preimage(entries[i].sequence, entries[i].previousHash, entries[i].event)
  }

  lemma EntryPreimage(hash: Hash, entries: seq<LedgerEntry>, i: nat)
    requires i < |entries| && Continues(hash, entries, i)
    ensures FitsU64(|entries[i].event|)
    ensures Preimage(i, entries[i].previousHash, entries[i].event) in Preimages(entries)
    ensures entries[i].hash == hash(Preimage(i, entries[i].previousHash, entries[i].event))
  {
    hide Preimage;
    assert Preimage(entries[i].sequence, entries[i].previousHash, entries[i].event) in Preimages(entries);
  }

  lemma SameHash(hash: Hash, inputs: set<bytes>, x: bytes, y: bytes)
    requires CollisionFree(hash, inputs) && x in inputs && y in inputs && hash(x) == hash(y)
    ensures x == y
  {}

  /** Equal heads mean equal last entries. */
  lemma {:induction false} LastEntriesEqual(hash: Hash, a: seq<LedgerEntry>, b: seq<LedgerEntry>, m: nat, n: nat)
    requires |a| == m + 1 && |b| == n + 1 && a[m].hash == b[n].hash
    requires Continues(hash, a, m) && Continues(hash, b, n)
    requires CollisionFree(hash, Preimages(a) + Preimages(b))
    ensures m == n && a[m] == b[n]
  {
    EntryPreimage(hash, a, m);
    EntryPreimage(hash, b, n);
    SameHash(hash, Preimages(a) + Preimages(b),
      Preimage(m, a[m].previousHash, a[m].event), Preimage(n, b[n].previousHash, b[n].event));
    PreimageInjective(m, a[m].previousHash, a[m].event, n, b[n].previousHash, b[n].event);
  }

  /** Two chains that both verify with equal heads are identical, entry by entry, unless the hash
      collides on two of the very entries they hold. */
  lemma {:induction false} HeadPinsHistory(hash: Hash, a: seq<LedgerEntry>, b: seq<LedgerEntry>)
    requires ValidChain(hash, a) && ValidChain(hash, b) && Head(a) == Head(b)
    requires CollisionFree(hash, Preimages(a) + Preimages(b))
    ensures a == b
    decreases |a|
  {
    hide Preimages;
    if a != [] {
      var m := |a| - 1;
      assert Continues(hash, a, m) && Continues(hash, b, |b| - 1);
      LastEntriesEqual(hash, a, b, m, |b| - 1);
      ValidPrefix(hash, a, m);
      ValidPrefix(hash, b, m);
      PrefixPreimages(a, m);
      PrefixPreimages(b, m);
      FewerInputs(hash, Preimages(a[..m]) + Preimages(b[..m]), Preimages(a) + Preimages(b));
      HeadPinsHistory(hash, a[..m], b[..m]);
      assert a == a[..m] + [a[m]] && b == b[..m] + [b[m]];
    }
  }

  lemma FewerInputs(hash: Hash, few: set<bytes>, many: set<bytes>)
    requires few <= many && CollisionFree(hash, many)
    ensures CollisionFree(hash, few)
  {}

  lemma PrefixPreimages(entries: seq<LedgerEntry>, n: nat)
    requires n <= |entries|
    ensures Preimages(entries[..n]) <= Preimages(entries)
  {}

  /** Dropping entries from the end of a chain changes its head. */
  lemma TruncationChangesHead(hash: Hash, entries: seq<LedgerEntry>, n: nat)
    requires ValidChain(hash, entries) && n < |entries|
    requires CollisionFree(hash, Preimages(entries))
    ensures Head(entries[..n]) != Head(entries)
  {
    if Head(entries[..n]) == Head(entries) {
      ValidPrefix(hash, entries, n);
      PrefixPreimages(entries, n);
      assert Preimages(entries[..n]) + Preimages(entries) == Preimages(entries);
      HeadPinsHistory(hash, entries[..n], entries);
    }
  }

  /** The first of the three comparisons that entry `i` fails. */
  predicate FailsBy(hash: Hash, entries: seq<LedgerEntry>, i: nat, reason: ChainFailure)
    requires i < |entries| && FitsU64(i)
  {
    var entry, previous := entries[i], Head(entries[..i]);
    match reason
    case Sequence => entry.sequence != i
    case PreviousHash => entry.sequence == i && entry.previousHash != previous
    case EntryHash =>
      && entry.sequence == i && entry.previousHash == previous
      && CalculateHash(hash, i, previous, entry.event) != Ok(entry.hash)
  }

  class LedgerChain {
    var entries: seq<LedgerEntry>

    constructor (entries: seq<LedgerEntry>)
      ensures this.entries == entries
    {
      this.entries := entries;
    }

    /** Appending to a valid chain keeps it valid and extends it by one entry for the event. */
    method Append(hash: Hash, event: bytes) returns (r: Result<LedgerEntry, LedgerError>)
      modifies this
      ensures r.Err? <==> !FitsU64(|old(entries)|) || !FitsU64(|event|)
      ensures r.Err? ==> entries == old(entries)
      ensures r.Ok? ==> entries == old(entries) + [r.value] && r.value.event == event
      ensures r.Ok? && ValidChain(hash, old(entries)) ==> ValidChain(hash, entries)
    {
      if !FitsU64(|entries|) {
        return Err(Capacity);
      }
      var sequence := |entries|;
      var previous := Head(entries);
      match CalculateHash(hash, sequence, previous, event)
      case Err(error) => return Err(error);
      case Ok(d) =>
        var entry := LedgerEntry(event, d, previous, sequence);
        ghost var before := entries;
        entries := entries + [entry];
        assert entries[..sequence] == before;
        if ValidChain(hash, before) { Extends(hash, before, entry); }
        return Ok(entry);
    }

    /** `Valid` is returned exactly for a valid chain that ends at the expected head, if one is given; otherwise the
        first broken entry is named, with the first comparison that fails there. */
    method Verify(hash: Hash, expectedHead: Option<digest>) returns (r: ChainVerification)
      ensures r.Valid? <==> ValidChain(hash, entries) && (expectedHead.Some? ==> expectedHead == Head(entries))
      ensures r.Valid? ==> r == Valid(|entries|, Head(entries))
      ensures r.HeadMismatch? ==> ValidChain(hash, entries) && r == HeadMismatch(Head(entries), expectedHead)
      ensures r.Broken? && FitsU64(|entries|) ==>
                && r.sequence < |entries| && ValidChain(hash, entries[..r.sequence])
                && !Continues(hash, entries, r.sequence)
                && FailsBy(hash, entries, r.sequence, r.reason)
    {
      var previous: Option<digest> := None;
      for index := 0 to |entries|
        invariant ValidChain(hash, entries[..index])
        invariant previous == Head(entries[..index])
      {
        if !FitsU64(index) {
          assert !Continues(hash, entries, index);
          return Broken(Sequence, Pow256(8) - 1);
        }
        var entry := entries[index];
        if entry.sequence != index {
          assert !Continues(hash, entries, index);
          return Broken(Sequence, index);
        }
        if entry.previousHash != previous {
          assert !Continues(hash, entries, index);
          return Broken(PreviousHash, index);
        }
        if CalculateHash(hash, index, previous, entry.event) != Ok(entry.hash) {
          assert !Continues(hash, entries, index);
          return Broken(EntryHash, index);
        }
        previous := Some(entry.hash);
        assert Continues(hash, entries, index);
        ExtendsPrefix(hash, entries, index);
      }
      assert entries[..|entries|] == entries;
      if expectedHead.Some? && expectedHead != previous {
        return HeadMismatch(previous, expectedHead);
      }
      return Valid(|entries|, previous);
    }
  }

  lemma Extends(hash: Hash, entries: seq<LedgerEntry>, entry: LedgerEntry)
    requires ValidChain(hash, entries) && Continues(hash, entries + [entry], |entries|)
    ensures ValidChain(hash, entries + [entry])
  {
    forall i | 0 <= i < |entries| ensures Continues(hash, entries + [entry], i) {
      assert Continues(hash, entries, i);
      assert (entries + [entry])[..i] == entries[..i];
    }
  }

  lemma ExtendsPrefix(hash: Hash, entries: seq<LedgerEntry>, n: nat)
    requires n < |entries| && ValidChain(hash, entries[..n]) && Continues(hash, entries, n)
    ensures ValidChain(hash, entries[..n + 1])
  {
    assert entries[..n + 1] == entries[..n] + [entries[n]];
    assert entries[..n + 1][..n] == entries[..n];
    Extends(hash, entries[..n], entries[n]);
  }
}
