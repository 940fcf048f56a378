/** Content digests and the canonical writers of crates/workflow-core/src/digest.rs.
    SHA-256 itself is not part of this model: where a digest is computed, the hash is a parameter. */
module Digests {
  import opened Sequences
  import opened Bytes

  type digest = d: bytes | |d| == 32 witness seq(32, i => 0)

  type Hash = bytes -> digest

  /** No two different inputs among `inputs` share a digest. */
  ghost predicate CollisionFree(hash: Hash, inputs: set<bytes>) {
    forall x, y :: x in inputs && y in inputs && hash(x) == hash(y) ==> x == y
  }

  // ----- printing and parsing

  datatype DigestParseError = DigestParseError

  function Ascii(s: string): (b: bytes)
    ensures |b| == |s|
  {
    seq(|s|, i requires 0 <= i < |s| => s[i] as int % 256)
  }

  function HexDigit(n: nat): (c: byte)
    requires n < 16
    ensures IsHexDigit(c)
  {
    if n < 10 then 48 + n else 87 + n
  }

  /** `0-9` or `a-f` */
  predicate IsHexDigit(c: byte) {
    48 <= c <= 57 || 97 <= c <= 102
  }

  function HexValue(c: byte): (n: nat)
    requires IsHexDigit(c)
    ensures n < 16 && HexDigit(n) == c
  {
    if c <= 57 then c - 48 else c - 87
  }

  function Print(d: bytes): (text: bytes)
    ensures |text| == 2 * |d|
  {
    if d == [] then [] else Print(d[..|d| - 1]) + [HexDigit(d[|d| - 1] / 16), HexDigit(d[|d| - 1] % 16)]
  }

  lemma {:induction false} PrintedDigits(d: bytes, i: nat)
    requires i < 2 * |d|
    ensures IsHexDigit(Print(d)[i])
    ensures HexValue(Print(d)[i]) == if i % 2 == 0 then d[i / 2] / 16 else d[i / 2] % 16
  {
    var n := |d| - 1;
    if i < 2 * n { PrintedDigits(d[..n], i); }
  }

  /** The text is the digest in base 16, the high half of every byte first, in digits and small letters. */
  lemma PrintedLetters(d: bytes, i: nat)
    requires i < |d|
    ensures Print(d)[2 * i] as char == "0123456789abcdef"[d[i] / 16]
    ensures Print(d)[2 * i + 1] as char == "0123456789abcdef"[d[i] % 16]
  {
    hide *;
    var high, low := d[i] / 16, d[i] % 16;
    PrintedDigits(d, 2 * i);
    PrintedDigits(d, 2 * i + 1);
    Halves(i);
    assert HexValue(Print(d)[2 * i]) == high && HexValue(Print(d)[2 * i + 1]) == low;
    Letter(high);
    Letter(low);
  }

  lemma Halves(i: nat)
    ensures 2 * i % 2 == 0 && 2 * i / 2 == i && (2 * i + 1) % 2 == 1 && (2 * i + 1) / 2 == i
  {}

  lemma Letter(n: nat)
    requires n < 16
    ensures HexDigit(n) as char == "0123456789abcdef"[n]
  {
    var letters := "0123456789abcdef";
    assert letters[0] == '0' && letters[5] == '5' && letters[10] == 'a' && letters[15] == 'f';
  }

  lemma PrintInjective(a: bytes, b: bytes)
    requires Print(a) == Print(b)
    ensures a == b
  {
    forall i | 0 <= i < |a| ensures a[i] == b[i] {
      PrintedDigits(a, 2 * i);
      PrintedDigits(a, 2 * i + 1);
      PrintedDigits(b, 2 * i);
      PrintedDigits(b, 2 * i + 1);
    }
  }

  /** `from_str` accepts exactly the printed digests, and returns the digest that was printed. */
  method Parse(text: bytes) returns (r: Result<digest, DigestParseError>)
    ensures r.Ok? ==> Print(r.value) == text
    ensures r.Err? ==> forall d: digest :: Print(d) != text
  {
    if |text| != 64 || exists i :: 0 <= i < |text| && !IsHexDigit(text[i]) {
      forall d: digest ensures Print(d) != text {
        forall i | 0 <= i < 64 ensures IsHexDigit(Print(d)[i]) { PrintedDigits(d, i); }
      }
      return Err(DigestParseError);
    }
    var output := new byte[32];
    for index := 0 to 32
      invariant Print(output[..index]) == text[..2 * index]
    {
      var offset := index * 2;
      output[index] := 16 * HexValue(text[offset]) + HexValue(text[offset + 1]);
      assert output[..index + 1][..index] == output[..index];
      assert text[..2 * index] + [text[offset], text[offset + 1]] == text[..2 * (index + 1)];
    }
    assert text[..64] == text && output[..32] == output[..];
    return Ok(output[..]);
  }

  // ----- what the canonical writers append, and how it is read back

  predicate FitsU64(n: nat) {
    WordSizes();
    n < Pow256(8)
  }

  function U64(n: nat): bytes
    requires FitsU64(n)
  {
    BigEndian(n, 8)
  }

  function Field(value: bytes): bytes
    requires FitsU64(|value|)
  {
    U64(|value|) + value
  }

  function Flag(value: bool): bytes {
    [if value then 1 else 0]
  }

  function OptionalField(value: Option<bytes>): bytes
    requires value.Some? ==> FitsU64(|value.value|)
  {
    match value
    case Some(value) => Flag(true) + Field(value)
    case None => Flag(false)
  }

  function DigestField(value: digest): bytes {
    WordSizes();
    Field(value)
  }

  type Read<T> = Option<(T, bytes)>

  function ReadU64(s: bytes): Read<nat> {
    if |s| < 8 then None else Some((FromBigEndian(s[..8]), s[8..]))
  }

  function ReadField(s: bytes): Read<bytes> {
    match ReadU64(s)
    case None => None
    case Some((n, rest)) => if |rest| < n then None else Some((rest[..n], rest[n..]))
  }

  function ReadFlag(s: bytes): Read<bool> {
    if s == [] || s[0] > 1 then None else Some((s[0] == 1, s[1..]))
  }

  function ReadOptionalField(s: bytes): Read<Option<bytes>> {
    match ReadFlag(s)
    case None => None
    case Some((false, rest)) => Some((None, rest))
    case Some((true, rest)) =>
      match ReadField(rest)
      case None => None
      case Some((value, rest)) => Some((Some(value), rest))
  }

  function ReadDigest(s: bytes): Read<digest> {
    match ReadField(s)
    case None => None
    case Some((d, rest)) => if |d| == 32 then Some((d, rest)) else None
  }

  lemma ReadU64Back(n: nat, rest: bytes)
    requires FitsU64(n)
    ensures ReadU64(U64(n) + rest) == Some((n, rest))
  {
    BigEndianRoundTrip(n, 8);
    var s := U64(n) + rest;
    assert s[..8] == U64(n) && s[8..] == rest;
  }

  lemma ReadFieldBack(value: bytes, rest: bytes)
    requires FitsU64(|value|)
    ensures ReadField(Field(value) + rest) == Some((value, rest))
  {
    assert Field(value) + rest == U64(|value|) + (value + rest);
    ReadU64Back(|value|, value + rest);
    assert (value + rest)[..|value|] == value && (value + rest)[|value|..] == rest;
  }

  lemma ReadFlagBack(value: bool, rest: bytes)
    ensures ReadFlag(Flag(value) + rest) == Some((value, rest))
  {
    assert (Flag(value) + rest)[1..] == rest;
  }

  lemma ReadOptionalFieldBack(value: Option<bytes>, rest: bytes)
    requires value.Some? ==> FitsU64(|value.value|)
    ensures ReadOptionalField(OptionalField(value) + rest) == Some((value, rest))
  {
    match value
    case None => ReadFlagBack(false, rest);
    case Some(v) =>
      assert OptionalField(value) + rest == Flag(true) + (Field(v) + rest);
      ReadFlagBack(true, Field(v) + rest);
      ReadFieldBack(v, rest);
  }

  lemma ReadDigestBack(value: digest, rest: bytes)
    ensures ReadDigest(DigestField(value) + rest) == Some((value, rest))
  {
    WordSizes();
    ReadFieldBack(value, rest);
  }

  /** The hasher absorbs bytes in order; a finished hasher has digested its whole input. */
  class CanonicalHasher {
    var input: bytes

    constructor (domain: bytes)
      requires FitsU64(|domain|)
      ensures input == Field(domain)
    {
      input := [];
      new;
      WriteBytes(domain);
      assert [] + Field(domain) == Field(domain);
    }

    method WriteBytes(value: bytes)
      requires FitsU64(|value|)
      modifies this
      ensures input == old(input) + Field(value)
    {
      input := input + U64(|value|);
      input := input + value;
    }

    method WriteOptional(value: Option<bytes>)
      requires value.Some? ==> FitsU64(|value.value|)
      modifies this
      ensures input == old(input) + OptionalField(value)
    {
      match value
      case Some(v) =>
        WriteBool(true);
        WriteBytes(v);
      case None => WriteBool(false);
    }

    method WriteDigest(value: digest)
      modifies this
      ensures input == old(input) + DigestField(value)
    {
      WordSizes();
      WriteBytes(value);
    }

    method WriteBool(value: bool)
      modifies this
      ensures input == old(input) + Flag(value)
    {
      input := input + [if value then 1 else 0];
    }

    method WriteU64(value: nat)
      requires FitsU64(value)
      modifies this
      ensures input == old(input) + U64(value)
    {
      input := input + BigEndian(value, 8);
    }

    method Finish(hash: Hash) returns (d: digest)
      ensures d == hash(input)
    {
      d := hash(input);
    }
  }
}
