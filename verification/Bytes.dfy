/** Bytes, the big-endian integers that frames and canonical encodings are built from, and the
    byte order in which the program sorts paths. */
module Bytes {
  import opened Sequences

  type byte = b: int | 0 <= b < 256
  type bytes = seq<byte>

  /** A content digest where only its identity matters. */
  type ContentDigest = bytes

  /** `/` in UTF-8 */
  const SLASH: byte := 47

  function Pow256(n: nat): (p: nat)
    ensures p > 0
  {
    if n == 0 then 1 else 256 * Pow256(n - 1)
  }

  /** `to_be_bytes` of an integer of `width` bytes. */
  function BigEndian(n: nat, width: nat): (b: bytes)
    requires n < Pow256(width)
    ensures |b| == width
  {
    if width == 0 then [] else BigEndian(n / 256, width - 1) + [n % 256]
  }

  /** `from_be_bytes` */
  function FromBigEndian(b: bytes): nat {
    if b == [] then 0 else FromBigEndian(b[..|b| - 1]) * 256 + b[|b| - 1]
  }

  lemma {:induction false} BigEndianRoundTrip(n: nat, width: nat)
    requires n < Pow256(width)
    ensures FromBigEndian(BigEndian(n, width)) == n
  {
    if width > 0 {
      var b := BigEndian(n, width);
      assert b[..width - 1] == BigEndian(n / 256, width - 1);
      BigEndianRoundTrip(n / 256, width - 1);
    }
  }

  lemma {:induction false} FromBigEndianRoundTrip(b: bytes)
    ensures FromBigEndian(b) < Pow256(|b|)
    ensures BigEndian(FromBigEndian(b), |b|) == b
  {
    if b != [] {
      var n := |b| - 1;
      FromBigEndianRoundTrip(b[..n]);
      assert b == b[..n] + [b[n]];
    }
  }

  lemma WordSizes()
    ensures Pow256(4) == 0x1_0000_0000
    ensures Pow256(8) == 0x1_0000_0000_0000_0000
  {
    assert Pow256(2) == 65536;
    assert Pow256(4) == 256 * (256 * Pow256(2));
    assert Pow256(6) == 256 * (256 * Pow256(4));
  }

  // ----- byte order

  predicate Less(a: bytes, b: bytes) {
    if b == [] then false
    else if a == [] then true
    else a[0] < b[0] || (a[0] == b[0] && Less(a[1..], b[1..]))
  }

  lemma {:induction false} LessIrreflexive(a: bytes)
    ensures !Less(a, a)
  {
    if a != [] { LessIrreflexive(a[1..]); }
  }

  lemma {:induction false} LessBySnoc(a: bytes, b: bytes, x: byte, y: byte)
    requires |a| == |b|
    ensures Less(a + [x], b + [y]) <==> Less(a, b) || (a == b && x < y)
  {
    if a == [] {
      assert a + [x] == [x] && b + [y] == [y];
    } else {
      assert (a + [x])[1..] == a[1..] + [x] && (b + [y])[1..] == b[1..] + [y];
      LessBySnoc(a[1..], b[1..], x, y);
      assert a == [a[0]] + a[1..] && b == [b[0]] + b[1..];
    }
  }

  /** The most significant byte comes first: encodings stand in byte order as the numbers do. */
  lemma {:induction false} BigEndianKeepsOrder(m: nat, n: nat, width: nat)
    requires m < Pow256(width) && n < Pow256(width)
    ensures Less(BigEndian(m, width), BigEndian(n, width)) <==> m < n
  {
    if width > 0 {
      BigEndianKeepsOrder(m / 256, n / 256, width - 1);
      LessBySnoc(BigEndian(m / 256, width - 1), BigEndian(n / 256, width - 1), m % 256, n % 256);
      BigEndianRoundTrip(m / 256, width - 1);
      BigEndianRoundTrip(n / 256, width - 1);
    }
  }

  lemma {:induction false} LessTransitive(a: bytes, b: bytes, c: bytes)
    requires Less(a, b) && Less(b, c)
    ensures Less(a, c)
  {
    if a != [] && a[0] == b[0] == c[0] { LessTransitive(a[1..], b[1..], c[1..]); }
  }

  lemma {:induction false} LessTotal(a: bytes, b: bytes)
    ensures Less(a, b) || a == b || Less(b, a)
  {
    if a != [] && b != [] && a[0] == b[0] {
      LessTotal(a[1..], b[1..]);
      assert a == [a[0]] + a[1..] && b == [b[0]] + b[1..];
    }
  }

  predicate IsFirst(p: bytes, s: set<bytes>) {
    p in s && forall q :: q in s ==> q == p || Less(p, q)
  }

  lemma {:induction false} FirstExists(s: set<bytes>)
    requires s != {}
    ensures exists p :: IsFirst(p, s)
  {
    var a :| a in s;
    if s - {a} == {} {
      assert forall q :: q in s ==> q == a || q in s - {a};
      assert IsFirst(a, s);
    } else {
      FirstExists(s - {a});
      var p :| IsFirst(p, s - {a});
      LessTotal(a, p);
      forall q | q in s && q != a ensures Less(a, p) ==> Less(a, q) {
        if q != p && Less(a, p) { LessTransitive(a, p, q); }
      }
      assert IsFirst(if Less(a, p) then a else p, s);
    }
  }

  /** The first path of a set in the order of the program's ordered maps. */
  function First(s: set<bytes>): (p: bytes)
    requires s != {}
    ensures IsFirst(p, s)
  {
    FirstExists(s);
    FirstUnique(s);
    var p :| IsFirst(p, s);
    p
  }

  lemma FirstUnique(s: set<bytes>)
    ensures forall p, q :: IsFirst(p, s) && IsFirst(q, s) ==> p == q
  {
    forall p, q | IsFirst(p, s) && IsFirst(q, s) ensures p == q {
      if p != q {
        LessTransitive(p, q, p);
        LessIrreflexive(p);
      }
    }
  }

  ghost predicate Ordered(s: seq<bytes>) {
    forall i, j :: 0 <= i < j < |s| ==> Less(s[i], s[j])
  }

  /** The paths of a set in order. */
  function InOrder(s: set<bytes>): (r: seq<bytes>)
    ensures forall p :: p in r <==> p in s
    ensures Ordered(r)
  {
    if s == {} then []
    else [First(s)] + InOrder(s - {First(s)})
  }
}
