/** Facts about sequences and finite sets of identifiers that several components share.
    Identifiers that the program keeps in ordered maps are modelled as natural numbers, so that
    "iterate in key order" is "iterate upwards". */
module Sequences {

  datatype Option<+T> = None | Some(value: T)

  datatype Result<+T, +E> = Ok(value: T) | Err(error: E)

  ghost predicate NoDup<T>(s: seq<T>) {
    forall i, j :: 0 <= i < j < |s| ==> s[i] != s[j]
  }

  function Elems<T>(s: seq<T>): set<T> {
    set x | x in s
  }

  /** `retain(|x| x != gone)` */
  function Without<T(==,!new)>(s: seq<T>, gone: T): (r: seq<T>)
    ensures forall x :: x in r <==> x in s && x != gone
    ensures |r| <= |s|
  {
    if s == [] then []
    else if s[0] == gone then Without(s[1..], gone)
    else [s[0]] + Without(s[1..], gone)
  }

  /** `retain(|x| kept.contains(x))` */
  function Retain<T(==,!new)>(s: seq<T>, kept: set<T>): (r: seq<T>)
    ensures forall x :: x in r <==> x in s && x in kept
    ensures |r| <= |s|
  {
    if s == [] then []
    else if s[0] in kept then [s[0]] + Retain(s[1..], kept)
    else Retain(s[1..], kept)
  }

  /** The first occurrence of every allowed element, in the order of `s`. */
  function FirstOccurrences<T(==,!new)>(s: seq<T>, allowed: set<T>): (r: seq<T>)
    ensures forall x :: x in r <==> x in s && x in allowed
    ensures NoDup(r)
  {
    if s == [] then []
    else if s[0] in allowed then [s[0]] + FirstOccurrences(s[1..], allowed - {s[0]})
    else FirstOccurrences(s[1..], allowed)
  }

  predicate IsLeast(m: nat, s: set<nat>) {
    m in s && forall x :: x in s ==> m <= x
  }

  function Minimum(s: set<nat>): (m: nat)
    requires s != {}
    ensures IsLeast(m, s)
  {
    LeastExists(s);
    var m :| IsLeast(m, s);
    m
  }

  lemma {:induction false} LeastExists(s: set<nat>)
    requires s != {}
    ensures exists m :: IsLeast(m, s)
  {
    var a :| a in s;
    if s - {a} == {} {
      assert forall x :: x in s ==> x == a || x in s - {a};
      assert IsLeast(a, s);
    } else {
      LeastExists(s - {a});
      var m :| IsLeast(m, s - {a});
      assert forall x :: x in s ==> x == a || x in s - {a};
      assert IsLeast(if a < m then a else m, s);
    }
  }

  ghost predicate Increasing(s: seq<nat>) {
    forall i, j :: 0 <= i < j < |s| ==> s[i] < s[j]
  }

  /** The elements of a set of identifiers in ascending order. */
  function Ascending(s: set<nat>): (r: seq<nat>)
    ensures forall x :: x in r <==> x in s
    ensures Increasing(r)
  {
    if s == {} then []
    else
      var m := Minimum(s);
      [m] + Ascending(s - {m})
  }

  lemma {:induction false} WithoutAbsent<T(!new)>(s: seq<T>, gone: T)
    requires gone !in s
    ensures Without(s, gone) == s
  {
    if s != [] { WithoutAbsent(s[1..], gone); }
  }

  lemma {:induction false} RetainAll<T(!new)>(s: seq<T>, kept: set<T>)
    requires Elems(s) <= kept
    ensures Retain(s, kept) == s
  {
    if s != [] {
      assert s[0] in Elems(s);
      assert forall x :: x in Elems(s[1..]) ==> x in Elems(s);
      RetainAll(s[1..], kept);
    }
  }

  lemma {:induction false} RetainWithout<T(!new)>(s: seq<T>, kept: set<T>, gone: T)
    ensures Retain(Without(s, gone), kept - {gone}) == Without(Retain(s, kept), gone)
    ensures Retain(s, kept - {gone}) == Without(Retain(s, kept), gone)
  {
    if s != [] { RetainWithout(s[1..], kept, gone); }
  }

  lemma {:induction false} WithoutConcat<T(!new)>(a: seq<T>, b: seq<T>, gone: T)
    ensures Without(a + b, gone) == Without(a, gone) + Without(b, gone)
  {
    if a == [] {
      assert a + b == b;
    } else {
      assert (a + b)[1..] == a[1..] + b;
      WithoutConcat(a[1..], b, gone);
    }
  }

  lemma {:induction false} WithoutNoDup<T(!new)>(s: seq<T>, gone: T)
    requires NoDup(s)
    ensures NoDup(Without(s, gone))
  {
    if s != [] {
      WithoutNoDup(s[1..], gone);
      assert s[0] !in s[1..];
    }
  }

  lemma {:induction false} RetainNoDup<T(!new)>(s: seq<T>, kept: set<T>)
    requires NoDup(s)
    ensures NoDup(Retain(s, kept))
  {
    if s != [] {
      RetainNoDup(s[1..], kept);
      assert s[0] !in s[1..];
    }
  }

  lemma {:induction false} FirstOccurrencesWithout<T(!new)>(s: seq<T>, allowed: set<T>, gone: T)
    ensures FirstOccurrences(s, allowed - {gone}) == Without(FirstOccurrences(s, allowed), gone)
    ensures FirstOccurrences(Without(s, gone), allowed - {gone}) == FirstOccurrences(s, allowed - {gone})
  {
    if s != [] {
      var a := s[0];
      FirstOccurrencesWithout(s[1..], allowed, gone);
      FirstOccurrencesWithout(s[1..], allowed - {a}, gone);
      assert allowed - {a} - {gone} == allowed - {gone} - {a};
      if a == gone {
        assert allowed - {gone} - {gone} == allowed - {gone};
      }
    }
  }

  lemma {:induction false} FirstOccurrencesAll<T(!new)>(s: seq<T>, allowed: set<T>)
    requires NoDup(s) && Elems(s) <= allowed
    ensures FirstOccurrences(s, allowed) == s
  {
    if s != [] {
      assert s[0] in Elems(s);
      assert forall x :: x in Elems(s[1..]) ==> x in Elems(s);
      FirstOccurrencesAll(s[1..], allowed - {s[0]});
    }
  }

  lemma {:induction false} AscendingWithout(s: set<nat>, gone: nat)
    ensures Ascending(s - {gone}) == Without(Ascending(s), gone)
    decreases |s|
  {
    if gone !in s {
      assert s - {gone} == s;
      WithoutAbsent(Ascending(s), gone);
    } else {
      var m := Minimum(s);
      if m == gone {
        WithoutAbsent(Ascending(s - {m}), gone);
      } else {
        assert m in s - {gone};
        var n := Minimum(s - {gone});
        assert n in s;
        assert s - {gone} - {m} == s - {m} - {gone};
        AscendingWithout(s - {m}, gone);
      }
    }
  }

  /** The position of the first occurrence of `x`, or the length of `s`. */
  function IndexOf<T(==)>(s: seq<T>, x: T): (i: nat)
    ensures i <= |s| && (i < |s| <==> x in s)
    ensures i < |s| ==> s[i] == x
    ensures forall j :: 0 <= j < i ==> s[j] != x
  {
    if s == [] then 0 else if s[0] == x then 0 else 1 + IndexOf(s[1..], x)
  }

  lemma {:induction false} IndexAfterWithout<T(!new)>(s: seq<T>, gone: T, x: T)
    requires x != gone && x in s
    ensures IndexOf(Without(s, gone), x) <= IndexOf(s, x)
  {
    if s[0] != x { IndexAfterWithout(s[1..], gone, x); }
  }

  /** Sequences without repetition are no longer than a set that holds their elements. */
  lemma {:induction false} NoDupLength<T(!new)>(s: seq<T>, all: set<T>)
    requires NoDup(s) && Elems(s) <= all
    ensures |s| <= |all|
  {
    if s != [] {
      var last := s[|s| - 1];
      assert last in Elems(s);
      assert forall x :: x in Elems(s[..|s| - 1]) ==> x in Elems(s) && x != last;
      NoDupLength(s[..|s| - 1], all - {last});
    }
  }

  lemma {:induction false} NoDupSize<T(!new)>(s: seq<T>)
    requires NoDup(s)
    ensures |Elems(s)| == |s|
  {
    if s != [] {
      var n := |s| - 1;
      assert s == s[..n] + [s[n]];
      assert Elems(s) == Elems(s[..n]) + {s[n]} && s[n] !in Elems(s[..n]);
      NoDupSize(s[..n]);
    }
  }

  lemma SubsetSize<T>(part: set<T>, whole: set<T>)
    requires part <= whole
    ensures |part| <= |whole|
  {
    assert whole == part + (whole - part);
  }

  lemma {:induction false} IndexInFirstOccurrences<T(!new)>(s: seq<T>, allowed: set<T>, x: T)
    requires x in s && x in allowed
    ensures IndexOf(FirstOccurrences(s, allowed), x) <= IndexOf(s, x)
  {
    if s[0] != x {
      IndexInFirstOccurrences(s[1..], if s[0] in allowed then allowed - {s[0]} else allowed, x);
    }
  }

  lemma {:induction false} IndexInConcat<T>(a: seq<T>, b: seq<T>, x: T)
    requires x in a
    ensures IndexOf(a + b, x) == IndexOf(a, x)
  {
    if a[0] != x {
      assert (a + b)[1..] == a[1..] + b;
      IndexInConcat(a[1..], b, x);
    }
  }

  lemma {:induction false} RetainSnoc<T(!new)>(s: seq<T>, x: T, kept: set<T>)
    ensures Retain(s + [x], kept) == Retain(s, kept) + (if x in kept then [x] else [])
  {
    if s == [] {
      assert s + [x] == [x];
    } else {
      assert (s + [x])[1..] == s[1..] + [x];
      RetainSnoc(s[1..], x, kept);
    }
  }

  lemma {:induction false} RetainIncreasing(s: seq<nat>, kept: set<nat>)
    requires Increasing(s)
    ensures Increasing(Retain(s, kept))
  {
    if s != [] {
      RetainIncreasing(s[1..], kept);
      var rest := Retain(s[1..], kept);
      forall j | 0 <= j < |rest| ensures s[0] < rest[j] {
        assert rest[j] in s[1..];
      }
    }
  }

  lemma {:induction false} IncreasingUnique(a: seq<nat>, b: seq<nat>)
    requires Increasing(a) && Increasing(b)
    requires forall x :: x in a <==> x in b
    ensures a == b
  {
    if a == [] {
      assert forall j :: 0 <= j < |b| ==> b[j] in a;
    } else {
      assert a[0] in b && b[0] in a;
      assert a[0] == b[0];
      forall x ensures x in a[1..] <==> x in b[1..] {
        assert x in a[1..] ==> x in a && x != a[0];
        assert x in b[1..] ==> x in b && x != b[0];
      }
      IncreasingUnique(a[1..], b[1..]);
    }
  }

  // ----- the order of sequences of identifiers, by the first difference

  predicate Earlier(a: seq<nat>, b: seq<nat>) {
    a != [] && b != [] && (a[0] < b[0] || (a[0] == b[0] && Earlier(a[1..], b[1..])))
  }

  lemma {:induction false} EarlierIrreflexive(a: seq<nat>)
    ensures !Earlier(a, a)
  {
    if a != [] { EarlierIrreflexive(a[1..]); }
  }

  lemma {:induction false} EarlierTotal(a: seq<nat>, b: seq<nat>)
    requires |a| == |b|
    ensures Earlier(a, b) || a == b || Earlier(b, a)
  {
    if a != [] {
      EarlierTotal(a[1..], b[1..]);
      assert a == [a[0]] + a[1..] && b == [b[0]] + b[1..];
    }
  }

  lemma {:induction false} EarlierTransitive(a: seq<nat>, b: seq<nat>, c: seq<nat>)
    requires Earlier(a, b) && Earlier(b, c)
    ensures Earlier(a, c)
  {
    if a[0] == b[0] && b[0] == c[0] { EarlierTransitive(a[1..], b[1..], c[1..]); }
  }

  lemma {:induction false} EarlierSnoc(a: seq<nat>, b: seq<nat>, x: nat, y: nat)
    requires |a| == |b|
    ensures Earlier(a + [x], b + [y]) <==> Earlier(a, b) || (a == b && x < y)
  {
    if a == [] {
      assert a + [x] == [x] && b + [y] == [y];
    } else {
      assert (a + [x])[1..] == a[1..] + [x] && (b + [y])[1..] == b[1..] + [y];
      EarlierSnoc(a[1..], b[1..], x, y);
      assert a == [a[0]] + a[1..] && b == [b[0]] + b[1..];
    }
  }
}
