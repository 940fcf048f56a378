/** Project-relative paths and write scopes: crates/workflow-core/src/path.rs. A path is its UTF-8 bytes. */
module PathScopes {
  import opened Sequences
  import opened Bytes

  const BACKSLASH: byte := 92
  const COLON: byte := 58
  const DOT: byte := 46

  /** `split('/')` */
  function Segments(path: bytes): (r: seq<bytes>)
    ensures |r| > 0
  {
    if path == [] then [[]]
    else
      var rest := Segments(path[1..]);
      if path[0] == SLASH then [[]] + rest else [[path[0]] + rest[0]] + rest[1..]
  }

  predicate SafeSegment(segment: bytes) {
    segment != [] && segment != [DOT] && segment != [DOT, DOT]
  }

  predicate IsSafeRelative(path: bytes) {
    && path != []
    && BACKSLASH !in path
    && path[0] != SLASH
    && !(|path| > 1 && path[1] == COLON)
    && forall segment :: segment in Segments(path) ==> SafeSegment(segment)
  }

  // ----- what a safe path is safe from

  /** Where walking along the segments leads from the directory `base`: `..` goes up, `.` and nothing stay; going up
      from the root leaves the project. */
  function Walked(base: seq<bytes>, segments: seq<bytes>): Option<seq<bytes>>
    decreases |segments|
  {
    if segments == [] then Some(base)
    else
      var segment := segments[0];
      if segment == [46, 46] then if base == [] then None else Walked(base[..|base| - 1], segments[1..])
      else if segment == [46] || segment == [] then Walked(base, segments[1..])
      else Walked(base + [segment], segments[1..])
  }

  predicate IsName(segment: bytes) {
    segment != [46, 46] && segment != [46] && segment != []
  }

  lemma {:induction false} WalkedNames(base: seq<bytes>, segments: seq<bytes>)
    requires forall i :: 0 <= i < |segments| ==> IsName(segments[i])
    ensures Walked(base, segments) == Some(base + segments)
    decreases |segments|
  {
    if segments == [] {
      assert base + segments == base;
    } else {
      assert IsName(segments[0]);
      WalkedNames(base + [segments[0]], segments[1..]);
      assert base + [segments[0]] + segments[1..] == base + segments;
    }
  }

  /** A walk never ends deeper than it has segments, and only names lead that deep. */
  lemma {:induction false} WalkedDepth(base: seq<bytes>, segments: seq<bytes>)
    ensures Walked(base, segments).Some? ==> |Walked(base, segments).value| <= |base| + |segments|
    ensures
      Walked(base, segments).Some? && |Walked(base, segments).value| == |base| + |segments| ==>
        forall i :: 0 <= i < |segments| ==> IsName(segments[i])
    decreases |segments|
  {
    if segments != [] {
      var segment := segments[0];
      if segment == [46, 46] {
        if base != [] { WalkedDepth(base[..|base| - 1], segments[1..]); }
      } else if segment == [46] || segment == [] {
        WalkedDepth(base, segments[1..]);
      } else {
        WalkedDepth(base + [segment], segments[1..]);
      }
    }
  }

  /** A path is accepted exactly when it names itself: walking along it from any directory never goes up and ends
      where it says; and no platform reads it otherwise, by a backslash or a drive letter. */
  lemma SafeExactly(path: bytes, base: seq<bytes>)
    ensures IsSafeRelative(path) <==>
              && Walked(base, Segments(path)) == Some(base + Segments(path))
              && BACKSLASH !in path && !(|path| > 1 && path[1] == COLON)
  {
    var segments := Segments(path);
    if forall i :: 0 <= i < |segments| ==> IsName(segments[i]) {
      WalkedNames(base, segments);
      FirstSegment(path);
    }
    WalkedDepth(base, segments);
    assert forall i :: 0 <= i < |segments| ==> segments[i] in segments;
  }

  /** Every part of a safe path leads further down, so none leaves the directory it starts from. */
  lemma SafeStaysInside(path: bytes, base: seq<bytes>, n: nat)
    requires IsSafeRelative(path) && n <= |Segments(path)|
    ensures Walked(base, Segments(path)[..n]) == Some(base + Segments(path)[..n])
  {
    assert forall i :: 0 <= i < n ==> Segments(path)[i] in Segments(path);
    WalkedNames(base, Segments(path)[..n]);
  }

  lemma FirstSegment(path: bytes)
    ensures path == [] ==> Segments(path) == [[]]
    ensures path != [] && path[0] == SLASH ==> Segments(path)[0] == []
  {}

  /** `strip_prefix` leaves a suffix that starts with a slash. */
  predicate StrictlyBelow(path: bytes, scope: bytes) {
    scope <= path && |scope| < |path| && path[|scope|] == SLASH
  }

  predicate Overlaps(first: bytes, second: bytes) {
    first == second || StrictlyBelow(first, second) || StrictlyBelow(second, first)
  }

  /** A scope covers itself and everything below it. */
  predicate Covers(scope: bytes, path: bytes) {
    path == scope || scope + [SLASH] <= path
  }

  ghost predicate CommonPath(first: bytes, second: bytes, path: bytes) {
    IsSafeRelative(path) && Covers(first, path) && Covers(second, path)
  }

  lemma CoversIsBelow(scope: bytes, path: bytes)
    ensures Covers(scope, path) <==> path == scope || StrictlyBelow(path, scope)
  {
    if StrictlyBelow(path, scope) {
      assert path[..|scope| + 1] == scope + [SLASH];
    }
    if scope + [SLASH] <= path {
      assert path[..|scope|] == (scope + [SLASH])[..|scope|] == scope;
      assert path[|scope|] == (scope + [SLASH])[|scope|];
    }
  }

  /** Two scopes that cover one path overlap, whatever they are. */
  lemma CommonPathOverlaps(first: bytes, second: bytes, path: bytes)
    requires Covers(first, path) && Covers(second, path)
    ensures Overlaps(first, second)
  {
    CoversIsBelow(first, path);
    CoversIsBelow(second, path);
    if |first| <= |second| {
      assert first == path[..|first|] == second[..|first|];
      assert |first| < |second| ==> second[|first|] == path[|first|];
    } else {
      assert second == path[..|second|] == first[..|second|];
    }
  }

  /** Two safe scopes overlap exactly when some path is covered by both. */
  lemma OverlapsIffCommonPath(first: bytes, second: bytes)
    requires IsSafeRelative(first) && IsSafeRelative(second)
    ensures Overlaps(first, second) <==> exists path :: CommonPath(first, second, path)
  {
    if Overlaps(first, second) {
      CoversIsBelow(first, second);
      CoversIsBelow(second, first);
      assert CommonPath(first, second, first) || CommonPath(first, second, second);
    }
    if path :| CommonPath(first, second, path) {
      CommonPathOverlaps(first, second, path);
    }
  }
}
