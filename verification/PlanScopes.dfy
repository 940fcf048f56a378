/** Write scopes of a plan: src/workflow/scopes.ts. Strings are sequences of UTF-16 code units. */
module PlanScopes {
  newtype CodeUnit = x: int | 0 <= x < 0x1_0000
  type Text = seq<CodeUnit>

  const SLASH: CodeUnit := 47
  const BACKSLASH: CodeUnit := 92

  /** The white space and line terminators that `trim` removes. */
  predicate IsSpace(c: CodeUnit) {
    || 9 <= c <= 13 || c == 32 || c == 0xA0 || c == 0x1680 || 0x2000 <= c <= 0x200A
    || c == 0x2028 || c == 0x2029 || c == 0x202F || c == 0x205F || c == 0x3000 || c == 0xFEFF
  }

  function ForwardSlashes(s: Text): Text {
    seq(|s|, i requires 0 <= i < |s| => if s[i] == BACKSLASH then SLASH else s[i])
  }

  function StripSlashes(s: Text): (r: Text)
    ensures r <= s
    ensures r == s <==> s == [] || s[|s| - 1] != SLASH
    ensures (r != [] ==> r[|r| - 1] != SLASH) && forall i :: |r| <= i < |s| ==> s[i] == SLASH
  {
    if s != [] && s[|s| - 1] == SLASH then StripSlashes(s[..|s| - 1]) else s
  }

  function TrimEnd(s: Text): (r: Text)
    ensures r <= s && (r != [] ==> !IsSpace(r[|r| - 1])) && forall i :: |r| <= i < |s| ==> IsSpace(s[i])
    ensures s != [] && !IsSpace(s[|s| - 1]) ==> r == s
  {
    if s != [] && IsSpace(s[|s| - 1]) then TrimEnd(s[..|s| - 1]) else s
  }

  function TrimStart(s: Text): (r: Text)
    ensures |r| <= |s| && r == s[|s| - |r|..] && (r != [] ==> !IsSpace(r[0]))
    ensures s != [] && !IsSpace(s[0]) ==> r == s
  {
    if s != [] && IsSpace(s[0]) then TrimStart(s[1..]) else s
  }

  function Trim(s: Text): Text {
    TrimStart(TrimEnd(s))
  }

  function NormalizeScope(scope: Text): Text {
    Trim(StripSlashes(ForwardSlashes(scope)))
  }

  predicate EndsWithSlash(s: Text) {
    s != [] && s[|s| - 1] == SLASH
  }

  lemma Trimmed(s: Text)
    ensures |Trim(s)| <= |s| && (forall c :: c in Trim(s) ==> c in s)
    ensures Trim(s) != [] ==> !IsSpace(Trim(s)[0]) && !IsSpace(Trim(s)[|Trim(s)| - 1])
    ensures s != [] && !IsSpace(s[0]) && !IsSpace(s[|s| - 1]) ==> Trim(s) == s
  {}

  predicate IsSlashy(c: CodeUnit) {
    c == SLASH || c == BACKSLASH
  }

  /** At `i` a slash or backslash, then up to `j` at least one blank, and then only slashes and backslashes. */
  predicate HidesSlashAt(s: Text, i: nat, j: nat) {
    && i + 1 < j <= |s| && IsSlashy(s[i])
    && (forall k :: i < k < j ==> IsSpace(s[k]))
    && forall k :: j <= k < |s| ==> IsSlashy(s[k])
  }

  /** The slashes at the end stand behind white space that stands behind another slash. */
  ghost predicate HidesSlash(s: Text) {
    exists i, j :: HidesSlashAt(s, i, j)
  }

  lemma {:induction false} KeepsSome(s: Text)
    requires s != [] && !IsSpace(s[|s| - 1])
    ensures TrimStart(s) != []
  {
    hide IsSpace;
    if IsSpace(s[0]) {
      assert s[1..][|s[1..]| - 1] == s[|s| - 1];
      KeepsSome(s[1..]);
    }
  }

  lemma LastKept(s: Text)
    requires TrimStart(s) != []
    ensures TrimStart(s)[|TrimStart(s)| - 1] == s[|s| - 1]
  {
    hide IsSpace;
    var r := TrimStart(s);
    assert r[|r| - 1] == s[|s| - |r|..][|r| - 1];
  }

  lemma TrimmedEnd(t: Text)
    requires t != [] ==> !IsSpace(t[|t| - 1])
    ensures EndsWithSlash(TrimStart(t)) <==> EndsWithSlash(t)
  {
    hide IsSpace, TrimStart;
    if t != [] {
      KeepsSome(t);
      LastKept(t);
    }
  }

  ghost predicate IsStripped(f: Text, bare: Text) {
    bare <= f && (bare != [] ==> bare[|bare| - 1] != SLASH) && forall k :: |bare| <= k < |f| ==> f[k] == SLASH
  }

  ghost predicate IsTrimmed(bare: Text, t: Text) {
    t <= bare && (t != [] ==> !IsSpace(t[|t| - 1])) && forall k :: |t| <= k < |bare| ==> IsSpace(bare[k])
  }

  lemma Stripped(f: Text)
    ensures IsStripped(f, StripSlashes(f))
  {}

  lemma TrimmedAtEnd(bare: Text)
    ensures IsTrimmed(bare, TrimEnd(bare))
  {
    hide IsSpace;
  }

  lemma TrimEndsAlike(bare: Text)
    ensures EndsWithSlash(Trim(bare)) <==> EndsWithSlash(TrimEnd(bare))
  {
    hide IsSpace, EndsWithSlash, TrimStart, TrimEnd;
    TrimmedEnd(TrimEnd(bare));
  }

  lemma NormalizedTrims(scope: Text)
    ensures NormalizeScope(scope) == Trim(StripSlashes(ForwardSlashes(scope)))
  {
    hide Trim, StripSlashes, ForwardSlashes;
  }

  /** The normalised scope ends with a slash exactly when white space hid one. */
  lemma EndsWithSlashIff(scope: Text)
    ensures EndsWithSlash(NormalizeScope(scope)) <==> HidesSlash(scope)
  {
    hide *;
    var f := ForwardSlashes(scope);
    var bare := StripSlashes(f);
    NormalizedTrims(scope);
    Stripped(f);
    TrimmedAtEnd(bare);
    TrimEndsAlike(bare);
    EndIff(scope, f, bare, TrimEnd(bare));
  }

  lemma EndIff(scope: Text, f: Text, bare: Text, t: Text)
    requires f == ForwardSlashes(scope) && IsStripped(f, bare) && IsTrimmed(bare, t)
    ensures EndsWithSlash(t) <==> HidesSlash(scope)
  {
    hide ForwardSlashes, IsSpace, HidesSlashAt;
    if EndsWithSlash(t) {
      assert t != bare;
      HiddenAt(scope, f, bare, t);
    }
    if i, j :| HidesSlashAt(scope, i, j) { HiddenFound(scope, f, bare, t, i, j); }
  }

  lemma HiddenAt(scope: Text, f: Text, bare: Text, t: Text)
    requires f == ForwardSlashes(scope) && bare <= f && t <= bare && t != [] && t != bare && t[|t| - 1] == SLASH
    requires forall i :: |bare| <= i < |f| ==> f[i] == SLASH
    requires forall i :: |t| <= i < |bare| ==> IsSpace(bare[i])
    ensures HidesSlashAt(scope, |t| - 1, |bare|)
  {
    assert |t| < |bare|;
    assert f[|t| - 1] == bare[|t| - 1] == t[|t| - 1];
    forall k | |t| - 1 < k < |bare| ensures IsSpace(scope[k]) {
      assert f[k] == bare[k] && IsSpace(f[k]);
    }
    forall k | |bare| <= k < |scope| ensures IsSlashy(scope[k]) {
      assert f[k] == SLASH;
    }
  }

  lemma HiddenFound(scope: Text, f: Text, bare: Text, t: Text, i: nat, j: nat)
    requires f == ForwardSlashes(scope) && bare <= f && t <= bare && HidesSlashAt(scope, i, j)
    requires (bare != [] ==> bare[|bare| - 1] != SLASH) && forall k :: |bare| <= k < |f| ==> f[k] == SLASH
    requires (t != [] ==> !IsSpace(t[|t| - 1])) && forall k :: |t| <= k < |bare| ==> IsSpace(bare[k])
    ensures t != [] && t[|t| - 1] == SLASH
  {
    assert f[j - 1] == scope[j - 1] && IsSpace(f[j - 1]) && !IsSpace(SLASH);
    assert forall k :: j <= k < |f| ==> f[k] == SLASH;
    assert |bare| == j;
    assert bare[i] == f[i] == SLASH;
    assert forall k :: i < k < |bare| ==> bare[k] == f[k] && IsSpace(bare[k]);
    assert |t| == i + 1;
  }

  /** Normalising twice changes nothing, except exactly where white space hid a slash. */
  lemma NormalizeStable(scope: Text)
    ensures NormalizeScope(NormalizeScope(scope)) == NormalizeScope(scope) <==> !HidesSlash(scope)
  {
    hide IsSpace, Trim, HidesSlash;
    var bare := StripSlashes(ForwardSlashes(scope));
    var n := NormalizeScope(scope);
    Trimmed(bare);
    assert forall c :: c in bare ==> c in ForwardSlashes(scope);
    assert BACKSLASH !in ForwardSlashes(scope);
    assert ForwardSlashes(n) == n;
    Trimmed(StripSlashes(n));
    EndsWithSlashIff(scope);
  }

  // ----- covering

  /** What scopes are compared by: the normalised form, lower-cased where the platform ignores case. */
  function Comparable(fold: Text -> Text): Text -> Text {
    (scope: Text) => fold(NormalizeScope(scope))
  }

  predicate InScope(comparable: Text -> Text, path: Text, scope: Text) {
    var target, prefix := comparable(path), comparable(scope);
    prefix != [] && target != [] && (target == prefix || prefix + [SLASH] <= target)
  }

  predicate InsideAny(comparable: Text -> Text, path: Text, scopes: seq<Text>) {
    exists i :: 0 <= i < |scopes| && InScope(comparable, path, scopes[i])
  }

  predicate Touch(comparable: Text -> Text, a: Text, b: Text) {
    InScope(comparable, a, b) || InScope(comparable, b, a)
  }

  predicate ScopesOverlap(comparable: Text -> Text, left: seq<Text>, right: seq<Text>) {
    exists i, j :: 0 <= i < |left| && 0 <= j < |right| && Touch(comparable, left[i], right[j])
  }

  lemma {:induction false} CommonPathTouches(comparable: Text -> Text, a: Text, b: Text, path: Text)
    requires InScope(comparable, path, a) && InScope(comparable, path, b)
    ensures Touch(comparable, a, b)
  {
    var target, p, q := comparable(path), comparable(a), comparable(b);
    assert target[..|p|] == p && target[..|q|] == q;
    if |p| < |q| {
      assert (p + [SLASH])[|p|] == target[|p|] == q[|p|];
      assert q[..|p| + 1] == p + [SLASH];
    } else if |q| < |p| {
      assert (q + [SLASH])[|q|] == target[|q|] == p[|q|];
      assert p[..|q| + 1] == q + [SLASH];
    }
  }

  /** Two scope lists overlap exactly when some path lies inside both, whatever they are compared by. */
  lemma {:induction false} OverlapIffCommonPath(comparable: Text -> Text, left: seq<Text>, right: seq<Text>)
    ensures
      ScopesOverlap(comparable, left, right) <==>
      exists path :: InsideAny(comparable, path, left) && InsideAny(comparable, path, right)
  {
    hide InScope;
    if ScopesOverlap(comparable, left, right) {
      var i, j :| 0 <= i < |left| && 0 <= j < |right| && Touch(comparable, left[i], right[j]);
      CoversItself(comparable, left[i], right[j]);
      assert InsideAny(comparable, left[i], left) && InsideAny(comparable, right[j], right);
    }
    if path :| InsideAny(comparable, path, left) && InsideAny(comparable, path, right) {
      var i :| 0 <= i < |left| && InScope(comparable, path, left[i]);
      var j :| 0 <= j < |right| && InScope(comparable, path, right[j]);
      CommonPathTouches(comparable, left[i], right[j], path);
    }
  }

  lemma {:induction false} CoversItself(comparable: Text -> Text, a: Text, b: Text)
    requires Touch(comparable, a, b)
    ensures InScope(comparable, a, a) && InScope(comparable, b, b)
  {}

  /** Folding case goes unit by unit and neither makes nor removes a slash. */
  ghost predicate FoldsUnits(fold: Text -> Text) {
    && (forall s :: |fold(s)| == |s| && forall i :: 0 <= i < |s| ==> (fold(s)[i] == SLASH <==> s[i] == SLASH))
    && forall s, n: nat :: n <= |s| ==> fold(s[..n]) == fold(s)[..n]
  }

  /** A path below the directory that a scope names. */
  ghost predicate IsBelow(path: Text, scope: Text) {
    var directory := StripSlashes(NormalizeScope(scope));
    && directory != [] && directory + [SLASH] <= NormalizeScope(path)
    && |directory| + 1 < |NormalizeScope(path)| && NormalizeScope(path)[|directory| + 1] != SLASH
  }

  /** A scope covers the paths below its directory exactly when no white space hides a slash at its end; if it does,
      it covers none of them. */
  lemma CoversBelowIff(fold: Text -> Text, path: Text, scope: Text)
    requires FoldsUnits(fold) && IsBelow(path, scope)
    ensures InScope(Comparable(fold), path, scope) <==> !HidesSlash(scope)
  {
    hide NormalizeScope, HidesSlash;
    EndsWithSlashIff(scope);
    var n, p := NormalizeScope(scope), NormalizeScope(path);
    var d := StripSlashes(n);
    var target, prefix := fold(p), fold(n);
    assert Comparable(fold)(path) == target && Comparable(fold)(scope) == prefix;
    assert target[|d| + 1] != SLASH && p[..|d| + 1] == d + [SLASH];
    if n == d {
      assert p[..|d|] == d && fold(d) == target[..|d|];
      assert p[|d|] == (d + [SLASH])[|d|] == SLASH;
      assert prefix + [SLASH] == target[..|d| + 1];
    } else {
      BeyondDirectory(n, d, prefix, target);
    }
  }

  lemma BeyondDirectory(n: Text, d: Text, prefix: Text, target: Text)
    requires d < n && (forall i :: |d| <= i < |n| ==> n[i] == SLASH) && |prefix| == |n|
    requires forall i :: 0 <= i < |n| ==> (prefix[i] == SLASH <==> n[i] == SLASH)
    requires |d| + 1 < |target| && target[|d| + 1] != SLASH
    ensures target != prefix && !(prefix + [SLASH] <= target)
  {
    var longer := prefix + [SLASH];
    assert longer[|d| + 1] == SLASH;
  }

  /** `s/ /` survives the trimming of a plan's entries, and covers nothing below `s`. */
  lemma HiddenSlashSurvives(path: Text)
    requires IsBelow(path, [115, SLASH, 32, SLASH])
    ensures Trim([115, SLASH, 32, SLASH]) == [115, SLASH, 32, SLASH]
    ensures !InScope(Comparable((s: Text) => s), path, [115, SLASH, 32, SLASH])
  {
    hide TrimEnd, TrimStart, StripSlashes, ForwardSlashes, InScope, Comparable, IsBelow, Trim, NormalizeScope;
    var scope: Text := [115, SLASH, 32, SLASH];
    Trimmed(scope);
    assert HidesSlashAt(scope, 1, 3);
    IdentityFolds();
    hide FoldsUnits, HidesSlashAt, IsSpace;
    CoversBelowIff((s: Text) => s, path, scope);
  }

  lemma IdentityFolds()
    ensures FoldsUnits((s: Text) => s)
  {}

  // ----- the order of keys

  /** `<` on strings */
  predicate Before(a: Text, b: Text) {
    if b == [] then false
    else if a == [] then true
    else a[0] < b[0] || (a[0] == b[0] && Before(a[1..], b[1..]))
  }

  lemma {:induction false} BeforeTotal(a: Text, b: Text)
    ensures Before(a, b) || a == b || Before(b, a)
  {
    if a != [] && b != [] && a[0] == b[0] {
      BeforeTotal(a[1..], b[1..]);
      assert a == [a[0]] + a[1..] && b == [b[0]] + b[1..];
    }
  }
}
