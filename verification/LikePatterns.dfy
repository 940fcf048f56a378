/** SQL patterns as the graph store uses them: the escaping of crates/workflow-code-intel/src/graph/store.rs and what
    SQLite's `LIKE … ESCAPE '\'` matches. Text is its UTF-8 bytes. */
module LikePatterns {
  import opened Bytes

  const ESCAPE: byte := 92
  const ANY: byte := 37
  const ONE: byte := 95

  /** `str::replace` of one byte. */
  function Replace(s: bytes, gone: byte, put: bytes): bytes {
    if s == [] then [] else (if s[0] == gone then put else [s[0]]) + Replace(s[1..], gone, put)
  }

  /** `escape_like`: three replacements one after another. */
  function EscapeLike(s: bytes): bytes {
    Replace(Replace(Replace(s, ESCAPE, [ESCAPE, ESCAPE]), ANY, [ESCAPE, ANY]), ONE, [ESCAPE, ONE])
  }

  /** Equal up to the case of an ASCII letter. */
  predicate SameLetter(a: byte, b: byte) {
    a == b || (65 <= a <= 90 && b == a + 32) || (65 <= b <= 90 && a == b + 32)
  }

  /** The pattern matches the text; a pattern of this store has no unescaped `_`, which would match one character. */
  predicate LikeMatch(pattern: bytes, text: bytes)
    decreases |pattern|, |text|
  {
    if pattern == [] then text == []
    else if pattern[0] == ANY then LikeMatch(pattern[1..], text) || (text != [] && LikeMatch(pattern, text[1..]))
    else if pattern[0] == ESCAPE then
      |pattern| > 1 && text != [] && SameLetter(pattern[1], text[0]) && LikeMatch(pattern[2..], text[1..])
    else text != [] && (pattern[0] == ONE || SameLetter(pattern[0], text[0])) && LikeMatch(pattern[1..], text[1..])
  }

  predicate IsSpecial(b: byte) {
    b == ESCAPE || b == ANY || b == ONE
  }

  /** Every special byte behind one escape. */
  function Escaped(s: bytes): bytes {
    if s == [] then [] else (if IsSpecial(s[0]) then [ESCAPE, s[0]] else [s[0]]) + Escaped(s[1..])
  }

  lemma {:induction false} ReplaceConcat(a: bytes, b: bytes, gone: byte, put: bytes)
    ensures Replace(a + b, gone, put) == Replace(a, gone, put) + Replace(b, gone, put)
  {
    if a == [] {
      assert a + b == b;
    } else {
      assert (a + b)[1..] == a[1..] + b;
      ReplaceConcat(a[1..], b, gone, put);
    }
  }

  lemma ReplaceOne(b: byte, gone: byte, put: bytes)
    ensures Replace([b], gone, put) == if b == gone then put else [b]
  {
    assert [b][1..] == [];
  }

  /** The replacements escape each special byte once: none of them touches what another has put in. */
  lemma {:induction false} EscapesOnce(s: bytes)
    ensures EscapeLike(s) == Escaped(s)
  {
    hide Replace;
    if s == [] {
      EscapesNothing();
    } else {
      var head, rest := [s[0]], s[1..];
      assert s == head + rest;
      EscapesOnce(rest);
      var a1, b1 := Replace(head, ESCAPE, [ESCAPE, ESCAPE]), Replace(rest, ESCAPE, [ESCAPE, ESCAPE]);
      ReplaceConcat(head, rest, ESCAPE, [ESCAPE, ESCAPE]);
      var a2, b2 := Replace(a1, ANY, [ESCAPE, ANY]), Replace(b1, ANY, [ESCAPE, ANY]);
      ReplaceConcat(a1, b1, ANY, [ESCAPE, ANY]);
      ReplaceConcat(a2, b2, ONE, [ESCAPE, ONE]);
      EscapesByte(s[0]);
    }
  }

  lemma EscapesNothing()
    ensures EscapeLike([]) == []
  {}

  lemma EscapesByte(b: byte)
    ensures EscapeLike([b]) == if IsSpecial(b) then [ESCAPE, b] else [b]
  {
    hide Replace;
    ReplaceOne(b, ESCAPE, [ESCAPE, ESCAPE]);
    ReplaceOne(b, ANY, [ESCAPE, ANY]);
    ReplaceOne(b, ONE, [ESCAPE, ONE]);
    ReplaceTwo(b, ANY, [ESCAPE, ANY]);
    ReplaceTwo(b, ONE, [ESCAPE, ONE]);
    ReplaceTwo(ANY, ONE, [ESCAPE, ONE]);
  }

  lemma ReplaceTwo(b: byte, gone: byte, put: bytes)
    requires gone != ESCAPE
    ensures Replace([ESCAPE, b], gone, put) == if b == gone then [ESCAPE] + put else [ESCAPE, b]
  {
    assert [ESCAPE, b][1..] == [b];
    ReplaceOne(b, gone, put);
  }

  lemma {:induction false} AnyMatches(text: bytes)
    ensures LikeMatch([ANY], text)
  {
    if text != [] { AnyMatches(text[1..]); } else { assert [ANY][1..] == []; }
  }

  /** `text` starts with `prefix` and a slash, up to the case of ASCII letters. */
  predicate IsBelow(prefix: bytes, text: bytes) {
    && |prefix| < |text| && text[|prefix|] == SLASH
    && forall i :: 0 <= i < |prefix| ==> SameLetter(prefix[i], text[i])
  }

  /** What the store's pattern for a directory matches, whatever bytes its name holds: exactly the paths that start
      with the name and a slash, up to the case of ASCII letters. */
  lemma {:induction false} DirectoryPattern(prefix: bytes, text: bytes)
    ensures LikeMatch(EscapeLike(prefix) + [SLASH, ANY], text) <==> IsBelow(prefix, text)
  {
    EscapesOnce(prefix);
    EscapedPattern(prefix, text);
  }

  lemma {:induction false} EscapedPattern(prefix: bytes, text: bytes)
    ensures LikeMatch(Escaped(prefix) + [SLASH, ANY], text) <==> IsBelow(prefix, text)
    decreases |prefix|
  {
    hide SameLetter;
    var pattern := Escaped(prefix) + [SLASH, ANY];
    if prefix == [] {
      SlashIsItself();
      assert pattern == [SLASH, ANY] && pattern[1..] == [ANY];
      if text != [] { AnyMatches(text[1..]); }
    } else {
      var rest := Escaped(prefix[1..]) + [SLASH, ANY];
      if IsSpecial(prefix[0]) {
        assert pattern[0] == ESCAPE && pattern[1] == prefix[0] && pattern[2..] == rest;
      } else {
        assert pattern[0] == prefix[0] && pattern[1..] == rest;
      }
      if text != [] {
        EscapedPattern(prefix[1..], text[1..]);
        assert IsBelow(prefix, text) <==> SameLetter(prefix[0], text[0]) && IsBelow(prefix[1..], text[1..]) by {
          if IsBelow(prefix, text) {
            assert forall i :: 0 <= i < |prefix| - 1 ==>
              prefix[1..][i] == prefix[i + 1] && text[1..][i] == text[i + 1];
          }
          if SameLetter(prefix[0], text[0]) && IsBelow(prefix[1..], text[1..]) {
            forall i | 0 <= i < |prefix| ensures SameLetter(prefix[i], text[i]) {
              if i > 0 { assert SameLetter(prefix[1..][i - 1], text[1..][i - 1]); }
            }
          }
        }
      }
    }
  }

  lemma SlashIsItself()
    ensures forall b: byte :: SameLetter(SLASH, b) <==> b == SLASH
  {}
}
