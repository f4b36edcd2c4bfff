/**
 * The `LIKE` filter of the SHOW statements (CheckLike). A pattern in the
 * like-predicate language of ISO/IEC 9075-2 subclause 8.5 (without ESCAPE)
 * is rewritten into the daemon's wildcard language and values are matched
 * against the rewritten pattern.
 *
 * The wildcard matcher itself is not part of this model; `Match` takes it as
 * a parameter. `WildMatch` below is the wildcard language as the rewrite
 * relies on it: `*` any run, `?` any one character, backslash makes the next
 * character literal.
 *
 * The rewrite as written (`Translate`) leaves a backslash alone, so the
 * wildcard matcher reads it as an escape; the matcher object below uses the
 * corrected rewrite (`TranslateFixed`), which doubles it.
 */
module Like {
  import opened Options

  // -----------------------------------------------------------------------
  // The rewrite as written.
  // -----------------------------------------------------------------------

  /** What one pattern character becomes. */
  function RemapChar(c: char): (r: string)
    ensures 1 <= |r| <= 2
    ensures c == '_' ==> r == "?"
    ensures c == '%' ==> r == "*"
    ensures c == '?' || c == '*' ==> r == ['\\', c]
    ensures c !in "_%?*" ==> r == [c]
  {
    match c
    case '_' => "?"
    case '%' => "*"
    case '?' => "\\?"
    case '*' => "\\*"
    case _ => [c]
  }

  /** The rewritten pattern, character by character. */
  function Translate(p: string): (r: string)
    ensures |p| <= |r| <= 2 * |p|
  {
    if p == [] then [] else RemapChar(p[0]) + Translate(p[1..])
  }

  // -----------------------------------------------------------------------
  // The corrected rewrite: a backslash is escaped as a double backslash.
  // -----------------------------------------------------------------------

  function RemapCharFixed(c: char): (r: string)
    ensures c != '\\' ==> r == RemapChar(c)
    ensures c == '\\' ==> r == "\\\\"
  {
    if c == '\\' then "\\\\" else RemapChar(c)
  }

  function TranslateFixed(p: string): (r: string)
  {
    if p == [] then [] else RemapCharFixed(p[0]) + TranslateFixed(p[1..])
  }

  /** The rewrite never shrinks a pattern and at most doubles it, so the
      buffer reserved for it (twice the input) suffices. */
  lemma {:induction false} TranslateLength(p: string)
    ensures |p| <= |TranslateFixed(p)| <= 2 * |p|
  {
    if p != [] {
      TranslateLength(p[1..]);
    }
  }

  /** Rewriting extends one character at a time. */
  lemma {:induction false} TranslateFixedSnoc(p: string, c: char)
    ensures TranslateFixed(p + [c]) == TranslateFixed(p) + RemapCharFixed(c)
  {
    if p == [] {
      assert [c][1..] == [];
    } else {
      assert (p + [c])[1..] == p[1..] + [c];
      TranslateFixedSnoc(p[1..], c);
    }
  }

  // -----------------------------------------------------------------------
  // The matcher object.
  // -----------------------------------------------------------------------

  class CheckLike {
    /** m_sPattern: the rewritten pattern, empty for a null pattern. */
    var pattern: string

    /** Rewrite the pattern with a loop writing through the output cursor.
        The pattern is a C string, so it holds no NUL character. */
    constructor (src: Option<string>)
      requires src.Some? ==> forall k :: 0 <= k < |src.value| ==> src.value[k] != '\0'
      ensures src.None? ==> pattern == []
      ensures src.Some? ==> pattern == TranslateFixed(src.value)
    {
      var s := if src.None? then [] else src.value;
      var d: string := [];
      var i := 0;
      while i < |s|
        invariant 0 <= i <= |s|
        invariant d == TranslateFixed(s[..i])
      {
        var c := s[i];
        if c == '_' {
          d := d + ['?'];
        } else if c == '%' {
          d := d + ['*'];
        } else if c == '?' {
          d := d + ['\\', '?'];
        } else if c == '*' {
          d := d + ['\\', '*'];
        } else if c == '\\' {
          d := d + ['\\', '\\'];
        } else {
          d := d + [c];
        }
        assert s[..i + 1] == s[..i] + [c];
        TranslateFixedSnoc(s[..i], c);
        i := i + 1;
      }
      assert s[..i] == s;
      pattern := d;
    }

    /** A null value never matches; an empty pattern lets every other value through. */
    function Match(value: Option<string>, wildcard: (string, string) -> bool): (r: bool)
      reads this
      ensures value.None? ==> !r
      ensures value.Some? && pattern == [] ==> r
      ensures value.Some? && pattern != [] ==> (r <==> wildcard(value.value, pattern))
    {
      value.Some? && (pattern == [] || wildcard(value.value, pattern))
    }
  }

  // -----------------------------------------------------------------------
  // Reference semantics.
  // -----------------------------------------------------------------------

  /** ISO/IEC 9075-2 subclause 8.5 without ESCAPE: `%` any run, `_` any one
      character, everything else (backslash included) itself. */
  predicate LikeMatch(v: string, p: string)
    decreases |p|, |v|
  {
    if p == [] then v == []
    else if p[0] == '%' then LikeMatch(v, p[1..]) || (v != [] && LikeMatch(v[1..], p))
    else if p[0] == '_' then v != [] && LikeMatch(v[1..], p[1..])
    else v != [] && v[0] == p[0] && LikeMatch(v[1..], p[1..])
  }

  /** The wildcard language the rewrite targets. A trailing lone backslash
      stands for itself. */
  predicate WildMatch(v: string, w: string)
    decreases |w|, |v|
  {
    if w == [] then v == []
    else if w[0] == '*' then WildMatch(v, w[1..]) || (v != [] && WildMatch(v[1..], w))
    else if w[0] == '?' then v != [] && WildMatch(v[1..], w[1..])
    else if w[0] == '\\' && |w| >= 2 then v != [] && v[0] == w[1] && WildMatch(v[1..], w[2..])
    else v != [] && v[0] == w[0] && WildMatch(v[1..], w[1..])
  }

  predicate NoBackslash(p: string)
  {
    forall i :: 0 <= i < |p| ==> p[i] != '\\'
  }

  // -----------------------------------------------------------------------
  // The rewrite as written misreads a backslash.
  // -----------------------------------------------------------------------

  /** LIKE `\_` accepts the value `\x`; its rewrite as written, `\?`, does not. */
  lemma TranslateBackslashCounterexample()
    ensures Translate("\\_") == "\\?"
    ensures LikeMatch("\\x", "\\_")
    ensures !WildMatch("\\x", Translate("\\_"))
  {
    assert "\\_"[1..] == "_";
    assert "\\_"[1..][1..] == [];
    assert "\\x"[1..] == "x";
    assert "x"[1..] == [];
    assert Translate("\\_") == RemapChar('\\') + Translate("_");
    assert Translate("_") == "?" + Translate([]);
    assert "\\?"[2..] == [];
  }

  /** Without backslashes the two rewrites agree. */
  lemma {:induction false} TranslateFixedAgrees(p: string)
    requires NoBackslash(p)
    ensures TranslateFixed(p) == Translate(p)
  {
    if p != [] {
      assert p[0] != '\\';
      assert NoBackslash(p[1..]) by {
        forall i | 0 <= i < |p[1..]| ensures p[1..][i] != '\\' {
          assert p[1..][i] == p[i + 1];
        }
      }
      TranslateFixedAgrees(p[1..]);
    }
  }

  /** The corrected rewrite is exact: wildcard matching of the rewritten
      pattern is LIKE matching of the original, for every pattern. */
  lemma {:induction false} TranslateFixedIsLike(v: string, p: string)
    ensures WildMatch(v, TranslateFixed(p)) == LikeMatch(v, p)
    decreases |p|, |v|
  {
    if p == [] {
      return;
    }
    var c, rest := p[0], TranslateFixed(p[1..]);
    var w := TranslateFixed(p);
    assert w == RemapCharFixed(c) + rest;
    if c == '%' {
      assert w[0] == '*' && w[1..] == rest;
      TranslateFixedIsLike(v, p[1..]);
      if v != [] {
        TranslateFixedIsLike(v[1..], p);
      }
    } else if c == '_' {
      assert w[0] == '?' && w[1..] == rest;
      if v != [] {
        TranslateFixedIsLike(v[1..], p[1..]);
      }
    } else if c == '?' || c == '*' || c == '\\' {
      assert w[0] == '\\' && w[1] == c && w[2..] == rest;
      if v != [] {
        TranslateFixedIsLike(v[1..], p[1..]);
      }
    } else {
      assert w[0] == c && w[1..] == rest;
      if v != [] {
        TranslateFixedIsLike(v[1..], p[1..]);
      }
    }
  }

  /** The rewrite as written is exact on backslash-free patterns. */
  lemma TranslateIsLike(v: string, p: string)
    requires NoBackslash(p)
    ensures WildMatch(v, Translate(p)) == LikeMatch(v, p)
  {
    TranslateFixedAgrees(p);
    TranslateFixedIsLike(v, p);
  }

  /** A matcher built from a non-empty pattern accepts exactly the values
      the LIKE predicate accepts. */
  lemma MatchIsLike(m: CheckLike, p: string, v: string)
    requires p != [] && m.pattern == TranslateFixed(p)
    ensures m.Match(Some(v), WildMatch) == LikeMatch(v, p)
  {
    TranslateLength(p);
    TranslateFixedIsLike(v, p);
  }
}
