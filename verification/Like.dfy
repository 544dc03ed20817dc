/** The LIKE prefilter of internal/handler/dbutil.go against the LIKE operator of the databases. */
module Like {
  import opened Text

  /** How a database reads LIKE: whether backslash escapes (PostgreSQL section 9.7.1 and MySQL: yes,
      SQLite: no) and whether letters are compared without regard to ASCII case (MySQL and SQLite: yes). */
  datatype Dialect = Dialect(escapes: bool, foldsCase: bool)

  const POSTGRES := Dialect(true, false)

  function Lower(c: char): char {
    if 'A' <= c <= 'Z' then (c as int + 32) as char else c
  }

  predicate Same(d: Dialect, a: char, b: char) {
    a == b || (d.foldsCase && Lower(a) == Lower(b))
  }

  /** s LIKE p. A pattern that ends in a lone escape character matches nothing here. */
  predicate Matches(d: Dialect, p: string, s: string)
    decreases |p| + |s|
  {
    if p == "" then s == ""
    else if p[0] == '%' then Matches(d, p[1..], s) || (s != "" && Matches(d, p, s[1..]))
    else if s == "" then false
    else if p[0] == '_' then Matches(d, p[1..], s[1..])
    else if d.escapes && p[0] == '\\' then |p| >= 2 && Same(d, p[1], s[0]) && Matches(d, p[2..], s[1..])
    else Same(d, p[0], s[0]) && Matches(d, p[1..], s[1..])
  }

  /** strings.ReplaceAll for a one-character old text. */
  function ReplaceAll(s: string, old': char, with: string): string {
    if s == "" then ""
    else (if s[0] == old' then with else [s[0]]) + ReplaceAll(s[1..], old', with)
  }

  function EscapeLike(s: string): string {
    var s1 := ReplaceAll(s, '\\', "\\\\");
    var s2 := ReplaceAll(s1, '%', "\\%");
    ReplaceAll(s2, '_', "\\_")
  }

  function LikePattern(q: string): string {
    "%" + EscapeLike(q) + "%"
  }

  /** The characters that mean something other than themselves in a pattern. */
  predicate Special(c: char) {
    c == '\\' || c == '%' || c == '_'
  }

  predicate Plain(q: string) {
    forall c :: c in q ==> !Special(c)
  }

  /** One pass that puts a backslash before every special character. */
  function EscapeEach(s: string): string {
    if s == "" then ""
    else (if Special(s[0]) then ['\\', s[0]] else [s[0]]) + EscapeEach(s[1..])
  }

  lemma {:induction false} ReplaceAllAppend(a: string, b: string, old': char, with: string)
    ensures ReplaceAll(a + b, old', with) == ReplaceAll(a, old', with) + ReplaceAll(b, old', with)
  {
    if a == "" {
      assert a + b == b;
    } else {
      assert (a + b)[1..] == a[1..] + b;
      ReplaceAllAppend(a[1..], b, old', with);
    }
  }

  /** The three sequential replacements are one escape per character: the backslashes a later
      replacement adds are never doubled, because backslash goes first. */
  lemma {:induction false} EscapeLikeIsEscapeEach(s: string)
    ensures EscapeLike(s) == EscapeEach(s)
  {
    if s != "" {
      EscapeLikeIsEscapeEach(s[1..]);
      var head := if s[0] == '\\' then "\\\\" else [s[0]];
      var tail := ReplaceAll(s[1..], '\\', "\\\\");
      ReplaceAllAppend(head, tail, '%', "\\%");
      var head2 := if s[0] == '%' then "\\%" else head;
      assert ReplaceAll(head, '%', "\\%") == head2 by {
        if |head| == 2 { assert head[1..] == "\\"; }
      }
      ReplaceAllAppend(head2, ReplaceAll(tail, '%', "\\%"), '_', "\\_");
      var head3 := if s[0] == '_' then "\\_" else head2;
      assert ReplaceAll(head2, '_', "\\_") == head3 by {
        if |head2| == 2 { assert head2[1..] == [head2[1]]; }
      }
    }
  }

  /** q is a prefix of s up to the dialect's letter case. */
  predicate PrefixUpToCase(d: Dialect, s: string, q: string) {
    |q| <= |s| && forall i :: 0 <= i < |q| ==> Same(d, q[i], s[i])
  }

  /** q occurs in s up to the dialect's letter case. */
  predicate ContainsUpToCase(d: Dialect, s: string, q: string) {
    exists i: nat :: i <= |s| && PrefixUpToCase(d, s[i..], q)
  }

  lemma {:induction false} TrailingPercentMatches(d: Dialect, s: string)
    ensures Matches(d, "%", s)
  {
    if s != "" {
      TrailingPercentMatches(d, s[1..]);
    }
  }

  /** An escaped text followed by a percent sign matches exactly its extensions. */
  lemma {:induction false} EscapedPrefix(d: Dialect, q: string, s: string)
    requires d.escapes || Plain(q)
    ensures Matches(d, EscapeEach(q) + "%", s) <==> PrefixUpToCase(d, s, q)
  {
    var p := EscapeEach(q) + "%";
    if q == "" {
      assert p == "%";
      TrailingPercentMatches(d, s);
    } else {
      var rest := EscapeEach(q[1..]) + "%";
      if Special(q[0]) {
        assert p[2..] == rest && p[0] == '\\' && p[1] == q[0];
      } else {
        assert p[1..] == rest && p[0] == q[0];
      }
      if s != "" {
        EscapedPrefix(d, q[1..], s[1..]);
        assert Matches(d, p, s) <==> Same(d, q[0], s[0]) && Matches(d, rest, s[1..]);
        if Same(d, q[0], s[0]) && PrefixUpToCase(d, s[1..], q[1..]) {
          forall i | 0 <= i < |q| ensures Same(d, q[i], s[i]) {
            if i > 0 { assert q[1..][i - 1] == q[i] && s[1..][i - 1] == s[i]; }
          }
        }
        if PrefixUpToCase(d, s, q) {
          forall i | 0 <= i < |q| - 1 ensures Same(d, q[1..][i], s[1..][i]) {
            assert Same(d, q[i + 1], s[i + 1]);
          }
        }
      }
    }
  }

  lemma {:induction false} LeadingPercentSearches(d: Dialect, p: string, s: string)
    ensures Matches(d, "%" + p, s) <==> exists i: nat :: i <= |s| && Matches(d, p, s[i..])
  {
    var pp := "%" + p;
    assert pp[1..] == p && s[0..] == s;
    if s != "" {
      LeadingPercentSearches(d, p, s[1..]);
      if Matches(d, pp, s[1..]) {
        var i: nat :| i <= |s[1..]| && Matches(d, p, s[1..][i..]);
        assert s[1..][i..] == s[i + 1..];
      }
      forall i: nat | 0 < i <= |s| && Matches(d, p, s[i..]) ensures Matches(d, pp, s[1..]) {
        assert s[1..][i - 1..] == s[i..];
      }
    }
  }

  /** Where backslash escapes, the pattern of q matches exactly the texts that contain q,
      letter case aside; elsewhere the same holds for texts without special characters. */
  lemma LikePatternFindsSubstrings(d: Dialect, q: string, s: string)
    requires d.escapes || Plain(q)
    ensures Matches(d, LikePattern(q), s) <==> ContainsUpToCase(d, s, q)
  {
    EscapeLikeIsEscapeEach(q);
    var tail := EscapeEach(q) + "%";
    assert LikePattern(q) == "%" + tail;
    LeadingPercentSearches(d, tail, s);
    forall i: nat | i <= |s| ensures Matches(d, tail, s[i..]) <==> PrefixUpToCase(d, s[i..], q) {
      EscapedPrefix(d, q, s[i..]);
    }
  }

  /** On PostgreSQL the pattern matches exactly the texts that contain q. */
  lemma LikePatternIsContains(q: string, s: string)
    ensures Matches(POSTGRES, LikePattern(q), s) <==> Contains(s, q)
  {
    LikePatternFindsSubstrings(POSTGRES, q, s);
    forall i: nat | i <= |s| ensures PrefixUpToCase(POSTGRES, s[i..], q) <==> OccursAt(s, q, i) {
      if PrefixUpToCase(POSTGRES, s[i..], q) {
        assert s[i..i + |q|] == q;
      }
      if OccursAt(s, q, i) {
        assert forall k :: 0 <= k < |q| ==> s[i..i + |q|][k] == s[i..][k];
      }
    }
  }

  function Backslashes(s: string): nat {
    if s == "" then 0 else (if s[0] == '\\' then 1 else 0) + Backslashes(s[1..])
  }

  lemma {:induction false} BackslashesAppend(a: string, b: string)
    ensures Backslashes(a + b) == Backslashes(a) + Backslashes(b)
  {
    if a == "" {
      assert a + b == b;
    } else {
      assert (a + b)[1..] == a[1..] + b;
      BackslashesAppend(a[1..], b);
    }
  }

  /** Without an escape character every backslash of the pattern has to be in the text. */
  lemma {:induction false} UnescapedNeedsBackslashes(d: Dialect, p: string, s: string)
    requires !d.escapes && Matches(d, p, s)
    ensures Backslashes(s) >= Backslashes(p)
    decreases |p| + |s|
  {
    if p != "" {
      if p[0] == '%' {
        if Matches(d, p[1..], s) {
          UnescapedNeedsBackslashes(d, p[1..], s);
        } else {
          UnescapedNeedsBackslashes(d, p, s[1..]);
        }
      } else {
        UnescapedNeedsBackslashes(d, p[1..], s[1..]);
      }
    }
  }

  lemma {:induction false} EscapingAddsBackslashes(q: string)
    ensures Backslashes(EscapeEach(q)) >= Backslashes(q)
    ensures !Plain(q) ==> Backslashes(EscapeEach(q)) > Backslashes(q)
  {
    if q != "" {
      EscapingAddsBackslashes(q[1..]);
      var head := if Special(q[0]) then ['\\', q[0]] else [q[0]];
      BackslashesAppend(head, EscapeEach(q[1..]));
      assert head[1..] == if Special(q[0]) then [q[0]] else "";
      if !Plain(q) && !Special(q[0]) {
        assert !Plain(q[1..]) by {
          var c :| c in q && Special(c);
          assert c in q[1..];
        }
      }
    }
  }

  /** A prefilter on name misses no text that contains it. */
  ghost predicate MissesNothing(d: Dialect, name: string) {
    forall s :: Contains(s, name) ==> Matches(d, LikePattern(name), s)
  }

  /** The prefilter is complete exactly where backslash escapes or the name has no special
      character; on SQLite a name such as "a_b" is not even found in itself. */
  lemma PrefilterCompleteExactly(d: Dialect, name: string)
    ensures MissesNothing(d, name) <==> d.escapes || Plain(name)
  {
    if d.escapes || Plain(name) {
      forall s | Contains(s, name) ensures Matches(d, LikePattern(name), s) {
        LikePatternFindsSubstrings(d, name, s);
        var i: nat :| i <= |s| && OccursAt(s, name, i);
        assert forall k :: 0 <= k < |name| ==> s[i..i + |name|][k] == s[i..][k];
        assert PrefixUpToCase(d, s[i..], name);
      }
    } else {
      assert OccursAt(name, name, 0);
      NotFoundInItself(d, name);
    }
  }

  /** Without an escape character, the added backslashes are one too many for the name itself. */
  lemma NotFoundInItself(d: Dialect, name: string)
    requires !d.escapes && !Plain(name)
    ensures !Matches(d, LikePattern(name), name)
  {
    if Matches(d, LikePattern(name), name) {
      UnescapedNeedsBackslashes(d, LikePattern(name), name);
      EscapeLikeIsEscapeEach(name);
      EscapingAddsBackslashes(name);
      BackslashesAppend("%" + EscapeEach(name), "%");
      BackslashesAppend("%", EscapeEach(name));
      assert false;
    }
  }
}
