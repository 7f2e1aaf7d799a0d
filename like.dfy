/** SQLite's default LIKE operator: '%' matches any run of characters, '_' any one character,
    and ASCII letters compare without regard to case; other characters compare exactly. */
module SqlLike {

  /** SQLite folds only the 26 ASCII upper-case letters. */
  function Fold(c: char): char
  {
    if 'A' <= c <= 'Z' then (c as int + 32) as char else c
  }

  predicate SameLetter(a: char, b: char)
  {
    Fold(a) == Fold(b)
  }

  /** `s LIKE p` with no ESCAPE clause. */
  predicate Like(s: string, p: string)
    decreases |s| + |p|
  {
    if p == [] then s == []
    else if p[0] == '%' then Like(s, p[1..]) || (s != [] && Like(s[1..], p))
    else s != [] && (p[0] == '_' || SameLetter(s[0], p[0])) && Like(s[1..], p[1..])
  }

  /** A pattern with no wildcard characters. */
  predicate Literal(t: string)
  {
    forall i :: 0 <= i < |t| ==> t[i] != '%' && t[i] != '_'
  }

  /** t is a prefix of s up to ASCII case. */
  predicate PrefixIgnoringCase(t: string, s: string)
  {
    |t| <= |s| && forall i :: 0 <= i < |t| ==> SameLetter(s[i], t[i])
  }

  predicate OccursIgnoringCase(s: string, t: string, i: int)
  {
    0 <= i <= |s| && PrefixIgnoringCase(t, s[i..])
  }

  /** t occurs in s up to ASCII case. */
  predicate ContainsIgnoringCase(s: string, t: string)
  {
    exists i :: 0 <= i <= |s| && OccursIgnoringCase(s, t, i)
  }

  /** '%' alone matches every string. */
  lemma {:induction false} PercentMatchesAll(s: string)
    ensures Like(s, "%")
    decreases |s|
  {
    assert "%"[1..] == "";
    if s != [] {
      PercentMatchesAll(s[1..]);
    }
  }

  /** A literal followed by '%' matches exactly the strings it prefixes, up to case. */
  lemma {:induction false} LiteralThenPercent(s: string, t: string)
    requires Literal(t)
    ensures Like(s, t + "%") <==> PrefixIgnoringCase(t, s)
    decreases |t|
  {
    if t == [] {
      assert t + "%" == "%";
      PercentMatchesAll(s);
    } else {
      var p := t + "%";
      assert p[0] == t[0] && p[1..] == t[1..] + "%";
      assert Literal(t[1..]) by {
        forall i | 0 <= i < |t[1..]| ensures t[1..][i] != '%' && t[1..][i] != '_' {
          assert t[1..][i] == t[i + 1];
        }
      }
      if s != [] {
        LiteralThenPercent(s[1..], t[1..]);
        if PrefixIgnoringCase(t, s) {
          forall i | 0 <= i < |t[1..]| ensures SameLetter(s[1..][i], t[1..][i]) {
            assert s[1..][i] == s[i + 1] && t[1..][i] == t[i + 1];
          }
        }
        if SameLetter(s[0], t[0]) && PrefixIgnoringCase(t[1..], s[1..]) {
          forall i | 0 <= i < |t| ensures SameLetter(s[i], t[i]) {
            if i > 0 {
              assert s[1..][i - 1] == s[i] && t[1..][i - 1] == t[i];
            }
          }
        }
      }
    }
  }

  /** A leading '%' lets the rest of the pattern match any suffix. */
  lemma {:induction false} LeadingPercent(s: string, q: string)
    ensures Like(s, "%" + q) <==> exists i :: 0 <= i <= |s| && Like(s[i..], q)
    decreases |s|
  {
    var p := "%" + q;
    assert p[0] == '%' && p[1..] == q;
    assert s[0..] == s;
    if s != [] {
      LeadingPercent(s[1..], q);
      if Like(s[1..], p) {
        var j :| 0 <= j <= |s[1..]| && Like(s[1..][j..], q);
        assert s[1..][j..] == s[j + 1..];
      }
      if i :| 0 < i <= |s| && Like(s[i..], q) {
        assert s[1..][i - 1..] == s[i..];
      }
    }
  }

  /** The search pattern '%' + t + '%' with a literal t means: t occurs in s, up to ASCII case. */
  lemma SearchPatternMeaning(s: string, t: string)
    requires Literal(t)
    ensures Like(s, "%" + t + "%") <==> ContainsIgnoringCase(s, t)
  {
    assert "%" + t + "%" == "%" + (t + "%");
    LeadingPercent(s, t + "%");
    if Like(s, "%" + t + "%") {
      var i :| 0 <= i <= |s| && Like(s[i..], t + "%");
      LiteralThenPercent(s[i..], t);
      assert OccursIgnoringCase(s, t, i);
    }
    if ContainsIgnoringCase(s, t) {
      var i :| 0 <= i <= |s| && OccursIgnoringCase(s, t, i);
      LiteralThenPercent(s[i..], t);
    }
  }

  /** The wildcards are live: a tag "a_c" finds "ABC", which does not contain "a_c" in any case. */
  lemma WildcardExample()
    ensures Like("ABC", "%a_c%")
    ensures !ContainsIgnoringCase("ABC", "a_c")
  {
    assert Like("", "%");
    assert Like("C", "c%") by {
      assert "c%"[1..] == "%";
      assert "C"[1..] == "";
    }
    assert Like("BC", "_c%") by {
      assert "_c%"[1..] == "c%";
      assert "BC"[1..] == "C";
    }
    assert Like("ABC", "a_c%") by {
      assert "a_c%"[1..] == "_c%";
      assert "ABC"[1..] == "BC";
    }
    assert Like("ABC", "%a_c%") by {
      assert "%a_c%"[1..] == "a_c%";
    }
    forall i | 0 <= i <= 3 ensures !OccursIgnoringCase("ABC", "a_c", i) {
      if i == 0 {
        assert "ABC"[0..][1] == 'B' && "a_c"[1] == '_';
        assert !SameLetter('B', '_');
      }
    }
  }
}
