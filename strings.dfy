/** Python's substring test `t in s` on strings. */
module Strings {

  predicate StartsWith(s: string, t: string)
  {
    |t| <= |s| && s[..|t|] == t
  }

  /** t occurs in s starting at index i. */
  predicate OccursAt(s: string, t: string, i: int)
  {
    0 <= i <= |s| - |t| && s[i..i + |t|] == t
  }

  /** `t in s`: t occurs in s as a contiguous run of characters. */
  predicate Contains(s: string, t: string)
    decreases |s|
  {
    StartsWith(s, t) || (s != [] && Contains(s[1..], t))
  }

  /** Contains agrees with the index-based definition of a substring. */
  lemma {:induction false} ContainsAt(s: string, t: string)
    ensures Contains(s, t) <==> exists i :: OccursAt(s, t, i)
  {
    if StartsWith(s, t) {
      assert s[0..0 + |t|] == t;
      assert OccursAt(s, t, 0);
    } else if s == [] {
      assert |t| > 0;
    } else {
      ContainsAt(s[1..], t);
      if Contains(s, t) {
        var j :| OccursAt(s[1..], t, j);
        assert s[j + 1..j + 1 + |t|] == s[1..][j..j + |t|];
        assert OccursAt(s, t, j + 1);
      } else {
        forall i | 0 <= i <= |s| - |t|
          ensures !OccursAt(s, t, i)
        {
          if i == 0 {
            assert s[..|t|] == s[0..0 + |t|];
          } else {
            assert s[i..i + |t|] == s[1..][i - 1..i - 1 + |t|];
            assert !OccursAt(s[1..], t, i - 1);
          }
        }
      }
    }
  }

  /** A string contains every suffix appended to it; in particular `x + t` contains t. */
  lemma {:induction false} ContainsSuffix(x: string, t: string)
    ensures Contains(x + t, t)
  {
    if x == [] {
      assert x + t == t;
      assert StartsWith(t, t);
    } else {
      ContainsSuffix(x[1..], t);
      assert (x + t)[1..] == x[1..] + t;
    }
  }

  /** A string never contains a longer one. */
  lemma {:induction false} ShorterNeverContains(s: string, t: string)
    requires |s| < |t|
    ensures !Contains(s, t)
  {
    if s != [] {
      ShorterNeverContains(s[1..], t);
    }
  }
}
