/**
 * The email format check of the waitlist handler, the regular expression
 * `^[^\s@]+@[^\s@]+\.[^\s@]+$`, given twice: once as what a match of the
 * pattern means (some split of the string fits it), and once as a direct
 * structural test. The two are proved to agree on every string.
 */
module EmailFormat {
  import opened Js

  /** The character class `[^\s@]`. */
  predicate IsLabelChar(c: char) {
    !IsWhitespace(c) && c != '@'
  }

  /** `t` is matched, as a whole, by `[^\s@]+`. */
  predicate IsLabelRun(t: string) {
    |t| > 0 && forall k :: 0 <= k < |t| ==> IsLabelChar(t[k])
  }

  /** A slice of characters of the class is a run of them. */
  lemma LabelRunOfSlice(s: string, a: int, b: int)
    requires 0 <= a < b <= |s|
    requires forall k | a <= k < b :: IsLabelChar(s[k])
    ensures IsLabelRun(s[a..b])
  {
    var t := s[a..b];
    forall m | 0 <= m < |t| ensures IsLabelChar(t[m]) {
      assert t[m] == s[a + m];
    }
  }

  /** The pattern matches `s` with its `@` at index `i` and its `\.` at index `j`. */
  predicate MatchesAt(s: string, i: int, j: int) {
    && 0 <= i < j < |s|
    && s[i] == '@' && s[j] == '.'
    && IsLabelRun(s[..i]) && IsLabelRun(s[i + 1..j]) && IsLabelRun(s[j + 1..])
  }

  /**
   * What `test` answers for the anchored pattern: some choice of the
   * `@` and the `.` splits `s` into three runs of `[^\s@]+`.
   */
  ghost predicate MatchesEmailPattern(s: string) {
    exists i, j :: MatchesAt(s, i, j)
  }

  /** Number of occurrences of `c` in `s`. */
  function Count(s: string, c: char): nat {
    if s == [] then 0 else (if s[0] == c then 1 else 0) + Count(s[1..], c)
  }

  /** Index of the first `c` in `s`, or `|s|` when there is none. */
  function IndexOf(s: string, c: char): (k: nat)
    ensures k <= |s|
    ensures k < |s| ==> s[k] == c
    ensures forall m :: 0 <= m < k ==> s[m] != c
  {
    if s == [] then 0 else if s[0] == c then 0 else 1 + IndexOf(s[1..], c)
  }

  /** `d` has a '.' that is neither its first nor its last character. */
  predicate HasInteriorDot(d: string) {
    exists k :: 0 < k < |d| - 1 && d[k] == '.'
  }

  /**
   * The format rule stated directly: no whitespace, exactly one '@', a
   * non-empty part before it, and a part after it with an interior '.'.
   */
  predicate ValidEmail(s: string) {
    && HasNoWhitespace(s)
    && Count(s, '@') == 1
    && var at := IndexOf(s, '@');
       0 < at < |s| && HasInteriorDot(s[at + 1..])
  }

  /** A string with one occurrence of `c` has it only at its first index. */
  lemma {:induction false} CountOneIsUnique(s: string, c: char)
    requires Count(s, c) == 1
    ensures IndexOf(s, c) < |s|
    ensures forall m :: 0 <= m < |s| && m != IndexOf(s, c) ==> s[m] != c
  {
    if s[0] == c {
      CountZeroAbsent(s[1..], c);
      assert forall m :: 1 <= m < |s| ==> s[m] == s[1..][m - 1];
    } else {
      CountOneIsUnique(s[1..], c);
      assert forall m :: 1 <= m < |s| ==> s[m] == s[1..][m - 1];
    }
  }

  /** A count of zero means the character does not occur. */
  lemma {:induction false} CountZeroAbsent(s: string, c: char)
    requires Count(s, c) == 0
    ensures forall m :: 0 <= m < |s| ==> s[m] != c
  {
    if s != [] {
      CountZeroAbsent(s[1..], c);
      assert forall m :: 1 <= m < |s| ==> s[m] == s[1..][m - 1];
    }
  }

  /** A character occurring only at index `i` is counted once, and found at `i`. */
  lemma {:induction false} SingleOccurrence(s: string, c: char, i: int)
    requires 0 <= i < |s| && s[i] == c
    requires forall m :: 0 <= m < |s| && m != i ==> s[m] != c
    ensures Count(s, c) == 1 && IndexOf(s, c) == i
  {
    if i == 0 {
      AbsentCountZero(s[1..], c);
    } else {
      SingleOccurrence(s[1..], c, i - 1);
    }
  }

  /** A character that does not occur is counted zero times. */
  lemma {:induction false} AbsentCountZero(s: string, c: char)
    requires forall m :: 0 <= m < |s| ==> s[m] != c
    ensures Count(s, c) == 0
  {
    if s != [] {
      AbsentCountZero(s[1..], c);
    }
  }

  /** The structural rule accepts exactly the strings the pattern matches. */
  lemma ValidEmailIffPattern(s: string)
    ensures ValidEmail(s) <==> MatchesEmailPattern(s)
  {
    if ValidEmail(s) {
      ValidEmailMatches(s);
    }
    if MatchesEmailPattern(s) {
      var i, j :| MatchesAt(s, i, j);
      MatchIsValidEmail(s, i, j);
    }
  }

  lemma ValidEmailMatches(s: string)
    requires ValidEmail(s)
    ensures MatchesEmailPattern(s)
  {
    var at := IndexOf(s, '@');
    CountOneIsUnique(s, '@');
    var d := s[at + 1..];
    var k :| 0 < k < |d| - 1 && d[k] == '.';
    var j := at + 1 + k;
    assert s[j] == '.';
    var local, mid, top := s[..at], s[at + 1..j], s[j + 1..];
    assert IsLabelRun(local) by {
      forall m | 0 <= m < |local| ensures IsLabelChar(local[m]) {
        assert local[m] == s[m];
      }
    }
    assert IsLabelRun(mid) by {
      forall m | 0 <= m < |mid| ensures IsLabelChar(mid[m]) {
        assert mid[m] == s[at + 1 + m];
      }
    }
    assert IsLabelRun(top) by {
      forall m | 0 <= m < |top| ensures IsLabelChar(top[m]) {
        assert top[m] == s[j + 1 + m];
      }
    }
    assert MatchesAt(s, at, j);
  }

  lemma MatchIsValidEmail(s: string, i: int, j: int)
    requires MatchesAt(s, i, j)
    ensures ValidEmail(s)
  {
    forall m | 0 <= m < |s| ensures IsLabelChar(s[m]) || m == i || m == j {
      if m < i {
        assert s[..i][m] == s[m];
      } else if i < m < j {
        assert s[i + 1..j][m - (i + 1)] == s[m];
      } else if j < m {
        assert s[j + 1..][m - (j + 1)] == s[m];
      }
    }
    SingleOccurrence(s, '@', i);
    var d := s[i + 1..];
    assert d[j - (i + 1)] == '.';
    assert HasInteriorDot(d);
  }

  /** Lower-casing keeps an accepted address accepted. */
  lemma LowerKeepsValidEmail(s: string)
    ensures ValidEmail(s) ==> ValidEmail(ToLowerAscii(s))
  {
    if ValidEmail(s) {
      ValidEmailIffPattern(s);
      var i, j :| MatchesAt(s, i, j);
      LowerKeepsMatch(s, i, j);
      ValidEmailIffPattern(ToLowerAscii(s));
    }
  }

  lemma LowerKeepsMatch(s: string, i: int, j: int)
    requires MatchesAt(s, i, j)
    ensures MatchesAt(ToLowerAscii(s), i, j)
  {
    var t := ToLowerAscii(s);
    LowerKeepsRun(s, t, 0, i);
    LowerKeepsRun(s, t, i + 1, j);
    LowerKeepsRun(s, t, j + 1, |s|);
  }

  lemma LowerKeepsRun(s: string, t: string, a: int, b: int)
    requires t == ToLowerAscii(s) && 0 <= a <= b <= |s|
    requires IsLabelRun(s[a..b])
    ensures IsLabelRun(t[a..b])
  {
    var u, v := s[a..b], t[a..b];
    forall m | 0 <= m < |v| ensures IsLabelChar(v[m]) {
      assert u[m] == s[a + m];
      LowerKeepsLabelChar(s[a + m]);
    }
  }

  lemma LowerKeepsLabelChar(c: char)
    ensures IsLabelChar(c) ==> IsLabelChar(LowerChar(c))
  {
  }
}
