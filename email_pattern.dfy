/** The e-mail pattern `^[^\s@]+@[^\s@]+\.[^\s@]+$` that the personal tab
    tests a changed address against. `MatchesEmailRegex` is what the regular
    expression accepts, read off its structure; `EmailAccepted` is a direct
    check that the validation uses, and the two are proved equal. */
module EmailPattern {
  import opened Wrappers
  import opened JsValues

  /** The class `[^\s@]`. */
  predicate PatternChar(c: char) {
    !IsJsWhitespace(c) && c != '@'
  }

  /** `[^\s@]+`: one or more pattern characters. */
  predicate Run(s: string) {
    |s| > 0 && forall k | 0 <= k < |s| :: PatternChar(s[k])
  }

  /** The whole string splits as run `@` run `.` run (the anchors make the
      match cover all of it). */
  ghost predicate MatchesEmailRegex(s: string) {
    exists i, j | 0 < i < j < |s| ::
      s[i] == '@' && s[j] == '.' && Run(s[..i]) && Run(s[i + 1..j]) && Run(s[j + 1..])
  }

  /** Index of the first occurrence of `c` in `s`, if any. */
  function FirstIndexOf(s: string, c: char): (r: Option<nat>)
    ensures r.Some? ==> r.value < |s| && s[r.value] == c && c !in s[..r.value]
    ensures r.None? ==> c !in s
  {
    if s == [] then None
    else if s[0] == c then Some(0)
    else
      match FirstIndexOf(s[1..], c)
      case None => None
      case Some(k) =>
        assert s[..k + 1] == [s[0]] + s[1..][..k];
        Some(k + 1)
  }

  /** What follows the `@`: pattern characters only, with a `.` that is
      neither the first nor the last of them. */
  predicate DomainAccepted(d: string) {
    && |d| >= 3
    && (forall k | 0 <= k < |d| :: PatternChar(d[k]))
    && '.' in d[1..|d| - 1]
  }

  /** The check the validation runs: a non-empty local part before the first
      `@`, then an accepted domain (which contains no further `@`). */
  predicate EmailAccepted(s: string) {
    match FirstIndexOf(s, '@')
    case None => false
    case Some(i) => Run(s[..i]) && DomainAccepted(s[i + 1..])
  }

  /** The direct check accepts exactly the strings the regular expression matches. */
  lemma EmailAcceptedMatchesRegex(s: string)
    ensures EmailAccepted(s) <==> MatchesEmailRegex(s)
  {
    if EmailAccepted(s) {
      AcceptedIsMatched(s);
    }
    if MatchesEmailRegex(s) {
      var i, j :| 0 < i < j < |s| && s[i] == '@' && s[j] == '.'
        && Run(s[..i]) && Run(s[i + 1..j]) && Run(s[j + 1..]);
      MatchedIsAccepted(s, i, j);
    }
  }

  /** An accepted string splits at its first `@` and at an inner `.` of the domain. */
  lemma AcceptedIsMatched(s: string)
    requires EmailAccepted(s)
    ensures MatchesEmailRegex(s)
  {
    var i := FirstIndexOf(s, '@').value;
    var d := s[i + 1..];
    var m :| 0 <= m < |d| - 2 && d[1..|d| - 1][m] == '.';
    var j := i + 2 + m;
    assert s[j] == d[m + 1] == '.';
    assert s[i + 1..j] == d[..m + 1];
    assert s[j + 1..] == d[m + 2..];
    assert Run(s[i + 1..j]);
    assert Run(s[j + 1..]);
  }

  /** A split run `@` run `.` run passes the direct check. */
  lemma MatchedIsAccepted(s: string, i: nat, j: nat)
    requires 0 < i < j < |s| && s[i] == '@' && s[j] == '.'
    requires Run(s[..i]) && Run(s[i + 1..j]) && Run(s[j + 1..])
    ensures EmailAccepted(s)
  {
    FirstAtIsUnique(s, i);
    var d := s[i + 1..];
    var k := j - i - 1;
    forall t | 0 <= t < |d|
      ensures PatternChar(d[t])
    {
      if t < k {
        assert d[t] == s[i + 1..j][t];
      } else if t > k {
        assert d[t] == s[j + 1..][t - k - 1];
      }
    }
    assert d[1..|d| - 1][k - 1] == '.';
  }

  /** When the characters before position `i` hold no `@`, the first `@` is at `i`. */
  lemma FirstAtIsUnique(s: string, i: nat)
    requires i < |s| && s[i] == '@' && Run(s[..i])
    ensures FirstIndexOf(s, '@') == Some(i)
  {
  }

  /** The pattern described by its parts: no whitespace anywhere, exactly one
      `@`, something before it, and a `.` after it that is neither the first
      nor the last character of what follows the `@`. */
  ghost predicate EmailShape(s: string) {
    && (forall k | 0 <= k < |s| :: !IsJsWhitespace(s[k]))
    && multiset(s)['@'] == 1
    && exists i, j | 0 < i < j < |s| - 1 :: s[i] == '@' && i + 1 < j && s[j] == '.'
  }

  /** The regular expression matches exactly the strings of that shape. */
  lemma MatchesEmailRegexShape(s: string)
    ensures MatchesEmailRegex(s) <==> EmailShape(s)
  {
    if MatchesEmailRegex(s) {
      var i, j :| 0 < i < j < |s| && s[i] == '@' && s[j] == '.'
        && Run(s[..i]) && Run(s[i + 1..j]) && Run(s[j + 1..]);
      forall k | 0 <= k < |s|
        ensures !IsJsWhitespace(s[k]) && (s[k] == '@' ==> k == i)
      {
        if k < i {
          assert s[k] == s[..i][k];
        } else if i < k < j {
          assert s[k] == s[i + 1..j][k - i - 1];
        } else if k > j {
          assert s[k] == s[j + 1..][k - j - 1];
        }
      }
      OnlyAtCountsOnce(s, i);
    }
    if EmailShape(s) {
      var i, j :| 0 < i < j < |s| - 1 && s[i] == '@' && i + 1 < j && s[j] == '.';
      AtCountedOnceIsOnly(s, i);
      var local, middle, last := s[..i], s[i + 1..j], s[j + 1..];
      forall k | 0 <= k < |local| ensures PatternChar(local[k]) {
        assert local[k] == s[k];
      }
      forall k | 0 <= k < |middle| ensures PatternChar(middle[k]) {
        assert middle[k] == s[i + 1 + k];
      }
      forall k | 0 <= k < |last| ensures PatternChar(last[k]) {
        assert last[k] == s[j + 1 + k];
      }
    }
  }

  /** An `@` at `i` and nowhere else occurs once in the multiset of characters. */
  lemma OnlyAtCountsOnce(s: string, i: nat)
    requires i < |s| && s[i] == '@'
    requires forall k | 0 <= k < |s| && k != i :: s[k] != '@'
    ensures multiset(s)['@'] == 1
  {
    assert s == s[..i] + [s[i]] + s[i + 1..];
    var before, after := s[..i], s[i + 1..];
    forall k | 0 <= k < |before| ensures before[k] != '@' {
      assert before[k] == s[k];
    }
    forall k | 0 <= k < |after| ensures after[k] != '@' {
      assert after[k] == s[i + 1 + k];
    }
    assert multiset(s) == multiset(s[..i]) + multiset([s[i]]) + multiset(s[i + 1..]);
  }

  /** An `@` at `i` that occurs once in the multiset occurs nowhere else. */
  lemma AtCountedOnceIsOnly(s: string, i: nat)
    requires i < |s| && s[i] == '@' && multiset(s)['@'] == 1
    ensures forall k | 0 <= k < |s| && k != i :: s[k] != '@'
  {
    assert s == s[..i] + [s[i]] + s[i + 1..];
    assert multiset(s) == multiset(s[..i]) + multiset([s[i]]) + multiset(s[i + 1..]);
    assert multiset(s[..i])['@'] == 0 && multiset(s[i + 1..])['@'] == 0;
    forall k | 0 <= k < |s| && k != i
      ensures s[k] != '@'
    {
      if k < i {
        assert s[k] == s[..i][k];
        assert s[k] in multiset(s[..i]);
      } else {
        assert s[k] == s[i + 1..][k - i - 1];
        assert s[k] in multiset(s[i + 1..]);
      }
    }
  }
}
