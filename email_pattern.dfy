/** The e-mail pattern of the validator, `/^[^\s@]+@[^\s@]+\.[^\s@]+$/`, applied with
    `RegExp.prototype.test` (no flags, so `^` and `$` anchor the whole text). */
module EmailPattern {
  import opened JsString

  /** A character of the class `[^\s@]`. */
  predicate Plain(c: char) {
    c != '@' && !IsSpace(c)
  }

  /** `t` matches `[^\s@]*` (the `+` runs add non-emptiness separately). */
  predicate PlainRun(t: string) {
    forall k :: 0 <= k < |t| ==> Plain(t[k])
  }

  /** The language of the pattern, read off the regular expression: a non-empty plain run,
      `@`, a non-empty plain run, `.`, a non-empty plain run, and nothing else. */
  ghost predicate EmailLanguage(s: string) {
    exists i, j ::
      && 0 < i && i + 1 < j && j + 1 < |s|
      && PlainRun(s[..i]) && s[i] == '@' && PlainRun(s[i + 1..j]) && s[j] == '.'
      && PlainRun(s[j + 1..])
  }

  predicate NotSpace(c: char) { !IsSpace(c) }

  /** The pattern as a check on the text: no white space, exactly one `@` and not in front,
      and a `.` after it with at least one character on each side. */
  predicate MatchesEmail(s: string) {
    && All(s, NotSpace)
    && var i := IndexOf(s, '@');
       && 0 < i && i + 2 < |s|
       && IndexOf(s[i + 1..], '@') == |s| - i - 1
       && IndexOf(s[i + 2..|s| - 1], '.') < |s| - i - 3
  }

  /** The check accepts exactly the language of the regular expression. */
  lemma MatchesEmailIff(s: string)
    ensures MatchesEmail(s) <==> EmailLanguage(s)
  {
    if MatchesEmail(s) {
      MatchedIsInLanguage(s);
    }
    if EmailLanguage(s) {
      LanguageIsMatched(s);
    }
  }

  lemma MatchedIsInLanguage(s: string)
    requires MatchesEmail(s)
    ensures EmailLanguage(s)
  {
    AllAt(s, NotSpace);
    IndexOfFirst(s, '@');
    var i := IndexOf(s, '@');
    IndexOfFirst(s[i + 1..], '@');
    var j := i + 2 + IndexOf(s[i + 2..|s| - 1], '.');
    assert s[j] == s[i + 2..|s| - 1][j - i - 2];
    forall k | i < k < |s| ensures s[k] != '@' {
      assert s[k] == s[i + 1..][k - i - 1];
    }
    assert PlainRun(s[..i]);
    assert PlainRun(s[i + 1..j]);
    assert PlainRun(s[j + 1..]);
  }

  lemma LanguageIsMatched(s: string)
    requires EmailLanguage(s)
    ensures MatchesEmail(s)
  {
    var i, j :|
      && 0 < i && i + 1 < j && j + 1 < |s|
      && PlainRun(s[..i]) && s[i] == '@' && PlainRun(s[i + 1..j]) && s[j] == '.'
      && PlainRun(s[j + 1..]);
    PlainOutside(s, i, j);
    MatchedAt(s, i, j);
  }

  /** A text with one `@` at `i` and a `.` at `j`, every other character plain, passes. */
  lemma MatchedAt(s: string, i: nat, j: nat)
    requires 0 < i && i + 1 < j && j + 1 < |s| && s[i] == '@' && s[j] == '.'
    requires forall k :: 0 <= k < |s| && k != i ==> Plain(s[k])
    ensures MatchesEmail(s)
  {
    AllAt(s, NotSpace);
    IndexOfIs(s, '@', i);
    var rest := s[i + 1..];
    assert forall k :: 0 <= k < |rest| ==> rest[k] == s[i + 1 + k];
    IndexOfIs(rest, '@', |rest|);
    var middle := s[i + 2..|s| - 1];
    assert middle[j - i - 2] == '.';
    IndexOfFirst(middle, '.');
  }

  /** Every character of a match except its `@` is plain. */
  lemma PlainOutside(s: string, i: nat, j: nat)
    requires 0 < i && i + 1 < j && j + 1 < |s|
    requires PlainRun(s[..i]) && PlainRun(s[i + 1..j]) && s[j] == '.' && PlainRun(s[j + 1..])
    ensures forall k :: 0 <= k < |s| && k != i ==> Plain(s[k])
  {
    forall k | 0 <= k < |s| && k != i ensures Plain(s[k]) {
      if k < i {
        assert s[k] == s[..i][k];
      } else if k < j {
        assert s[k] == s[i + 1..j][k - i - 1];
      } else if k > j {
        assert s[k] == s[j + 1..][k - j - 1];
      }
    }
  }
}
