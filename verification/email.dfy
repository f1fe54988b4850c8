/**
 * The newsletter's email check: the regular expression
 * `^[^\s@]+@[^\s@]+\.[^\s@]+$`, stated as a predicate over characters.
 */
module Email {
  import opened Text

  /** JavaScript's `\s`: the ECMAScript white-space and line-terminator characters. */
  predicate IsJsSpace(c: char) {
    || c == '\t' || c == '\n' || c == '\U{000B}' || c == '\U{000C}' || c == '\r' || c == ' '
    || c == '\U{00A0}' || c == '\U{1680}' || ('\U{2000}' <= c <= '\U{200A}')
    || c == '\U{2028}' || c == '\U{2029}' || c == '\U{202F}' || c == '\U{205F}'
    || c == '\U{3000}' || c == '\U{FEFF}'
  }

  /** The character class `[^\s@]`. */
  predicate IsAtomChar(c: char) {
    !IsJsSpace(c) && c != '@'
  }

  ghost predicate AllAtoms(t: string) {
    forall k :: 0 <= k < |t| ==> IsAtomChar(t[k])
  }

  /** The regular expression matches with its '@' at `i` and its escaped '.' at `j`. */
  ghost predicate MatchesAt(s: string, i: int, j: int) {
    && 0 < i && i + 1 < j && j + 1 < |s|
    && s[i] == '@' && s[j] == '.'
    && AllAtoms(s[..i]) && AllAtoms(s[i + 1..j]) && AllAtoms(s[j + 1..])
  }

  /** `emailRegex.test(s)`: some choice of '@' and '.' positions makes every run match. */
  ghost predicate RegexMatches(s: string) {
    exists i, j :: MatchesAt(s, i, j)
  }

  function NoSpace(s: string): (r: bool)
    ensures r <==> forall k :: 0 <= k < |s| ==> !IsJsSpace(s[k])
  {
    |s| == 0 || (!IsJsSpace(s[0]) && NoSpace(s[1..]))
  }

  /** Position of the first `c` in `s`, or `|s|` when there is none. */
  function IndexOf(s: string, c: char): (r: nat)
    ensures r <= |s|
    ensures r < |s| ==> s[r] == c
    ensures forall m :: 0 <= m < r ==> s[m] != c
  {
    if |s| == 0 then 0 else if s[0] == c then 0 else 1 + IndexOf(s[1..], c)
  }

  /** The domain has a '.' that is neither its first nor its last character. */
  predicate HasInnerDot(d: string) {
    exists k | 1 <= k < |d| - 1 :: d[k] == '.'
  }

  /**
   * `isValidEmail`: no white space, exactly one '@' with something before it,
   * and an inner '.' after it. This is exactly what the regular expression accepts.
   */
  function IsValidEmail(s: string): (r: bool)
    ensures r <==> RegexMatches(s)
  {
    RegexEquivalence(s);
    Conditions(s)
  }

  lemma {:induction false} CountAppend(a: string, b: string, c: char)
    ensures Count(a + b, c) == Count(a, c) + Count(b, c)
  {
    if |a| > 0 {
      assert (a + b)[1..] == a[1..] + b;
      CountAppend(a[1..], b, c);
    } else {
      assert a + b == b;
    }
  }

  lemma {:induction false} CountZero(s: string, c: char)
    ensures Count(s, c) == 0 <==> forall k :: 0 <= k < |s| ==> s[k] != c
  {
    if |s| > 0 {
      CountZero(s[1..], c);
      assert forall k :: 1 <= k < |s| ==> s[k] == s[1..][k - 1];
    }
  }

  /** With a single '@' at `i`, no other position holds an '@'. */
  lemma SingleAt(s: string, i: int)
    requires 0 <= i < |s| && s[i] == '@'
    ensures Count(s, '@') == 1 <==> forall m :: 0 <= m < |s| && m != i ==> s[m] != '@'
  {
    assert s == s[..i] + [s[i]] + s[i + 1..];
    CountAppend(s[..i] + [s[i]], s[i + 1..], '@');
    CountAppend(s[..i], [s[i]], '@');
    assert Count([s[i]], '@') == 1;
    CountZero(s[..i], '@');
    CountZero(s[i + 1..], '@');
    assert forall m :: i < m < |s| ==> s[m] == s[i + 1..][m - i - 1];
  }

  /** The validator's conditions, in the order it checks them. */
  predicate Conditions(s: string) {
    var i := IndexOf(s, '@');
    NoSpace(s) && Count(s, '@') == 1 && 0 < i < |s| && HasInnerDot(s[i + 1..])
  }

  lemma RegexEquivalence(s: string)
    ensures Conditions(s) <==> RegexMatches(s)
  {
    if Conditions(s) {
      ConditionsGiveMatch(s);
    }
    if RegexMatches(s) {
      var a, j :| MatchesAt(s, a, j);
      MatchGivesConditions(s, a, j);
    }
  }

  lemma ConditionsGiveMatch(s: string)
    requires Conditions(s)
    ensures RegexMatches(s)
  {
    var i := IndexOf(s, '@');
    var d := s[i + 1..];
    var k :| 1 <= k < |d| - 1 && d[k] == '.';
    var j := i + 1 + k;
    SingleAt(s, i);
    assert s[j] == d[k];
    var head, mid, tail := s[..i], s[i + 1..j], s[j + 1..];
    assert AllAtoms(head) by {
      forall m | 0 <= m < |head| ensures IsAtomChar(head[m]) {
        assert head[m] == s[m];
      }
    }
    assert AllAtoms(mid) by {
      forall m | 0 <= m < |mid| ensures IsAtomChar(mid[m]) {
        assert mid[m] == s[i + 1 + m];
      }
    }
    assert AllAtoms(tail) by {
      forall m | 0 <= m < |tail| ensures IsAtomChar(tail[m]) {
        assert tail[m] == s[j + 1 + m];
      }
    }
    assert MatchesAt(s, i, j);
  }

  lemma MatchGivesConditions(s: string, a: int, j: int)
    requires MatchesAt(s, a, j)
    ensures Conditions(s)
  {
    var head, mid, tail := s[..a], s[a + 1..j], s[j + 1..];
    forall m | 0 <= m < |s| && m != a
      ensures IsAtomChar(s[m])
    {
      if m < a {
        assert s[m] == head[m];
      } else if m < j {
        assert s[m] == mid[m - a - 1];
      } else if m > j {
        assert s[m] == tail[m - j - 1];
      }
    }
    assert NoSpace(s);
    SingleAt(s, a);
    var i := IndexOf(s, '@');
    assert i == a;
    assert s[a + 1..][j - a - 1] == '.';
  }

  /**
   * The three conditions of the validator, stated directly: no white space,
   * exactly one '@' with a non-empty part before it, and a '.' after the '@'
   * that is neither the first nor the last character of the domain.
   */
  lemma ValidEmailConditions(s: string)
    ensures IsValidEmail(s) <==>
              && (forall k :: 0 <= k < |s| ==> !IsJsSpace(s[k]))
              && Count(s, '@') == 1
              && exists i :: 0 < i < |s| && s[i] == '@' && HasInnerDot(s[i + 1..])
  {
    if Count(s, '@') == 1 {
      CountZero(s, '@');
      var i := IndexOf(s, '@');
      forall a | 0 < a < |s| && s[a] == '@' ensures a == i {
        SingleAt(s, a);
      }
    }
  }

  /** The empty string and a bare "@" are rejected; "a@b.c" is accepted. */
  lemma EmailExamples()
    ensures !IsValidEmail("")
    ensures !IsValidEmail("a@b")
    ensures IsValidEmail("a@b.c")
    ensures !IsValidEmail("a b@c.d")
  {
    var s := "a@b.c";
    assert MatchesAt(s, 1, 3) by {
      assert s[..1] == "a" && s[2..3] == "b" && s[4..] == "c";
    }
    var t := "a b@c.d";
    assert IsJsSpace(t[1]);
  }
}
