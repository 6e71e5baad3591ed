/**
  The e-mail check that both scripts use, the regular expression
  `^[^\s@]+@[^\s@]+\.[^\s@]+$`, stated without a regular-expression engine.
 */
module Email {
  import opened Text

  /** A character admitted by the pattern's class `[^\s@]`. */
  predicate IsAtomChar(c: char) {
    !IsWhitespace(c) && c != '@'
  }

  predicate AllAtom(s: string) {
    forall i :: 0 <= i < |s| ==> IsAtomChar(s[i])
  }

  /** `s` is `s[..a] + "@" + s[a + 1..d] + "." + s[d + 1..]` with three non-empty runs of `[^\s@]`. */
  ghost predicate SplitsAt(s: string, a: int, d: int) {
    0 < a && a + 1 < d && d + 1 < |s| && s[a] == '@' && s[d] == '.'
    && AllAtom(s[..a]) && AllAtom(s[a + 1..d]) && AllAtom(s[d + 1..])
  }

  /** The pattern read literally: `s` splits at an '@' (index `a`) and a later '.'
      (index `d`) into three non-empty runs of `[^\s@]`. Because `[^\s@]` admits
      '.', the dot may be any dot of the domain that has a class character on
      each side. */
  ghost predicate MatchesPattern(s: string) {
    exists a, d :: SplitsAt(s, a, d)
  }

  /** Number of occurrences of `c` in `s`. */
  function Count(s: string, c: char): (n: nat)
    ensures n <= |s|
    ensures n == 0 <==> forall i :: 0 <= i < |s| ==> s[i] != c
  {
    if s == [] then 0 else (if s[0] == c then 1 else 0) + Count(s[1..], c)
  }

  lemma {:induction false} CountAppend(s: string, t: string, c: char)
    ensures Count(s + t, c) == Count(s, c) + Count(t, c)
  {
    if s == [] {
      assert s + t == t;
    } else {
      assert (s + t)[1..] == s[1..] + t;
      CountAppend(s[1..], t, c);
    }
  }

  /** Index of the first `c` in `s`, or `|s|` when there is none. */
  function Find(s: string, c: char): (i: nat)
    ensures i <= |s|
    ensures i < |s| ==> s[i] == c
    ensures forall j :: 0 <= j < i ==> s[j] != c
  {
    if s == [] then 0 else if s[0] == c then 0 else 1 + Find(s[1..], c)
  }

  /** The domain part `[^\s@]+\.[^\s@]+` (once the absence of white space and '@'
      is known): some '.' is neither its first nor its last character. */
  predicate HasInnerDot(domain: string) {
    exists k :: 0 < k < |domain| - 1 && domain[k] == '.'
  }

  /** `isValidEmail` (and the inline test in the other script): no white space,
      exactly one '@', something before it, and a domain with an inner dot. */
  predicate IsValidEmail(s: string) {
    && NoWhitespace(s)
    && Count(s, '@') == 1
    && var at := Find(s, '@');
       0 < at && HasInnerDot(s[at + 1..])
  }

  /** An '@' that occurs exactly once sits nowhere else. */
  lemma OnlyAt(s: string, i: nat, j: nat)
    requires Count(s, '@') == 1
    requires i < |s| && j < |s| && s[i] == '@' && s[j] == '@'
    ensures i == j
  {
    if i != j {
      var lo, hi := if i < j then i else j, if i < j then j else i;
      assert s[..hi][lo] == '@';
      assert s[hi..][0] == '@';
      assert s == s[..hi] + s[hi..];
      CountAppend(s[..hi], s[hi..], '@');
    }
  }

  lemma ValidEmailMatches(s: string)
    requires IsValidEmail(s)
    ensures MatchesPattern(s)
  {
    var a := Find(s, '@');
    var domain := s[a + 1..];
    var k :| 0 < k < |domain| - 1 && domain[k] == '.';
    var d := a + 1 + k;
    assert s[d] == '.';
    forall i | 0 <= i < |s| && i != a ensures IsAtomChar(s[i]) {
      if s[i] == '@' {
        OnlyAt(s, i, a);
      }
    }
    assert AllAtom(s[..a]);
    assert AllAtom(s[a + 1..d]);
    assert AllAtom(s[d + 1..]);
    assert SplitsAt(s, a, d);
  }

  lemma SplitHasNoWhitespace(s: string, a: int, d: int)
    requires SplitsAt(s, a, d)
    ensures NoWhitespace(s)
  {
    forall i | 0 <= i < |s| ensures !IsWhitespace(s[i]) {
      if i < a {
        assert s[..a][i] == s[i];
      } else if a < i < d {
        assert s[a + 1..d][i - a - 1] == s[i];
      } else if d < i {
        assert s[d + 1..][i - d - 1] == s[i];
      }
    }
  }

  lemma SplitDomainHasNoAt(s: string, a: int, d: int)
    requires SplitsAt(s, a, d)
    ensures Count(s[a + 1..], '@') == 0
  {
    var domain := s[a + 1..];
    forall i | 0 <= i < |domain| ensures domain[i] != '@' {
      if i + a + 1 < d {
        assert s[a + 1..d][i] == domain[i];
      } else if i + a + 1 > d {
        assert s[d + 1..][i + a - d] == domain[i];
      }
    }
  }

  lemma MatchesValidEmail(s: string)
    requires MatchesPattern(s)
    ensures IsValidEmail(s)
  {
    var a, d :| SplitsAt(s, a, d);
    SplitHasNoWhitespace(s, a, d);
    SplitHasOneAt(s, a, d);
    assert s[a + 1..][d - a - 1] == '.';
  }

  lemma SplitHasOneAt(s: string, a: int, d: int)
    requires SplitsAt(s, a, d)
    ensures Count(s, '@') == 1 && Find(s, '@') == a
  {
    SplitDomainHasNoAt(s, a, d);
    assert Count(s[..a], '@') == 0;
    assert s == s[..a] + s[a..];
    CountAppend(s[..a], s[a..], '@');
    assert s[a..] == [s[a]] + s[a + 1..];
    CountAppend([s[a]], s[a + 1..], '@');
  }

  /** The computed check accepts exactly the strings the regular expression matches. */
  lemma ValidEmailIffPattern(s: string)
    ensures IsValidEmail(s) <==> MatchesPattern(s)
  {
    if IsValidEmail(s) {
      ValidEmailMatches(s);
    }
    if MatchesPattern(s) {
      MatchesValidEmail(s);
    }
  }

  /** A valid address has nothing for `trim` to remove. */
  lemma ValidEmailIsTrimmed(s: string)
    requires IsValidEmail(s)
    ensures s != [] && Trim(s) == s
  {
  }

  /** The worked cases: "a@b.co" passes; "a@b", "a.b@" and "" do not. */
  lemma EmailExamples()
    ensures IsValidEmail("a@b.co")
    ensures !IsValidEmail("a@b")
    ensures !IsValidEmail("a.b@")
    ensures !IsValidEmail("")
  {
    ExampleAddress();
  }

  lemma ExampleAddress()
    ensures IsValidEmail("a@b.co")
  {
    assert "a@b.co"[2..][1] == '.';
    assert Count("a@b.co", '@') == 1 by {
      assert "a@b.co"[1..][1..] == "b.co";
      assert Count("b.co", '@') == 0;
    }
    assert Find("a@b.co", '@') == 1;
  }
}
