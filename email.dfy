/**
 * The email validator of the notify form: `validateEmail` tests its argument
 * against the regular expression ^[^\s@]+@[^\s@]+\.[^\s@]+$ .
 *
 * `MatchesEmailRegex` is the language of that expression, written over
 * positions; `ValidateEmail` is a checker that finds the first '@' and then a
 * '.' strictly inside the domain part. The lemmas prove the two agree and
 * derive the shape the regular expression promises.
 */
module Email {
  import opened Chars

  /** A character of the class `[^\s@]`. */
  predicate IsAtom(c: char) {
    !IsSpace(c) && c != '@'
  }

  /** `s` is a run of `[^\s@]` characters (possibly empty). */
  predicate AllAtom(s: string) {
    forall i | 0 <= i < |s| :: IsAtom(s[i])
  }

  /** `s` is in the language of ^[^\s@]+@[^\s@]+\.[^\s@]+$ : it splits at an
      '@' and a later '.' into three non-empty runs of `[^\s@]`. */
  ghost predicate MatchesEmailRegex(s: string) {
    exists at, dot | 0 < at && at + 1 < dot && dot + 1 < |s| ::
      s[at] == '@' && s[dot] == '.'
      && AllAtom(s[..at]) && AllAtom(s[at + 1..dot]) && AllAtom(s[dot + 1..])
  }

  /** The index of a '.' strictly inside `d` (neither first nor last), or -1
      when there is none. */
  function InnerDot(d: string): (k: int)
    ensures k == -1 <==> forall i | 0 < i < |d| - 1 :: d[i] != '.'
    ensures k != -1 ==> 0 < k < |d| - 1 && d[k] == '.'
  {
    if |d| < 3 then -1
    else
      var inner := d[1..|d| - 1];
      var k := IndexOf(inner, '.');
      assert forall i | 0 < i < |d| - 1 :: d[i] == inner[i - 1];
      if k < 0 then -1 else k + 1
  }

  /** `validateEmail`: the local part is everything before the first '@'; it
      must be non-empty, local and domain parts must hold no whitespace and no
      further '@', and the domain needs a '.' that is neither its first nor
      its last character. */
  function ValidateEmail(email: string): (ok: bool)
    ensures ok ==> '@' in email && NoSpace(email)
  {
    var at := IndexOf(email, '@');
    if at <= 0 then false
    else
      var local, domain := email[..at], email[at + 1..];
      var ok := AllAtom(local) && AllAtom(domain) && InnerDot(domain) != -1;
      assert ok ==> NoSpace(email) by {
        if ok {
          forall i | 0 <= i < |email| ensures !IsSpace(email[i]) {
            if i < at { assert email[i] == local[i]; }
            else if i > at { assert email[i] == domain[i - at - 1]; }
          }
        }
      }
      ok
  }

  lemma AllAtomSlice(s: string, i: int, j: int)
    requires 0 <= i <= j <= |s| && AllAtom(s)
    ensures AllAtom(s[i..j])
  {
    assert forall k | 0 <= k < j - i :: s[i..j][k] == s[i + k];
  }

  /** Soundness of the checker: an accepted string matches the regular
      expression, split at its first '@' and the inner '.' of the domain. */
  lemma ValidImpliesMatch(s: string)
    requires ValidateEmail(s)
    ensures MatchesEmailRegex(s)
  {
    var at := IndexOf(s, '@');
    var domain := s[at + 1..];
    var k := InnerDot(domain);
    var dot := at + 1 + k;
    assert s[dot] == '.';
    AllAtomSlice(domain, 0, k);
    AllAtomSlice(domain, k + 1, |domain|);
    assert s[at + 1..dot] == domain[..k];
    assert s[dot + 1..] == domain[k + 1..];
  }

  /** Completeness of the checker: every match of the regular expression is
      accepted; the '@' of the match is necessarily the first one. */
  lemma MatchImpliesValid(s: string, a: int, d: int)
    requires 0 < a && a + 1 < d && d + 1 < |s| && s[a] == '@' && s[d] == '.'
    requires AllAtom(s[..a]) && AllAtom(s[a + 1..d]) && AllAtom(s[d + 1..])
    ensures ValidateEmail(s)
  {
    assert '@' !in s[..a] by {
      forall i | 0 <= i < a ensures s[..a][i] != '@' { assert IsAtom(s[..a][i]); }
    }
    assert IndexOf(s, '@') == a;
    var domain := s[a + 1..];
    assert AllAtom(domain) by {
      forall i | 0 <= i < |domain| ensures IsAtom(domain[i]) {
        if i < d - a - 1 { assert domain[i] == s[a + 1..d][i]; }
        else if i > d - a - 1 { assert domain[i] == s[d + 1..][i - (d - a)]; }
      }
    }
    assert domain[d - a - 1] == '.';
    assert InnerDot(domain) != -1;
  }

  /** The checker accepts exactly the strings the regular expression matches. */
  lemma ValidateEmailMatchesRegex(s: string)
    ensures ValidateEmail(s) <==> MatchesEmailRegex(s)
  {
    if ValidateEmail(s) {
      ValidImpliesMatch(s);
    }
    if MatchesEmailRegex(s) {
      var a, d :| 0 < a && a + 1 < d && d + 1 < |s| && s[a] == '@' && s[d] == '.'
        && AllAtom(s[..a]) && AllAtom(s[a + 1..d]) && AllAtom(s[d + 1..]);
      MatchImpliesValid(s, a, d);
    }
  }

  /** The shape the regular expression promises, stated over the whole string:
      no whitespace, exactly one '@', something before it, and a '.' after it
      that is neither the first nor the last character of the domain. */
  ghost predicate HasEmailShape(s: string) {
    && NoSpace(s)
    && multiset(s)['@'] == 1
    && exists at, dot | 0 < at && at + 1 < dot < |s| - 1 :: s[at] == '@' && s[dot] == '.'
  }

  lemma AtCountZero(s: string)
    requires AllAtom(s)
    ensures multiset(s)['@'] == 0
  {
    assert '@' !in s by {
      forall i | 0 <= i < |s| ensures s[i] != '@' { assert IsAtom(s[i]); }
    }
  }

  /** Two '@' at different positions make the count of '@' at least two. */
  lemma TwoAtsCount(s: string, i: int, j: int)
    requires 0 <= i < j < |s| && s[i] == '@' && s[j] == '@'
    ensures multiset(s)['@'] >= 2
  {
    assert s == s[..i] + [s[i]] + s[i + 1..j] + [s[j]] + s[j + 1..];
  }

  lemma AllAtomRange(s: string, lo: int, hi: int)
    requires 0 <= lo <= hi <= |s|
    requires forall i | lo <= i < hi :: IsAtom(s[i])
    ensures AllAtom(s[lo..hi])
  {
    assert forall k | 0 <= k < hi - lo :: s[lo..hi][k] == s[lo + k];
  }

  /** A match of the regular expression has the email shape. */
  lemma MatchHasShape(s: string, a: int, d: int)
    requires 0 < a && a + 1 < d && d + 1 < |s| && s[a] == '@' && s[d] == '.'
    requires AllAtom(s[..a]) && AllAtom(s[a + 1..d]) && AllAtom(s[d + 1..])
    ensures HasEmailShape(s)
  {
    assert s == s[..a] + [s[a]] + s[a + 1..d] + [s[d]] + s[d + 1..];
    AtCountZero(s[..a]);
    AtCountZero(s[a + 1..d]);
    AtCountZero(s[d + 1..]);
    forall i | 0 <= i < |s| ensures !IsSpace(s[i]) {
      if i < a { assert s[i] == s[..a][i]; }
      else if a < i < d { assert s[i] == s[a + 1..d][i - a - 1]; }
      else if i > d { assert s[i] == s[d + 1..][i - d - 1]; }
    }
  }

  /** A string of the email shape matches the regular expression, split at
      its only '@' and the inner '.'. */
  lemma ShapeMatches(s: string, a: int, d: int)
    requires NoSpace(s) && multiset(s)['@'] == 1
    requires 0 < a && a + 1 < d < |s| - 1 && s[a] == '@' && s[d] == '.'
    ensures MatchesEmailRegex(s)
  {
    forall i | 0 <= i < |s| && i != a ensures IsAtom(s[i]) {
      if s[i] == '@' {
        if i < a { TwoAtsCount(s, i, a); } else { TwoAtsCount(s, a, i); }
      }
    }
    AllAtomRange(s, 0, a);
    AllAtomRange(s, a + 1, d);
    AllAtomRange(s, d + 1, |s|);
  }

  /** `validateEmail(s)` holds iff `s` has the email shape. */
  lemma {:induction false} ValidateEmailShape(s: string)
    ensures ValidateEmail(s) <==> HasEmailShape(s)
  {
    ValidateEmailMatchesRegex(s);
    if MatchesEmailRegex(s) {
      var a, d :| 0 < a && a + 1 < d && d + 1 < |s| && s[a] == '@' && s[d] == '.'
        && AllAtom(s[..a]) && AllAtom(s[a + 1..d]) && AllAtom(s[d + 1..]);
      MatchHasShape(s, a, d);
    }
    if HasEmailShape(s) {
      var a, d :| 0 < a && a + 1 < d < |s| - 1 && s[a] == '@' && s[d] == '.';
      ShapeMatches(s, a, d);
    }
  }

  /** Strings with whitespace anywhere are rejected. */
  lemma RejectsWhitespace(s: string, i: int)
    requires 0 <= i < |s| && IsSpace(s[i])
    ensures !ValidateEmail(s)
  {
  }

  /** Strings without an '@' are rejected. */
  lemma RejectsMissingAt(s: string)
    requires '@' !in s
    ensures !ValidateEmail(s)
  {
  }

  /** Strings with two or more '@' are rejected. */
  lemma RejectsSecondAt(s: string, i: int, j: int)
    requires 0 <= i < j < |s| && s[i] == '@' && s[j] == '@'
    ensures !ValidateEmail(s)
  {
    TwoAtsCount(s, i, j);
    ValidateEmailShape(s);
  }

  /** Every `a@b.c` with non-empty `[^\s@]` runs a, b, c is accepted. */
  lemma AcceptsThreeParts(a: string, b: string, c: string)
    requires a != [] && b != [] && c != []
    requires AllAtom(a) && AllAtom(b) && AllAtom(c)
    ensures ValidateEmail(a + "@" + b + "." + c)
  {
    var s := a + "@" + b + "." + c;
    var at, dot := |a|, |a| + 1 + |b|;
    assert s[..at] == a && s[at + 1..dot] == b && s[dot + 1..] == c;
    assert s[at] == '@' && s[dot] == '.';
    assert MatchesEmailRegex(s);
    ValidateEmailMatchesRegex(s);
  }

  /** The sample address of the notify form is accepted. */
  lemma SampleAccepted(s: string)
    requires s == "user@example.com"
    ensures ValidateEmail(s)
  {
    assert s[..4] == "user" && s[5..12] == "example" && s[13..] == "com";
    MatchImpliesValid(s, 4, 12);
  }

  /** A string without '@' such as "not-an-email" is rejected. */
  lemma SampleRejected(s: string)
    requires s == "not-an-email"
    ensures !ValidateEmail(s)
  {
    assert forall i | 0 <= i < |s| :: s[i] != '@';
    RejectsMissingAt(s);
  }
}
