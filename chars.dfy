/**
 * Character-level primitives the landing-page script relies on: the
 * whitespace class shared by the `\s` regular expression escape and
 * `String.prototype.trim`, `trim` itself, and the lower-casing of key names;
 * plus a first-occurrence search that the email checker of this model uses.
 */
module Chars {

  /** The characters matched by `\s` in a JavaScript regular expression. The
      same set (WhiteSpace plus LineTerminator) is what `trim` strips. */
  predicate IsSpace(c: char) {
    || c == '\t' || c == '\n' || c == '\U{000B}' || c == '\U{000C}' || c == '\r'
    || c == ' ' || c == '\U{00A0}' || c == '\U{1680}'
    || ('\U{2000}' <= c <= '\U{200A}')
    || c == '\U{2028}' || c == '\U{2029}' || c == '\U{202F}' || c == '\U{205F}'
    || c == '\U{3000}' || c == '\U{FEFF}'
  }

  predicate AllSpace(s: string) {
    forall i | 0 <= i < |s| :: IsSpace(s[i])
  }

  predicate NoSpace(s: string) {
    forall i | 0 <= i < |s| :: !IsSpace(s[i])
  }

  /** A string `trim` leaves as it is: empty, or non-space at both ends. */
  predicate IsTrimmed(s: string) {
    s == [] || (!IsSpace(s[0]) && !IsSpace(s[|s| - 1]))
  }

  /** Number of leading whitespace characters. */
  function LeadingSpace(s: string): (i: nat)
    ensures i <= |s|
    ensures AllSpace(s[..i])
    ensures i < |s| ==> !IsSpace(s[i])
  {
    if s == [] || !IsSpace(s[0]) then 0
    else
      var k := LeadingSpace(s[1..]);
      assert s[..k + 1] == [s[0]] + s[1..][..k];
      k + 1
  }

  /** Length of `s` once its trailing whitespace is dropped. */
  function TrailingCut(s: string): (j: nat)
    ensures j <= |s|
    ensures AllSpace(s[j..])
    ensures j > 0 ==> !IsSpace(s[j - 1])
  {
    if s == [] || !IsSpace(s[|s| - 1]) then |s|
    else
      var k := TrailingCut(s[..|s| - 1]);
      assert s[k..] == s[..|s| - 1][k..] + [s[|s| - 1]];
      k
  }

  /** `String.prototype.trim`: `s` without leading and trailing whitespace. */
  function Trim(s: string): (r: string)
    ensures IsTrimmed(r)
    ensures exists i | 0 <= i <= |s| - |r| ::
              s[i..i + |r|] == r && AllSpace(s[..i]) && AllSpace(s[i + |r|..])
  {
    var j := TrailingCut(s);
    var i := LeadingSpace(s[..j]);
    assert s[..j][..i] == s[..i];
    assert s[i..j] == s[i..i + |s[i..j]|];
    assert i == j ==> s[i..] == s[..j][i..] + s[j..];
    s[i..j]
  }

  /** Trimming removes exactly the whitespace padding around a trimmed core,
      so the result of `Trim` is determined by that decomposition. */
  lemma {:induction false} TrimStrips(p: string, t: string, q: string)
    requires AllSpace(p) && AllSpace(q) && IsTrimmed(t)
    ensures Trim(p + t + q) == t
  {
    var s := p + t + q;
    var j := TrailingCut(s);
    var i := LeadingSpace(s[..j]);
    assert forall k | j <= k < |s| :: IsSpace(s[k]) by {
      forall k | j <= k < |s| ensures IsSpace(s[k]) { assert s[j..][k - j] == s[k]; }
    }
    if t == [] {
      assert forall k | 0 <= k < |s| :: IsSpace(s[k]);
      assert j == 0;
    } else {
      var e := |p| + |t|;
      assert !IsSpace(s[e - 1]) by { assert s[e - 1] == t[|t| - 1]; }
      assert forall k | e <= k < |s| :: IsSpace(s[k]) by {
        forall k | e <= k < |s| ensures IsSpace(s[k]) { assert s[k] == q[k - e]; }
      }
      assert j == e;
      assert s[..j] == p + t;
      assert !IsSpace((p + t)[|p|]);
      assert forall k | 0 <= k < i :: IsSpace((p + t)[k]) by {
        forall k | 0 <= k < i ensures IsSpace((p + t)[k]) { assert (p + t)[..i][k] == (p + t)[k]; }
      }
      assert forall k | 0 <= k < |p| :: IsSpace((p + t)[k]) by {
        forall k | 0 <= k < |p| ensures IsSpace((p + t)[k]) { assert (p + t)[k] == p[k]; }
      }
      assert i == |p|;
      assert s[i..j] == t;
    }
  }

  /** `trim` is idempotent. */
  lemma TrimIdempotent(s: string)
    ensures Trim(Trim(s)) == Trim(s)
  {
    TrimStrips([], Trim(s), []);
    assert [] + Trim(s) + [] == Trim(s);
  }

  /** `v` splits into the whitespace `trim` drops at the front, what it
      keeps, and the whitespace it drops at the back. */
  lemma TrimSplit(v: string) returns (i: nat, j: nat)
    ensures i <= j <= |v| && Trim(v) == v[i..j]
    ensures AllSpace(v[..i]) && AllSpace(v[j..])
  {
    j := TrailingCut(v);
    i := LeadingSpace(v[..j]);
    assert v[..j][..i] == v[..i];
  }

  /** Extra whitespace around a string does not change what `trim` gives. */
  lemma {:induction false} TrimAbsorbsPadding(p: string, v: string, q: string)
    requires AllSpace(p) && AllSpace(q)
    ensures Trim(p + v + q) == Trim(v)
  {
    var i, j := TrimSplit(v);
    var a, t, b := Regroup(p, v, q, i, j);
    TrimStrips(a, t, b);
  }

  /** `p + v + q` as the whitespace before what `trim` keeps of `v`, that
      kept part, and the whitespace after it. */
  lemma Regroup(p: string, v: string, q: string, i: nat, j: nat) returns (a: string, t: string, b: string)
    requires AllSpace(p) && AllSpace(q)
    requires i <= j <= |v| && AllSpace(v[..i]) && AllSpace(v[j..])
    ensures p + v + q == a + t + b && t == v[i..j]
    ensures AllSpace(a) && AllSpace(b)
  {
    a, t, b := p + v[..i], v[i..j], v[j..] + q;
    AllSpaceConcat(p, v[..i]);
    AllSpaceConcat(v[j..], q);
    assert v == v[..i] + t + v[j..];
    SeqAssoc(p, v[..i] + t, v[j..], q);
    assert p + (v[..i] + t) == a + t;
  }

  lemma AllSpaceConcat(a: string, b: string)
    requires AllSpace(a) && AllSpace(b)
    ensures AllSpace(a + b)
  {
    forall k | 0 <= k < |a + b| ensures IsSpace((a + b)[k]) {
      if k >= |a| { assert (a + b)[k] == b[k - |a|]; }
    }
  }

  lemma SeqAssoc(a: string, b: string, c: string, d: string)
    ensures a + (b + c) + d == a + b + (c + d)
  {
  }

  /** The first index of `c` in `s`, or -1 when `c` does not occur; the
      email checker uses it to find the '@'. */
  function IndexOf(s: string, c: char): (r: int)
    ensures r == -1 <==> c !in s
    ensures r >= 0 ==> r < |s| && s[r] == c && c !in s[..r]
  {
    if s == [] then -1
    else if s[0] == c then 0
    else
      var k := IndexOf(s[1..], c);
      if k < 0 then -1
      else
        assert s[..k + 1] == [s[0]] + s[1..][..k];
        k + 1
  }

  /** `toLowerCase` restricted to ASCII letters, enough for key names. */
  function ToLower(c: char): (l: char)
    ensures 'A' <= c <= 'Z' ==> l as int == c as int + 32
    ensures !('A' <= c <= 'Z') ==> l == c
  {
    if 'A' <= c <= 'Z' then (c as int + 32) as char else c
  }

  function LowerStr(s: string): (r: string)
    ensures |r| == |s|
    ensures forall i | 0 <= i < |s| :: r[i] == ToLower(s[i])
  {
    if s == [] then [] else [ToLower(s[0])] + LowerStr(s[1..])
  }
}
