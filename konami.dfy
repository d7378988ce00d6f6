/**
 * The secret-sequence detector: a global `keydown` handler keeps a cursor
 * `konamiIndex` into the ten-key Konami code. A key equal to the expected
 * one (ignoring letter case) advances the cursor; reaching the end fires the
 * celebration and re-arms the cursor at 0; any other key sends the cursor
 * back to 0 without testing it against the first key again.
 */
module Konami {
  import opened Chars

  const KonamiCode: seq<string> := ["ArrowUp", "ArrowUp", "ArrowDown", "ArrowDown",
    "ArrowLeft", "ArrowRight", "ArrowLeft", "ArrowRight", "b", "a"]

  /** `key.toLowerCase() === expected.toLowerCase()`, compared character by
      character (see `KeyMatchesLower`). */
  predicate KeyMatches(key: string, expected: string) {
    |key| == |expected| && forall i | 0 <= i < |key| :: ToLower(key[i]) == ToLower(expected[i])
  }

  lemma KeyMatchesLower(key: string, expected: string)
    ensures KeyMatches(key, expected) <==> LowerStr(key) == LowerStr(expected)
  {
    if LowerStr(key) == LowerStr(expected) {
      assert forall i | 0 <= i < |key| :: LowerStr(key)[i] == LowerStr(expected)[i];
    }
  }

  /** The cursor after one key and whether that key fired the effect. */
  datatype Step = Step(cursor: nat, fired: bool)

  /** One run of the `keydown` handler from cursor `cursor`. */
  function Next(cursor: nat, key: string): (s: Step)
    requires cursor < |KonamiCode|
    ensures s.cursor < |KonamiCode|
  {
    if KeyMatches(key, KonamiCode[cursor]) then
      if cursor + 1 == |KonamiCode| then Step(0, true) else Step(cursor + 1, false)
    else
      Step(0, false)
  }

  /** Where a sequence of key presses leaves the cursor, and for each press
      whether it fired the effect. */
  datatype Trace = Trace(cursor: nat, fired: seq<bool>)

  /** The handler folded over the key presses `keys`, in order. */
  function Run(cursor: nat, keys: seq<string>): (t: Trace)
    requires cursor < |KonamiCode|
    ensures t.cursor < |KonamiCode|
    ensures |t.fired| == |keys|
    decreases |keys|
  {
    if keys == [] then Trace(cursor, [])
    else
      var s := Next(cursor, keys[0]);
      var rest := Run(s.cursor, keys[1..]);
      Trace(rest.cursor, [s.fired] + rest.fired)
  }

  /** `n` presses none of which fires. */
  function Quiet(n: nat): (r: seq<bool>)
    ensures |r| == n && true !in r
  {
    seq(n, _ => false)
  }

  /** An expected key moves the cursor on by exactly one, except that the
      last key of the code fires and re-arms at 0. */
  lemma MatchAdvances(cursor: nat, key: string)
    requires cursor < |KonamiCode| && KeyMatches(key, KonamiCode[cursor])
    ensures cursor < |KonamiCode| - 1 ==> Next(cursor, key) == Step(cursor + 1, false)
    ensures cursor == |KonamiCode| - 1 ==> Next(cursor, key) == Step(0, true)
  {
  }

  /** Any other key resets the cursor to 0 and fires nothing. */
  lemma MismatchResets(cursor: nat, key: string)
    requires cursor < |KonamiCode| && !KeyMatches(key, KonamiCode[cursor])
    ensures Next(cursor, key) == Step(0, false)
  {
  }

  /** Feeding `a` then `b` is feeding `a + b`. */
  lemma {:induction false} RunAppend(cursor: nat, a: seq<string>, b: seq<string>)
    requires cursor < |KonamiCode|
    ensures var ta := Run(cursor, a);
            var tb := Run(ta.cursor, b);
            Run(cursor, a + b) == Trace(tb.cursor, ta.fired + tb.fired)
    decreases |a|
  {
    if a == [] {
      assert a + b == b;
    } else {
      var s := Next(cursor, a[0]);
      var ab := a + b;
      assert ab[0] == a[0] && ab[1..] == a[1..] + b;
      RunAppend(s.cursor, a[1..], b);
      var t1 := Run(s.cursor, a[1..]);
      var tb := Run(t1.cursor, b);
      assert Run(cursor, a) == Trace(t1.cursor, [s.fired] + t1.fired);
      assert Run(cursor, ab) == Trace(tb.cursor, [s.fired] + (t1.fired + tb.fired));
      assert [s.fired] + (t1.fired + tb.fired) == ([s.fired] + t1.fired) + tb.fired;
    }
  }

  /** The code's keys `i` up to (not including) `j`, pressed from cursor `i`,
      bring the cursor to `j` without firing, as long as `j` is not the end. */
  lemma {:induction false} PartialCodeAdvances(i: nat, j: nat)
    requires i <= j < |KonamiCode|
    ensures Run(i, KonamiCode[i..j]) == Trace(j, Quiet(j - i))
    decreases j - i
  {
    if i < j {
      assert KonamiCode[i..j][0] == KonamiCode[i];
      assert KonamiCode[i..j][1..] == KonamiCode[i + 1..j];
      MatchAdvances(i, KonamiCode[i]);
      PartialCodeAdvances(i + 1, j);
      assert [false] + Quiet(j - i - 1) == Quiet(j - i);
    }
  }

  /** The rest of the code from cursor `i` fires once, on its last key, and
      leaves the cursor at 0. */
  lemma {:induction false} CodeCompletes(i: nat)
    requires i < |KonamiCode|
    ensures Run(i, KonamiCode[i..]) == Trace(0, Quiet(|KonamiCode| - 1 - i) + [true])
    decreases |KonamiCode| - i
  {
    var keys := KonamiCode[i..];
    assert keys[0] == KonamiCode[i];
    assert keys[1..] == KonamiCode[i + 1..];
    MatchAdvances(i, KonamiCode[i]);
    if i + 1 < |KonamiCode| {
      CodeCompletes(i + 1);
      assert [false] + (Quiet(|KonamiCode| - 2 - i) + [true]) == Quiet(|KonamiCode| - 1 - i) + [true];
    } else {
      assert keys[1..] == [];
    }
  }

  /** The whole code, from a fresh cursor, fires exactly once, on the last key,
      and re-arms the detector. */
  lemma FullCodeFiresOnce(keys: seq<string>)
    requires keys == KonamiCode
    ensures Run(0, keys) == Trace(0, Quiet(9) + [true])
  {
    CodeCompletes(0);
    assert KonamiCode[0..] == keys;
  }

  /** Entering the code twice fires twice, once at the end of each entry. */
  lemma CodeTwiceFiresTwice(keys: seq<string>)
    requires keys == KonamiCode + KonamiCode
    ensures Run(0, keys) == Trace(0, Quiet(9) + [true] + Quiet(9) + [true])
  {
    FullCodeFiresOnce(KonamiCode);
    RunAppend(0, KonamiCode, KonamiCode);
  }

  /** The handler only looks at the lower-cased key. */
  lemma {:induction false} RunIgnoresCase(cursor: nat, a: seq<string>, b: seq<string>)
    requires cursor < |KonamiCode| && |a| == |b|
    requires forall k | 0 <= k < |a| :: LowerStr(a[k]) == LowerStr(b[k])
    ensures Run(cursor, a) == Run(cursor, b)
    decreases |a|
  {
    if a != [] {
      assert Next(cursor, a[0]) == Next(cursor, b[0]);
      RunIgnoresCase(Next(cursor, a[0]).cursor, a[1..], b[1..]);
    }
  }

  /** Upper-case `B` and `A` count as the letter keys of the code. */
  lemma UpperCaseLettersMatch(keys: seq<string>)
    requires keys == KonamiCode[..8] + ["B", "A"]
    ensures Run(0, keys) == Trace(0, Quiet(9) + [true])
  {
    assert LowerStr("B") == "b" && LowerStr("A") == "a";
    forall k | 0 <= k < |keys| ensures LowerStr(keys[k]) == LowerStr(KonamiCode[k]) {
      if k < 8 { assert keys[k] == KonamiCode[k]; }
    }
    RunIgnoresCase(0, keys, KonamiCode);
    FullCodeFiresOnce(KonamiCode);
  }

  /** A third `ArrowUp` is a mismatch (position 2 expects `ArrowDown`), so the
      cursor falls back to 0 even though `ArrowUp` is the first key. */
  lemma ThreeArrowUpsReset(keys: seq<string>)
    requires keys == ["ArrowUp", "ArrowUp", "ArrowUp"]
    ensures Run(0, keys) == Trace(0, Quiet(3))
  {
    assert !KeyMatches("ArrowUp", "ArrowDown") by {
      assert ToLower("ArrowUp"[5]) != ToLower("ArrowDown"[5]);
    }
    MatchAdvances(0, keys[0]);
    MatchAdvances(1, keys[1]);
    MismatchResets(2, keys[2]);
    assert keys[1..][1..] == [keys[2]];
    assert Run(2, [keys[2]]) == Trace(0, [false]);
    assert [false] + ([false] + [false]) == Quiet(3);
  }

  /** No key fires within the first ten presses after the cursor was at
      `cursor`, unless the cursor reaches the end of the code. */
  lemma {:induction false} NothingFiresEarly(cursor: nat, keys: seq<string>)
    requires cursor < |KonamiCode| && cursor + |keys| < |KonamiCode|
    ensures true !in Run(cursor, keys).fired
    decreases |keys|
  {
    if keys != [] {
      var s := Next(cursor, keys[0]);
      assert !s.fired && s.cursor <= cursor + 1;
      NothingFiresEarly(s.cursor, keys[1..]);
    }
  }

  /** One wrong key anywhere in an entry of the code spoils that entry: it
      resets the cursor and nothing fires. */
  lemma SingleDeviationNeverFires(k: nat, x: string)
    requires k < |KonamiCode| && !KeyMatches(x, KonamiCode[k])
    ensures true !in Run(0, KonamiCode[..k] + [x] + KonamiCode[k + 1..]).fired
  {
    var pre, rest := KonamiCode[..k], KonamiCode[k + 1..];
    PartialCodeAdvances(0, k);
    assert KonamiCode[0..k] == pre;
    RunAppend(0, pre, [x]);
    var t1 := Run(0, pre + [x]);
    assert Run(k, [x]) == Trace(0, [false]);
    assert t1 == Trace(0, Quiet(k) + [false]);
    RunAppend(0, pre + [x], rest);
    NothingFiresEarly(0, rest);
  }

  /** The detector object: the closure variable `konamiIndex` as a field. */
  class KonamiDetector {
    var konamiIndex: nat

    ghost predicate Valid()
      reads this
    {
      konamiIndex < |KonamiCode|
    }

    constructor ()
      ensures Valid() && konamiIndex == 0
    {
      konamiIndex := 0;
    }

    /** The `keydown` handler; `fired` says whether it called the celebration. */
    method KeyDown(key: string) returns (fired: bool)
      requires Valid()
      modifies this
      ensures Valid()
      ensures Step(konamiIndex, fired) == Next(old(konamiIndex), key)
    {
      fired := false;
      if LowerStr(key) == LowerStr(KonamiCode[konamiIndex]) {
        konamiIndex := konamiIndex + 1;
        if konamiIndex == |KonamiCode| {
          fired := true;
          konamiIndex := 0;
        }
      } else {
        konamiIndex := 0;
      }
    }
  }
}
