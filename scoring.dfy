/**
 * The result of a finished typing test (`computeResults` in script.js):
 * words per minute, accuracy against the target sentence and elapsed time,
 * each rounded to one decimal as `Math.round(x * 10) / 10` does.
 *
 * JavaScript numbers are modelled as exact reals; see README for what that
 * leaves out.
 */
module Scoring {
  import opened Words

  datatype TestResult = TestResult(wpm: real, accuracy: real, time: real)

  /** `1 / 60_000`: the smallest number of minutes a test is taken to last. */
  const MinMinutes: real := 1.0 / 60000.0

  /** The number of target positions the typed text matches. A position past
      the end of `typed` never matches (`typed[i]` is `undefined` there). */
  function MatchCount(typed: string, target: string): (n: nat)
    ensures n <= |target|
    decreases |target|
  {
    if target == [] then 0
    else
      var last := |target| - 1;
      MatchCount(typed, target[..last]) + (if last < |typed| && typed[last] == target[last] then 1 else 0)
  }

  /** `typed` agrees with `target` at every target position. */
  ghost predicate Covers(typed: string, target: string) {
    |target| <= |typed| && typed[..|target|] == target
  }

  /** Matches only happen where something was typed. */
  lemma {:induction false} MatchCountAtMostTyped(typed: string, target: string)
    ensures MatchCount(typed, target) <= |typed|
    decreases |target|
  {
    if target != [] {
      var last := |target| - 1;
      MatchCountAtMostTyped(typed, target[..last]);
      if last >= |typed| {
        MatchCountAtMostTyped(typed, target[..|typed|]);
        MatchCountPastTyped(typed, target[..last], |typed|);
      }
    }
  }

  /** Extending the target beyond the typed text adds no matches. */
  lemma {:induction false} MatchCountPastTyped(typed: string, target: string, k: nat)
    requires |typed| <= k <= |target|
    ensures MatchCount(typed, target) == MatchCount(typed, target[..k])
    decreases |target|
  {
    if |target| > k {
      var last := |target| - 1;
      assert target[..last][..k] == target[..k];
      MatchCountPastTyped(typed, target[..last], k);
    } else {
      assert target[..k] == target;
    }
  }

  /** Every target position is matched exactly when the typed text starts
      with the whole target. */
  lemma {:induction false} MatchCountFull(typed: string, target: string)
    ensures MatchCount(typed, target) == |target| <==> Covers(typed, target)
    decreases |target|
  {
    if target != [] {
      var last := |target| - 1;
      var front := target[..last];
      MatchCountFull(typed, front);
      if MatchCount(typed, target) == |target| {
        assert MatchCount(typed, front) == last;
        assert last < |typed| && typed[last] == target[last];
        assert typed[..|target|] == typed[..last] + [typed[last]];
        assert target == front + [target[last]];
      }
      if Covers(typed, target) {
        assert typed[..last] == front;
        assert typed[last] == target[last];
      }
    }
  }

  /** `totalChars > 0 ? (correctChars / totalChars) * 100 : 0` */
  function Accuracy(typed: string, target: string): real {
    if |target| > 0 then (MatchCount(typed, target) as real / |target| as real) * 100.0 else 0.0
  }

  /** Accuracy is a percentage, and it is 100 exactly when the typed text
      starts with the whole (non-empty) target. */
  lemma AccuracyRange(typed: string, target: string)
    ensures 0.0 <= Accuracy(typed, target) <= 100.0
    ensures Accuracy(typed, target) == 100.0 <==> target != [] && Covers(typed, target)
  {
    MatchCountFull(typed, target);
    if |target| > 0 {
      var c := MatchCount(typed, target) as real;
      var n := |target| as real;
      var q := c / n;
      assert q * n == c;
      assert q <= 1.0 by {
        assert q * n == c && c <= n;
      }
      assert q == 1.0 <==> c == n;
    }
  }

  /** `Math.max(elapsedSeconds / 60, 1 / 60_000)` */
  function Minutes(elapsedSeconds: real): (m: real)
    ensures m >= MinMinutes && m >= elapsedSeconds / 60.0
    ensures m == MinMinutes || m == elapsedSeconds / 60.0
  {
    if elapsedSeconds / 60.0 > MinMinutes then elapsedSeconds / 60.0 else MinMinutes
  }

  /** `wordsTyped / minutes`: never negative, zero exactly when no word was
      typed, and at most the word count over the one-millisecond floor. */
  function Wpm(words: nat, elapsedSeconds: real): (w: real)
    ensures 0.0 <= w <= words as real * 60000.0
    ensures w == 0.0 <==> words == 0
  {
    var m := Minutes(elapsedSeconds);
    assert words as real / m <= words as real / MinMinutes by {
      assert words as real / m * m == words as real;
      assert words as real / m * m >= words as real / m * MinMinutes;
    }
    words as real / m
  }

  /** `Math.round(x * 10) / 10`, where `Math.round(y)` is the integer nearest
      to `y`, halves rounded up: `floor(y + 0.5)`. */
  function RoundTenth(x: real): real {
    (x * 10.0 + 0.5).Floor as real / 10.0
  }

  /** Rounding moves a value by at most half a tenth, keeps it within any
      bounds that are whole tenths, and leaves whole tenths alone. */
  lemma RoundTenthBounds(x: real, lo: int, hi: int)
    ensures x - 0.05 < RoundTenth(x) <= x + 0.05
    ensures lo as real / 10.0 <= x ==> lo as real / 10.0 <= RoundTenth(x)
    ensures x <= hi as real / 10.0 ==> RoundTenth(x) <= hi as real / 10.0
    ensures x == lo as real / 10.0 ==> RoundTenth(x) == x
  {
    var f := (x * 10.0 + 0.5).Floor;
    assert f as real <= x * 10.0 + 0.5 < f as real + 1.0;
    if lo as real / 10.0 <= x {
      assert lo as real <= x * 10.0;
      assert lo <= f;
    }
    if x <= hi as real / 10.0 {
      assert x * 10.0 <= hi as real;
      assert f <= hi;
    }
    if x == lo as real / 10.0 {
      assert x * 10.0 + 0.5 == lo as real + 0.5;
      assert f == lo;
    }
  }

  /** The result object `computeResults(typed, elapsedSeconds)` builds
      against the target sentence `target`. */
  function Score(typed: string, target: string, elapsedSeconds: real): TestResult {
    TestResult(
      RoundTenth(Wpm(WordsTyped(typed), elapsedSeconds)),
      RoundTenth(Accuracy(typed, target)),
      RoundTenth(elapsedSeconds))
  }

  /** The displayed result: a percentage for accuracy, a non-negative speed
      that is zero exactly when only white space was typed, and 100%
      accuracy whenever the text covers the target. */
  lemma ScoreRange(typed: string, target: string, elapsedSeconds: real)
    ensures 0.0 <= Score(typed, target, elapsedSeconds).accuracy <= 100.0
    ensures Score(typed, target, elapsedSeconds).wpm >= 0.0
    ensures Score(typed, target, elapsedSeconds).wpm == 0.0 <== AllSpace(typed)
    ensures target != [] && Covers(typed, target) ==> Score(typed, target, elapsedSeconds).accuracy == 100.0
  {
    AccuracyRange(typed, target);
    RoundTenthBounds(Accuracy(typed, target), 0, 1000);
    if Accuracy(typed, target) == 100.0 {
      RoundTenthBounds(Accuracy(typed, target), 1000, 1000);
    }
    RoundTenthBounds(Wpm(WordsTyped(typed), elapsedSeconds), 0, 0);
    WordsTypedCountsRuns(typed);
  }

  /** A session ends only when the typed text equals the target, so a
      finished test always scores 100% accuracy. */
  lemma FinishedScoreIsPerfect(target: string, elapsedSeconds: real)
    requires target != []
    ensures Score(target, target, elapsedSeconds).accuracy == 100.0
  {
    assert target[..|target|] == target;
    ScoreRange(target, target, elapsedSeconds);
  }

  /** One word typed over a full minute: 1.0 wpm, 100% accuracy, 60.0 s. */
  lemma OneWordOneMinute()
    ensures Score("abc", "abc", 60.0) == TestResult(1.0, 100.0, 60.0)
  {
    var abc := "abc";
    assert !IsSpace(abc[0]) && !IsSpace(abc[1]) && !IsSpace(abc[2]);
    assert TrimStart(abc) == abc;
    assert TrimEnd(abc) == abc;
    assert WordEnd(abc, 0) == 3;
    assert WordsTyped(abc) == 1;
    assert Minutes(60.0) == 1.0;
    assert Wpm(1, 60.0) == 1.0;
    FinishedScoreIsPerfect("abc", 60.0);
    RoundTenthBounds(1.0, 10, 10);
    RoundTenthBounds(60.0, 600, 600);
  }

  /** `computeResults`: the word count and minutes as expressions, the
      matching characters counted by a loop over the target. */
  method ComputeResults(typed: string, target: string, elapsedSeconds: real) returns (r: TestResult)
    ensures r == Score(typed, target, elapsedSeconds)
  {
    var wordsTyped := WordsTyped(typed);
    var minutes := Minutes(elapsedSeconds);
    var wpm := wordsTyped as real / minutes;

    var correctChars := 0;
    var totalChars := |target|;
    var i := 0;
    while i < totalChars
      invariant 0 <= i <= totalChars
      invariant correctChars == MatchCount(typed, target[..i])
    {
      assert target[..i + 1][..i] == target[..i];
      if i < |typed| && typed[i] == target[i] {
        correctChars := correctChars + 1;
      }
      i := i + 1;
    }
    assert target[..i] == target;

    var accuracy := if totalChars > 0 then (correctChars as real / totalChars as real) * 100.0 else 0.0;
    r := TestResult(RoundTenth(wpm), RoundTenth(accuracy), RoundTenth(elapsedSeconds));
  }
}
