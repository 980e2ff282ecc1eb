/**
 * Per-character feedback (`updateHighlights` in script.js): each character
 * of the target sentence is shown as not yet typed, correct or incorrect,
 * and one of them carries the caret.
 *
 * The DOM spans are replaced by the sequence of statuses they end up with.
 */
module Highlighting {
  import opened Options
  import opened Scoring

  datatype CharStatus = Unset | Correct | Incorrect

  /** What the target sentence looks like after a keystroke: one status per
      target character, and the caret position if any character carries it. */
  datatype Highlights = Highlights(statuses: seq<CharStatus>, caret: Option<nat>)

  /** The status one target position ends up with: not yet typed, typed as
      expected, or typed as something else. */
  function StatusAt(typed: string, target: string, i: nat): (s: CharStatus)
    requires i < |target|
    ensures s == Unset <==> i >= |typed|
    ensures s == Correct <==> i < |typed| && typed[i] == target[i]
  {
    if i >= |typed| then Unset
    else if typed[i] == target[i] then Correct
    else Incorrect
  }

  /** One status per character of the target; typed characters past the end
      of the target have no span and so no status. */
  function Statuses(typed: string, target: string): (s: seq<CharStatus>)
    ensures |s| == |target|
  {
    seq(|target|, i requires 0 <= i < |target| => StatusAt(typed, target, i))
  }

  /** `Math.min(typed.length, currentSentence.length - 1)`, kept only when a
      span exists at that index. */
  function Caret(typed: string, target: string): (c: Option<nat>)
    ensures c == None <==> target == []
    ensures c.Some? ==> c.value < |target|
  {
    var caretIndex := if |typed| < |target| - 1 then |typed| else |target| - 1;
    if 0 <= caretIndex < |target| then Some(caretIndex) else None
  }

  function Highlight(typed: string, target: string): Highlights {
    Highlights(Statuses(typed, target), Caret(typed, target))
  }

  /** The number of `s`-statuses in `ss`. */
  function CountOf(ss: seq<CharStatus>, s: CharStatus): (n: nat)
    ensures n <= |ss|
  {
    if ss == [] then 0
    else CountOf(ss[..|ss| - 1], s) + (if ss[|ss| - 1] == s then 1 else 0)
  }

  /** The characters highlighted as correct are exactly the ones the result
      counts as correct. */
  lemma {:induction false} CorrectCountIsMatchCount(typed: string, target: string)
    ensures CountOf(Statuses(typed, target), Correct) == MatchCount(typed, target)
    decreases |target|
  {
    if target != [] {
      var last := |target| - 1;
      assert Statuses(typed, target)[..last] == Statuses(typed, target[..last]);
      CorrectCountIsMatchCount(typed, target[..last]);
    }
  }

  /** While the typed text is a prefix of the target, everything typed is
      correct and nothing else is marked. */
  lemma PrefixHighlights(typed: string, target: string)
    requires |typed| <= |target| && target[..|typed|] == typed
    ensures forall i :: 0 <= i < |typed| ==> Statuses(typed, target)[i] == Correct
    ensures forall i :: |typed| <= i < |target| ==> Statuses(typed, target)[i] == Unset
  {
    forall i | 0 <= i < |typed|
      ensures Statuses(typed, target)[i] == Correct
    {
      assert typed[i] == target[..|typed|][i];
    }
  }

  /** Every character is highlighted as correct exactly when the typed text
      starts with the whole target. */
  lemma AllCorrectIffCovers(typed: string, target: string)
    ensures (forall i :: 0 <= i < |target| ==> Statuses(typed, target)[i] == Correct)
            <==> Covers(typed, target)
  {
    var ss := Statuses(typed, target);
    if forall i :: 0 <= i < |target| ==> ss[i] == Correct {
      forall i | 0 <= i < |target|
        ensures i < |typed| && typed[i] == target[i]
      {
        assert ss[i] == Correct;
        assert ss[i] == StatusAt(typed, target, i);
      }
      if |target| > 0 {
        var last := |target| - 1;
        assert ss[last] == StatusAt(typed, target, last);
      }
      assert typed[..|target|] == target;
    }
    if Covers(typed, target) {
      forall i | 0 <= i < |target|
        ensures ss[i] == Correct
      {
        assert typed[i] == typed[..|target|][i];
      }
    }
  }

  /** Before the target is complete the caret sits on the first character not
      yet typed; from then on it stays on the last character. */
  lemma CaretOnNextChar(typed: string, target: string)
    requires target != []
    ensures |typed| < |target| ==>
              Caret(typed, target) == Some(|typed|) && Statuses(typed, target)[|typed|] == Unset &&
              forall i :: 0 <= i < |typed| ==> Statuses(typed, target)[i] != Unset
    ensures |typed| >= |target| ==> Caret(typed, target) == Some(|target| - 1)
  {
  }

  /** The loop of `updateHighlights`: it runs over the longer of the typed
      text and the target and skips positions that have no span. */
  method UpdateHighlights(typed: string, target: string) returns (h: Highlights)
    ensures h == Highlight(typed, target)
  {
    var len := if |typed| > |target| then |typed| else |target|;
    var statuses: seq<CharStatus> := [];
    var i := 0;
    while i < len
      invariant 0 <= i <= len
      invariant |statuses| == if i < |target| then i else |target|
      invariant forall k :: 0 <= k < |statuses| ==> statuses[k] == StatusAt(typed, target, k)
    {
      if i < |target| {
        var status;
        if i >= |typed| {
          status := Unset;
        } else if typed[i] == target[i] {
          status := Correct;
        } else {
          status := Incorrect;
        }
        statuses := statuses + [status];
      }
      i := i + 1;
    }

    var caretIndex := if |typed| < |target| - 1 then |typed| else |target| - 1;
    var caret := if 0 <= caretIndex < |target| then Some(caretIndex) else None;
    h := Highlights(statuses, caret);
  }
}
