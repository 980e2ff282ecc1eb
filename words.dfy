/**
 * Word counting as the typing test does it: `typed.trim()` and then
 * `split(/\s+/)`, with the piece count taken as the number of words.
 *
 * The reference definition the count is proved against is `Runs`, a
 * left-to-right scan that counts the maximal runs of non-whitespace
 * characters.
 */
module Words {

  /** The characters JavaScript's `trim` and the `\s` class treat as white space:
      the WhiteSpace and LineTerminator productions of ECMAScript. */
  predicate IsSpace(c: char) {
    c == '\t' || c == '\n' || c == '\U{B}' || c == '\U{C}' || c == '\r' ||
    c == ' ' || c == '\U{A0}' || c == '\U{1680}' ||
    ('\U{2000}' <= c <= '\U{200A}') ||
    c == '\U{2028}' || c == '\U{2029}' || c == '\U{202F}' || c == '\U{205F}' ||
    c == '\U{3000}' || c == '\U{FEFF}'
  }

  ghost predicate AllSpace(s: string) {
    forall i :: 0 <= i < |s| ==> IsSpace(s[i])
  }

  ghost predicate NoSpace(s: string) {
    forall i :: 0 <= i < |s| ==> !IsSpace(s[i])
  }

  /** `String.prototype.trimStart`. */
  function TrimStart(s: string): string
    decreases |s|
  {
    if |s| > 0 && IsSpace(s[0]) then TrimStart(s[1..]) else s
  }

  /** `String.prototype.trimEnd`. */
  function TrimEnd(s: string): string
    decreases |s|
  {
    if |s| > 0 && IsSpace(s[|s| - 1]) then TrimEnd(s[..|s| - 1]) else s
  }

  /** `trimStart` drops the leading white space and nothing else. */
  lemma {:induction false} TrimStartDropsLeadingSpace(s: string)
    ensures var t := TrimStart(s);
      |t| <= |s| && t == s[|s| - |t|..] &&
      AllSpace(s[..|s| - |t|]) &&
      (t != [] ==> !IsSpace(t[0]))
    decreases |s|
  {
    if |s| > 0 && IsSpace(s[0]) {
      TrimStartDropsLeadingSpace(s[1..]);
      var t := TrimStart(s);
      assert s[..|s| - |t|] == [s[0]] + s[1..][..|s| - 1 - |t|];
    }
  }

  /** `trimEnd` drops the trailing white space and nothing else. */
  lemma {:induction false} TrimEndDropsTrailingSpace(s: string)
    ensures var t := TrimEnd(s);
      |t| <= |s| && t == s[..|t|] &&
      AllSpace(s[|t|..]) &&
      (t != [] ==> !IsSpace(t[|t| - 1]))
    decreases |s|
  {
    if |s| > 0 && IsSpace(s[|s| - 1]) {
      var front := s[..|s| - 1];
      TrimEndDropsTrailingSpace(front);
      var t := TrimEnd(s);
      assert s[|t|..] == front[|t|..] + [s[|s| - 1]];
    }
  }

  /** `String.prototype.trim`. */
  function Trim(s: string): string {
    TrimEnd(TrimStart(s))
  }

  /** The first index at or after `i` that holds white space, or `|s|`. */
  function WordEnd(s: string, i: nat): (j: nat)
    requires i <= |s|
    ensures i <= j <= |s|
    ensures forall k :: i <= k < j ==> !IsSpace(s[k])
    ensures j < |s| ==> IsSpace(s[j])
    decreases |s| - i
  {
    if i == |s| || IsSpace(s[i]) then i else WordEnd(s, i + 1)
  }

  /** The first index at or after `i` that holds no white space, or `|s|`. */
  function SpaceEnd(s: string, i: nat): (j: nat)
    requires i <= |s|
    ensures i <= j <= |s|
    ensures forall k :: i <= k < j ==> IsSpace(s[k])
    ensures j < |s| ==> !IsSpace(s[j])
    decreases |s| - i
  {
    if i == |s| || !IsSpace(s[i]) then i else SpaceEnd(s, i + 1)
  }

  /** `s.split(/\s+/)`: the greedy match of `\s+` at the first white space
      ends a piece, and the rest of the string is split the same way. A
      string without white space is a single piece, so `"".split(/\s+/)`
      is `[""]`. */
  function SplitWs(s: string): (pieces: seq<string>)
    ensures |pieces| >= 1
    decreases |s|
  {
    var i := WordEnd(s, 0);
    if i == |s| then [s]
    else
      var j := SpaceEnd(s, i);
      [s[..i]] + SplitWs(s[j..])
  }

  /** `typed.trim() ? typed.trim().split(/\s+/).length : 0` */
  function WordsTyped(typed: string): nat {
    var t := Trim(typed);
    if t == [] then 0 else |SplitWs(t)|
  }

  /** Reference definition: the number of maximal non-white-space runs in `s`,
      counted by a scan that remembers whether the previous character was
      inside a word (`inWord` is that flag for the character before `s[0]`). */
  function Runs(s: string, inWord: bool): nat
    decreases |s|
  {
    if s == [] then 0
    else (if !IsSpace(s[0]) && !inWord then 1 else 0) + Runs(s[1..], !IsSpace(s[0]))
  }

  /** The scan state after reading all of `a`, starting from `inWord`. */
  function After(a: string, inWord: bool): bool {
    if a == [] then inWord else !IsSpace(a[|a| - 1])
  }

  lemma {:induction false} RunsAppend(a: string, b: string, inWord: bool)
    ensures Runs(a + b, inWord) == Runs(a, inWord) + Runs(b, After(a, inWord))
    decreases |a|
  {
    if a == [] {
      assert a + b == b;
    } else {
      assert (a + b)[0] == a[0];
      assert (a + b)[1..] == a[1..] + b;
      RunsAppend(a[1..], b, !IsSpace(a[0]));
      if |a| > 1 {
        assert a[1..][|a[1..]| - 1] == a[|a| - 1];
      }
    }
  }

  lemma {:induction false} RunsOfSpace(w: string, inWord: bool)
    requires AllSpace(w)
    ensures Runs(w, inWord) == 0
    decreases |w|
  {
    if w != [] {
      RunsOfSpace(w[1..], false);
    }
  }

  /** A non-empty white-space-free string is one run, unless the scan was
      already inside a word. */
  lemma {:induction false} RunsOfWord(w: string, inWord: bool)
    requires w != [] && NoSpace(w)
    ensures Runs(w, inWord) == if inWord then 0 else 1
    decreases |w|
  {
    if |w| > 1 {
      RunsOfWord(w[1..], true);
    } else {
      assert w[1..] == [];
    }
  }

  /** Trimming never changes the number of runs. */
  lemma TrimKeepsRuns(s: string)
    ensures Runs(Trim(s), false) == Runs(s, false)
  {
    var ts := TrimStart(s);
    TrimStartDropsLeadingSpace(s);
    var lead := s[..|s| - |ts|];
    assert s == lead + ts;
    RunsAppend(lead, ts, false);
    RunsOfSpace(lead, false);
    var te := TrimEnd(ts);
    TrimEndDropsTrailingSpace(ts);
    var tail := ts[|te|..];
    assert ts == te + tail;
    RunsAppend(te, tail, false);
    RunsOfSpace(tail, After(te, false));
  }

  /** On a string that starts and ends with a non-white-space character,
      `split(/\s+/)` yields one piece per run. */
  lemma {:induction false} SplitCountsRuns(t: string)
    requires t != [] && !IsSpace(t[0]) && !IsSpace(t[|t| - 1])
    ensures |SplitWs(t)| == Runs(t, false)
    decreases |t|
  {
    var i := WordEnd(t, 0);
    if i == |t| {
      RunsOfWord(t, false);
    } else {
      var j := SpaceEnd(t, i);
      assert i > 0;
      assert j < |t|;
      var rest := t[j..];
      assert t == t[..i] + (t[i..j] + rest);
      RunsAppend(t[..i], t[i..j] + rest, false);
      RunsOfWord(t[..i], false);
      RunsAppend(t[i..j], rest, true);
      RunsOfSpace(t[i..j], true);
      assert After(t[i..j], true) == false;
      SplitCountsRuns(rest);
    }
  }

  /** On a trimmed, non-empty string every piece of `split(/\s+/)` is a
      non-empty word without white space. */
  lemma {:induction false} SplitPiecesAreWords(t: string)
    requires t != [] && !IsSpace(t[0]) && !IsSpace(t[|t| - 1])
    ensures forall k :: 0 <= k < |SplitWs(t)| ==> SplitWs(t)[k] != [] && NoSpace(SplitWs(t)[k])
    decreases |t|
  {
    var i := WordEnd(t, 0);
    if i < |t| {
      var j := SpaceEnd(t, i);
      assert j < |t|;
      SplitPiecesAreWords(t[j..]);
    }
  }

  /** `trim` leaves nothing exactly when the text is all white space. */
  lemma TrimEmptyIffAllSpace(s: string)
    ensures Trim(s) == [] <==> AllSpace(s)
  {
    var ts := TrimStart(s);
    TrimStartDropsLeadingSpace(s);
    TrimEndDropsTrailingSpace(ts);
    assert s == s[..|s| - |ts|] + ts;
    if Trim(s) == [] {
      assert AllSpace(ts[0..]);
      assert ts == ts[0..];
    }
    assert ts != [] ==> ts[0] == s[|s| - |ts|];
  }

  /** The word count of the typing test is the number of white-space-separated
      runs of the typed text, and it is zero exactly when the text is all
      white space. */
  lemma WordsTypedCountsRuns(typed: string)
    ensures WordsTyped(typed) == Runs(typed, false)
    ensures WordsTyped(typed) == 0 <==> AllSpace(typed)
  {
    TrimKeepsRuns(typed);
    TrimEmptyIffAllSpace(typed);
    var t := Trim(typed);
    if t != [] {
      TrimStartDropsLeadingSpace(typed);
      TrimEndDropsTrailingSpace(TrimStart(typed));
      assert !IsSpace(TrimStart(typed)[0]);
      SplitCountsRuns(t);
    }
  }
}
