# Typing test: scoring and session model

A Dafny model of the logic in `script.js`, a browser typing-speed test. The
page shows a target sentence and highlights each character as the user types.
When the typed text equals the sentence, the test ends. It then reports words
per minute and accuracy, and keeps the last five results in `localStorage`.

The model has six files:

- `words.dfy` (module `Words`) models the word count: `typed.trim()`, then
  `split(/\s+/)`, with the ECMAScript white-space set. It proves that this
  count equals the number of maximal non-white-space runs. That count comes
  from `Runs`, a separate left-to-right scan.
- `scoring.dfy` (module `Scoring`) covers `computeResults`: correct characters,
  accuracy, minutes with the one-millisecond floor, words per minute, and
  `Math.round(x * 10) / 10`. `ComputeResults` counts the correct characters in
  a loop, as the source does, and is proved equal to the function `Score`.
- `highlights.dfy` (module `Highlighting`) covers `updateHighlights`. It gives
  one status per target character (not typed, correct or incorrect) and the
  caret position. `UpdateHighlights` is the source's loop, proved against
  `Highlight`. The characters highlighted as correct are the ones the result
  counts as correct.
- `history.dfy` (module `History`) covers `[entry, ...existing].slice(0, 5)`
  and the stored value it is read from and written to.
- `session.dfy` (module `TypingSession`) holds the list of sentences, the
  transition function `Step` for one `input` event, and the class `Session`.
  The class fields are `currentSentence`, `started`, `finished`, `startTime`
  and the stored history. `Keystroke` is the `input` handler and is proved to
  follow `Step`; `Restart` is `init`. The lemmas about the state machine are
  stated on `Step`.
- `options.dfy` holds the `Option` datatype.

Two consequences of the code are stated as lemmas:

- `computeResults` runs only when the typed text equals the sentence. So every
  finished test scores exactly 100.0% accuracy (`FinishedScoreIsPerfect` and
  `StepTransitions`). Mistakes corrected along the way never show
  in the accuracy.
- `renderLeaderboard` reads stored data that does not parse as an empty
  history (script.js:184-188). `saveResultToStorage`, though, calls
  `JSON.parse` inside its `try` (script.js:168, 176), so the same data makes it
  throw before anything is written, and the store stays unreadable. No result
  is recorded until the storage is cleared (`LoadAfterSave`).

## Model

| member | source | states |
|---|---|---|
| `Words.TrimStartDropsLeadingSpace` | script.js:125 | `trimStart` (the first half of `trim`) removes only leading white space: the removed prefix is all white space, and the rest starts with a non-white-space character or is empty |
| `Words.TrimEndDropsTrailingSpace` | script.js:125 | `trimEnd` (the second half of `trim`) removes only trailing white space: the removed suffix is all white space, and the rest ends with a non-white-space character or is empty |
| `Words.Trim` | script.js:125 | `typed.trim()`: `trimEnd` applied after `trimStart` |
| `Words.SplitWs` | script.js:125 | `split(/\s+/)`: each greedy white-space run ends a piece; text without white space, including `""`, is one piece; there is always at least one piece |
| `Words.WordsTyped` | script.js:125 | `wordsTyped`: 0 when the trimmed text is empty, otherwise the number of pieces of the trimmed text split on white space |
| `Words.TrimKeepsRuns` | script.js:125 | trimming does not change the number of white-space-separated runs |
| `Words.SplitCountsRuns` | script.js:125 | on trimmed non-empty text, `split(/\s+/)` gives exactly one piece per maximal non-white-space run |
| `Words.SplitPiecesAreWords` | script.js:125 | on trimmed non-empty text, every piece of `split(/\s+/)` is non-empty and contains no white space |
| `Words.WordsTypedCountsRuns` | script.js:125 | `wordsTyped` equals the number of maximal non-white-space runs, and is 0 exactly when the text is all white space (so at least 1 otherwise) |
| `Scoring.MatchCount` | script.js:130-137 | `correctChars` never exceeds the target length |
| `Scoring.MatchCountAtMostTyped` | script.js:133-137 | positions at or past the end of the typed text never count, so `correctChars` is at most the typed length |
| `Scoring.MatchCountFull` | script.js:130-137 | every target position matches exactly when the typed text starts with the whole target |
| `Scoring.Accuracy` | script.js:139 | 100 times the matched target positions over the target length, or 0 for an empty target |
| `Scoring.AccuracyRange` | script.js:139 | accuracy lies in [0, 100], and is 100 exactly when the target is non-empty and the typed text starts with it |
| `Scoring.Minutes` | script.js:126 | minutes are the larger of `elapsedSeconds / 60` and `1 / 60000` |
| `Scoring.Wpm` | script.js:127 | wpm is never negative, is 0 exactly when no word was typed, and is at most 60000 times the word count |
| `Scoring.RoundTenth` | script.js:142-144 | `Math.round(x * 10) / 10` on exact reals, with `Math.round(y)` as `floor(y + 0.5)` |
| `Scoring.RoundTenthBounds` | script.js:142-144 | `Math.round(x * 10) / 10` moves a value by at most 0.05, keeps whole-tenth bounds, and leaves whole tenths unchanged |
| `Scoring.Score` | script.js:123-146 | the result object of `computeResults`: rounded wpm from the word count and floored minutes, rounded accuracy against the target, rounded elapsed seconds |
| `Scoring.ScoreRange` | script.js:123-146 | the reported accuracy lies in [0, 100], the reported wpm is not negative and is 0 for all-white-space text, and accuracy is 100 when the text covers the target |
| `Scoring.FinishedScoreIsPerfect` | script.js:232-236 | a result computed when the typed text equals a non-empty sentence always has accuracy 100 |
| `Scoring.OneWordOneMinute` | script.js:123-146 | target `abc` typed exactly in 60 seconds gives wpm 1.0, accuracy 100.0 and time 60.0 |
| `Scoring.ComputeResults` | script.js:123-146 | the counting loop over the target gives the result `Score` specifies: rounded wpm, accuracy and time |
| `Highlighting.StatusAt` | script.js:79-93 | a target position is unset exactly when nothing was typed there, and correct exactly when the typed character equals the target character; otherwise it is incorrect |
| `Highlighting.Statuses` | script.js:76-94 | exactly one status per target character; typed characters past the target get none |
| `Highlighting.Caret` | script.js:97-100 | there is a caret exactly when the target is non-empty, and it always lies inside the target |
| `Highlighting.Highlight` | script.js:74-101 | what `updateHighlights` leaves on the page: the status of every target character and the caret position |
| `Highlighting.CaretOnNextChar` | script.js:97-100 | before the target is complete, the caret is on the first untyped character, and every position before it is typed; after that, it stays on the last character |
| `Highlighting.PrefixHighlights` | script.js:76-94 | when the typed text is a prefix of the target, every typed position is correct and every other position is unset |
| `Highlighting.AllCorrectIffCovers` | script.js:76-94 | every character is marked correct exactly when the typed text starts with the whole target |
| `Highlighting.CorrectCountIsMatchCount` | script.js:87-93 | the number of characters marked correct equals the `correctChars` that `computeResults` counts |
| `Highlighting.UpdateHighlights` | script.js:74-101 | the loop over `max(typed.length, target.length)`, which skips positions without a span, produces exactly `Highlight(typed, target)` |
| `History.Record` | script.js:174 | the updated history has length `min(1 + n, 5)`, starts with the new entry, and continues with the older entries in their order |
| `History.RecordAll` | script.js:174 | the history after applying the update of line 174 once per saved entry, oldest first |
| `History.RecordAllKeepsLatest` | script.js:174 | after any non-empty series of saves, the history is the saved entries newest first, then the earlier history, cut to five |
| `History.HistoryIsLatestFive` | script.js:174 | starting from an empty history, the history never exceeds five entries and is always the latest ones, newest first |
| `History.Load` | script.js:182-188 | a stored list reads back as itself; a missing or unreadable value reads as an empty history |
| `History.Save` | script.js:165-179 | a save leaves an unreadable value unreadable, and never produces one from a readable or missing value |
| `History.LoadAfterSave` | script.js:165-188 | reading after a save gives the updated history unless the store was unreadable; then it stays empty; it never holds more than five entries |
| `TypingSession.SentencesNonEmpty` | script.js:3-14 | every sentence of the fixed list is non-empty |
| `TypingSession.Init` | script.js:38-52 | the state `init` leaves: the given sentence, `started` and `finished` false, start time 0, stored history unchanged |
| `TypingSession.Step` | script.js:218-242 | one `input` event: ignored when finished; otherwise starts the clock on the first non-empty input, redraws the highlights, and on an exact match finishes, computes the result from the elapsed seconds and prepends it to the stored history |
| `TypingSession.Run` | script.js:218-242 | the state after a series of `input` events, each with its own clock reading and date |
| `TypingSession.StepTransitions` | script.js:218-242 | one `input` event: a finished session is unchanged and draws nothing; otherwise the first non-empty input sets `started`, the start time never changes once started, the session finishes exactly when the input equals the sentence, a result exists exactly then, its accuracy is 100, and it is prepended to the stored history; the phase never moves backwards and the state stays consistent |
| `TypingSession.NoMatchNeverFinishes` | script.js:232-233 | a session whose inputs never equal the sentence never finishes and never changes the stored history, whatever clock reading and date each input event carries |
| `TypingSession.FinishedIsTerminal` | script.js:219 | once finished, a session is unchanged by any series of input events, each with its own clock reading and date |
| `TypingSession.Session.constructor` | script.js:30-52 | on page load the session is idle on the chosen sentence, with start time 0 and the stored history untouched |
| `TypingSession.Session.Restart` | script.js:38-52 | `init` installs the new sentence and resets `started`, `finished` and the start time, whatever the previous phase; the stored history is kept |
| `TypingSession.Session.Keystroke` | script.js:218-242 | the handler's updates of the fields, the highlights it draws and the result it reports are exactly those of `Step` |

## Left out

- The DOM: element lookup, creating and rendering spans, CSS class toggling, showing and hiding the result, the leaderboard list, and the input's `disabled` attribute. The model gives the statuses and caret `updateHighlights` draws, the result `showResult` gets and the list `renderLeaderboard` reads.
- Timers: `setInterval` and `clearInterval` only refresh the displayed time. `performance.now()` is the `now` parameter of `Keystroke`. The handler reads the clock twice, once to start the timer and once at the finish; the model uses one reading per keystroke.
- `Math.random` sentence choice: the sentence is a parameter of `Restart` and the constructor, and must come from `Sentences`.
- `Date`, `toISOString`, `toLocaleString` and `toFixed` formatting: the ISO date is the `date` parameter, and the displayed text is not modelled.
- Floating point: JavaScript numbers are exact reals here. `Math.round(y)` is `floor(y + 0.5)`. Binary rounding of `x * 10` and of the divisions is not modelled.
- Strings are sequences of Unicode scalar values. JavaScript indexes UTF-16 code units, so text with characters outside the Basic Multilingual Plane is indexed differently.
- JSON: the stored value is a list of entries, missing, or text that does not parse. Values that parse but are not lists (a number, an object, a string) are not modelled. A failing `localStorage.setItem` (quota exceeded) is not modelled either: the model assumes a readable store is written.
- The 40-wpm "faster than 70% of users" message is a cosmetic constant.
- `Scoring.ScoreRange`: states "wpm is 0" only for all-white-space text and not the converse. Rounding to one decimal sends a positive speed below 0.05 to 0.0; the unrounded converse is stated on `Scoring.Wpm`.
