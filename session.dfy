/**
 * The typing-test session of script.js: the module-level state
 * (`currentSentence`, `started`, `finished`, `startTime`), the `input`
 * handler and `init`, with the result history kept in the `localStorage`
 * slot `store`.
 *
 * `Step` says what one `input` event does to the state as a function of the
 * state before it; the class `Session` holds the state in fields, as the
 * script does, and its `Keystroke` method is proved to follow `Step`.
 *
 * The clock (`performance.now()`), the random choice of sentence and the
 * ISO date of a result are passed in by the caller.
 */
module TypingSession {
  import opened Options
  import opened Scoring
  import opened Highlighting
  import opened History

  /** The fixed list of target sentences. */
  const Sentences: seq<string> := [
    "Practice makes progress, not perfection.",
    "The quick brown fox jumps over the lazy dog.",
    "Typing faster starts with accuracy and consistency.",
    "Great things are done by a series of small things brought together.",
    "Simplicity is the ultimate sophistication.",
    "Discipline is the bridge between goals and accomplishment.",
    "Stay curious and keep learning every day.",
    "Small daily improvements lead to stunning results over time.",
    "Focus on the process, and the results will follow.",
    "Clarity comes from action, not thought alone."
  ]

  lemma SentencesNonEmpty(s: string)
    requires s in Sentences
    ensures s != []
  {
  }

  /** The session state; `startTime` is in milliseconds on the
      `performance.now()` clock and stays 0 until the first input. */
  datatype State = State(currentSentence: string, started: bool, finished: bool, startTime: real, store: Stored)

  /** `Idle → Running → Finished`, read off the two flags. */
  datatype Phase = Idle | Running | Finished

  function PhaseOf(s: State): Phase {
    if s.finished then Finished else if s.started then Running else Idle
  }

  function Rank(p: Phase): nat {
    match p
    case Idle => 0
    case Running => 1
    case Finished => 2
  }

  /** The target is never empty (every sentence of the list has text), so a
      session can only have finished after it started. */
  predicate Consistent(s: State) {
    s.currentSentence != [] && (s.finished ==> s.started)
  }

  /** What the `input` handler draws and reports for one event. */
  datatype Reaction = Reaction(view: Option<Highlights>, result: Option<TestResult>)

  /** `init`: a fresh idle session on `sentence`; the stored history is kept. */
  function Init(sentence: string, store: Stored): State {
    State(sentence, false, false, 0.0, store)
  }

  /** The `input` handler for the text `typed` now in the input box, at clock
      reading `now`, with `date` the ISO time a result would be saved under. */
  function Step(s: State, typed: string, now: real, date: string): (State, Reaction) {
    if s.finished then (s, Reaction(None, None))
    else
      var started := s.started || |typed| > 0;
      var startTime := if !s.started && |typed| > 0 then now else s.startTime;
      var view := Some(Highlight(typed, s.currentSentence));
      if typed == s.currentSentence then
        var r := Score(typed, s.currentSentence, (now - startTime) / 1000.0);
        (State(s.currentSentence, started, true, startTime, Save(s.store, Entry(r, date))), Reaction(view, Some(r)))
      else
        (State(s.currentSentence, started, false, startTime, s.store), Reaction(view, None))
  }

  /** One input event: a finished session ignores it; otherwise the first
      non-empty input starts the clock, and the session finishes, with a
      result that is saved, exactly when the input equals the sentence. */
  lemma StepTransitions(s: State, typed: string, now: real, date: string)
    requires Consistent(s)
    ensures var (t, out) := Step(s, typed, now, date);
      Consistent(t) &&
      t.currentSentence == s.currentSentence &&
      Rank(PhaseOf(s)) <= Rank(PhaseOf(t)) &&
      (s.finished ==> t == s && out == Reaction(None, None)) &&
      (!s.finished ==>
        t.started == (s.started || typed != []) &&
        (s.started ==> t.startTime == s.startTime) &&
        (t.finished <==> typed == s.currentSentence) &&
        (out.result.Some? <==> t.finished) &&
        (t.finished ==> out.result.value.accuracy == 100.0 &&
                        t.store == Save(s.store, Entry(out.result.value, date))) &&
        (!t.finished ==> t.store == s.store))
  {
    if !s.finished && typed == s.currentSentence {
      var startTime := if !s.started && |typed| > 0 then now else s.startTime;
      FinishedScoreIsPerfect(s.currentSentence, (now - startTime) / 1000.0);
    }
  }

  /** One `input` event: the text in the box, the `performance.now()` reading
      when the handler runs, and the ISO date a result would be saved under. */
  datatype Event = Event(typed: string, now: real, date: string)

  /** The state after a series of input events, first to last, each with its
      own clock reading and date. */
  function Run(s: State, events: seq<Event>): State
    decreases |events|
  {
    if events == [] then s
    else
      var e := events[0];
      Run(Step(s, e.typed, e.now, e.date).0, events[1..])
  }

  /** A session whose inputs never equal the sentence never finishes and
      never saves a result (for instance "abx" against "abc"), however the
      clock moves between keystrokes. */
  lemma {:induction false} NoMatchNeverFinishes(s: State, events: seq<Event>)
    requires !s.finished
    requires forall i :: 0 <= i < |events| ==> events[i].typed != s.currentSentence
    ensures var t := Run(s, events);
      !t.finished && t.store == s.store && t.currentSentence == s.currentSentence
    decreases |events|
  {
    if events != [] {
      var e := events[0];
      var next := Step(s, e.typed, e.now, e.date).0;
      assert forall i :: 0 <= i < |events[1..]| ==> events[1..][i] == events[i + 1];
      NoMatchNeverFinishes(next, events[1..]);
    }
  }

  /** Once finished, a session stays as it is through any further input. */
  lemma {:induction false} FinishedIsTerminal(s: State, events: seq<Event>)
    requires s.finished
    ensures Run(s, events) == s
    decreases |events|
  {
    if events != [] {
      FinishedIsTerminal(s, events[1..]);
    }
  }

  class Session {
    var currentSentence: string
    var started: bool
    var finished: bool
    var startTime: real
    var store: Stored

    function Current(): State
      reads this
    {
      State(currentSentence, started, finished, startTime, store)
    }

    /** Page load: the state declared at the top of the script, then `init`. */
    constructor (sentence: string, stored: Stored)
      requires sentence in Sentences
      ensures Current() == Init(sentence, stored) && Consistent(Current())
    {
      SentencesNonEmpty(sentence);
      currentSentence := sentence;
      started := false;
      finished := false;
      startTime := 0.0;
      store := stored;
    }

    /** `init` (what the restart button does): a new sentence and a fresh idle
        session, whatever state the old one was in. */
    method Restart(sentence: string)
      requires sentence in Sentences
      modifies this
      ensures Current() == Init(sentence, old(store)) && Consistent(Current())
      ensures PhaseOf(Current()) == Idle
    {
      SentencesNonEmpty(sentence);
      currentSentence := sentence;
      started := false;
      finished := false;
      startTime := 0.0;
    }

    /** The `input` handler, updating the fields step by step. */
    method Keystroke(typed: string, now: real, date: string) returns (view: Option<Highlights>, result: Option<TestResult>)
      modifies this
      ensures (Current(), Reaction(view, result)) == Step(old(Current()), typed, now, date)
    {
      ghost var before := Current();
      view, result := None, None;
      if finished {
        return;
      }

      if !started && |typed| > 0 {
        started := true;
        startTime := now;
      }

      var h := UpdateHighlights(typed, currentSentence);
      view := Some(h);

      assert started == (before.started || |typed| > 0);
      assert startTime == if !before.started && |typed| > 0 then now else before.startTime;
      if typed == currentSentence {
        finished := true;
        var elapsedSeconds := (now - startTime) / 1000.0;
        var r := ComputeResults(typed, currentSentence, elapsedSeconds);
        result := Some(r);
        store := Save(store, Entry(r, date));
        assert Current() == State(before.currentSentence, started, true, startTime, Save(before.store, Entry(r, date)));
        assert Step(before, typed, now, date) == (Current(), Reaction(view, result));
      } else {
        assert Current() == State(before.currentSentence, started, false, startTime, before.store);
      }
    }
  }

  /** A client of the session: a mistake, a correction, the finish, ignored
      input, and a restart that keeps the saved result. */
  method TypoCorrectedThenFinished(target: string)
    requires target in Sentences
  {
    var s := new Session(target, Missing);
    SentencesNonEmpty(target);
    var view, result := s.Keystroke(target[..1] + "#", 1000.0, "d1");
    StepTransitions(Init(target, Missing), target[..1] + "#", 1000.0, "d1");
    assert s.started && s.startTime == 1000.0 && result == None;
    var before := s.Current();
    view, result := s.Keystroke(target, 61000.0, "d1");
    StepTransitions(before, target, 61000.0, "d1");
    assert s.finished && s.startTime == 1000.0 && result.Some? && result.value.accuracy == 100.0;
    assert s.store == Saved([Entry(result.value, "d1")]);
    var done := result.value;
    view, result := s.Keystroke(target + "x", 62000.0, "d2");
    assert view == None && result == None && s.finished;
    s.Restart(Sentences[0]);
    assert !s.started && !s.finished && s.store == Saved([Entry(done, "d1")]);
  }
}
