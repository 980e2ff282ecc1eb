/**
 * The stored history of results (`saveResultToStorage` and the reading half
 * of `renderLeaderboard` in script.js): newest result first, at most five.
 *
 * The `localStorage` key is modelled by `Stored`, with the JSON encoding
 * abstracted to "a list of entries" or "text that does not parse".
 */
module History {
  import opened Scoring

  /** `{ ...result, date: now.toISOString() }`; the date is passed in. */
  datatype Entry = Entry(result: TestResult, date: string)

  /** `.slice(0, 5)`: how many results the history keeps. */
  const MaxEntries: nat := 5

  function Min(a: nat, b: nat): nat {
    if a < b then a else b
  }

  /** `[entry, ...existing].slice(0, 5)`: the new entry first, then the older
      entries in their order, cut to five. */
  function Record(existing: seq<Entry>, entry: Entry): (h: seq<Entry>)
    ensures |h| == Min(1 + |existing|, MaxEntries)
    ensures h[0] == entry
    ensures h[1..] == existing[..|h| - 1]
  {
    ([entry] + existing)[..Min(1 + |existing|, MaxEntries)]
  }

  /** The history after recording `results` one after another, oldest first. */
  function RecordAll(existing: seq<Entry>, results: seq<Entry>): seq<Entry>
    decreases |results|
  {
    if results == [] then existing
    else Record(RecordAll(existing, results[..|results| - 1]), results[|results| - 1])
  }

  function Reverse(s: seq<Entry>): (r: seq<Entry>)
    ensures |r| == |s|
    decreases |s|
  {
    if s == [] then [] else [s[|s| - 1]] + Reverse(s[..|s| - 1])
  }

  /** However many results are recorded, the history holds the latest five,
      newest first, followed by what was there before while room remains. */
  lemma {:induction false} RecordAllKeepsLatest(existing: seq<Entry>, results: seq<Entry>)
    requires results != []
    ensures RecordAll(existing, results)
            == (Reverse(results) + existing)[..Min(|results| + |existing|, MaxEntries)]
    decreases |results|
  {
    var front := results[..|results| - 1];
    var r := results[|results| - 1];
    var all := Reverse(results) + existing;
    assert all == [r] + (Reverse(front) + existing);
    if front == [] {
      assert Reverse(front) + existing == existing;
    } else {
      RecordAllKeepsLatest(existing, front);
      var prev := RecordAll(existing, front);
      var k := Min(|results| + |existing|, MaxEntries);
      assert |prev| == Min(|front| + |existing|, MaxEntries);
      assert Record(prev, r) == ([r] + prev)[..k];
      assert ([r] + prev)[..k] == all[..k];
    }
  }

  /** Starting from no history, the history is always the latest (at most
      five) results, newest first. */
  lemma HistoryIsLatestFive(results: seq<Entry>)
    ensures |RecordAll([], results)| <= MaxEntries
    ensures RecordAll([], results) == Reverse(results)[..Min(|results|, MaxEntries)]
  {
    if results != [] {
      RecordAllKeepsLatest([], results);
      assert Reverse(results) + [] == Reverse(results);
    }
  }

  /** The stored value under the `typingTestResults` key. */
  datatype Stored = Missing | Saved(entries: seq<Entry>) | Corrupt

  /** The list `renderLeaderboard` shows: a missing key reads as `"[]"` and a
      value that does not parse is caught and read as an empty list. */
  function Load(store: Stored): (h: seq<Entry>)
    ensures store.Saved? ==> h == store.entries
    ensures !store.Saved? ==> h == []
  {
    match store
    case Missing => []
    case Saved(entries) => entries
    case Corrupt => []
  }

  /** `saveResultToStorage`: a missing key reads as an empty list; a value
      that does not parse throws inside the `try`, so nothing is written. */
  function Save(store: Stored, entry: Entry): (s: Stored)
    ensures store == Corrupt <==> s == Corrupt
  {
    match store
    case Missing => Saved(Record([], entry))
    case Saved(entries) => Saved(Record(entries, entry))
    case Corrupt => Corrupt
  }

  /** Saving and then reading back gives the updated history, unless the
      stored value did not parse, in which case it stays unreadable and the
      history reads as empty forever. */
  lemma LoadAfterSave(store: Stored, entry: Entry)
    ensures store != Corrupt ==> Load(Save(store, entry)) == Record(Load(store), entry)
    ensures store == Corrupt ==> Load(Save(store, entry)) == []
    ensures |Load(Save(store, entry))| <= MaxEntries
  {
  }
}
