/** The daily log: the same per-day store shape as the diary, in its own
    directory. Entries carry a time of day instead of a full moment, and the
    search selects whole days by date string with an optional keyword. */
module DailyLog {
  import opened Wrappers
  import opened Text
  import opened Calendar
  import opened DayStore

  /** The day a log entry is filed under: the given date when it is
      non-empty (unchecked), today otherwise. */
  function LogDay(date: Option<string>, now: DateTime): (d: string)
    ensures Truthy(date) ==> d == date.value
    ensures !Truthy(date) ==> d == FormatDate(now)
  {
    if Truthy(date) then date.value else FormatDate(now)
  }

  /** The entry `add_daily_log` appends: the content and the current time
      of day, with no full moment and no tags. */
  function LogEntry(content: string, now: DateTime): (e: Entry)
    ensures e.content == content && e.time == Some(FormatTime(now))
    ensures e.datetime.None? && e.tags.None? && Stamp(e) == FormatTime(now)
  {
    Entry(content, None, Some(FormatTime(now)), None, IsoFormat(now))
  }

  /** `add_daily_log`: one entry appended at the end of its day's list,
      every other day unchanged. */
  function AddDailyLog(s: Store, content: string, date: Option<string>, now: DateTime): (r: Outcome)
    ensures var day := LogDay(date, now);
      && r.store.Keys == s.Keys + {day}
      && Load(r.store, day) == Load(s, day) + [LogEntry(content, now)]
      && (forall d :: d != day ==> Load(r.store, d) == Load(s, d))
      && r.message == "Logged entry for " + day
  {
    var day := LogDay(date, now);
    Outcome(Append(s, day, LogEntry(content, now)), "Logged entry for " + day)
  }

  /** The date range of a search, as strings: a missing start is thirty days
      before today (raising `OverflowError` before year 1), a missing end is
      today; given bounds are taken as they are. */
  function LogRange(start: Option<string>, end: Option<string>, now: DateTime): (r: Result<(string, string)>)
    requires Valid(now)
    ensures r.Err? <==> !Truthy(start) && Ordinal(now) <= 30
    ensures r.Ok? && Truthy(start) ==> r.value.0 == start.value
    ensures r.Ok? && !Truthy(start) ==>
      exists t :: ValidDate(t) && Ordinal(t) == Ordinal(now) - 30 && r.value.0 == FormatDate(t)
    ensures r.Ok? ==> r.value.1 == if Truthy(end) then end.value else FormatDate(now)
  {
    var hi := if Truthy(end) then end.value else FormatDate(now);
    if Truthy(start) then Ok((start.value, hi))
    else
      OrdinalRange(now);
      match AddDays(now, -30)
      case Some(t) => Ok((FormatDate(t), hi))
      case None => Err(OverflowError)
  }

  /** The keyword filter: no keyword keeps everything; otherwise a
      case-insensitive substring test on the content. */
  predicate LogKeywordMatches(content: string, keyword: Option<string>) {
    keyword.None? || ContainsIgnoreCase(content, keyword.value)
  }

  /** The results loop: visited entries whose content passes the keyword
      filter, in visiting order, each as often as it was visited. */
  function Keep(ps: seq<(string, Entry)>, keyword: Option<string>): (r: seq<(string, Entry)>)
    ensures Subsequence(r, ps)
    ensures forall p :: p in r <==> p in ps && LogKeywordMatches(p.1.content, keyword)
    ensures forall p :: multiset(r)[p] == if LogKeywordMatches(p.1.content, keyword) then multiset(ps)[p] else 0
  {
    if |ps| == 0 then []
    else
      var rest := Keep(ps[1..], keyword);
      assert forall p :: p in ps <==> p == ps[0] || p in ps[1..];
      assert ps == [ps[0]] + ps[1..];
      if LogKeywordMatches(ps[0].1.content, keyword) then
        assert ([ps[0]] + rest)[1..] == rest;
        [ps[0]] + rest
      else rest
  }

  /** Without a keyword nothing is filtered out. */
  lemma {:induction false} KeepAll(ps: seq<(string, Entry)>)
    ensures Keep(ps, None) == ps
    decreases |ps|
  {
    if |ps| > 0 {
      KeepAll(ps[1..]);
      assert [ps[0]] + ps[1..] == ps;
    }
  }

  /** An empty keyword keeps everything too: it occurs in every content. */
  lemma EmptyKeywordMatches(content: string)
    ensures LogKeywordMatches(content, Some(""))
  {
  }

  /** The matches `search_daily_log` collects: entries of the stored days
      inside the date range that pass the keyword filter, newest day first,
      each day's entries in stored order and as often as they are stored. */
  function LogResults(s: Store, keyword: Option<string>, start: Option<string>, end: Option<string>,
                      now: DateTime): (r: Result<seq<(string, Entry)>>)
    requires Valid(now)
    ensures r.Ok? <==> LogRange(start, end, now).Ok?
    ensures r.Ok? ==>
      var (lo, hi) := LogRange(start, end, now).value;
      && Subsequence(r.value, Gather(s, DaysToVisit(s, lo, hi)))
      && DaysDescending(r.value)
      && (forall p :: p in r.value <==>
           p.0 in s && InRange(p.0, lo, hi) && p.1 in Load(s, p.0) && LogKeywordMatches(p.1.content, keyword))
      && forall p :: multiset(r.value)[p] ==
           if LogKeywordMatches(p.1.content, keyword) then multiset(Gather(s, DaysToVisit(s, lo, hi)))[p] else 0
  {
    var range :- LogRange(start, end, now);
    var days := DaysToVisit(s, range.0, range.1);
    GatherDescending(s, days);
    var r := Keep(Gather(s, days), keyword);
    SubsequenceDescending(r, Gather(s, days));
    Ok(r)
  }

  /** An entry logged on a day inside a search's range, with a keyword its
      content contains, is among the search's matches. */
  lemma AddThenSearchLog(s: Store, content: string, day: string, now: DateTime,
                         start: string, end: string, keyword: Option<string>)
    requires Valid(now) && day != "" && start != "" && end != "" && InRange(day, start, end)
    requires LogKeywordMatches(content, keyword)
    ensures var s' := AddDailyLog(s, content, Some(day), now).store;
      var r := LogResults(s', keyword, Some(start), Some(end), now);
      r.Ok? && (day, LogEntry(content, now)) in r.value
  {
    var s' := AddDailyLog(s, content, Some(day), now).store;
    assert LogRange(Some(start), Some(end), now) == Ok((start, end));
    assert day in s' && LogEntry(content, now) in Load(s', day);
  }

  /* ---------------------------------------------------------------------- */
  /* The report                                                              */
  /* ---------------------------------------------------------------------- */

  /** The report line of one entry: its time in brackets, or a dash when it
      has none, then its content cut to 100 characters. */
  function LogLine(e: Entry): (r: string)
    ensures var p := Truncate(e.content, 100);
      |r| > |p| && r[|r| - |p|..] == p
    ensures var t := e.time.GetOr("");
      t != "" ==> |r| > |t| + 4 && r[..3] == "  [" && r[3..3 + |t|] == t && r[3 + |t|..5 + |t|] == "] "
    ensures e.time.GetOr("") == "" ==> |r| >= 4 && r[..4] == "  - "
    ensures var t, p := e.time.GetOr(""), Truncate(e.content, 100);
      |r| == (if t != "" then 5 + |t| else 4) + |p|
  {
    var t := e.time.GetOr("");
    var p := Truncate(e.content, 100);
    if t != "" then
      Pieces("  [", t, "] " + p);
      assert ("] " + p)[..2] == "] ";
      "  [" + t + ("] " + p)
    else
      "  - " + p
  }

  function LogRows(results: seq<(string, Entry)>): (r: seq<(string, string)>)
    ensures |r| == |results|
    ensures forall i :: 0 <= i < |r| ==> r[i] == (results[i].0, LogLine(results[i].1))
  {
    seq(|results|, i requires 0 <= i < |results| => (results[i].0, LogLine(results[i].1)))
  }

  const NoLogResults := "No matching log entries found"

  function LogReportLines(results: seq<(string, Entry)>): seq<string> {
    ["Daily Logs:", ""] + GroupLines(LogRows(results), None)
  }

  /** Below its title and a blank line, the report is one block per maximal
      run of results from the same day. */
  lemma LogReportIsDayBlocks(results: seq<(string, Entry)>)
    ensures LogReportLines(results) == ["Daily Logs:", ""] + JoinBlocks(Runs(LogRows(results)))
  {
    GroupLinesAreRunBlocks(LogRows(results));
  }

  /** `search_daily_log`. */
  function SearchDailyLog(s: Store, keyword: Option<string>, start: Option<string>, end: Option<string>,
                          now: DateTime): (r: Result<string>)
    requires Valid(now)
    ensures r.Ok? <==> LogResults(s, keyword, start, end, now).Ok?
    ensures r.Ok? ==> (r.value == NoLogResults <==> LogResults(s, keyword, start, end, now).value == [])
    ensures r.Ok? && LogResults(s, keyword, start, end, now).value != [] ==>
      var results := LogResults(s, keyword, start, end, now).value;
      r.value == Join("\n", ["Daily Logs:", ""] + JoinBlocks(Runs(LogRows(results))))
  {
    var results :- LogResults(s, keyword, start, end, now);
    if |results| == 0 then Ok(NoLogResults)
    else
      var out := Join("\n", LogReportLines(results));
      assert out[0] == 'D';
      LogReportIsDayBlocks(results);
      Ok(out)
  }
}
