/** The diary tools: free-form entries filed in the per-day store under the
    date of their moment, and a search over a window of moments with
    keyword and tag filters, rendered as a report grouped by day. */
module Diary {
  import opened Wrappers
  import opened Text
  import opened Calendar
  import opened DayStore

  /* ---------------------------------------------------------------------- */
  /* add_diary                                                               */
  /* ---------------------------------------------------------------------- */

  /** Truthiness of the optional tag list: present and non-empty. */
  predicate HasTags(tags: Option<seq<string>>) {
    tags.Some? && |tags.value| > 0
  }

  /** The moment an entry is filed under: the parsed `datetime_str` when one
      is given, now otherwise; `None` when the given string does not parse. */
  function EntryTime(datetimeStr: Option<string>, now: DateTime): (r: Option<DateTime>)
    requires Valid(now)
    ensures r.Some? ==> Valid(r.value)
    ensures !Truthy(datetimeStr) ==> r == Some(now)
    ensures Truthy(datetimeStr) && r.Some? ==> FormatDateTime(r.value) == datetimeStr.value
  {
    if Truthy(datetimeStr) then ParseDateTime(datetimeStr.value) else Some(now)
  }

  /** The entry object `add_diary` appends: the content, the moment as its
      stamp (so the stamp starts with the day it is filed under), and a
      `tags` field exactly when non-empty tags were given. */
  function NewEntry(content: string, tags: Option<seq<string>>, at: DateTime, now: DateTime): (e: Entry)
    ensures e.content == content
    ensures Stamp(e) == FormatDateTime(at) && Stamp(e)[..10] == FormatDate(at)
    ensures e.tags.Some? <==> HasTags(tags)
    ensures TagsOf(e) == if HasTags(tags) then tags.value else []
  {
    Entry(content, Some(FormatDateTime(at)), None, if HasTags(tags) then tags else None, IsoFormat(now))
  }

  /** The length of `"Diary entry added for YYYY-MM-DD HH:MM:SS"`. */
  const AddedPrefixLength := 41

  /** The confirmation: the moment, then the tags exactly when non-empty
      tags were given. */
  function AddedMessage(at: DateTime, tags: Option<seq<string>>): (m: string)
    ensures |m| >= AddedPrefixLength && m[..AddedPrefixLength] == "Diary entry added for " + FormatDateTime(at)
    ensures |m| > AddedPrefixLength <==> HasTags(tags)
    ensures HasTags(tags) ==> m[AddedPrefixLength..] == " [tags: " + Join(", ", tags.value) + "]"
  {
    var head := "Diary entry added for " + FormatDateTime(at);
    var tagInfo := if HasTags(tags) then " [tags: " + Join(", ", tags.value) + "]" else "";
    assert (head + tagInfo)[..|head|] == head;
    head + tagInfo
  }

  /** `add_diary`. A `datetime_str` that does not parse is reported and
      nothing is stored. Otherwise exactly one entry is appended to the end
      of the list of the day of its moment and every other day is left
      alone. */
  function AddDiary(s: Store, content: string, tags: Option<seq<string>>, datetimeStr: Option<string>, now: DateTime): (r: Outcome)
    requires Valid(now)
    ensures EntryTime(datetimeStr, now).None? ==>
      r.store == s && r.message == "Invalid datetime format: " + datetimeStr.value + ". Use YYYY-MM-DD HH:MM:SS"
    ensures EntryTime(datetimeStr, now).Some? ==>
      var at := EntryTime(datetimeStr, now).value;
      var day := FormatDate(at);
      && r.store.Keys == s.Keys + {day}
      && Load(r.store, day) == Load(s, day) + [NewEntry(content, tags, at, now)]
      && (forall d :: d != day ==> Load(r.store, d) == Load(s, d))
      && r.message == AddedMessage(at, tags)
  {
    match EntryTime(datetimeStr, now)
    case None =>
      Outcome(s, "Invalid datetime format: " + datetimeStr.value + ". Use YYYY-MM-DD HH:MM:SS")
    case Some(at) =>
      Outcome(Append(s, FormatDate(at), NewEntry(content, tags, at, now)), AddedMessage(at, tags))
  }

  /* ---------------------------------------------------------------------- */
  /* _parse_datetime_range                                                   */
  /* ---------------------------------------------------------------------- */

  /** The start of the search window. Absent, it is thirty days before now
      (raising `OverflowError` before year 1); given, it is the moment the
      string writes, or midnight of the day it writes. */
  function RangeStart(start: Option<string>, now: DateTime): (r: Result<DateTime>)
    requires Valid(now)
    ensures r.Ok? ==> Valid(r.value)
    ensures !Truthy(start) ==> (r.Ok? <==> Ordinal(now) > 30)
    ensures !Truthy(start) && r.Ok? ==>
      Ordinal(r.value) == Ordinal(now) - 30 && FormatTime(r.value) == FormatTime(now)
    ensures Truthy(start) && r.Ok? ==>
      FormatDateTime(r.value) == start.value || FormatDateTime(r.value) == start.value + " 00:00:00"
    ensures Truthy(start) ==>
      (r.Err? <==> ParseDateTime(start.value).None? && ParseDate(start.value).None?)
  {
    if !Truthy(start) then
      OrdinalRange(now);
      match AddDays(now, -30)
      case Some(t) => Ok(t)
      case None => Err(OverflowError)
    else
      match ParseDateTime(start.value)
      case Some(t) => Ok(t)
      case None =>
        match ParseDate(start.value)
        case Some(t) =>
          MidnightText(t);
          Ok(t)
        case None => Err(ValueError)
  }

  /** The end of the search window. Absent, it is now; given, it is the
      moment the string writes, or the last second of the day it writes. */
  function RangeEnd(end: Option<string>, now: DateTime): (r: Result<DateTime>)
    requires Valid(now)
    ensures r.Ok? ==> Valid(r.value)
    ensures !Truthy(end) ==> r == Ok(now)
    ensures Truthy(end) && r.Ok? ==>
      FormatDateTime(r.value) == end.value || FormatDateTime(r.value) == end.value + " 23:59:59"
    ensures Truthy(end) ==>
      (r.Err? <==> ParseDateTime(end.value).None? && ParseDate(end.value).None?)
  {
    if !Truthy(end) then Ok(now)
    else
      match ParseDateTime(end.value)
      case Some(t) => Ok(t)
      case None =>
        match ParseDate(end.value)
        case Some(t) =>
          var u := t.(hour := 23, minute := 59, second := 59);
          assert FormatDate(u) == FormatDate(t);
          LastSecondText(u);
          Ok(u)
        case None => Err(ValueError)
  }

  /** `_parse_datetime_range`: the start is computed (and may raise) first. */
  function ParseRange(start: Option<string>, end: Option<string>, now: DateTime): (r: Result<(DateTime, DateTime)>)
    requires Valid(now)
    ensures r.Ok? <==> RangeStart(start, now).Ok? && RangeEnd(end, now).Ok?
    ensures r.Ok? ==> r.value == (RangeStart(start, now).value, RangeEnd(end, now).value)
  {
    var lo :- RangeStart(start, now);
    var hi :- RangeEnd(end, now);
    Ok((lo, hi))
  }

  /** `start_dt <= t <= end_dt`. */
  predicate InWindow(t: DateTime, lo: DateTime, hi: DateTime) {
    Le(lo, t) && Le(t, hi)
  }

  lemma LeMidnight(a: DateTime, t: DateTime)
    requires a.hour == 0 && a.minute == 0 && a.second == 0
    ensures Le(a, t) <==> DateLe(a, t)
  {
  }

  lemma LeLastSecond(t: DateTime, b: DateTime)
    requires ValidTime(t) && b.hour == 23 && b.minute == 59 && b.second == 59
    ensures Le(t, b) <==> DateLe(t, b)
  {
  }

  /** A window given by two dates covers those days whole: a moment lies in
      it exactly when its date lies between them. */
  lemma DateOnlyWindow(a: DateTime, b: DateTime, t: DateTime, now: DateTime)
    requires ValidDate(a) && ValidDate(b) && Valid(t) && Valid(now)
    ensures var w := ParseRange(Some(FormatDate(a)), Some(FormatDate(b)), now);
      w.Ok? && (InWindow(t, w.value.0, w.value.1) <==> DateLe(a, t) && DateLe(t, b))
  {
    ParseFormatDate(a);
    ParseFormatDate(b);
    var lo := a.(hour := 0, minute := 0, second := 0);
    var hi := b.(hour := 23, minute := 59, second := 59);
    assert RangeStart(Some(FormatDate(a)), now) == Ok(lo);
    assert RangeEnd(Some(FormatDate(b)), now) == Ok(hi);
    LeMidnight(lo, t);
    LeLastSecond(t, hi);
  }

  /** A window given by two moments is exactly those moments. */
  lemma DateTimeWindow(lo: DateTime, hi: DateTime, now: DateTime)
    requires Valid(lo) && Valid(hi) && Valid(now)
    ensures ParseRange(Some(FormatDateTime(lo)), Some(FormatDateTime(hi)), now) == Ok((lo, hi))
  {
    ParseFormatDateTime(lo);
    ParseFormatDateTime(hi);
  }

  /** A moment in the window lies on a day in the window's day range, so
      the choice of day files never loses an entry filed under its own day. */
  lemma WindowDays(t: DateTime, lo: DateTime, hi: DateTime)
    requires Valid(t) && Valid(lo) && Valid(hi) && InWindow(t, lo, hi)
    ensures InRange(FormatDate(t), FormatDate(lo), FormatDate(hi))
  {
    FormatDateOrder(lo, t);
    FormatDateOrder(t, hi);
  }

  /* ---------------------------------------------------------------------- */
  /* _entry_matches_filter                                                   */
  /* ---------------------------------------------------------------------- */

  /** The moment of an entry: none when its stamp is empty; the stamp read
      as a full moment; or, failing that, the stamp read as a time of day on
      the day of the file it is in. `ValueError` when neither reading works. */
  function EntryMoment(e: Entry, fileDate: string): (r: Result<Option<DateTime>>)
    ensures Stamp(e) == "" ==> r == Ok(None)
    ensures Stamp(e) != "" ==>
      (r.Err? <==> ParseDateTime(Stamp(e)).None? && ParseDateTime(fileDate + " " + Stamp(e)).None?)
    ensures r.Ok? && r.value.Some? ==>
      Valid(r.value.value) &&
      (FormatDateTime(r.value.value) == Stamp(e) || FormatDateTime(r.value.value) == fileDate + " " + Stamp(e))
  {
    var stamp := Stamp(e);
    if stamp == "" then Ok(None)
    else
      match ParseDateTime(stamp)
      case Some(t) => Ok(Some(t))
      case None =>
        match ParseDateTime(fileDate + " " + stamp)
        case Some(t) => Ok(Some(t))
        case None => Err(ValueError)
  }

  /** The keyword filter: absent or empty, or a case-insensitive substring
      of the content. */
  predicate KeywordMatches(content: string, keyword: Option<string>) {
    !Truthy(keyword) || ContainsIgnoreCase(content, keyword.value)
  }

  /** `[t.lower() for t in tags]`. */
  function LowerAll(tags: seq<string>): (r: seq<string>)
    ensures |r| == |tags|
    ensures forall i :: 0 <= i < |r| ==> r[i] == Lower(tags[i])
  {
    seq(|tags|, i requires 0 <= i < |tags| => Lower(tags[i]))
  }

  /** The tag filter: absent or empty, or equal, ignoring case, to one of
      the entry's tags. */
  predicate TagMatches(tags: seq<string>, tag: Option<string>)
    ensures TagMatches(tags, tag) <==>
      !Truthy(tag) || exists i :: 0 <= i < |tags| && Lower(tags[i]) == Lower(tag.value)
  {
    !Truthy(tag) || Lower(tag.value) in LowerAll(tags)
  }

  /** `_entry_matches_filter`: an entry is kept when its moment (if it has
      one) is in the window, and it passes the keyword and tag filters; it
      raises exactly when its stamp cannot be read. */
  function EntryMatches(e: Entry, fileDate: string, lo: DateTime, hi: DateTime,
                        keyword: Option<string>, tag: Option<string>): (r: Result<bool>)
    ensures r.Err? <==> EntryMoment(e, fileDate).Err?
    ensures r.Ok? ==>
      (r.value <==>
        (EntryMoment(e, fileDate).value.None? || InWindow(EntryMoment(e, fileDate).value.value, lo, hi))
        && KeywordMatches(e.content, keyword) && TagMatches(TagsOf(e), tag))
  {
    var moment :- EntryMoment(e, fileDate);
    if moment.Some? && !InWindow(moment.value, lo, hi) then Ok(false)
    else if !KeywordMatches(e.content, keyword) then Ok(false)
    else Ok(TagMatches(TagsOf(e), tag))
  }

  /** An entry without a stamp is never excluded by the window, however
      narrow. */
  lemma NoStampSkipsWindow(e: Entry, fileDate: string, lo: DateTime, hi: DateTime,
                           keyword: Option<string>, tag: Option<string>)
    requires Stamp(e) == ""
    ensures EntryMatches(e, fileDate, lo, hi, keyword, tag) ==
      Ok(KeywordMatches(e.content, keyword) && TagMatches(TagsOf(e), tag))
  {
  }

  /** A time-of-day stamp is read on the day of its file. */
  lemma TimeStampUsesFileDay(e: Entry, t: DateTime)
    requires Valid(t) && Stamp(e) == FormatTime(t)
    ensures EntryMoment(e, FormatDate(t)) == Ok(Some(t))
  {
    assert FormatDate(t) + " " + Stamp(e) == FormatDateTime(t);
    ParseFormatDateTime(t);
  }

  /** An entry without tags fails every tag filter. */
  lemma UntaggedFailsTagFilter(e: Entry, fileDate: string, lo: DateTime, hi: DateTime,
                               keyword: Option<string>, tag: Option<string>)
    requires TagsOf(e) == [] && Truthy(tag)
    ensures EntryMatches(e, fileDate, lo, hi, keyword, tag) != Ok(true)
  {
  }

  /* ---------------------------------------------------------------------- */
  /* search_diary                                                            */
  /* ---------------------------------------------------------------------- */

  /** Every stamp among `ps` can be read on the day it is filed under, so
      the filter never raises on them. */
  predicate StampsReadable(ps: seq<(string, Entry)>) {
    forall i :: 0 <= i < |ps| ==> EntryMoment(ps[i].1, ps[i].0).Ok?
  }

  /** The results loop: the visited entries that match, in visiting order,
      each as often as it was visited; `ValueError` when some visited
      entry's stamp cannot be read. */
  function Select(ps: seq<(string, Entry)>, lo: DateTime, hi: DateTime,
                  keyword: Option<string>, tag: Option<string>): (r: Result<seq<(string, Entry)>>)
    ensures r.Ok? <==> StampsReadable(ps)
    ensures r.Ok? ==> Subsequence(r.value, ps)
    ensures r.Ok? ==> forall p :: p in r.value <==> p in ps && EntryMatches(p.1, p.0, lo, hi, keyword, tag) == Ok(true)
    ensures r.Ok? ==> forall p ::
      multiset(r.value)[p] == if EntryMatches(p.1, p.0, lo, hi, keyword, tag) == Ok(true) then multiset(ps)[p] else 0
  {
    if |ps| == 0 then Ok([])
    else
      var keep :- EntryMatches(ps[0].1, ps[0].0, lo, hi, keyword, tag);
      var rest :- Select(ps[1..], lo, hi, keyword, tag);
      assert [ps[0]] + ps[1..] == ps;
      FilterCountCons(ps[0], ps[1..], rest, (p: (string, Entry)) => EntryMatches(p.1, p.0, lo, hi, keyword, tag) == Ok(true));
      if keep then
        assert ([ps[0]] + rest)[1..] == rest;
        Ok([ps[0]] + rest)
      else Ok(rest)
  }

  /** The day files visited for a window: those whose stems lie between the
      window's start and end dates, newest first. */
  function Visited(s: Store, lo: DateTime, hi: DateTime): seq<(string, Entry)> {
    Gather(s, DaysToVisit(s, FormatDate(lo), FormatDate(hi)))
  }

  /** The matches `search_diary` collects: stored entries of days in the
      window's day range that pass the filters, newest day first, each
      day's entries in stored order and as often as they are stored. It
      fails exactly when the range does not parse or a visited stamp
      cannot be read. */
  function SearchResults(s: Store, keyword: Option<string>, tag: Option<string>,
                         start: Option<string>, end: Option<string>, now: DateTime): (r: Result<seq<(string, Entry)>>)
    requires Valid(now)
    ensures r.Ok? <==>
      && ParseRange(start, end, now).Ok?
      && StampsReadable(Visited(s, ParseRange(start, end, now).value.0, ParseRange(start, end, now).value.1))
    ensures r.Ok? ==>
      var (lo, hi) := ParseRange(start, end, now).value;
      && Subsequence(r.value, Visited(s, lo, hi))
      && DaysDescending(r.value)
      && (forall p :: p in r.value <==>
           p.0 in s && InRange(p.0, FormatDate(lo), FormatDate(hi)) && p.1 in Load(s, p.0)
           && EntryMatches(p.1, p.0, lo, hi, keyword, tag) == Ok(true))
      && forall p :: multiset(r.value)[p] ==
           if EntryMatches(p.1, p.0, lo, hi, keyword, tag) == Ok(true) then multiset(Visited(s, lo, hi))[p] else 0
  {
    var w :- ParseRange(start, end, now);
    var (lo, hi) := w;
    var days := DaysToVisit(s, FormatDate(lo), FormatDate(hi));
    var r := Select(Gather(s, days), lo, hi, keyword, tag);
    GatherDescending(s, days);
    if r.Ok? then
      SubsequenceDescending(r.value, Gather(s, days));
      r
    else r
  }

  /** A fresh entry passes the filters of a window around its moment, on
      its own day, with a keyword its content contains and no tag. */
  lemma NewEntryMatches(content: string, at: DateTime, now: DateTime,
                        lo: DateTime, hi: DateTime, keyword: Option<string>)
    requires Valid(at) && InWindow(at, lo, hi) && KeywordMatches(content, keyword)
    ensures EntryMatches(NewEntry(content, None, at, now), FormatDate(at), lo, hi, keyword, None) == Ok(true)
  {
    ParseFormatDateTime(at);
    assert EntryMoment(NewEntry(content, None, at, now), FormatDate(at)) == Ok(Some(at));
  }

  /** Every stored entry's stamp can be read on the day it is filed under. */
  predicate Readable(s: Store) {
    forall d, x :: d in s && x in s[d] ==> EntryMoment(x, d).Ok?
  }

  /** What is added can be found: after adding an entry at a moment inside
      a window to a store whose stamps are all readable, a search over that
      window whose keyword the content contains succeeds and reports it. */
  lemma AddThenSearch(s: Store, content: string, at: DateTime, now: DateTime,
                      lo: DateTime, hi: DateTime, keyword: Option<string>)
    requires Valid(at) && Valid(now) && Valid(lo) && Valid(hi) && InWindow(at, lo, hi)
    requires KeywordMatches(content, keyword) && Readable(s)
    ensures var added := AddDiary(s, content, None, Some(FormatDateTime(at)), now);
      var r := SearchResults(added.store, keyword, None, Some(FormatDateTime(lo)), Some(FormatDateTime(hi)), now);
      r.Ok? && (FormatDate(at), NewEntry(content, None, at, now)) in r.value
  {
    var day := FormatDate(at);
    var e := NewEntry(content, None, at, now);
    ParseFormatDateTime(at);
    assert EntryTime(Some(FormatDateTime(at)), now) == Some(at);
    var s' := AddDiary(s, content, None, Some(FormatDateTime(at)), now).store;
    assert Load(s', day) == Load(s, day) + [e];
    assert day in s' && e in Load(s', day);
    DateTimeWindow(lo, hi, now);
    WindowDays(at, lo, hi);
    NewEntryMatches(content, at, now, lo, hi, keyword);
    AppendKeepsReadable(s, day, e);
    GatherReadable(s', DaysToVisit(s', FormatDate(lo), FormatDate(hi)));
  }

  /** Appending an entry whose stamp reads on its day keeps a store readable. */
  lemma AppendKeepsReadable(s: Store, day: string, e: Entry)
    requires Readable(s) && EntryMoment(e, day).Ok?
    ensures Readable(Append(s, day, e))
  {
    var s' := Append(s, day, e);
    forall d, x | d in s' && x in s'[d]
      ensures EntryMoment(x, d).Ok?
    {
      assert x in Load(s', d);
      if d == day {
        assert x in Load(s, day) || x == e;
      }
    }
  }

  /** Whatever is gathered from a readable store is readable. */
  lemma GatherReadable(s: Store, days: seq<string>)
    requires Readable(s)
    ensures StampsReadable(Gather(s, days))
  {
    var g := Gather(s, days);
    forall i | 0 <= i < |g|
      ensures EntryMoment(g[i].1, g[i].0).Ok?
    {
      assert g[i] in g;
      assert g[i].0 in s && g[i].1 in s[g[i].0];
    }
  }

  /* ---------------------------------------------------------------------- */
  /* _format_search_results                                                  */
  /* ---------------------------------------------------------------------- */

  /** `" [a, b]"` for a non-empty tag list, nothing otherwise. */
  function TagLabel(tags: seq<string>): string {
    if |tags| > 0 then " [" + Join(", ", tags) + "]" else ""
  }

  /** `"  [" + shown + "]"`, taken apart. */
  function Bracketed(shown: string): (h: string)
    ensures |h| == 4 + |shown| && h[0] == ' ' && h[1] == ' ' && h[2] == '['
    ensures h[3..3 + |shown|] == shown && h[3 + |shown|] == ']'
  {
    Pieces("  [", shown, "]");
    "  [" + shown + "]"
  }

  /** The start of an entry's report line: two spaces, then its time of
      day (the text after the last space of its stamp) in brackets, or a
      dash when it has no stamp. */
  function LineHead(stamp: string): (h: string)
    ensures |h| >= 3 && h[0] == ' ' && h[1] == ' ' && (stamp != "" <==> h[2] == '[')
    ensures stamp != "" ==>
      var shown := AfterLastSpace(stamp);
      |h| == 4 + |shown| && h[3..3 + |shown|] == shown && h[3 + |shown|] == ']'
  {
    if stamp != "" then
      Bracketed(AfterLastSpace(stamp))
    else "  -"
  }

  /** The report line of one entry: its head, its tags, and its content cut
      to 100 characters. */
  function EntryLine(e: Entry): (r: string)
    ensures var h := LineHead(Stamp(e));
      |r| >= |h| && r[..|h|] == h
    ensures var p := Truncate(e.content, 100);
      |r| > |p| && r[|r| - |p| - 1..] == " " + p
    ensures var h, p := LineHead(Stamp(e)), Truncate(e.content, 100);
      |h| <= |r| - |p| - 1 && r[|h|..|r| - |p| - 1] == TagLabel(TagsOf(e))
  {
    var tail := " " + Truncate(e.content, 100);
    Pieces(LineHead(Stamp(e)), TagLabel(TagsOf(e)), tail);
    LineHead(Stamp(e)) + TagLabel(TagsOf(e)) + tail
  }

  /** Results paired with their report lines. */
  function Rows(results: seq<(string, Entry)>): (r: seq<(string, string)>)
    ensures |r| == |results|
    ensures forall i :: 0 <= i < |r| ==> r[i] == (results[i].0, EntryLine(results[i].1))
  {
    seq(|results|, i requires 0 <= i < |results| => (results[i].0, EntryLine(results[i].1)))
  }

  const NoDiaryResults := "No matching diary entries found"

  /** The lines of a non-empty report. */
  function ReportLines(results: seq<(string, Entry)>): seq<string> {
    ["Diary Entries:", ""] + GroupLines(Rows(results), None)
  }

  /** `_format_search_results`. */
  function FormatSearchResults(results: seq<(string, Entry)>): (r: string)
    ensures |results| == 0 <==> r == NoDiaryResults
    ensures |results| > 0 ==> r == Join("\n", ["Diary Entries:", ""] + JoinBlocks(Runs(Rows(results))))
  {
    if |results| == 0 then NoDiaryResults
    else
      var lines := ReportLines(results);
      assert Join("\n", lines)[0] == 'D';
      ReportIsDayBlocks(results);
      Join("\n", lines)
  }

  /** Below its title and a blank line, the report is one block per maximal
      run of results from the same day: a `Date:` header and the run's
      entry lines, blocks separated by single blank lines. */
  lemma ReportIsDayBlocks(results: seq<(string, Entry)>)
    ensures ReportLines(results) == ["Diary Entries:", ""] + JoinBlocks(Runs(Rows(results)))
  {
    GroupLinesAreRunBlocks(Rows(results));
  }

  /** `search_diary`. */
  function SearchDiary(s: Store, keyword: Option<string>, tag: Option<string>,
                       start: Option<string>, end: Option<string>, now: DateTime): (r: Result<string>)
    requires Valid(now)
    ensures r.Ok? <==> SearchResults(s, keyword, tag, start, end, now).Ok?
    ensures r.Ok? ==> (r.value == NoDiaryResults <==> SearchResults(s, keyword, tag, start, end, now).value == [])
    ensures r.Ok? && SearchResults(s, keyword, tag, start, end, now).value != [] ==>
      var results := SearchResults(s, keyword, tag, start, end, now).value;
      r.value == Join("\n", ["Diary Entries:", ""] + JoinBlocks(Runs(Rows(results))))
  {
    var results :- SearchResults(s, keyword, tag, start, end, now);
    Ok(FormatSearchResults(results))
  }
}
