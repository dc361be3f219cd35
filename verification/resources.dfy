/** The sections of the daily and weekly summary resources that are
    computed from rows already fetched (todo counts, health values) or from
    the diary store (entry previews, weekly entry count). */
module Resources {
  import opened Wrappers
  import opened Text
  import opened DayStore

  const TodoTitle := "\U{2705} Todos:"
  const HealthTitle := "\U{2764}\U{FE0F} Health Metrics:"
  const NoHealth := "\U{2764}\U{FE0F} Health: No records"
  const NoDiary := "\U{1F4DD} Diary: No entries"

  /* ---------------------------------------------------------------------- */
  /* _format_todo_section                                                    */
  /* ---------------------------------------------------------------------- */

  /** The count of the last row whose status is (or, for `pending == false`,
      is not) `pending`, or 0 when there is none: what a loop that keeps
      overwriting the counter ends with. */
  function LastCount(rows: seq<(string, nat)>, pending: bool): nat {
    if |rows| == 0 then 0
    else if (rows[|rows| - 1].0 == "pending") == pending then rows[|rows| - 1].1
    else LastCount(rows[..|rows| - 1], pending)
  }

  /** The count kept is that of the last row of its kind ... */
  lemma {:induction false} LastCountAt(rows: seq<(string, nat)>, pending: bool, i: nat)
    requires i < |rows| && (rows[i].0 == "pending") == pending
    requires forall j :: i < j < |rows| ==> (rows[j].0 == "pending") != pending
    ensures LastCount(rows, pending) == rows[i].1
    decreases |rows|
  {
    if i < |rows| - 1 {
      var init := rows[..|rows| - 1];
      assert init[i] == rows[i];
      LastCountAt(init, pending, i);
    }
  }

  /** ... and 0 when there is no row of its kind. */
  lemma {:induction false} LastCountNone(rows: seq<(string, nat)>, pending: bool)
    requires forall i :: 0 <= i < |rows| ==> (rows[i].0 == "pending") != pending
    ensures LastCount(rows, pending) == 0
    decreases |rows|
  {
    if |rows| > 0 {
      LastCountNone(rows[..|rows| - 1], pending);
    }
  }

  /** `_format_todo_section`: the rows are `(status, count)` pairs; the
      `pending` row sets the pending count, any other row the completed
      count. */
  method TodoSection(rows: seq<(string, nat)>) returns (lines: seq<string>)
    ensures lines == ["\U{2705} Todos:",
                      "  Completed: " + NatToString(LastCount(rows, false)),
                      "  Pending: " + NatToString(LastCount(rows, true)),
                      ""]
  {
    var pending := 0;
    var completed := 0;
    var i := 0;
    while i < |rows|
      invariant 0 <= i <= |rows|
      invariant pending == LastCount(rows[..i], true)
      invariant completed == LastCount(rows[..i], false)
    {
      assert rows[..i + 1][..i] == rows[..i];
      if rows[i].0 == "pending" {
        pending := rows[i].1;
      } else {
        completed := rows[i].1;
      }
      i := i + 1;
    }
    assert rows[..i] == rows;
    lines := [TodoTitle, "  Completed: " + NatToString(completed), "  Pending: " + NatToString(pending), ""];
  }

  /** With one row per status, as `GROUP BY status` returns them, the
      pending count is that of the `pending` row and the completed count
      that of the `completed` row, each 0 when its row is missing. */
  lemma TodoCountsOfGroups(rows: seq<(string, nat)>)
    requires forall i, j :: 0 <= i < j < |rows| ==> rows[i].0 != rows[j].0
    requires forall i :: 0 <= i < |rows| ==> rows[i].0 in {"pending", "completed"}
    ensures forall i :: 0 <= i < |rows| && rows[i].0 == "pending" ==> LastCount(rows, true) == rows[i].1
    ensures forall i :: 0 <= i < |rows| && rows[i].0 == "completed" ==> LastCount(rows, false) == rows[i].1
    ensures (forall i :: 0 <= i < |rows| ==> rows[i].0 != "pending") ==> LastCount(rows, true) == 0
    ensures (forall i :: 0 <= i < |rows| ==> rows[i].0 != "completed") ==> LastCount(rows, false) == 0
  {
    forall i | 0 <= i < |rows| && rows[i].0 == "pending"
      ensures LastCount(rows, true) == rows[i].1
    {
      LastCountAt(rows, true, i);
    }
    forall i | 0 <= i < |rows| && rows[i].0 == "completed"
      ensures LastCount(rows, false) == rows[i].1
    {
      LastCountAt(rows, false, i);
    }
    if forall i :: 0 <= i < |rows| ==> rows[i].0 != "pending" {
      LastCountNone(rows, true);
    }
    if forall i :: 0 <= i < |rows| ==> rows[i].0 != "completed" {
      LastCountNone(rows, false);
    }
  }

  /* ---------------------------------------------------------------------- */
  /* _format_health_section                                                  */
  /* ---------------------------------------------------------------------- */

  /** One health row of the daily summary: the metric type, the value as
      Python prints it, and the unit, which may be `NULL`. */
  datatype HealthRow = HealthRow(metricType: string, value: string, unit: Option<string>)

  function HealthLine(row: HealthRow): string {
    "  " + row.metricType + ": " + row.value + " " + OrEmpty(row.unit)
  }

  /** `_format_health_section`: a fixed pair of lines without rows;
      otherwise the title, one line per row in row order, and a blank
      line. */
  function HealthSection(rows: seq<HealthRow>): (lines: seq<string>)
    ensures |rows| == 0 ==> lines == [NoHealth, ""]
    ensures |rows| > 0 ==>
      |lines| == |rows| + 2 && lines[0] == HealthTitle && lines[|lines| - 1] == ""
      && forall i :: 0 <= i < |rows| ==> lines[i + 1] == HealthLine(rows[i])
  {
    if |rows| == 0 then [NoHealth, ""]
    else [HealthTitle] + seq(|rows|, i requires 0 <= i < |rows| => HealthLine(rows[i])) + [""]
  }

  /** Each row's line names its metric type and value. */
  lemma HealthLineNamesRow(row: HealthRow)
    ensures Contains(HealthLine(row), row.metricType + ": " + row.value)
  {
    var p := "  ";
    var x := row.metricType + ": " + row.value;
    var q := " " + OrEmpty(row.unit);
    assert HealthLine(row) == p + x + q;
    ContainsMiddle(p, x, q);
  }

  /* ---------------------------------------------------------------------- */
  /* _format_diary_section                                                   */
  /* ---------------------------------------------------------------------- */

  /** The time shown for an entry: the text after the last space when there
      is a space, otherwise the whole timestamp. */
  function DisplayTime(stamp: string): (r: string)
    ensures ' ' !in r && |r| <= |stamp| && r == stamp[|stamp| - |r|..]
    ensures ' ' !in stamp ==> r == stamp
    ensures ' ' in stamp ==> |r| < |stamp| && stamp[|stamp| - |r| - 1] == ' '
  {
    if ' ' in stamp then AfterLastSpace(stamp) else stamp
  }

  /** A diary entry as the daily summary previews it. */
  function PreviewLine(e: Entry): (line: string)
    ensures |e.content| <= 50 ==> line == "  [" + DisplayTime(Stamp(e)) + "] " + e.content
    ensures |e.content| > 50 ==> line == "  [" + DisplayTime(Stamp(e)) + "] " + e.content[..50] + "..."
  {
    "  [" + DisplayTime(Stamp(e)) + "] " + Truncate(e.content, 50)
  }

  function Min(a: nat, b: nat): nat {
    if a <= b then a else b
  }

  function Previews(es: seq<Entry>): (r: seq<string>)
    ensures |r| == |es| && forall i :: 0 <= i < |es| ==> r[i] == PreviewLine(es[i])
  {
    seq(|es|, i requires 0 <= i < |es| => PreviewLine(es[i]))
  }

  function MoreLine(n: nat): (r: seq<string>)
    ensures n > 3 ==> r == ["  ... and " + NatToString(n - 3) + " more entries"]
    ensures n <= 3 ==> r == []
  {
    if n > 3 then ["  ... and " + NatToString(n - 3) + " more entries"] else []
  }

  /** `_format_diary_section` for the day `date`: a single line when the
      day has no entries; otherwise the count, a preview of the first three
      entries in stored order, and a line for the rest exactly when there
      are more than three. */
  function DiarySection(s: Store, date: string): (lines: seq<string>)
    ensures |Load(s, date)| == 0 ==> lines == [NoDiary]
    ensures var es := Load(s, date); var n := |es|;
      n > 0 ==>
        |lines| == 1 + Min(n, 3) + (if n > 3 then 1 else 0)
        && lines[0] == "\U{1F4DD} Diary: " + NatToString(n) + " entries"
        && (forall i :: 0 <= i < Min(n, 3) ==> lines[i + 1] == PreviewLine(es[i]))
        && (n > 3 ==> lines[4] == "  ... and " + NatToString(n - 3) + " more entries")
  {
    var es := Load(s, date);
    if |es| == 0 then [NoDiary]
    else
      var shown := es[..Min(|es|, 3)];
      ["\U{1F4DD} Diary: " + NatToString(|es|) + " entries"] + Previews(shown) + MoreLine(|es|)
  }

  /** After one more entry is filed under a day, that day's section counts
      it, and previews it when it is among the first three. */
  lemma DiarySectionAfterAppend(s: Store, date: string, e: Entry)
    ensures var lines := DiarySection(Append(s, date, e), date); var n := |Load(s, date)|;
      lines[0] == "\U{1F4DD} Diary: " + NatToString(n + 1) + " entries"
      && (n < 3 ==> |lines| == n + 2 && lines[n + 1] == PreviewLine(e))
      && (n >= 3 ==> |lines| == 5 && lines[4] == "  ... and " + NatToString(n - 2) + " more entries")
  {
    var es := Load(Append(s, date, e), date);
    assert es[|es| - 1] == e;
  }

  /* ---------------------------------------------------------------------- */
  /* _build_weekly_diary                                                     */
  /* ---------------------------------------------------------------------- */

  /** The number of entries stored under the listed days. */
  function CountEntries(s: Store, days: seq<string>): nat {
    if |days| == 0 then 0 else |Load(s, days[0])| + CountEntries(s, days[1..])
  }

  predicate Distinct(days: seq<string>) {
    forall i, j :: 0 <= i < j < |days| ==> days[i] != days[j]
  }

  /** Taking one day out of the sum. */
  lemma {:induction false} CountRemove(s: Store, days: seq<string>, i: nat)
    requires i < |days|
    ensures CountEntries(s, days) == |Load(s, days[i])| + CountEntries(s, days[..i] + days[i + 1..])
    decreases |days|
  {
    if i > 0 {
      CountRemove(s, days[1..], i - 1);
      assert days[1..][..i - 1] + days[1..][i..] == (days[..i] + days[i + 1..])[1..];
    } else {
      assert days[..i] + days[i + 1..] == days[1..];
    }
  }

  /** A list without repetitions, one element taken out. */
  lemma RemoveAt(days: seq<string>, i: nat)
    requires Distinct(days) && i < |days|
    ensures var rest := days[..i] + days[i + 1..];
      Distinct(rest) && forall d :: d in rest <==> d in days && d != days[i]
  {
    var rest := days[..i] + days[i + 1..];
    forall x | 0 <= x < |rest|
      ensures rest[x] == days[if x < i then x else x + 1]
    {
    }
    forall d | d in days && d != days[i]
      ensures d in rest
    {
      var m :| 0 <= m < |days| && days[m] == d;
      assert rest[if m < i then m else m - 1] == d;
    }
  }

  lemma FirstIsMember(b: seq<string>)
    ensures |b| > 0 ==> b[0] in b
  {
  }

  /** The sum does not depend on the order in which the days are visited. */
  lemma {:induction false} CountPermutation(s: Store, a: seq<string>, b: seq<string>)
    requires Distinct(a) && Distinct(b)
    requires forall d :: d in a <==> d in b
    ensures CountEntries(s, a) == CountEntries(s, b)
    decreases |a|
  {
    if |a| == 0 {
      FirstIsMember(b);
    } else {
      assert a[0] in b;
      var i :| 0 <= i < |b| && b[i] == a[0];
      CountRemove(s, b, i);
      CountRemove(s, a, 0);
      RemoveAt(a, 0);
      RemoveAt(b, i);
      assert a[..0] + a[1..] == a[1..];
      CountPermutation(s, a[1..], b[..i] + b[i + 1..]);
    }
  }

  /** Changing one day's list changes the sum by the change in that list,
      when the day is visited once, and not at all when it is not visited. */
  lemma {:induction false} CountChange(s: Store, s': Store, days: seq<string>, day: string)
    requires Distinct(days)
    requires forall d :: d != day ==> Load(s', d) == Load(s, d)
    ensures day !in days ==> CountEntries(s', days) == CountEntries(s, days)
    ensures day in days ==>
      CountEntries(s', days) + |Load(s, day)| == CountEntries(s, days) + |Load(s', day)|
    decreases |days|
  {
    if |days| > 0 {
      assert Distinct(days[1..]) by {
        forall x, y | 0 <= x < y < |days[1..]|
          ensures days[1..][x] != days[1..][y]
        {
          assert days[1..][x] == days[x + 1] && days[1..][y] == days[y + 1];
        }
      }
      CountChange(s, s', days[1..], day);
    }
  }

  /** The weekly diary count: the entries of every stored day whose stem
      lies in `[lo, hi]`. */
  function WeeklyDiaryCount(s: Store, lo: string, hi: string): nat {
    CountEntries(s, DaysToVisit(s, lo, hi))
  }

  /** `_build_weekly_diary`: one line giving the number of entries stored
      on the days whose stems lie in `[lo, hi]`, however those days are
      listed, as long as each is listed once. */
  function WeeklyDiary(s: Store, lo: string, hi: string): (lines: seq<string>)
    ensures forall v :: Distinct(v) && (forall d :: d in v <==> d in s && InRange(d, lo, hi)) ==>
      lines == ["\U{1F4DD} Diary: " + NatToString(CountEntries(s, v)) + " entries this week"]
  {
    var days := DaysToVisit(s, lo, hi);
    assert forall v :: Distinct(v) && (forall d :: d in v <==> d in s && InRange(d, lo, hi)) ==>
      CountEntries(s, v) == CountEntries(s, days) by {
      DescendingDistinct(days);
      forall v | Distinct(v) && (forall d :: d in v <==> d in s && InRange(d, lo, hi))
        ensures CountEntries(s, v) == CountEntries(s, days)
      {
        CountPermutation(s, v, days);
      }
    }
    ["\U{1F4DD} Diary: " + NatToString(CountEntries(s, days)) + " entries this week"]
  }

  lemma DescendingDistinct(days: seq<string>)
    requires StrictlyDescending(days)
    ensures Distinct(days)
  {
  }

  /** A day that is visited and whose list grows by one entry: the sum
      over any listing of the same days grows by one. */
  lemma CountVisitedDay(s: Store, s': Store, v: seq<string>, v': seq<string>, day: string)
    requires Distinct(v) && Distinct(v') && day in v'
    requires forall d :: d in v' <==> d in v || d == day
    requires forall d :: d != day ==> Load(s', d) == Load(s, d)
    requires |Load(s', day)| == |Load(s, day)| + 1
    requires day !in v ==> Load(s, day) == []
    ensures CountEntries(s', v') == CountEntries(s, v) + 1
  {
    var i :| 0 <= i < |v'| && v'[i] == day;
    CountRemove(s', v', i);
    CountRemove(s, v', i);
    RemoveAt(v', i);
    var rest := v'[..i] + v'[i + 1..];
    CountChange(s, s', rest, day);
    if day in v {
      CountPermutation(s, v', v);
    } else {
      CountPermutation(s, rest, v);
    }
  }

  /** Filing one entry under a day raises the weekly count by one when the
      day lies in the week and leaves it unchanged otherwise. */
  lemma WeeklyCountAfterAppend(s: Store, day: string, e: Entry, lo: string, hi: string)
    ensures WeeklyDiaryCount(Append(s, day, e), lo, hi)
            == WeeklyDiaryCount(s, lo, hi) + (if InRange(day, lo, hi) then 1 else 0)
  {
    var s' := Append(s, day, e);
    var v, v' := DaysToVisit(s, lo, hi), DaysToVisit(s', lo, hi);
    DescendingDistinct(v);
    DescendingDistinct(v');
    DaysToVisitAppend(s, day, e, lo, hi);
    if InRange(day, lo, hi) {
      CountVisitedDay(s, s', v, v', day);
    } else {
      CountChange(s, s', v', day);
      CountPermutation(s, v', v);
    }
  }
}
