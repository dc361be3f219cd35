/** The per-day document store shared by the diary and the daily log: a
    directory holding one JSON file per key (`<key>.json`), each a list of
    entry objects. The directory is modelled as a map from file stem to the
    entry list; a missing key is a missing file. */
module DayStore {
  import opened Wrappers
  import opened Text

  /** One JSON object in a day file. `datetime` and `time` are the two
      optional timestamp keys (the diary writes the first, the daily log the
      second); `tags` is present only when non-empty tags were given. */
  datatype Entry = Entry(
    content: string,
    datetime: Option<string>,
    time: Option<string>,
    tags: Option<seq<string>>,
    createdAt: string)

  type Store = map<string, seq<Entry>>

  /** `entry.get("datetime", entry.get("time", ""))`. */
  function Stamp(e: Entry): string {
    match e.datetime
    case Some(d) => d
    case None => e.time.GetOr("")
  }

  /** `entry.get("tags", [])`. */
  function TagsOf(e: Entry): seq<string> {
    e.tags.GetOr([])
  }

  /** Loading a day: the stored list, or no entries when the file is missing. */
  function Load(s: Store, day: string): seq<Entry> {
    if day in s then s[day] else []
  }

  /** A tool's effect on the store and the text it returns. */
  datatype Outcome = Outcome(store: Store, message: string)

  /** Load the day, append one entry, save the day. Exactly one entry is
      added, at the end of that day's list; every other day is unchanged. */
  function Append(s: Store, day: string, e: Entry): (r: Store)
    ensures r.Keys == s.Keys + {day}
    ensures Load(r, day) == Load(s, day) + [e]
    ensures forall d :: d != day ==> Load(r, d) == Load(s, d)
  {
    s[day := Load(s, day) + [e]]
  }

  /* ---------------------------------------------------------------------- */
  /* Which files a search visits, and in which order                         */
  /* ---------------------------------------------------------------------- */

  /** The order of `sorted(dir.glob("*.json"))`: by file name. */
  predicate NameLe(a: string, b: string) {
    LexLe(a + ".json", b + ".json")
  }

  lemma NameLeAntisymmetric(a: string, b: string)
    requires NameLe(a, b) && NameLe(b, a)
    ensures a == b
  {
    LexLeAntisymmetric(a + ".json", b + ".json");
    assert a == (a + ".json")[..|a|] && b == (b + ".json")[..|b|];
  }

  /** `m` is the last of `keys` in file-name order. */
  predicate IsGreatest(m: string, keys: set<string>) {
    m in keys && forall k :: k in keys ==> NameLe(k, m)
  }

  lemma {:induction false} GreatestExists(keys: set<string>)
    requires keys != {}
    ensures exists m :: IsGreatest(m, keys)
    decreases |keys|
  {
    var x :| x in keys;
    var rest := keys - {x};
    if rest == {} {
      assert keys == {x};
      LexLeReflexive(x + ".json");
      assert IsGreatest(x, keys);
    } else {
      GreatestExists(rest);
      var m :| IsGreatest(m, rest);
      LexLeTotal(x + ".json", m + ".json");
      if NameLe(x, m) {
        assert IsGreatest(m, keys);
      } else {
        forall k | k in keys
          ensures NameLe(k, x)
        {
          if k == x {
            LexLeReflexive(x + ".json");
          } else {
            assert k in rest;
            LexLeTransitive(k + ".json", m + ".json", x + ".json");
          }
        }
        assert IsGreatest(x, keys);
      }
    }
  }

  lemma GreatestUnique(keys: set<string>)
    ensures forall m, m' :: IsGreatest(m, keys) && IsGreatest(m', keys) ==> m == m'
  {
    forall m, m' | IsGreatest(m, keys) && IsGreatest(m', keys)
      ensures m == m'
    {
      NameLeAntisymmetric(m, m');
    }
  }

  /** No repetitions, and each name sorts after every later one. */
  predicate StrictlyDescending(r: seq<string>) {
    forall i, j :: 0 <= i < j < |r| ==> NameLe(r[j], r[i]) && r[i] != r[j]
  }

  /** `sorted(keys, reverse=True)` in file-name order. */
  function DescendingNames(keys: set<string>): (r: seq<string>)
    ensures |r| == |keys|
    ensures forall k :: k in r <==> k in keys
    ensures StrictlyDescending(r)
    decreases |keys|
  {
    if keys == {} then []
    else
      GreatestExists(keys);
      GreatestUnique(keys);
      var m :| IsGreatest(m, keys);
      var rest := DescendingNames(keys - {m});
      GreatestFirst(m, keys, rest);
      [m] + rest
  }

  /** Putting the greatest name in front of the others in descending order
      gives all of them in descending order. */
  lemma GreatestFirst(m: string, keys: set<string>, rest: seq<string>)
    requires IsGreatest(m, keys)
    requires |rest| == |keys - {m}| && (forall k :: k in rest <==> k in keys - {m}) && StrictlyDescending(rest)
    ensures |[m] + rest| == |keys|
    ensures forall k :: k in [m] + rest <==> k in keys
    ensures StrictlyDescending([m] + rest)
  {
    var r := [m] + rest;
    forall i, j | 0 <= i < j < |r|
      ensures NameLe(r[j], r[i]) && r[i] != r[j]
    {
      if i > 0 {
        assert r[i] == rest[i - 1] && r[j] == rest[j - 1];
      } else {
        assert r[j] == rest[j - 1] && r[j] in rest;
      }
    }
  }

  /** `lo <= day <= hi` on strings. */
  predicate InRange(day: string, lo: string, hi: string) {
    LexLe(lo, day) && LexLe(day, hi)
  }

  function FilterRange(days: seq<string>, lo: string, hi: string): (r: seq<string>)
    ensures forall d :: d in r <==> d in days && InRange(d, lo, hi)
    ensures StrictlyDescending(days) ==> StrictlyDescending(r)
  {
    if |days| == 0 then []
    else
      var rest := FilterRange(days[1..], lo, hi);
      if InRange(days[0], lo, hi) then
        assert StrictlyDescending(days) ==> StrictlyDescending([days[0]] + rest) by {
          if StrictlyDescending(days) {
            forall j | 0 <= j < |rest|
              ensures NameLe(rest[j], days[0]) && rest[j] != days[0]
            {
              assert rest[j] in days[1..];
              var k :| 0 <= k < |days[1..]| && days[1..][k] == rest[j];
              assert days[k + 1] == rest[j];
            }
          }
        }
        [days[0]] + rest
      else rest
  }

  /** The day files a search over `[lo, hi]` reads, in the order it reads
      them: every stored day whose stem lies in the range, and no other, in
      descending file-name order. */
  function DaysToVisit(s: Store, lo: string, hi: string): (r: seq<string>)
    ensures forall d :: d in r <==> d in s && InRange(d, lo, hi)
    ensures StrictlyDescending(r)
  {
    FilterRange(DescendingNames(s.Keys), lo, hi)
  }

  /** Appending never removes a day from a search, and adds the appended day
      exactly when it is in range. */
  lemma DaysToVisitAppend(s: Store, day: string, e: Entry, lo: string, hi: string)
    ensures forall d :: d in DaysToVisit(Append(s, day, e), lo, hi) <==>
                        d in DaysToVisit(s, lo, hi) || (d == day && InRange(day, lo, hi))
  {
  }

  /** `a` is `b` with some elements left out, the rest kept in order. */
  predicate Subsequence<T(==)>(a: seq<T>, b: seq<T>)
    decreases |b|
  {
    |a| == 0 || (|b| > 0 && ((a[0] == b[0] && Subsequence(a[1..], b[1..])) || Subsequence(a, b[1..])))
  }

  /** One step of a filter's count: keeping or dropping the head of a list
      keeps every element's count equal to its count in the list when it
      passes `f`, and zero when it does not. */
  lemma FilterCountCons<T>(x: T, tail: seq<T>, rest: seq<T>, f: T -> bool)
    requires forall p :: multiset(rest)[p] == if f(p) then multiset(tail)[p] else 0
    ensures forall p :: multiset(if f(x) then [x] + rest else rest)[p] ==
                        if f(p) then multiset([x] + tail)[p] else 0
    ensures forall p :: p in (if f(x) then [x] + rest else rest) <==> p in [x] + tail && f(p)
  {
    var r := if f(x) then [x] + rest else rest;
    forall p
      ensures p in r <==> p in [x] + tail && f(p)
    {
      assert p in r <==> multiset(r)[p] > 0;
      assert p in [x] + tail <==> multiset([x] + tail)[p] > 0;
    }
  }

  lemma {:induction false} SubsequenceReflexive<T>(a: seq<T>)
    ensures Subsequence(a, a)
    decreases |a|
  {
    if |a| > 0 {
      SubsequenceReflexive(a[1..]);
    }
  }

  /** The entries of `ps` filed under `day`, in order. */
  function EntriesOn(ps: seq<(string, Entry)>, day: string): (r: seq<Entry>)
    ensures forall e :: e in r <==> (day, e) in ps
  {
    if |ps| == 0 then []
    else (if ps[0].0 == day then [ps[0].1] else []) + EntriesOn(ps[1..], day)
  }

  /** Every entry of `day`, paired with the day. */
  function Tagged(day: string, es: seq<Entry>): (r: seq<(string, Entry)>)
    ensures |r| == |es|
    ensures forall i :: 0 <= i < |r| ==> r[i] == (day, es[i])
  {
    seq(|es|, i requires 0 <= i < |es| => (day, es[i]))
  }

  /** The nested loop of the searches: every entry of every day in `days`,
      day by day in the given order, each day's entries in stored order. */
  function Gather(s: Store, days: seq<string>): (r: seq<(string, Entry)>)
    ensures forall p :: p in r <==> p.0 in days && p.1 in Load(s, p.0)
  {
    if |days| == 0 then []
    else
      var rest := Gather(s, days[1..]);
      assert forall p :: p in Tagged(days[0], Load(s, days[0])) <==> p.0 == days[0] && p.1 in Load(s, days[0]);
      Tagged(days[0], Load(s, days[0])) + rest
  }

  lemma {:induction false} EntriesOnAppend(a: seq<(string, Entry)>, b: seq<(string, Entry)>, day: string)
    ensures EntriesOn(a + b, day) == EntriesOn(a, day) + EntriesOn(b, day)
    decreases |a|
  {
    if |a| == 0 {
      assert a + b == b;
    } else {
      assert (a + b)[0] == a[0];
      assert (a + b)[1..] == a[1..] + b;
      EntriesOnAppend(a[1..], b, day);
    }
  }

  lemma {:induction false} EntriesOnTagged(d: string, es: seq<Entry>, day: string)
    ensures EntriesOn(Tagged(d, es), day) == if d == day then es else []
    decreases |es|
  {
    if |es| > 0 {
      EntriesOnTagged(d, es[1..], day);
      assert Tagged(d, es)[1..] == Tagged(d, es[1..]);
    }
  }

  /** The days of `ps` never increase in file-name order. */
  predicate DaysDescending(ps: seq<(string, Entry)>) {
    forall i, j :: 0 <= i < j < |ps| ==> NameLe(ps[j].0, ps[i].0)
  }

  lemma DescendingConcat(d: string, t: seq<(string, Entry)>, rest: seq<(string, Entry)>)
    requires forall p :: p in t ==> p.0 == d
    requires forall p :: p in rest ==> NameLe(p.0, d)
    requires DaysDescending(rest)
    ensures DaysDescending(t + rest)
  {
    var r := t + rest;
    forall i, j | 0 <= i < j < |r|
      ensures NameLe(r[j].0, r[i].0)
    {
      if j < |t| {
        assert r[i] in t && r[j] in t;
        LexLeReflexive(d + ".json");
      } else if i < |t| {
        assert r[i] in t && r[j] == rest[j - |t|];
      } else {
        assert r[i] == rest[i - |t|] && r[j] == rest[j - |t|];
      }
    }
  }

  /** Visiting days in descending order yields their entries newest day
      first. */
  lemma {:induction false} GatherDescending(s: Store, days: seq<string>)
    requires StrictlyDescending(days)
    ensures DaysDescending(Gather(s, days))
    decreases |days|
  {
    if |days| > 0 {
      var t := Tagged(days[0], Load(s, days[0]));
      var rest := Gather(s, days[1..]);
      GatherDescending(s, days[1..]);
      forall p | p in rest
        ensures NameLe(p.0, days[0])
      {
        var k :| 0 <= k < |days[1..]| && days[1..][k] == p.0;
        assert days[k + 1] == p.0;
      }
      DescendingConcat(days[0], t, rest);
    }
  }

  /** Keeping some elements in order keeps the days descending. */
  lemma {:induction false} SubsequenceDescending(a: seq<(string, Entry)>, b: seq<(string, Entry)>)
    requires Subsequence(a, b) && DaysDescending(b)
    ensures DaysDescending(a)
    decreases |b|
  {
    if |a| > 0 {
      assert |b| > 0;
      assert DaysDescending(b[1..]) by {
        forall i, j | 0 <= i < j < |b[1..]|
          ensures NameLe(b[1..][j].0, b[1..][i].0)
        {
          assert b[1..][i] == b[i + 1] && b[1..][j] == b[j + 1];
        }
      }
      if a[0] == b[0] && Subsequence(a[1..], b[1..]) {
        SubsequenceDescending(a[1..], b[1..]);
        SubsequenceMembers(a[1..], b[1..]);
        forall i, j | 0 <= i < j < |a|
          ensures NameLe(a[j].0, a[i].0)
        {
          if i == 0 {
            assert a[j] == a[1..][j - 1];
            assert a[j] in a[1..];
            var k :| 0 <= k < |b[1..]| && b[1..][k] == a[j];
            assert b[k + 1] == a[j];
          } else {
            assert a[i] == a[1..][i - 1] && a[j] == a[1..][j - 1];
          }
        }
      } else {
        SubsequenceDescending(a, b[1..]);
      }
    }
  }

  lemma {:induction false} SubsequenceMembers<T>(a: seq<T>, b: seq<T>)
    requires Subsequence(a, b)
    ensures forall x :: x in a ==> x in b
    decreases |b|
  {
    if |a| > 0 {
      if a[0] == b[0] && Subsequence(a[1..], b[1..]) {
        SubsequenceMembers(a[1..], b[1..]);
        assert forall x :: x in a ==> x == a[0] || x in a[1..];
      } else {
        SubsequenceMembers(a, b[1..]);
      }
    }
  }

  /** A search keeps each visited day's entries exactly as stored. */
  lemma {:induction false} GatherKeepsDays(s: Store, days: seq<string>, d: string)
    requires StrictlyDescending(days) && d in days
    ensures EntriesOn(Gather(s, days), d) == Load(s, d)
    decreases |days|
  {
    var t := Tagged(days[0], Load(s, days[0]));
    var rest := Gather(s, days[1..]);
    EntriesOnAppend(t, rest, d);
    EntriesOnTagged(days[0], Load(s, days[0]), d);
    if d == days[0] {
      EntriesOnNone(rest, d);
    } else {
      assert d in days[1..];
      assert EntriesOn(rest, d) == Load(s, d) by {
        DescendingTail(days);
        GatherKeepsDays(s, days[1..], d);
      }
    }
  }

  lemma DescendingTail(days: seq<string>)
    requires |days| > 0 && StrictlyDescending(days)
    ensures StrictlyDescending(days[1..])
  {
    forall i, j | 0 <= i < j < |days| - 1
      ensures NameLe(days[1..][j], days[1..][i]) && days[1..][i] != days[1..][j]
    {
      assert days[1..][i] == days[i + 1] && days[1..][j] == days[j + 1];
    }
  }

  lemma EntriesOnNone(ps: seq<(string, Entry)>, day: string)
    requires forall p :: p in ps ==> p.0 != day
    ensures EntriesOn(ps, day) == []
  {
    if |ps| > 0 {
      EntriesOnNone(ps[1..], day);
    }
  }

  /* ---------------------------------------------------------------------- */
  /* Grouping report lines by day                                            */
  /* ---------------------------------------------------------------------- */

  /** The report loop of the search functions: `rows` pairs each result's
      day with its rendered line; a `Date:` header is written whenever the
      day differs from the previous row's (`current`), preceded by a blank
      line unless it is the first. */
  function GroupLines(rows: seq<(string, string)>, current: Option<string>): seq<string> {
    if |rows| == 0 then []
    else
      var day := rows[0].0;
      var header :=
        if current == Some(day) then []
        else (if current.Some? then [""] else []) + ["Date: " + day];
      header + [rows[0].1] + GroupLines(rows[1..], Some(day))
  }

  /** A maximal run of consecutive results with the same day. */
  datatype Run = Run(day: string, lines: seq<string>)

  function Pairs(run: Run): (r: seq<(string, string)>)
    ensures |r| == |run.lines|
    ensures forall i :: 0 <= i < |r| ==> r[i] == (run.day, run.lines[i])
  {
    seq(|run.lines|, i requires 0 <= i < |run.lines| => (run.day, run.lines[i]))
  }

  /** The rows a sequence of runs stands for. */
  function Expand(runs: seq<Run>): seq<(string, string)> {
    if |runs| == 0 then [] else Pairs(runs[0]) + Expand(runs[1..])
  }

  lemma ExpandCons(r: Run, rest: seq<Run>)
    ensures Expand([r] + rest) == Pairs(r) + Expand(rest)
  {
    assert ([r] + rest)[1..] == rest;
  }

  /** Adding a row to the front of the first run adds it to the front of
      the expansion. */
  lemma ExpandMerge(line: string, first: Run, more: seq<Run>)
    ensures Expand([Run(first.day, [line] + first.lines)] + more) == [(first.day, line)] + Expand([first] + more)
  {
    var merged := Run(first.day, [line] + first.lines);
    assert Pairs(merged) == [(first.day, line)] + Pairs(first);
    ExpandCons(merged, more);
    ExpandCons(first, more);
  }

  /** No run is empty and two neighbouring runs have different days. */
  predicate Maximal(r: seq<Run>) {
    (forall i :: 0 <= i < |r| ==> |r[i].lines| > 0)
    && (forall i :: 0 <= i < |r| - 1 ==> r[i].day != r[i + 1].day)
  }

  /** Splits `rows` into maximal runs of equal days: no run is empty, two
      neighbouring runs have different days, and together they are `rows`. */
  function Runs(rows: seq<(string, string)>): (r: seq<Run>)
    ensures |r| == 0 <==> |rows| == 0
    ensures |rows| > 0 ==> r[0].day == rows[0].0
    ensures forall i :: 0 <= i < |r| ==> |r[i].lines| > 0
    ensures forall i :: 0 <= i < |r| - 1 ==> r[i].day != r[i + 1].day
    ensures Expand(r) == rows
  {
    if |rows| == 0 then []
    else
      var rest := Runs(rows[1..]);
      var (day, line) := rows[0];
      assert rows == [(day, line)] + rows[1..];
      assert Maximal(rest);
      if |rest| > 0 && rest[0].day == day then
        ExpandMerge(line, rest[0], rest[1..]);
        assert rest == [rest[0]] + rest[1..];
        MergeMaximal(line, rest);
        [Run(day, [line] + rest[0].lines)] + rest[1..]
      else
        ExpandCons(Run(day, [line]), rest);
        ConsMaximal(day, line, rest);
        [Run(day, [line])] + rest
  }

  /** Adding a row to the first run keeps the runs maximal. */
  lemma MergeMaximal(line: string, rest: seq<Run>)
    requires |rest| > 0 && Maximal(rest)
    ensures Maximal([Run(rest[0].day, [line] + rest[0].lines)] + rest[1..])
  {
    var r := [Run(rest[0].day, [line] + rest[0].lines)] + rest[1..];
    forall i | 0 <= i < |r| - 1
      ensures r[i].day != r[i + 1].day
    {
      assert r[i + 1] == rest[i + 1];
      if i > 0 {
        assert r[i] == rest[i];
      }
    }
    forall i | 0 <= i < |r|
      ensures |r[i].lines| > 0
    {
      if i > 0 {
        assert r[i] == rest[i];
      }
    }
  }

  /** A new one-row run in front of runs starting on another day keeps them
      maximal. */
  lemma ConsMaximal(day: string, line: string, rest: seq<Run>)
    requires Maximal(rest) && (|rest| > 0 ==> rest[0].day != day)
    ensures Maximal([Run(day, [line])] + rest)
  {
    var r := [Run(day, [line])] + rest;
    forall i | 0 <= i < |r| - 1
      ensures r[i].day != r[i + 1].day
    {
      assert r[i + 1] == rest[i];
      if i > 0 {
        assert r[i] == rest[i - 1];
      }
    }
    forall i | 0 <= i < |r|
      ensures |r[i].lines| > 0
    {
      if i > 0 {
        assert r[i] == rest[i - 1];
      }
    }
  }

  /** One day's block in a report: its header and its lines. */
  function Block(run: Run): seq<string> {
    ["Date: " + run.day] + run.lines
  }

  /** Blocks separated by one blank line. */
  function JoinBlocks(runs: seq<Run>): seq<string>
    decreases |runs|, 0
  {
    if |runs| == 0 then [] else Block(runs[0]) + Gap(runs[1..])
  }

  /** What follows a block: nothing after the last one, otherwise a blank
      line and the remaining blocks. */
  function Gap(rest: seq<Run>): seq<string>
    decreases |rest|, 1
  {
    if |rest| == 0 then [] else [""] + JoinBlocks(rest)
  }

  lemma JoinBlocksCons(b: Run, rest: seq<Run>)
    ensures JoinBlocks([b] + rest) == Block(b) + Gap(rest)
  {
    assert ([b] + rest)[1..] == rest;
  }

  lemma DropHead<T>(x: T, a: seq<T>, b: seq<T>)
    ensures ([x] + a + b)[1..] == a + b
  {
  }

  lemma JoinBlocksTail(runs: seq<Run>)
    requires |runs| > 0
    ensures JoinBlocks(runs)[1..] == runs[0].lines + Gap(runs[1..])
  {
    DropHead("Date: " + runs[0].day, runs[0].lines, Gap(runs[1..]));
  }

  /** How the loop continues when the next row has the current day. */
  lemma SameDayStep(day: string, line: string, rest: seq<Run>, g: seq<string>)
    requires |rest| > 0 && rest[0].day == day
    requires g == JoinBlocks(rest)[1..]
    ensures [line] + g == JoinBlocks([Run(day, [line] + rest[0].lines)] + rest[1..])[1..]
  {
    var first := Run(day, [line] + rest[0].lines);
    var runs := [first] + rest[1..];
    var tail := Gap(rest[1..]);
    assert JoinBlocks(runs)[1..] == ([line] + rest[0].lines) + tail by {
      assert runs[0] == first && runs[1..] == rest[1..];
      JoinBlocksTail(runs);
    }
    assert g == rest[0].lines + tail by {
      JoinBlocksTail(rest);
    }
    ConsAssoc(line, rest[0].lines, tail);
  }

  lemma ConsAssoc<T>(x: T, a: seq<T>, b: seq<T>)
    ensures [x] + (a + b) == ([x] + a) + b
  {
  }

  /** How the loop continues when the next row starts a new day. */
  lemma NewDayStep(day: string, line: string, rest: seq<Run>, g: seq<string>)
    requires |rest| > 0
    requires g == [""] + JoinBlocks(rest)
    ensures [line] + g == JoinBlocks([Run(day, [line])] + rest)[1..]
  {
    JoinBlocksCons(Run(day, [line]), rest);
    assert Gap(rest) == g;
    DropHead("Date: " + day, [line], g);
  }

  /** What `GroupLinesContinue` states, for one list of rows. */
  predicate ContinuesRuns(rows: seq<(string, string)>)
    requires |rows| > 0
  {
    |JoinBlocks(Runs(rows))| > 0 && JoinBlocks(Runs(rows))[0] == "Date: " + rows[0].0
    && GroupLines(rows, Some(rows[0].0)) == JoinBlocks(Runs(rows))[1..]
  }

  /** The step of `GroupLinesContinue` when the second row has the first
      row's day. */
  lemma ContinueSameDay(rows: seq<(string, string)>)
    requires |rows| > 1 && rows[1].0 == rows[0].0 && ContinuesRuns(rows[1..])
    ensures ContinuesRuns(rows)
  {
    var (day, line) := rows[0];
    var tail := rows[1..];
    var rest := Runs(tail);
    var g := GroupLines(tail, Some(day));
    var first := Run(day, [line] + rest[0].lines);
    assert GroupLines(rows, Some(day)) == [line] + g;
    assert Runs(rows) == [first] + rest[1..];
    assert [line] + g == JoinBlocks([first] + rest[1..])[1..] by {
      SameDayStep(day, line, rest, g);
    }
    assert JoinBlocks([first] + rest[1..])[0] == "Date: " + day by {
      JoinBlocksCons(first, rest[1..]);
    }
  }

  /** The step of `GroupLinesContinue` when the second row starts a new
      day. */
  lemma ContinueNewDay(rows: seq<(string, string)>)
    requires |rows| > 1 && rows[1].0 != rows[0].0 && ContinuesRuns(rows[1..])
    ensures ContinuesRuns(rows)
  {
    var (day, line) := rows[0];
    var tail := rows[1..];
    var rest := Runs(tail);
    var g := GroupLines(tail, Some(day));
    assert GroupLines(rows, Some(day)) == [line] + g;
    assert g == [""] + JoinBlocks(rest) by {
      GapBeforeNewDay(day, tail, JoinBlocks(rest));
    }
    assert Runs(rows) == [Run(day, [line])] + rest;
    assert [line] + g == JoinBlocks([Run(day, [line])] + rest)[1..] by {
      NewDayStep(day, line, rest, g);
    }
    assert JoinBlocks([Run(day, [line])] + rest)[0] == "Date: " + day by {
      JoinBlocksCons(Run(day, [line]), rest);
    }
  }

  /** Rows whose first day differs from the current one open with a blank
      line, then the header of their first day, then the rest. */
  lemma {:induction false} GapBeforeNewDay(day: string, tail: seq<(string, string)>, blocks: seq<string>)
    requires |tail| > 0 && tail[0].0 != day
    requires |blocks| > 0 && blocks[0] == "Date: " + tail[0].0 && GroupLines(tail, Some(tail[0].0)) == blocks[1..]
    ensures GroupLines(tail, Some(day)) == [""] + blocks
  {
    var first := "Date: " + tail[0].0;
    var more := GroupLines(tail[1..], Some(tail[0].0));
    assert GroupLines(tail, Some(day)) == ([""] + [first]) + [tail[0].1] + more;
    assert blocks[1..] == [] + [tail[0].1] + more;
    Regroup("", blocks, [tail[0].1], more);
  }

  lemma Regroup<T>(x: T, s: seq<T>, a: seq<T>, b: seq<T>)
    requires |s| > 0 && s[1..] == [] + a + b
    ensures ([x] + [s[0]]) + a + b == [x] + s
  {
    assert s == [s[0]] + s[1..];
  }

  lemma {:induction false} GroupLinesContinue(rows: seq<(string, string)>)
    requires |rows| > 0
    ensures |JoinBlocks(Runs(rows))| > 0 && JoinBlocks(Runs(rows))[0] == "Date: " + rows[0].0
    ensures GroupLines(rows, Some(rows[0].0)) == JoinBlocks(Runs(rows))[1..]
    decreases |rows|
  {
    if |rows| == 1 {
      assert Runs(rows) == [Run(rows[0].0, [rows[0].1])];
    } else {
      GroupLinesContinue(rows[1..]);
      if rows[1].0 == rows[0].0 {
        ContinueSameDay(rows);
      } else {
        ContinueNewDay(rows);
      }
    }
  }

  /** The report loop writes exactly one `Date: D` header per maximal run of
      results with day D, each followed by that run's lines, with a single
      blank line between runs. */
  lemma GroupLinesAreRunBlocks(rows: seq<(string, string)>)
    ensures GroupLines(rows, None) == JoinBlocks(Runs(rows))
  {
    if |rows| > 0 {
      GroupLinesContinue(rows);
    }
  }
}
