/** `get_current_time`: a block of text telling an agent the current
    moment, today's date and weekday, and "yesterday", with examples of
    turning relative expressions into timestamps. */
module TimeUtils {
  import opened Text
  import opened Calendar

  /** "Yesterday" as the tool computes it: the previous day of the same
      month, or today itself on the first of a month. */
  function Yesterday(now: DateTime): (y: DateTime)
    requires Valid(now)
    ensures Valid(y)
    ensures now.day > 1 ==> y == now.(day := now.day - 1)
    ensures now.day == 1 ==> y == now
  {
    if now.day > 1 then now.(day := now.day - 1) else now
  }

  /** Past the first of a month, "yesterday" is the previous calendar
      day. */
  lemma YesterdayIsPreviousDay(now: DateTime)
    requires Valid(now) && now.day > 1
    ensures Ordinal(Yesterday(now)) + 1 == Ordinal(now)
    ensures Yesterday(now) == PrevDay(now)
  {
  }

  /** On the first of a month "yesterday" is today: no month or year is
      rolled back, so the result is not the previous calendar day. */
  lemma FirstOfMonthYesterdayIsToday(now: DateTime)
    requires Valid(now) && now.day == 1
    ensures FormatDate(Yesterday(now)) == FormatDate(now)
    ensures Ordinal(Yesterday(now)) == Ordinal(now)
  {
  }

  /** The labels of the lines about the moment. */
  const Title := "Current Time Information:"
  const NowLabel := "Now:"
  const DateLabel := "Date:"
  const TimeLabel := "Time:"
  const YesterdayLabel := "Yesterday:"

  /** The lead-ins of the three examples, in English and Chinese. */
  const JustNow := "- 'just now' / '\U{521A}\U{521A}' \U{2192} "
  const YesterdayAfternoon := "- 'yesterday 3pm' / '\U{6628}\U{5929}\U{4E0B}\U{5348}3\U{70B9}' \U{2192} "
  const ThisMorning := "- 'this morning 9am' / '\U{4ECA}\U{5929}\U{65E9}\U{4E0A}9\U{70B9}' \U{2192} "

  /** A labelled line: `- name value`. */
  function Labelled(name: string, value: string): (line: string)
    ensures |line| == |name| + 3 + |value|
    ensures line[..|name| + 3] == "- " + name + " " && line[|name| + 3..] == value
  {
    var head := "- " + name + " ";
    assert (head + value)[..|head|] == head;
    head + value
  }

  /** The ten lines of the reply, in order. */
  function InfoLines(now: DateTime): (lines: seq<string>)
    requires Valid(now)
    ensures |lines| == 10
  {
    var dateStr := FormatDate(now);
    var datetimeStr := FormatDateTime(now);
    var yesterdayStr := FormatDate(Yesterday(now));
    [ Title,
      Labelled(NowLabel, datetimeStr),
      Labelled(DateLabel, dateStr + " (" + WeekdayName(now) + ")"),
      Labelled(TimeLabel, FormatTime(now)),
      Labelled(YesterdayLabel, yesterdayStr),
      "",
      "Use this to convert relative time expressions:",
      JustNow + datetimeStr,
      YesterdayAfternoon + (yesterdayStr + " 15:00:00"),
      ThisMorning + (dateStr + " 09:00:00") ]
  }

  /** The first five lines: the title, the moment, the date with its
      weekday name, the time of day, and "yesterday". */
  lemma InfoLinesMoment(now: DateTime)
    requires Valid(now)
    ensures var lines := InfoLines(now);
      && lines[0] == Title
      && lines[1] == Labelled(NowLabel, FormatDateTime(now))
      && lines[2] == Labelled(DateLabel, FormatDate(now) + " (" + WeekdayName(now) + ")")
      && lines[3] == Labelled(TimeLabel, FormatTime(now))
      && lines[4] == Labelled(YesterdayLabel, FormatDate(Yesterday(now)))
  {
  }

  /** The last five lines: a blank line, the heading of the examples, and
      three examples turning relative expressions into timestamps built from
      the moment, yesterday's date and today's date. */
  lemma InfoLinesExamples(now: DateTime)
    requires Valid(now)
    ensures var lines := InfoLines(now);
      && lines[5] == ""
      && lines[6] == "Use this to convert relative time expressions:"
      && lines[7] == JustNow + FormatDateTime(now)
      && lines[8] == YesterdayAfternoon + (FormatDate(Yesterday(now)) + " 15:00:00")
      && lines[9] == ThisMorning + (FormatDate(now) + " 09:00:00")
  {
  }

  /** `get_current_time`, with the clock reading passed in. */
  function CurrentTime(now: DateTime): (r: string)
    requires Valid(now)
    ensures forall k :: 0 <= k < 10 ==> Contains(r, InfoLines(now)[k])
  {
    var lines := InfoLines(now);
    assert forall k :: 0 <= k < 10 ==> Contains(Join("\n", lines), lines[k]) by {
      forall k | 0 <= k < 10
        ensures Contains(Join("\n", lines), lines[k])
      {
        JoinContainsPart("\n", lines, k);
      }
    }
    Join("\n", lines)
  }

  /** What one line contains, the reply contains. */
  lemma LineInReply(now: DateTime, k: nat, x: string)
    requires Valid(now) && k < 10 && Contains(InfoLines(now)[k], x)
    ensures Contains(CurrentTime(now), x)
  {
    JoinContainsPart("\n", InfoLines(now), k);
    ContainsTransitive(CurrentTime(now), InfoLines(now)[k], x);
  }

  /** A labelled line contains its label and its value. */
  lemma LabelInLine(name: string, rest: string)
    ensures Contains(Labelled(name, rest), name) && Contains(Labelled(name, rest), rest)
  {
    ContainsRight("- ", name, name);
    ContainsLeft("- " + name, " ", name);
    ContainsLeft("- " + name + " ", rest, name);
    ContainsRight("- " + name + " ", rest, rest);
  }

  /** The reply carries its title and labels the current moment and
      today's date. */
  lemma ReplyLabels(now: DateTime)
    requires Valid(now)
    ensures Contains(CurrentTime(now), Title)
    ensures Contains(CurrentTime(now), NowLabel) && Contains(CurrentTime(now), DateLabel)
  {
    var dateStr := FormatDate(now);
    InfoLinesMoment(now);
    LineInReply(now, 0, Title);
    LabelInLine(NowLabel, FormatDateTime(now));
    LineInReply(now, 1, NowLabel);
    LabelInLine(DateLabel, dateStr + " (" + WeekdayName(now) + ")");
    LineInReply(now, 2, DateLabel);
  }

  /** The reply labels the time of day and "yesterday". */
  lemma ReplyMoreLabels(now: DateTime)
    requires Valid(now)
    ensures Contains(CurrentTime(now), TimeLabel) && Contains(CurrentTime(now), YesterdayLabel)
  {
    InfoLinesMoment(now);
    LabelInLine(TimeLabel, FormatTime(now));
    LineInReply(now, 3, TimeLabel);
    LabelInLine(YesterdayLabel, FormatDate(Yesterday(now)));
    LineInReply(now, 4, YesterdayLabel);
  }

  /** The reply carries the full timestamp. */
  lemma ReplyTimestamp(now: DateTime)
    requires Valid(now)
    ensures Contains(CurrentTime(now), FormatDateTime(now))
  {
    var datetimeStr := FormatDateTime(now);
    assert InfoLines(now)[1] == Labelled(NowLabel, datetimeStr) by {
      InfoLinesMoment(now);
    }
    LabelInLine(NowLabel, datetimeStr);
    LineInReply(now, 1, datetimeStr);
  }

  /** The reply carries today's date. */
  lemma ReplyToday(now: DateTime)
    requires Valid(now)
    ensures Contains(CurrentTime(now), FormatDate(now))
  {
    var dateStr := FormatDate(now);
    var dated := dateStr + " (" + WeekdayName(now) + ")";
    assert InfoLines(now)[2] == Labelled(DateLabel, dated) by {
      InfoLinesMoment(now);
    }
    assert Contains(dated, dateStr) by {
      ContainsMiddle("", dateStr, " (" + WeekdayName(now) + ")");
      assert "" + dateStr + (" (" + WeekdayName(now) + ")") == dated;
    }
    LabelInLine(DateLabel, dated);
    ContainsTransitive(Labelled(DateLabel, dated), dated, dateStr);
    LineInReply(now, 2, dateStr);
  }

  /** The reply carries the two example timestamps built from yesterday's
      and today's dates. */
  lemma ReplyExamples(now: DateTime)
    requires Valid(now)
    ensures Contains(CurrentTime(now), FormatDate(Yesterday(now)) + " 15:00:00")
    ensures Contains(CurrentTime(now), FormatDate(now) + " 09:00:00")
  {
    var dateStr, yesterdayStr := FormatDate(now), FormatDate(Yesterday(now));
    InfoLinesExamples(now);
    ContainsRight(YesterdayAfternoon, yesterdayStr + " 15:00:00", yesterdayStr + " 15:00:00");
    LineInReply(now, 8, yesterdayStr + " 15:00:00");
    ContainsRight(ThisMorning, dateStr + " 09:00:00", dateStr + " 09:00:00");
    LineInReply(now, 9, dateStr + " 09:00:00");
  }
}
