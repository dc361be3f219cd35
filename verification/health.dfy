/** The health tools: recording a metric with a unit defaulted from its
    type, and reporting recent records, either through the guarded SQL
    path or as a formatted listing. */
module Health {
  import opened Wrappers
  import opened Text
  import opened Calendar
  import opened SqlGuard

  /** The default unit of each known metric type. */
  const MetricUnits: map<string, string> := map[
    "blood_pressure" := "mmHg",
    "heart_rate" := "bpm",
    "weight" := "kg",
    "blood_sugar" := "mmol/L",
    "sleep" := "hours",
    "exercise" := "minutes"]

  /** The display name of each known metric type. */
  const MetricNames: map<string, string> := map[
    "blood_pressure" := "Blood Pressure",
    "heart_rate" := "Heart Rate",
    "weight" := "Weight",
    "blood_sugar" := "Blood Sugar",
    "sleep" := "Sleep",
    "exercise" := "Exercise"]

  /** `METRIC_UNITS.get(metric_type, "")`. */
  function DefaultUnit(metricType: string): (u: string)
    ensures metricType in MetricUnits ==> u == MetricUnits[metricType]
    ensures metricType !in MetricUnits ==> u == ""
  {
    if metricType in MetricUnits then MetricUnits[metricType] else ""
  }

  /** `METRIC_NAMES.get(metric_type, metric_type)`. */
  function MetricName(metricType: string): (n: string)
    ensures metricType in MetricNames ==> n == MetricNames[metricType]
    ensures metricType !in MetricNames ==> n == metricType
  {
    if metricType in MetricNames then MetricNames[metricType] else metricType
  }

  /** Every metric type with a default unit has a display name. */
  lemma UnitsAndNamesAgree()
    ensures MetricUnits.Keys == MetricNames.Keys
  {
  }

  /** One row of the `health` table. */
  datatype Record = Record(metricType: string, value: string, unit: string, note: Option<string>, date: string)

  /** The table after a tool ran, and the text the tool returned. */
  datatype Outcome = Outcome(table: seq<Record>, message: string)

  /** `record_health`: one row is added at the end, with the unit the
      caller gave or else the type's default, and the date the caller gave
      or else today; the confirmation uses the display name and mentions
      the note exactly when one is given. */
  function RecordHealth(t: seq<Record>, metricType: string, value: string, unit: Option<string>,
                        note: Option<string>, date: Option<string>, now: DateTime): (r: Outcome)
    ensures |r.table| == |t| + 1 && r.table[..|t|] == t
    ensures var row := r.table[|t|];
      row.metricType == metricType && row.value == value && row.note == note
      && (Truthy(unit) ==> row.unit == unit.value)
      && (!Truthy(unit) ==> row.unit == DefaultUnit(metricType))
      && (Truthy(date) ==> row.date == date.value)
      && (!Truthy(date) ==> row.date == FormatDate(now))
    ensures var row := r.table[|t|];
      r.message == "Recorded " + MetricName(metricType) + ": " + value + " " + row.unit
                   + (if Truthy(note) then ", note: " + note.value else "")
  {
    var recordDate := if Truthy(date) then date.value else FormatDate(now);
    var u := if Truthy(unit) then unit.value else DefaultUnit(metricType);
    var message := "Recorded " + MetricName(metricType) + ": " + value + " " + u;
    Outcome(t + [Record(metricType, value, u, note, recordDate)],
            if Truthy(note) then message + ", note: " + note.value else message)
  }

  /** A weight recorded without a unit is stored and confirmed in
      kilograms. */
  lemma WeightDefaultsToKilograms(t: seq<Record>, value: string, now: DateTime)
    ensures var r := RecordHealth(t, "weight", value, None, None, None, now);
      r.table[|t|].unit == "kg" && r.message == "Recorded Weight: " + value + " kg"
  {
  }

  /** An unknown metric type is stored with an empty unit and shown under
      its own name. */
  lemma UnknownTypeHasNoUnit(t: seq<Record>, metricType: string, value: string, now: DateTime)
    requires metricType !in MetricUnits
    ensures var r := RecordHealth(t, metricType, value, None, None, None, now);
      r.table[|t|].unit == "" && r.message == "Recorded " + metricType + ": " + value + " "
  {
  }

  /* ---------------------------------------------------------------------- */
  /* query_health                                                            */
  /* ---------------------------------------------------------------------- */

  /** One row a standard query returns. With a metric type the query does
      not select the type column, and `metricType` is ignored. */
  datatype Fetched = Fetched(date: string, metricType: string, value: string, unit: Option<string>, note: Option<string>)

  /** The ` (note)` suffix when the note is non-empty. */
  function NoteSuffix(note: Option<string>): string {
    if Truthy(note) then " (" + note.value + ")" else ""
  }

  function TypedLine(row: Fetched): string {
    "  " + row.date + ": " + row.value + " " + OrEmpty(row.unit) + NoteSuffix(row.note)
  }

  /** `[Name]`. */
  function Bracket(name: string): string {
    "[" + name + "]"
  }

  /** What a line without a metric type shows after the bracketed name. */
  function MixedTail(row: Fetched): string {
    ": " + row.value + " " + OrEmpty(row.unit) + NoteSuffix(row.note)
  }

  /** `f"  {date_} [{name}]: {value} {unit or ''}"`, then the note. */
  function MixedLine(row: Fetched): string {
    "  " + row.date + " " + Bracket(MetricName(row.metricType)) + MixedTail(row)
  }

  /** A row's line in a listing with or without a metric type. */
  function RowText(row: Fetched, metricType: Option<string>): string {
    if Truthy(metricType) then TypedLine(row) else MixedLine(row)
  }

  /** The listing's title line: the type's display name, or `Health`
      without a type, and the window length. */
  function Title(metricType: Option<string>, days: int): string {
    (if Truthy(metricType) then MetricName(metricType.value) else "Health")
      + " Records (last " + IntToString(days) + " days):"
  }

  /** The listing's lines: a title, a blank line, then one line per row
      in row order; each row shows its type's display name only when the
      query was not for one type. */
  function ReportLines(rows: seq<Fetched>, metricType: Option<string>, days: int): (lines: seq<string>)
    ensures |lines| == |rows| + 2 && lines[0] == Title(metricType, days) && lines[1] == ""
    ensures forall i :: 0 <= i < |rows| ==> lines[i + 2] == RowText(rows[i], metricType)
  {
    var body := RowTexts(rows, metricType);
    var lines := [Title(metricType, days), ""] + body;
    assert forall i :: 0 <= i < |rows| ==> lines[i + 2] == body[i];
    lines
  }

  /** The rows' lines, one per row, in row order. */
  function RowTexts(rows: seq<Fetched>, metricType: Option<string>): (r: seq<string>)
    ensures |r| == |rows|
    ensures forall i :: 0 <= i < |rows| ==> r[i] == RowText(rows[i], metricType)
  {
    seq(|rows|, i requires 0 <= i < |rows| => RowText(rows[i], metricType))
  }

  /** `_format_health_rows`. */
  function FormatHealthRows(rows: seq<Fetched>, metricType: Option<string>, days: int): (r: string)
    ensures |rows| == 0 ==> r == "No health records in the last " + IntToString(days) + " days"
    ensures |rows| > 0 ==> r == Join("\n", ReportLines(rows, metricType, days))
  {
    if |rows| == 0 then "No health records in the last " + IntToString(days) + " days"
    else Join("\n", ReportLines(rows, metricType, days))
  }

  lemma MixedLineNamesType(row: Fetched)
    ensures Contains(MixedLine(row), Bracket(MetricName(row.metricType)))
  {
    ContainsMiddle("  " + row.date + " ", Bracket(MetricName(row.metricType)), MixedTail(row));
  }

  /** Without a metric type every row's line in the listing names the
      row's type. */
  lemma MixedListingNamesTypes(rows: seq<Fetched>, days: int, i: nat)
    requires i < |rows|
    ensures Contains(FormatHealthRows(rows, None, days), Bracket(MetricName(rows[i].metricType)))
  {
    var lines := ReportLines(rows, None, days);
    JoinContainsPart("\n", lines, i + 2);
    MixedLineNamesType(rows[i]);
    ContainsTransitive(Join("\n", lines), lines[i + 2], Bracket(MetricName(rows[i].metricType)));
  }

  /** The start of the standard query's window: `days` days before now,
      as a date; `OverflowError` when that leaves the calendar. */
  function WindowStart(now: DateTime, days: int): (r: Result<string>)
    requires Valid(now)
    ensures r.Err? ==> r.error == OverflowError
    ensures r.Ok? ==> exists t :: AddDays(now, -days) == Some(t) && r.value == FormatDate(t)
    ensures AddDays(now, -days).None? <==> r.Err?
  {
    match AddDays(now, -days)
    case None => Err(OverflowError)
    case Some(t) => Ok(FormatDate(t))
  }

  /** What `query_health` does. */
  datatype Reply = BySql(verdict: Verdict) | Listing(since: string, text: string)

  /** `query_health`. A non-empty `sql` is handed to the guard and every
      other argument is ignored. Otherwise the listing covers the rows the
      standard query returns for the window start; `rows` stands for
      them. */
  function QueryHealth(metricType: Option<string>, days: int, sql: Option<string>,
                       rows: seq<Fetched>, now: DateTime): (r: Result<Reply>)
    requires Valid(now)
    ensures Truthy(sql) ==> r == Ok(BySql(Guard(sql.value, "health")))
    ensures !Truthy(sql) ==> (r.Err? <==> WindowStart(now, days).Err?)
    ensures !Truthy(sql) && r.Ok? ==>
      r.value == Listing(WindowStart(now, days).value, FormatHealthRows(rows, metricType, days))
  {
    if Truthy(sql) then Ok(BySql(Guard(sql.value, "health")))
    else
      var since :- WindowStart(now, days);
      Ok(Listing(since, FormatHealthRows(rows, metricType, days)))
  }

  /** The SQL path overrides the other filters entirely. */
  lemma SqlOverrides(m1: Option<string>, m2: Option<string>, d1: int, d2: int, sql: string,
                     rows1: seq<Fetched>, rows2: seq<Fetched>, now: DateTime)
    requires Valid(now) && sql != ""
    ensures QueryHealth(m1, d1, Some(sql), rows1, now) == QueryHealth(m2, d2, Some(sql), rows2, now)
  {
  }
}
