/** The todo tools over the `todo` table: adding a row, completing one by
    id or by content, and listing rows filtered, ordered and annotated with
    overdue warnings. The table is a sequence of rows in insertion (rowid)
    order; the SQL statements are written out as functions over it. */
module Todo {
  import opened Wrappers
  import opened Text
  import opened Calendar

  /** One row of `todo`; `None` is SQL `NULL`. */
  datatype Row = Row(
    id: int,
    content: string,
    topic: Option<string>,
    status: string,
    dueDate: Option<string>,
    createdAt: string,
    completedAt: Option<string>)

  type Table = seq<Row>

  /** The table after a tool ran, and the text the tool returned. */
  datatype Outcome = Outcome(table: Table, message: string)

  /* ---------------------------------------------------------------------- */
  /* add_todo                                                                */
  /* ---------------------------------------------------------------------- */

  /** The largest id in use, 0 for an empty table. */
  function MaxId(t: Table): (m: int)
    ensures m >= 0
    ensures forall i :: 0 <= i < |t| ==> t[i].id <= m
  {
    if |t| == 0 then 0
    else
      var rest := MaxId(t[1..]);
      if t[0].id > rest then t[0].id else rest
  }

  /** `add_todo`: a pending row with a fresh id (one above every id in use,
      as `AUTOINCREMENT` assigns when no row was ever deleted) is added at
      the end; the confirmation names the content, then the topic and the
      due date when they are non-empty. `createdAt` is the database's
      `CURRENT_TIMESTAMP`. */
  function AddTodo(t: Table, content: string, topic: Option<string>, dueDate: Option<string>,
                   createdAt: string): (r: Outcome)
    ensures |r.table| == |t| + 1 && r.table[..|t|] == t
    ensures var row := r.table[|t|];
      row.content == content && row.topic == topic && row.dueDate == dueDate
      && row.status == "pending" && row.createdAt == createdAt && row.completedAt.None?
      && forall i :: 0 <= i < |t| ==> t[i].id < row.id
    ensures r.message == "Added todo: " + content
                         + (if Truthy(topic) then ", topic: " + topic.value else "")
                         + (if Truthy(dueDate) then ", due: " + dueDate.value else "")
  {
    var row := Row(MaxId(t) + 1, content, topic, "pending", dueDate, createdAt, None);
    var message := "Added todo: " + content
                   + (if Truthy(topic) then ", topic: " + topic.value else "")
                   + (if Truthy(dueDate) then ", due: " + dueDate.value else "");
    Outcome(t + [row], message)
  }

  /* ---------------------------------------------------------------------- */
  /* complete_todo                                                           */
  /* ---------------------------------------------------------------------- */

  /** SQL `s LIKE p` without an `ESCAPE` clause: `%` matches any run of
      characters, `_` any one character, and letters match ignoring ASCII
      case. */
  predicate Like(s: string, p: string)
    decreases |p|, |s|
  {
    if |p| == 0 then |s| == 0
    else if p[0] == '%' then Like(s, p[1..]) || (|s| > 0 && Like(s[1..], p))
    else |s| > 0 && (p[0] == '_' || LowerChar(s[0]) == LowerChar(p[0])) && Like(s[1..], p[1..])
  }

  /** A string with no `LIKE` wildcard in it. */
  predicate Plain(x: string) {
    forall i :: 0 <= i < |x| ==> x[i] != '%' && x[i] != '_'
  }

  lemma {:induction false} LikePercent(s: string)
    ensures Like(s, "%")
    decreases |s|
  {
    if |s| > 0 {
      LikePercent(s[1..]);
    }
  }

  /** `x%` matches the strings that start with `x`, ignoring case. */
  lemma {:induction false} LikePrefix(s: string, x: string)
    requires Plain(x)
    ensures Like(s, x + "%") <==> Lower(x) <= Lower(s)
    decreases |x|
  {
    if |x| == 0 {
      assert x + "%" == "%";
      LikePercent(s);
    } else {
      assert (x + "%")[0] == x[0];
      assert (x + "%")[1..] == x[1..] + "%";
      if |s| > 0 {
        LikePrefix(s[1..], x[1..]);
        assert Lower(x) == [LowerChar(x[0])] + Lower(x[1..]);
        assert Lower(s) == [LowerChar(s[0])] + Lower(s[1..]);
      }
    }
  }

  /** `%x%` matches exactly the strings that contain `x`, ignoring case,
      when `x` holds no wildcard. */
  lemma {:induction false} LikeContains(s: string, x: string)
    requires Plain(x)
    ensures Like(s, "%" + x + "%") <==> ContainsIgnoreCase(s, x)
    decreases |s|
  {
    var p := "%" + x + "%";
    assert p[0] == '%' && p[1..] == x + "%";
    LikePrefix(s, x);
    if |s| > 0 {
      LikeContains(s[1..], x);
      assert Lower(s)[1..] == Lower(s[1..]);
    }
  }

  /** The index of the first row satisfying the pending-and-id condition. */
  function FindPendingId(t: Table, id: int): (r: Option<nat>)
    ensures r.Some? ==> r.value < |t| && t[r.value].id == id && t[r.value].status == "pending"
    ensures r.Some? ==> forall i :: 0 <= i < r.value ==> !(t[i].id == id && t[i].status == "pending")
    ensures r.None? ==> forall i :: 0 <= i < |t| ==> !(t[i].id == id && t[i].status == "pending")
  {
    if |t| == 0 then None
    else if t[0].id == id && t[0].status == "pending" then Some(0)
    else match FindPendingId(t[1..], id)
      case Some(i) => Some(i + 1)
      case None => None
  }

  /** The index of the first pending row whose content is `LIKE %m%`, as
      `LIMIT 1` over a table scan returns it. */
  function FindPendingLike(t: Table, m: string): (r: Option<nat>)
    ensures r.Some? ==> r.value < |t| && t[r.value].status == "pending" && Like(t[r.value].content, "%" + m + "%")
    ensures r.Some? ==> forall i :: 0 <= i < r.value ==> !(t[i].status == "pending" && Like(t[i].content, "%" + m + "%"))
    ensures r.None? ==> forall i :: 0 <= i < |t| ==> !(t[i].status == "pending" && Like(t[i].content, "%" + m + "%"))
  {
    if |t| == 0 then None
    else if t[0].status == "pending" && Like(t[0].content, "%" + m + "%") then Some(0)
    else match FindPendingLike(t[1..], m)
      case Some(i) => Some(i + 1)
      case None => None
  }

  /** `UPDATE todo SET status = 'completed', completed_at = ? WHERE id = ?`:
      every row with that id is completed, every other row is unchanged. */
  function MarkCompleted(t: Table, id: int, at: string): (r: Table)
    ensures |r| == |t|
    ensures forall i :: 0 <= i < |t| ==>
      r[i] == if t[i].id == id then t[i].(status := "completed", completedAt := Some(at)) else t[i]
  {
    seq(|t|, i requires 0 <= i < |t| =>
      if t[i].id == id then t[i].(status := "completed", completedAt := Some(at)) else t[i])
  }

  /** `complete_todo`. A non-zero id takes precedence over a content match.
      By id: the pending row with that id is completed, or an error names
      the id and nothing changes. By content: the first pending row whose
      content matches is completed (with every row sharing its id), or an
      error quotes the match and nothing changes. With neither, an error
      asks for one. */
  function CompleteTodo(t: Table, todoId: Option<int>, contentMatch: Option<string>, now: DateTime): (r: Outcome)
    ensures todoId.Some? && todoId.value != 0 ==>
      (FindPendingId(t, todoId.value).None? ==>
         r == Outcome(t, "Error: Todo with ID " + IntToString(todoId.value) + " not found"))
      && (FindPendingId(t, todoId.value).Some? ==>
         r.table == MarkCompleted(t, todoId.value, IsoFormat(now))
         && r.message == "Completed todo: " + t[FindPendingId(t, todoId.value).value].content)
    ensures !(todoId.Some? && todoId.value != 0) && Truthy(contentMatch) ==>
      var m := contentMatch.value;
      (FindPendingLike(t, m).None? ==>
         r == Outcome(t, "Error: No pending todo found matching '" + m + "'"))
      && (FindPendingLike(t, m).Some? ==>
         var row := t[FindPendingLike(t, m).value];
         r.table == MarkCompleted(t, row.id, IsoFormat(now)) && r.message == "Completed todo: " + row.content)
    ensures !(todoId.Some? && todoId.value != 0) && !Truthy(contentMatch) ==>
      r == Outcome(t, "Error: Please provide todo_id or content_match")
  {
    if todoId.Some? && todoId.value != 0 then
      match FindPendingId(t, todoId.value)
      case None => Outcome(t, "Error: Todo with ID " + IntToString(todoId.value) + " not found")
      case Some(i) => Outcome(MarkCompleted(t, todoId.value, IsoFormat(now)), "Completed todo: " + t[i].content)
    else if Truthy(contentMatch) then
      match FindPendingLike(t, contentMatch.value)
      case None => Outcome(t, "Error: No pending todo found matching '" + contentMatch.value + "'")
      case Some(i) => Outcome(MarkCompleted(t, t[i].id, IsoFormat(now)), "Completed todo: " + t[i].content)
    else Outcome(t, "Error: Please provide todo_id or content_match")
  }

  /** Ids are unique, as the primary key guarantees. */
  predicate UniqueIds(t: Table) {
    forall i, j :: 0 <= i < j < |t| ==> t[i].id != t[j].id
  }

  /** With a non-zero id the content match is never consulted. */
  lemma IdTakesPrecedence(t: Table, id: int, m1: Option<string>, m2: Option<string>, now: DateTime)
    requires id != 0
    ensures CompleteTodo(t, Some(id), m1, now) == CompleteTodo(t, Some(id), m2, now)
  {
  }

  /** Completing by content, with a match free of wildcards and unique ids,
      completes exactly the first pending row containing the match
      (ignoring case) and changes no other row. */
  lemma CompleteByContent(t: Table, m: string, now: DateTime)
    requires UniqueIds(t) && m != "" && Plain(m)
    ensures var r := CompleteTodo(t, None, Some(m), now);
      (forall i :: 0 <= i < |t| && t[i].status == "pending" && ContainsIgnoreCase(t[i].content, m) ==>
         exists k :: 0 <= k <= i && r.table[k] == t[k].(status := "completed", completedAt := Some(IsoFormat(now)))
                     && t[k].status == "pending" && ContainsIgnoreCase(t[k].content, m)
                     && (forall j :: 0 <= j < k ==> !(t[j].status == "pending" && ContainsIgnoreCase(t[j].content, m)))
                     && forall j :: 0 <= j < |t| && j != k ==> r.table[j] == t[j])
      && ((forall i :: 0 <= i < |t| ==> !(t[i].status == "pending" && ContainsIgnoreCase(t[i].content, m))) ==>
            r.table == t)
  {
    forall i | 0 <= i < |t|
      ensures Like(t[i].content, "%" + m + "%") <==> ContainsIgnoreCase(t[i].content, m)
    {
      LikeContains(t[i].content, m);
    }
  }

  /** A row that is not pending cannot be completed by id. */
  lemma CompleteByIdNeedsPending(t: Table, id: int, now: DateTime)
    requires id != 0 && forall i :: 0 <= i < |t| && t[i].id == id ==> t[i].status != "pending"
    ensures CompleteTodo(t, Some(id), None, now).table == t
  {
  }

  /* ---------------------------------------------------------------------- */
  /* list_todos: selection and order                                         */
  /* ---------------------------------------------------------------------- */

  /** The `WHERE` clause: the status unless it is `all`, and the topic when
      one is given (a row without a topic never equals one). */
  predicate Selected(row: Row, topic: Option<string>, status: string) {
    (status == "all" || row.status == status) && (!Truthy(topic) || row.topic == Some(topic.value))
  }

  function Filter(t: Table, topic: Option<string>, status: string): (r: Table)
    ensures forall row :: row in r <==> row in t && Selected(row, topic, status)
    ensures multiset(r) <= multiset(t)
  {
    if |t| == 0 then []
    else
      var rest := Filter(t[1..], topic, status);
      assert t == [t[0]] + t[1..];
      if Selected(t[0], topic, status) then [t[0]] + rest else rest
  }

  /** The `ORDER BY`: rows with a due date first, then by due date
      ascending, then by creation time descending. `Before(a, b)` says `a`
      may be listed before `b`. */
  predicate Before(a: Row, b: Row) {
    if a.dueDate.Some? != b.dueDate.Some? then a.dueDate.Some?
    else if a.dueDate.Some? && a.dueDate.value != b.dueDate.value then LexLe(a.dueDate.value, b.dueDate.value)
    else LexLe(b.createdAt, a.createdAt)
  }

  lemma BeforeTotal(a: Row, b: Row)
    ensures Before(a, b) || Before(b, a)
  {
    if a.dueDate.Some? && b.dueDate.Some? {
      LexLeTotal(a.dueDate.value, b.dueDate.value);
    }
    LexLeTotal(a.createdAt, b.createdAt);
  }

  lemma BeforeTransitive(a: Row, b: Row, c: Row)
    requires Before(a, b) && Before(b, c)
    ensures Before(a, c)
  {
    if a.dueDate.Some? && b.dueDate.Some? && c.dueDate.Some? {
      var x, y, z := a.dueDate.value, b.dueDate.value, c.dueDate.value;
      if x != y && y != z {
        LexLeTransitive(x, y, z);
        if x == z {
          LexLeAntisymmetric(x, y);
        }
      } else if x == y && y == z {
        LexLeTransitive(c.createdAt, b.createdAt, a.createdAt);
      }
    } else if a.dueDate.None? && b.dueDate.None? && c.dueDate.None? {
      LexLeTransitive(c.createdAt, b.createdAt, a.createdAt);
    } else if a.dueDate.Some? && b.dueDate.Some? && c.dueDate.None? {
    } else if a.dueDate.Some? && b.dueDate.None? {
    }
  }

  predicate Ordered(s: seq<Row>) {
    forall i, j :: 0 <= i < j < |s| ==> Before(s[i], s[j])
  }

  /** A row that may precede the head of an ordered list may precede all
      of it. */
  lemma PrependOrdered(x: Row, s: seq<Row>)
    requires Ordered(s) && |s| > 0 && Before(x, s[0])
    ensures Ordered([x] + s)
  {
    var r := [x] + s;
    forall i, j | 0 <= i < j < |r|
      ensures Before(r[i], r[j])
    {
      if i == 0 && j > 1 {
        BeforeTransitive(x, s[0], s[j - 1]);
      }
    }
  }

  /** A head that may precede every element of a list (given as a multiset
      of the original tail plus `x`) keeps the list ordered. */
  lemma ConsOrdered(h: Row, x: Row, tail: seq<Row>, rest: seq<Row>)
    requires Ordered([h] + tail) && Ordered(rest) && Before(h, x)
    requires multiset(rest) == multiset(tail) + multiset{x}
    ensures Ordered([h] + rest)
  {
    var r := [h] + rest;
    forall i, j | 0 <= i < j < |r|
      ensures Before(r[i], r[j])
    {
      if i == 0 {
        var y := rest[j - 1];
        assert r[0] == h && r[j] == y;
        assert y in multiset(rest);
        if y != x {
          assert y in multiset(tail);
          var k :| 0 <= k < |tail| && tail[k] == y;
          var ht := [h] + tail;
          assert ht[0] == h && ht[k + 1] == y;
          assert Before(ht[0], ht[k + 1]);
        }
      } else {
        assert r[i] == rest[i - 1] && r[j] == rest[j - 1];
      }
    }
  }

  /** Places `x` before the first row it may precede. */
  function Insert(x: Row, s: seq<Row>): (r: seq<Row>)
    requires Ordered(s)
    ensures Ordered(r)
    ensures multiset(r) == multiset(s) + multiset{x}
  {
    if |s| == 0 then [x]
    else if Before(x, s[0]) then
      PrependOrdered(x, s);
      [x] + s
    else
      BeforeTotal(x, s[0]);
      var rest := Insert(x, s[1..]);
      assert s == [s[0]] + s[1..];
      ConsOrdered(s[0], x, s[1..], rest);
      [s[0]] + rest
  }

  /** The rows in listing order: a stable sort by `Before`. */
  function Sort(s: seq<Row>): (r: seq<Row>)
    ensures Ordered(r)
    ensures multiset(r) == multiset(s)
  {
    if |s| == 0 then []
    else
      assert s == [s[0]] + s[1..];
      Insert(s[0], Sort(s[1..]))
  }

  /** The rows `list_todos` reports: exactly the selected rows, each as
      often as in the table, in the `ORDER BY` order. */
  function Listed(t: Table, topic: Option<string>, status: string): (r: seq<Row>)
    ensures Ordered(r)
    ensures multiset(r) == multiset(Filter(t, topic, status))
    ensures forall row :: row in r <==> row in t && Selected(row, topic, status)
  {
    var f := Filter(t, topic, status);
    var r := Sort(f);
    assert forall row :: row in r <==> row in multiset(r);
    assert forall row :: row in f <==> row in multiset(f);
    r
  }

  /* ---------------------------------------------------------------------- */
  /* list_todos: the lines                                                   */
  /* ---------------------------------------------------------------------- */

  /** `f"  [{id_}] {content}"`, then `" [topic]"` when the topic is
      non-empty. */
  function BaseLine(row: Row): string {
    "  [" + IntToString(row.id) + AfterId(row)
  }

  /** What follows the id in a row's line: `] content` and the topic. */
  function AfterId(row: Row): string {
    "] " + row.content + (if Truthy(row.topic) then " [" + row.topic.value + "]" else "")
  }

  /** Dropping the first four characters of a row's line drops the two
      leading spaces, the bracket and the first character of the id. */
  lemma BaseLineTail(row: Row)
    ensures |BaseLine(row)| >= 4
    ensures BaseLine(row)[4..] == IntToString(row.id)[1..] + AfterId(row)
  {
    DropInto("  [", IntToString(row.id), AfterId(row), 4);
  }

  /** A row's line is never shorter than its `"  [d"` head. */
  lemma BaseLineLong(row: Row)
    ensures |BaseLine(row)| >= 4
  {
  }

  /** A pending row is overdue when it has a due date strictly before
      today. The due date must parse; otherwise `ValueError`. */
  function DueState(row: Row, today: DateTime): (r: Result<bool>)
    requires row.status != "completed" && Truthy(row.dueDate)
    ensures r.Err? <==> ParseDate(row.dueDate.value).None?
    ensures r.Ok? ==> (r.value <==> DateLt(ParseDate(row.dueDate.value).value, today))
  {
    match ParseDate(row.dueDate.value)
    case None => Err(ValueError)
    case Some(due) => Ok(DateLt(due, today))
  }

  /** Whether a listed row counts as overdue (for rows whose line can be
      built). */
  predicate IsOverdue(row: Row, today: DateTime) {
    row.status != "completed" && Truthy(row.dueDate)
    && ParseDate(row.dueDate.value).Some? && DateLt(ParseDate(row.dueDate.value).value, today)
  }

  /** The listing line of one row and whether it counts as overdue. The
      only failure is a pending row whose due date does not parse
      (`ValueError`); the line itself is described by `RowLineText`. */
  function RowLine(row: Row, today: DateTime): (r: Result<(string, bool)>)
    ensures r.Err? <==> row.status != "completed" && Truthy(row.dueDate) && ParseDate(row.dueDate.value).None?
    ensures r.Ok? ==> r.value.1 == IsOverdue(row, today)
  {
    var line := BaseLine(row);
    BaseLineLong(row);
    if row.status == "completed" then Ok(("  [x] " + line[4..], false))
    else if !Truthy(row.dueDate) then Ok(("  [ ] " + line[4..], false))
    else
      match DueState(row, today)
      case Err(e) => Err(e)
      case Ok(overdue) =>
        var d := row.dueDate.value;
        Ok(("  [ ] " + (line + (if overdue then " OVERDUE(" + d + ")" else " (due: " + d + ")"))[4..], overdue))
  }

  /** The text of a row's line: a completed row is marked `[x]`; any other
      row is marked `[ ]`, annotated with its due date when it has one
      (`OVERDUE(d)` once that date has passed, `(due: d)` before). Either
      way the marker replaces the first four characters of the base line. */
  lemma RowLineText(row: Row, today: DateTime)
    requires RowLine(row, today).Ok?
    ensures row.status == "completed" ==> RowLine(row, today).value.0 == "  [x] " + BaseLine(row)[4..]
    ensures row.status != "completed" && !Truthy(row.dueDate) ==>
      RowLine(row, today).value.0 == "  [ ] " + BaseLine(row)[4..]
    ensures row.status != "completed" && Truthy(row.dueDate) ==>
      var d := row.dueDate.value;
      RowLine(row, today).value.0 == "  [ ] " + BaseLine(row)[4..]
        + (if IsOverdue(row, today) then " OVERDUE(" + d + ")" else " (due: " + d + ")")
  {
    if row.status != "completed" && Truthy(row.dueDate) {
      DatedRowLine(row, today);
    }
  }

  /** The dated case of `RowLineText`: the note follows the whole base line. */
  lemma DatedRowLine(row: Row, today: DateTime)
    requires row.status != "completed" && Truthy(row.dueDate)
    requires RowLine(row, today).Ok?
    ensures var d := row.dueDate.value;
      RowLine(row, today).value.0 == "  [ ] " + BaseLine(row)[4..]
        + (if IsOverdue(row, today) then " OVERDUE(" + d + ")" else " (due: " + d + ")")
  {
    var d := row.dueDate.value;
    var note := if IsOverdue(row, today) then " OVERDUE(" + d + ")" else " (due: " + d + ")";
    var base := BaseLine(row);
    assert RowLine(row, today).value.0 == "  [ ] " + (base + note)[4..] by {
      assert DueState(row, today) == Ok(IsOverdue(row, today));
    }
    assert (base + note)[4..] == base[4..] + note by {
      BaseLineLong(row);
      DropConcat(base, note, 4);
    }
  }

  /** The number of overdue rows, counted directly. */
  function CountOverdue(rows: seq<Row>, today: DateTime): nat {
    if |rows| == 0 then 0 else (if IsOverdue(rows[0], today) then 1 else 0) + CountOverdue(rows[1..], today)
  }

  /** The loop over the listed rows: their lines in order and the overdue
      count; `ValueError` when some pending row's due date does not parse. */
  function RowLines(rows: seq<Row>, today: DateTime): (r: Result<(seq<string>, nat)>)
    ensures r.Err? <==> exists i :: 0 <= i < |rows| && RowLine(rows[i], today).Err?
    ensures r.Ok? ==> |r.value.0| == |rows|
    ensures r.Ok? ==> forall i :: 0 <= i < |rows| ==> RowLine(rows[i], today) == Ok((r.value.0[i], IsOverdue(rows[i], today)))
    ensures r.Ok? ==> r.value.1 == CountOverdue(rows, today)
  {
    if |rows| == 0 then Ok(([], 0))
    else
      match RowLine(rows[0], today)
      case Err(e) => Err(e)
      case Ok((line, overdue)) =>
        match RowLines(rows[1..], today)
        case Err(e) =>
          ghost var i :| 0 <= i < |rows[1..]| && RowLine(rows[1..][i], today).Err?;
          assert rows[i + 1] == rows[1..][i];
          Err(e)
        case Ok((lines, count)) =>
          RowLinesCons(rows, today, line, lines);
          Ok(([line] + lines, (if overdue then 1 else 0) + count))
  }

  /** The step of `RowLines`: the first row's line in front of the lines
      of the others. */
  lemma RowLinesCons(rows: seq<Row>, today: DateTime, line: string, lines: seq<string>)
    requires |rows| > 0 && RowLine(rows[0], today).Ok? && RowLine(rows[0], today).value.0 == line
    requires |lines| == |rows| - 1
    requires forall i :: 0 <= i < |rows| - 1 ==> RowLine(rows[1..][i], today) == Ok((lines[i], IsOverdue(rows[1..][i], today)))
    ensures forall i :: 0 <= i < |rows| ==> RowLine(rows[i], today) == Ok((([line] + lines)[i], IsOverdue(rows[i], today)))
    ensures !exists i :: 0 <= i < |rows| && RowLine(rows[i], today).Err?
  {
    forall i | 0 <= i < |rows|
      ensures RowLine(rows[i], today) == Ok((([line] + lines)[i], IsOverdue(rows[i], today)))
    {
      if i > 0 {
        assert rows[i] == rows[1..][i - 1];
      }
    }
  }

  /** The lines above the rows: the title, then the warning and a blank
      line exactly when reminders are on and some row is overdue, then the
      original blank line. */
  function Header(includeReminder: bool, overdue: nat): (h: seq<string>)
    ensures |h| >= 2 && h[0] == "Todo List:" && h[|h| - 1] == ""
    ensures includeReminder && overdue > 0 ==>
      h == ["Todo List:", "Warning: You have " + NatToString(overdue) + " overdue task(s)!", "", ""]
    ensures !(includeReminder && overdue > 0) ==> h == ["Todo List:", ""]
  {
    var lines := ["Todo List:", ""];
    if includeReminder && overdue > 0 then
      var warned := lines[..1] + ["Warning: You have " + NatToString(overdue) + " overdue task(s)!"] + lines[1..];
      warned[..2] + [""] + warned[2..]
    else lines
  }

  const NoTodos := "No todos found"

  /** `list_todos`. `today` is `date.today()`. */
  function ListTodos(t: Table, topic: Option<string>, status: string, includeReminder: bool,
                     today: DateTime): (r: Result<string>)
    ensures |Listed(t, topic, status)| == 0 ==> r == Ok(NoTodos)
    ensures |Listed(t, topic, status)| > 0 ==>
      (r.Ok? <==> RowLines(Listed(t, topic, status), today).Ok?)
      && (r.Ok? ==>
            var (lines, overdue) := RowLines(Listed(t, topic, status), today).value;
            overdue == CountOverdue(Listed(t, topic, status), today)
            && r.value == Join("\n", Header(includeReminder, overdue) + lines))
  {
    var rows := Listed(t, topic, status);
    if |rows| == 0 then Ok(NoTodos)
    else
      var (lines, overdue) :- RowLines(rows, today);
      Ok(Join("\n", Header(includeReminder, overdue) + lines))
  }

  /** A completed row is never reported as overdue, whatever its due date. */
  lemma CompletedNeverOverdue(row: Row, today: DateTime)
    requires row.status == "completed"
    ensures RowLine(row, today) == Ok(("  [x] " + BaseLine(row)[4..], false))
  {
    RowLineText(row, today);
  }

  /** The id quirk: a completed row whose id is a single digit is listed
      as `  [x] ] content`, its id gone. */
  lemma SingleDigitIdLost(row: Row, today: DateTime)
    requires row.status == "completed" && 0 <= row.id < 10
    ensures RowLine(row, today) == Ok(("  [x] " + AfterId(row), false))
  {
    CompletedNeverOverdue(row, today);
    BaseLineTail(row);
    assert |IntToString(row.id)| == 1;
    assert IntToString(row.id)[1..] + AfterId(row) == AfterId(row);
  }
}
