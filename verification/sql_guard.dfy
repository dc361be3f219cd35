/** The check both query tools apply before running caller-supplied SQL:
    only a `SELECT` that mentions the tool's own table is let through. */
module SqlGuard {
  import opened Text

  /** What the guard decides: an error reply, or the query to execute. */
  datatype Verdict = Rejected(message: string) | Execute(sql: string)

  const NotSelect := "Error: Only SELECT queries are allowed"

  function WrongTable(table: string): (m: string)
    ensures m != NotSelect
  {
    var m := "Error: Please query the " + table + " table";
    assert m[7] == 'P' && NotSelect[7] == 'O';
    m
  }

  /** The text both tests look at: the query stripped and lower-cased. */
  function Normalized(sql: string): string {
    Lower(Strip(sql))
  }

  /** The guard for the tool that owns `table`. The `SELECT` test comes
      first; the table test is a plain substring test anywhere in the
      query. An accepted query is executed exactly as given. */
  function Guard(sql: string, table: string): (r: Verdict)
    ensures r == Rejected(NotSelect) <==> !("select" <= Normalized(sql))
    ensures r == Rejected(WrongTable(table)) <==> "select" <= Normalized(sql) && !Contains(Normalized(sql), table)
    ensures r.Execute? <==> "select" <= Normalized(sql) && Contains(Normalized(sql), table)
    ensures r.Execute? ==> r.sql == sql
  {
    var q := Normalized(sql);
    if !("select" <= q) then Rejected(NotSelect)
    else if !Contains(q, table) then Rejected(WrongTable(table))
    else Execute(sql)
  }

  /** Letter case never changes the verdict's kind. */
  lemma GuardIgnoresCase(a: string, b: string, table: string)
    requires Lower(a) == Lower(b)
    ensures Guard(a, table).Execute? == Guard(b, table).Execute?
    ensures Guard(a, table).Rejected? ==> Guard(a, table) == Guard(b, table)
  {
    assert Normalized(a) == Normalized(b) by {
      StripLower(a);
      StripLower(b);
    }
  }

  /** Whitespace around the query never changes the verdict's kind. */
  lemma GuardIgnoresSurroundingSpace(w1: string, sql: string, w2: string, table: string)
    requires AllSpace(w1) && AllSpace(w2)
    ensures Guard(w1 + sql + w2, table).Execute? == Guard(sql, table).Execute?
    ensures Guard(sql, table).Rejected? ==> Guard(w1 + sql + w2, table) == Guard(sql, table)
  {
    assert Normalized(w1 + sql + w2) == Normalized(sql) by {
      StripIgnoresSurroundingSpace(w1, sql, w2);
    }
  }

  /** A statement that is not a `SELECT` is refused as such even when it
      names the table. */
  lemma DeleteRefused()
    ensures Guard("DELETE FROM finance", "finance") == Rejected(NotSelect)
  {
    var sql := "DELETE FROM finance";
    StripKeepsFirst(sql);
    assert Normalized(sql)[0] == LowerChar('D') == 'd';
  }
}
