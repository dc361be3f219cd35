/** The finance tools: recording an expense or an income with a timestamp
    defaulted to now, and the guard in front of caller-supplied queries. */
module Finance {
  import opened Wrappers
  import opened Text
  import opened Calendar
  import opened SqlGuard

  datatype Kind = Expense | Income

  /** One row of the `finance` table. `amount` is the amount as Python
      prints it; `party` is the category of an expense or the source of an
      income. */
  datatype Transaction = Transaction(kind: Kind, amount: string, party: string, note: Option<string>, datetime: string)

  /** The table after a tool ran, and the text the tool returned. */
  datatype Outcome = Outcome(table: seq<Transaction>, message: string)

  /** `datetime_str or now.strftime("%Y-%m-%d %H:%M:%S")`. */
  function Timestamp(datetimeStr: Option<string>, now: DateTime): (r: string)
    ensures Truthy(datetimeStr) ==> r == datetimeStr.value
    ensures !Truthy(datetimeStr) ==> r == FormatDateTime(now)
  {
    if Truthy(datetimeStr) then datetimeStr.value else FormatDateTime(now)
  }

  /** A defaulted timestamp reads back as the moment it was taken. */
  lemma DefaultTimestampParses(now: DateTime)
    requires Valid(now)
    ensures ParseDateTime(Timestamp(None, now)) == Some(now)
  {
    ParseFormatDateTime(now);
  }

  /** The part of a confirmation before any note. */
  function Head(kind: Kind, amount: string, party: string): (h: string)
    ensures kind == Expense ==> h == "Recorded expense: " + amount + ", category: " + party
    ensures kind == Income ==> h == "Recorded income: " + amount + ", source: " + party
  {
    match kind
    case Expense => "Recorded expense: " + amount + ", category: " + party
    case Income => "Recorded income: " + amount + ", source: " + party
  }

  /** The confirmation of either tool. */
  function Confirmation(kind: Kind, amount: string, party: string, note: Option<string>): (m: string)
    ensures Truthy(note) ==> m == Head(kind, amount, party) + ", note: " + note.value
    ensures !Truthy(note) ==> m == Head(kind, amount, party)
  {
    var head := Head(kind, amount, party);
    if Truthy(note) then head + ", note: " + note.value else head
  }

  /** The head names the category or source. */
  lemma HeadNamesParty(kind: Kind, amount: string, party: string)
    ensures Contains(Head(kind, amount, party), party)
  {
    var lead := if kind == Expense then "Recorded expense: " + amount + ", category: "
                else "Recorded income: " + amount + ", source: ";
    assert Head(kind, amount, party) == lead + party + "";
    ContainsMiddle(lead, party, "");
  }

  /** The confirmation names the category or source, and mentions the note
      exactly when one is given. */
  lemma ConfirmationParts(kind: Kind, amount: string, party: string, note: Option<string>)
    ensures Contains(Confirmation(kind, amount, party, note), party)
    ensures Truthy(note) <==> |Confirmation(kind, amount, party, note)| > |Head(kind, amount, party)|
    ensures Truthy(note) ==> Contains(Confirmation(kind, amount, party, note), ", note: " + note.value)
  {
    var head := Head(kind, amount, party);
    HeadNamesParty(kind, amount, party);
    if Truthy(note) {
      var tail := ", note: " + note.value;
      assert Confirmation(kind, amount, party, note) == head + tail;
      assert Contains(head + tail, tail) by {
        ContainsRight(head, tail, tail);
      }
      ContainsLeft(head, tail, party);
    }
  }

  /** `record_expense`: one expense row at the end of the table. */
  function RecordExpense(t: seq<Transaction>, amount: string, category: string, note: Option<string>,
                         datetimeStr: Option<string>, now: DateTime): (r: Outcome)
    ensures |r.table| == |t| + 1 && r.table[..|t|] == t
    ensures r.table[|t|] == Transaction(Expense, amount, category, note, Timestamp(datetimeStr, now))
    ensures r.message == Confirmation(Expense, amount, category, note)
  {
    Outcome(t + [Transaction(Expense, amount, category, note, Timestamp(datetimeStr, now))],
            Confirmation(Expense, amount, category, note))
  }

  /** `record_income`: one income row at the end of the table. */
  function RecordIncome(t: seq<Transaction>, amount: string, source: string, note: Option<string>,
                        datetimeStr: Option<string>, now: DateTime): (r: Outcome)
    ensures |r.table| == |t| + 1 && r.table[..|t|] == t
    ensures r.table[|t|] == Transaction(Income, amount, source, note, Timestamp(datetimeStr, now))
    ensures r.message == Confirmation(Income, amount, source, note)
  {
    Outcome(t + [Transaction(Income, amount, source, note, Timestamp(datetimeStr, now))],
            Confirmation(Income, amount, source, note))
  }

  /** `query_finance` up to running the query: the guard for the
      `finance` table. */
  function QueryFinance(sql: string): (r: Verdict)
    ensures !("select" <= Normalized(sql)) ==> r == Rejected(NotSelect)
    ensures "select" <= Normalized(sql) && !Contains(Normalized(sql), "finance") ==>
      r == Rejected(WrongTable("finance"))
    ensures r.Execute? <==> "select" <= Normalized(sql) && Contains(Normalized(sql), "finance")
  {
    Guard(sql, "finance")
  }

  /** Whether a query runs depends neither on letter case nor on
      surrounding whitespace. */
  lemma QuerySpellingIrrelevant(a: string, b: string, w1: string, w2: string)
    requires Lower(a) == Lower(b) && AllSpace(w1) && AllSpace(w2)
    ensures QueryFinance(w1 + a + w2).Execute? == QueryFinance(b).Execute?
  {
    GuardIgnoresSurroundingSpace(w1, a, w2, "finance");
    GuardIgnoresCase(a, b, "finance");
  }

  /** The finance and health tools share the `SELECT` test, and both run
      it before their table test. */
  lemma SharedSelectTest(sql: string)
    ensures QueryFinance(sql) == Rejected(NotSelect) <==> Guard(sql, "health") == Rejected(NotSelect)
  {
  }
}
