/**
The tamper-evident e-mail log: triggers that let an update change delivery columns only, and block
deletes, unless an operator has set an override.
*/
module EmailLog {
  import opened Options

  /** Column values by name. A column that is absent reads as null. */
  type Row = map<string, string>

  const UPDATABLE := {
    "delivered_at", "bounced_at", "bounce_reason", "opened_at", "opened_count",
    "clicked_at", "clicked_count", "complained_at", "webhook_events"
  }

  function Field(row: Row, col: string): Option<string> {
    if col in row then Some(row[col]) else None
  }

  /** The columns on which two images of a row differ. */
  ghost predicate DifferOnlyIn(before: Row, after: Row, columns: seq<string>, allowed: set<string>) {
    forall col :: col in columns && Field(before, col) != Field(after, col) ==> col in allowed
  }

  /** The update trigger: walk the columns and raise at the first protected one that changes. */
  method BlockUpdate(before: Row, after: Row, columns: seq<string>, override: bool) returns (raised: Option<string>)
    ensures raised.None? <==> override || DifferOnlyIn(before, after, columns, UPDATABLE)
    ensures raised.Some? ==> raised.value in columns && raised.value !in UPDATABLE
                             && Field(before, raised.value) != Field(after, raised.value)
  {
    if override {
      return None;
    }
    var i := 0;
    while i < |columns|
      invariant 0 <= i <= |columns|
      invariant DifferOnlyIn(before, after, columns[..i], UPDATABLE)
    {
      var col := columns[i];
      assert columns[..i + 1] == columns[..i] + [col];
      if col !in UPDATABLE && Field(after, col) != Field(before, col) {
        return Some(col);
      }
      i := i + 1;
    }
    assert columns[..i] == columns;
    raised := None;
  }

  /** The record of what was sent, as against what became of it */
  const RECORD := {
    "id", "tenant_id", "doc_type", "doc_id", "doc_version", "sent_by_user_id", "from_addr", "to_addrs", "cc_addrs",
    "bcc_addrs", "subject", "body_html", "body_text", "attachment_filenames", "resend_message_id", "resend_status",
    "resend_error", "kill_switch_reason", "sent_at", "attachment_bytes", "attachment_sha256",
    "attachment_content_types"
  }

  /** No column of the record may be updated. */
  lemma RecordIsProtected()
    ensures RECORD !! UPDATABLE
  {
    assert forall col :: col in RECORD ==> col !in UPDATABLE;
  }

  /** An update without an override that changes a column of the record is refused. */
  lemma RecordChangeRefused(before: Row, after: Row, columns: seq<string>, col: string)
    requires col in columns && col in RECORD && Field(before, col) != Field(after, col)
    ensures !DifferOnlyIn(before, after, columns, UPDATABLE)
  {
    RecordIsProtected();
  }

  // ----- runs -----

  datatype Statement =
    | Insert(row: Row)
    | Update(at: nat, row: Row, override: bool)
    | Delete(at: nat, override: bool)

  /** The log after one statement; a statement that a trigger raises on changes nothing. */
  ghost function Execute(log: seq<Row>, columns: seq<string>, s: Statement): seq<Row> {
    match s
    case Insert(row) => log + [row]
    case Update(at, row, override) =>
      if at < |log| && (override || DifferOnlyIn(log[at], row, columns, UPDATABLE)) then log[at := row] else log
    case Delete(at, override) =>
      if at < |log| && override then log[..at] + log[at + 1..] else log
  }

  ghost function ExecuteAll(log: seq<Row>, columns: seq<string>, run: seq<Statement>): seq<Row> {
    if run == [] then log else Execute(ExecuteAll(log, columns, run[..|run| - 1]), columns, run[|run| - 1])
  }

  /** Every row of the earlier log is still there, with every protected column as it was. */
  ghost predicate Preserved(earlier: seq<Row>, later: seq<Row>, columns: seq<string>) {
    && |earlier| <= |later|
    && forall i :: 0 <= i < |earlier| ==> DifferOnlyIn(earlier[i], later[i], columns, UPDATABLE)
  }

  /**
  From any point of a run on, without an override: no row that is there at that point disappears, the
  rows inserted during the run included, and none of its protected columns ever changes.
  */
  lemma {:induction false} LogIsTamperEvident(log: seq<Row>, columns: seq<string>, run: seq<Statement>, k: nat)
    requires k <= |run|
    requires forall i :: k <= i < |run| && !run[i].Insert? ==> !run[i].override
    ensures Preserved(ExecuteAll(log, columns, run[..k]), ExecuteAll(log, columns, run), columns)
  {
    if k == |run| {
      assert run[..k] == run;
    } else {
      var n := |run| - 1;
      LogIsTamperEvident(log, columns, run[..n], k);
      assert run[..n][..k] == run[..k];
      var early, before := ExecuteAll(log, columns, run[..k]), ExecuteAll(log, columns, run[..n]);
      var after := ExecuteAll(log, columns, run);
      forall i | 0 <= i < |early|
        ensures DifferOnlyIn(early[i], after[i], columns, UPDATABLE)
      {
        assert DifferOnlyIn(early[i], before[i], columns, UPDATABLE);
      }
    }
  }

  /** So a row inserted at statement k keeps its place and its protected columns to the end of the run. */
  lemma InsertedRowKept(log: seq<Row>, columns: seq<string>, run: seq<Statement>, k: nat)
    requires k < |run| && run[k].Insert?
    requires forall i :: k < i < |run| && !run[i].Insert? ==> !run[i].override
    ensures var at := |ExecuteAll(log, columns, run[..k])|;
            var final := ExecuteAll(log, columns, run);
            at < |final| && DifferOnlyIn(run[k].row, final[at], columns, UPDATABLE)
  {
    LogIsTamperEvident(log, columns, run, k + 1);
    assert run[..k + 1][..k] == run[..k];
    var at := |ExecuteAll(log, columns, run[..k])|;
    assert ExecuteAll(log, columns, run[..k + 1])[at] == run[k].row;
  }

  /** What each statement does: it takes effect on its row alone, exactly when the triggers let it. */
  lemma StatementEffect(log: seq<Row>, columns: seq<string>, s: Statement)
    ensures s.Insert? ==> Execute(log, columns, s) == log + [s.row]
    ensures s.Update? && s.at < |log| ==>
      var after := Execute(log, columns, s);
      && |after| == |log|
      && (forall i :: 0 <= i < |log| && i != s.at ==> after[i] == log[i])
      && after[s.at] == if s.override || DifferOnlyIn(log[s.at], s.row, columns, UPDATABLE) then s.row else log[s.at]
    ensures s.Delete? && s.at < |log| ==>
      multiset(Execute(log, columns, s))
      == if s.override then multiset(log) - multiset{log[s.at]} else multiset(log)
    ensures !s.Insert? && s.at >= |log| ==> Execute(log, columns, s) == log
  {
    if s.Delete? && s.at < |log| {
      assert log == log[..s.at] + [log[s.at]] + log[s.at + 1..];
    }
  }

  /** One statement leaves the whole log preserved exactly when it is not an override that breaks the rule. */
  lemma StatementPreservesExactly(log: seq<Row>, columns: seq<string>, at: nat, row: Row, override: bool)
    requires at < |log|
    ensures Preserved(log, Execute(log, columns, Update(at, row, override)), columns)
            <==> !override || DifferOnlyIn(log[at], row, columns, UPDATABLE)
    ensures Preserved(log, Execute(log, columns, Delete(at, override)), columns) <==> !override
  {
    if override {
      assert log[at := row][at] == row;
    }
  }

  /** The table with its triggers. */
  class Log {
    var rows: seq<Row>
    const columns: seq<string>

    constructor (columns: seq<string>)
      ensures rows == [] && this.columns == columns
    {
      rows := [];
      this.columns := columns;
    }

    method InsertRow(row: Row)
      modifies this
      ensures rows == Execute(old(rows), columns, Insert(row))
    {
      rows := rows + [row];
    }

    method UpdateRow(at: nat, row: Row, override: bool) returns (ok: bool)
      requires at < |rows|
      modifies this
      ensures rows == Execute(old(rows), columns, Update(at, row, override))
      ensures ok <==> override || DifferOnlyIn(old(rows)[at], row, columns, UPDATABLE)
    {
      var raised := BlockUpdate(rows[at], row, columns, override);
      ok := raised.None?;
      if ok {
        rows := rows[at := row];
      }
    }

    method DeleteRow(at: nat, override: bool) returns (ok: bool)
      requires at < |rows|
      modifies this
      ensures rows == Execute(old(rows), columns, Delete(at, override))
      ensures ok <==> override
    {
      ok := override;
      if ok {
        rows := rows[..at] + rows[at + 1..];
      }
    }
  }
}
