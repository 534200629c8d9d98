/**
What each statement does to the entry it is about, and what a transaction adds up to: number of lines,
debits and credits of an entry at commit are what they were, plus the new images of the queued events,
less the old ones.
*/
module JournalEffects {
  import opened Options

  import opened JournalBalance

  /** What an entry's lines are counted and summed by */
  datatype Measure = Lines | Debits | Credits

  function Worth(l: Line, m: Measure): int {
    match m
    case Lines => 1
    case Debits => l.debit
    case Credits => l.credit
  }

  /** Number of lines, debits or credits of an entry */
  function Figure(lines: seq<Line>, entry: Id, m: Measure): int {
    match m
    case Lines => |LinesOf(lines, entry)|
    case Debits => Sum(LinesOf(lines, entry), Debit)
    case Credits => Sum(LinesOf(lines, entry), Credit)
  }

  function Share(l: Line, entry: Id, m: Measure): int {
    if l.entry == entry then Worth(l, m) else 0
  }

  // ----- figures under row operations -----

  lemma FigureConcat(a: seq<Line>, b: seq<Line>, entry: Id, m: Measure)
    ensures Figure(a + b, entry, m) == Figure(a, entry, m) + Figure(b, entry, m)
  {
    LinesOfConcat(a, b, entry);
    SumConcat(LinesOf(a, entry), LinesOf(b, entry), Debit);
    SumConcat(LinesOf(a, entry), LinesOf(b, entry), Credit);
  }

  lemma FigureOfOne(l: Line, entry: Id, m: Measure)
    ensures Figure([l], entry, m) == Share(l, entry, m)
  {
    LinesOfOne(l, entry);
    SumOfOne(l, Debit);
    SumOfOne(l, Credit);
  }

  lemma FigureSplit(lines: seq<Line>, at: nat, entry: Id, m: Measure)
    requires at < |lines|
    ensures Figure(lines, entry, m)
            == Figure(lines[..at], entry, m) + Share(lines[at], entry, m) + Figure(lines[at + 1..], entry, m)
  {
    assert lines == lines[..at] + [lines[at]] + lines[at + 1..];
    FigureConcat(lines[..at] + [lines[at]], lines[at + 1..], entry, m);
    FigureConcat(lines[..at], [lines[at]], entry, m);
    FigureOfOne(lines[at], entry, m);
  }

  // ----- entry statements -----

  ghost predicate OthersAsBefore(before: Db, after: Db, entry: Id) {
    forall e :: e != entry ==> (e in after.entries <==> e in before.entries)
                               && (e in after.entries ==> after.entries[e] == before.entries[e])
  }

  /** A new entry is accepted exactly under an unused id, and stored with its status. */
  lemma InsertEntryEffect(tx: Tx, entry: Id, status: string)
    ensures Execute(tx, InsertEntry(entry, status)).Some? <==> entry !in tx.db.entries
    ensures Execute(tx, InsertEntry(entry, status)).Some? ==>
      var after := Execute(tx, InsertEntry(entry, status)).value.db;
      && entry in after.entries && after.entries[entry] == status
      && OthersAsBefore(tx.db, after, entry) && after.lines == tx.db.lines
  {
  }

  /** An update of an entry that is there stores the status. */
  lemma UpdateEntryEffect(tx: Tx, entry: Id, status: string)
    requires entry in tx.db.entries
    ensures Execute(tx, UpdateEntry(entry, status)).Some?
    ensures var after := Execute(tx, UpdateEntry(entry, status)).value.db;
            && entry in after.entries && after.entries[entry] == status
            && OthersAsBefore(tx.db, after, entry) && after.lines == tx.db.lines
  {
  }

  /** Deleting an entry takes it and its lines, and leaves every other entry with its own. */
  lemma DeleteEntryEffect(tx: Tx, entry: Id)
    requires entry in tx.db.entries
    ensures Execute(tx, DeleteEntry(entry)).Some?
    ensures var after := Execute(tx, DeleteEntry(entry)).value.db;
            && entry !in after.entries && LinesOf(after.lines, entry) == []
            && OthersAsBefore(tx.db, after, entry)
            && forall e :: e != entry ==> LinesOf(after.lines, e) == LinesOf(tx.db.lines, e)
  {
    NoLinesLeft(tx.db.lines, entry);
    forall e | e != entry
      ensures LinesOf(LinesWithout(tx.db.lines, entry), e) == LinesOf(tx.db.lines, e)
    {
      CascadeFrame(tx.db.lines, entry, e);
    }
  }

  lemma {:induction false} NoLinesLeft(lines: seq<Line>, gone: Id)
    ensures LinesOf(LinesWithout(lines, gone), gone) == []
  {
    if lines != [] {
      var last := lines[|lines| - 1];
      NoLinesLeft(lines[..|lines| - 1], gone);
      LinesOfConcat(LinesWithout(lines[..|lines| - 1], gone), [last], gone);
      LinesOfOne(last, gone);
    }
  }

  // ----- line statements -----

  /** A new line is accepted exactly for an entry that is there, and counts for it. */
  lemma InsertLineEffect(tx: Tx, row: Line)
    ensures Execute(tx, InsertLine(row)).Some? <==> row.entry in tx.db.entries
    ensures Execute(tx, InsertLine(row)).Some? ==>
      var after := Execute(tx, InsertLine(row)).value.db;
      && after.entries == tx.db.entries
      && forall e, m :: Figure(after.lines, e, m) == Figure(tx.db.lines, e, m) + Share(row, e, m)
  {
    forall e, m
      ensures Figure(tx.db.lines + [row], e, m) == Figure(tx.db.lines, e, m) + Share(row, e, m)
    {
      FigureConcat(tx.db.lines, [row], e, m);
      FigureOfOne(row, e, m);
    }
  }

  /** An update of a line that is there takes the old image out of its entry and puts the new one into its own. */
  lemma UpdateLineEffect(tx: Tx, at: nat, row: Line)
    requires at < |tx.db.lines|
    ensures Execute(tx, UpdateLine(at, row)).Some? <==> row.entry in tx.db.entries
    ensures Execute(tx, UpdateLine(at, row)).Some? ==>
      var after, was := Execute(tx, UpdateLine(at, row)).value.db, tx.db.lines[at];
      && after.entries == tx.db.entries
      && forall e, m :: Figure(after.lines, e, m) == Figure(tx.db.lines, e, m) - Share(was, e, m) + Share(row, e, m)
  {
    var lines := tx.db.lines;
    forall e, m
      ensures Figure(lines[at := row], e, m) == Figure(lines, e, m) - Share(lines[at], e, m) + Share(row, e, m)
    {
      FigureSplit(lines, at, e, m);
      FigureSplit(lines[at := row], at, e, m);
      assert lines[at := row][..at] == lines[..at] && lines[at := row][at + 1..] == lines[at + 1..];
    }
  }

  /** A delete of a line that is there takes it out of its entry. */
  lemma DeleteLineEffect(tx: Tx, at: nat)
    requires at < |tx.db.lines|
    ensures Execute(tx, DeleteLine(at)).Some?
    ensures var after, was := Execute(tx, DeleteLine(at)).value.db, tx.db.lines[at];
            && after.entries == tx.db.entries
            && forall e, m :: Figure(after.lines, e, m) == Figure(tx.db.lines, e, m) - Share(was, e, m)
  {
    var lines := tx.db.lines;
    forall e, m
      ensures Figure(lines[..at] + lines[at + 1..], e, m) == Figure(lines, e, m) - Share(lines[at], e, m)
    {
      FigureSplit(lines, at, e, m);
      FigureConcat(lines[..at], lines[at + 1..], e, m);
    }
  }

  /** A statement that matches no row does nothing. */
  lemma NoMatchNoEffect(tx: Tx, op: Op)
    requires (op.UpdateEntry? || op.DeleteEntry?) ==> op.entry !in tx.db.entries
    requires (op.UpdateLine? || op.DeleteLine?) ==> op.at >= |tx.db.lines|
    requires !op.InsertEntry? && !op.InsertLine?
    ensures Execute(tx, op) == Some(tx)
  {
  }

  // ----- conservation over a transaction -----

  function Change(e: Event, entry: Id, m: Measure): int {
    match e
    case EntryWritten(_) => 0
    case LineInserted(row) => Share(row, entry, m)
    case LineUpdated(before, row) => Share(row, entry, m) - Share(before, entry, m)
    case LineDeleted(before) => -Share(before, entry, m)
  }

  /** What the queued events add to an entry. */
  function Net(events: seq<Event>, entry: Id, m: Measure): int {
    if events == [] then 0 else Net(events[..|events| - 1], entry, m) + Change(events[|events| - 1], entry, m)
  }

  lemma NetOneMore(events: seq<Event>, e: Event, entry: Id, m: Measure)
    ensures Net(events + [e], entry, m) == Net(events, entry, m) + Change(e, entry, m)
  {
    assert (events + [e])[..|events|] == events;
  }

  lemma NetOfOne(e: Event, entry: Id, m: Measure)
    ensures Net([e], entry, m) == Change(e, entry, m)
  {
    assert [e][..0] == [];
  }

  lemma {:induction false} NetConcat(a: seq<Event>, b: seq<Event>, entry: Id, m: Measure)
    ensures Net(a + b, entry, m) == Net(a, entry, m) + Net(b, entry, m)
  {
    if b == [] {
      assert a + b == a;
    } else {
      NetConcat(a, b[..|b| - 1], entry, m);
      assert (a + b)[..|a + b| - 1] == a + b[..|b| - 1];
    }
  }

  /** A cascade's events take out exactly the lines it takes. */
  lemma {:induction false} CascadeConserves(lines: seq<Line>, gone: Id, entry: Id, m: Measure)
    ensures Figure(LinesWithout(lines, gone), entry, m)
            == Figure(lines, entry, m) + Net(CascadeEvents(lines, gone), entry, m)
  {
    if lines != [] {
      var front, last := lines[..|lines| - 1], lines[|lines| - 1];
      CascadeConserves(front, gone, entry, m);
      assert lines == front + [last];
      FigureConcat(front, [last], entry, m);
      FigureOfOne(last, entry, m);
      if last.entry == gone {
        NetOneMore(CascadeEvents(front, gone), LineDeleted(last), entry, m);
      } else {
        FigureConcat(LinesWithout(front, gone), [last], entry, m);
      }
    }
  }

  lemma LineStatementConserves(tx: Tx, op: Op, entry: Id, m: Measure)
    requires Execute(tx, op).Some? && (op.InsertLine? || op.UpdateLine? || op.DeleteLine?)
    ensures var tx' := Execute(tx, op).value;
            Figure(tx'.db.lines, entry, m) - Net(tx'.events, entry, m)
            == Figure(tx.db.lines, entry, m) - Net(tx.events, entry, m)
  {
    match op
    case InsertLine(row) =>
      InsertLineEffect(tx, row);
      NetOneMore(tx.events, LineInserted(row), entry, m);
    case UpdateLine(at, row) =>
      if at < |tx.db.lines| {
        UpdateLineEffect(tx, at, row);
        NetOneMore(tx.events, LineUpdated(tx.db.lines[at], row), entry, m);
      }
    case DeleteLine(at) =>
      if at < |tx.db.lines| {
        DeleteLineEffect(tx, at);
        NetOneMore(tx.events, LineDeleted(tx.db.lines[at]), entry, m);
      }
  }

  lemma StatementConserves(tx: Tx, op: Op, entry: Id, m: Measure)
    requires Execute(tx, op).Some?
    ensures var tx' := Execute(tx, op).value;
            Figure(tx'.db.lines, entry, m) - Net(tx'.events, entry, m)
            == Figure(tx.db.lines, entry, m) - Net(tx.events, entry, m)
  {
    match op
    case InsertEntry(e, _) => NetOneMore(tx.events, EntryWritten(e), entry, m);
    case UpdateEntry(e, _) => NetOneMore(tx.events, EntryWritten(e), entry, m);
    case DeleteEntry(e) =>
      CascadeConserves(tx.db.lines, e, entry, m);
      NetConcat(tx.events, CascadeEvents(tx.db.lines, e), entry, m);
    case _ => LineStatementConserves(tx, op, entry, m);
  }

  /** The figures of an entry at the end are what they were, and what the events add: no line is lost on the way. */
  lemma {:induction false} TransactionConserves(db: Db, ops: seq<Op>, entry: Id, m: Measure)
    requires ExecuteAll(db, ops).Some?
    ensures var tx := ExecuteAll(db, ops).value;
            Figure(tx.db.lines, entry, m) == Figure(db.lines, entry, m) + Net(tx.events, entry, m)
  {
    if ops != [] {
      TransactionConserves(db, ops[..|ops| - 1], entry, m);
      StatementConserves(ExecuteAll(db, ops[..|ops| - 1]).value, ops[|ops| - 1], entry, m);
    }
  }

  /** What the entry had and what the events add makes two lines or more, and balances. */
  predicate ComesOutEven(db: Db, events: seq<Event>, entry: Id) {
    && Figure(db.lines, entry, Lines) + Net(events, entry, Lines) >= 2
    && Figure(db.lines, entry, Debits) + Net(events, entry, Debits)
       == Figure(db.lines, entry, Credits) + Net(events, entry, Credits)
  }

  lemma SoundIsEven(db: Db, ops: seq<Op>, entry: Id)
    requires ExecuteAll(db, ops).Some?
    ensures var tx := ExecuteAll(db, ops).value;
            Sound(tx.db, entry)
            <==> (entry in tx.db.entries && tx.db.entries[entry] == "POSTED" ==> ComesOutEven(db, tx.events, entry))
  {
    TransactionConserves(db, ops, entry, Lines);
    TransactionConserves(db, ops, entry, Debits);
    TransactionConserves(db, ops, entry, Credits);
  }

  /**
  A transaction whose statements succeed commits if and only if every named entry that ends up POSTED
  comes out even.
  */
  lemma CommitsExactly(db: Db, ops: seq<Op>)
    requires ExecuteAll(db, ops).Some?
    ensures var tx := ExecuteAll(db, ops).value;
            Commits(db, ops)
            <==> forall entry :: Named(tx.events, entry) && entry in tx.db.entries && tx.db.entries[entry] == "POSTED"
                                 ==> ComesOutEven(db, tx.events, entry)
  {
    var tx := ExecuteAll(db, ops).value;
    ChecksCoverNamed(tx.db, tx.events);
    forall entry
      ensures Sound(tx.db, entry)
              <==> (entry in tx.db.entries && tx.db.entries[entry] == "POSTED" ==> ComesOutEven(db, tx.events, entry))
    {
      SoundIsEven(db, ops, entry);
    }
  }

  // ----- transactions of one statement -----

  lemma OneStatement(db: Db, op: Op)
    ensures ExecuteAll(db, [op]) == Execute(Tx(db, []), op)
  {
    assert [op][..0] == [];
  }

  /** With one event queued, the entry it names decides. */
  lemma OneEventDecides(db: Db, op: Op, e: Event)
    requires ExecuteAll(db, [op]).Some? && ExecuteAll(db, [op]).value.events == [e]
    ensures var tx := ExecuteAll(db, [op]).value;
            Commits(db, [op])
            <==> (Checked(e) in tx.db.entries && tx.db.entries[Checked(e)] == "POSTED"
                  ==> ComesOutEven(db, [e], Checked(e)))
  {
    CommitsExactly(db, [op]);
    assert [e][0] == e;
    assert forall entry :: Named([e], entry) <==> entry == Checked(e);
  }

  /** Posting an entry commits if and only if its lines balance and number two or more; then it is POSTED. */
  lemma PostingCommitsExactly(db: Db, entry: Id)
    requires entry in db.entries
    ensures var ops := [UpdateEntry(entry, "POSTED")];
            var own, after := LinesOf(db.lines, entry), Transact(db, ops);
            && (Commits(db, ops) <==> |own| >= 2 && Sum(own, Debit) == Sum(own, Credit))
            && (Commits(db, ops) ==> entry in after.entries && after.entries[entry] == "POSTED")
            && (!Commits(db, ops) ==> after == db)
  {
    var op, e := UpdateEntry(entry, "POSTED"), EntryWritten(entry);
    OneStatement(db, op);
    UpdateEntryEffect(Tx(db, []), entry, "POSTED");
    assert ExecuteAll(db, [op]).value.events == [e];
    OneEventDecides(db, op, e);
    forall m
      ensures Net([e], entry, m) == 0
    {
      NetOfOne(e, entry, m);
    }
  }

  /** A line added alone to a POSTED entry commits if and only if the entry has one already and balances with it. */
  lemma LineCommitsExactly(db: Db, row: Line)
    requires row.entry in db.entries
    ensures var own := LinesOf(db.lines, row.entry);
            Commits(db, [InsertLine(row)])
            <==> db.entries[row.entry] != "POSTED"
                 || (|own| >= 1 && Sum(own, Debit) + row.debit == Sum(own, Credit) + row.credit)
  {
    var op, e := InsertLine(row), LineInserted(row);
    OneStatement(db, op);
    InsertLineEffect(Tx(db, []), row);
    assert ExecuteAll(db, [op]).value.events == [e];
    OneEventDecides(db, op, e);
    NetOfOne(e, row.entry, Lines);
    NetOfOne(e, row.entry, Debits);
    NetOfOne(e, row.entry, Credits);
  }

  /** A DRAFT entry without lines cannot be posted. */
  lemma EmptyEntryCannotBePosted()
    ensures var db := Db(map[1 := "DRAFT"], []);
            !Commits(db, [UpdateEntry(1, "POSTED")]) && Transact(db, [UpdateEntry(1, "POSTED")]) == db
  {
    PostingCommitsExactly(Db(map[1 := "DRAFT"], []), 1);
  }
}
