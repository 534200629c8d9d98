/**
What each statement does to the document it is about, and what a transaction adds up to: the sum of a
document at commit is what it was, plus the new images of the queued events, less the old ones.
*/
module AllocationEffects {
  import opened Numbers
  import opened Options

  import opened AllocationCap

  // ----- the rows a statement may write -----

  /** The row points at this document and at no other. */
  ghost predicate OnlyTarget(a: Allocation, doc: Document) {
    PointsAt(a, doc) && forall other :: PointsAt(a, other) ==> other == doc
  }

  /** The XOR rule admits exactly the rows that point at one document. */
  lemma OneTargetMeansOne(a: Allocation)
    ensures OneTarget(a) <==> exists doc :: OnlyTarget(a, doc)
  {
    if OneTarget(a) {
      assert OnlyTarget(a, DocumentOf(a));
    }
    if doc :| OnlyTarget(a, doc) {
      assert a.invoiceId.Some? ==> PointsAt(a, Document(Invoice, a.invoiceId.value));
      assert a.creditNoteId.Some? ==> PointsAt(a, Document(CreditNote, a.creditNoteId.value));
      assert a.billId.Some? ==> PointsAt(a, Document(Bill, a.billId.value));
    }
  }

  ghost predicate Storable(db: Db, row: Allocation) {
    exists doc :: OnlyTarget(row, doc) && Exists(db, doc)
  }

  lemma StorableRow(db: Db, row: Allocation)
    ensures OneTarget(row) && TargetsExist(db, row) <==> Storable(db, row)
  {
    OneTargetMeansOne(row);
    if OneTarget(row) && TargetsExist(db, row) {
      assert OnlyTarget(row, DocumentOf(row)) && Exists(db, DocumentOf(row));
    }
  }

  /** Nothing about any document changed but what is allocated. */
  ghost predicate SameDocuments(before: Db, after: Db) {
    forall doc :: (Exists(after, doc) <==> Exists(before, doc))
                  && (Exists(before, doc) ==> Table(after, doc.kind)[doc.id] == Table(before, doc.kind)[doc.id])
  }

  function Share(a: Allocation, doc: Document): int {
    if PointsAt(a, doc) then a.amount else 0
  }

  // ----- row statements -----

  /** An insert is accepted exactly for a row with one existing target, and then stores the row. */
  lemma InsertEffect(tx: Tx, row: Allocation)
    ensures Execute(tx, Insert(row)).Some? <==> Storable(tx.db, row)
    ensures Execute(tx, Insert(row)).Some? ==>
      var after := Execute(tx, Insert(row)).value.db;
      && multiset(after.allocations) == multiset(tx.db.allocations) + multiset{row}
      && SameDocuments(tx.db, after)
      && forall doc :: Allocated(after.allocations, doc) == Allocated(tx.db.allocations, doc) + Share(row, doc)
  {
    StorableRow(tx.db, row);
    forall doc
      ensures Allocated(tx.db.allocations + [row], doc) == Allocated(tx.db.allocations, doc) + Share(row, doc)
    {
      AllocatedConcat(tx.db.allocations, [row], doc);
      AllocatedOne(row, doc);
    }
  }

  /** An update of a row that is there replaces it, in every sum. */
  lemma UpdateEffect(tx: Tx, at: nat, row: Allocation)
    requires at < |tx.db.allocations|
    ensures Execute(tx, Update(at, row)).Some? <==> Storable(tx.db, row)
    ensures Execute(tx, Update(at, row)).Some? ==>
      var after, was := Execute(tx, Update(at, row)).value.db, tx.db.allocations[at];
      && after.allocations[..at] == tx.db.allocations[..at]
      && after.allocations[at..] == [row] + tx.db.allocations[at + 1..]
      && SameDocuments(tx.db, after)
      && forall doc :: Allocated(after.allocations, doc)
                       == Allocated(tx.db.allocations, doc) - Share(was, doc) + Share(row, doc)
  {
    StorableRow(tx.db, row);
    var rows := tx.db.allocations;
    forall doc
      ensures Allocated(rows[at := row], doc) == Allocated(rows, doc) - Share(rows[at], doc) + Share(row, doc)
    {
      AllocatedSplit(rows, at, doc);
      AllocatedSplit(rows[at := row], at, doc);
      assert rows[at := row][..at] == rows[..at] && rows[at := row][at + 1..] == rows[at + 1..];
    }
  }

  /** A delete of a row that is there takes it out of every sum. */
  lemma DeleteEffect(tx: Tx, at: nat)
    requires at < |tx.db.allocations|
    ensures Execute(tx, Delete(at)).Some?
    ensures var after, was := Execute(tx, Delete(at)).value.db, tx.db.allocations[at];
            && multiset(after.allocations) + multiset{was} == multiset(tx.db.allocations)
            && SameDocuments(tx.db, after)
            && forall doc :: Allocated(after.allocations, doc) == Allocated(tx.db.allocations, doc) - Share(was, doc)
  {
    var rows := tx.db.allocations;
    assert rows == rows[..at] + [rows[at]] + rows[at + 1..];
    forall doc
      ensures Allocated(rows[..at] + rows[at + 1..], doc) == Allocated(rows, doc) - Share(rows[at], doc)
    {
      AllocatedSplit(rows, at, doc);
      AllocatedConcat(rows[..at], rows[at + 1..], doc);
    }
  }

  /** A statement that matches no row does nothing. */
  lemma NoMatchNoEffect(tx: Tx, op: Op)
    requires (op.Update? || op.Delete?) && op.at >= |tx.db.allocations|
    ensures Execute(tx, op) == Some(tx)
  {
  }

  // ----- document statements -----

  /** A new document is accepted exactly under an unused id, has its total, and leaves the others as they are. */
  lemma AddDocumentEffect(tx: Tx, doc: Document, total: int)
    ensures Execute(tx, AddDocument(doc, total)).Some? <==> forall d: Document :: d.id == doc.id ==> !Exists(tx.db, d)
    ensures Execute(tx, AddDocument(doc, total)).Some? ==>
      var after := Execute(tx, AddDocument(doc, total)).value.db;
      && after.allocations == tx.db.allocations
      && Exists(after, doc) && Table(after, doc.kind)[doc.id] == total
      && forall d :: d != doc ==> (Exists(after, d) <==> Exists(tx.db, d))
                                  && (Exists(after, d) ==> Table(after, d.kind)[d.id] == Table(tx.db, d.kind)[d.id])
  {
    assert UnusedId(tx.db, doc.id) <==> forall d: Document :: d.id == doc.id ==> !Exists(tx.db, d) by {
      if forall d: Document :: d.id == doc.id ==> !Exists(tx.db, d) {
        assert !Exists(tx.db, Document(Invoice, doc.id)) && !Exists(tx.db, Document(CreditNote, doc.id))
               && !Exists(tx.db, Document(Bill, doc.id));
      }
    }
    forall d: Document
      ensures var t := Table(tx.db, doc.kind)[doc.id := total];
              Table(WithTable(tx.db, doc.kind, t), d.kind) == if d.kind == doc.kind then t else Table(tx.db, d.kind)
    {
      TableOfWritten(tx.db, doc.kind, Table(tx.db, doc.kind)[doc.id := total], d.kind);
    }
  }

  /** A document is dropped exactly when no row points at it; the others stay as they are. */
  lemma DropDocumentEffect(tx: Tx, doc: Document)
    ensures Execute(tx, DropDocument(doc)).Some?
            <==> forall i :: 0 <= i < |tx.db.allocations| ==> !PointsAt(tx.db.allocations[i], doc)
    ensures Execute(tx, DropDocument(doc)).Some? ==>
      var after := Execute(tx, DropDocument(doc)).value.db;
      && after.allocations == tx.db.allocations
      && !Exists(after, doc)
      && forall d :: d != doc ==> (Exists(after, d) <==> Exists(tx.db, d))
                                  && (Exists(after, d) ==> Table(after, d.kind)[d.id] == Table(tx.db, d.kind)[d.id])
  {
    forall d: Document
      ensures var t := Table(tx.db, doc.kind) - {doc.id};
              Table(WithTable(tx.db, doc.kind, t), d.kind) == if d.kind == doc.kind then t else Table(tx.db, d.kind)
    {
      TableOfWritten(tx.db, doc.kind, Table(tx.db, doc.kind) - {doc.id}, d.kind);
    }
  }

  /** Writing a total always succeeds and changes that total of an existing document only. */
  lemma SetTotalEffect(tx: Tx, doc: Document, total: int)
    ensures Execute(tx, SetTotal(doc, total)).Some?
    ensures var after := Execute(tx, SetTotal(doc, total)).value.db;
            && after.allocations == tx.db.allocations
            && forall d :: (Exists(after, d) <==> Exists(tx.db, d))
                           && (Exists(after, d) ==> Table(after, d.kind)[d.id]
                                                    == if d == doc then total else Table(tx.db, d.kind)[d.id])
  {
    forall d: Document
      ensures var t := Table(tx.db, doc.kind)[doc.id := total];
              Table(WithTable(tx.db, doc.kind, t), d.kind) == if d.kind == doc.kind then t else Table(tx.db, d.kind)
    {
      TableOfWritten(tx.db, doc.kind, Table(tx.db, doc.kind)[doc.id := total], d.kind);
    }
  }

  // ----- conservation over a transaction -----

  function Change(e: Event, doc: Document): int {
    match e
    case Inserted(row) => Share(row, doc)
    case Updated(before, row) => Share(row, doc) - Share(before, doc)
    case Deleted(before) => -Share(before, doc)
  }

  /** What the queued events add to a document. */
  function Net(events: seq<Event>, doc: Document): int {
    if events == [] then 0 else Net(events[..|events| - 1], doc) + Change(events[|events| - 1], doc)
  }

  lemma NetOneMore(events: seq<Event>, e: Event, doc: Document)
    ensures Net(events + [e], doc) == Net(events, doc) + Change(e, doc)
  {
    assert (events + [e])[..|events|] == events;
  }

  lemma StatementConserves(tx: Tx, op: Op, doc: Document)
    requires Execute(tx, op).Some?
    ensures var tx' := Execute(tx, op).value;
            Allocated(tx'.db.allocations, doc) - Net(tx'.events, doc)
            == Allocated(tx.db.allocations, doc) - Net(tx.events, doc)
  {
    match op
    case Insert(row) =>
      InsertEffect(tx, row);
      NetOneMore(tx.events, Inserted(row), doc);
    case Update(at, row) =>
      if at < |tx.db.allocations| {
        UpdateEffect(tx, at, row);
        NetOneMore(tx.events, Updated(tx.db.allocations[at], row), doc);
      }
    case Delete(at) =>
      if at < |tx.db.allocations| {
        DeleteEffect(tx, at);
        NetOneMore(tx.events, Deleted(tx.db.allocations[at]), doc);
      }
    case AddDocument(d, total) => AddDocumentEffect(tx, d, total);
    case DropDocument(d) => DropDocumentEffect(tx, d);
    case SetTotal(d, total) => SetTotalEffect(tx, d, total);
  }

  /** What is allocated at the end is what was, and what the events add: nothing is lost on the way. */
  lemma {:induction false} TransactionConserves(db: Db, ops: seq<Op>, doc: Document)
    requires ExecuteAll(db, ops).Some?
    ensures var tx := ExecuteAll(db, ops).value;
            Allocated(tx.db.allocations, doc) == Allocated(db.allocations, doc) + Net(tx.events, doc)
  {
    if ops != [] {
      TransactionConserves(db, ops[..|ops| - 1], doc);
      StatementConserves(ExecuteAll(db, ops[..|ops| - 1]).value, ops[|ops| - 1], doc);
    }
  }

  /** What was allocated to the document and what the events add is within its final total. */
  predicate StaysWithin(db: Db, tx: Tx, doc: Document) {
    Exists(tx.db, doc) ==>
      Abs(Allocated(db.allocations, doc) + Net(tx.events, doc)) <= Abs(Table(tx.db, doc.kind)[doc.id])
  }

  /** A transaction whose statements succeed commits if and only if every document it names stays within its total. */
  lemma CommitsExactly(db: Db, ops: seq<Op>)
    requires WellFormed(db) && ExecuteAll(db, ops).Some?
    ensures var tx := ExecuteAll(db, ops).value;
            Commits(db, ops) <==> forall doc :: Named(tx.events, doc) ==> StaysWithin(db, tx, doc)
  {
    var tx := ExecuteAll(db, ops).value;
    TransactionKeepsConstraints(db, ops);
    ChecksCoverNamed(tx.db, tx.events);
    forall doc
      ensures Capped(tx.db, doc) <==> StaysWithin(db, tx, doc)
    {
      TransactionConserves(db, ops, doc);
    }
  }

  // ----- transactions of one statement -----

  lemma OneStatement(db: Db, op: Op)
    ensures ExecuteAll(db, [op]) == Execute(Tx(db, []), op)
  {
    assert [op][..0] == [];
  }

  lemma NetOfOne(e: Event, doc: Document)
    ensures Net([e], doc) == Change(e, doc)
  {
    assert [e][..0] == [];
  }

  /** With one event queued that names one document, that document decides. */
  lemma OneDocumentDecides(db: Db, op: Op, e: Event, doc: Document)
    requires WellFormed(db) && ExecuteAll(db, [op]).Some? && ExecuteAll(db, [op]).value.events == [e]
    requires forall d :: Names(e, d) <==> d == doc
    ensures Commits(db, [op]) <==> StaysWithin(db, ExecuteAll(db, [op]).value, doc)
  {
    CommitsExactly(db, [op]);
    assert [e][0] == e;
    assert forall d :: Named([e], d) <==> d == doc;
  }

  /**
  A single insert commits if and only if the sum with it is within the total; then the row counts, else
  nothing changes.
  */
  lemma InsertCommitsExactly(db: Db, row: Allocation, doc: Document)
    requires WellFormed(db) && OnlyTarget(row, doc) && Exists(db, doc)
    ensures var sum, after := Allocated(db.allocations, doc) + row.amount, Transact(db, [Insert(row)]);
            && (Commits(db, [Insert(row)]) <==> Abs(sum) <= Abs(Table(db, doc.kind)[doc.id]))
            && (Commits(db, [Insert(row)]) ==> Allocated(after.allocations, doc) == sum)
            && (!Commits(db, [Insert(row)]) ==> after == db)
  {
    var op, e := Insert(row), Inserted(row);
    OneStatement(db, op);
    InsertEffect(Tx(db, []), row);
    assert Storable(db, row);
    assert ExecuteAll(db, [op]).value.events == [e];
    OneDocumentDecides(db, op, e, doc);
    NetOfOne(e, doc);
  }

  /** An invoice of 100 does not take an allocation of 150. */
  lemma OverAllocationFails()
    ensures var db := Db([], map[1 := 100], map[], map[]);
            var row := Allocation(Some(1), None, None, 150);
            !Commits(db, [Insert(row)]) && Transact(db, [Insert(row)]) == db
  {
    var db := Db([], map[1 := 100], map[], map[]);
    var row := Allocation(Some(1), None, None, 150);
    InsertCommitsExactly(db, row, Document(Invoice, 1));
  }
}
