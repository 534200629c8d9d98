/**
Payment allocations under the deferred cap trigger. A transaction is a sequence of row operations
that queues one trigger event per touched allocation; at commit every queued event is checked
against the final tables, and one failure undoes the whole transaction. Amounts are cents.
*/
module AllocationCap {
  import opened Numbers
  import opened Options

  type Id = int

  datatype Kind = Invoice | CreditNote | Bill

  datatype Document = Document(kind: Kind, id: Id)

  datatype Allocation =
    Allocation(invoiceId: Option<Id>, creditNoteId: Option<Id>, billId: Option<Id>, amount: int)

  datatype Db = Db(allocations: seq<Allocation>, invoices: map<Id, int>, creditNotes: map<Id, int>, bills: map<Id, int>)

  function Table(db: Db, kind: Kind): map<Id, int> {
    match kind
    case Invoice => db.invoices
    case CreditNote => db.creditNotes
    case Bill => db.bills
  }

  function WithTable(db: Db, kind: Kind, table: map<Id, int>): Db {
    match kind
    case Invoice => db.(invoices := table)
    case CreditNote => db.(creditNotes := table)
    case Bill => db.(bills := table)
  }

  /** The XOR constraint: exactly one target column is set. */
  predicate OneTarget(a: Allocation) {
    (if a.invoiceId.Some? then 1 else 0) + (if a.creditNoteId.Some? then 1 else 0)
    + (if a.billId.Some? then 1 else 0) == 1
  }

  /** COALESCE of the three target columns. */
  function Coalesce(a: Allocation): Option<Id> {
    if a.invoiceId.Some? then a.invoiceId else if a.creditNoteId.Some? then a.creditNoteId else a.billId
  }

  predicate PointsAt(a: Allocation, doc: Document) {
    match doc.kind
    case Invoice => a.invoiceId == Some(doc.id)
    case CreditNote => a.creditNoteId == Some(doc.id)
    case Bill => a.billId == Some(doc.id)
  }

  predicate SameTargets(a: Allocation, b: Allocation) {
    a.invoiceId == b.invoiceId && a.creditNoteId == b.creditNoteId && a.billId == b.billId
  }

  // ----- sums -----

  /** What the trigger sums: the rows whose coalesced target is this id, of whichever kind. */
  function CoalescedSum(rows: seq<Allocation>, id: Id): int {
    if rows == [] then 0
    else
      var last := rows[|rows| - 1];
      CoalescedSum(rows[..|rows| - 1], id) + (if Coalesce(last) == Some(id) then last.amount else 0)
  }

  /** What is really allocated to one document. */
  function Allocated(rows: seq<Allocation>, doc: Document): int {
    if rows == [] then 0
    else
      var last := rows[|rows| - 1];
      Allocated(rows[..|rows| - 1], doc) + (if PointsAt(last, doc) then last.amount else 0)
  }

  // ----- the trigger -----

  /** The trigger's check for the target columns of one row image: true when it does not raise. */
  predicate CapHolds(db: Db, a: Allocation) {
    if a.invoiceId.Some? then
      a.invoiceId.value in db.invoices
      ==> Abs(CoalescedSum(db.allocations, a.invoiceId.value)) <= Abs(db.invoices[a.invoiceId.value])
    else if a.creditNoteId.Some? then
      a.creditNoteId.value in db.creditNotes
      ==> Abs(CoalescedSum(db.allocations, a.creditNoteId.value)) <= Abs(db.creditNotes[a.creditNoteId.value])
    else if a.billId.Some? then
      a.billId.value in db.bills
      ==> Abs(CoalescedSum(db.allocations, a.billId.value)) <= Abs(db.bills[a.billId.value])
    else true
  }

  datatype Event =
    | Inserted(row: Allocation)
    | Updated(before: Allocation, row: Allocation)
    | Deleted(before: Allocation)

  predicate EventPasses(db: Db, e: Event) {
    match e
    case Deleted(before) => CapHolds(db, before)
    case Inserted(row) => CapHolds(db, row)
    case Updated(before, row) => CapHolds(db, row) && (!SameTargets(before, row) ==> CapHolds(db, before))
  }

  predicate AllPass(db: Db, events: seq<Event>) {
    forall i :: 0 <= i < |events| ==> EventPasses(db, events[i])
  }

  /** The event is about a row that points, or pointed, at the document. */
  predicate Names(e: Event, doc: Document) {
    match e
    case Deleted(before) => PointsAt(before, doc)
    case Inserted(row) => PointsAt(row, doc)
    case Updated(before, row) => PointsAt(row, doc) || PointsAt(before, doc)
  }

  predicate Named(events: seq<Event>, doc: Document) {
    exists i :: 0 <= i < |events| && Names(events[i], doc)
  }

  // ----- transactions -----

  /** A row is addressed by its position. A position that is not there matches no row. */
  datatype Op =
    | Insert(row: Allocation)
    | Update(at: nat, row: Allocation)
    | Delete(at: nat)
    | AddDocument(doc: Document, total: int)
    | DropDocument(doc: Document)
    | SetTotal(doc: Document, total: int)

  datatype Tx = Tx(db: Db, events: seq<Event>)

  predicate Exists(db: Db, doc: Document) {
    doc.id in Table(db, doc.kind)
  }

  predicate TargetsExist(db: Db, a: Allocation) {
    && (a.invoiceId.Some? ==> a.invoiceId.value in db.invoices)
    && (a.creditNoteId.Some? ==> a.creditNoteId.value in db.creditNotes)
    && (a.billId.Some? ==> a.billId.value in db.bills)
  }

  predicate UnusedId(db: Db, id: Id) {
    id !in db.invoices && id !in db.creditNotes && id !in db.bills
  }

  predicate Referenced(db: Db, doc: Document) {
    exists i :: 0 <= i < |db.allocations| && PointsAt(db.allocations[i], doc)
  }

  /** One statement. None is a constraint error, which aborts the transaction. */
  function Execute(tx: Tx, op: Op): Option<Tx> {
    var db := tx.db;
    var rows := db.allocations;
    match op
    case Insert(row) =>
      if OneTarget(row) && TargetsExist(db, row)
      then Some(Tx(db.(allocations := rows + [row]), tx.events + [Inserted(row)]))
      else None
    case Update(at, row) =>
      if at >= |rows| then Some(tx)
      else if OneTarget(row) && TargetsExist(db, row)
      then Some(Tx(db.(allocations := rows[at := row]), tx.events + [Updated(rows[at], row)]))
      else None
    case Delete(at) =>
      if at >= |rows| then Some(tx)
      else Some(Tx(db.(allocations := rows[..at] + rows[at + 1..]), tx.events + [Deleted(rows[at])]))
    case AddDocument(doc, total) =>
      if UnusedId(db, doc.id)
      then Some(tx.(db := WithTable(db, doc.kind, Table(db, doc.kind)[doc.id := total])))
      else None
    case DropDocument(doc) =>
      if Referenced(db, doc) then None
      else Some(tx.(db := WithTable(db, doc.kind, Table(db, doc.kind) - {doc.id})))
    case SetTotal(doc, total) =>
      if Exists(db, doc) then Some(tx.(db := WithTable(db, doc.kind, Table(db, doc.kind)[doc.id := total])))
      else Some(tx)
  }

  function ExecuteAll(db: Db, ops: seq<Op>): Option<Tx> {
    if ops == [] then Some(Tx(db, []))
    else
      match ExecuteAll(db, ops[..|ops| - 1])
      case None => None
      case Some(tx) => Execute(tx, ops[|ops| - 1])
  }

  /** The tables after BEGIN; ops; COMMIT. */
  function Transact(db: Db, ops: seq<Op>): Db {
    match ExecuteAll(db, ops)
    case None => db
    case Some(tx) => if AllPass(tx.db, tx.events) then tx.db else db
  }

  /** Every statement and every queued check passes. */
  predicate Commits(db: Db, ops: seq<Op>) {
    var tx := ExecuteAll(db, ops);
    tx.Some? && AllPass(tx.value.db, tx.value.events)
  }

  // ----- what is to be kept -----

  predicate Capped(db: Db, doc: Document) {
    Exists(db, doc) ==> Abs(Allocated(db.allocations, doc)) <= Abs(Table(db, doc.kind)[doc.id])
  }

  ghost predicate AllCapped(db: Db) {
    forall doc :: Capped(db, doc)
  }

  /** The constraints that hold at every moment: XOR, foreign keys, and ids that are unique across the tables. */
  ghost predicate WellFormed(db: Db) {
    && (forall i :: 0 <= i < |db.allocations| ==> OneTarget(db.allocations[i]) && TargetsExist(db, db.allocations[i]))
    && db.invoices.Keys !! db.creditNotes.Keys
    && db.invoices.Keys !! db.bills.Keys
    && db.creditNotes.Keys !! db.bills.Keys
  }

  /** The transaction writes the document's total directly. */
  predicate Repriced(ops: seq<Op>, doc: Document) {
    exists i :: 0 <= i < |ops| && ops[i].SetTotal? && ops[i].doc == doc
  }

  // ----- sums under row operations -----

  lemma {:induction false} AllocatedConcat(a: seq<Allocation>, b: seq<Allocation>, doc: Document)
    ensures Allocated(a + b, doc) == Allocated(a, doc) + Allocated(b, doc)
  {
    if b == [] {
      assert a + b == a;
    } else {
      AllocatedConcat(a, b[..|b| - 1], doc);
      assert (a + b)[..|a + b| - 1] == a + b[..|b| - 1];
    }
  }

  lemma AllocatedOne(row: Allocation, doc: Document)
    ensures Allocated([row], doc) == if PointsAt(row, doc) then row.amount else 0
  {
    assert [row][..0] == [];
  }

  lemma AllocatedSplit(rows: seq<Allocation>, at: nat, doc: Document)
    requires at < |rows|
    ensures Allocated(rows, doc)
            == Allocated(rows[..at], doc) + (if PointsAt(rows[at], doc) then rows[at].amount else 0)
               + Allocated(rows[at + 1..], doc)
  {
    assert rows == rows[..at] + ([rows[at]] + rows[at + 1..]);
    AllocatedConcat(rows[..at], [rows[at]] + rows[at + 1..], doc);
    AllocatedConcat([rows[at]], rows[at + 1..], doc);
    AllocatedOne(rows[at], doc);
  }

  lemma {:induction false} NothingAllocated(rows: seq<Allocation>, doc: Document)
    requires forall i :: 0 <= i < |rows| ==> !PointsAt(rows[i], doc)
    ensures Allocated(rows, doc) == 0
  {
    if rows != [] {
      NothingAllocated(rows[..|rows| - 1], doc);
    }
  }

  /** Under the constraints, the trigger's coalesced sum is the sum for the one document with that id. */
  lemma {:induction false} CoalescedIsAllocated(rows: seq<Allocation>, db: Db, doc: Document)
    requires WellFormed(db.(allocations := rows)) && Exists(db, doc)
    ensures CoalescedSum(rows, doc.id) == Allocated(rows, doc)
  {
    if rows != [] {
      var last := rows[|rows| - 1];
      assert OneTarget(last) && TargetsExist(db, last);
      CoalescedIsAllocated(rows[..|rows| - 1], db, doc);
    }
  }

  /** The check of a row image is the cap of the document it points at. */
  lemma CheckIsCap(db: Db, a: Allocation, doc: Document)
    requires WellFormed(db) && OneTarget(a) && PointsAt(a, doc)
    ensures CapHolds(db, a) <==> Capped(db, doc)
  {
    if Exists(db, doc) {
      assert db.(allocations := db.allocations) == db;
      CoalescedIsAllocated(db.allocations, db, doc);
    }
  }

  // ----- the frame -----

  ghost predicate EventsWellFormed(events: seq<Event>) {
    forall i :: 0 <= i < |events| ==>
      && (!events[i].Deleted? ==> OneTarget(events[i].row))
      && (!events[i].Inserted? ==> OneTarget(events[i].before))
  }

  predicate ChangesRows(op: Op) {
    op.Insert? || op.Update? || op.Delete?
  }

  /** A row operation leaves the document tables alone. */
  lemma RowsKeepConstraints(tx: Tx, op: Op)
    requires WellFormed(tx.db) && EventsWellFormed(tx.events) && Execute(tx, op).Some? && ChangesRows(op)
    ensures WellFormed(Execute(tx, op).value.db) && EventsWellFormed(Execute(tx, op).value.events)
  {
    var db, db' := tx.db, Execute(tx, op).value.db;
    assert db' == db.(allocations := db'.allocations);
    forall i | 0 <= i < |db'.allocations|
      ensures OneTarget(db'.allocations[i]) && TargetsExist(db, db'.allocations[i])
    {
      assert db'.allocations[i] in db.allocations || (!op.Delete? && db'.allocations[i] == op.row);
    }
  }

  /** A document operation leaves the rows alone, and takes no document that a row points at. */
  lemma DocumentsKeepConstraints(tx: Tx, op: Op)
    requires WellFormed(tx.db) && Execute(tx, op).Some? && !ChangesRows(op)
    ensures WellFormed(Execute(tx, op).value.db) && Execute(tx, op).value.events == tx.events
  {
    var db, db' := tx.db, Execute(tx, op).value.db;
    forall i | 0 <= i < |db.allocations|
      ensures OneTarget(db.allocations[i]) && TargetsExist(db', db.allocations[i])
    {
      assert OneTarget(db.allocations[i]) && TargetsExist(db, db.allocations[i]);
      if op.DropDocument? {
        assert !PointsAt(db.allocations[i], op.doc);
      }
    }
  }

  lemma StatementKeepsConstraints(tx: Tx, op: Op)
    requires WellFormed(tx.db) && EventsWellFormed(tx.events) && Execute(tx, op).Some?
    ensures WellFormed(Execute(tx, op).value.db) && EventsWellFormed(Execute(tx, op).value.events)
  {
    if ChangesRows(op) {
      RowsKeepConstraints(tx, op);
    } else {
      DocumentsKeepConstraints(tx, op);
    }
  }

  lemma EarlierEvents(events: seq<Event>, more: seq<Event>, doc: Document)
    requires events <= more && !Named(more, doc)
    ensures !Named(events, doc)
    ensures |events| < |more| ==> !Names(more[|events|], doc)
  {
    assert forall i :: 0 <= i < |events| ==> events[i] == more[i];
  }

  lemma UpdateFrame(rows: seq<Allocation>, at: nat, row: Allocation, doc: Document)
    requires at < |rows| && !PointsAt(rows[at], doc) && !PointsAt(row, doc)
    ensures Allocated(rows[at := row], doc) == Allocated(rows, doc)
  {
    AllocatedSplit(rows, at, doc);
    AllocatedSplit(rows[at := row], at, doc);
    assert rows[at := row][..at] == rows[..at] && rows[at := row][at + 1..] == rows[at + 1..];
  }

  lemma DeleteFrame(rows: seq<Allocation>, at: nat, doc: Document)
    requires at < |rows| && !PointsAt(rows[at], doc)
    ensures Allocated(rows[..at] + rows[at + 1..], doc) == Allocated(rows, doc)
  {
    AllocatedSplit(rows, at, doc);
    AllocatedConcat(rows[..at], rows[at + 1..], doc);
  }

  /** A statement whose event does not name a document leaves its sum alone. */
  lemma StatementFrame(tx: Tx, op: Op, doc: Document)
    requires Execute(tx, op).Some?
    requires !Named(Execute(tx, op).value.events, doc)
    ensures !Named(tx.events, doc)
    ensures Allocated(Execute(tx, op).value.db.allocations, doc) == Allocated(tx.db.allocations, doc)
  {
    var rows := tx.db.allocations;
    EarlierEvents(tx.events, Execute(tx, op).value.events, doc);
    match op
    case Insert(row) =>
      AllocatedConcat(rows, [row], doc);
      AllocatedOne(row, doc);
    case Update(at, row) =>
      if at < |rows| { UpdateFrame(rows, at, row, doc); }
    case Delete(at) =>
      if at < |rows| { DeleteFrame(rows, at, doc); }
    case _ =>
  }

  lemma TableOfWritten(db: Db, kind: Kind, table: map<Id, int>, other: Kind)
    ensures Table(WithTable(db, kind, table), other) == if other == kind then table else Table(db, other)
  {
  }

  /** A document with allocations has been there before the statement, and has the total it had or the one written. */
  lemma StatementTotals(tx: Tx, op: Op, doc: Document)
    requires WellFormed(tx.db) && Execute(tx, op).Some?
    requires Exists(Execute(tx, op).value.db, doc) && Allocated(tx.db.allocations, doc) != 0
    ensures Exists(tx.db, doc)
    ensures Table(Execute(tx, op).value.db, doc.kind)[doc.id]
            == if op.SetTotal? && op.doc == doc then op.total else Table(tx.db, doc.kind)[doc.id]
  {
    AllocatedExists(tx.db, doc);
    match op
    case AddDocument(d, total) =>
      TableOfWritten(tx.db, d.kind, Table(tx.db, d.kind)[d.id := total], doc.kind);
    case DropDocument(d) =>
      TableOfWritten(tx.db, d.kind, Table(tx.db, d.kind) - {d.id}, doc.kind);
    case SetTotal(d, total) =>
      TableOfWritten(tx.db, d.kind, Table(tx.db, d.kind)[d.id := total], doc.kind);
    case _ =>
  }

  /** Foreign keys: a document with allocations exists. */
  lemma AllocatedExists(db: Db, doc: Document)
    requires WellFormed(db) && Allocated(db.allocations, doc) != 0
    ensures Exists(db, doc)
  {
    if forall i :: 0 <= i < |db.allocations| ==> !PointsAt(db.allocations[i], doc) {
      NothingAllocated(db.allocations, doc);
    }
  }

  /** The last total that the statements write for the document, or the one before. */
  function TotalAfter(ops: seq<Op>, doc: Document, before: int): int {
    if ops == [] then before
    else
      var last := ops[|ops| - 1];
      if last.SetTotal? && last.doc == doc then last.total else TotalAfter(ops[..|ops| - 1], doc, before)
  }

  lemma {:induction false} UnrepricedTotal(ops: seq<Op>, doc: Document, before: int)
    requires !Repriced(ops, doc)
    ensures TotalAfter(ops, doc, before) == before
  {
    if ops != [] {
      var n := |ops| - 1;
      assert forall i :: 0 <= i < n ==> ops[..n][i] == ops[i];
      assert !(ops[n].SetTotal? && ops[n].doc == doc);
      UnrepricedTotal(ops[..n], doc, before);
    }
  }

  /**
  A document that no event names keeps its sum; if anything is allocated to it, its total is the last
  one written.
  */
  lemma {:induction false} TransactionFrame(db: Db, ops: seq<Op>, doc: Document)
    requires WellFormed(db) && ExecuteAll(db, ops).Some? && !Named(ExecuteAll(db, ops).value.events, doc)
    ensures var db' := ExecuteAll(db, ops).value.db;
            && Allocated(db'.allocations, doc) == Allocated(db.allocations, doc)
            && (Allocated(db.allocations, doc) != 0 ==>
                  && Exists(db, doc) && Exists(db', doc)
                  && Table(db', doc.kind)[doc.id] == TotalAfter(ops, doc, Table(db, doc.kind)[doc.id]))
  {
    if Allocated(db.allocations, doc) != 0 {
      AllocatedExists(db, doc);
    }
    if ops != [] {
      var n := |ops| - 1;
      var tx, tx' := ExecuteAll(db, ops[..n]).value, ExecuteAll(db, ops).value;
      StatementFrame(tx, ops[n], doc);
      TransactionFrame(db, ops[..n], doc);
      if Allocated(db.allocations, doc) != 0 {
        TransactionKeepsConstraints(db, ops[..n]);
        TransactionKeepsConstraints(db, ops);
        AllocatedExists(tx'.db, doc);
        StatementTotals(tx, ops[n], doc);
      }
    }
  }

  /** What is allocated to the document beforehand is within the total that the transaction leaves it. */
  predicate StillCovered(db: Db, ops: seq<Op>, doc: Document) {
    Exists(db, doc) ==>
      Abs(Allocated(db.allocations, doc)) <= Abs(TotalAfter(ops, doc, Table(db, doc.kind)[doc.id]))
  }

  /** A document that no event names ends up capped exactly when its old allocations are within its new total. */
  lemma UnnamedCapped(db: Db, ops: seq<Op>, doc: Document)
    requires WellFormed(db) && ExecuteAll(db, ops).Some? && !Named(ExecuteAll(db, ops).value.events, doc)
    ensures Capped(ExecuteAll(db, ops).value.db, doc) <==> StillCovered(db, ops, doc)
    ensures !Repriced(ops, doc) && Capped(db, doc) ==> StillCovered(db, ops, doc)
  {
    TransactionFrame(db, ops, doc);
    if !Repriced(ops, doc) && Exists(db, doc) {
      UnrepricedTotal(ops, doc, Table(db, doc.kind)[doc.id]);
    }
  }

  lemma {:induction false} TransactionKeepsConstraints(db: Db, ops: seq<Op>)
    requires WellFormed(db) && ExecuteAll(db, ops).Some?
    ensures WellFormed(ExecuteAll(db, ops).value.db) && EventsWellFormed(ExecuteAll(db, ops).value.events)
  {
    if ops != [] {
      TransactionKeepsConstraints(db, ops[..|ops| - 1]);
      StatementKeepsConstraints(ExecuteAll(db, ops[..|ops| - 1]).value, ops[|ops| - 1]);
    }
  }

  // ----- the main results -----

  /** The queued checks pass exactly when every named document is within its cap in the final tables. */
  lemma ChecksCoverNamed(db: Db, events: seq<Event>)
    requires WellFormed(db) && EventsWellFormed(events)
    ensures AllPass(db, events) <==> forall doc :: Named(events, doc) ==> Capped(db, doc)
  {
    if AllPass(db, events) {
      forall doc | Named(events, doc)
        ensures Capped(db, doc)
      {
        var i :| 0 <= i < |events| && Names(events[i], doc);
        assert EventPasses(db, events[i]);
        PassIsCap(db, events[i], doc);
      }
    }
    if forall doc :: Named(events, doc) ==> Capped(db, doc) {
      forall i | 0 <= i < |events|
        ensures EventPasses(db, events[i])
      {
        var e := events[i];
        if !e.Inserted? {
          var doc := DocumentOf(e.before);
          assert Names(e, doc);
          CheckIsCap(db, e.before, doc);
        }
        if !e.Deleted? {
          var doc := DocumentOf(e.row);
          assert Names(e, doc);
          CheckIsCap(db, e.row, doc);
        }
      }
    }
  }

  function DocumentOf(a: Allocation): (doc: Document)
    requires OneTarget(a)
    ensures PointsAt(a, doc)
  {
    if a.invoiceId.Some? then Document(Invoice, a.invoiceId.value)
    else if a.creditNoteId.Some? then Document(CreditNote, a.creditNoteId.value)
    else Document(Bill, a.billId.value)
  }

  lemma PassIsCap(db: Db, e: Event, doc: Document)
    requires WellFormed(db) && EventsWellFormed([e]) && EventPasses(db, e) && Names(e, doc)
    ensures Capped(db, doc)
  {
    assert [e][0] == e;
    if !e.Deleted? && PointsAt(e.row, doc) {
      CheckIsCap(db, e.row, doc);
    } else {
      CheckIsCap(db, e.before, doc);
    }
  }

  /**
  From capped tables, a transaction that passes its queued checks leaves every document capped, named
  or not, if and only if each total it wrote for an unnamed document covers what was allocated to that
  document before the transaction.
  */
  lemma CommitKeepsCaps(db: Db, ops: seq<Op>)
    requires WellFormed(db) && AllCapped(db) && ExecuteAll(db, ops).Some?
    requires var tx := ExecuteAll(db, ops).value; AllPass(tx.db, tx.events)
    ensures AllCapped(Transact(db, ops))
            <==> forall doc :: Repriced(ops, doc) && !Named(ExecuteAll(db, ops).value.events, doc)
                               ==> StillCovered(db, ops, doc)
  {
    var tx := ExecuteAll(db, ops).value;
    TransactionKeepsConstraints(db, ops);
    ChecksCoverNamed(tx.db, tx.events);
    forall doc | !Named(tx.events, doc)
      ensures Capped(tx.db, doc) <==> StillCovered(db, ops, doc)
      ensures !Repriced(ops, doc) ==> StillCovered(db, ops, doc)
    {
      UnnamedCapped(db, ops, doc);
      assert Capped(db, doc);
    }
  }

  /**
  Without direct writes of totals, the deferred per-row checks decide exactly as a check of every
  document would: they pass if and only if the final tables are capped everywhere.
  */
  lemma DeferredChecksAreGlobal(db: Db, ops: seq<Op>)
    requires WellFormed(db) && AllCapped(db) && ExecuteAll(db, ops).Some?
    requires forall doc :: !Repriced(ops, doc)
    ensures var tx := ExecuteAll(db, ops).value; AllPass(tx.db, tx.events) <==> AllCapped(tx.db)
  {
    var tx := ExecuteAll(db, ops).value;
    TransactionKeepsConstraints(db, ops);
    ChecksCoverNamed(tx.db, tx.events);
    if AllPass(tx.db, tx.events) {
      CommitKeepsCaps(db, ops);
    }
  }

  /** So no sequence of transactions that leaves totals alone ever over-allocates a document. */
  lemma {:induction false} NeverOverAllocated(db: Db, history: seq<seq<Op>>)
    requires WellFormed(db) && AllCapped(db)
    requires forall i, doc :: 0 <= i < |history| ==> !Repriced(history[i], doc)
    ensures WellFormed(AfterAll(db, history)) && AllCapped(AfterAll(db, history))
  {
    if history != [] {
      var n := |history| - 1;
      NeverOverAllocated(db, history[..n]);
      var before := AfterAll(db, history[..n]);
      if ExecuteAll(before, history[n]).Some? {
        TransactionKeepsConstraints(before, history[n]);
        DeferredChecksAreGlobal(before, history[n]);
      }
    }
  }

  function AfterAll(db: Db, history: seq<seq<Op>>): Db {
    if history == [] then db else Transact(AfterAll(db, history[..|history| - 1]), history[|history| - 1])
  }

  /** Writing a total always commits, and keeps the cap exactly when the new total covers the allocations. */
  lemma RepricingIsUnchecked(db: Db, doc: Document, total: int)
    requires WellFormed(db) && AllCapped(db) && Exists(db, doc)
    ensures var after := Transact(db, [SetTotal(doc, total)]);
            && Exists(after, doc) && Table(after, doc.kind)[doc.id] == total
            && (AllCapped(after) <==> Abs(Allocated(db.allocations, doc)) <= Abs(total))
  {
    var ops := [SetTotal(doc, total)];
    assert ops[..0] == [] && ExecuteAll(db, ops) == Execute(Tx(db, []), ops[0]);
    var tx := ExecuteAll(db, ops).value;
    assert tx.events == [];
    CommitKeepsCaps(db, ops);
    assert ops[0].doc == doc && Repriced(ops, doc);
    assert forall d :: Repriced(ops, d) ==> d == doc;
  }

  /** An invoice of 100 with 100 allocated, repriced to 50: the transaction commits over-allocated. */
  lemma RepricedBelowAllocations()
    ensures var invoice := Document(Invoice, 1);
            var row := Allocation(Some(1), None, None, 100);
            var db := Db([row], map[1 := 100], map[], map[]);
            && WellFormed(db) && AllCapped(db)
            && !AllCapped(Transact(db, [SetTotal(invoice, 50)]))
  {
    var invoice := Document(Invoice, 1);
    var row := Allocation(Some(1), None, None, 100);
    var db := Db([row], map[1 := 100], map[], map[]);
    forall doc
      ensures Allocated([row], doc) == if doc == invoice then 100 else 0
    {
      AllocatedOne(row, doc);
    }
    assert db.allocations == [row];
    RepricingIsUnchecked(db, invoice, 50);
  }
}
