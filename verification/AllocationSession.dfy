/**
The allocation tables as a session changes them in place, with the trigger functions as the
procedures they are, and the report of documents that are already over-allocated.
*/
module AllocationSession {
  import opened Numbers
  import opened Options

  import opened AllocationCap

  /** PERFORM check_allocation_cap: looks the document up, sums its rows, compares. */
  method CheckAllocationCap(db: Db, invoiceId: Option<Id>, creditNoteId: Option<Id>, billId: Option<Id>)
    returns (raised: bool)
    ensures raised <==> !CapHolds(db, Allocation(invoiceId, creditNoteId, billId, 0))
  {
    var total: Option<int> := None;
    var id;
    if invoiceId.Some? {
      id := invoiceId.value;
      if id in db.invoices { total := Some(db.invoices[id]); }
    } else if creditNoteId.Some? {
      id := creditNoteId.value;
      if id in db.creditNotes { total := Some(db.creditNotes[id]); }
    } else if billId.Some? {
      id := billId.value;
      if id in db.bills { total := Some(db.bills[id]); }
    } else {
      return false;
    }
    if total.None? {
      return false;
    }
    var sum := SumRows(db.allocations, id);
    raised := Abs(sum) > Abs(total.value);
  }

  /** SELECT COALESCE(SUM(amount), 0) over the rows of one coalesced id. */
  method SumRows(rows: seq<Allocation>, id: Id) returns (sum: int)
    ensures sum == CoalescedSum(rows, id)
  {
    sum := 0;
    var i := 0;
    while i < |rows|
      invariant 0 <= i <= |rows|
      invariant sum == CoalescedSum(rows[..i], id)
    {
      assert rows[..i + 1][..i] == rows[..i];
      if Coalesce(rows[i]) == Some(id) {
        sum := sum + rows[i].amount;
      }
      i := i + 1;
    }
    assert rows[..i] == rows;
  }

  /** The row-level trigger for one queued event. */
  method FireTrigger(db: Db, e: Event) returns (raised: bool)
    ensures raised <==> !EventPasses(db, e)
  {
    match e {
      case Deleted(before) =>
        raised := CheckAllocationCap(db, before.invoiceId, before.creditNoteId, before.billId);
      case Inserted(row) =>
        raised := CheckAllocationCap(db, row.invoiceId, row.creditNoteId, row.billId);
      case Updated(before, row) =>
        raised := CheckAllocationCap(db, row.invoiceId, row.creditNoteId, row.billId);
        if !raised && !SameTargets(before, row) {
          raised := CheckAllocationCap(db, before.invoiceId, before.creditNoteId, before.billId);
        }
    }
  }

  /** Documents over their cap: group the rows by coalesced id, join the totals, keep the excesses. */
  method ViolationReport(db: Db) returns (over: set<Id>)
    ensures WellFormed(db) ==> forall doc :: Exists(db, doc) ==> (doc.id in over <==> !Capped(db, doc))
    ensures forall id :: id in over ==> !UnusedId(db, id)
  {
    var perDoc := GroupByTarget(db.allocations);
    over := set id | id in perDoc
                     && ((id in db.invoices && Abs(perDoc[id]) > Abs(db.invoices[id]))
                         || (id in db.creditNotes && Abs(perDoc[id]) > Abs(db.creditNotes[id]))
                         || (id in db.bills && Abs(perDoc[id]) > Abs(db.bills[id])));
    if WellFormed(db) {
      forall doc | Exists(db, doc)
        ensures doc.id in over <==> !Capped(db, doc)
      {
        assert db.(allocations := db.allocations) == db;
        CoalescedIsAllocated(db.allocations, db, doc);
      }
    }
  }

  method GroupByTarget(rows: seq<Allocation>) returns (perDoc: map<Id, int>)
    ensures forall id :: id in perDoc ==> perDoc[id] == CoalescedSum(rows, id)
    ensures forall id :: id !in perDoc ==> CoalescedSum(rows, id) == 0
  {
    perDoc := map[];
    var i := 0;
    while i < |rows|
      invariant 0 <= i <= |rows|
      invariant forall id :: id in perDoc ==> perDoc[id] == CoalescedSum(rows[..i], id)
      invariant forall id :: id !in perDoc ==> CoalescedSum(rows[..i], id) == 0
    {
      assert rows[..i + 1][..i] == rows[..i];
      var target := Coalesce(rows[i]);
      if target.Some? {
        var sum := if target.value in perDoc then perDoc[target.value] else 0;
        perDoc := perDoc[target.value := sum + rows[i].amount];
      }
      i := i + 1;
    }
    assert rows[..i] == rows;
  }

  class Session {
    var allocations: seq<Allocation>
    var invoices: map<Id, int>
    var creditNotes: map<Id, int>
    var bills: map<Id, int>
    var events: seq<Event>
    var saved: Db

    function Tables(): Db
      reads this
    {
      Db(allocations, invoices, creditNotes, bills)
    }

    constructor (db: Db)
      ensures Tables() == db && saved == db && events == []
    {
      allocations, invoices, creditNotes, bills := db.allocations, db.invoices, db.creditNotes, db.bills;
      saved, events := db, [];
    }

    method Begin()
      modifies this`saved, this`events
      ensures saved == Tables() && events == []
    {
      saved, events := Tables(), [];
    }

    /** Undo everything since Begin. */
    method Rollback()
      modifies this
      ensures Tables() == saved == old(saved) && events == []
    {
      allocations, invoices, creditNotes, bills := saved.allocations, saved.invoices, saved.creditNotes, saved.bills;
      events := [];
    }

    method InsertRow(row: Allocation) returns (ok: bool)
      modifies this`allocations, this`events
      ensures ok <==> Execute(Tx(old(Tables()), old(events)), Insert(row)).Some?
      ensures ok ==> Some(Tx(Tables(), events)) == Execute(Tx(old(Tables()), old(events)), Insert(row))
      ensures !ok ==> Tables() == old(Tables()) && events == old(events)
    {
      ok := OneTarget(row) && TargetsExist(Tables(), row);
      if ok {
        allocations := allocations + [row];
        events := events + [Inserted(row)];
      }
    }

    method UpdateRow(at: nat, row: Allocation) returns (ok: bool)
      modifies this`allocations, this`events
      ensures ok <==> Execute(Tx(old(Tables()), old(events)), Update(at, row)).Some?
      ensures ok ==> Some(Tx(Tables(), events)) == Execute(Tx(old(Tables()), old(events)), Update(at, row))
      ensures !ok ==> Tables() == old(Tables()) && events == old(events)
    {
      if at >= |allocations| {
        return true;
      }
      ok := OneTarget(row) && TargetsExist(Tables(), row);
      if ok {
        events := events + [Updated(allocations[at], row)];
        allocations := allocations[at := row];
      }
    }

    method DeleteRow(at: nat)
      modifies this`allocations, this`events
      ensures Some(Tx(Tables(), events)) == Execute(Tx(old(Tables()), old(events)), Delete(at))
    {
      if at < |allocations| {
        events := events + [Deleted(allocations[at])];
        allocations := allocations[..at] + allocations[at + 1..];
      }
    }

    method StoreTable(kind: Kind, table: map<Id, int>)
      modifies this`invoices, this`creditNotes, this`bills
      ensures Tables() == WithTable(old(Tables()), kind, table)
    {
      match kind {
        case Invoice => invoices := table;
        case CreditNote => creditNotes := table;
        case Bill => bills := table;
      }
    }

    method AddDocumentRow(doc: Document, total: int) returns (ok: bool)
      modifies this`invoices, this`creditNotes, this`bills
      ensures ok <==> Execute(Tx(old(Tables()), events), AddDocument(doc, total)).Some?
      ensures ok ==> Some(Tx(Tables(), events)) == Execute(Tx(old(Tables()), events), AddDocument(doc, total))
      ensures !ok ==> Tables() == old(Tables())
    {
      ok := UnusedId(Tables(), doc.id);
      if ok {
        StoreTable(doc.kind, Table(Tables(), doc.kind)[doc.id := total]);
      }
    }

    /** Restricted: a document with allocations cannot be deleted. */
    method DropDocumentRow(doc: Document) returns (ok: bool)
      modifies this`invoices, this`creditNotes, this`bills
      ensures ok <==> Execute(Tx(old(Tables()), events), DropDocument(doc)).Some?
      ensures ok ==> Some(Tx(Tables(), events)) == Execute(Tx(old(Tables()), events), DropDocument(doc))
      ensures !ok ==> Tables() == old(Tables())
    {
      ok := !Referenced(Tables(), doc);
      if ok {
        StoreTable(doc.kind, Table(Tables(), doc.kind) - {doc.id});
      }
    }

    /** Writing a total queues nothing. */
    method WriteTotal(doc: Document, total: int)
      modifies this`invoices, this`creditNotes, this`bills
      ensures Some(Tx(Tables(), events)) == Execute(Tx(old(Tables()), events), SetTotal(doc, total))
    {
      if Exists(Tables(), doc) {
        StoreTable(doc.kind, Table(Tables(), doc.kind)[doc.id := total]);
      }
    }

    /** Fire every queued event against the tables as they are now; the first failure undoes the transaction. */
    method Commit() returns (committed: bool)
      modifies this
      ensures committed <==> AllPass(old(Tables()), old(events))
      ensures Tables() == if committed then old(Tables()) else old(saved)
      ensures saved == Tables() && events == []
    {
      var i := 0;
      while i < |events|
        invariant 0 <= i <= |events|
        invariant Tables() == old(Tables()) && events == old(events) && saved == old(saved)
        invariant forall k :: 0 <= k < i ==> EventPasses(Tables(), events[k])
      {
        var raised := FireTrigger(Tables(), events[i]);
        if raised {
          Rollback();
          return false;
        }
        i := i + 1;
      }
      committed := true;
      saved, events := Tables(), [];
    }

    /** BEGIN; the statements; COMMIT. A statement that fails undoes the transaction at once. */
    method Run(ops: seq<Op>) returns (committed: bool)
      modifies this
      ensures Tables() == Transact(old(Tables()), ops)
      ensures committed <==> Commits(old(Tables()), ops)
      ensures saved == Tables() && events == []
    {
      ghost var before := Tables();
      Begin();
      var i := 0;
      while i < |ops|
        invariant 0 <= i <= |ops| && saved == before
        invariant ExecuteAll(before, ops[..i]) == Some(Tx(Tables(), events))
      {
        assert ops[..i + 1][..i] == ops[..i];
        var ok := Perform(ops[i]);
        if !ok {
          FailedPrefix(before, ops, i + 1);
          Rollback();
          return false;
        }
        i := i + 1;
      }
      assert ops[..i] == ops;
      committed := Commit();
    }

    method Perform(op: Op) returns (ok: bool)
      modifies this
      ensures ok <==> Execute(Tx(old(Tables()), old(events)), op).Some?
      ensures ok ==> Some(Tx(Tables(), events)) == Execute(Tx(old(Tables()), old(events)), op)
      ensures saved == old(saved)
    {
      ok := true;
      match op {
        case Insert(row) => ok := InsertRow(row);
        case Update(at, row) => ok := UpdateRow(at, row);
        case Delete(at) => DeleteRow(at);
        case AddDocument(doc, total) => ok := AddDocumentRow(doc, total);
        case DropDocument(doc) => ok := DropDocumentRow(doc);
        case SetTotal(doc, total) => WriteTotal(doc, total);
      }
    }
  }

  lemma {:induction false} FailedPrefix(db: Db, ops: seq<Op>, k: nat)
    requires k <= |ops| && ExecuteAll(db, ops[..k]).None?
    ensures ExecuteAll(db, ops).None?
  {
    if k == |ops| {
      assert ops[..k] == ops;
    } else {
      assert ops[..|ops| - 1][..k] == ops[..k];
      FailedPrefix(db, ops[..|ops| - 1], k);
    }
  }
}
