/**
Journal entries under the deferred balance trigger: a POSTED entry must have two lines or more and
equal debits and credits at commit. Amounts are cents. A line update is checked for the entry that
the line now belongs to, never for the one it was taken from.
*/
module JournalBalance {
  import opened Options

  type Id = int

  const POSTED := "POSTED"

  datatype Line = Line(entry: Id, debit: int, credit: int)

  datatype Db = Db(entries: map<Id, string>, lines: seq<Line>)

  datatype Side = Debit | Credit

  function Amount(l: Line, side: Side): int {
    if side == Debit then l.debit else l.credit
  }

  /** The lines of one entry. */
  function LinesOf(lines: seq<Line>, entry: Id): seq<Line> {
    if lines == [] then []
    else
      var own := LinesOf(lines[..|lines| - 1], entry);
      if lines[|lines| - 1].entry == entry then own + [lines[|lines| - 1]] else own
  }

  function Sum(lines: seq<Line>, side: Side): int {
    if lines == [] then 0 else Sum(lines[..|lines| - 1], side) + Amount(lines[|lines| - 1], side)
  }

  /** The rule for one entry. */
  predicate Sound(db: Db, entry: Id) {
    entry in db.entries && db.entries[entry] == POSTED ==>
      var own := LinesOf(db.lines, entry);
      |own| >= 2 && Sum(own, Debit) == Sum(own, Credit)
  }

  ghost predicate AllSound(db: Db) {
    forall entry :: Sound(db, entry)
  }

  /** Foreign key: every line's entry exists. */
  ghost predicate WellFormed(db: Db) {
    forall i :: 0 <= i < |db.lines| ==> db.lines[i].entry in db.entries
  }

  // ----- events and statements -----

  datatype Event =
    | EntryWritten(entry: Id)
    | LineInserted(row: Line)
    | LineUpdated(before: Line, row: Line)
    | LineDeleted(before: Line)

  /** The one entry that the trigger validates for an event. */
  function Checked(e: Event): Id {
    match e
    case EntryWritten(entry) => entry
    case LineInserted(row) => row.entry
    case LineUpdated(_, row) => row.entry
    case LineDeleted(before) => before.entry
  }

  predicate AllPass(db: Db, events: seq<Event>) {
    forall i :: 0 <= i < |events| ==> Sound(db, Checked(events[i]))
  }

  predicate Named(events: seq<Event>, entry: Id) {
    exists i :: 0 <= i < |events| && Checked(events[i]) == entry
  }

  /** Some update moved a line away from the entry. */
  predicate Robbed(events: seq<Event>, entry: Id) {
    exists i :: 0 <= i < |events| && events[i].LineUpdated? && events[i].before.entry == entry
                && events[i].row.entry != entry
  }

  datatype Op =
    | InsertEntry(entry: Id, status: string)
    | UpdateEntry(entry: Id, status: string)
    | DeleteEntry(entry: Id)
    | InsertLine(row: Line)
    | UpdateLine(at: nat, row: Line)
    | DeleteLine(at: nat)

  datatype Tx = Tx(db: Db, events: seq<Event>)

  /** The lines a cascade leaves. */
  function LinesWithout(lines: seq<Line>, entry: Id): seq<Line> {
    if lines == [] then []
    else
      var rest := LinesWithout(lines[..|lines| - 1], entry);
      if lines[|lines| - 1].entry == entry then rest else rest + [lines[|lines| - 1]]
  }

  /** The delete events a cascade queues. */
  function CascadeEvents(lines: seq<Line>, entry: Id): seq<Event> {
    if lines == [] then []
    else
      var rest := CascadeEvents(lines[..|lines| - 1], entry);
      if lines[|lines| - 1].entry == entry then rest + [LineDeleted(lines[|lines| - 1])] else rest
  }

  /** One statement. None is a constraint error, which aborts the transaction. */
  function Execute(tx: Tx, op: Op): Option<Tx> {
    var db, events := tx.db, tx.events;
    match op
    case InsertEntry(entry, status) =>
      if entry in db.entries then None
      else Some(Tx(db.(entries := db.entries[entry := status]), events + [EntryWritten(entry)]))
    case UpdateEntry(entry, status) =>
      if entry !in db.entries then Some(tx)
      else Some(Tx(db.(entries := db.entries[entry := status]), events + [EntryWritten(entry)]))
    case DeleteEntry(entry) =>
      if entry !in db.entries then Some(tx)
      else Some(Tx(Db(db.entries - {entry}, LinesWithout(db.lines, entry)), events + CascadeEvents(db.lines, entry)))
    case InsertLine(row) =>
      if row.entry !in db.entries then None
      else Some(Tx(db.(lines := db.lines + [row]), events + [LineInserted(row)]))
    case UpdateLine(at, row) =>
      if at >= |db.lines| then Some(tx)
      else if row.entry !in db.entries then None
      else Some(Tx(db.(lines := db.lines[at := row]), events + [LineUpdated(db.lines[at], row)]))
    case DeleteLine(at) =>
      if at >= |db.lines| then Some(tx)
      else Some(Tx(db.(lines := db.lines[..at] + db.lines[at + 1..]), events + [LineDeleted(db.lines[at])]))
  }

  function ExecuteAll(db: Db, ops: seq<Op>): Option<Tx> {
    if ops == [] then Some(Tx(db, []))
    else
      match ExecuteAll(db, ops[..|ops| - 1])
      case None => None
      case Some(tx) => Execute(tx, ops[|ops| - 1])
  }

  /** The tables after BEGIN; ops; COMMIT. */
  function Transact(db: Db, ops: seq<Op>): Db {
    match ExecuteAll(db, ops)
    case None => db
    case Some(tx) => if AllPass(tx.db, tx.events) then tx.db else db
  }

  /** Every statement and every queued check passes. */
  predicate Commits(db: Db, ops: seq<Op>) {
    var tx := ExecuteAll(db, ops);
    tx.Some? && AllPass(tx.value.db, tx.value.events)
  }

  // ----- one entry's lines under row operations -----

  lemma {:induction false} LinesOfConcat(a: seq<Line>, b: seq<Line>, entry: Id)
    ensures LinesOf(a + b, entry) == LinesOf(a, entry) + LinesOf(b, entry)
  {
    if b == [] {
      assert a + b == a;
    } else {
      LinesOfConcat(a, b[..|b| - 1], entry);
      assert (a + b)[..|a + b| - 1] == a + b[..|b| - 1];
    }
  }

  lemma LinesOfOne(l: Line, entry: Id)
    ensures LinesOf([l], entry) == if l.entry == entry then [l] else []
  {
    assert [l][..0] == [];
  }

  lemma LinesOfSplit(lines: seq<Line>, at: nat, entry: Id)
    requires at < |lines|
    ensures LinesOf(lines, entry)
            == LinesOf(lines[..at], entry) + (if lines[at].entry == entry then [lines[at]] else [])
               + LinesOf(lines[at + 1..], entry)
  {
    var left, own, right := LinesOf(lines[..at], entry), LinesOf([lines[at]], entry), LinesOf(lines[at + 1..], entry);
    assert LinesOf(lines, entry) == left + (own + right) by {
      assert lines == lines[..at] + ([lines[at]] + lines[at + 1..]);
      LinesOfConcat(lines[..at], [lines[at]] + lines[at + 1..], entry);
      LinesOfConcat([lines[at]], lines[at + 1..], entry);
    }
    assert left + (own + right) == left + own + right;
    LinesOfOne(lines[at], entry);
  }

  lemma {:induction false} SumConcat(a: seq<Line>, b: seq<Line>, side: Side)
    ensures Sum(a + b, side) == Sum(a, side) + Sum(b, side)
  {
    if b == [] {
      assert a + b == a;
    } else {
      SumConcat(a, b[..|b| - 1], side);
      assert (a + b)[..|a + b| - 1] == a + b[..|b| - 1];
    }
  }

  /** Taking one line out of a sequence takes its amounts out of the sums. */
  lemma SumTakeOut(a: seq<Line>, l: Line, b: seq<Line>, side: Side)
    ensures Sum(a + [l] + b, side) == Sum(a + b, side) + Amount(l, side)
  {
    SumConcat(a + [l], b, side);
    SumConcat(a, [l], side);
    SumConcat(a, b, side);
    assert [l][..0] == [];
  }

  lemma {:induction false} CascadeFrame(lines: seq<Line>, gone: Id, entry: Id)
    requires entry != gone
    ensures LinesOf(LinesWithout(lines, gone), entry) == LinesOf(lines, entry)
  {
    if lines != [] {
      var last := lines[|lines| - 1];
      CascadeFrame(lines[..|lines| - 1], gone, entry);
      LinesOfConcat(LinesWithout(lines[..|lines| - 1], gone), [last], entry);
      LinesOfOne(last, entry);
    }
  }

  lemma {:induction false} CascadeOnlyDeletes(lines: seq<Line>, gone: Id)
    ensures forall i :: 0 <= i < |CascadeEvents(lines, gone)| ==> CascadeEvents(lines, gone)[i].LineDeleted?
                                                                  && Checked(CascadeEvents(lines, gone)[i]) == gone
  {
    if lines != [] {
      CascadeOnlyDeletes(lines[..|lines| - 1], gone);
    }
  }

  lemma {:induction false} CascadeLines(lines: seq<Line>, gone: Id)
    ensures forall i :: 0 <= i < |LinesWithout(lines, gone)| ==>
      LinesWithout(lines, gone)[i].entry != gone && LinesWithout(lines, gone)[i] in lines
    ensures Named(CascadeEvents(lines, gone), gone) <==> exists i :: 0 <= i < |lines| && lines[i].entry == gone
  {
    if lines != [] {
      var n := |lines| - 1;
      CascadeLines(lines[..n], gone);
      var rest := CascadeEvents(lines[..n], gone);
      assert forall i :: 0 <= i < |rest| ==> CascadeEvents(lines, gone)[i] == rest[i];
      if lines[n].entry == gone {
        assert Checked(CascadeEvents(lines, gone)[|rest|]) == gone;
      }
    }
  }

  // ----- the frame -----

  lemma StatementKeepsConstraints(tx: Tx, op: Op)
    requires WellFormed(tx.db) && Execute(tx, op).Some?
    ensures WellFormed(Execute(tx, op).value.db)
  {
    if op.DeleteEntry? {
      CascadeLines(tx.db.lines, op.entry);
    }
  }

  lemma {:induction false} TransactionKeepsConstraints(db: Db, ops: seq<Op>)
    requires WellFormed(db) && ExecuteAll(db, ops).Some?
    ensures WellFormed(ExecuteAll(db, ops).value.db)
  {
    if ops != [] {
      TransactionKeepsConstraints(db, ops[..|ops| - 1]);
      StatementKeepsConstraints(ExecuteAll(db, ops[..|ops| - 1]).value, ops[|ops| - 1]);
    }
  }

  lemma EarlierEvents(events: seq<Event>, more: seq<Event>, entry: Id)
    requires events <= more && !Named(more, entry)
    ensures !Named(events, entry)
    ensures |events| < |more| ==> Checked(more[|events|]) != entry
  {
    assert forall i :: 0 <= i < |events| ==> events[i] == more[i];
  }

  lemma UpdateFrame(lines: seq<Line>, at: nat, row: Line, entry: Id)
    requires at < |lines| && lines[at].entry != entry && row.entry != entry
    ensures LinesOf(lines[at := row], entry) == LinesOf(lines, entry)
  {
    LinesOfSplit(lines, at, entry);
    LinesOfSplit(lines[at := row], at, entry);
    assert lines[at := row][..at] == lines[..at] && lines[at := row][at + 1..] == lines[at + 1..];
  }

  lemma DeleteFrame(lines: seq<Line>, at: nat, entry: Id)
    requires at < |lines| && lines[at].entry != entry
    ensures LinesOf(lines[..at] + lines[at + 1..], entry) == LinesOf(lines, entry)
  {
    LinesOfSplit(lines, at, entry);
    LinesOfConcat(lines[..at], lines[at + 1..], entry);
  }

  /** The statement moves a line of the entry away, or changes it in place. */
  predicate Touches(lines: seq<Line>, op: Op, entry: Id) {
    op.UpdateLine? && op.at < |lines| && lines[op.at].entry == entry
  }

  /** A statement that neither names an entry nor updates a line of it keeps its status and lines, or deletes it. */
  lemma StatementFrame(tx: Tx, op: Op, entry: Id)
    requires Execute(tx, op).Some? && !Named(Execute(tx, op).value.events, entry)
    requires !Touches(tx.db.lines, op, entry)
    ensures !Named(tx.events, entry)
    ensures var db' := Execute(tx, op).value.db;
            entry in db'.entries ==>
              && entry in tx.db.entries && db'.entries[entry] == tx.db.entries[entry]
              && LinesOf(db'.lines, entry) == LinesOf(tx.db.lines, entry)
  {
    var lines := tx.db.lines;
    EarlierEvents(tx.events, Execute(tx, op).value.events, entry);
    match op
    case InsertLine(row) =>
      LinesOfConcat(lines, [row], entry);
      LinesOfOne(row, entry);
    case UpdateLine(at, row) =>
      if at < |lines| { UpdateFrame(lines, at, row, entry); }
    case DeleteLine(at) =>
      if at < |lines| { DeleteFrame(lines, at, entry); }
    case DeleteEntry(gone) =>
      if entry != gone { CascadeFrame(lines, gone, entry); }
    case _ =>
  }

  // ----- what an unnamed entry can lose -----

  /** The old images of the lines that updates took away from the entry. */
  function Taken(events: seq<Event>, entry: Id): seq<Line> {
    if events == [] then []
    else
      var taken, e := Taken(events[..|events| - 1], entry), events[|events| - 1];
      if e.LineUpdated? && e.before.entry == entry && e.row.entry != entry then taken + [e.before] else taken
  }

  lemma {:induction false} TakenConcat(a: seq<Event>, b: seq<Event>, entry: Id)
    ensures Taken(a + b, entry) == Taken(a, entry) + Taken(b, entry)
  {
    if b == [] {
      assert a + b == a;
    } else {
      TakenConcat(a, b[..|b| - 1], entry);
      assert (a + b)[..|a + b| - 1] == a + b[..|b| - 1];
    }
  }

  lemma {:induction false} TakenFromRobbed(events: seq<Event>, entry: Id)
    ensures Taken(events, entry) != [] <==> Robbed(events, entry)
  {
    if events != [] {
      var n := |events| - 1;
      TakenFromRobbed(events[..n], entry);
      assert forall i :: 0 <= i < n ==> events[..n][i] == events[i];
      if i :| 0 <= i < |events| && events[i].LineUpdated? && events[i].before.entry == entry
              && events[i].row.entry != entry {
        assert i < n ==> Robbed(events[..n], entry);
      }
    }
  }

  lemma {:induction false} CascadeTakesNothing(lines: seq<Line>, gone: Id, entry: Id)
    ensures Taken(CascadeEvents(lines, gone), entry) == []
  {
    if lines != [] {
      CascadeTakesNothing(lines[..|lines| - 1], gone, entry);
    }
  }

  lemma TakenByOne(e: Event, entry: Id)
    ensures Taken([e], entry)
            == if e.LineUpdated? && e.before.entry == entry && e.row.entry != entry then [e.before] else []
  {
    assert [e][..0] == [];
  }

  /** The events that a statement adds take a line from the entry only when it touches one. */
  lemma StatementTakes(tx: Tx, op: Op, entry: Id)
    requires Execute(tx, op).Some? && !Named(Execute(tx, op).value.events, entry)
    ensures Taken(Execute(tx, op).value.events, entry)
            == if Touches(tx.db.lines, op, entry) then Taken(tx.events, entry) + [tx.db.lines[op.at]]
               else Taken(tx.events, entry)
  {
    var events' := Execute(tx, op).value.events;
    EarlierEvents(tx.events, events', entry);
    var added := events'[|tx.events|..];
    assert events' == tx.events + added;
    TakenConcat(tx.events, added, entry);
    if op.DeleteEntry? && op.entry in tx.db.entries {
      assert added == CascadeEvents(tx.db.lines, op.entry);
      CascadeTakesNothing(tx.db.lines, op.entry, entry);
    } else if added != [] {
      assert added == [added[0]];
      TakenByOne(added[0], entry);
    }
  }

  /** What the entry still has and what was taken from it add up to what it had. */
  predicate AddsUp(now: seq<Line>, taken: seq<Line>, before: seq<Line>) {
    && |now| + |taken| == |before|
    && Sum(now, Debit) + Sum(taken, Debit) == Sum(before, Debit)
    && Sum(now, Credit) + Sum(taken, Credit) == Sum(before, Credit)
  }

  lemma SplitWithout(lines: seq<Line>, at: nat, entry: Id)
    requires at < |lines| && lines[at].entry != entry
    ensures LinesOf(lines, entry) == LinesOf(lines[..at], entry) + LinesOf(lines[at + 1..], entry)
  {
    LinesOfSplit(lines, at, entry);
    var left := LinesOf(lines[..at], entry);
    assert left + [] == left;
  }

  /** A line of the entry that an update takes away is missing from its lines, and nothing else is. */
  lemma RobbedLines(lines: seq<Line>, at: nat, row: Line)
    requires at < |lines| && row.entry != lines[at].entry
    ensures AddsUp(LinesOf(lines[at := row], lines[at].entry), [lines[at]], LinesOf(lines, lines[at].entry))
  {
    var l, after := lines[at], lines[at := row];
    var left, right := LinesOf(lines[..at], l.entry), LinesOf(lines[at + 1..], l.entry);
    assert LinesOf(lines, l.entry) == left + [l] + right by { LinesOfSplit(lines, at, l.entry); }
    assert LinesOf(after, l.entry) == left + right by {
      SplitWithout(after, at, l.entry);
      assert after[..at] == lines[..at] && after[at + 1..] == lines[at + 1..];
    }
    OneTakenOut(left, l, right);
  }

  lemma OneTakenOut(left: seq<Line>, l: Line, right: seq<Line>)
    ensures AddsUp(left + right, [l], left + [l] + right)
  {
    SumTakeOut(left, l, right, Debit);
    SumTakeOut(left, l, right, Credit);
    SumOfOne(l, Debit);
    SumOfOne(l, Credit);
  }

  lemma SumOfOne(l: Line, side: Side)
    ensures Sum([l], side) == Amount(l, side)
  {
    assert [l][..0] == [];
  }

  lemma TakenOneMore(now: seq<Line>, mid: seq<Line>, taken: seq<Line>, l: Line, before: seq<Line>)
    requires AddsUp(mid, taken, before) && AddsUp(now, [l], mid)
    ensures AddsUp(now, taken + [l], before)
  {
    SumConcat(taken, [l], Debit);
    SumConcat(taken, [l], Credit);
  }

  /**
  Over a whole transaction, an entry that no event names keeps its status unless it is deleted, and has
  the lines it had, less the old images of those that updates took from it.
  */
  lemma {:induction false} TransactionFrame(db: Db, ops: seq<Op>, entry: Id)
    requires ExecuteAll(db, ops).Some? && !Named(ExecuteAll(db, ops).value.events, entry)
    ensures var tx := ExecuteAll(db, ops).value;
            entry in tx.db.entries ==>
              && entry in db.entries && tx.db.entries[entry] == db.entries[entry]
              && AddsUp(LinesOf(tx.db.lines, entry), Taken(tx.events, entry), LinesOf(db.lines, entry))
  {
    if ops != [] {
      var n := |ops| - 1;
      var tx, tx' := ExecuteAll(db, ops[..n]).value, ExecuteAll(db, ops).value;
      EarlierEvents(tx.events, tx'.events, entry);
      TransactionFrame(db, ops[..n], entry);
      StatementTakes(tx, ops[n], entry);
      if Touches(tx.db.lines, ops[n], entry) {
        var at, row := ops[n].at, ops[n].row;
        assert Checked(tx'.events[|tx.events|]) == row.entry;
        RobbedLines(tx.db.lines, at, row);
        if entry in tx'.db.entries {
          TakenOneMore(LinesOf(tx'.db.lines, entry), LinesOf(tx.db.lines, entry), Taken(tx.events, entry),
                       tx.db.lines[at], LinesOf(db.lines, entry));
        }
      } else {
        StatementFrame(tx, ops[n], entry);
      }
    }
  }

  predicate Deleted(ops: seq<Op>, entry: Id) {
    exists i :: 0 <= i < |ops| && ops[i] == DeleteEntry(entry)
  }

  /** An unnamed entry is still there exactly when no statement deleted it. */
  lemma {:induction false} StillThere(db: Db, ops: seq<Op>, entry: Id)
    requires ExecuteAll(db, ops).Some? && !Named(ExecuteAll(db, ops).value.events, entry) && entry in db.entries
    ensures entry in ExecuteAll(db, ops).value.db.entries <==> !Deleted(ops, entry)
  {
    if ops != [] {
      var n := |ops| - 1;
      var tx, tx' := ExecuteAll(db, ops[..n]).value, ExecuteAll(db, ops).value;
      EarlierEvents(tx.events, tx'.events, entry);
      StillThere(db, ops[..n], entry);
      assert forall i :: 0 <= i < n ==> ops[..n][i] == ops[i];
      assert Deleted(ops, entry) <==> Deleted(ops[..n], entry) || ops[n] == DeleteEntry(entry) by {
        if i :| 0 <= i < |ops| && ops[i] == DeleteEntry(entry) {
          assert i < n ==> Deleted(ops[..n], entry);
        }
      }
    }
  }

  // ----- the main results -----

  /** The queued checks pass exactly when every named entry is sound in the final tables. */
  lemma ChecksCoverNamed(db: Db, events: seq<Event>)
    ensures AllPass(db, events) <==> forall entry :: Named(events, entry) ==> Sound(db, entry)
  {
    if forall entry :: Named(events, entry) ==> Sound(db, entry) {
      forall i | 0 <= i < |events|
        ensures Sound(db, Checked(events[i]))
      {
        assert Named(events, Checked(events[i]));
      }
    }
  }

  /**
  The entry can do without the lines taken from it: debits taken equal credits taken and two lines
  remain; or it was not POSTED, or is deleted.
  */
  predicate Spares(db: Db, ops: seq<Op>, taken: seq<Line>, entry: Id) {
    entry in db.entries && db.entries[entry] == POSTED && !Deleted(ops, entry) ==>
      Sum(taken, Debit) == Sum(taken, Credit) && |LinesOf(db.lines, entry)| - |taken| >= 2
  }

  /** An unnamed entry ends up sound exactly when it can spare what was taken. */
  lemma UnnamedSound(db: Db, ops: seq<Op>, entry: Id)
    requires Sound(db, entry) && ExecuteAll(db, ops).Some? && !Named(ExecuteAll(db, ops).value.events, entry)
    ensures var tx := ExecuteAll(db, ops).value;
            Sound(tx.db, entry) <==> Spares(db, ops, Taken(tx.events, entry), entry)
  {
    TransactionFrame(db, ops, entry);
    if entry in db.entries {
      StillThere(db, ops, entry);
    }
  }

  lemma SparesNothing(db: Db, ops: seq<Op>, entry: Id)
    requires Sound(db, entry)
    ensures Spares(db, ops, [], entry)
  {
  }

  /**
  From sound tables, over whatever unbalanced states it went through, a transaction that passes its
  queued checks leaves every entry sound if and only if each entry that it took lines from without
  naming it can spare them.
  */
  lemma CommitKeepsBalance(db: Db, ops: seq<Op>)
    requires AllSound(db) && ExecuteAll(db, ops).Some?
    requires var tx := ExecuteAll(db, ops).value; AllPass(tx.db, tx.events)
    ensures var events := ExecuteAll(db, ops).value.events;
            AllSound(Transact(db, ops))
            <==> forall entry :: Robbed(events, entry) && !Named(events, entry)
                                 ==> Spares(db, ops, Taken(events, entry), entry)
  {
    var tx := ExecuteAll(db, ops).value;
    ChecksCoverNamed(tx.db, tx.events);
    forall entry | !Named(tx.events, entry)
      ensures Sound(tx.db, entry) <==> Spares(db, ops, Taken(tx.events, entry), entry)
      ensures !Robbed(tx.events, entry) ==> Spares(db, ops, Taken(tx.events, entry), entry)
    {
      assert Sound(db, entry);
      UnnamedSound(db, ops, entry);
      TakenFromRobbed(tx.events, entry);
      SparesNothing(db, ops, entry);
    }
  }

  /**
  When every line update keeps the line's entry, the deferred checks decide exactly as a check of the
  whole ledger.
  */
  lemma DeferredChecksAreGlobal(db: Db, ops: seq<Op>)
    requires AllSound(db) && ExecuteAll(db, ops).Some?
    requires forall entry :: !Robbed(ExecuteAll(db, ops).value.events, entry)
    ensures var tx := ExecuteAll(db, ops).value; AllPass(tx.db, tx.events) <==> AllSound(tx.db)
  {
    var tx := ExecuteAll(db, ops).value;
    ChecksCoverNamed(tx.db, tx.events);
    if AllPass(tx.db, tx.events) {
      CommitKeepsBalance(db, ops);
    }
  }

  /** The entry a line was moved away from is sound exactly when it is not POSTED, or can do without the line. */
  lemma RobbedEntry(db: Db, at: nat, row: Line)
    requires at < |db.lines| && Sound(db, db.lines[at].entry) && db.lines[at].entry in db.entries
    requires row.entry != db.lines[at].entry
    ensures var l := db.lines[at];
            Sound(db.(lines := db.lines[at := row]), l.entry)
            <==> db.entries[l.entry] != POSTED || (l.debit == l.credit && |LinesOf(db.lines, l.entry)| >= 3)
  {
    RobbedLines(db.lines, at, row);
    SumOfOne(db.lines[at], Debit);
    SumOfOne(db.lines[at], Credit);
  }

  /**
  Moving one line to another entry, alone in a transaction that commits: the ledger stays sound exactly
  when the entry it left is not POSTED, or the line was worth nothing and two more lines remain.
  */
  lemma RepointingIsHalfChecked(db: Db, at: nat, row: Line)
    requires WellFormed(db) && AllSound(db) && at < |db.lines|
    requires row.entry in db.entries && row.entry != db.lines[at].entry
    requires Sound(db.(lines := db.lines[at := row]), row.entry)
    ensures var l := db.lines[at];
            && Transact(db, [UpdateLine(at, row)]) == db.(lines := db.lines[at := row])
            && (AllSound(Transact(db, [UpdateLine(at, row)]))
                <==> db.entries[l.entry] != POSTED || (l.debit == l.credit && |LinesOf(db.lines, l.entry)| >= 3))
  {
    var l, ops := db.lines[at], [UpdateLine(at, row)];
    var after := db.(lines := db.lines[at := row]);
    assert ops[..0] == [] && ExecuteAll(db, ops) == Execute(Tx(db, []), ops[0]);
    assert ExecuteAll(db, ops).value.events == [LineUpdated(l, row)];
    RobbedEntry(db, at, row);
    forall entry | entry != l.entry && entry != row.entry
      ensures Sound(after, entry)
    {
      UpdateFrame(db.lines, at, row, entry);
      assert Sound(db, entry);
    }
  }

  /** A POSTED entry of two lines loses one to a DRAFT entry, and the transaction commits. */
  lemma LineMovedToDraft()
    ensures var db := Db(map[1 := POSTED, 2 := "DRAFT"], [Line(1, 100, 0), Line(1, 0, 100)]);
            && WellFormed(db) && AllSound(db)
            && !AllSound(Transact(db, [UpdateLine(1, Line(2, 0, 100))]))
  {
    var first, second := Line(1, 100, 0), Line(1, 0, 100);
    var db := Db(map[1 := POSTED, 2 := "DRAFT"], [first, second]);
    TwoLines(first, second);
    assert Sound(db, 1);
    RepointingIsHalfChecked(db, 1, Line(2, 0, 100));
  }

  lemma TwoLines(a: Line, b: Line)
    requires a.entry == b.entry
    ensures LinesOf([a, b], a.entry) == [a, b]
    ensures Sum([a, b], Debit) == a.debit + b.debit && Sum([a, b], Credit) == a.credit + b.credit
  {
    assert [a, b] == [a] + [b];
    LinesOfConcat([a], [b], a.entry);
    LinesOfOne(a, a.entry);
    LinesOfOne(b, a.entry);
    SumConcat([a], [b], Debit);
    SumConcat([a], [b], Credit);
    SumOfOne(a, Debit);
    SumOfOne(b, Debit);
    SumOfOne(a, Credit);
    SumOfOne(b, Credit);
  }

  /** Deleting an entry with its lines always commits and keeps the rest of the ledger sound. */
  lemma CascadedDeleteCommits(db: Db, entry: Id)
    requires WellFormed(db) && AllSound(db) && entry in db.entries
    ensures var after := Transact(db, [DeleteEntry(entry)]);
            && after == Db(db.entries - {entry}, LinesWithout(db.lines, entry))
            && AllSound(after)
            && forall other :: other != entry ==> LinesOf(after.lines, other) == LinesOf(db.lines, other)
  {
    var ops := [DeleteEntry(entry)];
    assert ops[..0] == [] && ExecuteAll(db, ops) == Execute(Tx(db, []), ops[0]);
    var tx := ExecuteAll(db, ops).value;
    assert tx.events == CascadeEvents(db.lines, entry);
    CascadeOnlyDeletes(db.lines, entry);
    forall other | other != entry
      ensures LinesOf(tx.db.lines, other) == LinesOf(db.lines, other)
      ensures Sound(tx.db, other)
    {
      CascadeFrame(db.lines, entry, other);
      assert Sound(db, other);
    }
    assert Sound(tx.db, entry);
  }

  // ----- over a history of transactions -----

  function AfterAll(db: Db, history: seq<seq<Op>>): Db {
    if history == [] then db else Transact(AfterAll(db, history[..|history| - 1]), history[|history| - 1])
  }

  /** Run on these tables, the transaction moves a line away from some entry. */
  ghost predicate Robs(db: Db, ops: seq<Op>) {
    ExecuteAll(db, ops).Some? && exists entry :: Robbed(ExecuteAll(db, ops).value.events, entry)
  }

  /** As long as line updates keep their entry, no history of transactions ever unbalances a POSTED entry. */
  lemma {:induction false} LedgerStaysSound(db: Db, history: seq<seq<Op>>)
    requires AllSound(db)
    requires forall i :: 0 <= i < |history| ==> !Robs(AfterAll(db, history[..i]), history[i])
    ensures AllSound(AfterAll(db, history))
  {
    if history != [] {
      var n := |history| - 1;
      assert forall i :: 0 <= i < n ==> history[..n][..i] == history[..i];
      LedgerStaysSound(db, history[..n]);
      var before := AfterAll(db, history[..n]);
      if ExecuteAll(before, history[n]).Some? {
        DeferredChecksAreGlobal(before, history[n]);
      }
    }
  }
}
