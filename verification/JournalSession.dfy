/**
The journal tables as a session changes them in place, with the trigger functions as the procedures
they are, and the report of POSTED entries that already break the rule.
*/
module JournalSession {
  import opened Options
  import opened JournalBalance

  /** check_je_posted_balanced_and_has_lines: true when it raises. */
  method CheckEntry(db: Db, entry: Id) returns (raised: bool)
    ensures raised <==> !Sound(db, entry)
  {
    if entry !in db.entries {
      return false;
    }
    if db.entries[entry] != POSTED {
      return false;
    }
    var debit, credit, count := 0, 0, 0;
    var i := 0;
    while i < |db.lines|
      invariant 0 <= i <= |db.lines|
      invariant count == |LinesOf(db.lines[..i], entry)|
      invariant debit == Sum(LinesOf(db.lines[..i], entry), Debit)
      invariant credit == Sum(LinesOf(db.lines[..i], entry), Credit)
    {
      assert db.lines[..i + 1][..i] == db.lines[..i];
      ghost var own := LinesOf(db.lines[..i], entry);
      assert (own + [db.lines[i]])[..|own|] == own;
      if db.lines[i].entry == entry {
        debit, credit, count := debit + db.lines[i].debit, credit + db.lines[i].credit, count + 1;
      }
      i := i + 1;
    }
    assert db.lines[..i] == db.lines;
    if count < 2 {
      return true;
    }
    raised := debit != credit;
  }

  /** The two trigger wrappers: which entry is looked at for one queued event. */
  method FireTrigger(db: Db, e: Event) returns (raised: bool)
    ensures raised <==> !Sound(db, Checked(e))
  {
    match e {
      case EntryWritten(entry) => raised := CheckEntry(db, entry);
      case LineInserted(row) => raised := CheckEntry(db, row.entry);
      case LineUpdated(_, row) => raised := CheckEntry(db, row.entry);
      case LineDeleted(before) => raised := CheckEntry(db, before.entry);
    }
  }

  // ----- the report -----

  datatype Stats = Stats(debit: int, credit: int, count: nat)

  function StatsOf(lines: seq<Line>, entry: Id): Stats {
    var own := LinesOf(lines, entry);
    Stats(Sum(own, Debit), Sum(own, Credit), |own|)
  }

  function WithLine(s: Stats, l: Line): Stats {
    Stats(s.debit + l.debit, s.credit + l.credit, s.count + 1)
  }

  lemma OneLineMore(lines: seq<Line>, i: nat, entry: Id)
    requires i < |lines|
    ensures StatsOf(lines[..i + 1], entry)
            == if lines[i].entry == entry then WithLine(StatsOf(lines[..i], entry), lines[i])
               else StatsOf(lines[..i], entry)
  {
    assert lines[..i + 1][..i] == lines[..i];
    var own := LinesOf(lines[..i], entry);
    assert (own + [lines[i]])[..|own|] == own;
  }

  /** Every aggregate is that of its entry over these lines. */
  ghost predicate Aggregated(stats: map<Id, Stats>, lines: seq<Line>) {
    forall entry :: entry in stats ==> stats[entry] == StatsOf(lines, entry)
  }

  function WithRow(stats: map<Id, Stats>, l: Line): map<Id, Stats> {
    if l.entry in stats then stats[l.entry := WithLine(stats[l.entry], l)] else stats
  }

  lemma OneRowMore(stats: map<Id, Stats>, lines: seq<Line>, i: nat)
    requires i < |lines| && Aggregated(stats, lines[..i])
    ensures Aggregated(WithRow(stats, lines[i]), lines[..i + 1])
    ensures WithRow(stats, lines[i]).Keys == stats.Keys
  {
    forall entry | entry in stats
      ensures WithRow(stats, lines[i])[entry] == StatsOf(lines[..i + 1], entry)
    {
      OneLineMore(lines, i, entry);
    }
  }

  predicate BreaksRule(s: Stats) {
    s.count < 2 || s.debit != s.credit
  }

  function PostedEntries(db: Db): set<Id> {
    set entry | entry in db.entries && db.entries[entry] == POSTED
  }

  /** POSTED entries, each joined with its lines if it has any, kept when they break the rule. */
  method ViolationReport(db: Db) returns (bad: set<Id>)
    ensures forall entry :: entry in bad <==> !Sound(db, entry)
  {
    var stats := map entry | entry in PostedEntries(db) :: Stats(0, 0, 0);
    var i := 0;
    while i < |db.lines|
      invariant 0 <= i <= |db.lines|
      invariant stats.Keys == PostedEntries(db) && Aggregated(stats, db.lines[..i])
    {
      OneRowMore(stats, db.lines, i);
      if db.lines[i].entry in stats {
        stats := stats[db.lines[i].entry := WithLine(stats[db.lines[i].entry], db.lines[i])];
      }
      i := i + 1;
    }
    assert db.lines[..i] == db.lines;
    bad := set entry | entry in stats && BreaksRule(stats[entry]);
    forall entry
      ensures entry in bad <==> !Sound(db, entry)
    {
      assert entry in stats ==> stats[entry] == StatsOf(db.lines, entry);
    }
  }

  // ----- a session -----

  class Session {
    var entries: map<Id, string>
    var lines: seq<Line>
    var events: seq<Event>
    var saved: Db

    function Tables(): Db
      reads this
    {
      Db(entries, lines)
    }

    constructor (db: Db)
      ensures Tables() == db && saved == db && events == []
    {
      entries, lines := db.entries, db.lines;
      saved, events := db, [];
    }

    method Begin()
      modifies this`saved, this`events
      ensures saved == Tables() && events == []
    {
      saved, events := Tables(), [];
    }

    /** Undo everything since Begin. */
    method Rollback()
      modifies this
      ensures Tables() == saved == old(saved) && events == []
    {
      entries, lines, events := saved.entries, saved.lines, [];
    }

    method InsertEntry(entry: Id, status: string) returns (ok: bool)
      modifies this`entries, this`events
      ensures ok <==> Execute(Tx(old(Tables()), old(events)), Op.InsertEntry(entry, status)).Some?
      ensures ok ==>
        Some(Tx(Tables(), events)) == Execute(Tx(old(Tables()), old(events)), Op.InsertEntry(entry, status))
      ensures !ok ==> Tables() == old(Tables()) && events == old(events)
    {
      ok := entry !in entries;
      if ok {
        entries := entries[entry := status];
        events := events + [EntryWritten(entry)];
      }
    }

    method UpdateEntry(entry: Id, status: string)
      modifies this`entries, this`events
      ensures Some(Tx(Tables(), events)) == Execute(Tx(old(Tables()), old(events)), Op.UpdateEntry(entry, status))
    {
      if entry in entries {
        entries := entries[entry := status];
        events := events + [EntryWritten(entry)];
      }
    }

    /** Deleting an entry queues nothing for the entry itself; the cascade deletes its lines one by one. */
    method DeleteEntry(entry: Id)
      modifies this`entries, this`lines, this`events
      ensures Some(Tx(Tables(), events)) == Execute(Tx(old(Tables()), old(events)), Op.DeleteEntry(entry))
    {
      if entry !in entries {
        return;
      }
      entries := entries - {entry};
      var kept: seq<Line> := [];
      var i := 0;
      while i < |lines|
        invariant 0 <= i <= |lines| && lines == old(lines) && entries == old(entries) - {entry}
        invariant kept == LinesWithout(lines[..i], entry)
        invariant events == old(events) + CascadeEvents(lines[..i], entry)
      {
        assert lines[..i + 1][..i] == lines[..i];
        if lines[i].entry == entry {
          events := events + [LineDeleted(lines[i])];
        } else {
          kept := kept + [lines[i]];
        }
        i := i + 1;
      }
      assert lines[..i] == lines;
      lines := kept;
    }

    method InsertLine(row: Line) returns (ok: bool)
      modifies this`lines, this`events
      ensures ok <==> Execute(Tx(old(Tables()), old(events)), Op.InsertLine(row)).Some?
      ensures ok ==> Some(Tx(Tables(), events)) == Execute(Tx(old(Tables()), old(events)), Op.InsertLine(row))
      ensures !ok ==> Tables() == old(Tables()) && events == old(events)
    {
      ok := row.entry in entries;
      if ok {
        lines := lines + [row];
        events := events + [LineInserted(row)];
      }
    }

    method UpdateLine(at: nat, row: Line) returns (ok: bool)
      modifies this`lines, this`events
      ensures ok <==> Execute(Tx(old(Tables()), old(events)), Op.UpdateLine(at, row)).Some?
      ensures ok ==> Some(Tx(Tables(), events)) == Execute(Tx(old(Tables()), old(events)), Op.UpdateLine(at, row))
      ensures !ok ==> Tables() == old(Tables()) && events == old(events)
    {
      if at >= |lines| {
        return true;
      }
      ok := row.entry in entries;
      if ok {
        events := events + [LineUpdated(lines[at], row)];
        lines := lines[at := row];
      }
    }

    method DeleteLine(at: nat)
      modifies this`lines, this`events
      ensures Some(Tx(Tables(), events)) == Execute(Tx(old(Tables()), old(events)), Op.DeleteLine(at))
    {
      if at < |lines| {
        events := events + [LineDeleted(lines[at])];
        lines := lines[..at] + lines[at + 1..];
      }
    }

    /** Fire every queued event against the tables as they are now; the first failure undoes the transaction. */
    method Commit() returns (committed: bool)
      modifies this
      ensures committed <==> AllPass(old(Tables()), old(events))
      ensures Tables() == if committed then old(Tables()) else old(saved)
      ensures saved == Tables() && events == []
    {
      var i := 0;
      while i < |events|
        invariant 0 <= i <= |events|
        invariant Tables() == old(Tables()) && events == old(events) && saved == old(saved)
        invariant forall k :: 0 <= k < i ==> Sound(Tables(), Checked(events[k]))
      {
        var raised := FireTrigger(Tables(), events[i]);
        if raised {
          Rollback();
          return false;
        }
        i := i + 1;
      }
      committed := true;
      saved, events := Tables(), [];
    }

    /** BEGIN; the statements; COMMIT. A statement that fails undoes the transaction at once. */
    method Run(ops: seq<Op>) returns (committed: bool)
      modifies this
      ensures Tables() == Transact(old(Tables()), ops)
      ensures committed <==> Commits(old(Tables()), ops)
      ensures saved == Tables() && events == []
    {
      ghost var before := Tables();
      Begin();
      var i := 0;
      while i < |ops|
        invariant 0 <= i <= |ops| && saved == before
        invariant ExecuteAll(before, ops[..i]) == Some(Tx(Tables(), events))
      {
        assert ops[..i + 1][..i] == ops[..i];
        var ok := Perform(ops[i]);
        if !ok {
          FailedPrefix(before, ops, i + 1);
          Rollback();
          return false;
        }
        i := i + 1;
      }
      assert ops[..i] == ops;
      committed := Commit();
    }

    method Perform(op: Op) returns (ok: bool)
      modifies this
      ensures ok <==> Execute(Tx(old(Tables()), old(events)), op).Some?
      ensures ok ==> Some(Tx(Tables(), events)) == Execute(Tx(old(Tables()), old(events)), op)
      ensures saved == old(saved)
    {
      ok := true;
      match op {
        case InsertEntry(entry, status) => ok := this.InsertEntry(entry, status);
        case UpdateEntry(entry, status) => this.UpdateEntry(entry, status);
        case DeleteEntry(entry) => this.DeleteEntry(entry);
        case InsertLine(row) => ok := this.InsertLine(row);
        case UpdateLine(at, row) => ok := this.UpdateLine(at, row);
        case DeleteLine(at) => this.DeleteLine(at);
      }
    }
  }

  lemma {:induction false} FailedPrefix(db: Db, ops: seq<Op>, k: nat)
    requires k <= |ops| && ExecuteAll(db, ops[..k]).None?
    ensures ExecuteAll(db, ops).None?
  {
    if k == |ops| {
      assert ops[..k] == ops;
    } else {
      assert ops[..|ops| - 1][..k] == ops[..k];
      FailedPrefix(db, ops[..|ops| - 1], k);
    }
  }
}
