/**
The change stream: a cursor that polls an append-only log in batches. What the stream emits is
compared with the log itself, for any batch size and any growth of the log between polls.
*/
module ChangeFeed {

  datatype Row = Row(id: int, payload: string)

  /** Rows are read in increasing id order. */
  ghost predicate Sorted(log: seq<Row>) {
    forall i, j :: 0 <= i < j < |log| ==> log[i].id < log[j].id
  }

  /** The rows with lo < id <= hi, in log order. */
  function Between(log: seq<Row>, lo: int, hi: int): seq<Row> {
    if log == [] then []
    else
      var rest := Between(log[..|log| - 1], lo, hi);
      var last := log[|log| - 1];
      if lo < last.id <= hi then rest + [last] else rest
  }

  /** The rows with an id above the cursor, in log order. */
  function Above(log: seq<Row>, cursor: int): seq<Row> {
    if log == [] then []
    else
      var rest := Above(log[..|log| - 1], cursor);
      var last := log[|log| - 1];
      if last.id > cursor then rest + [last] else rest
  }

  /** One query: the first rows above the cursor, at most limit of them. */
  function Since(log: seq<Row>, cursor: int, limit: nat): seq<Row> {
    var rows := Above(log, cursor);
    if |rows| <= limit then rows else rows[..limit]
  }

  datatype Progress = Progress(cursor: int, emitted: seq<Row>)

  /** The stream after one poll for each of these states of the log. */
  function Watch(logs: seq<seq<Row>>, cursor: int, limit: nat): Progress {
    if logs == [] then Progress(cursor, [])
    else
      var p := Watch(logs[..|logs| - 1], cursor, limit);
      var rows := Since(logs[|logs| - 1], p.cursor, limit);
      Progress(if rows == [] then p.cursor else rows[|rows| - 1].id, p.emitted + rows)
  }

  /** Rows are never changed or removed, and each poll reads them in id order. */
  ghost predicate Growing(logs: seq<seq<Row>>) {
    && (forall i :: 0 <= i < |logs| ==> Sorted(logs[i]))
    && (forall i, j, row :: 0 <= i <= j < |logs| && row in logs[i] ==> row in logs[j])
  }

  /** Row becomes visible at poll i although the stream is already past it. */
  ghost predicate LateRow(logs: seq<seq<Row>>, cursor: int, limit: nat, i: nat, row: Row) {
    && 0 < i < |logs|
    && row in logs[i] && row !in logs[i - 1]
    && cursor < row.id <= Watch(logs[..i], cursor, limit).cursor
  }

  ghost predicate NoLateRow(logs: seq<seq<Row>>, cursor: int, limit: nat) {
    forall i: nat, row :: !LateRow(logs, cursor, limit, i, row)
  }

  // ----- lemmas on filters -----

  lemma {:induction false} BetweenRows(log: seq<Row>, lo: int, hi: int)
    requires Sorted(log)
    ensures Sorted(Between(log, lo, hi))
    ensures forall row :: row in Between(log, lo, hi) <==> row in log && lo < row.id <= hi
  {
    if log != [] {
      var front, last := log[..|log| - 1], log[|log| - 1];
      BetweenRows(front, lo, hi);
      assert log == front + [last];
      assert forall row :: row in front ==> row.id < last.id;
    }
  }

  lemma {:induction false} AboveRows(log: seq<Row>, cursor: int)
    requires Sorted(log)
    ensures Sorted(Above(log, cursor))
    ensures forall row :: row in Above(log, cursor) <==> row in log && row.id > cursor
  {
    if log != [] {
      var front, last := log[..|log| - 1], log[|log| - 1];
      AboveRows(front, cursor);
      assert log == front + [last];
      assert forall row :: row in front ==> row.id < last.id;
    }
  }

  lemma SameLast(a: seq<Row>, b: seq<Row>)
    requires Sorted(a) && Sorted(b) && a != [] && b != []
    requires forall row :: row in a <==> row in b
    ensures a[|a| - 1] == b[|b| - 1]
    ensures var a', b' := a[..|a| - 1], b[..|b| - 1]; forall row :: row in a' ==> row in b'
  {
    assert a[|a| - 1] in b && b[|b| - 1] in a;
    var a', b' := a[..|a| - 1], b[..|b| - 1];
    forall row | row in a'
      ensures row in b'
    {
      assert row in b;
    }
  }

  /** Two sorted sequences with the same rows are the same sequence. */
  lemma {:induction false} SortedUnique(a: seq<Row>, b: seq<Row>)
    requires Sorted(a) && Sorted(b)
    requires forall row :: row in a <==> row in b
    ensures a == b
  {
    assert |b| > 0 ==> b[0] in a;
    assert |a| > 0 ==> a[0] in b;
    if a != [] {
      SameLast(a, b);
      SameLast(b, a);
      SortedUnique(a[..|a| - 1], b[..|b| - 1]);
      assert a == a[..|a| - 1] + [a[|a| - 1]];
      assert b == b[..|b| - 1] + [b[|b| - 1]];
    }
  }

  lemma FrontOfSorted(all: seq<Row>, n: nat, row: Row)
    requires Sorted(all) && 0 < n <= |all| && row in all
    ensures row in all[..n] <==> row.id <= all[n - 1].id
  {
    var k :| 0 <= k < |all| && all[k] == row;
    if k < n {
      assert all[..n][k] == row;
    }
  }

  /** What one poll adds, said without the batch: the rows up to the new cursor. */
  lemma PollAdds(log: seq<Row>, cursor: int, limit: nat)
    requires Sorted(log)
    ensures var rows := Since(log, cursor, limit);
            var next := if rows == [] then cursor else rows[|rows| - 1].id;
            && cursor <= next
            && Sorted(rows)
            && (forall row :: row in rows <==> row in log && cursor < row.id <= next)
  {
    AboveRows(log, cursor);
    var all := Above(log, cursor);
    var rows := Since(log, cursor, limit);
    assert rows == all[..|rows|];
    if rows != [] {
      assert rows[|rows| - 1] in all;
      forall row | row in all
        ensures row in rows <==> row.id <= rows[|rows| - 1].id
      {
        FrontOfSorted(all, |rows|, row);
      }
    }
  }

  // ----- the stream -----

  lemma JoinSorted(a: seq<Row>, b: seq<Row>, mid: int)
    requires Sorted(a) && Sorted(b)
    requires forall row :: row in a ==> row.id <= mid
    requires forall row :: row in b ==> row.id > mid
    ensures Sorted(a + b)
  {
    assert forall k :: 0 <= k < |a| ==> a[k] in a;
    assert forall k :: 0 <= k < |b| ==> b[k] in b;
  }

  /** In strictly increasing id order above the start, up to the cursor, which is the last row's id. */
  ghost predicate InOrder(emitted: seq<Row>, start: int, cursor: int) {
    && Sorted(emitted)
    && start <= cursor
    && (forall row :: row in emitted ==> start < row.id <= cursor)
    && cursor == if emitted == [] then start else emitted[|emitted| - 1].id
  }

  lemma InOrderJoins(a: seq<Row>, b: seq<Row>, start: int, mid: int, end: int)
    requires InOrder(a, start, mid) && InOrder(b, mid, end)
    ensures InOrder(a + b, start, end)
  {
    JoinSorted(a, b, mid);
  }

  /** The emitted rows come in strictly increasing id order, so none comes twice, and all are above the start. */
  lemma {:induction false} EmittedInOrder(logs: seq<seq<Row>>, cursor: int, limit: nat)
    requires forall i :: 0 <= i < |logs| ==> Sorted(logs[i])
    ensures InOrder(Watch(logs, cursor, limit).emitted, cursor, Watch(logs, cursor, limit).cursor)
  {
    if logs != [] {
      var n := |logs| - 1;
      EmittedInOrder(logs[..n], cursor, limit);
      var p, q := Watch(logs[..n], cursor, limit), Watch(logs, cursor, limit);
      PollAdds(logs[n], p.cursor, limit);
      InOrderJoins(p.emitted, Since(logs[n], p.cursor, limit), cursor, p.cursor, q.cursor);
    }
  }

  /** And they are rows of the log, still visible at the last poll. */
  lemma {:induction false} EmittedVisible(logs: seq<seq<Row>>, cursor: int, limit: nat)
    requires Growing(logs) && logs != []
    ensures forall row :: row in Watch(logs, cursor, limit).emitted ==> row in logs[|logs| - 1]
  {
    var n := |logs| - 1;
    PollAdds(logs[n], Watch(logs[..n], cursor, limit).cursor, limit);
    if n > 0 {
      EmittedVisible(logs[..n], cursor, limit);
      assert logs[..n][n - 1] == logs[n - 1];
    }
  }

  /** Rows emitted from poll i on are above the cursor before poll i. */
  lemma {:induction false} EmittedLater(logs: seq<seq<Row>>, cursor: int, limit: nat, i: nat)
    requires Growing(logs) && i <= |logs|
    ensures Watch(logs[..i], cursor, limit).cursor <= Watch(logs, cursor, limit).cursor
    ensures forall row :: row in Watch(logs, cursor, limit).emitted ==>
      row in Watch(logs[..i], cursor, limit).emitted || row.id > Watch(logs[..i], cursor, limit).cursor
  {
    if i == |logs| {
      assert logs[..i] == logs;
    } else {
      var before := logs[..|logs| - 1];
      EmittedLater(before, cursor, limit, i);
      assert before[..i] == logs[..i];
      PollAdds(logs[|logs| - 1], Watch(before, cursor, limit).cursor, limit);
    }
  }

  lemma NoLateRowBefore(logs: seq<seq<Row>>, cursor: int, limit: nat, n: nat)
    requires n <= |logs| && NoLateRow(logs, cursor, limit)
    ensures NoLateRow(logs[..n], cursor, limit)
  {
    forall i: nat, row
      ensures !LateRow(logs[..n], cursor, limit, i, row)
    {
      assert i <= n ==> logs[..n][..i] == logs[..i];
      assert !LateRow(logs, cursor, limit, i, row);
    }
  }

  /** Without late rows, what was visible behind the cursor at the last poll is what is visible there now. */
  lemma NothingNewBehind(logs: seq<seq<Row>>, cursor: int, limit: nat, row: Row)
    requires |logs| > 1 && NoLateRow(logs, cursor, limit)
    requires row in logs[|logs| - 1] && cursor < row.id <= Watch(logs[..|logs| - 1], cursor, limit).cursor
    ensures row in logs[|logs| - 2]
  {
    assert !LateRow(logs, cursor, limit, |logs| - 1, row);
  }

  lemma {:induction false} EmitsAllInOrder(logs: seq<seq<Row>>, cursor: int, limit: nat)
    requires Growing(logs) && logs != [] && NoLateRow(logs, cursor, limit)
    ensures var p := Watch(logs, cursor, limit);
            forall row :: row in logs[|logs| - 1] && cursor < row.id <= p.cursor ==> row in p.emitted
  {
    var n := |logs| - 1;
    var before := logs[..n];
    var p := Watch(before, cursor, limit);
    PollAdds(logs[n], p.cursor, limit);
    if before != [] {
      NoLateRowBefore(logs, cursor, limit, n);
      EmitsAllInOrder(before, cursor, limit);
      forall row | row in logs[n] && cursor < row.id <= p.cursor
        ensures row in p.emitted
      {
        NothingNewBehind(logs, cursor, limit, row);
      }
    }
  }

  /** A late row is never emitted. */
  lemma LateRowIsMissed(logs: seq<seq<Row>>, cursor: int, limit: nat, i: nat, row: Row)
    requires Growing(logs) && LateRow(logs, cursor, limit, i, row)
    ensures row in logs[|logs| - 1] && cursor < row.id <= Watch(logs, cursor, limit).cursor
    ensures row !in Watch(logs, cursor, limit).emitted
  {
    EmittedLater(logs, cursor, limit, i);
    EmittedVisible(logs[..i], cursor, limit);
    assert logs[..i][i - 1] == logs[i - 1];
    assert row !in Watch(logs[..i], cursor, limit).emitted;
  }

  /**
  Whatever the batch size, the stream has emitted exactly the log between its start and its cursor,
  each row once and in order, if and only if no row became visible behind the cursor.
  */
  lemma StreamIsLog(logs: seq<seq<Row>>, cursor: int, limit: nat)
    requires Growing(logs) && logs != []
    ensures var p := Watch(logs, cursor, limit);
            p.emitted == Between(logs[|logs| - 1], cursor, p.cursor) <==> NoLateRow(logs, cursor, limit)
  {
    var p := Watch(logs, cursor, limit);
    var log := logs[|logs| - 1];
    EmittedInOrder(logs, cursor, limit);
    EmittedVisible(logs, cursor, limit);
    BetweenRows(log, cursor, p.cursor);
    if i: nat, row :| LateRow(logs, cursor, limit, i, row) {
      LateRowIsMissed(logs, cursor, limit, i, row);
    } else {
      EmitsAllInOrder(logs, cursor, limit);
      SortedUnique(p.emitted, Between(log, cursor, p.cursor));
    }
  }

  /** Two rows that become visible in the wrong order: the lower one is late, and is never emitted. */
  lemma LowerRowCommittedLater(low: Row, high: Row, cursor: int, limit: nat)
    requires cursor < low.id < high.id && limit > 0
    ensures var logs := [[high], [low, high]];
            && Growing(logs) && LateRow(logs, cursor, limit, 1, low)
            && low !in Watch(logs, cursor, limit).emitted
  {
    var logs := [[high], [low, high]];
    TwoLogsGrow(low, high);
    assert logs[..1] == [[high]];
    OneRowEmitted(high, cursor, limit);
    assert low in logs[1] && low !in logs[0];
    LateRowIsMissed(logs, cursor, limit, 1, low);
  }

  lemma TwoLogsGrow(low: Row, high: Row)
    requires low.id < high.id
    ensures Growing([[high], [low, high]])
  {
    assert Sorted([low, high]) && high in [low, high];
  }

  lemma OneRowEmitted(row: Row, cursor: int, limit: nat)
    requires cursor < row.id && limit > 0
    ensures Watch([[row]], cursor, limit) == Progress(row.id, [row])
  {
    assert [[row]][..0] == [] && [row][..0] == [];
    assert Above([row], cursor) == [row];
  }

  /** Rows that become visible in id order, as an append-only log with one writer gives. */
  ghost predicate AppendOnly(logs: seq<seq<Row>>) {
    && (forall i :: 0 <= i < |logs| ==> Sorted(logs[i]))
    && (forall i, j :: 0 <= i <= j < |logs| ==> logs[i] <= logs[j])
  }

  lemma SeenBefore(a: seq<Row>, b: seq<Row>, seen: Row, row: Row)
    requires Sorted(b) && a <= b && seen in a && row in b && row.id <= seen.id
    ensures row in a
  {
    var m :| 0 <= m < |a| && a[m] == seen;
    var k :| 0 <= k < |b| && b[k] == row;
    assert b[m] == seen;
    assert k <= m;
  }

  lemma BehindIsSeen(logs: seq<seq<Row>>, cursor: int, limit: nat, i: nat, row: Row)
    requires AppendOnly(logs) && 0 < i < |logs|
    requires row in logs[i] && cursor < row.id <= Watch(logs[..i], cursor, limit).cursor
    ensures row in logs[i - 1]
  {
    var seen := logs[..i];
    assert Growing(seen);
    EmittedInOrder(seen, cursor, limit);
    EmittedVisible(seen, cursor, limit);
    var emitted := Watch(seen, cursor, limit).emitted;
    var last := emitted[|emitted| - 1];
    assert last in emitted && seen[|seen| - 1] == logs[i - 1];
    SeenBefore(logs[i - 1], logs[i], last, row);
  }

  lemma AppendOnlyHasNoLateRow(logs: seq<seq<Row>>, cursor: int, limit: nat)
    requires AppendOnly(logs)
    ensures Growing(logs) && NoLateRow(logs, cursor, limit)
  {
    forall i: nat, row | 0 < i < |logs| && row in logs[i] && cursor < row.id <= Watch(logs[..i], cursor, limit).cursor
      ensures row in logs[i - 1]
    {
      BehindIsSeen(logs, cursor, limit, i, row);
    }
  }

  lemma InOrderFacts(logs: seq<seq<Row>>, cursor: int, limit: nat)
    requires AppendOnly(logs) && logs != []
    ensures var p := Watch(logs, cursor, limit);
            && Sorted(p.emitted) && cursor <= p.cursor
            && (forall row :: row in p.emitted <==> row in logs[|logs| - 1] && cursor < row.id <= p.cursor)
  {
    AppendOnlyHasNoLateRow(logs, cursor, limit);
    EmittedInOrder(logs, cursor, limit);
    EmittedVisible(logs, cursor, limit);
    EmitsAllInOrder(logs, cursor, limit);
  }

  lemma ShortPollDrains(log: seq<Row>, cursor: int, limit: nat)
    requires Sorted(log) && |Since(log, cursor, limit)| < limit
    ensures var rows := Since(log, cursor, limit);
            forall row :: row in log ==> row.id <= if rows == [] then cursor else rows[|rows| - 1].id
  {
    AboveRows(log, cursor);
    var rows := Since(log, cursor, limit);
    assert rows == Above(log, cursor);
    forall row | row in log && row.id > cursor
      ensures rows != [] && row.id <= rows[|rows| - 1].id
    {
      var k :| 0 <= k < |rows| && rows[k] == row;
    }
  }

  /** A poll that comes back short of the limit has caught up with the log. */
  lemma ShortPollCatchesUp(logs: seq<seq<Row>>, cursor: int, limit: nat)
    requires AppendOnly(logs) && logs != []
    requires |Since(logs[|logs| - 1], Watch(logs[..|logs| - 1], cursor, limit).cursor, limit)| < limit
    ensures Watch(logs, cursor, limit).emitted == Above(logs[|logs| - 1], cursor)
  {
    var log := logs[|logs| - 1];
    InOrderFacts(logs, cursor, limit);
    ShortPollDrains(log, Watch(logs[..|logs| - 1], cursor, limit).cursor, limit);
    AboveRows(log, cursor);
    SortedUnique(Watch(logs, cursor, limit).emitted, Above(log, cursor));
  }

  /** What is above an emitted row is the rest of what was above the cursor. */
  lemma AboveSuffix(log: seq<Row>, cursor: int, k: nat)
    requires Sorted(log) && k <= |Above(log, cursor)|
    ensures var all := Above(log, cursor);
            Above(log, if k == 0 then cursor else all[k - 1].id) == all[k..]
  {
    var all := Above(log, cursor);
    AboveRows(log, cursor);
    if k > 0 {
      var last := all[k - 1];
      assert last in all;
      AboveRows(log, last.id);
      forall row
        ensures row in Above(log, last.id) <==> row in all[k..]
      {
        if row in all {
          FrontOfSorted(all, k, row);
          FrontOrRest(all, k, row);
        } else {
          assert row in all[k..] ==> row in all;
        }
      }
      SortedUnique(Above(log, last.id), all[k..]);
    }
  }

  lemma FrontOrRest(all: seq<Row>, k: nat, row: Row)
    requires Sorted(all) && k <= |all| && row in all
    ensures row in all[k..] <==> row !in all[..k]
  {
    assert all == all[..k] + all[k..];
  }

  function Min(a: nat, b: nat): nat {
    if a <= b then a else b
  }

  /** The stream after exactly the first k of these rows. */
  function Reached(all: seq<Row>, cursor: int, k: nat): Progress
    requires k <= |all|
  {
    Progress(if k == 0 then cursor else all[k - 1].id, all[..k])
  }

  function Take(rows: seq<Row>, limit: nat): seq<Row> {
    if |rows| <= limit then rows else rows[..limit]
  }

  /** One more poll */
  function Polled(p: Progress, rows: seq<Row>): Progress {
    Progress(if rows == [] then p.cursor else rows[|rows| - 1].id, p.emitted + rows)
  }

  lemma NextBatch(all: seq<Row>, cursor: int, k: nat, limit: nat)
    requires k <= |all|
    ensures Polled(Reached(all, cursor, k), Take(all[k..], limit)) == Reached(all, cursor, Min(k + limit, |all|))
  {
    var batch, next := Take(all[k..], limit), Min(k + limit, |all|);
    assert batch == all[k..next];
    assert all[..k] + all[k..next] == all[..next];
  }

  lemma OnePoll(log: seq<Row>, all: seq<Row>, cursor: int, k: nat, limit: nat)
    requires Sorted(log) && all == Above(log, cursor) && k <= |all|
    ensures Since(log, Reached(all, cursor, k).cursor, limit) == Take(all[k..], limit)
  {
    AboveSuffix(log, cursor, k);
  }

  /** What n polls can emit at most */
  function Quota(n: nat, limit: nat): nat {
    if n == 0 then 0 else Quota(n - 1, limit) + limit
  }

  lemma {:induction false} QuotaIsProduct(n: nat, limit: nat)
    ensures Quota(n, limit) == n * limit
  {
    if n > 0 {
      QuotaIsProduct(n - 1, limit);
      assert n * limit == (n - 1) * limit + limit;
    }
  }

  lemma LastPoll(logs: seq<seq<Row>>, cursor: int, limit: nat, p: Progress, rows: seq<Row>)
    requires logs != [] && Watch(logs[..|logs| - 1], cursor, limit) == p
    requires Since(logs[|logs| - 1], p.cursor, limit) == rows
    ensures Watch(logs, cursor, limit) == Polled(p, rows)
  {
  }

  /** One poll of the log takes the stream from k rows to limit more, or to the end. */
  predicate StepsFrom(log: seq<Row>, all: seq<Row>, cursor: int, limit: nat, k: nat)
    requires k <= |all|
  {
    Polled(Reached(all, cursor, k), Since(log, Reached(all, cursor, k).cursor, limit))
    == Reached(all, cursor, Min(k + limit, |all|))
  }

  ghost predicate StepsThrough(log: seq<Row>, all: seq<Row>, cursor: int, limit: nat) {
    forall k :: 0 <= k <= |all| ==> StepsFrom(log, all, cursor, limit, k)
  }

  lemma EveryPollSteps(log: seq<Row>, cursor: int, limit: nat)
    requires Sorted(log)
    ensures StepsThrough(log, Above(log, cursor), cursor, limit)
  {
    var all := Above(log, cursor);
    forall k | 0 <= k <= |all|
      ensures StepsFrom(log, all, cursor, limit, k)
    {
      OnePoll(log, all, cursor, k, limit);
      NextBatch(all, cursor, k, limit);
    }
  }

  lemma PollFrom(logs: seq<seq<Row>>, log: seq<Row>, all: seq<Row>, cursor: int, limit: nat, k: nat, next: nat)
    requires logs != [] && logs[|logs| - 1] == log && k <= |all| && StepsFrom(log, all, cursor, limit, k)
    requires Watch(logs[..|logs| - 1], cursor, limit) == Reached(all, cursor, k) && next == Min(k + limit, |all|)
    ensures Watch(logs, cursor, limit) == Reached(all, cursor, next)
  {
    var p := Reached(all, cursor, k);
    LastPoll(logs, cursor, limit, p, Since(log, p.cursor, limit));
  }

  /** How far n polls get among this many rows */
  function Reach(n: nat, limit: nat, size: nat): nat {
    Min(Quota(n, limit), size)
  }

  lemma ReachNext(n: nat, limit: nat, size: nat)
    ensures Reach(n + 1, limit, size) == Min(Reach(n, limit, size) + limit, size)
    ensures Reach(0, limit, size) == 0
  {
  }

  lemma {:induction false} PollsReach(logs: seq<seq<Row>>, log: seq<Row>, all: seq<Row>, cursor: int, limit: nat,
                                      reach: nat)
    requires StepsThrough(log, all, cursor, limit) && forall i :: 0 <= i < |logs| ==> logs[i] == log
    requires reach == Reach(|logs|, limit, |all|)
    ensures Watch(logs, cursor, limit) == Reached(all, cursor, reach)
  {
    if logs != [] {
      var n := |logs| - 1;
      var k := Reach(n, limit, |all|);
      ReachNext(n, limit, |all|);
      PollsReach(logs[..n], log, all, cursor, limit, k);
      PollFrom(logs, log, all, cursor, limit, k, reach);
    }
  }

  /** Progress: n polls of a log that stands still emit exactly the first n * limit rows above the cursor, or all. */
  lemma PollsProgress(logs: seq<seq<Row>>, log: seq<Row>, cursor: int, limit: nat)
    requires Sorted(log) && forall i :: 0 <= i < |logs| ==> logs[i] == log
    ensures var all := Above(log, cursor);
            Watch(logs, cursor, limit) == Reached(all, cursor, Min(|logs| * limit, |all|))
  {
    EveryPollSteps(log, cursor, limit);
    PollsReach(logs, log, Above(log, cursor), cursor, limit, Reach(|logs|, limit, |Above(log, cursor)|));
    QuotaIsProduct(|logs|, limit);
  }

  /**
  A client that stops anywhere, also in the middle of a batch, and resumes from the last row it got,
  with whatever batch size, ends up with the log between its first cursor and its last.
  */
  lemma ResumedIsLog(first: seq<seq<Row>>, second: seq<seq<Row>>, cursor: int, got: nat, limit: nat, limit': nat)
    requires first != [] && second != [] && AppendOnly(first + second)
    requires got <= |Watch(first, cursor, limit).emitted|
    ensures var part := Watch(first, cursor, limit).emitted[..got];
            var from := if got == 0 then cursor else part[got - 1].id;
            var rest := Watch(second, from, limit');
            part + rest.emitted == Between(second[|second| - 1], cursor, rest.cursor)
  {
    SplitAppendOnly(first, second);
    var emitted := Watch(first, cursor, limit).emitted;
    var part := emitted[..got];
    var from := if got == 0 then cursor else part[got - 1].id;
    var rest := Watch(second, from, limit');
    InOrderFacts(first, cursor, limit);
    InOrderFacts(second, from, limit');
    var seen, log := first[|first| - 1], second[|second| - 1];
    assert got > 0 ==> emitted[got - 1] in emitted;
    forall row
      ensures row in part <==> row in log && cursor < row.id <= from
    {
      PartRows(seen, log, emitted, cursor, Watch(first, cursor, limit).cursor, got, row);
    }
    JoinParts(part, rest.emitted, log, cursor, from, rest.cursor);
  }

  predicate SameStart(a: seq<Row>, b: seq<Row>) {
    a <= b || b <= a
  }

  /** Two stretches of a log from one cursor: one continues the other. */
  lemma StretchesAgree(log: seq<Row>, lo: int, a: int, b: int)
    requires Sorted(log) && lo <= a <= b
    ensures Between(log, lo, a) <= Between(log, lo, b)
  {
    BetweenRows(log, lo, a);
    BetweenRows(log, a, b);
    JoinParts(Between(log, lo, a), Between(log, a, b), log, lo, a, b);
  }

  /**
  So what a client has got that stopped and resumed, and what it would have got without stopping, differ
  at most in how far they have come: one is the beginning of the other.
  */
  lemma ResumeLosesNothing(first: seq<seq<Row>>, second: seq<seq<Row>>, cursor: int, got: nat, limit: nat, limit': nat)
    requires first != [] && second != [] && AppendOnly(first + second)
    requires got <= |Watch(first, cursor, limit).emitted|
    ensures var part := Watch(first, cursor, limit).emitted[..got];
            var from := if got == 0 then cursor else part[got - 1].id;
            SameStart(part + Watch(second, from, limit').emitted, Watch(first + second, cursor, limit).emitted)
  {
    var emitted := Watch(first, cursor, limit).emitted;
    var from := if got == 0 then cursor else emitted[got - 1].id;
    var rest, whole := Watch(second, from, limit'), Watch(first + second, cursor, limit);
    var log := second[|second| - 1];
    SplitAppendOnly(first, second);
    ResumedIsLog(first, second, cursor, got, limit, limit');
    AppendOnlyHasNoLateRow(first + second, cursor, limit);
    StreamIsLog(first + second, cursor, limit);
    assert (first + second)[|first + second| - 1] == log;
    CursorsAhead(first, second, cursor, got, limit, limit');
    if rest.cursor <= whole.cursor {
      StretchesAgree(log, cursor, rest.cursor, whole.cursor);
    } else {
      StretchesAgree(log, cursor, whole.cursor, rest.cursor);
    }
  }

  lemma CursorsAhead(first: seq<seq<Row>>, second: seq<seq<Row>>, cursor: int, got: nat, limit: nat, limit': nat)
    requires first != [] && second != [] && AppendOnly(first + second)
    requires got <= |Watch(first, cursor, limit).emitted|
    ensures var part := Watch(first, cursor, limit).emitted[..got];
            var from := if got == 0 then cursor else part[got - 1].id;
            cursor <= Watch(second, from, limit').cursor && cursor <= Watch(first + second, cursor, limit).cursor
  {
    SplitAppendOnly(first, second);
    var emitted := Watch(first, cursor, limit).emitted;
    EmittedInOrder(first, cursor, limit);
    assert got > 0 ==> emitted[got - 1] in emitted;
    EmittedInOrder(second, if got == 0 then cursor else emitted[got - 1].id, limit');
    EmittedInOrder(first + second, cursor, limit);
  }

  lemma JoinParts(part: seq<Row>, rest: seq<Row>, log: seq<Row>, lo: int, mid: int, hi: int)
    requires Sorted(log) && Sorted(part) && Sorted(rest) && lo <= mid <= hi
    requires forall row :: row in part <==> row in log && lo < row.id <= mid
    requires forall row :: row in rest <==> row in log && mid < row.id <= hi
    ensures part + rest == Between(log, lo, hi)
  {
    BetweenRows(log, lo, hi);
    assert forall k :: 0 <= k < |rest| ==> rest[k] in rest;
    assert forall k :: 0 <= k < |part| ==> part[k] in part;
    SortedUnique(part + rest, Between(log, lo, hi));
  }

  lemma SplitAppendOnly(first: seq<seq<Row>>, second: seq<seq<Row>>)
    requires first != [] && second != [] && AppendOnly(first + second)
    ensures AppendOnly(first) && AppendOnly(second) && first[|first| - 1] <= second[|second| - 1]
  {
    var all := first + second;
    assert forall i :: 0 <= i < |first| ==> first[i] == all[i];
    assert forall i :: 0 <= i < |second| ==> second[i] == all[|first| + i];
    assert all[|first| - 1] <= all[|all| - 1];
  }

  lemma PartRows(seen: seq<Row>, log: seq<Row>, emitted: seq<Row>, lo: int, hi: int, got: nat, row: Row)
    requires Sorted(seen) && Sorted(log) && seen <= log && Sorted(emitted) && got <= |emitted|
    requires forall r :: r in emitted <==> r in seen && lo < r.id <= hi
    ensures row in emitted[..got] <==> row in log && lo < row.id <= (if got == 0 then lo else emitted[got - 1].id)
  {
    if got > 0 {
      var last := emitted[got - 1];
      assert last in emitted;
      if row in log && lo < row.id <= last.id {
        var k :| 0 <= k < |seen| && seen[k] == last;
        var m :| 0 <= m < |log| && log[m] == row;
        assert log[k] == last && m <= k && seen[m] == row;
        assert row in emitted;
        var e :| 0 <= e < |emitted| && emitted[e] == row;
        assert e < got;
      }
    }
  }

  /** Emit a batch row by row, moving the cursor. */
  method EmitBatch(rows: seq<Row>, start: int, sent: seq<Row>) returns (cursor: int, emitted: seq<Row>)
    ensures emitted == sent + rows
    ensures cursor == if rows == [] then start else rows[|rows| - 1].id
  {
    cursor, emitted := start, sent;
    var i := 0;
    while i < |rows|
      invariant 0 <= i <= |rows|
      invariant emitted == sent + rows[..i]
      invariant cursor == if i == 0 then start else rows[i - 1].id
    {
      cursor := rows[i].id;
      emitted := emitted + [rows[i]];
      i := i + 1;
    }
  }

  /** The handler: poll, emit the batch, poll again. */
  method WatchChanges(logs: seq<seq<Row>>, start: int, batchSize: nat) returns (cursor: int, emitted: seq<Row>)
    ensures Progress(cursor, emitted) == Watch(logs, start, batchSize)
  {
    cursor, emitted := start, [];
    var poll := 0;
    while poll < |logs|
      invariant 0 <= poll <= |logs|
      invariant Progress(cursor, emitted) == Watch(logs[..poll], start, batchSize)
    {
      var rows := Since(logs[poll], cursor, batchSize);
      cursor, emitted := EmitBatch(rows, cursor, emitted);
      assert logs[..poll + 1][..poll] == logs[..poll];
      poll := poll + 1;
    }
    assert logs[..poll] == logs;
  }
}
