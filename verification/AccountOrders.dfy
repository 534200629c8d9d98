/**
The hyphenation migration with the rows visited in any order: neither direction's query fixes one, and
the two need not agree.
*/
module AccountOrders {
  import opened Options
  import opened AccountCodes

  /** The table once the rows at these positions have been renamed. */
  function RenamedIn(rows: seq<Account>, codes: seq<string>, done: set<nat>): seq<Account>
    requires |codes| == |rows|
  {
    seq(|rows|, i requires 0 <= i < |rows| => if i in done then rows[i].(code := codes[i]) else rows[i])
  }

  function Positions(order: seq<nat>): set<nat> {
    set i | i in order
  }

  predicate VisitsAll(order: seq<nat>, n: nat) {
    forall i: nat :: i < n ==> i in order
  }

  /** Renaming in this order never breaks the uniqueness of (company, code). */
  predicate RunsThrough(rows: seq<Account>, codes: seq<string>, order: seq<nat>)
    requires |codes| == |rows|
  {
    forall k :: 0 <= k <= |order| ==> UniqueCodes(RenamedIn(rows, codes, Positions(order[..k])))
  }

  function UpgradeIn(rows: seq<Account>, ranges: seq<Range>, order: seq<nat>): Option<seq<Account>> {
    var codes := NewCodes(rows, Prefixes(ranges));
    if RunsThrough(rows, codes, order) then Some(AddHeaders(RenamedIn(rows, codes, Positions(order)), ranges)) else None
  }

  function DowngradeIn(rows: seq<Account>, ranges: seq<Range>, order: seq<nat>): Option<seq<Account>> {
    var left := DropHeaders(rows, ranges);
    var codes := OldCodes(left, Prefixes(ranges));
    if RunsThrough(left, codes, order) then Some(RenamedIn(left, codes, Positions(order))) else None
  }

  /** Upgrade in one order, downgrade in another. */
  function UpAndDownIn(rows: seq<Account>, ranges: seq<Range>, up: seq<nat>, back: seq<nat>): Option<seq<Account>> {
    match UpgradeIn(rows, ranges, up)
    case None => None
    case Some(upgraded) => DowngradeIn(upgraded, ranges, back)
  }

  // ----- any order -----

  lemma AllRenamed(rows: seq<Account>, codes: seq<string>, order: seq<nat>)
    requires |codes| == |rows| && VisitsAll(order, |rows|)
    ensures RenamedIn(rows, codes, Positions(order)) == Renamed(rows, codes, |rows|)
  {
  }

  /** Uncrossed renaming to distinct codes runs through in whatever order. */
  lemma UncrossedRunsThrough(rows: seq<Account>, codes: seq<string>, order: seq<nat>)
    requires |codes| == |rows| && UniqueCodes(rows) && DistinctTargets(rows, codes) && NoCrossing(rows, codes)
    ensures RunsThrough(rows, codes, order)
  {
  }

  lemma GoodChartComesBackInAnyOrder(rows: seq<Account>, ranges: seq<Range>, up: seq<nat>, back: seq<nat>)
    requires UniqueCodes(rows) && HyphenFree(Prefixes(ranges)) && Restorable(rows, ranges)
    requires VisitsAll(up, |rows|) && VisitsAll(back, |rows|)
    ensures UpAndDownIn(rows, ranges, up, back) == Some(rows)
  {
    var ps := Prefixes(ranges);
    var codes := NewCodes(rows, ps);
    NewCodesDistinct(rows, ps);
    UncrossedRunsThrough(rows, codes, up);
    AllRenamed(rows, codes, up);
    var renamed := Renamed(rows, codes, |rows|);
    NothingDropped(rows, ranges);
    RenamedBackUncrossed(rows, ps);
    UncrossedRunsThrough(renamed, OldCodes(renamed, ps), back);
    AllRenamed(renamed, OldCodes(renamed, ps), back);
    RenameBack(rows, ps);
  }

  /** Without victims, the deletion takes only what the creation added. */
  lemma NothingDropped(rows: seq<Account>, ranges: seq<Range>)
    requires forall i :: 0 <= i < |rows| ==> !IsVictim(rows[i], ranges)
    ensures var renamed := Renamed(rows, NewCodes(rows, Prefixes(ranges)), |rows|);
            DropHeaders(AddHeaders(renamed, ranges), ranges) == renamed
  {
    var renamed := Renamed(rows, NewCodes(rows, Prefixes(ranges)), |rows|);
    DropAfterAdd(renamed, ranges);
    DropSize(renamed, ranges);
    assert forall i :: 0 <= i < |rows| ==> renamed[i] == rows[i].(code := Rewrite(rows[i].code, Prefixes(ranges)));
  }

  /** The way back is uncrossed when the way there is. */
  lemma RenamedBackUncrossed(rows: seq<Account>, ps: seq<string>)
    requires UniqueCodes(rows) && HyphenFree(ps) && NoCrossing(rows, NewCodes(rows, ps))
    requires forall i :: 0 <= i < |rows| ==> !LosesLineBreak(rows[i].code, ps)
    ensures var renamed := Renamed(rows, NewCodes(rows, ps), |rows|);
            var back := OldCodes(renamed, ps);
            UniqueCodes(renamed) && DistinctTargets(renamed, back) && NoCrossing(renamed, back)
  {
    var codes := NewCodes(rows, ps);
    var renamed := Renamed(rows, codes, |rows|);
    var back := OldCodes(renamed, ps);
    NewCodesDistinct(rows, ps);
    forall i | 0 <= i < |rows|
      ensures back[i] == rows[i].code && renamed[i].code == codes[i] && renamed[i].company == rows[i].company
    {
      CodeRoundTrip(rows[i].code, ps);
    }
  }

  // ----- the order of the table is one of them -----

  function TableOrder(n: nat): seq<nat> {
    seq(n, i requires 0 <= i < n => i)
  }

  lemma TableOrderPrefix(n: nat, k: nat)
    requires k <= n
    ensures forall i: nat :: i in Positions(TableOrder(n)[..k]) <==> i < k
  {
    var front := TableOrder(n)[..k];
    forall i: nat | i < k
      ensures i in front
    {
      assert front[i] == i;
    }
  }

  lemma SameSteps(rows: seq<Account>, codes: seq<string>, n: nat, k: nat)
    requires |codes| == |rows| <= n && k <= n
    ensures RenamedIn(rows, codes, Positions(TableOrder(n)[..k])) == Renamed(rows, codes, k)
    ensures k >= |rows| ==> Renamed(rows, codes, k) == Renamed(rows, codes, |rows|)
  {
    TableOrderPrefix(n, k);
  }

  lemma TableOrderRuns(rows: seq<Account>, codes: seq<string>, n: nat)
    requires |codes| == |rows| <= n
    ensures RunsThrough(rows, codes, TableOrder(n)) <==> SafeRename(rows, codes)
    ensures RenamedIn(rows, codes, Positions(TableOrder(n))) == Renamed(rows, codes, |rows|)
  {
    forall k | 0 <= k <= n
      ensures RenamedIn(rows, codes, Positions(TableOrder(n)[..k])) == Renamed(rows, codes, k)
      ensures k >= |rows| ==> Renamed(rows, codes, k) == Renamed(rows, codes, |rows|)
    {
      SameSteps(rows, codes, n, k);
    }
    assert TableOrder(n)[..n] == TableOrder(n);
    if SafeRename(rows, codes) {
      forall k | 0 <= k <= n
        ensures UniqueCodes(Renamed(rows, codes, k))
      {
        assert UniqueCodes(Renamed(rows, codes, if k <= |rows| then k else |rows|));
      }
    }
    if RunsThrough(rows, codes, TableOrder(n)) {
      forall k | 0 <= k <= |rows|
        ensures UniqueCodes(Renamed(rows, codes, k))
      {
        assert UniqueCodes(RenamedIn(rows, codes, Positions(TableOrder(n)[..k])));
      }
    }
  }

  lemma TableOrderUpAndDown(rows: seq<Account>, ranges: seq<Range>)
    ensures UpAndDownIn(rows, ranges, TableOrder(|rows|), TableOrder(|rows|)) == UpAndDown(rows, ranges)
  {
    var codes := NewCodes(rows, Prefixes(ranges));
    var renamed := Renamed(rows, codes, |rows|);
    TableOrderRuns(rows, codes, |rows|);
    DropAfterAdd(renamed, ranges);
    DropSize(renamed, ranges);
    var left := DropHeaders(AddHeaders(renamed, ranges), ranges);
    TableOrderRuns(left, OldCodes(left, Prefixes(ranges)), |rows|);
  }

  /**
  Downgrading after upgrading gives every account back, whatever order each direction visits the rows
  in, if and only if the chart is restorable.
  */
  lemma RoundTripInEveryOrder(rows: seq<Account>, ranges: seq<Range>)
    requires UniqueCodes(rows) && HyphenFree(Prefixes(ranges))
    ensures (forall up, back :: VisitsAll(up, |rows|) && VisitsAll(back, |rows|)
                                ==> UpAndDownIn(rows, ranges, up, back) == Some(rows))
            <==> Restorable(rows, ranges)
  {
    if Restorable(rows, ranges) {
      forall up, back | VisitsAll(up, |rows|) && VisitsAll(back, |rows|)
        ensures UpAndDownIn(rows, ranges, up, back) == Some(rows)
      {
        GoodChartComesBackInAnyOrder(rows, ranges, up, back);
      }
    } else {
      var order := TableOrder(|rows|);
      forall i: nat | i < |rows|
        ensures i in order
      {
        assert order[i] == i;
      }
      TableOrderUpAndDown(rows, ranges);
      MigrationRoundTrip(rows, ranges);
      assert UpAndDownIn(rows, ranges, order, order) != Some(rows);
    }
  }
}
