/** The hyphenation migration as it runs: loops that change the accounts table row by row, in place. */
module AccountChart {
  import opened Options
  import opened AccountCodes

  /** The match loop of the upgrade for one account. */
  method MatchPrefix(digits: string, ranges: seq<Range>) returns (prefix: Option<string>)
    ensures prefix == FirstPrefix(digits, Prefixes(ranges))
  {
    var k := 0;
    assert Prefixes(ranges)[0..] == Prefixes(ranges);
    while k < |ranges|
      invariant 0 <= k <= |ranges|
      invariant FirstPrefix(digits, Prefixes(ranges)) == FirstPrefix(digits, Prefixes(ranges)[k..])
    {
      assert Prefixes(ranges)[k..][0] == ranges[k].prefix && Prefixes(ranges)[k..][1..] == Prefixes(ranges)[k + 1..];
      if ranges[k].prefix <= digits {
        return Some(ranges[k].prefix);
      }
      k := k + 1;
    }
    prefix := None;
  }

  /** The upgrade of one code: set a letter aside, match, put the hyphens in. */
  method HyphenateCode(code: string, ranges: seq<Range>) returns (newCode: string)
    ensures newCode == Rewrite(code, Prefixes(ranges))
  {
    var digits, letter := code, "";
    if IsLettered(code) {
      var n := |Chomp(code)|;
      digits, letter := Chomp(code)[..n - 2], [Chomp(code)[n - 1]];
    }
    var prefix := MatchPrefix(digits, ranges);
    newCode := code;
    if prefix.Some? {
      newCode := prefix.value + "-" + digits[|prefix.value|..];
      if letter != "" {
        newCode := newCode + ("-" + letter);
      }
      RewriteFound(code, Prefixes(ranges), prefix.value, digits, letter);
    }
  }

  /** The match loop of the downgrade for one account. */
  method UnhyphenateCode(code: string, ranges: seq<Range>) returns (oldCode: string)
    ensures oldCode == Restore(code, Prefixes(ranges))
  {
    var k := 0;
    assert Prefixes(ranges)[0..] == Prefixes(ranges);
    while k < |ranges|
      invariant 0 <= k <= |ranges|
      invariant Restore(code, Prefixes(ranges)) == Restore(code, Prefixes(ranges)[k..])
    {
      var expected := ranges[k].prefix + "-";
      assert Prefixes(ranges)[k..][0] == ranges[k].prefix;
      assert Prefixes(ranges)[k..][1..] == Prefixes(ranges)[k + 1..];
      if expected <= code {
        return ranges[k].prefix + code[|expected|..];
      }
      k := k + 1;
    }
    oldCode := code;
  }

  class Chart {
    var rows: seq<Account>

    constructor (rows: seq<Account>)
      ensures this.rows == rows
    {
      this.rows := rows;
    }

    /** UPDATE accounts SET code: refused when another account of the company has the code. */
    method SetCode(at: nat, code: string) returns (ok: bool)
      requires at < |rows| && UniqueCodes(rows)
      modifies this
      ensures ok <==> UniqueCodes(old(rows)[at := old(rows)[at].(code := code)])
      ensures rows == if ok then old(rows)[at := old(rows)[at].(code := code)] else old(rows)
    {
      ok := forall i :: 0 <= i < |rows| && i != at && rows[i].company == rows[at].company ==> rows[i].code != code;
      ghost var after := rows[at := rows[at].(code := code)];
      if !ok {
        var i :| 0 <= i < |rows| && i != at && rows[i].company == rows[at].company && rows[i].code == code;
        assert after[i].code == after[at].code && after[i].company == after[at].company;
        return;
      }
      rows := rows[at := rows[at].(code := code)];
    }

    /** One turn of the loop of the upgrade. */
    method HyphenateRow(at: nat, ranges: seq<Range>, ghost before: seq<Account>, ghost codes: seq<string>)
      returns (ok: bool)
      requires at < |before| && codes == NewCodes(before, Prefixes(ranges))
      requires rows == Renamed(before, codes, at) && UniqueCodes(rows)
      modifies this
      ensures ok <==> UniqueCodes(Renamed(before, codes, at + 1))
      ensures rows == Renamed(before, codes, if ok then at + 1 else at)
    {
      RenamedStep(before, codes, at);
      var newCode := HyphenateCode(rows[at].code, ranges);
      ok := SetCode(at, newCode);
    }

    /** Step 3 of the upgrade: rename every account, in table order. */
    method HyphenateCodes(ranges: seq<Range>) returns (ok: bool)
      requires UniqueCodes(rows)
      modifies this
      ensures ok <==> SafeRename(old(rows), NewCodes(old(rows), Prefixes(ranges)))
      ensures ok ==> rows == Renamed(old(rows), NewCodes(old(rows), Prefixes(ranges)), |old(rows)|)
      ensures UniqueCodes(rows)
    {
      ghost var before, codes := rows, NewCodes(rows, Prefixes(ranges));
      var at := 0;
      RenamedStart(before, codes);
      while at < |rows|
        invariant 0 <= at <= |rows| == |before|
        invariant rows == Renamed(before, codes, at)
        invariant SafeUpTo(before, codes, at)
      {
        ok := HyphenateRow(at, ranges, before, codes);
        SafeUpToNext(before, codes, at);
        if !ok {
          return;
        }
        at := at + 1;
      }
      ok := true;
    }

    /** Step 5 of the upgrade: a header account for each range that has none. */
    method CreateHeaders(ranges: seq<Range>)
      modifies this
      ensures rows == AddHeaders(old(rows), ranges)
    {
      var k := 0;
      while k < |ranges|
        invariant 0 <= k <= |ranges|
        invariant rows == AddHeaders(old(rows), ranges[..k])
      {
        assert ranges[..k + 1][..k] == ranges[..k];
        var header := HeaderCode(ranges[k]);
        var present := exists i :: 0 <= i < |rows| && rows[i].company == ranges[k].company && rows[i].code == header;
        if !present {
          rows := rows + [Account(ranges[k].company, header, true)];
        }
        k := k + 1;
      }
      assert ranges[..k] == ranges;
    }

    method UpgradeAll(ranges: seq<Range>) returns (ok: bool)
      requires UniqueCodes(rows)
      modifies this
      ensures ok <==> Upgrade(old(rows), ranges).Some?
      ensures ok ==> Some(rows) == Upgrade(old(rows), ranges) && UniqueCodes(rows)
    {
      ok := HyphenateCodes(ranges);
      if ok {
        AddedHeaders(rows, ranges, ranges);
        CreateHeaders(ranges);
      }
    }

    /** Step 2 of the downgrade: one DELETE per range. */
    method DeleteHeaders(ranges: seq<Range>)
      requires UniqueCodes(rows)
      modifies this
      ensures rows == DropHeaders(old(rows), ranges) && UniqueCodes(rows)
    {
      var k := 0;
      DropNone(rows);
      while k < |ranges|
        invariant 0 <= k <= |ranges|
        invariant rows == DropHeaders(old(rows), ranges[..k]) && UniqueCodes(rows)
      {
        DropOneMore(old(rows), ranges[..k], ranges[k]);
        assert ranges[..k + 1] == ranges[..k] + [ranges[k]];
        DropKeepsUnique(rows, [ranges[k]]);
        rows := DropHeaders(rows, [ranges[k]]);
        k := k + 1;
      }
      assert ranges[..k] == ranges;
    }

    /** One turn of the loop of the downgrade. */
    method UnhyphenateRow(at: nat, ranges: seq<Range>, ghost before: seq<Account>, ghost codes: seq<string>)
      returns (ok: bool)
      requires at < |before| && codes == OldCodes(before, Prefixes(ranges))
      requires rows == Renamed(before, codes, at) && UniqueCodes(rows)
      modifies this
      ensures ok <==> UniqueCodes(Renamed(before, codes, at + 1))
      ensures rows == Renamed(before, codes, if ok then at + 1 else at)
    {
      RenamedStep(before, codes, at);
      var oldCode := UnhyphenateCode(rows[at].code, ranges);
      ok := SetCode(at, oldCode);
    }

    /** Step 4 of the downgrade. */
    method UnhyphenateCodes(ranges: seq<Range>) returns (ok: bool)
      requires UniqueCodes(rows)
      modifies this
      ensures ok <==> SafeRename(old(rows), OldCodes(old(rows), Prefixes(ranges)))
      ensures ok ==> rows == Renamed(old(rows), OldCodes(old(rows), Prefixes(ranges)), |old(rows)|)
    {
      ghost var before, codes := rows, OldCodes(rows, Prefixes(ranges));
      var at := 0;
      RenamedStart(before, codes);
      while at < |rows|
        invariant 0 <= at <= |rows| == |before|
        invariant rows == Renamed(before, codes, at)
        invariant SafeUpTo(before, codes, at)
      {
        ok := UnhyphenateRow(at, ranges, before, codes);
        SafeUpToNext(before, codes, at);
        if !ok {
          return;
        }
        at := at + 1;
      }
      ok := true;
    }

    method DowngradeAll(ranges: seq<Range>) returns (ok: bool)
      requires UniqueCodes(rows)
      modifies this
      ensures ok <==> Downgrade(old(rows), ranges).Some?
      ensures ok ==> Some(rows) == Downgrade(old(rows), ranges)
    {
      DeleteHeaders(ranges);
      ok := UnhyphenateCodes(ranges);
    }
  }

  function Composed(prefix: string, digits: string, letter: string): string
    requires prefix <= digits
  {
    prefix + "-" + digits[|prefix|..] + (if letter == "" then "" else "-" + letter)
  }

  lemma RewriteFound(code: string, prefixes: seq<string>, prefix: string, digits: string, letter: string)
    requires digits == if IsLettered(code) then Chomp(code)[..|Chomp(code)| - 2] else code
    requires letter == if IsLettered(code) then [Chomp(code)[|Chomp(code)| - 1]] else ""
    requires FirstPrefix(digits, prefixes) == Some(prefix)
    ensures Rewrite(code, prefixes) == Composed(prefix, digits, letter)
  {
  }

  lemma RenamedStep(rows: seq<Account>, codes: seq<string>, at: nat)
    requires |codes| == |rows| && at < |rows|
    ensures Renamed(rows, codes, at)[at] == rows[at]
    ensures var step := Renamed(rows, codes, at);
            step[at := step[at].(code := codes[at])] == Renamed(rows, codes, at + 1)
  {
  }

  /** No prefix of the renaming up to the first k rows breaks the constraint. */
  predicate SafeUpTo(rows: seq<Account>, codes: seq<string>, k: nat)
    requires |codes| == |rows|
  {
    forall i :: 0 <= i <= k ==> UniqueCodes(Renamed(rows, codes, i))
  }

  lemma RenamedStart(rows: seq<Account>, codes: seq<string>)
    requires |codes| == |rows|
    ensures Renamed(rows, codes, 0) == rows
    ensures UniqueCodes(rows) ==> SafeUpTo(rows, codes, 0)
  {
    assert Renamed(rows, codes, 0) == rows;
  }

  lemma SafeUpToNext(rows: seq<Account>, codes: seq<string>, k: nat)
    requires |codes| == |rows| && k < |rows| && SafeUpTo(rows, codes, k)
    ensures UniqueCodes(Renamed(rows, codes, k))
    ensures SafeUpTo(rows, codes, k + 1) <==> UniqueCodes(Renamed(rows, codes, k + 1))
    ensures SafeRename(rows, codes) ==> UniqueCodes(Renamed(rows, codes, k + 1))
  {
  }

  lemma {:induction false} DropNone(rows: seq<Account>)
    ensures DropHeaders(rows, []) == rows
  {
    if rows != [] {
      DropNone(rows[..|rows| - 1]);
    }
  }

  /** Deleting for one more range is deleting again. */
  lemma {:induction false} DropOneMore(rows: seq<Account>, ranges: seq<Range>, r: Range)
    ensures DropHeaders(DropHeaders(rows, ranges), [r]) == DropHeaders(rows, ranges + [r])
  {
    if rows != [] {
      var last := rows[|rows| - 1];
      DropOneMore(rows[..|rows| - 1], ranges, r);
      DropConcat(DropHeaders(rows[..|rows| - 1], ranges), [last], [r]);
      assert [last][..0] == [];
      assert IsRangeHeader(last, ranges + [r]) <==> IsRangeHeader(last, ranges) || IsRangeHeader(last, [r]) by {
        assert (ranges + [r])[|ranges|] == r && [r][0] == r;
        assert forall i :: 0 <= i < |ranges| ==> (ranges + [r])[i] == ranges[i];
      }
    }
  }

  lemma {:induction false} DropKeepsUnique(rows: seq<Account>, ranges: seq<Range>)
    requires UniqueCodes(rows)
    ensures UniqueCodes(DropHeaders(rows, ranges))
    ensures forall a :: a in DropHeaders(rows, ranges) ==> a in rows
  {
    if rows != [] {
      var rest, last := rows[..|rows| - 1], rows[|rows| - 1];
      DropKeepsUnique(rest, ranges);
      assert forall a :: a in rest && a.company == last.company ==> a.code != last.code;
    }
  }
}
