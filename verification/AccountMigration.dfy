/**
The hyphenation migration said from outside: which code every account gets, which header accounts the
upgrade adds and the downgrade deletes, in terms of ranges, companies and characters.
*/
module AccountMigration {
  import opened Options
  import opened AccountCodes

  /** digits, a hyphen, one letter */
  ghost predicate IsDigitsLetter(code: string, digits: string, letter: char) {
    && digits != "" && (forall i :: 0 <= i < |digits| ==> IsDigit(digits[i])) && IsLetter(letter)
    && code == digits + "-" + [letter]
  }

  /** The letter pattern is matched by exactly these codes, up to a line break at the end. */
  lemma LetteredExactly(code: string)
    ensures IsLettered(code) <==> exists digits, letter :: IsDigitsLetter(Chomp(code), digits, letter)
  {
    var core := Chomp(code);
    if IsLettered(code) {
      var n := |core|;
      assert core == core[..n - 2] + "-" + [core[n - 1]];
      assert IsDigitsLetter(core, core[..n - 2], core[n - 1]);
    }
    if digits, letter :| IsDigitsLetter(core, digits, letter) {
      assert |core| == |digits| + 2;
      assert forall i :: 0 <= i < |digits| ==> core[i] == digits[i];
    }
  }

  /** Chomping takes one line break at the end, and nothing else. */
  lemma ChompExactly(code: string)
    ensures Chomp(code + "\n") == code
    ensures Chomp(code) == code || code == Chomp(code) + "\n"
    ensures code != "" && code[|code| - 1] != '\n' ==> Chomp(code) == code
  {
    assert (code + "\n")[..|code|] == code;
  }

  // ----- the codes after the upgrade -----

  /** The range's prefix starts the code, and no range with a longer prefix does. */
  ghost predicate IsLongestRange(ranges: seq<Range>, code: string, r: Range) {
    && r in ranges && r.prefix <= code
    && forall q :: q in ranges && q.prefix <= code ==> |q.prefix| <= |r.prefix|
  }

  lemma PrefixesOf(ranges: seq<Range>)
    ensures forall r :: r in ranges ==> r.prefix in Prefixes(ranges)
    ensures forall p :: p in Prefixes(ranges) ==> exists r :: r in ranges && r.prefix == p
  {
    forall r | r in ranges
      ensures r.prefix in Prefixes(ranges)
    {
      var i :| 0 <= i < |ranges| && ranges[i] == r;
      assert Prefixes(ranges)[i] == r.prefix;
    }
    forall p | p in Prefixes(ranges)
      ensures exists r :: r in ranges && r.prefix == p
    {
      var i :| 0 <= i < |ranges| && Prefixes(ranges)[i] == p;
      assert ranges[i].prefix == p;
    }
  }

  lemma FirstIsLongest(ranges: seq<Range>, code: string) returns (r: Range)
    requires LongestFirst(Prefixes(ranges)) && FirstPrefix(code, Prefixes(ranges)).Some?
    ensures IsLongestRange(ranges, code, r) && r.prefix == FirstPrefix(code, Prefixes(ranges)).value
  {
    PrefixesOf(ranges);
    var p := FirstPrefix(code, Prefixes(ranges)).value;
    r :| r in ranges && r.prefix == p;
    forall q | q in ranges && q.prefix <= code
      ensures |q.prefix| <= |p|
    {
      FirstPrefixLongest(code, Prefixes(ranges), q.prefix);
    }
  }

  /** The code is what it was, with a hyphen after the prefix. */
  predicate IsHyphenated(before: string, prefix: string, after: string) {
    prefix <= before && after == prefix + "-" + before[|prefix|..]
  }

  /** One code: hyphenated after the longest prefix that starts it, or left alone when none does. */
  ghost predicate IsRewritten(ranges: seq<Range>, before: string, after: string) {
    || (exists r :: IsLongestRange(ranges, before, r) && IsHyphenated(Trimmed(before), r.prefix, after))
    || ((forall r :: r in ranges ==> !(r.prefix <= before)) && after == before)
  }

  lemma RewriteByRange(ranges: seq<Range>, code: string)
    requires HyphenFree(Prefixes(ranges)) && LongestFirst(Prefixes(ranges))
    ensures IsRewritten(ranges, code, Rewrite(code, Prefixes(ranges)))
  {
    RewriteInsertsHyphen(code, Prefixes(ranges));
    if FirstPrefix(code, Prefixes(ranges)).Some? {
      var r := FirstIsLongest(ranges, code);
      assert IsHyphenated(Trimmed(code), r.prefix, Rewrite(code, Prefixes(ranges)));
    } else {
      PrefixesOf(ranges);
    }
  }

  lemma UpgradedRow(rows: seq<Account>, ranges: seq<Range>, i: nat)
    requires i < |rows| && Upgrade(rows, ranges).Some?
    ensures i < |Upgrade(rows, ranges).value|
    ensures Upgrade(rows, ranges).value[i] == rows[i].(code := Rewrite(rows[i].code, Prefixes(ranges)))
  {
    var renamed := Renamed(rows, NewCodes(rows, Prefixes(ranges)), |rows|);
    AddedHeaders(renamed, ranges, ranges);
    assert Upgrade(rows, ranges).value[..|rows|][i] == renamed[i];
  }

  /** What the upgrade makes of every account: its code is rewritten; company and header mark stay. */
  lemma UpgradeHyphenates(rows: seq<Account>, ranges: seq<Range>, i: nat)
    requires HyphenFree(Prefixes(ranges)) && LongestFirst(Prefixes(ranges))
    requires i < |rows| && Upgrade(rows, ranges).Some?
    ensures var up := Upgrade(rows, ranges).value;
            && i < |up| && up[i].company == rows[i].company && up[i].isHeader == rows[i].isHeader
            && IsRewritten(ranges, rows[i].code, up[i].code)
  {
    UpgradedRow(rows, ranges, i);
    RewriteByRange(ranges, rows[i].code);
  }

  // ----- the codes after the downgrade -----

  /** Without a prefix and hyphen at its start, a code stays. */
  lemma {:induction false} RestoreLeaves(code: string, prefixes: seq<string>)
    requires forall p :: p in prefixes ==> !(p + "-" <= code)
    ensures Restore(code, prefixes) == code
  {
    if prefixes != [] {
      assert prefixes[0] in prefixes;
      RestoreLeaves(code, prefixes[1..]);
    }
  }

  /** One code: without the hyphen after a range prefix that starts it, or left alone when there is none. */
  ghost predicate IsRestored(ranges: seq<Range>, before: string, after: string) {
    || (exists r, rest :: r in ranges && before == r.prefix + "-" + rest && after == r.prefix + rest)
    || ((forall r :: r in ranges ==> !(r.prefix + "-" <= before)) && after == before)
  }

  lemma RestoreByRange(ranges: seq<Range>, code: string)
    requires HyphenFree(Prefixes(ranges))
    ensures IsRestored(ranges, code, Restore(code, Prefixes(ranges)))
  {
    PrefixesOf(ranges);
    if r :| r in ranges && r.prefix + "-" <= code {
      var rest := code[|r.prefix| + 1..];
      assert code == r.prefix + "-" + rest;
      RestoreUndoesInsertion(r.prefix, rest, Prefixes(ranges));
    } else {
      RestoreLeaves(code, Prefixes(ranges));
    }
  }

  /** What the downgrade makes of every account it leaves: its code is restored; company and header mark stay. */
  lemma DowngradeRestores(rows: seq<Account>, ranges: seq<Range>, i: nat)
    requires HyphenFree(Prefixes(ranges)) && Downgrade(rows, ranges).Some?
    requires i < |DropHeaders(rows, ranges)|
    ensures var left, down := DropHeaders(rows, ranges), Downgrade(rows, ranges).value;
            && |down| == |left| && down[i].company == left[i].company && down[i].isHeader == left[i].isHeader
            && IsRestored(ranges, left[i].code, down[i].code)
  {
    var left := DropHeaders(rows, ranges);
    assert Downgrade(rows, ranges).value[i] == left[i].(code := Restore(left[i].code, Prefixes(ranges)));
    RestoreByRange(ranges, left[i].code);
  }

  // ----- header accounts -----

  /** The account is a header, and is prefix-0000 of a range of its company. */
  ghost predicate IsZeroHeader(a: Account, ranges: seq<Range>) {
    a.isHeader && exists r :: r in ranges && r.company == a.company && a.code == r.prefix + "-0000"
  }

  lemma ZeroHeader(a: Account, ranges: seq<Range>)
    ensures IsRangeHeader(a, ranges) <==> IsZeroHeader(a, ranges)
  {
    if IsZeroHeader(a, ranges) {
      var r :| r in ranges && r.company == a.company && a.code == r.prefix + "-0000";
      var i :| 0 <= i < |ranges| && ranges[i] == r;
      assert ranges[i].company == a.company && HeaderCode(ranges[i]) == a.code;
    }
    if IsRangeHeader(a, ranges) {
      var i :| 0 <= i < |ranges| && ranges[i].company == a.company && HeaderCode(ranges[i]) == a.code;
      assert ranges[i] in ranges;
    }
  }

  /** The downgrade deletes exactly the headers prefix-0000 of a range's own company, and nothing else. */
  lemma {:induction false} DroppedExactly(rows: seq<Account>, ranges: seq<Range>, a: Account)
    ensures multiset(DropHeaders(rows, ranges))[a] == if IsZeroHeader(a, ranges) then 0 else multiset(rows)[a]
  {
    ZeroHeader(a, ranges);
    if rows != [] {
      var last := rows[|rows| - 1];
      DroppedExactly(rows[..|rows| - 1], ranges, a);
      assert rows == rows[..|rows| - 1] + [last];
    }
  }

  /** The company has an account with this code. */
  ghost predicate Has(rows: seq<Account>, company: int, code: string) {
    exists a :: a in rows && a.company == company && a.code == code
  }

  /**
  The upgrade adds only headers prefix-0000 of ranges whose company lacked that code, and afterwards every
  range's company has it.
  */
  lemma AddedExactly(rows: seq<Account>, ranges: seq<Range>)
    ensures var all := AddHeaders(rows, ranges);
            && rows <= all
            && (forall i :: |rows| <= i < |all| ==>
                  IsZeroHeader(all[i], ranges) && !Has(rows, all[i].company, all[i].code))
            && (forall r :: r in ranges ==> Has(all, r.company, r.prefix + "-0000"))
  {
    AddedHeaders(rows, ranges, ranges);
    var all := AddHeaders(rows, ranges);
    forall i | |rows| <= i < |all|
      ensures IsZeroHeader(all[i], ranges)
    {
      ZeroHeader(all[i], ranges);
    }
    AddedLacked(rows, ranges);
    forall r | r in ranges
      ensures Has(all, r.company, r.prefix + "-0000")
    {
      var i :| 0 <= i < |all| && all[i].company == r.company && all[i].code == HeaderCode(r);
      assert all[i] in all;
    }
  }

  /** So it is for the whole upgrade: every range's company has the header's code, and only such headers are new. */
  lemma UpgradeAddsHeaders(rows: seq<Account>, ranges: seq<Range>)
    requires Upgrade(rows, ranges).Some?
    ensures var up := Upgrade(rows, ranges).value;
            && |rows| <= |up|
            && (forall r :: r in ranges ==> Has(up, r.company, r.prefix + "-0000"))
            && (forall i :: |rows| <= i < |up| ==> IsZeroHeader(up[i], ranges))
  {
    AddedExactly(Renamed(rows, NewCodes(rows, Prefixes(ranges)), |rows|), ranges);
  }

  lemma {:induction false} AddedLacked(rows: seq<Account>, ranges: seq<Range>)
    ensures rows <= AddHeaders(rows, ranges)
    ensures forall i :: |rows| <= i < |AddHeaders(rows, ranges)| ==>
      !Has(rows, AddHeaders(rows, ranges)[i].company, AddHeaders(rows, ranges)[i].code)
  {
    if ranges != [] {
      var n := |ranges| - 1;
      AddedLacked(rows, ranges[..n]);
      var before := AddHeaders(rows, ranges[..n]);
      if Has(rows, ranges[n].company, HeaderCode(ranges[n])) {
        var a :| a in rows && a.company == ranges[n].company && a.code == HeaderCode(ranges[n]);
        var k :| 0 <= k < |rows| && rows[k] == a;
        assert before[k] == a;
      }
    }
  }
}
