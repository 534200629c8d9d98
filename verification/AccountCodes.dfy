/**
The migration that hyphenates account codes (11110 becomes 1-1110) and its inverse: the rewriting of
one code, the row-by-row renaming under the (company, code) uniqueness constraint, and the header
accounts that one direction creates and the other deletes.
*/
module AccountCodes {
  import opened Options

  datatype Range = Range(prefix: string, company: int)

  datatype Account = Account(company: int, code: string, isHeader: bool)

  predicate IsDigit(c: char) {
    '0' <= c <= '9'
  }

  predicate IsLetter(c: char) {
    'a' <= c <= 'z' || 'A' <= c <= 'Z'
  }

  // ----- one code -----

  /** What "$" lets a pattern ignore: one line break at the very end. */
  function Chomp(code: string): string {
    if |code| > 0 && code[|code| - 1] == '\n' then code[..|code| - 1] else code
  }

  /** digits, hyphen, one letter */
  predicate IsLettered(code: string) {
    var n := |Chomp(code)|;
    && n >= 3
    && IsLetter(Chomp(code)[n - 1])
    && Chomp(code)[n - 2] == '-'
    && forall i :: 0 <= i < n - 2 ==> IsDigit(Chomp(code)[i])
  }

  function FirstPrefix(s: string, prefixes: seq<string>): (first: Option<string>)
    ensures first.Some? ==> first.value in prefixes && first.value <= s
    ensures first.None? ==> forall p :: p in prefixes ==> !(p <= s)
  {
    if prefixes == [] then None
    else if prefixes[0] <= s then Some(prefixes[0])
    else
      assert prefixes == [prefixes[0]] + prefixes[1..];
      FirstPrefix(s, prefixes[1..])
  }

  function Rewrite(code: string, prefixes: seq<string>): string {
    var n := |Chomp(code)|;
    var lettered := IsLettered(code);
    var digits := if lettered then Chomp(code)[..n - 2] else code;
    match FirstPrefix(digits, prefixes)
    case None => code
    case Some(p) =>
      p + "-" + digits[|p|..] + (if lettered then "-" + [Chomp(code)[n - 1]] else "")
  }

  function Restore(code: string, prefixes: seq<string>): string {
    if prefixes == [] then code
    else if prefixes[0] + "-" <= code then prefixes[0] + code[|prefixes[0]| + 1..]
    else Restore(code, prefixes[1..])
  }

  predicate HyphenFree(prefixes: seq<string>) {
    forall i :: 0 <= i < |prefixes| ==> '-' !in prefixes[i]
  }

  predicate LongestFirst(prefixes: seq<string>) {
    forall i, j :: 0 <= i <= j < |prefixes| ==> |prefixes[i]| >= |prefixes[j]|
  }

  /** The rewriting drops the line break at the end of a lettered code. */
  predicate LosesLineBreak(code: string, prefixes: seq<string>) {
    IsLettered(code) && Chomp(code) != code && FirstPrefix(code, prefixes).Some?
  }

  /** The characters of a prefix are those of the string. */
  lemma PrefixChars(p: string, s: string)
    requires p <= s
    ensures forall k :: 0 <= k < |p| ==> s[k] in p
  {
    assert p == s[..|p|];
    assert forall k :: 0 <= k < |p| ==> p[k] == s[k];
  }

  /** Sorted longest first, the first match is the longest one. */
  lemma {:induction false} FirstPrefixLongest(s: string, prefixes: seq<string>, q: string)
    requires LongestFirst(prefixes) && q in prefixes && q <= s
    ensures FirstPrefix(s, prefixes).Some? && q <= FirstPrefix(s, prefixes).value <= s
  {
    if prefixes[0] <= s {
      var i :| 0 <= i < |prefixes| && prefixes[i] == q;
      assert |prefixes[0]| >= |prefixes[i]|;
      assert q == s[..|q|];
      assert prefixes[0] == s[..|prefixes[0]|];
      assert prefixes[0][..|q|] == q;
    } else {
      FirstPrefixLongest(s, prefixes[1..], q);
    }
  }

  /** A prefix without a hyphen cannot reach past one. */
  lemma PrefixStopsAtHyphen(p: string, a: string, b: string)
    requires '-' !in p
    ensures p <= a + "-" + b <==> p <= a
  {
    if p <= a + "-" + b {
      PrefixChars(p, a + "-" + b);
      assert (a + "-" + b)[|a|] == '-';
      assert p == (a + "-" + b)[..|p|];
    }
  }

  lemma {:induction false} SameFirstPrefix(a: string, b: string, prefixes: seq<string>)
    requires HyphenFree(prefixes)
    ensures FirstPrefix(a + "-" + b, prefixes) == FirstPrefix(a, prefixes)
  {
    if prefixes != [] {
      PrefixStopsAtHyphen(prefixes[0], a, b);
      SameFirstPrefix(a, b, prefixes[1..]);
    }
  }

  /** The code the migration really works on: lettered codes lose a trailing line break. */
  function Trimmed(code: string): string {
    if IsLettered(code) then Chomp(code) else code
  }

  lemma HyphenBeforeLetter(p: string, digits: string, letter: string)
    requires p <= digits
    ensures p <= digits + "-" + letter
    ensures p + "-" + digits[|p|..] + ("-" + letter) == p + "-" + (digits + "-" + letter)[|p|..]
  {
    var whole := digits + "-" + letter;
    assert whole[..|p|] == digits[..|p|];
    assert whole[|p|..] == digits[|p|..] + ("-" + letter);
  }

  /** A match cannot reach the hyphen before the letter. */
  lemma LetteredFirstPrefix(code: string, prefixes: seq<string>)
    requires HyphenFree(prefixes) && IsLettered(code)
    ensures var digits := Chomp(code)[..|Chomp(code)| - 2];
            FirstPrefix(Chomp(code), prefixes) == FirstPrefix(code, prefixes) == FirstPrefix(digits, prefixes)
  {
    var core := Chomp(code);
    var n := |core|;
    assert core == core[..n - 2] + "-" + [core[n - 1]];
    SameFirstPrefix(core[..n - 2], [core[n - 1]], prefixes);
    assert code == core[..n - 2] + "-" + code[n - 1..];
    SameFirstPrefix(core[..n - 2], code[n - 1..], prefixes);
  }

  lemma RewriteLettered(code: string, prefixes: seq<string>)
    requires HyphenFree(prefixes) && IsLettered(code) && FirstPrefix(code, prefixes).Some?
    ensures var p := FirstPrefix(code, prefixes).value;
            p <= Chomp(code) && Rewrite(code, prefixes) == p + "-" + Chomp(code)[|p|..]
  {
    var core, p := Chomp(code), FirstPrefix(code, prefixes).value;
    var digits, letter := core[..|core| - 2], [core[|core| - 1]];
    assert core == digits + "-" + letter;
    HyphenBeforeLetter(p, digits, letter) by {
      LetteredFirstPrefix(code, prefixes);
    }
    assert Rewrite(code, prefixes) == p + "-" + digits[|p|..] + ("-" + letter) by {
      LetteredFirstPrefix(code, prefixes);
    }
  }

  /** Lettered or not, the rewriting inserts one hyphen after the longest matching prefix. */
  lemma RewriteInsertsHyphen(code: string, prefixes: seq<string>)
    requires HyphenFree(prefixes)
    ensures FirstPrefix(Trimmed(code), prefixes) == FirstPrefix(code, prefixes)
    ensures match FirstPrefix(code, prefixes)
            case None => Rewrite(code, prefixes) == code
            case Some(p) => p <= Trimmed(code)
                            && Rewrite(code, prefixes) == p + "-" + Trimmed(code)[|p|..]
  {
    if IsLettered(code) {
      LetteredFirstPrefix(code, prefixes);
      if FirstPrefix(code, prefixes).Some? {
        RewriteLettered(code, prefixes);
      }
    }
  }

  /** Restoring finds the prefix before the first hyphen, wherever it is in the list. */
  lemma {:induction false} RestoreUndoesInsertion(p: string, rest: string, prefixes: seq<string>)
    requires HyphenFree(prefixes) && p in prefixes
    ensures Restore(p + "-" + rest, prefixes) == p + rest
  {
    var code := p + "-" + rest;
    var q := prefixes[0];
    assert '-' !in p;
    if q + "-" <= code {
      assert code[|q|] == '-' && code[|p|] == '-';
      assert q == code[..|q|] && p == code[..|p|];
      PrefixChars(p, code);
      PrefixChars(q, code);
      assert q == p;
      assert code[|p| + 1..] == rest;
    } else {
      assert q != p;
      assert prefixes == [q] + prefixes[1..];
      RestoreUndoesInsertion(p, rest, prefixes[1..]);
    }
  }

  lemma ShorterPrefix(p: string, more: string, s: string)
    ensures p + more <= s ==> p <= s
  {
    if p + more <= s {
      assert p == (p + more)[..|p|] == s[..|p|];
    }
  }

  lemma {:induction false} RestoreKeepsUnmatched(code: string, prefixes: seq<string>)
    requires FirstPrefix(code, prefixes).None?
    ensures Restore(code, prefixes) == code
  {
    if prefixes != [] {
      ShorterPrefix(prefixes[0], "-", code);
      RestoreKeepsUnmatched(code, prefixes[1..]);
    }
  }

  lemma RestoreOfRewrite(code: string, prefixes: seq<string>)
    requires HyphenFree(prefixes)
    ensures Restore(Rewrite(code, prefixes), prefixes)
            == if FirstPrefix(code, prefixes).Some? then Trimmed(code) else code
  {
    RewriteInsertsHyphen(code, prefixes);
    match FirstPrefix(code, prefixes) {
      case None => RestoreKeepsUnmatched(code, prefixes);
      case Some(p) =>
        RestoreUndoesInsertion(p, Trimmed(code)[|p|..], prefixes);
        assert p + Trimmed(code)[|p|..] == Trimmed(code);
    }
  }

  /** A code of any shape comes back, unless a line break was dropped from it. */
  lemma CodeRoundTrip(code: string, prefixes: seq<string>)
    requires HyphenFree(prefixes)
    ensures Restore(Rewrite(code, prefixes), prefixes) == code <==> !LosesLineBreak(code, prefixes)
  {
    RestoreOfRewrite(code, prefixes);
  }

  // ----- the table -----

  /** The uniqueness constraint on (company, code). */
  predicate UniqueCodes(rows: seq<Account>) {
    forall i, j :: 0 <= i < j < |rows| && rows[i].company == rows[j].company ==> rows[i].code != rows[j].code
  }

  /** The table after the first k rows have been renamed. */
  function Renamed(rows: seq<Account>, codes: seq<string>, k: nat): seq<Account>
    requires |codes| == |rows|
  {
    seq(|rows|, i requires 0 <= i < |rows| => if i < k then rows[i].(code := codes[i]) else rows[i])
  }

  /** Renaming row by row never breaks the constraint on the way. */
  predicate SafeRename(rows: seq<Account>, codes: seq<string>)
    requires |codes| == |rows|
  {
    forall k :: 0 <= k <= |rows| ==> UniqueCodes(Renamed(rows, codes, k))
  }

  function NewCodes(rows: seq<Account>, prefixes: seq<string>): (codes: seq<string>)
    ensures |codes| == |rows|
  {
    seq(|rows|, i requires 0 <= i < |rows| => Rewrite(rows[i].code, prefixes))
  }

  function OldCodes(rows: seq<Account>, prefixes: seq<string>): (codes: seq<string>)
    ensures |codes| == |rows|
  {
    seq(|rows|, i requires 0 <= i < |rows| => Restore(rows[i].code, prefixes))
  }

  function Prefixes(ranges: seq<Range>): seq<string> {
    seq(|ranges|, i requires 0 <= i < |ranges| => ranges[i].prefix)
  }

  function HeaderCode(r: Range): string {
    r.prefix + "-0000"
  }

  predicate HasCode(rows: seq<Account>, company: int, code: string) {
    exists i :: 0 <= i < |rows| && rows[i].company == company && rows[i].code == code
  }

  /** A header account for each range that has none under that code. */
  function AddHeaders(rows: seq<Account>, ranges: seq<Range>): seq<Account> {
    if ranges == [] then rows
    else
      var before := AddHeaders(rows, ranges[..|ranges| - 1]);
      var r := ranges[|ranges| - 1];
      if HasCode(before, r.company, HeaderCode(r)) then before
      else before + [Account(r.company, HeaderCode(r), true)]
  }

  /** The rows that the deletion of header accounts takes. */
  predicate IsRangeHeader(a: Account, ranges: seq<Range>) {
    a.isHeader && exists i :: 0 <= i < |ranges| && ranges[i].company == a.company && HeaderCode(ranges[i]) == a.code
  }

  function DropHeaders(rows: seq<Account>, ranges: seq<Range>): seq<Account> {
    if rows == [] then []
    else
      var rest := DropHeaders(rows[..|rows| - 1], ranges);
      if IsRangeHeader(rows[|rows| - 1], ranges) then rest else rest + [rows[|rows| - 1]]
  }

  /** None when a rename hits the constraint, which aborts the migration. */
  function Upgrade(rows: seq<Account>, ranges: seq<Range>): Option<seq<Account>> {
    var codes := NewCodes(rows, Prefixes(ranges));
    if SafeRename(rows, codes) then Some(AddHeaders(Renamed(rows, codes, |rows|), ranges)) else None
  }

  function Downgrade(rows: seq<Account>, ranges: seq<Range>): Option<seq<Account>> {
    var left := DropHeaders(rows, ranges);
    var codes := OldCodes(left, Prefixes(ranges));
    if SafeRename(left, codes) then Some(Renamed(left, codes, |left|)) else None
  }

  function UpAndDown(rows: seq<Account>, ranges: seq<Range>): Option<seq<Account>> {
    match Upgrade(rows, ranges)
    case None => None
    case Some(up) => Downgrade(up, ranges)
  }

  /** No account's code is what another account of its company becomes. */
  predicate NoCrossing(rows: seq<Account>, codes: seq<string>)
    requires |codes| == |rows|
  {
    forall i, j :: 0 <= i < |rows| && 0 <= j < |rows| && i != j && rows[i].company == rows[j].company
                   ==> codes[i] != rows[j].code
  }

  predicate DistinctTargets(rows: seq<Account>, codes: seq<string>)
    requires |codes| == |rows|
  {
    forall i, j :: 0 <= i < j < |rows| && rows[i].company == rows[j].company ==> codes[i] != codes[j]
  }

  /**
  Renaming a table row by row to distinct codes stays within the constraint at every step if and only
  if no row is renamed to the code that a later row of its company still has.
  */
  lemma SafeRenameExactly(rows: seq<Account>, codes: seq<string>)
    requires |codes| == |rows| && UniqueCodes(rows) && DistinctTargets(rows, codes)
    ensures SafeRename(rows, codes)
            <==> forall i, j :: 0 <= i < j < |rows| && rows[i].company == rows[j].company ==> codes[i] != rows[j].code
  {
    if SafeRename(rows, codes) {
      forall i, j | 0 <= i < j < |rows| && rows[i].company == rows[j].company
        ensures codes[i] != rows[j].code
      {
        var step := Renamed(rows, codes, i + 1);
        assert UniqueCodes(step);
        assert step[i].code != step[j].code;
      }
    }
  }

  /** The rewriting never maps two codes to one, apart from dropping a line break. */
  lemma RewriteInjective(a: string, b: string, prefixes: seq<string>)
    requires HyphenFree(prefixes) && Rewrite(a, prefixes) == Rewrite(b, prefixes)
    requires !LosesLineBreak(a, prefixes) && !LosesLineBreak(b, prefixes)
    ensures a == b
  {
    CodeRoundTrip(a, prefixes);
    CodeRoundTrip(b, prefixes);
  }

  lemma {:induction false} AddedHeaders(rows: seq<Account>, ranges: seq<Range>, all: seq<Range>)
    requires ranges <= all
    ensures |rows| <= |AddHeaders(rows, ranges)| && AddHeaders(rows, ranges)[..|rows|] == rows
    ensures forall i :: |rows| <= i < |AddHeaders(rows, ranges)| ==> IsRangeHeader(AddHeaders(rows, ranges)[i], all)
    ensures UniqueCodes(rows) ==> UniqueCodes(AddHeaders(rows, ranges))
    ensures forall r :: r in ranges ==> HasCode(AddHeaders(rows, ranges), r.company, HeaderCode(r))
  {
    if ranges != [] {
      var n := |ranges| - 1;
      AddedHeaders(rows, ranges[..n], all);
      var before, after := AddHeaders(rows, ranges[..n]), AddHeaders(rows, ranges);
      assert ranges[n] == all[n];
      assert forall i :: 0 <= i < |before| ==> after[i] == before[i];
      forall r | r in ranges
        ensures HasCode(after, r.company, HeaderCode(r))
      {
        if r == ranges[n] {
          if |after| > |before| {
            assert after[|before|].code == HeaderCode(r);
          }
        } else {
          assert r in ranges[..n];
          var i :| 0 <= i < |before| && before[i].company == r.company && before[i].code == HeaderCode(r);
          assert after[i].code == HeaderCode(r);
        }
      }
    }
  }

  lemma {:induction false} DropConcat(a: seq<Account>, b: seq<Account>, ranges: seq<Range>)
    ensures DropHeaders(a + b, ranges) == DropHeaders(a, ranges) + DropHeaders(b, ranges)
  {
    if b == [] {
      assert a + b == a;
    } else {
      DropConcat(a, b[..|b| - 1], ranges);
      assert (a + b)[..|a + b| - 1] == a + b[..|b| - 1];
    }
  }

  lemma {:induction false} DropShrinks(rows: seq<Account>, ranges: seq<Range>)
    ensures |DropHeaders(rows, ranges)| <= |rows|
  {
    if rows != [] {
      DropShrinks(rows[..|rows| - 1], ranges);
    }
  }

  lemma {:induction false} DropKeepsAll(rows: seq<Account>, ranges: seq<Range>)
    requires forall i :: 0 <= i < |rows| ==> !IsRangeHeader(rows[i], ranges)
    ensures DropHeaders(rows, ranges) == rows
  {
    if rows != [] {
      DropKeepsAll(rows[..|rows| - 1], ranges);
    }
  }

  lemma {:induction false} DropTakes(rows: seq<Account>, ranges: seq<Range>, i: nat)
    requires i < |rows| && IsRangeHeader(rows[i], ranges)
    ensures |DropHeaders(rows, ranges)| < |rows|
  {
    var n := |rows| - 1;
    DropShrinks(rows[..n], ranges);
    if i < n {
      DropTakes(rows[..n], ranges, i);
    }
  }

  lemma DropSize(rows: seq<Account>, ranges: seq<Range>)
    ensures |DropHeaders(rows, ranges)| <= |rows|
    ensures |DropHeaders(rows, ranges)| == |rows| <==> forall i :: 0 <= i < |rows| ==> !IsRangeHeader(rows[i], ranges)
    ensures |DropHeaders(rows, ranges)| == |rows| ==> DropHeaders(rows, ranges) == rows
  {
    DropShrinks(rows, ranges);
    if i :| 0 <= i < |rows| && IsRangeHeader(rows[i], ranges) {
      DropTakes(rows, ranges, i);
    } else {
      DropKeepsAll(rows, ranges);
    }
  }

  lemma {:induction false} DropAll(rows: seq<Account>, ranges: seq<Range>)
    requires forall i :: 0 <= i < |rows| ==> IsRangeHeader(rows[i], ranges)
    ensures DropHeaders(rows, ranges) == []
  {
    if rows != [] {
      DropAll(rows[..|rows| - 1], ranges);
    }
  }

  /** The deletion takes all the headers that the upgrade added, and the renamed rows that look like them. */
  lemma DropAfterAdd(rows: seq<Account>, ranges: seq<Range>)
    ensures DropHeaders(AddHeaders(rows, ranges), ranges) == DropHeaders(rows, ranges)
  {
    AddedHeaders(rows, ranges, ranges);
    var all := AddHeaders(rows, ranges);
    assert all == rows + all[|rows|..];
    DropConcat(rows, all[|rows|..], ranges);
    DropAll(all[|rows|..], ranges);
  }

  /** A header account of the original chart that the downgrade deletes along with the created ones. */
  predicate IsVictim(a: Account, ranges: seq<Range>) {
    IsRangeHeader(a.(code := Rewrite(a.code, Prefixes(ranges))), ranges)
  }

  /**
  No account's code is what another account of its company becomes, no header account becomes a range's
  prefix-0000, and no lettered code ends in a line break.
  */
  predicate Restorable(rows: seq<Account>, ranges: seq<Range>) {
    && NoCrossing(rows, NewCodes(rows, Prefixes(ranges)))
    && forall i :: 0 <= i < |rows| ==> !LosesLineBreak(rows[i].code, Prefixes(ranges)) && !IsVictim(rows[i], ranges)
  }

  lemma NoCrossingIsSafe(rows: seq<Account>, codes: seq<string>)
    requires |codes| == |rows| && UniqueCodes(rows) && DistinctTargets(rows, codes) && NoCrossing(rows, codes)
    ensures SafeRename(rows, codes)
  {
    SafeRenameExactly(rows, codes);
  }

  lemma NewCodesDistinct(rows: seq<Account>, ps: seq<string>)
    requires UniqueCodes(rows) && HyphenFree(ps)
    requires forall i :: 0 <= i < |rows| ==> !LosesLineBreak(rows[i].code, ps)
    ensures DistinctTargets(rows, NewCodes(rows, ps))
  {
    var codes := NewCodes(rows, ps);
    forall i, j | 0 <= i < j < |rows| && rows[i].company == rows[j].company
      ensures codes[i] != codes[j]
    {
      if codes[i] == codes[j] {
        RewriteInjective(rows[i].code, rows[j].code, ps);
      }
    }
  }

  /** Renaming there and back again, when no code loses anything. */
  lemma RenameBack(rows: seq<Account>, ps: seq<string>)
    requires UniqueCodes(rows) && HyphenFree(ps) && NoCrossing(rows, NewCodes(rows, ps))
    requires forall i :: 0 <= i < |rows| ==> !LosesLineBreak(rows[i].code, ps)
    ensures SafeRename(rows, NewCodes(rows, ps))
    ensures var up := Renamed(rows, NewCodes(rows, ps), |rows|);
            SafeRename(up, OldCodes(up, ps)) && Renamed(up, OldCodes(up, ps), |up|) == rows
  {
    var codes := NewCodes(rows, ps);
    NewCodesDistinct(rows, ps);
    NoCrossingIsSafe(rows, codes);
    var up := Renamed(rows, codes, |rows|);
    var back := OldCodes(up, ps);
    forall i | 0 <= i < |rows|
      ensures back[i] == rows[i].code
    {
      CodeRoundTrip(rows[i].code, ps);
    }
    NoCrossingIsSafe(up, back);
    assert Renamed(up, back, |up|) == rows;
  }

  /** A chart without dropped line breaks and without victims comes back. */
  lemma GoodChartComesBack(rows: seq<Account>, ranges: seq<Range>)
    requires UniqueCodes(rows) && HyphenFree(Prefixes(ranges)) && Restorable(rows, ranges)
    ensures UpAndDown(rows, ranges) == Some(rows)
  {
    var ps := Prefixes(ranges);
    var up := Renamed(rows, NewCodes(rows, ps), |rows|);
    RenameBack(rows, ps);
    DropAfterAdd(up, ranges);
    DropSize(up, ranges);
    assert forall i :: 0 <= i < |up| ==> up[i] == rows[i].(code := Rewrite(rows[i].code, ps));
  }

  /** And only such a chart does. */
  lemma OnlyGoodChartsComeBack(rows: seq<Account>, ranges: seq<Range>, i: nat)
    requires HyphenFree(Prefixes(ranges)) && i < |rows|
    requires UpAndDown(rows, ranges) == Some(rows)
    ensures !LosesLineBreak(rows[i].code, Prefixes(ranges)) && !IsVictim(rows[i], ranges)
  {
    var ps := Prefixes(ranges);
    var codes := NewCodes(rows, ps);
    var up := Renamed(rows, codes, |rows|);
    DropAfterAdd(up, ranges);
    DropSize(up, ranges);
    assert up[i] == rows[i].(code := Rewrite(rows[i].code, ps));
    CodeRoundTrip(rows[i].code, ps);
  }

  /** Renaming there guards against a later row that has the code, renaming back against an earlier one. */
  lemma BothWaysUncrossed(rows: seq<Account>, ps: seq<string>)
    requires UniqueCodes(rows) && HyphenFree(ps)
    requires forall i :: 0 <= i < |rows| ==> !LosesLineBreak(rows[i].code, ps)
    requires SafeRename(rows, NewCodes(rows, ps))
    requires var up := Renamed(rows, NewCodes(rows, ps), |rows|); SafeRename(up, OldCodes(up, ps))
    ensures NoCrossing(rows, NewCodes(rows, ps))
  {
    var codes := NewCodes(rows, ps);
    var up := Renamed(rows, codes, |rows|);
    var back := OldCodes(up, ps);
    NewCodesDistinct(rows, ps);
    SafeRenameExactly(rows, codes);
    forall i | 0 <= i < |rows|
      ensures back[i] == rows[i].code && up[i].code == codes[i] && up[i].company == rows[i].company
    {
      CodeRoundTrip(rows[i].code, ps);
    }
    SafeRenameExactly(up, back);
  }

  lemma OnlyRestorableChartsComeBack(rows: seq<Account>, ranges: seq<Range>)
    requires UniqueCodes(rows) && HyphenFree(Prefixes(ranges))
    requires UpAndDown(rows, ranges) == Some(rows)
    ensures Restorable(rows, ranges)
  {
    var ps := Prefixes(ranges);
    forall i | 0 <= i < |rows|
      ensures !LosesLineBreak(rows[i].code, ps) && !IsVictim(rows[i], ranges)
    {
      OnlyGoodChartsComeBack(rows, ranges, i);
    }
    var up := Renamed(rows, NewCodes(rows, ps), |rows|);
    DropAfterAdd(up, ranges);
    DropSize(up, ranges);
    BothWaysUncrossed(rows, ps);
  }

  /**
  Downgrading after upgrading gives every account back, with its code, if and only if the chart is
  restorable.
  */
  lemma MigrationRoundTrip(rows: seq<Account>, ranges: seq<Range>)
    requires UniqueCodes(rows) && HyphenFree(Prefixes(ranges))
    ensures UpAndDown(rows, ranges) == Some(rows) <==> Restorable(rows, ranges)
  {
    if UpAndDown(rows, ranges) == Some(rows) {
      OnlyRestorableChartsComeBack(rows, ranges);
    } else if Restorable(rows, ranges) {
      GoodChartComesBack(rows, ranges);
      assert false;
    }
  }

  // ----- charts that do not come back -----

  /** A header account 10000 under range 1 is lost: the upgrade makes it 1-0000, which the downgrade deletes. */
  lemma HeaderAccountLost()
    ensures var rows := [Account(1, "10000", true)];
            var ranges := [Range("1", 1)];
            IsVictim(rows[0], ranges) && UpAndDown(rows, ranges) != Some(rows)
  {
    var rows := [Account(1, "10000", true)];
    var ranges := [Range("1", 1)];
    var ps := Prefixes(ranges);
    assert ps == ["1"];
    assert "1" <= "10000" && FirstPrefix("10000", ps) == Some("1");
    assert "10000"[1..] == "0000";
    RewriteInsertsHyphen("10000", ps);
    assert Rewrite("10000", ps) == HeaderCode(ranges[0]);
    assert IsVictim(rows[0], ranges);
    MigrationRoundTrip(rows, ranges);
  }

  /** A lettered account 1-a followed by a line break comes back without the line break. */
  lemma LineBreakLost()
    ensures var rows := [Account(1, "1-a\n", false)];
            var ranges := [Range("1", 1)];
            LosesLineBreak(rows[0].code, Prefixes(ranges)) && UpAndDown(rows, ranges) != Some(rows)
  {
    var rows := [Account(1, "1-a\n", false)];
    var ranges := [Range("1", 1)];
    var code := rows[0].code;
    assert Prefixes(ranges) == ["1"];
    assert Chomp(code) == "1-a";
    assert IsLettered(code);
    assert "1" <= code && FirstPrefix(code, ["1"]) == Some("1");
    MigrationRoundTrip(rows, ranges);
  }

  /** Accounts 11 and 1-1 under range 1: the first becomes what the second still is. */
  lemma CrossedChartLost()
    ensures var rows := [Account(1, "11", false), Account(1, "1-1", false)];
            var ranges := [Range("1", 1)];
            && UniqueCodes(rows) && !NoCrossing(rows, NewCodes(rows, Prefixes(ranges)))
            && UpAndDown(rows, ranges) != Some(rows)
  {
    var rows := [Account(1, "11", false), Account(1, "1-1", false)];
    var ranges := [Range("1", 1)];
    var ps := Prefixes(ranges);
    assert ps == ["1"];
    assert "1" <= "11" && FirstPrefix("11", ps) == Some("1");
    assert !IsLettered("11");
    assert "11"[1..] == "1";
    RewriteInsertsHyphen("11", ps);
    assert NewCodes(rows, ps)[0] == "1-1" == rows[1].code;
    assert rows[0].code != rows[1].code;
    MigrationRoundTrip(rows, ranges);
  }
}
