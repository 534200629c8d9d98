/**
The chart of accounts as a tree: the parent of 1-1234 is the nearest existing one of 1-1230, 1-1200,
1-1000 and 1-0000; the parent of a lettered account is the account without the letter.
*/
module AccountTree {
  import opened Options
  import opened AccountCodes

  /** The three groups of the account code pattern; the letter is empty when there is none. */
  datatype Parts = Parts(prefix: string, children: string, letter: string)

  function LeadingDigits(s: string): (n: nat)
    ensures n <= |s|
    ensures forall i :: 0 <= i < n ==> IsDigit(s[i])
    ensures n < |s| ==> !IsDigit(s[n])
  {
    if s == "" || !IsDigit(s[0]) then 0 else 1 + LeadingDigits(s[1..])
  }

  /** digits and optionally hyphen, letter */
  function ParseChildren(prefix: string, rest: string): Option<Parts> {
    var m := LeadingDigits(rest);
    if m == 0 then None
    else if m == |rest| then Some(Parts(prefix, rest, ""))
    else if m + 2 == |rest| && rest[m] == '-' && IsLetter(rest[m + 1])
    then Some(Parts(prefix, rest[..m], rest[m + 1..]))
    else None
  }

  /** digits, hyphen, digits and optionally hyphen, letter; a line break at the very end is ignored. */
  function Parse(code: string): Option<Parts> {
    var s := Chomp(code);
    var n := LeadingDigits(s);
    if n == 0 || n == |s| || s[n] != '-' then None else ParseChildren(s[..n], s[n + 1..])
  }

  function Zeros(n: nat): string {
    seq(n, i => '0')
  }

  /** The children digits with everything from position i on zeroed. */
  function Truncate(children: string, i: nat): string
    requires i <= |children|
  {
    children[..i] + Zeros(|children| - i)
  }

  function Join(prefix: string, children: string): string {
    prefix + "-" + children
  }

  /** Try the positions from i - 1 down to 0. */
  function Search(codes: set<string>, code: string, p: Parts, i: nat): Option<string>
    requires i <= |p.children|
  {
    if i == 0 then None
    else
      var candidate := Join(p.prefix, Truncate(p.children, i - 1));
      if candidate != code && candidate in codes then Some(candidate) else Search(codes, code, p, i - 1)
  }

  /** The parent link of a code among the company's codes. */
  function ParentOf(codes: set<string>, code: string): Option<string> {
    match Parse(code)
    case None => None
    case Some(p) =>
      if p.letter == "" then Search(codes, code, p, |p.children|)
      else if Join(p.prefix, p.children) in codes && Join(p.prefix, p.children) != code
      then Some(Join(p.prefix, p.children)) else None
  }

  // ----- a measure that falls along every link -----

  function NonZeros(s: string): nat {
    if s == "" then 0 else NonZeros(s[..|s| - 1]) + (if s[|s| - 1] == '0' then 0 else 1)
  }

  function Rank(code: string): nat {
    match Parse(code)
    case None => 0
    case Some(p) => NonZeros(p.children) + (if p.letter == "" then 0 else 1) + (if Chomp(code) == code then 0 else 1)
  }

  predicate AllDigits(s: string) {
    forall i :: 0 <= i < |s| ==> IsDigit(s[i])
  }

  lemma {:induction false} DigitsThen(s: string, rest: string)
    requires AllDigits(s) && (rest == "" || !IsDigit(rest[0]))
    ensures LeadingDigits(s + rest) == |s|
  {
    if s == "" {
      assert s + rest == rest;
    } else {
      DigitsThen(s[1..], rest);
      assert (s + rest)[1..] == s[1..] + rest;
    }
  }

  /** The prefix ends at the first hyphen. */
  lemma ParseHead(code: string, prefix: string, rest: string)
    requires AllDigits(prefix) && prefix != "" && Chomp(code) == prefix + "-" + rest
    ensures Parse(code) == ParseChildren(prefix, rest)
  {
    var s := Chomp(code);
    assert s == prefix + ("-" + rest);
    DigitsThen(prefix, "-" + rest);
    assert s[..|prefix|] == prefix && s[|prefix| + 1..] == rest;
  }

  lemma ChildrenPlain(prefix: string, children: string)
    requires AllDigits(children) && children != ""
    ensures ParseChildren(prefix, children) == Some(Parts(prefix, children, ""))
  {
    assert children + "" == children;
    DigitsThen(children, "");
  }

  lemma ChildrenLettered(prefix: string, children: string, letter: char)
    requires AllDigits(children) && children != "" && IsLetter(letter)
    ensures ParseChildren(prefix, children + "-" + [letter]) == Some(Parts(prefix, children, [letter]))
  {
    var rest := children + "-" + [letter];
    assert rest == children + ("-" + [letter]);
    DigitsThen(children, "-" + [letter]);
    assert rest[..|children|] == children && rest[|children| + 1..] == [letter];
  }

  lemma EndsWithoutBreak(s: string)
    requires s != "" && (IsDigit(s[|s| - 1]) || IsLetter(s[|s| - 1]))
    ensures Chomp(s) == s
  {
  }

  /** Codes of the plain form read back as they were put together. */
  lemma ParseJoin(prefix: string, children: string)
    requires AllDigits(prefix) && AllDigits(children) && prefix != "" && children != ""
    ensures Parse(Join(prefix, children)) == Some(Parts(prefix, children, ""))
    ensures Chomp(Join(prefix, children)) == Join(prefix, children)
  {
    var s := Join(prefix, children);
    assert s[|s| - 1] == children[|children| - 1];
    EndsWithoutBreak(s);
    ParseHead(s, prefix, children);
    ChildrenPlain(prefix, children);
  }

  function JoinLetter(prefix: string, children: string, letter: char): string {
    prefix + "-" + children + "-" + [letter]
  }

  /** So do lettered codes, children and letter apart. */
  lemma ParseLettered(prefix: string, children: string, letter: char)
    requires AllDigits(prefix) && AllDigits(children) && prefix != "" && children != "" && IsLetter(letter)
    ensures Parse(JoinLetter(prefix, children, letter)) == Some(Parts(prefix, children, [letter]))
    ensures Chomp(JoinLetter(prefix, children, letter)) == JoinLetter(prefix, children, letter)
  {
    var s := JoinLetter(prefix, children, letter);
    EndsWithoutBreak(s);
    assert s == prefix + "-" + (children + "-" + [letter]);
    ParseHead(s, prefix, children + "-" + [letter]);
    ChildrenLettered(prefix, children, letter);
  }

  /** A line break at the very end makes no difference. */
  lemma ParseIgnoresLineBreak(code: string)
    requires Chomp(code) == code
    ensures Chomp(code + "\n") == code && Parse(code + "\n") == Parse(code)
  {
    assert (code + "\n")[..|code|] == code;
  }

  lemma SplitAt(s: string, n: nat)
    requires n < |s| && s[n] == '-'
    ensures s == s[..n] + "-" + s[n + 1..]
  {
  }

  /** What the children part can look like */
  lemma ChildrenShape(prefix: string, rest: string)
    requires ParseChildren(prefix, rest).Some?
    ensures var p := ParseChildren(prefix, rest).value;
            && p.prefix == prefix && AllDigits(p.children) && p.children != ""
            && (p.letter == "" ==> rest == p.children)
            && (p.letter != "" ==>
                  |p.letter| == 1 && IsLetter(p.letter[0]) && rest == p.children + "-" + p.letter)
  {
    var m := LeadingDigits(rest);
    if m < |rest| {
      SplitAt(rest, m);
    }
  }

  lemma ParseParts(code: string)
    requires Parse(code).Some?
    ensures var p := Parse(code).value;
            && AllDigits(p.prefix) && AllDigits(p.children) && p.prefix != "" && p.children != ""
            && (p.letter == "" ==> Chomp(code) == Join(p.prefix, p.children))
            && (p.letter != "" ==>
                  && |p.letter| == 1 && IsLetter(p.letter[0])
                  && Chomp(code) == JoinLetter(p.prefix, p.children, p.letter[0]))
  {
    var s := Chomp(code);
    var n := LeadingDigits(s);
    SplitAt(s, n);
    ChildrenShape(s[..n], s[n + 1..]);
    var p := Parse(code).value;
    if p.letter != "" {
      assert p.letter == [p.letter[0]];
      LetterAtEnd(s[..n], s[n + 1..], p.children, p.letter);
    }
  }

  lemma LetterAtEnd(prefix: string, rest: string, children: string, letter: string)
    requires rest == children + "-" + letter
    ensures prefix + "-" + rest == prefix + "-" + children + "-" + letter
  {
  }

  ghost predicate IsPlainCode(code: string, prefix: string, children: string) {
    && AllDigits(prefix) && AllDigits(children) && prefix != "" && children != ""
    && Chomp(code) == prefix + "-" + children
  }

  ghost predicate IsLetteredCode(code: string, prefix: string, children: string, letter: char) {
    && AllDigits(prefix) && AllDigits(children) && prefix != "" && children != "" && IsLetter(letter)
    && Chomp(code) == prefix + "-" + children + "-" + [letter]
  }

  lemma PlainIsParsed(code: string, prefix: string, children: string)
    requires IsPlainCode(code, prefix, children)
    ensures Parse(code) == Some(Parts(prefix, children, ""))
  {
    ParseHead(code, prefix, children);
    ChildrenPlain(prefix, children);
  }

  lemma LetteredIsParsed(code: string, prefix: string, children: string, letter: char)
    requires IsLetteredCode(code, prefix, children, letter)
    ensures Parse(code) == Some(Parts(prefix, children, [letter]))
  {
    LetterAtEnd(prefix, children + "-" + [letter], children, [letter]);
    ParseHead(code, prefix, children + "-" + [letter]);
    ChildrenLettered(prefix, children, letter);
  }

  /** The pattern is matched by exactly the codes of these two shapes, up to a line break at the end. */
  lemma ParseExactly(code: string)
    ensures Parse(code).Some?
            <==> || (exists prefix, children :: IsPlainCode(code, prefix, children))
                 || (exists prefix, children, letter :: IsLetteredCode(code, prefix, children, letter))
  {
    if Parse(code).Some? {
      ParseParts(code);
      var p := Parse(code).value;
      assert p.letter == "" ==> IsPlainCode(code, p.prefix, p.children);
      assert p.letter != "" ==> IsLetteredCode(code, p.prefix, p.children, p.letter[0]);
    }
    if prefix, children :| IsPlainCode(code, prefix, children) {
      PlainIsParsed(code, prefix, children);
    }
    if prefix, children, letter :| IsLetteredCode(code, prefix, children, letter) {
      LetteredIsParsed(code, prefix, children, letter);
    }
  }

  lemma TruncateTwice(children: string, i: nat, j: nat)
    requires i <= |children| && j <= |children|
    ensures |Truncate(children, i)| == |children|
    ensures Truncate(Truncate(children, i), j) == Truncate(children, if i <= j then i else j)
    ensures AllDigits(children) ==> AllDigits(Truncate(children, i))
  {
  }

  lemma {:induction false} NonZerosConcat(a: string, b: string)
    ensures NonZeros(a + b) == NonZeros(a) + NonZeros(b)
  {
    if b == "" {
      assert a + b == a;
    } else {
      NonZerosConcat(a, b[..|b| - 1]);
      assert (a + b)[..|a + b| - 1] == a + b[..|b| - 1];
    }
  }

  lemma {:induction false} NoneNonZero(s: string)
    ensures NonZeros(s) == 0 <==> s == Zeros(|s|)
  {
    if s != "" {
      NoneNonZero(s[..|s| - 1]);
      assert s == s[..|s| - 1] + [s[|s| - 1]];
      assert Zeros(|s|) == Zeros(|s| - 1) + "0";
      assert s == Zeros(|s|) ==> s[..|s| - 1] == Zeros(|s|)[..|s| - 1] && s[|s| - 1] == Zeros(|s|)[|s| - 1];
    }
  }

  lemma TruncateRank(children: string, i: nat)
    requires i <= |children|
    ensures NonZeros(Truncate(children, i)) <= NonZeros(children)
    ensures NonZeros(Truncate(children, i)) == NonZeros(children) <==> Truncate(children, i) == children
  {
    assert children == children[..i] + children[i..];
    NonZerosConcat(children[..i], children[i..]);
    NonZerosConcat(children[..i], Zeros(|children| - i));
    NoneNonZero(Zeros(|children| - i));
    NoneNonZero(children[i..]);
  }

  /** What truncating keeps and zeroes */
  lemma TruncateMeans(children: string, i: nat)
    requires i <= |children|
    ensures var t := Truncate(children, i);
            |t| == |children| && forall k :: 0 <= k < |t| ==> t[k] == if k < i then children[k] else '0'
  {
  }

  /** The truncation of an unlettered code at position i. */
  function TruncationOf(code: string, i: nat): string
    requires Parse(code).Some? && i <= |Parse(code).value.children|
  {
    Join(Parse(code).value.prefix, Truncate(Parse(code).value.children, i))
  }

  lemma TruncationFacts(code: string, i: nat)
    requires Parse(code).Some? && i <= |Parse(code).value.children|
    ensures var p := Parse(code).value;
            && Parse(TruncationOf(code, i)) == Some(Parts(p.prefix, Truncate(p.children, i), ""))
            && Chomp(TruncationOf(code, i)) == TruncationOf(code, i)
            && (TruncationOf(code, i) != code ==> Rank(TruncationOf(code, i)) < Rank(code))
  {
    ParseParts(code);
    var p := Parse(code).value;
    TruncateTwice(p.children, i, i);
    ParseJoin(p.prefix, Truncate(p.children, i));
    TruncateRank(p.children, i);
  }

  /** Position j does not give a parent. */
  predicate Skipped(codes: set<string>, code: string, p: Parts, j: nat)
    requires j <= |p.children|
  {
    Join(p.prefix, Truncate(p.children, j)) == code || Join(p.prefix, Truncate(p.children, j)) !in codes
  }

  /** The search stops at the rightmost position that gives an existing other code. */
  lemma {:induction false} SearchFinds(codes: set<string>, code: string, p: Parts, i: nat) returns (k: nat)
    requires i <= |p.children|
    ensures Search(codes, code, p, i).None? ==> k == i
    ensures Search(codes, code, p, i).Some? ==>
      k < i && !Skipped(codes, code, p, k) && Search(codes, code, p, i).value == Join(p.prefix, Truncate(p.children, k))
    ensures forall j :: 0 <= j < i && (k == i || k < j) ==> Skipped(codes, code, p, j)
  {
    if i == 0 {
      k := 0;
    } else if !Skipped(codes, code, p, i - 1) {
      k := i - 1;
    } else {
      k := SearchFinds(codes, code, p, i - 1);
      if k == i - 1 {
        k := i;
      }
    }
  }

  /** A parent is an existing other account, is not lettered, and is lower in rank: links never form a cycle. */
  lemma ParentIsLower(codes: set<string>, code: string)
    requires ParentOf(codes, code).Some?
    ensures var q := ParentOf(codes, code).value;
            && q in codes && q != code && Rank(q) < Rank(code)
            && Parse(q).Some? && Parse(q).value.letter == "" && Chomp(q) == q
            && Parse(q).value.prefix == Parse(code).value.prefix
            && |Parse(q).value.children| == |Parse(code).value.children|
  {
    var p := Parse(code).value;
    if p.letter == "" {
      var k := SearchFinds(codes, code, p, |p.children|);
      assert ParentOf(codes, code).value == TruncationOf(code, k);
      TruncationFacts(code, k);
    } else {
      assert Truncate(p.children, |p.children|) == p.children;
      TruncationFacts(code, |p.children|);
    }
  }

  /** Follow the parent links. */
  function Ancestors(codes: set<string>, code: string): seq<string>
    decreases Rank(code)
  {
    match ParentOf(codes, code)
    case None => []
    case Some(q) =>
      ParentIsLower(codes, code);
      [q] + Ancestors(codes, q)
  }

  // ----- the tree -----

  ghost predicate IsTruncation(x: string, code: string)
    requires Parse(code).Some?
  {
    exists i :: 0 <= i < |Parse(code).value.children| && x == TruncationOf(code, i)
  }

  /** Ranks fall along the ancestors, from the code itself on. */
  ghost predicate RanksFall(from: nat, chain: seq<string>) {
    && (forall i :: 0 <= i < |chain| ==> Rank(chain[i]) < from)
    && (forall i, j :: 0 <= i < j < |chain| ==> Rank(chain[j]) < Rank(chain[i]))
  }

  /** Truncating the truncation at k gives the truncations up to k. */
  lemma TruncationsOfTruncation(code: string, k: nat, j: nat)
    requires Parse(code).Some? && k <= |Parse(code).value.children| && j <= |Parse(code).value.children|
    ensures Parse(TruncationOf(code, k)).Some?
    ensures |Parse(TruncationOf(code, k)).value.children| == |Parse(code).value.children|
    ensures TruncationOf(TruncationOf(code, k), j) == TruncationOf(code, if k <= j then k else j)
  {
    TruncationFacts(code, k);
    TruncateTwice(Parse(code).value.children, k, j);
  }

  /** The truncations of the parent are the truncations of the code beyond the parent. */
  lemma BeyondParent(codes: set<string>, code: string, k: nat, x: string)
    requires Parse(code).Some? && k < |Parse(code).value.children| && x in codes
    requires !Skipped(codes, code, Parse(code).value, k)
    requires forall j :: k < j < |Parse(code).value.children| ==> Skipped(codes, code, Parse(code).value, j)
    requires Parse(TruncationOf(code, k)).Some?
    ensures var q := TruncationOf(code, k);
            IsTruncation(x, code) && x != code <==> x == q || (IsTruncation(x, q) && x != q)
  {
    var q := TruncationOf(code, k);
    TruncationFacts(code, k);
    assert IsTruncation(q, code);
    if IsTruncation(x, code) && x != code && x != q {
      var j :| 0 <= j < |Parse(code).value.children| && x == TruncationOf(code, j);
      assert k < j ==> Skipped(codes, code, Parse(code).value, j);
      TruncationsOfTruncation(code, k, j);
      assert x == TruncationOf(q, j);
    }
    if IsTruncation(x, q) && x != q {
      var j :| 0 <= j < |Parse(q).value.children| && x == TruncationOf(q, j);
      TruncationsOfTruncation(code, k, j);
      TruncationFacts(q, j);
      assert j < k;
      assert x == TruncationOf(code, j);
    }
  }

  lemma RanksFallFrom(from: nat, q: string, rest: seq<string>)
    requires Rank(q) < from && RanksFall(Rank(q), rest)
    ensures RanksFall(from, [q] + rest)
  {
  }

  lemma {:induction false} AncestorRanksFall(codes: set<string>, code: string)
    ensures RanksFall(Rank(code), Ancestors(codes, code))
    decreases Rank(code)
  {
    if ParentOf(codes, code).Some? {
      ParentIsLower(codes, code);
      var q := ParentOf(codes, code).value;
      AncestorRanksFall(codes, q);
      RanksFallFrom(Rank(code), q, Ancestors(codes, q));
    }
  }

  /** One link covers what lies between a code and its parent. */
  lemma AncestorStep(codes: set<string>, code: string, x: string)
    requires Parse(code).Some? && Parse(code).value.letter == "" && x in codes
    ensures ParentOf(codes, code).None? ==> !IsTruncation(x, code) || x == code
    ensures ParentOf(codes, code).Some? ==>
      var q := ParentOf(codes, code).value;
      && Parse(q).Some? && Parse(q).value.letter == ""
      && (IsTruncation(x, code) && x != code <==> x == q || (IsTruncation(x, q) && x != q))
  {
    var p := Parse(code).value;
    var k := SearchFinds(codes, code, p, |p.children|);
    if ParentOf(codes, code).Some? {
      assert ParentOf(codes, code).value == TruncationOf(code, k);
      TruncationFacts(code, k);
      BeyondParent(codes, code, k, x);
    } else if IsTruncation(x, code) {
      var i :| 0 <= i < |p.children| && x == TruncationOf(code, i);
      assert Skipped(codes, code, p, i);
    }
  }

  /**
  Following the links from an unlettered account visits exactly the existing truncations of its code
  other than itself, each once and the nearest first.
  */
  lemma {:induction false} AncestorsAreTruncations(codes: set<string>, code: string)
    requires Parse(code).Some? && Parse(code).value.letter == ""
    ensures forall x :: x in Ancestors(codes, code) <==> x in codes && IsTruncation(x, code) && x != code
    ensures RanksFall(Rank(code), Ancestors(codes, code))
    decreases Rank(code)
  {
    AncestorRanksFall(codes, code);
    if ParentOf(codes, code).Some? {
      ParentIsLower(codes, code);
      AncestorsAreTruncations(codes, ParentOf(codes, code).value);
    }
    forall x
      ensures x in Ancestors(codes, code) <==> x in codes && IsTruncation(x, code) && x != code
    {
      if x in codes {
        AncestorStep(codes, code, x);
      } else if ParentOf(codes, code).Some? {
        assert x != ParentOf(codes, code).value;
      }
    }
  }

  /**
  Account prefix-children-letter hangs under account prefix-children when that exists, and is a root
  otherwise, whatever else exists.
  */
  lemma LetteredHangsUnderBase(codes: set<string>, code: string, prefix: string, children: string, letter: char)
    requires IsLetteredCode(code, prefix, children, letter)
    ensures var base := prefix + "-" + children;
            && ParentOf(codes, code) == (if base in codes then Some(base) else None)
            && Ancestors(codes, code) == if base in codes then [base] + Ancestors(codes, base) else []
  {
    LetteredIsParsed(code, prefix, children, letter);
    ParseJoin(prefix, children);
    assert |Chomp(code)| == |Join(prefix, children)| + 2;
  }

  lemma ZeroHasNoAncestors(codes: set<string>, prefix: string, n: nat)
    requires AllDigits(prefix) && prefix != "" && n > 0
    ensures Rank(Join(prefix, Zeros(n))) == 0 && Ancestors(codes, Join(prefix, Zeros(n))) == []
  {
    ParseJoin(prefix, Zeros(n));
    NoneNonZero(Zeros(n));
    AncestorRanksFall(codes, Join(prefix, Zeros(n)));
    var up := Ancestors(codes, Join(prefix, Zeros(n)));
    assert |up| > 0 ==> Rank(up[0]) < Rank(Join(prefix, Zeros(n)));
  }

  /** If the all-zero account exists, it is where the links of every other account with its prefix and length end. */
  lemma ZeroAccountIsRoot(codes: set<string>, code: string)
    requires Parse(code).Some? && Parse(code).value.letter == ""
    requires Join(Parse(code).value.prefix, Zeros(|Parse(code).value.children|)) in codes
    ensures var root := Join(Parse(code).value.prefix, Zeros(|Parse(code).value.children|));
            var chain := Ancestors(codes, code);
            && Ancestors(codes, root) == []
            && (code != root ==> chain != [] && chain[|chain| - 1] == root)
  {
    var p := Parse(code).value;
    ParseParts(code);
    ZeroHasNoAncestors(codes, p.prefix, |p.children|);
    if code != Join(p.prefix, Zeros(|p.children|)) {
      ZeroIsAncestor(codes, code, p);
      AncestorRanksFall(codes, code);
      LowestIsLast(Ancestors(codes, code), Join(p.prefix, Zeros(|p.children|)));
    }
  }

  lemma ZeroIsAncestor(codes: set<string>, code: string, p: Parts)
    requires Parse(code) == Some(p) && p.letter == "" && p.children != ""
    requires Join(p.prefix, Zeros(|p.children|)) in codes && code != Join(p.prefix, Zeros(|p.children|))
    ensures Join(p.prefix, Zeros(|p.children|)) in Ancestors(codes, code)
  {
    assert Truncate(p.children, 0) == Zeros(|p.children|);
    assert TruncationOf(code, 0) == Join(p.prefix, Zeros(|p.children|));
    AncestorsAreTruncations(codes, code);
  }

  lemma LowestIsLast(chain: seq<string>, root: string)
    requires root in chain && Rank(root) == 0
    requires forall i, j :: 0 <= i < j < |chain| ==> Rank(chain[j]) < Rank(chain[i])
    ensures chain[|chain| - 1] == root
  {
    var i :| 0 <= i < |chain| && chain[i] == root;
    var last := |chain| - 1;
    assert Rank(chain[last]) >= Rank(chain[i]);
  }

  /** The same holds for lettered accounts whose base account exists. */
  lemma ZeroAccountIsRootOfLettered(codes: set<string>, code: string, prefix: string, children: string, letter: char)
    requires IsLetteredCode(code, prefix, children, letter)
    requires prefix + "-" + children in codes && prefix + "-" + Zeros(|children|) in codes
    ensures var chain := Ancestors(codes, code);
            chain != [] && chain[|chain| - 1] == prefix + "-" + Zeros(|children|)
  {
    LetteredHangsUnderBase(codes, code, prefix, children, letter);
    ParseJoin(prefix, children);
    ZeroAccountIsRoot(codes, Join(prefix, children));
  }

  // ----- the migration loop -----

  datatype Row = Row(id: int, code: string)

  predicate UniqueRows(rows: seq<Row>) {
    forall i, j :: 0 <= i < j < |rows| ==> rows[i].id != rows[j].id && rows[i].code != rows[j].code
  }

  function CodesOf(rows: seq<Row>): set<string> {
    set i | 0 <= i < |rows| :: rows[i].code
  }

  class Accounts {
    var parentId: map<int, Option<int>>

    constructor (parentId: map<int, Option<int>>)
      ensures this.parentId == parentId
    {
      this.parentId := parentId;
    }

    /** Re-derive the parent of every listed account whose code has the pattern. */
    method RederiveParents(rows: seq<Row>)
      requires UniqueRows(rows)
      modifies this
      ensures forall i :: 0 <= i < |rows| && Parse(rows[i].code).Some? ==>
        rows[i].id in parentId && LinksTo(rows, ParentOf(CodesOf(rows), rows[i].code), parentId[rows[i].id])
      ensures forall id :: !Listed(rows, id) ==>
        (id in parentId <==> id in old(parentId)) && (id in parentId ==> parentId[id] == old(parentId)[id])
    {
      var codeToId := BuildLookup(rows);
      UpdateParents(rows, codeToId);
      forall id | !Listed(rows, id)
        ensures (id in parentId <==> id in old(parentId)) && (id in parentId ==> parentId[id] == old(parentId)[id])
      {
        UnlistedKept(rows, codeToId, old(parentId), id);
      }
      forall i | 0 <= i < |rows| && Parse(rows[i].code).Some?
        ensures rows[i].id in parentId
        ensures LinksTo(rows, ParentOf(CodesOf(rows), rows[i].code), parentId[rows[i].id])
      {
        ListedLinked(rows, codeToId, old(parentId), i);
      }
    }

    /** The loop over the accounts, with the lookup at hand. */
    method UpdateParents(rows: seq<Row>, codeToId: map<string, int>)
      requires codeToId.Keys == CodesOf(rows)
      modifies this
      ensures parentId == Derived(rows, Links(codeToId), old(parentId))
    {
      ghost var links := Links(codeToId);
      var k := 0;
      while k < |rows|
        invariant 0 <= k <= |rows|
        invariant parentId == Derived(rows[..k], links, old(parentId))
      {
        DerivedStep(rows, links, old(parentId), k);
        LinkOf(codeToId, rows[k].code);
        var parsed := Parse(rows[k].code);
        if parsed.Some? {
          var parent := FindParent(codeToId, rows[k].code, parsed.value);
          parentId := parentId[rows[k].id := parent];
        }
        k := k + 1;
      }
      assert rows[..k] == rows;
    }
  }

  /** The parent id for every code that has the pattern. */
  function Links(codeToId: map<string, int>): map<string, Option<int>> {
    map code | code in codeToId && Parse(code).Some? :: LookUp(codeToId, ParentOf(codeToId.Keys, code))
  }

  /** The parent ids after the rows have been visited in order. */
  function Derived(rows: seq<Row>, links: map<string, Option<int>>, before: map<int, Option<int>>)
    : map<int, Option<int>>
  {
    if rows == [] then before
    else
      var r := rows[|rows| - 1];
      var parents := Derived(rows[..|rows| - 1], links, before);
      if r.code in links then parents[r.id := links[r.code]] else parents
  }

  lemma LinkOf(codeToId: map<string, int>, code: string)
    requires code in codeToId
    ensures code in Links(codeToId) <==> Parse(code).Some?
    ensures code in Links(codeToId) ==> Links(codeToId)[code] == LookUp(codeToId, ParentOf(codeToId.Keys, code))
  {
  }

  lemma DerivedStep(rows: seq<Row>, links: map<string, Option<int>>, before: map<int, Option<int>>, k: nat)
    requires k < |rows|
    ensures var parents := Derived(rows[..k], links, before);
            Derived(rows[..k + 1], links, before)
            == if rows[k].code in links then parents[rows[k].id := links[rows[k].code]] else parents
  {
    assert rows[..k + 1][..k] == rows[..k];
  }

  lemma UnlistedKept(rows: seq<Row>, codeToId: map<string, int>, before: map<int, Option<int>>, id: int)
    requires codeToId.Keys == CodesOf(rows) && !Listed(rows, id)
    ensures var parents := Derived(rows, Links(codeToId), before);
            (id in parents <==> id in before) && (id in parents ==> parents[id] == before[id])
  {
    DerivedFrame(rows, Links(codeToId), before, id);
  }

  lemma ListedLinked(rows: seq<Row>, codeToId: map<string, int>, before: map<int, Option<int>>, i: nat)
    requires UniqueRows(rows) && i < |rows| && Parse(rows[i].code).Some?
    requires codeToId.Keys == CodesOf(rows) && IdsOfRows(rows, codeToId)
    ensures var parents := Derived(rows, Links(codeToId), before);
            && rows[i].id in parents
            && LinksTo(rows, ParentOf(CodesOf(rows), rows[i].code), parents[rows[i].id])
  {
    assert rows[i].code in CodesOf(rows);
    LinkOf(codeToId, rows[i].code);
    DerivedLink(rows, Links(codeToId), before, i);
    LookUpLinks(rows, codeToId, rows[i].code);
  }

  /** The order of the rows does not matter. */
  lemma {:induction false} DerivedLink(rows: seq<Row>, links: map<string, Option<int>>,
                                       before: map<int, Option<int>>, i: nat)
    requires UniqueRows(rows) && i < |rows| && rows[i].code in links
    ensures var parents := Derived(rows, links, before);
            rows[i].id in parents && parents[rows[i].id] == links[rows[i].code]
  {
    var n := |rows| - 1;
    if i < n {
      assert rows[..n][i] == rows[i] && rows[i].id != rows[n].id;
      DerivedLink(rows[..n], links, before, i);
    }
  }

  /** Accounts that are not listed, or whose code does not have the pattern, keep their parent. */
  lemma {:induction false} DerivedFrame(rows: seq<Row>, links: map<string, Option<int>>,
                                        before: map<int, Option<int>>, id: int)
    requires forall i :: 0 <= i < |rows| && rows[i].code in links ==> rows[i].id != id
    ensures var parents := Derived(rows, links, before);
            (id in parents <==> id in before) && (id in parents ==> parents[id] == before[id])
  {
    if rows != [] {
      var rest, last := rows[..|rows| - 1], rows[|rows| - 1];
      assert forall i :: 0 <= i < |rest| ==> rest[i] == rows[i];
      assert last.code in links ==> last.id != id;
      DerivedFrame(rest, links, before, id);
    }
  }

  /** One of the rows has this id and a code of the pattern. */
  predicate Listed(rows: seq<Row>, id: int) {
    exists i :: 0 <= i < |rows| && rows[i].id == id && Parse(rows[i].code).Some?
  }

  /** The stored id is that of the account with the parent's code. */
  predicate LinksTo(rows: seq<Row>, parent: Option<string>, stored: Option<int>) {
    match parent
    case None => stored == None
    case Some(q) => exists j :: 0 <= j < |rows| && rows[j].code == q && stored == Some(rows[j].id)
  }

  /** Every code is looked up to the id of a row that has it. */
  ghost predicate IdsOfRows(rows: seq<Row>, codeToId: map<string, int>) {
    forall code :: code in codeToId ==>
      exists j :: 0 <= j < |rows| && rows[j].code == code && rows[j].id == codeToId[code]
  }

  lemma LookUpLinks(rows: seq<Row>, codeToId: map<string, int>, code: string)
    requires codeToId.Keys == CodesOf(rows)
    requires IdsOfRows(rows, codeToId)
    ensures LinksTo(rows, ParentOf(CodesOf(rows), code), LookUp(codeToId, ParentOf(CodesOf(rows), code)))
  {
    if ParentOf(CodesOf(rows), code).Some? {
      ParentIsLower(CodesOf(rows), code);
      var q := ParentOf(CodesOf(rows), code).value;
      assert q in codeToId;
    }
  }

  function LookUp(codeToId: map<string, int>, code: Option<string>): Option<int> {
    if code.Some? && code.value in codeToId then Some(codeToId[code.value]) else None
  }

  method BuildLookup(rows: seq<Row>) returns (codeToId: map<string, int>)
    ensures codeToId.Keys == CodesOf(rows)
    ensures IdsOfRows(rows, codeToId)
  {
    codeToId := map[];
    var k := 0;
    while k < |rows|
      invariant 0 <= k <= |rows|
      invariant codeToId.Keys == set i | 0 <= i < k :: rows[i].code
      invariant forall code :: code in codeToId ==>
        exists j :: 0 <= j < k && rows[j].code == code && rows[j].id == codeToId[code]
    {
      codeToId := codeToId[rows[k].code := rows[k].id];
      k := k + 1;
    }
  }

  /** The inner loop: zero the children from the right until an account exists. */
  method SearchParent(codeToId: map<string, int>, code: string, p: Parts) returns (parent: Option<int>)
    ensures parent == LookUp(codeToId, Search(codeToId.Keys, code, p, |p.children|))
  {
    parent := None;
    var i := |p.children|;
    while i > 0
      invariant 0 <= i <= |p.children| && parent == None
      invariant Search(codeToId.Keys, code, p, |p.children|) == Search(codeToId.Keys, code, p, i)
    {
      i := i - 1;
      var candidate := Join(p.prefix, p.children[..i] + Zeros(|p.children| - i));
      if candidate != code && candidate in codeToId {
        parent := Some(codeToId[candidate]);
        return;
      }
    }
  }

  method FindParent(codeToId: map<string, int>, code: string, p: Parts) returns (parent: Option<int>)
    requires Parse(code) == Some(p)
    ensures parent == LookUp(codeToId, ParentOf(codeToId.Keys, code))
  {
    if p.letter != "" {
      var candidate := Join(p.prefix, p.children);
      parent := None;
      if candidate in codeToId && candidate != code {
        parent := Some(codeToId[candidate]);
      }
    } else {
      parent := SearchParent(codeToId, code, p);
    }
  }
}
