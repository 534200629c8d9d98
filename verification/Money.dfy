/**
Money rounding and storage: half-up rounding to a currency's minor unit, storage at scale 4, and the
trim on read. A decimal is a coefficient and an exponent, so that two representations of one value
can be told apart.
*/
module Money {
  import opened Numbers
  import opened Options

  /** coeff times ten to the exp */
  datatype Dec = Dec(coeff: int, exp: int)

  datatype Mode = HalfUp | HalfDown | HalfEven | Down | Up | Floor | Ceiling | ZeroFiveUp

  function Pow10(k: nat): (p: nat)
    ensures p >= 1
  {
    if k == 0 then 1 else 10 * Pow10(k - 1)
  }

  // ----- integer rounding -----

  /** n / d to the nearest integer, ties away from zero */
  function RoundHalfUp(n: int, d: nat): int
    requires d > 0
  {
    var q := (2 * Abs(n) + d) / (2 * d);
    if n < 0 then -q else q
  }

  /** n / d to an integer under a rounding mode */
  function Round(mode: Mode, n: int, d: nat): int
    requires d > 0
  {
    var low, rest := n / d, n % d;
    if rest == 0 then low
    else
      match mode
      case HalfUp => RoundHalfUp(n, d)
      case HalfDown => if 2 * rest > d || (2 * rest == d && n < 0) then low + 1 else low
      case HalfEven => if 2 * rest > d || (2 * rest == d && low % 2 == 1) then low + 1 else low
      case Down => if n < 0 then low + 1 else low
      case Up => if n < 0 then low else low + 1
      case Floor => low
      case Ceiling => low + 1
      case ZeroFiveUp =>
        var truncated := if n < 0 then low + 1 else low;
        if truncated % 5 != 0 then truncated else if n < 0 then truncated - 1 else truncated + 1
  }

  /** What half-up rounding means: nearest, and at a tie the one further from zero. */
  predicate IsHalfUp(n: int, d: nat, r: int) {
    2 * Abs(r * d - n) <= d && (2 * Abs(r * d - n) == d ==> Abs(r * d) > Abs(n))
  }

  lemma DivBounds(n: int, d: int)
    requires d > 0
    ensures d * (n / d) <= n < d * (n / d) + d
  {
  }

  lemma {:induction false} MulMono(a: int, b: int, d: int)
    requires a <= b && d >= 0
    ensures a * d <= b * d
  {
  }

  lemma MulBetween(q: int, d: int)
    requires d > 0 && -d < q * d < d
    ensures q == 0
  {
    if q >= 1 { MulMono(1, q, d); } else if q <= -1 { MulMono(q, -1, d); }
  }

  lemma RoundIsHalfUp(n: int, d: nat)
    requires d > 0
    ensures IsHalfUp(n, d, RoundHalfUp(n, d))
  {
    var k := (2 * Abs(n) + d) / (2 * d);
    DivBounds(2 * Abs(n) + d, 2 * d);
    assert (2 * d) * k == 2 * (k * d);
    assert (-k) * d == -(k * d);
  }

  /** Multiples of d are at least d apart, and none lies strictly between -d and 0. */
  lemma MultiplesApart(r: int, s: int, d: int)
    requires d > 0
    ensures r > s ==> r * d >= s * d + d
    ensures r * d >= 0 || r * d <= -d
  {
    if r > s {
      MulMono(s + 1, r, d);
      assert (s + 1) * d == s * d + d;
    }
    if r >= 0 { MulMono(0, r, d); } else { MulMono(r, -1, d); }
  }

  /** Of two multiples at the same distance from n, only one is further from zero. */
  lemma TieBreak(n: int, d: int, p: int, q: int)
    requires d > 0 && (p >= q + d || q >= p + d || p == q)
    requires (p >= 0 || p <= -d) && (q >= 0 || q <= -d)
    requires 2 * Abs(p - n) <= d && (2 * Abs(p - n) == d ==> Abs(p) > Abs(n))
    requires 2 * Abs(q - n) <= d && (2 * Abs(q - n) == d ==> Abs(q) > Abs(n))
    ensures p == q
  {
  }

  /** Half-up rounding is the only function that does this. */
  lemma HalfUpUnique(n: int, d: nat, r: int)
    requires d > 0
    ensures IsHalfUp(n, d, r) <==> r == RoundHalfUp(n, d)
  {
    RoundIsHalfUp(n, d);
    var s := RoundHalfUp(n, d);
    MultiplesApart(r, s, d);
    MultiplesApart(s, r, d);
    if IsHalfUp(n, d, r) {
      TieBreak(n, d, r * d, s * d);
    }
  }

  lemma Squeeze(p: int, q: int, m: int, n: int, d: int)
    requires m <= n && 2 * Abs(p - m) <= d && 2 * Abs(q - n) <= d && p >= q + d
    ensures m == n
  {
  }

  lemma RoundMonotone(m: int, n: int, d: nat)
    requires d > 0 && m <= n
    ensures RoundHalfUp(m, d) <= RoundHalfUp(n, d)
  {
    RoundIsHalfUp(m, d);
    RoundIsHalfUp(n, d);
    var r, s := RoundHalfUp(m, d), RoundHalfUp(n, d);
    if r > s {
      MultiplesApart(r, s, d);
      Squeeze(r * d, s * d, m, n, d);
    }
  }

  lemma RoundOdd(n: int, d: nat)
    requires d > 0
    ensures RoundHalfUp(-n, d) == -RoundHalfUp(n, d)
  {
  }

  /** A whole number of units is not changed. */
  lemma RoundExact(k: int, d: nat)
    requires d > 0
    ensures RoundHalfUp(k * d, d) == k
  {
    HalfUpUnique(k * d, d, k);
  }

  function SumOf(ns: seq<int>): int {
    if ns == [] then 0 else SumOf(ns[..|ns| - 1]) + ns[|ns| - 1]
  }

  lemma ErrorsAdd(p: int, q: int, m: int, n: int, e: int, f: int)
    requires 2 * Abs(p - m) <= e && 2 * Abs(q - n) <= f
    ensures 2 * Abs((p + q) - (m + n)) <= e + f
    ensures 2 * Abs((p - q) - (m - n)) <= e + f
  {
  }

  /** Each number is the other one rounded half up to a multiple of d. */
  ghost predicate AllHalfUp(ns: seq<int>, d: nat, rounded: seq<int>) {
    |rounded| == |ns| && forall i :: 0 <= i < |ns| ==> IsHalfUp(ns[i], d, rounded[i])
  }

  lemma {:induction false} SumOfRounded(ns: seq<int>, d: nat, rounded: seq<int>)
    requires AllHalfUp(ns, d, rounded)
    ensures 2 * Abs(SumOf(rounded) * d - SumOf(ns)) <= |ns| * d
  {
    if ns != [] {
      var last := |ns| - 1;
      SumOfRounded(ns[..last], d, rounded[..last]);
      OneMoreRounded(SumOf(rounded[..last]), rounded[last], SumOf(ns[..last]), ns[last], last, d);
    }
  }

  lemma OneMoreRounded(a: int, r: int, s: int, n: int, k: nat, d: nat)
    requires 2 * Abs(a * d - s) <= k * d && 2 * Abs(r * d - n) <= d
    ensures 2 * Abs((a + r) * d - (s + n)) <= (k + 1) * d
  {
    ErrorsAdd(a * d, r * d, s, n, k * d, d);
    Distribute(a, r, d);
    Distribute(k, 1, d);
  }

  lemma Distribute(a: int, b: int, d: int)
    ensures (a + b) * d == a * d + b * d
    ensures (a - b) * d == a * d - b * d
  {
  }

  lemma DivideBound(x: int, k: int, d: int)
    requires d > 0 && 2 * Abs(x * d) <= k * d
    ensures 2 * Abs(x) <= k
  {
    var y := Abs(x);
    assert Abs(x * d) == y * d by {
      if x >= 0 { MulMono(0, x, d); } else { MulMono(x, 0, d); assert (-x) * d == -(x * d); }
    }
    if 2 * y >= k + 1 {
      MulMono(k + 1, 2 * y, d);
      Distribute(k, 1, d);
      Distribute(y, y, d);
    }
  }

  /** Rounding n amounts and adding them up differs from rounding their sum by at most (n + 1) / 2 units. */
  lemma RoundingDrift(ns: seq<int>, d: nat, rounded: seq<int>, total: int)
    requires d > 0 && AllHalfUp(ns, d, rounded) && IsHalfUp(SumOf(ns), d, total)
    ensures 2 * Abs(SumOf(rounded) - total) <= |ns| + 1
  {
    SumOfRounded(ns, d, rounded);
    UnitsApart(SumOf(rounded), total, SumOf(ns), |ns|, d);
  }

  lemma UnitsApart(a: int, r: int, s: int, n: nat, d: nat)
    requires d > 0 && 2 * Abs(a * d - s) <= n * d && 2 * Abs(r * d - s) <= d
    ensures 2 * Abs(a - r) <= n + 1
  {
    ErrorsAdd(a * d, r * d, s, s, n * d, d);
    assert (a - r) * d == a * d - r * d && (n + 1) * d == n * d + d;
    DivideBound(a - r, n + 1, d);
  }

  // ----- decimals -----

  /** The same number, whatever the exponents. */
  predicate SameValue(a: Dec, b: Dec) {
    if a.exp <= b.exp then a.coeff == b.coeff * Pow10(b.exp - a.exp) else b.coeff == a.coeff * Pow10(a.exp - b.exp)
  }

  /** The decimal of exponent e nearest to v under a mode; exact when e is not above v's own exponent. */
  function Quantize(v: Dec, e: int, mode: Mode): Dec {
    if v.exp >= e then Dec(v.coeff * Pow10(v.exp - e), e)
    else Dec(Round(mode, v.coeff, Pow10(e - v.exp)), e)
  }

  function RoundMoney(v: Dec, places: int): Dec {
    Quantize(v, -places, HalfUp)
  }

  /** A Numeric(18, 4) column: four places, half away from zero. */
  function Store(v: Dec): Dec {
    Quantize(v, -4, HalfUp)
  }

  /** The trim on read, with the rounding mode of the context made explicit. */
  function Read(v: Dec, mode: Mode): Dec {
    if v.exp >= -2 then v
    else if SameValue(Quantize(v, -2, mode), v) then Quantize(v, -2, mode)
    else if SameValue(Quantize(v, -3, mode), v) then Quantize(v, -3, mode)
    else v
  }

  lemma {:induction false} Pow10Add(a: nat, b: nat)
    ensures Pow10(a + b) == Pow10(a) * Pow10(b)
  {
    if a > 0 {
      Pow10Add(a - 1, b);
      MulAssoc(10, Pow10(a - 1), Pow10(b));
    }
  }

  /** A result that keeps the value exists exactly when the division is exact, and then no mode matters. */
  lemma RoundKeepsExactly(mode: Mode, n: int, d: nat)
    requires d > 0
    ensures Round(mode, n, d) * d == n <==> n % d == 0
    ensures n % d == 0 ==> Round(mode, n, d) == n / d
  {
    if n % d == 0 {
      Recompose(n, d);
    } else {
      NotAMultiple(Round(mode, n, d), n, d);
    }
  }

  lemma Recompose(n: int, d: nat)
    requires d > 0
    ensures n == (n / d) * d + n % d
  {
  }

  lemma NotAMultiple(r: int, n: int, d: nat)
    requires d > 0 && n % d != 0
    ensures r * d != n
  {
    if r * d == n {
      Recompose(n, d);
      Distribute(r, n / d, d);
      MulBetween(r - n / d, d);
    }
  }

  /** What each mode asks of a multiple p of d, as the result for n */
  predicate IsModeOf(mode: Mode, n: int, d: nat, r: int, p: int) {
    match mode
    case HalfUp => 2 * Abs(p - n) <= d && (2 * Abs(p - n) == d ==> Abs(p) > Abs(n))
    case HalfDown => 2 * Abs(p - n) <= d && (2 * Abs(p - n) == d ==> Abs(p) < Abs(n))
    case HalfEven => 2 * Abs(p - n) <= d && (2 * Abs(p - n) == d ==> r % 2 == 0)
    case Down => Abs(p) <= Abs(n) < Abs(p) + d && (p == 0 || (p < 0 <==> n < 0))
    case Up => Abs(p) - d < Abs(n) <= Abs(p) && (p == 0 || (p < 0 <==> n < 0))
    case Floor => p <= n < p + d
    case Ceiling => p - d < n <= p
    case ZeroFiveUp =>
      && Abs(p - n) < d
      && (p != n ==> r % 5 != 0)
      && (Abs(p) > Abs(n) ==> (if n < 0 then r + 1 else r - 1) % 5 == 0)
  }

  lemma ModeOfParts(mode: Mode, n: int, d: nat, low: int, rest: int, p: int)
    requires d > 0 && n == p + rest && 0 < rest < d && mode != HalfUp
    requires n >= 0 ==> p >= 0
    requires n < 0 ==> p + d <= 0
    ensures var up := match mode
                      case HalfDown => 2 * rest > d || (2 * rest == d && n < 0)
                      case HalfEven => 2 * rest > d || (2 * rest == d && low % 2 == 1)
                      case Down => n < 0
                      case Up => n >= 0
                      case Floor => false
                      case _ => true;
            mode != ZeroFiveUp ==> IsModeOf(mode, n, d, if up then low + 1 else low, if up then p + d else p)
  {
  }

  lemma ZeroFiveOfParts(n: int, d: nat, low: int, rest: int, p: int)
    requires d > 0 && n == p + rest && 0 < rest < d
    requires n >= 0 ==> p >= 0
    requires n < 0 ==> p + d <= 0
    ensures n >= 0 ==>
      if low % 5 != 0 then IsModeOf(ZeroFiveUp, n, d, low, p) else IsModeOf(ZeroFiveUp, n, d, low + 1, p + d)
    ensures n < 0 ==>
      if (low + 1) % 5 != 0 then IsModeOf(ZeroFiveUp, n, d, low + 1, p + d) else IsModeOf(ZeroFiveUp, n, d, low, p)
  {
  }

  lemma LowMultiple(n: int, d: nat)
    requires d > 0
    ensures n == (n / d) * d + n % d && (n / d + 1) * d == (n / d) * d + d
    ensures n >= 0 ==> (n / d) * d >= 0
    ensures n < 0 ==> (n / d) * d + d <= 0
  {
    Recompose(n, d);
    Distribute(n / d, 1, d);
    MultiplesApart(n / d, 0, d);
  }

  /** An inexact result is one of the two neighbours. */
  lemma RoundToNeighbour(mode: Mode, n: int, d: nat, p: int) returns (r: int)
    requires d > 0 && mode != HalfUp && n % d != 0 && n == p + n % d
    requires (n >= 0 ==> p >= 0) && (n < 0 ==> p + d <= 0)
    ensures r == Round(mode, n, d)
    ensures (r == n / d && IsModeOf(mode, n, d, r, p)) || (r == n / d + 1 && IsModeOf(mode, n, d, r, p + d))
  {
    r := Round(mode, n, d);
    ModeOfParts(mode, n, d, n / d, n % d, p);
    ZeroFiveOfParts(n, d, n / d, n % d, p);
  }

  /** Every mode rounds as its name says. */
  lemma RoundMeans(mode: Mode, n: int, d: nat)
    requires d > 0
    ensures IsModeOf(mode, n, d, Round(mode, n, d), Round(mode, n, d) * d)
  {
    LowMultiple(n, d);
    if n % d == 0 {
    } else if mode == HalfUp {
      RoundIsHalfUp(n, d);
    } else {
      var r := RoundToNeighbour(mode, n, d, (n / d) * d);
    }
  }

  lemma QuantizeKeepsExactly(v: Dec, e: int, mode: Mode)
    ensures v.exp >= e ==> SameValue(Quantize(v, e, mode), v)
    ensures v.exp < e ==> (SameValue(Quantize(v, e, mode), v) <==> v.coeff % Pow10(e - v.exp) == 0)
    ensures v.exp < e && v.coeff % Pow10(e - v.exp) == 0 ==>
      Quantize(v, e, mode) == Dec(v.coeff / Pow10(e - v.exp), e)
  {
    if v.exp < e {
      RoundKeepsExactly(mode, v.coeff, Pow10(e - v.exp));
    }
  }

  /** The trim never rounds, and gives the same decimal under every rounding mode. */
  lemma ReadNeverRounds(v: Dec, mode: Mode, other: Mode)
    ensures SameValue(Read(v, mode), v)
    ensures Read(v, mode) == Read(v, other)
  {
    QuantizeKeepsExactly(v, -2, mode);
    QuantizeKeepsExactly(v, -2, other);
    QuantizeKeepsExactly(v, -3, mode);
    QuantizeKeepsExactly(v, -3, other);
  }

  /**
  What the trim returns, for every decimal: hundredths if that loses nothing, else thousandths if that
  loses nothing, else the decimal as it is; nothing is ever padded.
  */
  lemma ReadExactly(v: Dec, mode: Mode)
    ensures v.exp >= -2 ==> Read(v, mode) == v
    ensures v.exp < -2 && v.coeff % Pow10(-2 - v.exp) == 0 ==>
      Read(v, mode) == Dec(v.coeff / Pow10(-2 - v.exp), -2)
    ensures v.exp < -3 && v.coeff % Pow10(-2 - v.exp) != 0 && v.coeff % Pow10(-3 - v.exp) == 0 ==>
      Read(v, mode) == Dec(v.coeff / Pow10(-3 - v.exp), -3)
    ensures v.exp == -3 && v.coeff % Pow10(1) != 0 ==> Read(v, mode) == v
    ensures v.exp < -3 && v.coeff % Pow10(-2 - v.exp) != 0 && v.coeff % Pow10(-3 - v.exp) != 0 ==> Read(v, mode) == v
  {
    QuantizeKeepsExactly(v, -2, mode);
    QuantizeKeepsExactly(v, -3, mode);
    assert v.exp == -3 ==> Quantize(v, -3, mode) == v by { assert Pow10(0) == 1; }
  }

  lemma ReadIdempotent(v: Dec, mode: Mode)
    ensures Read(Read(v, mode), mode) == Read(v, mode)
  {
    var r := Read(v, mode);
    QuantizeKeepsExactly(v, -2, mode);
    QuantizeKeepsExactly(v, -3, mode);
    if r.exp == -3 {
      QuantizeKeepsExactly(r, -2, mode);
      QuantizeKeepsExactly(r, -3, mode);
      if v.exp < -3 && r != v {
        ThousandthsToHundredths(v.coeff, -3 - v.exp);
      }
    }
  }

  /** If a value in thousandths has no thousandth, the digits beyond it were already trimmable to hundredths. */
  lemma ThousandthsToHundredths(c: int, k: nat)
    requires c % Pow10(k) == 0
    ensures c % Pow10(k + 1) == 0 <==> (c / Pow10(k)) % 10 == 0
  {
    var d, q := Pow10(k), c / Pow10(k);
    assert c == q * d;
    DivBounds(q, 10);
    var t, u := q / 10, q % 10;
    assert q == 10 * t + u;
    assert c == t * (10 * d) + u * d by {
      assert (10 * t + u) * d == 10 * t * d + u * d;
      assert t * (10 * d) == 10 * t * d;
    }
    MulMono(u, 9, d);
    MulMono(0, u, d);
    DivModUnique(c, 10 * d, t, u * d);
    if u != 0 { MulMono(1, u, d); }
  }

  lemma DivModUnique(n: int, d: int, q: int, r: int)
    requires d > 0 && n == q * d + r && 0 <= r < d
    ensures n / d == q && n % d == r
  {
    DivBounds(n, d);
    assert (n / d - q) * d == r - n % d by { assert n == (n / d) * d + n % d; }
    MulBetween(n / d - q, d);
  }

  /** A value of two to four places, counted in ten-thousandths. */
  function TenThousandths(v: Dec): int {
    v.coeff * (if v.exp == -2 then 100 else if v.exp == -3 then 10 else 1)
  }

  lemma SameTenThousandths(a: Dec, b: Dec)
    requires -4 <= a.exp <= -2 && -4 <= b.exp <= -2
    ensures SameValue(a, b) <==> TenThousandths(a) == TenThousandths(b)
  {
    assert Pow10(0) == 1 && Pow10(1) == 10 && Pow10(2) == 100 by { assert Pow10(2) == 10 * Pow10(1); }
  }

  lemma ScaledDigits(c: int)
    ensures (100 * c) % 100 == 0 && (100 * c) / 100 == c
    ensures (10 * c) % 10 == 0 && (10 * c) / 10 == c
    ensures (10 * c) % 100 == 0 <==> c % 10 == 0
    ensures c % 10 == 0 ==> (10 * c) / 100 == c / 10
  {
  }

  lemma ReadByTenThousandths(v: Dec, mode: Mode)
    requires -4 <= v.exp <= -2
    ensures var n := TenThousandths(v);
            Read(v, mode) == if n % 100 == 0 then Dec(n / 100, -2)
                             else if n % 10 == 0 then Dec(n / 10, -3) else Dec(n, -4)
  {
    ReadSmall(v, mode);
    ScaledDigits(v.coeff);
  }

  /** Values stored with two to four places are read alike exactly when they are equal. */
  lemma ReadCanonical(a: Dec, b: Dec, mode: Mode)
    requires -4 <= a.exp <= -2 && -4 <= b.exp <= -2
    ensures SameValue(a, b) <==> Read(a, mode) == Read(b, mode)
  {
    SameTenThousandths(a, b);
    ReadByTenThousandths(a, mode);
    ReadByTenThousandths(b, mode);
  }

  lemma ReadSmall(v: Dec, mode: Mode)
    requires -4 <= v.exp <= -2
    ensures v.exp == -2 ==> Read(v, mode) == v
    ensures v.exp == -3 ==> Read(v, mode) == if v.coeff % 10 == 0 then Dec(v.coeff / 10, -2) else v
    ensures v.exp == -4 ==> Read(v, mode) == if v.coeff % 100 == 0 then Dec(v.coeff / 100, -2)
                                             else if v.coeff % 10 == 0 then Dec(v.coeff / 10, -3) else v
  {
    QuantizeKeepsExactly(v, -2, mode);
    QuantizeKeepsExactly(v, -3, mode);
    assert Pow10(0) == 1 && Pow10(1) == 10 && Pow10(2) == 100 by { assert Pow10(2) == 10 * Pow10(1); }
  }

  /** Writing a value to a column and reading it back keeps it exactly when it has no digit beyond the fourth place. */
  lemma StoreAndRead(v: Dec, mode: Mode)
    ensures SameValue(Read(Store(v), mode), v) <==> v.exp >= -4 || v.coeff % Pow10(-4 - v.exp) == 0
  {
    var s := Store(v);
    ReadSmall(s, mode);
    QuantizeKeepsExactly(v, -4, HalfUp);
    ReadNeverRounds(s, mode, mode);
    TrimSame(s, Read(s, mode), v);
  }

  /** What is stored has four places, and is the nearest such number, ties away from zero. */
  lemma StoreIsNearest(v: Dec)
    ensures Store(v).exp == -4
    ensures v.exp >= -4 ==> SameValue(Store(v), v)
    ensures v.exp < -4 ==> IsHalfUp(v.coeff, Pow10(-4 - v.exp), Store(v).coeff)
  {
    RoundMoneyIsNearest(v, 4);
  }

  /** Trimming a stored value does not change which values it equals. */
  lemma TrimSame(s: Dec, r: Dec, v: Dec)
    requires s.exp == -4 && -4 <= r.exp <= -2 && SameValue(r, s)
    ensures SameValue(r, v) <==> SameValue(s, v)
  {
    var k := r.exp - s.exp;
    assert Pow10(0) == 1 && Pow10(1) == 10 && Pow10(2) == 100 by { assert Pow10(2) == 10 * Pow10(1); }
    assert s.coeff == r.coeff * Pow10(k);
    if v.exp <= s.exp {
      Pow10Add(k, s.exp - v.exp);
      MulAssoc(r.coeff, Pow10(k), Pow10(s.exp - v.exp));
    } else if v.exp <= r.exp {
      Pow10Add(r.exp - v.exp, v.exp - s.exp);
      MulAssoc(r.coeff, Pow10(r.exp - v.exp), Pow10(v.exp - s.exp));
      CancelFactor(v.coeff, r.coeff * Pow10(r.exp - v.exp), Pow10(v.exp - s.exp));
    } else {
      Pow10Add(v.exp - r.exp, k);
      MulAssoc(v.coeff, Pow10(v.exp - r.exp), Pow10(k));
      CancelFactor(r.coeff, v.coeff * Pow10(v.exp - r.exp), Pow10(k));
    }
  }

  lemma MulAssoc(a: int, b: int, c: int)
    ensures a * (b * c) == (a * b) * c
  {
  }

  lemma CancelFactor(a: int, b: int, d: int)
    requires d > 0
    ensures a * d == b * d <==> a == b
  {
    if a * d == b * d {
      assert (a - b) * d == 0;
      MulBetween(a - b, d);
    }
  }

  // ----- currencies -----

  const DEFAULT_DECIMAL_PLACES := 2

  const NON_DEFAULT_MINOR_UNITS: map<string, int> := map[
    "BIF" := 0, "CLP" := 0, "DJF" := 0, "GNF" := 0, "ISK" := 0, "JPY" := 0,
    "KMF" := 0, "KRW" := 0, "PYG" := 0, "RWF" := 0, "UGX" := 0, "UYI" := 0,
    "VND" := 0, "VUV" := 0, "XAF" := 0, "XOF" := 0, "XPF" := 0,
    "BHD" := 3, "IQD" := 3, "JOD" := 3, "KWD" := 3, "LYD" := 3, "OMR" := 3,
    "TND" := 3
  ]

  function ToUpper(s: string): string {
    seq(|s|, i requires 0 <= i < |s| => if 'a' <= s[i] <= 'z' then s[i] - 'a' + 'A' else s[i])
  }

  /** Currencies without a minor unit, and with thousandths */
  const WHOLE_UNITS := {
    "BIF", "CLP", "DJF", "GNF", "ISK", "JPY", "KMF", "KRW", "PYG", "RWF", "UGX", "UYI", "VND", "VUV", "XAF", "XOF",
    "XPF"
  }
  const THOUSANDTHS := {"BHD", "IQD", "JOD", "KWD", "LYD", "OMR", "TND"}

  function DecimalPlacesFor(currency: Option<string>): (places: int)
    ensures places == if currency.Some? && ToUpper(currency.value) in WHOLE_UNITS then 0
                      else if currency.Some? && ToUpper(currency.value) in THOUSANDTHS then 3 else 2
  {
    if currency.None? || currency.value == "" then DEFAULT_DECIMAL_PLACES
    else
      var code := ToUpper(currency.value);
      if code in NON_DEFAULT_MINOR_UNITS then NON_DEFAULT_MINOR_UNITS[code] else DEFAULT_DECIMAL_PLACES
  }

  /** The case of a currency code makes no difference. */
  lemma PlacesIgnoreCase(code: string)
    ensures ToUpper(ToUpper(code)) == ToUpper(code)
    ensures DecimalPlacesFor(Some(ToUpper(code))) == DecimalPlacesFor(Some(code))
  {
    assert ToUpper(ToUpper(code)) == ToUpper(code);
  }

  /** Hundredths come back digit for digit. */
  lemma HundredthsReadBack(c: int, mode: Mode)
    ensures Read(Store(Dec(c, -2)), mode) == Dec(c, -2)
  {
    assert Pow10(2) == 100 by { assert Pow10(2) == 10 * Pow10(1) && Pow10(1) == 10 * Pow10(0); }
    assert Store(Dec(c, -2)) == Dec(c * 100, -4);
    ReadSmall(Dec(c * 100, -4), mode);
    ScaledDigits(c);
  }

  /** An amount rounded to at most four places survives storage; with two places it comes back digit for digit. */
  lemma RoundedAmountsSurvive(v: Dec, places: int, mode: Mode)
    requires places <= 4
    ensures SameValue(Read(Store(RoundMoney(v, places)), mode), RoundMoney(v, places))
    ensures places == 2 ==> Read(Store(RoundMoney(v, places)), mode) == RoundMoney(v, places)
  {
    var r := RoundMoney(v, places);
    assert r.exp == -places;
    StoreAndRead(r, mode);
    if places == 2 {
      assert r == Dec(r.coeff, -2);
      HundredthsReadBack(r.coeff, mode);
    }
  }

  /** So every amount in every currency survives storage. */
  lemma EveryCurrencySurvives(v: Dec, currency: Option<string>, mode: Mode)
    ensures var r := RoundMoney(v, DecimalPlacesFor(currency)); SameValue(Read(Store(r), mode), r)
  {
    RoundedAmountsSurvive(v, DecimalPlacesFor(currency), mode);
  }

  /** Rounding is idempotent, and a rounded amount is stable under rounding to as many places or more. */
  lemma RoundMoneyStable(v: Dec, places: int, more: int)
    requires places <= more
    ensures SameValue(RoundMoney(RoundMoney(v, places), more), RoundMoney(v, places))
    ensures RoundMoney(RoundMoney(v, places), places) == RoundMoney(v, places)
  {
    QuantizeKeepsExactly(RoundMoney(v, places), -more, HalfUp);
  }

  /** A rounded amount is the multiple of the quantum nearest to the value, ties away from zero. */
  lemma RoundMoneyIsNearest(v: Dec, places: int)
    ensures RoundMoney(v, places).exp == -places
    ensures v.exp >= -places ==> SameValue(RoundMoney(v, places), v)
    ensures v.exp < -places ==> IsHalfUp(v.coeff, Pow10(-places - v.exp), RoundMoney(v, places).coeff)
  {
    QuantizeKeepsExactly(v, -places, HalfUp);
    if v.exp < -places {
      var d := Pow10(-places - v.exp);
      RoundIsHalfUp(v.coeff, d);
      if v.coeff % d == 0 {
        RoundKeepsExactly(HalfUp, v.coeff, d);
      }
    }
  }

  // ----- rounding decimals of any exponents -----

  /** The coefficient of v at a lower exponent. */
  function At(v: Dec, e: int): int
    requires e <= v.exp
  {
    v.coeff * Pow10(v.exp - e)
  }

  function Lower(a: int, b: int): int {
    if a <= b then a else b
  }

  predicate AtMost(a: Dec, b: Dec) {
    At(a, Lower(a.exp, b.exp)) <= At(b, Lower(a.exp, b.exp))
  }

  function Negate(v: Dec): Dec {
    Dec(-v.coeff, v.exp)
  }

  function Plus(a: Dec, b: Dec): Dec {
    Dec(At(a, Lower(a.exp, b.exp)) + At(b, Lower(a.exp, b.exp)), Lower(a.exp, b.exp))
  }

  /** Half-up rounding depends on the ratio only. */
  lemma RoundScaled(n: int, d: nat, k: nat)
    requires d > 0 && k > 0
    ensures d * k > 0 && RoundHalfUp(n * k, d * k) == RoundHalfUp(n, d)
  {
    var r := RoundHalfUp(n, d);
    RoundIsHalfUp(n, d);
    MulMono(1, k, d);
    HalfUpScaled(n, d, r, k);
    HalfUpUnique(n * k, d * k, r);
  }

  lemma HalfUpScaled(n: int, d: nat, r: int, k: nat)
    requires k > 0 && IsHalfUp(n, d, r)
    ensures IsHalfUp(n * k, d * k, r)
  {
    assert r * (d * k) == (r * d) * k by { MulAssoc(r, d, k); }
    NearestScaled(r * d, n, d, k);
  }

  lemma NearestScaled(p: int, n: int, d: nat, k: nat)
    requires k > 0 && 2 * Abs(p - n) <= d && (2 * Abs(p - n) == d ==> Abs(p) > Abs(n))
    ensures 2 * Abs(p * k - n * k) <= d * k && (2 * Abs(p * k - n * k) == d * k ==> Abs(p * k) > Abs(n * k))
  {
    Distribute(p, n, k);
    ScaledAbs(p - n, k);
    ScaledAbs(p, k);
    ScaledAbs(n, k);
    ScaledCompare(2 * Abs(p - n), d, Abs(p), Abs(n), k);
    MulAssoc(2, Abs(p - n), k);
  }

  lemma ScaledAbs(x: int, k: nat)
    ensures Abs(x * k) == Abs(x) * k
  {
    if x < 0 { assert (-x) * k == -(x * k); MulMono(x, 0, k); } else { MulMono(0, x, k); }
  }

  lemma ScaledCompare(e: int, d: int, p: int, q: int, k: nat)
    requires k > 0
    ensures e <= d ==> e * k <= d * k
    ensures e * k == d * k ==> e == d
    ensures p > q ==> p * k > q * k
  {
    if e <= d { MulMono(e, d, k); }
    CancelFactor(e, d, k);
    if p > q { MulMono(q + 1, p, k); Distribute(q, 1, k); }
  }

  /** A lower exponent than that of the value scales the coefficient. */
  lemma AtAgain(v: Dec, mid: int, e: int)
    requires e <= mid <= v.exp
    ensures At(v, e) == At(v, mid) * Pow10(mid - e)
  {
    Pow10Add(v.exp - mid, mid - e);
    MulAssoc(v.coeff, Pow10(v.exp - mid), Pow10(mid - e));
  }

  /** Rounding a decimal is rounding its coefficient at any low enough exponent. */
  lemma RoundMoneyAt(v: Dec, places: int, e: int)
    requires e <= v.exp && e <= -places
    ensures RoundMoney(v, places) == Dec(RoundHalfUp(At(v, e), Pow10(-places - e)), -places)
  {
    RoundMoneyIsNearest(v, places);
    if v.exp >= -places {
      AtAgain(v, -places, e);
      RoundExact(At(v, -places), Pow10(-places - e));
    } else {
      var d, k := Pow10(-places - v.exp), Pow10(v.exp - e);
      HalfUpUnique(v.coeff, d, RoundMoney(v, places).coeff);
      Pow10Add(-places - v.exp, v.exp - e);
      RoundScaled(v.coeff, d, k);
    }
  }

  lemma SameValueAt(a: Dec, b: Dec, e: int)
    requires e <= a.exp && e <= b.exp
    ensures SameValue(a, b) <==> At(a, e) == At(b, e)
    ensures AtMost(a, b) <==> At(a, e) <= At(b, e)
  {
    var m := Lower(a.exp, b.exp);
    AtAgain(a, m, e);
    AtAgain(b, m, e);
    CancelFactor(At(a, m), At(b, m), Pow10(m - e));
    assert SameValue(a, b) <==> At(a, m) == At(b, m) by { assert Pow10(0) == 1; }
    if At(a, m) <= At(b, m) {
      MulMono(At(a, m), At(b, m), Pow10(m - e));
    } else {
      MulMono(At(b, m) + 1, At(a, m), Pow10(m - e));
      Distribute(At(b, m), 1, Pow10(m - e));
    }
  }

  /** Rounding depends on the value, not on its representation. */
  lemma RoundMoneyOfValue(a: Dec, b: Dec, places: int)
    requires SameValue(a, b)
    ensures RoundMoney(a, places) == RoundMoney(b, places)
  {
    var e := Lower(Lower(a.exp, b.exp), -places);
    SameValueAt(a, b, e);
    RoundMoneyAt(a, places, e);
    RoundMoneyAt(b, places, e);
  }

  /** Rounding keeps the order of decimals. */
  lemma RoundMoneyMonotone(a: Dec, b: Dec, places: int)
    requires AtMost(a, b)
    ensures RoundMoney(a, places).coeff <= RoundMoney(b, places).coeff
    ensures AtMost(RoundMoney(a, places), RoundMoney(b, places))
  {
    var e := Lower(Lower(a.exp, b.exp), -places);
    SameValueAt(a, b, e);
    RoundMoneyAt(a, places, e);
    RoundMoneyAt(b, places, e);
    RoundMonotone(At(a, e), At(b, e), Pow10(-places - e));
    SameValueAt(RoundMoney(a, places), RoundMoney(b, places), -places);
    assert Pow10(0) == 1;
  }

  /** Rounding commutes with changing the sign. */
  lemma RoundMoneyOdd(v: Dec, places: int)
    ensures RoundMoney(Negate(v), places) == Negate(RoundMoney(v, places))
  {
    var e := Lower(v.exp, -places);
    RoundMoneyAt(v, places, e);
    RoundMoneyAt(Negate(v), places, e);
    NegativeTimes(v.coeff, Pow10(v.exp - e));
    RoundOdd(At(v, e), Pow10(-places - e));
  }

  lemma NegativeTimes(c: int, d: int)
    ensures (-c) * d == -(c * d)
  {
  }

  function Total(vs: seq<Dec>): Dec {
    if vs == [] then Dec(0, 0) else Plus(Total(vs[..|vs| - 1]), vs[|vs| - 1])
  }

  function LowestExp(vs: seq<Dec>, e: int): (low: int)
    ensures low <= e && forall i :: 0 <= i < |vs| ==> low <= vs[i].exp
  {
    if vs == [] then e else Lower(LowestExp(vs[..|vs| - 1], e), vs[|vs| - 1].exp)
  }

  function AllAt(vs: seq<Dec>, e: int): seq<int>
    requires forall i :: 0 <= i < |vs| ==> e <= vs[i].exp
  {
    seq(|vs|, i requires 0 <= i < |vs| => At(vs[i], e))
  }

  lemma PlusAt(a: Dec, b: Dec, e: int)
    requires e <= a.exp && e <= b.exp
    ensures At(Plus(a, b), e) == At(a, e) + At(b, e)
  {
    var m := Lower(a.exp, b.exp);
    AtAgain(a, m, e);
    AtAgain(b, m, e);
    Distribute(At(a, m), At(b, m), Pow10(m - e));
  }

  lemma {:induction false} TotalAt(vs: seq<Dec>, e: int)
    requires e <= 0 && forall i :: 0 <= i < |vs| ==> e <= vs[i].exp
    ensures e <= Total(vs).exp && At(Total(vs), e) == SumOf(AllAt(vs, e))
  {
    if vs != [] {
      var n := |vs| - 1;
      TotalAt(vs[..n], e);
      PlusAt(Total(vs[..n]), vs[n], e);
      assert AllAt(vs, e)[..n] == AllAt(vs[..n], e);
    }
  }

  lemma RoundMoneyHalfUp(v: Dec, places: int, e: int)
    requires e <= v.exp && e <= -places
    ensures IsHalfUp(At(v, e), Pow10(-places - e), RoundMoney(v, places).coeff)
  {
    RoundMoneyAt(v, places, e);
    HalfUpUnique(At(v, e), Pow10(-places - e), RoundMoney(v, places).coeff);
  }

  /** Each of these amounts is the other one rounded. */
  ghost predicate AllRounded(vs: seq<Dec>, places: int, rounded: seq<Dec>) {
    |rounded| == |vs| && forall i {:trigger vs[i]} :: 0 <= i < |vs| ==> rounded[i] == RoundMoney(vs[i], places)
  }

  function Coefficients(vs: seq<Dec>): seq<int> {
    seq(|vs|, i requires 0 <= i < |vs| => vs[i].coeff)
  }

  predicate LowEnough(vs: seq<Dec>, places: int, e: int) {
    e <= 0 && e <= -places && forall i :: 0 <= i < |vs| ==> e <= vs[i].exp
  }

  /** Counted in this unit, these are the amounts and their total, rounded half up. */
  ghost predicate RoundedInUnit(vs: seq<Dec>, places: int, rounded: seq<int>, total: int, e: int)
    requires LowEnough(vs, places, e)
  {
    && AllHalfUp(AllAt(vs, e), Pow10(-places - e), rounded)
    && IsHalfUp(SumOf(AllAt(vs, e)), Pow10(-places - e), total)
  }

  ghost predicate RoundedInAnyUnit(vs: seq<Dec>, places: int, rounded: seq<int>, total: int) {
    forall e :: LowEnough(vs, places, e) ==> RoundedInUnit(vs, places, rounded, total, e)
  }

  lemma RoundMoneyInAnyUnit(vs: seq<Dec>, places: int, rounded: seq<Dec>, total: Dec)
    requires AllRounded(vs, places, rounded) && AllRounded([Total(vs)], places, [total])
    ensures RoundedInAnyUnit(vs, places, Coefficients(rounded), total.coeff)
  {
    assert [Total(vs)][0] == Total(vs) && [total][0] == total;
    forall e | LowEnough(vs, places, e)
      ensures RoundedInUnit(vs, places, Coefficients(rounded), total.coeff, e)
    {
      RoundAllHalfUp(vs, places, e, rounded);
      RoundTotalHalfUp(vs, places, e);
    }
  }

  lemma DriftInUnit(vs: seq<Dec>, places: int, rounded: seq<int>, total: int, e: int)
    requires LowEnough(vs, places, e) && RoundedInUnit(vs, places, rounded, total, e)
    ensures 2 * Abs(SumOf(rounded) - total) <= |vs| + 1
  {
    RoundingDrift(AllAt(vs, e), Pow10(-places - e), rounded, total);
  }

  lemma SomeLowEnough(vs: seq<Dec>, places: int) returns (e: int)
    ensures LowEnough(vs, places, e)
  {
    e := LowestExp(vs, Lower(0, -places));
  }

  lemma DriftInAnyUnit(vs: seq<Dec>, places: int, rounded: seq<int>, total: int)
    requires RoundedInAnyUnit(vs, places, rounded, total)
    ensures 2 * Abs(SumOf(rounded) - total) <= |vs| + 1
  {
    var e := SomeLowEnough(vs, places);
    DriftInUnit(vs, places, rounded, total, e);
  }

  /**
  Rounding n amounts of any exponents and adding them up differs from rounding their total by at most
  (n + 1) / 2 quanta.
  */
  lemma RoundMoneyDrift(vs: seq<Dec>, places: int, rounded: seq<Dec>, total: Dec)
    requires AllRounded(vs, places, rounded) && AllRounded([Total(vs)], places, [total])
    ensures 2 * Abs(SumOf(Coefficients(rounded)) - total.coeff) <= |vs| + 1
  {
    RoundMoneyInAnyUnit(vs, places, rounded, total);
    DriftInAnyUnit(vs, places, Coefficients(rounded), total.coeff);
  }

  lemma RoundAllHalfUp(vs: seq<Dec>, places: int, e: int, rounded: seq<Dec>)
    requires e <= -places && forall i :: 0 <= i < |vs| ==> e <= vs[i].exp
    requires AllRounded(vs, places, rounded)
    ensures AllHalfUp(AllAt(vs, e), Pow10(-places - e), Coefficients(rounded))
  {
    forall i | 0 <= i < |vs|
      ensures IsHalfUp(At(vs[i], e), Pow10(-places - e), rounded[i].coeff)
    {
      RoundMoneyHalfUp(vs[i], places, e);
    }
  }

  lemma RoundTotalHalfUp(vs: seq<Dec>, places: int, e: int)
    requires e <= 0 && e <= -places && forall i :: 0 <= i < |vs| ==> e <= vs[i].exp
    ensures IsHalfUp(SumOf(AllAt(vs, e)), Pow10(-places - e), RoundMoney(Total(vs), places).coeff)
  {
    TotalAt(vs, e);
    RoundMoneyHalfUp(Total(vs), places, e);
  }

  // ----- the quantum cache -----

  class Rounder {
    var quanta: map<int, Dec>

    /** Every cached quantum is the one direct computation gives. */
    predicate Valid()
      reads this
    {
      forall places :: places in quanta ==> quanta[places] == Dec(1, -places)
    }

    constructor ()
      ensures Valid() && quanta == map[]
    {
      quanta := map[];
    }

    method MoneyQuantum(places: int) returns (quantum: Dec)
      requires Valid()
      modifies this
      ensures Valid() && quantum == Dec(1, -places)
      ensures quanta == old(quanta)[places := Dec(1, -places)]
    {
      if places in quanta {
        quantum := quanta[places];
        assert quanta == quanta[places := quantum];
      } else {
        quantum := Dec(1, -places);
        quanta := quanta[places := quantum];
      }
    }

    /** The places are given directly, or through a currency code. */
    method RoundTo(value: Dec, currency: Option<string>, explicitPlaces: Option<int>) returns (rounded: Dec)
      requires Valid()
      modifies this
      ensures Valid()
      ensures rounded
              == RoundMoney(value, if explicitPlaces.Some? then explicitPlaces.value else DecimalPlacesFor(currency))
    {
      var places := if explicitPlaces.Some? then explicitPlaces.value else DecimalPlacesFor(currency);
      var quantum := MoneyQuantum(places);
      rounded := Quantize(value, quantum.exp, HalfUp);
    }
  }
}
