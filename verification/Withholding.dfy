/**
PAYG withholding and study-loan bands: tables of linear pieces over unbounded weekly earnings, and the
formula that reads them (ATO Schedule 1, NAT 1004, and Schedule 8, NAT 3539). Earnings are whole
dollars; the formula's x is those dollars plus 99 cents. Amounts before rounding are in units of
10^-8 dollars, which makes every product of a coefficient and x exact.
*/
module Withholding {
  import opened Numbers
  import opened Options

  import opened Money

  /** Bounds in cents, coefficients in millionths. The top band has no ceiling. */
  datatype Band = Band(floor: int, ceil: Option<int>, a: int, b: int)

  /** One dollar in the units of unrounded amounts */
  const DOLLAR := 100_000_000

  const SCALE_1: seq<Band> := [
    Band(0, Some(15000), 160000, 160000),
    Band(15000, Some(37100), 211700, 7755000),
    Band(37100, Some(51500), 189000, -670200),
    Band(51500, Some(93200), 322700, 68236700),
    Band(93200, Some(224600), 320000, 65720200),
    Band(224600, Some(330300), 390000, 222951000),
    Band(330300, None, 470000, 487258700)
  ]

  const SCALE_2: seq<Band> := [
    Band(0, Some(36100), 0, 0),
    Band(36100, Some(50000), 160000, 57846200),
    Band(50000, Some(62500), 260000, 107846200),
    Band(62500, Some(72100), 180000, 57846200),
    Band(72100, Some(86500), 189000, 64336500),
    Band(86500, Some(128200), 322700, 180038500),
    Band(128200, Some(259600), 320000, 176576900),
    Band(259600, Some(365300), 390000, 358307700),
    Band(365300, None, 470000, 650615400)
  ]

  const SCALE_3: seq<Band> := [
    Band(0, Some(259615), 300000, 300000),
    Band(259615, Some(365385), 370000, 181730800),
    Band(365385, None, 450000, 474038500)
  ]

  const SCALE_4: seq<Band> := [
    Band(0, None, 470000, 0)
  ]

  const SCALE_5: seq<Band> := [
    Band(0, Some(36100), 0, 0),
    Band(36100, Some(72100), 160000, 57846200),
    Band(72100, Some(86500), 169000, 64336500),
    Band(86500, Some(128200), 302700, 180038500),
    Band(128200, Some(259600), 300000, 176576900),
    Band(259600, Some(365300), 370000, 358307700),
    Band(365300, None, 450000, 650615400)
  ]

  const SCALE_6: seq<Band> := [
    Band(0, Some(36100), 0, 0),
    Band(36100, Some(72100), 160000, 57846200),
    Band(72100, Some(84300), 169000, 64336500),
    Band(84300, Some(86500), 219000, 106496200),
    Band(86500, Some(105300), 352700, 222198100),
    Band(105300, Some(128200), 312700, 180038500),
    Band(128200, Some(259600), 310000, 176576900),
    Band(259600, Some(365300), 380000, 358307700),
    Band(365300, None, 460000, 650615400)
  ]

  const SCALE_7: seq<Band> := [
    Band(0, Some(86538), 150000, 0),
    Band(86538, Some(259615), 300000, 129810000),
    Band(259615, Some(365385), 370000, 311540000),
    Band(365385, None, 450000, 603850000)
  ]

  const SCALE_8: seq<Band> := [
    Band(0, None, 450000, 0)
  ]

  const STSL: seq<Band> := [
    Band(0, Some(128800), 0, 0),
    Band(128800, Some(240300), 150000, 193269200),
    Band(240300, Some(344700), 170000, 241346200),
    Band(344700, None, 100000, 0)
  ]

  function Scale(no: int): seq<Band>
    requires 1 <= no <= 8
  {
    match no
    case 1 => SCALE_1
    case 2 => SCALE_2
    case 3 => SCALE_3
    case 4 => SCALE_4
    case 5 => SCALE_5
    case 6 => SCALE_6
    case 7 => SCALE_7
    case _ => SCALE_8
  }

  // ----- the formula -----

  /** x in cents */
  function X(w: nat): int {
    100 * w + 99
  }

  predicate Covers(band: Band, w: nat) {
    band.floor <= X(w) && (band.ceil.Some? ==> X(w) < band.ceil.value)
  }

  /** a * x - b */
  function Piece(band: Band, w: nat): int {
    band.a * X(w) - 100 * band.b
  }

  /** The band that the lookup finds; None is missing data. */
  function Lookup(bands: seq<Band>, w: nat): Option<Band> {
    if bands == [] then None else if Covers(bands[0], w) then Some(bands[0]) else Lookup(bands[1..], w)
  }

  /** The amount before rounding */
  function Unrounded(bands: seq<Band>, w: nat): int {
    match Lookup(bands, w)
    case None => 0
    case Some(band) => Piece(band, w)
  }

  /** Weekly whole dollars, a negative amount being taken as zero before rounding half up */
  function Withheld(bands: seq<Band>, w: nat): int {
    RoundHalfUp(if Unrounded(bands, w) > 0 then Unrounded(bands, w) else 0, DOLLAR)
  }

  // ----- what makes a table good -----

  /** The first whole-dollar earnings that a band with this floor covers */
  function FirstDollar(band: Band): int {
    band.floor / 100
  }

  /** Bands follow each other without gap or overlap, from nothing up to no limit, each with a whole dollar in it. */
  predicate Tiles(bands: seq<Band>) {
    && |bands| > 0
    && bands[0].floor == 0
    && bands[|bands| - 1].ceil == None
    && (forall i :: 0 <= i < |bands| - 1 ==>
          bands[i].ceil == Some(bands[i + 1].floor) && FirstDollar(bands[i]) < FirstDollar(bands[i + 1]))
  }

  /** No dollar more of earnings lowers the amount, or raises it by more than step. */
  predicate StepsWithin(bands: seq<Band>, step: int)
    requires Tiles(bands)
  {
    && (forall i :: 0 <= i < |bands| ==> 0 <= 100 * bands[i].a <= step)
    && (forall i :: 0 < i < |bands| ==>
          0 < FirstDollar(bands[i])
          && 0 <= Piece(bands[i], FirstDollar(bands[i])) - Piece(bands[i - 1], FirstDollar(bands[i]) - 1) <= step)
  }

  const MAX_STEP := 65_850_000
  const MAX_STSL_STEP := 17_000_000

  // ----- lookups -----

  lemma FirstDollarCovered(floor: int, w: nat)
    requires floor >= 0
    ensures floor <= X(w) <==> floor / 100 <= w
  {
  }

  lemma {:induction false} FloorsRise(bands: seq<Band>, i: nat, j: nat)
    requires Tiles(bands) && i < j < |bands|
    ensures 0 <= FirstDollar(bands[i]) < FirstDollar(bands[j])
    ensures bands[i].floor >= 0
  {
    if i > 0 {
      FloorsRise(bands, 0, i);
    }
    if i < j - 1 {
      FloorsRise(bands, i, j - 1);
    }
  }

  /** A band covers the dollars from its own first one up to the next band's. */
  lemma CoversByDollar(bands: seq<Band>, i: nat, w: nat)
    requires Tiles(bands) && i < |bands|
    ensures bands[i].floor >= 0
    ensures Covers(bands[i], w)
            <==> FirstDollar(bands[i]) <= w && (i < |bands| - 1 ==> w < FirstDollar(bands[i + 1]))
  {
    if i > 0 {
      FloorsRise(bands, i - 1, i);
    }
    FirstDollarCovered(bands[i].floor, w);
    if i < |bands| - 1 {
      FloorsRise(bands, i, i + 1);
      FirstDollarCovered(bands[i + 1].floor, w);
    }
  }

  /** Exactly one band applies to any earnings. */
  lemma OneBandApplies(bands: seq<Band>, w: nat) returns (i: nat)
    requires Tiles(bands)
    ensures i < |bands| && Covers(bands[i], w)
    ensures forall j :: 0 <= j < |bands| && Covers(bands[j], w) ==> j == i
    ensures Lookup(bands, w) == Some(bands[i])
  {
    i := LastStarted(bands, w, |bands| - 1);
    CoversByDollar(bands, i, w);
    forall j | 0 <= j < |bands| && Covers(bands[j], w)
      ensures j == i
    {
      CoversByDollar(bands, j, w);
      if j < i {
        if j + 1 < i { FloorsRise(bands, j + 1, i); }
      } else if i < j {
        if i + 1 < j { FloorsRise(bands, i + 1, j); }
      }
    }
    LookupFindsOnly(bands, w, i);
  }

  lemma {:induction false} LastStarted(bands: seq<Band>, w: nat, top: nat) returns (i: nat)
    requires Tiles(bands) && top < |bands|
    requires top < |bands| - 1 ==> w < FirstDollar(bands[top + 1])
    ensures i < |bands| && FirstDollar(bands[i]) <= w && (i < |bands| - 1 ==> w < FirstDollar(bands[i + 1]))
  {
    if FirstDollar(bands[top]) <= w {
      i := top;
    } else {
      i := LastStarted(bands, w, top - 1);
    }
  }

  lemma {:induction false} LookupFindsOnly(bands: seq<Band>, w: nat, i: nat)
    requires i < |bands| && Covers(bands[i], w)
    requires forall j :: 0 <= j < |bands| && Covers(bands[j], w) ==> j == i
    ensures Lookup(bands, w) == Some(bands[i])
  {
    if i > 0 {
      assert !Covers(bands[0], w);
      forall j | 0 <= j < |bands[1..]| && Covers(bands[1..][j], w)
        ensures j == i - 1
      {
        assert Covers(bands[j + 1], w);
      }
      LookupFindsOnly(bands[1..], w, i - 1);
    }
  }

  // ----- one dollar more -----

  lemma SlopeOfPiece(band: Band, w: nat)
    ensures Piece(band, w + 1) == Piece(band, w) + 100 * band.a
  {
  }

  /** One dollar more of earnings never lowers the amount, and raises it by at most the step. */
  lemma OneDollarMore(bands: seq<Band>, step: int, w: nat)
    requires Tiles(bands) && StepsWithin(bands, step)
    ensures 0 <= Unrounded(bands, w + 1) - Unrounded(bands, w) <= step
  {
    var i := OneBandApplies(bands, w);
    var j := OneBandApplies(bands, w + 1);
    CoversByDollar(bands, i, w);
    CoversByDollar(bands, i, w + 1);
    if j == i {
      SlopeOfPiece(bands[i], w);
    } else {
      assert i < |bands| - 1 && FirstDollar(bands[i + 1]) == w + 1;
      CoversByDollar(bands, i + 1, w + 1);
      if i + 1 < |bands| - 1 { FloorsRise(bands, i + 1, i + 2); }
      assert j == i + 1;
    }
  }

  lemma {:induction false} SomeDollarsMore(bands: seq<Band>, step: int, w: nat, more: nat)
    requires Tiles(bands) && StepsWithin(bands, step)
    ensures 0 <= Unrounded(bands, w + more) - Unrounded(bands, w) <= step * more
  {
    if more > 0 {
      SomeDollarsMore(bands, step, w, more - 1);
      OneDollarMore(bands, step, w + more - 1);
      OneStepMore(Unrounded(bands, w + more - 1) - Unrounded(bands, w),
                  Unrounded(bands, w + more) - Unrounded(bands, w + more - 1), step, more - 1);
    }
  }

  lemma OneStepMore(rise: int, more: int, step: int, n: int)
    requires 0 <= rise <= step * n && 0 <= more <= step
    ensures 0 <= rise + more <= step * (n + 1)
  {
    assert step * (n + 1) == step * n + step;
  }

  // ----- the published tables -----

  /** Band i fits its predecessor: no gap, a whole dollar each, and a jump within the step. */
  predicate Fits(bands: seq<Band>, i: nat, step: int)
    requires i < |bands|
  {
    && 0 <= 100 * bands[i].a <= step
    && (i == |bands| - 1 ==> bands[i].ceil == None)
    && (i > 0 ==>
          && bands[i - 1].ceil == Some(bands[i].floor)
          && 0 <= FirstDollar(bands[i - 1]) < FirstDollar(bands[i])
          && 0 <= Piece(bands[i], FirstDollar(bands[i])) - Piece(bands[i - 1], FirstDollar(bands[i]) - 1) <= step)
  }

  ghost predicate IsGood(bands: seq<Band>, step: int) {
    Tiles(bands) && StepsWithin(bands, step)
  }

  /** A good table that for no earnings comes to less than half a dollar. */
  ghost predicate IsSound(bands: seq<Band>) {
    IsGood(bands, MAX_STEP) && 2 * Abs(Unrounded(bands, 0)) < DOLLAR
  }

  /** No published table has more than nine bands. */
  lemma AllFit(bands: seq<Band>, step: int)
    requires 0 < |bands| <= 9 && bands[0].floor == 0
    requires Fits(bands, 0, step)
    requires |bands| > 1 ==> Fits(bands, 1, step)
    requires |bands| > 2 ==> Fits(bands, 2, step)
    requires |bands| > 3 ==> Fits(bands, 3, step)
    requires |bands| > 4 ==> Fits(bands, 4, step)
    requires |bands| > 5 ==> Fits(bands, 5, step)
    requires |bands| > 6 ==> Fits(bands, 6, step)
    requires |bands| > 7 ==> Fits(bands, 7, step)
    requires |bands| > 8 ==> Fits(bands, 8, step)
    ensures IsGood(bands, step)
  {
    forall i: nat | i < |bands|
      ensures Fits(bands, i, step)
    {
      if i < 4 {
        assert i == 0 || i == 1 || i == 2 || i == 3;
      } else {
        assert i == 4 || i == 5 || i == 6 || i == 7 || i == 8;
      }
    }
    FitIsGood(bands, step);
  }

  lemma FitIsGood(bands: seq<Band>, step: int)
    requires 0 < |bands| && bands[0].floor == 0
    requires forall i: nat :: i < |bands| ==> Fits(bands, i, step)
    ensures IsGood(bands, step)
  {
    forall i | 0 <= i < |bands| - 1
      ensures bands[i].ceil == Some(bands[i + 1].floor) && FirstDollar(bands[i]) < FirstDollar(bands[i + 1])
    {
      assert Fits(bands, i + 1, step);
    }
    assert Fits(bands, |bands| - 1, step);
    forall i | 0 <= i < |bands|
      ensures 0 <= 100 * bands[i].a <= step
    {
      assert Fits(bands, i, step);
    }
    forall i | 0 < i < |bands|
      ensures 0 < FirstDollar(bands[i])
      ensures 0 <= Piece(bands[i], FirstDollar(bands[i])) - Piece(bands[i - 1], FirstDollar(bands[i]) - 1) <= step
    {
      assert Fits(bands, i, step);
    }
  }

  lemma Scale1IsGood()
    ensures IsSound(SCALE_1)
  {
    AllFit(SCALE_1, MAX_STEP);
    assert Covers(SCALE_1[0], 0);
  }

  lemma Scale2IsGood()
    ensures IsSound(SCALE_2)
  {
    AllFit(SCALE_2, MAX_STEP);
    assert Covers(SCALE_2[0], 0);
  }

  lemma Scale3IsGood()
    ensures IsSound(SCALE_3)
  {
    AllFit(SCALE_3, MAX_STEP);
    assert Covers(SCALE_3[0], 0);
  }

  lemma Scale4IsGood()
    ensures IsSound(SCALE_4)
  {
    AllFit(SCALE_4, MAX_STEP);
    assert Covers(SCALE_4[0], 0);
  }

  lemma Scale5IsGood()
    ensures IsSound(SCALE_5)
  {
    AllFit(SCALE_5, MAX_STEP);
    assert Covers(SCALE_5[0], 0);
  }

  lemma Scale6IsGood()
    ensures IsSound(SCALE_6)
  {
    AllFit(SCALE_6, MAX_STEP);
    assert Covers(SCALE_6[0], 0);
  }

  lemma Scale7IsGood()
    ensures IsSound(SCALE_7)
  {
    AllFit(SCALE_7, MAX_STEP);
    assert Covers(SCALE_7[0], 0);
  }

  lemma Scale8IsGood()
    ensures IsSound(SCALE_8)
  {
    AllFit(SCALE_8, MAX_STEP);
    assert Covers(SCALE_8[0], 0);
  }

  lemma ScaleIsGood(no: int)
    requires 1 <= no <= 8
    ensures IsSound(Scale(no))
  {
    match no
    case 1 => Scale1IsGood();
    case 2 => Scale2IsGood();
    case 3 => Scale3IsGood();
    case 4 => Scale4IsGood();
    case 5 => Scale5IsGood();
    case 6 => Scale6IsGood();
    case 7 => Scale7IsGood();
    case _ => Scale8IsGood();
  }

  lemma StslIsGood()
    ensures IsGood(STSL, MAX_STSL_STEP) && IsSound(STSL)
  {
    AllFit(STSL, MAX_STSL_STEP);
    AllFit(STSL, MAX_STEP);
    assert Covers(STSL[0], 0);
  }

  ghost predicate IsPublished(bands: seq<Band>) {
    bands == STSL || exists no :: 1 <= no <= 8 && bands == Scale(no)
  }

  lemma PublishedIsGood(bands: seq<Band>)
    requires IsPublished(bands)
    ensures IsSound(bands)
  {
    if bands == STSL {
      StslIsGood();
    } else {
      var no :| 1 <= no <= 8 && bands == Scale(no);
      ScaleIsGood(no);
    }
  }

  /** In every published table exactly one band applies to any earnings. */
  lemma PublishedBandsTile(bands: seq<Band>, w: nat)
    requires IsPublished(bands)
    ensures exists i :: 0 <= i < |bands| && Covers(bands[i], w)
                        && (forall j :: 0 <= j < |bands| && Covers(bands[j], w) ==> j == i)
                        && Lookup(bands, w) == Some(bands[i])
  {
    PublishedIsGood(bands);
    var i := OneBandApplies(bands, w);
  }

  lemma MonotoneIfSound(bands: seq<Band>, w: nat, v: nat)
    requires IsSound(bands) && w <= v
    ensures Withheld(bands, w) <= Withheld(bands, v)
  {
    SomeDollarsMore(bands, MAX_STEP, w, v - w);
    RoundMonotone(if Unrounded(bands, w) > 0 then Unrounded(bands, w) else 0,
                  if Unrounded(bands, v) > 0 then Unrounded(bands, v) else 0, DOLLAR);
  }

  /** Whoever earns more has no less withheld. */
  lemma WithholdingMonotone(bands: seq<Band>, w: nat, v: nat)
    requires IsPublished(bands) && w <= v
    ensures Withheld(bands, w) <= Withheld(bands, v)
  {
    PublishedIsGood(bands);
    MonotoneIfSound(bands, w, v);
  }

  lemma RoundWithin(u: int, w: nat)
    requires -DOLLAR < 2 * u < 2 * w * DOLLAR + DOLLAR
    ensures 0 <= RoundHalfUp(u, DOLLAR) <= w
    ensures RoundHalfUp(if u > 0 then u else 0, DOLLAR) == RoundHalfUp(u, DOLLAR)
  {
    RoundIsHalfUp(u, DOLLAR);
    RoundIsHalfUp(if u > 0 then u else 0, DOLLAR);
  }

  lemma BoundedIfSound(bands: seq<Band>, w: nat)
    requires IsSound(bands)
    ensures 0 <= Withheld(bands, w) <= w
    ensures Withheld(bands, w) == RoundHalfUp(Unrounded(bands, w), DOLLAR)
  {
    SomeDollarsMore(bands, MAX_STEP, 0, w);
    RoundWithin(Unrounded(bands, w), w);
  }

  /** Withholding is never negative, never more than the earnings, and taking negatives as zero changes nothing. */
  lemma WithholdingBounds(bands: seq<Band>, w: nat)
    requires IsPublished(bands)
    ensures 0 <= Withheld(bands, w) <= w
    ensures Withheld(bands, w) == RoundHalfUp(Unrounded(bands, w), DOLLAR)
  {
    PublishedIsGood(bands);
    BoundedIfSound(bands, w);
  }

  lemma NetOfSteps(dollar: int, step: int, loanStep: int, more: nat, rise: int, loanRise: int)
    requires more > 0 && 0 <= step && 0 <= loanStep && step + loanStep < dollar
    requires 0 <= rise <= step * more && 0 <= loanRise <= loanStep * more
    ensures rise + loanRise < dollar * more
  {
    Distribute(step, loanStep, more);
    MulMono(step + loanStep + 1, dollar, more);
    Distribute(step + loanStep, 1, more);
  }

  lemma NetRisesIfGood(bands: seq<Band>, loan: seq<Band>, w: nat, v: nat)
    requires IsGood(bands, MAX_STEP) && IsGood(loan, MAX_STSL_STEP) && w < v
    ensures Unrounded(bands, v) - Unrounded(bands, w) + Unrounded(loan, v) - Unrounded(loan, w) < DOLLAR * (v - w)
    ensures Unrounded(bands, w) <= Unrounded(bands, v) && Unrounded(loan, w) <= Unrounded(loan, v)
  {
    SomeDollarsMore(bands, MAX_STEP, w, v - w);
    SomeDollarsMore(loan, MAX_STSL_STEP, w, v - w);
    NetOfSteps(DOLLAR, MAX_STEP, MAX_STSL_STEP, v - w, Unrounded(bands, v) - Unrounded(bands, w),
               Unrounded(loan, v) - Unrounded(loan, w));
  }

  /** What is left of w dollars, before rounding */
  function NetPay(w: nat, bands: seq<Band>): int {
    DOLLAR * w - Unrounded(bands, w)
  }

  /** Before rounding, a dollar more of earnings always leaves more pay, with or without the study-loan amount. */
  lemma NetPayRises(no: int, w: nat, v: nat)
    requires 1 <= no <= 8 && w < v
    ensures NetPay(w, Scale(no)) < NetPay(v, Scale(no))
    ensures NetPay(w, STSL) < NetPay(v, STSL)
    ensures NetPay(w, Scale(no)) - Unrounded(STSL, w) < NetPay(v, Scale(no)) - Unrounded(STSL, v)
  {
    ScaleIsGood(no);
    StslIsGood();
    NetRisesIfGood(Scale(no), STSL, w, v);
  }

  lemma StepIfSound(bands: seq<Band>, w: nat)
    requires IsSound(bands)
    ensures 0 <= Withheld(bands, w + 1) - Withheld(bands, w) <= 1
  {
    MonotoneIfSound(bands, w, w + 1);
    OneDollarMore(bands, MAX_STEP, w);
    var u := if Unrounded(bands, w) > 0 then Unrounded(bands, w) else 0;
    var u' := if Unrounded(bands, w + 1) > 0 then Unrounded(bands, w + 1) else 0;
    RoundMonotone(u', u + DOLLAR, DOLLAR);
    HalfUpUnique(u + DOLLAR, DOLLAR, RoundHalfUp(u, DOLLAR) + 1);
    RoundIsHalfUp(u, DOLLAR);
  }

  /** Rounded, each amount rises by one dollar at most when earnings do, so neither alone ever lowers pay. */
  lemma RoundedStep(bands: seq<Band>, w: nat)
    requires IsPublished(bands)
    ensures 0 <= Withheld(bands, w + 1) - Withheld(bands, w) <= 1
  {
    PublishedIsGood(bands);
    StepIfSound(bands, w);
  }

  function TakeHome(bands: seq<Band>, loan: seq<Band>, w: nat): int {
    w - Withheld(bands, w) - Withheld(loan, w)
  }

  /** The next dollar carries the amount before rounding past the next half dollar. */
  predicate RoundsUpAfter(bands: seq<Band>, w: nat) {
    (Unrounded(bands, w) + DOLLAR / 2) % DOLLAR + (Unrounded(bands, w + 1) - Unrounded(bands, w)) >= DOLLAR
  }

  /** Of two amounts less than a dollar apart, the higher rounds to a dollar more when it passes the half dollar. */
  lemma ResidueDecides(u: int, v: int)
    requires -DOLLAR < 2 * u && 0 <= v - u < DOLLAR
    ensures RoundHalfUp(v, DOLLAR) == RoundHalfUp(u, DOLLAR) + 1 <==> (u + DOLLAR / 2) % DOLLAR + (v - u) >= DOLLAR
    ensures RoundHalfUp(v, DOLLAR) == RoundHalfUp(u, DOLLAR) || RoundHalfUp(v, DOLLAR) == RoundHalfUp(u, DOLLAR) + 1
  {
    HalfDollarUp(u);
    HalfDollarUp(v);
  }

  /** Above minus half a dollar, rounding half up adds half a dollar and drops the cents. */
  lemma HalfDollarUp(u: int)
    requires -DOLLAR < 2 * u
    ensures RoundHalfUp(u, DOLLAR) == (u + DOLLAR / 2) / DOLLAR
  {
    if u < 0 {
      HalfUpUnique(u, DOLLAR, 0);
    }
  }

  lemma StepByResidue(bands: seq<Band>, w: nat)
    requires IsSound(bands)
    ensures Withheld(bands, w + 1) == Withheld(bands, w) + (if RoundsUpAfter(bands, w) then 1 else 0)
  {
    BoundedIfSound(bands, w);
    BoundedIfSound(bands, w + 1);
    SomeDollarsMore(bands, MAX_STEP, 0, w);
    OneDollarMore(bands, MAX_STEP, w);
    ResidueDecides(Unrounded(bands, w), Unrounded(bands, w + 1));
  }

  lemma FallsIfSound(bands: seq<Band>, loan: seq<Band>, w: nat)
    requires IsSound(bands) && IsSound(loan)
    ensures TakeHome(bands, loan, w + 1) < TakeHome(bands, loan, w)
            <==> RoundsUpAfter(bands, w) && RoundsUpAfter(loan, w)
    ensures TakeHome(bands, loan, w + 1) >= TakeHome(bands, loan, w) - 1
  {
    StepByResidue(bands, w);
    StepByResidue(loan, w);
  }

  /**
  Rounded take-home pay can fall when earnings rise by a dollar: it does exactly when, before rounding,
  that dollar carries both the withholding and the study-loan amount past a half dollar.
  */
  lemma TakeHomeFallsExactly(no: int, w: nat)
    requires 1 <= no <= 8
    ensures TakeHome(Scale(no), STSL, w + 1) < TakeHome(Scale(no), STSL, w)
            <==> RoundsUpAfter(Scale(no), w) && RoundsUpAfter(STSL, w)
    ensures TakeHome(Scale(no), STSL, w + 1) >= TakeHome(Scale(no), STSL, w) - 1
  {
    ScaleIsGood(no);
    StslIsGood();
    FallsIfSound(Scale(no), STSL, w);
  }

  /** Inside a band: what is left to the next half dollar is no more than the band takes of a dollar. */
  lemma RoundsUpInBand(bands: seq<Band>, i: nat, w: nat)
    requires Tiles(bands) && i < |bands| && Covers(bands[i], w) && Covers(bands[i], w + 1)
    ensures RoundsUpAfter(bands, w) <==> (Piece(bands[i], w) + DOLLAR / 2) % DOLLAR >= DOLLAR - 100 * bands[i].a
  {
    var j := OneBandApplies(bands, w);
    var k := OneBandApplies(bands, w + 1);
    SlopeOfPiece(bands[i], w);
  }

  /** So inside two bands of two published tables the fall is decided by the bands' own coefficients. */
  lemma TakeHomeFallsInBands(bands: seq<Band>, loan: seq<Band>, i: nat, j: nat, w: nat)
    requires IsPublished(bands) && IsPublished(loan) && i < |bands| && j < |loan|
    requires Covers(bands[i], w) && Covers(bands[i], w + 1) && Covers(loan[j], w) && Covers(loan[j], w + 1)
    ensures TakeHome(bands, loan, w + 1) < TakeHome(bands, loan, w)
            <==> && (Piece(bands[i], w) + DOLLAR / 2) % DOLLAR >= DOLLAR - 100 * bands[i].a
                 && (Piece(loan[j], w) + DOLLAR / 2) % DOLLAR >= DOLLAR - 100 * loan[j].a
  {
    PublishedIsGood(bands);
    PublishedIsGood(loan);
    FallsIfSound(bands, loan, w);
    RoundsUpInBand(bands, i, w);
    RoundsUpInBand(loan, j, w);
  }

  lemma WithheldIn(bands: seq<Band>, i: nat, w: nat)
    requires IsGood(bands, MAX_STEP) && i < |bands| && Covers(bands[i], w)
    ensures Withheld(bands, w) == RoundHalfUp(if Piece(bands[i], w) > 0 then Piece(bands[i], w) else 0, DOLLAR)
  {
    var j := OneBandApplies(bands, w);
  }

  lemma TakeHomeNear(bands: seq<Band>, loan: seq<Band>, w: nat)
    requires IsSound(bands) && |bands| > 6 && bands[6] == Band(128200, Some(259600), 320000, 176576900)
    requires IsSound(loan) && |loan| > 1 && loan[1] == Band(128800, Some(240300), 150000, 193269200)
    requires w == 1324
    ensures TakeHome(bands, loan, w) == w - 247 - 5
    ensures TakeHome(bands, loan, w + 1) == w + 1 - 248 - 6
  {
    WithheldIn(bands, 6, w);
    WithheldIn(bands, 6, w + 1);
    WithheldIn(loan, 1, w);
    WithheldIn(loan, 1, w + 1);
  }

  lemma SeventhOfScale2(no: int)
    requires no == 2
    ensures |Scale(no)| > 6 && Scale(no)[6] == Band(128200, Some(259600), 320000, 176576900)
  {
  }

  lemma SecondOfStsl() returns (loan: seq<Band>)
    ensures loan == STSL && IsSound(loan) && |loan| > 1
    ensures loan[1] == Band(128800, Some(240300), 150000, 193269200)
  {
    loan := STSL;
    StslIsGood();
  }

  /** It does happen: on Scale 2 with a study loan, $1,324 a week leaves a dollar more than $1,325. */
  lemma TakeHomeCanFall(no: int, w: nat) returns (loan: seq<Band>)
    requires no == 2 && w == 1324
    ensures loan == STSL && TakeHome(Scale(no), loan, w + 1) == TakeHome(Scale(no), loan, w) - 1
  {
    ScaleIsGood(no);
    SeventhOfScale2(no);
    loan := SecondOfStsl();
    TakeHomeNear(Scale(no), loan, w);
  }
}
