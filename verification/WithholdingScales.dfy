/**
What the published scales mean next to one another: the resident scales differ by the Medicare levy, the
scales without a tax file number are flat, and each of the others is given by its thresholds, rates and
offsets.
*/
module WithholdingScales {
  import opened Numbers
  import opened Options

  import opened Withholding

  /** The amount is that of the band that covers the earnings. */
  lemma InSomeBand(no: int, w: nat) returns (i: nat)
    requires 1 <= no <= 8
    ensures i < |Scale(no)| && Covers(Scale(no)[i], w) && Unrounded(Scale(no), w) == Piece(Scale(no)[i], w)
  {
    ScaleIsGood(no);
    i := InSoundTable(Scale(no), w);
  }

  lemma InSoundTable(bands: seq<Band>, w: nat) returns (i: nat)
    requires IsSound(bands)
    ensures i < |bands| && Covers(bands[i], w) && Unrounded(bands, w) == Piece(bands[i], w)
  {
    i := OneBandApplies(bands, w);
  }

  // ----- the resident scales -----

  predicate IsScale2(s: seq<Band>) {
    && |s| == 9
    && s[0] == Band(0, Some(36100), 0, 0)
    && s[1] == Band(36100, Some(50000), 160000, 57846200)
    && s[2] == Band(50000, Some(62500), 260000, 107846200)
    && s[3] == Band(62500, Some(72100), 180000, 57846200)
    && s[4] == Band(72100, Some(86500), 189000, 64336500)
    && s[5] == Band(86500, Some(128200), 322700, 180038500)
    && s[6] == Band(128200, Some(259600), 320000, 176576900)
    && s[7] == Band(259600, Some(365300), 390000, 358307700)
    && s[8] == Band(365300, None, 470000, 650615400)
  }

  predicate IsScale5(s: seq<Band>) {
    && |s| == 7
    && s[0] == Band(0, Some(36100), 0, 0)
    && s[1] == Band(36100, Some(72100), 160000, 57846200)
    && s[2] == Band(72100, Some(86500), 169000, 64336500)
    && s[3] == Band(86500, Some(128200), 302700, 180038500)
    && s[4] == Band(128200, Some(259600), 300000, 176576900)
    && s[5] == Band(259600, Some(365300), 370000, 358307700)
    && s[6] == Band(365300, None, 450000, 650615400)
  }

  predicate IsScale6(s: seq<Band>) {
    && |s| == 9
    && s[0] == Band(0, Some(36100), 0, 0)
    && s[1] == Band(36100, Some(72100), 160000, 57846200)
    && s[2] == Band(72100, Some(84300), 169000, 64336500)
    && s[3] == Band(84300, Some(86500), 219000, 106496200)
    && s[4] == Band(86500, Some(105300), 352700, 222198100)
    && s[5] == Band(105300, Some(128200), 312700, 180038500)
    && s[6] == Band(128200, Some(259600), 310000, 176576900)
    && s[7] == Band(259600, Some(365300), 380000, 358307700)
    && s[8] == Band(365300, None, 460000, 650615400)
  }

  /** The weekly levy: nothing below $500, a tenth of the excess up to $625, then two per cent of everything */
  function MedicareLevy(w: nat): int {
    if w < 500 then 0 else if w < 625 then 100_000 * (X(w) - 50000) else 20_000 * X(w)
  }

  /** The half levy: nothing below $843, a twentieth of the excess up to $1,053, then one per cent of everything */
  function HalfLevy(w: nat): int {
    if w < 843 then 0
    else if w < 865 then 50_000 * X(w) - 4_215_970_000
    else if w < 1053 then 50_000 * X(w) - 4_215_960_000
    else 10_000 * X(w)
  }

  /** The amount of Scale 2 by whole dollars earned */
  function Amount2(w: nat): int {
    if w < 361 then 0
    else if w < 500 then 160000 * X(w) - 5784620000
    else if w < 625 then 260000 * X(w) - 10784620000
    else if w < 721 then 180000 * X(w) - 5784620000
    else if w < 865 then 189000 * X(w) - 6433650000
    else if w < 1282 then 322700 * X(w) - 18003850000
    else if w < 2596 then 320000 * X(w) - 17657690000
    else if w < 3653 then 390000 * X(w) - 35830770000
    else 470000 * X(w) - 65061540000
  }

  lemma BandAmount2(s: seq<Band>, i: nat, w: nat)
    requires IsScale2(s) && i < |s| && Covers(s[i], w)
    ensures Piece(s[i], w) == Amount2(w)
  {
  }

  lemma AmountOf2(no: int, w: nat)
    requires no == 2
    ensures Unrounded(Scale(no), w) == Amount2(w)
  {
    var i := InSomeBand(no, w);
    Scale2Table(no);
    BandAmount2(Scale(no), i, w);
  }

  /** The amount of Scale 5 by whole dollars earned */
  function Amount5(w: nat): int {
    if w < 361 then 0
    else if w < 721 then 160000 * X(w) - 5784620000
    else if w < 865 then 169000 * X(w) - 6433650000
    else if w < 1282 then 302700 * X(w) - 18003850000
    else if w < 2596 then 300000 * X(w) - 17657690000
    else if w < 3653 then 370000 * X(w) - 35830770000
    else 450000 * X(w) - 65061540000
  }

  lemma BandAmount5(s: seq<Band>, i: nat, w: nat)
    requires IsScale5(s) && i < |s| && Covers(s[i], w)
    ensures Piece(s[i], w) == Amount5(w)
  {
  }

  lemma AmountOf5(no: int, w: nat)
    requires no == 5
    ensures Unrounded(Scale(no), w) == Amount5(w)
  {
    var i := InSomeBand(no, w);
    Scale5Table(no);
    BandAmount5(Scale(no), i, w);
  }

  /** The amount of Scale 6 by whole dollars earned */
  function Amount6(w: nat): int {
    if w < 361 then 0
    else if w < 721 then 160000 * X(w) - 5784620000
    else if w < 843 then 169000 * X(w) - 6433650000
    else if w < 865 then 219000 * X(w) - 10649620000
    else if w < 1053 then 352700 * X(w) - 22219810000
    else if w < 1282 then 312700 * X(w) - 18003850000
    else if w < 2596 then 310000 * X(w) - 17657690000
    else if w < 3653 then 380000 * X(w) - 35830770000
    else 460000 * X(w) - 65061540000
  }

  lemma BandAmount6(s: seq<Band>, i: nat, w: nat)
    requires IsScale6(s) && i < |s| && Covers(s[i], w)
    ensures Piece(s[i], w) == Amount6(w)
  {
  }

  lemma AmountOf6(no: int, w: nat)
    requires no == 6
    ensures Unrounded(Scale(no), w) == Amount6(w)
  {
    var i := InSomeBand(no, w);
    Scale6Table(no);
    BandAmount6(Scale(no), i, w);
  }

  lemma Scale2Table(no: int)
    requires no == 2
    ensures IsScale2(Scale(no))
  {
  }

  lemma Scale5Table(no: int)
    requires no == 5
    ensures IsScale5(Scale(no))
  {
  }

  lemma Scale6Table(no: int)
    requires no == 6
    ensures IsScale6(Scale(no))
  {
  }

  lemma AmountsDiffer(w: nat)
    ensures Amount2(w) == Amount5(w) + MedicareLevy(w) && Amount6(w) == Amount5(w) + HalfLevy(w)
  {
  }

  /**
  Before rounding, a full exemption (Scale 5) saves exactly the levy of Scale 2, and half an exemption
  (Scale 6) leaves the half levy.
  */
  lemma ExemptionSavesLevy(none: int, full: int, half: int, w: nat)
    requires none == 2 && full == 5 && half == 6
    ensures Unrounded(Scale(none), w) == Unrounded(Scale(full), w) + MedicareLevy(w)
    ensures Unrounded(Scale(half), w) == Unrounded(Scale(full), w) + HalfLevy(w)
  {
    AmountOf2(none, w);
    AmountOf5(full, w);
    AmountOf6(half, w);
    AmountsDiffer(w);
  }

  /** The half levy is never more than the levy. */
  lemma HalfLevyIsLess(w: nat)
    ensures 0 <= HalfLevy(w) <= MedicareLevy(w)
  {
  }

  // ----- the flat scales -----

  lemma FlatTables(resident: int, foreign: int)
    requires resident == 4 && foreign == 8
    ensures Scale(resident) == [Band(0, None, 470_000, 0)] && Scale(foreign) == [Band(0, None, 450_000, 0)]
  {
  }

  /** Without a tax file number, 47 per cent of everything for residents and 45 for the others. */
  lemma WithoutFileNumber(resident: int, foreign: int, w: nat)
    requires resident == 4 && foreign == 8
    ensures Unrounded(Scale(resident), w) == 470_000 * X(w)
    ensures Unrounded(Scale(foreign), w) == 450_000 * X(w)
  {
    var i := InSomeBand(resident, w);
    var j := InSomeBand(foreign, w);
    FlatTables(resident, foreign);
  }

  // ----- the remaining tables, row by row -----

  /** Row i starts at this many cents, and takes this rate less this offset. */
  predicate Row(bands: seq<Band>, i: nat, floor: int, rate: int, offset: int) {
    i < |bands| && bands[i].floor == floor && bands[i].a == rate && bands[i].b == offset
  }

  /** Second jobs, without the tax-free threshold */
  lemma SecondJobRows(no: int)
    requires no == 1
    ensures var s := Scale(no);
            && |s| == 7
            && Row(s, 0, 0, 160_000, 160_000) && Row(s, 1, 150_00, 211_700, 7_755_000)
            && Row(s, 2, 371_00, 189_000, -670_200) && Row(s, 3, 515_00, 322_700, 68_236_700)
            && Row(s, 4, 932_00, 320_000, 65_720_200) && Row(s, 5, 2246_00, 390_000, 222_951_000)
            && Row(s, 6, 3303_00, 470_000, 487_258_700)
  {
  }

  /** Foreign residents and working holiday makers share the two upper thresholds and rates. */
  lemma ForeignRows(foreign: int, holiday: int)
    requires foreign == 3 && holiday == 7
    ensures var s := Scale(foreign);
            && |s| == 3
            && Row(s, 0, 0, 300_000, 300_000) && Row(s, 1, 2596_15, 370_000, 181_730_800)
            && Row(s, 2, 3653_85, 450_000, 474_038_500)
    ensures var s := Scale(holiday);
            && |s| == 4
            && Row(s, 0, 0, 150_000, 0) && Row(s, 1, 865_38, 300_000, 129_810_000)
            && Row(s, 2, 2596_15, 370_000, 311_540_000) && Row(s, 3, 3653_85, 450_000, 603_850_000)
  {
  }

  /** Study loans: nothing below $1,288, and a tenth of everything from $3,447 on */
  lemma StudyLoanRows()
    ensures |STSL| == 4
    ensures Row(STSL, 0, 0, 0, 0) && Row(STSL, 1, 1288_00, 150_000, 193_269_200)
    ensures Row(STSL, 2, 2403_00, 170_000, 241_346_200) && Row(STSL, 3, 3447_00, 100_000, 0)
  {
  }
}
