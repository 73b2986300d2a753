/** The platform's service fee: flat, or progressive by brackets, in centavos. */
module ServiceFee {
  import opened Outcomes

  const MAX_MINOR := 9_007_199_254_740_991
  const WHOLE_BPS := 10_000
  const MAX_BANDS := 20

  /** A bracket up to a principal, or without end. */
  datatype Band = Band(upTo: Option<int>, rateBps: int)

  /** A fee schedule as stored: a version, and the fields that version uses. */
  datatype Schedule = Flat(rateBps: int) | Brackets(halfUpOnce: bool, bands: seq<Band>) | UnknownVersion

  datatype Fault = CheckViolation

  type Fee = Outcome<int, Fault>

  function Max(a: int, b: int): int { if a < b then b else a }
  function Min(a: int, b: int): int { if a < b then a else b }

  predicate RateOk(rate: int) { 0 <= rate <= WHOLE_BPS }

  predicate BandOk(band: Band, last: bool, lower: int) {
    RateOk(band.rateBps) && (if last then band.upTo.None? else band.upTo.Some? && lower < band.upTo.value <= MAX_MINOR)
  }

  /** Bounds rise, and the last band, alone, has none. */
  predicate BandsOk(bands: seq<Band>, lower: int) {
    bands == [] ||
    (BandOk(bands[0], |bands| == 1, lower)
     && (|bands| == 1 || BandsOk(bands[1..], bands[0].upTo.value)))
  }

  predicate ScheduleOk(schedule: Schedule) {
    match schedule
    case Flat(rate) => RateOk(rate)
    case Brackets(halfUpOnce, bands) => halfUpOnce && 1 <= |bands| <= MAX_BANDS && BandsOk(bands, 0)
    case UnknownVersion => false
  }

  // ---------- what the fee is: every centavo pays the rate of its own band ----------

  function BandsOf(schedule: Schedule): seq<Band> {
    match schedule
    case Flat(rate) => [Band(None, rate)]
    case Brackets(_, bands) => bands
    case UnknownVersion => []
  }

  /** The rate of the centavo that follows the first c. */
  function RateAt(bands: seq<Band>, c: int): int {
    if bands == [] then 0
    else if bands[0].upTo.None? || c < bands[0].upTo.value then bands[0].rateBps
    else RateAt(bands[1..], c)
  }

  function MarginalSum(bands: seq<Band>, principal: int): int
    decreases principal
  {
    if principal <= 0 then 0 else MarginalSum(bands, principal - 1) + RateAt(bands, principal - 1)
  }

  function HalfUp(numerator: int): int { (numerator + 5000) / WHOLE_BPS }

  function RoundedFee(bands: seq<Band>, principal: int): int { HalfUp(MarginalSum(bands, principal)) }

  function FeeOf(principal: int, schedule: Schedule): Fee {
    if !(0 <= principal <= MAX_MINOR && ScheduleOk(schedule)) then Raise(CheckViolation)
    else
      var fee := RoundedFee(BandsOf(schedule), principal);
      if principal + fee > MAX_MINOR then Raise(CheckViolation) else Ok(fee)
  }

  // ---------- the band-by-band computation agrees ----------

  ghost function Lower(bands: seq<Band>, k: nat): int
    requires k <= |bands|
  {
    if k == 0 then 0 else if bands[k - 1].upTo.Some? then bands[k - 1].upTo.value else 0
  }

  lemma {:induction false} BandsOkAt(bands: seq<Band>, lower: int, k: nat)
    requires BandsOk(bands, lower) && k < |bands|
    ensures BandOk(bands[k], k == |bands| - 1, if k == 0 then lower else Lower(bands, k))
    ensures k > 0 ==> bands[k - 1].upTo.Some? && lower < Lower(bands, k)
    decreases k
  {
    if k > 0 {
      BandsOkAt(bands[1..], bands[0].upTo.value, k - 1);
      assert bands[1..][k - 1] == bands[k];
      assert k > 1 ==> bands[1..][k - 2] == bands[k - 1];
    }
  }

  /** A centavo between a band's bounds pays that band's rate. */
  lemma {:induction false} RateInBand(bands: seq<Band>, lower: int, k: nat, c: int)
    requires BandsOk(bands, lower) && k < |bands|
    requires k > 0 ==> Lower(bands, k) <= c
    requires k < |bands| - 1 ==> bands[k].upTo.Some? && c < bands[k].upTo.value
    ensures RateAt(bands, c) == bands[k].rateBps
    decreases k
  {
    if k > 0 {
      BandsOkAt(bands, lower, k);
      if k > 1 {
        BandsOkAt(bands[1..], bands[0].upTo.value, k - 1);
        assert bands[1..][k - 2] == bands[k - 1];
      }
      RateInBand(bands[1..], bands[0].upTo.value, k - 1, c);
    }
  }

  lemma {:induction false} SumOverBand(bands: seq<Band>, a: int, b: int, rate: int)
    requires 0 <= a <= b && forall c | a <= c < b :: RateAt(bands, c) == rate
    ensures MarginalSum(bands, b) == MarginalSum(bands, a) + (b - a) * rate
    decreases b - a
  {
    if a < b {
      SumOverBand(bands, a, b - 1, rate);
    }
  }

  /** One turn of the loop adds exactly what the centavos of the band pay. */
  lemma BandTurn(bands: seq<Band>, k: nat, principal: int)
    requires BandsOk(bands, 0) && k < |bands| && 0 <= principal
    ensures BandOk(bands[k], k == |bands| - 1, Lower(bands, k)) && 0 <= Lower(bands, k)
    ensures var ceiling := if bands[k].upTo.Some? then bands[k].upTo.value else principal;
            var before, after := Min(principal, Lower(bands, k)), Min(principal, Max(ceiling, Lower(bands, k)));
            MarginalSum(bands, after)
            == MarginalSum(bands, before) + Max(0, Min(principal, ceiling) - Lower(bands, k)) * bands[k].rateBps
  {
    hide BandsOk, RateAt, MarginalSum;
    BandsOkAt(bands, 0, k);
    var ceiling := if bands[k].upTo.Some? then bands[k].upTo.value else principal;
    var before, after := Min(principal, Lower(bands, k)), Min(principal, Max(ceiling, Lower(bands, k)));
    forall c | before <= c < after ensures RateAt(bands, c) == bands[k].rateBps {
      RateInBand(bands, 0, k, c);
    }
    SumOverBand(bands, before, after, bands[k].rateBps);
  }

  /** The fee as the database computes it, band by band and rounded once. */
  method GridgoServiceFee(principal: int, schedule: Schedule) returns (fee: Fee)
    ensures fee == FeeOf(principal, schedule)
  {
    hide BandsOk, MarginalSum, RateAt;
    if principal < 0 || principal > MAX_MINOR {
      return Raise(CheckViolation);
    }
    var numerator := 0;
    match schedule {
      case Flat(rate) =>
        if rate < 0 || rate > WHOLE_BPS {
          return Raise(CheckViolation);
        }
        numerator := principal * rate;
        FlatSum(rate, principal);
      case Brackets(halfUpOnce, bands) =>
        if !halfUpOnce || |bands| < 1 || |bands| > MAX_BANDS {
          return Raise(CheckViolation);
        }
        var lowerBound := 0;
        FirstBand(bands);
        for idx := 0 to |bands|
          invariant BandsOk(bands, 0) <==> BandsOk(bands[idx..], lowerBound)
          invariant lowerBound == (if idx < |bands| then Lower(bands, idx) else lowerBound)
          invariant BandsOk(bands, 0) ==>
                      numerator == MarginalSum(bands, if idx < |bands| then Min(principal, lowerBound) else principal)
        {
          var band := bands[idx];
          NextBand(bands, idx, lowerBound);
          if band.rateBps < 0 || band.rateBps > WHOLE_BPS
             || (idx == |bands| - 1 && band.upTo.Some?)
             || (idx < |bands| - 1 && (band.upTo.None? || band.upTo.value <= lowerBound
                                            || band.upTo.value > MAX_MINOR)) {
            return Raise(CheckViolation);
          }
          if BandsOk(bands, 0) {
            BandTurn(bands, idx, principal);
          }
          var ceiling := if band.upTo.Some? then band.upTo.value else principal;
          numerator := numerator + Max(0, Min(principal, ceiling) - lowerBound) * band.rateBps;
          lowerBound := if band.upTo.Some? then band.upTo.value else lowerBound;
        }
        NoBandLeft(bands[|bands|..], lowerBound);
      case UnknownVersion =>
        return Raise(CheckViolation);
    }
    var result := (numerator + 5000) / WHOLE_BPS;
    if principal + result > MAX_MINOR {
      return Raise(CheckViolation);
    }
    return Ok(result);
  }

  lemma FlatSum(rate: int, principal: int)
    requires 0 <= principal
    ensures MarginalSum([Band(None, rate)], principal) == principal * rate
  {
    SumOverBand([Band(None, rate)], 0, principal, rate);
  }

  lemma FirstBand(bands: seq<Band>)
    ensures bands[0..] == bands && MarginalSum(bands, 0) == 0
    ensures bands != [] ==> Lower(bands, 0) == 0
  {
  }

  lemma NextBand(bands: seq<Band>, k: nat, lower: int)
    requires k < |bands|
    ensures BandsOk(bands[k..], lower) <==>
              BandOk(bands[k], k == |bands| - 1, lower)
              && BandsOk(bands[k + 1..], if bands[k].upTo.Some? then bands[k].upTo.value else lower)
  {
    assert bands[k..][1..] == bands[k + 1..];
  }

  lemma NoBandLeft(bands: seq<Band>, lower: int)
    requires bands == []
    ensures BandsOk(bands, lower)
  {
  }

  // ---------- what follows from the marginal rates ----------

  lemma {:induction false} RatesOk(bands: seq<Band>, lower: int, c: int)
    requires BandsOk(bands, lower)
    ensures RateOk(RateAt(bands, c))
    decreases |bands|
  {
    if bands != [] && bands[0].upTo.Some? && bands[0].upTo.value <= c && |bands| > 1 {
      RatesOk(bands[1..], bands[0].upTo.value, c);
    }
  }

  /** Extra principal adds between nothing and the whole of itself to the sum of rates. */
  lemma {:induction false} SumGrows(bands: seq<Band>, p: int, extra: nat)
    requires BandsOk(bands, 0) && 0 <= p
    ensures MarginalSum(bands, p) <= MarginalSum(bands, p + extra) <= MarginalSum(bands, p) + extra * WHOLE_BPS
    decreases extra
  {
    if extra > 0 {
      SumGrows(bands, p, extra - 1);
      RatesOk(bands, 0, p + extra - 1);
    }
  }

  lemma ValidBands(schedule: Schedule)
    requires ScheduleOk(schedule)
    ensures BandsOk(BandsOf(schedule), 0)
  {
  }

  /** The fee never falls as the principal grows, and never grows by more than the principal does. */
  lemma FeeMonotone(schedule: Schedule, p: int, extra: nat)
    requires ScheduleOk(schedule) && 0 <= p
    ensures var bands := BandsOf(schedule);
            0 <= RoundedFee(bands, p + extra) - RoundedFee(bands, p) <= extra
  {
    hide BandsOk, MarginalSum;
    ValidBands(schedule);
    SumGrows(BandsOf(schedule), p, extra);
  }

  /** A fee is between nothing and the principal itself. */
  lemma FeeWithinPrincipal(schedule: Schedule, p: int)
    requires FeeOf(p, schedule).Ok?
    ensures 0 <= FeeOf(p, schedule).value <= p
  {
    FeeMonotone(schedule, 0, p);
  }

  /** A fee is refused only for a bad schedule, a principal out of range, or a total past the safe range. */
  lemma FeeDefined(schedule: Schedule, p: int)
    ensures FeeOf(p, schedule).Ok? <==>
              ScheduleOk(schedule) && 0 <= p && p + RoundedFee(BandsOf(schedule), p) <= 9_007_199_254_740_991
  {
    if ScheduleOk(schedule) && 0 <= p {
      FeeMonotone(schedule, 0, p);
    }
  }

  /** A fee is the sum of what each centavo pays in hundredths of a percent, to the nearest centavo, halves up. */
  lemma FeeNearest(schedule: Schedule, p: int)
    requires FeeOf(p, schedule).Ok?
    ensures var fee := FeeOf(p, schedule).value;
            10_000 * fee - 5_000 <= MarginalSum(BandsOf(schedule), p) < 10_000 * fee + 5_000
  {
  }

  /** Rates are between nothing and the whole; bounds rise within the safe range, and only the last band has none. */
  ghost predicate BandsMeant(bands: seq<Band>, lower: int) {
    && (forall k | 0 <= k < |bands| :: 0 <= bands[k].rateBps <= 10_000)
    && (forall k | 0 <= k < |bands| :: bands[k].upTo.None? <==> k == |bands| - 1)
    && (forall k | 0 <= k < |bands| - 1 :: lower < bands[k].upTo.value <= 9_007_199_254_740_991)
    && (forall j, k | 0 <= j < k < |bands| - 1 :: bands[j].upTo.value < bands[k].upTo.value)
  }

  lemma {:induction false} BandsMeaning(bands: seq<Band>, lower: int)
    ensures BandsOk(bands, lower) <==> BandsMeant(bands, lower)
    decreases |bands|
  {
    if |bands| > 1 {
      var rest := bands[1..];
      assert forall k | 1 <= k < |bands| :: bands[k] == rest[k - 1];
      if bands[0].upTo.Some? {
        BandsMeaning(rest, bands[0].upTo.value);
      }
      assert bands[0].upTo.None? ==> !BandsMeant(bands, lower);
    }
  }

  /** A stored schedule is valid when it is a flat rate, or at most 20 such bands marked as rounded half up once. */
  lemma ScheduleMeaning(schedule: Schedule)
    ensures ScheduleOk(schedule) <==>
              match schedule
              case Flat(rate) => 0 <= rate <= 10_000
              case Brackets(halfUpOnce, bands) => halfUpOnce && 0 < |bands| < 21 && BandsMeant(bands, 0)
              case UnknownVersion => false
  {
    hide BandsOk, BandsMeant;
    if schedule.Brackets? {
      BandsMeaning(schedule.bands, 0);
    }
  }

  // ---------- splitting a band changes nothing ----------

  function SplitBand(bands: seq<Band>, k: nat, at: int): seq<Band>
    requires k < |bands|
  {
    bands[..k] + [Band(Some(at), bands[k].rateBps)] + bands[k..]
  }

  lemma {:induction false} SplitRates(bands: seq<Band>, lower: int, k: nat, at: int, c: int)
    requires BandsOk(bands, lower) && k < |bands|
    requires (if k == 0 then lower else Lower(bands, k)) < at <= MAX_MINOR
    requires bands[k].upTo.Some? ==> at < bands[k].upTo.value
    ensures BandsOk(SplitBand(bands, k, at), lower) && RateAt(SplitBand(bands, k, at), c) == RateAt(bands, c)
    decreases k
  {
    var out := SplitBand(bands, k, at);
    if k == 0 {
      assert bands[..0] == [] && bands[0..] == bands;
      assert out == [Band(Some(at), bands[0].rateBps)] + bands && out[1..] == bands;
    } else {
      assert out[1..] == SplitBand(bands[1..], k - 1, at);
      SplitRates(bands[1..], bands[0].upTo.value, k - 1, at, c);
    }
  }

  /** Cutting a band in two at the same rate leaves every fee as it was. */
  lemma SplitBandSameFee(bands: seq<Band>, k: nat, at: int, p: int)
    requires ScheduleOk(Brackets(true, bands)) && k < |bands| < MAX_BANDS
    requires Lower(bands, k) < at <= MAX_MINOR && (bands[k].upTo.Some? ==> at < bands[k].upTo.value)
    ensures FeeOf(p, Brackets(true, SplitBand(bands, k, at))) == FeeOf(p, Brackets(true, bands))
  {
    hide BandsOk, RateAt;
    SplitRates(bands, 0, k, at, 0);
    forall c ensures RateAt(SplitBand(bands, k, at), c) == RateAt(bands, c) {
      SplitRates(bands, 0, k, at, c);
    }
    SameRatesSameSum(bands, SplitBand(bands, k, at), p);
  }

  lemma {:induction false} SameRatesSameSum(a: seq<Band>, b: seq<Band>, p: int)
    requires forall c :: RateAt(b, c) == RateAt(a, c)
    ensures MarginalSum(b, p) == MarginalSum(a, p)
    decreases p
  {
    if p > 0 {
      SameRatesSameSum(a, b, p - 1);
    }
  }

  // ---------- the fee of a change to a committed order ----------

  /** A change pays the difference its extra principal makes under the frozen schedule. */
  function IncrementalFee(original: int, extra: int, schedule: Schedule): Fee {
    var whole :- FeeOf(original + extra, schedule);
    var before :- FeeOf(original, schedule);
    Ok(whole - before)
  }

  function Total(extras: seq<nat>): nat { if extras == [] then 0 else extras[0] + Total(extras[1..]) }

  /** The fees of successive changes, each on the principal the earlier ones left. */
  function IncrementalFees(original: int, extras: seq<nat>, schedule: Schedule): Fee
    decreases |extras|
  {
    if extras == [] then Ok(0)
    else
      var first :- IncrementalFee(original, extras[0], schedule);
      var rest :- IncrementalFees(original + extras[0], extras[1..], schedule);
      Ok(first + rest)
  }

  lemma IncrementalFeeBounds(original: int, extra: nat, schedule: Schedule)
    requires IncrementalFee(original, extra, schedule).Ok?
    ensures 0 <= IncrementalFee(original, extra, schedule).value <= extra
  {
    hide ScheduleOk, RoundedFee;
    FeeMonotone(schedule, original, extra);
  }

  /** If the last total can be priced, so can every earlier one. */
  lemma SmallerFeeDefined(p: int, extra: nat, schedule: Schedule)
    requires 0 <= p && FeeOf(p + extra, schedule).Ok?
    ensures FeeOf(p, schedule).Ok?
  {
    hide ScheduleOk, RoundedFee;
    FeeMonotone(schedule, p, extra);
  }

  /** However a change is cut into successive changes, the fees add up to the fee of the one change. */
  lemma {:induction false} IncrementalFeesTelescope(original: int, extras: seq<nat>, schedule: Schedule)
    requires 0 <= original && FeeOf(original + Total(extras), schedule).Ok?
    ensures IncrementalFees(original, extras, schedule) == IncrementalFee(original, Total(extras), schedule)
    ensures IncrementalFees(original, extras, schedule).Ok?
    decreases |extras|
  {
    hide FeeOf;
    SmallerFeeDefined(original, Total(extras), schedule);
    if extras != [] {
      assert original + Total(extras) == original + extras[0] + Total(extras[1..]);
      SmallerFeeDefined(original + extras[0], Total(extras[1..]), schedule);
      IncrementalFeesTelescope(original + extras[0], extras[1..], schedule);
    }
  }
}
