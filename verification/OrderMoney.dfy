/** What the database accepts as the money of a committed order: fees, payments, payout stages. */
module OrderMoney {
  import opened Outcomes
  import opened ServiceFee
  import opened Sums

  // ---------- rows ----------

  datatype PaymentPlan = DeliveryOnline | PickupFullOnline | PickupDownpaymentStore | UnknownPlan

  datatype PaymentCode = Initial | FinalOnline

  datatype PaymentStatus = NotSubmitted | PendingConfirmation | Confirmed | NotRequired

  datatype Component = SupplierPrincipal | ServiceFeePart | DeliveryPassThrough

  datatype StageCode =
    | Printing | PackagingQc | Delivered | PickupHandover | Retention
    | InitialStage | Completion | ProductionStarted | IssueWindow

  datatype StageStatus = StagePending | StageReleased | StageSuperseded

  datatype Payment = Payment(amount: Option<int>, status: PaymentStatus)

  /** A stage's net amount, what a production lapse took off, and a signed substitute-price adjustment. */
  datatype Stage = Stage(amount: int, deduction: int, adjustment: int, status: StageStatus)

  /** The money columns of an order; they are all filled in, or the snapshot is incomplete. */
  datatype Snapshot = Snapshot(
    supplierSubtotal: int, subtotal: int, serviceFee: int, deliveryFee: int, total: int,
    downpaymentRateBps: int, onlineDue: int, directStoreDue: int, platformPayout: int,
    delivery: bool, plan: PaymentPlan, feeSchedule: Schedule, organizationDiscount: int,
    hasDropoff: bool, hasPickup: bool, hasRider: bool)

  datatype Order = Order(modelVersion: int, committed: bool, planVersion: int, snapshot: Option<Snapshot>)

  datatype Children = Children(
    payments: map<PaymentCode, Payment>,
    allocations: map<(PaymentCode, Component), int>,
    stages: map<StageCode, Stage>)

  // ---------- payout stages ----------

  datatype PlanStage = PlanStage(code: StageCode, shareBps: int, isLast: bool)

  /** Every published plan; the last stage takes the rounding remainder. */
  function PlanStages(version: int): seq<PlanStage> {
    if version == 1 then
      [PlanStage(Printing, 5000, false), PlanStage(PackagingQc, 1500, false),
       PlanStage(Delivered, 2500, false), PlanStage(Retention, 1000, true)]
    else if version == 2 then
      [PlanStage(ProductionStarted, 4000, false), PlanStage(Delivered, 3500, false), PlanStage(IssueWindow, 2500, true)]
    else []
  }

  function PlanCodes(version: int): set<StageCode> { set p | p in PlanStages(version) :: p.code }

  function Gross(stage: Stage): int { stage.amount + stage.deduction - stage.adjustment }

  const ALL_STAGES: seq<StageCode> :=
    [Printing, PackagingQc, Delivered, PickupHandover, Retention, InitialStage,
     Completion, ProductionStarted, IssueWindow]

  function SumGross(codes: seq<StageCode>, stages: map<StageCode, Stage>): int {
    if codes == [] then 0
    else (if codes[0] in stages then Gross(stages[codes[0]]) else 0) + SumGross(codes[1..], stages)
  }

  /** What the stages of an order add up to before deductions and price adjustments. */
  function GrossTotal(stages: map<StageCode, Stage>): int { SumGross(ALL_STAGES, stages) }

  function Share(payout: int, shareBps: int): int { HalfUp(payout * shareBps) }

  /** The database's check of an order's stages against its plan. */
  predicate StagesAccepted(payout: int, version: int, stages: map<StageCode, Stage>) {
    && GrossTotal(stages) == payout
    && |stages| == |PlanStages(version)|
    && (forall code | code in stages :: code in PlanCodes(version))
    && (forall p | p in PlanStages(version) && !p.isLast && p.code in stages ::
          Gross(stages[p.code]) == Share(payout, p.shareBps))
  }

  /** The one way a plan splits a payout. */
  function Split(payout: int, version: int): map<StageCode, int> {
    if version == 1 then
      var (a, b, c) := (Share(payout, 5000), Share(payout, 1500), Share(payout, 2500));
      map[Printing := a, PackagingQc := b, Delivered := c, Retention := payout - a - b - c]
    else
      var (a, b) := (Share(payout, 4000), Share(payout, 3500));
      map[ProductionStarted := a, Delivered := b, IssueWindow := payout - a - b]
  }

  lemma {:induction false} SumOnly(codes: seq<StageCode>, stages: map<StageCode, Stage>, k: nat)
    requires k < |codes|
    ensures SumGross(codes[k..], stages)
         == (if codes[k] in stages then Gross(stages[codes[k]]) else 0) + SumGross(codes[k + 1..], stages)
  {
    assert codes[k..][1..] == codes[k + 1..];
  }

  /** The sum over every kind of stage, written out. */
  lemma GrossTotalIs(stages: map<StageCode, Stage>)
    ensures GrossTotal(stages)
         == GrossOf(stages, Printing) + GrossOf(stages, PackagingQc) + GrossOf(stages, Delivered)
          + GrossOf(stages, PickupHandover) + GrossOf(stages, Retention) + GrossOf(stages, InitialStage)
          + GrossOf(stages, Completion) + GrossOf(stages, ProductionStarted) + GrossOf(stages, IssueWindow)
  {
    hide SumGross, Gross;
    assert ALL_STAGES[0..] == ALL_STAGES;
    SumOnly(ALL_STAGES, stages, 0);
    SumOnly(ALL_STAGES, stages, 1);
    SumOnly(ALL_STAGES, stages, 2);
    SumOnly(ALL_STAGES, stages, 3);
    SumOnly(ALL_STAGES, stages, 4);
    SumOnly(ALL_STAGES, stages, 5);
    SumOnly(ALL_STAGES, stages, 6);
    SumOnly(ALL_STAGES, stages, 7);
    SumOnly(ALL_STAGES, stages, 8);
    NoStages(ALL_STAGES[9..], stages);
  }

  lemma NoStages(codes: seq<StageCode>, stages: map<StageCode, Stage>)
    requires codes == []
    ensures SumGross(codes, stages) == 0
  {
  }

  function GrossOf(stages: map<StageCode, Stage>, code: StageCode): int {
    if code in stages then Gross(stages[code]) else 0
  }

  lemma SubsetFull(a: set<StageCode>, b: set<StageCode>)
    requires a <= b && |a| == |b|
    ensures a == b
  {
    assert b == a + (b - a);
    assert |b - a| == 0;
  }

  lemma PlanCodesAre(version: int)
    requires version in {1, 2}
    ensures version == 1 ==> PlanCodes(1) == {Printing, PackagingQc, Delivered, Retention} && |PlanCodes(1)| == 4
    ensures version == 2 ==> PlanCodes(2) == {ProductionStarted, Delivered, IssueWindow} && |PlanCodes(2)| == 3
  {
  }

  /** An accepted set of stages has exactly the plan's codes. */
  lemma CodesForced(version: int, stages: map<StageCode, Stage>)
    requires version in {1, 2}
    ensures |stages| == |PlanStages(version)| && (forall code | code in stages :: code in PlanCodes(version)) <==>
              stages.Keys == PlanCodes(version)
  {
    hide PlanCodes;
    PlanCodesAre(version);
    assert |stages| == |stages.Keys|;
    if |stages| == |PlanStages(version)| && (forall code | code in stages :: code in PlanCodes(version)) {
      assert stages.Keys <= PlanCodes(version);
      SubsetFull(stages.Keys, PlanCodes(version));
    }
  }

  /** With the plan's codes, the shares checked are those of every stage but the last. */
  lemma SharesChecked(payout: int, version: int, stages: map<StageCode, Stage>)
    requires version in {1, 2} && stages.Keys == PlanCodes(version)
    ensures (forall p | p in PlanStages(version) && !p.isLast && p.code in stages ::
               Gross(stages[p.code]) == Share(payout, p.shareBps))
            <==> if version == 1 then
                   GrossOf(stages, Printing) == Share(payout, 5000)
                   && GrossOf(stages, PackagingQc) == Share(payout, 1500)
                   && GrossOf(stages, Delivered) == Share(payout, 2500)
                 else
                   GrossOf(stages, ProductionStarted) == Share(payout, 4000)
                   && GrossOf(stages, Delivered) == Share(payout, 3500)
  {
    hide Gross, Share, PlanCodes;
    PlanCodesAre(version);
    var plan := PlanStages(version);
    assert plan[0] in plan && plan[1] in plan && plan[2] in plan;
  }

  ghost predicate MatchesSplit(payout: int, version: int, stages: map<StageCode, Stage>) {
    && stages.Keys == Split(payout, version).Keys
    && forall code | code in stages :: Gross(stages[code]) == Split(payout, version)[code]
  }

  lemma FourStages(payout: int, stages: map<StageCode, Stage>)
    requires stages.Keys == {Printing, PackagingQc, Delivered, Retention}
    ensures var (a, b, c) := (Share(payout, 5000), Share(payout, 1500), Share(payout, 2500));
            MatchesSplit(payout, 1, stages) <==>
              GrossOf(stages, Printing) == a && GrossOf(stages, PackagingQc) == b
              && GrossOf(stages, Delivered) == c && GrossOf(stages, Retention) == payout - a - b - c
  {
    hide Gross, Share;
  }

  lemma ThreeStages(payout: int, stages: map<StageCode, Stage>)
    requires stages.Keys == {ProductionStarted, Delivered, IssueWindow}
    ensures var (a, b) := (Share(payout, 4000), Share(payout, 3500));
            MatchesSplit(payout, 2, stages) <==>
              GrossOf(stages, ProductionStarted) == a && GrossOf(stages, Delivered) == b
              && GrossOf(stages, IssueWindow) == payout - a - b
  {
    hide Gross, Share;
  }

  lemma SplitCodes(payout: int, version: int)
    requires version in {1, 2}
    ensures Split(payout, version).Keys == PlanCodes(version)
  {
    hide PlanCodes, Share;
    PlanCodesAre(version);
  }

  /** The check accepts a set of stages exactly when it is the plan's own split of the payout. */
  lemma StagesForced(payout: int, version: int, stages: map<StageCode, Stage>)
    requires version in {1, 2}
    ensures StagesAccepted(payout, version, stages) <==> MatchesSplit(payout, version, stages)
  {
    hide GrossTotal, Gross, Share, PlanStages, PlanCodes, Split;
    PlanCodesAre(version);
    CodesForced(version, stages);
    SplitCodes(payout, version);
    if stages.Keys == PlanCodes(version) {
      hide MatchesSplit;
      SharesChecked(payout, version, stages);
      GrossTotalIs(stages);
      if version == 1 {
        FourStages(payout, stages);
      } else {
        ThreeStages(payout, stages);
      }
    }
  }

  /** A stage before deductions were taken off and price adjustments were added. */
  ghost function Full(stages: map<StageCode, Stage>, code: StageCode): int {
    if code in stages then stages[code].amount + stages[code].deduction - stages[code].adjustment else 0
  }

  /** The share of an amount in hundredths of a percent, to the nearest centavo, halves up. */
  ghost predicate Nearest(amount: int, bps: int, share: int) {
    10_000 * share - 5_000 <= amount * bps < 10_000 * share + 5_000
  }

  /**
   * Half, 15 and 25 percent and the rest, or 40 and 35 percent and the rest: exactly these stages,
   * each but the last rounded to the nearest centavo, all of them adding up to the payout.
   */
  ghost predicate PlainSplit(payout: int, version: int, stages: map<StageCode, Stage>) {
    if version == 1 then
      && stages.Keys == {Printing, PackagingQc, Delivered, Retention}
      && Nearest(payout, 5_000, Full(stages, Printing)) && Nearest(payout, 1_500, Full(stages, PackagingQc))
      && Nearest(payout, 2_500, Full(stages, Delivered))
      && Full(stages, Printing) + Full(stages, PackagingQc) + Full(stages, Delivered) + Full(stages, Retention)
         == payout
    else
      && stages.Keys == {ProductionStarted, Delivered, IssueWindow}
      && Nearest(payout, 4_000, Full(stages, ProductionStarted)) && Nearest(payout, 3_500, Full(stages, Delivered))
      && Full(stages, ProductionStarted) + Full(stages, Delivered) + Full(stages, IssueWindow) == payout
  }

  lemma NearestIsShare(amount: int, bps: int, share: int)
    ensures Nearest(amount, bps, share) <==> share == Share(amount, bps)
  {
    var x := amount * bps;
    assert Share(amount, bps) == (x + 5000) / 10000;
  }

  lemma FullIsGross(stages: map<StageCode, Stage>, code: StageCode)
    ensures Full(stages, code) == GrossOf(stages, code)
  {
  }

  /** The check accepts exactly the plan's split, in plain figures. */
  lemma StagesMeaning(payout: int, version: int, stages: map<StageCode, Stage>)
    requires version in {1, 2}
    ensures StagesAccepted(payout, version, stages) <==> PlainSplit(payout, version, stages)
  {
    hide StagesAccepted, Nearest, Share, Full, GrossOf, MatchesSplit, Gross;
    StagesForced(payout, version, stages);
    forall amount, bps, share
      ensures Nearest(amount, bps, share) <==> share == Share(amount, bps)
    {
      NearestIsShare(amount, bps, share);
    }
    forall code
      ensures Full(stages, code) == GrossOf(stages, code)
    {
      FullIsGross(stages, code);
    }
    if MatchesSplit(payout, version, stages) {
      SplitKeys(payout, version, stages);
    }
    if version == 1 && stages.Keys == {Printing, PackagingQc, Delivered, Retention} {
      FourStages(payout, stages);
    } else if version == 2 && stages.Keys == {ProductionStarted, Delivered, IssueWindow} {
      ThreeStages(payout, stages);
    }
  }

  lemma SplitKeys(payout: int, version: int, stages: map<StageCode, Stage>)
    requires MatchesSplit(payout, version, stages)
    ensures stages.Keys == if version == 1 then {Printing, PackagingQc, Delivered, Retention}
                           else {ProductionStarted, Delivered, IssueWindow}
  {
    hide Share, Gross;
  }

  /** The remainder left for the last stage is never negative, so every payout splits into real amounts. */
  lemma SplitNonNegative(payout: int, version: int)
    requires 0 <= payout && version in {1, 2}
    ensures forall code | code in Split(payout, version) :: 0 <= Split(payout, version)[code] <= payout
  {
    RemainderLeft(payout);
  }

  lemma RemainderLeft(payout: int)
    requires 0 <= payout
    ensures 0 <= Share(payout, 5000) && 0 <= Share(payout, 1500) && 0 <= Share(payout, 2500)
    ensures 0 <= Share(payout, 4000) && 0 <= Share(payout, 3500)
    ensures Share(payout, 5000) + Share(payout, 1500) + Share(payout, 2500) <= payout
    ensures Share(payout, 4000) + Share(payout, 3500) <= payout
  {
  }

  // ---------- converting two-stage orders ----------

  /** The four stages an order gets when it still has two and nothing was released. */
  function Converted(payout: int, stages: map<StageCode, Stage>): map<StageCode, Stage> {
    if (InitialStage in stages || Completion in stages)
       && (forall code | code in stages :: !stages[code].status.StageReleased?) then
      map code | code in Split(payout, 1) :: Stage(Split(payout, 1)[code], 0, 0, StagePending)
    else stages
  }

  /** A converted order passes the four-stage check, and one with released money keeps its rows. */
  lemma ConversionAccepted(payout: int, stages: map<StageCode, Stage>)
    ensures Converted(payout, stages) == stages || StagesAccepted(payout, 1, Converted(payout, stages))
    ensures (exists code | code in stages :: stages[code].status.StageReleased?) ==> Converted(payout, stages) == stages
  {
    StagesForced(payout, 1, Converted(payout, stages));
  }

  /**
   * Converted are exactly the orders with an initial or completion stage and no released one: to four
   * pending stages without deductions or adjustments that split the payout. All others keep their rows.
   */
  lemma ConversionMeaning(payout: int, stages: map<StageCode, Stage>)
    ensures var out := Converted(payout, stages);
            if (InitialStage in stages || Completion in stages)
               && !(exists code | code in stages :: stages[code].status == StageReleased) then
              && PlainSplit(payout, 1, out)
              && forall code | code in out ::
                   out[code].deduction == 0 && out[code].adjustment == 0 && out[code].status == StagePending
            else out == stages
  {
    hide StagesAccepted, PlainSplit, Share;
    var out := Converted(payout, stages);
    if (InitialStage in stages || Completion in stages)
       && !(exists code | code in stages :: stages[code].status == StageReleased) {
      MatchesOwnSplit(payout, out);
      StagesForced(payout, 1, out);
      StagesMeaning(payout, 1, out);
    }
  }

  lemma MatchesOwnSplit(payout: int, out: map<StageCode, Stage>)
    requires out.Keys == Split(payout, 1).Keys
    requires forall code | code in out :: out[code] == Stage(Split(payout, 1)[code], 0, 0, StagePending)
    ensures MatchesSplit(payout, 1, out)
  {
    hide Split;
  }

  // ---------- what a commit checks ----------

  function AmountOf(ch: Children, code: PaymentCode): Option<int> {
    if code in ch.payments then ch.payments[code].amount else None
  }

  function AllocationOf(ch: Children, code: PaymentCode, component: Component): Option<int> {
    if (code, component) in ch.allocations then Some(ch.allocations[(code, component)]) else None
  }

  function AllocationCount(ch: Children, code: PaymentCode): nat {
    |set component: Component | (code, component) in ch.allocations|
  }

  function ConfirmedPrincipalOf(ch: Children, code: PaymentCode): int {
    if code in ch.payments && ch.payments[code].status.Confirmed? && (code, SupplierPrincipal) in ch.allocations
    then ch.allocations[(code, SupplierPrincipal)] else 0
  }

  function ConfirmedPrincipal(ch: Children): int {
    ConfirmedPrincipalOf(ch, Initial) + ConfirmedPrincipalOf(ch, FinalOnline)
  }

  function SumReleased(codes: seq<StageCode>, stages: map<StageCode, Stage>): int {
    if codes == [] then 0
    else
      var released := codes[0] in stages && stages[codes[0]].status.StageReleased?;
      (if released then stages[codes[0]].amount else 0) + SumReleased(codes[1..], stages)
  }

  function Downpayment(s: Snapshot): int { HalfUp(s.supplierSubtotal * s.downpaymentRateBps) }

  /** The payments, allocations and stages of a committed order, as the deferred check reads them. */
  predicate ChildrenAccepted(order: Order, s: Snapshot, ch: Children) {
    var downpayment := Downpayment(s);
    var remainder := s.supplierSubtotal - downpayment;
    && AmountOf(ch, Initial) == Some(downpayment + s.serviceFee)
    && AllocationCount(ch, Initial) == 2
    && AllocationOf(ch, Initial, SupplierPrincipal) == Some(downpayment)
    && AllocationOf(ch, Initial, ServiceFeePart) == Some(s.serviceFee)
    && (if s.plan.DeliveryOnline? then
          && AmountOf(ch, FinalOnline) == Some(remainder + s.deliveryFee)
          && AllocationCount(ch, FinalOnline) == 2
          && AllocationOf(ch, FinalOnline, SupplierPrincipal) == Some(remainder)
          && AllocationOf(ch, FinalOnline, DeliveryPassThrough) == Some(s.deliveryFee)
        else AmountOf(ch, FinalOnline).None? && AllocationCount(ch, FinalOnline) == 0)
    && StagesAccepted(s.platformPayout, order.planVersion, ch.stages)
    && SumReleased(ALL_STAGES, ch.stages) <= ConfirmedPrincipal(ch)
  }

  predicate PlanAccepted(s: Snapshot) {
    match s.plan
    case DeliveryOnline =>
      s.delivery && s.downpaymentRateBps in {0, 2500, 5000} && s.directStoreDue == 0 && s.onlineDue == s.total
      && s.hasDropoff
    case PickupFullOnline =>
      !s.delivery && s.downpaymentRateBps == 10000 && s.deliveryFee == 0 && s.directStoreDue == 0
      && s.onlineDue == s.total && !s.hasRider && s.hasPickup
    case PickupDownpaymentStore =>
      !s.delivery && s.downpaymentRateBps in {2500, 5000} && s.deliveryFee == 0
      && s.onlineDue == Downpayment(s) + s.serviceFee
      && s.directStoreDue == s.supplierSubtotal - Downpayment(s)
      && !s.hasRider && s.hasPickup
    case UnknownPlan => false
  }

  predicate TotalsAccepted(s: Snapshot) {
    var fee := FeeOf(s.supplierSubtotal, s.feeSchedule);
    && fee.Ok? && s.serviceFee == fee.value - s.organizationDiscount
    && s.subtotal == s.supplierSubtotal
    && s.total == s.supplierSubtotal + s.serviceFee + s.deliveryFee
    && s.onlineDue + s.directStoreDue == s.total
    && s.platformPayout == s.supplierSubtotal - s.directStoreDue
  }

  /** The trigger on a committed model-2 order; other orders are not its business. */
  predicate CommitAccepted(order: Order, ch: Children) {
    order.modelVersion == 2 && order.committed ==>
      && order.snapshot.Some?
      && TotalsAccepted(order.snapshot.value) && PlanAccepted(order.snapshot.value)
      && ChildrenAccepted(order, order.snapshot.value, ch)
  }

  function OrZero(amount: Option<int>): int { if amount.Some? then amount.value else 0 }

  /** Everything the client pays online. */
  function PaymentsTotal(ch: Children): int { OrZero(AmountOf(ch, Initial)) + OrZero(AmountOf(ch, FinalOnline)) }

  function AllocatedTo(ch: Children, component: Component): int {
    OrZero(AllocationOf(ch, Initial, component)) + OrZero(AllocationOf(ch, FinalOnline, component))
  }

  function AllocatedIn(ch: Children, code: PaymentCode): int {
    OrZero(AllocationOf(ch, code, SupplierPrincipal)) + OrZero(AllocationOf(ch, code, ServiceFeePart))
    + OrZero(AllocationOf(ch, code, DeliveryPassThrough))
  }

  /** Two rows already seen leave no room for a third. */
  lemma NoThirdRow(ch: Children, code: PaymentCode, a: Component, b: Component, c: Component)
    requires AllocationCount(ch, code) == 2 && a != b && a != c && b != c
    requires AllocationOf(ch, code, a).Some? && AllocationOf(ch, code, b).Some?
    ensures AllocationOf(ch, code, c).None?
  {
    var rows := set component: Component | (code, component) in ch.allocations;
    assert a in rows && b in rows;
    assert |rows - {a} - {b}| == 0;
    assert c !in rows - {a} - {b};
    assert c !in rows;
  }

  lemma NoRows(ch: Children, code: PaymentCode, c: Component)
    requires AllocationCount(ch, code) == 0
    ensures AllocationOf(ch, code, c).None?
  {
    var rows := set component: Component | (code, component) in ch.allocations;
    assert rows == {};
    assert c !in rows;
  }

  // ---------- the rows of a committed order are forced ----------

  /** The allocations and amounts each payment plan calls for, given the downpayment. */
  ghost predicate PaymentsForced(s: Snapshot, downpayment: int, ch: Children) {
    && AmountIs(ch, Initial, Some(downpayment + s.serviceFee))
    && if s.plan == DeliveryOnline then
         && AmountIs(ch, FinalOnline, Some(s.supplierSubtotal - downpayment + s.deliveryFee))
         && ch.allocations == map[
              (Initial, SupplierPrincipal) := downpayment, (Initial, ServiceFeePart) := s.serviceFee,
              (FinalOnline, SupplierPrincipal) := s.supplierSubtotal - downpayment,
              (FinalOnline, DeliveryPassThrough) := s.deliveryFee]
       else
         && AmountIs(ch, FinalOnline, None)
         && ch.allocations == map[
              (Initial, SupplierPrincipal) := downpayment, (Initial, ServiceFeePart) := s.serviceFee]
  }

  /** A payment without a row counts as one without an amount. */
  ghost predicate AmountIs(ch: Children, code: PaymentCode, amount: Option<int>) {
    if code in ch.payments then ch.payments[code].amount == amount else amount == None
  }

  ghost function ReleasedCodes(stages: map<StageCode, Stage>): set<StageCode> {
    set code | code in stages && stages[code].status == StageReleased
  }

  ghost function ConfirmedKeys(ch: Children): set<PaymentCode> {
    set code | code in ch.payments && ch.payments[code].status == Confirmed
               && (code, SupplierPrincipal) in ch.allocations
  }

  function StageAmount(stages: map<StageCode, Stage>): StageCode -> int {
    (code: StageCode) => if code in stages then stages[code].amount else 0
  }

  function PrincipalAmount(ch: Children): PaymentCode -> int {
    (code: PaymentCode) => if (code, SupplierPrincipal) in ch.allocations then ch.allocations[(code, SupplierPrincipal)]
                           else 0
  }

  lemma {:induction false} ReleasedSum(codes: seq<StageCode>, stages: map<StageCode, Stage>)
    requires forall i, j | 0 <= i < j < |codes| :: codes[i] != codes[j]
    ensures SumReleased(codes, stages)
         == SumOver((set code | code in codes && code in ReleasedCodes(stages)), StageAmount(stages))
  {
    if codes != [] {
      var rest := codes[1..];
      ReleasedSum(rest, stages);
      var all := set code | code in codes && code in ReleasedCodes(stages);
      var later := set code | code in rest && code in ReleasedCodes(stages);
      if codes[0] in ReleasedCodes(stages) {
        assert all == later + {codes[0]};
        SumOverAdd(later, codes[0], StageAmount(stages));
      } else {
        assert all == later;
      }
    } else {
      assert (set code | code in codes && code in ReleasedCodes(stages)) == {};
    }
  }

  lemma AllReleased(stages: map<StageCode, Stage>)
    ensures SumReleased(ALL_STAGES, stages) == SumOver(ReleasedCodes(stages), StageAmount(stages))
  {
    hide SumReleased, SumOver;
    ReleasedSum(ALL_STAGES, stages);
    forall code: StageCode
      ensures code in ALL_STAGES
    {
      EveryStage(code);
    }
    assert (set code | code in ALL_STAGES && code in ReleasedCodes(stages)) == ReleasedCodes(stages);
  }

  lemma EveryStage(code: StageCode)
    ensures code in ALL_STAGES
  {
    match code {
      case Printing => assert ALL_STAGES[0] == code;
      case PackagingQc => assert ALL_STAGES[1] == code;
      case Delivered => assert ALL_STAGES[2] == code;
      case PickupHandover => assert ALL_STAGES[3] == code;
      case Retention => assert ALL_STAGES[4] == code;
      case InitialStage => assert ALL_STAGES[5] == code;
      case Completion => assert ALL_STAGES[6] == code;
      case ProductionStarted => assert ALL_STAGES[7] == code;
      case IssueWindow => assert ALL_STAGES[8] == code;
    }
  }

  lemma ConfirmedSum(ch: Children)
    ensures ConfirmedPrincipal(ch) == SumOver(ConfirmedKeys(ch), PrincipalAmount(ch))
  {
    forall code | code in ConfirmedKeys(ch)
      ensures code in {Initial, FinalOnline}
    {
      match code { case Initial => case FinalOnline => }
    }
    SumOverPair(ConfirmedKeys(ch), Initial, FinalOnline, PrincipalAmount(ch));
  }

  /** The snapshot's own figures: the fee less the discount, the totals, and what each payment plan allows. */
  ghost predicate SnapshotForced(s: Snapshot, downpayment: int) {
    && Nearest(s.supplierSubtotal, s.downpaymentRateBps, downpayment)
    && FeeOf(s.supplierSubtotal, s.feeSchedule) == Ok(s.serviceFee + s.organizationDiscount)
    && s.subtotal == s.supplierSubtotal
    && s.total == s.supplierSubtotal + s.serviceFee + s.deliveryFee
    && s.onlineDue == s.total - s.directStoreDue
    && s.platformPayout == s.supplierSubtotal - s.directStoreDue
    && (s.plan == DeliveryOnline ==>
          s.delivery && s.hasDropoff && s.downpaymentRateBps in {0, 2_500, 5_000} && s.directStoreDue == 0)
    && (s.plan == PickupFullOnline ==>
          !s.delivery && s.hasPickup && !s.hasRider && s.downpaymentRateBps == 10_000 && s.deliveryFee == 0
          && s.directStoreDue == 0)
    && (s.plan == PickupDownpaymentStore ==>
          !s.delivery && s.hasPickup && !s.hasRider && s.downpaymentRateBps in {2_500, 5_000} && s.deliveryFee == 0
          && s.directStoreDue == s.supplierSubtotal - downpayment)
    && s.plan != UnknownPlan
  }

  lemma SnapshotMeaning(s: Snapshot)
    ensures TotalsAccepted(s) && PlanAccepted(s) <==> SnapshotForced(s, Downpayment(s))
    ensures forall d | SnapshotForced(s, d) :: d == Downpayment(s)
  {
    hide FeeOf, Nearest, HalfUp;
    forall share
      ensures Nearest(s.supplierSubtotal, s.downpaymentRateBps, share) <==> share == Downpayment(s)
    {
      NearestIsShare(s.supplierSubtotal, s.downpaymentRateBps, share);
    }
  }

  lemma CountTwo(ch: Children, code: PaymentCode, a: Component, b: Component)
    requires a != b
    requires forall c: Component :: (code, c) in ch.allocations <==> c == a || c == b
    ensures AllocationCount(ch, code) == 2
  {
    assert (set c: Component | (code, c) in ch.allocations) == {a, b};
  }

  lemma CountNone(ch: Children, code: PaymentCode)
    requires forall c: Component :: (code, c) !in ch.allocations
    ensures AllocationCount(ch, code) == 0
  {
    assert (set c: Component | (code, c) in ch.allocations) == {};
  }

  /** The key a payment and a component share, and whether it is there. */
  lemma KeyIs(ch: Children, key: (PaymentCode, Component))
    requires key in ch.allocations
    ensures AllocationOf(ch, key.0, key.1) == Some(ch.allocations[key])
  {
  }

  lemma AcceptedForces(order: Order, s: Snapshot, ch: Children)
    requires ChildrenAccepted(order, s, ch)
    ensures PaymentsForced(s, Downpayment(s), ch)
  {
    hide StagesAccepted, SumReleased, ConfirmedPrincipal, Downpayment, AllocationCount;
    NoThirdRow(ch, Initial, SupplierPrincipal, ServiceFeePart, DeliveryPassThrough);
    if s.plan.DeliveryOnline? {
      NoThirdRow(ch, FinalOnline, SupplierPrincipal, DeliveryPassThrough, ServiceFeePart);
    } else {
      NoRows(ch, FinalOnline, SupplierPrincipal);
      NoRows(ch, FinalOnline, ServiceFeePart);
      NoRows(ch, FinalOnline, DeliveryPassThrough);
    }
    forall key | key in ch.allocations
      ensures key in {(Initial, SupplierPrincipal), (Initial, ServiceFeePart)}
           || (s.plan.DeliveryOnline?
               && key in {(FinalOnline, SupplierPrincipal), (FinalOnline, DeliveryPassThrough)})
    {
      KeyIs(ch, key);
      match key {
        case (Initial, SupplierPrincipal) =>
        case (Initial, ServiceFeePart) =>
        case (Initial, DeliveryPassThrough) =>
        case (FinalOnline, SupplierPrincipal) =>
        case (FinalOnline, DeliveryPassThrough) =>
        case (FinalOnline, ServiceFeePart) =>
      }
    }
  }

  lemma AcceptedStages(order: Order, s: Snapshot, ch: Children)
    requires ChildrenAccepted(order, s, ch)
    ensures StagesAccepted(s.platformPayout, order.planVersion, ch.stages)
    ensures SumReleased(ALL_STAGES, ch.stages) <= ConfirmedPrincipal(ch)
  {
  }

  lemma ForcedAccepts(order: Order, s: Snapshot, ch: Children)
    requires PaymentsForced(s, Downpayment(s), ch)
    requires StagesAccepted(s.platformPayout, order.planVersion, ch.stages)
    requires SumReleased(ALL_STAGES, ch.stages) <= ConfirmedPrincipal(ch)
    ensures ChildrenAccepted(order, s, ch)
  {
    hide StagesAccepted, SumReleased, ConfirmedPrincipal, Downpayment, AllocationCount;
    CountTwo(ch, Initial, SupplierPrincipal, ServiceFeePart);
    if s.plan.DeliveryOnline? {
      CountTwo(ch, FinalOnline, SupplierPrincipal, DeliveryPassThrough);
    } else {
      CountNone(ch, FinalOnline);
    }
  }

  /**
   * A committed order is accepted exactly when its snapshot adds up, its payments and allocations are
   * the ones its payment plan calls for and no others, its stages are the plan's split of the payout,
   * and the released stages stay within the confirmed principal.
   */
  lemma CommitForced(order: Order, ch: Children)
    requires order.planVersion in {1, 2}
    ensures CommitAccepted(order, ch) <==>
              (order.modelVersion == 2 && order.committed ==>
                 && order.snapshot.Some?
                 && var s := order.snapshot.value;
                    && (exists d :: SnapshotForced(s, d) && PaymentsForced(s, d, ch))
                    && PlainSplit(s.platformPayout, order.planVersion, ch.stages)
                    && SumOver(ReleasedCodes(ch.stages), StageAmount(ch.stages))
                       <= SumOver(ConfirmedKeys(ch), PrincipalAmount(ch)))
  {
    hide TotalsAccepted, PlanAccepted, ChildrenAccepted, SnapshotForced, PaymentsForced, PlainSplit, SumOver,
         StagesAccepted, SumReleased, ConfirmedPrincipal, ReleasedCodes, ConfirmedKeys, Downpayment;
    if order.snapshot.Some? {
      var s := order.snapshot.value;
      SnapshotMeaning(s);
      if ChildrenAccepted(order, s, ch) {
        AcceptedForces(order, s, ch);
        AcceptedStages(order, s, ch);
      }
      if PaymentsForced(s, Downpayment(s), ch) && StagesAccepted(s.platformPayout, order.planVersion, ch.stages)
         && SumReleased(ALL_STAGES, ch.stages) <= ConfirmedPrincipal(ch) {
        ForcedAccepts(order, s, ch);
      }
      StagesMeaning(s.platformPayout, order.planVersion, ch.stages);
      AllReleased(ch.stages);
      ConfirmedSum(ch);
    }
  }

  /**
   * Under each payment plan what a committed order collects online is what its shop is owed in gross
   * stages, plus the net service fee, plus the delivery fee, component by component.
   */
  lemma MoneyConserved(order: Order, ch: Children)
    requires order.modelVersion == 2 && order.committed && order.planVersion in {1, 2} && CommitAccepted(order, ch)
    ensures var s := order.snapshot.value;
            && PaymentsTotal(ch) == GrossTotal(ch.stages) + s.serviceFee + s.deliveryFee == s.onlineDue
            && AllocatedTo(ch, SupplierPrincipal) == GrossTotal(ch.stages) == s.platformPayout
            && AllocatedTo(ch, ServiceFeePart) == s.serviceFee
            && AllocatedTo(ch, DeliveryPassThrough) == s.deliveryFee
    ensures forall code: PaymentCode :: OrZero(AmountOf(ch, code)) == AllocatedIn(ch, code)
    ensures MatchesSplit(order.snapshot.value.platformPayout, order.planVersion, ch.stages)
  {
    hide GrossTotal, SumReleased, ConfirmedPrincipal, FeeOf, HalfUp, MatchesSplit, AllocationCount, Split;
    var s := order.snapshot.value;
    StagesForced(s.platformPayout, order.planVersion, ch.stages);
    NoThirdRow(ch, Initial, SupplierPrincipal, ServiceFeePart, DeliveryPassThrough);
    if s.plan.DeliveryOnline? {
      NoThirdRow(ch, FinalOnline, SupplierPrincipal, DeliveryPassThrough, ServiceFeePart);
    } else {
      NoRows(ch, FinalOnline, SupplierPrincipal);
      NoRows(ch, FinalOnline, ServiceFeePart);
      NoRows(ch, FinalOnline, DeliveryPassThrough);
      if s.plan.PickupFullOnline? {
        WholeShare(s.supplierSubtotal);
      }
    }
    forall code: PaymentCode ensures OrZero(AmountOf(ch, code)) == AllocatedIn(ch, code) {
      match code { case Initial => case FinalOnline => }
    }
  }

  lemma WholeShare(amount: int)
    ensures HalfUp(amount * 10000) == amount
  {
  }

  // ---------- organization discounts ----------

  datatype Discount = Discount(rateBps: int, amount: int, grossFee: int, voucher: int)

  /** The guard on a discounted order: the discount is a rounded share of the subtotal, at most the fee. */
  predicate DiscountAccepted(s: Snapshot, d: Discount) {
    && 0 <= d.rateBps <= WHOLE_BPS
    && FeeOf(s.supplierSubtotal, s.feeSchedule) == Ok(d.grossFee)
    && d.amount == Min(d.grossFee, HalfUp(s.supplierSubtotal * d.rateBps))
    && s.serviceFee == d.grossFee - d.amount
    && s.total == s.supplierSubtotal + s.serviceFee + s.deliveryFee - d.voucher
    && s.platformPayout == s.supplierSubtotal - s.directStoreDue
  }

  /** A discount comes out of the service fee alone: the fee stays non-negative and the shop loses nothing. */
  lemma DiscountFromFeeOnly(order: Order, ch: Children, d: Discount)
    requires order.modelVersion == 2 && order.committed && order.planVersion in {1, 2} && CommitAccepted(order, ch)
    requires DiscountAccepted(order.snapshot.value, d)
    ensures var s := order.snapshot.value;
            && 0 <= s.serviceFee <= d.grossFee && d.voucher == 0 && s.organizationDiscount == d.amount
            && PaymentsTotal(ch) + d.amount == GrossTotal(ch.stages) + d.grossFee + s.deliveryFee
  {
    hide GrossTotal, MatchesSplit, ChildrenAccepted, PlanAccepted, AllocatedTo, AllocatedIn, ScheduleOk, RoundedFee;
    var s := order.snapshot.value;
    MoneyConserved(order, ch);
    FeeWithinPrincipal(s.feeSchedule, s.supplierSubtotal);
    HalfUpNonNegative(s.supplierSubtotal, d.rateBps);
  }

  /** The guard lets through exactly a discount that is the nearest share, or the whole fee when that is less. */
  lemma DiscountMeaning(s: Snapshot, d: Discount)
    ensures DiscountAccepted(s, d) <==>
              && 0 <= d.rateBps <= 10_000 && FeeOf(s.supplierSubtotal, s.feeSchedule) == Ok(d.grossFee)
              && d.amount <= d.grossFee
              && (Nearest(s.supplierSubtotal, d.rateBps, d.amount)
                  || (d.amount == d.grossFee && s.supplierSubtotal * d.rateBps >= 10_000 * d.amount - 5_000))
              && d.grossFee == s.serviceFee + d.amount
              && s.supplierSubtotal == s.total - s.serviceFee - s.deliveryFee + d.voucher
              && s.supplierSubtotal == s.platformPayout + s.directStoreDue
  {
    hide FeeOf;
    var x := s.supplierSubtotal * d.rateBps;
    NearestIsShare(s.supplierSubtotal, d.rateBps, d.amount);
    assert HalfUp(x) == (x + 5000) / 10000;
  }

  lemma HalfUpNonNegative(amount: int, rate: int)
    requires 0 <= amount && 0 <= rate
    ensures 0 <= HalfUp(amount * rate)
  {
    assert 0 <= amount * rate;
  }
}
