/**
 * Collections, refunds and shop payouts of orders: what every committed transaction keeps.
 *
 * A transaction is a list of row changes. Guards refuse a change at once; the solvency check runs at
 * commit for every order whose rows were touched, and the transaction takes effect only if it passes.
 */
module RefundFunds {
  import opened Outcomes
  import opened OrderMoney
  import opened Sums

  type OrderId = string

  // ---------- rows ----------

  datatype Allocation = Allocation(amount: int, gridgoFunded: int)

  datatype Milestone = Milestone(amount: int, status: StageStatus, note: string)

  datatype RequestKind = Cancellation | Complaint | DeliveryPin | ShopMove

  datatype RequestStatus = Active | Paid | Rejected | Withdrawn

  datatype Request = Request(order: OrderId, kind: RequestKind, status: RequestStatus)

  datatype Disposition = Cancelled | FulfilledWithRefund | DeliveryAdjustment | PriceAdjustment

  datatype Settlement = Settlement(
    order: OrderId, sequence: nat, disposition: Disposition, principal: nat, fee: nat, delivery: nat,
    shopEntitlement: nat, riderEntitlement: nat, remainingShop: int)

  datatype PayoutStatus = PayoutPending | PayoutReleased | PayoutSuperseded

  /** What a settlement still owes the shop; `settlement` is its place in the ledger. */
  datatype ShopPayout = ShopPayout(settlement: nat, order: OrderId, amount: int, status: PayoutStatus)

  datatype PinPayment = PinPayment(order: OrderId, amount: int)

  datatype ChangePayment = ChangePayment(order: OrderId, principal: int, fee: int)

  datatype ChangePayout = ChangePayout(order: OrderId, amount: int)

  datatype Db = Db(
    payments: map<(OrderId, PaymentCode), PaymentStatus>,
    allocations: map<(OrderId, PaymentCode, Component), Allocation>,
    milestones: map<(OrderId, StageCode), Milestone>,
    requests: map<string, Request>,
    settlements: seq<Settlement>,
    shopPayouts: seq<ShopPayout>,
    pinPayments: seq<PinPayment>,
    changePayments: seq<ChangePayment>,
    changePayouts: seq<ChangePayout>)

  const EMPTY := Db(map[], map[], map[], map[], [], [], [], [], [])

  // ---------- the figures the check reads ----------

  predicate IsAdjustment(s: Settlement) { s.disposition.DeliveryAdjustment? || s.disposition.PriceAdjustment? }

  function Allocated(db: Db, o: OrderId, code: PaymentCode, component: Component): int {
    if (o, code) in db.payments && db.payments[(o, code)].Confirmed? && (o, code, component) in db.allocations
    then db.allocations[(o, code, component)].amount else 0
  }

  predicate InitialConfirmed(db: Db, o: OrderId) {
    (o, Initial) in db.payments && db.payments[(o, Initial)].Confirmed?
  }

  function Funded(db: Db, o: OrderId, code: PaymentCode, component: Component): int {
    if (o, code) in db.payments && (o, code, component) in db.allocations
       && (db.payments[(o, code)].Confirmed? || (db.payments[(o, code)].NotRequired? && InitialConfirmed(db, o)))
    then db.allocations[(o, code, component)].gridgoFunded else 0
  }

  function Collected(db: Db, o: OrderId, component: Component): int {
    Allocated(db, o, Initial, component) + Allocated(db, o, FinalOnline, component)
  }

  function TopUp(db: Db, o: OrderId, component: Component): int {
    Funded(db, o, Initial, component) + Funded(db, o, FinalOnline, component)
  }

  function ReleasedStage(db: Db, o: OrderId, code: StageCode): int {
    if (o, code) in db.milestones && db.milestones[(o, code)].status.StageReleased?
    then db.milestones[(o, code)].amount else 0
  }

  function ReleasedStages(db: Db, o: OrderId, codes: seq<StageCode>): int {
    if codes == [] then 0 else ReleasedStage(db, o, codes[0]) + ReleasedStages(db, o, codes[1..])
  }

  /** Add up what each row of a ledger counts for. */
  function Sum<R>(rows: seq<R>, worth: R -> int): int {
    if rows == [] then 0 else Sum(rows[..|rows| - 1], worth) + worth(rows[|rows| - 1])
  }

  function Of(order: OrderId, o: OrderId, amount: int): int { if order == o then amount else 0 }

  function PinWorth(o: OrderId): PinPayment -> int { (r: PinPayment) => Of(r.order, o, r.amount) }
  function ChangePrincipal(o: OrderId): ChangePayment -> int { (r: ChangePayment) => Of(r.order, o, r.principal) }
  function ChangeFee(o: OrderId): ChangePayment -> int { (r: ChangePayment) => Of(r.order, o, r.fee) }
  function ChangePayoutWorth(o: OrderId): ChangePayout -> int { (r: ChangePayout) => Of(r.order, o, r.amount) }
  function RefundPrincipal(o: OrderId): Settlement -> int { (r: Settlement) => Of(r.order, o, r.principal) }
  function RefundFee(o: OrderId): Settlement -> int { (r: Settlement) => Of(r.order, o, r.fee) }
  function RefundDelivery(o: OrderId): Settlement -> int { (r: Settlement) => Of(r.order, o, r.delivery) }
  function PayoutWorth(o: OrderId): ShopPayout -> int {
    (r: ShopPayout) => if r.status.PayoutSuperseded? then 0 else Of(r.order, o, r.amount)
  }

  /** The entitlement of the order's last settlement that is not an adjustment. */
  function LastTerminal(settlements: seq<Settlement>, o: OrderId): Option<Settlement> {
    if settlements == [] then None
    else
      var last, before := settlements[|settlements| - 1], LastTerminal(settlements[..|settlements| - 1], o);
      if last.order != o || IsAdjustment(last) || (before.Some? && last.sequence <= before.value.sequence)
      then before else Some(last)
  }

  /** The order has a settlement that is not an adjustment. */
  predicate HasTerminal(settlements: seq<Settlement>, o: OrderId) {
    exists i | 0 <= i < |settlements| :: settlements[i].order == o && !IsAdjustment(settlements[i])
  }

  function MaxRider(settlements: seq<Settlement>, o: OrderId): nat {
    if settlements == [] then 0
    else
      var last, before := settlements[|settlements| - 1], MaxRider(settlements[..|settlements| - 1], o);
      if last.order == o && before < last.riderEntitlement then last.riderEntitlement else before
  }

  function VerifiedPrincipal(db: Db, o: OrderId): int {
    Collected(db, o, SupplierPrincipal) + Sum(db.changePayments, ChangePrincipal(o))
  }

  function VerifiedFee(db: Db, o: OrderId): int {
    Collected(db, o, ServiceFeePart) + Sum(db.changePayments, ChangeFee(o))
  }

  function VerifiedDelivery(db: Db, o: OrderId): int {
    Collected(db, o, DeliveryPassThrough) + Sum(db.pinPayments, PinWorth(o))
  }

  function ReleasedToShop(db: Db, o: OrderId): int {
    ReleasedStages(db, o, ALL_STAGES) + Sum(db.changePayouts, ChangePayoutWorth(o))
  }

  function OwedToShop(db: Db, o: OrderId): int { Sum(db.shopPayouts, PayoutWorth(o)) }

  /** The check at commit: refunds and payouts stay within what was verified. */
  predicate FundsOk(db: Db, o: OrderId) {
    var refunded := Sum(db.settlements, RefundPrincipal(o));
    var refundedDelivery := Sum(db.settlements, RefundDelivery(o));
    var terminal := LastTerminal(db.settlements, o);
    && refunded <= VerifiedPrincipal(db, o)
    && Sum(db.settlements, RefundFee(o)) <= VerifiedFee(db, o)
    && refundedDelivery <= VerifiedDelivery(db, o)
    && refundedDelivery + MaxRider(db.settlements, o) <= VerifiedDelivery(db, o) + TopUp(db, o, DeliveryPassThrough)
    && (terminal.Some? ==>
          && refunded + terminal.value.shopEntitlement <= VerifiedPrincipal(db, o) + TopUp(db, o, SupplierPrincipal)
          && ReleasedToShop(db, o) + OwedToShop(db, o) <= terminal.value.shopEntitlement)
  }

  // ---------- row changes, their guards, and what they touch ----------

  datatype Change =
    | PutPayment(order: OrderId, code: PaymentCode, status: PaymentStatus)
    | DeletePayment(order: OrderId, code: PaymentCode)
    | PutAllocation(order: OrderId, code: PaymentCode, component: Component, allocation: Allocation)
    | DeleteAllocation(order: OrderId, code: PaymentCode, component: Component)
    | PutMilestone(order: OrderId, stage: StageCode, milestone: Milestone)
    | DeleteMilestone(order: OrderId, stage: StageCode)
    | PutRequest(id: string, request: Request)
    | AddSettlement(settlement: Settlement)
    | AddShopPayout(payout: ShopPayout)
    | UpdateShopPayout(at: nat, payout: ShopPayout)
    | AddPinPayment(pin: PinPayment)
    | AddChangePayment(payment: ChangePayment)
    | AddChangePayout(changePayout: ChangePayout)
    // an update or a delete that would leave the table with these rows
    | RewriteSettlements(settlements: seq<Settlement>)
    | RewriteShopPayouts(shopPayouts: seq<ShopPayout>)
    | RewritePinPayments(pins: seq<PinPayment>)
    | RewriteChangePayments(payments: seq<ChangePayment>)
    | RewriteChangePayouts(changePayouts: seq<ChangePayout>)

  /** A terminal settlement or an open refund request holds the order's original stages. */
  predicate Held(db: Db, o: OrderId) {
    || HasTerminal(db.settlements, o)
    || (exists id | id in db.requests ::
          var r := db.requests[id];
          r.order == o && r.kind in {Cancellation, Complaint} && r.status.Active?)
  }

  predicate ClosedStage(m: Milestone) { m.status.StageReleased? || m.status.StageSuperseded? }

  /** The guards and constraints that refuse a change before it happens. */
  predicate Allowed(db: Db, c: Change) {
    match c
    case PutAllocation(_, _, _, a) => 0 <= a.amount && 0 <= a.gridgoFunded
    case PutMilestone(o, stage, m) =>
      0 <= m.amount
      && ((o, stage) in db.milestones && Held(db, o) ==>
            var before := db.milestones[(o, stage)];
            (ClosedStage(before) ==> m == before) && (m.status.StageReleased? ==> before.status.StageReleased?))
    case DeleteMilestone(o, stage) =>
      (o, stage) in db.milestones && Held(db, o) ==> !ClosedStage(db.milestones[(o, stage)])
    case PutRequest(id, r) =>
      id in db.requests ==> db.requests[id].order == r.order && db.requests[id].kind == r.kind
    case AddSettlement(s) =>
      && (s.disposition.DeliveryAdjustment? ==> s.principal == 0 && s.fee == 0 && s.riderEntitlement == 0)
      && (s.disposition.PriceAdjustment? ==>
            s.principal > 0 && s.fee == 0 && s.delivery == 0 && s.riderEntitlement == 0)
      && (forall i | 0 <= i < |db.settlements| ::
            db.settlements[i].order == s.order ==> db.settlements[i].sequence != s.sequence)
    case AddShopPayout(p) =>
      && p.settlement < |db.settlements| && p.order == db.settlements[p.settlement].order
      && p.amount == db.settlements[p.settlement].remainingShop && p.amount > 0
      && (forall i | 0 <= i < |db.shopPayouts| :: db.shopPayouts[i].settlement != p.settlement)
    case UpdateShopPayout(at, p) =>
      && at < |db.shopPayouts| && db.shopPayouts[at].status.PayoutPending?
      && p == db.shopPayouts[at].(status := p.status)
    case AddPinPayment(p) => p.amount > 0 && forall i | 0 <= i < |db.pinPayments| :: db.pinPayments[i].order != p.order
    case AddChangePayment(p) => p.principal > 0 && p.fee >= 0
    case AddChangePayout(p) => p.amount > 0
    // append-only tables, and shop payouts but for the status updates above: no row may change or go
    case RewriteSettlements(rows) => rows == db.settlements
    case RewriteShopPayouts(rows) => rows == db.shopPayouts
    case RewritePinPayments(rows) => rows == db.pinPayments
    case RewriteChangePayments(rows) => rows == db.changePayments
    case RewriteChangePayouts(rows) => rows == db.changePayouts
    case _ => true
  }

  function Apply(db: Db, c: Change): Db {
    match c
    case PutPayment(o, code, status) => db.(payments := db.payments[(o, code) := status])
    case DeletePayment(o, code) =>
      // deleting a payment deletes its allocations with it
      db.(payments := db.payments - {(o, code)},
          allocations := db.allocations - {(o, code, SupplierPrincipal),
                            (o, code, ServiceFeePart), (o, code, DeliveryPassThrough)})
    case PutAllocation(o, code, component, a) => db.(allocations := db.allocations[(o, code, component) := a])
    case DeleteAllocation(o, code, component) => db.(allocations := db.allocations - {(o, code, component)})
    case PutMilestone(o, stage, m) => db.(milestones := db.milestones[(o, stage) := m])
    case DeleteMilestone(o, stage) => db.(milestones := db.milestones - {(o, stage)})
    case PutRequest(id, r) => db.(requests := db.requests[id := r])
    case AddSettlement(s) => db.(settlements := db.settlements + [s])
    case AddShopPayout(p) => db.(shopPayouts := db.shopPayouts + [p])
    case UpdateShopPayout(at, p) => if at < |db.shopPayouts| then db.(shopPayouts := db.shopPayouts[at := p]) else db
    case AddPinPayment(p) => db.(pinPayments := db.pinPayments + [p])
    case AddChangePayment(p) => db.(changePayments := db.changePayments + [p])
    case AddChangePayout(p) => db.(changePayouts := db.changePayouts + [p])
    case RewriteSettlements(rows) => db.(settlements := rows)
    case RewriteShopPayouts(rows) => db.(shopPayouts := rows)
    case RewritePinPayments(rows) => db.(pinPayments := rows)
    case RewriteChangePayments(rows) => db.(changePayments := rows)
    case RewriteChangePayouts(rows) => db.(changePayouts := rows)
  }

  /** The order a change queues for the check at commit; requests and rewrites queue none. */
  function Queued(db: Db, c: Change): Option<OrderId> {
    match c
    case PutPayment(o, _, _) => Some(o)
    case DeletePayment(o, _) => Some(o)
    case PutAllocation(o, _, _, _) => Some(o)
    case DeleteAllocation(o, _, _) => Some(o)
    case PutMilestone(o, _, _) => Some(o)
    case DeleteMilestone(o, _) => Some(o)
    case PutRequest(_, _) => None
    case AddSettlement(s) => Some(s.order)
    case AddShopPayout(p) => Some(p.order)
    case UpdateShopPayout(_, p) => Some(p.order)
    case AddPinPayment(p) => Some(p.order)
    case AddChangePayment(p) => Some(p.order)
    case AddChangePayout(p) => Some(p.order)
    case _ => None
  }

  // ---------- transactions ----------

  /** A transaction so far: its own view of the rows, and the orders to check, or nothing once refused. */
  datatype Session = Session(db: Db, queue: set<OrderId>)

  function Step(session: Session, c: Change): Option<Session> {
    if !Allowed(session.db, c) then None
    else
      var o := Queued(session.db, c);
      Some(Session(Apply(session.db, c), session.queue + (if o.Some? then {o.value} else {})))
  }

  function Steps(session: Session, changes: seq<Change>): Option<Session>
    decreases |changes|
  {
    if changes == [] then Some(session)
    else
      var next := Step(session, changes[0]);
      if next.None? then None else Steps(next.value, changes[1..])
  }

  /** All or nothing: the changes take effect when none is refused and every queued order passes. */
  function Commit(db: Db, changes: seq<Change>): Db {
    var end := Steps(Session(db, {}), changes);
    if end.Some? && (forall o | o in end.value.queue :: FundsOk(end.value.db, o)) then end.value.db else db
  }

  function RunAll(db: Db, transactions: seq<seq<Change>>): Db
    decreases |transactions|
  {
    if transactions == [] then db else RunAll(Commit(db, transactions[0]), transactions[1..])
  }

  // ---------- a change leaves the figures of other orders alone ----------

  lemma SumAppend<R>(rows: seq<R>, row: R, worth: R -> int)
    ensures Sum(rows + [row], worth) == Sum(rows, worth) + worth(row)
  {
    assert (rows + [row])[..|rows|] == rows;
  }

  lemma {:induction false} SumUpdate<R>(rows: seq<R>, at: nat, row: R, worth: R -> int)
    requires at < |rows|
    ensures Sum(rows[at := row], worth) == Sum(rows, worth) - worth(rows[at]) + worth(row)
    decreases |rows|
  {
    var n := |rows| - 1;
    if at == n {
      assert rows[at := row][..n] == rows[..n];
    } else {
      assert rows[at := row][..n] == rows[..n][at := row];
      SumUpdate(rows[..n], at, row, worth);
    }
  }

  lemma SettlementAppend(settlements: seq<Settlement>, s: Settlement, o: OrderId)
    requires s.order != o
    ensures LastTerminal(settlements + [s], o) == LastTerminal(settlements, o)
    ensures MaxRider(settlements + [s], o) == MaxRider(settlements, o)
  {
    assert (settlements + [s])[..|settlements|] == settlements;
  }

  lemma {:induction false} StagesSame(a: Db, b: Db, o: OrderId, codes: seq<StageCode>)
    requires forall code :: ReleasedStage(a, o, code) == ReleasedStage(b, o, code)
    ensures ReleasedStages(a, o, codes) == ReleasedStages(b, o, codes)
  {
    hide ReleasedStage;
    if codes != [] {
      StagesSame(a, b, o, codes[1..]);
    }
  }

  /** Every figure the check reads for an order, side by side. */
  ghost predicate SameFigures(a: Db, b: Db, o: OrderId) {
    && (forall component :: Collected(a, o, component) == Collected(b, o, component)
                            && TopUp(a, o, component) == TopUp(b, o, component))
    && ReleasedStages(a, o, ALL_STAGES) == ReleasedStages(b, o, ALL_STAGES)
    && Sum(a.changePayments, ChangePrincipal(o)) == Sum(b.changePayments, ChangePrincipal(o))
    && Sum(a.changePayments, ChangeFee(o)) == Sum(b.changePayments, ChangeFee(o))
    && Sum(a.pinPayments, PinWorth(o)) == Sum(b.pinPayments, PinWorth(o))
    && Sum(a.changePayouts, ChangePayoutWorth(o)) == Sum(b.changePayouts, ChangePayoutWorth(o))
    && Sum(a.shopPayouts, PayoutWorth(o)) == Sum(b.shopPayouts, PayoutWorth(o))
    && Sum(a.settlements, RefundPrincipal(o)) == Sum(b.settlements, RefundPrincipal(o))
    && Sum(a.settlements, RefundFee(o)) == Sum(b.settlements, RefundFee(o))
    && Sum(a.settlements, RefundDelivery(o)) == Sum(b.settlements, RefundDelivery(o))
    && LastTerminal(a.settlements, o) == LastTerminal(b.settlements, o)
    && MaxRider(a.settlements, o) == MaxRider(b.settlements, o)
  }

  /** The payments and allocations of one order, side by side. */
  ghost predicate SameMoneyIn(a: Db, b: Db, o: OrderId) {
    && (forall code: PaymentCode :: ((o, code) in a.payments <==> (o, code) in b.payments)
                                    && ((o, code) in a.payments ==> a.payments[(o, code)] == b.payments[(o, code)]))
    && (forall code: PaymentCode, part: Component ::
          ((o, code, part) in a.allocations <==> (o, code, part) in b.allocations)
          && ((o, code, part) in a.allocations ==> a.allocations[(o, code, part)] == b.allocations[(o, code, part)]))
  }

  lemma OtherMoneyIn(db: Db, c: Change, o: OrderId)
    requires Allowed(db, c) && Queued(db, c) != Some(o)
    ensures SameMoneyIn(Apply(db, c), db, o)
  {
  }

  lemma OtherCollections(db: Db, c: Change, o: OrderId, component: Component)
    requires Allowed(db, c) && Queued(db, c) != Some(o)
    ensures Collected(Apply(db, c), o, component) == Collected(db, o, component)
    ensures TopUp(Apply(db, c), o, component) == TopUp(db, o, component)
  {
    hide Allowed, Queued, Apply;
    OtherMoneyIn(db, c, o);
  }

  lemma OtherStages(db: Db, c: Change, o: OrderId)
    requires Allowed(db, c) && Queued(db, c) != Some(o)
    ensures ReleasedStages(Apply(db, c), o, ALL_STAGES) == ReleasedStages(db, o, ALL_STAGES)
  {
    StagesSame(Apply(db, c), db, o, ALL_STAGES);
  }

  lemma OtherOrders(db: Db, c: Change, o: OrderId)
    requires Allowed(db, c) && Queued(db, c) != Some(o)
    ensures SameFigures(Apply(db, c), db, o)
  {
    hide Collected, TopUp, ReleasedStages, Sum, LastTerminal, MaxRider;
    OtherStages(db, c, o);
    forall component
      ensures Collected(Apply(db, c), o, component) == Collected(db, o, component)
           && TopUp(Apply(db, c), o, component) == TopUp(db, o, component)
    {
      OtherCollections(db, c, o, component);
    }
    match c {
      case AddSettlement(s) =>
        SumAppend(db.settlements, s, RefundPrincipal(o));
        SumAppend(db.settlements, s, RefundFee(o));
        SumAppend(db.settlements, s, RefundDelivery(o));
        SettlementAppend(db.settlements, s, o);
      case AddShopPayout(p) => SumAppend(db.shopPayouts, p, PayoutWorth(o));
      case UpdateShopPayout(at, p) => SumUpdate(db.shopPayouts, at, p, PayoutWorth(o));
      case AddPinPayment(p) => SumAppend(db.pinPayments, p, PinWorth(o));
      case AddChangePayment(p) =>
        SumAppend(db.changePayments, p, ChangePrincipal(o));
        SumAppend(db.changePayments, p, ChangeFee(o));
      case AddChangePayout(p) => SumAppend(db.changePayouts, p, ChangePayoutWorth(o));
      case _ =>
    }
  }

  lemma SameFiguresSameCheck(a: Db, b: Db, o: OrderId)
    requires SameFigures(a, b, o)
    ensures FundsOk(a, o) <==> FundsOk(b, o)
  {
    hide Collected, TopUp, ReleasedStages, Sum, LastTerminal, MaxRider;
  }

  // ---------- solvency over every run ----------

  ghost predicate Solvent(db: Db) { forall o :: FundsOk(db, o) }

  /** Within a transaction, an order that is not queued still passes if it passed before. */
  lemma {:induction false} UnqueuedStillOk(session: Session, changes: seq<Change>, o: OrderId)
    requires o in session.queue || FundsOk(session.db, o)
    ensures var end := Steps(session, changes);
            end.Some? ==> o in end.value.queue || FundsOk(end.value.db, o)
    decreases |changes|
  {
    hide FundsOk, Allowed, Queued, Apply;
    if changes != [] {
      var next := Step(session, changes[0]);
      if next.Some? {
        if Queued(session.db, changes[0]) != Some(o) {
          OtherOrders(session.db, changes[0], o);
          SameFiguresSameCheck(Apply(session.db, changes[0]), session.db, o);
        }
        UnqueuedStillOk(next.value, changes[1..], o);
      }
    }
  }

  lemma CommitKeepsSolvent(db: Db, changes: seq<Change>)
    requires Solvent(db)
    ensures Solvent(Commit(db, changes))
  {
    hide FundsOk, Steps;
    forall o ensures FundsOk(Commit(db, changes), o) {
      UnqueuedStillOk(Session(db, {}), changes, o);
    }
  }

  lemma {:induction false} RunKeepsSolvent(db: Db, transactions: seq<seq<Change>>)
    requires Solvent(db)
    ensures Solvent(RunAll(db, transactions))
    decreases |transactions|
  {
    hide Solvent, Commit;
    if transactions != [] {
      CommitKeepsSolvent(db, transactions[0]);
      RunKeepsSolvent(Commit(db, transactions[0]), transactions[1..]);
    }
  }

  lemma EmptySolvent()
    ensures Solvent(EMPTY)
  {
    forall o ensures FundsOk(EMPTY, o) {
      NoStageReleased(o, ALL_STAGES);
    }
  }

  // ---------- the check in terms of rows ----------

  ghost function AmountAt(db: Db): ((OrderId, PaymentCode, Component)) -> int {
    (k: (OrderId, PaymentCode, Component)) => if k in db.allocations then db.allocations[k].amount else 0
  }

  ghost function FundedAt(db: Db): ((OrderId, PaymentCode, Component)) -> int {
    (k: (OrderId, PaymentCode, Component)) => if k in db.allocations then db.allocations[k].gridgoFunded else 0
  }

  ghost function NetAt(db: Db): ((OrderId, StageCode)) -> int {
    (k: (OrderId, StageCode)) => if k in db.milestones then db.milestones[k].amount else 0
  }

  /** The allocations to a component whose payment is confirmed. */
  ghost function PaidKeys(db: Db, o: OrderId, part: Component): set<(OrderId, PaymentCode, Component)> {
    set k | k in db.allocations && k.0 == o && k.2 == part
            && (o, k.1) in db.payments && db.payments[(o, k.1)] == Confirmed
  }

  /** Those whose payment is confirmed, or not required while the initial payment is confirmed. */
  ghost function FundedKeys(db: Db, o: OrderId, part: Component): set<(OrderId, PaymentCode, Component)> {
    set k | k in db.allocations && k.0 == o && k.2 == part && (o, k.1) in db.payments
            && (db.payments[(o, k.1)] == Confirmed
                || (db.payments[(o, k.1)] == NotRequired
                    && (o, Initial) in db.payments && db.payments[(o, Initial)] == Confirmed))
  }

  ghost function ReleasedKeys(db: Db, o: OrderId): set<(OrderId, StageCode)> {
    set k | k in db.milestones && k.0 == o && db.milestones[k].status == StageReleased
  }

  /** Add up the rows of a ledger that count. */
  ghost function LedgerSum<R>(rows: seq<R>, counts: R -> bool, worth: R -> int): int {
    SumOver(set i | 0 <= i < |rows| && counts(rows[i]), (i: int) => if 0 <= i < |rows| then worth(rows[i]) else 0)
  }

  ghost function PaidPrincipal(db: Db, o: OrderId): int {
    SumOver(PaidKeys(db, o, SupplierPrincipal), AmountAt(db))
    + LedgerSum(db.changePayments, (r: ChangePayment) => r.order == o, (r: ChangePayment) => r.principal)
  }

  ghost function PaidFee(db: Db, o: OrderId): int {
    SumOver(PaidKeys(db, o, ServiceFeePart), AmountAt(db))
    + LedgerSum(db.changePayments, (r: ChangePayment) => r.order == o, (r: ChangePayment) => r.fee)
  }

  ghost function PaidDelivery(db: Db, o: OrderId): int {
    SumOver(PaidKeys(db, o, DeliveryPassThrough), AmountAt(db))
    + LedgerSum(db.pinPayments, (r: PinPayment) => r.order == o, (r: PinPayment) => r.amount)
  }

  ghost function RefundedPrincipal(db: Db, o: OrderId): int {
    LedgerSum(db.settlements, (r: Settlement) => r.order == o, (r: Settlement) => r.principal)
  }

  ghost function RefundedFee(db: Db, o: OrderId): int {
    LedgerSum(db.settlements, (r: Settlement) => r.order == o, (r: Settlement) => r.fee)
  }

  ghost function RefundedDelivery(db: Db, o: OrderId): int {
    LedgerSum(db.settlements, (r: Settlement) => r.order == o, (r: Settlement) => r.delivery)
  }

  ghost function PaidToShop(db: Db, o: OrderId): int {
    SumOver(ReleasedKeys(db, o), NetAt(db))
    + LedgerSum(db.changePayouts, (r: ChangePayout) => r.order == o, (r: ChangePayout) => r.amount)
  }

  ghost function DueToShop(db: Db, o: OrderId): int {
    LedgerSum(db.shopPayouts,
              (r: ShopPayout) => r.order == o && (r.status == PayoutPending || r.status == PayoutReleased),
              (r: ShopPayout) => r.amount)
  }

  ghost predicate IsTerminal(s: Settlement, o: OrderId) {
    s.order == o && (s.disposition == Cancelled || s.disposition == FulfilledWithRefund)
  }

  /** The terminal settlement of the order with the highest sequence. */
  ghost predicate IsLastTerminal(settlements: seq<Settlement>, o: OrderId, i: int) {
    && 0 <= i < |settlements| && IsTerminal(settlements[i], o)
    && (forall j | 0 <= j < |settlements| && IsTerminal(settlements[j], o) ::
          settlements[j].sequence <= settlements[i].sequence)
    && (forall j | 0 <= j < i && IsTerminal(settlements[j], o) :: settlements[j].sequence < settlements[i].sequence)
  }

  /**
   * Refunds stay within what was paid; delivery refunds leave room for every rider entitlement; and the
   * entitlement of the last terminal settlement fits what is left and covers what the shop got and is due.
   */
  ghost predicate WithinCollection(db: Db, o: OrderId) {
    && RefundedPrincipal(db, o) <= PaidPrincipal(db, o)
    && RefundedFee(db, o) <= PaidFee(db, o)
    && RefundedDelivery(db, o) <= PaidDelivery(db, o)
    && var delivery := PaidDelivery(db, o) + SumOver(FundedKeys(db, o, DeliveryPassThrough), FundedAt(db));
       var principal := PaidPrincipal(db, o) + SumOver(FundedKeys(db, o, SupplierPrincipal), FundedAt(db));
       && RefundedDelivery(db, o) <= delivery
       && (forall i | 0 <= i < |db.settlements| && db.settlements[i].order == o ::
             RefundedDelivery(db, o) + db.settlements[i].riderEntitlement <= delivery)
       && (forall i | IsLastTerminal(db.settlements, o, i) ::
             && RefundedPrincipal(db, o) + db.settlements[i].shopEntitlement <= principal
             && PaidToShop(db, o) + DueToShop(db, o) <= db.settlements[i].shopEntitlement)
  }

  lemma {:induction false} LedgerSumIs<R(!new)>(rows: seq<R>, counts: R -> bool, worth: R -> int, each: R -> int)
    requires forall r :: each(r) == if counts(r) then worth(r) else 0
    ensures Sum(rows, each) == LedgerSum(rows, counts, worth)
    decreases |rows|
  {
    var at := (i: int) => if 0 <= i < |rows| then worth(rows[i]) else 0;
    var all := set i | 0 <= i < |rows| && counts(rows[i]);
    if rows == [] {
      assert all == {};
    } else {
      var n := |rows| - 1;
      var front := rows[..n];
      LedgerSumIs(front, counts, worth, each);
      var before := set i | 0 <= i < |front| && counts(front[i]);
      SumOverSame(before, (i: int) => if 0 <= i < |front| then worth(front[i]) else 0, at);
      if counts(rows[n]) {
        assert all == before + {n};
        SumOverAdd(before, n, at);
      } else {
        assert all == before;
      }
    }
  }

  lemma CollectedMeans(db: Db, o: OrderId, part: Component)
    ensures Collected(db, o, part) == SumOver(PaidKeys(db, o, part), AmountAt(db))
  {
    forall k | k in PaidKeys(db, o, part)
      ensures k in {(o, Initial, part), (o, FinalOnline, part)}
    {
      match k.1 { case Initial => case FinalOnline => }
    }
    SumOverPair(PaidKeys(db, o, part), (o, Initial, part), (o, FinalOnline, part), AmountAt(db));
  }

  lemma TopUpMeans(db: Db, o: OrderId, part: Component)
    ensures TopUp(db, o, part) == SumOver(FundedKeys(db, o, part), FundedAt(db))
  {
    forall k | k in FundedKeys(db, o, part)
      ensures k in {(o, Initial, part), (o, FinalOnline, part)}
    {
      match k.1 { case Initial => case FinalOnline => }
    }
    SumOverPair(FundedKeys(db, o, part), (o, Initial, part), (o, FinalOnline, part), FundedAt(db));
  }

  lemma {:induction false} ReleasedMeans(db: Db, o: OrderId, codes: seq<StageCode>)
    requires forall i, j | 0 <= i < j < |codes| :: codes[i] != codes[j]
    ensures ReleasedStages(db, o, codes)
         == SumOver((set k | k in ReleasedKeys(db, o) && k.1 in codes), NetAt(db))
  {
    var all := set k | k in ReleasedKeys(db, o) && k.1 in codes;
    if codes == [] {
      assert all == {};
    } else {
      var rest := codes[1..];
      ReleasedMeans(db, o, rest);
      var later := set k | k in ReleasedKeys(db, o) && k.1 in rest;
      if (o, codes[0]) in ReleasedKeys(db, o) {
        assert all == later + {(o, codes[0])};
        SumOverAdd(later, (o, codes[0]), NetAt(db));
      } else {
        assert all == later;
      }
    }
  }

  lemma AllReleasedMeans(db: Db, o: OrderId)
    ensures ReleasedStages(db, o, ALL_STAGES) == SumOver(ReleasedKeys(db, o), NetAt(db))
  {
    hide ReleasedStages, SumOver;
    ReleasedMeans(db, o, ALL_STAGES);
    forall code: StageCode
      ensures code in ALL_STAGES
    {
      EveryStage(code);
    }
    assert (set k | k in ReleasedKeys(db, o) && k.1 in ALL_STAGES) == ReleasedKeys(db, o);
  }

  /** The figures of the check, one by one, are the sums over rows. */
  lemma FiguresMean(db: Db, o: OrderId)
    ensures VerifiedPrincipal(db, o) == PaidPrincipal(db, o) && VerifiedFee(db, o) == PaidFee(db, o)
    ensures VerifiedDelivery(db, o) == PaidDelivery(db, o)
    ensures ReleasedToShop(db, o) == PaidToShop(db, o) && OwedToShop(db, o) == DueToShop(db, o)
    ensures Sum(db.settlements, RefundPrincipal(o)) == RefundedPrincipal(db, o)
    ensures Sum(db.settlements, RefundFee(o)) == RefundedFee(db, o)
    ensures Sum(db.settlements, RefundDelivery(o)) == RefundedDelivery(db, o)
  {
    hide Sum, SumOver, LedgerSum, Collected, ReleasedStages;
    CollectedMeans(db, o, SupplierPrincipal);
    CollectedMeans(db, o, ServiceFeePart);
    CollectedMeans(db, o, DeliveryPassThrough);
    AllReleasedMeans(db, o);
    LedgerSumIs(db.changePayments, (r: ChangePayment) => r.order == o, (r: ChangePayment) => r.principal,
                ChangePrincipal(o));
    LedgerSumIs(db.changePayments, (r: ChangePayment) => r.order == o, (r: ChangePayment) => r.fee, ChangeFee(o));
    LedgerSumIs(db.pinPayments, (r: PinPayment) => r.order == o, (r: PinPayment) => r.amount, PinWorth(o));
    LedgerSumIs(db.changePayouts, (r: ChangePayout) => r.order == o, (r: ChangePayout) => r.amount,
                ChangePayoutWorth(o));
    LedgerSumIs(db.shopPayouts,
                (r: ShopPayout) => r.order == o && (r.status == PayoutPending || r.status == PayoutReleased),
                (r: ShopPayout) => r.amount, PayoutWorth(o));
    LedgerSumIs(db.settlements, (r: Settlement) => r.order == o, (r: Settlement) => r.principal, RefundPrincipal(o));
    LedgerSumIs(db.settlements, (r: Settlement) => r.order == o, (r: Settlement) => r.fee, RefundFee(o));
    LedgerSumIs(db.settlements, (r: Settlement) => r.order == o, (r: Settlement) => r.delivery, RefundDelivery(o));
  }

  lemma {:induction false} MaxRiderMeans(settlements: seq<Settlement>, o: OrderId, bound: int)
    ensures MaxRider(settlements, o) <= bound <==>
              0 <= bound && forall i | 0 <= i < |settlements| && settlements[i].order == o ::
                settlements[i].riderEntitlement <= bound
    decreases |settlements|
  {
    if settlements != [] {
      var n := |settlements| - 1;
      MaxRiderMeans(settlements[..n], o, bound);
      assert forall i | 0 <= i < n :: settlements[..n][i] == settlements[i];
    }
  }

  lemma SameLast(settlements: seq<Settlement>, o: OrderId, i: int)
    requires settlements != []
    requires var n := |settlements| - 1;
             !IsTerminal(settlements[n], o)
             || exists j | 0 <= j < n ::
                  IsTerminal(settlements[j], o) && settlements[n].sequence <= settlements[j].sequence
    ensures IsLastTerminal(settlements, o, i) <==> IsLastTerminal(settlements[..|settlements| - 1], o, i)
  {
    var n := |settlements| - 1;
    assert forall j | 0 <= j < n :: settlements[..n][j] == settlements[j];
  }

  lemma {:induction false} LastTerminalMeans(settlements: seq<Settlement>, o: OrderId)
    ensures LastTerminal(settlements, o).None? ==> forall i :: !IsLastTerminal(settlements, o, i)
    ensures LastTerminal(settlements, o).Some? ==>
              (exists i :: IsLastTerminal(settlements, o, i))
              && forall i | IsLastTerminal(settlements, o, i) :: settlements[i] == LastTerminal(settlements, o).value
    decreases |settlements|
  {
    TerminalFound(settlements, o);
    if settlements != [] {
      var n := |settlements| - 1;
      var front, last := settlements[..n], settlements[n];
      LastTerminalMeans(front, o);
      TerminalFound(front, o);
      assert forall i | 0 <= i < n :: front[i] == settlements[i];
      var before := LastTerminal(front, o);
      if last.order != o || IsAdjustment(last) || (before.Some? && last.sequence <= before.value.sequence) {
        forall i
          ensures IsLastTerminal(settlements, o, i) <==> IsLastTerminal(front, o, i)
        {
          SameLast(settlements, o, i);
        }
      } else {
        assert IsLastTerminal(settlements, o, n);
      }
    }
  }

  /** The check at commit is the property over rows. */
  lemma FundsOkMeaning(db: Db, o: OrderId)
    ensures FundsOk(db, o) <==> WithinCollection(db, o)
  {
    hide Sum, SumOver, LedgerSum, Collected, TopUp, ReleasedStages, LastTerminal, MaxRider, VerifiedPrincipal,
         VerifiedFee, VerifiedDelivery, ReleasedToShop, OwedToShop, PaidPrincipal, PaidFee, PaidDelivery, PaidToShop,
         DueToShop, RefundedPrincipal, RefundedFee, RefundedDelivery;
    FiguresMean(db, o);
    TopUpMeans(db, o, DeliveryPassThrough);
    TopUpMeans(db, o, SupplierPrincipal);
    LastTerminalMeans(db.settlements, o);
    MaxRiderMeans(db.settlements, o,
                  PaidDelivery(db, o) + TopUp(db, o, DeliveryPassThrough) - RefundedDelivery(db, o));
  }

  lemma {:induction false} NoStageReleased(o: OrderId, codes: seq<StageCode>)
    ensures ReleasedStages(EMPTY, o, codes) == 0
  {
    if codes != [] {
      NoStageReleased(o, codes[1..]);
    }
  }

  /** The settlement whose entitlement counts is the order's last terminal one by sequence. */
  lemma {:induction false} TerminalFound(settlements: seq<Settlement>, o: OrderId)
    ensures LastTerminal(settlements, o).Some? <==> HasTerminal(settlements, o)
    ensures LastTerminal(settlements, o).Some? ==>
              var last := LastTerminal(settlements, o).value;
              && last in settlements && last.order == o && !IsAdjustment(last)
              && forall i | 0 <= i < |settlements| && settlements[i].order == o && !IsAdjustment(settlements[i]) ::
                   settlements[i].sequence <= last.sequence
    decreases |settlements|
  {
    if settlements != [] {
      var n := |settlements| - 1;
      TerminalFound(settlements[..n], o);
      assert forall i | 0 <= i < n :: settlements[..n][i] == settlements[i];
    }
  }

  /**
   * After any run of committed transactions, refunds never exceed what was paid, and once an order is
   * settled, refunds plus everything paid or due to its shop stay within the principal paid and topped up.
   */
  lemma EveryRunSolvent(transactions: seq<seq<Change>>, o: OrderId)
    ensures var db := RunAll(EMPTY, transactions);
            && WithinCollection(db, o)
            && ((exists i | 0 <= i < |db.settlements| :: IsTerminal(db.settlements[i], o)) ==>
                  RefundedPrincipal(db, o) + PaidToShop(db, o) + DueToShop(db, o)
                  <= PaidPrincipal(db, o) + SumOver(FundedKeys(db, o, SupplierPrincipal), FundedAt(db)))
  {
    hide RunAll, WithinCollection, FundsOk;
    EmptySolvent();
    RunKeepsSolvent(EMPTY, transactions);
    var db := RunAll(EMPTY, transactions);
    FundsOkMeaning(db, o);
    if exists i | 0 <= i < |db.settlements| :: IsTerminal(db.settlements[i], o) {
      SettledWithin(db, o);
    }
  }

  lemma SettledWithin(db: Db, o: OrderId)
    requires WithinCollection(db, o) && exists i | 0 <= i < |db.settlements| :: IsTerminal(db.settlements[i], o)
    ensures RefundedPrincipal(db, o) + PaidToShop(db, o) + DueToShop(db, o)
         <= PaidPrincipal(db, o) + SumOver(FundedKeys(db, o, SupplierPrincipal), FundedAt(db))
  {
    hide LastTerminal, SumOver, PaidPrincipal, PaidToShop, DueToShop, RefundedPrincipal, RefundedDelivery;
    LastTerminalMeans(db.settlements, o);
    TerminalFound(db.settlements, o);
    var i :| 0 <= i < |db.settlements| && IsTerminal(db.settlements[i], o);
    assert !IsAdjustment(db.settlements[i]);
    var last :| IsLastTerminal(db.settlements, o, last);
  }

  /** Money that was never confirmed is never refunded, whatever was allocated to it. */
  lemma NothingConfirmed(transactions: seq<seq<Change>>, o: OrderId)
    requires var db := RunAll(EMPTY, transactions);
             && (forall code | (o, code) in db.payments :: db.payments[(o, code)] != Confirmed)
             && (forall i | 0 <= i < |db.changePayments| :: db.changePayments[i].order != o)
    ensures var db := RunAll(EMPTY, transactions);
            && (forall i | 0 <= i < |db.settlements| && db.settlements[i].order == o ::
                  db.settlements[i].principal == 0 && db.settlements[i].fee == 0)
            && RefundedDelivery(db, o)
               <= LedgerSum(db.pinPayments, (r: PinPayment) => r.order == o, (r: PinPayment) => r.amount)
  {
    hide RunAll;
    var db := RunAll(EMPTY, transactions);
    EveryRunSolvent(transactions, o);
    assert PaidKeys(db, o, SupplierPrincipal) == {} && PaidKeys(db, o, ServiceFeePart) == {}
           && PaidKeys(db, o, DeliveryPassThrough) == {};
    NoLedgerRow(db.changePayments, (r: ChangePayment) => r.order == o, (r: ChangePayment) => r.principal);
    NoLedgerRow(db.changePayments, (r: ChangePayment) => r.order == o, (r: ChangePayment) => r.fee);
    forall i | 0 <= i < |db.settlements| && db.settlements[i].order == o
      ensures db.settlements[i].principal == 0 && db.settlements[i].fee == 0
    {
      LedgerRowWithin(db.settlements, (r: Settlement) => r.order == o, (r: Settlement) => r.principal, i);
      LedgerRowWithin(db.settlements, (r: Settlement) => r.order == o, (r: Settlement) => r.fee, i);
    }
  }

  lemma NoLedgerRow<R(!new)>(rows: seq<R>, counts: R -> bool, worth: R -> int)
    requires forall i | 0 <= i < |rows| :: !counts(rows[i])
    ensures LedgerSum(rows, counts, worth) == 0
  {
    assert (set i | 0 <= i < |rows| && counts(rows[i])) == {};
  }

  lemma LedgerRowWithin<R(!new)>(rows: seq<R>, counts: R -> bool, worth: R -> int, i: nat)
    requires i < |rows| && counts(rows[i]) && forall r :: 0 <= worth(r)
    ensures worth(rows[i]) <= LedgerSum(rows, counts, worth)
  {
    SumOverAtLeast((set j | 0 <= j < |rows| && counts(rows[j])), i,
                   (j: int) => if 0 <= j < |rows| then worth(rows[j]) else 0);
  }

  // ---------- what the guards refuse, what a change writes, what a commit does ----------

  ghost predicate PutRow<K(!new), V>(a: map<K, V>, k: K, v: V, b: map<K, V>) {
    k in b && b[k] == v && forall j | j != k :: (j in a <==> j in b) && (j in a ==> b[j] == a[j])
  }

  ghost predicate CutRow<K(!new), V>(a: map<K, V>, k: K, b: map<K, V>) {
    k !in b && forall j | j != k :: (j in a <==> j in b) && (j in a ==> b[j] == a[j])
  }

  ghost predicate AddedRow<R>(a: seq<R>, row: R, b: seq<R>) {
    |b| == |a| + 1 && b[|a|] == row && forall i | 0 <= i < |a| :: b[i] == a[i]
  }

  /** The rows a change writes, table by table; every other table stays as it is. */
  ghost predicate Writes(a: Db, c: Change, b: Db) {
    WritesMoneyIn(a, c, b) && WritesStages(a, c, b) && WritesLedgers(a, c, b) && WritesShopPayouts(a, c, b)
  }

  ghost predicate WritesMoneyIn(a: Db, c: Change, b: Db) {
    && (c.PutPayment? ==> PutRow(a.payments, (c.order, c.code), c.status, b.payments))
    && (c.DeletePayment? ==>
          && CutRow(a.payments, (c.order, c.code), b.payments)
          && (forall k :: k in b.allocations <==> k in a.allocations && !(k.0 == c.order && k.1 == c.code))
          && (forall k | k in b.allocations :: b.allocations[k] == a.allocations[k]))
    && (!c.PutPayment? && !c.DeletePayment? ==> b.payments == a.payments)
    && (c.PutAllocation? ==> PutRow(a.allocations, (c.order, c.code, c.component), c.allocation, b.allocations))
    && (c.DeleteAllocation? ==> CutRow(a.allocations, (c.order, c.code, c.component), b.allocations))
    && (!c.PutAllocation? && !c.DeleteAllocation? && !c.DeletePayment? ==> b.allocations == a.allocations)
  }

  ghost predicate WritesStages(a: Db, c: Change, b: Db) {
    && (c.PutMilestone? ==> PutRow(a.milestones, (c.order, c.stage), c.milestone, b.milestones))
    && (c.DeleteMilestone? ==> CutRow(a.milestones, (c.order, c.stage), b.milestones))
    && (!c.PutMilestone? && !c.DeleteMilestone? ==> b.milestones == a.milestones)
    && (if c.PutRequest? then PutRow(a.requests, c.id, c.request, b.requests) else b.requests == a.requests)
  }

  ghost predicate WritesLedgers(a: Db, c: Change, b: Db) {
    && (if c.AddSettlement? then AddedRow(a.settlements, c.settlement, b.settlements)
        else b.settlements == if c.RewriteSettlements? then c.settlements else a.settlements)
    && (if c.AddPinPayment? then AddedRow(a.pinPayments, c.pin, b.pinPayments)
        else b.pinPayments == if c.RewritePinPayments? then c.pins else a.pinPayments)
    && (if c.AddChangePayment? then AddedRow(a.changePayments, c.payment, b.changePayments)
        else b.changePayments == if c.RewriteChangePayments? then c.payments else a.changePayments)
    && (if c.AddChangePayout? then AddedRow(a.changePayouts, c.changePayout, b.changePayouts)
        else b.changePayouts == if c.RewriteChangePayouts? then c.changePayouts else a.changePayouts)
  }

  ghost predicate WritesShopPayouts(a: Db, c: Change, b: Db) {
    if c.AddShopPayout? then AddedRow(a.shopPayouts, c.payout, b.shopPayouts)
    else if c.UpdateShopPayout? then
      && |b.shopPayouts| == |a.shopPayouts|
      && (forall i | 0 <= i < |a.shopPayouts| :: b.shopPayouts[i] == if i == c.at then c.payout else a.shopPayouts[i])
    else b.shopPayouts == if c.RewriteShopPayouts? then c.shopPayouts else a.shopPayouts
  }

  lemma ApplyWrites(db: Db, c: Change)
    ensures Writes(db, c, Apply(db, c))
  {
    hide WritesMoneyIn, WritesStages, WritesLedgers, WritesShopPayouts;
    ApplyWritesMoneyIn(db, c);
    ApplyWritesRows(db, c);
  }

  lemma ApplyWritesRows(db: Db, c: Change)
    ensures WritesStages(db, c, Apply(db, c))
    ensures WritesLedgers(db, c, Apply(db, c))
    ensures WritesShopPayouts(db, c, Apply(db, c))
  {
  }

  lemma ApplyWritesMoneyIn(db: Db, c: Change)
    ensures WritesMoneyIn(db, c, Apply(db, c))
  {
    match c {
      case DeletePayment(o, code) =>
        forall k: (OrderId, PaymentCode, Component)
          ensures k in Apply(db, c).allocations <==> k in db.allocations && !(k.0 == o && k.1 == code)
        {
          match k.2 { case SupplierPrincipal => case ServiceFeePart => case DeliveryPassThrough => }
        }
      case _ =>
    }
  }

  ghost predicate IsRewrite(c: Change) {
    || c.RewriteSettlements? || c.RewriteShopPayouts? || c.RewritePinPayments?
    || c.RewriteChangePayments? || c.RewriteChangePayouts?
  }

  /** A terminal settlement, or an open cancellation or complaint. */
  ghost predicate StagesHeld(db: Db, o: OrderId) {
    || (exists i | 0 <= i < |db.settlements| :: IsTerminal(db.settlements[i], o))
    || (exists id | id in db.requests ::
          && db.requests[id].order == o && db.requests[id].status == Active
          && (db.requests[id].kind == Cancellation || db.requests[id].kind == Complaint))
  }

  /** What every guard keeps over one change of the rows from `a` to `b`. */
  ghost predicate Respects(a: Db, b: Db) {
    && RespectsMoneyIn(a, b) && RespectsStages(a, b) && RespectsSettlements(a, b)
    && RespectsShopPayouts(a, b) && RespectsLedgers(a, b)
  }

  /** New allocations are not negative, and a request keeps its order and its kind. */
  ghost predicate RespectsMoneyIn(a: Db, b: Db) {
    && (forall k | k in b.allocations && !(k in a.allocations && a.allocations[k] == b.allocations[k]) ::
          0 <= b.allocations[k].amount && 0 <= b.allocations[k].gridgoFunded)
    && (forall id | id in a.requests ::
          id in b.requests
          && b.requests[id].order == a.requests[id].order && b.requests[id].kind == a.requests[id].kind)
  }

  /** No row of these ledgers changes or goes, new amounts are positive, and an order pays for one pin. */
  ghost predicate RespectsLedgers(a: Db, b: Db) {
    && a.pinPayments <= b.pinPayments
    && (forall i | |a.pinPayments| <= i < |b.pinPayments| ::
          b.pinPayments[i].amount > 0 && forall j | 0 <= j < i :: b.pinPayments[j].order != b.pinPayments[i].order)
    && a.changePayments <= b.changePayments
    && (forall i | |a.changePayments| <= i < |b.changePayments| ::
          b.changePayments[i].principal > 0 && b.changePayments[i].fee >= 0)
    && a.changePayouts <= b.changePayouts
    && (forall i | |a.changePayouts| <= i < |b.changePayouts| :: b.changePayouts[i].amount > 0)
  }

  /** While the stages of an order are held, no released or superseded one changes and none is newly released. */
  ghost predicate RespectsStages(a: Db, b: Db) {
    && (forall k | k in b.milestones && !(k in a.milestones && a.milestones[k] == b.milestones[k]) ::
          0 <= b.milestones[k].amount)
    && (forall k | k in a.milestones && StagesHeld(a, k.0) ::
          && (a.milestones[k].status == StageReleased || a.milestones[k].status == StageSuperseded ==>
                k in b.milestones && b.milestones[k] == a.milestones[k])
          && (k in b.milestones && b.milestones[k].status == StageReleased ==> a.milestones[k].status == StageReleased))
  }

  /** Settlements are only appended, each with a sequence of its own and the figures its disposition permits. */
  ghost predicate RespectsSettlements(a: Db, b: Db) {
    && a.settlements <= b.settlements
    && (forall i | |a.settlements| <= i < |b.settlements| ::
          var s := b.settlements[i];
          && (s.disposition == DeliveryAdjustment ==> s.principal == 0 && s.fee == 0 && s.riderEntitlement == 0)
          && (s.disposition == PriceAdjustment ==>
                s.principal > 0 && s.fee == 0 && s.delivery == 0 && s.riderEntitlement == 0)
          && (forall j | 0 <= j < i :: b.settlements[j].order == s.order ==> b.settlements[j].sequence != s.sequence))
  }

  /** A payout owes what its settlement left to the shop, once; only the status of a pending one may change. */
  ghost predicate RespectsShopPayouts(a: Db, b: Db) {
    && |a.shopPayouts| <= |b.shopPayouts|
    && (forall i | 0 <= i < |a.shopPayouts| && b.shopPayouts[i] != a.shopPayouts[i] ::
          && a.shopPayouts[i].status == PayoutPending
          && b.shopPayouts[i].settlement == a.shopPayouts[i].settlement
          && b.shopPayouts[i].order == a.shopPayouts[i].order && b.shopPayouts[i].amount == a.shopPayouts[i].amount)
    && (forall i | |a.shopPayouts| <= i < |b.shopPayouts| ::
          var p := b.shopPayouts[i];
          && p.settlement < |b.settlements| && p.order == b.settlements[p.settlement].order
          && p.amount == b.settlements[p.settlement].remainingShop && p.amount > 0
          && (forall j | 0 <= j < i :: b.shopPayouts[j].settlement != p.settlement))
  }

  /** The guards refuse a change exactly when its effect on the rows is one of the forbidden ones. */
  lemma GuardsMeaning(db: Db, c: Change)
    ensures Allowed(db, c) ==> Respects(db, Apply(db, c))
    ensures !IsRewrite(c) && Apply(db, c) != db && Respects(db, Apply(db, c)) ==> Allowed(db, c)
    ensures IsRewrite(c) ==> (Allowed(db, c) <==> Apply(db, c) == db)
    ensures c.PutMilestone? && Apply(db, c) == db && 0 <= c.milestone.amount ==> Allowed(db, c)
  {
    hide RespectsMoneyIn, RespectsStages, RespectsSettlements, RespectsShopPayouts, RespectsLedgers, Held, Allowed,
         Apply;
    MoneyInGuards(db, c);
    StageGuards(db, c);
    SettlementGuards(db, c);
    ShopPayoutGuards(db, c);
    LedgerGuards(db, c);
    RewriteGuards(db, c);
  }

  lemma MoneyInGuards(db: Db, c: Change)
    ensures Allowed(db, c) ==> RespectsMoneyIn(db, Apply(db, c))
    ensures (c.PutAllocation? || c.PutRequest?) && Apply(db, c) != db && RespectsMoneyIn(db, Apply(db, c)) ==>
              Allowed(db, c)
    ensures c.PutPayment? || c.DeletePayment? || c.DeleteAllocation? ==> Allowed(db, c)
  {
    hide Held;
  }

  lemma StageGuards(db: Db, c: Change)
    ensures Allowed(db, c) ==> RespectsStages(db, Apply(db, c))
    ensures (c.PutMilestone? || c.DeleteMilestone?) && Apply(db, c) != db && RespectsStages(db, Apply(db, c)) ==>
              Allowed(db, c)
    ensures c.PutMilestone? && Apply(db, c) == db && 0 <= c.milestone.amount ==> Allowed(db, c)
  {
    hide Held, StagesHeld;
    HeldMeans(db);
    if c.PutMilestone? {
      var k := (c.order, c.stage);
      assert Apply(db, c).milestones[k] == c.milestone;
    } else if c.DeleteMilestone? {
      assert (c.order, c.stage) !in Apply(db, c).milestones;
    } else {
      assert Apply(db, c).milestones == db.milestones;
    }
  }

  lemma SettlementGuards(db: Db, c: Change)
    ensures Allowed(db, c) ==> RespectsSettlements(db, Apply(db, c))
    ensures c.AddSettlement? && RespectsSettlements(db, Apply(db, c)) ==> Allowed(db, c)
  {
    hide Held;
    if c.AddSettlement? {
      assert Apply(db, c).settlements[|db.settlements|] == c.settlement;
    }
  }

  lemma ShopPayoutGuards(db: Db, c: Change)
    ensures Allowed(db, c) ==> RespectsShopPayouts(db, Apply(db, c))
    ensures c.AddShopPayout? && RespectsShopPayouts(db, Apply(db, c)) ==> Allowed(db, c)
    ensures c.UpdateShopPayout? && Apply(db, c) != db && RespectsShopPayouts(db, Apply(db, c)) ==> Allowed(db, c)
  {
    hide Held;
    if c.AddShopPayout? {
      assert Apply(db, c).shopPayouts[|db.shopPayouts|] == c.payout;
    } else if !c.UpdateShopPayout? {
      assert Allowed(db, c) ==> Apply(db, c).shopPayouts == db.shopPayouts;
    }
  }

  lemma LedgerGuards(db: Db, c: Change)
    ensures Allowed(db, c) ==> RespectsLedgers(db, Apply(db, c))
    ensures (c.AddPinPayment? || c.AddChangePayment? || c.AddChangePayout?) && RespectsLedgers(db, Apply(db, c)) ==>
              Allowed(db, c)
  {
    hide Held;
    if c.AddPinPayment? {
      assert Apply(db, c).pinPayments[|db.pinPayments|] == c.pin;
    } else if c.AddChangePayment? {
      assert Apply(db, c).changePayments[|db.changePayments|] == c.payment;
    } else if c.AddChangePayout? {
      assert Apply(db, c).changePayouts[|db.changePayouts|] == c.changePayout;
    }
  }

  lemma RewriteGuards(db: Db, c: Change)
    ensures IsRewrite(c) ==> (Allowed(db, c) <==> Apply(db, c) == db)
  {
  }

  lemma HeldMeans(db: Db)
    ensures forall o :: Held(db, o) <==> StagesHeld(db, o)
  {
  }

  /** The states a list of changes passes through when none of them is refused. */
  ghost predicate Follows(db: Db, changes: seq<Change>, at: seq<Db>) {
    && |at| == |changes| + 1 && at[0] == db
    && (forall i | 0 <= i < |changes| :: Allowed(at[i], changes[i]) && at[i + 1] == Apply(at[i], changes[i]))
  }

  lemma {:induction false} FollowsSteps(session: Session, changes: seq<Change>, at: seq<Db>)
    requires Follows(session.db, changes, at)
    ensures var end := Steps(session, changes); end.Some? && end.value.db == at[|changes|]
    decreases |changes|
  {
    hide Allowed, Apply, Queued;
    if changes != [] {
      assert Allowed(at[0], changes[0]) && at[1] == Apply(at[0], changes[0]);
      assert Follows(at[1], changes[1..], at[1..]) by {
        forall i | 0 <= i < |changes| - 1
          ensures Allowed(at[1..][i], changes[1..][i]) && at[1..][i + 1] == Apply(at[1..][i], changes[1..][i])
        {
          assert Allowed(at[i + 1], changes[i + 1]) && at[i + 2] == Apply(at[i + 1], changes[i + 1]);
        }
      }
      FollowsSteps(Step(session, changes[0]).value, changes[1..], at[1..]);
    }
  }

  lemma {:induction false} StepsFollow(session: Session, changes: seq<Change>) returns (at: seq<Db>)
    requires Steps(session, changes).Some?
    ensures Follows(session.db, changes, at)
    decreases |changes|
  {
    hide Allowed, Apply, Queued;
    at := [session.db];
    if changes != [] {
      var rest := StepsFollow(Step(session, changes[0]).value, changes[1..]);
      at := at + rest;
      forall i | 0 <= i < |changes|
        ensures Allowed(at[i], changes[i]) && at[i + 1] == Apply(at[i], changes[i])
      {
        if i > 0 {
          assert Allowed(rest[i - 1], changes[1..][i - 1]) && rest[i] == Apply(rest[i - 1], changes[1..][i - 1]);
        }
      }
    }
  }

  /**
   * From any state within what was collected: the transaction takes effect exactly when no change is
   * refused on the way and every order is still within what was collected; otherwise nothing happens.
   */
  lemma CommitMeaning(db: Db, changes: seq<Change>)
    requires forall o :: WithinCollection(db, o)
    ensures forall at | Follows(db, changes, at) ::
              && ((forall o :: WithinCollection(at[|changes|], o)) ==> Commit(db, changes) == at[|changes|])
              && (!(forall o :: WithinCollection(at[|changes|], o)) ==> Commit(db, changes) == db)
    ensures Commit(db, changes) != db ==> exists at :: Follows(db, changes, at)
  {
    hide FundsOk, WithinCollection, Steps, Allowed, Apply;
    var end := Steps(Session(db, {}), changes);
    forall at | Follows(db, changes, at)
      ensures (forall o :: WithinCollection(at[|changes|], o)) ==> Commit(db, changes) == at[|changes|]
      ensures !(forall o :: WithinCollection(at[|changes|], o)) ==> Commit(db, changes) == db
    {
      FollowsSteps(Session(db, {}), changes, at);
      forall o
        ensures FundsOk(end.value.db, o) <==> WithinCollection(at[|changes|], o)
        ensures o in end.value.queue || FundsOk(end.value.db, o)
      {
        FundsOkMeaning(db, o);
        FundsOkMeaning(end.value.db, o);
        UnqueuedStillOk(Session(db, {}), changes, o);
      }
    }
    if end.Some? {
      var at := StepsFollow(Session(db, {}), changes);
    }
  }

  // ---------- what a settlement freezes ----------

  /** The released and superseded stages of an order, by stage code. */
  function ClosedStages(db: Db, o: OrderId): map<StageCode, Milestone> {
    map code | code in ALL_STAGES && (o, code) in db.milestones && ClosedStage(db.milestones[(o, code)])
      :: db.milestones[(o, code)]
  }

  /** The shop payouts that are no longer pending stay at their place, as they are. */
  ghost predicate CompletedKept(a: Db, b: Db) {
    && |a.shopPayouts| <= |b.shopPayouts|
    && (forall i | 0 <= i < |a.shopPayouts| ::
          && b.shopPayouts[i].amount == a.shopPayouts[i].amount
          && b.shopPayouts[i].order == a.shopPayouts[i].order
          && (!a.shopPayouts[i].status.PayoutPending? ==> b.shopPayouts[i] == a.shopPayouts[i]))
  }

  /** What no later change to a settled order can undo. */
  ghost predicate Preserved(a: Db, b: Db, o: OrderId) {
    && a.settlements <= b.settlements
    && CompletedKept(a, b)
    && (HasTerminal(a.settlements, o) ==>
          forall code | code in ClosedStages(a, o) ::
            code in ClosedStages(b, o) && ClosedStages(b, o)[code] == ClosedStages(a, o)[code])
  }

  lemma ChangePreserves(db: Db, c: Change, o: OrderId)
    requires Allowed(db, c)
    ensures Preserved(db, Apply(db, c), o)
  {
  }

  lemma PreservedTransitive(a: Db, b: Db, c: Db, o: OrderId)
    requires Preserved(a, b, o) && Preserved(b, c, o)
    ensures Preserved(a, c, o)
  {
    hide ClosedStages;
    if HasTerminal(a.settlements, o) {
      TerminalStays(a, b, o);
    }
  }

  lemma TerminalStays(a: Db, b: Db, o: OrderId)
    requires a.settlements <= b.settlements && HasTerminal(a.settlements, o)
    ensures HasTerminal(b.settlements, o)
  {
    var i :| 0 <= i < |a.settlements| && a.settlements[i].order == o && !IsAdjustment(a.settlements[i]);
    assert b.settlements[i] == a.settlements[i];
  }

  lemma {:induction false} StepsPreserve(session: Session, changes: seq<Change>, o: OrderId)
    ensures var end := Steps(session, changes);
            end.Some? ==> Preserved(session.db, end.value.db, o)
    decreases |changes|
  {
    hide Preserved, Allowed, Apply, Queued;
    if changes == [] {
      PreservedSelf(session.db, o);
    } else {
      var next := Step(session, changes[0]);
      if next.Some? {
        ChangePreserves(session.db, changes[0], o);
        StepsPreserve(next.value, changes[1..], o);
        var end := Steps(next.value, changes[1..]);
        if end.Some? {
          PreservedTransitive(session.db, next.value.db, end.value.db, o);
        }
      }
    }
  }

  lemma PreservedSelf(db: Db, o: OrderId)
    ensures Preserved(db, db, o)
  {
  }

  /**
   * Whatever transactions follow: settlements are only ever appended, a shop payout that is no
   * longer pending never changes again, and the released and superseded stages of an order with a
   * terminal settlement stay exactly as they are.
   */
  lemma {:induction false} SettledStaysSettled(db: Db, transactions: seq<seq<Change>>, o: OrderId)
    ensures Preserved(db, RunAll(db, transactions), o)
    decreases |transactions|
  {
    hide Preserved, Steps, FundsOk;
    PreservedSelf(db, o);
    if transactions != [] {
      var next := Commit(db, transactions[0]);
      StepsPreserve(Session(db, {}), transactions[0], o);
      SettledStaysSettled(next, transactions[1..], o);
      PreservedTransitive(db, next, RunAll(next, transactions[1..]), o);
    }
  }
}
