/**
 * Decisions on supplier approval cases: versioned, idempotent by request, and bringing the
 * supplier's service lines down and back up with the account.
 */
module ApprovalCases {
  import opened Outcomes

  type Id = s: string | s != "" witness "id"

  datatype Status = Pending | Approved | Rejected | Suspended

  datatype Action = Approve | Reject | Suspend | Restore

  /** The status a decision needs. */
  function From(a: Action): Status {
    match a case Approve => Pending case Reject => Pending case Suspend => Approved case Restore => Suspended
  }

  /** The status a decision gives. */
  function To(a: Action): Status {
    match a case Approve => Approved case Reject => Rejected case Suspend => Suspended case Restore => Approved
  }

  // ---------- rows ----------

  datatype Case = Case(
    id: Id, userId: Id, status: Status, version: nat, revision: nat, decidedAt: Option<int>, decidedBy: Option<Id>,
    updatedAt: int, rejectionReason: Option<string>, suspensionReason: Option<string>)

  datatype LineState = Draft | PendingVerification | Live | Down | Withdrawn

  /** `rate` and `turnaround` are present when they are usable numbers; reasons are kept trimmed. */
  datatype Service = Service(
    id: Id, supplierId: Id, state: LineState, categoryActive: bool, priced: bool, rate: Option<int>,
    turnaround: Option<real>, suspendedAt: Option<int>, suspendedBy: Option<Id>, suspendReason: Option<string>,
    previousState: Option<LineState>, suspensionCaseId: Option<Id>, verifiedAt: Option<int>, verifiedBy: Option<Id>,
    updatedAt: int)

  datatype Shop = Shop(lat: Option<real>, lng: Option<real>, labelled: bool)

  datatype Profile = Profile(named: bool, hasContact: bool, shop: Option<Shop>)

  datatype Snapshot = Snapshot(action: Action, version: nat, published: seq<Id>, suspended: seq<Id>, restored: seq<Id>)

  /** Applicant and system events carry no decision snapshot. */
  datatype Event = Event(
    caseId: Id, revision: nat, fromStatus: Option<Status>, toStatus: Status, actor: Option<Id>, byApprover: bool,
    reason: Option<string>, requestId: Id, snapshot: Option<Snapshot>, createdAt: int)

  /** `suppliers` are the users who hold the supplier membership. */
  datatype Db = Db(
    cases: map<Id, Case>, services: seq<Service>, events: seq<Event>, suppliers: set<Id>, profiles: map<Id, Profile>)

  predicate UniqueLines(services: seq<Service>) {
    forall i, j | 0 <= i < j < |services| :: services[i].id != services[j].id
  }

  /** Keys of the tables: cases by id, one supplier case a user, lines by id. */
  ghost predicate Keyed(db: Db) {
    && (forall id | id in db.cases :: db.cases[id].id == id)
    && (forall a, b | a in db.cases && b in db.cases && db.cases[a].userId == db.cases[b].userId :: a == b)
    && (forall i, j | 0 <= i < j < |db.services| :: db.services[i].id != db.services[j].id)
  }

  predicate Distinct(ids: seq<Id>) { forall i, j | 0 <= i < j < |ids| :: ids[i] != ids[j] }

  /** The ids a request names, each once, in the order first named. */
  function Deduplicated(ids: seq<Id>): (r: seq<Id>)
    ensures forall i, j | 0 <= i < j < |r| :: r[i] != r[j]
    ensures forall id :: id in r <==> id in ids
  {
    if ids == [] then []
    else
      var front, last := Deduplicated(ids[..|ids| - 1]), ids[|ids| - 1];
      if last in front then front else front + [last]
  }

  ghost predicate InRequestOrder(ids: seq<Id>, r: seq<Id>) {
    forall i, j | 0 <= i < j < |r| :: NamedBefore(ids, r[i], r[j])
  }

  ghost predicate NamedBefore(ids: seq<Id>, a: Id, b: Id) {
    exists k | 0 <= k < |ids| :: ids[k] == a && forall l | 0 <= l <= k :: ids[l] != b
  }

  lemma {:induction false} DeduplicatedInOrder(ids: seq<Id>, i: nat, j: nat)
    requires i < j < |Deduplicated(ids)|
    ensures NamedBefore(ids, Deduplicated(ids)[i], Deduplicated(ids)[j])
    decreases |ids|
  {
    var front, r := ids[..|ids| - 1], Deduplicated(ids);
    var before := Deduplicated(front);
    if j < |before| {
      DeduplicatedInOrder(front, i, j);
    } else {
      assert before[i] in front && r[j] !in front;
    }
    var k :| 0 <= k < |front| && front[k] == r[i] && forall l | 0 <= l <= k :: front[l] != r[j];
    assert ids[k] == r[i] && forall l | 0 <= l <= k :: ids[l] == front[l];
  }

  // ---------- reading the tables ----------

  /** The ids of the lines that pass a test, in table order. */
  function IdsWhere(services: seq<Service>, test: Service -> bool): seq<Id> {
    if services == [] then []
    else
      var n := |services| - 1;
      IdsWhere(services[..n], test) + (if test(services[n]) then [services[n].id] else [])
  }

  function LiveOf(user: Id): Service -> bool { (s: Service) => s.supplierId == user && s.state.Live? }

  function Chosen(ids: seq<Id>): Service -> bool { (s: Service) => s.id in ids }

  function PublishableOf(user: Id): Service -> bool {
    (s: Service) =>
      s.supplierId == user && s.state.PendingVerification? && s.categoryActive && s.priced
      && s.rate.Some? && s.rate.value >= 0 && s.turnaround.Some? && s.turnaround.value > 0.0
  }

  function Find(services: seq<Service>, id: Id): Option<Service> {
    if services == [] then None else if services[0].id == id then Some(services[0]) else Find(services[1..], id)
  }

  function Prior(events: seq<Event>, requestId: Id): Option<Event> {
    if events == [] then None else if events[0].requestId == requestId then Some(events[0])
    else Prior(events[1..], requestId)
  }

  datatype Missing = SupplierProfile | ShopName | ContactName | ShopLocation | ReviewReadyServiceLine

  predicate Located(shop: Option<Shop>) {
    shop.Some? && shop.value.labelled && shop.value.lat.Some? && shop.value.lng.Some?
    && -90.0 <= shop.value.lat.value <= 90.0 && -180.0 <= shop.value.lng.value <= 180.0
  }

  function MissingOf(db: Db, user: Id): seq<Missing> {
    (if user !in db.profiles then [SupplierProfile]
     else
       var p := db.profiles[user];
       (if p.named then [] else [ShopName]) + (if p.hasContact then [] else [ContactName])
       + (if Located(p.shop) then [] else [ShopLocation]))
    + (if IdsWhere(db.services, PublishableOf(user)) == [] then [ReviewReadyServiceLine] else [])
  }

  const LEGACY_ACCOUNT_SUSPEND_REASON := "supplier_verification_suspended"

  const LEGACY_SUSPENSION_MATCH_MS := 5000

  /** The suspend or reject event of the case that an untagged line can have gone down with. */
  predicate Matches(e: Event, c: Case, s: Service) {
    && e.caseId == c.id && e.byApprover && (e.toStatus.Suspended? || e.toStatus.Rejected?)
    && e.actor == s.suspendedBy && e.reason == s.suspendReason && s.suspendedAt.Some?
    && -LEGACY_SUSPENSION_MATCH_MS <= e.createdAt - s.suspendedAt.value <= LEGACY_SUSPENSION_MATCH_MS
  }

  /** The line went down with the account rather than on its own. */
  predicate SuspendedWithAccount(events: seq<Event>, c: Case, found: Option<Service>) {
    found.Some?
    && var s := found.value;
       s.supplierId == c.userId && s.state.Down?
       && if s.suspensionCaseId.Some? then s.suspensionCaseId.value == c.id
          else
            s.suspendReason == Some(LEGACY_ACCOUNT_SUSPEND_REASON)
            || (s.suspendReason.Some? && s.suspendedAt.Some? && exists e | e in events :: Matches(e, c, s))
  }

  function NotRestorable(db: Db, c: Case, ids: seq<Id>): seq<Id> {
    if ids == [] then []
    else
      var n := |ids| - 1;
      NotRestorable(db, c, ids[..n])
      + (if SuspendedWithAccount(db.events, c, Find(db.services, ids[n])) then [] else [ids[n]])
  }

  // ---------- what a decision does to lines ----------

  function SuspendedLine(s: Service, caseId: Id, actor: Id, at: int, reason: Option<string>): Service {
    s.(previousState := Some(Live), suspensionCaseId := Some(caseId), state := Down, suspendedAt := Some(at),
       suspendedBy := Some(actor), suspendReason := reason, updatedAt := at)
  }

  function RestoredLine(s: Service, at: int): Service {
    s.(state := if s.previousState.Some? then s.previousState.value else Live, suspendedAt := None, suspendedBy := None,
       suspendReason := None, previousState := None, suspensionCaseId := None, updatedAt := at)
  }

  function PublishedLine(s: Service, actor: Id, at: int): Service {
    s.(state := Live, verifiedAt := Some(at), verifiedBy := Some(actor), suspendedAt := None, suspendedBy := None,
       suspendReason := None, updatedAt := at)
  }

  /** Each line that passes the test changed, every other line as it was. */
  function Changed(services: seq<Service>, test: Service -> bool, change: Service -> Service): (r: seq<Service>)
    ensures |r| == |services|
    ensures forall i | 0 <= i < |services| :: r[i] == if test(services[i]) then change(services[i]) else services[i]
  {
    seq(|services|, i requires 0 <= i < |services| => if test(services[i]) then change(services[i]) else services[i])
  }

  function Suspending(caseId: Id, actor: Id, at: int, reason: Option<string>): Service -> Service {
    (s: Service) => SuspendedLine(s, caseId, actor, at, reason)
  }

  function Restoring(at: int): Service -> Service { (s: Service) => RestoredLine(s, at) }

  function Publishing(actor: Id, at: int): Service -> Service { (s: Service) => PublishedLine(s, actor, at) }

  // ---------- a decision ----------

  datatype Command = Command(
    caseId: Id, action: Action, expectedVersion: nat, requestId: Id, reason: Option<string>, restoreIds: seq<Id>,
    actor: Id, at: int)

  datatype DecisionError =
    | RequestIdConflict
    | CaseNotFound
    | RoleMismatch
    | AlreadyDecided
    | InvalidTransition
    | Stale
    | SupplierIncomplete(missing: seq<Missing>)
    | ServiceNotRestorable(ids: seq<Id>)

  datatype Decision = Decision(
    approvalCase: Option<Case>, event: Event, published: seq<Id>, suspended: seq<Id>, restored: seq<Id>, replayed: bool)

  type Result = Outcome<Decision, DecisionError>

  function RestoreIds(cmd: Command): seq<Id> { if cmd.action.Restore? then cmd.restoreIds else [] }

  function Refusal(db: Db, c: Case, cmd: Command): Option<DecisionError> {
    if c.userId !in db.suppliers then Some(RoleMismatch)
    else if c.status != From(cmd.action) then
      Some(if c.version != cmd.expectedVersion then AlreadyDecided else InvalidTransition)
    else if c.version != cmd.expectedVersion then Some(Stale)
    else if cmd.action.Approve? && MissingOf(db, c.userId) != [] then Some(SupplierIncomplete(MissingOf(db, c.userId)))
    else if NotRestorable(db, c, RestoreIds(cmd)) != [] then
      Some(ServiceNotRestorable(NotRestorable(db, c, RestoreIds(cmd))))
    else None
  }

  function DecidedCase(c: Case, cmd: Command): Case {
    c.(status := To(cmd.action), version := c.version + 1, decidedAt := Some(cmd.at), decidedBy := Some(cmd.actor),
       updatedAt := cmd.at, rejectionReason := if cmd.action.Reject? then cmd.reason else None,
       suspensionReason := if cmd.action.Suspend? then cmd.reason else None)
  }

  function PublishableIds(db: Db, c: Case): seq<Id> { IdsWhere(db.services, PublishableOf(c.userId)) }

  function DecidedLines(db: Db, c: Case, cmd: Command): seq<Service> {
    match cmd.action
    case Approve => Changed(db.services, Chosen(PublishableIds(db, c)), Publishing(cmd.actor, cmd.at))
    case Suspend => Changed(db.services, LiveOf(c.userId), Suspending(c.id, cmd.actor, cmd.at, cmd.reason))
    case Restore => Changed(db.services, Chosen(cmd.restoreIds), Restoring(cmd.at))
    case Reject => db.services
  }

  function DecisionEvent(db: Db, c: Case, cmd: Command): Event {
    var published := if cmd.action.Approve? then IdsWhere(db.services, Chosen(PublishableIds(db, c))) else [];
    var suspended := if cmd.action.Suspend? then IdsWhere(db.services, LiveOf(c.userId)) else [];
    Event(c.id, c.revision, Some(c.status), To(cmd.action), Some(cmd.actor), true, cmd.reason, cmd.requestId,
          Some(Snapshot(cmd.action, c.version + 1, published, suspended, RestoreIds(cmd))), cmd.at)
  }

  /** The answer to a decision that was made, now or when its request was first sent. */
  function Answer(c: Option<Case>, e: Event, replayed: bool): Decision
    requires e.snapshot.Some?
  {
    Decision(c, e, e.snapshot.value.published, e.snapshot.value.suspended, e.snapshot.value.restored, replayed)
  }

  predicate SameDecision(e: Event, cmd: Command) {
    e.caseId == cmd.caseId && e.snapshot.Some? && e.snapshot.value.action == cmd.action
  }

  function Decided(db: Db, cmd: Command): (Db, Result) {
    var prior := Prior(db.events, cmd.requestId);
    if prior.Some? then
      var found := if cmd.caseId in db.cases then Some(db.cases[cmd.caseId]) else None;
      (db, if SameDecision(prior.value, cmd) then Ok(Answer(found, prior.value, true)) else Raise(RequestIdConflict))
    else if cmd.caseId !in db.cases then (db, Raise(CaseNotFound))
    else
      var c := db.cases[cmd.caseId];
      var refusal := Refusal(db, c, cmd);
      if refusal.Some? then (db, Raise(refusal.value))
      else
        var after, event := DecidedCase(c, cmd), DecisionEvent(db, c, cmd);
        (db.(cases := db.cases[c.id := after], services := DecidedLines(db, c, cmd), events := db.events + [event]),
         Ok(Answer(Some(after), event, false)))
  }

  function RunAll(db: Db, cmds: seq<Command>): Db
    decreases |cmds|
  {
    if cmds == [] then db else RunAll(Decided(db, cmds[0]).0, cmds[1..])
  }

  lemma NoIds(services: seq<Service>, test: Service -> bool)
    ensures IdsWhere(services[..0], test) == []
  {
  }

  lemma NextId(services: seq<Service>, i: nat, test: Service -> bool)
    requires i < |services|
    ensures IdsWhere(services[..i + 1], test)
         == IdsWhere(services[..i], test) + (if test(services[i]) then [services[i].id] else [])
  {
    assert services[..i + 1][..i] == services[..i];
  }

  // ---------- the store ----------

  class Store {
    var cases: map<Id, Case>
    var services: seq<Service>
    var events: seq<Event>
    const suppliers: set<Id>
    const profiles: map<Id, Profile>

    constructor (db: Db)
      ensures Contents() == db
    {
      cases, services, events, suppliers, profiles := db.cases, db.services, db.events, db.suppliers, db.profiles;
    }

    function Contents(): Db
      reads this
    {
      Db(cases, services, events, suppliers, profiles)
    }

    method SuspendServices(c: Case, actor: Id, at: int, reason: Option<string>) returns (suspended: seq<Id>)
      modifies this`services
      ensures services == Changed(old(services), LiveOf(c.userId), Suspending(c.id, actor, at, reason))
      ensures suspended == IdsWhere(old(services), LiveOf(c.userId))
    {
      hide IdsWhere;
      suspended := [];
      NoIds(services, LiveOf(c.userId));
      ghost var before, after := services, Changed(services, LiveOf(c.userId), Suspending(c.id, actor, at, reason));
      var i := 0;
      while i < |services|
        invariant 0 <= i <= |services| == |before|
        invariant forall j | 0 <= j < i :: services[j] == after[j]
        invariant forall j | i <= j < |services| :: services[j] == before[j]
        invariant suspended == IdsWhere(before[..i], LiveOf(c.userId))
      {
        var service := services[i];
        NextId(before, i, LiveOf(c.userId));
        if service.supplierId == c.userId && service.state.Live? {
          services := services[i := SuspendedLine(service, c.id, actor, at, reason)];
          suspended := suspended + [service.id];
        }
        i := i + 1;
      }
      assert before[..i] == before;
    }

    method PublishServices(selected: seq<Id>, actor: Id, at: int) returns (published: seq<Id>)
      modifies this`services
      ensures services == Changed(old(services), Chosen(selected), Publishing(actor, at))
      ensures published == IdsWhere(old(services), Chosen(selected))
    {
      hide IdsWhere;
      published := [];
      NoIds(services, Chosen(selected));
      ghost var before, after := services, Changed(services, Chosen(selected), Publishing(actor, at));
      var i := 0;
      while i < |services|
        invariant 0 <= i <= |services| == |before|
        invariant forall j | 0 <= j < i :: services[j] == after[j]
        invariant forall j | i <= j < |services| :: services[j] == before[j]
        invariant published == IdsWhere(before[..i], Chosen(selected))
      {
        var service := services[i];
        NextId(before, i, Chosen(selected));
        if service.id in selected {
          services := services[i := PublishedLine(service, actor, at)];
          published := published + [service.id];
        }
        i := i + 1;
      }
      assert before[..i] == before;
    }

    /** Position of a line, as `find` walks the table. */
    method IndexOf(id: Id) returns (at: nat)
      requires Find(services, id).Some?
      ensures at < |services| && services[at].id == id
    {
      at := 0;
      while services[at].id != id
        invariant 0 <= at < |services| && Find(services[at..], id).Some?
        decreases |services| - at
      {
        assert services[at..][1..] == services[at + 1..];
        at := at + 1;
      }
    }

    method RestoreServices(ids: seq<Id>, at: int) returns (restored: seq<Id>)
      requires UniqueLines(services) && Distinct(ids)
      requires forall id | id in ids :: Find(services, id).Some?
      modifies this`services
      ensures services == Changed(old(services), Chosen(ids), Restoring(at))
      ensures restored == ids
    {
      restored := [];
      var i := 0;
      while i < |ids|
        invariant 0 <= i <= |ids|
        invariant services == Changed(old(services), Chosen(ids[..i]), Restoring(at))
        invariant restored == ids[..i]
      {
        FindChanged(old(services), Chosen(ids[..i]), Restoring(at), ids[i]);
        var k := IndexOf(ids[i]);
        services := services[k := RestoredLine(services[k], at)];
        restored := restored + [ids[i]];
        assert ids[..i + 1] == ids[..i] + [ids[i]];
        i := i + 1;
      }
      assert ids[..i] == ids;
    }

    method Decide(cmd: Command) returns (r: Result)
      requires Keyed(Contents()) && Distinct(cmd.restoreIds)
      modifies this
      ensures (Contents(), r) == Decided(old(Contents()), cmd)
    {
      hide IdsWhere, NotRestorable, MissingOf, Find, Prior;
      var prior := Prior(events, cmd.requestId);
      if prior.Some? {
        if prior.value.caseId != cmd.caseId || prior.value.snapshot.None?
           || prior.value.snapshot.value.action != cmd.action {
          return Raise(RequestIdConflict);
        }
        var found := if cmd.caseId in cases then Some(cases[cmd.caseId]) else None;
        return Ok(Answer(found, prior.value, true));
      }
      if cmd.caseId !in cases {
        return Raise(CaseNotFound);
      }
      var c := cases[cmd.caseId];
      if c.userId !in suppliers {
        return Raise(RoleMismatch);
      }
      if c.status != From(cmd.action) {
        if c.version != cmd.expectedVersion {
          return Raise(AlreadyDecided);
        }
        return Raise(InvalidTransition);
      }
      if c.version != cmd.expectedVersion {
        return Raise(Stale);
      }
      if cmd.action.Approve? {
        var missing := MissingOf(Contents(), c.userId);
        if missing != [] {
          return Raise(SupplierIncomplete(missing));
        }
      }
      var notRestorable := NotRestorable(Contents(), c, RestoreIds(cmd));
      if notRestorable != [] {
        return Raise(ServiceNotRestorable(notRestorable));
      }
      var publishable := PublishableIds(Contents(), c);
      RestorableFound(Contents(), c, RestoreIds(cmd));
      var fromStatus := c.status;
      c := DecidedCase(c, cmd);
      cases := cases[c.id := c];
      var published, suspended := [], [];
      if cmd.action.Approve? {
        published := PublishServices(publishable, cmd.actor, cmd.at);
      }
      if cmd.action.Suspend? {
        suspended := SuspendServices(c, cmd.actor, cmd.at, cmd.reason);
      }
      NoneChosen(services, Restoring(cmd.at));
      var restored := RestoreServices(RestoreIds(cmd), cmd.at);
      var snapshot := Snapshot(cmd.action, c.version, published, suspended, restored);
      var event := Event(c.id, c.revision, Some(fromStatus), c.status, Some(cmd.actor), true, cmd.reason, cmd.requestId,
                         Some(snapshot), cmd.at);
      events := events + [event];
      r := Ok(Decision(Some(c), event, published, suspended, restored, false));
    }
  }

  lemma NoneChosen(services: seq<Service>, change: Service -> Service)
    ensures Changed(services, Chosen([]), change) == services
  {
  }

  lemma FindChanged(services: seq<Service>, test: Service -> bool, change: Service -> Service, id: Id)
    requires forall s :: change(s).id == s.id
    ensures Find(Changed(services, test, change), id).Some? <==> Find(services, id).Some?
  {
    if services != [] {
      assert Changed(services, test, change)[1..] == Changed(services[1..], test, change);
      FindChanged(services[1..], test, change, id);
    }
  }

  lemma RestorableFound(db: Db, c: Case, ids: seq<Id>)
    requires NotRestorable(db, c, ids) == []
    ensures forall id | id in ids :: SuspendedWithAccount(db.events, c, Find(db.services, id))
  {
    if ids != [] {
      RestorableFound(db, c, ids[..|ids| - 1]);
    }
  }

  // ---------- one decision ----------

  lemma LinesKeepKeys(db: Db, c: Case, cmd: Command)
    ensures var after := DecidedLines(db, c, cmd);
            |after| == |db.services|
            && forall i | 0 <= i < |after| ::
                 after[i].id == db.services[i].id && after[i].supplierId == db.services[i].supplierId
  {
    hide IdsWhere;
  }

  predicate Fresh(db: Db, cmd: Command) {
    var r := Decided(db, cmd).1;
    r.Ok? && !r.value.replayed
  }

  /** A decision that was not made changes nothing. */
  lemma NothingDecided(db: Db, cmd: Command)
    requires !Fresh(db, cmd)
    ensures Decided(db, cmd).0 == db
  {
    hide Refusal, DecidedLines, DecisionEvent;
  }

  /** What a decision that was made leaves behind. */
  lemma OneDecision(db: Db, cmd: Command)
    requires Keyed(db) && Fresh(db, cmd)
    ensures Prior(db.events, cmd.requestId).None? && cmd.caseId in db.cases
    ensures var c := db.cases[cmd.caseId];
            && Refusal(db, c, cmd).None? && c.status == From(cmd.action) && c.version == cmd.expectedVersion
            && Decided(db, cmd).0 == db.(cases := db.cases[c.id := DecidedCase(c, cmd)],
                                         services := DecidedLines(db, c, cmd),
                                         events := db.events + [DecisionEvent(db, c, cmd)])
  {
    hide DecidedLines, DecisionEvent, MissingOf, NotRestorable;
  }

  lemma {:induction false} SomeIds(services: seq<Service>, test: Service -> bool)
    ensures IdsWhere(services, test) != [] <==> exists i | 0 <= i < |services| :: test(services[i])
    decreases |services|
  {
    if services != [] {
      var n := |services| - 1;
      SomeIds(services[..n], test);
      assert forall i | 0 <= i < n :: services[..n][i] == services[i];
    }
  }

  // ---------- what a decision checks, row by row ----------

  ghost predicate Unused(events: seq<Event>, requestId: Id) { forall e | e in events :: e.requestId != requestId }

  /** The first event that carries the request. */
  ghost predicate FirstUse(events: seq<Event>, requestId: Id, k: int) {
    && 0 <= k < |events| && events[k].requestId == requestId
    && forall j | 0 <= j < k :: events[j].requestId != requestId
  }

  ghost predicate StatusFits(action: Action, status: Status) {
    || (action == Approve && status == Pending) || (action == Reject && status == Pending)
    || (action == Suspend && status == Approved) || (action == Restore && status == Suspended)
  }

  ghost predicate ReviewReady(s: Service, user: Id) {
    && s.supplierId == user && s.state == PendingVerification && s.categoryActive && s.priced
    && s.rate.Some? && 0 <= s.rate.value && s.turnaround.Some? && 0.0 < s.turnaround.value
  }

  ghost predicate OnTheMap(shop: Shop) {
    && shop.labelled
    && shop.lat.Some? && -90.0 <= shop.lat.value && shop.lat.value <= 90.0
    && shop.lng.Some? && -180.0 <= shop.lng.value && shop.lng.value <= 180.0
  }

  /** What a supplier still lacks before approval. */
  ghost predicate Lacks(db: Db, user: Id, m: Missing) {
    match m
    case SupplierProfile => user !in db.profiles
    case ShopName => user in db.profiles && !db.profiles[user].named
    case ContactName => user in db.profiles && !db.profiles[user].hasContact
    case ShopLocation =>
      user in db.profiles && !(db.profiles[user].shop.Some? && OnTheMap(db.profiles[user].shop.value))
    case ReviewReadyServiceLine => forall i | 0 <= i < |db.services| :: !ReviewReady(db.services[i], user)
  }

  /** The line is tagged with the case, or untagged and went down with the legacy reason or beside a case event. */
  ghost predicate WentDownWith(events: seq<Event>, c: Case, s: Service) {
    && s.supplierId == c.userId && s.state == Down
    && (s.suspensionCaseId.Some? ==> s.suspensionCaseId.value == c.id)
    && (s.suspensionCaseId.None? ==>
          || s.suspendReason == Some("supplier_verification_suspended")
          || exists e | e in events ::
               && e.caseId == c.id && e.byApprover && (e.toStatus == Suspended || e.toStatus == Rejected)
               && e.actor == s.suspendedBy && s.suspendReason.Some? && e.reason == s.suspendReason
               && s.suspendedAt.Some? && e.createdAt - 5000 <= s.suspendedAt.value <= e.createdAt + 5000)
  }

  /** The first line with this id went down with the account. */
  ghost predicate Restorable(db: Db, c: Case, id: Id) {
    exists i | 0 <= i < |db.services| ::
      && db.services[i].id == id && (forall j | 0 <= j < i :: db.services[j].id != id)
      && WentDownWith(db.events, c, db.services[i])
  }

  lemma {:induction false} PriorMeans(events: seq<Event>, requestId: Id)
    ensures Prior(events, requestId).None? <==> Unused(events, requestId)
    ensures forall k | FirstUse(events, requestId, k) :: Prior(events, requestId) == Some(events[k])
    ensures Prior(events, requestId).Some? ==> exists k :: FirstUse(events, requestId, k)
    decreases |events|
  {
    if events != [] {
      PriorMeans(events[1..], requestId);
      forall k | FirstUse(events, requestId, k)
        ensures Prior(events, requestId) == Some(events[k])
      {
        assert k > 0 ==> FirstUse(events[1..], requestId, k - 1);
      }
      if events[0].requestId == requestId {
        assert FirstUse(events, requestId, 0);
      } else if Prior(events, requestId).Some? {
        var k :| FirstUse(events[1..], requestId, k);
        assert FirstUse(events, requestId, k + 1) by {
          assert forall j | 0 < j <= k :: events[j] == events[1..][j - 1];
        }
      }
      assert forall e :: e in events <==> e == events[0] || e in events[1..];
    }
  }

  lemma {:induction false} FindMeans(services: seq<Service>, id: Id)
    ensures Find(services, id).None? ==> forall i | 0 <= i < |services| :: services[i].id != id
    ensures forall i | 0 <= i < |services| && services[i].id == id && (forall j | 0 <= j < i :: services[j].id != id) ::
              Find(services, id) == Some(services[i])
    ensures Find(services, id).Some? ==>
              exists i | 0 <= i < |services| :: services[i].id == id && forall j | 0 <= j < i :: services[j].id != id
    decreases |services|
  {
    if services != [] && services[0].id != id {
      var rest := services[1..];
      FindMeans(rest, id);
      assert forall j | 0 < j < |services| :: services[j] == rest[j - 1];
      forall i | 0 <= i < |services| && services[i].id == id && (forall j | 0 <= j < i :: services[j].id != id)
        ensures Find(services, id) == Some(services[i])
      {
        assert rest[i - 1].id == id && forall j | 0 <= j < i - 1 :: rest[j].id == services[j + 1].id;
      }
      if Find(services, id).Some? {
        var i :| 0 <= i < |rest| && rest[i].id == id && forall j | 0 <= j < i :: rest[j].id != id;
        assert services[i + 1].id == id;
      }
    }
  }

  lemma RestorableMeans(db: Db, c: Case, id: Id)
    ensures SuspendedWithAccount(db.events, c, Find(db.services, id)) <==> Restorable(db, c, id)
  {
    hide Find;
    FindMeans(db.services, id);
    var found := Find(db.services, id);
    if found.Some? {
      SuspendedMeans(db.events, c, found.value);
    }
  }

  lemma SuspendedMeans(events: seq<Event>, c: Case, s: Service)
    ensures SuspendedWithAccount(events, c, Some(s)) <==> WentDownWith(events, c, s)
  {
  }

  /** The order of the approval checklist. */
  ghost function Place(m: Missing): nat {
    match m
    case SupplierProfile => 0 case ShopName => 1 case ContactName => 2 case ShopLocation => 3
    case ReviewReadyServiceLine => 4
  }

  ghost predicate InChecklistOrder(missing: seq<Missing>) {
    forall i, j | 0 <= i < j < |missing| :: Place(missing[i]) < Place(missing[j])
  }

  lemma MissingMeans(db: Db, user: Id)
    ensures forall m :: m in MissingOf(db, user) <==> Lacks(db, user, m)
    ensures InChecklistOrder(MissingOf(db, user))
    ensures MissingOf(db, user) == [] <==> forall m :: !Lacks(db, user, m)
  {
    hide IdsWhere;
    SomeIds(db.services, PublishableOf(user));
    if MissingOf(db, user) != [] {
      assert MissingOf(db, user)[0] in MissingOf(db, user);
    }
  }

  /** A decision is made exactly when nothing the code checks stands in its way. */
  lemma MadeExactlyWhen(db: Db, cmd: Command)
    ensures Fresh(db, cmd) <==>
              && Unused(db.events, cmd.requestId) && cmd.caseId in db.cases
              && var c := db.cases[cmd.caseId];
                 && c.userId in db.suppliers && StatusFits(cmd.action, c.status) && c.version == cmd.expectedVersion
                 && (cmd.action == Approve ==> forall m :: !Lacks(db, c.userId, m))
                 && (cmd.action == Restore ==> forall id | id in cmd.restoreIds :: Restorable(db, c, id))
  {
    hide SuspendedWithAccount, DecidedLines, DecisionEvent, DecidedCase, MissingOf, NotRestorable, Lacks, Restorable,
         Unused, Prior;
    PriorMeans(db.events, cmd.requestId);
    if cmd.caseId in db.cases {
      var c := db.cases[cmd.caseId];
      MissingMeans(db, c.userId);
      NamedNotRestorable(db, c, RestoreIds(cmd));
    }
  }

  /** The ids a restore is refused for are the ones it names that cannot come back, in the order it names them. */
  lemma {:induction false} NamedNotRestorable(db: Db, c: Case, ids: seq<Id>)
    ensures forall id :: id in NotRestorable(db, c, ids) <==> id in ids && !Restorable(db, c, id)
    ensures NotRestorable(db, c, ids) == [] <==> forall id | id in ids :: Restorable(db, c, id)
    decreases |ids|
  {
    hide SuspendedWithAccount, Restorable;
    if ids != [] {
      var n := |ids| - 1;
      NamedNotRestorable(db, c, ids[..n]);
      RestorableMeans(db, c, ids[n]);
      assert forall id :: id in ids <==> id in ids[..n] || id == ids[n];
      if NotRestorable(db, c, ids) != [] {
        assert NotRestorable(db, c, ids)[0] in NotRestorable(db, c, ids);
      }
    }
  }

  lemma {:induction false} NamedInRequestOrder(db: Db, c: Case, ids: seq<Id>, i: nat, j: nat)
    requires (forall k, l | 0 <= k < l < |ids| :: ids[k] != ids[l]) && i < j < |NotRestorable(db, c, ids)|
    ensures NamedBefore(ids, NotRestorable(db, c, ids)[i], NotRestorable(db, c, ids)[j])
    decreases |ids|
  {
    hide SuspendedWithAccount;
    var front, r := ids[..|ids| - 1], NotRestorable(db, c, ids);
    var before := NotRestorable(db, c, front);
    NamedNotRestorable(db, c, front);
    if j < |before| {
      NamedInRequestOrder(db, c, front, i, j);
    } else {
      assert before[i] in before && r[j] !in front;
    }
    var k :| 0 <= k < |front| && front[k] == r[i] && forall l | 0 <= l <= k :: front[l] != r[j];
    assert ids[k] == r[i] && forall l | 0 <= l <= k :: ids[l] == front[l];
  }

  lemma RefusedInOrder(db: Db, c: Case, ids: seq<Id>)
    ensures Distinct(ids) ==> InRequestOrder(ids, NotRestorable(db, c, ids))
  {
    hide NotRestorable, NamedBefore;
    if Distinct(ids) {
      forall i, j | 0 <= i < j < |NotRestorable(db, c, ids)|
        ensures NamedBefore(ids, NotRestorable(db, c, ids)[i], NotRestorable(db, c, ids)[j])
      {
        NamedInRequestOrder(db, c, ids, i, j);
      }
    }
  }

  /** The command reached a case that it may decide. */
  ghost predicate Reached(db: Db, cmd: Command) {
    Unused(db.events, cmd.requestId) && cmd.caseId in db.cases && db.cases[cmd.caseId].userId in db.suppliers
  }

  /** Each refusal has its own exact condition, names what is wrong, and leaves the tables alone. */
  lemma RefusalExplained(db: Db, cmd: Command, e: DecisionError)
    ensures var (after, r) := Decided(db, cmd);
            r == Raise(e) ==>
              && after == db
              && (e == RequestIdConflict <==> !Unused(db.events, cmd.requestId))
              && (e == CaseNotFound <==> Unused(db.events, cmd.requestId) && cmd.caseId !in db.cases)
              && (e == RoleMismatch <==>
                    && Unused(db.events, cmd.requestId) && cmd.caseId in db.cases
                    && db.cases[cmd.caseId].userId !in db.suppliers)
              && (Reached(db, cmd) ==>
                    var c := db.cases[cmd.caseId];
                    && (e == AlreadyDecided <==> !StatusFits(cmd.action, c.status) && c.version != cmd.expectedVersion)
                    && (e == InvalidTransition <==>
                          !StatusFits(cmd.action, c.status) && c.version == cmd.expectedVersion)
                    && (e == Stale <==> StatusFits(cmd.action, c.status) && c.version != cmd.expectedVersion)
                    && (e.SupplierIncomplete? ==>
                          && cmd.action == Approve && InChecklistOrder(e.missing)
                          && forall m :: m in e.missing <==> Lacks(db, c.userId, m))
                    && (e.ServiceNotRestorable? ==>
                          && cmd.action == Restore
                          && (Distinct(cmd.restoreIds) ==> InRequestOrder(cmd.restoreIds, e.ids))
                          && forall id :: id in e.ids <==> id in cmd.restoreIds && !Restorable(db, c, id)))
  {
    hide SuspendedWithAccount, DecidedLines, DecisionEvent, DecidedCase, MissingOf, NotRestorable, Lacks, Restorable,
         Unused, Prior;
    PriorMeans(db.events, cmd.requestId);
    if cmd.caseId in db.cases {
      MissingMeans(db, db.cases[cmd.caseId].userId);
      NamedNotRestorable(db, db.cases[cmd.caseId], RestoreIds(cmd));
      RefusedInOrder(db, db.cases[cmd.caseId], RestoreIds(cmd));
    }
  }

  /**
   * What a decision leaves of the case and the log: the status moves along the transition table, the
   * version by one, and the event tells both ends of the move, who made it, and the lines it named.
   */
  lemma DecisionMade(db: Db, cmd: Command)
    requires Keyed(db) && Fresh(db, cmd)
    ensures cmd.caseId in db.cases && cmd.caseId in Decided(db, cmd).0.cases
    ensures var c, c' := db.cases[cmd.caseId], Decided(db, cmd).0.cases[cmd.caseId];
            && (cmd.action == Approve ==> c.status == Pending && c'.status == Approved)
            && (cmd.action == Reject ==> c.status == Pending && c'.status == Rejected)
            && (cmd.action == Suspend ==> c.status == Approved && c'.status == Suspended)
            && (cmd.action == Restore ==> c.status == Suspended && c'.status == Approved)
            && c'.version == c.version + 1 && c'.revision == c.revision && c'.id == c.id && c'.userId == c.userId
            && c'.decidedAt == Some(cmd.at) && c'.decidedBy == Some(cmd.actor) && c'.updatedAt == cmd.at
            && c'.rejectionReason == (if cmd.action == Reject then cmd.reason else None)
            && c'.suspensionReason == (if cmd.action == Suspend then cmd.reason else None)
    ensures var after := Decided(db, cmd).0;
            && after.cases.Keys == db.cases.Keys
            && (forall id | id in db.cases && id != cmd.caseId :: after.cases[id] == db.cases[id])
            && after.suppliers == db.suppliers && after.profiles == db.profiles
    ensures var c, answer := db.cases[cmd.caseId], Decided(db, cmd).1.value;
            var e := answer.event;
            && Decided(db, cmd).0.events == db.events + [e]
            && e.caseId == cmd.caseId && e.revision == c.revision && e.fromStatus == Some(c.status)
            && e.toStatus == Decided(db, cmd).0.cases[cmd.caseId].status
            && e.actor == Some(cmd.actor) && e.byApprover && e.reason == cmd.reason && e.requestId == cmd.requestId
            && e.createdAt == cmd.at
            && e.snapshot
               == Some(Snapshot(cmd.action, c.version + 1, answer.published, answer.suspended, answer.restored))
            && answer.approvalCase == Some(Decided(db, cmd).0.cases[cmd.caseId])
            && (cmd.action != Approve ==> answer.published == [])
            && (cmd.action != Suspend ==> answer.suspended == [])
            && answer.restored == (if cmd.action == Restore then cmd.restoreIds else [])
  {
    hide DecidedLines, MissingOf, NotRestorable, IdsWhere;
  }

  lemma KeyedStays(db: Db, cmd: Command)
    requires Keyed(db)
    ensures Keyed(Decided(db, cmd).0)
  {
    hide DecidedLines, DecisionEvent, Refusal, Decided;
    if Fresh(db, cmd) {
      OneDecision(db, cmd);
      LinesKeepKeys(db, db.cases[cmd.caseId], cmd);
      var after := Decided(db, cmd).0;
      forall a, b | a in after.cases && b in after.cases && after.cases[a].userId == after.cases[b].userId
        ensures a == b
      {
        assert db.cases[a].userId == db.cases[b].userId;
      }
    } else {
      NothingDecided(db, cmd);
    }
  }

  // ---------- the event log reproduces the case ----------

  datatype Track = Track(status: Status, version: nat)

  function TrackOf(c: Case): Track { Track(c.status, c.version) }

  /** An event moves its case along the transition table, one version on, from where the case was. */
  function Advance(t: Track, e: Event, id: Id): Option<Track> {
    if e.caseId != id then Some(t)
    else if e.snapshot.Some? && e.fromStatus == Some(t.status) && t.status == From(e.snapshot.value.action)
            && e.toStatus == To(e.snapshot.value.action) && e.snapshot.value.version == t.version + 1
    then Some(Track(e.toStatus, t.version + 1))
    else None
  }

  function Follow(events: seq<Event>, id: Id, t: Track): Option<Track> {
    if events == [] then Some(t)
    else
      var next := Advance(t, events[0], id);
      if next.None? then None else Follow(events[1..], id, next.value)
  }

  /** How many of the commands decided the case, rather than being refused or answered from the log. */
  function Decisions(db: Db, cmds: seq<Command>, id: Id): nat
    decreases |cmds|
  {
    if cmds == [] then 0
    else (if Fresh(db, cmds[0]) && cmds[0].caseId == id then 1 else 0)
         + Decisions(Decided(db, cmds[0]).0, cmds[1..], id)
  }

  lemma DecisionAdvances(db: Db, cmd: Command, id: Id)
    requires Keyed(db) && id in db.cases
    ensures var after := Decided(db, cmd).0;
            && db.events <= after.events && id in after.cases
            && (if Fresh(db, cmd) then
                  |after.events| == |db.events| + 1
                  && Advance(TrackOf(db.cases[id]), after.events[|db.events|], id) == Some(TrackOf(after.cases[id]))
                else after == db)
            && after.cases[id].version == db.cases[id].version + (if Fresh(db, cmd) && cmd.caseId == id then 1 else 0)
  {
    hide DecidedLines, Decided, Refusal, IdsWhere;
    if Fresh(db, cmd) {
      OneDecision(db, cmd);
    } else {
      NothingDecided(db, cmd);
    }
  }

  /**
   * Over every run of decisions, the events appended for a case lead, each from where the last left
   * off, from its first status and version to its last; and the version has grown by exactly the
   * number of decisions made.
   */
  lemma {:induction false} LogReproducesCase(db: Db, cmds: seq<Command>, id: Id)
    requires Keyed(db) && id in db.cases
    ensures var end := RunAll(db, cmds);
            && db.events <= end.events && id in end.cases
            && Follow(end.events[|db.events|..], id, TrackOf(db.cases[id])) == Some(TrackOf(end.cases[id]))
            && end.cases[id].version == db.cases[id].version + Decisions(db, cmds, id)
    decreases |cmds|
  {
    hide Decided, Advance, Keyed, Fresh;
    if cmds != [] {
      var next, end := Decided(db, cmds[0]).0, RunAll(db, cmds);
      KeyedStays(db, cmds[0]);
      DecisionAdvances(db, cmds[0], id);
      LogReproducesCase(next, cmds[1..], id);
      var added := end.events[|db.events|..];
      if Fresh(db, cmds[0]) {
        assert added[0] == next.events[|db.events|] && added[1..] == end.events[|next.events|..];
      }
    }
  }

  // ---------- sending a request again ----------

  lemma {:induction false} PriorKept(events: seq<Event>, more: seq<Event>, requestId: Id)
    ensures Prior(events, requestId).Some? ==> Prior(events + more, requestId) == Prior(events, requestId)
    ensures Prior(events, requestId).None? ==> Prior(events + more, requestId) == Prior(more, requestId)
  {
    if events == [] {
      assert events + more == more;
    } else {
      assert (events + more)[1..] == events[1..] + more;
      PriorKept(events[1..], more, requestId);
    }
  }

  lemma {:induction false} LogGrows(db: Db, cmds: seq<Command>)
    requires Keyed(db)
    ensures Keyed(RunAll(db, cmds)) && db.events <= RunAll(db, cmds).events
    ensures forall id | id in db.cases :: id in RunAll(db, cmds).cases
    decreases |cmds|
  {
    hide Decided, Keyed;
    if cmds != [] {
      KeyedStays(db, cmds[0]);
      EventsGrow(db, cmds[0]);
      LogGrows(Decided(db, cmds[0]).0, cmds[1..]);
    }
  }

  lemma EventsGrow(db: Db, cmd: Command)
    ensures db.events <= Decided(db, cmd).0.events
    ensures forall id | id in db.cases :: id in Decided(db, cmd).0.cases
  {
  }

  /**
   * Once a decision is made, sending its request again after any further decisions changes nothing
   * and answers with the same event and the same lines; using the request for another case or
   * another action is refused and changes nothing.
   */
  lemma {:induction false} ReplayChangesNothing(db: Db, cmd: Command, later: seq<Command>, again: Command)
    requires Keyed(db) && Fresh(db, cmd) && again.requestId == cmd.requestId
    ensures var first, after := Decided(db, cmd).1.value, RunAll(Decided(db, cmd).0, later);
            var r := Decided(after, again).1;
            && Decided(after, again).0 == after
            && (r.Ok? <==> again.caseId == cmd.caseId && again.action == cmd.action)
            && (r.Ok? ==>
                  && r.value.replayed && r.value.event == first.event && r.value.published == first.published
                  && r.value.suspended == first.suspended && r.value.restored == first.restored
                  && again.caseId in after.cases && r.value.approvalCase == Some(after.cases[again.caseId]))
            && (r.Raise? ==> r.error == RequestIdConflict)
  {
    hide RunAll, DecidedLines, Refusal, IdsWhere;
    var made := Decided(db, cmd).0;
    KeyedStays(db, cmd);
    LogGrows(made, later);
    OneDecision(db, cmd);
    var event, after := DecisionEvent(db, db.cases[cmd.caseId], cmd), RunAll(made, later);
    PriorKept(db.events, [event], cmd.requestId);
    PriorKept(made.events, after.events[|made.events|..], cmd.requestId);
    assert after.events == made.events + after.events[|made.events|..];
  }

  // ---------- whose lines a decision touches ----------

  ghost predicate InTableOrder(services: seq<Service>, ids: seq<Id>) {
    forall a, b, i, j | 0 <= a < b < |ids| && 0 <= i < |services| && 0 <= j < |services| ::
      services[i].id == ids[a] && services[j].id == ids[b] ==> i < j
  }

  lemma {:induction false} IdsWhereMeaning(services: seq<Service>, test: Service -> bool)
    requires UniqueLines(services)
    ensures Distinct(IdsWhere(services, test))
    ensures forall i | 0 <= i < |services| :: services[i].id in IdsWhere(services, test) <==> test(services[i])
    ensures forall id | id in IdsWhere(services, test) :: exists i | 0 <= i < |services| :: services[i].id == id
    decreases |services|
  {
    if services != [] {
      hide IdsWhere;
      var n := |services| - 1;
      var front := services[..n];
      assert forall i | 0 <= i < n :: front[i] == services[i];
      IdsWhereMeaning(front, test);
      assert services[n].id !in IdsWhere(front, test);
      assert services[..n + 1] == services;
      NextId(services, n, test);
    }
  }

  lemma {:induction false} FindUnique(services: seq<Service>, i: nat)
    requires UniqueLines(services) && i < |services|
    ensures Find(services, services[i].id) == Some(services[i])
    decreases i
  {
    if i > 0 {
      var rest := services[1..];
      assert forall j | 0 <= j < |rest| :: rest[j] == services[j + 1];
      FindUnique(rest, i - 1);
    }
  }

  /** A line a decision changes belongs to the supplier of the case decided. */
  lemma OnlyOwnLines(db: Db, cmd: Command, i: nat)
    requires Keyed(db) && Fresh(db, cmd) && i < |db.services|
    requires db.services[i].supplierId != db.cases[cmd.caseId].userId
    ensures |Decided(db, cmd).0.services| == |db.services| && Decided(db, cmd).0.services[i] == db.services[i]
  {
    hide Decided, IdsWhere, NotRestorable, MissingOf;
    OneDecision(db, cmd);
    var c := db.cases[cmd.caseId];
    LinesKeepKeys(db, c, cmd);
    match cmd.action {
      case Approve => IdsWhereMeaning(db.services, PublishableOf(c.userId));
      case Restore =>
        RestorableFound(db, c, cmd.restoreIds);
        FindUnique(db.services, i);
      case _ =>
    }
  }

  // ---------- lines stay down while the account is suspended ----------

  predicate LiveLine(db: Db, i: nat, user: Id)
    requires i < |db.services|
  {
    db.services[i].supplierId == user && db.services[i].state.Live?
  }

  /** No line of a suspended supplier is live. */
  ghost predicate SuspendedAreDown(db: Db) {
    forall id, i | id in db.cases && db.cases[id].status.Suspended? && 0 <= i < |db.services| ::
      !LiveLine(db, i, db.cases[id].userId)
  }

  lemma DecisionKeepsDown(db: Db, cmd: Command)
    requires Keyed(db) && SuspendedAreDown(db)
    ensures SuspendedAreDown(Decided(db, cmd).0)
  {
    hide Decided, IdsWhere, NotRestorable, MissingOf, Refusal;
    if !Fresh(db, cmd) {
      NothingDecided(db, cmd);
    } else {
      OneDecision(db, cmd);
      var c, after := db.cases[cmd.caseId], Decided(db, cmd).0;
      LinesKeepKeys(db, c, cmd);
      forall id, i | id in after.cases && after.cases[id].status.Suspended? && 0 <= i < |after.services|
        ensures !LiveLine(after, i, after.cases[id].userId)
      {
        if id != c.id {
          assert !LiveLine(db, i, db.cases[id].userId);
          if db.services[i].supplierId != c.userId {
            OnlyOwnLines(db, cmd, i);
          }
        }
      }
    }
  }

  /** In every run of decisions a suspended supplier has no live line, whoever else is approved or restored. */
  lemma {:induction false} RunKeepsDown(db: Db, cmds: seq<Command>)
    requires Keyed(db) && SuspendedAreDown(db)
    ensures SuspendedAreDown(RunAll(db, cmds))
    decreases |cmds|
  {
    hide Decided, Keyed, SuspendedAreDown;
    if cmds != [] {
      KeyedStays(db, cmds[0]);
      DecisionKeepsDown(db, cmds[0]);
      RunKeepsDown(Decided(db, cmds[0]).0, cmds[1..]);
    }
  }

  lemma {:induction false} IdsInTableOrder(services: seq<Service>, test: Service -> bool)
    requires UniqueLines(services)
    ensures InTableOrder(services, IdsWhere(services, test))
    decreases |services|
  {
    if services != [] {
      hide IdsWhere;
      var n := |services| - 1;
      var front := services[..n];
      assert forall i | 0 <= i < n :: front[i] == services[i];
      IdsInTableOrder(front, test);
      IdsWhereMeaning(front, test);
      assert services[..n + 1] == services;
      NextId(services, n, test);
      var ids := IdsWhere(services, test);
      forall a, b, i, j | 0 <= a < b < |ids| && 0 <= i < |services| && 0 <= j < |services|
                          && services[i].id == ids[a] && services[j].id == ids[b]
        ensures i < j
      {
        assert ids[a] in IdsWhere(front, test);
      }
    }
  }

  /** The lines a decision names are in table order. */
  lemma NamedInTableOrder(db: Db, cmd: Command)
    requires Keyed(db) && Fresh(db, cmd)
    ensures InTableOrder(db.services, Decided(db, cmd).1.value.suspended)
    ensures InTableOrder(db.services, Decided(db, cmd).1.value.published)
  {
    hide IdsWhere, NotRestorable, MissingOf, Refusal;
    var c := db.cases[cmd.caseId];
    IdsInTableOrder(db.services, LiveOf(c.userId));
    IdsInTableOrder(db.services, Chosen(PublishableIds(db, c)));
  }

  /** A suspension takes down every live line of its supplier, whatever the state before, and names exactly those. */
  lemma SuspensionTakesDown(db: Db, cmd: Command, i: nat)
    requires Keyed(db) && Fresh(db, cmd) && cmd.action == Suspend && i < |db.services|
    ensures var line, after := db.services[i], Decided(db, cmd).0;
            var live := line.supplierId == db.cases[cmd.caseId].userId && line.state == Live;
            && |after.services| == |db.services|
            && (line.id in Decided(db, cmd).1.value.suspended <==> live)
            && after.services[i] ==
               (if live then
                  line.(state := Down, previousState := Some(Live), suspensionCaseId := Some(cmd.caseId),
                        suspendedAt := Some(cmd.at), suspendedBy := Some(cmd.actor), suspendReason := cmd.reason,
                        updatedAt := cmd.at)
                else line)
  {
    hide IdsWhere, NotRestorable, MissingOf, Refusal;
    OneDecision(db, cmd);
    IdsWhereMeaning(db.services, LiveOf(db.cases[cmd.caseId].userId));
  }

  /** An approval publishes every line of the supplier that was ready, names exactly those, and touches no other. */
  lemma ApprovalPublishes(db: Db, cmd: Command, i: nat)
    requires Keyed(db) && Fresh(db, cmd) && cmd.action == Approve && i < |db.services|
    ensures var line, after := db.services[i], Decided(db, cmd).0;
            var ready := ReviewReady(line, db.cases[cmd.caseId].userId);
            && |after.services| == |db.services|
            && (line.id in Decided(db, cmd).1.value.published <==> ready)
            && after.services[i] ==
               (if ready then
                  line.(state := Live, verifiedAt := Some(cmd.at), verifiedBy := Some(cmd.actor), suspendedAt := None,
                        suspendedBy := None, suspendReason := None, updatedAt := cmd.at)
                else line)
  {
    hide IdsWhere, NotRestorable, MissingOf, Refusal;
    OneDecision(db, cmd);
    var ready := PublishableOf(db.cases[cmd.caseId].userId);
    IdsWhereMeaning(db.services, ready);
    IdsWhereMeaning(db.services, Chosen(IdsWhere(db.services, ready)));
  }

  /** A restore changes exactly the lines it names, and each of them had gone down with the account. */
  lemma RestoreBringsBackItsOwn(db: Db, cmd: Command, i: nat)
    requires Keyed(db) && Fresh(db, cmd) && cmd.action == Restore && i < |db.services|
    ensures var line, after := db.services[i], Decided(db, cmd).0;
            && |after.services| == |db.services|
            && (line.id in cmd.restoreIds ==> WentDownWith(db.events, db.cases[cmd.caseId], line))
            && after.services[i] ==
               (if line.id in cmd.restoreIds then
                  line.(state := match line.previousState case Some(before) => before case None => Live,
                        previousState := None, suspensionCaseId := None, suspendedAt := None, suspendedBy := None,
                        suspendReason := None, updatedAt := cmd.at)
                else line)
  {
    hide SuspendedWithAccount, WentDownWith, MissingOf, NotRestorable, IdsWhere;
    OneDecision(db, cmd);
    RestorableFound(db, db.cases[cmd.caseId], cmd.restoreIds);
    FindUnique(db.services, i);
    SuspendedMeans(db.events, db.cases[cmd.caseId], db.services[i]);
  }

  /** A rejection leaves every line as it is. */
  lemma RejectionLeavesLines(db: Db, cmd: Command)
    requires Keyed(db) && Fresh(db, cmd) && cmd.action == Reject
    ensures Decided(db, cmd).0.services == db.services
  {
    hide IdsWhere, NotRestorable, MissingOf, Refusal;
  }

  // ---------- suspend, then restore ----------

  /** Decisions on other cases leave this case and its supplier's lines alone. */
  lemma {:induction false} OtherCasesApart(db: Db, cmds: seq<Command>, id: Id)
    requires Keyed(db) && id in db.cases && forall k | 0 <= k < |cmds| :: cmds[k].caseId != id
    ensures var end := RunAll(db, cmds);
            && id in end.cases && end.cases[id] == db.cases[id] && end.suppliers == db.suppliers
            && |end.services| == |db.services|
            && forall i | 0 <= i < |db.services| ::
                 db.services[i].supplierId == db.cases[id].userId ==> end.services[i] == db.services[i]
    decreases |cmds|
  {
    hide Decided, Keyed, Fresh;
    if cmds != [] {
      OtherCaseApart(db, cmds[0], id);
      KeyedStays(db, cmds[0]);
      OtherCasesApart(Decided(db, cmds[0]).0, cmds[1..], id);
    }
  }

  lemma OtherCaseApart(db: Db, cmd: Command, id: Id)
    requires Keyed(db) && id in db.cases && cmd.caseId != id
    ensures var after := Decided(db, cmd).0;
            && id in after.cases && after.cases[id] == db.cases[id] && after.suppliers == db.suppliers
            && |after.services| == |db.services|
            && forall i | 0 <= i < |db.services| ::
                 db.services[i].supplierId == db.cases[id].userId ==> after.services[i] == db.services[i]
  {
    hide Decided, DecidedLines, Refusal, IdsWhere, Fresh;
    if Fresh(db, cmd) {
      OneDecision(db, cmd);
      LinesKeepKeys(db, db.cases[cmd.caseId], cmd);
      forall i | 0 <= i < |db.services| && db.services[i].supplierId == db.cases[id].userId
        ensures Decided(db, cmd).0.services[i] == db.services[i]
      {
        OnlyOwnLines(db, cmd, i);
      }
    } else {
      NothingDecided(db, cmd);
    }
  }

  lemma {:induction false} AllRestorable(db: Db, c: Case, ids: seq<Id>)
    requires forall id | id in ids :: SuspendedWithAccount(db.events, c, Find(db.services, id))
    ensures NotRestorable(db, c, ids) == []
    decreases |ids|
  {
    hide SuspendedWithAccount;
    if ids != [] {
      AllRestorable(db, c, ids[..|ids| - 1]);
    }
  }

  /** The lines a suspension names, each once, are the supplier's live ones. */
  lemma SuspendedNames(db: Db, down: Command)
    requires Keyed(db) && Fresh(db, down) && down.action.Suspend?
    ensures var ids := Decided(db, down).1.value.suspended;
            && Distinct(ids)
            && forall id | id in ids ::
                 exists i | 0 <= i < |db.services| ::
                   db.services[i].id == id && LiveLine(db, i, db.cases[down.caseId].userId)
  {
    hide IdsWhere, MissingOf, NotRestorable, Refusal;
    OneDecision(db, down);
    var user := db.cases[down.caseId].userId;
    IdsWhereMeaning(db.services, LiveOf(user));
    forall id | id in Decided(db, down).1.value.suspended
      ensures exists i | 0 <= i < |db.services| :: db.services[i].id == id && LiveLine(db, i, user)
    {
      var i :| 0 <= i < |db.services| && db.services[i].id == id;
      assert LiveLine(db, i, user);
    }
  }

  /** A suspended case waits while other cases are decided. */
  lemma {:induction false} CaseWaits(db: Db, down: Command, between: seq<Command>)
    requires Keyed(db) && Fresh(db, down) && down.action.Suspend?
    requires forall k | 0 <= k < |between| :: between[k].caseId != down.caseId
    ensures var c, before := db.cases[down.caseId], RunAll(Decided(db, down).0, between);
            && Keyed(before) && |before.services| == |db.services| && before.suppliers == db.suppliers
            && down.caseId in before.cases && before.cases[down.caseId] == DecidedCase(c, down)
  {
    hide Decided, IdsWhere, RunAll, MissingOf, NotRestorable, Refusal, Fresh;
    OneDecision(db, down);
    KeyedStays(db, down);
    OtherCasesApart(Decided(db, down).0, between, down.caseId);
    LogGrows(Decided(db, down).0, between);
  }

  /** A line taken down waits, tagged with its case, while other cases are decided. */
  lemma {:induction false} LineWaits(db: Db, down: Command, between: seq<Command>, i: nat)
    requires Keyed(db) && Fresh(db, down) && down.action.Suspend? && i < |db.services|
    requires forall k | 0 <= k < |between| :: between[k].caseId != down.caseId
    ensures var c, before := db.cases[down.caseId], RunAll(Decided(db, down).0, between);
            && |before.services| == |db.services|
            && (LiveLine(db, i, c.userId) ==>
                  before.services[i] == SuspendedLine(db.services[i], c.id, down.actor, down.at, down.reason))
            && (db.services[i].supplierId == c.userId && !LiveLine(db, i, c.userId) ==>
                  before.services[i] == db.services[i])
  {
    hide Decided, IdsWhere, RunAll, MissingOf, NotRestorable, Refusal, Fresh;
    OneDecision(db, down);
    KeyedStays(db, down);
    var middle := Decided(db, down).0;
    OtherCasesApart(middle, between, down.caseId);
  }

  /**
   * Suspend an account, let any decisions on other cases follow, then restore exactly the lines the
   * suspension named: the restore is accepted and every line of the supplier is in the state it had.
   */
  lemma {:induction false} SuspendThenRestore(db: Db, down: Command, between: seq<Command>, up: Command)
    requires Keyed(db) && Fresh(db, down) && down.action.Suspend?
    requires forall k | 0 <= k < |between| :: between[k].caseId != down.caseId
    requires up.action.Restore? && up.caseId == down.caseId && up.expectedVersion == down.expectedVersion + 1
    requires up.restoreIds == Decided(db, down).1.value.suspended
    requires Prior(RunAll(Decided(db, down).0, between).events, up.requestId).None?
    ensures Distinct(up.restoreIds)
    ensures var before := RunAll(Decided(db, down).0, between);
            var c, end := db.cases[down.caseId], Decided(before, up).0;
            && Fresh(before, up)
            && up.caseId in end.cases && end.cases[up.caseId].status == c.status
            && end.cases[up.caseId].version == c.version + 2
            && |end.services| == |db.services|
            && forall i | 0 <= i < |db.services| && db.services[i].supplierId == c.userId ::
                 end.services[i].state == db.services[i].state
  {
    hide Decided, RunAll, SuspendedWithAccount, Fresh, Keyed, LiveLine;
    OneDecision(db, down);
    SuspendedNames(db, down);
    var c, before := db.cases[down.caseId], RunAll(Decided(db, down).0, between);
    CaseWaits(db, down, between);
    forall id | id in up.restoreIds
      ensures SuspendedWithAccount(before.events, before.cases[down.caseId], Find(before.services, id))
    {
      var i :| 0 <= i < |db.services| && db.services[i].id == id && LiveLine(db, i, c.userId);
      LineRestorable(db, down, between, i);
    }
    AllRestorable(before, before.cases[down.caseId], up.restoreIds);
    RestoreAccepted(before, up);
    forall i | 0 <= i < |db.services| && db.services[i].supplierId == c.userId
      ensures Decided(before, up).0.services[i].state == db.services[i].state
    {
      LineReturns(db, down, between, up, i);
    }
  }

  lemma {:induction false} LineRestorable(db: Db, down: Command, between: seq<Command>, i: nat)
    requires Keyed(db) && Fresh(db, down) && down.action.Suspend? && i < |db.services|
    requires forall k | 0 <= k < |between| :: between[k].caseId != down.caseId
    requires LiveLine(db, i, db.cases[down.caseId].userId)
    ensures var before := RunAll(Decided(db, down).0, between);
            && down.caseId in before.cases
            && SuspendedWithAccount(before.events, before.cases[down.caseId], Find(before.services, db.services[i].id))
  {
    hide Decided, RunAll, Fresh;
    OneDecision(db, down);
    CaseWaits(db, down, between);
    LineWaits(db, down, between, i);
    FindUnique(RunAll(Decided(db, down).0, between).services, i);
  }

  lemma {:induction false} LineReturns(db: Db, down: Command, between: seq<Command>, up: Command, i: nat)
    requires Keyed(db) && Fresh(db, down) && down.action.Suspend? && i < |db.services|
    requires forall k | 0 <= k < |between| :: between[k].caseId != down.caseId
    requires up.action.Restore? && up.restoreIds == Decided(db, down).1.value.suspended
    requires Fresh(RunAll(Decided(db, down).0, between), up)
    requires db.services[i].supplierId == db.cases[down.caseId].userId
    ensures var end := Decided(RunAll(Decided(db, down).0, between), up).0;
            |end.services| == |db.services| && end.services[i].state == db.services[i].state
  {
    hide Decided, RunAll, SuspendedWithAccount, Fresh;
    OneDecision(db, down);
    CaseWaits(db, down, between);
    LineWaits(db, down, between, i);
    SuspensionTakesDown(db, down, i);
    RestoreBringsBackItsOwn(RunAll(Decided(db, down).0, between), up, i);
  }

  lemma RestoreAccepted(db: Db, cmd: Command)
    requires Keyed(db) && Prior(db.events, cmd.requestId).None? && cmd.action.Restore? && cmd.caseId in db.cases
    requires db.cases[cmd.caseId].userId in db.suppliers && db.cases[cmd.caseId].status.Suspended?
    requires db.cases[cmd.caseId].version == cmd.expectedVersion
    requires NotRestorable(db, db.cases[cmd.caseId], cmd.restoreIds) == []
    ensures Fresh(db, cmd) && |Decided(db, cmd).0.services| == |db.services|
    ensures var after := Decided(db, cmd).0;
            && cmd.caseId in after.cases && after.cases[cmd.caseId].status == Approved
            && after.cases[cmd.caseId].version == db.cases[cmd.caseId].version + 1
  {
    hide NotRestorable, MissingOf;
  }
}
