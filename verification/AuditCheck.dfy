/**
 * The production dependency audit: a memoised depth-first search over the report's dependency
 * summaries, then a lookup of each severe advisory among the time-limited exceptions.
 */
module AuditCheck {
  import opened Outcomes

  // ---------- the report ----------

  /** A reason a package is listed: another package, or an advisory; anything else is malformed. */
  datatype Via = Package(name: string) | Issue(severity: string, url: string) | Malformed

  /** `via` is absent when the entry does not hold a list. */
  datatype Row = Row(severity: string, via: Option<seq<Via>>)

  /** `names` are the keys of `rows` in the order the report holds them. */
  datatype Report = Report(failed: bool, version: int, listed: bool, names: seq<string>, rows: map<string, Row>) {
    ghost predicate NamesAreKeys() {
      (forall n :: n in names <==> n in rows) && (forall i, j | 0 <= i < j < |names| :: names[i] != names[j])
    }

    predicate WellShaped() { !failed && version == 2 && listed }
  }

  const SEVERITIES: set<string> := {"info", "low", "moderate", "high", "critical"}

  predicate Severe(severity: string) { severity == "high" || severity == "critical" }

  datatype Advisory = Advisory(package: string, id: Option<string>, url: string, severity: string)

  const ADVISORY_HOST := "//github.com/advisories/"

  const ADVISORY_URL := "https:" + ADVISORY_HOST

  predicate LowerAlphanumeric(s: string) { forall i | 0 <= i < |s| :: 'a' <= s[i] <= 'z' || '0' <= s[i] <= '9' }

  predicate IsGhsa(s: string) {
    && |s| == 19 && s[..5] == "GHSA-" && s[9] == '-' && s[14] == '-'
    && LowerAlphanumeric(s[5..9]) && LowerAlphanumeric(s[10..14]) && LowerAlphanumeric(s[15..])
  }

  function AdvisoryId(url: string): Option<string> {
    if ADVISORY_URL <= url && IsGhsa(url[|ADVISORY_URL|..]) then Some(url[|ADVISORY_URL|..]) else None
  }

  function AdvisoryOf(name: string, issue: Via): Advisory
    requires issue.Issue?
  {
    Advisory(name, AdvisoryId(issue.url), issue.url, issue.severity)
  }

  ghost predicate FourOf(s: string) {
    |s| == 4 && forall i | 0 <= i < 4 :: 'a' <= s[i] <= 'z' || '0' <= s[i] <= '9'
  }

  /** Exactly the addresses of advisories name one, by the last part of the address. */
  lemma AddressNames(a: string, b: string, c: string)
    requires FourOf(a) && FourOf(b) && FourOf(c)
    ensures var id := "GHSA-" + a + "-" + b + "-" + c;
            AdvisoryId("https://github.com/advisories/" + id) == Some(id)
  {
    var id := "GHSA-" + a + "-" + b + "-" + c;
    assert id[..5] == "GHSA-" && id[5..9] == a && id[10..14] == b && id[15..] == c;
    assert ADVISORY_URL == "https://github.com/advisories/";
    assert (ADVISORY_URL + id)[|ADVISORY_URL|..] == id;
  }

  lemma NamedByAddress(url: string) returns (a: string, b: string, c: string)
    requires AdvisoryId(url).Some?
    ensures FourOf(a) && FourOf(b) && FourOf(c)
    ensures AdvisoryId(url).value == "GHSA-" + a + "-" + b + "-" + c
    ensures url == "https://github.com/advisories/" + AdvisoryId(url).value
  {
    var id := AdvisoryId(url).value;
    a, b, c := id[5..9], id[10..14], id[15..];
    assert id == id[..5] + a + [id[9]] + b + [id[14]] + c;
    assert ADVISORY_URL == "https://github.com/advisories/";
    assert url == ADVISORY_URL + id;
  }

  function Key(a: Advisory): string { a.package + ":" + a.url + ":" + a.severity }

  /** The report lists this advisory against its package. */
  ghost predicate Reports(report: Report, a: Advisory) {
    a.package in report.rows && report.rows[a.package].via.Some?
    && exists v | v in report.rows[a.package].via.value ::
         v.Issue? && a.url == v.url && a.severity == v.severity && a.id == AdvisoryId(v.url)
  }

  lemma ReportsOwn(report: Report, name: string, v: Via)
    requires name in report.rows && report.rows[name].via.Some? && v in report.rows[name].via.value && v.Issue?
    ensures Reports(report, AdvisoryOf(name, v))
  {
  }

  // ---------- plain reachability ----------

  predicate Edge(report: Report, a: string, b: string) {
    a in report.rows && report.rows[a].via.Some? && Package(b) in report.rows[a].via.value
  }

  ghost predicate Path(report: Report, p: seq<string>) {
    p != [] && forall i | 0 <= i < |p| - 1 :: Edge(report, p[i], p[i + 1])
  }

  ghost predicate HasSevere(report: Report, n: string) {
    && n in report.rows && report.rows[n].via.Some?
    && exists v | v in report.rows[n].via.value :: v.Issue? && (v.severity == "high" || v.severity == "critical")
  }

  ghost predicate LeadsToSevere(report: Report, p: seq<string>, n: string) {
    Path(report, p) && p[0] == n && HasSevere(report, p[|p| - 1])
  }

  ghost predicate SevereReachable(report: Report, n: string) { exists p :: LeadsToSevere(report, p, n) }

  ghost predicate Loop(report: Report, p: seq<string>, n: string) {
    Path(report, p) && |p| > 1 && p[0] == n && p[|p| - 1] == n
  }

  ghost predicate OnCycle(report: Report, n: string) { exists p :: Loop(report, p, n) }

  // ---------- what a report can be refused for ----------

  datatype AuditError =
    | InvalidReport
    | MissingDependency(name: string)
    | CyclicDependency(name: string)
    | InvalidEntry(name: string)
    | InvalidAdvisory(name: string)
    | UnexplainedSeverity(name: string)

  predicate ValidEntry(row: Row) { row.severity in SEVERITIES && row.via.Some? && row.via.value != [] }

  predicate ValidVia(v: Via) { v.Package? || (v.Issue? && v.severity in SEVERITIES) }

  /** The report really has the fault an error names. */
  ghost predicate Defect(report: Report, e: AuditError) {
    match e
    case InvalidReport => report.failed || report.version != 2 || !report.listed
    case MissingDependency(n) => n !in report.rows && exists a :: Edge(report, a, n)
    case CyclicDependency(n) => OnCycle(report, n)
    case InvalidEntry(n) =>
      n in report.rows
      && (report.rows[n].severity !in ["info", "low", "moderate", "high", "critical"]
          || report.rows[n].via.None? || report.rows[n].via.value == [])
    case InvalidAdvisory(n) =>
      n in report.rows && report.rows[n].via.Some?
      && exists v | v in report.rows[n].via.value ::
           v.Malformed? || (v.Issue? && v.severity !in ["info", "low", "moderate", "high", "critical"])
    case UnexplainedSeverity(n) =>
      n in report.rows && (report.rows[n].severity == "high" || report.rows[n].severity == "critical")
      && !SevereReachable(report, n)
  }

  ghost predicate Sound(report: Report) { forall e :: !Defect(report, e) }

  // ---------- the memo agrees with reachability ----------

  /** One of the entry's own reasons is severe, or a package already found to be. */
  ghost predicate SevereFrom(report: Report, resolved: map<string, bool>, n: string) {
    HasSevere(report, n) || exists b :: Edge(report, n, b) && b in resolved && resolved[b]
  }

  /** A resolved entry: valid, its dependencies resolved before it, its answer the one they give. */
  ghost predicate Settled(report: Report, resolved: map<string, bool>, rank: map<string, nat>, n: string)
    requires n in resolved && rank.Keys == resolved.Keys
  {
    && n in report.rows && ValidEntry(report.rows[n])
    && (forall v | v in report.rows[n].via.value :: ValidVia(v))
    && (forall b | Edge(report, n, b) :: b in resolved && rank[b] < rank[n])
    && rank[n] < |resolved|
    && (resolved[n] <==> SevereFrom(report, resolved, n))
    && (Severe(report.rows[n].severity) ==> resolved[n])
  }

  ghost predicate Memo(report: Report, resolved: map<string, bool>, rank: map<string, nat>) {
    rank.Keys == resolved.Keys && forall n | n in resolved :: Settled(report, resolved, rank, n)
  }

  lemma SevereFromSame(report: Report, resolved: map<string, bool>, n: string, answer: bool, m: string)
    requires n !in resolved && forall b | Edge(report, m, b) :: b in resolved
    ensures SevereFrom(report, resolved[n := answer], m) <==> SevereFrom(report, resolved, m)
  {
    hide Edge, HasSevere;
    var grown := resolved[n := answer];
    assert forall b | Edge(report, m, b) :: b in grown && grown[b] == resolved[b];
  }

  lemma MemoGrows(report: Report, resolved: map<string, bool>, rank: map<string, nat>, n: string)
    requires Memo(report, resolved, rank) && n !in resolved
    requires n in report.rows && ValidEntry(report.rows[n])
    requires forall v | v in report.rows[n].via.value :: ValidVia(v)
    requires forall b | Edge(report, n, b) :: b in resolved
    requires Severe(report.rows[n].severity) ==> SevereFrom(report, resolved, n)
    ensures Memo(report, resolved[n := SevereFrom(report, resolved, n)], rank[n := |resolved|])
  {
    hide Edge, SevereFrom, ValidEntry, ValidVia, Severe;
    var answer := SevereFrom(report, resolved, n);
    var resolved', rank' := resolved[n := answer], rank[n := |resolved|];
    assert |resolved'| == |resolved| + 1;
    forall m | m in resolved'
      ensures Settled(report, resolved', rank', m)
    {
      assert m != n ==> Settled(report, resolved, rank, m);
      SevereFromSame(report, resolved, n, answer, m);
    }
  }

  /** What a resolved entry says of its dependencies. */
  lemma MemoAt(report: Report, resolved: map<string, bool>, rank: map<string, nat>, n: string)
    requires Memo(report, resolved, rank) && n in resolved
    ensures forall b | Edge(report, n, b) :: b in resolved && rank[b] < rank[n]
    ensures resolved[n] <==> SevereFrom(report, resolved, n)
  {
    hide SevereFrom, Edge, ValidEntry, ValidVia;
    assert Settled(report, resolved, rank, n);
  }

  lemma PathTail(report: Report, p: seq<string>)
    requires Path(report, p) && |p| > 1
    ensures Path(report, p[1..])
  {
    var q := p[1..];
    assert forall i | 0 <= i < |q| :: q[i] == p[i + 1];
  }

  lemma {:induction false} PathDescends(
    report: Report, resolved: map<string, bool>, rank: map<string, nat>, p: seq<string>)
    requires Memo(report, resolved, rank) && Path(report, p) && p[0] in resolved
    ensures p[|p| - 1] in resolved
    ensures |p| > 1 ==> rank[p[|p| - 1]] < rank[p[0]]
    ensures resolved[p[|p| - 1]] ==> resolved[p[0]]
    decreases |p|
  {
    if |p| > 1 {
      MemoAt(report, resolved, rank, p[0]);
      assert Edge(report, p[0], p[1]);
      PathTail(report, p);
      PathDescends(report, resolved, rank, p[1..]);
    }
  }

  lemma Extended(report: Report, n: string, b: string, p: seq<string>)
    requires Edge(report, n, b) && LeadsToSevere(report, p, b)
    ensures LeadsToSevere(report, [n] + p, n)
  {
    var q := [n] + p;
    assert forall i | 1 <= i < |q| :: q[i] == p[i - 1];
    assert q[|q| - 1] == p[|p| - 1];
  }

  lemma {:induction false} ResolvedReaches(
    report: Report, resolved: map<string, bool>, rank: map<string, nat>, n: string)
    requires Memo(report, resolved, rank) && n in resolved && resolved[n]
    ensures SevereReachable(report, n)
    decreases rank[n]
  {
    hide HasSevere, Edge, Settled;
    MemoAt(report, resolved, rank, n);
    if HasSevere(report, n) {
      assert LeadsToSevere(report, [n], n);
    } else {
      var b :| Edge(report, n, b) && b in resolved && resolved[b];
      ResolvedReaches(report, resolved, rank, b);
      var p :| LeadsToSevere(report, p, b);
      Extended(report, n, b, p);
    }
  }

  lemma MemoIsReachability(report: Report, resolved: map<string, bool>, rank: map<string, nat>, n: string)
    requires Memo(report, resolved, rank) && n in resolved
    ensures resolved[n] <==> SevereReachable(report, n)
  {
    hide HasSevere, Memo;
    if resolved[n] {
      ResolvedReaches(report, resolved, rank, n);
    }
    if SevereReachable(report, n) {
      var p :| LeadsToSevere(report, p, n);
      PathDescends(report, resolved, rank, p);
      MemoAt(report, resolved, rank, p[|p| - 1]);
    }
  }

  lemma MemoHasNoCycle(report: Report, resolved: map<string, bool>, rank: map<string, nat>, n: string)
    requires Memo(report, resolved, rank) && n in resolved
    ensures !OnCycle(report, n)
  {
    if OnCycle(report, n) {
      var p :| Loop(report, p, n);
      PathDescends(report, resolved, rank, p);
      assert false;
    }
  }

  /** An entry none of whose reasons is severe, directly or through a resolved package, reaches nothing severe. */
  lemma NothingSevere(report: Report, resolved: map<string, bool>, rank: map<string, nat>, n: string)
    requires Memo(report, resolved, rank) && !SevereFrom(report, resolved, n)
    requires forall b | Edge(report, n, b) :: b in resolved
    ensures !SevereReachable(report, n)
  {
    hide HasSevere, Edge;
    if SevereReachable(report, n) {
      var p :| LeadsToSevere(report, p, n);
      assert |p| > 1 && Edge(report, p[0], p[1]);
      PathTail(report, p);
      PathDescends(report, resolved, rank, p[1..]);
      assert false;
    }
  }

  lemma ExtendsTrail(report: Report, trail: seq<string>, name: string, b: string)
    requires Path(report, trail + [name]) && Edge(report, name, b)
    ensures Path(report, trail + [name] + [b])
  {
    var p, q := trail + [name], trail + [name] + [b];
    assert forall i | 0 <= i < |p| :: q[i] == p[i];
  }

  lemma HasParent(report: Report, trail: seq<string>, name: string)
    requires Path(report, trail + [name]) && trail != []
    ensures exists a :: Edge(report, a, name)
  {
    var p := trail + [name];
    assert Edge(report, p[|trail| - 1], p[|trail|]);
  }

  lemma ClosesLoop(report: Report, trail: seq<string>, name: string)
    requires Path(report, trail + [name]) && name in trail
    ensures OnCycle(report, name)
  {
    var k :| 0 <= k < |trail| && trail[k] == name;
    var p := trail + [name];
    assert forall i | 0 <= i < |p| - k :: p[k..][i] == p[k + i];
    assert Loop(report, p[k..], name);
  }

  /** A report whose every entry is resolved has no fault. */
  lemma ResolvedIsSound(report: Report, resolved: map<string, bool>, rank: map<string, nat>)
    requires report.WellShaped() && Memo(report, resolved, rank)
    requires forall n | n in report.rows :: n in resolved
    ensures Sound(report)
  {
    hide HasSevere, SevereReachable, OnCycle;
    forall e
      ensures !Defect(report, e)
    {
      assert e != InvalidReport && e.name in report.rows ==> Settled(report, resolved, rank, e.name);
      match e {
        case InvalidReport =>
        case MissingDependency(n) =>
          assert forall a | Edge(report, a, n) :: Settled(report, resolved, rank, a);
        case CyclicDependency(n) =>
          if n in report.rows {
            MemoHasNoCycle(report, resolved, rank, n);
          } else {
            CycleHasEdge(report, n);
          }
        case InvalidEntry(n) =>
        case InvalidAdvisory(n) =>
        case UnexplainedSeverity(n) =>
          if n in report.rows {
            MemoIsReachability(report, resolved, rank, n);
          }
      }
    }
  }

  lemma Misshapen(report: Report)
    requires !report.WellShaped()
    ensures Defect(report, InvalidReport) && !Sound(report)
  {
    FaultFound(report, InvalidReport);
  }

  lemma FaultFound(report: Report, e: AuditError)
    requires Defect(report, e)
    ensures !Sound(report)
  {
  }

  lemma CycleHasEdge(report: Report, n: string)
    ensures OnCycle(report, n) ==> exists b :: Edge(report, n, b)
  {
    if OnCycle(report, n) {
      var p :| Loop(report, p, n);
      assert Edge(report, p[0], p[1]);
    }
  }

  // ---------- the order in which the search sets advisories ----------

  /** Advisories in the order they are set, and the entries resolved by then. */
  datatype Trace = Trace(log: seq<Advisory>, done: set<string>)

  /** Resolving one entry: nothing when it is already resolved, otherwise its reasons in order. */
  function Visit(report: Report, name: string, path: set<string>, done: set<string>): Trace
    decreases report.rows.Keys - path, 0
  {
    if name !in report.rows || name in path || name in done || report.rows[name].via.None? then Trace([], done)
    else
      var via := report.rows[name].via.value;
      var t := VisitUpTo(report, name, path + {name}, via, |via|, done);
      Trace(t.log, t.done + {name})
  }

  function VisitUpTo(
    report: Report, name: string, path: set<string>, via: seq<Via>, i: nat, done: set<string>): Trace
    requires i <= |via|
    decreases report.rows.Keys - path, i
  {
    if i == 0 then Trace([], done)
    else
      var t := VisitUpTo(report, name, path, via, i - 1, done);
      match via[i - 1]
      case Package(b) =>
        var u := Visit(report, b, path, t.done);
        Trace(t.log + u.log, u.done)
      case Issue(_, _) => Trace(t.log + [AdvisoryOf(name, via[i - 1])], t.done)
      case Malformed => t
  }

  function VisitAll(report: Report, i: nat): Trace
    requires i <= |report.names|
  {
    if i == 0 then Trace([], {})
    else
      var t := VisitAll(report, i - 1);
      var u := Visit(report, report.names[i - 1], {}, t.done);
      Trace(t.log + u.log, u.done)
  }

  /** Every advisory of the report in the order the search sets it, dependencies first come first. */
  function SettingOrder(report: Report): seq<Advisory> { VisitAll(report, |report.names|).log }

  /** The log holds only what the report lists, and all of it for the entries newly resolved. */
  ghost predicate Logged(report: Report, done: set<string>, t: Trace) {
    && done <= t.done
    && (forall a | a in t.log :: Reports(report, a))
    && (forall n, v | n in t.done && n !in done && ListedBy(report, n, v) :: AdvisoryOf(n, v) in t.log)
  }

  ghost predicate ListedBy(report: Report, n: string, v: Via) {
    n in report.rows && report.rows[n].via.Some? && v in report.rows[n].via.value && v.Issue?
  }

  lemma LoggedTwice(report: Report, done: set<string>, t: Trace, u: Trace)
    requires Logged(report, done, t) && Logged(report, t.done, u)
    ensures Logged(report, done, Trace(t.log + u.log, u.done))
  {
    hide Reports, ListedBy, AdvisoryOf;
  }

  lemma {:induction false} VisitLogs(report: Report, name: string, path: set<string>, done: set<string>)
    ensures var t := Visit(report, name, path, done);
            && Logged(report, done, t)
            && (name in report.rows && report.rows[name].via.Some? && name !in path ==> name in t.done)
    decreases report.rows.Keys - path, 0
  {
    hide Reports, AdvisoryOf;
    if name in report.rows && name !in path && name !in done && report.rows[name].via.Some? {
      var via := report.rows[name].via.value;
      VisitUpToLogs(report, name, path + {name}, via, |via|, done);
    }
  }

  lemma {:induction false} VisitUpToLogs(
    report: Report, name: string, path: set<string>, via: seq<Via>, i: nat, done: set<string>)
    requires name in report.rows && report.rows[name].via == Some(via) && i <= |via|
    ensures var t := VisitUpTo(report, name, path, via, i, done);
            && Logged(report, done, t)
            && forall j | 0 <= j < i && via[j].Issue? :: AdvisoryOf(name, via[j]) in t.log
    decreases report.rows.Keys - path, i
  {
    hide Reports, AdvisoryOf, ListedBy;
    if i > 0 {
      VisitUpToLogs(report, name, path, via, i - 1, done);
      var t := VisitUpTo(report, name, path, via, i - 1, done);
      match via[i - 1] {
        case Package(b) =>
          VisitLogs(report, b, path, t.done);
          LoggedTwice(report, done, t, Visit(report, b, path, t.done));
        case Issue(_, _) => ReportsOwn(report, name, via[i - 1]);
        case Malformed =>
      }
    }
  }

  lemma {:induction false} VisitAllLogs(report: Report, i: nat)
    requires i <= |report.names|
    ensures var t := VisitAll(report, i);
            && Logged(report, {}, t)
            && forall j | 0 <= j < i && report.names[j] in report.rows && report.rows[report.names[j]].via.Some? ::
                 report.names[j] in t.done
  {
    hide Reports, AdvisoryOf, ListedBy, Visit;
    if i > 0 {
      VisitAllLogs(report, i - 1);
      var t := VisitAll(report, i - 1);
      VisitLogs(report, report.names[i - 1], {}, t.done);
      LoggedTwice(report, {}, t, Visit(report, report.names[i - 1], {}, t.done));
    }
  }

  lemma OwnAdvisory(a: Advisory, v: Via)
    requires v.Issue? && a.url == v.url && a.severity == v.severity && a.id == AdvisoryId(v.url)
    ensures a == AdvisoryOf(a.package, v)
  {
    hide AdvisoryId;
  }

  /** The search sets exactly the advisories of the report. */
  lemma SettingOrderComplete(report: Report)
    requires report.NamesAreKeys()
    ensures forall a :: a in SettingOrder(report) <==> Reports(report, a)
  {
    hide VisitAll, AdvisoryOf;
    VisitAllLogs(report, |report.names|);
    forall a | Reports(report, a)
      ensures a in SettingOrder(report)
    {
      var v :| v in report.rows[a.package].via.value
               && v.Issue? && a.url == v.url && a.severity == v.severity && a.id == AdvisoryId(v.url);
      OwnAdvisory(a, v);
      assert ListedBy(report, a.package, v) && a.package in report.names;
    }
  }

  /** What `Map.set` of each advisory in turn leaves under each key. */
  function Latest(log: seq<Advisory>): map<string, Advisory> {
    if log == [] then map[]
    else
      var last := log[|log| - 1];
      Latest(log[..|log| - 1])[Key(last) := last]
  }

  /** The keys in the order they were first set. */
  function FirstKeys(log: seq<Advisory>): (keys: seq<string>)
    ensures forall k :: k in keys <==> k in Latest(log)
    ensures forall i, j | 0 <= i < j < |keys| :: keys[i] != keys[j]
  {
    if log == [] then []
    else
      var keys, key := FirstKeys(log[..|log| - 1]), Key(log[|log| - 1]);
      if key in keys then keys else keys + [key]
  }

  // ---------- the search ----------

  /** What was resolved before still is. */
  ghost predicate Grown(resolved: map<string, bool>, resolved': map<string, bool>) {
    forall n | n in resolved :: n in resolved' && resolved'[n] == resolved[n]
  }

  predicate Hot(resolved: map<string, bool>, v: Via) {
    (v.Issue? && Severe(v.severity)) || (v.Package? && v.name in resolved && resolved[v.name])
  }

  predicate Read(resolved: map<string, bool>, v: Via) { ValidVia(v) && (v.Package? ==> v.name in resolved) }

  /** The first `i` reasons are read, and `hasHigh` says whether one of them is severe. */
  ghost predicate ReadUpTo(resolved: map<string, bool>, via: seq<Via>, i: nat, hasHigh: bool)
    requires i <= |via|
  {
    && (forall j | 0 <= j < i :: Read(resolved, via[j]))
    && (hasHigh <==> exists j | 0 <= j < i :: Hot(resolved, via[j]))
  }

  lemma NothingRead(resolved: map<string, bool>, via: seq<Via>)
    ensures ReadUpTo(resolved, via, 0, false)
  {
  }

  lemma ReadOneMore(
    resolved: map<string, bool>, resolved': map<string, bool>, via: seq<Via>, i: nat, before: bool, hasHigh: bool)
    requires i < |via| && ReadUpTo(resolved, via, i, before) && Grown(resolved, resolved')
    requires Read(resolved', via[i]) && (hasHigh <==> before || Hot(resolved', via[i]))
    ensures ReadUpTo(resolved', via, i + 1, hasHigh)
  {
    assert forall j | 0 <= j < i :: Read(resolved, via[j]) && (Hot(resolved, via[j]) <==> Hot(resolved', via[j]));
  }

  lemma AllRead(report: Report, resolved: map<string, bool>, name: string, hasHigh: bool)
    requires name in report.rows && ValidEntry(report.rows[name])
    requires ReadUpTo(resolved, report.rows[name].via.value, |report.rows[name].via.value|, hasHigh)
    ensures forall v | v in report.rows[name].via.value :: ValidVia(v)
    ensures forall b | Edge(report, name, b) :: b in resolved
    ensures hasHigh <==> SevereFrom(report, resolved, name)
  {
    var via := report.rows[name].via.value;
    if hasHigh {
      var j :| 0 <= j < |via| && Hot(resolved, via[j]);
      assert via[j] in via;
      assert via[j].Package? ==> Edge(report, name, via[j].name);
    }
  }

  class Collector {
    const report: Report
    /** The keys of `advisories` in the order they were first set. */
    var order: seq<string>
    var advisories: map<string, Advisory>
    var resolved: map<string, bool>
    ghost var rank: map<string, nat>
    ghost var log: seq<Advisory>

    constructor (report: Report)
      ensures Valid() && this.report == report && resolved == map[] && log == []
    {
      this.report := report;
      order, advisories, resolved, rank, log := [], map[], map[], map[], [];
    }

    ghost predicate Valid()
      reads this
    {
      Memo(report, resolved, rank) && order == FirstKeys(log) && advisories == Latest(log)
    }

    lemma ValidMemo()
      requires Valid()
      ensures Memo(report, resolved, rank)
    {
    }

    /** `Map.set`: a new key goes last, a key already set keeps its place. */
    method SetAdvisory(name: string, issue: Via)
      requires Valid() && issue.Issue?
      modifies this`order, this`advisories, this`log
      ensures Valid() && log == old(log) + [AdvisoryOf(name, issue)]
    {
      hide Key, AdvisoryOf, Memo;
      var advisory := AdvisoryOf(name, issue);
      var key := Key(advisory);
      if key !in advisories {
        order := order + [key];
      }
      advisories := advisories[key := advisory];
      assert (log + [advisory])[..|log|] == log;
      log := log + [advisory];
    }

    /** `resolved.set` once every reason of the entry is read. */
    method Settle(name: string, hasHigh: bool)
      requires Valid() && name !in resolved
      requires name in report.rows && ValidEntry(report.rows[name])
      requires ReadUpTo(resolved, report.rows[name].via.value, |report.rows[name].via.value|, hasHigh)
      requires Severe(report.rows[name].severity) ==> hasHigh
      modifies this`resolved, this`rank
      ensures Valid() && resolved == old(resolved)[name := hasHigh]
    {
      hide Memo, SevereFrom, Latest, FirstKeys;
      AllRead(report, resolved, name, hasHigh);
      MemoGrows(report, resolved, rank, name);
      rank := rank[name := |resolved|];
      resolved := resolved[name := hasHigh];
    }

    /**
     * Resolve one entry. `ancestors` are the entries being resolved, `trail` the way through them;
     * each call adds an entry of the report to them, so the search ends.
     */
    method Collect(name: string, ancestors: set<string>, ghost trail: seq<string>)
      returns (r: Outcome<bool, AuditError>)
      requires Valid() && ancestors <= report.rows.Keys && ancestors !! resolved.Keys
      requires Path(report, trail + [name]) && (forall n :: n in ancestors <==> n in trail)
      requires trail == [] ==> name in report.rows
      modifies this
      ensures Valid() && Grown(old(resolved), resolved) && ancestors !! resolved.Keys
      ensures r.Ok? ==> name in resolved && r.value == resolved[name] && (r.value <==> SevereReachable(report, name))
      ensures r.Ok? ==>
                var t := Visit(report, name, ancestors, old(resolved).Keys);
                log == old(log) + t.log && resolved.Keys == t.done
      ensures r.Raise? ==> Defect(report, r.error)
      decreases report.rows.Keys - ancestors
    {
      hide Path, Loop, LeadsToSevere, SevereReachable, OnCycle, Memo, Settled, HasSevere, AdvisoryOf, Valid, ReadUpTo,
           Edge, VisitUpTo, Latest, FirstKeys;
      if name !in report.rows {
        HasParent(report, trail, name);
        return Raise(MissingDependency(name));
      }
      if name in ancestors {
        ClosesLoop(report, trail, name);
        return Raise(CyclicDependency(name));
      }
      if name in resolved {
        ValidMemo();
        MemoIsReachability(report, resolved, rank, name);
        return Ok(resolved[name]);
      }
      var row := report.rows[name];
      if !ValidEntry(row) {
        return Raise(InvalidEntry(name));
      }
      var path := ancestors + {name};
      var via := row.via.value;
      var hasHigh := false;
      var i := 0;
      NothingRead(resolved, via);
      NothingVisited(report, name, path, via, resolved.Keys);
      while i < |via|
        invariant 0 <= i <= |via|
        invariant Valid() && Grown(old(resolved), resolved) && path !! resolved.Keys
        invariant ReadUpTo(resolved, via, i, hasHigh)
        invariant log == old(log) + VisitUpTo(report, name, path, via, i, old(resolved).Keys).log
        invariant resolved.Keys == VisitUpTo(report, name, path, via, i, old(resolved).Keys).done
      {
        var v := via[i];
        ghost var resolved0 := resolved;
        VisitOneMore(report, name, path, via, i, old(resolved).Keys);
        match v {
          case Package(b) =>
            ExtendsTrail(report, trail, name, b);
            var below :- Collect(b, path, trail + [name]);
            ReadOneMore(resolved0, resolved, via, i, hasHigh, below || hasHigh);
            hasHigh := below || hasHigh;
          case Issue(severity, _) =>
            if severity !in SEVERITIES {
              assert v in via && !ValidVia(v);
              return Raise(InvalidAdvisory(name));
            }
            ghost var before := hasHigh;
            if Severe(severity) {
              hasHigh := true;
            }
            SetAdvisory(name, v);
            ReadOneMore(resolved0, resolved, via, i, before, hasHigh);
          case Malformed =>
            assert v in via && !ValidVia(v);
            return Raise(InvalidAdvisory(name));
        }
        i := i + 1;
      }
      if Severe(row.severity) && !hasHigh {
        AllRead(report, resolved, name, hasHigh);
        ValidMemo();
        NothingSevere(report, resolved, rank, name);
        return Raise(UnexplainedSeverity(name));
      }
      Settle(name, hasHigh);
      ValidMemo();
      MemoIsReachability(report, resolved, rank, name);
      r := Ok(hasHigh);
    }

    /** Resolve every entry of the report, in its order. */
    method CollectAll() returns (fault: Option<AuditError>)
      requires Valid() && resolved == map[] && log == [] && report.NamesAreKeys()
      modifies this
      ensures Valid()
      ensures fault.Some? ==> Defect(report, fault.value)
      ensures fault.None? ==> (forall n | n in report.rows :: n in resolved) && log == SettingOrder(report)
    {
      hide Valid, Visit, SevereReachable, Defect;
      var i := 0;
      while i < |report.names|
        invariant 0 <= i <= |report.names| && Valid()
        invariant forall j | 0 <= j < i :: report.names[j] in resolved
        invariant log == VisitAll(report, i).log && resolved.Keys == VisitAll(report, i).done
      {
        assert [] + [report.names[i]] == [report.names[i]];
        var below := Collect(report.names[i], {}, []);
        if below.Raise? {
          return Some(below.error);
        }
        i := i + 1;
      }
      fault := None;
    }
  }

  lemma NothingVisited(report: Report, name: string, path: set<string>, via: seq<Via>, done: set<string>)
    ensures VisitUpTo(report, name, path, via, 0, done) == Trace([], done)
  {
  }

  lemma VisitOneMore(report: Report, name: string, path: set<string>, via: seq<Via>, i: nat, done: set<string>)
    requires i < |via|
    ensures var t, u := VisitUpTo(report, name, path, via, i, done), VisitUpTo(report, name, path, via, i + 1, done);
            match via[i]
            case Package(b) =>
              var below := Visit(report, b, path, t.done);
              u == Trace(t.log + below.log, below.done)
            case Issue(_, _) => u == Trace(t.log + [AdvisoryOf(name, via[i])], t.done)
            case Malformed => u == t
  {
    hide Visit, AdvisoryOf;
  }

  // ---------- judging the advisories ----------

  /** `expires` is the day, as a number that orders like the date. */
  datatype Exception = Exception(id: string, package: string, expires: nat, issue: string)

  const ISSUE := "https://github.com/gridgoph/gridgo-api/issues/330"

  const AUDIT_EXCEPTIONS := [
    Exception("GHSA-vcc3-ghjq-m6fr", "decode-uri-component", 20261114, ISSUE),
    Exception("GHSA-qr28-fpjm-wq7f", "decode-uri-component", 20261114, ISSUE)]

  datatype Excepted = Excepted(advisory: Advisory, expires: nat, issue: string)

  datatype Audit = Audit(passed: bool, blocked: seq<Advisory>, excepted: seq<Excepted>)

  predicate Covers(x: Exception, a: Advisory, today: nat) {
    Some(x.id) == a.id && x.package == a.package && today <= x.expires
  }

  /** An exception names the advisory and its package, and has not expired. */
  ghost predicate Covered(a: Advisory, exceptions: seq<Exception>, today: nat) {
    exists x | x in exceptions :: a.id == Some(x.id) && a.package == x.package && today <= x.expires
  }

  /** An advisory that must not pass without an exception. */
  ghost predicate Demands(report: Report, a: Advisory) {
    Reports(report, a) && (a.severity == "high" || a.severity == "critical")
  }

  ghost predicate Mentions(audit: Audit, a: Advisory) {
    a in audit.blocked || exists e | e in audit.excepted :: e.advisory == a
  }

  /** The first exception that covers the advisory, as `find` walks the list. */
  function FirstCover(exceptions: seq<Exception>, a: Advisory, today: nat): (found: Option<Exception>)
    ensures found.Some? <==> Covered(a, exceptions, today)
    ensures found.Some? ==> found.value in exceptions && Covers(found.value, a, today)
  {
    if exceptions == [] then None
    else if Covers(exceptions[0], a, today) then Some(exceptions[0])
    else
      assert forall x | x in exceptions && x != exceptions[0] :: x in exceptions[1..];
      FirstCover(exceptions[1..], a, today)
  }

  method FindException(exceptions: seq<Exception>, a: Advisory, today: nat) returns (found: Option<Exception>)
    ensures found == FirstCover(exceptions, a, today)
  {
    var i := 0;
    while i < |exceptions|
      invariant 0 <= i <= |exceptions|
      invariant FirstCover(exceptions, a, today) == FirstCover(exceptions[i..], a, today)
    {
      if Covers(exceptions[i], a, today) {
        return Some(exceptions[i]);
      }
      assert exceptions[i..][1..] == exceptions[i + 1..];
      i := i + 1;
    }
    found := None;
  }

  /** The severe advisories without an exception, in order. */
  function Blocked(advisories: seq<Advisory>, exceptions: seq<Exception>, today: nat): (r: seq<Advisory>)
    ensures forall a :: a in r <==> a in advisories && Severe(a.severity) && !Covered(a, exceptions, today)
  {
    if advisories == [] then []
    else
      var n := |advisories| - 1;
      var a := advisories[n];
      assert advisories == advisories[..n] + [a];
      Blocked(advisories[..n], exceptions, today)
      + (if Severe(a.severity) && FirstCover(exceptions, a, today).None? then [a] else [])
  }

  /** The severe advisories with an exception, in order, each under the first that covers it. */
  function ExceptedAs(advisories: seq<Advisory>, exceptions: seq<Exception>, today: nat): (r: seq<Excepted>)
    ensures forall e | e in r ::
              && e.advisory in advisories && Severe(e.advisory.severity)
              && exists x | x in exceptions ::
                   Covers(x, e.advisory, today) && e.expires == x.expires && e.issue == x.issue
    ensures forall a | a in advisories && Severe(a.severity) && Covered(a, exceptions, today) ::
              exists e | e in r :: e.advisory == a
  {
    if advisories == [] then []
    else
      var n := |advisories| - 1;
      var a, before := advisories[n], ExceptedAs(advisories[..n], exceptions, today);
      assert advisories == advisories[..n] + [a];
      var x := FirstCover(exceptions, a, today);
      if Severe(a.severity) && x.Some? then before + [Excepted(a, x.value.expires, x.value.issue)] else before
  }

  /** The advisories as the map lists them. */
  function Values(order: seq<string>, advisories: map<string, Advisory>): (r: seq<Advisory>)
    requires forall k | k in order :: k in advisories
    ensures |r| == |order| && forall i | 0 <= i < |order| :: r[i] == advisories[order[i]]
  {
    seq(|order|, i requires 0 <= i < |order| => advisories[order[i]])
  }

  /** Some advisory with key `a` is set before any with key `b`. */
  ghost predicate SetBefore(log: seq<Advisory>, a: string, b: string) {
    exists k | 0 <= k < |log| :: Key(log[k]) == a && forall l | 0 <= l <= k :: Key(log[l]) != b
  }

  lemma {:induction false} FirstKeysInOrder(log: seq<Advisory>, i: nat, j: nat)
    requires i < j < |FirstKeys(log)|
    ensures SetBefore(log, FirstKeys(log)[i], FirstKeys(log)[j])
    decreases |log|
  {
    hide Key, Latest;
    var front, keys := log[..|log| - 1], FirstKeys(log);
    var before := FirstKeys(front);
    if j < |before| {
      FirstKeysInOrder(front, i, j);
    } else {
      assert before[i] in before;
      var k := KeySet(front, before[i]);
      assert forall l | 0 <= l <= k :: Key(front[l]) in before by {
        forall l | 0 <= l <= k ensures Key(front[l]) in Latest(front) { SetIsKept(front, l); }
      }
    }
    var k :| 0 <= k < |front| && Key(front[k]) == keys[i] && forall l | 0 <= l <= k :: Key(front[l]) != keys[j];
    assert log[k] == front[k] && forall l | 0 <= l <= k :: log[l] == front[l];
  }

  lemma KeySet(log: seq<Advisory>, k: string) returns (at: nat)
    requires k in Latest(log)
    ensures at < |log| && Key(log[at]) == k
  {
    at := LatestIsLast(log, k);
  }

  /** The blocked advisories are listed in the order their keys are first set. */
  lemma {:induction false} BlockedInOrder(
    advisories: seq<Advisory>, exceptions: seq<Exception>, today: nat, i: nat, j: nat) returns (k: nat, l: nat)
    requires i < j < |Blocked(advisories, exceptions, today)|
    ensures k < l < |advisories|
    ensures advisories[k] == Blocked(advisories, exceptions, today)[i]
    ensures advisories[l] == Blocked(advisories, exceptions, today)[j]
    decreases |advisories|
  {
    hide Covers, Covered, Severe, FirstCover;
    var front, r := advisories[..|advisories| - 1], Blocked(advisories, exceptions, today);
    var before := Blocked(front, exceptions, today);
    if j < |before| {
      k, l := BlockedInOrder(front, exceptions, today, i, j);
    } else {
      assert before[i] in before;
      k :| 0 <= k < |front| && front[k] == before[i];
      l := |front|;
    }
  }

  lemma ExceptedOneMore(advisories: seq<Advisory>, exceptions: seq<Exception>, today: nat)
    requires advisories != []
    ensures var n, r := |advisories| - 1, ExceptedAs(advisories, exceptions, today);
            var before := ExceptedAs(advisories[..n], exceptions, today);
            r == before || (|r| == |before| + 1 && r[..|before|] == before && r[|before|].advisory == advisories[n])
  {
    hide Covers, Covered, Severe;
  }

  lemma {:induction false} ExceptedAt(advisories: seq<Advisory>, exceptions: seq<Exception>, today: nat, i: nat)
    returns (k: nat)
    requires i < |ExceptedAs(advisories, exceptions, today)|
    ensures k < |advisories| && advisories[k] == ExceptedAs(advisories, exceptions, today)[i].advisory
    decreases |advisories|
  {
    hide Covers, Covered, Severe;
    var r := ExceptedAs(advisories, exceptions, today);
    assert r[i] in r;
    k :| 0 <= k < |advisories| && advisories[k] == r[i].advisory;
  }

  lemma {:induction false} ExceptedInOrder(
    advisories: seq<Advisory>, exceptions: seq<Exception>, today: nat, i: nat, j: nat) returns (k: nat, l: nat)
    requires i < j < |ExceptedAs(advisories, exceptions, today)|
    ensures k < l < |advisories|
    ensures advisories[k] == ExceptedAs(advisories, exceptions, today)[i].advisory
    ensures advisories[l] == ExceptedAs(advisories, exceptions, today)[j].advisory
    decreases |advisories|
  {
    hide Covers, Covered, Severe, ExceptedAs;
    var front := advisories[..|advisories| - 1];
    ExceptedOneMore(advisories, exceptions, today);
    if j < |ExceptedAs(front, exceptions, today)| {
      k, l := ExceptedInOrder(front, exceptions, today, i, j);
    } else {
      k := ExceptedAt(front, exceptions, today, i);
      l := |front|;
    }
  }

  /** The verdict on advisories set in that order: of those with the same key only the last is judged. */
  function Verdict(log: seq<Advisory>, exceptions: seq<Exception>, today: nat): Audit {
    var kept := Values(FirstKeys(log), Latest(log));
    var blocked := Blocked(kept, exceptions, today);
    Audit(blocked == [], blocked, ExceptedAs(kept, exceptions, today))
  }

  method JudgeAdvisories(
    order: seq<string>, advisories: map<string, Advisory>, exceptions: seq<Exception>, today: nat)
    returns (blocked: seq<Advisory>, excepted: seq<Excepted>)
    requires forall k | k in order :: k in advisories
    ensures blocked == Blocked(Values(order, advisories), exceptions, today)
    ensures excepted == ExceptedAs(Values(order, advisories), exceptions, today)
  {
    hide Covered, Covers;
    ghost var kept := Values(order, advisories);
    blocked, excepted := [], [];
    var i := 0;
    while i < |order|
      invariant 0 <= i <= |order|
      invariant blocked == Blocked(kept[..i], exceptions, today)
      invariant excepted == ExceptedAs(kept[..i], exceptions, today)
    {
      var a := advisories[order[i]];
      assert kept[..i + 1][..i] == kept[..i];
      if Severe(a.severity) {
        var x := FindException(exceptions, a, today);
        if x.Some? {
          excepted := excepted + [Excepted(a, x.value.expires, x.value.issue)];
        } else {
          blocked := blocked + [a];
        }
      }
      i := i + 1;
    }
    assert kept[..i] == kept;
  }

  /** Refuse the report for a fault it really has, or give the verdict on its advisories in setting order. */
  method CheckAudit(report: Report, today: nat, exceptions: seq<Exception>) returns (out: Outcome<Audit, AuditError>)
    requires report.NamesAreKeys()
    ensures out.Ok? <==> Sound(report)
    ensures out.Raise? ==> Defect(report, out.error)
    ensures out.Ok? ==> out.value == Verdict(SettingOrder(report), exceptions, today)
  {
    hide Memo, Defect, Sound, SettingOrder, Latest, FirstKeys, Blocked, ExceptedAs;
    if !report.WellShaped() {
      Misshapen(report);
      return Raise(InvalidReport);
    }
    var collector := new Collector(report);
    var fault := collector.CollectAll();
    if fault.Some? {
      FaultFound(report, fault.value);
      return Raise(fault.value);
    }
    ResolvedIsSound(report, collector.resolved, collector.rank);
    var blocked, excepted := JudgeAdvisories(collector.order, collector.advisories, exceptions, today);
    out := Ok(Audit(blocked == [], blocked, excepted));
  }

  // ---------- what passing means ----------

  lemma FirstPart(a: string, b: string, x: string, y: string, c: char)
    requires c !in a && a + [c] + x == b + [c] + y
    ensures |a| <= |b|
    ensures |a| == |b| ==> a == b && x == y
  {
    var k := a + [c] + x;
    assert k[|b|] == c;
    assert forall i | 0 <= i < |a| :: k[i] == a[i];
    assert a == k[..|a|] && b == k[..|b|];
    assert x == k[|a| + 1..] && y == k[|b| + 1..];
  }

  lemma LastPart(a: string, b: string, x: string, y: string, c: char)
    requires c !in x && c !in y && a + [c] + x == b + [c] + y
    ensures a == b && x == y
  {
    var k := a + [c] + x;
    assert k[|b|] == c && k[|a|] == c;
    assert forall i | 0 <= i < |x| :: k[|a| + 1 + i] == x[i];
    assert forall i | 0 <= i < |y| :: k[|b| + 1 + i] == y[i];
    assert |a| == |b|;
    assert a == k[..|a|] == b && x == k[|a| + 1..] == y;
  }

  lemma GhsaHasNoColon(ghsa: string)
    requires IsGhsa(ghsa)
    ensures ':' !in ghsa
  {
    forall i | 0 <= i < |ghsa|
      ensures ghsa[i] != ':'
    {
      if i < 5 {
        assert ghsa[i] == ghsa[..5][i];
      } else if i < 9 {
        assert ghsa[i] == ghsa[5..9][i - 5];
      } else if 10 <= i < 14 {
        assert ghsa[i] == ghsa[10..14][i - 10];
      } else if 15 <= i {
        assert ghsa[i] == ghsa[15..][i - 15];
      }
    }
  }

  /** An advisory's address holds one colon only. */
  lemma AdvisoryUrlParts(url: string) returns (rest: string)
    requires AdvisoryId(url).Some?
    ensures url == "https" + ":" + rest && ':' !in rest
  {
    hide IsGhsa;
    var ghsa := url[|ADVISORY_URL|..];
    GhsaHasNoColon(ghsa);
    rest := ADVISORY_HOST + ghsa;
    assert url == ADVISORY_URL + ghsa;
  }

  lemma LongerName(p: string, rest: string, q: string, u: string)
    requires p + ":" + ("https" + ":" + rest) == q + ":" + u && ':' !in rest && |p| < |q|
    ensures q == p + ":https"
  {
    var k, r := q + ":" + u, p + ":https";
    assert k == r + [':'] + rest;
    assert k[|q|] == ':';
    assert forall i | |r| < i < |k| :: k[i] == rest[i - |r| - 1];
    assert forall i | |p| < i < |r| :: k[i] == "https"[i - |p| - 1];
    assert |q| == |r|;
    assert q == k[..|q|] && r == k[..|r|];
  }

  /** Another advisory with a covered one's key belongs to a package named after it with ":https" appended. */
  lemma SharedKey(a: Advisory, b: Advisory)
    requires Key(a) == Key(b) && Severe(a.severity) && Severe(b.severity)
    requires ':' !in a.package && AdvisoryId(a.url).Some?
    requires b.package != a.package + ":https"
    ensures a.package == b.package && a.url == b.url && a.severity == b.severity
  {
    LastPart(a.package + ":" + a.url, b.package + ":" + b.url, a.severity, b.severity, ':');
    FirstPart(a.package, b.package, a.url, b.url, ':');
    if |a.package| < |b.package| {
      var rest := AdvisoryUrlParts(a.url);
      LongerName(a.package, rest, b.package, b.url);
    }
  }

  lemma SameSeverity(a: Advisory, b: Advisory)
    requires Key(a) == Key(b) && a.severity in SEVERITIES && b.severity in SEVERITIES
    ensures a.severity == b.severity
  {
    LastPart(a.package + ":" + a.url, b.package + ":" + b.url, a.severity, b.severity, ':');
  }

  ghost predicate LastWithKey(log: seq<Advisory>, j: int) {
    0 <= j < |log| && forall i | j < i < |log| :: Key(log[i]) != Key(log[j])
  }

  /** Under each key the map keeps the advisory set last with it. */
  lemma {:induction false} LatestIsLast(log: seq<Advisory>, k: string) returns (j: int)
    requires k in Latest(log)
    ensures LastWithKey(log, j) && Key(log[j]) == k && Latest(log)[k] == log[j]
    decreases |log|
  {
    hide Key;
    var n := |log| - 1;
    if Key(log[n]) == k {
      return n;
    }
    j := LatestIsLast(log[..n], k);
    assert forall i | 0 <= i < n :: log[..n][i] == log[i];
  }

  lemma {:induction false} SetIsKept(log: seq<Advisory>, i: nat)
    requires i < |log|
    ensures Key(log[i]) in Latest(log)
    decreases |log|
  {
    hide Key;
    var n := |log| - 1;
    if i < n {
      SetIsKept(log[..n], i);
    }
  }

  /** The advisories judged are those the map keeps. */
  lemma ValuesAre(log: seq<Advisory>)
    ensures forall a :: a in Values(FirstKeys(log), Latest(log)) 
              <==> exists k :: k in Latest(log) && Latest(log)[k] == a
  {
    hide Latest, FirstKeys;
    var keys, m := FirstKeys(log), Latest(log);
    forall k | k in m
      ensures m[k] in Values(keys, m)
    {
      var i :| 0 <= i < |keys| && keys[i] == k;
      assert Values(keys, m)[i] == m[k];
    }
  }

  ghost predicate Uncovered(a: Advisory, exceptions: seq<Exception>, today: nat) {
    (a.severity == "high" || a.severity == "critical") && !Covered(a, exceptions, today)
  }

  lemma UncoveredSevere(a: Advisory, exceptions: seq<Exception>, today: nat)
    ensures Uncovered(a, exceptions, today) <==> Severe(a.severity) && !Covered(a, exceptions, today)
  {
    hide Covered;
  }

  /** A later advisory with the same key is covered. */
  ghost predicate Hidden(log: seq<Advisory>, i: nat, exceptions: seq<Exception>, today: nat)
    requires i < |log|
  {
    exists j | i < j < |log| :: Key(log[j]) == Key(log[i]) && Covered(log[j], exceptions, today)
  }

  ghost predicate AllHidden(log: seq<Advisory>, exceptions: seq<Exception>, today: nat) {
    forall i | 0 <= i < |log| && Uncovered(log[i], exceptions, today) :: Hidden(log, i, exceptions, today)
  }

  /** The verdict passes exactly when each severe advisory without an exception is hidden by a later one with. */
  lemma PassesExactlyWhen(log: seq<Advisory>, exceptions: seq<Exception>, today: nat)
    requires forall a | a in log :: a.severity in SEVERITIES
    ensures Verdict(log, exceptions, today).passed <==> AllHidden(log, exceptions, today)
  {
    hide Key, Covered, Latest, FirstKeys, Severe, Uncovered;
    forall a ensures Uncovered(a, exceptions, today) <==> Severe(a.severity) && !Covered(a, exceptions, today) {
      UncoveredSevere(a, exceptions, today);
    }
    ValuesAre(log);
    var m, kept := Latest(log), Values(FirstKeys(log), Latest(log));
    if Verdict(log, exceptions, today).passed {
      forall i | 0 <= i < |log| && Uncovered(log[i], exceptions, today)
        ensures Hidden(log, i, exceptions, today)
      {
        SetIsKept(log, i);
        var j := LatestIsLast(log, Key(log[i]));
        SameSeverity(log[i], log[j]);
        assert log[j] in kept && log[j] !in Blocked(kept, exceptions, today);
      }
    } else {
      var a := Blocked(kept, exceptions, today)[0];
      assert a in Blocked(kept, exceptions, today);
      var k :| k in m && m[k] == a;
      var j := LatestIsLast(log, k);
      assert Uncovered(log[j], exceptions, today) && !Hidden(log, j, exceptions, today);
    }
  }

  /** Every severe advisory of the report has an exception. */
  ghost predicate AllCovered(report: Report, exceptions: seq<Exception>, today: nat) {
    forall a | Demands(report, a) :: Covered(a, exceptions, today)
  }

  lemma SoundSeverities(report: Report)
    requires Sound(report)
    ensures forall a | Reports(report, a) :: a.severity in SEVERITIES
  {
    forall a | Reports(report, a)
      ensures a.severity in SEVERITIES
    {
      assert !Defect(report, InvalidAdvisory(a.package));
    }
  }

  /**
   * For every report the audit accepts, dependencies included: its verdict differs from "every severe
   * advisory has an exception" exactly when some has none and each such is followed, in the order of
   * the search, by a covered one with its key. It never blocks a report whose advisories are all covered.
   */
  lemma WrongExactlyWhen(report: Report, exceptions: seq<Exception>, today: nat)
    requires report.NamesAreKeys() && Sound(report)
    ensures var log := SettingOrder(report);
            var passed := Verdict(log, exceptions, today).passed;
            && (AllCovered(report, exceptions, today) ==> passed)
            && (passed != AllCovered(report, exceptions, today) <==>
                  (exists a :: Demands(report, a) && !Covered(a, exceptions, today))
                  && AllHidden(log, exceptions, today))
  {
    hide Key, Covered, SettingOrder, Sound, Verdict, Reports, Hidden;
    SettingOrderComplete(report);
    SoundSeverities(report);
    PassesExactlyWhen(SettingOrder(report), exceptions, today);
  }

  /**
   * When severe advisories that share a key are covered together or not at all, the audit passes
   * exactly when every severe advisory has an exception.
   */
  lemma PassesUnlessMixed(report: Report, exceptions: seq<Exception>, today: nat)
    requires report.NamesAreKeys() && Sound(report)
    requires forall a, b | Demands(report, a) && Demands(report, b) && Key(a) == Key(b) ::
               Covered(a, exceptions, today) <==> Covered(b, exceptions, today)
    ensures Verdict(SettingOrder(report), exceptions, today).passed <==> AllCovered(report, exceptions, today)
  {
    hide Key, Covered, SettingOrder, Sound, Verdict, Reports;
    WrongExactlyWhen(report, exceptions, today);
    SettingOrderComplete(report);
    SoundSeverities(report);
    var log := SettingOrder(report);
    if a :| Demands(report, a) && !Covered(a, exceptions, today) {
      var i :| 0 <= i < |log| && log[i] == a;
      if Hidden(log, i, exceptions, today) {
        var j :| i < j < |log| && Key(log[j]) == Key(a) && Covered(log[j], exceptions, today);
        assert log[j] in log;
        SameSeverity(a, log[j]);
      }
    }
  }

  /** So it does when no package of the report is named after an excepted one with ":https" appended. */
  lemma PassesWhenCovered(report: Report, exceptions: seq<Exception>, today: nat)
    requires report.NamesAreKeys() && Sound(report)
    requires forall x | x in exceptions :: ':' !in x.package && x.package + ":https" !in report.rows
    ensures Verdict(SettingOrder(report), exceptions, today).passed <==> AllCovered(report, exceptions, today)
  {
    hide Key, AdvisoryId, SettingOrder, Verdict, Sound;
    forall a, b | Demands(report, a) && Demands(report, b) && Key(a) == Key(b) && Covered(a, exceptions, today)
      ensures Covered(b, exceptions, today)
    {
      var x :| x in exceptions && a.id == Some(x.id) && a.package == x.package && today <= x.expires;
      SharedKey(a, b);
    }
    PassesUnlessMixed(report, exceptions, today);
  }

  lemma DemandsSevere(report: Report, a: Advisory)
    ensures Demands(report, a) <==> Reports(report, a) && Severe(a.severity)
  {
    hide Reports;
  }

  /** The map keeps advisories of the report, one under the key of each severe one, as severe as it. */
  lemma Kept(report: Report)
    requires report.NamesAreKeys() && Sound(report)
    ensures var log := SettingOrder(report);
            var kept := Values(FirstKeys(log), Latest(log));
            && (forall a | a in kept :: Reports(report, a))
            && (forall a | Demands(report, a) :: exists b | b in kept :: Key(b) == Key(a) && Severe(b.severity))
  {
    hide Key, SettingOrder, Sound, Reports, Latest, FirstKeys, Severe;
    var log := SettingOrder(report);
    var m, kept := Latest(log), Values(FirstKeys(log), Latest(log));
    SettingOrderComplete(report);
    SoundSeverities(report);
    ValuesAre(log);
    forall a | a in kept
      ensures Reports(report, a)
    {
      var k :| k in m && m[k] == a;
      var j := LatestIsLast(log, k);
    }
    forall a | Demands(report, a)
      ensures exists b | b in kept :: Key(b) == Key(a) && Severe(b.severity)
    {
      DemandsSevere(report, a);
      var i :| 0 <= i < |log| && log[i] == a;
      SetIsKept(log, i);
      var j := LatestIsLast(log, Key(a));
      SameSeverity(a, log[j]);
      assert m[Key(a)] in kept;
    }
  }

  /** The verdict blocks only what is not covered, excepts only what is, and judges every key. */
  lemma VerdictJudges(report: Report, exceptions: seq<Exception>, today: nat)
    requires report.NamesAreKeys() && Sound(report)
    ensures var audit := Verdict(SettingOrder(report), exceptions, today);
            && (forall a | a in audit.blocked :: Demands(report, a) && !Covered(a, exceptions, today))
            && (forall e | e in audit.excepted ::
                  Demands(report, e.advisory)
                  && exists x | x in exceptions ::
                       && e.advisory.id == Some(x.id) && e.advisory.package == x.package
                       && today <= x.expires == e.expires && e.issue == x.issue)
            && (forall a | Demands(report, a) :: exists b :: Key(b) == Key(a) && Mentions(audit, b))
  {
    hide Key, Covered, SettingOrder, Sound, Reports, Latest, FirstKeys, Severe, Blocked, ExceptedAs, Demands;
    var log := SettingOrder(report);
    var kept, audit := Values(FirstKeys(log), Latest(log)), Verdict(log, exceptions, today);
    Kept(report);
    forall a
      ensures Demands(report, a) <==> Reports(report, a) && Severe(a.severity)
    {
      DemandsSevere(report, a);
    }
    forall a | Demands(report, a)
      ensures exists b :: Key(b) == Key(a) && Mentions(audit, b)
    {
      var b :| b in kept && Key(b) == Key(a) && Severe(b.severity);
      assert Mentions(audit, b);
    }
  }

  /** The verdict lists blocked and excepted advisories in the order their keys were first set. */
  lemma VerdictInOrder(log: seq<Advisory>, exceptions: seq<Exception>, today: nat)
    ensures var audit := Verdict(log, exceptions, today);
            && (forall i, j | 0 <= i < j < |audit.blocked| ::
                  SetBefore(log, Key(audit.blocked[i]), Key(audit.blocked[j])))
            && (forall i, j | 0 <= i < j < |audit.excepted| ::
                  SetBefore(log, Key(audit.excepted[i].advisory), Key(audit.excepted[j].advisory)))
  {
    hide Key, Latest, FirstKeys, Blocked, ExceptedAs, SetBefore;
    var keys, m, audit := FirstKeys(log), Latest(log), Verdict(log, exceptions, today);
    var kept := Values(keys, m);
    forall i, j | 0 <= i < j < |audit.blocked|
      ensures SetBefore(log, Key(audit.blocked[i]), Key(audit.blocked[j]))
    {
      var k, l := BlockedInOrder(kept, exceptions, today, i, j);
      KeptUnderOwnKey(log, keys[k]);
      KeptUnderOwnKey(log, keys[l]);
      FirstKeysInOrder(log, k, l);
    }
    forall i, j | 0 <= i < j < |audit.excepted|
      ensures SetBefore(log, Key(audit.excepted[i].advisory), Key(audit.excepted[j].advisory))
    {
      var k, l := ExceptedInOrder(kept, exceptions, today, i, j);
      KeptUnderOwnKey(log, keys[k]);
      KeptUnderOwnKey(log, keys[l]);
      FirstKeysInOrder(log, k, l);
    }
  }

  lemma KeptUnderOwnKey(log: seq<Advisory>, k: string)
    requires k in Latest(log)
    ensures Key(Latest(log)[k]) == k
  {
    hide Key, Latest;
    var j := LatestIsLast(log, k);
  }

  const HIDDEN_ID := "GHSA-vcc3-ghjq-m6fr"

  const HIDDEN_URL := ADVISORY_HOST + HIDDEN_ID

  lemma HiddenId()
    ensures IsGhsa(HIDDEN_ID)
  {
    assert HIDDEN_ID[5..9] == "vcc3" && HIDDEN_ID[10..14] == "ghjq" && HIDDEN_ID[15..] == "m6fr";
  }

  lemma HiddenUrl()
    ensures AdvisoryId(HIDDEN_URL) == None
    ensures AdvisoryId("https:" + HIDDEN_URL) == Some(HIDDEN_ID)
  {
    hide IsGhsa;
    HiddenId();
    var url := "https:" + HIDDEN_URL;
    assert url == ADVISORY_URL + HIDDEN_ID;
    assert url[|ADVISORY_URL|..] == HIDDEN_ID;
    assert HIDDEN_URL[0] == '/' && ADVISORY_URL[0] == 'h';
  }

  const COVERED := AdvisoryOf("decode-uri-component", Issue("high", "https:" + HIDDEN_URL))

  const UNCOVERED := AdvisoryOf("decode-uri-component:https", Issue("high", HIDDEN_URL))

  /** The two exceptions cover one package each under one advisory, and neither outlives its day. */
  lemma ExceptionsExpire(a: Advisory, today: nat)
    ensures Covered(a, AUDIT_EXCEPTIONS, today) <==>
              && today <= 20261114 && a.package == "decode-uri-component"
              && (a.id == Some("GHSA-vcc3-ghjq-m6fr") || a.id == Some("GHSA-qr28-fpjm-wq7f"))
    ensures forall x | x in AUDIT_EXCEPTIONS :: x.issue == "https://github.com/gridgoph/gridgo-api/issues/330"
  {
    assert AUDIT_EXCEPTIONS[0] in AUDIT_EXCEPTIONS && AUDIT_EXCEPTIONS[1] in AUDIT_EXCEPTIONS;
  }

  /** A covered advisory, and one that is not covered but has the same key and is read first. */
  const HIDING_REPORT := Report(
    false, 2, true, ["decode-uri-component:https", "decode-uri-component"],
    map["decode-uri-component:https" := Row("high", Some([Issue("high", HIDDEN_URL)])),
        "decode-uri-component" := Row("high", Some([Issue("high", "https:" + HIDDEN_URL)]))])

  /** With such a package the two advisories share a key. */
  lemma KeysCollide(today: nat)
    requires today <= 20261114
    ensures Key(COVERED) == Key(UNCOVERED)
    ensures Covered(COVERED, AUDIT_EXCEPTIONS, today) && !Covered(UNCOVERED, AUDIT_EXCEPTIONS, today)
    ensures Demands(HIDING_REPORT, UNCOVERED)
  {
    hide AdvisoryId;
    HiddenUrl();
    assert COVERED.package + ":" + COVERED.url == UNCOVERED.package + ":" + UNCOVERED.url;
    assert Covers(AUDIT_EXCEPTIONS[0], COVERED, today);
    assert HIDING_REPORT.rows[UNCOVERED.package].via.value[0] == Issue("high", HIDDEN_URL);
  }

  ghost predicate Direct(report: Report) { forall a, b :: !Edge(report, a, b) }

  lemma DirectReportSound(report: Report)
    requires report.WellShaped() && Direct(report)
    requires forall n | n in report.rows ::
               ValidEntry(report.rows[n]) && HasSevere(report, n)
               && forall v | v in report.rows[n].via.value :: ValidVia(v)
    ensures Sound(report)
  {
    hide HasSevere, Edge;
    forall e
      ensures !Defect(report, e)
    {
      match e {
        case CyclicDependency(n) => CycleHasEdge(report, n);
        case UnexplainedSeverity(n) =>
          if n in report.rows {
            assert LeadsToSevere(report, [n], n);
          }
        case _ =>
      }
    }
  }

  lemma HidingReportSound()
    ensures Sound(HIDING_REPORT) && HIDING_REPORT.NamesAreKeys()
  {
    hide Sound;
    var names, rows := HIDING_REPORT.names, HIDING_REPORT.rows;
    assert names[0] in rows && names[1] in rows && |names[0]| != |names[1]|;
    forall n | n in rows
      ensures HasSevere(HIDING_REPORT, n)
    {
      assert rows[n].via.value[0].severity == "high";
    }
    DirectReportSound(HIDING_REPORT);
  }

  lemma VisitSingle(report: Report, name: string, v: Via, done: set<string>)
    requires name in report.rows && report.rows[name].via == Some([v]) && v.Issue? && name !in done
    ensures Visit(report, name, {}, done) == Trace([AdvisoryOf(name, v)], done + {name})
  {
    hide AdvisoryOf;
    NothingVisited(report, name, {name}, [v], done);
    VisitOneMore(report, name, {name}, [v], 0, done);
    assert {} + {name} == {name};
  }

  lemma HidingOrder()
    ensures SettingOrder(HIDING_REPORT) == [UNCOVERED, COVERED]
  {
    hide Visit, AdvisoryOf;
    var bad, good := HIDING_REPORT.names[0], HIDING_REPORT.names[1];
    assert |bad| != |good|;
    VisitSingle(HIDING_REPORT, bad, Issue("high", HIDDEN_URL), {});
    VisitSingle(HIDING_REPORT, good, Issue("high", "https:" + HIDDEN_URL), {} + {bad});
    assert VisitAll(HIDING_REPORT, 0) == Trace([], {});
    assert VisitAll(HIDING_REPORT, 1) == Trace([] + [UNCOVERED], {} + {bad});
    assert VisitAll(HIDING_REPORT, 2).log == [] + [UNCOVERED] + [COVERED];
  }

  /** An entry's reasons are read in order, and a dependency's advisories where it is first met. */
  lemma NestedOrder(report: Report, a: string, b: string, x: Via, y: Via, z: Via)
    requires a != b && x.Issue? && y.Issue? && z.Issue? && report.names == [a, b]
    requires a in report.rows && report.rows[a].via == Some([x, Package(b), y])
    requires b in report.rows && report.rows[b].via == Some([z])
    ensures SettingOrder(report) == [AdvisoryOf(a, x), AdvisoryOf(b, z), AdvisoryOf(a, y)]
  {
    hide AdvisoryOf;
    var via := [x, Package(b), y];
    NothingVisited(report, a, {a}, via, {});
    VisitOneMore(report, a, {a}, via, 0, {});
    NestedSingle(report, a, b, z);
    VisitOneMore(report, a, {a}, via, 1, {});
    VisitOneMore(report, a, {a}, via, 2, {});
    assert {} + {a} == {a};
    assert Visit(report, a, {}, {}).log == [AdvisoryOf(a, x), AdvisoryOf(b, z), AdvisoryOf(a, y)];
    assert VisitAll(report, 0) == Trace([], {});
    assert VisitAll(report, 1) == Trace([] + Visit(report, a, {}, {}).log, {b} + {a});
    assert Visit(report, b, {}, {b} + {a}).log == [];
  }

  lemma NestedSingle(report: Report, a: string, b: string, z: Via)
    requires a != b && z.Issue? && b in report.rows && report.rows[b].via == Some([z])
    ensures Visit(report, b, {a}, {}) == Trace([AdvisoryOf(b, z)], {b})
  {
    hide AdvisoryOf;
    NothingVisited(report, b, {a} + {b}, [z], {});
    VisitOneMore(report, b, {a} + {b}, [z], 0, {});
  }

  /** The audit accepts and passes a report although one of its severe advisories has no exception. */
  lemma PassesUncovered(today: nat)
    requires today <= 20261114
    ensures HIDING_REPORT.NamesAreKeys() && Sound(HIDING_REPORT)
    ensures Verdict(SettingOrder(HIDING_REPORT), AUDIT_EXCEPTIONS, today).passed
    ensures Demands(HIDING_REPORT, UNCOVERED) && !Covered(UNCOVERED, AUDIT_EXCEPTIONS, today)
  {
    hide *;
    HidingReportSound();
    KeysCollide(today);
    HidingOrder();
    LaterHides(today);
  }

  lemma LaterHides(today: nat)
    requires Key(COVERED) == Key(UNCOVERED) && Covered(COVERED, AUDIT_EXCEPTIONS, today)
    ensures Verdict([UNCOVERED, COVERED], AUDIT_EXCEPTIONS, today).passed
  {
    hide Key, AdvisoryId, Covered, Verdict;
    var log := [UNCOVERED, COVERED];
    assert log[1] == COVERED;
    PassesExactlyWhen(log, AUDIT_EXCEPTIONS, today);
  }
}
