/** Staged activation with automatic verification and verified rollback, over every behaviour of the
    deployment service, the edge, the history endpoint and the report writer. */
module ControlledPromotion {
  import opened Wrappers

  // ---------------------------------------------------------------- the control plane's answer

  datatype Deployment = Deployment(createdOn: int, versions: seq<(string, int)>)

  datatype ActiveAnswer = Active(version: string) | Refused | NoDeployments

  /** The deployment `max(..., key=created_on)` picks: the first of the latest ones. */
  function LatestOf(ds: seq<Deployment>): (i: nat)
    requires ds != []
    ensures i < |ds|
    ensures forall k | 0 <= k < |ds| :: ds[k].createdOn <= ds[i].createdOn
    ensures forall k | 0 <= k < i :: ds[k].createdOn < ds[i].createdOn
  {
    if |ds| == 1 then 0
    else
      var i := LatestOf(ds[..|ds| - 1]);
      if ds[i].createdOn < ds[|ds| - 1].createdOn then |ds| - 1 else i
  }

  predicate Newest(d: Deployment, ds: seq<Deployment>) {
    forall e | e in ds :: e.createdOn <= d.createdOn
  }

  /** Split traffic, an unknown version and stale array order are all rejected. */
  function SingleActiveVersion(valid: string -> bool, ds: seq<Deployment>): (r: ActiveAnswer)
    ensures r.Active? ==> valid(r.version)
    ensures r.Active? ==> exists d | d in ds :: d.versions == [(r.version, 100)] && Newest(d, ds)
    ensures ds != [] && (forall d | d in ds && Newest(d, ds) :: exists v :: valid(v) && d.versions == [(v, 100)])
            ==> r.Active?
    ensures r.NoDeployments? <==> ds == []
  {
    if ds == [] then NoDeployments
    else
      var latest := ds[LatestOf(ds)];
      assert latest in ds && Newest(latest, ds);
      if |latest.versions| == 1 && latest.versions[0].1 == 100 && valid(latest.versions[0].0)
      then
        assert latest.versions == [(latest.versions[0].0, 100)];
        Active(latest.versions[0].0)
      else Refused
  }

  /** One `deployments list` call; TimedOut stands for every exception that is not retried. */
  datatype Listing = CommandFailed | NotJson | TimedOut | Listed(deployments: seq<Deployment>)

  /** The answer a listing gives, if it settles the question: a version, or an exception (None) that ends
      the attempts. A failed command, unreadable JSON and a refused deployment are retried instead, unless
      the diagnostic that is then written raises. */
  function Settled(env: Environment, n: nat): Option<Option<string>> {
    var retried := if env.logged(n) then None else Some(None);
    match env.listing(n)
    case TimedOut => Some(None)
    case Listed(ds) =>
      (match SingleActiveVersion(env.valid, ds)
       case Active(version) => Some(Some(version))
       case NoDeployments => Some(None)
       case Refused => retried)
    case _ => retried
  }

  /** What a route request comes to: a 404 whose diagnostic cannot be written raises. */
  function Answer(env: Environment, n: nat): RouteReply {
    if NotFound(env.route(n)) && !env.routeLogged(n) then RouteRaised else env.route(n)
  }

  datatype EdgeReply = EdgeRaised | EdgeAnswered(version: Option<string>)

  datatype HistoryReply = HistoryRaised | HistoryRead(history: string)

  datatype RouteReply = RouteRaised | RouteAnswered(status: nat, ofRelease: bool)

  predicate NotFound(reply: RouteReply) {
    reply.RouteAnswered? && reply.status == 404
  }

  predicate Accepted(reply: RouteReply) {
    reply == RouteAnswered(200, true)
  }

  const WORKER := "zion-financial-serving-v2-thin-staging"

  datatype Pin = Pin(key: string, sha: string)

  /** The files the preflight compares: the worker configuration (its name and variables), the publication
      report (its status and the root it names), the root manifest (its bytes, the financial manifest and the
      implementation digests it pins), the sources beside the worker, and whether they are committed. */
  datatype Files = Files(
    digest: string -> string, worker: string, variables: map<string, string>, published: string, root: Pin,
    rootRaw: string, financial: Pin, implementations: map<string, string>, sources: map<string, string>,
    committed: bool)

  predicate Configured(variables: map<string, string>, prefix: string, pin: Pin) {
    && prefix + "_KEY" in variables && variables[prefix + "_KEY"] == pin.key
    && prefix + "_SHA256" in variables && variables[prefix + "_SHA256"] == pin.sha
  }

  /** The configuration, the publication, the manifest's bytes and the sources all agree. */
  predicate GatesHold(f: Files) {
    && f.worker == WORKER && f.published == "PASS" && f.digest(f.rootRaw) == f.root.sha
    && Configured(f.variables, "UNIFIED_RESEARCH_MANIFEST", f.root)
    && Configured(f.variables, "SEC_ENGINE_MANIFEST", f.financial)
    && (forall name | name in f.implementations ::
          name in f.sources && f.digest(f.sources[name]) == f.implementations[name])
    && f.committed
  }

  /** That is, one by one: */
  lemma GatesMean(f: Files)
    ensures GatesHold(f) <==>
      && f.worker == "zion-financial-serving-v2-thin-staging" && f.published == "PASS"
      && f.digest(f.rootRaw) == f.root.sha
      && "UNIFIED_RESEARCH_MANIFEST_KEY" in f.variables && "UNIFIED_RESEARCH_MANIFEST_SHA256" in f.variables
      && f.variables["UNIFIED_RESEARCH_MANIFEST_KEY"] == f.root.key
      && f.variables["UNIFIED_RESEARCH_MANIFEST_SHA256"] == f.root.sha
      && "SEC_ENGINE_MANIFEST_KEY" in f.variables && "SEC_ENGINE_MANIFEST_SHA256" in f.variables
      && f.variables["SEC_ENGINE_MANIFEST_KEY"] == f.financial.key
      && f.variables["SEC_ENGINE_MANIFEST_SHA256"] == f.financial.sha
      && (forall name | name in f.implementations ::
            name in f.sources && f.digest(f.sources[name]) == f.implementations[name])
      && f.committed
  {
    Names();
  }

  lemma Names()
    ensures "UNIFIED_RESEARCH_MANIFEST" + "_KEY" == "UNIFIED_RESEARCH_MANIFEST_KEY"
    ensures "UNIFIED_RESEARCH_MANIFEST" + "_SHA256" == "UNIFIED_RESEARCH_MANIFEST_SHA256"
    ensures "SEC_ENGINE_MANIFEST" + "_KEY" == "SEC_ENGINE_MANIFEST_KEY"
    ensures "SEC_ENGINE_MANIFEST" + "_SHA256" == "SEC_ENGINE_MANIFEST_SHA256"
  {
  }

  /** Everything the outside may answer, indexed by how often it has been asked. */
  datatype Environment = Environment(
    listing: nat -> Listing, edge: nat -> EdgeReply, history: nat -> HistoryReply, route: nat -> RouteReply,
    logged: nat -> bool, routeLogged: nat -> bool, files: Files, deploys: nat -> bool, cohort: Option<bool>,
    records: nat -> bool, valid: string -> bool)

  // ---------------------------------------------------------------- reports

  datatype Status =
    | Preflight | PreflightFailed | Activating | Verifying | Pass | RollingBack | RolledBack | RollbackUnverified

  datatype Report = Report(status: Status, events: seq<Status>, rollbackVerified: bool)

  // ---------------------------------------------------------------- what the outside answers

  /** Listings from `n` on, up to but not including `limit`: the first that settles the question decides,
      and with none there is no version. */
  function Settling(env: Environment, n: nat, limit: nat): (r: (Option<string>, nat))
    decreases limit - n
  {
    if n >= limit then (None, n)
    else
      match Settled(env, n)
      case Some(answer) => (answer, n + 1)
      case None => Settling(env, n + 1, limit)
  }

  /** One reading of the control plane: at most three listings. */
  function ReadActive(env: Environment, n: nat): (Option<string>, nat) {
    Settling(env, n, n + ATTEMPTS)
  }

  /** The next listing after `count` readings. */
  function AfterReadings(env: Environment, n: nat, count: nat): nat {
    if count == 0 then n else ReadActive(env, AfterReadings(env, n, count - 1)).1
  }

  function Reading(env: Environment, n: nat, k: nat): Option<string> {
    ReadActive(env, AfterReadings(env, n, k)).0
  }

  /** Requests from `n` on, up to but not including `limit`: the first that is not a 404, or the last. */
  function Answering(env: Environment, n: nat, limit: nat): (RouteReply, nat)
    requires n < limit
    decreases limit - n
  {
    if n + 1 == limit || !NotFound(Answer(env, n)) then (Answer(env, n), n + 1) else Answering(env, n + 1, limit)
  }

  /** The reply that stands for one route: at most five requests. */
  function ReadRoute(env: Environment, n: nat): (RouteReply, nat) {
    Answering(env, n, n + ROUTE_ATTEMPTS)
  }

  function AfterRoutes(env: Environment, n: nat, count: nat): nat {
    if count == 0 then n else ReadRoute(env, AfterRoutes(env, n, count - 1)).1
  }

  /** The listing failed, was not JSON, or was refused, and the diagnostic could be written. */
  ghost predicate Retried(env: Environment, n: nat) {
    && env.logged(n)
    && (env.listing(n) in {CommandFailed, NotJson}
        || (env.listing(n).Listed? && SingleActiveVersion(env.valid, env.listing(n).deployments) == Refused))
  }

  /** Listing `k` shows the version active, and those from `n` to it were retried. */
  ghost predicate ShowsAfter(env: Environment, n: nat, k: nat, version: string) {
    && env.listing(k).Listed? && SingleActiveVersion(env.valid, env.listing(k).deployments) == Active(version)
    && forall j: nat | n <= j < k :: Retried(env, j)
  }

  /** A reading of the control plane returns a version exactly when one of three listings shows it active and
      those before it were retried. */
  lemma ReadActiveMeans(env: Environment, n: nat, version: string)
    ensures ReadActive(env, n).0 == Some(version) <==>
            exists k: nat | n <= k < n + 3 :: ShowsAfter(env, n, k, version)
  {
    SettlingMeans(env, n, n + 3, version);
  }

  lemma {:induction false} SettlingMeans(env: Environment, n: nat, limit: nat, version: string)
    ensures Settling(env, n, limit).0 == Some(version) <==> SettlesOn(env, n, limit, version)
    decreases limit - n
  {
    if n < limit {
      SettlingMeans(env, n + 1, limit, version);
      assert Settled(env, n).None? <==> Retried(env, n);
      if SettlesOn(env, n + 1, limit, version) && Retried(env, n) {
        var k: nat :| n + 1 <= k < limit && ShowsAfter(env, n + 1, k, version);
        assert ShowsAfter(env, n, k, version);
      }
      if SettlesOn(env, n, limit, version) {
        var k: nat :| n <= k < limit && ShowsAfter(env, n, k, version);
        if k > n { assert Retried(env, n) && ShowsAfter(env, n + 1, k, version); }
      }
      if Settled(env, n) == Some(Some(version)) { assert ShowsAfter(env, n, n, version); }
    }
  }

  ghost predicate SettlesOn(env: Environment, n: nat, limit: nat, version: string) {
    exists k: nat | n <= k < limit :: ShowsAfter(env, n, k, version)
  }

  ghost predicate MissedAt(env: Environment, n: nat) {
    env.route(n).RouteAnswered? && env.route(n).status == 404 && env.routeLogged(n)
  }

  ghost predicate PassesAfter(env: Environment, n: nat, k: nat) {
    env.route(k) == RouteAnswered(200, true) && forall j: nat | n <= j < k :: MissedAt(env, j)
  }

  /** A route passes exactly when one of five requests is answered 200 from the release and those before it were
      answered 404 with the diagnostic written. */
  lemma ReadRouteMeans(env: Environment, n: nat)
    ensures ReadRoute(env, n).0 == RouteAnswered(200, true) <==>
            exists k: nat | n <= k < n + 5 :: PassesAfter(env, n, k)
  {
    AnsweringMeans(env, n, n + 5);
  }

  lemma {:induction false} AnsweringMeans(env: Environment, n: nat, limit: nat)
    requires n < limit
    ensures Answering(env, n, limit).0 == RouteAnswered(200, true) <==> PassesBefore(env, n, limit)
    decreases limit - n
  {
    if env.route(n) == RouteAnswered(200, true) {
      assert PassesAfter(env, n, n);
    } else if !MissedAt(env, n) || n + 1 == limit {
      forall k: nat | n <= k < limit ensures !PassesAfter(env, n, k) {
        if k > n { assert n <= n < k; }
      }
    } else {
      AnsweringMeans(env, n + 1, limit);
      if PassesBefore(env, n + 1, limit) {
        var k: nat :| n + 1 <= k < limit && PassesAfter(env, n + 1, k);
        assert PassesAfter(env, n, k);
      }
      if PassesBefore(env, n, limit) {
        var k: nat :| n <= k < limit && PassesAfter(env, n, k);
        assert k > n && PassesAfter(env, n + 1, k);
      }
    }
  }

  ghost predicate PassesBefore(env: Environment, n: nat, limit: nat) {
    exists k: nat | n <= k < limit :: PassesAfter(env, n, k)
  }

  const ATTEMPTS: nat := 3
  const ROUTE_ATTEMPTS: nat := 5
  const WAITS: nat := 30

  /** What one activation or rollback was seen to do: whether its deploy command succeeded, every version
      the control plane and the edge reported afterwards, the route replies, and the history then read;
      and from which answer of the outside on each of them was read. */
  datatype Evidence = Evidence(
    attempted: nat, deployed: bool, active: seq<string>, edge: seq<Option<string>>, routes: seq<RouteReply>,
    history: Option<string>, commandAt: nat, activeFrom: nat, edgeFrom: nat, routesFrom: nat, historyAt: nat)

  /** The version was deployed, then observed on the control plane, then on the edge, and the baseline
      history was then reproduced. */
  predicate Observed(e: Evidence, version: string, baseline: string) {
    e.deployed && version in e.active && Some(version) in e.edge && e.history == Some(baseline)
  }

  predicate RoutesPassed(e: Evidence) {
    |e.routes| == 4 && forall reply | reply in e.routes :: Accepted(reply)
  }

  /** The evidence is what the outside answered, in consecutive readings. */
  ghost predicate Genuine(env: Environment, e: Evidence) {
    && (e.attempted > 0 ==> e.deployed == env.deploys(e.commandAt))
    && SeenActive(env, e.activeFrom, e.active)
    && SeenEdge(env, e.edgeFrom, e.edge)
    && SeenRoutes(env, e.routesFrom, e.routes)
    && (e.history.Some? ==> env.history(e.historyAt) == HistoryRead(e.history.value))
  }

  ghost predicate ServesActive(env: Environment, from: nat, version: string) {
    forall n: nat | n >= from :: ReadActive(env, n).0 == Some(version)
  }

  ghost predicate ServesEdge(env: Environment, from: nat, version: string) {
    forall n: nat | n >= from :: env.edge(n) == EdgeAnswered(Some(version))
  }

  ghost predicate ServesRoutes(env: Environment, from: nat) {
    forall n: nat | n >= from :: Answer(env, n) == RouteAnswered(200, true)
  }

  /** The deploy command succeeded and, from the first answer the evidence was read from, the outside serves
      the version everywhere. */
  ghost predicate Healthy(env: Environment, e: Evidence, version: string, baseline: string) {
    && e.deployed && ServesActive(env, e.activeFrom, version) && ServesEdge(env, e.edgeFrom, version)
    && ServesRoutes(env, e.routesFrom) && env.history(e.historyAt) == HistoryRead(baseline)
  }

  lemma {:induction false} AfterReadingsLater(env: Environment, n: nat, count: nat)
    ensures AfterReadings(env, n, count) >= n
  {
    if count > 0 {
      AfterReadingsLater(env, n, count - 1);
      SettlingLater(env, AfterReadings(env, n, count - 1), AfterReadings(env, n, count - 1) + ATTEMPTS);
    }
  }

  lemma {:induction false} SettlingLater(env: Environment, n: nat, limit: nat)
    ensures Settling(env, n, limit).1 >= n
    decreases limit - n
  {
    if n < limit { SettlingLater(env, n + 1, limit); }
  }

  lemma ReadingServed(env: Environment, from: nat, k: nat, version: string)
    ensures ServesActive(env, from, version) ==> Reading(env, from, k) == Some(version)
  {
    AfterReadingsLater(env, from, k);
  }

  lemma {:induction false} AfterRoutesLater(env: Environment, n: nat, count: nat)
    ensures AfterRoutes(env, n, count) >= n
  {
    if count > 0 {
      AfterRoutesLater(env, n, count - 1);
      AnsweringLater(env, AfterRoutes(env, n, count - 1), AfterRoutes(env, n, count - 1) + ROUTE_ATTEMPTS);
    }
  }

  lemma {:induction false} AnsweringLater(env: Environment, n: nat, limit: nat)
    requires n < limit
    ensures Answering(env, n, limit).1 > n
    decreases limit - n
  {
    if n + 1 < limit { AnsweringLater(env, n + 1, limit); }
  }

  ghost predicate SeenActive(env: Environment, from: nat, seen: seq<string>) {
    forall k | 0 <= k < |seen| :: Reading(env, from, k) == Some(seen[k])
  }

  ghost predicate SeenEdge(env: Environment, from: nat, seen: seq<Option<string>>) {
    forall k | 0 <= k < |seen| :: env.edge(from + k) == EdgeAnswered(seen[k])
  }

  ghost predicate SeenRoutes(env: Environment, from: nat, replies: seq<RouteReply>) {
    forall k | 0 <= k < |replies| :: ReadRoute(env, AfterRoutes(env, from, k)).0 == replies[k]
  }

  /** The event lists a run can end with. */
  function Trails(status: Status): set<seq<Status>> {
    match status
    case PreflightFailed => {[]}
    case Pass => {[Activating, Verifying, Pass]}
    case RolledBack => {[Activating, RollingBack, RolledBack], [Activating, Verifying, RollingBack, RolledBack]}
    case RollbackUnverified =>
      {[Activating, RollingBack, RollbackUnverified], [Activating, Verifying, RollingBack, RollbackUnverified]}
    case _ => {}
  }

  const BEFORE_ROLLBACK: set<seq<Status>> := {[Activating], [Activating, Verifying]}

  lemma TrailsEnd(trail: seq<Status>, end: Status)
    requires end in {RolledBack, RollbackUnverified}
    ensures trail in BEFORE_ROLLBACK ==> trail + [RollingBack] + [end] in Trails(end)
  {
    assert [Activating] + [RollingBack] + [end] == [Activating, RollingBack, end];
    assert [Activating, Verifying] + [RollingBack] + [end] == [Activating, Verifying, RollingBack, end];
  }

  const NOTHING := Evidence(0, false, [], [], [], None, 0, 0, 0, 0, 0)

  datatype Ended = Returned(report: Report) | RecordRaised(at: Status)

  class Promotion {
    const env: Environment
    const candidate: string
    const previous: string
    const drill: bool
    var listings: nat
    var edges: nat
    var histories: nat
    var routes: nat
    var commands: nat
    var records: nat
    var baseline: Option<string>
    var forward: Evidence
    var backward: Evidence
    var report: Report

    constructor (env: Environment, candidate: string, previous: string, drill: bool)
      ensures this.env == env && this.candidate == candidate && this.previous == previous && this.drill == drill
      ensures Untouched()
    {
      this.env, this.candidate, this.previous, this.drill := env, candidate, previous, drill;
      listings, edges, histories, routes, commands, records := 0, 0, 0, 0, 0, 0;
      baseline, forward, backward := None, NOTHING, NOTHING;
      report := Report(Preflight, [], false);
    }

    /** Nothing has been asked yet. */
    ghost predicate Untouched()
      reads this
    {
      && report == Report(Preflight, [], false) && baseline == None && forward == NOTHING && backward == NOTHING
      && listings == edges == histories == routes == commands == records == 0
    }

    /** Up to three attempts: the first listing that settles the question decides, and with none there
        is no version. */
    method ActiveVersion() returns (r: Option<string>)
      modifies this`listings
      ensures (r, listings) == ReadActive(env, old(listings))
    {
      var attempt := 0;
      while attempt < ATTEMPTS
        invariant 0 <= attempt <= ATTEMPTS && listings == old(listings) + attempt
        invariant ReadActive(env, old(listings)) == Settling(env, listings, old(listings) + ATTEMPTS)
      {
        var settled := Settled(env, listings);
        listings := listings + 1;
        if settled.Some? {
          return settled.value;
        }
        attempt := attempt + 1;
      }
      r := None;
    }

    /** `wait_for_version` on the control plane: thirty readings at most. It succeeds exactly when the
        expected version is among those read, and gives up only after all thirty or when one fails. */
    method WaitForActive(expected: string) returns (ok: bool, seen: seq<string>)
      modifies this`listings
      ensures ok <==> expected in seen
      ensures |seen| <= 30 && SeenActive(env, old(listings), seen)
      ensures !ok ==> |seen| == 30 || Reading(env, old(listings), |seen|) == None
      ensures ServesActive(env, old(listings), expected) ==> ok
    {
      seen := [];
      while |seen| < WAITS
        invariant |seen| <= WAITS && expected !in seen
        invariant SeenActive(env, old(listings), seen) && listings == AfterReadings(env, old(listings), |seen|)
        decreases WAITS - |seen|
      {
        ReadingServed(env, old(listings), |seen|, expected);
        var version := ActiveVersion();
        if version.None? {
          return false, seen;
        }
        seen := seen + [version.value];
        if version.value == expected {
          return true, seen;
        }
      }
      ReadingServed(env, old(listings), 0, expected);
      assert Reading(env, old(listings), 0) == Some(seen[0]) && seen[0] in seen;
      ok := false;
    }

    /** `wait_for_version` on the edge. */
    method WaitForEdge(expected: string) returns (ok: bool, seen: seq<Option<string>>)
      modifies this`edges
      ensures ok <==> Some(expected) in seen
      ensures |seen| <= 30 && SeenEdge(env, old(edges), seen)
      ensures !ok ==> |seen| == 30 || env.edge(old(edges) + |seen|) == EdgeRaised
      ensures ServesEdge(env, old(edges), expected) ==> ok
    {
      seen := [];
      while |seen| < WAITS
        invariant |seen| <= WAITS && Some(expected) !in seen
        invariant SeenEdge(env, old(edges), seen) && edges == old(edges) + |seen|
        decreases WAITS - |seen|
      {
        var reply := env.edge(edges);
        edges := edges + 1;
        if reply.EdgeRaised? {
          return false, seen;
        }
        seen := seen + [reply.version];
        if reply.version == Some(expected) {
          return true, seen;
        }
      }
      assert env.edge(old(edges) + 0) == EdgeAnswered(seen[0]) && seen[0] in seen;
      ok := false;
    }

    method CurrentHistory() returns (r: Option<string>)
      modifies this`histories
      ensures histories == old(histories) + 1
      ensures match env.history(old(histories)) case HistoryRead(h) => r == Some(h) case HistoryRaised => r == None
    {
      var reply := env.history(histories);
      histories := histories + 1;
      r := if reply.HistoryRead? then Some(reply.history) else None;
    }

    /** The gates, the previous version still active, and a history to compare with later. */
    method RunPreflight() returns (ok: bool)
      requires Untouched()
      modifies this`listings, this`histories, this`baseline
      ensures ok <==> GatesHold(env.files) && Reading(env, 0, 0) == Some(previous) && env.history(0).HistoryRead?
      ensures ok ==> env.files.worker == "zion-financial-serving-v2-thin-staging" && env.files.published == "PASS"
      ensures ok ==> env.files.digest(env.files.rootRaw) == env.files.root.sha && env.files.committed
      ensures baseline.Some? <==> ok
      ensures ok ==> env.history(0) == HistoryRead(baseline.value) && histories == 1
    {
      if !GatesHold(env.files) {
        return false;
      }
      var active := ActiveVersion();
      if active != Some(previous) {
        return false;
      }
      baseline := CurrentHistory();
      ok := baseline.Some?;
    }

    method Activate() returns (ok: bool)
      modifies this`commands, this`forward
      ensures commands == old(commands) + 1 && ok == env.deploys(old(commands))
      ensures forward == NOTHING.(attempted := old(forward.attempted) + 1, deployed := ok, commandAt := old(commands))
    {
      ok := env.deploys(commands);
      forward := NOTHING.(attempted := forward.attempted + 1, deployed := ok, commandAt := commands);
      commands := commands + 1;
    }

    method Rollback() returns (ok: bool)
      modifies this`commands, this`backward
      ensures commands == old(commands) + 1 && ok == env.deploys(old(commands))
      ensures backward == NOTHING.(attempted := old(backward.attempted) + 1, deployed := ok, commandAt := old(commands))
    {
      ok := env.deploys(commands);
      backward := NOTHING.(attempted := backward.attempted + 1, deployed := ok, commandAt := commands);
      commands := commands + 1;
    }

    method AskRoute() returns (reply: RouteReply)
      modifies this`routes
      ensures (reply, routes) == ReadRoute(env, old(routes))
    {
      var attempt := 1;
      reply := Answer(env, routes);
      routes := routes + 1;
      while attempt < ROUTE_ATTEMPTS && NotFound(reply)
        invariant 1 <= attempt <= ROUTE_ATTEMPTS && routes == old(routes) + attempt && reply == Answer(env, routes - 1)
        invariant ReadRoute(env, old(routes)) == Answering(env, routes - 1, old(routes) + ROUTE_ATTEMPTS)
      {
        reply := Answer(env, routes);
        routes := routes + 1;
        attempt := attempt + 1;
      }
    }

    /** The four routes, in order: the check passes exactly when each of them settled on a 200 of the
        candidate's release, and stops at the first that did not. */
    method CheckRoutes() returns (ok: bool, replies: seq<RouteReply>)
      modifies this`routes
      ensures ok <==> |replies| == 4 && forall reply | reply in replies :: reply == RouteAnswered(200, true)
      ensures 0 < |replies| <= 4 && forall k | 0 <= k < |replies| - 1 :: Accepted(replies[k])
      ensures SeenRoutes(env, old(routes), replies)
      ensures !ok ==> !Accepted(replies[|replies| - 1])
      ensures ServesRoutes(env, old(routes)) ==> ok
    {
      replies := [];
      while |replies| < 4
        invariant |replies| <= 4
        invariant forall reply | reply in replies :: Accepted(reply)
        invariant SeenRoutes(env, old(routes), replies) && routes == AfterRoutes(env, old(routes), |replies|)
        decreases 4 - |replies|
      {
        AfterRoutesLater(env, old(routes), |replies|);
        var reply := AskRoute();
        replies := replies + [reply];
        if !Accepted(reply) {
          assert reply in replies;
          return false, replies;
        }
      }
      ok := true;
    }

    /** Verification of the candidate succeeds exactly when it was observed everywhere, the routes
        answered, the baseline was reproduced, the cohort run (if any) passed, and this is no drill. */
    method Verify() returns (ok: bool)
      requires baseline.Some? && Activated(forward, forward.commandAt)
      modifies this`listings, this`edges, this`histories, this`routes, this`forward
      ensures forward.attempted == 1 && forward.commandAt == old(forward.commandAt) && Genuine(env, forward)
      ensures forward.activeFrom == old(listings) && forward.edgeFrom == old(edges)
      ensures forward.routesFrom == old(routes) && forward.historyAt == old(histories)
      ensures old(histories) <= histories && (forward.history.Some? ==> forward.historyAt < histories)
      ensures ok <==> Verified()
      ensures Healthy(env, forward, candidate, baseline.value) ==> CandidateObserved()
    {
      forward := forward.(activeFrom := listings, edgeFrom := edges, routesFrom := routes, historyAt := histories);
      var active, versions := WaitForActive(candidate);
      forward := forward.(active := versions);
      if !active {
        return false;
      }
      var edge, replies := WaitForEdge(candidate);
      forward := forward.(edge := replies);
      if !edge {
        return false;
      }
      var passed, answers := CheckRoutes();
      forward := forward.(routes := answers);
      if !passed {
        return false;
      }
      var history := CurrentHistory();
      forward := forward.(history := history);
      if history != baseline {
        return false;
      }
      if env.cohort == Some(false) {
        return false;
      }
      ok := !drill;
    }

    /** Verification of the previous version after a rollback. */
    method VerifyPrevious() returns (ok: bool)
      requires baseline.Some? && Activated(backward, backward.commandAt)
      modifies this`listings, this`edges, this`histories, this`backward
      ensures backward.attempted == 1 && backward.commandAt == old(backward.commandAt) && Genuine(env, backward)
      ensures backward.activeFrom == old(listings) && backward.edgeFrom == old(edges)
      ensures backward.routesFrom == routes && backward.historyAt == old(histories)
      ensures ok <==> Observed(backward, previous, baseline.value)
      ensures Healthy(env, backward, previous, baseline.value) ==> ok
    {
      backward := backward.(activeFrom := listings, edgeFrom := edges, routesFrom := routes, historyAt := histories);
      var active, versions := WaitForActive(previous);
      backward := backward.(active := versions);
      if !active {
        return false;
      }
      var edge, replies := WaitForEdge(previous);
      backward := backward.(edge := replies);
      if !edge {
        return false;
      }
      var history := CurrentHistory();
      backward := backward.(history := history);
      ok := history == baseline;
    }

    /** The deploy command succeeded and nothing has been observed since. */
    predicate Activated(e: Evidence, at: nat)
      reads this
    {
      env.deploys(at) && e == NOTHING.(attempted := 1, deployed := true, commandAt := at)
    }

    /** Writes the report; the writer may raise. */
    method Record() returns (ok: bool)
      modifies this`records
      ensures records == old(records) + 1 && ok == env.records(old(records))
    {
      ok := env.records(records);
      records := records + 1;
    }

    method Stage(status: Status) returns (ok: bool)
      modifies this`report, this`records
      ensures report == old(report).(status := status, events := old(report.events) + [status])
      ensures records == old(records) + 1 && ok == env.records(old(records))
    {
      report := report.(status := status, events := report.events + [status]);
      ok := Record();
    }

    /** The candidate half: true when it reached PASS and that could be recorded. Each stage is the next
        record, so the stages passed say which record comes next. */
    method Forward() returns (ok: bool)
      requires baseline.Some? && forward == NOTHING && commands == 0 && records == 1 && report.events == [Activating]
      modifies this`listings, this`edges, this`histories, this`routes, this`commands, this`records,
        this`forward, this`report
      requires histories >= 1
      ensures Activation() && commands == 1
      ensures histories >= 1 && (forward.history.Some? ==> forward.historyAt < histories)
      ensures report.rollbackVerified == old(report.rollbackVerified)
      ensures ok <==> Verified() && env.records(2)
      ensures ok ==> report.status == Pass && report.events in Trails(Pass)
      ensures !ok && AllRecord() ==> report.events in BEFORE_ROLLBACK
      ensures records == |report.events| && (!ok ==> records == Announcement())
    {
      var activated := Activate();
      if !activated {
        return false;
      }
      var staged := Stage(Verifying);
      assert report.events == [Activating, Verifying];
      if !staged {
        return false;
      }
      var verified := Verify();
      if !verified {
        return false;
      }
      ok := Stage(Pass);
      assert report.events == [Activating, Verifying, Pass];
    }

    /** The rollback half: true when the previous version was verified and that could be recorded. */
    method Backward() returns (ok: bool)
      requires baseline.Some? && backward == NOTHING && !report.rollbackVerified && commands == 1
      requires records == |report.events|
      modifies this`listings, this`edges, this`histories, this`commands, this`records, this`backward, this`report
      ensures backward.attempted == 1 && backward.commandAt == 1 && Genuine(env, backward)
      ensures backward.history.Some? ==> backward.historyAt >= old(histories)
      ensures report.rollbackVerified <==> Observed(backward, previous, baseline.value)
      ensures Healthy(env, backward, previous, baseline.value) ==> report.rollbackVerified
      ensures ok <==> report.rollbackVerified && env.records(old(records))
      ensures ok ==> report.status == RolledBack
      ensures report.events ==
              if report.rollbackVerified then old(report.events) + [RolledBack] else old(report.events)
      ensures records == |report.events|
    {
      var done := Rollback();
      if !done {
        return false;
      }
      var verified := VerifyPrevious();
      if !verified {
        return false;
      }
      report := report.(rollbackVerified := true);
      ok := Stage(RolledBack);
    }

    /** The candidate was seen on both planes, its routes answered and the baseline was reproduced. */
    predicate CandidateObserved()
      reads this`baseline, this`forward
    {
      baseline.Some? && Observed(forward, candidate, baseline.value) && RoutesPassed(forward)
    }

    /** Verification of the candidate succeeded. */
    predicate Verified()
      reads this`baseline, this`forward
    {
      CandidateObserved() && env.cohort != Some(false) && !drill
    }

    /** The number of the record that announces the rollback: after ACTIVATING, after VERIFYING, or after a
        PASS that could not be recorded. */
    function Announcement(): nat
      reads this`baseline, this`forward
    {
      if !forward.deployed then 1 else if Verified() then 3 else 2
    }

    /** The activation was the first deploy command, what was observed of it is what the outside answered
        after the baseline was read, and a healthy candidate is observed. */
    ghost predicate Activation()
      requires baseline.Some?
      reads this`baseline, this`forward
    {
      && Genuine(env, forward) && forward.attempted == 1 && forward.commandAt == 0
      && (forward.history.Some? ==> forward.historyAt >= 1)
      && (Healthy(env, forward, candidate, baseline.value) && env.records(1) ==> CandidateObserved())
    }

    /** How an activation that did not pass is undone, when record number `at` announces it. */
    ghost predicate Undone(at: nat)
      requires baseline.Some?
      reads this`baseline, this`backward, this`report
    {
      // The rollback is attempted, once and as the second deploy command, exactly when the announcement
      // could be recorded.
      && (backward == NOTHING || (backward.attempted == 1 && backward.commandAt == 1)) && Genuine(env, backward)
      && (backward.attempted == 1 <==> env.records(at))
      // The flag says what was observed, and a healthy previous version is.
      && (report.rollbackVerified <==> Observed(backward, previous, baseline.value))
      && (Healthy(env, backward, previous, baseline.value) ==> report.rollbackVerified)
      // A verified rollback is reported as one exactly when the next record can be written.
      && report.status in {RollingBack, RolledBack, RollbackUnverified}
      && (report.status == RollingBack <==> !env.records(at))
      && (report.status == RolledBack <==> report.rollbackVerified && env.records(at + 1))
    }

    /** The report writer never raises. */
    ghost predicate AllRecord()
    {
      forall n: nat :: env.records(n)
    }

    /** After a failed activation or verification; the result is where the report writer raised. */
    method Recover() returns (raised: Option<Status>)
      requires baseline.Some? && backward == NOTHING && !report.rollbackVerified && commands == 1
      requires records == |report.events|
      modifies this`listings, this`edges, this`histories, this`commands, this`records, this`backward, this`report
      ensures Undone(old(records)) && (backward.history.Some? ==> backward.historyAt >= old(histories))
      ensures raised == Some(RollingBack) <==> !env.records(old(records))
      ensures raised.Some? ==> raised.value in {RollingBack, RollbackUnverified}
      ensures AllRecord() ==> raised.None?
      ensures AllRecord() && old(report.events) in BEFORE_ROLLBACK ==> report.events in Trails(report.status)
    {
      ghost var trail := report.events;
      var rolling := Stage(RollingBack);
      if !rolling {
        return Some(RollingBack);
      }
      var restored := Backward();
      if !restored {
        var told := Stage(RollbackUnverified);
        if !told {
          return Some(RollbackUnverified);
        }
      }
      assert AllRecord() ==> report.events == trail + [RollingBack] + [report.status];
      TrailsEnd(trail, report.status);
      raised := None;
    }

    /** The candidate is either promoted or undone. */
    ghost predicate Concluded()
      requires baseline.Some?
      reads this`baseline, this`forward, this`backward, this`report
    {
      && Activation()
      // PASS is exactly a verified candidate whose PASS could be recorded; anything else is undone.
      && (if Verified() && env.records(2)
          then report.status == Pass && backward == NOTHING && !report.rollbackVerified
          else Undone(Announcement()))
      && (backward.history.Some? ==> backward.historyAt >= 1)
      && (forward.history.Some? && backward.history.Some? ==> forward.historyAt < backward.historyAt)
    }

    /** Both halves, once the activation was announced; the result is where the report writer raised. */
    method Conclude() returns (raised: Option<Status>)
      requires baseline.Some? && report == Report(Activating, [Activating], false) && records == 1
      requires forward == NOTHING && backward == NOTHING && commands == 0 && histories == 1
      modifies this`listings, this`edges, this`histories, this`routes, this`commands, this`records,
        this`forward, this`backward, this`report
      ensures Concluded()
      ensures raised == Some(RollingBack) <==> report.status == RollingBack
      ensures raised.Some? ==> raised.value in {RollingBack, RollbackUnverified}
      ensures AllRecord() ==> raised.None? && report.events in Trails(report.status)
    {
      raised := None;
      var ok := Forward();
      if !ok {
        raised := Recover();
      }
    }

    /** What a run that passed the preflight leaves behind, for every environment. */
    ghost predicate Promoted(r: Ended)
      requires baseline.Some?
      reads this`baseline, this`forward, this`backward, this`report
    {
      if !env.records(0) then
        // The activation could not be announced: nothing is deployed.
        && r == RecordRaised(Activating) && report == Report(Activating, [Activating], false)
        && forward == NOTHING && backward == NOTHING
      else
        && Concluded()
        && (r == RecordRaised(RollingBack) <==> report.status == RollingBack)
        && (r.Returned? ==> r.report == report)
    }

    /** The part after the preflight. */
    method Promote() returns (r: Ended)
      requires baseline.Some? && report == Report(Preflight, [], false) && records == 0
      requires forward == NOTHING && backward == NOTHING && commands == 0 && histories == 1
      modifies this`listings, this`edges, this`histories, this`routes, this`commands, this`records,
        this`forward, this`backward, this`report
      ensures Promoted(r)
      ensures AllRecord() ==> r.Returned? && report.events in Trails(report.status)
    {
      var announced := Stage(Activating);
      if !announced {
        return RecordRaised(Activating);
      }
      var raised := Conclude();
      if raised.Some? {
        return RecordRaised(raised.value);
      }
      var final := Record();
      r := if final then Returned(report) else RecordRaised(report.status);
    }

    /** The whole run: it ends in the preflight exactly when a gate fails, another version is active or the
        history cannot be read, and otherwise as `Promoted` says. With a report writer that never raises it
        returns, its trail of events is one of the six possible, an activation that did not pass is rolled
        back, and the exit code is zero exactly for a verified candidate and for a drill that rolled back. */
    method RunControlled() returns (r: Ended)
      requires Untouched()
      modifies this
      ensures baseline.Some? <==>
              GatesHold(env.files) && Reading(env, 0, 0) == Some(previous) && env.history(0).HistoryRead?
      ensures baseline.Some? ==> env.history(0) == HistoryRead(baseline.value) && Promoted(r)
      ensures baseline.None? ==> forward == NOTHING && backward == NOTHING
      ensures baseline.None? ==> report == Report(PreflightFailed, [], false)
      ensures baseline.None? ==> r == if env.records(0) then Returned(report) else RecordRaised(PreflightFailed)
      ensures AllRecord() ==> r.Returned? && report.events in Trails(report.status)
      ensures AllRecord() ==> (backward.attempted == 1 <==> forward.attempted == 1 && report.status != Pass)
      ensures AllRecord() ==> (ExitCode() == 0 <==> Verified() || (drill && report.rollbackVerified))
      // PASS and a verified rollback, in plain observations.
      ensures baseline.Some? && env.records(0) ==>
        (report.status == Pass <==>
           && forward.deployed && candidate in forward.active && Some(candidate) in forward.edge
           && |forward.routes| == 4 && (forall reply | reply in forward.routes :: reply == RouteAnswered(200, true))
           && forward.history == baseline && env.cohort != Some(false) && !drill && env.records(2))
      ensures report.rollbackVerified ==>
        && backward.deployed && previous in backward.active && Some(previous) in backward.edge
        && backward.history == baseline
      // A raising writer suppresses the rollback in exactly one way.
      ensures forward.attempted == 1 && report.status != Pass ==>
        (backward.attempted == 1 <==> r != RecordRaised(RollingBack))
      ensures r == RecordRaised(RollingBack) <==>
        forward.attempted == 1 && report.status != Pass && !env.records(Announcement())
    {
      var passed := RunPreflight();
      if !passed {
        report := report.(status := PreflightFailed);
        var written := Record();
        return if written then Returned(report) else RecordRaised(PreflightFailed);
      }
      r := Promote();
    }

    /** The process exit code. */
    function ExitCode(): (code: nat)
      reads this
      ensures code == 0 || code == 1
    {
      if report.status == Pass || (drill && report.status == RolledBack) then 0 else 1
    }
  }

  // ---------------------------------------------------------------- what a raising report writer does

  /** Files that agree with each other. */
  function AgreeingFiles(): Files {
    var variables := map["UNIFIED_RESEARCH_MANIFEST_KEY" := "root", "UNIFIED_RESEARCH_MANIFEST_SHA256" := "",
                         "SEC_ENGINE_MANIFEST_KEY" := "financial", "SEC_ENGINE_MANIFEST_SHA256" := ""];
    Files((s: string) => s, WORKER, variables, "PASS", Pin("root", ""), "", Pin("financial", ""), map[], map[], true)
  }

  lemma FilesAgree()
    ensures GatesHold(AgreeingFiles())
  {
    Names();
  }

  /** An outside that serves `version` everywhere, with the deploy commands and records given. */
  function Outside(version: string, deploys: nat -> bool, records: nat -> bool): Environment {
    Environment((n: nat) => Listed([Deployment(0, [(version, 100)])]), (n: nat) => EdgeAnswered(Some(version)),
                (n: nat) => HistoryRead(""), (n: nat) => RouteAnswered(200, true), (n: nat) => true,
                (n: nat) => true, AgreeingFiles(), deploys, None, records, (v: string) => true)
  }

  lemma OutsideReads(env: Environment, version: string, n: nat)
    requires env.valid(version) && env.listing(n) == Listed([Deployment(0, [(version, 100)])])
    ensures ReadActive(env, n).0 == Some(version)
  {
    assert SingleActiveVersion(env.valid, [Deployment(0, [(version, 100)])]) == Active(version);
  }

  /** The suppression happens: activation fails, announcing the rollback raises, nothing is rolled back. */
  method SuppressedRollback(candidate: string, previous: string)
      returns (r: Ended, activations: nat, rollbacks: nat)
    ensures r == RecordRaised(RollingBack) && activations == 1 && rollbacks == 0
  {
    var env := Outside(previous, n => n != 0, n => n != 1);
    var p := new Promotion(env, candidate, previous, false);
    FilesAgree();
    OutsideReads(env, previous, 0);
    r := p.RunControlled();
    activations, rollbacks := p.forward.attempted, p.backward.attempted;
  }

  /** A verified rollback that is not reported as one: activation fails, the previous version is observed
      again, and recording that raises. */
  method UnreportedRollback(candidate: string, previous: string) returns (status: Status, verified: bool)
    ensures status == RollbackUnverified && verified
  {
    var env := Outside(previous, n => n != 0, n => n != 2);
    var p := new Promotion(env, candidate, previous, false);
    FilesAgree();
    forall n: nat ensures ReadActive(env, n).0 == Some(previous) { OutsideReads(env, previous, n); }
    var _ := p.RunControlled();
    status, verified := p.report.status, p.report.rollbackVerified;
  }
}
